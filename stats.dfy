/**
 * src/stats.cpp: summary statistics of the first `size` entries of a float
 * buffer. Floats are modelled as reals, so no rounding takes place.
 */
module Stats {
  import opened Reals

  function Sq(x: real): real { x * x }

  /** The squared deviation of each element from m. */
  function Deviations(s: seq<real>, m: real): (ds: seq<real>)
    ensures |ds| == |s|
    ensures forall i :: 0 <= i < |s| ==> ds[i] == Sq(s[i] - m)
  {
    seq(|s|, i requires 0 <= i < |s| => Sq(s[i] - m))
  }

  /** The arithmetic mean of a non-empty sequence. */
  function MeanOf(s: seq<real>): real
    requires |s| > 0
  {
    Sum(s) / |s| as real
  }

  /** The sample variance: squared deviations from the mean over |s| - 1. */
  function SampleVariance(s: seq<real>): real
    requires |s| >= 2
  {
    Sum(Deviations(s, MeanOf(s))) / (|s| - 1) as real
  }

  /** s is in non-decreasing order. */
  predicate SortedSeq(s: seq<real>)
  {
    forall i, j :: 0 <= i < j < |s| ==> s[i] <= s[j]
  }

  /** x put into its place in a sorted sequence. */
  function Insert(x: real, s: seq<real>): seq<real>
  {
    if s == [] then [x]
    else if x <= s[0] then [x] + s
    else [s[0]] + Insert(x, s[1..])
  }

  /** Inserting adds exactly x to the elements. */
  lemma {:induction false} InsertPermutation(x: real, s: seq<real>)
    ensures multiset(Insert(x, s)) == multiset(s) + multiset{x}
  {
    if s != [] && x > s[0] {
      InsertPermutation(x, s[1..]);
      assert s == [s[0]] + s[1..];
    }
  }

  /** Inserting into a sorted sequence keeps it sorted. */
  lemma {:induction false} InsertSorted(x: real, s: seq<real>)
    requires SortedSeq(s)
    ensures SortedSeq(Insert(x, s))
  {
    if s == [] {
    } else if x <= s[0] {
      ConsSorted(x, s);
    } else {
      var rest := s[1..];
      var t := Insert(x, rest);
      assert SortedSeq(rest) && forall j :: 0 <= j < |rest| ==> s[0] <= rest[j] by {
        assert forall j :: 0 <= j < |rest| ==> rest[j] == s[j + 1];
      }
      InsertSorted(x, rest);
      InsertPermutation(x, rest);
      BoundFromMultiset(s[0], rest, x, t);
      ConsSorted(s[0], t);
    }
  }

  /** A lower bound of rest and of x is a lower bound of any t with the elements of rest plus x. */
  lemma BoundFromMultiset(h: real, rest: seq<real>, x: real, t: seq<real>)
    requires forall j :: 0 <= j < |rest| ==> h <= rest[j]
    requires h <= x && multiset(t) == multiset(rest) + multiset{x}
    ensures forall k :: 0 <= k < |t| ==> h <= t[k]
  {
    forall k | 0 <= k < |t|
      ensures h <= t[k]
    {
      assert t[k] in multiset(t);
      if t[k] != x {
        assert t[k] in rest;
      }
    }
  }

  /** A sorted sequence with a lower bound in front stays sorted. */
  lemma ConsSorted(h: real, t: seq<real>)
    requires SortedSeq(t)
    requires forall k :: 0 <= k < |t| ==> h <= t[k]
    ensures SortedSeq([h] + t)
  {
    var r := [h] + t;
    forall i, j | 0 <= i < j < |r|
      ensures r[i] <= r[j]
    {
      assert r[j] == t[j - 1];
      if i > 0 {
        assert r[i] == t[i - 1];
      }
    }
  }

  /** The sorted permutation of s; `std::sort` on the copy leaves this in it. */
  function SortedCopy(s: seq<real>): (r: seq<real>)
    ensures SortedSeq(r)
    ensures multiset(r) == multiset(s)
  {
    if s == [] then []
    else
      var init := s[..|s| - 1];
      assert s == init + [s[|s| - 1]];
      InsertSorted(s[|s| - 1], SortedCopy(init));
      InsertPermutation(s[|s| - 1], SortedCopy(init));
      Insert(s[|s| - 1], SortedCopy(init))
  }

  /** `Stats::mean`: the running sum of the first size entries, over size. */
  method Mean(a: array<real>, size: int) returns (r: real)
    requires 0 < size <= a.Length
    ensures r == MeanOf(a[..size])
  {
    var avgValue := 0.0;
    for i := 0 to size
      invariant avgValue == Sum(a[..i])
    {
      SumStep(a[..size], i);
      assert a[..size][..i] == a[..i] && a[..size][..i + 1] == a[..i + 1];
      avgValue := avgValue + a[i];
    }
    r := avgValue / size as real;
  }

  /** `Stats::std`: the square root of the sample variance; the root is the parameter sqrt. */
  method Std(a: array<real>, size: int, sqrt: real -> real) returns (r: real)
    requires 2 <= size <= a.Length
    ensures r == sqrt(SampleVariance(a[..size]))
  {
    var avgValue := Mean(a, size);
    ghost var ds := Deviations(a[..size], avgValue);
    var stdValue := 0.0;
    for i := 0 to size
      invariant stdValue == Sum(ds[..i])
    {
      SumStep(ds, i);
      stdValue := stdValue + Sq(a[i] - avgValue);
    }
    assert ds[..size] == ds;
    r := sqrt(stdValue / (size - 1) as real);
  }

  /** `Stats::median`: the middle element of a sorted copy, or the mean of the two middle elements when size is even. */
  method Median(a: array<real>, size: int) returns (r: real)
    requires 0 < size <= a.Length
    ensures size % 2 != 0 ==> r == SortedCopy(a[..size])[size / 2]
    ensures size % 2 == 0 ==> r == (SortedCopy(a[..size])[(size - 1) / 2] + SortedCopy(a[..size])[size / 2]) / 2.0
  {
    var copy := new real[size];
    for i := 0 to size
      invariant copy[..i] == a[..i]
    {
      copy[i] := a[i];
    }
    assert copy[..] == a[..size];
    var sorted := SortedCopy(copy[..]);
    assert |sorted| == size by {
      assert |multiset(sorted)| == |multiset(copy[..])|;
    }
    if size % 2 != 0 {
      r := sorted[size / 2];
    } else {
      r := (sorted[(size - 1) / 2] + sorted[size / 2]) / 2.0;
    }
  }

  /** `Stats::max`: the running maximum from the first entry; the first entry itself when size is at most 1. */
  method Max(a: array<real>, size: int) returns (r: real)
    requires 0 < a.Length && size <= a.Length
    ensures forall i :: 0 <= i < size ==> a[i] <= r
    ensures size > 0 ==> exists i :: 0 <= i < size && r == a[i]
    ensures size <= 1 ==> r == a[0]
  {
    r := a[0];
    ghost var at := 0;
    var i := 1;
    while i < size
      invariant 1 <= i <= a.Length && (i == 1 || i <= size)
      invariant 0 <= at < i && r == a[at]
      invariant forall k :: 0 <= k < i ==> a[k] <= r
    {
      if r < a[i] {
        r, at := a[i], i;
      }
      i := i + 1;
    }
  }

  /** `Stats::min`: the running minimum from the first entry; the first entry itself when size is at most 1. */
  method Min(a: array<real>, size: int) returns (r: real)
    requires 0 < a.Length && size <= a.Length
    ensures forall i :: 0 <= i < size ==> r <= a[i]
    ensures size > 0 ==> exists i :: 0 <= i < size && r == a[i]
    ensures size <= 1 ==> r == a[0]
  {
    r := a[0];
    ghost var at := 0;
    var i := 1;
    while i < size
      invariant 1 <= i <= a.Length && (i == 1 || i <= size)
      invariant 0 <= at < i && r == a[at]
      invariant forall k :: 0 <= k < i ==> r <= a[k]
    {
      if r > a[i] {
        r, at := a[i], i;
      }
      i := i + 1;
    }
  }

  /** The mean lies between the smallest and the largest element. */
  lemma {:induction false} MeanBetweenMinAndMax(s: seq<real>)
    requires |s| > 0
    ensures SeqMin(s) <= MeanOf(s) <= SeqMax(s)
  {
    var lo, hi, n, total := SeqMin(s), SeqMax(s), |s| as real, Sum(s);
    assert n * lo <= total <= n * hi by {
      SeqMinIsMinimum(s);
      SeqMaxIsMaximum(s);
      SumBounds(s, lo, hi);
    }
    DivideBounds(total, n, lo, hi);
  }

  /** The mean of n copies of c is c. */
  lemma MeanOfConstant(s: seq<real>, c: real)
    requires |s| > 0
    requires forall i :: 0 <= i < |s| ==> s[i] == c
    ensures MeanOf(s) == c
  {
    SumConstant(s, c);
  }

  /** The sample variance is never negative, and it is zero when every element is the same. */
  lemma SampleVarianceFacts(s: seq<real>)
    requires |s| >= 2
    ensures SampleVariance(s) >= 0.0
    ensures (forall i :: 0 <= i < |s| ==> s[i] == s[0]) ==> SampleVariance(s) == 0.0
  {
    var ds := Deviations(s, MeanOf(s));
    SumNonNegative(ds);
    if forall i :: 0 <= i < |s| ==> s[i] == s[0] {
      MeanOfConstant(s, s[0]);
      SumConstant(ds, 0.0);
    }
  }

  /** Every element of the sorted copy is an element of the input, so it lies between the input's minimum and maximum. */
  lemma SortedCopyBetweenMinAndMax(s: seq<real>, k: int)
    requires 0 <= k < |s|
    ensures |SortedCopy(s)| == |s|
    ensures SeqMin(s) <= SortedCopy(s)[k] <= SeqMax(s)
  {
    var t := SortedCopy(s);
    SeqMinIsMinimum(s);
    SeqMaxIsMaximum(s);
    assert |multiset(t)| == |multiset(s)|;
    assert t[k] in multiset(s);
  }

  /** The median lies between the minimum and the maximum of the input. */
  lemma MedianBetweenMinAndMax(s: seq<real>)
    requires |s| > 0
    ensures |SortedCopy(s)| == |s|
    ensures |s| % 2 != 0 ==> SeqMin(s) <= SortedCopy(s)[|s| / 2] <= SeqMax(s)
    ensures |s| % 2 == 0 ==> SeqMin(s) <= (SortedCopy(s)[(|s| - 1) / 2] + SortedCopy(s)[|s| / 2]) / 2.0 <= SeqMax(s)
  {
    SortedCopyBetweenMinAndMax(s, |s| / 2);
    SortedCopyBetweenMinAndMax(s, (|s| - 1) / 2);
  }
}
