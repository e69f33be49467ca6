/**
 * Sums, minima and maxima of finite sequences of reals: the arithmetic that the
 * source's accumulating loops compute, written as functions so that each loop
 * can be proved against them. Every fold runs left to right, as the loops do.
 */
module Reals {

  function Min(a: real, b: real): real { if a <= b then a else b }

  function Max(a: real, b: real): real { if a >= b then a else b }

  function Abs(a: real): real { if a < 0.0 then -a else a }

  /** (x - y) squared. */
  function SqDiff(x: real, y: real): real { (x - y) * (x - y) }

  /** The product a * b, kept as a term of its own so that loops can name it. */
  function Prod(a: real, b: real): real { a * b }

  /** The sum s[0] + ... + s[|s| - 1]. */
  function Sum(s: seq<real>): real
  {
    if s == [] then 0.0 else Sum(s[..|s| - 1]) + s[|s| - 1]
  }

  /** `fold(min, init, s)`: the running minimum that starts at init. */
  function FoldMin(init: real, s: seq<real>): real
  {
    if s == [] then init else Min(FoldMin(init, s[..|s| - 1]), s[|s| - 1])
  }

  /** The running minimum is below its start and below every element, and it is the start or one of the elements. */
  lemma {:induction false} FoldMinIsMinimum(init: real, s: seq<real>)
    ensures FoldMin(init, s) <= init
    ensures forall i :: 0 <= i < |s| ==> FoldMin(init, s) <= s[i]
    ensures FoldMin(init, s) == init || exists i :: 0 <= i < |s| && FoldMin(init, s) == s[i]
  {
    if s != [] {
      var s' := s[..|s| - 1];
      FoldMinIsMinimum(init, s');
      assert forall i :: 0 <= i < |s'| ==> s'[i] == s[i];
    }
  }

  /** `fold(max, init, s)`: the running maximum that starts at init, as `std::max` keeps it. */
  function FoldMax(init: real, s: seq<real>): real
  {
    if s == [] then init else Max(FoldMax(init, s[..|s| - 1]), s[|s| - 1])
  }

  /** The running maximum is above its start and above every element, and it is the start or one of the elements. */
  lemma {:induction false} FoldMaxIsMaximum(init: real, s: seq<real>)
    ensures init <= FoldMax(init, s)
    ensures forall i :: 0 <= i < |s| ==> s[i] <= FoldMax(init, s)
    ensures FoldMax(init, s) == init || exists i :: 0 <= i < |s| && FoldMax(init, s) == s[i]
  {
    if s != [] {
      var s' := s[..|s| - 1];
      FoldMaxIsMaximum(init, s');
      assert forall i :: 0 <= i < |s'| ==> s'[i] == s[i];
    }
  }

  /** Extending the prefix by one element takes one more maximum. */
  lemma FoldMaxStep(init: real, s: seq<real>, k: int)
    requires 0 <= k < |s|
    ensures FoldMax(init, s[..k + 1]) == Max(FoldMax(init, s[..k]), s[k])
  {
    assert s[..k + 1][..k] == s[..k];
  }

  /** The largest element, found left to right. */
  function SeqMax(s: seq<real>): real
    requires |s| > 0
  {
    if |s| == 1 then s[0] else Max(SeqMax(s[..|s| - 1]), s[|s| - 1])
  }

  /** The smallest element, found left to right. */
  function SeqMin(s: seq<real>): real
    requires |s| > 0
  {
    if |s| == 1 then s[0] else Min(SeqMin(s[..|s| - 1]), s[|s| - 1])
  }

  /** SeqMax is an element of s and no element exceeds it. */
  lemma {:induction false} SeqMaxIsMaximum(s: seq<real>)
    requires |s| > 0
    ensures SeqMax(s) in s
    ensures forall i :: 0 <= i < |s| ==> s[i] <= SeqMax(s)
  {
    if |s| > 1 {
      var s' := s[..|s| - 1];
      SeqMaxIsMaximum(s');
      assert forall i :: 0 <= i < |s'| ==> s'[i] == s[i];
      assert SeqMax(s') in s;
    }
  }

  /** SeqMin is an element of s and no element is below it. */
  lemma {:induction false} SeqMinIsMinimum(s: seq<real>)
    requires |s| > 0
    ensures SeqMin(s) in s
    ensures forall i :: 0 <= i < |s| ==> SeqMin(s) <= s[i]
  {
    if |s| > 1 {
      var s' := s[..|s| - 1];
      SeqMinIsMinimum(s');
      assert forall i :: 0 <= i < |s'| ==> s'[i] == s[i];
      assert SeqMin(s') in s;
    }
  }

  /** Appending one element adds it to the sum. */
  lemma SumAppend(s: seq<real>, x: real)
    ensures Sum(s + [x]) == Sum(s) + x
  {
    assert (s + [x])[..|s|] == s;
  }

  /** The sum of a concatenation is the sum of the parts. */
  lemma {:induction false} SumConcat(s: seq<real>, t: seq<real>)
    ensures Sum(s + t) == Sum(s) + Sum(t)
    decreases |t|
  {
    if t == [] {
      assert s + t == s;
    } else {
      var t' := t[..|t| - 1];
      assert s + t == (s + t') + [t[|t| - 1]];
      SumAppend(s + t', t[|t| - 1]);
      SumConcat(s, t');
      SumAppend(t', t[|t| - 1]);
      assert t' + [t[|t| - 1]] == t;
    }
  }

  /** A sequence of n copies of c sums to n * c. */
  lemma {:induction false} SumConstant(s: seq<real>, c: real)
    requires forall i :: 0 <= i < |s| ==> s[i] == c
    ensures Sum(s) == |s| as real * c
  {
    if s != [] {
      SumConstant(s[..|s| - 1], c);
    }
  }

  /** Each element between lo and hi bounds the sum between |s| * lo and |s| * hi. */
  lemma {:induction false} SumBounds(s: seq<real>, lo: real, hi: real)
    requires forall i :: 0 <= i < |s| ==> lo <= s[i] <= hi
    ensures |s| as real * lo <= Sum(s) <= |s| as real * hi
  {
    if s != [] {
      SumBounds(s[..|s| - 1], lo, hi);
    }
  }

  /** A sum of non-negative terms is non-negative. */
  lemma SumNonNegative(s: seq<real>)
    requires forall i :: 0 <= i < |s| ==> 0.0 <= s[i]
    ensures 0.0 <= Sum(s)
  {
    if s != [] {
      SeqMaxIsMaximum(s);
      SumBounds(s, 0.0, SeqMax(s));
    }
  }

  /** Replacing one element changes the sum by the difference. */
  lemma {:induction false} SumUpdate(s: seq<real>, k: int, x: real)
    requires 0 <= k < |s|
    ensures Sum(s[k := x]) == Sum(s) - s[k] + x
  {
    if k < |s| - 1 {
      assert s[k := x][..|s| - 1] == s[..|s| - 1][k := x];
      SumUpdate(s[..|s| - 1], k, x);
    } else {
      assert s[k := x][..|s| - 1] == s[..|s| - 1];
    }
  }

  /** Extending the prefix by one element takes one more minimum. */
  lemma FoldMinStep(init: real, s: seq<real>, k: int)
    requires 0 <= k < |s|
    ensures FoldMin(init, s[..k + 1]) == Min(FoldMin(init, s[..k]), s[k])
  {
    assert s[..k + 1][..k] == s[..k];
  }

  /** Extending the prefix by one element adds it to the sum. */
  lemma SumStep(s: seq<real>, k: int)
    requires 0 <= k < |s|
    ensures Sum(s[..k + 1]) == Sum(s[..k]) + s[k]
  {
    assert s[..k + 1][..k] == s[..k];
  }

  /** An eight-element sum written out term by term. */
  lemma SumOfEight(s: seq<real>)
    requires |s| == 8
    ensures Sum(s) == s[0] + s[1] + s[2] + s[3] + s[4] + s[5] + s[6] + s[7]
  {
    assert s[..8] == s;
    SumStep(s, 7);
    SumStep(s, 6);
    SumStep(s, 5);
    SumStep(s, 4);
    SumStep(s, 3);
    SumStep(s, 2);
    SumStep(s, 1);
    SumStep(s, 0);
  }

  /** Two sequences that are re-orderings of each other under an index map p have the same running minimum from any start. */
  lemma FoldMinReindexed(init: real, s: seq<real>, t: seq<real>, p: int -> int)
    requires forall i :: 0 <= i < |s| ==> 0 <= p(i) < |t| && s[i] == t[p(i)]
    requires forall j :: 0 <= j < |t| ==> 0 <= p(j) < |s| && t[j] == s[p(j)]
    ensures FoldMin(init, s) == FoldMin(init, t)
  {
    FoldMinIsMinimum(init, s);
    FoldMinIsMinimum(init, t);
    var ms, mt := FoldMin(init, s), FoldMin(init, t);
    if ms != init {
      var i :| 0 <= i < |s| && ms == s[i];
      assert mt <= t[p(i)];
    }
    if mt != init {
      var j :| 0 <= j < |t| && mt == t[j];
      assert ms <= s[p(j)];
    }
  }

  /** Dividing bounds n * lo <= x <= n * hi by a positive n. */
  lemma DivideBounds(x: real, n: real, lo: real, hi: real)
    requires n > 0.0 && n * lo <= x <= n * hi
    ensures lo <= x / n <= hi
  {
    assert x / n * n == x;
  }

  /** a / b, as a function so that equal operands give equal quotients without arithmetic reasoning. */
  function Quotient(a: real, b: real): real
    requires b != 0.0
  {
    a / b
  }

  /** A non-positive number over a positive one is non-positive, and zero over any non-zero number is zero. */
  lemma QuotientSign(x: real, h: real)
    requires h != 0.0
    ensures x <= 0.0 && 0.0 < h ==> x / h <= 0.0
    ensures x == 0.0 ==> x / h == 0.0
  {
    if x <= 0.0 && 0.0 < h {
      assert x / h * h == x;
    }
  }

  /** The weighted sum k[0] * m[0] + ... + k[n - 1] * m[n - 1]. */
  function Dot(k: seq<real>, m: seq<real>): real
    requires |k| == |m|
  {
    if k == [] then 0.0 else Dot(k[..|k| - 1], m[..|m| - 1]) + Prod(k[|k| - 1], m[|m| - 1])
  }

  /** Extending both prefixes by one element adds one more product. */
  lemma DotStep(k: seq<real>, m: seq<real>, i: int)
    requires |k| == |m| && 0 <= i < |k|
    ensures Dot(k[..i + 1], m[..i + 1]) == Dot(k[..i], m[..i]) + Prod(k[i], m[i])
  {
    assert k[..i + 1][..i] == k[..i];
    assert m[..i + 1][..i] == m[..i];
  }

  /** A non-negative weight keeps the order of bounds: w * lo <= w * x <= w * hi. */
  lemma ScaleBetween(w: real, x: real, lo: real, hi: real)
    requires 0.0 <= w && lo <= x <= hi
    ensures w * lo <= Prod(w, x) <= w * hi
  {
    ProductNonNegative(w, x - lo);
    ProductNonNegative(w, hi - x);
  }

  /** The product of two positive reals is positive. */
  lemma ProductPositive(a: real, b: real)
    requires 0.0 < a && 0.0 < b
    ensures 0.0 < a * b
  {
  }

  /** The product of two non-negative reals is non-negative. */
  lemma ProductNonNegative(a: real, b: real)
    requires 0.0 <= a && 0.0 <= b
    ensures 0.0 <= a * b
  {
  }

  /** (a + b) * c == a * c + b * c. */
  lemma Distribute(a: real, b: real, c: real)
    ensures (a + b) * c == a * c + b * c
  {
  }

  /** Non-negative weights on values in [lo, hi] give a weighted sum between lo and hi times the total weight. */
  lemma {:induction false} DotBounds(k: seq<real>, m: seq<real>, lo: real, hi: real)
    requires |k| == |m|
    requires forall i :: 0 <= i < |k| ==> 0.0 <= k[i]
    requires forall i :: 0 <= i < |m| ==> lo <= m[i] <= hi
    ensures Sum(k) * lo <= Dot(k, m) <= Sum(k) * hi
  {
    if k != [] {
      var n := |k| - 1;
      var k', m' := k[..n], m[..n];
      var w, x := k[n], m[n];
      var sp, dp := Sum(k'), Dot(k', m');
      assert sp * lo <= dp <= sp * hi by {
        DotBounds(k', m', lo, hi);
      }
      assert w * lo <= Prod(w, x) <= w * hi by {
        ScaleBetween(w, x, lo, hi);
      }
      assert Sum(k) == sp + w && Dot(k, m) == dp + Prod(w, x);
      AddBounds(sp, dp, w, Prod(w, x), lo, hi);
    }
  }

  /** Adding two bounded quantities adds their weights. */
  lemma AddBounds(s: real, d: real, w: real, p: real, lo: real, hi: real)
    requires s * lo <= d <= s * hi && w * lo <= p <= w * hi
    ensures (s + w) * lo <= d + p <= (s + w) * hi
  {
    Distribute(s, w, lo);
    Distribute(s, w, hi);
  }

  /** A weighted mean with non-negative weights of positive total lies between the smallest and largest value. */
  lemma {:induction false} WeightedMeanBounds(k: seq<real>, m: seq<real>, lo: real, hi: real)
    requires |k| == |m| && Sum(k) > 0.0
    requires forall i :: 0 <= i < |k| ==> 0.0 <= k[i]
    requires forall i :: 0 <= i < |m| ==> lo <= m[i] <= hi
    ensures lo <= Dot(k, m) / Sum(k) <= hi
  {
    var total, d := Sum(k), Dot(k, m);
    assert total * lo <= d <= total * hi by {
      DotBounds(k, m, lo, hi);
    }
    DivideBounds(d, total, lo, hi);
  }

  /** Every element of a non-negative sequence is at most its sum. */
  lemma SumAtLeastElement(s: seq<real>, k: int)
    requires 0 <= k < |s|
    requires forall i :: 0 <= i < |s| ==> 0.0 <= s[i]
    ensures s[k] <= Sum(s)
  {
    SumUpdate(s, k, 0.0);
    SumNonNegative(s[k := 0.0]);
  }

  /** The same weight on every value: the weighted sum is that weight times the sum of the values. */
  lemma {:induction false} DotConstantValue(k: seq<real>, m: seq<real>, c: real)
    requires |k| == |m|
    requires forall i :: 0 <= i < |m| ==> m[i] == c
    ensures Dot(k, m) == Sum(k) * c
  {
    if k != [] {
      var n := |k| - 1;
      DotConstantValue(k[..n], m[..n], c);
    }
  }
}
