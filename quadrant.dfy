/**
 * src/quadrant.cpp: a second copy of the quarter-turn formulas and the
 * rotation-minimised comparison of two 8-vectors of octant ("quadrant")
 * averages, used by the map denoiser of src/Map/denoise.cpp.
 */
module Quadrant {
  import opened Octant
  import opened Reals

  /** Number of quadrants, `Quadrant::NQ`. */
  const NQ: int := 8

  /** The initial running minimum of `compare_quadrants`: the largest finite `float`. */
  const FltMax: real := 340282346638528859811704183484516925440.0

  /** `Quadrant::rotate_w`: the same formulas as `Octanct::rotate_w`. */
  function RotateW(q: Byte, n: int): (r: Byte)
    ensures IsOctant(r)
    ensures BitOf(r, 2) == BitOf(q, 2)
  {
    var m := CppRem4(n);
    var w := BitOf(q, 2);
    var u := if m == 1 then NotBitOf(q, 1)
             else if m == 2 then NotBitOf(q, 0)
             else if m == 3 then BitOf(q, 1)
             else BitOf(q, 0);
    var v := if m == 1 then BitOf(q, 0)
             else if m == 2 then NotBitOf(q, 1)
             else if m == 3 then NotBitOf(q, 0)
             else BitOf(q, 1);
    Pack(w, v, u)
  }

  /** `Quadrant::rotate_v`: its one- and three-turn formulas are swapped with respect to `Octanct::rotate_v`. */
  function RotateV(q: Byte, n: int): (r: Byte)
    ensures IsOctant(r)
    ensures BitOf(r, 1) == BitOf(q, 1)
  {
    var m := CppRem4(n);
    var v := BitOf(q, 1);
    var u := if m == 1 then BitOf(q, 2)
             else if m == 2 then NotBitOf(q, 0)
             else if m == 3 then NotBitOf(q, 2)
             else BitOf(q, 0);
    var w := if m == 1 then NotBitOf(q, 0)
             else if m == 2 then NotBitOf(q, 2)
             else if m == 3 then BitOf(q, 0)
             else BitOf(q, 2);
    Pack(w, v, u)
  }

  /** `Quadrant::rotate_u`: the same formulas as `Octanct::rotate_u`. */
  function RotateU(q: Byte, n: int): (r: Byte)
    ensures IsOctant(r)
    ensures BitOf(r, 0) == BitOf(q, 0)
  {
    var m := CppRem4(n);
    var u := BitOf(q, 0);
    var v := if m == 1 then NotBitOf(q, 2)
             else if m == 2 then NotBitOf(q, 1)
             else if m == 3 then BitOf(q, 2)
             else BitOf(q, 1);
    var w := if m == 1 then BitOf(q, 1)
             else if m == 2 then NotBitOf(q, 2)
             else if m == 3 then NotBitOf(q, 1)
             else BitOf(q, 2);
    Pack(w, v, u)
  }

  /** The w and u rotations of both files agree for every byte and every turn count. */
  lemma SameWAndURotations(q: Byte, n: int)
    ensures RotateW(q, n) == Octant.RotateW(q, n)
    ensures RotateU(q, n) == Octant.RotateU(q, n)
  {
  }

  /** This file's v rotation by one turn is the other file's by three turns and vice versa, so both give the same three v rotations. */
  lemma MirroredVRotations(q: Byte)
    ensures RotateV(q, 1) == Octant.RotateV(q, 3)
    ensures RotateV(q, 3) == Octant.RotateV(q, 1)
    ensures RotateV(q, 2) == Octant.RotateV(q, 2)
  {
  }

  /** The relabelling under which `compare_unrot` and `compare_rot_w/v/u` read the comparison vector. */
  datatype Turn = Unrot | AboutW(n: int) | AboutV(n: int) | AboutU(n: int)

  function Turned(t: Turn, q: Byte): (r: Byte)
    requires IsOctant(q)
    ensures IsOctant(r)
  {
    match t
    case Unrot => q
    case AboutW(n) => RotateW(q, n)
    case AboutV(n) => RotateV(q, n)
    case AboutU(n) => RotateU(q, n)
  }

  /** The index of the comparison value that turn t lines up with quadrant q. */
  function Partner(t: Turn, q: int): (j: int)
    requires 0 <= q < NQ
    ensures 0 <= j < NQ
  {
    Turned(t, q as Byte) as int
  }

  /** The ten candidate turns in the order `compare_quadrants` tries them. */
  function TurnAt(i: int): Turn
    requires 0 <= i < 10
  {
    if i == 0 then Unrot
    else
      var n := (i - 1) / 3 + 1;
      var axis := (i - 1) % 3;
      if axis == 0 then AboutW(n) else if axis == 1 then AboutV(n) else AboutU(n)
  }

  /** The squared difference at each quadrant q between refr[q] and the comparison value that turn t puts there. */
  function SqTerms(refr: seq<real>, comp: seq<real>, t: Turn): (ts: seq<real>)
    requires |refr| >= NQ && |comp| >= NQ
    ensures |ts| == NQ
  {
    seq(8, q requires 0 <= q < 8 => SqDiff(refr[q], comp[Partner(t, q)]))
  }

  /** One candidate distance: the squared differences under turn t, summed and divided by the number of quadrants. */
  function Distance(refr: seq<real>, comp: seq<real>, t: Turn): real
    requires |refr| >= NQ && |comp| >= NQ
  {
    Sum(SqTerms(refr, comp, t)) / NQ as real
  }

  /** The ten candidate distances, in the order they are tried. */
  function Distances(refr: seq<real>, comp: seq<real>): (ds: seq<real>)
    requires |refr| >= NQ && |comp| >= NQ
    ensures |ds| == 10
  {
    seq(10, i requires 0 <= i < 10 => Distance(refr, comp, TurnAt(i)))
  }

  /** What `compare_quadrants` returns: the running minimum of the ten distances, started at FltMax. */
  function Compare(refr: seq<real>, comp: seq<real>): real
    requires |refr| >= NQ && |comp| >= NQ
  {
    FoldMin(FltMax, Distances(refr, comp))
  }

  /**
   * `compare_unrot` (t == Unrot) and `compare_rot_w/v/u` (t == AboutW/V/U(multiple)):
   * accumulate the squared differences over the quadrants and divide by NQ.
   */
  method CompareTurn(refr: seq<real>, comp: seq<real>, t: Turn) returns (d: real)
    requires |refr| >= NQ && |comp| >= NQ
    ensures d == Distance(refr, comp, t)
  {
    ghost var ts := SqTerms(refr, comp, t);
    var dSq := 0.0;
    var q := 0;
    while q < NQ
      invariant 0 <= q <= NQ
      invariant dSq == Sum(ts[..q])
    {
      var r := refr[q];
      var c := comp[Partner(t, q)];
      SumStep(ts, q);
      dSq := dSq + SqDiff(r, c);
      q := q + 1;
    }
    assert ts[..NQ] == ts;
    d := dSq / NQ as real;
  }

  /** The three turns tried for one pass of the `rot` loop sit at positions 3 * rot - 2 .. 3 * rot. */
  lemma TurnsOfPass(rot: int)
    requires 1 <= rot < 4
    ensures TurnAt(3 * rot - 2) == AboutW(rot)
    ensures TurnAt(3 * rot - 1) == AboutV(rot)
    ensures TurnAt(3 * rot) == AboutU(rot)
  {
    if rot == 1 {
      assert TurnAt(1) == AboutW(1) && TurnAt(2) == AboutV(1) && TurnAt(3) == AboutU(1);
    } else if rot == 2 {
      assert TurnAt(4) == AboutW(2) && TurnAt(5) == AboutV(2) && TurnAt(6) == AboutU(2);
    } else {
      assert TurnAt(7) == AboutW(3) && TurnAt(8) == AboutV(3) && TurnAt(9) == AboutU(3);
    }
  }

  /** `Quadrant::compare_quadrants`: the smallest distance over the identity and the nine quarter-turn relabellings. */
  method CompareQuadrants(refr: seq<real>, comp: seq<real>) returns (minDSq: real)
    requires |refr| >= NQ && |comp| >= NQ
    ensures minDSq == Compare(refr, comp)
  {
    ghost var ds := Distances(refr, comp);
    minDSq := FltMax;
    var d := CompareTurn(refr, comp, Unrot);
    FoldMinStep(FltMax, ds, 0);
    minDSq := Min(minDSq, d);
    var rot := 1;
    while rot < 4
      invariant 1 <= rot <= 4
      invariant minDSq == FoldMin(FltMax, ds[..3 * rot - 2])
    {
      TurnsOfPass(rot);
      d := CompareTurn(refr, comp, AboutW(rot));
      FoldMinStep(FltMax, ds, 3 * rot - 2);
      minDSq := Min(minDSq, d);
      d := CompareTurn(refr, comp, AboutV(rot));
      FoldMinStep(FltMax, ds, 3 * rot - 1);
      minDSq := Min(minDSq, d);
      d := CompareTurn(refr, comp, AboutU(rot));
      FoldMinStep(FltMax, ds, 3 * rot);
      minDSq := Min(minDSq, d);
      rot := rot + 1;
    }
    assert ds[..10] == ds;
  }

  /** Every candidate distance is non-negative. */
  lemma DistanceNonNegative(refr: seq<real>, comp: seq<real>, t: Turn)
    requires |refr| >= NQ && |comp| >= NQ
    ensures Distance(refr, comp, t) >= 0.0
  {
    SumNonNegative(SqTerms(refr, comp, t));
  }

  /** Comparing a vector with itself unrotated gives zero. */
  lemma DistanceSelf(a: seq<real>)
    requires |a| >= NQ
    ensures Distance(a, a, Unrot) == 0.0
  {
    SumConstant(SqTerms(a, a, Unrot), 0.0);
  }

  /** The result of `compare_quadrants` is non-negative, never above FltMax, and never above the unrotated distance when that is below FltMax. */
  lemma CompareBounds(refr: seq<real>, comp: seq<real>)
    requires |refr| >= NQ && |comp| >= NQ
    ensures 0.0 <= Compare(refr, comp) <= FltMax
    ensures Distance(refr, comp, Unrot) <= FltMax ==> Compare(refr, comp) <= Distance(refr, comp, Unrot)
    ensures Distance(refr, comp, Unrot) <= FltMax ==> exists i :: 0 <= i < 10 && Compare(refr, comp) == Distances(refr, comp)[i]
  {
    var ds := Distances(refr, comp);
    FoldMinIsMinimum(FltMax, ds);
    forall i | 0 <= i < 10
      ensures ds[i] >= 0.0
    {
      DistanceNonNegative(refr, comp, TurnAt(i));
    }
    assert ds[0] == Distance(refr, comp, Unrot);
  }

  /** A vector compared with itself is at distance zero, through the unrotated term. */
  lemma CompareSelf(a: seq<real>)
    requires |a| >= NQ
    ensures Compare(a, a) == 0.0
  {
    DistanceSelf(a);
    CompareBounds(a, a);
    assert Distances(a, a)[0] == 0.0;
  }

  /** The position, in the order of `compare_quadrants`, of the turn that undoes TurnAt(i): the same axis turned 4 - n times. */
  function InverseTurnAt(i: int): (j: int)
    ensures 0 <= i < 10 ==> 0 <= j < 10
  {
    if i == 0 then 0 else 8 - i + 2 * ((i - 1) % 3)
  }

  /** A candidate distance with its eight squared differences written out. */
  lemma DistanceWrittenOut(refr: seq<real>, comp: seq<real>, t: Turn)
    requires |refr| >= NQ && |comp| >= NQ
    ensures Distance(refr, comp, t) * 8.0 ==
      SqDiff(refr[0], comp[Partner(t, 0)]) + SqDiff(refr[1], comp[Partner(t, 1)]) +
      SqDiff(refr[2], comp[Partner(t, 2)]) + SqDiff(refr[3], comp[Partner(t, 3)]) +
      SqDiff(refr[4], comp[Partner(t, 4)]) + SqDiff(refr[5], comp[Partner(t, 5)]) +
      SqDiff(refr[6], comp[Partner(t, 6)]) + SqDiff(refr[7], comp[Partner(t, 7)])
  {
    SumOfEight(SqTerms(refr, comp, t));
  }

  /** The same, for the pair taken the other way round, each squared difference written with the reference value first. */
  lemma SwappedDistanceWrittenOut(refr: seq<real>, comp: seq<real>, t: Turn)
    requires |refr| >= NQ && |comp| >= NQ
    ensures Distance(comp, refr, t) * 8.0 ==
      SqDiff(refr[Partner(t, 0)], comp[0]) + SqDiff(refr[Partner(t, 1)], comp[1]) +
      SqDiff(refr[Partner(t, 2)], comp[2]) + SqDiff(refr[Partner(t, 3)], comp[3]) +
      SqDiff(refr[Partner(t, 4)], comp[4]) + SqDiff(refr[Partner(t, 5)], comp[5]) +
      SqDiff(refr[Partner(t, 6)], comp[6]) + SqDiff(refr[Partner(t, 7)], comp[7])
  {
    DistanceWrittenOut(comp, refr, t);
    forall x: real, y: real
      ensures SqDiff(x, y) == SqDiff(y, x)
    {
    }
  }

  /** Swapping the vectors turns one quarter turn about w into three quarter turns about w. */
  lemma SwappedQuarterW(a: seq<real>, b: seq<real>)
    requires |a| >= NQ && |b| >= NQ
    ensures Distance(a, b, AboutW(1)) == Distance(b, a, AboutW(3))
  {
    DistanceWrittenOut(a, b, AboutW(1));
    SwappedDistanceWrittenOut(a, b, AboutW(3));
  }

  /** Swapping the vectors keeps the half turn about w. */
  lemma SwappedHalfW(a: seq<real>, b: seq<real>)
    requires |a| >= NQ && |b| >= NQ
    ensures Distance(a, b, AboutW(2)) == Distance(b, a, AboutW(2))
  {
    DistanceWrittenOut(a, b, AboutW(2));
    SwappedDistanceWrittenOut(a, b, AboutW(2));
  }

  /** Swapping the vectors turns one quarter turn about v into three quarter turns about v. */
  lemma SwappedQuarterV(a: seq<real>, b: seq<real>)
    requires |a| >= NQ && |b| >= NQ
    ensures Distance(a, b, AboutV(1)) == Distance(b, a, AboutV(3))
  {
    DistanceWrittenOut(a, b, AboutV(1));
    SwappedDistanceWrittenOut(a, b, AboutV(3));
  }

  /** Swapping the vectors keeps the half turn about v. */
  lemma SwappedHalfV(a: seq<real>, b: seq<real>)
    requires |a| >= NQ && |b| >= NQ
    ensures Distance(a, b, AboutV(2)) == Distance(b, a, AboutV(2))
  {
    DistanceWrittenOut(a, b, AboutV(2));
    SwappedDistanceWrittenOut(a, b, AboutV(2));
  }

  /** Swapping the vectors turns one quarter turn about u into three quarter turns about u. */
  lemma SwappedQuarterU(a: seq<real>, b: seq<real>)
    requires |a| >= NQ && |b| >= NQ
    ensures Distance(a, b, AboutU(1)) == Distance(b, a, AboutU(3))
  {
    DistanceWrittenOut(a, b, AboutU(1));
    SwappedDistanceWrittenOut(a, b, AboutU(3));
  }

  /** Swapping the vectors keeps the half turn about u. */
  lemma SwappedHalfU(a: seq<real>, b: seq<real>)
    requires |a| >= NQ && |b| >= NQ
    ensures Distance(a, b, AboutU(2)) == Distance(b, a, AboutU(2))
  {
    DistanceWrittenOut(a, b, AboutU(2));
    SwappedDistanceWrittenOut(a, b, AboutU(2));
  }

  /** Swapping the two vectors turns each candidate distance into the one under the inverse turn. */
  lemma SwappedDistance(a: seq<real>, b: seq<real>, i: int)
    requires |a| >= NQ && |b| >= NQ && 0 <= i < 10
    ensures Distance(a, b, TurnAt(i)) == Distance(b, a, TurnAt(InverseTurnAt(i)))
  {
    match i
    case 0 =>
      var ts, us := SqTerms(a, b, Unrot), SqTerms(b, a, Unrot);
      assert forall q :: 0 <= q < 8 ==> ts[q] == us[q];
      SumOfEight(ts);
      SumOfEight(us);
    case 1 =>
      assert TurnAt(1) == AboutW(1) && InverseTurnAt(1) == 7 && TurnAt(7) == AboutW(3);
      SwappedQuarterW(a, b);
    case 2 =>
      assert TurnAt(2) == AboutV(1) && InverseTurnAt(2) == 8 && TurnAt(8) == AboutV(3);
      SwappedQuarterV(a, b);
    case 3 =>
      assert TurnAt(3) == AboutU(1) && InverseTurnAt(3) == 9 && TurnAt(9) == AboutU(3);
      SwappedQuarterU(a, b);
    case 4 =>
      assert TurnAt(4) == AboutW(2) && InverseTurnAt(4) == 4 && TurnAt(4) == AboutW(2);
      SwappedHalfW(a, b);
    case 5 =>
      assert TurnAt(5) == AboutV(2) && InverseTurnAt(5) == 5 && TurnAt(5) == AboutV(2);
      SwappedHalfV(a, b);
    case 6 =>
      assert TurnAt(6) == AboutU(2) && InverseTurnAt(6) == 6 && TurnAt(6) == AboutU(2);
      SwappedHalfU(a, b);
    case 7 =>
      assert TurnAt(7) == AboutW(3) && InverseTurnAt(7) == 1 && TurnAt(1) == AboutW(1);
      SwappedQuarterW(b, a);
    case 8 =>
      assert TurnAt(8) == AboutV(3) && InverseTurnAt(8) == 2 && TurnAt(2) == AboutV(1);
      SwappedQuarterV(b, a);
    case 9 =>
      assert TurnAt(9) == AboutU(3) && InverseTurnAt(9) == 3 && TurnAt(3) == AboutU(1);
      SwappedQuarterU(b, a);
  }

  /** The candidate distances of the swapped pair are those of the pair, each under the inverse turn. */
  lemma MirroredDistances(a: seq<real>, b: seq<real>)
    requires |a| >= NQ && |b| >= NQ
    ensures forall i :: 0 <= i < 10 ==> Distances(a, b)[i] == Distances(b, a)[InverseTurnAt(i)]
  {
    forall i | 0 <= i < 10
      ensures Distances(a, b)[i] == Distances(b, a)[InverseTurnAt(i)]
    {
      SwappedDistance(a, b, i);
    }
  }

  /** `compare_quadrants` does not depend on which vector is the reference, because the set of turns it tries is closed under inverses. */
  lemma CompareSymmetric(a: seq<real>, b: seq<real>)
    requires |a| >= NQ && |b| >= NQ
    ensures Compare(a, b) == Compare(b, a)
  {
    MirroredDistances(a, b);
    MirroredDistances(b, a);
    FoldMinReindexed(FltMax, Distances(a, b), Distances(b, a), InverseTurnAt);
  }
}
