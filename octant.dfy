/**
 * The octant rotation group of src/octanct.cpp.
 *
 * An octant is a byte whose three low bits are the signs of the (w, v, u)
 * offsets: bit 2 is w, bit 1 is v, bit 0 is u, and a set bit means the offset
 * is non-negative. A rotation by n quarter turns about one axis keeps that
 * axis' bit and rewrites the other two.
 */
module Octant {

  /** The source's `octanct` (an `unsigned char`). */
  type Byte = bv8

  /** Number of octants. */
  const No: int := 8

  /** Number of rotations in the table: the identity plus 3 about each axis. */
  const Nr: int := 10

  /** The octants proper, 0b000 .. 0b111. */
  predicate IsOctant(o: Byte) { o <= 7 }

  /** C++ `n % 4` on `int`: the remainder takes the sign of the dividend. */
  function CppRem4(n: int): (r: int)
    ensures -4 < r < 4
    ensures n >= 0 ==> r == n % 4
    ensures n <= 0 ==> r <= 0
    ensures n < 0 ==> r == -((-n) % 4)
  {
    if n >= 0 then n % 4 else -((-n) % 4)
  }

  /** Bit k of o, as a 0/1 byte: `(o >> k) & 1`. */
  function BitOf(o: Byte, k: nat): Byte
    requires k < 8
  {
    (o >> k) & 1
  }

  /** Bit k of the complement of o: `(~o >> k) & 1`. */
  function NotBitOf(o: Byte, k: nat): Byte
    requires k < 8
  {
    (!o >> k) & 1
  }

  /** Reassemble `(4 * w) | (2 * v) | (1 * u)`. */
  function Pack(w: Byte, v: Byte, u: Byte): Byte
  {
    (4 * w) | (2 * v) | (1 * u)
  }

  /** The octant of an offset from the signs of its components, `bw | bv | bu`; a component that is zero counts as non-negative. */
  function OctantOfSigns(wNonNegative: bool, vNonNegative: bool, uNonNegative: bool): (o: Byte)
    ensures IsOctant(o)
    ensures BitOf(o, 2) == (if wNonNegative then 1 else 0)
    ensures BitOf(o, 1) == (if vNonNegative then 1 else 0)
    ensures BitOf(o, 0) == (if uNonNegative then 1 else 0)
  {
    var bw: Byte := if wNonNegative then 0x4 else 0x0;
    var bv: Byte := if vNonNegative then 0x2 else 0x0;
    var bu: Byte := if uNonNegative then 0x1 else 0x0;
    bw | bv | bu
  }

  /** The sign bits are disjoint, so the bitwise or is the sum 4 * [w >= 0] + 2 * [v >= 0] + [u >= 0]. */
  lemma OctantOfSignsIsSum(w: bool, v: bool, u: bool)
    ensures OctantOfSigns(w, v, u) as int == (if w then 4 else 0) + (if v then 2 else 0) + (if u then 1 else 0)
  {
  }

  /** `Octanct::rotate_w`: n quarter turns about w. */
  function RotateW(oct: Byte, n: int): (r: Byte)
    ensures IsOctant(r)
    ensures BitOf(r, 2) == BitOf(oct, 2)
  {
    var m := CppRem4(n);
    var w := BitOf(oct, 2);
    var u := if m == 1 then NotBitOf(oct, 1)
             else if m == 2 then NotBitOf(oct, 0)
             else if m == 3 then BitOf(oct, 1)
             else BitOf(oct, 0);
    var v := if m == 1 then BitOf(oct, 0)
             else if m == 2 then NotBitOf(oct, 1)
             else if m == 3 then NotBitOf(oct, 0)
             else BitOf(oct, 1);
    Pack(w, v, u)
  }

  /** `Octanct::rotate_v`: n quarter turns about v. */
  function RotateV(oct: Byte, n: int): (r: Byte)
    ensures IsOctant(r)
    ensures BitOf(r, 1) == BitOf(oct, 1)
  {
    var m := CppRem4(n);
    var v := BitOf(oct, 1);
    var u := if m == 1 then NotBitOf(oct, 2)
             else if m == 2 then NotBitOf(oct, 0)
             else if m == 3 then BitOf(oct, 2)
             else BitOf(oct, 0);
    var w := if m == 1 then BitOf(oct, 0)
             else if m == 2 then NotBitOf(oct, 2)
             else if m == 3 then NotBitOf(oct, 0)
             else BitOf(oct, 2);
    Pack(w, v, u)
  }

  /** `Octanct::rotate_u`: n quarter turns about u. */
  function RotateU(oct: Byte, n: int): (r: Byte)
    ensures IsOctant(r)
    ensures BitOf(r, 0) == BitOf(oct, 0)
  {
    var m := CppRem4(n);
    var u := BitOf(oct, 0);
    var v := if m == 1 then NotBitOf(oct, 2)
             else if m == 2 then NotBitOf(oct, 1)
             else if m == 3 then BitOf(oct, 2)
             else BitOf(oct, 1);
    var w := if m == 1 then BitOf(oct, 1)
             else if m == 2 then NotBitOf(oct, 2)
             else if m == 3 then NotBitOf(oct, 1)
             else BitOf(oct, 2);
    Pack(w, v, u)
  }

  /** A turn count falls into the identity branch exactly when its C++ remainder modulo 4 is not 1, 2 or 3. */
  predicate IsIdentityTurn(n: int)
  {
    n <= 0 || n % 4 == 0
  }

  lemma IdentityTurns(o: Byte, n: int)
    requires IsIdentityTurn(n)
    ensures RotateW(o, n) == o & 7 && RotateV(o, n) == o & 7 && RotateU(o, n) == o & 7
    ensures IsOctant(o) ==> RotateW(o, n) == o && RotateV(o, n) == o && RotateU(o, n) == o
  {
  }

  /** Only the quarter-turn count modulo 4 matters for positive counts, and only the three low bits of the input. */
  lemma TurnsModuloFour(o: Byte, n: int)
    requires n > 0
    ensures RotateW(o, n) == RotateW(o & 7, n % 4)
    ensures RotateV(o, n) == RotateV(o & 7, n % 4)
    ensures RotateU(o, n) == RotateU(o & 7, n % 4)
  {
  }

  /** The n = 2 and n = 3 formulas are the n = 1 formula applied twice and three times; four turns are the identity. */
  lemma QuarterTurnsCompose(o: Byte)
    requires IsOctant(o)
    ensures RotateW(RotateW(o, 1), 1) == RotateW(o, 2)
    ensures RotateW(RotateW(RotateW(o, 1), 1), 1) == RotateW(o, 3)
    ensures RotateW(RotateW(RotateW(RotateW(o, 1), 1), 1), 1) == o
    ensures RotateV(RotateV(o, 1), 1) == RotateV(o, 2)
    ensures RotateV(RotateV(RotateV(o, 1), 1), 1) == RotateV(o, 3)
    ensures RotateV(RotateV(RotateV(RotateV(o, 1), 1), 1), 1) == o
    ensures RotateU(RotateU(o, 1), 1) == RotateU(o, 2)
    ensures RotateU(RotateU(RotateU(o, 1), 1), 1) == RotateU(o, 3)
    ensures RotateU(RotateU(RotateU(RotateU(o, 1), 1), 1), 1) == o
  {
  }

  /** One and three quarter turns undo each other; a half turn undoes itself. */
  lemma QuarterTurnsInvert(o: Byte)
    requires IsOctant(o)
    ensures RotateW(RotateW(o, 1), 3) == o && RotateW(RotateW(o, 3), 1) == o && RotateW(RotateW(o, 2), 2) == o
    ensures RotateV(RotateV(o, 1), 3) == o && RotateV(RotateV(o, 3), 1) == o && RotateV(RotateV(o, 2), 2) == o
    ensures RotateU(RotateU(o, 1), 3) == o && RotateU(RotateU(o, 3), 1) == o && RotateU(RotateU(o, 2), 2) == o
  {
  }

  /** Rotating by 4 - n quarter turns undoes n quarter turns. */
  lemma OppositeTurnsInvert(o: Byte, n: int)
    requires IsOctant(o) && 1 <= n <= 3
    ensures RotateW(RotateW(o, n), 4 - n) == o && RotateW(RotateW(o, 4 - n), n) == o
    ensures RotateV(RotateV(o, n), 4 - n) == o && RotateV(RotateV(o, 4 - n), n) == o
    ensures RotateU(RotateU(o, n), 4 - n) == o && RotateU(RotateU(o, 4 - n), n) == o
  {
    QuarterTurnsInvert(o);
  }

  /** For one to three quarter turns each rotation is a bijection of the eight octants. */
  lemma RotationsAreBijections(n: int)
    requires 1 <= n <= 3
    ensures forall o1: Byte, o2: Byte :: IsOctant(o1) && IsOctant(o2) && RotateW(o1, n) == RotateW(o2, n) ==> o1 == o2
    ensures forall o1: Byte, o2: Byte :: IsOctant(o1) && IsOctant(o2) && RotateV(o1, n) == RotateV(o2, n) ==> o1 == o2
    ensures forall o1: Byte, o2: Byte :: IsOctant(o1) && IsOctant(o2) && RotateU(o1, n) == RotateU(o2, n) ==> o1 == o2
    ensures forall p: Byte :: IsOctant(p) ==> RotateW(RotateW(p, 4 - n), n) == p
    ensures forall p: Byte :: IsOctant(p) ==> RotateV(RotateV(p, 4 - n), n) == p
    ensures forall p: Byte :: IsOctant(p) ==> RotateU(RotateU(p, 4 - n), n) == p
  {
    forall p: Byte | IsOctant(p)
      ensures RotateW(RotateW(p, n), 4 - n) == p && RotateW(RotateW(p, 4 - n), n) == p
      ensures RotateV(RotateV(p, n), 4 - n) == p && RotateV(RotateV(p, 4 - n), n) == p
      ensures RotateU(RotateU(p, n), 4 - n) == p && RotateU(RotateU(p, 4 - n), n) == p
    {
      OppositeTurnsInvert(p, n);
    }
  }

  /** Row r of the rotation table, as `table_of_rotations` lays it out. */
  function Rotation(r: int, o: Byte): Byte
    requires 0 <= r < Nr
  {
    if r == 0 then o
    else if r <= 3 then RotateW(o, r)
    else if r <= 6 then RotateV(o, r - 3)
    else RotateU(o, r - 6)
  }

  /** The row that undoes row r: the quarter turn in the opposite direction about the same axis. */
  function InverseRow(r: int): (s: int)
    requires 0 <= r < Nr
    ensures 0 <= s < Nr
  {
    if r == 0 then 0
    else if r <= 3 then 4 - r
    else if r <= 6 then 10 - r
    else 16 - r
  }

  /** Row InverseRow(r) undoes row r on one octant. */
  lemma RowInverseAt(r: int, o: Byte)
    requires 0 <= r < Nr && IsOctant(o)
    ensures IsOctant(Rotation(r, o))
    ensures Rotation(InverseRow(r), Rotation(r, o)) == o
    ensures Rotation(r, Rotation(InverseRow(r), o)) == o
  {
    QuarterTurnsInvert(o);
    match r
    case 0 =>
    case 1 => assert InverseRow(r) == 3;
    case 2 => assert InverseRow(r) == 2;
    case 3 => assert InverseRow(r) == 1;
    case 4 => assert InverseRow(r) == 6;
    case 5 => assert InverseRow(r) == 5;
    case 6 => assert InverseRow(r) == 4;
    case 7 => assert InverseRow(r) == 9;
    case 8 => assert InverseRow(r) == 8;
    case 9 => assert InverseRow(r) == 7;
  }

  /** Every row of the table maps the octants one-to-one onto the octants, and its inverse row is again in the table. */
  lemma RowIsPermutation(r: int)
    requires 0 <= r < Nr
    ensures forall o: Byte :: IsOctant(o) ==> IsOctant(Rotation(r, o))
    ensures forall o: Byte :: IsOctant(o) ==> Rotation(InverseRow(r), Rotation(r, o)) == o
    ensures forall o: Byte :: IsOctant(o) ==> Rotation(r, Rotation(InverseRow(r), o)) == o
    ensures forall o1: Byte, o2: Byte :: IsOctant(o1) && IsOctant(o2) && Rotation(r, o1) == Rotation(r, o2) ==> o1 == o2
    ensures InverseRow(InverseRow(r)) == r
  {
    forall o: Byte | IsOctant(o)
      ensures IsOctant(Rotation(r, o))
      ensures Rotation(InverseRow(r), Rotation(r, o)) == o
      ensures Rotation(r, Rotation(InverseRow(r), o)) == o
    {
      RowInverseAt(r, o);
    }
  }

  /** After writing octant column o up to turn count n - 1, row r of that column is filled. */
  predicate RowFilled(r: int, n: int)
  {
    r == 0 || (1 <= r < Nr && (r - 1) % 3 + 1 < n)
  }

  /** Cell (r, o) of a row-major table with No columns. */
  lemma CellIndex(r: int, o: int)
    requires 0 <= r && 0 <= o < No
    ensures (r * 8 + o) / 8 == r && (r * 8 + o) % 8 == o
  {
  }

  /** Column o of a table t holds the rotations of o in every row filled after n - 1 turn counts. */
  ghost predicate ColumnFilled(t: seq<Byte>, o: int, n: int)
    requires |t| == 80
  {
    forall i :: 0 <= i < 80 && i % 8 == o && RowFilled(i / 8, n) ==> t[i] == Rotation(i / 8, (i % 8) as Byte)
  }

  /** The three rows written for turn count n hold the w, v and u rotations by n. */
  lemma RowsOfTurn(o: Byte, n: int)
    requires 1 <= n <= 3
    ensures Rotation(n, o) == RotateW(o, n)
    ensures Rotation(n + 3, o) == RotateV(o, n)
    ensures Rotation(n + 6, o) == RotateU(o, n)
  {
  }

  /** One pass of the inner loop of `table_of_rotations` extends the filled rows by turn count n. */
  lemma ColumnStep(before: seq<Byte>, after: seq<Byte>, o: int, n: int)
    requires |before| == 80 && 0 <= o < 8 && 1 <= n <= 3
    requires ColumnFilled(before, o, n)
    requires after == before[n * 8 + o := Rotation(n, o as Byte)][(n + 3) * 8 + o := Rotation(n + 3, o as Byte)][(n + 6) * 8 + o := Rotation(n + 6, o as Byte)]
    ensures |after| == 80 && ColumnFilled(after, o, n + 1)
    ensures forall i :: 0 <= i < 80 && i % 8 != o ==> after[i] == before[i]
  {
    CellIndex(n, o);
    CellIndex(n + 3, o);
    CellIndex(n + 6, o);
    forall i | 0 <= i < 80 && i % 8 == o && RowFilled(i / 8, n + 1)
      ensures after[i] == Rotation(i / 8, (i % 8) as Byte)
    {
      var r := i / 8;
      assert i == r * 8 + o && (i % 8) as Byte == o as Byte;
      if r != n && r != n + 3 && r != n + 6 {
        assert RowFilled(r, n) && after[i] == before[i];
      }
    }
  }

  /** The body of the outer loop of `table_of_rotations`: fill column o of every row. */
  method FillColumn(table: array<Byte>, o: int)
    requires table.Length == 80 && 0 <= o < No
    modifies table
    ensures forall i :: 0 <= i < 80 && i % 8 != o ==> table[i] == old(table[i])
    ensures forall i :: 0 <= i < 80 && i % 8 == o ==> table[i] == Rotation(i / 8, (i % 8) as Byte)
  {
    CellIndex(0, o);
    table[0 * 8 + o] := o as Byte;
    var n := 1;
    while n <= 3
      invariant 1 <= n <= 4
      invariant forall i :: 0 <= i < 80 && i % 8 != o ==> table[i] == old(table[i])
      invariant ColumnFilled(table[..], o, n)
    {
      ghost var before := table[..];
      table[(n + 0) * 8 + o] := RotateW(o as Byte, n);
      table[(n + 3) * 8 + o] := RotateV(o as Byte, n);
      table[(n + 6) * 8 + o] := RotateU(o as Byte, n);
      RowsOfTurn(o as Byte, n);
      ColumnStep(before, table[..], o, n);
      n := n + 1;
    }
    assert forall i :: 0 <= i < 80 ==> table[..][i] == table[i];
  }

  /** `Octanct::table_of_rotations`: a fresh Nr x No table, row-major, row r holding Rotation(r, .). */
  method TableOfRotations() returns (table: array<Byte>)
    ensures fresh(table)
    ensures table.Length == 80
    ensures forall i :: 0 <= i < 80 ==> table[i] == Rotation(i / 8, (i % 8) as Byte)
  {
    table := new Byte[80];
    var o := 0;
    while o < No
      invariant 0 <= o <= No
      invariant forall i :: 0 <= i < 80 && i % 8 < o ==> table[i] == Rotation(i / 8, (i % 8) as Byte)
    {
      FillColumn(table, o);
      o := o + 1;
    }
  }
}
