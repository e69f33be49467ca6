/**
 * src/Map/properties.cpp, src/Map/globals.cpp and src/Map/setters.cpp: the
 * voxel grid of a density map. The grid has nu x nv x nw voxels and a flat
 * data vector; the vector's length is not tied to the volume by the class, so
 * every operation that walks the first volume entries says so in its
 * precondition.
 */
module MapGrid {
  import opened Reals
  import opened Stats

  /** A grid point (u, v, w): a voxel of the grid, or an offset between two voxels. */
  datatype GridPoint = GridPoint(u: int, v: int, w: int)

  /** The flat index of (u, v, w) in a grid stored with u fastest, then v, then w. */
  function FlatIndex(nu: int, nv: int, p: GridPoint): int
  {
    (p.w * nv + p.v) * nu + p.u
  }

  /** The voxel stored at flat index e. */
  function VoxelAt(nu: int, nv: int, e: int): (p: GridPoint)
    requires nu > 0 && nv > 0
    ensures 0 <= p.u < nu && 0 <= p.v < nv
  {
    GridPoint(e % nu, (e / nu) % nv, (e / nu) / nv)
  }

  /** (x - lo) / (hi - lo): the value x placed on the unit scale of [lo, hi]. */
  function Rescale(x: real, lo: real, hi: real): real
    requires lo < hi
  {
    (x - lo) / (hi - lo)
  }

  /** s with its first k entries rescaled from [lo, hi]; the rest as they were. */
  function RescaledPrefix(s: seq<real>, lo: real, hi: real, k: int): (t: seq<real>)
    requires lo < hi
    ensures |t| == |s|
  {
    seq(|s|, j requires 0 <= j < |s| => if j < k then Rescale(s[j], lo, hi) else s[j])
  }

  /** The data after `normalise` on a grid of n voxels: minimum and maximum are taken over the whole vector, once, before the loop. */
  function Normalised(s: seq<real>, n: int): (t: seq<real>)
    requires |s| > 0 && SeqMin(s) < SeqMax(s)
    ensures |t| == |s|
  {
    RescaledPrefix(s, SeqMin(s), SeqMax(s), n)
  }

  /** The first n entries of s each increased by the matching noise draw. */
  function Noisy(s: seq<real>, noise: seq<real>, n: int): (t: seq<real>)
    requires n <= |noise|
    ensures |t| == |s|
  {
    seq(|s|, j requires 0 <= j < |s| => if j < n then s[j] + noise[j] else s[j])
  }

  /** The first n entries of s replaced by value. */
  function Filled(s: seq<real>, value: real, n: int): (t: seq<real>)
    ensures |t| == |s|
  {
    seq(|s|, j requires 0 <= j < |s| => if j < n then value else s[j])
  }

  class Map {
    var nu: nat
    var nv: nat
    var nw: nat
    var data: seq<real>

    constructor (nu: nat, nv: nat, nw: nat, data: seq<real>)
      ensures this.nu == nu && this.nv == nv && this.nw == nw && this.data == data
    {
      this.nu, this.nv, this.nw, this.data := nu, nv, nw, data;
    }

    /** `get_volume`: the number of voxels. */
    function Volume(): (v: nat)
      reads this
      ensures v == 0 <==> nu == 0 || nv == 0 || nw == 0
    {
      nu * nv * nw
    }

    /** `max_value`: `std::max_element` over the whole data vector. */
    function MaxValue(): (r: real)
      reads this
      requires |data| > 0
      ensures r in data
      ensures forall i :: 0 <= i < |data| ==> data[i] <= r
    {
      SeqMaxIsMaximum(data);
      SeqMax(data)
    }

    /** `min_value`: `std::min_element` over the whole data vector. */
    function MinValue(): (r: real)
      reads this
      requires |data| > 0
      ensures r in data
      ensures forall i :: 0 <= i < |data| ==> r <= data[i]
    {
      SeqMinIsMinimum(data);
      SeqMin(data)
    }

    /** `avg_value`: the sum of the first volume entries over the volume. */
    method AvgValue() returns (r: real)
      requires 0 < Volume() <= |data|
      ensures r == MeanOf(data[..Volume()])
    {
      var avgValue := 0.0;
      var i := 0;
      while i < Volume()
        invariant 0 <= i <= Volume()
        invariant avgValue == Sum(data[..i])
      {
        SumStep(data[..Volume()], i);
        assert data[..Volume()][..i] == data[..i] && data[..Volume()][..i + 1] == data[..i + 1];
        avgValue := avgValue + data[i];
        i := i + 1;
      }
      r := avgValue / Volume() as real;
    }

    /** `normalise`: every entry below the volume mapped to (x - min) / (max - min). */
    method Normalise()
      modifies this
      requires Volume() <= |data|
      requires |data| > 0 && MinValue() < MaxValue()
      ensures nu == old(nu) && nv == old(nv) && nw == old(nw)
      ensures data == Normalised(old(data), Volume())
    {
      var minVal := MinValue();
      var maxVal := MaxValue();
      var den := maxVal - minVal;
      ghost var s := data;
      var i := 0;
      while i < Volume()
        invariant nu == old(nu) && nv == old(nv) && nw == old(nw)
        invariant 0 <= i <= Volume()
        invariant data == RescaledPrefix(s, minVal, maxVal, i)
      {
        var norm := (data[i] - minVal) / den;
        data := data[i := norm];
        i := i + 1;
      }
    }

    /** `add_noise`: nothing happens for sigma == 0; otherwise the i-th draw of the normal distribution, here noise[i], is added to entry i, then the map is normalised if asked. */
    method AddNoise(sigma: real, normalise: bool, noise: seq<real>) returns (r: real)
      modifies this
      requires Volume() <= |data| && Volume() <= |noise|
      requires sigma != 0.0 && normalise ==> |data| > 0 && SeqMin(Noisy(data, noise, Volume())) < SeqMax(Noisy(data, noise, Volume()))
      ensures r == sigma
      ensures nu == old(nu) && nv == old(nv) && nw == old(nw)
      ensures sigma == 0.0 ==> data == old(data)
      ensures sigma != 0.0 && !normalise ==> data == Noisy(old(data), noise, Volume())
      ensures sigma != 0.0 && normalise ==> data == Normalised(Noisy(old(data), noise, Volume()), Volume())
    {
      if sigma == 0.0 {
        return sigma;
      }
      ghost var s := data;
      var i := 0;
      while i < Volume()
        invariant nu == old(nu) && nv == old(nv) && nw == old(nw)
        invariant 0 <= i <= Volume()
        invariant |data| == |s|
        invariant forall j :: 0 <= j < |s| ==> data[j] == if j < i then s[j] + noise[j] else s[j]
      {
        data := data[i := data[i] + noise[i]];
        i := i + 1;
      }
      assert data == Noisy(s, noise, Volume());
      if normalise {
        Normalise();
      }
      r := sigma;
    }

    /** `set_value(u, v, w, m)` on a voxel of the grid: the entry at the voxel's flat index becomes m. */
    method SetValueAt(u: int, v: int, w: int, m: real)
      modifies this
      requires 0 <= u < nu && 0 <= v < nv && 0 <= w < nw && Volume() <= |data|
      ensures nu == old(nu) && nv == old(nv) && nw == old(nw) && |data| == |old(data)|
      ensures forall i :: 0 <= i < |data| ==> data[i] == if i == FlatIndex(nu, nv, GridPoint(u, v, w)) then m else old(data)[i]
    {
      FlatIndexInVolume(nu, nv, nw, GridPoint(u, v, w));
      data := data[FlatIndex(nu, nv, GridPoint(u, v, w)) := m];
    }

    /** `set_value(e, m)`: entry e becomes m. */
    method SetValue(e: int, m: real)
      modifies this
      requires 0 <= e < |data|
      ensures nu == old(nu) && nv == old(nv) && nw == old(nw)
      ensures |data| == |old(data)| && data[e] == m
      ensures forall i :: 0 <= i < |data| && i != e ==> data[i] == old(data)[i]
    {
      data := data[e := m];
    }

    /** `set_data(vector, normalise)`: the data become a copy of vec, normalised if asked. */
    method SetData(vec: seq<real>, normalise: bool)
      modifies this
      requires normalise ==> Volume() <= |vec| && |vec| > 0 && SeqMin(vec) < SeqMax(vec)
      ensures nu == old(nu) && nv == old(nv) && nw == old(nw)
      ensures !normalise ==> data == vec
      ensures normalise ==> data == Normalised(vec, Volume())
    {
      data := vec;
      if normalise {
        Normalise();
      }
    }

    /** `set_data(value, normalise)`: the first volume entries become value, then the map is normalised if asked. */
    method SetConstant(value: real, normalise: bool)
      modifies this
      requires Volume() <= |data|
      requires normalise ==> |data| > 0 && SeqMin(Filled(data, value, Volume())) < SeqMax(Filled(data, value, Volume()))
      ensures nu == old(nu) && nv == old(nv) && nw == old(nw)
      ensures !normalise ==> data == Filled(old(data), value, Volume())
      ensures normalise ==> data == Normalised(Filled(old(data), value, Volume()), Volume())
    {
      ghost var s := data;
      var i := 0;
      while i < Volume()
        invariant nu == old(nu) && nv == old(nv) && nw == old(nw)
        invariant 0 <= i <= Volume()
        invariant |data| == |s|
        invariant forall j :: 0 <= j < |s| ==> data[j] == if j < i then value else s[j]
      {
        data := data[i := value];
        i := i + 1;
      }
      assert data == Filled(s, value, Volume());
      if normalise {
        Normalise();
      }
    }
  }

  /** Voxel (u, v, w) of an nu x nv x nw grid sits at flat index (w * nv + v) * nu + u, which is below the volume. */
  lemma FlatIndexInVolume(nu: int, nv: int, nw: int, p: GridPoint)
    requires 0 <= p.u < nu && 0 <= p.v < nv && 0 <= p.w < nw
    ensures 0 <= FlatIndex(nu, nv, p) < nu * nv * nw
  {
    var row := p.w * nv + p.v;
    assert 0 <= row < nw * nv by {
      IndexBelow(p.w, nw, nv, p.v);
    }
    IndexBelow(row, nw * nv, nu, p.u);
    assert (nw * nv) * nu == nu * nv * nw;
  }

  /** a * n + b < m * n when a < m and b < n. */
  lemma IndexBelow(a: int, m: int, n: int, b: int)
    requires 0 <= a < m && 0 <= b < n
    ensures 0 <= a * n + b < m * n
  {
    IntProductNonNegative(a, n);
    IntProductNonNegative(m - 1 - a, n);
    assert m * n == a * n + (m - 1 - a) * n + n;
  }

  /** The product of two non-negative integers is non-negative. */
  lemma IntProductNonNegative(a: int, b: int)
    requires 0 <= a && 0 <= b
    ensures 0 <= a * b
  {
  }

  /** Division with remainder recovers the quotient and the remainder. */
  lemma DivModOf(a: int, n: int, b: int)
    requires n > 0 && 0 <= b < n
    ensures (a * n + b) / n == a && (a * n + b) % n == b
  {
    var q, r := (a * n + b) / n, (a * n + b) % n;
    assert q * n + r == a * n + b;
    assert (q - a) * n == b - r;
    SmallMultipleIsZero(q - a, n, b - r);
  }

  /** A multiple of n strictly between -n and n is zero. */
  lemma SmallMultipleIsZero(k: int, n: int, d: int)
    requires n > 0 && k * n == d && -n < d < n
    ensures k == 0
  {
    MultipleBounds(k, n);
  }

  /** A non-zero multiple of a positive n is at least n away from zero. */
  lemma MultipleBounds(k: int, n: int)
    requires n > 0
    ensures k >= 1 ==> k * n >= n
    ensures k <= -1 ==> k * n <= -n
  {
    if k >= 1 {
      IntProductNonNegative(k - 1, n);
      assert k * n == (k - 1) * n + n;
    }
    if k <= -1 {
      IntProductNonNegative(-k - 1, n);
      assert -(k * n) == (-k - 1) * n + n;
    }
  }

  /** VoxelAt undoes FlatIndex on every voxel of the grid. */
  lemma VoxelAtFlatIndex(nu: int, nv: int, p: GridPoint)
    requires 0 <= p.u < nu && 0 <= p.v < nv && 0 <= p.w
    ensures VoxelAt(nu, nv, FlatIndex(nu, nv, p)) == p
  {
    DivModOf(p.w * nv + p.v, nu, p.u);
    DivModOf(p.w, nv, p.v);
  }

  /** FlatIndex undoes VoxelAt on every flat index. */
  lemma FlatIndexVoxelAt(nu: int, nv: int, e: int)
    requires nu > 0 && nv > 0 && e >= 0
    ensures VoxelAt(nu, nv, e).w >= 0 && FlatIndex(nu, nv, VoxelAt(nu, nv, e)) == e
  {
    var q := e / nu;
    assert e == q * nu + e % nu;
    assert q == (q / nv) * nv + q % nv;
  }

  /** On a map whose data are exactly its voxels, the average lies between the minimum and the maximum. */
  lemma AvgBetweenMinAndMax(m: Map)
    requires 0 < m.Volume() == |m.data|
    ensures m.MinValue() <= MeanOf(m.data[..m.Volume()]) <= m.MaxValue()
  {
    assert m.data[..m.Volume()] == m.data;
    MeanBetweenMinAndMax(m.data);
  }

  /** A value of [lo, hi] lands in [0, 1]; lo goes to 0 and hi to 1. */
  lemma RescaleRange(x: real, lo: real, hi: real)
    requires lo < hi && lo <= x <= hi
    ensures 0.0 <= Rescale(x, lo, hi) <= 1.0
    ensures x == lo <==> Rescale(x, lo, hi) == 0.0
    ensures x == hi <==> Rescale(x, lo, hi) == 1.0
  {
    var d, r := hi - lo, Rescale(x, lo, hi);
    DivideBounds(x - lo, d, 0.0, 1.0);
    assert r * d == x - lo;
    if x == hi {
      assert r == d / d;
    }
    if x == lo {
      assert r == 0.0 / d;
    }
  }

  /** Rescaling keeps the order of two values, in both directions. */
  lemma RescaleMonotone(x: real, y: real, lo: real, hi: real)
    requires lo < hi
    ensures x <= y <==> Rescale(x, lo, hi) <= Rescale(y, lo, hi)
  {
    var d, rx, ry := hi - lo, Rescale(x, lo, hi), Rescale(y, lo, hi);
    assert rx * d == x - lo && ry * d == y - lo;
    Distribute(ry, -rx, d);
    if x <= y && ry < rx {
      ProductPositive(rx - ry, d);
      Distribute(rx, -ry, d);
    }
    if rx <= ry && y < x {
      ProductNonNegative(ry - rx, d);
    }
  }

  /** After `normalise`, each rescaled entry lies in [0, 1] and the others are unchanged. */
  lemma NormalisedRange(s: seq<real>, n: int)
    requires |s| > 0 && SeqMin(s) < SeqMax(s)
    ensures forall j :: 0 <= j < |s| && j < n ==> 0.0 <= Normalised(s, n)[j] <= 1.0
    ensures forall j :: 0 <= j < |s| && n <= j ==> Normalised(s, n)[j] == s[j]
  {
    SeqMinIsMinimum(s);
    SeqMaxIsMaximum(s);
    forall j | 0 <= j < |s| && j < n
      ensures 0.0 <= Normalised(s, n)[j] <= 1.0
    {
      RescaleRange(s[j], SeqMin(s), SeqMax(s));
    }
  }

  /** When every entry is a voxel, `normalise` maps the old minimum to 0 and the old maximum to 1. */
  lemma NormalisedEnds(s: seq<real>, n: int)
    requires |s| > 0 && SeqMin(s) < SeqMax(s) && |s| <= n
    ensures SeqMin(Normalised(s, n)) == 0.0 && SeqMax(Normalised(s, n)) == 1.0
  {
    var t := Normalised(s, n);
    SeqMinIsMinimum(s);
    SeqMaxIsMaximum(s);
    NormalisedRange(s, n);
    var i :| 0 <= i < |s| && s[i] == SeqMin(s);
    var k :| 0 <= k < |s| && s[k] == SeqMax(s);
    RescaleRange(s[i], SeqMin(s), SeqMax(s));
    RescaleRange(s[k], SeqMin(s), SeqMax(s));
    SeqMinIs(t, i);
    SeqMaxIs(t, k);
  }

  /** The entry at i is the smallest, so it is SeqMin. */
  lemma SeqMinIs(s: seq<real>, i: int)
    requires 0 <= i < |s|
    requires forall j :: 0 <= j < |s| ==> s[i] <= s[j]
    ensures SeqMin(s) == s[i]
  {
    SeqMinIsMinimum(s);
  }

  /** The entry at i is the largest, so it is SeqMax. */
  lemma SeqMaxIs(s: seq<real>, i: int)
    requires 0 <= i < |s|
    requires forall j :: 0 <= j < |s| ==> s[j] <= s[i]
    ensures SeqMax(s) == s[i]
  {
    SeqMaxIsMaximum(s);
  }

  /** `normalise` keeps the order of any two voxels, in both directions. */
  lemma NormalisedMonotone(s: seq<real>, n: int, i: int, j: int)
    requires |s| > 0 && SeqMin(s) < SeqMax(s)
    requires 0 <= i < |s| && 0 <= j < |s| && i < n && j < n
    ensures s[i] <= s[j] <==> Normalised(s, n)[i] <= Normalised(s, n)[j]
  {
    RescaleMonotone(s[i], s[j], SeqMin(s), SeqMax(s));
  }

  /** When every entry is a voxel, normalising a second time changes nothing. */
  lemma NormalisedIdempotent(s: seq<real>, n: int)
    requires |s| > 0 && SeqMin(s) < SeqMax(s) && |s| <= n
    ensures SeqMin(Normalised(s, n)) < SeqMax(Normalised(s, n))
    ensures Normalised(Normalised(s, n), n) == Normalised(s, n)
  {
    var t := Normalised(s, n);
    NormalisedEnds(s, n);
    forall j | 0 <= j < |t|
      ensures Normalised(t, n)[j] == t[j]
    {
      assert Rescale(t[j], 0.0, 1.0) == t[j];
    }
  }

  /** Filling every voxel of a map whose data are its voxels leaves a flat vector, so the normalising variant of `set_data(value)` would divide by zero. */
  lemma FilledIsFlat(s: seq<real>, value: real, n: int)
    requires |s| > 0 && |s| <= n
    ensures SeqMin(Filled(s, value, n)) == value == SeqMax(Filled(s, value, n))
  {
    var t := Filled(s, value, n);
    SeqMinIs(t, 0);
    SeqMaxIs(t, 0);
  }
}
