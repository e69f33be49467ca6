/**
 * src/denoiser.cpp: the table-driven non-local-means denoiser.
 *
 * Every voxel gets an environment descriptor: the neighbours within the
 * comparison radius are binned into the eight octants by the signs of their
 * offsets, and each bin is averaged (octants 0 to 6 also count the central
 * value, octant 7 does not). The descriptors are stored in one flat table,
 * eight entries per voxel, together with each descriptor's mean and sample
 * standard deviation. A denoising pass then weighs every voxel against a
 * reference voxel through a kernel on the smallest rotated distance between
 * their descriptors.
 *
 * Floats are reals. The neighbour offsets (the table of indices that the grid's
 * neighbour search produces) and the periodic accessor `get_value(u, v, w)` are
 * parameters; `exp` and `sqrt` are function parameters, and only the facts in
 * ExpFacts are used about `exp`.
 */
module Denoiser {
  import opened Reals
  import opened Stats
  import opened Octant
  import opened MapGrid

  /** The octant a neighbour offset is binned into. */
  function OctantOfOffset(p: GridPoint): (o: int)
    ensures 0 <= o < No
  {
    OctantOfSigns(p.w >= 0, p.v >= 0, p.u >= 0) as int
  }

  /** An offset goes to octant 4 * [w >= 0] + 2 * [v >= 0] + [u >= 0]; in particular an offset with no negative component, the zero offset among them, goes to octant 7. */
  lemma OctantOfOffsetIsSum(p: GridPoint)
    ensures OctantOfOffset(p) == (if p.w >= 0 then 4 else 0) + (if p.v >= 0 then 2 else 0) + (if p.u >= 0 then 1 else 0)
    ensures OctantOfOffset(p) == 7 <==> p.w >= 0 && p.v >= 0 && p.u >= 0
  {
    OctantOfSignsIsSum(p.w >= 0, p.v >= 0, p.u >= 0);
  }

  /** The values whose octant is o, in their original order: what the `push_back` calls leave in bin o. */
  function Bucket(octs: seq<int>, vals: seq<real>, o: int): seq<real>
    requires |octs| == |vals|
  {
    if octs == [] then []
    else
      var n := |octs| - 1;
      Bucket(octs[..n], vals[..n], o) + (if octs[n] == o then [vals[n]] else [])
  }

  /** Binning one more value appends it to its own bin and to no other. */
  lemma BucketStep(octs: seq<int>, vals: seq<real>, o: int, i: int)
    requires |octs| == |vals| && 0 <= i < |octs|
    ensures Bucket(octs[..i + 1], vals[..i + 1], o) == Bucket(octs[..i], vals[..i], o) + (if octs[i] == o then [vals[i]] else [])
  {
    assert octs[..i + 1][..i] == octs[..i];
    assert vals[..i + 1][..i] == vals[..i];
  }

  /** A bin is empty only if no value has its octant. */
  lemma {:induction false} BucketNonEmpty(octs: seq<int>, vals: seq<real>, o: int, i: int)
    requires |octs| == |vals| && 0 <= i < |octs| && octs[i] == o
    ensures |Bucket(octs, vals, o)| > 0
  {
    var n := |octs| - 1;
    if i < n {
      BucketNonEmpty(octs[..n], vals[..n], o, i);
    }
  }

  /** Every value in bin o is the value of some item, so bounds on all values bound the bin. */
  lemma {:induction false} BucketBounds(octs: seq<int>, vals: seq<real>, o: int, lo: real, hi: real)
    requires |octs| == |vals|
    requires forall i :: 0 <= i < |vals| ==> lo <= vals[i] <= hi
    ensures forall i :: 0 <= i < |Bucket(octs, vals, o)| ==> lo <= Bucket(octs, vals, o)[i] <= hi
  {
    if octs != [] {
      var n := |octs| - 1;
      BucketBounds(octs[..n], vals[..n], o, lo, hi);
    }
  }

  /** The sizes of bins 0 .. k - 1 added up. */
  function BinnedCount(octs: seq<int>, vals: seq<real>, k: int): int
    requires |octs| == |vals|
    decreases k
  {
    if k <= 0 then 0 else BinnedCount(octs, vals, k - 1) + |Bucket(octs, vals, k - 1)|
  }

  /** One more value whose octant is c adds one to the count of the bins below k exactly when c < k. */
  lemma {:induction false} BinnedCountStep(octs: seq<int>, vals: seq<real>, k: int)
    requires |octs| == |vals| && |octs| > 0
    ensures var n := |octs| - 1;
      BinnedCount(octs, vals, k) == BinnedCount(octs[..n], vals[..n], k) + (if 0 <= octs[n] < k then 1 else 0)
    decreases k
  {
    if k > 0 {
      BinnedCountStep(octs, vals, k - 1);
    }
  }

  /** Each value lands in exactly one of the eight bins: the bin sizes add up to the number of values. */
  lemma {:induction false} BinsPartition(octs: seq<int>, vals: seq<real>)
    requires |octs| == |vals|
    requires forall i :: 0 <= i < |octs| ==> 0 <= octs[i] < No
    ensures BinnedCount(octs, vals, No) == |octs|
  {
    if octs != [] {
      var n := |octs| - 1;
      BinsPartition(octs[..n], vals[..n]);
      BinnedCountStep(octs, vals, No);
    }
  }

  /** One octant of `average_environment`: octants 0 to 6 fold the central value m0 into their mean, octant 7 does not. */
  function OctantAverage(bucket: seq<real>, m0: real, o: int): real
    requires o == 7 ==> |bucket| > 0
  {
    if o != 7 then (m0 + Sum(bucket)) / (|bucket| + 1) as real
    else Sum(bucket) / |bucket| as real
  }

  /** With every contributing value between lo and hi (the central value counting in octants 0 to 6), the octant average is between lo and hi. */
  lemma {:induction false} OctantAverageBounds(bucket: seq<real>, m0: real, o: int, lo: real, hi: real)
    requires o == 7 ==> |bucket| > 0
    requires forall i :: 0 <= i < |bucket| ==> lo <= bucket[i] <= hi
    requires o != 7 ==> lo <= m0 <= hi
    ensures lo <= OctantAverage(bucket, m0, o) <= hi
  {
    var n, total := |bucket| as real, Sum(bucket);
    assert n * lo <= total <= n * hi by {
      SumBounds(bucket, lo, hi);
    }
    if o != 7 {
      assert (n + 1.0) * lo <= m0 + total <= (n + 1.0) * hi by {
        Distribute(n, 1.0, lo);
        Distribute(n, 1.0, hi);
      }
      DivideBounds(m0 + total, n + 1.0, lo, hi);
    } else {
      DivideBounds(total, n, lo, hi);
    }
  }

  /** When the central value and every contributing value are c, the octant average is c. */
  lemma {:induction false} OctantAverageConstant(bucket: seq<real>, m0: real, o: int, c: real)
    requires o == 7 ==> |bucket| > 0
    requires forall i :: 0 <= i < |bucket| ==> bucket[i] == c
    requires m0 == c
    ensures OctantAverage(bucket, m0, o) == c
  {
    OctantAverageBounds(bucket, m0, o, c, c);
  }

  /** The octant of every neighbour offset. */
  function OffsetOctants(offsets: seq<GridPoint>): (octs: seq<int>)
    ensures |octs| == |offsets|
    ensures forall i :: 0 <= i < |offsets| ==> octs[i] == OctantOfOffset(offsets[i])
  {
    seq(|offsets|, i requires 0 <= i < |offsets| => OctantOfOffset(offsets[i]))
  }

  /** The map value at every neighbour of voxel c: `get_value(p.u + u, p.v + v, p.w + w)`. */
  function NeighbourValues(offsets: seq<GridPoint>, field: (int, int, int) -> real, c: GridPoint): (vals: seq<real>)
    ensures |vals| == |offsets|
    ensures forall i :: 0 <= i < |offsets| ==> vals[i] == field(offsets[i].u + c.u, offsets[i].v + c.v, offsets[i].w + c.w)
  {
    seq(|offsets|, i requires 0 <= i < |offsets| => field(offsets[i].u + c.u, offsets[i].v + c.v, offsets[i].w + c.w))
  }

  /** Some offset falls in octant 7, so its bin is never empty; the zero offset is one. */
  predicate HasOctantSeven(offsets: seq<GridPoint>)
  {
    exists i :: 0 <= i < |offsets| && OctantOfOffset(offsets[i]) == 7
  }

  /** The zero offset lies in octant 7. */
  lemma ZeroOffsetInOctantSeven(offsets: seq<GridPoint>)
    requires GridPoint(0, 0, 0) in offsets
    ensures HasOctantSeven(offsets)
  {
    var i :| 0 <= i < |offsets| && offsets[i] == GridPoint(0, 0, 0);
    OctantOfOffsetIsSum(offsets[i]);
  }

  /** Bin 7 of every voxel is non-empty when some offset lies in octant 7. */
  lemma OctantSevenNonEmpty(offsets: seq<GridPoint>, field: (int, int, int) -> real, c: GridPoint)
    requires HasOctantSeven(offsets)
    ensures |Bucket(OffsetOctants(offsets), NeighbourValues(offsets, field, c), 7)| > 0
  {
    var i :| 0 <= i < |offsets| && OctantOfOffset(offsets[i]) == 7;
    BucketNonEmpty(OffsetOctants(offsets), NeighbourValues(offsets, field, c), 7, i);
  }

  /** The environment of voxel c: the eight octant averages of its binned neighbours. */
  function Environment(offsets: seq<GridPoint>, field: (int, int, int) -> real, c: GridPoint): (env: seq<real>)
    requires HasOctantSeven(offsets)
    ensures |env| == No
  {
    var octs, vals := OffsetOctants(offsets), NeighbourValues(offsets, field, c);
    OctantSevenNonEmpty(offsets, field, c);
    seq(No, o requires 0 <= o < No => OctantAverage(Bucket(octs, vals, o), field(c.u, c.v, c.w), o))
  }

  /** On a map whose values all lie in [lo, hi], every environment entry does too. */
  lemma EnvironmentBounds(offsets: seq<GridPoint>, field: (int, int, int) -> real, c: GridPoint, lo: real, hi: real)
    requires HasOctantSeven(offsets)
    requires forall a, b, d :: lo <= field(a, b, d) <= hi
    ensures forall o :: 0 <= o < No ==> lo <= Environment(offsets, field, c)[o] <= hi
  {
    var octs, vals := OffsetOctants(offsets), NeighbourValues(offsets, field, c);
    OctantSevenNonEmpty(offsets, field, c);
    forall o | 0 <= o < No
      ensures lo <= Environment(offsets, field, c)[o] <= hi
    {
      var bucket := Bucket(octs, vals, o);
      BucketBounds(octs, vals, o, lo, hi);
      OctantAverageBounds(bucket, field(c.u, c.v, c.w), o, lo, hi);
    }
  }

  /** On a constant map every environment entry is that constant. */
  lemma EnvironmentOfConstantMap(offsets: seq<GridPoint>, field: (int, int, int) -> real, c: GridPoint, k: real)
    requires HasOctantSeven(offsets)
    requires forall a, b, d :: field(a, b, d) == k
    ensures forall o :: 0 <= o < No ==> Environment(offsets, field, c)[o] == k
  {
    EnvironmentBounds(offsets, field, c, k, k);
  }

  /** `average_environment`: the eight octant averages of the bins. */
  method AverageEnvironment(raw: seq<seq<real>>, m0: real) returns (env: seq<real>)
    requires |raw| == No && |raw[7]| > 0
    ensures |env| == No
    ensures forall o :: 0 <= o < No ==> env[o] == OctantAverage(raw[o], m0, o)
  {
    env := seq(No, _ => 0.0);
    for o := 0 to No
      invariant |env| == No
      invariant forall k :: 0 <= k < o ==> env[k] == OctantAverage(raw[k], m0, k)
    {
      if o != 7 {
        env := env[o := (m0 + Sum(raw[o])) / (|raw[o]| + 1) as real];
      } else {
        env := env[o := Sum(raw[o]) / |raw[o]| as real];
      }
    }
  }

  /** `construct_environment`: bin every neighbour of voxel c by octant, then average the bins. */
  method ConstructEnvironment(offsets: seq<GridPoint>, field: (int, int, int) -> real, c: GridPoint) returns (env: seq<real>)
    requires HasOctantSeven(offsets)
    ensures env == Environment(offsets, field, c)
  {
    ghost var octs, vals := OffsetOctants(offsets), NeighbourValues(offsets, field, c);
    var raw: seq<seq<real>> := seq(No, _ => []);
    var mCentral := field(c.u, c.v, c.w);
    for i := 0 to |offsets|
      invariant |raw| == No
      invariant forall o :: 0 <= o < No ==> raw[o] == Bucket(octs[..i], vals[..i], o)
    {
      var p := offsets[i];
      var oct := OctantOfOffset(p);
      raw := raw[oct := raw[oct] + [field(p.u + c.u, p.v + c.v, p.w + c.w)]];
      forall o | 0 <= o < No
        ensures raw[o] == Bucket(octs[..i + 1], vals[..i + 1], o)
      {
        BucketStep(octs, vals, o, i);
      }
    }
    assert octs[..|offsets|] == octs && vals[..|offsets|] == vals;
    OctantSevenNonEmpty(offsets, field, c);
    env := AverageEnvironment(raw, mCentral);
  }

  /** Entry i of the table of environments: octant i % 8 of the environment of the voxel stored at i / 8. */
  function EnvEntry(nu: int, nv: int, offsets: seq<GridPoint>, field: (int, int, int) -> real, i: int): real
    requires nu > 0 && nv > 0 && HasOctantSeven(offsets) && i >= 0
  {
    Environment(offsets, field, VoxelAt(nu, nv, i / No))[i % No]
  }

  /** Moving past the last u of a row, or the last v of a plane, lands on the first voxel of the next one. */
  lemma FlatIndexCarry(nu: int, nv: int, v: int, w: int)
    ensures FlatIndex(nu, nv, GridPoint(0, v, w)) + nu == FlatIndex(nu, nv, GridPoint(0, v + 1, w))
    ensures FlatIndex(nu, nv, GridPoint(0, nv, w)) == FlatIndex(nu, nv, GridPoint(0, 0, w + 1))
  {
    assert (w * nv + v) * nu + nu == (w * nv + v + 1) * nu;
    assert w * nv + nv == (w + 1) * nv;
  }

  /** The eight slots of voxel e lie inside a table of eight entries per voxel. */
  lemma SlotsInTable(e: int, volume: int)
    requires 0 <= e < volume
    ensures 0 <= e && No * e + No <= No * volume
  {
  }

  /** The volume in the order the loops of `table_of_envs` reach it. */
  lemma LoopVolume(nu: int, nv: int, nw: int)
    ensures FlatIndex(nu, nv, GridPoint(0, 0, nw)) == nu * nv * nw
  {
    assert (nw * nv) * nu == nu * nv * nw;
  }

  /** The slots of the first n voxels of the table hold their environments. */
  ghost predicate Filled(envs: array<real>, nu: int, nv: int, offsets: seq<GridPoint>, field: (int, int, int) -> real, n: int)
    requires nu > 0 && nv > 0 && HasOctantSeven(offsets)
    reads envs
  {
    forall i :: 0 <= i < No * n && i < envs.Length ==> envs[i] == EnvEntry(nu, nv, offsets, field, i)
  }

  /** Slots written with the environment of voxel e extend the filled prefix by one voxel. */
  lemma SlotsExtendFilled(envs: array<real>, nu: int, nv: int, offsets: seq<GridPoint>, field: (int, int, int) -> real, e: int, env: seq<real>)
    requires nu > 0 && nv > 0 && HasOctantSeven(offsets)
    requires 0 <= e && No * e + No <= envs.Length
    requires env == Environment(offsets, field, VoxelAt(nu, nv, e))
    requires Filled(envs, nu, nv, offsets, field, e)
    requires forall k :: 0 <= k < No ==> envs[No * e + k] == env[k]
    ensures Filled(envs, nu, nv, offsets, field, e + 1)
  {
    var base := No * e;
    forall i | base <= i < base + No
      ensures envs[i] == EnvEntry(nu, nv, offsets, field, i)
    {
      CellIndex(e, i - base);
      assert envs[base + (i - base)] == env[i - base];
    }
    assert No * (e + 1) == base + No;
  }

  /** Copy the environment of voxel e into the eight slots after the slots of voxels 0 .. e - 1. */
  method CopySlots(envs: array<real>, nu: int, nv: int, offsets: seq<GridPoint>, field: (int, int, int) -> real, e: int, env: seq<real>)
    requires nu > 0 && nv > 0 && HasOctantSeven(offsets)
    requires 0 <= e && No * e + No <= envs.Length
    requires env == Environment(offsets, field, VoxelAt(nu, nv, e))
    requires Filled(envs, nu, nv, offsets, field, e)
    modifies envs
    ensures Filled(envs, nu, nv, offsets, field, e + 1)
  {
    var base := No * e;
    for o := 0 to No
      invariant forall i :: 0 <= i < base ==> envs[i] == old(envs[i])
      invariant forall k :: 0 <= k < o ==> envs[base + k] == env[k]
    {
      envs[base + o] := env[o];
    }
    assert Filled(envs, nu, nv, offsets, field, e) by {
      assert forall i :: 0 <= i < base ==> envs[i] == old(envs[i]);
    }
    SlotsExtendFilled(envs, nu, nv, offsets, field, e, env);
  }

  /** The body of the innermost loop of `table_of_envs`: construct the environment of voxel c and copy it into the voxel's eight slots, which follow the slots already filled. */
  method StoreEnvironment(envs: array<real>, nu: int, nv: int, nw: int, offsets: seq<GridPoint>, field: (int, int, int) -> real, c: GridPoint)
    requires HasOctantSeven(offsets)
    requires 0 <= c.u < nu && 0 <= c.v < nv && 0 <= c.w < nw && envs.Length == No * (nu * nv * nw)
    requires Filled(envs, nu, nv, offsets, field, FlatIndex(nu, nv, c))
    modifies envs
    ensures Filled(envs, nu, nv, offsets, field, FlatIndex(nu, nv, c) + 1)
  {
    var env := ConstructEnvironment(offsets, field, c);
    var e := FlatIndex(nu, nv, c);
    FlatIndexInVolume(nu, nv, nw, c);
    SlotsInTable(e, nu * nv * nw);
    VoxelAtFlatIndex(nu, nv, c);
    CopySlots(envs, nu, nv, offsets, field, e, env);
  }

  /** `table_of_envs`: a fresh table holding the environment of every voxel, eight entries per voxel, voxels in w-v-u loop order. */
  method TableOfEnvs(m: Map, offsets: seq<GridPoint>, field: (int, int, int) -> real) returns (envs: array<real>)
    requires HasOctantSeven(offsets)
    ensures fresh(envs)
    ensures envs.Length == No * m.Volume()
    ensures envs.Length > 0 ==> m.nu > 0 && m.nv > 0
    ensures forall i :: 0 <= i < envs.Length ==> envs[i] == EnvEntry(m.nu, m.nv, offsets, field, i)
  {
    var nu, nv, nw := m.nu, m.nv, m.nw;
    envs := new real[No * m.Volume()];
    if nu == 0 || nv == 0 || nw == 0 {
      return;
    }
    var envIdx := 0;
    var w := 0;
    while w < nw
      invariant 0 <= w <= nw
      invariant envIdx == FlatIndex(nu, nv, GridPoint(0, 0, w))
      invariant Filled(envs, nu, nv, offsets, field, envIdx)
    {
      var v := 0;
      while v < nv
        invariant 0 <= v <= nv
        invariant envIdx == FlatIndex(nu, nv, GridPoint(0, v, w))
        invariant Filled(envs, nu, nv, offsets, field, envIdx)
      {
        var u := 0;
        while u < nu
          invariant 0 <= u <= nu
          invariant envIdx == FlatIndex(nu, nv, GridPoint(u, v, w))
          invariant Filled(envs, nu, nv, offsets, field, envIdx)
        {
          StoreEnvironment(envs, nu, nv, nw, offsets, field, GridPoint(u, v, w));
          envIdx := envIdx + 1;
          u := u + 1;
        }
        FlatIndexCarry(nu, nv, v, w);
        v := v + 1;
      }
      FlatIndexCarry(nu, nv, nv, w);
      w := w + 1;
    }
    LoopVolume(nu, nv, nw);
  }

  /** The whole table of environments of an nu x nv x (ne / (nu nv)) grid, as a sequence. */
  ghost function EnvTable(nu: int, nv: int, ne: nat, offsets: seq<GridPoint>, field: (int, int, int) -> real): (t: seq<real>)
    requires nu > 0 && nv > 0 && HasOctantSeven(offsets)
    ensures |t| == No * ne
  {
    seq(No * ne, i requires 0 <= i < No * ne => EnvEntry(nu, nv, offsets, field, i))
  }

  /** Row e of a table with eight entries per voxel: the environment of voxel e. */
  function Row(t: seq<real>, e: int): (row: seq<real>)
    requires 0 <= e && No * e + No <= |t|
    ensures |row| == No
  {
    t[No * e..No * e + No]
  }

  /** Row e of the table of environments is the environment of the voxel stored at e. */
  lemma RowOfEnvTable(nu: int, nv: int, ne: nat, offsets: seq<GridPoint>, field: (int, int, int) -> real, e: int)
    requires nu > 0 && nv > 0 && HasOctantSeven(offsets) && 0 <= e < ne
    ensures Row(EnvTable(nu, nv, ne, offsets, field), e) == Environment(offsets, field, VoxelAt(nu, nv, e))
  {
    var t, env := EnvTable(nu, nv, ne, offsets, field), Environment(offsets, field, VoxelAt(nu, nv, e));
    forall o | 0 <= o < No
      ensures Row(t, e)[o] == env[o]
    {
      CellIndex(e, o);
    }
  }

  /** The mean of every row: what `table_of_envavg` returns. */
  function EnvAverages(t: seq<real>, ne: nat): (avg: seq<real>)
    requires No * ne <= |t|
    ensures |avg| == ne
  {
    seq(ne, e requires 0 <= e < ne => MeanOf(Row(t, e)))
  }

  /** The sample standard deviation of every row: what `table_of_envstd` returns. */
  function EnvStds(t: seq<real>, ne: nat, sqrt: real -> real): (std: seq<real>)
    requires No * ne <= |t|
    ensures |std| == ne
  {
    seq(ne, e requires 0 <= e < ne => sqrt(SampleVariance(Row(t, e))))
  }

  /** Every environment average lies between the smallest and the largest entry of its row, so a table bounded by lo and hi has averages bounded by lo and hi. */
  lemma EnvAveragesBounds(t: seq<real>, ne: nat, lo: real, hi: real)
    requires No * ne <= |t|
    requires forall i :: 0 <= i < |t| ==> lo <= t[i] <= hi
    ensures forall e :: 0 <= e < ne ==> lo <= EnvAverages(t, ne)[e] <= hi
  {
    forall e | 0 <= e < ne
      ensures lo <= EnvAverages(t, ne)[e] <= hi
    {
      var row := Row(t, e);
      assert forall o :: 0 <= o < No ==> row[o] == t[No * e + o];
      MeanBetweenMinAndMax(row);
      SeqMinIsMinimum(row);
      SeqMaxIsMaximum(row);
    }
  }

  /** On a map whose values lie between lo and hi, so do all environment averages, and the spread of the averages is at most hi - lo. */
  lemma EnvAveragesOfBoundedMap(nu: int, nv: int, ne: nat, offsets: seq<GridPoint>, field: (int, int, int) -> real, lo: real, hi: real)
    requires nu > 0 && nv > 0 && HasOctantSeven(offsets) && ne > 0
    requires forall a, b, d :: lo <= field(a, b, d) <= hi
    ensures var avg := EnvAverages(EnvTable(nu, nv, ne, offsets, field), ne);
      lo <= SeqMin(avg) && SeqMax(avg) <= hi
  {
    var t := EnvTable(nu, nv, ne, offsets, field);
    forall i | 0 <= i < |t|
      ensures lo <= t[i] <= hi
    {
      EnvironmentBounds(offsets, field, VoxelAt(nu, nv, i / No), lo, hi);
    }
    EnvAveragesBounds(t, ne, lo, hi);
    var avg := EnvAverages(t, ne);
    SeqMinIsMinimum(avg);
    SeqMaxIsMaximum(avg);
  }

  /** The mean of environment e: the inner loop of `table_of_envavg`. */
  method RowMean(envs: seq<real>, e: int) returns (r: real)
    requires 0 <= e && No * e + No <= |envs|
    ensures r == MeanOf(Row(envs, e))
  {
    ghost var row := Row(envs, e);
    var envSum := 0.0;
    for o := 0 to No
      invariant envSum == Sum(row[..o])
    {
      SumStep(row, o);
      envSum := envSum + envs[e * No + o];
    }
    assert row[..No] == row;
    r := envSum / No as real;
  }

  /** `table_of_envavg(map, envs)`: the mean of each of the ne environments of a table. */
  method TableOfEnvAvg(ne: nat, envs: seq<real>) returns (avg: seq<real>)
    requires No * ne <= |envs|
    ensures avg == EnvAverages(envs, ne)
  {
    avg := [];
    for e := 0 to ne
      invariant |avg| == e
      invariant forall k :: 0 <= k < e ==> avg[k] == MeanOf(Row(envs, k))
    {
      var mean := RowMean(envs, e);
      avg := avg + [mean];
    }
  }

  /** `table_of_envavg(map, R_max)`: builds the table of environments of the map, then averages each environment. */
  method TableOfEnvAvgOfMap(m: Map, offsets: seq<GridPoint>, field: (int, int, int) -> real) returns (avg: seq<real>)
    requires HasOctantSeven(offsets)
    ensures |avg| == m.Volume()
    ensures forall e :: 0 <= e < |avg| ==> m.nu > 0 && m.nv > 0 && avg[e] == MeanOf(Environment(offsets, field, VoxelAt(m.nu, m.nv, e)))
  {
    var envs := TableOfEnvs(m, offsets, field);
    avg := TableOfEnvAvg(m.Volume(), envs[..]);
    forall e | 0 <= e < |avg|
      ensures m.nu > 0 && m.nv > 0 && avg[e] == MeanOf(Environment(offsets, field, VoxelAt(m.nu, m.nv, e)))
    {
      assert envs[..] == EnvTable(m.nu, m.nv, m.Volume(), offsets, field);
      RowOfEnvTable(m.nu, m.nv, m.Volume(), offsets, field, e);
    }
  }

  /** The squared deviations of environment e from its mean, over No - 1, rooted: the inner loop of `table_of_envstd`. */
  method RowStd(envs: seq<real>, e: int, mean: real, sqrt: real -> real) returns (r: real)
    requires 0 <= e && No * e + No <= |envs|
    requires mean == MeanOf(Row(envs, e))
    ensures r == sqrt(SampleVariance(Row(envs, e)))
  {
    ghost var ds := Deviations(Row(envs, e), mean);
    var envStd := 0.0;
    for o := 0 to No
      invariant envStd == Sum(ds[..o])
    {
      SumStep(ds, o);
      envStd := envStd + Sq(envs[e * No + o] - mean);
    }
    assert ds[..No] == ds;
    r := sqrt(envStd / (No - 1) as real);
  }

  /** `table_of_envstd`: the sample standard deviation of each of the ne environments of a table; the root is the parameter sqrt. */
  method TableOfEnvStd(ne: nat, envs: seq<real>, sqrt: real -> real) returns (std: seq<real>)
    requires No * ne <= |envs|
    ensures std == EnvStds(envs, ne, sqrt)
  {
    var avg := TableOfEnvAvg(ne, envs);
    std := [];
    for e := 0 to ne
      invariant |std| == e
      invariant forall k :: 0 <= k < e ==> std[k] == sqrt(SampleVariance(Row(envs, k)))
    {
      var sd := RowStd(envs, e, avg[e], sqrt);
      std := std + [sd];
    }
  }

  /** A table of Nr rows of No octants, as `table_of_rotations` returns it: every entry is an octant. */
  predicate IsOctantTable(rt: seq<Byte>)
  {
    |rt| == No * Nr && forall i :: 0 <= i < |rt| ==> IsOctant(rt[i])
  }

  /** The octant that row r of the table maps octant o to, as an index into an environment. */
  function RotatedOctant(rt: seq<Byte>, r: int, o: int): (p: int)
    requires IsOctantTable(rt) && 0 <= r < Nr && 0 <= o < No
    ensures 0 <= p < No
  {
    rt[No * r + o] as int
  }

  /** The table that `table_of_rotations` fills: entry r * 8 + o is the image of octant o under rotation r. */
  ghost predicate IsRotationTable(rt: seq<Byte>)
  {
    |rt| == No * Nr && forall i :: 0 <= i < No * Nr ==> rt[i] == Rotation(i / 8, (i % 8) as Byte)
  }

  /** Every entry of the table of rotations is an octant. */
  lemma RotationTableIsOctantTable(rt: seq<Byte>)
    requires IsRotationTable(rt)
    ensures IsOctantTable(rt)
  {
    forall i | 0 <= i < |rt|
      ensures IsOctant(rt[i])
    {
      var o := (i % 8) as Byte;
      assert IsOctant(o) && rt[i] == Rotation(i / 8, o);
    }
  }

  /** Row 0 of the table of rotations is the identity. */
  lemma RotationTableIdentityRow(rt: seq<Byte>)
    requires IsRotationTable(rt) && IsOctantTable(rt)
    ensures forall o :: 0 <= o < No ==> RotatedOctant(rt, 0, o) == o
  {
    forall o | 0 <= o < No
      ensures RotatedOctant(rt, 0, o) == o
    {
      assert rt[o] == Rotation(0, (o % 8) as Byte);
    }
  }

  /** The squared differences between the reference environment er, read through row r of the table, and environment e. */
  function RotatedTerms(t: seq<real>, rt: seq<Byte>, er: int, e: int, r: int): (ts: seq<real>)
    requires IsOctantTable(rt) && 0 <= r < Nr
    requires 0 <= er && No * er + No <= |t| && 0 <= e && No * e + No <= |t|
    ensures |ts| == No
  {
    seq(No, o requires 0 <= o < No => SqDiff(t[No * er + RotatedOctant(rt, r, o)], t[No * e + o]))
  }

  /** The mean squared difference under rotation r: `dist_sq / No`. */
  function RotatedDistance(t: seq<real>, rt: seq<Byte>, er: int, e: int, r: int): real
    requires IsOctantTable(rt) && 0 <= r < Nr
    requires 0 <= er && No * er + No <= |t| && 0 <= e && No * e + No <= |t|
  {
    Sum(RotatedTerms(t, rt, er, e, r)) / No as real
  }

  /** The distance under each of the Nr rotations, in table order. */
  function RotatedDistances(t: seq<real>, rt: seq<Byte>, er: int, e: int): (ds: seq<real>)
    requires IsOctantTable(rt)
    requires 0 <= er && No * er + No <= |t| && 0 <= e && No * e + No <= |t|
    ensures |ds| == Nr
  {
    seq(Nr, r requires 0 <= r < Nr => RotatedDistance(t, rt, er, e, r))
  }

  /** The starting value of the running minimum, `min_dsq = 1000000`. */
  const MinStart: real := 1000000.0

  /** The running "minimum" of `compute_kernels` as written: when the current value exceeds the next distance d, the value becomes d / 8, otherwise it stays. */
  function RunningMinAsWritten(init: real, ds: seq<real>): real
  {
    if ds == [] then init
    else
      var m := RunningMinAsWritten(init, ds[..|ds| - 1]);
      if m > ds[|ds| - 1] then ds[|ds| - 1] / 8.0 else m
  }

  /** Extending the distances by one applies one more update. */
  lemma RunningMinStep(init: real, ds: seq<real>, k: int)
    requires 0 <= k < |ds|
    ensures RunningMinAsWritten(init, ds[..k + 1]) == var m := RunningMinAsWritten(init, ds[..k]); if m > ds[k] then ds[k] / 8.0 else m
  {
    assert ds[..k + 1][..k] == ds[..k];
  }

  /** The running value is the start or an eighth of one of the distances; from a non-negative start it never exceeds the start, and it stays non-negative when the distances are. */
  lemma {:induction false} RunningMinFacts(init: real, ds: seq<real>)
    ensures 0.0 <= init ==> RunningMinAsWritten(init, ds) <= init
    ensures RunningMinAsWritten(init, ds) == init || exists i :: 0 <= i < |ds| && RunningMinAsWritten(init, ds) == ds[i] / 8.0
    ensures 0.0 <= init && (forall i :: 0 <= i < |ds| ==> 0.0 <= ds[i]) ==> 0.0 <= RunningMinAsWritten(init, ds)
  {
    if ds != [] {
      var n := |ds| - 1;
      RunningMinFacts(init, ds[..n]);
      var m := RunningMinAsWritten(init, ds[..n]);
      assert forall i :: 0 <= i < n ==> ds[..n][i] == ds[i];
      if m <= ds[n] {
        if m != init {
          var i :| 0 <= i < n && m == ds[..n][i] / 8.0;
          assert m == ds[i] / 8.0;
        }
      } else {
        assert RunningMinAsWritten(init, ds) == ds[n] / 8.0;
      }
    }
  }

  /** The update is not a minimum: from the start value, the distances 8 and 2 leave 1, not their minimum 2, because the value compared against later distances has already been divided by eight. */
  lemma RunningMinIsNotMinimum()
    ensures RunningMinAsWritten(MinStart, [8.0, 2.0]) == 1.0
    ensures FoldMin(MinStart, [8.0, 2.0]) == 2.0
  {
    assert [8.0, 2.0][..1] == [8.0];
    assert [8.0][..0] == [];
  }

  /** A first distance of zero, with start above zero and no negative distance, keeps the running value at zero. */
  lemma {:induction false} RunningMinFromZero(init: real, ds: seq<real>)
    requires 0.0 < init && |ds| > 0 && ds[0] == 0.0
    requires forall i :: 0 <= i < |ds| ==> 0.0 <= ds[i]
    ensures RunningMinAsWritten(init, ds) == 0.0
  {
    var n := |ds| - 1;
    if n == 0 {
      assert ds[..0] == [];
    } else {
      RunningMinFromZero(init, ds[..n]);
    }
  }

  /** The smallest rotated distance as `compute_kernels` computes it. */
  function MinDistance(t: seq<real>, rt: seq<Byte>, er: int, e: int): real
    requires IsOctantTable(rt)
    requires 0 <= er && No * er + No <= |t| && 0 <= e && No * e + No <= |t|
  {
    RunningMinAsWritten(MinStart, RotatedDistances(t, rt, er, e))
  }

  /** Rotated distances are never negative. */
  lemma RotatedDistanceNonNegative(t: seq<real>, rt: seq<Byte>, er: int, e: int, r: int)
    requires IsOctantTable(rt) && 0 <= r < Nr
    requires 0 <= er && No * er + No <= |t| && 0 <= e && No * e + No <= |t|
    ensures 0.0 <= RotatedDistance(t, rt, er, e, r)
  {
    var ts := RotatedTerms(t, rt, er, e, r);
    forall o | 0 <= o < No
      ensures 0.0 <= ts[o]
    {
      var d := t[No * er + RotatedOctant(rt, r, o)] - t[No * e + o];
      ProductNonNegative(Abs(d), Abs(d));
      assert ts[o] == Abs(d) * Abs(d);
    }
    SumNonNegative(ts);
  }

  /** Through an identity row 0, an environment is at distance zero from itself. */
  lemma SelfDistanceZero(t: seq<real>, rt: seq<Byte>, e: int)
    requires IsOctantTable(rt) && forall o :: 0 <= o < No ==> RotatedOctant(rt, 0, o) == o
    requires 0 <= e && No * e + No <= |t|
    ensures RotatedDistance(t, rt, e, e, 0) == 0.0
  {
    var ts := RotatedTerms(t, rt, e, e, 0);
    assert forall o :: 0 <= o < No ==> ts[o] == 0.0;
    SumConstant(ts, 0.0);
  }

  /** The minimum distance is never negative and never above the start value; through an identity row 0 it is zero between an environment and itself. */
  lemma MinDistanceFacts(t: seq<real>, rt: seq<Byte>, er: int, e: int)
    requires IsOctantTable(rt)
    requires 0 <= er && No * er + No <= |t| && 0 <= e && No * e + No <= |t|
    ensures 0.0 <= MinDistance(t, rt, er, e) <= MinStart
    ensures er == e && (forall o :: 0 <= o < No ==> RotatedOctant(rt, 0, o) == o) ==> MinDistance(t, rt, er, e) == 0.0
  {
    var ds := RotatedDistances(t, rt, er, e);
    forall r | 0 <= r < Nr
      ensures 0.0 <= ds[r]
    {
      RotatedDistanceNonNegative(t, rt, er, e, r);
    }
    RunningMinFacts(MinStart, ds);
    if er == e && (forall o :: 0 <= o < No ==> RotatedOctant(rt, 0, o) == o) {
      SelfDistanceZero(t, rt, e);
      RunningMinFromZero(MinStart, ds);
    }
  }

  /** The prefilter of `compute_kernels`: with dA and dS the differences of the means and of the deviations, both |dA + dS| and |dA - dS| are below hd. */
  predicate PassesFilter(avg: seq<real>, std: seq<real>, er: int, e: int, hd: real)
    requires 0 <= er < |avg| && 0 <= e < |avg| && |std| == |avg|
  {
    var dA, dS := avg[e] - avg[er], std[e] - std[er];
    Abs(dA + dS) < hd && Abs(dA - dS) < hd
  }

  /** A voxel passes the filter against itself exactly when hd is positive, and any voxel that passes forces hd positive. */
  lemma FilterFacts(avg: seq<real>, std: seq<real>, er: int, e: int, hd: real)
    requires 0 <= er < |avg| && 0 <= e < |avg| && |std| == |avg|
    ensures PassesFilter(avg, std, er, er, hd) <==> 0.0 < hd
    ensures PassesFilter(avg, std, er, e, hd) ==> 0.0 < hd
  {
  }

  /** `two_sigmasq = 2 * hd * hd`. */
  function TwoSigmaSq(hd: real): (s: real)
    requires 0.0 < hd
    ensures 0.0 < s
  {
    var twice := 2.0 * hd;
    ProductPositive(twice, hd);
    twice * hd
  }

  /** The kernel of environment e against the reference er: `exp(-min_dsq / two_sigmasq)`. */
  function Kernel(t: seq<real>, rt: seq<Byte>, er: int, e: int, hd: real, exp: real -> real): real
    requires IsOctantTable(rt) && 0.0 < hd
    requires 0 <= er && No * er + No <= |t| && 0 <= e && No * e + No <= |t|
  {
    exp(-MinDistance(t, rt, er, e) / TwoSigmaSq(hd))
  }

  /** What exp is taken to satisfy: exp(0) = 1, exp is positive, and exp is at most 1 on the non-positive reals. */
  ghost predicate ExpFacts(exp: real -> real)
  {
    exp(0.0) == 1.0 && (forall x :: 0.0 < exp(x)) && (forall x :: x <= 0.0 ==> exp(x) <= 1.0)
  }

  /** Every kernel lies in (0, 1]; through an identity row 0, the kernel of an environment against itself is 1. */
  lemma KernelFacts(t: seq<real>, rt: seq<Byte>, er: int, e: int, hd: real, exp: real -> real)
    requires IsOctantTable(rt) && 0.0 < hd && ExpFacts(exp)
    requires 0 <= er && No * er + No <= |t| && 0 <= e && No * e + No <= |t|
    ensures 0.0 < Kernel(t, rt, er, e, hd, exp) <= 1.0
    ensures er == e && (forall o :: 0 <= o < No ==> RotatedOctant(rt, 0, o) == o) ==> Kernel(t, rt, er, e, hd, exp) == 1.0
  {
    MinDistanceFacts(t, rt, er, e);
    var md, s := MinDistance(t, rt, er, e), TwoSigmaSq(hd);
    assert -md / s <= 0.0 by {
      DivideBounds(md, s, 0.0, md / s);
    }
    if er == e && (forall o :: 0 <= o < No ==> RotatedOctant(rt, 0, o) == o) {
      assert -md / s == 0.0;
    }
  }

  /** Slot e of the kernel buffer after `compute_kernels` for reference er: the kernel when e passes the filter, the previous content prev otherwise. */
  function KernelAt(prev: real, t: seq<real>, rt: seq<Byte>, er: int, e: int, hd: real, avg: seq<real>, std: seq<real>, exp: real -> real): real
    requires IsOctantTable(rt)
    requires 0 <= er && No * er + No <= |t| && 0 <= e && No * e + No <= |t|
    requires er < |avg| && e < |avg| && |std| == |avg|
  {
    if PassesFilter(avg, std, er, e, hd) then
      FilterFacts(avg, std, er, e, hd);
      Kernel(t, rt, er, e, hd, exp)
    else prev
  }

  /** The whole kernel buffer after `compute_kernels`, from its previous contents base. */
  function KernelRow(base: seq<real>, t: seq<real>, rt: seq<Byte>, er: int, hd: real, avg: seq<real>, std: seq<real>, exp: real -> real): (ks: seq<real>)
    requires IsOctantTable(rt)
    requires No * |base| <= |t| && |avg| == |base| && |std| == |base| && 0 <= er < |base|
    ensures |ks| == |base|
  {
    seq(|base|, e requires 0 <= e < |base| => KernelAt(base[e], t, rt, er, e, hd, avg, std, exp))
  }

  /** With hd positive, an identity row 0 and a previous buffer of non-negative values, every entry of the kernel row is non-negative and the reference's own entry is 1, so the row sums to at least 1. */
  lemma KernelRowFacts(base: seq<real>, t: seq<real>, rt: seq<Byte>, er: int, hd: real, avg: seq<real>, std: seq<real>, exp: real -> real)
    requires IsOctantTable(rt) && forall o :: 0 <= o < No ==> RotatedOctant(rt, 0, o) == o
    requires No * |base| <= |t| && |avg| == |base| && |std| == |base| && 0 <= er < |base|
    requires 0.0 < hd && ExpFacts(exp)
    requires forall i :: 0 <= i < |base| ==> 0.0 <= base[i]
    ensures forall i :: 0 <= i < |base| ==> 0.0 <= KernelRow(base, t, rt, er, hd, avg, std, exp)[i]
    ensures KernelRow(base, t, rt, er, hd, avg, std, exp)[er] == 1.0
    ensures 1.0 <= Sum(KernelRow(base, t, rt, er, hd, avg, std, exp))
  {
    var ks := KernelRow(base, t, rt, er, hd, avg, std, exp);
    forall i | 0 <= i < |base|
      ensures 0.0 <= ks[i]
    {
      FilterFacts(avg, std, er, i, hd);
      if PassesFilter(avg, std, er, i, hd) {
        KernelFacts(t, rt, er, i, hd, exp);
      }
    }
    FilterFacts(avg, std, er, er, hd);
    KernelFacts(t, rt, er, er, hd, exp);
    SumAtLeastElement(ks, er);
  }

  /** The innermost loop of `compute_kernels`: the mean squared difference between the reference environment er, read through row r of the rotation table, and environment e. */
  method RotatedDistanceOf(envs: seq<real>, rots: seq<Byte>, er: int, e: int, r: int) returns (distSq: real)
    requires IsOctantTable(rots) && 0 <= r < Nr
    requires 0 <= er && No * er + No <= |envs| && 0 <= e && No * e + No <= |envs|
    ensures distSq == RotatedDistance(envs, rots, er, e, r)
  {
    ghost var ts := RotatedTerms(envs, rots, er, e, r);
    var refRow, rotRow := No * er, No * r;
    distSq := 0.0;
    for o := 0 to No
      invariant distSq == Sum(ts[..o])
    {
      var refr := envs[refRow + rots[rotRow + o] as int];
      var comp := envs[No * e + o];
      SumStep(ts, o);
      distSq := distSq + SqDiff(refr, comp);
    }
    assert ts[..No] == ts;
    distSq := distSq / No as real;
  }

  /** The loop over rotations in `compute_kernels`: the running value from `min_dsq = 1000000`. */
  method MinDistanceOf(envs: seq<real>, rots: seq<Byte>, er: int, e: int) returns (minDsq: real)
    requires IsOctantTable(rots)
    requires 0 <= er && No * er + No <= |envs| && 0 <= e && No * e + No <= |envs|
    ensures minDsq == MinDistance(envs, rots, er, e)
  {
    ghost var ds := RotatedDistances(envs, rots, er, e);
    minDsq := 1000000.0;
    for r := 0 to Nr
      invariant minDsq == RunningMinAsWritten(MinStart, ds[..r])
    {
      var distSq := RotatedDistanceOf(envs, rots, er, e, r);
      RunningMinStep(MinStart, ds, r);
      minDsq := if minDsq > distSq then distSq / 8.0 else minDsq;
    }
    assert ds[..Nr] == ds;
  }

  /** The body of the loop of `compute_kernels` before the store: whether environment e passes the filter against er and, when it does, its kernel. */
  method FilteredKernel(envs: seq<real>, rots: seq<Byte>, er: int, e: int, hd: real, envavg: seq<real>, envstd: seq<real>, exp: real -> real) returns (passes: bool, k: real)
    requires No * |envavg| <= |envs| && IsOctantTable(rots)
    requires |envstd| == |envavg| && 0 <= er < |envavg| && 0 <= e < |envavg|
    ensures passes == PassesFilter(envavg, envstd, er, e, hd)
    ensures passes ==> 0.0 < hd && k == Kernel(envs, rots, er, e, hd, exp)
  {
    var dA := envavg[e] - envavg[er];
    var dS := envstd[e] - envstd[er];
    passes := Abs(dA + dS) < hd && Abs(dA - dS) < hd;
    k := 0.0;
    if passes {
      FilterFacts(envavg, envstd, er, e, hd);
      var twoSigmaSq := TwoSigmaSq(hd);
      var minDsq := MinDistanceOf(envs, rots, er, e);
      k := exp(-minDsq / twoSigmaSq);
    }
  }

  /** `compute_kernels`: slot e of the buffer becomes the kernel of environment e against er when e passes the filter, and keeps its contents otherwise. */
  method ComputeKernels(kernels: array<real>, envs: seq<real>, rots: seq<Byte>, er: int, ne: int, hd: real, envavg: seq<real>, envstd: seq<real>, exp: real -> real)
    requires kernels.Length == ne && No * ne <= |envs|
    requires IsOctantTable(rots) && |envavg| == ne && |envstd| == ne && 0 <= er < ne
    modifies kernels
    ensures kernels[..] == KernelRow(old(kernels[..]), envs, rots, er, hd, envavg, envstd, exp)
  {
    ghost var base := kernels[..];
    for e := 0 to ne
      invariant forall k :: 0 <= k < e ==> kernels[k] == KernelAt(base[k], envs, rots, er, k, hd, envavg, envstd, exp)
      invariant forall k :: e <= k < ne ==> kernels[k] == base[k]
    {
      var passes, k := FilteredKernel(envs, rots, er, e, hd, envavg, envstd, exp);
      if passes {
        kernels[e] := k;
      }
    }
  }

  /** `compute_uhat`: the kernel-weighted mean of the first ne map values. */
  method ComputeUhat(kernel: array<real>, maps: seq<real>, ne: int) returns (r: real)
    requires 0 <= ne <= kernel.Length && ne <= |maps|
    requires Sum(kernel[..ne]) != 0.0
    ensures r == Dot(kernel[..ne], maps[..ne]) / Sum(kernel[..ne])
  {
    ghost var ks, ms := kernel[..ne], maps[..ne];
    var uhat, sumk := 0.0, 0.0;
    for e := 0 to ne
      invariant uhat == Dot(ks[..e], ms[..e]) && sumk == Sum(ks[..e])
    {
      DotStep(ks, ms, e);
      SumStep(ks, e);
      uhat, sumk := uhat + Prod(kernel[e], maps[e]), sumk + kernel[e];
    }
    assert ks[..ne] == ks && ms[..ne] == ms;
    r := uhat / sumk;
  }

  /** The weighted mean over non-negative weights with a positive total lies between the smallest and the largest map value, and is c on a map that is constantly c. */
  lemma UhatFacts(ks: seq<real>, ms: seq<real>, lo: real, hi: real)
    requires |ks| == |ms| && Sum(ks) > 0.0
    requires forall i :: 0 <= i < |ks| ==> 0.0 <= ks[i]
    requires forall i :: 0 <= i < |ms| ==> lo <= ms[i] <= hi
    ensures lo <= Dot(ks, ms) / Sum(ks) <= hi
    ensures lo == hi ==> Dot(ks, ms) / Sum(ks) == lo
  {
    WeightedMeanBounds(ks, ms, lo, hi);
  }

  /** A product with a zero factor is zero. */
  lemma ZeroFactor(a: int, b: int)
    ensures a == 0 || b == 0 ==> a * b == 0
  {
  }

  /** A grid with voxels has three positive dimensions. */
  lemma VolumeFactors(nu: nat, nv: nat, nw: nat)
    requires 0 < nu * nv * nw
    ensures 0 < nu && 0 < nv && 0 < nw
  {
    ZeroFactor(nu, nv);
    ZeroFactor(nu * nv, nw);
  }

  /** The table of environments of map m. */
  ghost function MapEnvTable(m: Map, offsets: seq<GridPoint>, field: (int, int, int) -> real): (t: seq<real>)
    reads m
    requires HasOctantSeven(offsets) && 0 < m.Volume()
    ensures |t| == No * m.Volume()
  {
    VolumeFactors(m.nu, m.nv, m.nw);
    EnvTable(m.nu, m.nv, m.Volume(), offsets, field)
  }

  /** The table `table_of_rotations` returns. */
  ghost function RotationTable(): (rt: seq<Byte>)
    ensures IsRotationTable(rt) && IsOctantTable(rt)
    ensures forall o :: 0 <= o < No ==> RotatedOctant(rt, 0, o) == o
  {
    var rt := seq(No * Nr, i requires 0 <= i < No * Nr => Rotation(i / 8, (i % 8) as Byte));
    RotationTableIsOctantTable(rt);
    RotationTableIdentityRow(rt);
    rt
  }

  /** The kernel buffer after `memset`. */
  function Zeros(n: nat): (z: seq<real>)
    ensures |z| == n && forall i :: 0 <= i < n ==> z[i] == 0.0
  {
    seq(n, _ => 0.0)
  }

  /** The number of reference voxels the main loop handles: it stops after voxel 1000 (`if (er == 1000) break`). */
  function Passes(ne: nat): (n: nat)
    ensures n <= ne && n <= 1001
    ensures ne <= 1001 ==> n == ne
  {
    if ne > 1001 then 1001 else ne
  }

  /** What `compute_uhat` returns for reference er after `compute_kernels` ran on a buffer holding base. */
  function DenoisedValue(base: seq<real>, t: seq<real>, rt: seq<Byte>, er: int, hd: real, avg: seq<real>, std: seq<real>, exp: real -> real, maps: seq<real>): real
    requires IsOctantTable(rt)
    requires No * |base| <= |t| && |avg| == |base| && |std| == |base| && 0 <= er < |base| && |base| <= |maps|
    requires Sum(KernelRow(base, t, rt, er, hd, avg, std, exp)) != 0.0
  {
    Dot(KernelRow(base, t, rt, er, hd, avg, std, exp), maps[..|base|]) / Sum(KernelRow(base, t, rt, er, hd, avg, std, exp))
  }

  /** With hd positive and a non-negative starting buffer, the kernels of a pass sum to at least 1 and the denoised value lies between the smallest and the largest of the first ne map values; on a constant map it is that constant. */
  lemma DenoisedValueInRange(base: seq<real>, t: seq<real>, rt: seq<Byte>, er: int, hd: real, avg: seq<real>, std: seq<real>, exp: real -> real, maps: seq<real>)
    requires IsOctantTable(rt) && forall o :: 0 <= o < No ==> RotatedOctant(rt, 0, o) == o
    requires No * |base| <= |t| && |avg| == |base| && |std| == |base| && 0 <= er < |base| && |base| <= |maps|
    requires 0.0 < hd && ExpFacts(exp)
    requires forall i :: 0 <= i < |base| ==> 0.0 <= base[i]
    ensures 1.0 <= Sum(KernelRow(base, t, rt, er, hd, avg, std, exp))
    ensures SeqMin(maps[..|base|]) <= DenoisedValue(base, t, rt, er, hd, avg, std, exp, maps) <= SeqMax(maps[..|base|])
    ensures (forall i :: 0 <= i < |base| ==> maps[i] == maps[0]) ==> DenoisedValue(base, t, rt, er, hd, avg, std, exp, maps) == maps[0]
  {
    KernelRowFacts(base, t, rt, er, hd, avg, std, exp);
    var ks, ms := KernelRow(base, t, rt, er, hd, avg, std, exp), maps[..|base|];
    SeqMinIsMinimum(ms);
    SeqMaxIsMaximum(ms);
    UhatFacts(ks, ms, SeqMin(ms), SeqMax(ms));
    if forall i :: 0 <= i < |base| ==> maps[i] == maps[0] {
      assert forall i :: 0 <= i < |ms| ==> ms[i] == maps[0];
      UhatFacts(ks, ms, maps[0], maps[0]);
    }
  }

  /** The body of the main loop of `nlmeans_denoiser`: compute the kernels against er, store the weighted mean at er, and clear the buffer. */
  method DenoisePass(denoised: Map, kernels: array<real>, envs: seq<real>, rots: seq<Byte>, er: int, hd: real, envavg: seq<real>, envstd: seq<real>, exp: real -> real, mapData: seq<real>)
    requires IsOctantTable(rots) && forall o :: 0 <= o < No ==> RotatedOctant(rots, 0, o) == o
    requires kernels.Length == |envavg| && No * |envavg| <= |envs| && |envstd| == |envavg| && 0 <= er < |envavg|
    requires |envavg| <= |mapData| && er < |denoised.data|
    requires 0.0 < hd && ExpFacts(exp)
    requires forall i :: 0 <= i < kernels.Length ==> 0.0 <= kernels[i]
    modifies denoised, kernels
    ensures 1.0 <= Sum(KernelRow(old(kernels[..]), envs, rots, er, hd, envavg, envstd, exp))
    ensures denoised.nu == old(denoised.nu) && denoised.nv == old(denoised.nv) && denoised.nw == old(denoised.nw)
    ensures denoised.data == old(denoised.data)[er := DenoisedValue(old(kernels[..]), envs, rots, er, hd, envavg, envstd, exp, mapData)]
    ensures kernels[..] == Zeros(kernels.Length)
  {
    ghost var base := kernels[..];
    var ne := kernels.Length;
    ComputeKernels(kernels, envs, rots, er, ne, hd, envavg, envstd, exp);
    DenoisedValueInRange(base, envs, rots, er, hd, envavg, envstd, exp, mapData);
    assert kernels[..ne] == kernels[..];
    var uhat := ComputeUhat(kernels, mapData, ne);
    denoised.SetValue(er, uhat);
    forall i | 0 <= i < ne {
      kernels[i] := 0.0;
    }
    assert kernels[..] == Zeros(ne);
  }

  /** The starting buffer of pass er: the initial contents of the fresh buffer for the first pass, zeros after every `memset`. */
  function PassBuffer(garbage: seq<real>, er: int): (b: seq<real>)
    ensures |b| == |garbage|
  {
    if er == 0 then garbage else Zeros(|garbage|)
  }

  /** The tables `nlmeans_denoiser` builds before its main loop: environments, their averages and deviations, and the rotations. */
  method DenoiserTables(m: Map, offsets: seq<GridPoint>, field: (int, int, int) -> real, sqrt: real -> real)
    returns (envs: seq<real>, envavg: seq<real>, envstd: seq<real>, rots: seq<Byte>)
    requires HasOctantSeven(offsets) && 0 < m.Volume()
    ensures envs == MapEnvTable(m, offsets, field)
    ensures envavg == EnvAverages(envs, m.Volume()) && envstd == EnvStds(envs, m.Volume(), sqrt)
    ensures rots == RotationTable()
    ensures forall o :: 0 <= o < No ==> RotatedOctant(rots, 0, o) == o
  {
    var ne := m.Volume();
    VolumeFactors(m.nu, m.nv, m.nw);
    var envTable := TableOfEnvs(m, offsets, field);
    envs := envTable[..];
    assert envs == MapEnvTable(m, offsets, field);
    envavg := TableOfEnvAvg(ne, envs);
    envstd := TableOfEnvStd(ne, envs, sqrt);
    var rotTable := TableOfRotations();
    rots := rotTable[..];
    assert rots == RotationTable();
  }

  /** The value pass er of the main loop stores at voxel er. */
  function PassValue(garbage: seq<real>, envs: seq<real>, rots: seq<Byte>, er: int, hd: real, envavg: seq<real>, envstd: seq<real>, exp: real -> real, mapData: seq<real>): real
    requires IsOctantTable(rots) && forall o :: 0 <= o < No ==> RotatedOctant(rots, 0, o) == o
    requires No * |garbage| <= |envs| && |envavg| == |garbage| && |envstd| == |garbage| && 0 <= er < |garbage| && |garbage| <= |mapData|
    requires 0.0 < hd && ExpFacts(exp)
    requires forall i :: 0 <= i < |garbage| ==> 0.0 <= garbage[i]
  {
    var base := PassBuffer(garbage, er);
    assert forall i :: 0 <= i < |base| ==> 0.0 <= base[i];
    DenoisedValueInRange(base, envs, rots, er, hd, envavg, envstd, exp, mapData);
    DenoisedValue(base, envs, rots, er, hd, envavg, envstd, exp, mapData)
  }

  /** The main loop of `nlmeans_denoiser`: one pass per reference voxel er, until the last voxel or until voxel 1000 is done. */
  method DenoiseLoop(denoised: Map, kernels: array<real>, envs: seq<real>, rots: seq<Byte>, hd: real, envavg: seq<real>, envstd: seq<real>, exp: real -> real, mapData: seq<real>, garbage: seq<real>)
    requires IsOctantTable(rots) && forall o :: 0 <= o < No ==> RotatedOctant(rots, 0, o) == o
    requires kernels.Length == |envavg| && No * |envavg| <= |envs| && |envstd| == |envavg| && |garbage| == |envavg|
    requires |envavg| <= |mapData| && denoised.data == mapData
    requires 0.0 < hd && ExpFacts(exp)
    requires kernels[..] == garbage && forall i :: 0 <= i < |garbage| ==> 0.0 <= garbage[i]
    modifies denoised, kernels
    ensures denoised.nu == old(denoised.nu) && denoised.nv == old(denoised.nv) && denoised.nw == old(denoised.nw)
    ensures |denoised.data| == |mapData|
    ensures forall i :: 0 <= i < |mapData| ==> (denoised.data[i] ==
      if i < Passes(|envavg|) then PassValue(garbage, envs, rots, i, hd, envavg, envstd, exp, mapData) else mapData[i])
  {
    var ne := kernels.Length;
    var er := 0;
    ghost var done := 0;
    while er < ne
      invariant 0 <= er <= ne && er <= 1000 && done == er
      invariant denoised.nu == old(denoised.nu) && denoised.nv == old(denoised.nv) && denoised.nw == old(denoised.nw)
      invariant |denoised.data| == |mapData|
      invariant kernels[..] == PassBuffer(garbage, er)
      invariant forall i :: 0 <= i < |mapData| ==> (denoised.data[i] ==
        if i < done then PassValue(garbage, envs, rots, i, hd, envavg, envstd, exp, mapData) else mapData[i])
    {
      assert forall i :: 0 <= i < ne ==> 0.0 <= kernels[i] by {
        assert forall i :: 0 <= i < ne ==> kernels[i] == PassBuffer(garbage, er)[i];
      }
      DenoisePass(denoised, kernels, envs, rots, er, hd, envavg, envstd, exp, mapData);
      done := er + 1;
      if er == 1000 {
        break;
      }
      er := er + 1;
    }
  }

  /** `hd = p_thresh * (max - min)` over the environment averages. */
  function DenoisingParameter(pThresh: real, avg: seq<real>): real
    requires |avg| > 0
  {
    pThresh * (SeqMax(avg) - SeqMin(avg))
  }

  /** `nlmeans_denoiser`: a copy of the map in which each of the first Passes(ne) voxels is replaced by its denoised value, together with hd and the table of environment averages. The initial contents of the kernel buffer are the parameter garbage. */
  method NlmeansDenoiser(m: Map, pThresh: real, offsets: seq<GridPoint>, field: (int, int, int) -> real, exp: real -> real, sqrt: real -> real, garbage: seq<real>)
    returns (denoised: Map, hd: real, envavg: seq<real>)
    requires HasOctantSeven(offsets) && 0 < m.Volume() <= |m.data|
    requires |garbage| == m.Volume() && forall i :: 0 <= i < |garbage| ==> 0.0 <= garbage[i]
    requires ExpFacts(exp)
    requires 0.0 < DenoisingParameter(pThresh, EnvAverages(MapEnvTable(m, offsets, field), m.Volume()))
    ensures fresh(denoised)
    ensures denoised.nu == m.nu && denoised.nv == m.nv && denoised.nw == m.nw && |denoised.data| == |m.data|
    ensures envavg == EnvAverages(MapEnvTable(m, offsets, field), m.Volume())
    ensures hd == DenoisingParameter(pThresh, envavg)
    ensures forall i :: 0 <= i < |m.data| ==> (denoised.data[i] ==
      if i < Passes(m.Volume())
      then PassValue(garbage, MapEnvTable(m, offsets, field), RotationTable(), i, hd, envavg, EnvStds(MapEnvTable(m, offsets, field), m.Volume(), sqrt), exp, m.data)
      else m.data[i])
  {
    var ne := m.Volume();
    denoised := new Map(m.nu, m.nv, m.nw, m.data);
    var envs, envstd, rots;
    envs, envavg, envstd, rots := DenoiserTables(m, offsets, field, sqrt);
    var mapData := m.data;
    hd := DenoisingParameter(pThresh, envavg);
    var kernels := new real[ne](i requires 0 <= i < ne => garbage[i]);
    assert kernels[..] == garbage;
    DenoiseLoop(denoised, kernels, envs, rots, hd, envavg, envstd, exp, mapData, garbage);
  }
}
