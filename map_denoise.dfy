/**
 * src/Map/denoise.cpp: the direct non-local-means denoiser of a Map.
 *
 * Every voxel gets a quadrant descriptor: the samples within the comparison
 * radius are binned into eight quadrants by the signs of their offsets and
 * each bin is averaged (quadrants 0 to 6 also count the central value,
 * quadrant 7 does not). For every reference voxel, each sample within the
 * search radius is weighed by exp(-d / h2), where d is `compare_quadrants`
 * between the reference descriptor and the descriptor of the voxel nearest to
 * the sample; the central voxel is weighed by the largest of those kernels.
 *
 * Floats are reals. The grid's neighbour search (`use_points_around`) and its
 * nearest-point lookup are parameters: for every voxel, the samples found
 * within the comparison radius and the hits found within the search radius.
 * The periodic accessor `get_value(u, v, w)` is the parameter `field`, and
 * `exp` is a function parameter of which only ExpFacts is used.
 */
module MapDenoise {
  import opened Reals
  import opened Octant
  import opened Quadrant
  import opened MapGrid
  import opened Denoiser

  /** A point visited by the neighbour search: its map value and its offset from the centre. */
  datatype Sample = Sample(m: real, dx: real, dy: real, dz: real)

  /** A point visited within the search radius: its map value and the grid point nearest to it. */
  datatype Hit = Hit(m: real, c: GridPoint)

  /**
   * What the grid supplies: the samples around every voxel within the
   * comparison radius, the hits around every voxel within the search radius,
   * and the value at every voxel.
   */
  datatype Sampling = Sampling(comparison: GridPoint -> seq<Sample>, search: GridPoint -> seq<Hit>, field: (int, int, int) -> real)

  /** The quadrant of a sample: bit 2 for dz >= 0, bit 1 for dy >= 0, bit 0 for dx >= 0. */
  function QuadrantOf(s: Sample): (q: int)
    ensures 0 <= q < NQ
  {
    OctantOfSigns(s.dz >= 0.0, s.dy >= 0.0, s.dx >= 0.0) as int
  }

  /** A sample goes to quadrant 4 * [dz >= 0] + 2 * [dy >= 0] + [dx >= 0]; a zero offset counts as non-negative, so the centre itself goes to quadrant 7. */
  lemma QuadrantOfIsSum(s: Sample)
    ensures QuadrantOf(s) == (if s.dz >= 0.0 then 4 else 0) + (if s.dy >= 0.0 then 2 else 0) + (if s.dx >= 0.0 then 1 else 0)
    ensures QuadrantOf(s) == 7 <==> s.dz >= 0.0 && s.dy >= 0.0 && s.dx >= 0.0
  {
    OctantOfSignsIsSum(s.dz >= 0.0, s.dy >= 0.0, s.dx >= 0.0);
  }

  /** The quadrant of every sample, in visiting order. */
  function SampleQuadrants(samples: seq<Sample>): (qs: seq<int>)
    ensures |qs| == |samples|
    ensures forall i :: 0 <= i < |samples| ==> qs[i] == QuadrantOf(samples[i])
  {
    seq(|samples|, i requires 0 <= i < |samples| => QuadrantOf(samples[i]))
  }

  /** The value of every sample, in visiting order. */
  function SampleValues(samples: seq<Sample>): (ms: seq<real>)
    ensures |ms| == |samples|
    ensures forall i :: 0 <= i < |samples| ==> ms[i] == samples[i].m
  {
    seq(|samples|, i requires 0 <= i < |samples| => samples[i].m)
  }

  /** Some sample falls in quadrant 7, so its average is defined. */
  predicate HasQuadrantSeven(samples: seq<Sample>)
  {
    exists i :: 0 <= i < |samples| && QuadrantOf(samples[i]) == 7
  }

  /** With a sample in quadrant 7, bin 7 is not empty. */
  lemma QuadrantSevenNonEmpty(samples: seq<Sample>)
    requires HasQuadrantSeven(samples)
    ensures |Bucket(SampleQuadrants(samples), SampleValues(samples), 7)| > 0
  {
    var i :| 0 <= i < |samples| && QuadrantOf(samples[i]) == 7;
    BucketNonEmpty(SampleQuadrants(samples), SampleValues(samples), 7, i);
  }

  /** Every sample lands in exactly one of the eight bins: the bin sizes add up to the number of samples. */
  lemma SamplesPartition(samples: seq<Sample>)
    ensures BinnedCount(SampleQuadrants(samples), SampleValues(samples), NQ) == |samples|
  {
    BinsPartition(SampleQuadrants(samples), SampleValues(samples));
  }

  /** The descriptor built from the samples around a voxel whose own value is mCentral. */
  function Quadrants(samples: seq<Sample>, mCentral: real): (q: seq<real>)
    requires HasQuadrantSeven(samples)
    ensures |q| == NQ
  {
    var qs, ms := SampleQuadrants(samples), SampleValues(samples);
    QuadrantSevenNonEmpty(samples);
    seq(NQ, o requires 0 <= o < NQ => OctantAverage(Bucket(qs, ms, o), mCentral, o))
  }

  /** With every sample value and the central value in [lo, hi], every quadrant average is in [lo, hi]; in particular a constant neighbourhood gives a constant descriptor. */
  lemma QuadrantsBounds(samples: seq<Sample>, mCentral: real, lo: real, hi: real)
    requires HasQuadrantSeven(samples)
    requires forall i :: 0 <= i < |samples| ==> lo <= samples[i].m <= hi
    requires lo <= mCentral <= hi
    ensures forall o :: 0 <= o < NQ ==> lo <= Quadrants(samples, mCentral)[o] <= hi
  {
    var qs, ms := SampleQuadrants(samples), SampleValues(samples);
    QuadrantSevenNonEmpty(samples);
    BucketBounds(qs, ms, 7, lo, hi);
    forall o | 0 <= o < NQ
      ensures lo <= Quadrants(samples, mCentral)[o] <= hi
    {
      BucketBounds(qs, ms, o, lo, hi);
      OctantAverageBounds(Bucket(qs, ms, o), mCentral, o, lo, hi);
    }
  }

  /** `construct_quadrant`: sum every bin with a running total, then average it, counting the central value in quadrants 0 to 6. */
  method ConstructQuadrant(valsInQuad: seq<seq<real>>, mCentral: real) returns (quadrantAvg: seq<real>)
    requires |valsInQuad| == NQ && |valsInQuad[7]| > 0
    ensures |quadrantAvg| == NQ
    ensures forall q :: 0 <= q < NQ ==> quadrantAvg[q] == OctantAverage(valsInQuad[q], mCentral, q)
  {
    quadrantAvg := seq(NQ, _ => 0.0);
    for q := 0 to NQ
      invariant |quadrantAvg| == NQ
      invariant forall k :: 0 <= k < q ==> quadrantAvg[k] == OctantAverage(valsInQuad[k], mCentral, k)
    {
      var bin := valsInQuad[q];
      var avg := 0.0;
      var n := |bin|;
      for i := 0 to n
        invariant avg == Sum(bin[..i])
      {
        SumStep(bin, i);
        avg := avg + bin[i];
      }
      assert bin[..n] == bin;
      if q != 7 {
        avg := avg + mCentral;
        avg := avg / (n + 1) as real;
      } else {
        avg := avg / n as real;
      }
      quadrantAvg := quadrantAvg[q := avg];
    }
  }

  /** `get_quadrants` at voxel c: the samples are pushed into their bins in visiting order, then `construct_quadrant` averages the bins. */
  method GetQuadrants(samples: seq<Sample>, field: (int, int, int) -> real, c: GridPoint) returns (q: seq<real>)
    requires HasQuadrantSeven(samples)
    ensures q == Quadrants(samples, field(c.u, c.v, c.w))
  {
    ghost var qs, ms := SampleQuadrants(samples), SampleValues(samples);
    var valuesInEachQuadrant: seq<seq<real>> := seq(NQ, _ => []);
    var mCentral := field(c.u, c.v, c.w);
    for i := 0 to |samples|
      invariant |valuesInEachQuadrant| == NQ
      invariant forall o :: 0 <= o < NQ ==> valuesInEachQuadrant[o] == Bucket(qs[..i], ms[..i], o)
    {
      var s := samples[i];
      var bin := QuadrantOf(s);
      valuesInEachQuadrant := valuesInEachQuadrant[bin := valuesInEachQuadrant[bin] + [s.m]];
      forall o | 0 <= o < NQ
        ensures valuesInEachQuadrant[o] == Bucket(qs[..i + 1], ms[..i + 1], o)
      {
        BucketStep(qs, ms, o, i);
      }
    }
    assert qs[..|samples|] == qs && ms[..|samples|] == ms;
    QuadrantSevenNonEmpty(samples);
    q := ConstructQuadrant(valuesInEachQuadrant, mCentral);
  }

  /** Every voxel's comparison samples include one in quadrant 7 (the voxel itself, at offset zero). */
  ghost predicate CompleteSampling(g: Sampling)
  {
    forall c :: HasQuadrantSeven(g.comparison(c))
  }

  /** The descriptor of voxel c. */
  function QuadrantsAt(g: Sampling, c: GridPoint): (q: seq<real>)
    requires CompleteSampling(g)
    ensures |q| == NQ
  {
    Quadrants(g.comparison(c), g.field(c.u, c.v, c.w))
  }

  /** The kernel of one comparison: exp(-compare_quadrants(refr, comp) / h2). */
  function KernelOf(refrQ: seq<real>, compQ: seq<real>, h2: real, exp: real -> real): real
    requires |refrQ| == NQ && |compQ| == NQ && h2 != 0.0
  {
    exp(-Compare(refrQ, compQ) / h2)
  }

  /** Every kernel is positive; with h2 > 0 it is at most 1, and a descriptor compared with itself gives kernel 1. */
  lemma KernelOfFacts(refrQ: seq<real>, compQ: seq<real>, h2: real, exp: real -> real)
    requires |refrQ| == NQ && |compQ| == NQ && h2 != 0.0 && ExpFacts(exp)
    ensures 0.0 < KernelOf(refrQ, compQ, h2, exp)
    ensures 0.0 < h2 ==> KernelOf(refrQ, compQ, h2, exp) <= 1.0
    ensures refrQ == compQ ==> KernelOf(refrQ, compQ, h2, exp) == 1.0
  {
    CompareBounds(refrQ, compQ);
    QuotientSign(-Compare(refrQ, compQ), h2);
    if refrQ == compQ {
      CompareSelf(refrQ);
    }
  }

  /** The kernel of every hit against the reference descriptor refrQ. */
  function HitKernels(g: Sampling, refrQ: seq<real>, hits: seq<Hit>, h2: real, exp: real -> real): (ks: seq<real>)
    requires CompleteSampling(g) && |refrQ| == NQ && h2 != 0.0
    ensures |ks| == |hits|
    ensures forall i :: 0 <= i < |hits| ==> ks[i] == KernelOf(refrQ, QuadrantsAt(g, hits[i].c), h2, exp)
  {
    seq(|hits|, i requires 0 <= i < |hits| => KernelOf(refrQ, QuadrantsAt(g, hits[i].c), h2, exp))
  }

  /** The value of every hit. */
  function HitValues(hits: seq<Hit>): (ms: seq<real>)
    ensures |ms| == |hits|
    ensures forall i :: 0 <= i < |hits| ==> ms[i] == hits[i].m
  {
    seq(|hits|, i requires 0 <= i < |hits| => hits[i].m)
  }

  /** The weight of the central voxel: the largest kernel, starting from max_kernel = -1. */
  function CentralKernel(ks: seq<real>): real
  {
    FoldMax(-1.0, ks)
  }

  /** With positive kernels the central weight is -1 when there are none, and otherwise the largest kernel: one of them and at least every one. */
  lemma CentralKernelFacts(ks: seq<real>)
    requires forall i :: 0 <= i < |ks| ==> 0.0 < ks[i]
    ensures ks == [] ==> CentralKernel(ks) == -1.0
    ensures ks != [] ==> 0.0 < CentralKernel(ks) && CentralKernel(ks) in ks
    ensures forall i :: 0 <= i < |ks| ==> ks[i] <= CentralKernel(ks)
  {
    FoldMaxIsMaximum(-1.0, ks);
  }

  /** The normaliser: the kernels plus the central weight. With positive kernels it is -1 when there are none and positive otherwise, so never zero. */
  lemma NormaliserFacts(ks: seq<real>)
    requires forall i :: 0 <= i < |ks| ==> 0.0 < ks[i]
    ensures ks == [] ==> Sum(ks) + CentralKernel(ks) == -1.0
    ensures ks != [] ==> Sum(ks) + CentralKernel(ks) > 0.0
  {
    CentralKernelFacts(ks);
    SumNonNegative(ks);
  }

  /** The new value of a voxel whose own value is m0: (sum of k_i m_i + kmax m0) / (sum of k_i + kmax). */
  function CentralWeighted(ks: seq<real>, ms: seq<real>, m0: real): real
    requires |ks| == |ms| && Sum(ks) + CentralKernel(ks) != 0.0
  {
    Quotient(Dot(ks, ms) + Prod(CentralKernel(ks), m0), Sum(ks) + CentralKernel(ks))
  }

  /** The two running sums that `nlmeans_denoise` keeps, divided, give CentralWeighted. */
  lemma CentralWeightedOfSums(ks: seq<real>, ms: seq<real>, m0: real, mHat: real, sumKernels: real)
    requires |ks| == |ms| && sumKernels == Sum(ks) + CentralKernel(ks) && sumKernels != 0.0
    requires mHat == Dot(ks, ms) + Prod(CentralKernel(ks), m0)
    ensures Quotient(mHat, sumKernels) == CentralWeighted(ks, ms, m0)
  {
  }

  /** The central value is one more weighted term: the weighted mean of ms + [m0] under ks + [kmax]. */
  lemma CentralWeightedIsWeightedMean(ks: seq<real>, ms: seq<real>, m0: real)
    requires |ks| == |ms| && Sum(ks) + CentralKernel(ks) != 0.0
    ensures Sum(ks + [CentralKernel(ks)]) == Sum(ks) + CentralKernel(ks)
    ensures CentralWeighted(ks, ms, m0) == Dot(ks + [CentralKernel(ks)], ms + [m0]) / Sum(ks + [CentralKernel(ks)])
  {
    var k := CentralKernel(ks);
    var ks', ms' := ks + [k], ms + [m0];
    SumAppend(ks, k);
    assert Dot(ks', ms') == Dot(ks, ms) + Prod(k, m0) by {
      assert ks'[..|ks|] == ks && ms'[..|ms|] == ms;
      assert ks'[|ks|] == k && ms'[|ms|] == m0;
    }
    assert CentralWeighted(ks, ms, m0) == Quotient(Dot(ks', ms'), Sum(ks'));
  }

  /** With no hits, max_kernel stays -1 and the voxel keeps its value: (-m0) / (-1) = m0. */
  lemma CentralWeightedNoHits(m0: real)
    ensures CentralWeighted([], [], m0) == m0
  {
    assert CentralKernel([]) == -1.0;
    assert Prod(-1.0, m0) == -m0;
  }

  /** With positive kernels and at least one hit, the new value lies between any bounds of the hit values and m0; when they all equal c, it is c. */
  lemma CentralWeightedBounds(ks: seq<real>, ms: seq<real>, m0: real, lo: real, hi: real)
    requires |ks| == |ms| && ks != []
    requires forall i :: 0 <= i < |ks| ==> 0.0 < ks[i]
    requires forall i :: 0 <= i < |ms| ==> lo <= ms[i] <= hi
    requires lo <= m0 <= hi
    ensures Sum(ks) + CentralKernel(ks) > 0.0
    ensures lo <= CentralWeighted(ks, ms, m0) <= hi
  {
    NormaliserFacts(ks);
    CentralKernelFacts(ks);
    CentralWeightedIsWeightedMean(ks, ms, m0);
    var ks', ms' := ks + [CentralKernel(ks)], ms + [m0];
    assert forall i :: 0 <= i < |ks'| ==> 0.0 <= ks'[i] by {
      assert forall i :: 0 <= i < |ks| ==> ks'[i] == ks[i];
    }
    assert forall i :: 0 <= i < |ms'| ==> lo <= ms'[i] <= hi by {
      assert forall i :: 0 <= i < |ms| ==> ms'[i] == ms[i];
    }
    WeightedMeanBounds(ks', ms', lo, hi);
  }

  /** Under ExpFacts every hit's kernel is positive. */
  lemma HitKernelsPositive(g: Sampling, refrQ: seq<real>, hits: seq<Hit>, h2: real, exp: real -> real)
    requires CompleteSampling(g) && |refrQ| == NQ && h2 != 0.0 && ExpFacts(exp)
    ensures forall i :: 0 <= i < |hits| ==> 0.0 < HitKernels(g, refrQ, hits, h2, exp)[i]
  {
    forall i | 0 <= i < |hits|
      ensures 0.0 < HitKernels(g, refrQ, hits, h2, exp)[i]
    {
      KernelOfFacts(refrQ, QuadrantsAt(g, hits[i].c), h2, exp);
    }
  }

  /** The new value of voxel p: its hits weighed by their kernels against p's descriptor, p itself by the largest kernel. */
  function DenoisedVoxel(g: Sampling, h2: real, exp: real -> real, p: GridPoint): real
    requires CompleteSampling(g) && h2 != 0.0 && ExpFacts(exp)
  {
    var refrQ := QuadrantsAt(g, p);
    HitKernelsPositive(g, refrQ, g.search(p), h2, exp);
    NormaliserFacts(HitKernels(g, refrQ, g.search(p), h2, exp));
    CentralWeighted(HitKernels(g, refrQ, g.search(p), h2, exp), HitValues(g.search(p)), g.field(p.u, p.v, p.w))
  }

  /**
   * With no hits the voxel keeps its value; otherwise the new value lies
   * between any bounds of the hit values and the voxel's own value.
   */
  lemma DenoisedVoxelFacts(g: Sampling, h2: real, exp: real -> real, p: GridPoint, lo: real, hi: real)
    requires CompleteSampling(g) && h2 != 0.0 && ExpFacts(exp)
    ensures g.search(p) == [] ==> DenoisedVoxel(g, h2, exp, p) == g.field(p.u, p.v, p.w)
    ensures (forall i :: 0 <= i < |g.search(p)| ==> lo <= g.search(p)[i].m <= hi) && lo <= g.field(p.u, p.v, p.w) <= hi ==>
      lo <= DenoisedVoxel(g, h2, exp, p) <= hi
  {
    var refrQ, hits, m0 := QuadrantsAt(g, p), g.search(p), g.field(p.u, p.v, p.w);
    var ks, ms := HitKernels(g, refrQ, hits, h2, exp), HitValues(hits);
    HitKernelsPositive(g, refrQ, hits, h2, exp);
    if hits == [] {
      assert ks == [] && ms == [];
      CentralWeightedNoHits(m0);
    } else if (forall i :: 0 <= i < |hits| ==> lo <= hits[i].m <= hi) && lo <= m0 <= hi {
      CentralWeightedBounds(ks, ms, m0, lo, hi);
    }
  }

  /** The kernel of one hit: the descriptor of the grid point nearest to it, compared with the reference. */
  method HitKernel(g: Sampling, refrQ: seq<real>, hit: Hit, h2: real, exp: real -> real) returns (kernel: real)
    requires CompleteSampling(g) && |refrQ| == NQ && h2 != 0.0
    ensures kernel == KernelOf(refrQ, QuadrantsAt(g, hit.c), h2, exp)
  {
    var compQ := GetQuadrants(g.comparison(hit.c), g.field, hit.c);
    var minDSq := CompareQuadrants(refrQ, compQ);
    kernel := exp(-minDSq / h2);
  }

  /**
   * The callback of the search-radius neighbour search, run over the hits:
   * each hit's kernel goes into the running maximum, the weighted sum and
   * the normaliser.
   */
  method AccumulateHits(g: Sampling, refrQ: seq<real>, hits: seq<Hit>, h2: real, exp: real -> real)
    returns (mHat: real, maxKernel: real, sumKernels: real)
    requires CompleteSampling(g) && |refrQ| == NQ && h2 != 0.0
    ensures mHat == Dot(HitKernels(g, refrQ, hits, h2, exp), HitValues(hits))
    ensures maxKernel == CentralKernel(HitKernels(g, refrQ, hits, h2, exp))
    ensures sumKernels == Sum(HitKernels(g, refrQ, hits, h2, exp))
  {
    ghost var ks, ms := HitKernels(g, refrQ, hits, h2, exp), HitValues(hits);
    mHat, maxKernel, sumKernels := 0.0, -1.0, 0.0;
    for i := 0 to |hits|
      invariant mHat == Dot(ks[..i], ms[..i])
      invariant maxKernel == FoldMax(-1.0, ks[..i])
      invariant sumKernels == Sum(ks[..i])
    {
      var hit := hits[i];
      var kernel := HitKernel(g, refrQ, hit, h2, exp);
      DotStep(ks, ms, i);
      FoldMaxStep(-1.0, ks, i);
      SumStep(ks, i);
      maxKernel := Max(maxKernel, kernel);
      mHat := mHat + Prod(kernel, hit.m);
      sumKernels := sumKernels + kernel;
    }
    assert ks[..|hits|] == ks && ms[..|hits|] == ms;
  }

  /** The body of the voxel loop for reference voxel p: the descriptor, the accumulated hits, then the central voxel weighed by the largest kernel. */
  method DenoiseVoxel(g: Sampling, h2: real, exp: real -> real, p: GridPoint) returns (value: real)
    requires CompleteSampling(g) && h2 != 0.0 && ExpFacts(exp)
    ensures value == DenoisedVoxel(g, h2, exp, p)
  {
    var refrQ := GetQuadrants(g.comparison(p), g.field, p);
    assert refrQ == QuadrantsAt(g, p);
    var mHat, maxKernel, sumKernels := AccumulateHits(g, refrQ, g.search(p), h2, exp);
    ghost var ks, ms := HitKernels(g, refrQ, g.search(p), h2, exp), HitValues(g.search(p));
    HitKernelsPositive(g, refrQ, g.search(p), h2, exp);
    NormaliserFacts(ks);
    var mCentral := g.field(p.u, p.v, p.w);
    mHat := mHat + Prod(maxKernel, mCentral);
    sumKernels := sumKernels + maxKernel;
    value := Quotient(mHat, sumKernels);
    CentralWeightedOfSums(ks, ms, mCentral, mHat, sumKernels);
    DenoisedVoxelUnfolded(g, h2, exp, p);
  }

  /** DenoisedVoxel spelled out on the descriptor of p, the kernels of its hits and its own value. */
  lemma DenoisedVoxelUnfolded(g: Sampling, h2: real, exp: real -> real, p: GridPoint)
    requires CompleteSampling(g) && h2 != 0.0 && ExpFacts(exp)
    ensures var ks := HitKernels(g, QuadrantsAt(g, p), g.search(p), h2, exp);
      Sum(ks) + CentralKernel(ks) != 0.0 &&
      DenoisedVoxel(g, h2, exp, p) == CentralWeighted(ks, HitValues(g.search(p)), g.field(p.u, p.v, p.w))
  {
    HitKernelsPositive(g, QuadrantsAt(g, p), g.search(p), h2, exp);
    NormaliserFacts(HitKernels(g, QuadrantsAt(g, p), g.search(p), h2, exp));
  }

  /** Entry i of the denoised data: the denoised value of the voxel stored at i when i is inside the grid, the copied input otherwise. */
  function DenoisedEntry(g: Sampling, h2: real, exp: real -> real, nu: int, nv: int, volume: int, data: seq<real>, i: int): real
    requires CompleteSampling(g) && h2 != 0.0 && ExpFacts(exp) && 0 <= i < |data|
  {
    if i < volume && nu > 0 && nv > 0 then DenoisedVoxel(g, h2, exp, VoxelAt(nu, nv, i)) else data[i]
  }

  /** The first n entries of out are denoised and the others still hold the input. */
  ghost predicate DenoisedUpTo(g: Sampling, h2: real, exp: real -> real, nu: int, nv: int, out: seq<real>, data: seq<real>, n: int)
    requires CompleteSampling(g) && h2 != 0.0 && ExpFacts(exp)
  {
    |out| == |data| &&
    forall i :: 0 <= i < |data| ==> out[i] == DenoisedEntry(g, h2, exp, nu, nv, n, data, i)
  }

  /** One pass of the innermost loop: voxel p, the next in storage order, gets its denoised value. */
  method StoreVoxel(denoised: Map, g: Sampling, h2: real, exp: real -> real, data: seq<real>, p: GridPoint)
    modifies denoised
    requires CompleteSampling(g) && h2 != 0.0 && ExpFacts(exp)
    requires 0 <= p.u < denoised.nu && 0 <= p.v < denoised.nv && 0 <= p.w < denoised.nw && denoised.Volume() <= |data|
    requires DenoisedUpTo(g, h2, exp, denoised.nu, denoised.nv, denoised.data, data, FlatIndex(denoised.nu, denoised.nv, p))
    ensures denoised.nu == old(denoised.nu) && denoised.nv == old(denoised.nv) && denoised.nw == old(denoised.nw)
    ensures DenoisedUpTo(g, h2, exp, denoised.nu, denoised.nv, denoised.data, data, FlatIndex(denoised.nu, denoised.nv, p) + 1)
  {
    var value := DenoiseVoxel(g, h2, exp, p);
    ghost var e := FlatIndex(denoised.nu, denoised.nv, p);
    VoxelAtFlatIndex(denoised.nu, denoised.nv, p);
    denoised.SetValueAt(p.u, p.v, p.w, value);
  }

  /**
   * `Map::nlmeans_denoise`: a copy of the map whose every voxel, visited in
   * storage order, gets its denoised value. The input map is only read; the
   * data entries past the volume keep the copied values.
   */
  method NlmeansDenoise(m: Map, h2: real, g: Sampling, exp: real -> real) returns (denoised: Map)
    requires CompleteSampling(g) && h2 != 0.0 && ExpFacts(exp)
    requires m.Volume() <= |m.data|
    ensures fresh(denoised)
    ensures denoised.nu == m.nu && denoised.nv == m.nv && denoised.nw == m.nw && |denoised.data| == |m.data|
    ensures forall i :: 0 <= i < |m.data| ==> denoised.data[i] == DenoisedEntry(g, h2, exp, m.nu, m.nv, m.Volume(), m.data, i)
  {
    denoised := new Map(m.nu, m.nv, m.nw, m.data);
    var nu, nv, nw := m.nu, m.nv, m.nw;
    if nu == 0 || nv == 0 || nw == 0 {
      ZeroFactor(nu, nv);
      ZeroFactor(nu * nv, nw);
      return;
    }
    ghost var voxel := 0;
    var wr := 0;
    while wr < nw
      invariant denoised.nu == nu && denoised.nv == nv && denoised.nw == nw
      invariant 0 <= wr <= nw
      invariant voxel == FlatIndex(nu, nv, GridPoint(0, 0, wr))
      invariant DenoisedUpTo(g, h2, exp, nu, nv, denoised.data, m.data, voxel)
    {
      var vr := 0;
      while vr < nv
        invariant denoised.nu == nu && denoised.nv == nv && denoised.nw == nw
        invariant 0 <= vr <= nv
        invariant voxel == FlatIndex(nu, nv, GridPoint(0, vr, wr))
        invariant DenoisedUpTo(g, h2, exp, nu, nv, denoised.data, m.data, voxel)
      {
        var ur := 0;
        while ur < nu
          invariant denoised.nu == nu && denoised.nv == nv && denoised.nw == nw
          invariant 0 <= ur <= nu
          invariant voxel == FlatIndex(nu, nv, GridPoint(ur, vr, wr))
          invariant DenoisedUpTo(g, h2, exp, nu, nv, denoised.data, m.data, voxel)
        {
          StoreVoxel(denoised, g, h2, exp, m.data, GridPoint(ur, vr, wr));
          voxel := voxel + 1;
          ur := ur + 1;
        }
        FlatIndexCarry(nu, nv, vr, wr);
        vr := vr + 1;
      }
      FlatIndexCarry(nu, nv, nv, wr);
      wr := wr + 1;
    }
    LoopVolume(nu, nv, nw);
    assert voxel == m.Volume();
  }
}
