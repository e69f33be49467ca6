# nlmap core model

A Dafny model of the core of nlmap, a non-local-means denoiser for
crystallographic density maps, with proofs about it. The model covers the
following parts.

- **Octant rotations** (`src/octanct.cpp`): the 3-bit octant labels, the
  quarter-turn rotations about the w, v and u axes, and the 10 x 8 table of
  rotations.
- **Quadrant comparison** (`src/quadrant.cpp`): the same three rotations and
  `compare_quadrants`. That function returns the smallest mean squared
  difference between two eight-entry descriptors over the identity and the
  nine quarter-turn relabellings.
- **Table-driven denoiser** (`src/denoiser.cpp`). Every voxel gets an
  environment: its neighbours within a radius, averaged per octant of their
  offset. The environments are stored in one flat table, together with their
  means and sample standard deviations. A denoising pass then weighs every
  voxel against a reference voxel. The weight is a kernel on the smallest
  rotated distance between the two environments, and it is applied only to
  voxels that pass a mean and deviation filter.
- **Map denoiser** (`src/Map/denoise.cpp`): the per-voxel quadrant
  descriptor and `Map::nlmeans_denoise`. Each voxel's new value is the
  kernel-weighted mean of its neighbours. The voxel itself is added with the
  largest kernel as its weight.
- **Statistics over float arrays** (`src/stats.cpp`).
- **The Map class** (`src/Map/properties.cpp`, `globals.cpp`, `setters.cpp`):
  the grid of nu x nv x nw voxels with a flat data vector. It covers the
  maximum, minimum and average, the normalisation to [0, 1], added noise and
  the setters.
- **Path helpers** (`src/path.cpp`): `get_basename`, `join_path` and the list
  of directories `make_path` creates.
- **The command-line parser** (`include/Argparser.hpp`).
- **The log-file section parser**
  (`scripts/python/json_log/modules/parse/Parser.py`): `get_section` and
  `get_all_sections`.
- **The dotted-key JSON accessors**
  (`scripts/python/plot_bucc/modules/NestedJSON.py` and
  `scripts/python/json_log/modules/JSONdict.py`).

Floats are modelled as reals and integers as unbounded integers. The bit
operations on octant labels use an 8-bit `Byte`, and C++ `n % 4` is modelled
with its sign-of-the-dividend rule (`Octant.CppRem4`). Code that changes state
is imperative Dafny:

- `Map` and `Argparser` are classes with `modifies` and `reads` frames;
- the table of rotations and the environment table are filled in place in an
  `array`;
- the kernel buffer of the denoiser is an `array` that `compute_kernels`
  overwrites and `memset` clears;
- loops are `while` loops proved against specification functions.

Pure code is modelled as functions and lemmas.

The model follows the code as written in three places that read like slips.
This model does not judge whether they are bugs; it states and proves what
they do.

- **The /8 in `compute_kernels`.** The running "minimum" at
  `src/denoiser.cpp:258` stores `dist_sq / 8` when it finds a smaller distance,
  so the result is not the minimum (`Denoiser.RunningMinIsNotMinimum`).
- **The early stop in `nlmeans_denoiser`.** The main loop stops after
  reference voxel 1000 (`src/denoiser.cpp:332`), so only the first
  `Passes(ne)` voxels are denoised.
- **Unclosed sections in `get_all_sections`.** When a begin mark from the
  current position on is followed by a kept line (neither a bare line break
  nor an end mark), and no begin mark from there on has an end mark after
  it, `get_section` collects lines and hands back the position it was
  given, so `get_all_sections` loops forever. The model returns `Endless`
  with the sections found so far and the repeated section
  (`Parser.UnclosedSectionLoops`, `Parser.UnclosedSectionRepeats`). An
  unclosed begin mark with nothing kept after it yields `(-1, -1)` and the
  loop ends.

The modules are:

- `Wrappers`: Option and Result;
- `Reals`: sums, weighted sums and running minima and maxima;
- `Stats`, `Octant`, `Quadrant`, `MapGrid`, `Denoiser`, `MapDenoise`, `Path`,
  `Argparser`, `Parser` and `Json`, one per part above.

## Model

| member | source | states |
|---|---|---|
| Octant.CppRem4 | src/octanct.cpp:10 | C++ `n % 4` lies strictly between -4 and 4; it is the mathematical remainder for non-negative n, and minus the remainder of -n for negative n, so non-positive for non-positive n |
| Octant.OctantOfSigns | src/denoiser.cpp:75-80 | the octant label is in 0..7 and its bits 2, 1 and 0 are set exactly when the w, v and u components are non-negative |
| Octant.OctantOfSignsIsSum | src/denoiser.cpp:75-80 | the bitwise or of the three sign bits equals the sum 4 [w >= 0] + 2 [v >= 0] + [u >= 0] |
| Octant.RotateW | src/octanct.cpp:4-34 | every rotation about w yields an octant and keeps the w bit |
| Octant.RotateV | src/octanct.cpp:37-65 | every rotation about v yields an octant and keeps the v bit |
| Octant.RotateU | src/octanct.cpp:68-93 | every rotation about u yields an octant and keeps the u bit |
| Octant.IdentityTurns | src/octanct.cpp:27-30 | turn counts whose C++ remainder is not 1, 2 or 3 (including negative counts) return the three low bits of the input unchanged |
| Octant.TurnsModuloFour | src/octanct.cpp:10 | for positive counts only n mod 4 matters, and only the three low bits of the input |
| Octant.QuarterTurnsCompose | src/octanct.cpp:18-26 | the half-turn and three-quarter-turn formulas are the quarter turn applied twice and three times, and four quarter turns are the identity, about each axis |
| Octant.QuarterTurnsInvert | src/octanct.cpp:4-93 | one and three quarter turns undo each other and a half turn undoes itself, about each axis |
| Octant.OppositeTurnsInvert | src/octanct.cpp:4-93 | n and 4 - n quarter turns about the same axis undo each other, for n from 1 to 3 |
| Octant.RotationsAreBijections | src/octanct.cpp:4-93 | for 1 to 3 quarter turns, each rotation is one-to-one and onto the eight octants |
| Octant.RowInverseAt | src/octanct.cpp:102-113 | every row of the rotation table has an inverse row in the table that undoes it on every octant, from both sides |
| Octant.RowIsPermutation | src/octanct.cpp:102-113 | every row of the table is a permutation of the octants, and taking the inverse row twice gives the row back |
| Octant.RowsOfTurn | src/octanct.cpp:108-112 | rows n, n + 3 and n + 6 of the table hold the w, v and u rotations by n quarter turns |
| Octant.FillColumn | src/octanct.cpp:104-112 | one pass of the outer loop writes the correct rotation into every row of column o and leaves every other column as it was |
| Octant.TableOfRotations | src/octanct.cpp:96-116 | a fresh 80-entry row-major table whose cell (r, o) is rotation r applied to octant o: the identity, then w, v and u by 1 to 3 turns |
| Quadrant.RotateW | src/quadrant.cpp:4-29 | every rotation about w yields an octant and keeps the w bit |
| Quadrant.RotateV | src/quadrant.cpp:32-57 | every rotation about v yields an octant and keeps the v bit |
| Quadrant.RotateU | src/quadrant.cpp:60-85 | every rotation about u yields an octant and keeps the u bit |
| Quadrant.SameWAndURotations | src/quadrant.cpp:4-85 | the w and u rotations agree with those of `Octanct` for every input and every turn count |
| Quadrant.MirroredVRotations | src/quadrant.cpp:43-51 | the one- and three-turn v rotations are swapped with respect to `Octanct::rotate_v`, so both files produce the same set of three v rotations |
| Quadrant.CompareTurn | src/quadrant.cpp:88-160 | `compare_unrot` and `compare_rot_w/v/u` return the mean over the eight quadrants of the squared difference between refr[q] and the comp entry the turn lines up with q |
| Quadrant.TurnsOfPass | src/quadrant.cpp:174-184 | pass rot of the loop tries the turns about w, v and u by rot quarter turns, in that order |
| Quadrant.CompareQuadrants | src/quadrant.cpp:165-187 | the loop's result is the running minimum, from FLT_MAX, of the ten candidate distances |
| Quadrant.DistanceNonNegative | src/quadrant.cpp:88-160 | every candidate distance is non-negative |
| Quadrant.DistanceSelf | src/quadrant.cpp:88-103 | a descriptor compared with itself unrotated is at distance zero |
| Quadrant.CompareBounds | src/quadrant.cpp:165-187 | the result lies in [0, FLT_MAX]; when the unrotated distance is at most FLT_MAX, the result is at most that distance and is one of the ten candidates |
| Quadrant.CompareSelf | src/quadrant.cpp:165-187 | a descriptor compared with itself is at distance zero |
| Quadrant.DistanceWrittenOut | src/quadrant.cpp:112-121 | eight times a candidate distance is the sum of the eight squared differences, written out term by term |
| Quadrant.SwappedDistanceWrittenOut | src/quadrant.cpp:112-121 | the same sum for the swapped pair, with each squared difference written reference first |
| Quadrant.SwappedQuarterW | src/quadrant.cpp:105-122 | swapping the descriptors turns the quarter turn about w into the three-quarter turn about w |
| Quadrant.SwappedHalfW | src/quadrant.cpp:105-122 | swapping the descriptors keeps the distance under the half turn about w |
| Quadrant.SwappedQuarterV | src/quadrant.cpp:124-141 | swapping the descriptors turns the quarter turn about v into the three-quarter turn about v |
| Quadrant.SwappedHalfV | src/quadrant.cpp:124-141 | swapping the descriptors keeps the distance under the half turn about v |
| Quadrant.SwappedQuarterU | src/quadrant.cpp:143-160 | swapping the descriptors turns the quarter turn about u into the three-quarter turn about u |
| Quadrant.SwappedHalfU | src/quadrant.cpp:143-160 | swapping the descriptors keeps the distance under the half turn about u |
| Quadrant.SwappedDistance | src/quadrant.cpp:171-184 | swapping the descriptors turns each candidate distance into the candidate under the inverse turn |
| Quadrant.MirroredDistances | src/quadrant.cpp:171-184 | the ten candidates of the swapped pair are those of the pair, re-ordered by the inverse-turn map |
| Quadrant.CompareSymmetric | src/quadrant.cpp:165-187 | `compare_quadrants(a, b) == compare_quadrants(b, a)`, because the set of turns tried is closed under inverses |
| Denoiser.OctantOfOffset | src/denoiser.cpp:75-77 | the octant of a neighbour offset is in 0..7 |
| Denoiser.OctantOfOffsetIsSum | src/denoiser.cpp:75-77 | the octant is 4 [w >= 0] + 2 [v >= 0] + [u >= 0], and it is 7 exactly when all three components are non-negative |
| Denoiser.BinsPartition | src/denoiser.cpp:72-83 | every neighbour lands in exactly one of the eight bins: the bin sizes add up to the number of neighbours |
| Denoiser.OctantAverageBounds | src/denoiser.cpp:95-105 | when the central value and every binned value lie in [lo, hi], so does the bin's average, whether or not the central value is counted |
| Denoiser.OctantAverageConstant | src/denoiser.cpp:95-105 | a bin of copies of c, with central value c, averages to c |
| Denoiser.ZeroOffsetInOctantSeven | src/denoiser.cpp:50-55 | if the table of indices holds the zero offset of the centre, it has an offset in octant 7 |
| Denoiser.OctantSevenNonEmpty | src/denoiser.cpp:102-104 | when some offset of the table lies in octant 7, bin 7, which is divided by its own size, is non-empty at every voxel |
| Denoiser.EnvironmentBounds | src/denoiser.cpp:62-109 | with all neighbours and the centre in [lo, hi], every octant average of the environment is in [lo, hi] |
| Denoiser.EnvironmentOfConstantMap | src/denoiser.cpp:62-109 | on a map that is constantly k, every environment entry is k |
| Denoiser.AverageEnvironment | src/denoiser.cpp:90-109 | `average_environment` puts into entry o the average of bin o, counting m0 in octants 0 to 6 and not in octant 7 |
| Denoiser.ConstructEnvironment | src/denoiser.cpp:62-86 | binning the neighbours by octant in table order and averaging gives the voxel's environment |
| Denoiser.CopySlots | src/denoiser.cpp:24-31 | the copy loop writes the eight entries of environment e into slots 8e to 8e + 7 and keeps the earlier slots |
| Denoiser.StoreEnvironment | src/denoiser.cpp:21-34 | after voxel c the table is filled up to and including c's flat index |
| Denoiser.TableOfEnvs | src/denoiser.cpp:4-41 | a fresh table of 8 x volume entries, entry i being octant i mod 8 of the environment of the voxel at flat index i / 8 |
| Denoiser.RowOfEnvTable | src/denoiser.cpp:16-37 | row e of the environment table is the environment of the voxel whose flat index is e |
| Denoiser.EnvAveragesBounds | src/denoiser.cpp:146-170 | when every table entry is in [lo, hi], every environment average is in [lo, hi] |
| Denoiser.EnvAveragesOfBoundedMap | src/denoiser.cpp:311-315 | on a map with values in [lo, hi], the smallest and largest environment averages used for hd are in [lo, hi] |
| Denoiser.RowMean | src/denoiser.cpp:159-167 | the inner loop returns the mean of the eight entries of row e |
| Denoiser.TableOfEnvAvg | src/denoiser.cpp:146-170 | `table_of_envavg(map, envs)` returns the mean of each row of the table, one per voxel |
| Denoiser.TableOfEnvAvgOfMap | src/denoiser.cpp:113-144 | `table_of_envavg(map, R_max)` returns, for each voxel, the mean of its environment |
| Denoiser.RowStd | src/denoiser.cpp:190-198 | the inner loop returns the square root of the sample variance of row e, dividing by No - 1 = 7 |
| Denoiser.TableOfEnvStd | src/denoiser.cpp:174-202 | `table_of_envstd` returns the sample standard deviation of each row of the table |
| Denoiser.RotatedOctant | src/denoiser.cpp:247 | the octant read from the rotation table is below No, so the lookup stays inside the reference row |
| Denoiser.RotationTableIdentityRow | src/octanct.cpp:105 | row 0 of the table is the identity on the octants |
| Denoiser.RunningMinFacts | src/denoiser.cpp:258 | the as-written running "minimum" never rises above a non-negative start; it is the start or one of the distances divided by 8; it stays non-negative on non-negative distances |
| Denoiser.RunningMinIsNotMinimum | src/denoiser.cpp:258 | on the distances 8 and 2 from 1000000, the as-written update yields 1, while the true minimum is 2 |
| Denoiser.RunningMinFromZero | src/denoiser.cpp:232-259 | when one distance is zero, the as-written minimum ends at zero |
| Denoiser.RotatedDistanceNonNegative | src/denoiser.cpp:238-255 | the mean squared difference under a rotation is non-negative |
| Denoiser.SelfDistanceZero | src/denoiser.cpp:235-255 | an environment compared with itself under the identity row is at distance zero |
| Denoiser.MinDistanceFacts | src/denoiser.cpp:232-259 | the value fed to the kernel lies in [0, 1000000], and it is 0 for the reference voxel against itself |
| Denoiser.FilterFacts | src/denoiser.cpp:229 | the reference voxel passes the filter against itself exactly when hd is positive, and any voxel that passes forces hd positive |
| Denoiser.TwoSigmaSq | src/denoiser.cpp:215 | with hd non-zero, 2 hd^2 is positive |
| Denoiser.KernelFacts | src/denoiser.cpp:262 | every kernel is in (0, 1], and the reference voxel's kernel against itself is 1 |
| Denoiser.KernelRowFacts | src/denoiser.cpp:222-264 | after `compute_kernels` on a non-negative buffer, every entry is non-negative, entry er is 1, and the entries sum to at least 1 |
| Denoiser.RotatedDistanceOf | src/denoiser.cpp:238-255 | the octant loop returns the mean squared difference under rotation r |
| Denoiser.MinDistanceOf | src/denoiser.cpp:232-259 | the rotation loop returns the as-written running minimum of the ten rotated distances, from 1000000 |
| Denoiser.FilteredKernel | src/denoiser.cpp:225-263 | the filter decision of voxel e, and its kernel when it passes |
| Denoiser.ComputeKernels | src/denoiser.cpp:206-265 | the buffer afterwards holds the kernel of every voxel that passes the filter; entries of voxels that fail keep their old contents |
| Denoiser.ComputeUhat | src/denoiser.cpp:269-280 | the loop returns the kernel-weighted sum of the map values over the sum of the kernels |
| Denoiser.UhatFacts | src/denoiser.cpp:269-280 | with non-negative kernels of positive sum, the result lies between any bounds of the map values, and equals the value on a constant map |
| Denoiser.Passes | src/denoiser.cpp:321-332 | the number of voxels the main loop denoises is at most 1001 and at most ne, and it is ne whenever ne <= 1001 |
| Denoiser.DenoisedValueInRange | src/denoiser.cpp:321-327 | with hd > 0 and a non-negative buffer, the kernels sum to at least 1; each denoised value lies between the smallest and largest map value; on a constant map it is that constant |
| Denoiser.DenoisePass | src/denoiser.cpp:324-330 | one iteration writes the denoised value of voxel er, leaves every other entry and the grid size alone, and zeroes the buffer |
| Denoiser.DenoiserTables | src/denoiser.cpp:293-305 | the environment table, its averages and deviations, and the rotation table, whose row 0 is the identity |
| Denoiser.DenoiseLoop | src/denoiser.cpp:318-333 | the first Passes(ne) entries hold their denoised values, computed from the initial buffer on the first pass and from zeros after that; the other entries keep the map's values |
| Denoiser.NlmeansDenoiser | src/denoiser.cpp:284-342 | a fresh map of the same size, hd = p_thresh (max - min) of the environment averages, and those averages; the first Passes(volume) entries are denoised and the rest copied |
| MapDenoise.QuadrantOf | src/Map/denoise.cpp:54-56 | the quadrant of a sample is in 0..7 |
| MapDenoise.QuadrantOfIsSum | src/Map/denoise.cpp:54-59 | the quadrant is 4 [dz >= 0] + 2 [dy >= 0] + [dx >= 0], and it is 7 exactly when all three offsets are non-negative, the centre included |
| MapDenoise.QuadrantSevenNonEmpty | src/Map/denoise.cpp:26 | with a sample in quadrant 7, the bin divided by its own size is not empty |
| MapDenoise.SamplesPartition | src/Map/denoise.cpp:50-61 | every sample lands in exactly one of the eight bins |
| MapDenoise.QuadrantsBounds | src/Map/denoise.cpp:4-34 | with every sample and the central value in [lo, hi], every quadrant average is in [lo, hi] |
| MapDenoise.ConstructQuadrant | src/Map/denoise.cpp:4-34 | entry q is the sum of bin q over its size, with the central value counted in quadrants 0 to 6 and not in quadrant 7 |
| MapDenoise.GetQuadrants | src/Map/denoise.cpp:37-64 | pushing the samples into their bins in visiting order and averaging gives the voxel's descriptor |
| MapDenoise.KernelOfFacts | src/Map/denoise.cpp:111-116 | every kernel is positive; with h2 > 0 it is at most 1; a descriptor compared with itself gives 1 |
| MapDenoise.HitKernels | src/Map/denoise.cpp:98-116 | the kernel of each hit is that of the descriptor of its nearest grid point against the reference descriptor |
| MapDenoise.CentralKernelFacts | src/Map/denoise.cpp:91-119 | with positive kernels, max_kernel stays -1 when there are no hits, and otherwise it is one of the kernels and at least every one |
| MapDenoise.NormaliserFacts | src/Map/denoise.cpp:125-133 | with positive kernels the normaliser is -1 without hits and positive with hits, so it is never zero |
| MapDenoise.CentralWeightedOfSums | src/Map/denoise.cpp:122-136 | the two running sums, after the central voxel is added, divide to the central-weighted value |
| MapDenoise.CentralWeightedIsWeightedMean | src/Map/denoise.cpp:130-136 | the new value is the weighted mean of the hit values and the voxel's own value, the latter weighted by the largest kernel |
| MapDenoise.CentralWeightedNoHits | src/Map/denoise.cpp:91-136 | with no hits the voxel keeps its value: (-m0) / (-1) = m0 |
| MapDenoise.CentralWeightedBounds | src/Map/denoise.cpp:122-136 | with positive kernels and at least one hit, the normaliser is positive and the new value lies between any bounds of the hit values and the voxel's own value |
| MapDenoise.HitKernelsPositive | src/Map/denoise.cpp:116 | every hit's kernel is positive |
| MapDenoise.DenoisedVoxelFacts | src/Map/denoise.cpp:79-136 | a voxel without hits keeps its value; otherwise its new value lies between any bounds of the hit values and its own value |
| MapDenoise.HitKernel | src/Map/denoise.cpp:97-116 | the kernel of one hit, from the descriptor of the grid point nearest to it |
| MapDenoise.AccumulateHits | src/Map/denoise.cpp:88-127 | the callback leaves the weighted sum of the hits in m_hat, their largest kernel from -1 in max_kernel and their kernel sum in sum_kernels |
| MapDenoise.DenoiseVoxel | src/Map/denoise.cpp:79-136 | the loop body computes the voxel's denoised value |
| MapDenoise.DenoisedVoxelUnfolded | src/Map/denoise.cpp:79-136 | the denoised value is the central-weighted mean of its hits' kernels and values with its own value, and the normaliser is non-zero |
| MapDenoise.StoreVoxel | src/Map/denoise.cpp:136 | storing voxel p extends the denoised prefix, in storage order, by one voxel |
| MapDenoise.NlmeansDenoise | src/Map/denoise.cpp:67-143 | a fresh map of the same size in which every voxel holds its denoised value and every entry past the volume is the copied value |
| Stats.InsertPermutation | src/stats.cpp:39 | inserting x adds exactly x to the multiset of elements |
| Stats.InsertSorted | src/stats.cpp:39 | inserting into a sorted sequence keeps it sorted |
| Stats.SortedCopy | src/stats.cpp:34-39 | the sorted copy is sorted and a permutation of the input |
| Stats.Mean | src/stats.cpp:4-13 | the loop returns the sum of the first size entries over size |
| Stats.Std | src/stats.cpp:16-28 | the result is sqrt of the sum of squared deviations from the mean over size - 1 |
| Stats.Median | src/stats.cpp:31-45 | the middle element of the sorted copy for odd sizes; the mean of the two middle elements for even sizes |
| Stats.Max | src/stats.cpp:48-57 | for size > 0 the result is one of the first size entries and no entry exceeds it; for size <= 1 it is the first entry |
| Stats.Min | src/stats.cpp:60-69 | for size > 0 the result is one of the first size entries and no entry is below it; for size <= 1 it is the first entry |
| Stats.MeanBetweenMinAndMax | src/stats.cpp:4-13 | the mean lies between the minimum and the maximum |
| Stats.MeanOfConstant | src/stats.cpp:4-13 | the mean of copies of c is c |
| Stats.SampleVarianceFacts | src/stats.cpp:24-27 | the sample variance is non-negative, and zero when all elements are equal |
| Stats.SortedCopyBetweenMinAndMax | src/stats.cpp:39 | every element of the sorted copy lies between the input's minimum and maximum |
| Stats.MedianBetweenMinAndMax | src/stats.cpp:41-44 | the median lies between the input's minimum and maximum, for odd and even sizes |
| MapGrid.VoxelAt | src/Map/properties.cpp:4-7 | the voxel at a flat index has u and v inside the grid |
| MapGrid.Map.MaxValue | src/Map/properties.cpp:20-25 | `max_value` is an entry of the data and no entry exceeds it |
| MapGrid.Map.MinValue | src/Map/properties.cpp:27-32 | `min_value` is an entry of the data and no entry is below it |
| MapGrid.Map.AvgValue | src/Map/properties.cpp:34-44 | the loop returns the mean of the first volume entries |
| MapGrid.Map.Normalise | src/Map/globals.cpp:3-19 | each of the first volume entries becomes (x - min) / (max - min), where min and max are taken over the whole vector before the loop; the grid size and the other entries are unchanged |
| MapGrid.Map.AddNoise | src/Map/globals.cpp:23-43 | with sigma == 0 nothing changes; otherwise draw i is added to entry i of the volume, then the map is normalised if asked; sigma is returned |
| MapGrid.Map.SetValueAt | src/Map/setters.cpp:3-6 | only the entry at the voxel's flat index changes, and it becomes m |
| MapGrid.Map.SetValue | src/Map/setters.cpp:8-11 | entry e becomes m, and no other entry changes |
| MapGrid.Map.SetData | src/Map/setters.cpp:13-20 | the data become a copy of the vector, normalised if asked |
| MapGrid.Map.SetConstant | src/Map/setters.cpp:22-31 | the first volume entries become value, then the map is normalised if asked |
| MapGrid.Map.Volume | src/Map/properties.cpp:7 | the volume nu * nv * nw is zero exactly when one of the grid sizes is zero |
| MapGrid.FlatIndexInVolume | src/Map/setters.cpp:3-6 | every voxel of the grid has a flat index below the volume |
| MapGrid.VoxelAtFlatIndex | src/Map/setters.cpp:3-6 | taking the voxel of the flat index of a voxel gives that voxel back |
| MapGrid.FlatIndexVoxelAt | src/Map/setters.cpp:8-11 | taking the flat index of the voxel at an index gives that index back |
| MapGrid.AvgBetweenMinAndMax | src/Map/properties.cpp:20-44 | the average lies between `min_value` and `max_value` on a map whose data are exactly its voxels |
| MapGrid.RescaleRange | src/Map/globals.cpp:14-15 | a value in [min, max] is rescaled into [0, 1]; exactly min goes to 0 and exactly max goes to 1 |
| MapGrid.RescaleMonotone | src/Map/globals.cpp:14-15 | rescaling keeps the order of any two values, in both directions |
| MapGrid.NormalisedRange | src/Map/globals.cpp:13-17 | after `normalise` every rescaled entry lies in [0, 1] and the entries past the volume are unchanged |
| MapGrid.NormalisedEnds | src/Map/globals.cpp:3-19 | on a map whose entries are all voxels, `normalise` maps the minimum to 0 and the maximum to 1 |
| MapGrid.NormalisedMonotone | src/Map/globals.cpp:3-19 | `normalise` keeps the order of any two voxels, in both directions |
| MapGrid.NormalisedIdempotent | src/Map/globals.cpp:3-19 | normalising a normalised map changes nothing |
| MapGrid.FilledIsFlat | src/Map/setters.cpp:22-31 | filling every voxel leaves a flat vector, so `set_data(value, true)` on such a map would divide by max - min = 0 |
| Path.RFind | src/path.cpp:31 | `rfind` returns the index of the last separator, or -1 for npos when there is none |
| Path.GetBasename | src/path.cpp:26-37 | a non-empty basename is a proper suffix of the path, and it holds no '/' |
| Path.GetBasenameFacts | src/path.cpp:26-37 | the basename holds no '/'; a path with a '/' is a directory part, a '/' and the basename; without a '/' the basename is ""; a trailing '/' gives "" |
| Path.BasenameOfChild | src/path.cpp:26-37 | the basename of d + "/" + b is b for any b without '/' |
| Path.JoinPath | src/path.cpp:40-53 | the join is a without its trailing '/', one '/', and b without its leading '/' |
| Path.JoinPathLength | src/path.cpp:46-52 | the joined length is |a| + |b| + 1 with no separator at the seam, |a| + |b| - 1 with two, and |a| + |b| with one |
| Path.BasenameOfJoinPath | src/path.cpp:26-53 | the basename of a joined with a child b without '/' is b |
| Path.WordsAreWords | src/path.cpp:65-69 | every word the stream extracts is non-empty and holds no whitespace |
| Path.LeadingWord | src/path.cpp:69 | the words of a word followed by whitespace or by nothing are that word, then the words of the rest |
| Path.WordsOfUnwords | src/path.cpp:65-69 | extracting the words of words joined by spaces gives those words back |
| Path.PrefixesFacts | src/path.cpp:75-82 | every created directory ends in sep; the first is the first word and sep; each later one extends the one before by the next word and sep |
| Path.ReplaceSep | src/path.cpp:59 | every sep becomes a space and every other character stays |
| Path.Extract | src/path.cpp:69 | one `ss >> temp` fails exactly when no word is left, and otherwise reads the next word and moves past it |
| Path.SplitWords | src/path.cpp:65-69 | the loop collects every word of the string, in order |
| Path.MakePath | src/path.cpp:56-83 | the directories `make_path` creates, in creation order |
| Path.MakePathDirsRelative | src/path.cpp:56-83 | every created directory is non-empty and starts with neither sep nor whitespace |
| Path.WordsComeFrom | src/path.cpp:59-69 | no word of a path whose separators were replaced holds sep |
| Path.MakePathDropsLeadingSep | src/path.cpp:56-83 | `make_path("/a/b")` creates the same directories as `make_path("a/b")` |
| Path.ReplacedSepJoined | src/path.cpp:59 | replacing sep in segments joined by sep joins them by spaces |
| Path.ReplacedConcat | src/path.cpp:59 | replacing distributes over concatenation |
| Path.MakePathOfSegments | src/path.cpp:56-83 | on segments s0 / s1 / ... / sn that are non-empty and hold no sep and no whitespace, `make_path` creates s0/, s0/s1/, ..., s0/.../sn/ |
| Argparser.Find | include/Argparser.hpp:22 | `std::find` returns the first index holding x, or the end exactly when x is absent |
| Argparser.Argparser.constructor | include/Argparser.hpp:11-15 | the tokens are argv[1 .. argc - 1], in order |
| Argparser.Argparser.CheckFlag | include/Argparser.hpp:56-61 | true exactly when some token equals the flag |
| Argparser.Argparser.GetFlag | include/Argparser.hpp:41-53 | "" when the flag is absent or only the last token; otherwise the token after its first occurrence |
| Argparser.Argparser.GetFlagAs | include/Argparser.hpp:18-38 | T(0) when the flag is absent or only the last token; otherwise the cast of the token after its first occurrence |
| Argparser.Argparser.GetFlags | include/Argparser.hpp:64-74 | the tokens at positions 0, 2, 4, ..., in order |
| Argparser.GetFlagPresent | include/Argparser.hpp:18-61 | a non-empty string value implies that the flag is present; the string `get_flag` is the templated one with the identity cast |
| Argparser.NextTokenEvenIfFlag | include/Argparser.hpp:47-48 | the value of a flag is the next token even when that token is a flag itself; a last token and an absent flag give "" |
| Argparser.FindFirst | include/Argparser.hpp:22 | `std::find` stops at the first occurrence |
| Argparser.KeyFirstAt | include/Argparser.hpp:22 | when the flags are distinct and no value is a flag, pair k's flag does not occur before position 2k |
| Argparser.FlagsOfPairs | include/Argparser.hpp:64-74 | on `-a x -b y ...`, `get_flags` lists the flags |
| Argparser.ValueOfPairedFlag | include/Argparser.hpp:41-53 | on `-a x -b y ...` with distinct flags and values that are not flags, `get_flag` of each flag is its value |
| Parser.StripLeadingFacts | scripts/python/json_log/modules/parse/Parser.py:57 | only whitespace is dropped from the front, and the result does not start with whitespace |
| Parser.StripTrailingFacts | scripts/python/json_log/modules/parse/Parser.py:57 | only whitespace is dropped from the back, and the result does not end with whitespace |
| Parser.StripFacts | scripts/python/json_log/modules/parse/Parser.py:57 | `line.strip()` is the slice between the outer whitespace; it neither starts nor ends with whitespace; stripping twice changes nothing |
| Parser.ContainsLength | scripts/python/json_log/modules/parse/Parser.py:53 | a substring is no longer than the string that contains it |
| Parser.SectionFrom | scripts/python/json_log/modules/parse/Parser.py:55-59 | the inner loop stops, if at all, at an index from j on that holds the end mark |
| Parser.SectionFromEnds | scripts/python/json_log/modules/parse/Parser.py:55-59 | the inner loop stops at the first end-mark line from j on, and runs to the last line when there is none |
| Parser.ScanFrom | scripts/python/json_log/modules/parse/Parser.py:51-62 | the outer loop stops, if at all, at an end-mark line, after line i |
| Parser.GetSectionOf | scripts/python/json_log/modules/parse/Parser.py:44-67 | a section is never empty, and its position is pos itself or the index of an end-mark line after pos |
| Parser.ScanFromEndsIff | scripts/python/json_log/modules/parse/Parser.py:51-62 | the scan stops at an end mark exactly when some begin-mark line from i on has an end-mark line after it |
| Parser.SectionFromLines | scripts/python/json_log/modules/parse/Parser.py:55-57 | every line the inner loop collects is a kept line from j on, stripped |
| Parser.CollectedAfterBegin | scripts/python/json_log/modules/parse/Parser.py:53-55 | a begin-mark line at i precedes every collected line after it |
| Parser.CollectedWidens | scripts/python/json_log/modules/parse/Parser.py:51 | a line collected from i + 1 is collected from i |
| Parser.ScanFromLines | scripts/python/json_log/modules/parse/Parser.py:51-59 | every collected line is a line that is not a bare line break and holds no end mark, stripped, strictly after a begin-mark line at or after i |
| Parser.IgnoresLinesBefore | scripts/python/json_log/modules/parse/Parser.py:51 | the lines before pos play no part in `get_section(beg, end, pos)` |
| Parser.AllSectionsFrom | scripts/python/json_log/modules/parse/Parser.py:24-42 | every found section is non-empty, and a non-terminating run repeats a non-empty section |
| Parser.ClosedScanEnds | scripts/python/json_log/modules/parse/Parser.py:51-62 | when every begin mark is closed, a scan that collected something stopped at an end mark |
| Parser.AllSectionsTerminate | scripts/python/json_log/modules/parse/Parser.py:31-40 | when every begin mark from pos on has an end mark after it, `get_all_sections` terminates |
| Parser.BlankSectionIsNone | scripts/python/json_log/modules/parse/Parser.py:56-67 | a section whose only line is a bare line break yields `(-1, -1)` |
| Parser.TwoSectionsInOrder | scripts/python/json_log/modules/parse/Parser.py:24-42 | two closed sections are returned in file order, each line stripped |
| Parser.UnclosedSectionLoops | scripts/python/json_log/modules/parse/Parser.py:24-67 | when a begin mark from pos on is followed by a kept line and no begin mark from pos on has an end mark after it, `get_all_sections` never stops: the outcome is Endless with nothing found before |
| Parser.UnclosedSectionRepeats | scripts/python/json_log/modules/parse/Parser.py:31-40 | a begin mark followed by a kept line and no end mark hands back the same position, so `get_all_sections` never stops |
| Parser.Parser.constructor | scripts/python/json_log/modules/parse/Parser.py:13 | the content is the file's lines |
| Parser.Parser.CollectSection | scripts/python/json_log/modules/parse/Parser.py:55-59 | the inner loop collects the stripped kept lines up to the first end-mark line and reports that line |
| Parser.Parser.GetSection | scripts/python/json_log/modules/parse/Parser.py:44-67 | the two loops return the section and position given by the scan from pos |
| Parser.Parser.GetAllSections | scripts/python/json_log/modules/parse/Parser.py:24-42 | the loop returns every section found from position 0, or the repeated section when the loop would never stop |
| Json.Split | scripts/python/plot_bucc/modules/NestedJSON.py:15 | `split('.')` gives at least one piece, and no piece holds a dot |
| Json.JoinSplit | scripts/python/json_log/modules/JSONdict.py:18 | joining the pieces with dots gives the key back |
| Json.SplitNoDot | scripts/python/json_log/modules/JSONdict.py:18 | a key without a dot is its own only piece |
| Json.SplitConcat | scripts/python/json_log/modules/JSONdict.py:18 | the pieces of k1 . k2 are the pieces of k1, then those of k2 |
| Json.SplitJoin | scripts/python/plot_bucc/modules/NestedJSON.py:15 | splitting dot-free pieces joined by dots gives the pieces back |
| Json.Index | scripts/python/json_log/modules/JSONdict.py:21 | `value[key]` succeeds exactly on an object holding key and gives its entry; a missing key raises KeyError(key); any non-object raises TypeError |
| Json.GetItem | scripts/python/plot_bucc/modules/NestedJSON.py:12-22 | the loop returns the dotted-key lookup: the first piece, then each further piece in turn, raising at the first failure |
| Json.LookupNoDot | scripts/python/json_log/modules/JSONdict.py:14-26 | a key without a dot is looked up directly: `self[key] == data[key]` |
| Json.ResolveConcat | scripts/python/json_log/modules/JSONdict.py:23-24 | resolving a concatenation of pieces resolves the first pieces, then the rest from where they led |
| Json.LookupComposes | scripts/python/plot_bucc/modules/NestedJSON.py:17-20 | `self[k1 + "." + k2]` is `self[k1]` looked up at k2, and is `self[k1][k2]` when k2 has no dot |
| Json.ThreeLevels | scripts/python/json_log/modules/JSONdict.py:14-26 | `"a.b.c"` resolves to `data["a"]["b"]["c"]` |
| Json.KeyErrorIsMissingPiece | scripts/python/plot_bucc/modules/NestedJSON.py:17-20 | a KeyError names a piece of the key, and the pieces before it lead to an object without it |
| Json.MissingPieceRaises | scripts/python/json_log/modules/JSONdict.py:21-24 | reaching an object without the next piece raises KeyError of that piece |

## Left out

- Floating point: floats are reals, so rounding, overflow, NaN and infinities are not modelled. `exp` and `sqrt` are parameters. Only the facts `exp(0) = 1`, `exp > 0` and `exp <= 1` on the non-positive reals are used about `exp`. `std::pow(x, 2)` is `x * x`.
- Neighbour search: the gemmi grid's `use_points_around`, `get_nearest_point`, `get_fractional`, `get_position` and its periodic `get_value` are not part of this model.
  - In `Denoiser`, the table of indices (a sequence of offsets) and the value accessor are parameters.
  - In `MapDenoise` they are a `Sampling`: per voxel, the comparison samples with their offsets, the search hits with their nearest grid point, and the value accessor.
  - The model assumes, and does not prove, that every comparison neighbourhood holds the centre (offset zero): `HasOctantSeven` and `CompleteSampling`, because `use_points_around` is not modelled.
- Denoiser.NlmeansDenoiser: requires hd > 0 and a non-negative initial kernel buffer, and takes the initial contents of the uninitialised `new float[Ne]` buffer as the parameter garbage. With hd <= 0 no voxel passes the filter, and the source then divides by a sum of uninitialised or zero kernels.
- Denoiser.ConstructEnvironment: requires an offset in octant 7, so that octant 7 is never divided by zero. Denoiser.TableOfEnvs and Denoiser.DenoiserTables require the same.
- Denoiser.ComputeUhat: requires a non-zero kernel sum, because the float division by zero is not modelled.
- Stats.Mean and Stats.Median require size > 0, and Stats.Std requires size >= 2: below those sizes Mean divides by zero, Median reads the middle of an empty copy, and Std divides by size - 1 = 0. Stats.Max and Stats.Min only require a non-empty array, as they read the first entry.
- MapGrid.Map.MaxValue and MapGrid.Map.MinValue: require non-empty data, because dereferencing the end iterator is undefined.
- MapGrid.Map.AvgValue: requires a non-zero volume.
- MapGrid.Map.Normalise: requires min < max, since max - min is the divisor; MapGrid.Map.AddNoise, MapGrid.Map.SetData and MapGrid.Map.SetConstant require the same when they normalise. Every operation that walks the first volume entries requires the data to hold at least that many.
- MapGrid.Map.AddNoise: `std::normal_distribution` and its engine are not modelled; the draws are the parameter noise.
- The Map's grid getters are the fields nu, nv and nw, and `get_volume` is `Volume()`. The unit-cell getters (`get_a` ... `get_gamma`) are not modelled, since the model has no unit cell.
- Path: `format_str` is not modelled, because it is C variadic formatting. `mkdir` is not called; `make_path` returns the directories it would create, in order.
- Path.JoinPath: requires a non-empty a, because `a.back()` on an empty string is undefined. An empty b reads the terminating NUL, which is not a separator, and this is modelled.
- Argparser.Argparser.GetFlagAs: the `std::stringstream` extraction into T is the parameter cast, and T(0) is the parameter zero.
- Parser: reading the file is not modelled; the constructor takes the lines. The `name` field, `__str__`, `__repr__` and `get_line` are not modelled; `get_line` needs regular expressions.
- Parser.Parser.GetSection: pos is a natural number. Python's negative slice positions are not modelled; `get_all_sections` only passes 0 or a returned line index.
- Parser.AllSectionsFrom: the source's loop never ends when an unclosed section collects a kept line. The model stops at the first repetition and returns `Endless`; it does not model running forever.
- Json: `json.load` and the file are not modelled; the accessors take the loaded value. Indexing a list, a string, a number, a boolean or None by a string raises `TypeError` in Python, and all of these are the one `TypeError`.
