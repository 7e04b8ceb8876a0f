# Division features of ilastik's `OpCellFeatures`, in Dafny

This project models the core of `OpCellFeatures`, the lazyflow operator that
adds division features to the per-object region features of a label image
time series. For every object of frame `t`, it looks at the objects of frame
`t + 1` inside a square search window around the object's centre. It keeps
the nearest ones that are large enough as candidate children. From them it
computes:

- the distance slots `SquaredDistance00`, `SquaredDistance01`, …
- the largest angle between two children at the parent
- the ratio of the two nearest distances
- four size and mean ratios

The operator computes these once on the plain region centres and once on
centres moved by a translation vector (suffix `_corr`). It caches each
timestep's result.

The modules follow the structure of the Python source:

| module | file | what it holds |
|---|---|---|
| `Numeric` | numeric.dfy | Python 2 `round`; `max` of a list with the `[0]` fallback; maximum over unordered pairs |
| `Selection` | selection.dfy | `getSquaredDistances`: size filter, stable sort by distance, the `num_best` slice |
| `Window` | window.dfy | the search window of `extractDivisionFeatures`, with Python's slice semantics |
| `Ratios` | ratios.dfy | `getChildrenSizeRatio`, `getSquaredDistanceRatio`, `getParentChildrenSizeRatio`, `getChildrenMeanRatio`, `getParentChildrenMeanRatio` |
| `Angles` | angles.dfy | `getMaxAngle` |
| `Gmm` | gmm.dfy | `gmm_num_parameters` and the normalisation of the BIC score list |
| `FeatureNames` | names.dfy | maintenance of the `divisionFeatures` list and the default/zero columns |
| `FeatureCache` | cache.dfy | the per-timestep cache of `execute` and `propagateDirty` |
| `Extraction` | extraction.dfy | one iteration of the loop of `extractDivisionFeatures`; the translation-corrected centres |
| `ChannelFeatures` | channel.dfy | `extractDivisionFeatures` as a whole; one channel of `execute` |

Floats are modelled as reals. Where numpy produces NaN (0/0), the source
replaces it by 0, and so does the model. Where it would produce an infinity
that survives into a feature, the model's `requires` excludes that input: a
zero child mean under a non-zero parent mean, and a zero child mean beside a
negative one. Negative mean intensities are admitted; they give negative mean
ratios, as in the source (`Ratios.NegativeMeanExample`).

Outside computations become parameters:

- the Euclidean norm (`numpy.linalg.norm`)
- the angle between two vectors (`math.acos` of the normalised dot product, in degrees)
- the labels found in a window of the next label image (`numpy.unique` of the slice). The lemmas that count or rank a window's children also assume that it lists each label once, in ascending order, as `numpy.unique` does (`ChannelFeatures.LabelsAscending`)
- the translation vector read at a rounded centre

The model follows the code and notes these behaviours:

- The "squared distances" are plain Euclidean norms: `getSquaredDistances` calls `numpy.linalg.norm` and never squares it.
- `propagateDirty` marks the output dirty but never clears `_cache`. A timestep computed before the translation vectors changed is still served from the cache (`FeatureCache.StaleAfterDirty`).
- Every distance slot is first filled with `defaultSquaredDistance` (1000). The loop over `divisionFeatures` then overwrites it with 0, because the slot names are on that list from the first run on. A slot beyond an object's kept neighbours therefore reads 0, never 1000 (`ChannelFeatures.ChannelDistanceSlots`).
- `getParentChildrenMeanRatio` compares `numpy.abs(r)` with `abs_max` but stores the signed `r` in `abs_max`. After a negative ratio, the next ratio always replaces it, whatever its magnitude. So a negative result can only come from the last child (`Ratios.ParentChildrenMeanRatioNegativeOnlyLast`, `Ratios.SignedAbsMaxExample`). In general the result is the ratio of the first child whose ratio is at least the magnitude of every later one (`Ratios.ParentChildrenMeanRatio`, `Ratios.MixedSignExample`).
- In the corrected pass (`_corr`) a parent's centre is its rounded centre plus a translation vector, and that can lie below the origin. A coordinate more than `templateSize/2` below the origin gives a negative `stop`, and Python reads a negative stop from the far end of the axis (`Window.NegativeStopReadsFromEnd`). An object at 5 moved by -25 lands at -20, and its window then reads indices 0 to 94 of a 100-pixel axis instead of nothing (`Extraction.CorrectedWindowReadsFromEnd`). The model keeps this behaviour. The plain pass takes its centres from the label image and never meets it.
- The `assert ratio <= 1` of `getSquaredDistanceRatio` is modelled as an error outcome. It never fires on rows sorted by distance (`Ratios.SortedRowsPassAssertion`), which is what `getSquaredDistances` returns.
- The sizes for `ChildrenSizeRatio` and `ParentChildrenSizeRatio` follow the key order of the dictionary `coms_next_reduced` (lines 362-364, used again at 368-370). Python 2 dictionaries promise no order. CPython 2 iterates a small dictionary in slot order, `label & 7` for integer labels, so labels 9 and 6 come out as 9, 6. The model uses ascending label order instead (`Extraction.ByLabel`). For the default `numNeighbors = 2` this makes no difference: the pair ratio is symmetric (`Ratios.PairRatioSymmetric`) and the sum of the two sizes commutes. With three or more neighbours `ChildrenSizeRatio` is still a maximum over all pairs, but `ParentChildrenSizeRatio` uses the first two sizes in dictionary order, which need not be those of the two smallest labels.
- The centres for the angle follow `sorted(coms_next.keys())` (lines 400 and 403), ascending label order, which is the order `Extraction.CentresByLabel` uses.
- The means follow the distance order of the kept rows, as `labels_next_reduced` does.
- The corrected pass (`_corr`) uses the translated centres of the current frame but the uncorrected centres of the next frame, as the source does.

## Model

All source paths are in `ilastik/applets/divisionFeatureExtraction/opDivisionFeatureExtraction.py`.

| member | source | states |
|---|---|---|
| Numeric.Round | ilastik/applets/divisionFeatureExtraction/opDivisionFeatureExtraction.py:319 | Python 2 `round`: within 0.5 of the input, and a tie goes away from zero |
| Numeric.RoundVec | ilastik/applets/divisionFeatureExtraction/opDivisionFeatureExtraction.py:125 | `[int(round(x)) for x in coord]`: same length, coordinate-wise rounding |
| Numeric.MaxOrZero | ilastik/applets/divisionFeatureExtraction/opDivisionFeatureExtraction.py:413-417 | `max` of the list, or 0 for an empty list; the result is an element and bounds every element |
| Numeric.MaxOverPairs | ilastik/applets/divisionFeatureExtraction/opDivisionFeatureExtraction.py:444-458 | the maximum over all unordered pairs `i < j` is 0 without a pair, bounds every pair's value, and is attained by some pair |
| Numeric.PairValues | ilastik/applets/divisionFeatureExtraction/opDivisionFeatureExtraction.py:446-453 | the nested loop over `idx` and `sizes_next[idx+1:]`, one value per pair `i < j` in loop order; characterised by `PairValuesLength`, `PairValuesComplete` and `PairValuesSound` |
| Numeric.PairValuesLength | ilastik/applets/divisionFeatureExtraction/opDivisionFeatureExtraction.py:446-453 | the nested pair loop produces `n(n-1)/2` values |
| Numeric.PairValuesComplete | ilastik/applets/divisionFeatureExtraction/opDivisionFeatureExtraction.py:446-453 | every pair `i < j` contributes its value |
| Numeric.PairValuesSound | ilastik/applets/divisionFeatureExtraction/opDivisionFeatureExtraction.py:446-453 | every value comes from some pair `i < j` |
| Selection.Qualifying | ilastik/applets/divisionFeatureExtraction/opDivisionFeatureExtraction.py:425-428 | a row is kept exactly when it comes from a candidate whose size reaches the size filter |
| Selection.QualifyingCount | ilastik/applets/divisionFeatureExtraction/opDivisionFeatureExtraction.py:425-428 | the filtered list has one row per passing candidate: its length is the number of candidate positions whose size reaches the filter |
| Selection.InsertBy | ilastik/applets/divisionFeatureExtraction/opDivisionFeatureExtraction.py:432 | insertion into a sorted list keeps it sorted and adds exactly the new element |
| Selection.SortBy | ilastik/applets/divisionFeatureExtraction/opDivisionFeatureExtraction.py:432 | `sorted(..., key=...)` is a permutation of its input in ascending key order |
| Selection.SliceLength | ilastik/applets/divisionFeatureExtraction/opDivisionFeatureExtraction.py:433-441 | the length of `a[0:k]`: `min(n, k)` for `k >= 0`, and `n + k` clipped at 0 for a negative `k` |
| Selection.NearestRows | ilastik/applets/divisionFeatureExtraction/opDivisionFeatureExtraction.py:430-441 | the result has the slice's length, is sorted by distance, is a sub-multiset of the input, and nothing left out is nearer than the last row kept |
| Selection.SquaredDistances | ilastik/applets/divisionFeatureExtraction/opDivisionFeatureExtraction.py:420-441 | `getSquaredDistances`: `min(num_best, number of candidates whose size reaches the filter)` rows for a non-negative `num_best` (Python's slice length otherwise), sorted by distance, all from candidates that pass the size filter, none omitted that is nearer than the last kept, empty when no candidate passes |
| Selection.LeftOutNoNearer | ilastik/applets/divisionFeatureExtraction/opDivisionFeatureExtraction.py:425-441 | a candidate that passes the size filter and is not kept is no nearer than the last row kept |
| Selection.PrefixFacts | ilastik/applets/divisionFeatureExtraction/opDivisionFeatureExtraction.py:441 | a prefix of a sorted list is a sub-multiset, and nothing it leaves out is nearer than its last row |
| Window.AxisWindow | ilastik/applets/divisionFeatureExtraction/opDivisionFeatureExtraction.py:326-332 | `slice(max(c - h, 0), min(c + h, extent))`: start at least 0, stop at most the extent, at most `2h` wide, containing `c` when `c` is on the axis |
| Window.SearchWindow | ilastik/applets/divisionFeatureExtraction/opDivisionFeatureExtraction.py:319-332 | one slice per coordinate of the rounded centre, each the axis window of that coordinate |
| Window.Resolve | ilastik/applets/divisionFeatureExtraction/opDivisionFeatureExtraction.py:337 | Python's reading of a slice bound: within the axis, unchanged when already on the axis |
| Window.AxisWindowCovers | ilastik/applets/divisionFeatureExtraction/opDivisionFeatureExtraction.py:326-337 | for a centre at least `-h`, the window reads exactly the indices within `h` of the centre (upper bound excluded) that lie on the axis |
| Window.NegativeStopReadsFromEnd | ilastik/applets/divisionFeatureExtraction/opDivisionFeatureExtraction.py:326-337 | a centre far below the origin gives a negative stop, and the window then reads from the far end of the axis |
| Window.SearchWindowCovers | ilastik/applets/divisionFeatureExtraction/opDivisionFeatureExtraction.py:319-337 | `img_at_next[roi]` holds exactly the grid points within `templateSize/2` of the rounded centre on every axis |
| Ratios.PairRatio | ilastik/applets/divisionFeatureExtraction/opDivisionFeatureExtraction.py:448-452 | the smaller size over the larger, in `[0, 1]`; 1 exactly for equal positive sizes; 0 exactly when a size is 0 |
| Ratios.PairRatioSymmetric | ilastik/applets/divisionFeatureExtraction/opDivisionFeatureExtraction.py:448-452 | the pair ratio does not depend on the order of the two sizes |
| Ratios.ChildrenSizeRatio | ilastik/applets/divisionFeatureExtraction/opDivisionFeatureExtraction.py:444-458 | 0 with fewer than two children; otherwise the largest pair ratio, bounding every pair and attained by one |
| Ratios.ChildrenSizeRatioEqualSizes | ilastik/applets/divisionFeatureExtraction/opDivisionFeatureExtraction.py:444-458 | two children of equal positive size give ratio 1 |
| Ratios.ChildrenSizeRatioPositive | ilastik/applets/divisionFeatureExtraction/opDivisionFeatureExtraction.py:444-458 | two or more children of positive size give a ratio in `(0, 1]` |
| Ratios.SquaredDistanceRatio | ilastik/applets/divisionFeatureExtraction/opDivisionFeatureExtraction.py:460-471 | 0 for fewer than two rows; the assertion fails exactly when the first distance exceeds the second; otherwise the first distance over the second, in `[0, 1]`, or 0 for 0/0 |
| Ratios.SortedRowsPassAssertion | ilastik/applets/divisionFeatureExtraction/opDivisionFeatureExtraction.py:460-471 | on rows sorted by distance the assertion never fails and the ratio is in `[0, 1]` |
| Ratios.ParentChildrenSizeRatio | ilastik/applets/divisionFeatureExtraction/opDivisionFeatureExtraction.py:473-479 | 0 for fewer than two children; otherwise the parent's size over the sum of the first two children's sizes; 1 exactly when that sum equals the parent's size |
| Ratios.ParentChildrenSizeRatioFirstTwo | ilastik/applets/divisionFeatureExtraction/opDivisionFeatureExtraction.py:473-479 | only the first two children's sizes matter |
| Ratios.ChildrenMeanRatio | ilastik/applets/divisionFeatureExtraction/opDivisionFeatureExtraction.py:481-489 | 0 for fewer than two means; at most 1; non-negative for non-negative means; 1 exactly when the first two means are equal and non-zero; a negative first mean over a zero second (-infinity) is the one input excluded |
| Ratios.ChildrenMeanRatioSymmetric | ilastik/applets/divisionFeatureExtraction/opDivisionFeatureExtraction.py:481-489 | for positive means the ratio is the smaller mean over the larger, whatever their order |
| Ratios.ChildrenMeanRatioSmallerOverLarger | ilastik/applets/divisionFeatureExtraction/opDivisionFeatureExtraction.py:481-489 | wherever the ratio is finite: for means of the same sign, the one of smaller magnitude over the other; for means of opposite signs, the first over the second (a negative quotient is never inverted); 0 when either mean is 0 |
| Ratios.NegativeMeanExample | ilastik/applets/divisionFeatureExtraction/opDivisionFeatureExtraction.py:481-489 | child means 1 and -2 give the children mean ratio -0.5 |
| Ratios.ShiftedMeanRatio | ilastik/applets/divisionFeatureExtraction/opDivisionFeatureExtraction.py:498-501 | `mean_cur / m - 1`, with 0/0 read as 0 before the shift; 0 exactly when the means are equal |
| Ratios.ShiftedMeanRatios | ilastik/applets/divisionFeatureExtraction/opDivisionFeatureExtraction.py:497-502 | the list `ratios`: one shifted ratio per child mean, in order |
| Ratios.TrackAbsMax | ilastik/applets/divisionFeatureExtraction/opDivisionFeatureExtraction.py:495-505 | the index the `abs_max` loop ends on is a valid index: the start index or one visited |
| Ratios.ParentChildrenMeanRatio | ilastik/applets/divisionFeatureExtraction/opDivisionFeatureExtraction.py:491-507 | 0 without children; otherwise the shifted ratio of the first child whose ratio is at least the magnitude of every later child's (an independent characterisation of the signed `abs_max` loop; with mixed signs it need not be the largest magnitude) |
| Ratios.TrackAbsMaxNonNegative | ilastik/applets/divisionFeatureExtraction/opDivisionFeatureExtraction.py:495-505 | while every ratio is non-negative, the loop ends on a largest one |
| Ratios.ParentChildrenMeanRatioLargest | ilastik/applets/divisionFeatureExtraction/opDivisionFeatureExtraction.py:491-507 | when every child mean is positive and at most the parent's mean, no shifted ratio is negative and the result is one of largest magnitude |
| Ratios.TrackAbsMaxFirstBound | ilastik/applets/divisionFeatureExtraction/opDivisionFeatureExtraction.py:495-505 | the `abs_max` loop ends on the first index whose value bounds the magnitude of every later value |
| Ratios.NewRecordOutbounds | ilastik/applets/divisionFeatureExtraction/opDivisionFeatureExtraction.py:495-505 | when the loop takes a new `abs_max`, every earlier ratio is exceeded in magnitude by a later one, so none of them bounds the rest |
| Ratios.TrackAbsMaxNegativeOnlyLast | ilastik/applets/divisionFeatureExtraction/opDivisionFeatureExtraction.py:503-505 | once a negative ratio is stored in `abs_max`, the next ratio replaces it, so the loop can end on a negative ratio only at the last index |
| Ratios.ParentChildrenMeanRatioNegativeOnlyLast | ilastik/applets/divisionFeatureExtraction/opDivisionFeatureExtraction.py:491-507 | a negative result is the last child's shifted ratio |
| Ratios.SignedAbsMaxExample | ilastik/applets/divisionFeatureExtraction/opDivisionFeatureExtraction.py:491-507 | parent mean 1 and child means 2, 1 give 0, although the ratio of the first child is larger in magnitude |
| Ratios.MixedSignExample | ilastik/applets/divisionFeatureExtraction/opDivisionFeatureExtraction.py:491-507 | parent mean 1 and child means 2, 0.8 give shifted ratios -0.5 and 0.25, and the result is 0.25, the smaller magnitude |
| Angles.Reflect | ilastik/applets/divisionFeatureExtraction/opDivisionFeatureExtraction.py:408-410 | an angle above 180 becomes `360 - ang`; the result is in `[0, 180]` |
| Angles.ChildAngle | ilastik/applets/divisionFeatureExtraction/opDivisionFeatureExtraction.py:402-410 | the reflected angle at the parent between two children of the parent's dimension is in `[0, 180]` |
| Angles.MaxAngle | ilastik/applets/divisionFeatureExtraction/opDivisionFeatureExtraction.py:398-417 | 0 with fewer than two children; otherwise in `[0, 180]`, at least the angle of every pair, and equal to the angle of some pair |
| Angles.MaxAngleSwapTwo | ilastik/applets/divisionFeatureExtraction/opDivisionFeatureExtraction.py:398-417 | with a symmetric angle, two children give their one angle, whichever comes first |
| Gmm.Trunc | ilastik/applets/divisionFeatureExtraction/opDivisionFeatureExtraction.py:215 | Python's `int(x)` truncates toward zero |
| Gmm.NumParameters | ilastik/applets/divisionFeatureExtraction/opDivisionFeatureExtraction.py:203-215 | `gmm_num_parameters`: covariance, mean and weight parameters, truncated by `int`; characterised by `NumParametersCounts` and `NumParametersOrdered` |
| Gmm.NumParametersCounts | ilastik/applets/divisionFeatureExtraction/opDivisionFeatureExtraction.py:203-215 | for each covariance type the formula equals `k - 1` weights plus `k d` means plus the free covariance entries counted from the matrix structure; the `/ 2.` is exact |
| Gmm.NumParametersOrdered | ilastik/applets/divisionFeatureExtraction/opDivisionFeatureExtraction.py:203-215 | spherical ≤ diag for d ≥ 1, diag ≤ full and tied ≤ full in every dimension, with tied = full for one component |
| Gmm.Normalize | ilastik/applets/divisionFeatureExtraction/opDivisionFeatureExtraction.py:290-298 | a non-empty result sums to 1; a zero-sum list becomes `1/len` everywhere; otherwise each entry times the sum gives back the score |
| Gmm.NormalizeIdempotent | ilastik/applets/divisionFeatureExtraction/opDivisionFeatureExtraction.py:290-298 | normalising a normalised list changes nothing, the empty list included |
| Gmm.ClassificationScores | ilastik/applets/divisionFeatureExtraction/opDivisionFeatureExtraction.py:234-300 | an object not above the size filter gets `1/ndim` for each of `ndim` entries; otherwise one entry per fitted score; a non-empty list sums to 1 |
| FeatureNames.Pad2RoundTrip | ilastik/applets/divisionFeatureExtraction/opDivisionFeatureExtraction.py:137 | reading `'%02d' % n` back as a decimal gives `n` |
| FeatureNames.SlotName | ilastik/applets/divisionFeatureExtraction/opDivisionFeatureExtraction.py:137 | `'SquaredDistance%02d' % n` is the prefix followed by at least two digits |
| FeatureNames.SlotNameInjective | ilastik/applets/divisionFeatureExtraction/opDivisionFeatureExtraction.py:135-143 | different neighbour indices get different slot names |
| FeatureNames.SlotNameDistinct | ilastik/applets/divisionFeatureExtraction/opDivisionFeatureExtraction.py:135-151 | no slot name is the template, and none ends with the correction suffix |
| FeatureNames.SuffixCancel | ilastik/applets/divisionFeatureExtraction/opDivisionFeatureExtraction.py:145 | appending the same suffix, such as `_corr`, keeps different names different, so each suffixed slot is its own column |
| FeatureNames.RemoveFirst | ilastik/applets/divisionFeatureExtraction/opDivisionFeatureExtraction.py:140 | `list.remove(x)` removes exactly one occurrence of `x` |
| FeatureNames.NamesLoop | ilastik/applets/divisionFeatureExtraction/opDivisionFeatureExtraction.py:135-140 | the loop over `n` that appends `SquaredDistance%02d % n` while the template is listed and removes the template at the last index; characterised by `NamesLoopReplaces` and `NamesLoopIdle` |
| FeatureNames.UpdateNames | ilastik/applets/divisionFeatureExtraction/opDivisionFeatureExtraction.py:135-140 | the name-list update of one run, `range(numNeighbors)` iterations; characterised by `UpdateNamesSpec`, `SecondRunUnchanged` and `SlotInUpdatedNames` |
| FeatureNames.NamesLoopReplaces | ilastik/applets/divisionFeatureExtraction/opDivisionFeatureExtraction.py:135-140 | while the template is listed, the loop appends the remaining slot names and removes the template at the last iteration |
| FeatureNames.NamesLoopIdle | ilastik/applets/divisionFeatureExtraction/opDivisionFeatureExtraction.py:135-140 | once the template is gone, the loop leaves the list alone |
| FeatureNames.UpdateNamesSpec | ilastik/applets/divisionFeatureExtraction/opDivisionFeatureExtraction.py:135-140 | a run with a positive neighbour count replaces the template by `SquaredDistance00 ..`; otherwise the list is unchanged |
| FeatureNames.SecondRunUnchanged | ilastik/applets/divisionFeatureExtraction/opDivisionFeatureExtraction.py:135-140 | after the first run the list is the six ratio names plus the slot names, and later runs never change it, whatever their neighbour count |
| FeatureNames.DefaultDistanceSlots | ilastik/applets/divisionFeatureExtraction/opDivisionFeatureExtraction.py:141-145 | the 1000-filled plain and `_corr` slot columns per the two flags; characterised by `DefaultDistanceSlotsSpec` and `DefaultDistanceSlotsKeep` |
| FeatureNames.DefaultDistanceSlotsSpec | ilastik/applets/divisionFeatureExtraction/opDivisionFeatureExtraction.py:141-145 | every slot below the neighbour count gets a column of `defaultSquaredDistance`, under its plain name when the uncorrected features are on and under its `_corr` name when the corrected ones are |
| FeatureNames.DefaultDistanceSlotsKeep | ilastik/applets/divisionFeatureExtraction/opDivisionFeatureExtraction.py:141-145 | later iterations leave an earlier slot alone, plain and suffixed |
| FeatureNames.ZeroSlots | ilastik/applets/divisionFeatureExtraction/opDivisionFeatureExtraction.py:147-151 | the zero columns for every listed name, plain and `_corr` per the two flags; characterised by `ZeroSlotsSpec` |
| FeatureNames.InitialColumns | ilastik/applets/divisionFeatureExtraction/opDivisionFeatureExtraction.py:141-151 | the default slots, then the zero columns; characterised by `DistanceSlotValue`, `FirstRunZeroesDistances` and `ChannelFeatures.InitialColumnsShape` |
| FeatureNames.ZeroSlotsSpec | ilastik/applets/divisionFeatureExtraction/opDivisionFeatureExtraction.py:147-151 | every listed name, plain or suffixed as the flags say, gets a column of zeros; every other column is unchanged |
| FeatureNames.DistanceSlotValue | ilastik/applets/divisionFeatureExtraction/opDivisionFeatureExtraction.py:141-151 | a slot, plain or `_corr`, keeps the default distance when its name is not listed, and holds zeros when it is |
| FeatureNames.SlotInUpdatedNames | ilastik/applets/divisionFeatureExtraction/opDivisionFeatureExtraction.py:135-140 | every slot below the neighbour count is listed after the first run |
| FeatureNames.FirstRunZeroesDistances | ilastik/applets/divisionFeatureExtraction/opDivisionFeatureExtraction.py:135-151 | on the first run every distance slot is listed and ends up holding zeros, not the default distance, in the plain column and, with the corrected features on, in the `_corr` column |
| FeatureCache.Requested | ilastik/applets/divisionFeatureExtraction/opDivisionFeatureExtraction.py:96-97 | an empty request stands for every timestep of the label image |
| FeatureCache.Visit | ilastik/applets/divisionFeatureExtraction/opDivisionFeatureExtraction.py:99-199 | a cached timestep is served from the cache; a frozen operator serves a placeholder and caches nothing; otherwise the features are computed and cached |
| FeatureCache.ExecuteFrom | ilastik/applets/divisionFeatureExtraction/opDivisionFeatureExtraction.py:98-199 | the loop answers exactly the requested timesteps, keeps every cached entry, and adds exactly the computed ones |
| FeatureCache.Execute | ilastik/applets/divisionFeatureExtraction/opDivisionFeatureExtraction.py:92-200 | `execute` answers exactly the requested timesteps, never changes a cached entry, serves cached ones from the cache, and computes and caches the others unless frozen |
| FeatureCache.ExecuteIdempotent | ilastik/applets/divisionFeatureExtraction/opDivisionFeatureExtraction.py:92-200 | a repeated request returns the same features and leaves the cache as the first left it, whether or not the operator is frozen |
| FeatureCache.FrozenHasNoEffect | ilastik/applets/divisionFeatureExtraction/opDivisionFeatureExtraction.py:102-103 | while frozen, an uncached timestep is served as a placeholder and stays uncached |
| FeatureCache.PropagateDirty | ilastik/applets/divisionFeatureExtraction/opDivisionFeatureExtraction.py:88-90 | a change of the translation vectors marks timesteps `[0, T)` dirty; any other input marks nothing; the cache is untouched |
| FeatureCache.StaleAfterDirty | ilastik/applets/divisionFeatureExtraction/opDivisionFeatureExtraction.py:88-101 | after the translation vectors change, a cached timestep is still served from the cache |
| Extraction.CorrectedCenters | ilastik/applets/divisionFeatureExtraction/opDivisionFeatureExtraction.py:119-131 | `RegionCenter_corr`: row 0 stays zero; every other coordinate is the rounded centre coordinate plus the translation read at the rounded centre, hence within 0.5 of the centre plus that translation |
| Extraction.CorrectedRow | ilastik/applets/divisionFeatureExtraction/opDivisionFeatureExtraction.py:131 | `coord + translation` adds coordinate-wise |
| Extraction.CorrectedCenterOnGrid | ilastik/applets/divisionFeatureExtraction/opDivisionFeatureExtraction.py:123-131 | a coordinate on the pixel grid is moved by exactly the translation |
| Extraction.CorrectedWindowReadsFromEnd | ilastik/applets/divisionFeatureExtraction/opDivisionFeatureExtraction.py:119-131 | an object at 5 moved by -25 gets the corrected centre -20, whose window `slice(0, -5)` reads indices 0 to 94 of a 100-pixel axis |
| Extraction.Candidates | ilastik/applets/divisionFeatureExtraction/opDivisionFeatureExtraction.py:338-344 | every candidate is a non-background label found in the window, with its distance and its size, and every such label is a candidate |
| Extraction.SelectedRowsFromWindow | ilastik/applets/divisionFeatureExtraction/opDivisionFeatureExtraction.py:338-346 | every kept row names a non-background label in the window whose size passes the filter |
| Extraction.QualifyingWindowChildren | ilastik/applets/divisionFeatureExtraction/opDivisionFeatureExtraction.py:338-346 | with each label listed once, the candidates passing the size filter are as many as the window's children: its non-background labels whose size reaches the filter |
| Extraction.SelectedNearest | ilastik/applets/divisionFeatureExtraction/opDivisionFeatureExtraction.py:336-346 | the kept rows are window children at their distances, `min(numNeighbors, number of children)` of them when labels are listed once, and no child left out is nearer than the last kept |
| Extraction.SelectedAreChildren | ilastik/applets/divisionFeatureExtraction/opDivisionFeatureExtraction.py:336-346 | every kept row is a child of the window, at the distance from the parent to its centre |
| Extraction.NoneLeftNearer | ilastik/applets/divisionFeatureExtraction/opDivisionFeatureExtraction.py:336-346 | a child of the window not kept is no nearer than the last row kept |
| Extraction.ChildLeftOut | ilastik/applets/divisionFeatureExtraction/opDivisionFeatureExtraction.py:336-346 | the same for one child whose row was not kept |
| Extraction.NearestKeptFirst | ilastik/applets/divisionFeatureExtraction/opDivisionFeatureExtraction.py:336-346 | with labels listed once and `numNeighbors > 0`, some row is kept exactly when the window holds a child, and the first row is a child no other child is nearer than |
| Extraction.ByLabel | ilastik/applets/divisionFeatureExtraction/opDivisionFeatureExtraction.py:362-364 | the kept rows in ascending label order: a permutation of them (same multiset), sorted by label |
| Extraction.CentresByLabel | ilastik/applets/divisionFeatureExtraction/opDivisionFeatureExtraction.py:401-406 | one next-frame centre per kept row: the `k`-th is the centre of the `k`-th kept row in label order, of the frame's dimension |
| Extraction.SizesOf | ilastik/applets/divisionFeatureExtraction/opDivisionFeatureExtraction.py:362-364 | `Count` of each row, in order |
| Extraction.MeansOf | ilastik/applets/divisionFeatureExtraction/opDivisionFeatureExtraction.py:374-376 | `Mean` of each row, in order |
| Extraction.ShiftedRatiosAtLeastMinusOne | ilastik/applets/divisionFeatureExtraction/opDivisionFeatureExtraction.py:497-502 | with a non-negative parent mean and non-negative child means every shifted mean ratio is at least -1 |
| Extraction.RowFeatures | ilastik/applets/divisionFeatureExtraction/opDivisionFeatureExtraction.py:349-384 | from the kept rows: angle in `[0, 180]`, size and distance ratios in `[0, 1]`, parent/children size ratio non-negative; the children mean ratio at most 1, and at least 0 when the kept children's means are non-negative; the parent/children mean ratio at least -1 when the parent's and the children's means are non-negative; all zero with fewer than two rows; the distance ratio passes its assertion. Negative child means are admitted |
| Extraction.RowFeaturesMeaning | ilastik/applets/divisionFeatureExtraction/opDivisionFeatureExtraction.py:349-384 | the six features are what the kept rows determine: the largest pair angle of their centres in label order (attained by a pair), the largest pair size ratio, the parent's size over the first two sizes, the nearest distance over the second, the smaller of the first two means over the larger, and the first shifted mean ratio bounding the later ones |
| Extraction.RowAngleFeature | ilastik/applets/divisionFeatureExtraction/opDivisionFeatureExtraction.py:357-359 | the angle is the largest over pairs of the kept centres in label order, attained by a pair, 0 with fewer than two |
| Extraction.RowSizeFeatures | ilastik/applets/divisionFeatureExtraction/opDivisionFeatureExtraction.py:361-370 | the children size ratio is the largest pair ratio of the sizes in label order, attained by a pair; the parent/children ratio times the first two sizes is the parent's size |
| Extraction.RowDistanceFeature | ilastik/applets/divisionFeatureExtraction/opDivisionFeatureExtraction.py:365-366 | the distance ratio times the second nearest distance is the nearest distance, and 0 when the second is 0 |
| Extraction.RowMeanFeatures | ilastik/applets/divisionFeatureExtraction/opDivisionFeatureExtraction.py:372-384 | the children mean ratio is the smaller of the first two means over the larger; the parent/children mean ratio is the first shifted ratio bounding the later ones |
| Extraction.DistanceFeatureHolds | ilastik/applets/divisionFeatureExtraction/opDivisionFeatureExtraction.py:460-471 | rows sorted by distance pass the assertion and give the nearest distance over the second nearest |
| Extraction.SizeFeaturesHold | ilastik/applets/divisionFeatureExtraction/opDivisionFeatureExtraction.py:361-370 | the two size features computed from the label-ordered sizes satisfy their defining equations, with a positive sum of the first two sizes |
| Extraction.SelectedChildRows | ilastik/applets/divisionFeatureExtraction/opDivisionFeatureExtraction.py:338-356 | the kept rows name labels of positive size whose means give finite mean ratios, and non-negative means when every window label has one |
| Extraction.ObjectFeatures | ilastik/applets/divisionFeatureExtraction/opDivisionFeatureExtraction.py:319-384 | one parent's features: at most `numNeighbors` rows, sorted by distance, all from the window and the size filter; angle, size and distance ratios in range, the mean ratios bounded above and, for non-negative window means, below; zeros with fewer than two rows. Negative child means are admitted |
| Extraction.ObjectFeaturesMeaning | ilastik/applets/divisionFeatureExtraction/opDivisionFeatureExtraction.py:319-384 | one parent's rows are its nearest window children (as in `Extraction.SelectedNearest`) and its six features are those the rows determine (as in `Extraction.RowFeaturesMeaning`) |
| Extraction.ObjectFeaturesNearest | ilastik/applets/divisionFeatureExtraction/opDivisionFeatureExtraction.py:336-346 | with labels listed once and `numNeighbors > 0`, a parent keeps a row exactly when its window holds a child, and its first row is the nearest child at its distance |
| Extraction.BackgroundOnlyNoCandidates | ilastik/applets/divisionFeatureExtraction/opDivisionFeatureExtraction.py:341-344 | a window holding only background gives no candidate |
| Extraction.NoCandidatesAllZero | ilastik/applets/divisionFeatureExtraction/opDivisionFeatureExtraction.py:336-384 | such a parent keeps no row and all six ratio features are 0 |
| ChannelFeatures.Gated | ilastik/applets/divisionFeatureExtraction/opDivisionFeatureExtraction.py:353-354 | `if name in divFeatures: feats[name+suffix][label] = v` writes exactly that entry, and only when the name is listed |
| ChannelFeatures.WriteGated | ilastik/applets/divisionFeatureExtraction/opDivisionFeatureExtraction.py:349-384 | the gated writes of one object: each listed name holds its value at the object and nothing else changes |
| ChannelFeatures.WriteObject | ilastik/applets/divisionFeatureExtraction/opDivisionFeatureExtraction.py:349-384 | one object's writes: each listed slot of a kept row holds its distance, each listed ratio its value, unfilled slots and other objects are untouched |
| ChannelFeatures.ObjectAt | ilastik/applets/divisionFeatureExtraction/opDivisionFeatureExtraction.py:319-384 | the body of the per-object loop for object `obj`: its window of the next frame and the features of `Extraction.ObjectFeatures`; characterised by `ObjectAtNearest` and `ChannelRatioBounds` |
| ChannelFeatures.WriteObjects | ilastik/applets/divisionFeatureExtraction/opDivisionFeatureExtraction.py:308-384 | the loop over objects: every object from `obj` on is written, earlier objects and unlisted columns are unchanged |
| ChannelFeatures.AllObjects | ilastik/applets/divisionFeatureExtraction/opDivisionFeatureExtraction.py:308-310 | one feature record per object, the background skipped |
| ChannelFeatures.ExtractDivisionFeatures | ilastik/applets/divisionFeatureExtraction/opDivisionFeatureExtraction.py:304-384 | every listed column keeps one entry per object; the background row, unlisted columns and the slots beyond an object's kept rows are unchanged; next-frame means may be negative |
| ChannelFeatures.ExtractWritesObjects | ilastik/applets/divisionFeatureExtraction/opDivisionFeatureExtraction.py:304-384 | after the pass every non-background object's distances and ratios are in its entries of the listed columns, under the pass's suffix |
| ChannelFeatures.WriteObjectsWrites | ilastik/applets/divisionFeatureExtraction/opDivisionFeatureExtraction.py:308-384 | the write loop from object 1 on leaves every object's features in its entries of the listed columns |
| ChannelFeatures.UpdatedNamesUnsuffixed | ilastik/applets/divisionFeatureExtraction/opDivisionFeatureExtraction.py:135-140 | no name on the updated list is another listed name plus the correction suffix, so the corrected pass never writes a plain column |
| ChannelFeatures.InitialColumnsShape | ilastik/applets/divisionFeatureExtraction/opDivisionFeatureExtraction.py:141-151 | after the default and zero loops every listed column, plain or suffixed as the flags say, holds one zero per object |
| ChannelFeatures.Corrected | ilastik/applets/divisionFeatureExtraction/opDivisionFeatureExtraction.py:119-131 | the corrected table has the same counts and means and well-formed centres |
| ChannelFeatures.ChannelColumns | ilastik/applets/divisionFeatureExtraction/opDivisionFeatureExtraction.py:113-189 | one channel: every listed column has one entry per object; at the last timestep they are all zero; otherwise the corrected pass's features are in the suffixed columns; row 0 stays zero |
| ChannelFeatures.ChannelPlainFeatures | ilastik/applets/divisionFeatureExtraction/opDivisionFeatureExtraction.py:164-189 | except at the last timestep, every object's plain features are in the plain columns after both passes |
| ChannelFeatures.PassKeepsSlot | ilastik/applets/divisionFeatureExtraction/opDivisionFeatureExtraction.py:304-384 | a pass leaves a distance slot beyond an object's kept rows as it found it |
| ChannelFeatures.CorrectedPassKeepsSlot | ilastik/applets/divisionFeatureExtraction/opDivisionFeatureExtraction.py:186-189 | the corrected pass never touches a plain distance slot |
| ChannelFeatures.FilledSlot | ilastik/applets/divisionFeatureExtraction/opDivisionFeatureExtraction.py:346-354 | a slot within an object's kept rows holds the distance of that row |
| ChannelFeatures.UnfilledSlotZero | ilastik/applets/divisionFeatureExtraction/opDivisionFeatureExtraction.py:135-189 | a distance slot beyond an object's kept rows holds 0 after both passes |
| ChannelFeatures.ChannelDistanceSlots | ilastik/applets/divisionFeatureExtraction/opDivisionFeatureExtraction.py:135-189 | the slots of an object hold its kept distances in ascending order, then 0; never the default 1000 |
| ChannelFeatures.ObjectAtNearest | ilastik/applets/divisionFeatureExtraction/opDivisionFeatureExtraction.py:319-346 | with `numpy.unique` listing each label once, an object keeps a row exactly when its window holds a child, and the first row is the nearest child |
| ChannelFeatures.ChannelNearestSlot | ilastik/applets/divisionFeatureExtraction/opDivisionFeatureExtraction.py:135-189 | after both passes `SquaredDistance00` of an object holds the distance to the nearest child in its window, and 0 when there is none |
| ChannelFeatures.ChannelRatioBounds | ilastik/applets/divisionFeatureExtraction/opDivisionFeatureExtraction.py:164-189 | the six ratio columns of every object lie in their ranges after both passes; the lower bounds of the two mean ratios hold when every next-frame mean is non-negative |

## Left out

- Lazyflow plumbing: slot wiring, `setupOutputs`, `_sig_value_changed`, requests and `wait()`, and the subclass `OpDivisionFeatureExtraction`. These are framework code; `execute` is modelled as a function of the cache, the request and a per-timestep computation.
- The progress `print` in `execute`: output only.
- The GMM fit, `gmm.score`, `gmm_bic`, `gmm_bic_mod` and `gmm_aic` call scikit-learn and `numpy.log`, outside code. The fitted scores are an input of `Gmm.ClassificationScores`.
- The automatic detection of `ndim` (lines 153-160) and the `GMM_BIC` column assembly: cell-classification features are switched off by default (`with_cell_classification_features = False`). Only their arithmetic is modelled.
- `math.acos`, `math.sqrt` and `numpy.linalg.norm` are real-valued functions outside the model. They are parameters, with only their range assumed.
- The reading of the label image, the raw image and the translation vectors (`SubRegion`): they are parameters of `ChannelFeatures.Env`.
- Floating-point rounding: floats are reals. NaN is modelled where the source tests for it. Inputs that would yield an infinity are excluded by `requires`.
- `self.features` (line 103) is not defined in this file. The placeholder's feature names are a parameter.
- Concurrency between requests on the same operator: the model is sequential.
- ChannelFeatures.ExtractDivisionFeatures: requires every next-frame object to have a positive `Count` and a non-zero `Mean` (`ObjectsNonEmpty`). A label of the label image covers at least one pixel. A zero mean under a non-zero parent mean makes numpy produce an infinity that the source does not filter; the model also leaves out a zero mean under a zero parent mean, which the source turns into finite ratios. Negative means are admitted.
- ChannelFeatures.ChannelRatioBounds: the lower bounds 0 of `ChildrenMeanRatio` and -1 of `ParentChildrenMeanRatio` are promised only when every next-frame mean is non-negative. With negative means the source gives values below them (child means 1 and -2 give -0.5).
- Extraction.ObjectFeatures: excludes a zero child mean beside a negative child mean anywhere in the window (`FiniteMeanRatios`). The source produces -infinity only when the zero mean is the second kept child's and the negative one the first's; the other placements give finite values that the model does not cover. Its mean-ratio lower bounds hold for non-negative window means only, as for `ChannelFeatures.ChannelRatioBounds`.
- Extraction.RowFeatures: the mean-ratio lower bounds hold for non-negative kept means only, as for `Extraction.ObjectFeatures`.
- ChannelFeatures.ChannelColumns: models the name list after its update for this run; if `divisionFeatures` lacks `ChildrenSizeRatio` but lists `ParentChildrenSizeRatio`, the source reads an unset or stale `sizes_next`. The model computes the sizes for both features regardless.
- Extraction.ByLabel: CPython 2 iterates `coms_next_reduced.keys()` in slot order (`label & 7` for a small dictionary), not in ascending label order, which the model uses. With more than two neighbours `ParentChildrenSizeRatio` can use a different pair of sizes than the source does.
- Selection.SquaredDistances: the source lists the candidates by iterating `coms_next.keys()` (line 425), in dictionary order, and the stable sort keeps that order among equal distances. The model lists them in the ascending order `numpy.unique` returns. Children at exactly equal distances can be ordered, or cut at `num_best`, differently from the source.
- Selection.SortBy: the stability of Python's sort holds of the insertion sort used here but is not stated as a contract.
- Angles.MaxAngle: the `assert ang <= 360.01` is replaced by the assumption that the angle function returns values in `[0, 360]`.
