# CWT peak picking: ridge-lines over a scale space

This project models the core of the ADAP continuous-wavelet-transform (CWT)
peak picker in Dafny and proves properties of that model. The picker works
on one chromatogram: a row of `N` intensities (`signal`) at `N` retention
times (`x`). It works in these steps:

1. **Scale axis.** The `ContinuousWaveletTransform` constructor builds an
   ascending list of wavelet scales: `smallScale, smallScale + incrementScale, ...`
   up to `largeScale`. It also builds a map from each scale to its position.
2. **Local maxima.** For each scale, `findMaximaForThisScale` sorts the
   positions by coefficient and scans from the largest down. Each position
   still eligible becomes a maximum and makes every position less than
   `round(2.5 * scale)` away ineligible.
3. **Ridge-lines.** `buildRidgelines` visits the scales from the largest to
   the smallest. Each maximum of a scale is offered to every existing ridge
   through `Ridgeline.tryAddPoint`. If no ridge accepts it, it starts a new
   ridge.
4. **Filtering.** `filterRidgelines` keeps only the ridges whose number of
   points is at least `totalNumberOfScales - 3`.
5. **Boundaries.** `findBoundries` reports, per ridge, three values: the
   index of its best point minus the rounded best scale, the same index
   plus the rounded scale (both clipped to the signal), and the best
   coefficient.

`PeakInfo` is the record of one detected peak. It provides an ordering by
apex index and a merge of two records with the same m/z.

The model's modules follow the source files:

- `JavaMath` (`java_math.dfy`): Java's `(int) Math.round`, `Math.abs`, `Integer.min` and `Integer.max`.
- `IndexSort` (`index_sort.dfy`): `SortAndKeepOriginalIndecies` and the `Arrays.sort` call that uses it.
- `ScaleSpace` (`scale_space.dfy`): the constructor's scale loop and the clipped summation window of `signalWaveletInnerProductOnePoint`.
- `Maxima` (`maxima.dfy`): `findMaximaForThisScale`.
- `Ridgelines` (`ridgeline.dfy`): class `Ridgeline`, together with `RidgeState`, its value as a datatype.
- `Wavelet` (`wavelet.dfy`): class `ContinuousWaveletTransform` with `buildRidgelines`, `filterRidgelines` and `findBoundries`, plus the specification functions they are proved against.
- `Peaks` (`peak_info.dfy`): class `PeakInfo` and its value `PeakRecord`.

The objects the Java code updates in place become Dafny classes with the
same fields:

- A `Ridgeline` and the `ContinuousWaveletTransform` object.
- A `PeakInfo`.
- The `Integer[]` index array and the `remain` flags.

Most methods are proved against a pure function of their inputs or of
the old state:

- `SortIndices` against the reference sort `SortByKey`.
- `FindMaximaForThisScale` against `MaximaOf`.
- The ridge-line methods against `OfferPoint`, `LinkScale` and the scale
  fold `LinkScalesDownTo`, for example
  `Values() == OfferPoint(old(Values()), ...)`.

The insertion step `InsertIntoPrefix` is stated directly instead: the
array stays a permutation, the prefix becomes sorted, and the suffix is
not touched. The properties the source relies on are then proved about
those functions as lemmas:

- The scales of every ridge `buildRidgelines` creates strictly decrease.
- Its indices stay inside the signal.
- The reported region contains the ridge's best point.
- Merging records takes the hull of their intervals.

Doubles are modelled as exact reals. The coefficient matrix is an input of
`BuildRidgelines`, not something the model computes (see "Left out").

## Model

| member | source | states |
|---|---|---|
| JavaMath.Round | src/main/java/dulab/adap/common/algorithms/ContinuousWaveletTransform.java:176 | `(int) Math.round(x)`: the integer within half of `x`, ties rounding up |
| JavaMath.Abs | src/main/java/dulab/adap/datamodel/Ridgeline.java:99 | `Math.abs`: non-negative, equal to `x` or `-x` |
| JavaMath.Min | src/main/java/dulab/adap/datamodel/PeakInfo.java:135-138 | `Integer.min`: at most both arguments and equal to one of them |
| JavaMath.Max | src/main/java/dulab/adap/datamodel/PeakInfo.java:140-143 | `Integer.max`: at least both arguments and equal to one of them |
| IndexSort.MakeArrOfIndices | src/main/java/dulab/adap/common/algorithms/SortAndKeepOriginalIndecies.java:33-39 | a fresh array holding `0, 1, ..., n-1` for data of length `n` |
| IndexSort.Compare | src/main/java/dulab/adap/common/algorithms/SortAndKeepOriginalIndecies.java:42-53 | -1 exactly when the first position holds the smaller value, 1 exactly when it holds the larger, 0 exactly on equal values |
| IndexSort.CompareReflexive | src/main/java/dulab/adap/common/algorithms/SortAndKeepOriginalIndecies.java:42-53 | a position compares equal to itself |
| IndexSort.CompareAntisymmetric | src/main/java/dulab/adap/common/algorithms/SortAndKeepOriginalIndecies.java:42-53 | swapping the arguments negates the result |
| IndexSort.CompareTotalPreorder | src/main/java/dulab/adap/common/algorithms/SortAndKeepOriginalIndecies.java:42-53 | the comparator is transitive, both for "at most" and for "equal", as `Arrays.sort` requires |
| IndexSort.InsertIntoPrefix | src/main/java/dulab/adap/common/algorithms/ContinuousWaveletTransform.java:187 | one insertion step: the array stays a permutation of itself, a sorted prefix of length `i` becomes one of length `i + 1`, and the elements after position `i` are untouched |
| IndexSort.SortIndices | src/main/java/dulab/adap/common/algorithms/ContinuousWaveletTransform.java:185-187 | the array is sorted in place into a permutation of itself, ordered by value with ties broken by position (the order a stable sort gives the identity array); the result is the reference sort `SortByKey` of the old array |
| IndexSort.InsertByKey | src/main/java/dulab/adap/common/algorithms/ContinuousWaveletTransform.java:187 | inserting one position into a list gives a list one longer with the same elements plus that position |
| IndexSort.InsertByKeySorted | src/main/java/dulab/adap/common/algorithms/ContinuousWaveletTransform.java:187 | inserting into a list sorted by value and position keeps it sorted |
| IndexSort.SortByKey | src/main/java/dulab/adap/common/algorithms/ContinuousWaveletTransform.java:185-187 | the reference sort gives a permutation of its input, inside the row |
| IndexSort.SortByKeySorted | src/main/java/dulab/adap/common/algorithms/ContinuousWaveletTransform.java:185-187 | the reference sort's result is sorted by value and then position |
| IndexSort.SortedOrder | src/main/java/dulab/adap/common/algorithms/ContinuousWaveletTransform.java:185-187 | the order in which the sorted index array lists the positions: a permutation of `0, 1, ..., n-1` |
| IndexSort.SortedOrderSorted | src/main/java/dulab/adap/common/algorithms/ContinuousWaveletTransform.java:185-187 | that order is sorted by value and then position |
| IndexSort.SortedOrderUnique | src/main/java/dulab/adap/common/algorithms/ContinuousWaveletTransform.java:185-187 | every permutation of the positions sorted by value and then position is that order, so the sorted index array is determined by the row |
| IndexSort.TailMultiset | src/main/java/dulab/adap/common/algorithms/ContinuousWaveletTransform.java:187 | two permutations of each other with the same first element are permutations of each other after it |
| IndexSort.SortedHeadsAgree | src/main/java/dulab/adap/common/algorithms/ContinuousWaveletTransform.java:187 | two permutations of the same positions, both sorted by value and position, start with the same element |
| IndexSort.SortedUnique | src/main/java/dulab/adap/common/algorithms/ContinuousWaveletTransform.java:187 | there is only one permutation sorted by value and then position, so every stable sort of the identity array (which leaves ties in position order) gives the same result as `SortIndices` |
| IndexSort.PermutationCoversRange | src/main/java/dulab/adap/common/algorithms/ContinuousWaveletTransform.java:189-192 | every position of the row occurs in the sorted index array, so each gets a `remain` entry |
| Maxima.RemoveCutOff | src/main/java/dulab/adap/common/algorithms/ContinuousWaveletTransform.java:176 | the suppression radius is `2.5 * scale` rounded, and is non-negative for non-negative scales |
| Maxima.EligibleAppend | src/main/java/dulab/adap/common/algorithms/ContinuousWaveletTransform.java:196-209 | after a new maximum, a position is still eligible exactly when it was before and is not near the new maximum |
| Maxima.MarkAllEligible | src/main/java/dulab/adap/common/algorithms/ContinuousWaveletTransform.java:189-192 | a fresh flag per position, all `true` |
| Maxima.Suppress | src/main/java/dulab/adap/common/algorithms/ContinuousWaveletTransform.java:198-209 | the flag of the maximum and of every position less than `removeCutOff` away becomes `false`; every other flag is unchanged |
| Maxima.ScanStart | src/main/java/dulab/adap/common/algorithms/ContinuousWaveletTransform.java:193 | the scan invariant holds before the first position |
| Maxima.SelectKeepsSeparated | src/main/java/dulab/adap/common/algorithms/ContinuousWaveletTransform.java:194-196 | choosing an eligible position keeps the maxima pairwise separated |
| Maxima.SelectKeepsOrder | src/main/java/dulab/adap/common/algorithms/ContinuousWaveletTransform.java:193-196 | appending a position that is no larger than any selected maximum keeps the maxima largest first |
| Maxima.SelectKeepsEligibility | src/main/java/dulab/adap/common/algorithms/ContinuousWaveletTransform.java:198-209 | after suppression, the flags still say exactly which positions no maximum suppresses |
| Maxima.DominatedAppend | src/main/java/dulab/adap/common/algorithms/ContinuousWaveletTransform.java:194-209 | a position dominated before a new maximum is added stays dominated |
| Maxima.ScanSelect | src/main/java/dulab/adap/common/algorithms/ContinuousWaveletTransform.java:194-211 | choosing a still-eligible position and suppressing around it preserves the scan invariant |
| Maxima.ScanSkip | src/main/java/dulab/adap/common/algorithms/ContinuousWaveletTransform.java:194 | skipping a suppressed position preserves the scan invariant, because a larger maximum already covers it |
| Maxima.ScanDone | src/main/java/dulab/adap/common/algorithms/ContinuousWaveletTransform.java:212-216 | at the end of the scan every position is a maximum or is dominated by one |
| Maxima.Scan | src/main/java/dulab/adap/common/algorithms/ContinuousWaveletTransform.java:193-213 | the scan only appends to the maxima selected so far, and only positions of the row |
| Maxima.MaximaOf | src/main/java/dulab/adap/common/algorithms/ContinuousWaveletTransform.java:174-218 | the maxima of a row for a suppression radius are positions of that row |
| Maxima.ScanSelectTable | src/main/java/dulab/adap/common/algorithms/ContinuousWaveletTransform.java:194-211 | selecting an eligible position, with the eligibility flags of the new maxima, preserves the scan invariant |
| Maxima.ScanToEnd | src/main/java/dulab/adap/common/algorithms/ContinuousWaveletTransform.java:193-213 | running the scan to its end keeps the scan invariant, now over the scan's result |
| Maxima.MaximaOfSpec | src/main/java/dulab/adap/common/algorithms/ContinuousWaveletTransform.java:174-218 | `MaximaOf` is pairwise separated by the radius, listed largest first (ties by decreasing position), and every position of the row is a maximum or suppressed by a maximum the scan reaches first: a larger value, or an equal value at a larger position |
| Maxima.MaximaOnUnique | src/main/java/dulab/adap/common/algorithms/ContinuousWaveletTransform.java:193-213 | two lists of maxima of the same set of positions, both separated, largest first and covering the set, are equal |
| Maxima.MaximaUnique | src/main/java/dulab/adap/common/algorithms/ContinuousWaveletTransform.java:174-218 | those properties determine the maxima: any list that has them is `MaximaOf` |
| Maxima.ScanSorted | src/main/java/dulab/adap/common/algorithms/ContinuousWaveletTransform.java:189-216 | the scan over the sorted positions with its `remain` flags returns exactly `Scan` of them, with the properties of `MaximaOfSpec` |
| Maxima.FindMaximaForThisScale | src/main/java/dulab/adap/common/algorithms/ContinuousWaveletTransform.java:174-218 | the maxima are exactly `MaximaOf` of the row: positions of the row, pairwise at least `removeCutOff` apart, listed largest first, and every other position suppressed by a maximum the scan reaches first (a larger value, or an equal value at a larger position). So ties go to the larger position: on `[0.0, 0.0]` the result is `[1]` |
| Ridgelines.IndexTolFromScale | src/main/java/dulab/adap/datamodel/Ridgeline.java:172-183 | `findIndexTolFromScale`: the index tolerance equals the scale |
| Ridgelines.IndexTol | src/main/java/dulab/adap/datamodel/Ridgeline.java:101 | the tolerance is `findIndexTolFromScale(scale)` rounded |
| Ridgelines.IndexTolMonotone | src/main/java/dulab/adap/datamodel/Ridgeline.java:101 | the rounded tolerance never shrinks as the scale grows |
| Ridgelines.SameScaleDistance | src/main/java/dulab/adap/datamodel/Ridgeline.java:105-110 | the "have this scale already" test is reflexive and symmetric, and holds exactly when the scales differ by at most `EPSILON` |
| Ridgelines.TryAdd | src/main/java/dulab/adap/datamodel/Ridgeline.java:95-170 | `tryAddPoint`'s four branches on a ridge value: the result stays well formed with the same scale-axis size; an accepted point becomes the last point (within `EPSILON` of the offered scale, with the offered index and correlation); a rejected one leaves every recorded point as it was |
| Ridgelines.TryAddShape | src/main/java/dulab/adap/datamodel/Ridgeline.java:95-170 | `tryAddPoint` keeps the lists parallel and non-empty and `totalNumberOfScales` unchanged; the ridge grows by at most one point, and only when the point is accepted |
| Ridgelines.TryAddKeepsEarlierPoints | src/main/java/dulab/adap/datamodel/Ridgeline.java:95-170 | the recorded scales are only ever extended, and every index and correlation before the last is left unchanged |
| Ridgelines.TryAddNewScale | src/main/java/dulab/adap/datamodel/Ridgeline.java:111-126 | at a new scale the point is appended and the gap reset exactly when the index is closer than `2 * indexTol`; otherwise the gap counter grows by one |
| Ridgelines.TryAddSameScaleLonger | src/main/java/dulab/adap/datamodel/Ridgeline.java:134-155 | at the same scale on a ridge of several points, the last point is replaced exactly when the new index is closer to the one before it |
| Ridgelines.TryAddSameScaleSingle | src/main/java/dulab/adap/datamodel/Ridgeline.java:156-169 | at the same scale on a one-point ridge, the point is replaced exactly when it is within tolerance and has the larger correlation |
| Ridgelines.TryAddKeepsDecreasing | src/main/java/dulab/adap/datamodel/Ridgeline.java:108-118 | offering a scale no larger than the last recorded one keeps the recorded scales strictly decreasing, with the last still no smaller than the offered scale |
| Ridgelines.FirstMaxPosition | src/main/java/dulab/adap/datamodel/Ridgeline.java:61-84 | the position of the first largest correlation: no earlier value is as large and no value is larger |
| Ridgelines.MaxCorSeededAtZero | src/main/java/dulab/adap/datamodel/Ridgeline.java:85-94 | the largest correlation, or 0.0 when every correlation is negative |
| Ridgelines.MaxCorVersusBestPoint | src/main/java/dulab/adap/datamodel/Ridgeline.java:61-94 | `getMaxCor` is the best point's correlation when that is positive, and 0.0 otherwise |
| Ridgelines.Ridgeline.constructor | src/main/java/dulab/adap/datamodel/Ridgeline.java:38-47 | a one-point ridge with gap counter 0 and the given number of scales |
| Ridgelines.Ridgeline.GetRunningGapNum | src/main/java/dulab/adap/datamodel/Ridgeline.java:48-50 | the gap counter |
| Ridgelines.Ridgeline.GetRidgeLength | src/main/java/dulab/adap/datamodel/Ridgeline.java:51-53 | the number of recorded points, at least one |
| Ridgelines.Ridgeline.GetBestIndex | src/main/java/dulab/adap/datamodel/Ridgeline.java:61-72 | the index at the first position of largest correlation |
| Ridgelines.Ridgeline.GetBestScale | src/main/java/dulab/adap/datamodel/Ridgeline.java:73-84 | the scale at that same position |
| Ridgelines.Ridgeline.GetMaxCor | src/main/java/dulab/adap/datamodel/Ridgeline.java:85-94 | the maximum of 0.0 and all correlations |
| Ridgelines.Ridgeline.TryAddPoint | src/main/java/dulab/adap/datamodel/Ridgeline.java:95-170 | the result and the new state are those of `TryAdd` on the old state, which the lemmas above characterise case by case |
| ScaleSpace.BuildScaleAxis | src/main/java/dulab/adap/common/algorithms/ContinuousWaveletTransform.java:68-73 | the scales are `smallScale + k * incrementScale`, all at most `largeScale`, the next one above it, strictly ascending, and the map sends each scale to its position and nothing else |
| ScaleSpace.ScaleStepDecreases | src/main/java/dulab/adap/common/algorithms/ContinuousWaveletTransform.java:68 | with a positive increment the number of remaining steps drops at every iteration, so the loop ends |
| ScaleSpace.IntegrationWindow | src/main/java/dulab/adap/common/algorithms/ContinuousWaveletTransform.java:249-256 | the window is the rounded reach `5 * scale + 1` on each side, truncated to `[0, N-1]`; it contains a centre inside the signal |
| Wavelet.TryAddKeepsTracked | src/main/java/dulab/adap/common/algorithms/ContinuousWaveletTransform.java:146-158 | offering a point of a smaller scale of the axis, at an index inside the signal, keeps a ridge well formed: scales strictly decreasing and on the axis, indices inside the signal |
| Wavelet.PeakBounds | src/main/java/dulab/adap/common/algorithms/ContinuousWaveletTransform.java:93-100 | the bounds are the best index minus and plus the rounded scale, clipped to `[0, N-1]` |
| Wavelet.PeakRegion | src/main/java/dulab/adap/common/algorithms/ContinuousWaveletTransform.java:88-104 | the region `findBoundries` records for one ridge: bounds clipped to `[0, N-1]` and a coefficient that is never negative and at least every correlation of the ridge |
| Wavelet.PeakRegionContainsBest | src/main/java/dulab/adap/common/algorithms/ContinuousWaveletTransform.java:88-100 | for a well-formed ridge, `0 <= left <= bestIndex <= right <= N-1` |
| Wavelet.Filtered | src/main/java/dulab/adap/common/algorithms/ContinuousWaveletTransform.java:111-128 | the ridges `filterRidgelines` keeps: no more than there were, each one of the old ridges and `LongEnough` (at least `totalNumberOfScales - 3` points) |
| Wavelet.FilteredMembers | src/main/java/dulab/adap/common/algorithms/ContinuousWaveletTransform.java:111-128 | a ridge survives filtering exactly when it was present and has at least `totalNumberOfScales - 3` points, and filtering never adds ridges |
| Wavelet.FilteredConcat | src/main/java/dulab/adap/common/algorithms/ContinuousWaveletTransform.java:114-126 | filtering a concatenation is filtering each part and concatenating the results |
| Wavelet.FilteredAllLongEnough | src/main/java/dulab/adap/common/algorithms/ContinuousWaveletTransform.java:111-128 | a list whose ridges are all long enough is its own filtered list |
| Wavelet.FilteredIdempotent | src/main/java/dulab/adap/common/algorithms/ContinuousWaveletTransform.java:111-130 | filtering twice is filtering once |
| Wavelet.FilteredDistinct | src/main/java/dulab/adap/common/algorithms/ContinuousWaveletTransform.java:111-128 | filtering a list of distinct objects gives distinct objects |
| Wavelet.OfferAll | src/main/java/dulab/adap/common/algorithms/ContinuousWaveletTransform.java:147-158 | every ridge is offered the point once, in list order, giving one value per ridge (`AnyAccepts` says whether some ridge accepted) |
| Wavelet.OfferAllEffect | src/main/java/dulab/adap/common/algorithms/ContinuousWaveletTransform.java:147-158 | after the offer, the ridges that accepted the point end at it and the others keep all their points |
| Wavelet.OfferPoint | src/main/java/dulab/adap/common/algorithms/ContinuousWaveletTransform.java:147-168 | one maximum linked: at most one ridge is added, exactly when no ridge accepted the point, and it is a one-point ridge at the point with gap counter 0 and the given number of scales |
| Wavelet.AcceptedEndsAt | src/main/java/dulab/adap/datamodel/Ridgeline.java:95-170 | a ridge that accepts a point ends with exactly that point |
| Wavelet.OfferPointRecords | src/main/java/dulab/adap/common/algorithms/ContinuousWaveletTransform.java:146-168 | after one maximum has been offered, some ridge ends at that maximum: one that accepted it, or the new ridge |
| Wavelet.OfferPointKeepsTracked | src/main/java/dulab/adap/common/algorithms/ContinuousWaveletTransform.java:146-168 | offering a maximum of a smaller scale keeps a suffix of well-formed ridges well formed, new ridge included |
| Wavelet.LinkScale | src/main/java/dulab/adap/common/algorithms/ContinuousWaveletTransform.java:146-169 | the loop over the maxima of one scale, after `count` of them have been linked: no ridge is removed (`LinkScaleKeepsTracked` bounds the growth and `LinkScaleExtends` shows the ridges continued) |
| Wavelet.LinkScaleKeepsTracked | src/main/java/dulab/adap/common/algorithms/ContinuousWaveletTransform.java:143-169 | linking the first `count` maxima of one scale keeps the ridges from `start` on well formed, with no last scale below this scale; no ridge is removed and at most `count` are added |
| Wavelet.ExtendsTransitive | src/main/java/dulab/adap/datamodel/Ridgeline.java:95-170 | continuing a ridge twice continues it |
| Wavelet.ExtendsAllTransitive | src/main/java/dulab/adap/common/algorithms/ContinuousWaveletTransform.java:137-170 | losing and shortening no ridge twice loses and shortens none |
| Wavelet.OfferedExtends | src/main/java/dulab/adap/datamodel/Ridgeline.java:95-170 | offering a point to a ridge continues it: the recorded scales are only extended, every point before the last is kept, and the scale-axis size is kept |
| Wavelet.OfferPointExtends | src/main/java/dulab/adap/common/algorithms/ContinuousWaveletTransform.java:146-168 | offering one maximum to all ridges loses and shortens none of them, and every ridge stays well formed |
| Wavelet.LinkScaleExtends | src/main/java/dulab/adap/common/algorithms/ContinuousWaveletTransform.java:143-169 | linking the first `count` maxima of one scale loses and shortens no ridge |
| Wavelet.StepDown | src/main/java/dulab/adap/common/algorithms/ContinuousWaveletTransform.java:137-138 | on an ascending axis, ridges whose last scale is at least axis scale `i + 1` are ready to be offered axis scale `i` |
| Wavelet.ScaleMaxima | src/main/java/dulab/adap/common/algorithms/ContinuousWaveletTransform.java:137-143 | the table of the maxima `findMaximaForThisScale` selects at each axis scale, one row of positions per scale, each inside its coefficient row |
| Wavelet.LinkScaleOf | src/main/java/dulab/adap/common/algorithms/ContinuousWaveletTransform.java:138-169 | one iteration of the scale loop: the maxima `MaximaOf` selects from row `i` for axis scale `i` are linked; no ridge is removed |
| Wavelet.LinkRows | src/main/java/dulab/adap/common/algorithms/ContinuousWaveletTransform.java:137-170 | the scale loop from the last axis scale down to `i`, linking row `j` of a table of maxima at scale `j`; no ridge is removed (`LinkRowsTracked` and `LinkRowsExtend` state what it keeps) |
| Wavelet.LinkScalesDownTo | src/main/java/dulab/adap/common/algorithms/ContinuousWaveletTransform.java:137-170 | the scale loop down to scale `i` with the maxima of each scale (`LinkRows` over `ScaleMaxima`); no ridge is removed |
| Wavelet.LinkRowTracked | src/main/java/dulab/adap/common/algorithms/ContinuousWaveletTransform.java:137-169 | one scale visited after the larger ones keeps the ridges created since the start tracked, now with none ending below that scale: every last scale is at least that scale |
| Wavelet.LinkRowsTracked | src/main/java/dulab/adap/common/algorithms/ContinuousWaveletTransform.java:137-170 | over an ascending axis, whatever maxima each scale contributes, the ridges the scale loop creates have strictly decreasing scales from the axis and indices inside the signal, and none ends below the last scale visited (every last scale is at least that scale); before any scale is visited none is created |
| Wavelet.LinkRowsExtend | src/main/java/dulab/adap/common/algorithms/ContinuousWaveletTransform.java:137-170 | whatever maxima each scale contributes, the scale loop loses and shortens no ridge, and all ridges stay well formed |
| Wavelet.FilledStep | src/main/java/dulab/adap/common/algorithms/ContinuousWaveletTransform.java:101-105 | writing the next ridge's value at position `count` extends the filled prefix by one and keeps the zero suffix |
| Wavelet.ContinuousWaveletTransform.constructor | src/main/java/dulab/adap/common/algorithms/ContinuousWaveletTransform.java:61-76 | keeps the given range and increment. The scales are `smallScale + k * incrementScale`, all at most `largeScale`, with the next one above it, and the class invariant ties the map to them. There are no ridges or coefficients yet |
| Wavelet.ContinuousWaveletTransform.ReturnAllCoefficients | src/main/java/dulab/adap/common/algorithms/ContinuousWaveletTransform.java:57-59 | the coefficient matrix held by the object |
| Wavelet.ContinuousWaveletTransform.SetSignal | src/main/java/dulab/adap/common/algorithms/ContinuousWaveletTransform.java:319-321 | replaces the signal and nothing else |
| Wavelet.ContinuousWaveletTransform.SetX | src/main/java/dulab/adap/common/algorithms/ContinuousWaveletTransform.java:322-330 | replaces the positions and nothing else that is modelled |
| Wavelet.ContinuousWaveletTransform.OfferToAll | src/main/java/dulab/adap/common/algorithms/ContinuousWaveletTransform.java:147-158 | every ridge is offered the point once, in order; `wasMatched` is true exactly when some ridge accepted it |
| Wavelet.ContinuousWaveletTransform.OfferToRidgelines | src/main/java/dulab/adap/common/algorithms/ContinuousWaveletTransform.java:147-168 | as `OfferToAll`; then exactly when no ridge accepted, one fresh one-point ridge is appended and the list is otherwise unchanged; the ridge values are `OfferPoint` of the old ones |
| Wavelet.ContinuousWaveletTransform.AddRidgeline | src/main/java/dulab/adap/common/algorithms/ContinuousWaveletTransform.java:167 | `ridgeLineArr.add`: the ridge is appended at the end, its value is appended to the ridge values, and the list stays free of duplicates |
| Wavelet.ContinuousWaveletTransform.LinkOne | src/main/java/dulab/adap/common/algorithms/ContinuousWaveletTransform.java:147-168 | iteration `j` of the maxima loop: the ridge values go from `LinkScale` over `j` maxima to `LinkScale` over `j + 1`. Earlier ridge objects keep their places, and every other ridge is a fresh object |
| Wavelet.ContinuousWaveletTransform.LinkMaxima | src/main/java/dulab/adap/common/algorithms/ContinuousWaveletTransform.java:146-169 | every maximum of the scale is offered in turn; the ridge values are `LinkScale` of the old ones, earlier ridge objects keep their places and every other ridge is a fresh object |
| Wavelet.ContinuousWaveletTransform.MaximaAt | src/main/java/dulab/adap/common/algorithms/ContinuousWaveletTransform.java:138-143 | looks up the coefficient row of axis scale `i` through `mapScaleToIndex`, which is row `i`, and returns `MaximaOf` of it, as `findMaximaForThisScale` selects them |
| Wavelet.ContinuousWaveletTransform.LinkScaleAt | src/main/java/dulab/adap/common/algorithms/ContinuousWaveletTransform.java:138-169 | one iteration of the scale loop: the new ridge values are `LinkScaleOf` the old ones, that is the maxima `MaximaOf` selects from row `i` for axis scale `i`, linked in the order they were selected. Earlier ridge objects keep their places, and every other ridge is a fresh object |
| Wavelet.ContinuousWaveletTransform.LinkAllScales | src/main/java/dulab/adap/common/algorithms/ContinuousWaveletTransform.java:137-170 | the scale loop, from the last axis scale down to the first: the new ridge values are `LinkScalesDownTo` of the old ones, the fold of `LinkScaleOf` over the scales. Earlier ridge objects keep their places, and every other ridge is a fresh object |
| Wavelet.ContinuousWaveletTransform.BuildRidgelines | src/main/java/dulab/adap/common/algorithms/ContinuousWaveletTransform.java:132-172 | the matrix is stored and the new ridge values are `LinkScalesDownTo` of the old ones: the scales are visited from largest to smallest and the maxima of each are linked. No ridge is lost or shortened. Existing ridge objects keep their places, and every other ridge is a fresh object. Every ridge created has strictly decreasing scales taken from the axis, with indices inside the signal |
| Wavelet.ContinuousWaveletTransform.FilterRidgelines | src/main/java/dulab/adap/common/algorithms/ContinuousWaveletTransform.java:111-130 | the new ridge list is `Filtered` of the old one: the long-enough ridges, in their order |
| Wavelet.ContinuousWaveletTransform.RidgeBounds | src/main/java/dulab/adap/common/algorithms/ContinuousWaveletTransform.java:88-100 | the left bound, right bound and best coefficient of one ridge are its `PeakRegion` |
| Wavelet.ContinuousWaveletTransform.RecordRegion | src/main/java/dulab/adap/common/algorithms/ContinuousWaveletTransform.java:102-104 | writes entry `count` of the three rows, so that one entry more of each row holds its intended value and the entries after it stay 0.0 |
| Wavelet.ContinuousWaveletTransform.FindBoundaries | src/main/java/dulab/adap/common/algorithms/ContinuousWaveletTransform.java:78-109 | three rows of length `N`. Entry `k` holds ridge `k`'s left bound, right bound and best coefficient. All later entries are 0.0 |
| Peaks.ComparePeakIndex | src/main/java/dulab/adap/datamodel/PeakInfo.java:99-115 | -1, 0 or 1 exactly when the first apex index is smaller, equal or larger |
| Peaks.ComparePeakIndexAntisymmetric | src/main/java/dulab/adap/datamodel/PeakInfo.java:99-115 | swapping the records negates the comparison |
| Peaks.ComparePeakIndexTransitive | src/main/java/dulab/adap/datamodel/PeakInfo.java:99-115 | the order is transitive |
| Peaks.MergeRecords | src/main/java/dulab/adap/datamodel/PeakInfo.java:117-146 | fails exactly on different m/z. Otherwise it keeps the m/z and takes the larger intensity with its apex, the second record's on a tie. The intervals are the hull of both, and every other field is zero |
| Peaks.MergeIsHull | src/main/java/dulab/adap/datamodel/PeakInfo.java:135-143 | the merged intervals cover both inputs' intervals and lie inside any interval that covers both |
| Peaks.MergeSymmetric | src/main/java/dulab/adap/datamodel/PeakInfo.java:117-146 | merge fails in both orders or in neither; it is symmetric except for the apex on an intensity tie |
| Peaks.MergeAssociative | src/main/java/dulab/adap/datamodel/PeakInfo.java:117-146 | merging three records of one m/z does not depend on grouping, except for the apex on intensity ties |
| Peaks.PeakInfo.constructor | src/main/java/dulab/adap/datamodel/PeakInfo.java:55 | every field zero |
| Peaks.PeakInfo.WithPeakIndex | src/main/java/dulab/adap/datamodel/PeakInfo.java:57-59 | every field zero except the given apex index |
| Peaks.PeakInfo.Copy | src/main/java/dulab/adap/datamodel/PeakInfo.java:61-79 | every field copied except `coeffOverArea`, which stays zero |
| Peaks.PeakInfo.Merged | src/main/java/dulab/adap/datamodel/PeakInfo.java:122-143 | the record `merge` builds: the given m/z, intensity, peak index and four bounds, with every other field zero |
| Peaks.PeakInfo.MzValue | src/main/java/dulab/adap/datamodel/PeakInfo.java:85-88 | sets the m/z, changes no other field, returns the receiver |
| Peaks.PeakInfo.PeakID | src/main/java/dulab/adap/datamodel/PeakInfo.java:90-93 | sets the id, changes no other field, returns the receiver |
| Peaks.PeakInfo.Compare | src/main/java/dulab/adap/datamodel/PeakInfo.java:99-106 | -1, 0 or 1 exactly when the first record's apex index is smaller, equal or larger; the receiver plays no part |
| Peaks.PeakInfo.CompareTo | src/main/java/dulab/adap/datamodel/PeakInfo.java:108-115 | agrees with `compare(this, info)` and is the negation of `info.compareTo(this)` |
| Peaks.PeakInfo.Merge | src/main/java/dulab/adap/datamodel/PeakInfo.java:117-146 | throws (a `Failure`) exactly on different m/z; otherwise a fresh record whose value is `MergeRecords` of the inputs |

## Left out

- Wavelet coefficients: `rickerWavelet`, `signalWaveletInnerProductOnePoint`'s sum, `getCoefficientsForAllScales` and `getCoefficientsForThisScale` are left out. They are floating-point numerics. `BuildRidgelines` takes the coefficient matrix as a parameter. Only the integer window of the sum is modelled (`IntegrationWindow`).
- `SetX`: does not model `avgXSpace`, the mean spacing of `x`. It is used only by the wavelet kernel, which is left out.
- Floating point in general: doubles are exact reals. So the constructor's scale axis holds the exact values `smallScale + k * incrementScale`, without the rounding of repeated addition. `mapScaleToIndex` is keyed by those exact values. NaN and infinities are not modelled.
- Java `int` overflow is not modelled: `2 * indexTol`, the gap counter, `Math.abs(Integer.MIN_VALUE)` and the rounding cast of huge scales.
- File output is not modelled: `writeRidgelines`, `writeMaximaLocations` and the other debug dumps, and `doubleTheNumberOfPts*`.
- `getRidgeStartScale`, `getRidgeEndScale` and the `toString` methods are left out. They are accessors and formatting that no modelled operation uses.
- `Math.java`, `Alignment.java`, `Peak.java` and `UseMsconvertCWT.java` are not part of this model.
- The `Serializable` and `Comparator`/`Comparable` interfaces are plumbing. Only the comparison functions themselves are modelled.
- ScaleSpace.BuildScaleAxis: requires a positive increment, as does the `ContinuousWaveletTransform` constructor. With a zero or negative increment the Java loop never ends (or ends at once for `smallScale > largeScale`), and an everlasting loop is not modelled.
- Wavelet.ContinuousWaveletTransform.constructor: requires a positive increment for the same reason, since it runs that loop to build the scale axis.
- Maxima.FindMaximaForThisScale: the right-hand bound of the suppression uses the row length instead of `x.length`. `BuildRidgelines` requires every row to have length `|x|`, so the two are equal.
- IndexSort.SortIndices: an insertion sort stands in for `Arrays.sort`, and `SortedUnique` shows that any stable sort of the identity array, the only array the code sorts, gives the same array. Java's comparator would throw on out-of-range indices, while the model requires indices in range.
- Wavelet.ContinuousWaveletTransform.BuildRidgelines: states well-formedness (decreasing scales on the axis, indices inside the signal) only for the ridges it creates. Ridges present before the call are only shown to be continued, each one keeping its points before the last.
- Wavelet.ContinuousWaveletTransform.FindBoundaries: requires at most `N` ridges. With more, Java's `boundsAndBestCoef[0][count]` throws `ArrayIndexOutOfBoundsException`, and the model does not model that exception.
- The boundary rows are padded to `N` entries with zeros, as the code does. A reader of the output cannot tell a padding zero from a ridge at 0. A stricter design that returns one region per ridge and validates inputs first is not what the code does, and the model follows the code.
