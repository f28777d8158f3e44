# Statistical edge detection and phantom layer bookkeeping, in Dafny

This project models the core of a Python repository. The repository does two things:

- It reproduces a statistical edge detector (Williams et al., 2014).
- It provides a small editor for building retinal-layer phantom images.

The edge-detection part (`williams_2014_edge_detection/`) takes a grayscale image. For every interior pixel and every orientation of a dual-region mask, it compares the two half-neighbourhoods with seven statistics (DoB, T, F, L, U, KS, v2). It keeps:

- the best value of each statistic over all orientations;
- the orientation whose seven-value mean is first strictly largest.

Each response map is then min–max normalised to 8 bits and thinned by non-maximum suppression along the shared angle map. Next comes a sweep of hysteresis thresholds, each result scored against a one-line ground truth with a greedy localisation metric (PCM). Each statistic's best score is collected over Monte Carlo iterations, and the collected scores are summarised by mean and sample standard deviation.

The phantom part (`phantom/`, `scripts/`) does three things:

- drags layers vertically on a canvas;
- exports each layer's offset and upper boundary;
- rebuilds the composite from the exported positions.

Modules, one per source file:

| module | file | source | form |
|---|---|---|---|
| `Util` | `util.dfy` | (shared) | grids as `seq<seq<T>>`, `Option`, clipping |
| `Masks` | `masks.dfy` | `masks.py` | pure functions and lemmas |
| `StatsTests` | `stats_tests.dfy` | `stats_tests.py` | pure functions and lemmas |
| `NmsAndThresh` | `nms_and_thresh.dfy` | `nms_and_thresh.py` | a loop-filled output grid proved against `Nms` |
| `Metrics` | `metrics.dfy` | `metrics.py` | a matching loop over a `matched` array proved against `Greedy` |
| `Processing` | `processing.dfy` | `processing.py` | nested loops over `array3`/`array2` response and angle maps, proved against grid functions |
| `Saving` | `saving.dfy` | `saving.py` | the attempt scan as a loop; names and binarisation as functions |
| `Layer` | `layer.dfy` | `phantom/layer.py` | class `LayerItem` |
| `Editor` | `editor.dfy` | `phantom/editor.py` | class `LayerEditorApp` with its drag state |
| `BuildPhantom` | `build_phantom.dfy` | `scripts/build_phantom_from_json.py` | a placement loop proved against `Placements` |

Modelling choices:

- **Floating point.**
  - Pixel values and statistics are `real`.
  - NaN is `Option.None`: an undefined angle, an empty-sample mean, the best score of an empty sweep.
  - Python's `round` (ties to even) is modelled exactly.
  - The `uint8` casts truncate.
  - `1e-9` and `1e-12` are the source's constants as exact rationals.
- **Collaborators.** What has no exact model is a parameter: a datatype of function values grouped as `Collaborators` and `StatsLib`. This covers:
  - the normal `(cos θ, sin θ)` of an angle;
  - `sqrt` and `log` (for T, L and the standard deviation);
  - `mannwhitneyu` and `ks_2samp`, returning `None` when they raise;
  - the Gaussian noise draw;
  - skimage's hysteresis connectivity and `thin`.

  The laws required of them are collected in `Valid()` predicates (for example, that `sqrt` is non-negative).
- **Constants.** `HIGHS`, `LOW_RATIO`, `G_PCM` and `N_CHI_BINS` from `constants.py` are constants of `Processing`.
- **Phantom part.**
  - Images are values, so `pil_image` and `original_image` are two equal values.
  - Loading a PNG is a parameter that gives the loaded image's height, or nothing when loading fails.
  - The composite is described by its list of placements rather than by pixels.
- **Saving.** Filenames are strings (`seq<char>`). Directory listings and the CSV writer's success are parameters.

## Model

| member | source | states |
|---|---|---|
| Util.ClipReal | williams_2014_edge_detection/nms_and_thresh.py:33-34 | `np.clip` stays within [lo, hi] and leaves a value already in range unchanged |
| Masks.MakeDualRegionMask | williams_2014_edge_detection/masks.py:10-27 | both masks are S×S; no pixel is in both; for odd S the centre is in neither; a pixel on the splitting line (zero dot product) is in neither |
| Masks.DotReflects | williams_2014_edge_detection/masks.py:15-22 | reflecting a pixel through the centre negates its dot product with the normal |
| Masks.MaskReflection | williams_2014_edge_detection/masks.py:15-26 | pixel (y, x) is in A exactly when (S−1−y, S−1−x) is in B, and vice versa, for every S and every normal |
| Masks.AngleZeroSplit | williams_2014_edge_detection/masks.py:20-26 | for normal (1, 0) and odd S, A is exactly the columns right of centre and B exactly those left of it |
| Masks.AngleZeroBothNonEmpty | tests/test_masks_and_stats.py:6-14 | for S = 5 and angle 0 both masks are non-empty |
| StatsTests.TestIndex | williams_2014_edge_detection/processing.py:36 | every statistic has its position in the fixed order DoB, T, F, L, U, KS, v2 |
| StatsTests.TestIndexOf | williams_2014_edge_detection/processing.py:36 | positions and statistics are inverse to each other |
| StatsTests.Stats.Values | williams_2014_edge_detection/stats_tests.py:65-73 | the dictionary's values are the seven statistics in insertion order |
| StatsTests.MeanBounds | williams_2014_edge_detection/processing.py:169 | the mean of values within [lo, hi] is within [lo, hi] |
| StatsTests.SumSqDev | williams_2014_edge_detection/stats_tests.py:25-26 | the sum of squared deviations is non-negative |
| StatsTests.SampleVariance | williams_2014_edge_detection/stats_tests.py:25-26 | the variance is 0 for at most one value, and otherwise the sum of squared deviations over n−1; it is never negative |
| StatsTests.ConstantSample | williams_2014_edge_detection/stats_tests.py:22-25 | a constant sample has that constant as mean and variance 0 |
| StatsTests.TStat | williams_2014_edge_detection/stats_tests.py:25-30 | Welch's t magnitude is never negative, and it is zero exactly when the two means agree |
| StatsTests.TSymmetric | williams_2014_edge_detection/stats_tests.py:25-30 | T is unchanged when the two regions are exchanged |
| StatsTests.LStat | williams_2014_edge_detection/stats_tests.py:41-42 | L is 0 for two empty samples, and for equal variances (ratio 1) it is −(na + nb)·log(4 + ε) |
| StatsTests.LSizesSymmetric | williams_2014_edge_detection/stats_tests.py:41-42 | L depends on the sample sizes only through na + nb |
| StatsTests.FStat | williams_2014_edge_detection/stats_tests.py:32-68 | F is 1 when both variances are 0; max(sa, sb)·1000 (the non-finite fallback) when only sb is 0; max(sa/(sb+ε), sb/(sa+ε)) otherwise; always positive |
| StatsTests.FSymmetric | williams_2014_edge_detection/stats_tests.py:33-38 | F is symmetric when both variances are positive or both are zero |
| StatsTests.FAsymmetricWhenOneVarianceIsZero | williams_2014_edge_detection/stats_tests.py:35-68 | F is not symmetric when exactly one variance is zero: F(1, 0) = 1000 but F(0, 1) = 1/ε |
| StatsTests.OrZero | williams_2014_edge_detection/stats_tests.py:45-56 | U and KS fall back to 0.0 when the library call raises |
| StatsTests.Bin | williams_2014_edge_detection/stats_tests.py:59-60 | a value in [0, 255] falls into one of n equal-width bins, and 255 into the last |
| StatsTests.Histogram | williams_2014_edge_detection/stats_tests.py:59-60 | the histogram has one count per bin |
| StatsTests.HistogramTotal | williams_2014_edge_detection/stats_tests.py:59-60 | the counts add up to the number of values inside the range |
| StatsTests.HistogramConstant | williams_2014_edge_detection/stats_tests.py:59-60 | a constant sample puts all its values in the bin of that constant |
| StatsTests.ChiTerm | williams_2014_edge_detection/stats_tests.py:61-63 | each (R−S)²/(R+S) term, skipped when R+S = 0, is non-negative |
| StatsTests.ChiSquare | williams_2014_edge_detection/stats_tests.py:61-63 | the masked sum of bins is non-negative |
| StatsTests.ChiSquareSymmetric | williams_2014_edge_detection/stats_tests.py:61-63 | exchanging the two histograms does not change the sum |
| StatsTests.ChiSquareEqualIsZero | williams_2014_edge_detection/stats_tests.py:61-63 | equal histograms give 0 |
| StatsTests.V2Stat | williams_2014_edge_detection/stats_tests.py:59-63 | v2 is non-negative |
| StatsTests.V2Symmetric | williams_2014_edge_detection/stats_tests.py:59-63 | v2 is symmetric in A and B |
| StatsTests.V2SameHistogram | williams_2014_edge_detection/stats_tests.py:59-63 | v2 is 0 when both samples have the same histogram |
| StatsTests.ComputeTestsRegion | williams_2014_edge_detection/stats_tests.py:6-73 | an empty sample gives exactly {DoB 0, T 0, F 1, L 0, U 0, KS 0, v2 0}; otherwise DoB = \|mean A − mean B\|, T is TStat and L is LStat of the two sample variances, and F, U, KS and v2 are as above; DoB ≥ 0, T ≥ 0, F > 0, v2 ≥ 0 |
| StatsTests.ConstantSamplesExample | tests/test_masks_and_stats.py:17-23 | for A = four 10s and B = four 20s, DoB = 10, F = 1 and v2 = 8 (two bins of 4) |
| NmsAndThresh.Neighbour | williams_2014_edge_detection/nms_and_thresh.py:24-25 | a neighbour is read only inside the image; outside it counts as −∞ (no value) |
| NmsAndThresh.NmsAt | williams_2014_edge_detection/nms_and_thresh.py:15-27 | an output pixel is the input value or 0; 0 for an undefined angle; the input value exactly when it is ≥ both in-bounds neighbours along the step |
| NmsAndThresh.Nms | williams_2014_edge_detection/nms_and_thresh.py:10-28 | the output has the input's shape, and each pixel is decided by NmsAt |
| NmsAndThresh.NonMaxSuppression | williams_2014_edge_detection/nms_and_thresh.py:5-28 | the loop over rows and columns that fills the zero-initialised output computes Nms |
| NmsAndThresh.OutOfBoundsNeverSuppresses | williams_2014_edge_detection/nms_and_thresh.py:24-26 | a pixel whose two neighbours are both outside the image keeps its value |
| NmsAndThresh.GlobalMaximumKept | williams_2014_edge_detection/nms_and_thresh.py:23-27 | a global maximum with a defined angle keeps its value |
| NmsAndThresh.DominatedSuppressed | williams_2014_edge_detection/nms_and_thresh.py:24-27 | a pixel below an in-bounds neighbour along its step is set to 0 |
| NmsAndThresh.NmsIdempotent | williams_2014_edge_detection/nms_and_thresh.py:13-28 | for non-negative responses and a fixed angle map, suppressing twice equals suppressing once |
| NmsAndThresh.IsolatedPeakKept | tests/test_nms_and_metrics.py:6-12 | a single peak of 10 with angle 0 keeps its value, and every other pixel is 0 |
| NmsAndThresh.HysteresisAndBinary | williams_2014_edge_detection/nms_and_thresh.py:31-36 | the result has the input's shape and holds only 0 and 1 |
| NmsAndThresh.ThresholdsClamped | williams_2014_edge_detection/nms_and_thresh.py:33-34 | clipping the thresholds to [0, 255] first changes nothing, since the function clips them itself |
| Metrics.RowNonzero | williams_2014_edge_detection/metrics.py:8-9 | the set pixels of one row, in increasing column order |
| Metrics.NonzeroRows | williams_2014_edge_detection/metrics.py:8-9 | the set pixels of the first n rows, in row-major order |
| Metrics.Nonzero | williams_2014_edge_detection/metrics.py:8-9 | `np.nonzero`: only set pixels, strictly in row-major order |
| Metrics.NonzeroComplete | williams_2014_edge_detection/metrics.py:8-9 | every set pixel is listed |
| Metrics.Choose | williams_2014_edge_detection/metrics.py:19-22 | the claimed ground-truth pixel is an unmatched one within distance g (squared distance ≤ g²) and at minimal distance, the first such in list order; there is none exactly when no candidate exists |
| Metrics.Greedy | williams_2014_edge_detection/metrics.py:16-24 | one flag per ground-truth pixel, and at most one match per detected pixel |
| Metrics.GreedyCountsClaimed | williams_2014_edge_detection/metrics.py:16-24 | the match count equals the number of claimed ground-truth pixels, so each is claimed at most once and matches ≤ min(\|det\|, \|gt\|) |
| Metrics.Pcm | williams_2014_edge_detection/metrics.py:4-27 | PCM is in [0, 100]; it is 100 when both maps are empty and 0 when exactly one is |
| Metrics.Percentage | williams_2014_edge_detection/metrics.py:25-26 | 100·matches/denominator is in [0, 100], and it is 100 exactly when every pixel matched |
| Metrics.ComputePcmBinary | williams_2014_edge_detection/metrics.py:4-27 | the method with its early returns computes Pcm |
| Metrics.MatchGreedily | williams_2014_edge_detection/metrics.py:16-24 | the loop over detected pixels, which updates the `matched_gt` array, counts the matches of Greedy |
| Metrics.GreedySelf | williams_2014_edge_detection/metrics.py:18-24 | matching a pixel list against itself (g ≥ 0) pairs each pixel with itself |
| Metrics.ChooseSelf | williams_2014_edge_detection/metrics.py:19-22 | an unmatched pixel claims itself, at distance 0 |
| Metrics.IdenticalMapsScoreFull | williams_2014_edge_detection/metrics.py:8-27 | two identical maps score 100 for every g ≥ 0 |
| Metrics.SinglePixelExample | tests/test_nms_and_metrics.py:23-29 | two identical single-pixel 5×5 maps score exactly 100 with g = 1 |
| Processing.Highs | williams_2014_edge_detection/constants.py:27 | HIGHS is the 12 values 240, 220, …, 20 |
| Processing.HighsInRange | williams_2014_edge_detection/processing.py:135-137 | the sweep's thresholds strictly decrease, and clipping leaves each high and its low = 0.4·high unchanged |
| Processing.GroundTruth | williams_2014_edge_detection/processing.py:32-34 | the ground truth is 1 on every pixel of row H // 2 and 0 elsewhere |
| Processing.GroundTruthPixels | williams_2014_edge_detection/processing.py:32-34 | its set pixels are exactly (H // 2, 0), …, (H // 2, W−1), in that order |
| Processing.Angles | williams_2014_edge_detection/processing.py:50-53 | 12 angles for mask size 5 and 20 otherwise; angle k is 180·k/n |
| Processing.AnglesInHalfTurn | williams_2014_edge_detection/processing.py:50-53 | every angle is in [0, 180), in increasing order |
| Processing.PerturbedImage | williams_2014_edge_detection/processing.py:41-45 | the perturbed image is again an 8-bit image of the same shape; with at most one iteration it is the image itself |
| Processing.NoisyPixel | williams_2014_edge_detection/processing.py:43 | clip-then-truncate gives a value in [0, 255], and the floor of value plus noise when that sum is in range |
| Processing.Patch | williams_2014_edge_detection/processing.py:69 | the patch around an interior pixel is (2·half+1) square |
| Processing.MaxPrefix | williams_2014_edge_detection/processing.py:67-78 | the maximum of the first n values bounds them all and is one of them |
| Processing.FirstMaxIndex | williams_2014_edge_detection/processing.py:79-81 | the first index of the strictly largest value: no value exceeds it and every earlier value is smaller |
| Processing.AngleSeries | williams_2014_edge_detection/processing.py:70-74 | one statistics record per angle, taken over the two masked halves of the patch |
| Processing.StatSeries | williams_2014_edge_detection/processing.py:75-76 | one statistic's value at every angle |
| Processing.AvgSeries | williams_2014_edge_detection/processing.py:79 | the seven-value mean at every angle |
| Processing.RespValue | williams_2014_edge_detection/processing.py:55-84 | a border entry of every response map is 0 (its interior value is stated by ResponseIsMaxOverAngles) |
| Processing.AngleValue | williams_2014_edge_detection/processing.py:55-84 | the angle map is defined exactly at interior pixels, and each defined entry is an angle in [0, 180) |
| Processing.ResponseIsMaxOverAngles | williams_2014_edge_detection/processing.py:67-83 | each interior response is the maximum of its statistic over all angles and is attained at some angle |
| Processing.AngleIsFirstBestMean | williams_2014_edge_detection/processing.py:79-84 | the stored angle is the first whose seven-value mean is greater than every earlier one and not exceeded by any later one, so ties keep the earlier angle |
| Processing.RespGrid | williams_2014_edge_detection/processing.py:55-83 | the response map of one statistic has the image's shape |
| Processing.AngleGrid | williams_2014_edge_detection/processing.py:56-84 | the angle map has the image's shape |
| Processing.RoundHalfEven | williams_2014_edge_detection/nms_and_thresh.py:21-22 | `round` gives an integer within 0.5, and the even one on a tie |
| Processing.RoundHalfEvenUnique | williams_2014_edge_detection/nms_and_thresh.py:21-22 | that integer is unique, so RoundHalfEven is Python's `round` |
| Processing.RoundHalfEvenTies | williams_2014_edge_detection/nms_and_thresh.py:21-22 | round(0.5) = 0, round(−0.5) = 0, round(1.5) = 2 |
| Processing.RoundUnitInterval | williams_2014_edge_detection/nms_and_thresh.py:21-22 | a value in [−1, 1] rounds to −1, 0 or 1 |
| Processing.StepOf | williams_2014_edge_detection/nms_and_thresh.py:18-22 | the step of an angle is (round(sin), round(cos)) of its normal |
| Processing.StepIsUnit | williams_2014_edge_detection/nms_and_thresh.py:18-22 | for a unit normal both step components are in {−1, 0, 1} |
| Processing.StepGrid | williams_2014_edge_detection/processing.py:132 | the angle map turned into steps: undefined exactly where the angle is, the angle's step elsewhere |
| Processing.RowArgMin | williams_2014_edge_detection/processing.py:127 | the index of a smallest entry of a row |
| Processing.RowArgMax | williams_2014_edge_detection/processing.py:127 | the index of a largest entry of a row |
| Processing.GridArgMin | williams_2014_edge_detection/processing.py:127 | the position of a smallest entry of the grid |
| Processing.GridArgMax | williams_2014_edge_detection/processing.py:127 | the position of a largest entry of the grid |
| Processing.GridMin | williams_2014_edge_detection/processing.py:127 | `nanmin`: bounds every entry from below and is one of them |
| Processing.GridMax | williams_2014_edge_detection/processing.py:127 | `nanmax`: bounds every entry from above and is one of them |
| Processing.NormPixel | williams_2014_edge_detection/processing.py:130-131 | floor((r − min)/(max − min)·255) is in [0, 255]; the minimum gives 0; the result is 255 exactly at the maximum |
| Processing.NormPixelMonotone | williams_2014_edge_detection/processing.py:131 | normalisation preserves order |
| Processing.Normalize | williams_2014_edge_detection/processing.py:127-131 | all zeros when max − min < 1e-9, the scaled value at every pixel otherwise; every entry is in [0, 255] |
| Processing.NormalizeRange | williams_2014_edge_detection/processing.py:127-131 | the minimum maps to 0, exactly the maximum maps to 255, and order is preserved |
| Processing.ThinMap | williams_2014_edge_detection/processing.py:138 | the thinned map has the input's shape and holds only 0 and 1 |
| Processing.ThinBinary | williams_2014_edge_detection/processing.py:136-138 | hysteresis with low = 0.4·high and then thinning keep the shape |
| Processing.Sweep | williams_2014_edge_detection/processing.py:135-141 | one PCM per threshold of HIGHS, each in [0, 100] |
| Processing.ScoreThreshold | williams_2014_edge_detection/processing.py:136-140 | one sweep step computes the thinned map and its PCM |
| Processing.ThresholdSweep | williams_2014_edge_detection/processing.py:133-141 | the loop that appends to `pcm_scores` computes Sweep |
| Processing.BestScore | williams_2014_edge_detection/processing.py:143 | `max(pcm_scores)`: undefined (NaN) exactly for an empty sweep, otherwise an upper bound of every score |
| Processing.BestIndex | williams_2014_edge_detection/processing.py:142 | `nanargmax`: 0 for an empty sweep, otherwise the first index of a largest score |
| Processing.BestIndexReachesBestScore | williams_2014_edge_detection/processing.py:142-143 | the best index holds the best score |
| Processing.MapScore | williams_2014_edge_detection/processing.py:126-143 | the best PCM of one response map after normalisation, suppression and the sweep is in [0, 100] |
| Processing.TestScore | williams_2014_edge_detection/processing.py:124-143 | one statistic's best PCM, using the angle map shared by all seven, is in [0, 100] |
| Processing.MaskScores | williams_2014_edge_detection/processing.py:124-144 | the seven best PCMs of one mask size, in test order |
| Processing.Initial | williams_2014_edge_detection/processing.py:37 | every (test, mask) list starts empty |
| Processing.Append | williams_2014_edge_detection/processing.py:144 | appending to one (test, mask) list leaves every other list unchanged |
| Processing.AppendTestsStep | williams_2014_edge_detection/processing.py:124-144 | the test loop appends one score more per test |
| Processing.MaskTable | williams_2014_edge_detection/processing.py:47-144 | one row of seven scores per mask size |
| Processing.McTables | williams_2014_edge_detection/processing.py:39-45 | one score table per Monte Carlo iteration |
| Processing.IterScores | williams_2014_edge_detection/processing.py:39-144 | the scores of one (test, mask) over the iterations, each computed on that iteration's perturbed image |
| Processing.IterScoresInRange | williams_2014_edge_detection/processing.py:140-144 | every collected score is in [0, 100] |
| Processing.Repeat | williams_2014_edge_detection/processing.py:47-144 | n copies of one score |
| Processing.AppendTestsMiss | williams_2014_edge_detection/processing.py:124-144 | the test loop does not touch lists of other masks or of later tests |
| Processing.AppendTestsHit | williams_2014_edge_detection/processing.py:124-144 | the test loop appends to each earlier test's list exactly that test's score |
| Processing.AppendAllTestsGet | williams_2014_edge_detection/processing.py:124-144 | one mask's pass appends each test's score to that mask's lists only |
| Processing.AppendMasksGet | williams_2014_edge_detection/processing.py:47-144 | one iteration appends its score to a (test, mask) list once per occurrence of the mask size in `mask_sizes` |
| Processing.RunTablesGet | williams_2014_edge_detection/processing.py:39-144 | after n iterations a list holds the first n iteration scores, each repeated per occurrence of the mask size |
| Processing.RunAllTables | williams_2014_edge_detection/processing.py:39-144 | the same for the whole loop |
| Processing.RunAllGet | williams_2014_edge_detection/processing.py:37-144 | `results[t][m]` holds the iteration scores of (t, m) in iteration order, repeated per occurrence of m in `mask_sizes` |
| Processing.RunAll | williams_2014_edge_detection/processing.py:37-144 | with no iteration every list is empty; otherwise `results[t][m]` for a listed m has n_mc scores per occurrence of m in `mask_sizes` |
| Processing.TablesHoldIterScores | williams_2014_edge_detection/processing.py:39-144 | every table holds the iteration's score for (t, m) at each position of m |
| Processing.McTablesEntry | williams_2014_edge_detection/processing.py:39-47 | table entry (mc, q) holds the scores of mask `ms[q]` on image mc |
| Processing.DistinctMaskSizeResults | williams_2014_edge_detection/processing.py:37-144 | with distinct mask sizes, `results[t][m]` is exactly one score per iteration, in order |
| Processing.SummaryOf | williams_2014_edge_detection/processing.py:168-176 | a summary row: the mean is NaN exactly for an empty list; the std is 0 for at most one score and the square root of the (n−1) sample variance otherwise; the std is never negative |
| Processing.SummaryFor | williams_2014_edge_detection/processing.py:167-176 | one row per mask size, in order, for one test |
| Processing.SummaryUpToLength | williams_2014_edge_detection/processing.py:165-176 | the first q tests give q·\|mask_sizes\| rows |
| Processing.SummaryUpToRows | williams_2014_edge_detection/processing.py:165-176 | every row belongs to one of the first q tests and a listed mask size, and summarises that list |
| Processing.SummaryUpToCovers | williams_2014_edge_detection/processing.py:165-176 | every (test, mask) pair of the first q tests has its row |
| Processing.SummaryContents | williams_2014_edge_detection/processing.py:165-177 | the summary has \|tests\|·\|mask_sizes\| rows, each summarising a listed pair, and covers every pair |
| Processing.Summary | williams_2014_edge_detection/processing.py:164-177 | the data frame has \|tests\|·\|mask_sizes\| rows |
| Processing.ResultsInRange | williams_2014_edge_detection/processing.py:39-144 | a collected list is empty exactly when n_mc = 0, and every score is in [0, 100] |
| Processing.RepeatedScores | williams_2014_edge_detection/processing.py:144 | repeating scores keeps them in range, and the list is empty only when the scores are |
| Processing.SummaryRowInRange | williams_2014_edge_detection/processing.py:168-170 | for scores in [0, 100] every mean is in [0, 100] and every std ≥ 0 |
| Processing.SummaryInRange | williams_2014_edge_detection/processing.py:164-177 | with n_mc ≥ 1 every summary mean is defined and in [0, 100]; with n_mc = 0 every mean is NaN; every std ≥ 0 |
| Processing.RunMax | williams_2014_edge_detection/processing.py:77-78 | the running maximum is defined after one value |
| Processing.Column | williams_2014_edge_detection/processing.py:75-76 | one statistic's column of a series of records |
| Processing.Means | williams_2014_edge_detection/processing.py:79 | the seven-value mean of each record |
| Processing.RunningBestIsMax | williams_2014_edge_detection/processing.py:67-78 | starting from −∞ and keeping strictly larger values gives the maximum |
| Processing.RunningAngleIsFirstMax | williams_2014_edge_detection/processing.py:68-81 | starting from None and replacing on a strictly larger mean gives the first largest mean and its angle |
| Processing.FirstMaxIndexSnoc | williams_2014_edge_detection/processing.py:80-81 | one more angle moves the first maximum only when its mean is strictly larger |
| Processing.UpdateBest | williams_2014_edge_detection/processing.py:75-78 | the test loop updates each running maximum |
| Processing.AngleStats | williams_2014_edge_detection/processing.py:71-74 | masking the patch and computing the statistics of one angle |
| Processing.AngleStep | williams_2014_edge_detection/processing.py:70-81 | one angle-loop step extends both running states by that angle's record |
| Processing.PixelSearch | williams_2014_edge_detection/processing.py:67-84 | the angle loop of one pixel gives every statistic's response and the pixel's angle |
| Processing.SearchResult | williams_2014_edge_detection/processing.py:82-84 | the final running state gives the maxima and the first best angle |
| Processing.SearchMeetsSpec | williams_2014_edge_detection/processing.py:67-84 | the loop's result agrees with RespValue and AngleValue |
| Processing.RespTargets | williams_2014_edge_detection/processing.py:55 | the seven target response maps, each of the image's shape |
| Processing.TargetsBorderBlank | williams_2014_edge_detection/processing.py:55-66 | the targets are 0 and undefined outside the interior |
| Processing.NothingScanned | williams_2014_edge_detection/processing.py:55-56 | the zero and NaN initialisation already agrees with the targets where nothing is written |
| Processing.SkipBorder | williams_2014_edge_detection/processing.py:65-66 | skipping border pixels keeps the maps in agreement with the targets |
| Processing.StorePixel | williams_2014_edge_detection/processing.py:82-84 | storing one pixel's results extends the agreement by that pixel |
| Processing.ScanPixel | williams_2014_edge_detection/processing.py:66-84 | scanning one interior pixel extends the agreement by that pixel |
| Processing.TargetsAtPixel | williams_2014_edge_detection/processing.py:82-84 | the target entries at a pixel are its response values and angle |
| Processing.ScanRow | williams_2014_edge_detection/processing.py:66-84 | scanning one interior row extends the agreement by that row |
| Processing.BuildResponseMaps | williams_2014_edge_detection/processing.py:55-84 | the nested pixel loops that fill the response maps and the angle map compute RespGrid for every test and AngleGrid |
| Processing.Layers | williams_2014_edge_detection/processing.py:55 | the seven layers of the response array as grids |
| Processing.FullScanReadsTargets | williams_2014_edge_detection/processing.py:65-84 | after the full scan the arrays hold exactly the targets |
| Processing.ProcessTest | williams_2014_edge_detection/processing.py:126-143 | one test's post-processing gives MapScore, and a best index that is the first index reaching it |
| Processing.PostProcess | williams_2014_edge_detection/processing.py:124-144 | the loop over the seven tests appends each best score to its list |
| Processing.MapsGiveMaskScores | williams_2014_edge_detection/processing.py:124-144 | post-processing the maps built for an image gives that image's MaskScores |
| Processing.ProcessMask | williams_2014_edge_detection/processing.py:47-144 | one mask size: build the maps, post-process them, and append the seven scores |
| Processing.MaskTableRow | williams_2014_edge_detection/processing.py:47 | row p of a table holds the scores of mask size `ms[p]` |
| Processing.RunIteration | williams_2014_edge_detection/processing.py:47-144 | one Monte Carlo iteration appends one table of scores, mask size by mask size |
| Processing.Summarize | williams_2014_edge_detection/processing.py:164-176 | the nested summary loops compute Summary |
| Processing.McTablesRow | williams_2014_edge_detection/processing.py:39-47 | table mc is computed on the image perturbed in iteration mc |
| Processing.McTablesOf | williams_2014_edge_detection/processing.py:39-47 | the iteration tables are those of each perturbed image |
| Processing.ProcessImage | williams_2014_edge_detection/processing.py:21-178 | `process_image` returns the ground truth of the image's shape and the summary of all collected scores |
| Processing.MonteCarlo | williams_2014_edge_detection/processing.py:39-144 | the Monte Carlo loop appends each iteration's table in order |
| Processing.MonteCarloStep | williams_2014_edge_detection/processing.py:40-47 | one iteration perturbs the image and appends its table |
| Saving.DigitChar | williams_2014_edge_detection/saving.py:31 | the digit character of d has value d |
| Saving.Decimal | williams_2014_edge_detection/saving.py:31-50 | `str(n)` is a non-empty digit string without a leading zero that reads back as n |
| Saving.Zeros | williams_2014_edge_detection/saving.py:31 | k zero characters |
| Saving.ZeroPad | williams_2014_edge_detection/saving.py:31 | left padding with zeros gives max(\|s\|, width) digits that end with s |
| Saving.LeadingZerosIgnored | williams_2014_edge_detection/saving.py:25 | `int()` ignores leading zeros |
| Saving.ZerosAreZero | williams_2014_edge_detection/saving.py:25 | a string of zeros reads as 0 |
| Saving.IntString | williams_2014_edge_detection/saving.py:50-74 | `f"{n}"` is a numeral that reads back as n, including negative n |
| Saving.Pad3 | williams_2014_edge_detection/saving.py:31-74 | `f"{n:03d}"` reads back as n and has at least 3 characters; exactly 3 digits for 0 ≤ n < 1000; the sign counts towards the width |
| Saving.PaddedValue | williams_2014_edge_detection/saving.py:31 | padding does not change the value |
| Saving.NumeralWidth | williams_2014_edge_detection/saving.py:31 | a number below 1000 has at most 3 digits |
| Saving.AttemptSuffix | williams_2014_edge_detection/saving.py:17-25 | a name matches exactly when it is the literal `prefix_` followed by a nonempty run of digits and at most one trailing newline (allowed by `$`); the number read is the value of those digits |
| Saving.SuffixOfAttemptName | williams_2014_edge_detection/saving.py:17-25 | `prefix_` plus digits, with or without a trailing newline, matches with the digits' value |
| Saving.MaxAttempt | williams_2014_edge_detection/saving.py:18-29 | the largest number does not fall below any matching directory's number |
| Saving.MaxAttemptAttained | williams_2014_edge_detection/saving.py:18-29 | the largest number is 0 or is some matching directory's number |
| Saving.MaxAttemptHit | williams_2014_edge_detection/saving.py:21-27 | a matching directory raises the maximum to its number |
| Saving.MaxAttemptMiss | williams_2014_edge_detection/saving.py:21-27 | an entry that does not match leaves the maximum unchanged |
| Saving.FilesIgnored | williams_2014_edge_detection/saving.py:21 | a file that is not a directory is never counted |
| Saving.Join | williams_2014_edge_detection/saving.py:20-32 | `os.path.join` ends with its second argument; an absolute second argument replaces the first, and a relative one is appended with at most one '/' between |
| Saving.JoinRelative | williams_2014_edge_detection/saving.py:32 | a non-empty name without '/' is joined directly under the directory |
| Saving.MakeAttemptDir | williams_2014_edge_detection/saving.py:9-34 | the scan loop keeps the largest matching number; the result is that number plus 1 and the path of its zero-padded name |
| Saving.AttemptName | williams_2014_edge_detection/saving.py:31 | the name is the prefix and '_' followed by a numeral of at least three characters that reads back as n; exactly three for 0 ≤ n < 1000 |
| Saving.NewAttemptIsFresh | williams_2014_edge_detection/saving.py:12-33 | the new attempt's name is that of no existing directory |
| Saving.ScannedBelowNext | williams_2014_edge_detection/saving.py:21-30 | every scanned directory's number is below the next attempt number |
| Saving.AttemptNameMatches | williams_2014_edge_detection/saving.py:17-31 | the name of attempt n is matched by the scan pattern, with number n |
| Saving.FirstAttemptIsOne | williams_2014_edge_detection/saving.py:18-30 | numbering starts at 1 when no directory matches |
| Saving.NumberingAdvances | williams_2014_edge_detection/saving.py:13-31 | once attempt n exists, the next scan proposes n + 1 |
| Saving.SecondAttempt | williams_2014_edge_detection/saving.py:13 | with `attempt_001` present the next directory is `attempt_002` |
| Saving.LastIndex | williams_2014_edge_detection/saving.py:38 | the index of the last occurrence of a character, or −1 if it does not occur |
| Saving.Basename | williams_2014_edge_detection/saving.py:38 | `os.path.basename`: the suffix after the last '/', containing no '/' |
| Saving.StripExtension | williams_2014_edge_detection/saving.py:38 | `splitext(...)[0]` is a prefix that drops at most the last '.'-suffix; an all-dots stem is not split |
| Saving.SafeBasename | williams_2014_edge_detection/saving.py:37-38 | `_safe_basename` holds no '/' and is a prefix of the basename |
| Saving.SafeBasenameOfFile | williams_2014_edge_detection/saving.py:37-46 | for `dir/stem.ext` it yields `stem` |
| Saving.BasenameOfFile | williams_2014_edge_detection/saving.py:38 | the basename of `dir/name` is `name` |
| Saving.StripExtensionOfFile | williams_2014_edge_detection/saving.py:38 | `stem.ext` loses exactly `.ext` |
| Saving.ReplaceSpaces | williams_2014_edge_detection/saving.py:49 | every space becomes '_' and every other character is kept |
| Saving.ImageFilename | williams_2014_edge_detection/saving.py:41-50 | `format_image_filename` starts with `what` with its spaces replaced and ends with `ext`, is longer than both together, and has no '/' when neither `what` nor `ext` has one |
| Saving.TableFilename | williams_2014_edge_detection/saving.py:72-74 | `format_table_filename` starts with `base` and ends with `ext`, is longer than both together, and has no '/' when neither `base` nor `ext` has one |
| Saving.ImageNameRelative | williams_2014_edge_detection/saving.py:41-50 | with the default ".png" and a `what` without '/', the image name is a non-empty name without '/' |
| Saving.ImageFilenamesDistinct | williams_2014_edge_detection/saving.py:41-50 | image filenames that agree on `what`, the source and the extension determine the attempt, the MC total, the MC index and the mask size |
| Saving.TableFilenamesDistinct | williams_2014_edge_detection/saving.py:72-74 | table filenames determine the attempt and the MC total |
| Saving.SavedPixels | williams_2014_edge_detection/saving.py:57-64 | the saved map has the input's shape and holds only 0 and 255: 255 exactly at pixels > 0 (uint8) or nonzero (other dtypes) |
| Saving.SavedPixelsIdempotent | williams_2014_edge_detection/saving.py:57-64 | saving an already saved map again changes nothing |
| Saving.DtypeBranchesAgree | williams_2014_edge_detection/saving.py:58-64 | on byte values the uint8 branch and the other-dtype branch agree |
| Saving.BinaryMapScaled | williams_2014_edge_detection/saving.py:55-64 | a 0/1 map is saved as 255 times itself |
| Saving.AsReals | williams_2014_edge_detection/saving.py:58-60 | a byte map viewed as a real-valued map, entry by entry |
| Saving.SavedImagePath | williams_2014_edge_detection/saving.py:66-69 | the returned path ends with the formatted filename, and is that file directly inside `out_dir` when `what` has no '/' |
| Saving.SavedTablePath | williams_2014_edge_detection/saving.py:77-88 | the returned path ends with the formatted table name, plus ".json" when the CSV writer failed; so it ends with ".csv" after a CSV write and ".csv.json" after the fallback; after a CSV write with a `base` without '/' it is that file directly inside `out_dir` |
| Saving.SavedTableFallback | williams_2014_edge_detection/saving.py:82-87 | the JSON fallback's path is the CSV path with ".json" appended |
| Layer.ChosenY | phantom/layer.py:22-29 | `y` when given, else `init_y` when given, else 0 |
| Layer.LayerItem.constructor | phantom/layer.py:17-31 | the fields are set from the arguments; the original image equals the given one; y follows ChosenY; no Tk image or canvas id yet |
| Editor.LastWithId | phantom/editor.py:47-52 | the last layer in the list carrying the clicked id, or none |
| Editor.DragY | phantom/editor.py:63-66 | the dragged offset is at least −h+1, at most canvas_h−1 when the bounds do not cross, and follows the mouse exactly within that range |
| Editor.DragYStops | phantom/editor.py:66 | beyond either bound the offset stops at that bound |
| Editor.TopOpaqueRow | phantom/editor.py:82-87 | the smallest row with alpha > 0 in a column, or none |
| Editor.UpperBoundary | phantom/editor.py:73-90 | length canvas_w; None at columns at or beyond the image width and at fully transparent columns; elsewhere y plus the top opaque row |
| Editor.Exported | phantom/editor.py:148-156 | exported entries keep layer order, never include "background", and are at most as many as the layers |
| Editor.ExportedConcat | phantom/editor.py:149-156 | export distributes over concatenated layer lists |
| Editor.ExportedOne | phantom/editor.py:150-156 | a layer is dropped exactly when it is "background" or not draggable; otherwise it is exported with its name, offset and upper boundary |
| Editor.LayerEditorApp.constructor | phantom/editor.py:16-22 | the app keeps its layers and canvas size and starts with no drag item |
| Editor.LayerEditorApp.OnPress | phantom/editor.py:43-57 | a press selects the last layer with the clicked id and records its offset and the mouse row; no click, a miss or a non-draggable layer leaves the drag state unchanged |
| Editor.LayerEditorApp.OnMotion | phantom/editor.py:59-68 | with a drag item the layer's offset becomes the clamped drag offset, using the layer's image height; only that layer's `y` field may change, so its name, images, flag and canvas item and all drag state stay as they were; with no drag item nothing changes |
| Editor.LayerEditorApp.OnRelease | phantom/editor.py:70-71 | release resets the drag state to no item |
| Editor.LayerEditorApp.GetLayerUpperBoundary | phantom/editor.py:73-90 | the column loop computes UpperBoundary |
| Editor.LayerEditorApp.ExportPositions | phantom/editor.py:148-156 | the export loop computes Exported |
| Editor.LastIsHit | phantom/editor.py:49-52 | the backward search stops at the last matching layer |
| Editor.NoneHit | phantom/editor.py:48-53 | without a matching layer the search finds none |
| Editor.BoundaryTest | tests/test_layer_upper_boundary.py:8-25 | for the 10×6 test image at y = 4 on a 15-wide canvas, columns 2 and 5 give 6 and 7 and all others None |
| BuildPhantom.ToInt | scripts/build_phantom_from_json.py:69 | `int()` keeps an integer and truncates a float toward zero |
| BuildPhantom.LastNamed | scripts/build_phantom_from_json.py:45 | the last entry with a given name, or none |
| BuildPhantom.PosByName | scripts/build_phantom_from_json.py:45 | only named entries take part, and each name maps to its last entry |
| BuildPhantom.ClippedY | scripts/build_phantom_from_json.py:83-86 | the offset is at most canvas_h−1, at least −height+1 when the bounds do not cross, and unchanged within range |
| BuildPhantom.ClampsAgree | scripts/build_phantom_from_json.py:83-86 | this clipping equals the editor's drag clamp whenever the bounds do not cross |
| BuildPhantom.LayerPlacements | scripts/build_phantom_from_json.py:60-89 | one placement per pair of `zip(png_files, names)`, stopping at the shorter list |
| BuildPhantom.BuildPhantomFromPositions | scripts/build_phantom_from_json.py:36-93 | the loop draws the background (when present) and then each layer at its resolved, clipped offset, in order |
| BuildPhantom.LayerOffset | scripts/build_phantom_from_json.py:68-86 | the step-by-step offset equals the clipped requested offset |
| BuildPhantom.Placements | scripts/build_phantom_from_json.py:50-91 | the background comes first, at 0, when its parameters are present; the layers then follow `layer_names[1:]`, up to the shorter list; every layer ends at row canvas_h−1 or above, and keeps a row on the canvas when the bounds allow |
| BuildPhantom.Background | scripts/build_phantom_from_json.py:50-57 | at most one background is drawn, exactly when its parameters are present, canvas-sized at offset 0 |
| BuildPhantom.HasParams | scripts/build_phantom_from_json.py:51-52 | parameters count as present exactly when the name has a non-empty entry (the outer emptiness test adds nothing) |
| BuildPhantom.ExportedOffsetReproduced | scripts/build_phantom_from_json.py:68-86 | an in-range integer offset exported by the editor is reproduced exactly |
| BuildPhantom.MissingOffsetIsZero | scripts/build_phantom_from_json.py:68-69 | with no entry, or an entry without 'y', for the last entry of that name, the requested offset is 0 |
| BuildPhantom.RequestedY | scripts/build_phantom_from_json.py:68-69 | the offset is 0 without an entry or without 'y', and the integer itself when 'y' holds an integer |
| BuildPhantom.LaterDuplicateWins | scripts/build_phantom_from_json.py:45 | of two entries with the same name, the later one's offset is used |

`Saving.ImageFilename` and `Saving.TableFilename` build `what_src-SRC_attempt-NNN_mcTotal-T_mc-I_mask-M` + ext and `base_src-SRC_attempt-NNN_mcTotal-T` + ext from `ReplaceSpaces`, `SafeBasename`, `Pad3` and `IntString`.

The preconditions of the processing members describe what the program always supplies; they do not exclude inputs it handles:
- the mask sizes are odd and positive (`MASK_SIZES` in `constants.py` is 5, 11, 15, 19);
- the image is a non-empty 8-bit grid, as the image loader returns;
- the collaborators obey their `Valid()` laws.

## Left out

- Image decoding and grayscale conversion (`io_utils.py`) are left out: they are file I/O through foreign libraries. So are the PNG, CSV and JSON writing in `saving.py` and JSON loading. The model starts from the image as a grid and ends with the summary rows.
- `makedirs` in `make_attempt_dir` and `save_binary_image` is left out: the model returns the directory's path and leaves its creation to the caller. `os.listdir` and `os.path.isdir` become the `listing` parameter, with one `isDir` flag per entry.
- `T` (needs `sqrt`) and `L` (needs `log`) are computed from the collaborators' `sqrt` and `log`; only their exact inputs are modelled. `mannwhitneyu` and `ks_2samp` are parameters.
- `cos`/`sin` of an angle are the collaborator `normal`. Angles are `real`, and `np.deg2rad` is part of that collaborator.
- The Gaussian noise draw is the collaborator `noise(mc, i, j)`; only the clip and the truncating cast around it are modelled.
- skimage's `apply_hysteresis_threshold` and `thin` are parameters. Only the threshold clipping and the 0/1 results are modelled.
- The progress printing, timing and ETA (`processing.py:86-121`) and all other `print` calls are left out: they depend on wall-clock time and write only to the console.
- Saving the thin binaries inside `process_image` (`processing.py:146-162`) is left out: it is file output guarded by `try`/`except`. The best index it uses is modelled (`BestIndex`, `ProcessTest`).
- NaN pixels in a response map are left out: the maps built here never hold NaN, so `nanmin`/`nanmax` are plain minimum and maximum.
- Saving.AttemptSuffix: `\d` is matched on ASCII digits only; Python's `\d` also matches other Unicode decimal digits.
- Saving.SavedPixels: the `except` fallback of `save_binary_image` is left out, because the cast it guards cannot fail for the maps modelled here.
- Layer.LayerItem.constructor: `bool(draggable)` and `int(chosen_y)` are identities here, because the arguments are already typed `bool` and `int`. The default `draggable=True` is left to callers.
- Layer.LayerItem.constructor: `pil_image.copy()` is modelled as the same value; images are values, so the aliasing that the copy avoids is not modelled.
- Tk/PIL drawing (`draw_all`, `export_composite`, canvas `coords`/`itemconfig`) and the dialogs of `save_all` are left out. So are `fill_all_layers`, the gamma fill in `on_close` and in the build script, and `main` of the editor: all of them are GUI or foreign image operations. The gamma fill is taken to keep an image's height.
- PIL's `alpha_composite` in `build_phantom_from_positions` is left out: the composite is the list of placements drawn on the blank canvas, in drawing order. Its `try`/`except` around compositing is not modelled.
- BuildPhantom.ToInt: a JSON 'y' that is not a number (a string, a boolean or null) is not modelled; only integers and floats are.
- The remaining files of the repository are not part of this model: the display, the runners and demos, the square generator, the SVG analysis, the smoke test and the configuration loader.
