# Object-matching evaluation of a nucleus segmenter, in Dafny

The repository scores a predicted segmentation of cell nuclei against an annotated ground
truth. Both are label maps: 0 is background and every other value names one object.
`show_eval.py` compares the two through three steps:

- `intersection_over_union` builds the matrix of Intersection-over-Union (IoU) values
  between every truth object and every predicted object. It uses numpy histograms for this.
- `evaluate_jaccard_score` reduces that matrix to a single score. For each predicted object
  it takes the best IoU over the truth objects, then averages those values.
- `evaluate_object_scores` sweeps a list of thresholds and calls `measures_at` at each. A
  match is an IoU strictly above the threshold. A true positive is a truth object with
  exactly one match, a false negative a truth object with none, a false positive a predicted
  object with none. F1 is computed from these three counts.

The model follows that structure, one module per step:

- `LabelMaps` (labelmaps.dfy) holds label maps and the pixel counts everything is built
  from, with the one-pass label counting and min/max loops.
- `Binning` (binning.dfy) models numpy's equal-width binning exactly as the code invokes it.
  There are `len(np.unique(s))` bins over [min, max], and value v falls into bin
  floor((v - min) * n / (max - min)). It also holds the counting loops of `np.histogram`
  and `np.histogram2d`. The proofs show that bins coincide with labels exactly when the
  labels are contiguous (`DenseBins` and its converse `SparseBinsDiffer`), which is what `relabel_sequential` guarantees.
- `Overlap` (overlap.dfy) covers `intersection_over_union`:
  - as a function `OverlapMatrix` that defines the result;
  - as the imperative method `IntersectionOverUnion`, built from the histogram loops, the
    broadcast union, the `[1:, 1:]` slice, the in-place `union[union == 0] = 1e-9` and the
    division;
  - with a proof that the method returns the function's matrix.
- `Relabelled` (relabelled.dfy) states what that matrix means for relabelled maps. It is
  the per-object IoU table: its shape is given by the label ranges, and entry (i, j)
  compares truth object i + 1 and predicted object j + 1 when background is present.
- `Jaccard` (jaccard.dfy) holds the Jaccard reduction.
- `Measures` (measures.dfy) holds `measures_at` and the threshold sweep loop.
- `Evaluation` (evaluation.dfy) holds the two `evaluate_*` functions from the point where
  both relabelled maps are in memory. It also holds the concrete scenarios: two truth
  objects against one prediction, no truth objects, a small pixel-level instance, and a
  sparse labelling that shows why relabelling is needed.

IoU, F1 and the Jaccard score are exact `real`s. The constant 1e-9 is the exact rational
0.000000001.

### Behaviour of the code worth knowing

- **Jaccard score with truth objects but no predicted objects.** The code takes the mean of
  an empty array, which numpy evaluates to NaN; the model returns `Score.NaN`. Only the
  case without any truth object gives 0.0.
- **Error cases.** `np.histogram2d` refuses maps of different pixel counts. Two maps of
  equal pixel count but different shape are accepted, because both are flattened. A map
  with no pixels yields zero bins and is refused as well. The model's `Result` has the
  errors `ShapeMismatch` and `NoPixels`.
- **Binning.** The matrix dimensions come from numpy's binning, not from the labels
  themselves. numpy widens a range of a single value to [v - 1/2, v + 1/2], which
  puts that value into bin floor(n / 2); through `BinsOf` such a map has one label and so
  one bin. For contiguous labels (`Dense`) the bins are the labels; for other labelings
  they are not (`SparseBinsDiffer`, and the instance `SparseLabelsBreakPerfectScore`).
- **Maps without background.** When a map has no background pixel, bin 0 is its first
  object, and the `[1:, 1:]` slice drops that object (`RowsCountObjects`).
- **TP monotonicity.** FN and FP never decrease as the threshold rises. TP, however, is
  not monotone in general (`TruePositivesNotMonotone`). TP does not increase for every
  matrix built from label maps at thresholds of 1/2 and above, because a truth object can
  have IoU above 1/2 with at most one predicted object. All default thresholds are of that
  kind.

## Model

| member | source | states |
|---|---|---|
| LabelMaps.Count | show_eval.py:87-89 | the area of a label never exceeds the pixel count |
| LabelMaps.CountPositive | show_eval.py:87-89 | a label has non-zero area exactly when it occurs in the map |
| LabelMaps.PairCountBounds | show_eval.py:84-85 | an intersection cell is at most the area of either of its two labels |
| LabelMaps.PairCountDisjoint | show_eval.py:84-85 | the intersections of one truth label with two different predicted labels together fit in the truth label's area |
| LabelMaps.PairCountZero | show_eval.py:84-85 | two labels that no pixel carries together have an empty intersection |
| LabelMaps.PairCountSelf | show_eval.py:84-85 | a map against itself has as intersection of a label with itself that label's area |
| LabelMaps.RowTotalIsArea | show_eval.py:84-89 | row a of the joint histogram sums to the area of label a |
| LabelMaps.TableTotalIsLength | show_eval.py:84-85 | the cells of a covering joint histogram sum to the pixel count |
| LabelMaps.MinLabel | show_eval.py:84-89 | the smallest label occurs and is below every pixel: the histogram range's left edge |
| LabelMaps.MaxLabel | show_eval.py:84-89 | the largest label occurs and is above every pixel: the histogram range's right edge |
| LabelMaps.RangeSize | show_eval.py:80-81 | n consecutive labels are n distinct labels |
| LabelMaps.DenseLabelCount | show_eval.py:24-25 | after sequential relabelling the number of distinct labels is max - min + 1 |
| LabelMaps.CountShifted | show_eval.py:24-25 | shifting every label by a constant keeps every area |
| LabelMaps.PairCountShifted | show_eval.py:24-25 | shifting both maps' labels by constants keeps every intersection |
| LabelMaps.CountLabels | show_eval.py:80-81 | the counting loop returns the number of distinct labels (`len(np.unique(...))`) |
| LabelMaps.LabelRange | show_eval.py:84-89 | the one-pass loop returns the smallest and the largest label |
| Binning.Bins.Index | show_eval.py:84-89 | every value of the range falls into one of the n bins, the maximum of a proper range into the last, and the one value of a single-value range into the middle bin floor(n / 2) |
| Binning.BinsOf | show_eval.py:80-89 | the binning covers every pixel, with as many bins as distinct labels |
| Binning.BinIsOffset | show_eval.py:84-89 | with one bin per integer of the range, label v falls into bin v - min |
| Binning.DenseBins | show_eval.py:24-25 | for relabelled maps each pixel's bin is its label minus the smallest label |
| Binning.LabelsInRange | show_eval.py:84-89 | every label lies in the histogram range [min, max] |
| Binning.FewerLabelsThanRange | show_eval.py:80-89 | a label range with a gap has fewer distinct labels, hence fewer bins, than integers, and more than one label |
| Binning.SparseBinsDiffer | show_eval.py:80-89 | when the labels are not contiguous some pixel's bin differs from its label minus the smallest label |
| Binning.DenseHasOffset | show_eval.py:24-25 | every bin of a relabelled map corresponds to a label that occurs |
| Binning.DenseBinNonEmpty | show_eval.py:24-25 | no bin of a relabelled map is empty |
| Binning.DenseCount | show_eval.py:88-89 | the histogram of a relabelled map counts labels: bin a holds the area of label min + a |
| Binning.Histogram | show_eval.py:88-89 | the counting loop fills bin a with the number of pixels in bin a |
| Binning.JointHistogram | show_eval.py:84-85 | the counting loop fills cell (a, b) with the number of pixels in truth bin a and predicted bin b |
| Overlap.OverlapMatrix | show_eval.py:73-104 | the result has one row per truth bin after the first and one column per predicted bin after the first |
| Overlap.UnionBounds | show_eval.py:92-94 | the union is at least the intersection and at least either area |
| Overlap.IoUInUnitRange | show_eval.py:92-102 | every IoU lies in [0, 1], and an empty union gives 0 |
| Overlap.ZeroIntersection | show_eval.py:101-102 | objects sharing no pixel have IoU 0 |
| Overlap.SelfIoU | show_eval.py:101-102 | a non-empty object has IoU 1 with itself |
| Overlap.SameObjectIoU | show_eval.py:92-102 | two objects covering the same non-empty set of pixels have IoU 1 |
| Overlap.OverlapInUnitRange | show_eval.py:102 | every entry of the matrix lies in [0, 1] |
| Overlap.JointHistogramTotals | show_eval.py:84-89 | each row of the joint histogram sums to the truth area, and the whole table to the pixel count |
| Overlap.RowsCountObjects | show_eval.py:80-98 | the matrix has one row per truth object when background is present, one fewer when it is not; the same for columns |
| Overlap.LabelsAboveBackground | show_eval.py:80-81 | the distinct labels are the objects plus the background when there is one |
| Overlap.AtMostOneMatchAboveHalf | show_eval.py:102-108 | at a threshold of 1/2 or more a truth object matches at most one predicted object |
| Overlap.MoreThanHalf | show_eval.py:102-108 | an IoU above 1/2 means the intersection holds more than half the truth object |
| Overlap.UnionAreas | show_eval.py:92-94 | the broadcast union is area_true[a] + area_pred[b] - intersection[a, b] |
| Overlap.DropFirstRowAndColumn | show_eval.py:97-98 | the slice keeps exactly the cells (i + 1, j + 1) |
| Overlap.ReplaceZeroUnions | show_eval.py:101 | in place, zero unions become 1e-9 and every other union is unchanged |
| Overlap.Divide | show_eval.py:102 | each entry is intersection over union |
| Overlap.IntersectionOverUnion | show_eval.py:73-104 | maps of different pixel counts or without pixels are refused; otherwise the loops produce exactly OverlapMatrix |
| Relabelled.DenseShape | show_eval.py:80-98 | for relabelled maps the matrix has one row per truth label above the smallest and one column per predicted label above the smallest |
| Relabelled.DenseCell | show_eval.py:97-102 | for relabelled maps entry (i, j) compares truth label min + 1 + i with predicted label min + 1 + j |
| Relabelled.DenseEntry | show_eval.py:80-89 | the IoU of bins of relabelled maps is the IoU of the corresponding labels |
| Relabelled.IoUOfShifted | show_eval.py:92-102 | shifting both maps' labels keeps the IoU of corresponding labels |
| Relabelled.DenseUnionPositive | show_eval.py:101-102 | for relabelled truth every union in the table is at least 1, so 1e-9 is never used |
| Relabelled.BackgroundShape | show_eval.py:80-98 | with background on both sides the shape is (truth objects) x (predicted objects) |
| Relabelled.BackgroundExcluded | show_eval.py:97-98 | with background on both sides entry (i, j) is the IoU of truth object i + 1 and predicted object j + 1 |
| Jaccard.ColumnMax | show_eval.py:30 | the column maximum is at least every entry of the column and equal to one of them |
| Jaccard.JaccardScore | show_eval.py:29-32 | 0.0 without truth objects; NaN exactly when there are truth objects but no predictions |
| Jaccard.ColumnMaxInUnitRange | show_eval.py:30 | a best IoU lies in [0, 1] and is 1 exactly when some truth object coincides with the prediction |
| Jaccard.SumOfMaximaBounds | show_eval.py:30 | the sum of c best IoUs lies in [0, c] and reaches c exactly when all are 1 |
| Jaccard.JaccardInUnitRange | show_eval.py:29-32 | a real score lies in [0, 1]; with truth objects it is 1 exactly when there are predictions and each coincides with some truth object |
| Jaccard.JaccardPerfect | show_eval.py:24-32 | a prediction identical to a relabelled truth with at least one object scores 1 |
| Jaccard.SelfOverlapDiagonal | show_eval.py:97-102 | the diagonal of a relabelled map against itself is all ones |
| Jaccard.JaccardNoOverlap | show_eval.py:29-32 | without any overlap between objects the score is 0 |
| Jaccard.SumOfMaximaZero | show_eval.py:30 | an all-zero matrix has zero best IoUs |
| Measures.Matches | show_eval.py:108-112 | a row has at most as many matches as entries, and none exactly when no entry exceeds the threshold |
| Measures.RowsWith | show_eval.py:110-112 | the count of rows with a given number of matches is at most the number of rows |
| Measures.ColumnsWith | show_eval.py:111 | the count of columns with a given number of matches is at most the number of columns |
| Measures.F1 | show_eval.py:120 | F1 lies in [0, 1) and is 0 exactly when there is no true positive |
| Measures.MeasuresAt | show_eval.py:107-122 | TP + FN is at most the number of truth objects, FP at most the number of predictions, F1 in [0, 1) and 0 exactly when TP is 0 |
| Measures.RowsDisjoint | show_eval.py:110-112 | no truth object is both a true positive and a false negative |
| Measures.RowsPartition | show_eval.py:110-112 | when no row has two matches, TP + FN is the number of truth objects |
| Measures.MatchesAntitone | show_eval.py:108 | raising the threshold never adds a match |
| Measures.FalseNegativesMonotone | show_eval.py:112 | FN never decreases as the threshold rises |
| Measures.FalsePositivesMonotone | show_eval.py:111 | FP never decreases as the threshold rises |
| Measures.MeasuresMonotone | show_eval.py:107-122 | FN and FP of measures_at are non-decreasing in the threshold |
| Measures.TruePositivesNotMonotone | show_eval.py:110 | the matrix [[0.6, 0.8]] has no true positive at 0.5 but one at 0.7 |
| Measures.TruePositivesMonotone | show_eval.py:110-112 | when no truth object has two matches, TP + FN counts every truth object and TP never increases with the threshold |
| Measures.AtMostOneAbove | show_eval.py:110 | a row with no two entries above the threshold has at most one match |
| Measures.UniqueMatchesAboveHalf | show_eval.py:102-110 | every row of a matrix from label maps has at most one match at thresholds of 1/2 or more |
| Measures.Sweep | show_eval.py:57-61 | one record per threshold in threshold order, each equal to measures_at; over ascending thresholds FN and FP never decrease |
| Evaluation.EvaluateJaccardScore | show_eval.py:27-32 | the score of the matrix, or the binning error; a real score lies in [0, 1]; an identical relabelled prediction scores 1 |
| Evaluation.EvaluateObjectScores | show_eval.py:54-61 | one record per threshold, or the binning error; over ascending thresholds FN and FP never decrease; from 1/2 up TP never increases and TP + FN counts every truth object |
| Evaluation.UniqueMatches | show_eval.py:102-110 | from 1/2 up every truth object of a matrix from label maps has at most one match |
| Evaluation.DefaultThresholdsQualify | show_eval.py:58 | the default thresholds ascend from 0.5 and stay below 0.95 |
| Evaluation.ScenarioOnePredictionOfTwo | show_eval.py:107-122 | two truth objects, one exact prediction: score 1; at 0.5 TP 1, FP 0, FN 1 |
| Evaluation.ScenarioNoTruthObjects | show_eval.py:107-122 | no truth object, one prediction: score 0.0; at every threshold TP 0, FP 1, FN 0 and F1 0 |
| Evaluation.ScenarioNoTruthObjectsOnPixels | show_eval.py:73-104 | an all-background truth map [0, 0] against [0, 1] gives the (0 x 1) matrix |
| Evaluation.DisjointObjectsScoreZero | show_eval.py:27-32 | relabelled maps whose objects share no pixel give an all-zero matrix and, with objects on both sides, a Jaccard score of 0 |
| Evaluation.ScenarioOnPixels | show_eval.py:73-104 | pixels [0, 1, 2] against [0, 1, 0] give the matrix [[1.0], [0.0]] |
| Evaluation.SparseLabelsBreakPerfectScore | show_eval.py:80-89 | labels {0, 1, 5} against themselves give [[0, 0], [0, 1]] and a score of 0.5, not 1 |

## Left out

- Reading images (`skimage.io.imread`) and taking the first channel
  (show_eval.py:15-19, 42-46) are left out. The model starts from label maps in memory.
- Connected-component labelling (`skimage.morphology.label`, show_eval.py:21, 48) is left
  out. It is library code that is not part of this model.
- `relabel_sequential` (show_eval.py:24-25, 51-52) is left out for the same reason. Only
  its outcome is used: contiguous labels, the predicate `Dense`. It appears as a
  hypothesis of the lemmas that relate bins to labels.
- The predictor plug-in (`pred.Predictor(...).predict()`, predictors.py) is left out. The
  prediction is an input.
- Printing, rounding and the PrettyTable display (show_eval.py:34-36, 63-69) are left
  out. They do not change the returned values.
- Command-line parsing and resource lookup (shared_resources.py) and the plotting scripts
  are left out.
- The thresholds `np.arange(0.5, 0.95, 0.05)` are a parameter of the sweep.
  `DefaultThresholds` lists the exact decimals they approximate. The float values that
  `arange` actually produces are not modelled.
- Floating-point arithmetic is not modelled. IoU, F1, the means and numpy's bin-edge
  computation are exact rationals here, so rounding effects near a threshold or a bin edge
  are not captured.
- Integer widths are not modelled (labels and counts are unbounded). `np.histogram2d`
  returns float counts, which is immaterial below 2^53 pixels.
- The asserts at show_eval.py:114-116 compare booleans with 1 and always hold. They are
  not modelled.
- `LabelMap.height` and `width` are carried but not used. The code flattens both maps,
  so only the pixel counts must agree.
