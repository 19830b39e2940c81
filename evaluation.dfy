/** `evaluate_jaccard_score` and `evaluate_object_scores` (show_eval.py) from the point
    where both label maps are in memory and relabelled: build the IoU matrix, then reduce
    it to the Jaccard score or sweep it over the thresholds. */
module Evaluation {
  import opened LabelMaps
  import opened Binning
  import opened Overlap
  import opened Relabelled
  import opened Jaccard
  import opened Measures

  /** `np.arange(0.5, 0.95, 0.05)`, written as the exact decimals it stands for. */
  const DefaultThresholds: seq<real> := [0.5, 0.55, 0.6, 0.65, 0.7, 0.75, 0.8, 0.85, 0.9]

  /** Lines 27-32: the Jaccard score of the two maps, or numpy's refusal to bin them. */
  method EvaluateJaccardScore(groundTruth: LabelMap, prediction: LabelMap) returns (r: Result<Score>)
    ensures |groundTruth.pixels| != |prediction.pixels| ==> r == Err(ShapeMismatch)
    ensures |groundTruth.pixels| == |prediction.pixels| == 0 ==> r == Err(NoPixels)
    ensures |groundTruth.pixels| == |prediction.pixels| > 0 ==>
              r == Ok(JaccardScore(OverlapMatrix(groundTruth.pixels, prediction.pixels)))
    ensures r.Ok? && r.value.Value? ==> 0.0 <= r.value.value <= 1.0
    ensures (groundTruth.pixels == prediction.pixels && Dense(groundTruth.pixels)
             && |Labels(groundTruth.pixels)| > 1) ==> r == Ok(Value(1.0))
  {
    var iou := IntersectionOverUnion(groundTruth, prediction);
    match iou
    case Err(e) => r := Err(e);
    case Ok(m) =>
      OverlapInUnitRange(groundTruth.pixels, prediction.pixels);
      JaccardInUnitRange(m);
      if groundTruth.pixels == prediction.pixels && Dense(groundTruth.pixels)
         && |Labels(groundTruth.pixels)| > 1 {
        JaccardPerfect(groundTruth.pixels);
      }
      r := Ok(JaccardScore(m));
  }

  /** Lines 54-61: one record per threshold, or numpy's refusal to bin the maps. Over
      ascending thresholds FN and FP never decrease; from 1/2 up, in addition, every truth
      object is a true positive or a false negative and TP never increases. */
  method EvaluateObjectScores(groundTruth: LabelMap, prediction: LabelMap, thresholds: seq<real>)
    returns (r: Result<seq<ThresholdResult>>)
    ensures |groundTruth.pixels| != |prediction.pixels| ==> r == Err(ShapeMismatch)
    ensures |groundTruth.pixels| == |prediction.pixels| == 0 ==> r == Err(NoPixels)
    ensures |groundTruth.pixels| == |prediction.pixels| > 0 ==>
              && r.Ok? && |r.value| == |thresholds|
              && forall k | 0 <= k < |thresholds| ::
                   r.value[k] == Record(thresholds[k], OverlapMatrix(groundTruth.pixels, prediction.pixels))
    ensures r.Ok? && Ascending(thresholds) ==>
              forall k1, k2 | 0 <= k1 <= k2 < |r.value| ::
                r.value[k1].fn <= r.value[k2].fn && r.value[k1].fp <= r.value[k2].fp
    ensures r.Ok? && Ascending(thresholds) && (forall k | 0 <= k < |thresholds| :: thresholds[k] >= 0.5) ==>
              forall k1, k2 | 0 <= k1 <= k2 < |r.value| ::
                && r.value[k2].tp <= r.value[k1].tp
                && r.value[k1].tp + r.value[k1].fn
                   == OverlapMatrix(groundTruth.pixels, prediction.pixels).rows
  {
    var iou := IntersectionOverUnion(groundTruth, prediction);
    match iou
    case Err(e) => r := Err(e);
    case Ok(m) =>
      var scores := Sweep(m, thresholds);
      if Ascending(thresholds) && forall k | 0 <= k < |thresholds| :: thresholds[k] >= 0.5 {
        forall k1, k2 | 0 <= k1 <= k2 < |scores|
          ensures scores[k2].tp <= scores[k1].tp && scores[k1].tp + scores[k1].fn == m.rows
        {
          UniqueMatches(groundTruth.pixels, prediction.pixels, thresholds[k1]);
          TruePositivesMonotone(m, thresholds[k1], thresholds[k2]);
        }
      }
      r := Ok(scores);
  }

  /** Every row of an IoU matrix from label maps has at most one match from 1/2 up. */
  lemma UniqueMatches(g: seq<nat>, p: seq<nat>, t: real)
    requires |g| == |p| > 0 && t >= 0.5
    ensures forall i | 0 <= i < OverlapMatrix(g, p).rows :: Matches(OverlapMatrix(g, p).cells[i], t) <= 1
  {
    forall i | 0 <= i < OverlapMatrix(g, p).rows
      ensures Matches(OverlapMatrix(g, p).cells[i], t) <= 1
    {
      UniqueMatchesAboveHalf(g, p, t, i);
    }
  }

  /** The default thresholds rise from 1/2, so all of the guarantees above apply to them. */
  lemma DefaultThresholdsQualify()
    ensures Ascending(DefaultThresholds)
    ensures forall k | 0 <= k < |DefaultThresholds| :: 0.5 <= DefaultThresholds[k] < 0.95
  {
  }

  /** Two truth objects, one prediction covering the first exactly: shape (2, 1), score 1,
      and at 0.5 one true positive, one false negative, no false positive. */
  lemma ScenarioOnePredictionOfTwo()
    ensures var m := Matrix(2, 1, [[1.0], [0.0]]);
            && JaccardScore(m) == Value(1.0)
            && MeasuresAt(0.5, m) == Measures(F1(1, 0, 1), 1, 0, 1)
  {
    var m := Matrix(2, 1, [[1.0], [0.0]]);
    assert [1.0][..0] == [] && [0.0][..0] == [];
    assert Matches(m.cells[0], 0.5) == 1 && Matches(m.cells[1], 0.5) == 0;
    assert Column(m, 0) == [1.0, 0.0];
    assert [1.0, 0.0][..1] == [1.0];
    assert Matches(Column(m, 0), 0.5) == 1;
  }

  /** No truth object and one prediction: shape (0, 1), score 0, and at every threshold one
      false positive, nothing else, and F1 = 0. */
  lemma ScenarioNoTruthObjects(t: real)
    ensures var m := Matrix(0, 1, []);
            && JaccardScore(m) == Value(0.0)
            && MeasuresAt(t, m) == Measures(0.0, 0, 1, 0)
  {
    var m := Matrix(0, 1, []);
    assert Column(m, 0) == [];
  }

  /** The first scenario on actual pixels: truth objects 1 and 2 and background, the
      prediction finds object 1 only. */
  lemma ScenarioOnPixels()
    ensures OverlapMatrix([0, 1, 2], [0, 1, 0]) == Matrix(2, 1, [[1.0], [0.0]])
  {
    var g, p := [0, 1, 2], [0, 1, 0];
    PixelLabels();
    BackgroundShape(g, p);
    BackgroundExcluded(g, p, 0, 0);
    BackgroundExcluded(g, p, 1, 0);
    PixelIoUs();
    var m := OverlapMatrix(g, p);
    assert m.cells[0] == [1.0] && m.cells[1] == [0.0];
  }

  /** No truth object on pixels: an all-background truth map against one predicted object
      gives the (0 x 1) matrix of `ScenarioNoTruthObjects`. */
  lemma ScenarioNoTruthObjectsOnPixels()
    ensures OverlapMatrix([0, 0], [0, 1]) == Matrix(0, 1, [])
  {
    var g, p := [0, 0], [0, 1];
    assert Labels(g) == {0} by { assert 0 == g[0]; }
    assert Labels(p) == {0, 1} by { assert 0 == p[0] && 1 == p[1]; }
    var m := OverlapMatrix(g, p);
    assert |m.cells| == 0;
  }

  /** When no pixel belongs to an object in both relabelled maps, every entry of the matrix
      is 0, and with objects on both sides the Jaccard score is 0. */
  lemma DisjointObjectsScoreZero(g: seq<nat>, p: seq<nat>)
    requires |g| == |p| && Dense(g) && Dense(p) && 0 in g && 0 in p
    requires forall k | 0 <= k < |g| :: g[k] == 0 || p[k] == 0
    ensures var m := OverlapMatrix(g, p);
            forall i, j | 0 <= i < m.rows && 0 <= j < m.cols :: m.cells[i][j] == 0.0
    ensures 0 < MaxLabel(g) && 0 < MaxLabel(p) ==> JaccardScore(OverlapMatrix(g, p)) == Value(0.0)
  {
    var m := OverlapMatrix(g, p);
    BackgroundShape(g, p);
    forall i, j | 0 <= i < m.rows && 0 <= j < m.cols
      ensures m.cells[i][j] == 0.0
    {
      DisjointEntry(g, p, i, j);
    }
    if 0 < MaxLabel(g) && 0 < MaxLabel(p) {
      JaccardNoOverlap(m);
    }
  }

  lemma DisjointEntry(g: seq<nat>, p: seq<nat>, i: nat, j: nat)
    requires |g| == |p| && Dense(g) && Dense(p) && 0 in g && 0 in p
    requires forall k | 0 <= k < |g| :: g[k] == 0 || p[k] == 0
    requires i < OverlapMatrix(g, p).rows && j < OverlapMatrix(g, p).cols
    ensures OverlapMatrix(g, p).cells[i][j] == 0.0
  {
    BackgroundExcluded(g, p, i, j);
    DisjointIoU(g, p, i + 1, j + 1);
  }

  /** Objects a and b that share no pixel have IoU 0. */
  lemma DisjointIoU(g: seq<nat>, p: seq<nat>, a: nat, b: nat)
    requires |g| == |p| && 0 < a && 0 < b
    requires forall k | 0 <= k < |g| :: g[k] == 0 || p[k] == 0
    ensures IoU(g, p, a, b) == 0.0
  {
    PairCountZero(g, p, a, b);
    ZeroIntersection(g, p, a, b);
  }

  lemma PixelLabels()
    ensures MinLabel([0, 1, 2]) == 0 && MaxLabel([0, 1, 2]) == 2 && Dense([0, 1, 2])
    ensures MinLabel([0, 1, 0]) == 0 && MaxLabel([0, 1, 0]) == 1 && Dense([0, 1, 0])
  {
    var g, p := [0, 1, 2], [0, 1, 0];
    assert 0 == g[0] && 1 == g[1] && 2 == g[2];
    assert 0 == p[0] && 1 == p[1];
  }

  lemma PixelIoUs()
    ensures IoU([0, 1, 2], [0, 1, 0], 1, 1) == 1.0 && IoU([0, 1, 2], [0, 1, 0], 2, 1) == 0.0
  {
    var g, p := [0, 1, 2], [0, 1, 0];
    PixelCounts();
    PixelPairCounts();
    SameObjectIoU(g, p, 1, 1);
    ZeroIntersection(g, p, 2, 1);
  }

  lemma PixelCounts()
    ensures Count([0, 1, 2], 1) == 1 && Count([0, 1, 0], 1) == 1
  {
    var g, p := [0, 1, 2], [0, 1, 0];
    assert g[..2] == [0, 1] && g[..1] == [0] && p[..2] == [0, 1] && p[..1] == [0];
    assert [0, 1][..1] == [0] && [0][..0] == [];
  }

  lemma PixelPairCounts()
    ensures PairCount([0, 1, 2], [0, 1, 0], 1, 1) == 1 && PairCount([0, 1, 2], [0, 1, 0], 2, 1) == 0
  {
    var g, p := [0, 1, 2], [0, 1, 0];
    assert g[..2] == [0, 1] && g[..1] == [0] && p[..2] == [0, 1] && p[..1] == [0];
    assert [0, 1][..1] == [0] && [0][..0] == [];
  }

  /** Without relabelling the bins are not the labels. Labels {0, 1, 5} give three bins of
      width 5/3: labels 0 and 1 share the first, the second stays empty, so even a perfect
      prediction scores only 0.5. */
  lemma SparseLabelsBreakPerfectScore()
    ensures OverlapMatrix([0, 1, 5], [0, 1, 5]) == Matrix(2, 2, [[0.0, 0.0], [0.0, 1.0]])
    ensures JaccardScore(OverlapMatrix([0, 1, 5], [0, 1, 5])) == Value(0.5)
  {
    SparseBins();
    var x := [0, 0, 2];
    SparseIoUs();
    var m := OverlapMatrix([0, 1, 5], [0, 1, 5]);
    OverlapEntry([0, 1, 5], [0, 1, 5], 0, 0);
    OverlapEntry([0, 1, 5], [0, 1, 5], 0, 1);
    OverlapEntry([0, 1, 5], [0, 1, 5], 1, 0);
    OverlapEntry([0, 1, 5], [0, 1, 5], 1, 1);
    assert m.cells[0] == [0.0, 0.0] && m.cells[1] == [0.0, 1.0];
    SparseScore();
  }

  lemma SparseBins()
    ensures BinsOf([0, 1, 5]) == Bins(0, 5, 3)
    ensures BinIndices([0, 1, 5], BinsOf([0, 1, 5])) == [0, 0, 2]
  {
    var s := [0, 1, 5];
    SparseLabels();
    var b := Bins(0, 5, 3);
    assert b.Index(0) == 0 && b.Index(1) == 0 && b.Index(5) == 2;
    var r := BinIndices(s, b);
    assert r[0] == 0 && r[1] == 0 && r[2] == 2;
  }

  lemma SparseLabels()
    ensures Labels([0, 1, 5]) == {0, 1, 5} && |Labels([0, 1, 5])| == 3
    ensures MinLabel([0, 1, 5]) == 0 && MaxLabel([0, 1, 5]) == 5
  {
    var s := [0, 1, 5];
    assert 0 == s[0] && 1 == s[1] && 5 == s[2];
  }

  lemma SparseIoUs()
    ensures IoU([0, 0, 2], [0, 0, 2], 1, 1) == 0.0 && IoU([0, 0, 2], [0, 0, 2], 1, 2) == 0.0
    ensures IoU([0, 0, 2], [0, 0, 2], 2, 1) == 0.0 && IoU([0, 0, 2], [0, 0, 2], 2, 2) == 1.0
  {
    var x := [0, 0, 2];
    assert x[..2] == [0, 0] && x[..1] == [0] && [0, 0][..1] == [0] && [0][..0] == [];
    assert Count(x, 1) == 0 && Count(x, 2) == 1;
    assert PairCount(x, x, 1, 2) == 0 && PairCount(x, x, 2, 1) == 0 && PairCount(x, x, 1, 1) == 0;
    IoUInUnitRange(x, x, 1, 1);
    ZeroIntersection(x, x, 1, 2);
    ZeroIntersection(x, x, 2, 1);
    SelfIoU(x, 2);
  }

  lemma SparseScore()
    ensures JaccardScore(Matrix(2, 2, [[0.0, 0.0], [0.0, 1.0]])) == Value(0.5)
  {
    var m := Matrix(2, 2, [[0.0, 0.0], [0.0, 1.0]]);
    assert ColumnMax(m, 0, 2) == 0.0 && ColumnMax(m, 1, 2) == 1.0;
  }
}
