/** The Jaccard reduction of `evaluate_jaccard_score` (show_eval.py): for every predicted
    object take its best IoU over the truth objects (`np.amax(iou_array, axis=0)`), then
    average those maxima (`.mean()`); with no truth object at all the score is 0.0. */
module Jaccard {
  import opened LabelMaps
  import opened Binning
  import opened Overlap

  /** numpy's mean of an empty array is NaN, which is what the reduction yields for truth
      objects without any predicted object; every other outcome is a real value. */
  datatype Score = Value(value: real) | NaN

  /** The largest entry of column j among rows 0 .. r - 1. */
  function ColumnMax(m: Matrix, j: nat, r: nat): (v: real)
    requires m.Shaped() && j < m.cols && 0 < r <= m.rows
    ensures forall i | 0 <= i < r :: m.cells[i][j] <= v
    ensures exists i | 0 <= i < r :: m.cells[i][j] == v
  {
    if r == 1 then m.cells[0][j]
    else
      var rest := ColumnMax(m, j, r - 1);
      if m.cells[r - 1][j] > rest then m.cells[r - 1][j] else rest
  }

  /** The column maxima of columns 0 .. c - 1, added up. */
  function SumOfMaxima(m: Matrix, c: nat): real
    requires m.Shaped() && 0 < m.rows && c <= m.cols
  {
    if c == 0 then 0.0 else SumOfMaxima(m, c - 1) + ColumnMax(m, c - 1, m.rows)
  }

  /** Lines 29-32: 0.0 without truth objects, otherwise the mean of the column maxima. */
  function JaccardScore(m: Matrix): (s: Score)
    requires m.Shaped()
    ensures m.rows == 0 ==> s == Value(0.0)
    ensures s == NaN <==> 0 < m.rows && m.cols == 0
  {
    if m.rows == 0 then Value(0.0)
    else if m.cols == 0 then NaN
    else Value(SumOfMaxima(m, m.cols) / m.cols as real)
  }

  /** Some truth object has IoU 1 with predicted object j. */
  predicate Matched(m: Matrix, j: nat)
    requires m.Shaped() && j < m.cols
  {
    exists i | 0 <= i < m.rows :: m.cells[i][j] == 1.0
  }

  /** A column maximum of a matrix of IoUs is itself an IoU, and it is 1 exactly when some
      truth object coincides with the predicted object. */
  lemma ColumnMaxInUnitRange(m: Matrix, j: nat)
    requires m.Shaped() && m.InUnitRange() && j < m.cols && 0 < m.rows
    ensures 0.0 <= ColumnMax(m, j, m.rows) <= 1.0
    ensures ColumnMax(m, j, m.rows) == 1.0 <==> Matched(m, j)
  {
    var v := ColumnMax(m, j, m.rows);
    var i :| 0 <= i < m.rows && m.cells[i][j] == v;
    assert 0.0 <= m.cells[i][j] <= 1.0;
  }

  /** Each of the c maxima lies in [0, 1], so their sum lies in [0, c] and reaches c only
      when every one of them is 1. */
  lemma {:induction false} SumOfMaximaBounds(m: Matrix, c: nat)
    requires m.Shaped() && m.InUnitRange() && 0 < m.rows && c <= m.cols
    ensures 0.0 <= SumOfMaxima(m, c) <= c as real
    ensures SumOfMaxima(m, c) == c as real <==> forall j | 0 <= j < c :: Matched(m, j)
  {
    if c > 0 {
      SumOfMaximaBounds(m, c - 1);
      ColumnMaxInUnitRange(m, c - 1);
      SumStep(SumOfMaxima(m, c - 1), ColumnMax(m, c - 1, m.rows), (c - 1) as real);
    }
  }

  lemma SumStep(s: real, v: real, n: real)
    requires 0.0 <= s <= n && 0.0 <= v <= 1.0
    ensures 0.0 <= s + v <= n + 1.0
    ensures s + v == n + 1.0 <==> s == n && v == 1.0
  {
  }

  /** For IoU matrices the score is NaN or a value in [0, 1], and it is 1 exactly when
      every predicted object coincides with some truth object. */
  lemma JaccardInUnitRange(m: Matrix)
    requires m.Shaped() && m.InUnitRange()
    ensures JaccardScore(m).Value? ==> 0.0 <= JaccardScore(m).value <= 1.0
    ensures 0 < m.rows ==>
              (JaccardScore(m) == Value(1.0) <==>
               0 < m.cols && forall j | 0 <= j < m.cols :: Matched(m, j))
  {
    if 0 < m.rows && 0 < m.cols {
      SumOfMaximaBounds(m, m.cols);
      MeanBounds(SumOfMaxima(m, m.cols), m.cols as real);
    }
  }

  lemma MeanBounds(s: real, n: real)
    requires 0.0 <= s <= n && 0.0 < n
    ensures 0.0 <= s / n <= 1.0
    ensures s / n == 1.0 <==> s == n
  {
    assert (s / n) * n == s;
  }

  /** A prediction identical to a relabelled ground truth with at least one object scores
      exactly 1: every predicted object is found with IoU 1. */
  lemma JaccardPerfect(g: seq<nat>)
    requires Dense(g) && |Labels(g)| > 1
    ensures JaccardScore(OverlapMatrix(g, g)) == Value(1.0)
  {
    var m := OverlapMatrix(g, g);
    OverlapInUnitRange(g, g);
    forall j | 0 <= j < m.cols
      ensures Matched(m, j)
    {
      SelfOverlapDiagonal(g, j);
    }
    JaccardInUnitRange(m);
  }

  /** Entry (j, j) of a dense map against itself compares a non-empty bin with itself. */
  lemma SelfOverlapDiagonal(g: seq<nat>, j: nat)
    requires Dense(g) && j < OverlapMatrix(g, g).rows
    ensures OverlapMatrix(g, g).cells[j][j] == 1.0
  {
    OverlapEntry(g, g, j, j);
    DenseBinNonEmpty(g, j + 1);
    SelfIoU(BinIndices(g, BinsOf(g)), j + 1);
  }

  /** Without any overlap between predicted and truth objects the score is 0. */
  lemma JaccardNoOverlap(m: Matrix)
    requires m.Shaped() && 0 < m.rows && 0 < m.cols
    requires forall i, j | 0 <= i < m.rows && 0 <= j < m.cols :: m.cells[i][j] == 0.0
    ensures JaccardScore(m) == Value(0.0)
  {
    SumOfMaximaZero(m, m.cols);
  }

  lemma {:induction false} SumOfMaximaZero(m: Matrix, c: nat)
    requires m.Shaped() && 0 < m.rows && c <= m.cols
    requires forall i, j | 0 <= i < m.rows && 0 <= j < m.cols :: m.cells[i][j] == 0.0
    ensures SumOfMaxima(m, c) == 0.0
  {
    if c > 0 {
      SumOfMaximaZero(m, c - 1);
      var i :| 0 <= i < m.rows && m.cells[i][c - 1] == ColumnMax(m, c - 1, m.rows);
    }
  }
}
