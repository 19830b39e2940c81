/** What the overlap matrix means for sequentially relabelled maps.

    `evaluate_jaccard_score` and `evaluate_object_scores` relabel both maps before building
    the matrix, so that their labels are contiguous. Then each equal-width bin holds exactly
    one label and the matrix is the per-object IoU table: entry (i, j) compares truth
    object i + 1 with predicted object j + 1 when both maps contain background. */
module Relabelled {
  import opened LabelMaps
  import opened Binning
  import opened Overlap

  /** For relabelled (dense) maps there is one row per truth label above the smallest and
      one column per predicted label above the smallest. */
  lemma DenseShape(g: seq<nat>, p: seq<nat>)
    requires |g| == |p| && Dense(g) && Dense(p)
    ensures OverlapMatrix(g, p).rows == MaxLabel(g) - MinLabel(g)
    ensures OverlapMatrix(g, p).cols == MaxLabel(p) - MinLabel(p)
  {
    DenseLabelCount(g);
    DenseLabelCount(p);
  }

  /** For relabelled (dense) maps the bins are the labels, so entry (i, j) of the matrix
      built from the histograms is the IoU of truth label MinLabel(g) + 1 + i with predicted
      label MinLabel(p) + 1 + j. */
  lemma DenseCell(g: seq<nat>, p: seq<nat>, i: nat, j: nat)
    requires |g| == |p| && Dense(g) && Dense(p)
    requires i < OverlapMatrix(g, p).rows && j < OverlapMatrix(g, p).cols
    ensures OverlapMatrix(g, p).cells[i][j] == IoU(g, p, MinLabel(g) + 1 + i, MinLabel(p) + 1 + j)
  {
    OverlapEntry(g, p, i, j);
    DenseEntry(g, p, i, j);
  }

  lemma DenseEntry(g: seq<nat>, p: seq<nat>, i: nat, j: nat)
    requires |g| == |p| && Dense(g) && Dense(p)
    ensures var x, y := BinIndices(g, BinsOf(g)), BinIndices(p, BinsOf(p));
            IoU(x, y, i + 1, j + 1) == IoU(g, p, MinLabel(g) + 1 + i, MinLabel(p) + 1 + j)
  {
    var x, y := BinIndices(g, BinsOf(g)), BinIndices(p, BinsOf(p));
    var gLo, pLo := MinLabel(g), MinLabel(p);
    DenseBins(g);
    DenseBins(p);
    IoUOfShifted(x, y, g, p, gLo, pLo, i + 1, j + 1);
    assert gLo + (i + 1) == gLo + 1 + i && pLo + (j + 1) == pLo + 1 + j;
  }

  /** Shifting both maps' labels by constants does not change the IoU of corresponding labels. */
  lemma IoUOfShifted(x: seq<nat>, y: seq<nat>, g: seq<nat>, p: seq<nat>,
                     gLo: nat, pLo: nat, a: nat, b: nat)
    requires |x| == |y| == |g| == |p|
    requires forall k | 0 <= k < |x| :: x[k] + gLo == g[k] && y[k] + pLo == p[k]
    ensures IoU(x, y, a, b) == IoU(g, p, gLo + a, pLo + b)
  {
    CountShifted(x, g, gLo, a);
    CountShifted(y, p, pLo, b);
    PairCountShifted(x, y, g, p, gLo, pLo, a, b);
  }

  /** No entry of the table of a dense truth map has an empty union: every label of the
      range occurs, so the 1e-9 substitute for an empty union is never used. */
  lemma DenseUnionPositive(g: seq<nat>, p: seq<nat>, a: nat, b: nat)
    requires |g| == |p| && Dense(g) && MinLabel(g) <= a <= MaxLabel(g)
    ensures UnionArea(g, p, a, b) >= 1
  {
    assert a in g;
    CountPositive(g, a);
    UnionBounds(g, p, a, b);
  }

  /** With background present on both sides the matrix has one row per truth object and
      one column per predicted object. */
  lemma BackgroundShape(g: seq<nat>, p: seq<nat>)
    requires |g| == |p| && Dense(g) && Dense(p) && 0 in g && 0 in p
    ensures OverlapMatrix(g, p).rows == MaxLabel(g) && OverlapMatrix(g, p).cols == MaxLabel(p)
  {
    DenseLabelCount(g);
    DenseLabelCount(p);
  }

  /** With background present on both sides, entry (i, j) is the IoU of truth object i + 1
      and predicted object j + 1: the background row and column are the ones dropped. */
  lemma BackgroundExcluded(g: seq<nat>, p: seq<nat>, i: nat, j: nat)
    requires |g| == |p| && Dense(g) && Dense(p) && 0 in g && 0 in p
    requires i < OverlapMatrix(g, p).rows && j < OverlapMatrix(g, p).cols
    ensures OverlapMatrix(g, p).cells[i][j] == IoU(g, p, i + 1, j + 1)
  {
    DenseCell(g, p, i, j);
    assert MinLabel(g) == 0 && MinLabel(p) == 0;
  }
}
