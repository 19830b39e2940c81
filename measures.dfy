/** `measures_at` and the threshold sweep of `evaluate_object_scores` (show_eval.py). An
    entry of the IoU matrix is a match when it is strictly above the threshold. A truth
    object (row) with exactly one match is a true positive, one with no match a false
    negative; a predicted object (column) with no match is a false positive. */
module Measures {
  import opened LabelMaps
  import opened Binning
  import opened Overlap

  /** The number of entries of `row` strictly above t (`np.sum(iou_array > t, axis=1)`). */
  function Matches(row: seq<real>, t: real): (n: nat)
    ensures n <= |row|
    ensures n == 0 <==> forall j | 0 <= j < |row| :: row[j] <= t
  {
    if |row| == 0 then 0
    else Matches(row[..|row| - 1], t) + (if row[|row| - 1] > t then 1 else 0)
  }

  /** Column j of the matrix, top to bottom. */
  function Column(m: Matrix, j: nat): (c: seq<real>)
    requires m.Shaped() && j < m.cols
    ensures |c| == m.rows && forall i | 0 <= i < m.rows :: c[i] == m.cells[i][j]
  {
    seq(m.rows, i requires 0 <= i < m.rows => m.cells[i][j])
  }

  /** The number of rows among the first r that have exactly k matches. */
  function RowsWith(m: Matrix, t: real, k: nat, r: nat): (n: nat)
    requires m.Shaped() && r <= m.rows
    ensures n <= r
  {
    if r == 0 then 0
    else RowsWith(m, t, k, r - 1) + (if Matches(m.cells[r - 1], t) == k then 1 else 0)
  }

  /** The number of columns among the first c that have exactly k matches. */
  function ColumnsWith(m: Matrix, t: real, k: nat, c: nat): (n: nat)
    requires m.Shaped() && c <= m.cols
    ensures n <= c
  {
    if c == 0 then 0
    else ColumnsWith(m, t, k, c - 1) + (if Matches(Column(m, c - 1), t) == k then 1 else 0)
  }

  /** The four values `measures_at` returns. */
  datatype Measures = Measures(f1: real, tp: nat, fp: nat, fn: nat)

  /** F1 = 2 TP / (2 TP + FP + FN + 1e-9) (line 120). */
  function F1(tp: nat, fp: nat, fn: nat): (f: real)
    ensures 0.0 <= f < 1.0
    ensures f == 0.0 <==> tp == 0
  {
    var num := 2.0 * tp as real;
    var den := num + fp as real + fn as real + Epsilon;
    RatioBelowOne(num, den);
    num / den
  }

  lemma RatioBelowOne(num: real, den: real)
    requires 0.0 <= num < den
    ensures 0.0 <= num / den < 1.0
    ensures num / den == 0.0 <==> num == 0.0
  {
    RatioAtMostOne(num, den);
    QuotientIsOne(num, den);
    assert (num / den) * den == num;
  }

  lemma QuotientIsOne(num: real, den: real)
    requires 0.0 < den
    ensures num / den == 1.0 <==> num == den
  {
    assert (num / den) * den == num;
  }

  /** `measures_at(threshold, iou_array)`. Every truth object is counted at most once, as
      true positive or as false negative, and every predicted object at most once. */
  function MeasuresAt(t: real, m: Matrix): (r: Measures)
    requires m.Shaped()
    ensures r.tp + r.fn <= m.rows && r.fp <= m.cols
    ensures 0.0 <= r.f1 < 1.0 && (r.f1 == 0.0 <==> r.tp == 0)
  {
    var tp, fp, fn := RowsWith(m, t, 1, m.rows), ColumnsWith(m, t, 0, m.cols), RowsWith(m, t, 0, m.rows);
    RowsDisjoint(m, t, 1, 0, m.rows);
    Measures(F1(tp, fp, fn), tp, fp, fn)
  }

  /** Rows with k1 matches and rows with k2 != k1 matches are different rows. */
  lemma {:induction false} RowsDisjoint(m: Matrix, t: real, k1: nat, k2: nat, r: nat)
    requires m.Shaped() && r <= m.rows && k1 != k2
    ensures RowsWith(m, t, k1, r) + RowsWith(m, t, k2, r) <= r
  {
    if r > 0 {
      RowsDisjoint(m, t, k1, k2, r - 1);
    }
  }

  /** If no row has more than one match, every truth object is a true positive or a false
      negative. */
  lemma {:induction false} RowsPartition(m: Matrix, t: real, r: nat)
    requires m.Shaped() && r <= m.rows
    requires forall i | 0 <= i < r :: Matches(m.cells[i], t) <= 1
    ensures RowsWith(m, t, 1, r) + RowsWith(m, t, 0, r) == r
  {
    if r > 0 {
      RowsPartition(m, t, r - 1);
    }
  }

  /** Raising the threshold only removes matches. */
  lemma {:induction false} MatchesAntitone(row: seq<real>, t1: real, t2: real)
    requires t1 <= t2
    ensures Matches(row, t2) <= Matches(row, t1)
  {
    if |row| > 0 {
      MatchesAntitone(row[..|row| - 1], t1, t2);
    }
  }

  /** False negatives never decrease when the threshold rises. */
  lemma {:induction false} FalseNegativesMonotone(m: Matrix, t1: real, t2: real, r: nat)
    requires m.Shaped() && r <= m.rows && t1 <= t2
    ensures RowsWith(m, t1, 0, r) <= RowsWith(m, t2, 0, r)
  {
    if r > 0 {
      FalseNegativesMonotone(m, t1, t2, r - 1);
      MatchesAntitone(m.cells[r - 1], t1, t2);
    }
  }

  /** False positives never decrease when the threshold rises. */
  lemma {:induction false} FalsePositivesMonotone(m: Matrix, t1: real, t2: real, c: nat)
    requires m.Shaped() && c <= m.cols && t1 <= t2
    ensures ColumnsWith(m, t1, 0, c) <= ColumnsWith(m, t2, 0, c)
  {
    if c > 0 {
      FalsePositivesMonotone(m, t1, t2, c - 1);
      MatchesAntitone(Column(m, c - 1), t1, t2);
    }
  }

  /** The match set shrinks as the threshold grows: FN and FP are non-decreasing in t. */
  lemma MeasuresMonotone(m: Matrix, t1: real, t2: real)
    requires m.Shaped() && t1 <= t2
    ensures MeasuresAt(t1, m).fn <= MeasuresAt(t2, m).fn
    ensures MeasuresAt(t1, m).fp <= MeasuresAt(t2, m).fp
  {
    FalseNegativesMonotone(m, t1, t2, m.rows);
    FalsePositivesMonotone(m, t1, t2, m.cols);
  }

  /** TP is not monotone in general: a truth object with two matches is no true positive
      until the threshold rises above the smaller one. */
  lemma TruePositivesNotMonotone()
    ensures var m := Matrix(1, 2, [[0.6, 0.8]]);
            MeasuresAt(0.5, m).tp == 0 && MeasuresAt(0.7, m).tp == 1
  {
    var m := Matrix(1, 2, [[0.6, 0.8]]);
    assert [0.6, 0.8][..1] == [0.6];
    assert Matches(m.cells[0], 0.5) == 2;
    assert Matches(m.cells[0], 0.7) == 1;
  }

  /** When no truth object matches two predictions, raising the threshold turns only true
      positives into false negatives, so TP is non-increasing. */
  lemma TruePositivesMonotone(m: Matrix, t1: real, t2: real)
    requires m.Shaped() && t1 <= t2
    requires forall i | 0 <= i < m.rows :: Matches(m.cells[i], t1) <= 1
    ensures MeasuresAt(t2, m).tp <= MeasuresAt(t1, m).tp
    ensures MeasuresAt(t1, m).tp + MeasuresAt(t1, m).fn == m.rows
  {
    forall i | 0 <= i < m.rows
      ensures Matches(m.cells[i], t2) <= 1
    {
      MatchesAntitone(m.cells[i], t1, t2);
    }
    RowsPartition(m, t1, m.rows);
    RowsPartition(m, t2, m.rows);
    FalseNegativesMonotone(m, t1, t2, m.rows);
  }

  /** A row in which no two entries are above t has at most one match. */
  lemma {:induction false} AtMostOneAbove(row: seq<real>, t: real)
    requires forall j1, j2 | 0 <= j1 < |row| && 0 <= j2 < |row| && row[j1] > t && row[j2] > t ::
               j1 == j2
    ensures Matches(row, t) <= 1
  {
    if |row| > 0 {
      var front := row[..|row| - 1];
      AtMostOneAbove(front, t);
      if row[|row| - 1] > t {
        assert forall j | 0 <= j < |front| :: front[j] <= t by {
          forall j | 0 <= j < |front|
            ensures front[j] <= t
          {
            assert row[j] == front[j];
          }
        }
      }
    }
  }

  /** For every IoU matrix built from label maps and every threshold from 1/2 up, each truth
      object has at most one match, so TP + FN counts every truth object. */
  lemma UniqueMatchesAboveHalf(g: seq<nat>, p: seq<nat>, t: real, i: nat)
    requires |g| == |p| > 0 && t >= 0.5 && i < OverlapMatrix(g, p).rows
    ensures Matches(OverlapMatrix(g, p).cells[i], t) <= 1
  {
    var m := OverlapMatrix(g, p);
    var x, y := BinIndices(g, BinsOf(g)), BinIndices(p, BinsOf(p));
    var row := m.cells[i];
    forall j1, j2 | 0 <= j1 < |row| && 0 <= j2 < |row| && row[j1] > t && row[j2] > t
      ensures j1 == j2
    {
      OverlapEntry(g, p, i, j1);
      OverlapEntry(g, p, i, j2);
      AtMostOneMatchAboveHalf(x, y, i + 1, j1 + 1, j2 + 1, t);
    }
    AtMostOneAbove(row, t);
  }

  /** The record the sweep appends for one threshold (line 60). */
  datatype ThresholdResult = ThresholdResult(threshold: real, f1: real, tp: nat, fp: nat, fn: nat)

  function Record(t: real, m: Matrix): ThresholdResult
    requires m.Shaped()
  {
    var r := MeasuresAt(t, m);
    ThresholdResult(t, r.f1, r.tp, r.fp, r.fn)
  }

  predicate Ascending(ts: seq<real>)
  {
    forall k1, k2 | 0 <= k1 <= k2 < |ts| :: ts[k1] <= ts[k2]
  }

  /** The loop of lines 57-61: one record per threshold, in threshold order; over ascending
      thresholds FN and FP never decrease along the result. */
  method Sweep(m: Matrix, thresholds: seq<real>) returns (scores: seq<ThresholdResult>)
    requires m.Shaped()
    ensures |scores| == |thresholds|
    ensures forall k | 0 <= k < |thresholds| :: scores[k] == Record(thresholds[k], m)
    ensures Ascending(thresholds) ==>
              forall k1, k2 | 0 <= k1 <= k2 < |scores| ::
                scores[k1].fn <= scores[k2].fn && scores[k1].fp <= scores[k2].fp
  {
    scores := [];
    for k := 0 to |thresholds|
      invariant |scores| == k
      invariant forall q | 0 <= q < k :: scores[q] == Record(thresholds[q], m)
    {
      var r := MeasuresAt(thresholds[k], m);
      scores := scores + [ThresholdResult(thresholds[k], r.f1, r.tp, r.fp, r.fn)];
    }
    if Ascending(thresholds) {
      forall k1, k2 | 0 <= k1 <= k2 < |scores|
        ensures scores[k1].fn <= scores[k2].fn && scores[k1].fp <= scores[k2].fp
      {
        MeasuresMonotone(m, thresholds[k1], thresholds[k2]);
      }
    }
  }
}
