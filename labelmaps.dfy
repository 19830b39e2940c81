/** Label maps and the pixel counts the evaluation is built from.

    A label map is a grid of non-negative labels: 0 is background and every other value
    names one object. The evaluation only ever looks at the map flattened in row-major
    order, so the counting functions below work on `seq<nat>`. */
module LabelMaps {

  /** A `height` x `width` label map, its pixels flattened row by row. */
  datatype LabelMap = LabelMap(height: nat, width: nat, pixels: seq<nat>)

  /** The distinct labels occurring in `s` (what `np.unique` returns, as a set). */
  function Labels(s: seq<nat>): set<nat>
  {
    set v | v in s
  }

  /** Number of pixels of `s` that carry label `v`. */
  function Count(s: seq<nat>, v: nat): (c: nat)
    ensures c <= |s|
  {
    if |s| == 0 then 0
    else Count(s[..|s| - 1], v) + (if s[|s| - 1] == v then 1 else 0)
  }

  /** A label has a non-zero count exactly when it occurs. */
  lemma {:induction false} CountPositive(s: seq<nat>, v: nat)
    ensures Count(s, v) > 0 <==> v in s
  {
    if |s| > 0 {
      assert s == s[..|s| - 1] + [s[|s| - 1]];
      CountPositive(s[..|s| - 1], v);
    }
  }

  /** Number of positions k where the first map carries `a` and the second carries `b`:
      one cell of the joint (truth, prediction) histogram. */
  function PairCount(x: seq<nat>, y: seq<nat>, a: nat, b: nat): nat
    requires |x| == |y|
  {
    if |x| == 0 then 0
    else PairCount(x[..|x| - 1], y[..|y| - 1], a, b)
         + (if x[|x| - 1] == a && y[|y| - 1] == b then 1 else 0)
  }

  /** The smallest label of a non-empty map. */
  function MinLabel(s: seq<nat>): (m: nat)
    requires |s| > 0
    ensures m in s
    ensures forall k | 0 <= k < |s| :: m <= s[k]
  {
    if |s| == 1 then s[0]
    else
      var rest := MinLabel(s[..|s| - 1]);
      assert s == s[..|s| - 1] + [s[|s| - 1]];
      if s[|s| - 1] < rest then s[|s| - 1] else rest
  }

  /** The largest label of a non-empty map. */
  function MaxLabel(s: seq<nat>): (m: nat)
    requires |s| > 0
    ensures m in s
    ensures forall k | 0 <= k < |s| :: s[k] <= m
  {
    if |s| == 1 then s[0]
    else
      var rest := MaxLabel(s[..|s| - 1]);
      assert s == s[..|s| - 1] + [s[|s| - 1]];
      if s[|s| - 1] > rest then s[|s| - 1] else rest
  }

  /** The labels of `s` form one contiguous range with nothing missing, as they do after
      sequential relabelling: {0, ..., k} when background is present, {1, ..., k} when not. */
  predicate Dense(s: seq<nat>)
  {
    |s| > 0 && forall v | MinLabel(s) <= v <= MaxLabel(s) :: v in s
  }

  /** The n integers lo, lo + 1, ..., lo + n - 1. */
  function Range(lo: nat, n: nat): (r: set<nat>)
    ensures forall v :: v in r <==> lo <= v < lo + n
  {
    if n == 0 then {} else Range(lo, n - 1) + {lo + n - 1}
  }

  lemma {:induction false} RangeSize(lo: nat, n: nat)
    ensures |Range(lo, n)| == n
  {
    if n > 0 {
      var r, top := Range(lo, n - 1), lo + n - 1;
      RangeSize(lo, n - 1);
      assert top !in r;
      assert Range(lo, n) == r + {top};
      assert |r + {top}| == |r| + 1;
    }
  }

  /** For a dense map the number of distinct labels is the width of the label range. */
  lemma DenseLabelCount(s: seq<nat>)
    requires Dense(s)
    ensures |Labels(s)| == MaxLabel(s) - MinLabel(s) + 1
  {
    assert Labels(s) == Range(MinLabel(s), MaxLabel(s) - MinLabel(s) + 1);
    RangeSize(MinLabel(s), MaxLabel(s) - MinLabel(s) + 1);
  }

  /** The count of a map whose labels are those of `s` shifted down by `lo`. */
  lemma {:induction false} CountShifted(x: seq<nat>, s: seq<nat>, lo: nat, a: nat)
    requires |x| == |s|
    requires forall k | 0 <= k < |x| :: x[k] + lo == s[k]
    ensures Count(x, a) == Count(s, lo + a)
  {
    if |x| > 0 {
      CountShifted(x[..|x| - 1], s[..|s| - 1], lo, a);
    }
  }

  lemma {:induction false} PairCountShifted(x: seq<nat>, y: seq<nat>, g: seq<nat>, p: seq<nat>,
                                            gLo: nat, pLo: nat, a: nat, b: nat)
    requires |x| == |y| == |g| == |p|
    requires forall k | 0 <= k < |x| :: x[k] + gLo == g[k] && y[k] + pLo == p[k]
    ensures PairCount(x, y, a, b) == PairCount(g, p, gLo + a, pLo + b)
  {
    if |x| > 0 {
      PairCountShifted(x[..|x| - 1], y[..|y| - 1], g[..|g| - 1], p[..|p| - 1], gLo, pLo, a, b);
    }
  }

  /** A cell of the joint histogram never exceeds either marginal count. */
  lemma {:induction false} PairCountBounds(x: seq<nat>, y: seq<nat>, a: nat, b: nat)
    requires |x| == |y|
    ensures PairCount(x, y, a, b) <= Count(x, a)
    ensures PairCount(x, y, a, b) <= Count(y, b)
  {
    if |x| > 0 {
      PairCountBounds(x[..|x| - 1], y[..|y| - 1], a, b);
    }
  }

  /** Pixels of truth label `a` that the prediction labels `b1` and those it labels `b2`
      are disjoint parts of the area of `a`. */
  lemma {:induction false} PairCountDisjoint(x: seq<nat>, y: seq<nat>, a: nat, b1: nat, b2: nat)
    requires |x| == |y| && b1 != b2
    ensures PairCount(x, y, a, b1) + PairCount(x, y, a, b2) <= Count(x, a)
  {
    if |x| > 0 {
      PairCountDisjoint(x[..|x| - 1], y[..|y| - 1], a, b1, b2);
    }
  }

  /** A pair of labels that no pixel carries together has an empty intersection. */
  lemma {:induction false} PairCountZero(x: seq<nat>, y: seq<nat>, a: nat, b: nat)
    requires |x| == |y|
    requires forall k | 0 <= k < |x| :: x[k] != a || y[k] != b
    ensures PairCount(x, y, a, b) == 0
  {
    if |x| > 0 {
      PairCountZero(x[..|x| - 1], y[..|y| - 1], a, b);
    }
  }

  /** The same pixels counted against themselves: the joint histogram of a map with itself
      is its own histogram on the diagonal. */
  lemma {:induction false} PairCountSelf(x: seq<nat>, a: nat)
    ensures PairCount(x, x, a, a) == Count(x, a)
  {
    if |x| > 0 {
      PairCountSelf(x[..|x| - 1], a);
    }
  }

  /** Sum of the cells (a, 0) .. (a, n-1) of the joint histogram. */
  function RowTotal(x: seq<nat>, y: seq<nat>, a: nat, n: nat): nat
    requires |x| == |y|
  {
    if n == 0 then 0 else RowTotal(x, y, a, n - 1) + PairCount(x, y, a, n - 1)
  }

  /** Sum of the counts of labels 0 .. m-1. */
  function AreaTotal(x: seq<nat>, m: nat): nat
  {
    if m == 0 then 0 else AreaTotal(x, m - 1) + Count(x, m - 1)
  }

  /** Sum of all cells of the m x n joint histogram. */
  function TableTotal(x: seq<nat>, y: seq<nat>, m: nat, n: nat): nat
    requires |x| == |y|
  {
    if m == 0 then 0 else TableTotal(x, y, m - 1, n) + RowTotal(x, y, m - 1, n)
  }

  lemma {:induction false} RowTotalEmpty(x: seq<nat>, y: seq<nat>, a: nat, n: nat)
    requires |x| == |y| == 0
    ensures RowTotal(x, y, a, n) == 0
  {
    if n > 0 {
      RowTotalEmpty(x, y, a, n - 1);
    }
  }

  lemma {:induction false} RowTotalStep(x: seq<nat>, y: seq<nat>, a: nat, n: nat)
    requires |x| == |y| > 0
    ensures RowTotal(x, y, a, n)
         == RowTotal(x[..|x| - 1], y[..|y| - 1], a, n)
            + (if x[|x| - 1] == a && y[|y| - 1] < n then 1 else 0)
  {
    if n > 0 {
      RowTotalStep(x, y, a, n - 1);
    }
  }

  /** When every predicted value is below `n`, row `a` of the joint histogram sums to the
      area of label `a`. */
  lemma {:induction false} RowTotalIsArea(x: seq<nat>, y: seq<nat>, a: nat, n: nat)
    requires |x| == |y|
    requires forall k | 0 <= k < |y| :: y[k] < n
    ensures RowTotal(x, y, a, n) == Count(x, a)
  {
    if |x| == 0 {
      RowTotalEmpty(x, y, a, n);
    } else {
      RowTotalStep(x, y, a, n);
      RowTotalIsArea(x[..|x| - 1], y[..|y| - 1], a, n);
    }
  }

  lemma {:induction false} AreaTotalEmpty(x: seq<nat>, m: nat)
    requires |x| == 0
    ensures AreaTotal(x, m) == 0
  {
    if m > 0 {
      AreaTotalEmpty(x, m - 1);
    }
  }

  lemma {:induction false} AreaTotalStep(x: seq<nat>, m: nat)
    requires |x| > 0
    ensures AreaTotal(x, m) == AreaTotal(x[..|x| - 1], m) + (if x[|x| - 1] < m then 1 else 0)
  {
    if m > 0 {
      AreaTotalStep(x, m - 1);
    }
  }

  /** When every label is below `m`, the areas of labels 0 .. m-1 add up to the pixel count. */
  lemma {:induction false} AreaTotalIsLength(x: seq<nat>, m: nat)
    requires forall k | 0 <= k < |x| :: x[k] < m
    ensures AreaTotal(x, m) == |x|
  {
    if |x| == 0 {
      AreaTotalEmpty(x, m);
    } else {
      AreaTotalStep(x, m);
      AreaTotalIsLength(x[..|x| - 1], m);
    }
  }

  /** Every pixel lands in exactly one cell of an m x n joint histogram that covers all
      values: its cells sum to the pixel count. */
  lemma {:induction false} TableTotalIsLength(x: seq<nat>, y: seq<nat>, m: nat, n: nat)
    requires |x| == |y|
    requires forall k | 0 <= k < |x| :: x[k] < m && y[k] < n
    ensures TableTotal(x, y, m, n) == |x|
  {
    TableTotalIsAreaTotal(x, y, m, n);
    AreaTotalIsLength(x, m);
  }

  lemma {:induction false} TableTotalIsAreaTotal(x: seq<nat>, y: seq<nat>, m: nat, n: nat)
    requires |x| == |y|
    requires forall k | 0 <= k < |y| :: y[k] < n
    ensures TableTotal(x, y, m, n) == AreaTotal(x, m)
  {
    if m > 0 {
      TableTotalIsAreaTotal(x, y, m - 1, n);
      RowTotalIsArea(x, y, m - 1, n);
    }
  }

  /** The number of distinct labels, counted by one pass over the pixels (`len(np.unique(...))`). */
  method CountLabels(s: seq<nat>) returns (n: nat)
    ensures n == |Labels(s)|
  {
    var seen: set<nat> := {};
    for k := 0 to |s|
      invariant seen == Labels(s[..k])
    {
      assert s[..k + 1] == s[..k] + [s[k]];
      seen := seen + {s[k]};
    }
    assert s[..|s|] == s;
    n := |seen|;
  }

  /** The smallest and largest label, found in one pass: the range numpy's histograms bin. */
  method LabelRange(s: seq<nat>) returns (lo: nat, hi: nat)
    requires |s| > 0
    ensures lo == MinLabel(s) && hi == MaxLabel(s)
  {
    lo, hi := s[0], s[0];
    assert s[..1] == [s[0]];
    for k := 1 to |s|
      invariant lo == MinLabel(s[..k]) && hi == MaxLabel(s[..k])
    {
      ghost var t := s[..k + 1];
      assert t[..k] == s[..k] && t[k] == s[k];
      assert MinLabel(t) == if s[k] < lo then s[k] else lo;
      assert MaxLabel(t) == if s[k] > hi then s[k] else hi;
      if s[k] < lo { lo := s[k]; }
      if s[k] > hi { hi := s[k]; }
    }
    assert s[..|s|] == s;
  }
}
