/** The equal-width binning behind the histograms of `intersection_over_union`.

    `np.histogram(s, bins=n)` and `np.histogram2d(..., bins=(n, m))` split the value range
    [min, max] of each map into n bins of width (max - min) / n; a value falls into bin
    floor((v - min) * n / (max - min)), the maximum itself into the last bin, and a range of
    a single value is widened around it so that all pixels fall into the one bin. The
    number of bins is the number of distinct labels. Bins equal labels (shifted by the
    minimum) exactly when the labels are contiguous: `DenseBins` proves one direction and
    `SparseBinsDiffer` the other. */
module Binning {
  import opened LabelMaps

  /** n equal-width bins over the closed label range [lo, hi]. */
  datatype Bins = Bins(lo: nat, hi: nat, n: nat)
  {
    /** Every pixel of `s` lies in the range, and there is at least one bin. */
    predicate Covers(s: seq<nat>)
    {
      0 < n && lo <= hi && forall k | 0 <= k < |s| :: lo <= s[k] <= hi
    }

    /** The bin a value of the range falls into: floor((v - lo) * n / (hi - lo)), the
        right edge hi itself counted in the last bin. On non-negative integers Dafny's `/`
        is exactly that floor of the ratio. A range of one value is widened by numpy to
        [lo - 1/2, lo + 1/2], whose middle lo falls into bin floor(n / 2). */
    function Index(v: nat): (b: nat)
      requires 0 < n && lo <= v <= hi
      ensures b < n
      ensures lo < hi && v == hi ==> b == n - 1
      ensures lo == hi ==> b == n / 2
    {
      if lo == hi then n / 2
      else
        MulNonNegative(v - lo, n);
        DivUnique((hi - lo) * n, hi - lo, n, 0);
        var f := (v - lo) * n / (hi - lo);
        if f >= n then n - 1 else f
    }
  }

  /** The binning numpy picks for one label map: as many bins as distinct labels
      (`len(np.unique(s))`) over the range from the smallest to the largest label. */
  function BinsOf(s: seq<nat>): (b: Bins)
    requires |s| > 0
    ensures b.Covers(s)
    ensures b.n == |Labels(s)|
  {
    assert s[0] in Labels(s);
    Bins(MinLabel(s), MaxLabel(s), |Labels(s)|)
  }

  /** The bin of every pixel, in pixel order. */
  function BinIndices(s: seq<nat>, b: Bins): (r: seq<nat>)
    requires b.Covers(s)
    ensures |r| == |s|
    ensures forall k | 0 <= k < |s| :: r[k] == b.Index(s[k]) && r[k] < b.n
  {
    seq(|s|, k requires 0 <= k < |s| => b.Index(s[k]))
  }

  /** With one bin per integer of the range, equal-width binning puts value v into bin v - lo. */
  lemma BinIsOffset(b: Bins, v: nat)
    requires b.n == b.hi - b.lo + 1 && b.lo <= v <= b.hi
    ensures b.Index(v) == v - b.lo
  {
    var j, d := v - b.lo, b.hi - b.lo;
    if j < d {
      assert j * b.n == d * j + j;
      DivUnique(j * b.n, d, j, j);
    } else if 0 < d {
      DivUnique(d * b.n, d, b.n, 0);
    }
  }

  /** Euclidean division is determined by quotient and remainder. */
  lemma DivUnique(a: int, d: int, q: int, r: int)
    requires 0 < d && 0 <= r < d && a == d * q + r
    ensures a / d == q
  {
    var q', r' := a / d, a % d;
    assert d * q' + r' == d * q + r;
    var e := q - q';
    assert d * e == r' - r by { assert d * e == d * q - d * q'; }
    if e >= 1 { MulAtLeast(d, e); }
    if e <= -1 { assert d * (-e) == -(d * e); MulAtLeast(d, -e); }
  }

  lemma MulNonNegative(a: nat, b: nat)
    ensures 0 <= a * b
  {
  }

  lemma MulAtLeast(d: int, e: int)
    requires 0 < d && 1 <= e
    ensures d <= d * e
  {
    assert d * e == d + d * (e - 1);
    assert d * (e - 1) >= 0;
  }

  /** After sequential relabelling each bin holds exactly one label: bin a holds label
      MinLabel(s) + a, and there are exactly as many bins as labels in the range. */
  lemma DenseBins(s: seq<nat>)
    requires Dense(s)
    ensures BinsOf(s).n == MaxLabel(s) - MinLabel(s) + 1
    ensures forall k | 0 <= k < |s| :: BinIndices(s, BinsOf(s))[k] + MinLabel(s) == s[k]
  {
    DenseLabelCount(s);
    var b := BinsOf(s);
    forall k | 0 <= k < |s|
      ensures BinIndices(s, b)[k] + MinLabel(s) == s[k]
    {
      BinIsOffset(b, s[k]);
    }
  }

  /** A map whose label range has a gap has fewer distinct labels than the range has
      integers, and so more than one label. */
  lemma FewerLabelsThanRange(s: seq<nat>)
    requires |s| > 0 && !Dense(s)
    ensures MinLabel(s) < MaxLabel(s)
    ensures |Labels(s)| < MaxLabel(s) - MinLabel(s) + 1
  {
    var lo, hi := MinLabel(s), MaxLabel(s);
    var v :| lo <= v <= hi && v !in s;
    assert lo != v && v != hi;
    var n: nat := hi - lo + 1;
    var r, labels := Range(lo, n), Labels(s);
    RangeSize(lo, n);
    assert v !in labels;
    LabelsInRange(s);
    ProperSubsetSmaller(labels, r, v);
  }

  lemma LabelsInRange(s: seq<nat>)
    requires |s| > 0
    ensures Labels(s) <= Range(MinLabel(s), MaxLabel(s) - MinLabel(s) + 1)
  {
    var lo, hi := MinLabel(s), MaxLabel(s);
    var n: nat := hi - lo + 1;
    forall x | x in Labels(s)
      ensures x in Range(lo, n)
    {
      var k :| 0 <= k < |s| && s[k] == x;
    }
  }

  lemma ProperSubsetSmaller(a: set<nat>, r: set<nat>, v: nat)
    requires a <= r && v in r && v !in a
    ensures |a| < |r|
  {
    var rest := r - {v};
    var unused := rest - a;
    assert rest == a + unused && a * unused == {};
    assert |rest| == |r| - 1;
  }

  /** The converse of `DenseBins`: when the labels are not contiguous some pixel's bin is
      not its label minus the smallest label. The pixel carrying the largest label lands in
      the last bin, which lies below its offset from the smallest label. */
  lemma SparseBinsDiffer(s: seq<nat>)
    requires |s| > 0 && !Dense(s)
    ensures exists k | 0 <= k < |s| :: BinIndices(s, BinsOf(s))[k] + MinLabel(s) != s[k]
  {
    FewerLabelsThanRange(s);
    var b := BinsOf(s);
    var k :| 0 <= k < |s| && s[k] == MaxLabel(s);
    assert BinIndices(s, b)[k] == b.n - 1;
  }

  /** Every bin of a dense map is the bin of some label present in the map. */
  lemma DenseHasOffset(s: seq<nat>, a: nat)
    requires Dense(s) && a < |Labels(s)|
    ensures MinLabel(s) + a in s
  {
    DenseLabelCount(s);
  }

  /** No bin of a dense map is empty. */
  lemma DenseBinNonEmpty(s: seq<nat>, a: nat)
    requires Dense(s) && a < |Labels(s)|
    ensures Count(BinIndices(s, BinsOf(s)), a) > 0
  {
    DenseCount(s, a);
    DenseHasOffset(s, a);
    CountPositive(s, MinLabel(s) + a);
  }

  /** Bin a of a dense map counts the pixels of label MinLabel(s) + a. */
  lemma DenseCount(s: seq<nat>, a: nat)
    requires Dense(s)
    ensures Count(BinIndices(s, BinsOf(s)), a) == Count(s, MinLabel(s) + a)
  {
    DenseBins(s);
    CountShifted(BinIndices(s, BinsOf(s)), s, MinLabel(s), a);
  }

  /** The pixel histogram over the bins of `bins` (`np.histogram(s, bins=n)[0]`), one
      counting pass over the pixels. */
  method Histogram(s: seq<nat>, bins: Bins) returns (h: array<nat>)
    requires bins.Covers(s)
    ensures fresh(h) && h.Length == bins.n
    ensures forall a | 0 <= a < bins.n :: h[a] == Count(BinIndices(s, bins), a)
  {
    ghost var x := BinIndices(s, bins);
    h := new nat[bins.n](_ => 0);
    for k := 0 to |s|
      invariant forall a | 0 <= a < bins.n :: h[a] == Count(x[..k], a)
    {
      assert x[..k + 1][..k] == x[..k];
      var i := bins.Index(s[k]);
      h[i] := h[i] + 1;
    }
    assert x[..|s|] == x;
  }

  /** The joint histogram of paired pixels (`np.histogram2d(g, p, bins=(n, m))[0]`), one
      counting pass over the pixels. */
  method JointHistogram(g: seq<nat>, p: seq<nat>, gBins: Bins, pBins: Bins)
    returns (h: array2<nat>)
    requires |g| == |p| && gBins.Covers(g) && pBins.Covers(p)
    ensures fresh(h) && h.Length0 == gBins.n && h.Length1 == pBins.n
    ensures forall a, b | 0 <= a < gBins.n && 0 <= b < pBins.n ::
              h[a, b] == PairCount(BinIndices(g, gBins), BinIndices(p, pBins), a, b)
  {
    ghost var x, y := BinIndices(g, gBins), BinIndices(p, pBins);
    h := new nat[gBins.n, pBins.n]((_, _) => 0);
    for k := 0 to |g|
      invariant forall a, b | 0 <= a < gBins.n && 0 <= b < pBins.n ::
                  h[a, b] == PairCount(x[..k], y[..k], a, b)
    {
      assert x[..k + 1][..k] == x[..k] && y[..k + 1][..k] == y[..k];
      var i, j := gBins.Index(g[k]), pBins.Index(p[k]);
      h[i, j] := h[i, j] + 1;
    }
    assert x[..|g|] == x && y[..|p|] == y;
  }
}
