/** The per-object Intersection-over-Union matrix of `intersection_over_union`
    (show_eval.py). Pixels are binned as numpy bins them (module Binning); the joint
    histogram gives intersections, the two marginal histograms give areas, the union is
    area + area - intersection, the first row and column (bin 0, background after
    relabelling) are dropped, zero unions become 1e-9 and the two are divided. */
module Overlap {
  import opened LabelMaps
  import opened Binning

  /** The constant 1e-9 that the evaluation adds to keep divisions defined. */
  const Epsilon: real := 0.000000001

  /** A real matrix with its shape: a (0 x n) matrix still has n columns. */
  datatype Matrix = Matrix(rows: nat, cols: nat, cells: seq<seq<real>>)
  {
    predicate Shaped()
    {
      |cells| == rows && forall i | 0 <= i < rows :: |cells[i]| == cols
    }

    predicate InUnitRange()
      requires Shaped()
    {
      forall i, j | 0 <= i < rows && 0 <= j < cols :: 0.0 <= cells[i][j] <= 1.0
    }
  }

  /** The two ways numpy's histograms refuse their input: pixel sequences of different
      lengths cannot be paired, and an empty map gives zero bins. */
  datatype Error = ShapeMismatch | NoPixels

  datatype Result<T> = Ok(value: T) | Err(error: Error)

  /** The area of the union of label a in x and label b in y. */
  function UnionArea(x: seq<nat>, y: seq<nat>, a: nat, b: nat): int
    requires |x| == |y|
  {
    Count(x, a) + Count(y, b) - PairCount(x, y, a, b)
  }

  /** `union[union == 0] = 1e-9`: a zero union is replaced before dividing. */
  function SafeUnion(u: real): real
  {
    if u == 0.0 then Epsilon else u
  }

  /** Intersection over union of label a in x against label b in y. */
  function IoU(x: seq<nat>, y: seq<nat>, a: nat, b: nat): real
    requires |x| == |y|
  {
    PairCount(x, y, a, b) as real / SafeUnion(UnionArea(x, y, a, b) as real)
  }

  /** The matrix `intersection_over_union(g, p)` returns: bins 1.. of the truth map
      against bins 1.. of the prediction, bin 0 of each side left out. Its shape is the
      number of distinct labels minus one on each side. */
  function OverlapMatrix(g: seq<nat>, p: seq<nat>): (m: Matrix)
    requires |g| == |p| > 0
    ensures m.Shaped()
    ensures m.rows == |Labels(g)| - 1 && m.cols == |Labels(p)| - 1
  {
    var gb, pb := BinsOf(g), BinsOf(p);
    var x, y := BinIndices(g, gb), BinIndices(p, pb);
    Matrix(gb.n - 1, pb.n - 1,
           seq(gb.n - 1, i requires 0 <= i < gb.n - 1 =>
             seq(pb.n - 1, j requires 0 <= j < pb.n - 1 => IoU(x, y, i + 1, j + 1))))
  }

  /** Entry (i, j) compares bin i + 1 of the truth map with bin j + 1 of the prediction. */
  lemma OverlapEntry(g: seq<nat>, p: seq<nat>, i: nat, j: nat)
    requires |g| == |p| > 0
    requires i < OverlapMatrix(g, p).rows && j < OverlapMatrix(g, p).cols
    ensures OverlapMatrix(g, p).cells[i][j]
         == IoU(BinIndices(g, BinsOf(g)), BinIndices(p, BinsOf(p)), i + 1, j + 1)
  {
    assert BinsOf(g).n > 0 && BinsOf(p).n > 0;
  }

  /** The union contains the intersection and both objects. */
  lemma UnionBounds(x: seq<nat>, y: seq<nat>, a: nat, b: nat)
    requires |x| == |y|
    ensures UnionArea(x, y, a, b) >= PairCount(x, y, a, b)
    ensures UnionArea(x, y, a, b) >= Count(x, a)
    ensures UnionArea(x, y, a, b) >= Count(y, b)
  {
    PairCountBounds(x, y, a, b);
  }

  /** Every IoU lies in [0, 1]; a pair whose union is empty gets 0 (never a division by 0). */
  lemma IoUInUnitRange(x: seq<nat>, y: seq<nat>, a: nat, b: nat)
    requires |x| == |y|
    ensures 0.0 <= IoU(x, y, a, b) <= 1.0
    ensures UnionArea(x, y, a, b) == 0 ==> IoU(x, y, a, b) == 0.0
  {
    UnionBounds(x, y, a, b);
    var i, u := PairCount(x, y, a, b) as real, UnionArea(x, y, a, b) as real;
    if u != 0.0 {
      RatioAtMostOne(i, u);
    }
  }

  /** Objects that share no pixel have IoU 0. */
  lemma ZeroIntersection(x: seq<nat>, y: seq<nat>, a: nat, b: nat)
    requires |x| == |y| && PairCount(x, y, a, b) == 0
    ensures IoU(x, y, a, b) == 0.0
  {
  }

  /** A non-empty object has IoU 1 with itself. */
  lemma SelfIoU(x: seq<nat>, a: nat)
    requires Count(x, a) > 0
    ensures IoU(x, x, a, a) == 1.0
  {
    PairCountSelf(x, a);
    var n := Count(x, a);
    assert UnionArea(x, x, a, a) == n;
    var c := n as real;
    assert c != 0.0;
    assert SafeUnion(c) == c;
    assert IoU(x, x, a, a) == c / c;
  }

  /** Two objects that cover the same pixels (their intersection is each of them) have
      IoU 1. */
  lemma SameObjectIoU(x: seq<nat>, y: seq<nat>, a: nat, b: nat)
    requires |x| == |y| && 0 < PairCount(x, y, a, b) == Count(x, a) == Count(y, b)
    ensures IoU(x, y, a, b) == 1.0
  {
    var c := PairCount(x, y, a, b) as real;
    assert UnionArea(x, y, a, b) as real == c;
    assert c != 0.0;
    assert SafeUnion(c) == c;
    assert IoU(x, y, a, b) == c / c;
    QuotientOfSelf(c);
  }

  lemma QuotientOfSelf(c: real)
    requires c != 0.0
    ensures c / c == 1.0
  {
  }

  lemma RatioAtMostOne(i: real, u: real)
    requires 0.0 <= i <= u && 0.0 < u
    ensures 0.0 <= i / u <= 1.0
  {
    assert (i / u) * u == i;
  }

  /** Every entry of the overlap matrix lies in [0, 1]. */
  lemma OverlapInUnitRange(g: seq<nat>, p: seq<nat>)
    requires |g| == |p| > 0
    ensures OverlapMatrix(g, p).InUnitRange()
  {
    var m := OverlapMatrix(g, p);
    var x, y := BinIndices(g, BinsOf(g)), BinIndices(p, BinsOf(p));
    forall i, j | 0 <= i < m.rows && 0 <= j < m.cols
      ensures 0.0 <= m.cells[i][j] <= 1.0
    {
      OverlapEntry(g, p, i, j);
      IoUInUnitRange(x, y, i + 1, j + 1);
    }
  }

  /** The joint histogram accounts for every pixel: row a sums to the area of bin a of
      the truth map, and all cells together sum to the pixel count. */
  lemma JointHistogramTotals(g: seq<nat>, p: seq<nat>, a: nat)
    requires |g| == |p| > 0
    ensures var x, y := BinIndices(g, BinsOf(g)), BinIndices(p, BinsOf(p));
            RowTotal(x, y, a, BinsOf(p).n) == Count(x, a)
            && TableTotal(x, y, BinsOf(g).n, BinsOf(p).n) == |g|
  {
    var x, y := BinIndices(g, BinsOf(g)), BinIndices(p, BinsOf(p));
    RowTotalIsArea(x, y, a, BinsOf(p).n);
    TableTotalIsLength(x, y, BinsOf(g).n, BinsOf(p).n);
  }

  /** Dropping the first bin drops the background when the map has one, and otherwise
      the first object: the matrix then has one row fewer than there are objects. */
  lemma RowsCountObjects(g: seq<nat>, p: seq<nat>)
    requires |g| == |p| > 0
    ensures var m := OverlapMatrix(g, p);
            && (0 in g ==> m.rows == |Labels(g) - {0}|)
            && (0 !in g ==> m.rows == |Labels(g) - {0}| - 1)
            && (0 in p ==> m.cols == |Labels(p) - {0}|)
            && (0 !in p ==> m.cols == |Labels(p) - {0}| - 1)
  {
    LabelsAboveBackground(g);
    LabelsAboveBackground(p);
  }

  lemma LabelsAboveBackground(s: seq<nat>)
    ensures 0 in s ==> |Labels(s)| == |Labels(s) - {0}| + 1
    ensures 0 !in s ==> |Labels(s)| == |Labels(s) - {0}|
  {
    if 0 in s {
      assert Labels(s) == (Labels(s) - {0}) + {0};
    } else {
      assert Labels(s) - {0} == Labels(s);
    }
  }

  /** Above one half, a truth object overlaps at most one predicted object: two predictions
      would each need more than half of the object's area. */
  lemma AtMostOneMatchAboveHalf(x: seq<nat>, y: seq<nat>, a: nat, b1: nat, b2: nat, t: real)
    requires |x| == |y| && t >= 0.5
    requires IoU(x, y, a, b1) > t && IoU(x, y, a, b2) > t
    ensures b1 == b2
  {
    if b1 != b2 {
      MoreThanHalf(x, y, a, b1, t);
      MoreThanHalf(x, y, a, b2, t);
      PairCountDisjoint(x, y, a, b1, b2);
      assert false;
    }
  }

  /** An IoU above one half means the intersection holds more than half the truth object. */
  lemma MoreThanHalf(x: seq<nat>, y: seq<nat>, a: nat, b: nat, t: real)
    requires |x| == |y| && t >= 0.5 && IoU(x, y, a, b) > t
    ensures 2 * PairCount(x, y, a, b) > Count(x, a)
  {
    UnionBounds(x, y, a, b);
    var i, u := PairCount(x, y, a, b) as real, UnionArea(x, y, a, b) as real;
    assert u != 0.0;
    RatioAboveHalf(i, u, t);
  }

  lemma RatioAboveHalf(i: real, u: real, t: real)
    requires 0.0 < u && 0.5 <= t < i / u
    ensures 2.0 * i > u
  {
    assert (i / u) * u == i;
    assert (i / u) * u > 0.5 * u;
  }

  /** Two matrices of one shape whose entries agree are equal. */
  lemma SameCells(m: Matrix, n: Matrix)
    requires m.Shaped() && n.Shaped() && m.rows == n.rows && m.cols == n.cols
    requires forall i, j | 0 <= i < m.rows && 0 <= j < m.cols :: m.cells[i][j] == n.cells[i][j]
    ensures m == n
  {
    forall i | 0 <= i < m.rows
      ensures m.cells[i] == n.cells[i]
    {
    }
  }

  /** The union matrix `area_true + area_pred - intersection`, broadcast over all bins. */
  method UnionAreas(inter: array2<nat>, areaTrue: array<nat>, areaPred: array<nat>)
    returns (u: array2<real>)
    requires inter.Length0 == areaTrue.Length && inter.Length1 == areaPred.Length
    ensures fresh(u) && u.Length0 == inter.Length0 && u.Length1 == inter.Length1
    ensures forall a, b | 0 <= a < u.Length0 && 0 <= b < u.Length1 ::
              u[a, b] == areaTrue[a] as real + areaPred[b] as real - inter[a, b] as real
  {
    u := new real[inter.Length0, inter.Length1]((a, b)
          reads inter, areaTrue, areaPred
          requires 0 <= a < inter.Length0 && 0 <= b < inter.Length1 =>
          areaTrue[a] as real + areaPred[b] as real - inter[a, b] as real);
  }

  /** `h[1:, 1:]`: the matrix without its first row and first column. */
  method DropFirstRowAndColumn<T>(h: array2<T>) returns (r: array2<T>)
    requires 0 < h.Length0 && 0 < h.Length1
    ensures fresh(r) && r.Length0 == h.Length0 - 1 && r.Length1 == h.Length1 - 1
    ensures forall i, j | 0 <= i < r.Length0 && 0 <= j < r.Length1 :: r[i, j] == h[i + 1, j + 1]
  {
    r := new T[h.Length0 - 1, h.Length1 - 1]((i, j)
          reads h
          requires 0 <= i < h.Length0 - 1 && 0 <= j < h.Length1 - 1 => h[i + 1, j + 1]);
  }

  /** `union[union == 0] = 1e-9`, in place. */
  method ReplaceZeroUnions(u: array2<real>)
    modifies u
    ensures forall a, b | 0 <= a < u.Length0 && 0 <= b < u.Length1 :: u[a, b] == SafeUnion(old(u[a, b]))
  {
    for a := 0 to u.Length0
      invariant forall a', b | 0 <= a' < a && 0 <= b < u.Length1 :: u[a', b] == SafeUnion(old(u[a', b]))
      invariant forall a', b | a <= a' < u.Length0 && 0 <= b < u.Length1 :: u[a', b] == old(u[a', b])
    {
      for b := 0 to u.Length1
        invariant forall a', b' | 0 <= a' < a && 0 <= b' < u.Length1 :: u[a', b'] == SafeUnion(old(u[a', b']))
        invariant forall b' | 0 <= b' < b :: u[a, b'] == SafeUnion(old(u[a, b']))
        invariant forall b' | b <= b' < u.Length1 :: u[a, b'] == old(u[a, b'])
        invariant forall a', b' | a < a' < u.Length0 && 0 <= b' < u.Length1 :: u[a', b'] == old(u[a', b'])
      {
        if u[a, b] == 0.0 {
          u[a, b] := Epsilon;
        }
      }
    }
  }

  /** `intersection / union`, elementwise, as a matrix value. */
  method Divide(inter: array2<nat>, union: array2<real>) returns (m: Matrix)
    requires inter.Length0 == union.Length0 && inter.Length1 == union.Length1
    requires forall a, b | 0 <= a < union.Length0 && 0 <= b < union.Length1 :: union[a, b] != 0.0
    ensures m.Shaped() && m.rows == inter.Length0 && m.cols == inter.Length1
    ensures forall i, j | 0 <= i < m.rows && 0 <= j < m.cols ::
              m.cells[i][j] == inter[i, j] as real / union[i, j]
  {
    var cells: seq<seq<real>> := [];
    for i := 0 to inter.Length0
      invariant |cells| == i
      invariant forall i' | 0 <= i' < i :: |cells[i']| == inter.Length1
      invariant forall i', j | 0 <= i' < i && 0 <= j < inter.Length1 ::
                  cells[i'][j] == inter[i', j] as real / union[i', j]
    {
      var row: seq<real> := [];
      for j := 0 to inter.Length1
        invariant |row| == j
        invariant forall j' | 0 <= j' < j :: row[j'] == inter[i, j'] as real / union[i, j']
      {
        row := row + [inter[i, j] as real / union[i, j]];
      }
      cells := cells + [row];
    }
    m := Matrix(inter.Length0, inter.Length1, cells);
  }

  /** `intersection_over_union(ground_truth, prediction)`. */
  method IntersectionOverUnion(groundTruth: LabelMap, prediction: LabelMap) returns (r: Result<Matrix>)
    ensures |groundTruth.pixels| != |prediction.pixels| ==> r == Err(ShapeMismatch)
    ensures |groundTruth.pixels| == |prediction.pixels| == 0 ==> r == Err(NoPixels)
    ensures |groundTruth.pixels| == |prediction.pixels| > 0 ==>
              r == Ok(OverlapMatrix(groundTruth.pixels, prediction.pixels))
  {
    var g, p := groundTruth.pixels, prediction.pixels;
    if |g| != |p| {
      return Err(ShapeMismatch);
    }
    if |g| == 0 {
      return Err(NoPixels);
    }
    // One bin per distinct label over the label range of each map
    var trueObjects := CountLabels(g);
    var predObjects := CountLabels(p);
    var gLo, gHi := LabelRange(g);
    var pLo, pHi := LabelRange(p);
    var gBins, pBins := Bins(gLo, gHi, trueObjects), Bins(pLo, pHi, predObjects);
    assert gBins == BinsOf(g) && pBins == BinsOf(p);
    // Pixel counts per bin pair and per bin
    var intersection := JointHistogram(g, p, gBins, pBins);
    var areaTrue := Histogram(g, gBins);
    var areaPred := Histogram(p, pBins);
    var union := UnionAreas(intersection, areaTrue, areaPred);
    // Bin 0 of each side is left out
    var inter1 := DropFirstRowAndColumn(intersection);
    var union1 := DropFirstRowAndColumn(union);
    ReplaceZeroUnions(union1);
    var m := Divide(inter1, union1);

    ghost var spec := OverlapMatrix(g, p);
    ghost var x, y := BinIndices(g, gBins), BinIndices(p, pBins);
    forall i, j | 0 <= i < m.rows && 0 <= j < m.cols
      ensures m.cells[i][j] == spec.cells[i][j]
    {
      assert inter1[i, j] == PairCount(x, y, i + 1, j + 1);
      assert union1[i, j] == SafeUnion(UnionArea(x, y, i + 1, j + 1) as real);
      OverlapEntry(g, p, i, j);
    }
    SameCells(m, spec);
    r := Ok(m);
  }
}
