/** Position fusion: turning the first detected box and a depth grid into the
    `[x, y, z]` triple handed to the audio renderer (`get_position_bbox` in
    auralize.py). The axis usage of the source is kept as written: `x` is
    normalised against `shape[0]`, `y` against `shape[1]`, and the depth grid
    is sliced with `left:right` on its first axis and `top:bottom` on its
    second. */
module PositionFusion {
  import opened Common

  /** A detector box in the order the detector emits it. */
  datatype Box = Box(top: real, left: real, bottom: real, right: real)

  /** The first two entries of `img.shape` of the annotated frame. The source
      unpacks them as `im_width, im_height`; for a numpy image `dim0` is the
      row count. */
  datatype Shape = Shape(dim0: nat, dim1: nat)

  /** A dense depth grid, `cells[r][c]`, every row `cols` long. */
  datatype DepthMap = DepthMap(cols: nat, cells: seq<seq<real>>)

  /** numpy's `mean` of an empty array is NaN rather than an error. */
  datatype Depth = Finite(value: real) | NotANumber

  /** The `[pos_x, pos_y, pos_z]` list. */
  datatype Position = Position(x: real, y: real, z: Depth)

  predicate ValidDepth(d: DepthMap)
  {
    Rectangular(d.cells, d.cols)
  }

  /** Python's `int()` on a float: truncation toward zero. */
  function Trunc(x: real): (r: int)
    ensures 0.0 <= x ==> 0 <= r && r as real <= x < r as real + 1.0
    ensures x < 0.0 ==> r <= 0 && r as real - 1.0 < x <= r as real
  {
    if x >= 0.0 then x.Floor else -((-x).Floor)
  }

  /** Where one bound of a Python slice `a[i:…]` lands in a sequence of length
      `n`: negative bounds count from the end, then the bound is clamped. */
  function SliceBound(i: int, n: nat): (r: nat)
    ensures r <= n
    ensures 0 <= i <= n ==> r == i
    ensures n < i ==> r == n
    ensures i < 0 && 0 <= i + n ==> r == i + n
    ensures i + n < 0 ==> r == 0
  {
    if i < 0 then (if i + n < 0 then 0 else i + n)
    else if i > n then n
    else i
  }

  /** Coordinate `c` relative to the centre of an axis of length `dim`, in
      units of `dim`. */
  function Normalize(c: real, dim: nat): (r: real)
    requires dim > 0
    ensures r * dim as real + dim as real / 2.0 == c
    ensures 0.0 <= c <= dim as real ==> -0.5 <= r <= 0.5
  {
    (c - dim as real / 2.0) / dim as real
  }

  /** Scaling `r` back by `dim` and shifting by half of `dim` lands on the
      midpoint of `[lo, hi]`. */
  predicate CentredAt(r: real, lo: real, hi: real, dim: nat)
  {
    r * dim as real + dim as real / 2.0 == (lo + hi) / 2.0
  }

  /** The midpoint of `[lo, hi]`, computed as the source does
      (`(hi - lo) / 2 + lo`), normalised against `dim`. */
  function AxisPosition(lo: real, hi: real, dim: nat): (r: real)
    requires dim > 0
    ensures CentredAt(r, lo, hi, dim)
  {
    Normalize((hi - lo) / 2.0 + lo, dim)
  }

  /** Rows `r0 .. r1` of the grid, each cut to columns `c0 .. c1`. */
  function SelectedRows(d: DepthMap, r0: nat, r1: nat, c0: nat, c1: nat): (rows: seq<seq<real>>)
    requires ValidDepth(d) && r0 <= r1 <= |d.cells| && c0 <= c1 <= d.cols
    ensures |rows| == r1 - r0 && Rectangular(rows, c1 - c0)
    ensures forall k :: 0 <= k < |rows| ==> rows[k] == d.cells[r0 + k][c0..c1]
  {
    seq(r1 - r0, k requires 0 <= k < r1 - r0 => d.cells[r0 + k][c0..c1])
  }

  /** Cell (i, j) lies in the 2-D slice `cells[rowLo:rowHi, colLo:colHi]`. */
  predicate InRegion(d: DepthMap, rowLo: int, rowHi: int, colLo: int, colHi: int, i: int, j: int)
  {
    && SliceBound(rowLo, |d.cells|) <= i < SliceBound(rowHi, |d.cells|)
    && SliceBound(colLo, d.cols) <= j < SliceBound(colHi, d.cols)
  }

  /** The rows of the 2-D slice `cells[rowLo:rowHi, colLo:colHi]`. */
  function RegionRows(d: DepthMap, rowLo: int, rowHi: int, colLo: int, colHi: int): (rows: seq<seq<real>>)
    requires ValidDepth(d)
  {
    var r0, c0 := SliceBound(rowLo, |d.cells|), SliceBound(colLo, d.cols);
    var r1 := if r0 < SliceBound(rowHi, |d.cells|) then SliceBound(rowHi, |d.cells|) else r0;
    var c1 := if c0 < SliceBound(colHi, d.cols) then SliceBound(colHi, d.cols) else c0;
    SelectedRows(d, r0, r1, c0, c1)
  }

  /** The entries of the 2-D slice `cells[rowLo:rowHi, colLo:colHi]`, in
      numpy's row-major order. */
  function Region(d: DepthMap, rowLo: int, rowHi: int, colLo: int, colHi: int): (r: seq<real>)
    requires ValidDepth(d)
    ensures |r| == 0 <==> !(SliceBound(rowLo, |d.cells|) < SliceBound(rowHi, |d.cells|) &&
                            SliceBound(colLo, d.cols) < SliceBound(colHi, d.cols))
  {
    var c0 := SliceBound(colLo, d.cols);
    var c1 := if c0 < SliceBound(colHi, d.cols) then SliceBound(colHi, d.cols) else c0;
    var rows := RegionRows(d, rowLo, rowHi, colLo, colHi);
    FlattenLength(rows, c1 - c0);
    ProductZeroIff(|rows|, c1 - c0);
    Flatten(rows)
  }

  /** The slice holds (clamped row span) x (clamped column span) entries. */
  lemma RegionLength(d: DepthMap, rowLo: int, rowHi: int, colLo: int, colHi: int)
    requires ValidDepth(d)
    ensures var r0, r1 := SliceBound(rowLo, |d.cells|), SliceBound(rowHi, |d.cells|);
            var c0, c1 := SliceBound(colLo, d.cols), SliceBound(colHi, d.cols);
            |Region(d, rowLo, rowHi, colLo, colHi)| ==
              (if r0 < r1 then r1 - r0 else 0) * (if c0 < c1 then c1 - c0 else 0)
  {
    var c0 := SliceBound(colLo, d.cols);
    var c1 := if c0 < SliceBound(colHi, d.cols) then SliceBound(colHi, d.cols) else c0;
    FlattenLength(RegionRows(d, rowLo, rowHi, colLo, colHi), c1 - c0);
  }

  lemma ProductZeroIff(a: nat, b: nat)
    ensures a * b == 0 <==> a == 0 || b == 0
  {
    if a > 0 && b > 0 {
      MulMono(1, a, b);
    }
  }

  /** numpy's `mean`: the exact average, NaN for an empty array. */
  function Mean(xs: seq<real>): (r: Depth)
    ensures r == NotANumber <==> |xs| == 0
  {
    if |xs| == 0 then NotANumber else Finite(Sum(xs) / |xs| as real)
  }

  /** The depth slice the source averages for box `b`: rows from the truncated
      `left` to the truncated `right`, columns from `top` to `bottom`. */
  function BoxRegion(d: DepthMap, b: Box): seq<real>
    requires ValidDepth(d)
  {
    Region(d, Trunc(b.left), Trunc(b.right), Trunc(b.top), Trunc(b.bottom))
  }

  /** `pos_z`: the mean of the box's depth slice. */
  function BoxDepth(d: DepthMap, b: Box): Depth
    requires ValidDepth(d)
  {
    Mean(BoxRegion(d, b))
  }

  /** `get_position_bbox`: only `boxes[0]` is used. Mapping the result back
      through the frame dimensions recovers the box midpoint, and `z` is the
      mean of the box's depth slice. */
  function GetPositionBbox(img: Shape, boxes: seq<Box>, depth: DepthMap): (p: Position)
    requires |boxes| > 0
    requires img.dim0 > 0 && img.dim1 > 0
    requires ValidDepth(depth)
    ensures CentredAt(p.x, boxes[0].left, boxes[0].right, img.dim0)
    ensures CentredAt(p.y, boxes[0].top, boxes[0].bottom, img.dim1)
    ensures p.z == BoxDepth(depth, boxes[0])
  {
    var b := boxes[0];
    Position(AxisPosition(b.left, b.right, img.dim0), AxisPosition(b.top, b.bottom, img.dim1),
             BoxDepth(depth, b))
  }

  /** Cell (i, j) of the slice is entry (i - r0, j - c0) of its rows. */
  lemma RegionRowsAt(d: DepthMap, rowLo: int, rowHi: int, colLo: int, colHi: int, i: nat, j: nat)
    requires ValidDepth(d)
    requires InRegion(d, rowLo, rowHi, colLo, colHi, i, j)
    ensures var r0, c0 := SliceBound(rowLo, |d.cells|), SliceBound(colLo, d.cols);
            var rows := RegionRows(d, rowLo, rowHi, colLo, colHi);
            var w := SliceBound(colHi, d.cols) - c0;
            && Rectangular(rows, w) && i - r0 < |rows| && j - c0 < w
            && rows[i - r0][j - c0] == d.cells[i][j]
  {
    var r0, c0 := SliceBound(rowLo, |d.cells|), SliceBound(colLo, d.cols);
    var r1, c1 := SliceBound(rowHi, |d.cells|), SliceBound(colHi, d.cols);
    var rows := RegionRows(d, rowLo, rowHi, colLo, colHi);
    assert rows == SelectedRows(d, r0, r1, c0, c1);
    assert rows[i - r0] == d.cells[i][c0..c1];
  }

  /** Entry (i, j) of the slice sits at its row-major offset inside `Region`. */
  lemma RegionAt(d: DepthMap, rowLo: int, rowHi: int, colLo: int, colHi: int, i: nat, j: nat)
    requires ValidDepth(d)
    requires InRegion(d, rowLo, rowHi, colLo, colHi, i, j)
    ensures var r0, c0 := SliceBound(rowLo, |d.cells|), SliceBound(colLo, d.cols);
            var w := SliceBound(colHi, d.cols) - c0;
            var k := (i - r0) * w + (j - c0);
            0 <= k < |Region(d, rowLo, rowHi, colLo, colHi)| &&
            Region(d, rowLo, rowHi, colLo, colHi)[k] == d.cells[i][j]
  {
    var r0, c0 := SliceBound(rowLo, |d.cells|), SliceBound(colLo, d.cols);
    var w := SliceBound(colHi, d.cols) - c0;
    var rows := RegionRows(d, rowLo, rowHi, colLo, colHi);
    var k := (i - r0) * w + (j - c0);
    assert 0 <= k by { MulMono(0, i - r0, w); }
    assert k < |Flatten(rows)| && Flatten(rows)[k] == d.cells[i][j] by {
      RegionRowsAt(d, rowLo, rowHi, colLo, colHi, i, j);
      FlattenAt(rows, w, i - r0, j - c0);
    }
    RegionIsFlatten(d, rowLo, rowHi, colLo, colHi);
  }

  lemma RegionIsFlatten(d: DepthMap, rowLo: int, rowHi: int, colLo: int, colHi: int)
    requires ValidDepth(d)
    ensures Region(d, rowLo, rowHi, colLo, colHi) == Flatten(RegionRows(d, rowLo, rowHi, colLo, colHi))
  {
  }

  /** If every cell of the slice lies in [lo, hi], so does every entry of
      `Region`. */
  lemma RegionWithin(d: DepthMap, rowLo: int, rowHi: int, colLo: int, colHi: int, lo: real, hi: real)
    requires ValidDepth(d)
    requires forall i, j :: (0 <= i < |d.cells| && 0 <= j < d.cols &&
               InRegion(d, rowLo, rowHi, colLo, colHi, i, j)) ==> lo <= d.cells[i][j] <= hi
    ensures AllWithin(Region(d, rowLo, rowHi, colLo, colHi), lo, hi)
  {
    var r0, c0 := SliceBound(rowLo, |d.cells|), SliceBound(colLo, d.cols);
    var rows := RegionRows(d, rowLo, rowHi, colLo, colHi);
    assert Region(d, rowLo, rowHi, colLo, colHi) == Flatten(rows);
    forall a, b | 0 <= a < |rows| && 0 <= b < |rows[a]|
      ensures lo <= rows[a][b] <= hi
    {
      assert rows[a][b] == d.cells[r0 + a][c0 + b];
      assert InRegion(d, rowLo, rowHi, colLo, colHi, r0 + a, c0 + b);
    }
    FlattenWithin(rows, lo, hi);
  }

  /** The mean of entries bounded by [lo, hi] is bounded by [lo, hi]. */
  lemma MeanWithin(xs: seq<real>, lo: real, hi: real)
    requires AllWithin(xs, lo, hi) && |xs| > 0
    ensures Mean(xs).Finite? && lo <= Mean(xs).value <= hi
  {
    SumBounds(xs, lo, hi);
    var n := |xs| as real;
    assert n * lo / n == lo && n * hi / n == hi;
  }

  /** `z` lies between the smallest and largest depth of the box's slice;
      it is NaN exactly when that slice is empty. */
  lemma DepthWithinRegionRange(img: Shape, boxes: seq<Box>, depth: DepthMap, lo: real, hi: real)
    requires |boxes| > 0 && img.dim0 > 0 && img.dim1 > 0 && ValidDepth(depth)
    requires forall i, j :: (0 <= i < |depth.cells| && 0 <= j < depth.cols &&
               InRegion(depth, Trunc(boxes[0].left), Trunc(boxes[0].right),
                        Trunc(boxes[0].top), Trunc(boxes[0].bottom), i, j))
               ==> lo <= depth.cells[i][j] <= hi
    ensures var p := GetPositionBbox(img, boxes, depth);
            p.z.NotANumber? <==> |BoxRegion(depth, boxes[0])| == 0
    ensures var p := GetPositionBbox(img, boxes, depth);
            p.z.Finite? ==> lo <= p.z.value <= hi
  {
    var b := boxes[0];
    RegionWithin(depth, Trunc(b.left), Trunc(b.right), Trunc(b.top), Trunc(b.bottom), lo, hi);
    if |BoxRegion(depth, b)| > 0 {
      MeanWithin(BoxRegion(depth, b), lo, hi);
    }
  }

  /** A depth grid that is `v` everywhere yields `z == v` for every box whose
      slice is non-empty. */
  lemma ConstantDepthGivesDepth(img: Shape, boxes: seq<Box>, depth: DepthMap, v: real)
    requires |boxes| > 0 && img.dim0 > 0 && img.dim1 > 0 && ValidDepth(depth)
    requires forall i, j :: 0 <= i < |depth.cells| && 0 <= j < depth.cols ==> depth.cells[i][j] == v
    requires |BoxRegion(depth, boxes[0])| > 0
    ensures GetPositionBbox(img, boxes, depth).z == Finite(v)
  {
    DepthWithinRegionRange(img, boxes, depth, v, v);
  }

  /** A box whose truncated left and right (or top and bottom) coincide
      selects nothing, so `z` is NaN. */
  lemma ZeroAreaBoxIsNaN(img: Shape, boxes: seq<Box>, depth: DepthMap)
    requires |boxes| > 0 && img.dim0 > 0 && img.dim1 > 0 && ValidDepth(depth)
    requires Trunc(boxes[0].left) == Trunc(boxes[0].right) || Trunc(boxes[0].top) == Trunc(boxes[0].bottom)
    ensures GetPositionBbox(img, boxes, depth).z == NotANumber
  {
  }

  /** A normalised coordinate is zero exactly when the interval it came from
      is centred on the axis. */
  lemma CentredZeroIff(r: real, lo: real, hi: real, dim: nat)
    requires dim > 0 && CentredAt(r, lo, hi, dim)
    ensures r == 0.0 <==> lo + hi == dim as real
  {
    if r != 0.0 {
      assert r * dim as real != 0.0;
    }
  }

  /** The box `(0, 0, dim1, dim0)` is centred: it maps to `x == y == 0`. */
  lemma CentredBoxGivesOrigin(img: Shape, boxes: seq<Box>, depth: DepthMap)
    requires img.dim0 > 0 && img.dim1 > 0 && ValidDepth(depth)
    requires |boxes| > 0 && boxes[0] == Box(0.0, 0.0, img.dim1 as real, img.dim0 as real)
    ensures GetPositionBbox(img, boxes, depth).x == 0.0
    ensures GetPositionBbox(img, boxes, depth).y == 0.0
  {
    var p := GetPositionBbox(img, boxes, depth);
    CentredZeroIff(p.x, 0.0, img.dim0 as real, img.dim0);
    CentredZeroIff(p.y, 0.0, img.dim1 as real, img.dim1);
  }

  /** With the source's axis usage, a box `(top 0, left 0, bottom H, right W)`
      written in the opposite convention (H = `shape[0]` rows, W = `shape[1]`
      columns) is centred only when the frame is square. */
  lemma CrossedFullFrameBoxCentredOnlyIfSquare(img: Shape, depth: DepthMap)
    requires img.dim0 > 0 && img.dim1 > 0 && ValidDepth(depth)
    ensures var p := GetPositionBbox(img, [Box(0.0, 0.0, img.dim0 as real, img.dim1 as real)], depth);
            (p.x == 0.0 && p.y == 0.0) <==> img.dim0 == img.dim1
  {
    var p := GetPositionBbox(img, [Box(0.0, 0.0, img.dim0 as real, img.dim1 as real)], depth);
    CentredZeroIff(p.x, 0.0, img.dim1 as real, img.dim0);
    CentredZeroIff(p.y, 0.0, img.dim0 as real, img.dim1);
  }

  /** The end-to-end scenario: the centred full-frame box over a constant
      depth of 0.05 gives the position (0, 0, 0.05). */
  lemma FullFrameConstantDepthScenario(img: Shape, depth: DepthMap)
    requires img.dim0 > 0 && img.dim1 > 0 && ValidDepth(depth)
    requires |depth.cells| > 0 && depth.cols > 0
    requires forall i, j :: 0 <= i < |depth.cells| && 0 <= j < depth.cols ==> depth.cells[i][j] == 0.05
    ensures GetPositionBbox(img, [Box(0.0, 0.0, img.dim1 as real, img.dim0 as real)], depth)
            == Position(0.0, 0.0, Finite(0.05))
  {
    var boxes := [Box(0.0, 0.0, img.dim1 as real, img.dim0 as real)];
    CentredBoxGivesOrigin(img, boxes, depth);
    assert Trunc(img.dim0 as real) == img.dim0;
    assert Trunc(img.dim1 as real) == img.dim1;
    assert |BoxRegion(depth, boxes[0])| > 0;
    ConstantDepthGivesDepth(img, boxes, depth, 0.05);
  }

  /** Boxes after the first never influence the result. */
  lemma OnlyFirstBoxUsed(img: Shape, boxes: seq<Box>, depth: DepthMap)
    requires |boxes| > 0 && img.dim0 > 0 && img.dim1 > 0 && ValidDepth(depth)
    ensures GetPositionBbox(img, boxes, depth) == GetPositionBbox(img, boxes[..1], depth)
  {
  }
}
