/** Decoding of the raw network output on the anchor-free grid
    (`YoloX.demo_postprocess`) and the centre-size to corner transform of
    `YoloX.predict`, both in backend/app/ml/yolox_model.py. */
module Decode {
  import opened Suppression

  /** One raw prediction row: centre, size, objectness and the class scores. */
  datatype Pred = Pred(cx: real, cy: real, w: real, h: real, obj: real, cls: seq<real>)

  /** A grid cell: its column `x`, its row `y` and the stride of the feature
      map it belongs to. The source keeps the offsets (`grids`) and the
      strides (`expanded_strides`) in two parallel arrays; a cell is one
      position of both. */
  datatype Cell = Cell(x: nat, y: nat, stride: nat)

  /** The down-sampling factors of the feature maps, finest first; the
      optional fourth level is the P6 head. */
  function Strides(p6: bool): (s: seq<nat>)
    ensures |s| == (if p6 then 4 else 3) && s[..3] == [8, 16, 32]
    ensures Positive(s)
    ensures forall i, j :: 0 <= i < j < |s| ==> s[i] < s[j]
  {
    if p6 then [8, 16, 32, 64] else [8, 16, 32]
  }

  predicate Positive(strides: seq<nat>) {
    forall i :: 0 <= i < |strides| ==> strides[i] > 0
  }

  // ---------------------------------------------------------------------------
  // The grid.

  /** Row `y` of a feature map `w` cells wide. */
  function Row(y: nat, w: nat, s: nat): seq<Cell> {
    seq(w, x requires 0 <= x < w => Cell(x, y, s))
  }

  /** The cells of an `h` by `w` feature map in the order that
      `np.meshgrid(np.arange(w), np.arange(h))`, `np.stack(..., 2)` and
      `reshape(1, -1, 2)` give them: row by row. */
  function Block(h: nat, w: nat, s: nat): seq<Cell> {
    if h == 0 then [] else Block(h - 1, w, s) + Row(h - 1, w, s)
  }

  /** One feature map: `hsize` rows, `wsize` columns and its stride. */
  datatype Level = Level(hsize: nat, wsize: nat, stride: nat)

  /** `hsizes`, `wsizes` and `strides` zipped: level `s` of an input of
      `imgH` by `imgW` pixels has `imgH // s` rows and `imgW // s` columns,
      that is, as many whole cells of `s` pixels as fit into each side. */
  function Levels(imgH: nat, imgW: nat, strides: seq<nat>): (ls: seq<Level>)
    requires Positive(strides)
    ensures |ls| == |strides|
    ensures forall i :: 0 <= i < |ls| ==> ls[i].stride == strides[i]
    ensures forall i :: 0 <= i < |ls| ==>
      ls[i].hsize * strides[i] <= imgH < (ls[i].hsize + 1) * strides[i]
    ensures forall i :: 0 <= i < |ls| ==>
      ls[i].wsize * strides[i] <= imgW < (ls[i].wsize + 1) * strides[i]
  {
    var ls := seq(|strides|, i requires 0 <= i < |strides| => Level(imgH / strides[i], imgW / strides[i], strides[i]));
    forall i | 0 <= i < |ls|
      ensures ls[i].hsize * strides[i] <= imgH < (ls[i].hsize + 1) * strides[i]
      ensures ls[i].wsize * strides[i] <= imgW < (ls[i].wsize + 1) * strides[i]
    {
      FloorDiv(imgH, strides[i]);
      FloorDiv(imgW, strides[i]);
    }
    ls
  }

  /** `a // s` is the number of whole multiples of `s` that fit into `a`. */
  lemma FloorDiv(a: nat, s: nat)
    requires s > 0
    ensures (a / s) * s <= a < (a / s + 1) * s
  {
    assert a == (a / s) * s + a % s;
  }

  /** The cells of one level. */
  function LevelCells(l: Level): seq<Cell> {
    Block(l.hsize, l.wsize, l.stride)
  }

  /** The concatenated grid of all levels, `np.concatenate(grids, 1)`. */
  function Grid(levels: seq<Level>): seq<Cell> {
    if levels == [] then [] else Grid(levels[..|levels| - 1]) + LevelCells(levels[|levels| - 1])
  }

  /** The grid for an input of `imgH` by `imgW` pixels. */
  function GridCells(imgH: nat, imgW: nat, strides: seq<nat>): seq<Cell>
    requires Positive(strides)
  {
    Grid(Levels(imgH, imgW, strides))
  }

  /** The number of cells in `y` rows of `w`, counted row by row; it is
      `y * w` (CellsProduct). */
  function Cells(y: nat, w: nat): nat {
    if y == 0 then 0 else Cells(y - 1, w) + w
  }

  /** Σ over the levels of hsize * wsize. */
  function CellCount(levels: seq<Level>): nat {
    if levels == [] then 0
    else CellCount(levels[..|levels| - 1]) + levels[|levels| - 1].hsize * levels[|levels| - 1].wsize
  }

  lemma {:induction false} CellsProduct(y: nat, w: nat)
    ensures Cells(y, w) == y * w
  {
    if y > 0 {
      CellsProduct(y - 1, w);
      assert (y - 1) * w + w == y * w;
    }
  }

  lemma {:induction false} BlockSize(h: nat, w: nat, s: nat)
    ensures |Block(h, w, s)| == Cells(h, w)
  {
    if h > 0 {
      BlockSize(h - 1, w, s);
    }
  }

  /** Position `y * w + x` of a block holds the cell `(x, y)`. */
  lemma {:induction false} BlockAt(h: nat, w: nat, s: nat, x: nat, y: nat)
    requires x < w && y < h
    ensures Cells(y, w) + x < |Block(h, w, s)| && Block(h, w, s)[Cells(y, w) + x] == Cell(x, y, s)
  {
    BlockSize(h - 1, w, s);
    if y == h - 1 {
      assert Block(h, w, s)[Cells(y, w) + x] == Row(h - 1, w, s)[x];
    } else {
      BlockAt(h - 1, w, s, x, y);
    }
  }

  /** The grid has one cell per position of every level. */
  lemma {:induction false} GridCount(levels: seq<Level>)
    ensures |Grid(levels)| == CellCount(levels)
  {
    if levels != [] {
      var l := levels[|levels| - 1];
      GridCount(levels[..|levels| - 1]);
      BlockSize(l.hsize, l.wsize, l.stride);
      CellsProduct(l.hsize, l.wsize);
    }
  }

  /** The grid of the first `n` levels is a prefix of the whole grid. */
  lemma {:induction false} GridPrefix(levels: seq<Level>, n: nat)
    requires n <= |levels|
    ensures Grid(levels[..n]) <= Grid(levels)
  {
    if n < |levels| {
      var init := levels[..|levels| - 1];
      assert init[..n] == levels[..n];
      GridPrefix(init, n);
    } else {
      assert levels[..n] == levels;
    }
  }

  /** Level `b` occupies the positions right after the cells of all finer
      levels: the stride-8 block comes first, then 16, then 32. */
  lemma GridRegion(levels: seq<Level>, b: nat)
    requires b < |levels|
    ensures |Grid(levels[..b])| + |LevelCells(levels[b])| <= |Grid(levels)|
    ensures Grid(levels)[|Grid(levels[..b])|..|Grid(levels[..b])| + |LevelCells(levels[b])|] == LevelCells(levels[b])
  {
    var upto := levels[..b + 1];
    assert upto[..|upto| - 1] == levels[..b];
    assert Grid(upto) == Grid(levels[..b]) + LevelCells(levels[b]);
    GridPrefix(levels, b + 1);
  }

  /** Position `y * wsize + x` of level `b`, counted from the start of the
      grid: the cells of the finer levels come first. */
  function Position(levels: seq<Level>, b: nat, x: nat, y: nat): nat
    requires b < |levels|
  {
    |Grid(levels[..b])| + Cells(y, levels[b].wsize) + x
  }

  /** Within level `b`, grid position `offset + y * wsize + x` holds `(x, y)`
      with that level's stride, where the offset counts the cells of the
      finer levels. */
  lemma GridAt(levels: seq<Level>, b: nat, x: nat, y: nat)
    requires b < |levels| && x < levels[b].wsize && y < levels[b].hsize
    ensures Position(levels, b, x, y) < |Grid(levels)|
    ensures Grid(levels)[Position(levels, b, x, y)] == Cell(x, y, levels[b].stride)
  {
    var l := levels[b];
    var off := |Grid(levels[..b])|;
    var j := Cells(y, l.wsize) + x;
    GridRegion(levels, b);
    BlockAt(l.hsize, l.wsize, l.stride, x, y);
    assert Grid(levels)[off + j] == Grid(levels)[off..off + |LevelCells(l)|][j];
  }

  /** Without the P6 head the grid is the stride-8 block, then the
      stride-16 block, then the stride-32 block. */
  lemma DefaultLayout(imgH: nat, imgW: nat)
    ensures GridCells(imgH, imgW, Strides(false))
      == Block(imgH / 8, imgW / 8, 8) + Block(imgH / 16, imgW / 16, 16) + Block(imgH / 32, imgW / 32, 32)
  {
    var l1, l2, l3 := Level(imgH / 8, imgW / 8, 8), Level(imgH / 16, imgW / 16, 16), Level(imgH / 32, imgW / 32, 32);
    var ls := Levels(imgH, imgW, Strides(false));
    assert ls == [l1, l2, l3];
    assert ls[..2] == [l1, l2] && [l1, l2][..1] == [l1] && [l1][..0] == [];
    assert Grid([l1]) == LevelCells(l1);
    assert Grid([l1, l2]) == LevelCells(l1) + LevelCells(l2);
  }

  /** Without the P6 head the grid has Σ (imgH // s) * (imgW // s) cells. */
  lemma DefaultSize(imgH: nat, imgW: nat)
    ensures |GridCells(imgH, imgW, Strides(false))|
      == (imgH / 8) * (imgW / 8) + (imgH / 16) * (imgW / 16) + (imgH / 32) * (imgW / 32)
  {
    var l1, l2, l3 := Level(imgH / 8, imgW / 8, 8), Level(imgH / 16, imgW / 16, 16), Level(imgH / 32, imgW / 32, 32);
    var ls := Levels(imgH, imgW, Strides(false));
    assert ls == [l1, l2, l3];
    GridCount(ls);
    assert ls[..2] == [l1, l2] && [l1, l2][..1] == [l1] && [l1][..0] == [];
    assert CellCount([l1]) == l1.hsize * l1.wsize;
    assert CellCount([l1, l2]) == l1.hsize * l1.wsize + l2.hsize * l2.wsize;
  }

  /** For the 640 by 640 input of `predict` the levels are 80 by 80, 40 by 40
      and 20 by 20 cells: 8400 in all. */
  lemma DefaultCount(imgH: nat, imgW: nat)
    requires imgH == 640 && imgW == 640
    ensures |GridCells(imgH, imgW, Strides(false))| == 8400
  {
    DefaultSize(imgH, imgW);
    LevelSizes640();
  }

  lemma LevelSizes640()
    ensures (640 / 8) * (640 / 8) + (640 / 16) * (640 / 16) + (640 / 32) * (640 / 32) == 8400
  {
  }

  /** The grid, built level by level as the loop over
      `zip(hsizes, wsizes, strides)` does. */
  method BuildGrids(imgH: nat, imgW: nat, strides: seq<nat>) returns (grid: seq<Cell>)
    requires Positive(strides)
    ensures grid == GridCells(imgH, imgW, strides)
  {
    var levels := Levels(imgH, imgW, strides);
    grid := [];
    for i := 0 to |levels|
      invariant grid == Grid(levels[..i])
    {
      var l := levels[i];
      assert levels[..i + 1][..i] == levels[..i];
      grid := grid + Block(l.hsize, l.wsize, l.stride);
    }
    assert levels[..|levels|] == levels;
  }

  // ---------------------------------------------------------------------------
  // Decoding.

  /** The rewrite of one row: the centre becomes `(raw + grid) * stride`
      and the size `exp(raw) * stride`; objectness and class scores stay. */
  function Decoded(p: Pred, c: Cell, exp: real -> real): Pred {
    p.(cx := (p.cx + c.x as real) * c.stride as real,
       cy := (p.cy + c.y as real) * c.stride as real,
       w := exp(p.w) * c.stride as real,
       h := exp(p.h) * c.stride as real)
  }

  /** Every row decoded against the grid cell at the same position. */
  function DecodeAll(raw: seq<Pred>, grid: seq<Cell>, exp: real -> real): (out: seq<Pred>)
    requires |raw| == |grid|
  {
    seq(|raw|, k requires 0 <= k < |raw| => Decoded(raw[k], grid[k], exp))
  }

  /** `demo_postprocess` on the single image of the batch: builds the grid
      and rewrites the centre and size columns of `outputs` in place. The
      exponential is a parameter. The row count must match the grid, as
      numpy's broadcasting demands. */
  method DemoPostprocess(outputs: array<Pred>, imgH: nat, imgW: nat, p6: bool, exp: real -> real)
    requires outputs.Length == |GridCells(imgH, imgW, Strides(p6))|
    modifies outputs
    ensures outputs[..] == DecodeAll(old(outputs[..]), GridCells(imgH, imgW, Strides(p6)), exp)
  {
    var grid := BuildGrids(imgH, imgW, Strides(p6));
    for k := 0 to outputs.Length
      invariant forall j :: 0 <= j < k ==> outputs[j] == Decoded(old(outputs[j]), grid[j], exp)
      invariant forall j :: k <= j < outputs.Length ==> outputs[j] == old(outputs[j])
    {
      outputs[k] := Decoded(outputs[k], grid[k], exp);
    }
  }

  /** The decoded row at position `offset + y * wsize + x` of level `b` has
      its centre at `(raw + (x, y)) * stride` and its size
      `exp(raw) * stride`; objectness and class scores are untouched. */
  lemma DecodeAt(raw: seq<Pred>, levels: seq<Level>, exp: real -> real, b: nat, x: nat, y: nat)
    requires |raw| == |Grid(levels)|
    requires b < |levels| && x < levels[b].wsize && y < levels[b].hsize
    ensures Position(levels, b, x, y) < |raw|
    ensures DecodeAll(raw, Grid(levels), exp)[Position(levels, b, x, y)]
      == raw[Position(levels, b, x, y)].(cx := (raw[Position(levels, b, x, y)].cx + x as real) * levels[b].stride as real,
                                         cy := (raw[Position(levels, b, x, y)].cy + y as real) * levels[b].stride as real,
                                         w := exp(raw[Position(levels, b, x, y)].w) * levels[b].stride as real,
                                         h := exp(raw[Position(levels, b, x, y)].h) * levels[b].stride as real)
  {
    GridAt(levels, b, x, y);
  }

  /** With a positive exponential every decoded size is positive. */
  lemma DecodePositive(raw: seq<Pred>, grid: seq<Cell>, exp: real -> real)
    requires |raw| == |grid| && forall k :: 0 <= k < |grid| ==> grid[k].stride > 0
    requires forall k :: 0 <= k < |raw| ==> exp(raw[k].w) > 0.0 && exp(raw[k].h) > 0.0
    ensures var out := DecodeAll(raw, grid, exp);
      |out| == |raw| && forall k :: 0 <= k < |out| ==> out[k].w > 0.0 && out[k].h > 0.0
  {
    var out := DecodeAll(raw, grid, exp);
    forall k | 0 <= k < |out| ensures out[k].w > 0.0 && out[k].h > 0.0 {
      var s := grid[k].stride as real;
      assert out[k].w == exp(raw[k].w) * s && out[k].h == exp(raw[k].h) * s;
      MulPos(exp(raw[k].w), s);
      MulPos(exp(raw[k].h), s);
    }
  }

  lemma MulPos(a: real, b: real)
    requires a > 0.0 && b > 0.0
    ensures a * b > 0.0
  {
  }

  // ---------------------------------------------------------------------------
  // The box transform of `predict`.

  /** The corner box of a centre-size row before scaling:
      `cx - w/2, cy - h/2, cx + w/2, cy + h/2`. */
  function Unscaled(p: Pred): Box {
    Box(p.cx - p.w / 2.0, p.cy - p.h / 2.0, p.cx + p.w / 2.0, p.cy + p.h / 2.0)
  }

  /** `boxes_xyxy /= ratio`, undoing the resize to the network input. */
  function Scaled(b: Box, ratio: real): Box
    requires ratio != 0.0
  {
    Box(b.x1 / ratio, b.y1 / ratio, b.x2 / ratio, b.y2 / ratio)
  }

  /** The corner box of a row, in the pixels of the normalised image. */
  function Corners(p: Pred, ratio: real): Box
    requires ratio != 0.0
  {
    Scaled(Unscaled(p), ratio)
  }

  /** The corner box has width `w / ratio` and height `h / ratio`, and its
      midpoint is the centre divided by `ratio`. */
  lemma CornersShape(p: Pred, ratio: real)
    requires ratio != 0.0
    ensures Corners(p, ratio).x2 - Corners(p, ratio).x1 == p.w / ratio
    ensures Corners(p, ratio).y2 - Corners(p, ratio).y1 == p.h / ratio
    ensures (Corners(p, ratio).x1 + Corners(p, ratio).x2) / 2.0 == p.cx / ratio
    ensures (Corners(p, ratio).y1 + Corners(p, ratio).y2) / 2.0 == p.cy / ratio
  {
  }

  /** The inverse transform: the row whose corner box is `b`, with the
      given objectness and class scores. */
  function FromCorners(b: Box, ratio: real, obj: real, cls: seq<real>): Pred {
    Pred((b.x1 + b.x2) / 2.0 * ratio, (b.y1 + b.y2) / 2.0 * ratio, (b.x2 - b.x1) * ratio, (b.y2 - b.y1) * ratio, obj, cls)
  }

  /** The transform loses nothing: centre and size are recovered. */
  lemma CornersRoundTrip(p: Pred, ratio: real)
    requires ratio != 0.0
    ensures FromCorners(Corners(p, ratio), ratio, p.obj, p.cls) == p
  {
    var b := Corners(p, ratio);
    CornersShape(p, ratio);
    assert (b.x1 + b.x2) / 2.0 * ratio == p.cx / ratio * ratio == p.cx;
    assert (b.y1 + b.y2) / 2.0 * ratio == p.cy / ratio * ratio == p.cy;
    assert (b.x2 - b.x1) * ratio == p.w / ratio * ratio == p.w;
    assert (b.y2 - b.y1) * ratio == p.h / ratio * ratio == p.h;
  }

  /** Rows of non-negative size and a positive ratio give well-formed
      boxes, as the suppression step assumes. */
  lemma CornersWellFormed(p: Pred, ratio: real)
    requires ratio > 0.0 && p.w >= 0.0 && p.h >= 0.0
    ensures WellFormed(Corners(p, ratio))
  {
    CornersShape(p, ratio);
    DivNonNeg(p.w, ratio);
    DivNonNeg(p.h, ratio);
  }

  /** `predictions[:, 4:5] * predictions[:, 5:]`: the objectness times each
      class score. */
  function ObjScores(p: Pred): seq<real> {
    seq(|p.cls|, c requires 0 <= c < |p.cls| => p.obj * p.cls[c])
  }

  /** `boxes_xyxy /= ratio` on the whole array. */
  method ScaleInPlace(a: array<Box>, ratio: real)
    requires ratio != 0.0
    modifies a
    ensures forall j :: 0 <= j < a.Length ==> a[j] == Scaled(old(a[j]), ratio)
  {
    for k := 0 to a.Length
      invariant forall j :: 0 <= j < k ==> a[j] == Scaled(old(a[j]), ratio)
      invariant forall j :: k <= j < a.Length ==> a[j] == old(a[j])
    {
      a[k] := Scaled(a[k], ratio);
    }
  }

  /** The box lines of `predict`: a fresh array filled column-wise with the
      corner form, then divided by `ratio` in place, and the score matrix. */
  method BoxTransform(preds: seq<Pred>, ratio: real) returns (boxes: seq<Box>, scores: seq<seq<real>>)
    requires ratio != 0.0
    ensures |boxes| == |preds| && |scores| == |preds|
    ensures forall k :: 0 <= k < |preds| ==> boxes[k] == Corners(preds[k], ratio)
    ensures forall k :: 0 <= k < |preds| ==>
      |scores[k]| == |preds[k].cls| && forall c :: 0 <= c < |scores[k]| ==> scores[k][c] == preds[k].obj * preds[k].cls[c]
  {
    var xyxy := new Box[|preds|](_ => Box(1.0, 1.0, 1.0, 1.0));
    for k := 0 to |preds|
      invariant forall j :: 0 <= j < k ==> xyxy[j] == Unscaled(preds[j])
    {
      xyxy[k] := Unscaled(preds[k]);
    }
    ScaleInPlace(xyxy, ratio);
    boxes := xyxy[..];
    scores := seq(|preds|, k requires 0 <= k < |preds| => ObjScores(preds[k]));
  }
}
