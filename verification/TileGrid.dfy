/** The tile layout of a frame (tile_grid in conecsa_common/tiling.py): origins per axis, the
    row-major grid, and what the layout guarantees about pixels and boxes. */
module TileGrid {
  import opened Geometry

  /** Nearest integer, ties to the even one (the built-in rounding of the source). */
  function RoundHalfEven(x: real): (r: int)
    ensures r as real - 0.5 <= x <= r as real + 0.5
    ensures x == r as real + 0.5 || x == r as real - 0.5 ==> r % 2 == 0
  {
    var f := x.Floor;
    var d := x - f as real;
    if d < 0.5 then f else if d > 0.5 then f + 1 else if f % 2 == 0 then f else f + 1
  }

  /** The nominal overlap of neighbouring tiles in pixels. */
  function OverlapPixels(tile: int, overlap: real): int {
    RoundHalfEven(overlap * tile as real)
  }

  function Stride(tile: int, overlap: real): int {
    MaxInt(1, tile - OverlapPixels(tile, overlap))
  }

  predicate ValidOverlap(overlap: real) {
    0.0 <= overlap < 1.0
  }

  lemma OverlapRange(tile: int, overlap: real)
    requires tile > 0 && ValidOverlap(overlap)
    ensures 0 <= OverlapPixels(tile, overlap) <= tile
    ensures 1 <= Stride(tile, overlap) <= tile
  {
    var x := overlap * tile as real;
    assert 0.0 <= x;
    assert x <= tile as real by {
      assert (1.0 - overlap) * tile as real >= 0.0;
    }
  }

  // ── one axis ───────────────────────────────────────────────────────────────

  function CeilDiv(a: int, b: int): int
    requires b > 0
  {
    (a + b - 1) / b
  }

  /** How many tiles an axis takes. */
  function StartCount(length: int, tile: int, stride: int): int
    requires stride > 0
  {
    if length <= tile then 1 else 1 + CeilDiv(length - tile, stride)
  }

  /** The tile origins in closed form: multiples of the stride, the last one flush with the edge. */
  ghost predicate IsStarts(length: int, tile: int, stride: int, starts: seq<int>)
    requires stride > 0
  {
    && |starts| == StartCount(length, tile, stride)
    && |starts| >= 1
    && (forall k :: 0 <= k < |starts| - 1 ==> starts[k] == k * stride)
    && (forall k :: 0 <= k < |starts| - 1 ==> starts[k] + tile < length)
    && starts[|starts| - 1] == MaxInt(0, length - tile)
  }

  lemma MulOrder(a: int, b: int, stride: int)
    requires stride > 0 && a * stride < b * stride
    ensures a < b
  {
    assert a >= b ==> (a - b) * stride >= 0;
  }

  lemma CeilBounds(room: int, stride: int)
    requires stride > 0
    ensures (CeilDiv(room, stride) - 1) * stride < room <= CeilDiv(room, stride) * stride
  {
    var q := CeilDiv(room, stride);
    assert q * stride + (room + stride - 1) % stride == room + stride - 1;
  }

  /** The counting loop stops after ceil(room / stride) steps. */
  lemma CeilUnique(room: int, stride: int, k: int)
    requires stride > 0 && (k - 1) * stride < room <= k * stride
    ensures k == CeilDiv(room, stride)
  {
    CeilBounds(room, stride);
    MulOrder(k - 1, CeilDiv(room, stride), stride);
    MulOrder(CeilDiv(room, stride) - 1, k, stride);
  }

  method AxisStarts(length: int, tile: int, stride: int) returns (starts: seq<int>)
    requires tile > 0 && stride > 0
    ensures IsStarts(length, tile, stride, starts)
  {
    if length <= tile {
      return [0];
    }
    starts := [];
    var start := 0;
    while start + tile < length
      invariant start == |starts| * stride
      invariant forall k :: 0 <= k < |starts| ==> starts[k] == k * stride && starts[k] + tile < length
      invariant |starts| > 0 ==> (|starts| - 1) * stride + tile < length
      decreases length - start
    {
      starts := starts + [start];
      start := start + stride;
    }
    CeilUnique(length - tile, stride, |starts|);
    starts := starts + [length - tile];
  }

  /** Facts every later argument rests on. */
  ghost predicate Layout(length: int, tile: int, stride: int, starts: seq<int>) {
    && starts != [] && starts[0] == 0
    && starts[|starts| - 1] + MinInt(tile, length) == length
    && (forall k :: 0 <= k < |starts| ==> 0 <= starts[k] && starts[k] + MinInt(tile, length) <= length)
    && (forall k :: 0 <= k < |starts| - 1 ==> starts[k] < starts[k + 1] <= starts[k] + stride)
  }

  /** Tiles stay inside the frame, origins strictly increase by at most the stride, the first tile
      touches the left edge and the last one the right edge. */
  lemma StartsLayout(length: int, tile: int, stride: int, starts: seq<int>)
    requires length > 0 && tile > 0 && 0 < stride <= tile && IsStarts(length, tile, stride, starts)
    ensures Layout(length, tile, stride, starts)
  {
    var n := |starts|;
    if n > 1 {
      var room := length - tile;
      var q := CeilDiv(room, stride);
      CeilBounds(room, stride);
      forall k | 0 <= k < n - 1 ensures 0 <= starts[k] && starts[k] < starts[k + 1] <= starts[k] + stride {
        assert 0 <= k * stride;
        assert (k + 1) * stride == k * stride + stride;
      }
    }
  }

  /** The tile an axis position falls in: the last origin at or before it. */
  lemma {:induction false} Locate(starts: seq<int>, x: real) returns (k: nat)
    requires starts != [] && starts[0] as real <= x
    ensures k < |starts| && starts[k] as real <= x
    ensures k + 1 < |starts| ==> x < starts[k + 1] as real
  {
    if |starts| == 1 || x < starts[1] as real {
      k := 0;
    } else {
      var rest := Locate(starts[1..], x);
      k := rest + 1;
    }
  }

  /** Every pixel of the axis lies in a tile. */
  lemma AxisCovered(length: int, tile: int, stride: int, starts: seq<int>, p: int) returns (k: nat)
    requires 0 < stride <= tile && Layout(length, tile, stride, starts) && 0 <= p < length
    ensures k < |starts| && starts[k] <= p < starts[k] + MinInt(tile, length)
  {
    k := Locate(starts, p as real);
  }

  /** The axis tile [start, start + extent) holds the interval. */
  predicate Holds(start: int, extent: int, lo: real, hi: real) {
    start as real <= lo && hi <= (start + extent) as real
  }

  /** An interval no longer than the real overlap of neighbours is whole in one tile. */
  lemma AxisHolds(length: int, tile: int, stride: int, starts: seq<int>, lo: real, hi: real) returns (k: nat)
    requires 0 < stride <= tile && Layout(length, tile, stride, starts)
    requires 0.0 <= lo <= hi <= length as real
    requires hi - lo <= (tile - stride) as real || length <= tile
    ensures k < |starts| && Holds(starts[k], MinInt(tile, length), lo, hi)
  {
    k := Locate(starts, lo);
  }

  // ── the grid ───────────────────────────────────────────────────────────────

  /** One row of tiles, left to right. */
  function Row(xs: seq<int>, y: int, w: int, h: int): seq<Tile> {
    seq(|xs|, i requires 0 <= i < |xs| => Tile(xs[i], y, xs[i] + w, y + h))
  }

  /** Rows top to bottom. */
  function Rows(xs: seq<int>, ys: seq<int>, w: int, h: int): seq<Tile> {
    if ys == [] then [] else Row(xs, ys[0], w, h) + Rows(xs, ys[1..], w, h)
  }

  lemma InRow(xs: seq<int>, y: int, w: int, h: int, t: Tile)
    ensures t in Row(xs, y, w, h) <==> exists i :: 0 <= i < |xs| && t == Tile(xs[i], y, xs[i] + w, y + h)
  {
    var row := Row(xs, y, w, h);
    if i :| 0 <= i < |xs| && t == Tile(xs[i], y, xs[i] + w, y + h) {
      assert row[i] == t;
    }
  }

  /** The grid holds exactly the product of the two axes. */
  lemma {:induction false} InRows(xs: seq<int>, ys: seq<int>, w: int, h: int, t: Tile)
    ensures t in Rows(xs, ys, w, h) <==>
      exists i, j :: 0 <= i < |xs| && 0 <= j < |ys| && t == Tile(xs[i], ys[j], xs[i] + w, ys[j] + h)
  {
    if ys == [] {
    } else {
      InRow(xs, ys[0], w, h, t);
      InRows(xs, ys[1..], w, h, t);
      if t in Rows(xs, ys[1..], w, h) {
        var i, j :| 0 <= i < |xs| && 0 <= j < |ys[1..]| && t == Tile(xs[i], ys[1..][j], xs[i] + w, ys[1..][j] + h);
        assert ys[j + 1] == ys[1..][j];
      }
      if i, j :| 0 <= i < |xs| && 0 <= j < |ys| && t == Tile(xs[i], ys[j], xs[i] + w, ys[j] + h) {
        assert j > 0 ==> ys[1..][j - 1] == ys[j];
      }
    }
  }

  lemma {:induction false} RowsSize(xs: seq<int>, ys: seq<int>, w: int, h: int)
    ensures |Rows(xs, ys, w, h)| == |xs| * |ys|
  {
    if ys == [] {
    } else {
      RowsSize(xs, ys[1..], w, h);
      assert |xs| * |ys| == |xs| + |xs| * |ys[1..]|;
    }
  }

  datatype Request = Request(width: int, height: int, tile: int, overlap: real) {
    predicate Valid() {
      width > 0 && height > 0 && tile > 0 && ValidOverlap(overlap)
    }
  }

  /** grid is the layout of the request without the optional whole-frame tile. */
  ghost predicate IsGrid(r: Request, xs: seq<int>, ys: seq<int>, grid: seq<Tile>)
    requires r.Valid()
  {
    var stride := Stride(r.tile, r.overlap);
    && IsStarts(r.width, r.tile, stride, xs)
    && IsStarts(r.height, r.tile, stride, ys)
    && grid == Rows(xs, ys, MinInt(r.tile, r.width), MinInt(r.tile, r.height))
  }

  datatype Outcome = Tiles(grid: seq<Tile>) | BadRequest

  method TileGridFor(r: Request, includeFull: bool) returns (out: Outcome, ghost xs: seq<int>, ghost ys: seq<int>)
    ensures out.BadRequest? <==> r.width <= 0 || r.height <= 0 || r.tile <= 0 || !(0.0 <= r.overlap < 1.0)
    ensures out.Tiles? && !includeFull ==> IsGrid(r, xs, ys, out.grid)
    ensures out.Tiles? && includeFull ==> out.grid != [] && out.grid[|out.grid| - 1] == Tile(0, 0, r.width, r.height)
    ensures out.Tiles? && includeFull ==> IsGrid(r, xs, ys, out.grid[..|out.grid| - 1])
  {
    xs, ys := [], [];
    if !r.Valid() {
      return BadRequest, xs, ys;
    }
    var stride := Stride(r.tile, r.overlap);
    var columns := AxisStarts(r.width, r.tile, stride);
    var lines := AxisStarts(r.height, r.tile, stride);
    var grid := Rows(columns, lines, MinInt(r.tile, r.width), MinInt(r.tile, r.height));
    if includeFull {
      var all := grid + [Tile(0, 0, r.width, r.height)];
      assert all[..|all| - 1] == grid;
      return Tiles(all), columns, lines;
    }
    return Tiles(grid), columns, lines;
  }

  /** The tiles come row by row, left to right, each as large as the frame lets it be. */
  lemma RowMajor(r: Request, xs: seq<int>, ys: seq<int>, grid: seq<Tile>, i: nat, j: nat)
    requires r.Valid() && IsGrid(r, xs, ys, grid) && i < |xs| && j < |ys|
    ensures |grid| == |xs| * |ys| && 0 <= j * |xs| + i < |grid|
    ensures grid[j * |xs| + i] == Tile(xs[i], ys[j], xs[i] + (if r.tile < r.width then r.tile else r.width),
                                       ys[j] + (if r.tile < r.height then r.tile else r.height))
  {
    RowsSize(xs, ys, MinInt(r.tile, r.width), MinInt(r.tile, r.height));
    RowsAt(xs, ys, MinInt(r.tile, r.width), MinInt(r.tile, r.height), i, j);
  }

  lemma {:induction false} RowsAt(xs: seq<int>, ys: seq<int>, w: int, h: int, i: nat, j: nat)
    requires i < |xs| && j < |ys|
    ensures 0 <= j * |xs| + i < |Rows(xs, ys, w, h)|
    ensures Rows(xs, ys, w, h)[j * |xs| + i] == Tile(xs[i], ys[j], xs[i] + w, ys[j] + h)
  {
    if j > 0 {
      RowsAt(xs, ys[1..], w, h, i, j - 1);
      assert j * |xs| == |xs| + (j - 1) * |xs|;
    }
  }

  /** The overlap asked for, to the nearest pixel with ties to even. */
  predicate RoundedTo(x: real, o: int) {
    o as real - 0.5 <= x <= o as real + 0.5 && (x == o as real - 0.5 || x == o as real + 0.5 ==> o % 2 == 0)
  }

  lemma RoundedOnce(x: real, o: int)
    ensures RoundedTo(x, o) <==> o == RoundHalfEven(x)
  {
  }

  /** Neighbouring tiles overlap by just that many pixels, or by all but one where that would be the whole
      tile; only the last one may overlap more. */
  lemma NeighboursOverlap(r: Request, xs: seq<int>, ys: seq<int>, grid: seq<Tile>, o: int, k: nat)
    requires r.Valid() && IsGrid(r, xs, ys, grid) && RoundedTo(r.overlap * r.tile as real, o)
    ensures k + 2 < |xs| ==> xs[k] + r.tile - xs[k + 1] == if o < r.tile then o else r.tile - 1
    ensures k + 2 < |ys| ==> ys[k] + r.tile - ys[k + 1] == if o < r.tile then o else r.tile - 1
    ensures k + 1 < |xs| ==> xs[k] + r.tile - xs[k + 1] >= if o < r.tile then o else r.tile - 1
    ensures k + 1 < |ys| ==> ys[k] + r.tile - ys[k + 1] >= if o < r.tile then o else r.tile - 1
  {
    StrideIs(r.tile, r.overlap, o);
    StepsOverlap(r, xs, ys, grid, k);
  }

  lemma StrideIs(tile: int, overlap: real, o: int)
    requires RoundedTo(overlap * tile as real, o)
    ensures Stride(tile, overlap) == if o < tile then tile - o else 1
  {
    RoundedOnce(overlap * tile as real, o);
  }

  lemma StepsOverlap(r: Request, xs: seq<int>, ys: seq<int>, grid: seq<Tile>, k: nat)
    requires r.Valid() && IsGrid(r, xs, ys, grid)
    ensures k + 2 < |xs| ==> xs[k + 1] - xs[k] == Stride(r.tile, r.overlap)
    ensures k + 2 < |ys| ==> ys[k + 1] - ys[k] == Stride(r.tile, r.overlap)
    ensures k + 1 < |xs| ==> xs[k + 1] - xs[k] <= Stride(r.tile, r.overlap)
    ensures k + 1 < |ys| ==> ys[k + 1] - ys[k] <= Stride(r.tile, r.overlap)
  {
    AxisSteps(r.width, r.tile, Stride(r.tile, r.overlap), xs, k);
    AxisSteps(r.height, r.tile, Stride(r.tile, r.overlap), ys, k);
  }

  lemma AxisSteps(length: int, tile: int, stride: int, starts: seq<int>, k: nat)
    requires stride > 0 && IsStarts(length, tile, stride, starts)
    ensures k + 2 < |starts| ==> starts[k + 1] - starts[k] == stride
    ensures k + 2 == |starts| ==> starts[k + 1] - starts[k] <= stride
  {
    if k + 2 < |starts| {
      assert (k + 1) * stride == k * stride + stride;
    } else if k + 2 == |starts| {
      CeilBounds(length - tile, stride);
      assert (k + 1) * stride == k * stride + stride;
    }
  }

  lemma GridLayout(r: Request, xs: seq<int>, ys: seq<int>, grid: seq<Tile>)
    requires r.Valid() && IsGrid(r, xs, ys, grid)
    ensures 1 <= Stride(r.tile, r.overlap) <= r.tile
    ensures Layout(r.width, r.tile, Stride(r.tile, r.overlap), xs)
    ensures Layout(r.height, r.tile, Stride(r.tile, r.overlap), ys)
  {
    OverlapRange(r.tile, r.overlap);
    StartsLayout(r.width, r.tile, Stride(r.tile, r.overlap), xs);
    StartsLayout(r.height, r.tile, Stride(r.tile, r.overlap), ys);
  }

  /** Tiles are proper tiles inside the frame, and together they cover every pixel. */
  lemma GridCoversFrame(r: Request, xs: seq<int>, ys: seq<int>, grid: seq<Tile>)
    requires r.Valid() && IsGrid(r, xs, ys, grid)
    ensures forall t :: t in grid ==> t.Valid() && t.x1 <= r.width && t.y1 <= r.height
    ensures forall x, y :: 0 <= x < r.width && 0 <= y < r.height ==> Covered(grid, x, y)
  {
    GridLayout(r, xs, ys, grid);
    var w, h := MinInt(r.tile, r.width), MinInt(r.tile, r.height);
    forall t | t in grid ensures t.Valid() && t.x1 <= r.width && t.y1 <= r.height {
      InRows(xs, ys, w, h, t);
    }
    forall x, y | 0 <= x < r.width && 0 <= y < r.height ensures Covered(grid, x, y) {
      var i := AxisCovered(r.width, r.tile, Stride(r.tile, r.overlap), xs, x);
      var j := AxisCovered(r.height, r.tile, Stride(r.tile, r.overlap), ys, y);
      var t := Tile(xs[i], ys[j], xs[i] + w, ys[j] + h);
      InRows(xs, ys, w, h, t);
      assert t in grid && t.x0 <= x < t.x1 && t.y0 <= y < t.y1;
    }
  }

  ghost predicate Covered(grid: seq<Tile>, x: int, y: int) {
    exists t :: t in grid && t.x0 <= x < t.x1 && t.y0 <= y < t.y1
  }

  // ── small objects are whole in one tile ────────────────────────────────────

  predicate InFrame(b: Box, width: int, height: int) {
    0.0 <= b.x0 <= b.x1 <= width as real && 0.0 <= b.y0 <= b.y1 <= height as real
  }

  /** Neither side is longer than the nominal overlap. */
  predicate Small(b: Box, side: int) {
    b.x1 - b.x0 <= side as real && b.y1 - b.y0 <= side as real
  }

  ghost predicate WholeSomewhere(grid: seq<Tile>, b: Box) {
    exists t :: t in grid && Holds(t.x0, t.Width(), b.x0, b.x1) && Holds(t.y0, t.Height(), b.y0, b.y1)
  }

  /** The guard of the minimum stride did not fire, or the frame is a single tile. */
  predicate OverlapHonoured(r: Request) {
    OverlapPixels(r.tile, r.overlap) < r.tile || (r.width <= r.tile && r.height <= r.tile)
  }

  lemma SmallBoxWhole(r: Request, xs: seq<int>, ys: seq<int>, grid: seq<Tile>, b: Box)
    requires r.Valid() && IsGrid(r, xs, ys, grid) && OverlapHonoured(r)
    requires InFrame(b, r.width, r.height) && Small(b, OverlapPixels(r.tile, r.overlap))
    ensures WholeSomewhere(grid, b)
  {
    GridLayout(r, xs, ys, grid);
    var stride := Stride(r.tile, r.overlap);
    var i := AxisHolds(r.width, r.tile, stride, xs, b.x0, b.x1);
    var j := AxisHolds(r.height, r.tile, stride, ys, b.y0, b.y1);
    var w, h := MinInt(r.tile, r.width), MinInt(r.tile, r.height);
    var t := Tile(xs[i], ys[j], xs[i] + w, ys[j] + h);
    InRows(xs, ys, w, h, t);
    assert t in grid && Holds(t.x0, t.Width(), b.x0, b.x1) && Holds(t.y0, t.Height(), b.y0, b.y1);
  }

  /** When rounding the overlap up reaches the whole tile, the stride is forced to 1 and a box half a
      pixel off the grid, one pixel wide and as long as the nominal overlap, is cut by every tile. */
  lemma HalfPixelBoxCut(r: Request, xs: seq<int>, ys: seq<int>, grid: seq<Tile>) returns (b: Box)
    requires r.Valid() && IsGrid(r, xs, ys, grid) && !OverlapHonoured(r)
    ensures InFrame(b, r.width, r.height) && Proper(b) && Small(b, OverlapPixels(r.tile, r.overlap))
    ensures !WholeSomewhere(grid, b)
  {
    OverlapRange(r.tile, r.overlap);
    var side := r.tile as real;
    var w, h := MinInt(r.tile, r.width), MinInt(r.tile, r.height);
    b := if r.width > r.tile then Box(0.5, 0.0, side + 0.5, 1.0) else Box(0.0, 0.5, 1.0, side + 0.5);
    forall t | t in grid
      ensures !(Holds(t.x0, t.Width(), b.x0, b.x1) && Holds(t.y0, t.Height(), b.y0, b.y1))
    {
      InRows(xs, ys, w, h, t);
    }
  }

  /** Exactly when the promise about small objects holds for every box of positive area. */
  lemma SmallBoxesWholeExactly(r: Request, xs: seq<int>, ys: seq<int>, grid: seq<Tile>)
    requires r.Valid() && IsGrid(r, xs, ys, grid)
    ensures OverlapHonoured(r) <==>
      forall b :: InFrame(b, r.width, r.height) && Proper(b) && Small(b, OverlapPixels(r.tile, r.overlap)) ==>
        WholeSomewhere(grid, b)
  {
    if OverlapHonoured(r) {
      forall b | InFrame(b, r.width, r.height) && Proper(b) && Small(b, OverlapPixels(r.tile, r.overlap))
        ensures WholeSomewhere(grid, b)
      {
        SmallBoxWhole(r, xs, ys, grid, b);
      }
    } else {
      var b := HalfPixelBoxCut(r, xs, ys, grid);
    }
  }

  // ── the automatic tile ─────────────────────────────────────────────────────

  /** The default tile side: the frame's short side. */
  function AutoTile(width: int, height: int): int {
    MinInt(width, height)
  }

  /** With the automatic tile a landscape frame has one row, and two columns exactly when the part
      beyond the first tile fits in one stride. */
  lemma AutoTwoColumns(r: Request, xs: seq<int>, ys: seq<int>, grid: seq<Tile>)
    requires r.Valid() && IsGrid(r, xs, ys, grid) && r.tile == AutoTile(r.width, r.height) && r.width > r.height
    ensures |ys| == 1 && |grid| == |xs| >= 2
    ensures |grid| == 2 <==> r.width - r.tile <= Stride(r.tile, r.overlap)
  {
    OverlapRange(r.tile, r.overlap);
    RowsSize(xs, ys, MinInt(r.tile, r.width), MinInt(r.tile, r.height));
    var room, stride := r.width - r.tile, Stride(r.tile, r.overlap);
    var q := CeilDiv(room, stride);
    CeilBounds(room, stride);
    if room <= stride {
      CeilUnique(room, stride, 1);
    } else {
      assert q <= 1 ==> q * stride <= stride;
    }
  }

  /** An exact 16:9 frame always gives two tiles at the default overlap, whatever its pixel count. */
  lemma WideFrameTwoTiles(r: Request, xs: seq<int>, ys: seq<int>, grid: seq<Tile>, k: int)
    requires k > 0 && r == Request(16 * k, 9 * k, AutoTile(16 * k, 9 * k), 0.2) && IsGrid(r, xs, ys, grid)
    ensures |grid| == 2
  {
    AutoTwoColumns(r, xs, ys, grid);
    var o := OverlapPixels(r.tile, r.overlap);
    assert o as real - 0.5 <= 0.2 * (9 * k) as real;
    assert 10 * o <= 18 * k + 5;
  }
}
