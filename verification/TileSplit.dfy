/** One dataset image written as its tile crops with per-tile labels
    (training-service/service/tile_split.py; the image files themselves are not modelled). */
module TileSplit {
  import opened Geometry
  import opened TileGrid
  import opened TileLabels

  datatype TileSpec = WholeFrames | Auto | Pixels(side: int)

  datatype Resolved = NoTiling | Side(side: int) | BadTile

  function ResolveTile(spec: TileSpec, width: int, height: int): Resolved {
    match spec
    case WholeFrames => NoTiling
    case Auto => Side(AutoTile(width, height))
    case Pixels(side) => if side > 0 then Side(side) else BadTile
  }

  datatype Counts = Counts(tiles: nat, boxes: nat, fragments: nat, background: nat, skipped: nat, whole: nat) {
    function Plus(o: Counts): Counts {
      Counts(tiles + o.tiles, boxes + o.boxes, fragments + o.fragments, background + o.background,
             skipped + o.skipped, whole + o.whole)
    }
  }

  const NOTHING := Counts(0, 0, 0, 0, 0, 0)

  /** The counters accumulated over a split. */
  class TileSplitStats {
    var tiles: nat
    var boxes: nat
    var fragments: nat
    var background: nat
    var skipped: nat
    var whole: nat

    ghost function Value(): Counts
      reads this
    {
      Counts(tiles, boxes, fragments, background, skipped, whole)
    }

    constructor ()
      ensures Value() == NOTHING
    {
      tiles, boxes, fragments, background, skipped, whole := 0, 0, 0, 0, 0, 0;
    }

    /** Accumulate another instance (possibly this one) into this one. */
    method Add(other: TileSplitStats)
      modifies this
      ensures Value() == old(Value()).Plus(old(other.Value()))
    {
      tiles := tiles + other.tiles;
      boxes := boxes + other.boxes;
      fragments := fragments + other.fragments;
      background := background + other.background;
      skipped := skipped + other.skipped;
      whole := whole + other.whole;
    }
  }

  /** A crop written for the tile at the given grid position. */
  datatype Crop = Crop(index: nat, rows: seq<LabelRow>)

  function LabelsOf(rows: seq<LabelRow>, width: int, height: int): seq<Label> {
    seq(|rows|, i requires 0 <= i < |rows| => Label(rows[i].classId, BoxOf(rows[i], width, height)))
  }

  /** A tile whose only content is a discarded sliver is not written. */
  predicate Skipped(labels: seq<Label>, t: Tile, minVisible: real)
    requires t.Valid()
  {
    Touched(labels, t) > 0 && RowsFor(labels, t, minVisible) == []
  }

  predicate AllValid(grid: seq<Tile>) {
    forall k :: 0 <= k < |grid| ==> grid[k].Valid()
  }

  /** The crops of the first n tiles of the grid. */
  function CropsFor(grid: seq<Tile>, n: nat, labels: seq<Label>, minVisible: real): seq<Crop>
    requires n <= |grid| && AllValid(grid)
  {
    if n == 0 then []
    else
      var front := CropsFor(grid, n - 1, labels, minVisible);
      if Skipped(labels, grid[n - 1], minVisible) then front
      else front + [Crop(n - 1, RowsFor(labels, grid[n - 1], minVisible))]
  }

  /** What one tile adds to the counters. */
  function CountTile(labels: seq<Label>, t: Tile, minVisible: real): Counts
    requires t.Valid() && minVisible > 0.0
  {
    var rows := RowsFor(labels, t, minVisible);
    TouchedMeaning(labels, t, minVisible);
    var dropped := Touched(labels, t) - |rows|;
    if Skipped(labels, t, minVisible) then Counts(0, 0, dropped, 0, 1, 0)
    else Counts(1, |rows|, dropped, if rows == [] then 1 else 0, 0, 0)
  }

  function CountsFor(grid: seq<Tile>, n: nat, labels: seq<Label>, minVisible: real): Counts
    requires n <= |grid| && AllValid(grid) && minVisible > 0.0
  {
    if n == 0 then NOTHING
    else CountsFor(grid, n - 1, labels, minVisible).Plus(CountTile(labels, grid[n - 1], minVisible))
  }

  datatype Outcome = Written(crops: seq<Crop>) | KeptWhole | BadTileSpec | BadGrid | BadVisible

  /** The grid is one tile spanning the image: nothing to cut. */
  predicate Degenerate(grid: seq<Tile>, width: int, height: int) {
    |grid| == 1 && grid[0].Width() == width && grid[0].Height() == height
  }

  /** That is so exactly when the tile is at least as long as the image on both sides. */
  lemma DegenerateMeaning(r: Request, xs: seq<int>, ys: seq<int>, grid: seq<Tile>)
    requires r.Valid() && IsGrid(r, xs, ys, grid)
    ensures Degenerate(grid, r.width, r.height) <==> r.tile >= r.width && r.tile >= r.height
  {
    RowMajor(r, xs, ys, grid, 0, 0);
    if r.tile < r.width || r.tile < r.height {
      CeilBounds(if r.tile < r.width then r.width - r.tile else r.height - r.tile, Stride(r.tile, r.overlap));
      assert |xs| > 1 || |ys| > 1;
      assert |grid| > 1;
    } else {
      assert |xs| == 1 && |ys| == 1;
    }
  }

  method MaterializeTiles(width: int, height: int, rows: seq<LabelRow>, spec: TileSpec, overlap: real, minVisible: real)
    returns (out: Outcome, stats: TileSplitStats, ghost grid: seq<Tile>, ghost xs: seq<int>, ghost ys: seq<int>)
    requires width > 0 && height > 0
    ensures fresh(stats)
    ensures out.BadTileSpec? <==> spec.Pixels? && spec.side <= 0
    ensures out.BadGrid? <==> (spec.Auto? || (spec.Pixels? && spec.side > 0)) && !(0.0 <= overlap < 1.0)
    ensures out.KeptWhole? <==>
            spec.WholeFrames? || (0.0 <= overlap < 1.0 && (spec.Auto? ==> width == height)
                                  && (spec.Pixels? ==> spec.side >= width && spec.side >= height))
    ensures out.KeptWhole? ==> stats.Value() == NOTHING.(whole := 1)
    ensures out.KeptWhole? || out.BadVisible? || out.Written? ==>
      spec.WholeFrames? || (!(spec.Pixels? && spec.side <= 0)
        && var r := Request(width, height, if spec.Pixels? then spec.side else if width < height then width else height,
                            overlap);
           r.Valid() && IsGrid(r, xs, ys, grid))
    ensures out.BadVisible? ==> !(0.0 < minVisible <= 1.0)
    ensures out.Written? ==> 0.0 < minVisible <= 1.0 && AllValid(grid)
    ensures out.Written? ==>
      && out.crops == CropsFor(grid, |grid|, LabelsOf(rows, width, height), minVisible)
      && stats.Value() == CountsFor(grid, |grid|, LabelsOf(rows, width, height), minVisible)
    ensures out.Written? ==>
      && stats.tiles == |out.crops| && stats.skipped == |grid| - |out.crops| && stats.whole == 0
      && stats.boxes == RowTotal(out.crops) && stats.background == Empties(out.crops)
      && stats.boxes + stats.fragments == TouchedOver(grid, |grid|, LabelsOf(rows, width, height))
  {
    stats := new TileSplitStats();
    grid, xs, ys := [], [], [];
    var side := ResolveTile(spec, width, height);
    if side.BadTile? {
      return BadTileSpec, stats, grid, xs, ys;
    }
    if side.NoTiling? {
      stats.whole := 1;
      return KeptWhole, stats, grid, xs, ys;
    }
    var r := Request(width, height, side.side, overlap);
    var layout: TileGrid.Outcome;
    layout, xs, ys := TileGridFor(r, false);
    if layout.BadRequest? {
      return BadGrid, stats, grid, xs, ys;
    }
    var tiles := layout.grid;
    grid := tiles;
    DegenerateMeaning(r, xs, ys, tiles);
    if Degenerate(tiles, width, height) {
      stats.whole := 1;
      return KeptWhole, stats, grid, xs, ys;
    }
    GridCoversFrame(r, xs, ys, tiles);
    assert AllValid(tiles);
    if !(0.0 < minVisible <= 1.0) {
      return BadVisible, stats, grid, xs, ys;
    }
    var crops := WriteCrops(tiles, rows, width, height, minVisible, stats);
    CountsConserved(tiles, |tiles|, LabelsOf(rows, width, height), minVisible);
    return Written(crops), stats, grid, xs, ys;
  }

  /** The counters of one tile; says whether its crop is skipped. */
  method CountOne(ghost labels: seq<Label>, ghost t: Tile, ghost minVisible: real, rows: seq<LabelRow>, touched: nat,
                  stats: TileSplitStats)
    returns (skip: bool)
    requires t.Valid() && minVisible > 0.0
    requires rows == RowsFor(labels, t, minVisible) && touched == Touched(labels, t)
    modifies stats
    ensures skip == Skipped(labels, t, minVisible)
    ensures stats.Value() == old(stats.Value()).Plus(CountTile(labels, t, minVisible))
  {
    TouchedMeaning(labels, t, minVisible);
    stats.fragments := stats.fragments + (touched - |rows|);
    skip := touched > 0 && rows == [];
    if skip {
      stats.skipped := stats.skipped + 1;
    } else {
      stats.tiles := stats.tiles + 1;
      stats.boxes := stats.boxes + |rows|;
      if rows == [] {
        stats.background := stats.background + 1;
      }
    }
  }

  /** The loop over the grid. */
  method WriteCrops(grid: seq<Tile>, rows: seq<LabelRow>, width: int, height: int, minVisible: real, stats: TileSplitStats)
    returns (written: seq<Crop>)
    requires AllValid(grid) && 0.0 < minVisible <= 1.0 && stats.Value() == NOTHING
    modifies stats
    ensures written == CropsFor(grid, |grid|, LabelsOf(rows, width, height), minVisible)
    ensures stats.Value() == CountsFor(grid, |grid|, LabelsOf(rows, width, height), minVisible)
  {
    var ids := seq(|rows|, i requires 0 <= i < |rows| => rows[i].classId);
    var boxes := seq(|rows|, i requires 0 <= i < |rows| => BoxOf(rows[i], width, height));
    ghost var labels := LabelsOf(rows, width, height);
    assert Zip(ids, boxes) == labels;
    written := [];
    for index := 0 to |grid|
      invariant written == CropsFor(grid, index, labels, minVisible)
      invariant stats.Value() == CountsFor(grid, index, labels, minVisible)
    {
      var r := TileLabelRows(ids, boxes, grid[index], minVisible);
      var skip := CountOne(labels, grid[index], minVisible, r.rows, r.touched, stats);
      if !skip {
        written := written + [Crop(index, r.rows)];
      }
    }
  }

  // ── what a split promises ──────────────────────────────────────────────────

  /** A tile is written, with its rows, exactly when it is not skipped. */
  lemma {:induction false} CropWritten(grid: seq<Tile>, n: nat, labels: seq<Label>, minVisible: real, c: Crop)
    requires n <= |grid| && AllValid(grid)
    ensures c in CropsFor(grid, n, labels, minVisible) <==>
      c.index < n && !Skipped(labels, grid[c.index], minVisible) && c.rows == RowsFor(labels, grid[c.index], minVisible)
  {
    if n > 0 {
      CropWritten(grid, n - 1, labels, minVisible, c);
    }
  }

  /** A tile is written exactly when it sees enough of some label, or nothing of any. */
  lemma WrittenMeaning(grid: seq<Tile>, labels: seq<Label>, minVisible: real, index: nat)
    requires AllValid(grid) && minVisible > 0.0 && index < |grid|
    ensures (exists c :: c in CropsFor(grid, |grid|, labels, minVisible) && c.index == index) <==>
      || (exists k :: 0 <= k < |labels| && Visible(labels[k].box, grid[index]) >= minVisible)
      || (forall k :: 0 <= k < |labels| ==> Visible(labels[k].box, grid[index]) <= 0.0)
  {
    var t := grid[index];
    var whole := Crop(index, RowsFor(labels, t, minVisible));
    CropWritten(grid, |grid|, labels, minVisible, whole);
    if c :| c in CropsFor(grid, |grid|, labels, minVisible) && c.index == index {
      CropWritten(grid, |grid|, labels, minVisible, c);
    }
    TouchedMeaning(labels, t, minVisible);
    RowsThere(labels, t, minVisible);
  }

  lemma RowsThere(labels: seq<Label>, t: Tile, minVisible: real)
    requires t.Valid() && minVisible > 0.0
    ensures RowsFor(labels, t, minVisible) != [] <==> exists k :: 0 <= k < |labels| && Visible(labels[k].box, t) >= minVisible
  {
    RowsCounted(labels, t, minVisible);
    var enough := set k: nat | k < |labels| && Visible(labels[k].box, t) >= minVisible;
    if enough != {} {
      var k :| k in enough;
    }
    if k :| 0 <= k < |labels| && Visible(labels[k].box, t) >= minVisible {
      assert k in enough;
    }
  }

  /** A crop written as background shows no part of any object. */
  lemma BackgroundIsEmpty(grid: seq<Tile>, labels: seq<Label>, minVisible: real, c: Crop)
    requires AllValid(grid) && minVisible > 0.0 && c in CropsFor(grid, |grid|, labels, minVisible) && c.rows == []
    ensures c.index < |grid| && forall k :: 0 <= k < |labels| ==> Visible(labels[k].box, grid[c.index]) <= 0.0
  {
    CropWritten(grid, |grid|, labels, minVisible, c);
    TouchedMeaning(labels, grid[c.index], minVisible);
  }

  /** When every tile could be asked for its share of the area, no label inside the frame is lost:
      some written crop carries it. */
  lemma EveryLabelWritten(r: Request, xs: seq<int>, ys: seq<int>, grid: seq<Tile>, labels: seq<Label>,
                          minVisible: real, k: nat) returns (c: Crop)
    requires r.Valid() && IsGrid(r, xs, ys, grid) && AllValid(grid) && k < |labels|
    requires 0.0 < minVisible && |grid| as real * minVisible <= 1.0
    requires InFrame(labels[k].box, r.width, r.height)
    requires labels[k].box.x0 < labels[k].box.x1 && labels[k].box.y0 < labels[k].box.y1
    ensures c in CropsFor(grid, |grid|, labels, minVisible) && c.index < |grid|
    ensures ClipBox(labels[k].box, grid[c.index]).Clipped? && TileRow(labels[k], grid[c.index]) in c.rows
  {
    var i := SeenEnough(r, xs, ys, grid, labels[k].box, minVisible);
    c := ReachedIsWritten(grid, labels, minVisible, k, i);
  }

  lemma SeenEnough(r: Request, xs: seq<int>, ys: seq<int>, grid: seq<Tile>, b: Box, share: real) returns (i: nat)
    requires r.Valid() && IsGrid(r, xs, ys, grid) && |grid| as real * share <= 1.0
    requires InFrame(b, r.width, r.height) && b.x0 < b.x1 && b.y0 < b.y1
    ensures i < |grid| && Visible(b, grid[i]) >= share
  {
    VisibleAtLeastOnce(r, xs, ys, grid, b);
    var seen := Visibles(b, grid);
    i := SomeReaches(seen, share);
    assert seen[i] == Visible(b, grid[i]);
  }

  lemma ReachedIsWritten(grid: seq<Tile>, labels: seq<Label>, minVisible: real, k: nat, i: nat) returns (c: Crop)
    requires AllValid(grid) && minVisible > 0.0 && k < |labels| && i < |grid|
    requires Visible(labels[k].box, grid[i]) >= minVisible
    ensures c in CropsFor(grid, |grid|, labels, minVisible) && c.index < |grid|
    ensures ClipBox(labels[k].box, grid[c.index]).Clipped? && TileRow(labels[k], grid[c.index]) in c.rows
  {
    RowsExactly(labels, grid[i], minVisible, TileRow(labels[k], grid[i]));
    c := Crop(i, RowsFor(labels, grid[i], minVisible));
    CropWritten(grid, |grid|, labels, minVisible, c);
  }

  /** A label has its row in some crop exactly when some tile sees enough of it. */
  lemma LabelWrittenIff(grid: seq<Tile>, labels: seq<Label>, minVisible: real, k: nat)
    requires AllValid(grid) && k < |labels| && minVisible > 0.0
    ensures (exists c :: c in CropsFor(grid, |grid|, labels, minVisible) && Carries(c, grid, labels[k], minVisible))
            <==> exists i :: 0 <= i < |grid| && Visible(labels[k].box, grid[i]) >= minVisible
  {
    if i :| 0 <= i < |grid| && Visible(labels[k].box, grid[i]) >= minVisible {
      var c := Crop(i, RowsFor(labels, grid[i], minVisible));
      RowsExactly(labels, grid[i], minVisible, TileRow(labels[k], grid[i]));
      CropWritten(grid, |grid|, labels, minVisible, c);
      assert Carries(c, grid, labels[k], minVisible);
    }
  }

  /** The crop is of a tile that sees enough of the label, and holds the label's row. */
  predicate Carries(c: Crop, grid: seq<Tile>, l: Label, minVisible: real)
    requires AllValid(grid)
  {
    c.index < |grid| && Enough(l, grid[c.index], minVisible) && TileRow(l, grid[c.index]) in c.rows
  }

  /** Beyond the bound labels can be lost: two tiles that must show three quarters of a label lose one that
      fills the frame, of which each shows nine sixteenths. */
  lemma WideLabelLost(xs: seq<int>, ys: seq<int>, grid: seq<Tile>, c: Crop)
    requires IsGrid(Request(16, 9, 9, 0.2), xs, ys, grid) && AllValid(grid)
    ensures |grid| == 2
    ensures !(c in CropsFor(grid, |grid|, [Label(0, Box(0.0, 0.0, 16.0, 9.0))], 0.75)
              && Carries(c, grid, Label(0, Box(0.0, 0.0, 16.0, 9.0)), 0.75))
  {
    WideFrameTwoTiles(Request(16, 9, 9, 0.2), xs, ys, grid, 1);
    if c.index < |grid| {
      InRows(xs, ys, 9, 9, grid[c.index]);
      NineSixteenths(grid[c.index]);
    }
  }

  lemma NineSixteenths(t: Tile)
    requires t.x1 == t.x0 + 9 && t.y1 == t.y0 + 9
    ensures Visible(Box(0.0, 0.0, 16.0, 9.0), t) < 0.75
  {
    var b := Box(0.0, 0.0, 16.0, 9.0);
    assert PosArea(b) == 144.0;
    VisibleArea(b, t);
    var cx, cy := Cut(t.x0, t.Width(), b.x0, b.x1), Cut(t.y0, t.Height(), b.y0, b.y1);
    ProductGrows(cx, cy, 9.0, 9.0);
  }

  /** Nothing goes uncounted: every tile is written or skipped, every seen box kept or dropped. */
  lemma {:induction false} CountsConserved(grid: seq<Tile>, n: nat, labels: seq<Label>, minVisible: real)
    requires n <= |grid| && AllValid(grid) && minVisible > 0.0
    ensures var c := CountsFor(grid, n, labels, minVisible);
      && c.tiles + c.skipped == n && c.tiles == |CropsFor(grid, n, labels, minVisible)|
      && c.boxes + c.fragments == TouchedOver(grid, n, labels) && c.whole == 0
      && c.boxes == RowTotal(CropsFor(grid, n, labels, minVisible))
      && c.background == Empties(CropsFor(grid, n, labels, minVisible))
  {
    if n > 0 {
      CountsConserved(grid, n - 1, labels, minVisible);
      TouchedCounted(labels, grid[n - 1]);
    }
  }

  /** The rows of all crops. */
  function RowTotal(crops: seq<Crop>): nat {
    if crops == [] then 0 else RowTotal(crops[..|crops| - 1]) + |crops[|crops| - 1].rows|
  }

  /** The crops without a row. */
  function Empties(crops: seq<Crop>): nat {
    if crops == [] then 0 else Empties(crops[..|crops| - 1]) + if crops[|crops| - 1].rows == [] then 1 else 0
  }

  /** What the tiles see of the labels, label by label and tile by tile. */
  function TouchedOver(grid: seq<Tile>, n: nat, labels: seq<Label>): nat
    requires n <= |grid|
  {
    if n == 0 then 0 else TouchedOver(grid, n - 1, labels) + |Seen(labels, grid[n - 1])|
  }
}
