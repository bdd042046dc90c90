/** Ground-truth boxes clipped and rewritten per tile (os-base/conecsa_common/tiling.py). */
module TileLabels {
  import opened BoxArea
  import opened Geometry
  import opened TileGrid

  // ── clipping ───────────────────────────────────────────────────────────────

  /** Length of the part of [lo, hi] inside [start, start + extent]. */
  function Cut(start: int, extent: int, lo: real, hi: real): (r: real)
    ensures r >= 0.0
    ensures extent > 0 && lo < hi ==> (r > 0.0 <==> lo < (start + extent) as real && hi > start as real)
  {
    Max(0.0, Min(hi, (start + extent) as real) - Max(lo, start as real))
  }

  /** Area of the box inside the tile. */
  function InTile(b: Box, t: Tile): real {
    Prod(Cut(t.x0, t.Width(), b.x0, b.x1), Cut(t.y0, t.Height(), b.y0, b.y1))
  }

  datatype Clipped = Disjoint | Clipped(box: Box, visible: real)

  /** The box cut to the tile in tile-relative pixels, and the visible fraction of its area. */
  function ClipBox(b: Box, t: Tile): Clipped {
    var x0, y0 := Max(b.x0, t.x0 as real), Max(b.y0, t.y0 as real);
    var x1, y1 := Min(b.x1, t.x1 as real), Min(b.y1, t.y1 as real);
    var area := PosArea(b);
    var inter := Prod(Max(0.0, x1 - x0), Max(0.0, y1 - y0));
    if area <= 0.0 || inter <= 0.0 then Disjoint
    else
      Clipped(Box(x0 - t.x0 as real, y0 - t.y0 as real, x1 - t.x0 as real, y1 - t.y0 as real), inter / area)
  }

  function Visible(b: Box, t: Tile): real {
    match ClipBox(b, t)
    case Disjoint => 0.0
    case Clipped(_, visible) => visible
  }

  lemma ProductSign(a: real, b: real)
    requires a >= 0.0 && b >= 0.0
    ensures Prod(a, b) >= 0.0 && (Prod(a, b) > 0.0 <==> a > 0.0 && b > 0.0)
  {
  }

  lemma Quotient(a: real, b: real)
    requires b > 0.0
    ensures Prod(a / b, b) == a && (a > 0.0 <==> a / b > 0.0) && (a >= 0.0 <==> a / b >= 0.0)
  {
  }

  /** The visible fraction times the box area is the area inside the tile. */
  lemma VisibleArea(b: Box, t: Tile)
    requires PosArea(b) > 0.0
    ensures Prod(Visible(b, t), PosArea(b)) == InTile(b, t) && Visible(b, t) >= 0.0
  {
    ProductSign(Cut(t.x0, t.Width(), b.x0, b.x1), Cut(t.y0, t.Height(), b.y0, b.y1));
    Quotient(InTile(b, t), PosArea(b));
  }

  /** A proper box is visible in a tile exactly when it touches it with positive area. */
  lemma VisibleMeansTouch(b: Box, t: Tile)
    requires t.Valid() && b.x0 < b.x1 && b.y0 < b.y1
    ensures Visible(b, t) > 0.0 <==> Touches(b, t)
  {
    ProductSign(b.x1 - b.x0, b.y1 - b.y0);
    VisibleArea(b, t);
    var cx, cy := Cut(t.x0, t.Width(), b.x0, b.x1), Cut(t.y0, t.Height(), b.y0, b.y1);
    ProductSign(cx, cy);
    ProductSign(Visible(b, t), PosArea(b));
  }

  /** The visible fraction is the area of the box's cells inside the tile over that of all its cells. */
  lemma VisibleMeaning(xs: seq<real>, ys: seq<real>, whole: Region, part: Region, b: Box, t: Tile)
    requires Proper(b) && Grid(xs, ys, b, AsBox(t)) && IsRegion(whole, b) && IsPart(part, b, t)
    ensures Measure(xs, ys, whole) > 0.0 && Visible(b, t) == Measure(xs, ys, part) / Measure(xs, ys, whole)
  {
    MeasureOfBox(xs, ys, whole, b);
    PartArea(xs, ys, part, b, t);
    AreaHas(b);
    PartIsCut(b, t);
    if PosArea(Clip(b, t)) == 0.0 {
      assert Measure(xs, ys, part) / Measure(xs, ys, whole) == 0.0;
    }
  }

  lemma PartIsCut(b: Box, t: Tile)
    requires PosArea(b) > 0.0
    ensures PosArea(Clip(b, t)) >= 0.0
    ensures Visible(b, t) == if PosArea(Clip(b, t)) > 0.0 then PosArea(Clip(b, t)) / PosArea(b) else 0.0
  {
    AreaHas(Clip(b, t));
  }

  /** The clipped box, moved back to the frame, has exactly the points of the box inside the tile. */
  lemma ClippedExactly(b: Box, t: Tile, x: real, y: real)
    requires ClipBox(b, t).Clipped?
    ensures Has(ClipBox(b, t).box, x - t.x0 as real, y - t.y0 as real) <==> Has(b, x, y) && Has(AsBox(t), x, y)
  {
  }

  // ── sums ───────────────────────────────────────────────────────────────────

  function Sum(s: seq<real>): real {
    if s == [] then 0.0 else s[0] + Sum(s[1..])
  }

  function Scale(s: seq<real>, c: real): seq<real> {
    seq(|s|, i requires 0 <= i < |s| => Prod(s[i], c))
  }

  /** All products of an entry of cx with an entry of cy, row by row. */
  function Outer(cx: seq<real>, cy: seq<real>): seq<real> {
    if cy == [] then [] else Scale(cx, cy[0]) + Outer(cx, cy[1..])
  }

  lemma {:induction false} SumScale(s: seq<real>, c: real)
    ensures Sum(Scale(s, c)) == Prod(Sum(s), c)
  {
    if s != [] {
      SumScale(s[1..], c);
      assert Scale(s, c)[1..] == Scale(s[1..], c);
      Distribute(s[0], Sum(s[1..]), c);
    }
  }

  lemma {:induction false} SumAppend(s: seq<real>, t: seq<real>)
    ensures Sum(s + t) == Sum(s) + Sum(t)
  {
    if s == [] {
      assert s + t == t;
    } else {
      SumAppend(s[1..], t);
      assert (s + t)[1..] == s[1..] + t;
    }
  }

  lemma {:induction false} SumOuter(cx: seq<real>, cy: seq<real>)
    ensures Sum(Outer(cx, cy)) == Prod(Sum(cx), Sum(cy))
  {
    if cy != [] {
      SumOuter(cx, cy[1..]);
      SumAppend(Scale(cx, cy[0]), Outer(cx, cy[1..]));
      SumScale(cx, cy[0]);
      Distribute(cy[0], Sum(cy[1..]), Sum(cx));
    }
  }

  lemma Distribute(a: real, b: real, c: real)
    ensures Prod(a + b, c) == Prod(a, c) + Prod(b, c)
    ensures Prod(c, a + b) == Prod(c, a) + Prod(c, b)
  {
  }

  lemma ProductGrows(a: real, b: real, a': real, b': real)
    requires 0.0 <= a <= a' && 0.0 <= b <= b'
    ensures Prod(a, b) <= Prod(a', b')
  {
    assert a * b <= a' * b;
    assert a' * b <= a' * b';
  }

  lemma AtLeastOne(v: real, area: real)
    requires area > 0.0 && Prod(v, area) >= area
    ensures v >= 1.0
  {
    assert v < 1.0 ==> (1.0 - v) * area > 0.0;
  }

  // ── no part of a box escapes the grid ──────────────────────────────────────

  function Cuts(starts: seq<int>, extent: int, lo: real, hi: real): seq<real> {
    seq(|starts|, i requires 0 <= i < |starts| => Cut(starts[i], extent, lo, hi))
  }

  /** Overlapping tiles see at least the whole interval between them. */
  lemma {:induction false} CutsCover(starts: seq<int>, extent: int, lo: real, hi: real)
    requires starts != [] && hi <= (starts[|starts| - 1] + extent) as real
    requires forall k :: 0 <= k < |starts| - 1 ==> starts[k + 1] <= starts[k] + extent
    ensures Sum(Cuts(starts, extent, lo, hi)) >= hi - Max(lo, starts[0] as real)
    ensures Sum(Cuts(starts, extent, lo, hi)) >= 0.0
  {
    var cuts := Cuts(starts, extent, lo, hi);
    assert cuts[1..] == Cuts(starts[1..], extent, lo, hi);
    if |starts| > 1 {
      CutsCover(starts[1..], extent, lo, hi);
    }
  }

  function Areas(b: Box, tiles: seq<Tile>): seq<real> {
    seq(|tiles|, i requires 0 <= i < |tiles| => InTile(b, tiles[i]))
  }

  /** The areas inside the grid's tiles are the products of the two axes' cuts. */
  lemma {:induction false} GridAreas(b: Box, xs: seq<int>, ys: seq<int>, w: int, h: int)
    ensures Areas(b, Rows(xs, ys, w, h)) == Outer(Cuts(xs, w, b.x0, b.x1), Cuts(ys, h, b.y0, b.y1))
  {
    if ys != [] {
      GridAreas(b, xs, ys[1..], w, h);
      var row, rest := Row(xs, ys[0], w, h), Rows(xs, ys[1..], w, h);
      assert Areas(b, row + rest) == Areas(b, row) + Areas(b, rest);
      RowAreas(b, xs, ys[0], w, h);
      assert Cuts(ys, h, b.y0, b.y1)[1..] == Cuts(ys[1..], h, b.y0, b.y1);
    }
  }

  lemma RowAreas(b: Box, xs: seq<int>, y: int, w: int, h: int)
    ensures Areas(b, Row(xs, y, w, h)) == Scale(Cuts(xs, w, b.x0, b.x1), Cut(y, h, b.y0, b.y1))
  {
    var row := Row(xs, y, w, h);
    forall i | 0 <= i < |xs|
      ensures Areas(b, row)[i] == Scale(Cuts(xs, w, b.x0, b.x1), Cut(y, h, b.y0, b.y1))[i]
    {
      assert row[i].Width() == w && row[i].Height() == h;
    }
  }

  function Visibles(b: Box, tiles: seq<Tile>): seq<real> {
    seq(|tiles|, i requires 0 <= i < |tiles| => Visible(b, tiles[i]))
  }

  lemma VisiblesArea(b: Box, tiles: seq<Tile>)
    requires PosArea(b) > 0.0
    ensures Prod(Sum(Visibles(b, tiles)), PosArea(b)) == Sum(Areas(b, tiles))
  {
    var scaled := Scale(Visibles(b, tiles), PosArea(b));
    SumScale(Visibles(b, tiles), PosArea(b));
    forall i | 0 <= i < |tiles| ensures scaled[i] == Areas(b, tiles)[i] {
      VisibleArea(b, tiles[i]);
    }
    assert scaled == Areas(b, tiles);
  }

  /** A box of positive area inside the frame is seen whole, in parts: its visible fractions over
      the tiles add up to at least 1. */
  lemma VisibleAtLeastOnce(r: Request, xs: seq<int>, ys: seq<int>, grid: seq<Tile>, b: Box)
    requires r.Valid() && IsGrid(r, xs, ys, grid)
    requires InFrame(b, r.width, r.height) && b.x0 < b.x1 && b.y0 < b.y1
    ensures Sum(Visibles(b, grid)) >= 1.0
  {
    GridLayout(r, xs, ys, grid);
    GridSees(b, xs, ys, MinInt(r.tile, r.width), MinInt(r.tile, r.height));
    ProductSign(b.x1 - b.x0, b.y1 - b.y0);
    VisiblesArea(b, grid);
    AtLeastOne(Sum(Visibles(b, grid)), PosArea(b));
  }

  /** Two axes covered by overlapping tiles see at least the whole box. */
  lemma GridSees(b: Box, xs: seq<int>, ys: seq<int>, w: int, h: int)
    requires xs != [] && xs[0] == 0 && b.x1 <= (xs[|xs| - 1] + w) as real
    requires ys != [] && ys[0] == 0 && b.y1 <= (ys[|ys| - 1] + h) as real
    requires forall k :: 0 <= k < |xs| - 1 ==> xs[k + 1] <= xs[k] + w
    requires forall k :: 0 <= k < |ys| - 1 ==> ys[k + 1] <= ys[k] + h
    requires 0.0 <= b.x0 < b.x1 && 0.0 <= b.y0 < b.y1
    ensures Sum(Areas(b, Rows(xs, ys, w, h))) >= PosArea(b)
  {
    CutsCover(xs, w, b.x0, b.x1);
    CutsCover(ys, h, b.y0, b.y1);
    GridAreas(b, xs, ys, w, h);
    SumOuter(Cuts(xs, w, b.x0, b.x1), Cuts(ys, h, b.y0, b.y1));
    ProductGrows(b.x1 - b.x0, b.y1 - b.y0, Sum(Cuts(xs, w, b.x0, b.x1)), Sum(Cuts(ys, h, b.y0, b.y1)));
  }

  /** If all shares stayed below the bound, so would their sum. */
  lemma {:induction false} SomeReaches(s: seq<real>, share: real) returns (k: nat)
    requires Sum(s) >= |s| as real * share && s != []
    ensures k < |s| && s[k] >= share
  {
    if s[0] >= share {
      k := 0;
    } else {
      assert |s| as real * share == share + |s[1..]| as real * share;
      var rest := SomeReaches(s[1..], share);
      k := rest + 1;
    }
  }

  // ── the rows of one tile ───────────────────────────────────────────────────

  /** A label row: class, centre and size, normalized to its image. */
  datatype LabelRow = LabelRow(classId: int, cx: real, cy: real, w: real, h: real)

  /** The row of a box given in the pixels of a width x height image. */
  function RowOf(classId: int, b: Box, width: int, height: int): LabelRow
    requires width > 0 && height > 0
  {
    LabelRow(classId,
             (b.x0 + b.x1) / 2.0 / width as real, (b.y0 + b.y1) / 2.0 / height as real,
             (b.x1 - b.x0) / width as real, (b.y1 - b.y0) / height as real)
  }

  /** The pixel box a stored row describes. */
  function BoxOf(row: LabelRow, width: int, height: int): Box {
    Box((row.cx - row.w / 2.0) * width as real, (row.cy - row.h / 2.0) * height as real,
        (row.cx + row.w / 2.0) * width as real, (row.cy + row.h / 2.0) * height as real)
  }

  lemma AxisRoundTrip(lo: real, hi: real, n: real)
    requires n > 0.0
    ensures ((lo + hi) / 2.0 / n - (hi - lo) / n / 2.0) * n == lo
    ensures ((lo + hi) / 2.0 / n + (hi - lo) / n / 2.0) * n == hi
  {
    Quotient(lo, n);
    Quotient(hi, n);
    assert (lo + hi) / 2.0 / n - (hi - lo) / n / 2.0 == lo / n;
    assert (lo + hi) / 2.0 / n + (hi - lo) / n / 2.0 == hi / n;
  }

  /** Reading a written row back gives the box it was written for. */
  lemma RowRoundTrip(classId: int, b: Box, width: int, height: int)
    requires width > 0 && height > 0
    ensures BoxOf(RowOf(classId, b, width, height), width, height) == b
  {
    AxisRoundTrip(b.x0, b.x1, width as real);
    AxisRoundTrip(b.y0, b.y1, height as real);
  }

  /** Within half a unit of the sixth decimal. */
  predicate PrintedAs(value: real, printed: real) {
    value - 0.0000005 <= printed <= value + 0.0000005
  }

  predicate RowPrintedAs(row: LabelRow, printed: LabelRow) {
    && printed.classId == row.classId && PrintedAs(row.cx, printed.cx) && PrintedAs(row.cy, printed.cy)
    && PrintedAs(row.w, printed.w) && PrintedAs(row.h, printed.h)
  }

  lemma AxisPrinted(lo: real, hi: real, n: real, c: real, s: real)
    requires n > 0.0 && PrintedAs((lo + hi) / 2.0 / n, c) && PrintedAs((hi - lo) / n, s)
    ensures lo - 0.00000075 * n <= (c - s / 2.0) * n <= lo + 0.00000075 * n
    ensures hi - 0.00000075 * n <= (c + s / 2.0) * n <= hi + 0.00000075 * n
  {
    AxisRoundTrip(lo, hi, n);
    var c0, s0 := (lo + hi) / 2.0 / n, (hi - lo) / n;
    Between(c0 - s0 / 2.0, c - s / 2.0, n, 0.00000075);
    Between(c0 + s0 / 2.0, c + s / 2.0, n, 0.00000075);
  }

  lemma Between(a: real, b: real, n: real, e: real)
    requires n > 0.0 && a - e <= b <= a + e
    ensures Prod(a, n) - Prod(e, n) <= Prod(b, n) <= Prod(a, n) + Prod(e, n)
  {
    Distribute(a, e, n);
    Distribute(a - e, e, n);
    Scaled(a - e, b, n);
    Scaled(b, a + e, n);
  }

  lemma Scaled(x: real, y: real, n: real)
    requires n > 0.0 && x <= y
    ensures Prod(x, n) <= Prod(y, n)
  {
  }

  /** Within three quarters of a millionth of the side. */
  predicate Near(x: real, y: real, side: int) {
    y - 0.00000075 * side as real <= x <= y + 0.00000075 * side as real
  }

  /** A row as printed, with six decimals, reads back within three quarters of a millionth of the image's
      side of the box it was written for. */
  lemma PrintedRowClose(classId: int, b: Box, width: int, height: int, printed: LabelRow)
    requires width > 0 && height > 0 && RowPrintedAs(RowOf(classId, b, width, height), printed)
    ensures var r := BoxOf(printed, width, height);
            Near(r.x0, b.x0, width) && Near(r.x1, b.x1, width) && Near(r.y0, b.y0, height) && Near(r.y1, b.y1, height)
  {
    AxisPrinted(b.x0, b.x1, width as real, printed.cx, printed.w);
    AxisPrinted(b.y0, b.y1, height as real, printed.cy, printed.h);
  }

  /** The clipped box lies inside the tile and, moved back by the tile origin, inside the box. */
  lemma ClippedInside(b: Box, t: Tile)
    requires t.Valid() && ClipBox(b, t).Clipped?
    ensures var c := ClipBox(b, t).box;
      && 0.0 <= c.x0 < c.x1 <= t.Width() as real && 0.0 <= c.y0 < c.y1 <= t.Height() as real
      && b.x0 <= c.x0 + t.x0 as real && c.x1 + t.x0 as real <= b.x1
      && b.y0 <= c.y0 + t.y0 as real && c.y1 + t.y0 as real <= b.y1
  {
    ProductSign(Cut(t.x0, t.Width(), b.x0, b.x1), Cut(t.y0, t.Height(), b.y0, b.y1));
  }

  datatype Label = Label(classId: int, box: Box)

  /** The row a label gets in a tile that sees enough of it. */
  function TileRow(l: Label, t: Tile): LabelRow
    requires t.Valid() && ClipBox(l.box, t).Clipped?
  {
    RowOf(l.classId, ClipBox(l.box, t).box, t.Width(), t.Height())
  }

  predicate Enough(l: Label, t: Tile, minVisible: real) {
    ClipBox(l.box, t).Clipped? && Visible(l.box, t) >= minVisible
  }

  /** Every number of a row is a share of the tile's own size. */
  lemma RowNormalized(l: Label, t: Tile)
    requires t.Valid() && ClipBox(l.box, t).Clipped?
    ensures var row := TileRow(l, t);
      && row.classId == l.classId && 0.0 < row.w <= 1.0 && 0.0 < row.h <= 1.0
      && row.w / 2.0 <= row.cx <= 1.0 - row.w / 2.0 && row.h / 2.0 <= row.cy <= 1.0 - row.h / 2.0
  {
    var c := ClipBox(l.box, t).box;
    ClippedInside(l.box, t);
    ProperCut(l.box, t);
    Shares(c.x0, c.x1, t.Width());
    Shares(c.y0, c.y1, t.Height());
  }

  lemma ProperCut(b: Box, t: Tile)
    requires ClipBox(b, t).Clipped?
    ensures Proper(ClipBox(b, t).box)
  {
  }

  lemma Shares(lo: real, hi: real, n: int)
    requires 0.0 <= lo < hi <= n as real
    ensures var c, s := (lo + hi) / 2.0 / n as real, (hi - lo) / n as real;
      0.0 < s <= 1.0 && s / 2.0 <= c <= 1.0 - s / 2.0
  {
    assert (lo + hi) / 2.0 / n as real - (hi - lo) / n as real / 2.0 == lo / n as real;
    assert (lo + hi) / 2.0 / n as real + (hi - lo) / n as real / 2.0 == hi / n as real;
  }

  /** The rows of a tile: the labels it sees enough of, in label order. */
  function RowsFor(labels: seq<Label>, t: Tile, minVisible: real): seq<LabelRow>
    requires t.Valid()
  {
    if labels == [] then []
    else
      var front := RowsFor(labels[..|labels| - 1], t, minVisible);
      var last := labels[|labels| - 1];
      if Enough(last, t, minVisible) then front + [TileRow(last, t)] else front
  }

  /** How many labels the tile sees at all. */
  function Touched(labels: seq<Label>, t: Tile): nat {
    if labels == [] then 0
    else Touched(labels[..|labels| - 1], t) + if Visible(labels[|labels| - 1].box, t) > 0.0 then 1 else 0
  }

  datatype TileRowsOutcome = TileRows(rows: seq<LabelRow>, touched: nat) | BadMinVisible | LengthMismatch

  function Zip(ids: seq<int>, boxes: seq<Box>): seq<Label>
    requires |ids| == |boxes|
  {
    seq(|ids|, i requires 0 <= i < |ids| => Label(ids[i], boxes[i]))
  }

  method TileLabelRows(ids: seq<int>, boxes: seq<Box>, t: Tile, minVisible: real) returns (r: TileRowsOutcome)
    requires t.Valid()
    ensures r.BadMinVisible? <==> !(0.0 < minVisible <= 1.0)
    ensures r.LengthMismatch? <==> 0.0 < minVisible <= 1.0 && |ids| != |boxes|
    ensures r.TileRows? ==>
      r.rows == RowsFor(Zip(ids, boxes), t, minVisible) && r.touched == Touched(Zip(ids, boxes), t)
  {
    if !(0.0 < minVisible <= 1.0) {
      return BadMinVisible;
    }
    if |ids| != |boxes| {
      return LengthMismatch;
    }
    ghost var labels := Zip(ids, boxes);
    var rows: seq<LabelRow> := [];
    var touched := 0;
    for k := 0 to |ids|
      invariant rows == RowsFor(labels[..k], t, minVisible) && touched == Touched(labels[..k], t)
    {
      assert labels[..k + 1][..k] == labels[..k];
      var c := ClipBox(boxes[k], t);
      VisibleSign(boxes[k], t);
      if c.Clipped? && c.visible > 0.0 {
        touched := touched + 1;
        if c.visible >= minVisible {
          rows := rows + [RowOf(ids[k], c.box, t.Width(), t.Height())];
        }
      }
    }
    assert labels[..|ids|] == labels;
    r := TileRows(rows, touched);
  }

  lemma VisibleSign(b: Box, t: Tile)
    ensures Visible(b, t) > 0.0 <==> ClipBox(b, t).Clipped?
  {
    if ClipBox(b, t).Clipped? {
      Quotient(InTile(b, t), PosArea(b));
    }
  }

  /** Exactly the labels a tile sees enough of have a row in it. */
  lemma {:induction false} RowsExactly(labels: seq<Label>, t: Tile, minVisible: real, row: LabelRow)
    requires t.Valid() && minVisible > 0.0
    ensures row in RowsFor(labels, t, minVisible) <==>
      exists k :: 0 <= k < |labels| && Enough(labels[k], t, minVisible) && row == TileRow(labels[k], t)
  {
    if labels == [] {
    } else {
      var front := labels[..|labels| - 1];
      RowsExactly(front, t, minVisible, row);
      if k :| 0 <= k < |labels| && Enough(labels[k], t, minVisible) && row == TileRow(labels[k], t) {
        assert k < |front| ==> front[k] == labels[k];
      }
      if k :| 0 <= k < |front| && Enough(front[k], t, minVisible) && row == TileRow(front[k], t) {
        assert labels[k] == front[k];
      }
    }
  }

  /** No label is touched exactly when none is visible, and a row is only written for a touched label. */
  lemma {:induction false} TouchedMeaning(labels: seq<Label>, t: Tile, minVisible: real)
    requires t.Valid() && minVisible > 0.0
    ensures Touched(labels, t) == 0 <==> forall k :: 0 <= k < |labels| ==> Visible(labels[k].box, t) <= 0.0
    ensures |RowsFor(labels, t, minVisible)| <= Touched(labels, t)
  {
    if labels != [] {
      var front := labels[..|labels| - 1];
      TouchedMeaning(front, t, minVisible);
      assert forall k :: 0 <= k < |front| ==> front[k] == labels[k];
      assert labels[|front|] == labels[|labels| - 1];
    }
  }

  function Trues(flags: seq<bool>): nat {
    if flags == [] then 0 else Trues(flags[..|flags| - 1]) + if flags[|flags| - 1] then 1 else 0
  }

  lemma {:induction false} TruesCounted(flags: seq<bool>)
    ensures Trues(flags) == |set k: nat | k < |flags| && flags[k]|
  {
    if flags != [] {
      var n := |flags| - 1;
      TruesCounted(flags[..n]);
      assert (set k: nat | k < |flags| && flags[k])
          == (set k: nat | k < n && flags[..n][k]) + (if flags[n] then {n} else {});
    }
  }

  predicate Sees(l: Label, t: Tile) {
    Visible(l.box, t) > 0.0
  }

  /** The labels the tile sees anything of. */
  function Seen(labels: seq<Label>, t: Tile): set<nat> {
    set k: nat | k < |labels| && Sees(labels[k], t)
  }

  lemma {:induction false} TouchedFlags(labels: seq<Label>, t: Tile, flags: seq<bool>)
    requires |flags| == |labels| && forall k :: 0 <= k < |labels| ==> flags[k] == Sees(labels[k], t)
    ensures Touched(labels, t) == Trues(flags)
  {
    if labels != [] {
      TouchedFlags(labels[..|labels| - 1], t, flags[..|labels| - 1]);
    }
  }

  lemma {:induction false} RowsFlags(labels: seq<Label>, t: Tile, minVisible: real, flags: seq<bool>)
    requires t.Valid() && |flags| == |labels|
    requires forall k :: 0 <= k < |labels| ==> flags[k] == Enough(labels[k], t, minVisible)
    ensures |RowsFor(labels, t, minVisible)| == Trues(flags)
  {
    if labels != [] {
      RowsFlags(labels[..|labels| - 1], t, minVisible, flags[..|labels| - 1]);
    }
  }

  /** touched counts exactly the labels the tile sees anything of. */
  lemma TouchedCounted(labels: seq<Label>, t: Tile)
    ensures Touched(labels, t) == |Seen(labels, t)|
  {
    var flags := seq(|labels|, k requires 0 <= k < |labels| => Sees(labels[k], t));
    TouchedFlags(labels, t, flags);
    TruesCounted(flags);
    assert (set k: nat | k < |flags| && flags[k]) == Seen(labels, t);
  }

  /** There is one row for each label the tile sees enough of. */
  lemma RowsCounted(labels: seq<Label>, t: Tile, minVisible: real)
    requires t.Valid() && minVisible > 0.0
    ensures |RowsFor(labels, t, minVisible)| == |set k: nat | k < |labels| && Visible(labels[k].box, t) >= minVisible|
  {
    var flags := seq(|labels|, k requires 0 <= k < |labels| => Enough(labels[k], t, minVisible));
    RowsFlags(labels, t, minVisible, flags);
    TruesCounted(flags);
    forall k: nat | k < |labels| ensures flags[k] == (Visible(labels[k].box, t) >= minVisible) {
      VisibleSign(labels[k].box, t);
    }
    assert (set k: nat | k < |flags| && flags[k])
        == (set k: nat | k < |labels| && Visible(labels[k].box, t) >= minVisible);
  }
}
