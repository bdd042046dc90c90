/** What the similarity measures of Geometry stand for: areas counted cell by cell. A grid is any two rising
    lists of lines; a region's area is the sum of the cells whose lower corner belongs to it. */
module BoxArea {
  import opened Basics
  import opened Geometry

  type Region = (real, real) -> bool

  /** The point lies in the box, its right and lower edge excluded. */
  predicate Has(b: Box, x: real, y: real) {
    b.x0 <= x < b.x1 && b.y0 <= y < b.y1
  }

  function AsBox(t: Tile): Box {
    Box(t.x0 as real, t.y0 as real, t.x1 as real, t.y1 as real)
  }

  // ── grids ──────────────────────────────────────────────────────────────────

  predicate Rising(lines: seq<real>) {
    forall i, j :: 0 <= i < j < |lines| ==> lines[i] < lines[j]
  }

  /** The cells of one row that belong to the region. */
  function Strip(xs: seq<real>, r: Region, y: real): real {
    if |xs| < 2 then 0.0 else (if r(xs[0], y) then xs[1] - xs[0] else 0.0) + Strip(xs[1..], r, y)
  }

  function Measure(xs: seq<real>, ys: seq<real>, r: Region): real {
    if |ys| < 2 then 0.0 else Prod(Strip(xs, r, ys[0]), ys[1] - ys[0]) + Measure(xs, ys[1..], r)
  }

  /** The box's edges are lines of the grid. */
  predicate OnLines(xs: seq<real>, ys: seq<real>, b: Box) {
    b.x0 in xs && b.x1 in xs && b.y0 in ys && b.y1 in ys
  }

  ghost predicate Grid(xs: seq<real>, ys: seq<real>, a: Box, b: Box) {
    Rising(xs) && Rising(ys) && OnLines(xs, ys, a) && OnLines(xs, ys, b)
  }

  /** The extent of lo..hi that lies right of the first line. */
  function Extent(lo: real, hi: real, first: real): real {
    Max(0.0, hi - Max(lo, first))
  }

  lemma {:induction false} StripExtent(xs: seq<real>, r: Region, y: real, lo: real, hi: real)
    requires Rising(xs) && xs != [] && (lo in xs || lo <= xs[0]) && (hi in xs || hi <= xs[0])
    requires forall x :: r(x, y) <==> lo <= x < hi
    ensures Strip(xs, r, y) == Extent(lo, hi, xs[0])
  {
    if |xs| > 1 {
      StripExtent(xs[1..], r, y, lo, hi);
    }
  }

  lemma {:induction false} StripNone(xs: seq<real>, r: Region, y: real)
    requires forall x :: !r(x, y)
    ensures Strip(xs, r, y) == 0.0
  {
    if |xs| > 1 {
      StripNone(xs[1..], r, y);
    }
  }

  lemma StripBox(xs: seq<real>, r: Region, y: real, b: Box)
    requires Rising(xs) && b.x0 in xs && b.x1 in xs && forall x :: r(x, y) <==> Has(b, x, y)
    ensures Strip(xs, r, y) == if b.y0 <= y < b.y1 then Max(0.0, b.x1 - b.x0) else 0.0
  {
    if b.y0 <= y < b.y1 {
      StripExtent(xs, r, y, b.x0, b.x1);
    } else {
      StripNone(xs, r, y);
    }
  }

  /** The first row's share of an extent. */
  lemma ExtentStep(lo: real, hi: real, ys: seq<real>)
    requires Rising(ys) && |ys| > 1 && (lo in ys || lo <= ys[0]) && (hi in ys || hi <= ys[0])
    ensures Extent(lo, hi, ys[0]) == (if lo <= ys[0] < hi then ys[1] - ys[0] else 0.0) + Extent(lo, hi, ys[1])
    ensures (lo in ys[1..] || lo <= ys[1]) && (hi in ys[1..] || hi <= ys[1])
  {
  }

  /** Cell by cell, a box has the area its sides give, whatever the grid. */
  lemma {:induction false} BoxMeasure(xs: seq<real>, ys: seq<real>, r: Region, b: Box)
    requires Rising(xs) && Rising(ys) && b.x0 in xs && b.x1 in xs
    requires ys != [] && (b.y0 in ys || b.y0 <= ys[0]) && (b.y1 in ys || b.y1 <= ys[0])
    requires forall x, y :: r(x, y) <==> Has(b, x, y)
    ensures Measure(xs, ys, r) == Prod(Max(0.0, b.x1 - b.x0), Extent(b.y0, b.y1, ys[0]))
  {
    if |ys| > 1 {
      ExtentStep(b.y0, b.y1, ys);
      BoxMeasure(xs, ys[1..], r, b);
      StripBox(xs, r, ys[0], b);
      var w := Max(0.0, b.x1 - b.x0);
      Split(w, if b.y0 <= ys[0] < b.y1 then ys[1] - ys[0] else 0.0, Extent(b.y0, b.y1, ys[1]));
    }
  }

  lemma Split(w: real, h: real, k: real)
    ensures Prod(w, h) + Prod(w, k) == Prod(w, h + k)
    ensures Prod(h, w) + Prod(k, w) == Prod(h + k, w)
  {
  }

  /** Two regions and what they share: the cells of either are those of both lists, less the shared ones. */
  lemma {:induction false} StripUnion(xs: seq<real>, y: real, a: Region, b: Region, either: Region, both: Region)
    requires forall x, y :: either(x, y) <==> a(x, y) || b(x, y)
    requires forall x, y :: both(x, y) <==> a(x, y) && b(x, y)
    ensures Strip(xs, either, y) + Strip(xs, both, y) == Strip(xs, a, y) + Strip(xs, b, y)
  {
    if |xs| > 1 {
      StripUnion(xs[1..], y, a, b, either, both);
    }
  }

  lemma {:induction false} MeasureUnion(xs: seq<real>, ys: seq<real>, a: Region, b: Region, either: Region, both: Region)
    requires forall x, y :: either(x, y) <==> a(x, y) || b(x, y)
    requires forall x, y :: both(x, y) <==> a(x, y) && b(x, y)
    ensures Measure(xs, ys, either) + Measure(xs, ys, both) == Measure(xs, ys, a) + Measure(xs, ys, b)
  {
    if |ys| > 1 {
      MeasureUnion(xs, ys[1..], a, b, either, both);
      StripUnion(xs, ys[0], a, b, either, both);
      var h := ys[1] - ys[0];
      Sums(Strip(xs, either, ys[0]), Strip(xs, both, ys[0]), Strip(xs, a, ys[0]), Strip(xs, b, ys[0]), h);
    }
  }

  lemma Sums(a: real, b: real, c: real, d: real, h: real)
    requires a + b == c + d
    ensures Prod(a, h) + Prod(b, h) == Prod(c, h) + Prod(d, h)
  {
    Split(h, a, b);
    Split(h, c, d);
    assert (a + b) * h == (c + d) * h;
  }

  /** A new line put in its place. */
  function WithLine(lines: seq<real>, v: real): seq<real> {
    if lines == [] || v < lines[0] then [v] + lines
    else if v == lines[0] then lines
    else [lines[0]] + WithLine(lines[1..], v)
  }

  lemma {:induction false} WithLineRises(lines: seq<real>, v: real)
    requires Rising(lines)
    ensures Rising(WithLine(lines, v)) && forall x :: x in WithLine(lines, v) <==> x in lines || x == v
  {
    if lines != [] && v > lines[0] {
      WithLineRises(lines[1..], v);
      var rest := WithLine(lines[1..], v);
      forall k | 0 <= k < |rest| ensures lines[0] < rest[k] {
        assert rest[k] in rest;
      }
    }
  }

  /** Rising lines through any values, so there is a grid for any boxes. */
  function Lines(values: seq<real>): seq<real> {
    if values == [] then [] else WithLine(Lines(values[1..]), values[0])
  }

  lemma {:induction false} LinesRise(values: seq<real>)
    ensures Rising(Lines(values)) && forall v :: v in values ==> v in Lines(values)
  {
    if values != [] {
      LinesRise(values[1..]);
      WithLineRises(Lines(values[1..]), values[0]);
    }
  }

  // ── the two measures ───────────────────────────────────────────────────────

  ghost predicate IsRegion(r: Region, b: Box) {
    forall x, y :: r(x, y) <==> Has(b, x, y)
  }

  ghost predicate IsBoth(r: Region, a: Box, b: Box) {
    forall x, y :: r(x, y) <==> Has(a, x, y) && Has(b, x, y)
  }

  ghost predicate IsEither(r: Region, a: Box, b: Box) {
    forall x, y :: r(x, y) <==> Has(a, x, y) || Has(b, x, y)
  }

  lemma MeasureOfBox(xs: seq<real>, ys: seq<real>, r: Region, b: Box)
    requires Rising(xs) && Rising(ys) && OnLines(xs, ys, b) && IsRegion(r, b)
    ensures Measure(xs, ys, r) == PosArea(b)
  {
    BoxMeasure(xs, ys, r, b);
    assert Extent(b.y0, b.y1, ys[0]) == Max(0.0, b.y1 - b.y0);
  }

  /** The box two boxes share, turned inside out when they are apart. */
  function Meet(a: Box, b: Box): Box {
    Box(Max(a.x0, b.x0), Max(a.y0, b.y0), Min(a.x1, b.x1), Min(a.y1, b.y1))
  }

  lemma SharedArea(xs: seq<real>, ys: seq<real>, both: Region, a: Box, b: Box)
    requires Grid(xs, ys, a, b) && IsBoth(both, a, b)
    ensures Measure(xs, ys, both) == Inter(a, b)
  {
    assert IsRegion(both, Meet(a, b));
    MeasureOfBox(xs, ys, both, Meet(a, b));
  }

  lemma UnionArea(xs: seq<real>, ys: seq<real>, either: Region, a: Box, b: Box)
    requires Grid(xs, ys, a, b) && IsEither(either, a, b)
    ensures Measure(xs, ys, either) == PosArea(a) + PosArea(b) - Inter(a, b)
  {
    var ra: Region := (x, y) => Has(a, x, y);
    var rb: Region := (x, y) => Has(b, x, y);
    var both: Region := (x, y) => Has(a, x, y) && Has(b, x, y);
    MeasureUnion(xs, ys, ra, rb, either, both);
    MeasureOfBox(xs, ys, ra, a);
    MeasureOfBox(xs, ys, rb, b);
    SharedArea(xs, ys, both, a, b);
  }

  /** The shared area is at most either box's own. */
  lemma InterBounds(a: Box, b: Box)
    requires Proper(a) && Proper(b)
    ensures 0.0 <= Inter(a, b) <= Area(a) && Inter(a, b) <= Area(b)
    ensures 0.0 < Area(a) == PosArea(a) && 0.0 < Area(b) == PosArea(b)
  {
    var w, h := Max(0.0, Min(a.x1, b.x1) - Max(a.x0, b.x0)), Max(0.0, Min(a.y1, b.y1) - Max(a.y0, b.y0));
    Smaller(w, h, a.x1 - a.x0, a.y1 - a.y0);
    Smaller(w, h, b.x1 - b.x0, b.y1 - b.y0);
  }

  lemma Smaller(w: real, h: real, w': real, h': real)
    requires 0.0 <= w <= w' && 0.0 <= h <= h' && 0.0 < w' && 0.0 < h'
    ensures 0.0 <= Prod(w, h) <= Prod(w', h') && 0.0 < Prod(w', h')
    ensures Prod(w, h) == Prod(w', h') ==> w == w' && h == h'
    ensures Prod(w, h) == 0.0 <==> w == 0.0 || h == 0.0
  {
    assert w' * h' - w * h == (w' - w) * h' + w * (h' - h);
    assert (w' - w) * h' >= 0.0 && w * (h' - h) >= 0.0;
    assert w < w' ==> (w' - w) * h' > 0.0;
  }

  /** IoU of proper boxes is the area of their common cells over that of the cells of either. */
  lemma IouMeaning(xs: seq<real>, ys: seq<real>, both: Region, either: Region, a: Box, b: Box)
    requires Proper(a) && Proper(b) && Grid(xs, ys, a, b) && IsBoth(both, a, b) && IsEither(either, a, b)
    ensures Measure(xs, ys, either) > 0.0
    ensures Iou(a, b) == Measure(xs, ys, both) / Measure(xs, ys, either)
  {
    SharedArea(xs, ys, both, a, b);
    UnionArea(xs, ys, either, a, b);
    InterBounds(a, b);
  }

  lemma Ratio(part: real, whole: real)
    requires 0.0 <= part <= whole && whole > 0.0
    ensures 0.0 <= part / whole <= 1.0
    ensures part / whole == 1.0 <==> part == whole
    ensures part / whole == 0.0 <==> part == 0.0
  {
  }

  /** It lies in 0..1, is 1 exactly for equal boxes and 0 exactly for boxes without a common point. */
  lemma IouRange(a: Box, b: Box)
    requires Proper(a) && Proper(b)
    ensures 0.0 <= Iou(a, b) <= 1.0
    ensures Iou(a, b) == 1.0 <==> a == b
    ensures Iou(a, b) == 0.0 <==> forall x, y :: !(Has(a, x, y) && Has(b, x, y))
  {
    InterBounds(a, b);
    Ratio(Inter(a, b), Area(a) + Area(b) - Inter(a, b));
    var w, h := Max(0.0, Min(a.x1, b.x1) - Max(a.x0, b.x0)), Max(0.0, Min(a.y1, b.y1) - Max(a.y0, b.y0));
    Smaller(w, h, a.x1 - a.x0, a.y1 - a.y0);
    Smaller(w, h, b.x1 - b.x0, b.y1 - b.y0);
    if w > 0.0 && h > 0.0 {
      assert Has(a, Max(a.x0, b.x0), Max(a.y0, b.y0)) && Has(b, Max(a.x0, b.x0), Max(a.y0, b.y0));
    }
  }

  /** A box without area overlaps nothing, not even itself. */
  lemma IouFlat(a: Box, b: Box)
    requires a.x0 == a.x1 || a.y0 == a.y1
    requires Proper(b) || b.x0 == b.x1 || b.y0 == b.y1
    ensures Iou(a, b) == 0.0 && Iou(b, a) == 0.0
  {
    assert Area(a) == 0.0 && Inter(a, b) == 0.0 && Inter(b, a) == 0.0;
  }

  // ── the band two tiles share ───────────────────────────────────────────────

  /** Two tiles share exactly the points of their overlap rectangle, none when there is none. */
  lemma TileOverlapMeaning(a: Tile, b: Tile, x: real, y: real)
    ensures Has(AsBox(a), x, y) && Has(AsBox(b), x, y) <==>
            TileOverlap(a, b).Some? && Has(AsBox(TileOverlap(a, b).value), x, y)
    ensures TileOverlap(a, b).Some? ==> Proper(AsBox(TileOverlap(a, b).value))
  {
  }

  /** A proper box touches the band exactly when they have a point in common. */
  lemma TouchesMeaning(b: Box, band: Tile)
    requires Proper(b) && Proper(AsBox(band))
    ensures Touches(b, band) <==> exists x, y :: Has(b, x, y) && Has(AsBox(band), x, y)
  {
    if Touches(b, band) {
      assert Has(b, Max(b.x0, band.x0 as real), Max(b.y0, band.y0 as real));
    }
  }

  /** The parts of two boxes inside the band consist of the same points. */
  ghost predicate Coincide(a: Box, b: Box, band: Tile) {
    forall x, y :: Has(AsBox(band), x, y) ==> (Has(a, x, y) <==> Has(b, x, y))
  }

  lemma ClipHas(a: Box, band: Tile, x: real, y: real)
    ensures Has(Clip(a, band), x, y) <==> Has(a, x, y) && Has(AsBox(band), x, y)
  {
  }

  /** A box without area has no points, and one with area has its corner. */
  lemma AreaHas(a: Box)
    ensures PosArea(a) >= 0.0
    ensures PosArea(a) > 0.0 <==> Proper(a)
    ensures Proper(a) <==> Has(a, a.x0, a.y0)
  {
    assert PosArea(a) == Max(0.0, a.x1 - a.x0) * Max(0.0, a.y1 - a.y0);
  }

  /** Boxes with the same points are the same, or both empty. */
  lemma SamePoints(a: Box, b: Box)
    requires forall x, y :: Has(a, x, y) <==> Has(b, x, y)
    ensures a == b || (PosArea(a) == 0.0 && PosArea(b) == 0.0)
  {
    AreaHas(a);
    AreaHas(b);
    if Proper(a) && Proper(b) {
      assert Has(a, b.x0, b.y0) && Has(b, a.x0, a.y0);
      assert a.x1 < b.x1 ==> !Has(a, a.x1, a.y0) && Has(b, a.x1, a.y0);
      assert b.x1 < a.x1 ==> Has(a, b.x1, a.y0) && !Has(b, b.x1, a.y0);
      assert a.y1 < b.y1 ==> !Has(a, a.x0, a.y1) && Has(b, a.x0, a.y1);
      assert b.y1 < a.y1 ==> Has(a, a.x0, b.y1) && !Has(b, a.x0, b.y1);
    }
  }

  lemma ClipsCoincide(a: Box, b: Box, band: Tile)
    requires Coincide(a, b, band)
    ensures Clip(a, band) == Clip(b, band) || (PosArea(Clip(a, band)) == 0.0 && PosArea(Clip(b, band)) == 0.0)
  {
    forall x, y ensures Has(Clip(a, band), x, y) <==> Has(Clip(b, band), x, y) {
      ClipHas(a, band, x, y);
      ClipHas(b, band, x, y);
    }
    SamePoints(Clip(a, band), Clip(b, band));
  }

  /** Band IoS sees nothing of a box outside the band. */
  lemma BandIosOfParts(a: Box, b: Box, a': Box, b': Box, band: Tile)
    requires Coincide(a, a', band) && Coincide(b, b', band)
    ensures BandIos(a, b, band) == BandIos(a', b', band)
  {
    ClipsCoincide(a, a', band);
    ClipsCoincide(b, b', band);
    AreaHas(Clip(a, band));
    AreaHas(Clip(b, band));
    AreaHas(Clip(a', band));
    AreaHas(Clip(b', band));
  }

  /** Two boxes that cover the same part of the band, and some of it, have band IoS 1. */
  lemma BandIosOne(a: Box, b: Box, band: Tile, x: real, y: real)
    requires Coincide(a, b, band) && Has(a, x, y) && Has(AsBox(band), x, y)
    ensures BandIos(a, b, band) == 1.0
  {
    ClipsCoincide(a, b, band);
    ClipHas(a, band, x, y);
    AreaHas(Clip(a, band));
    WholeOfItself(Clip(a, band));
  }

  lemma WholeOfItself(c: Box)
    requires PosArea(c) > 0.0
    ensures Inter(c, c) / Min(PosArea(c), PosArea(c)) == 1.0
  {
    Ratio(PosArea(c), PosArea(c));
  }

  ghost predicate IsPart(r: Region, a: Box, band: Tile) {
    forall x, y :: r(x, y) <==> Has(a, x, y) && Has(AsBox(band), x, y)
  }

  lemma PartArea(xs: seq<real>, ys: seq<real>, part: Region, a: Box, band: Tile)
    requires Rising(xs) && Rising(ys) && OnLines(xs, ys, a) && OnLines(xs, ys, AsBox(band)) && IsPart(part, a, band)
    ensures Measure(xs, ys, part) == PosArea(Clip(a, band)) && OnLines(xs, ys, Clip(a, band))
  {
    forall x, y ensures part(x, y) <==> Has(Clip(a, band), x, y) {
      ClipHas(a, band, x, y);
    }
    MeasureOfBox(xs, ys, part, Clip(a, band));
  }

  /** Band IoS is the area of the cells common to both parts over that of the smaller part, and 0 when
      that part is empty. */
  lemma BandIosMeaning(xs: seq<real>, ys: seq<real>, partA: Region, partB: Region, common: Region,
                       a: Box, b: Box, band: Tile)
    requires Grid(xs, ys, a, b) && OnLines(xs, ys, AsBox(band)) && IsPart(partA, a, band) && IsPart(partB, b, band)
    requires forall x, y :: common(x, y) <==> partA(x, y) && partB(x, y)
    ensures var ma, mb := Measure(xs, ys, partA), Measure(xs, ys, partB);
      BandIos(a, b, band) == if ma <= 0.0 || mb <= 0.0 then 0.0
                             else Measure(xs, ys, common) / (if ma < mb then ma else mb)
  {
    PartArea(xs, ys, partA, a, band);
    PartArea(xs, ys, partB, b, band);
    forall x, y ensures common(x, y) <==> Has(Clip(a, band), x, y) && Has(Clip(b, band), x, y) {
      ClipHas(a, band, x, y);
      ClipHas(b, band, x, y);
    }
    SharedArea(xs, ys, common, Clip(a, band), Clip(b, band));
  }
}
