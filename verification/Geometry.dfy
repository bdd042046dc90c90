/** Pixel boxes, tiles and the two box-similarity measures of conecsa_common/tiling.py.
    Coordinates and scores are mathematical reals; tile corners are integers. */
module Geometry {
  import opened Basics

  /** A frame-space box given by its corners; nothing forces x0 <= x1. */
  datatype Box = Box(x0: real, y0: real, x1: real, y1: real)

  /** A pixel rectangle; x1 and y1 are exclusive. */
  datatype Tile = Tile(x0: int, y0: int, x1: int, y1: int) {
    /** What the constructor of a tile demands. */
    predicate Valid() {
      0 <= x0 < x1 && 0 <= y0 < y1
    }

    function Width(): int { x1 - x0 }

    function Height(): int { y1 - y0 }
  }

  /** A box with a positive area. */
  predicate Proper(b: Box) {
    b.x0 < b.x1 && b.y0 < b.y1
  }

  function Max(a: real, b: real): real { if a < b then b else a }

  function Min(a: real, b: real): real { if a < b then a else b }

  function MaxInt(a: int, b: int): int { if a < b then b else a }

  function MinInt(a: int, b: int): int { if a < b then a else b }

  /** A product under its own name, so that proofs can carry it whole. */
  function Prod(a: real, b: real): real { a * b }

  /** Intersection area of two boxes, 0 when they are apart on either axis. */
  function Inter(a: Box, b: Box): real {
    Prod(Max(0.0, Min(a.x1, b.x1) - Max(a.x0, b.x0)), Max(0.0, Min(a.y1, b.y1) - Max(a.y0, b.y0)))
  }

  /** The signed area a box with swapped corners keeps. */
  function Area(a: Box): real {
    Prod(a.x1 - a.x0, a.y1 - a.y0)
  }

  /** Intersection over union; 0 where the union is not positive. */
  function Iou(a: Box, b: Box): real {
    var union := Area(a) + Area(b) - Inter(a, b);
    if union > 0.0 then Inter(a, b) / union else 0.0
  }

  lemma IouSymmetric(a: Box, b: Box)
    ensures Iou(a, b) == Iou(b, a)
  {
    assert Inter(a, b) == Inter(b, a);
  }

  /** The rectangle two tiles share, if any. */
  function TileOverlap(a: Tile, b: Tile): Option<Tile> {
    var x0, y0 := MaxInt(a.x0, b.x0), MaxInt(a.y0, b.y0);
    var x1, y1 := MinInt(a.x1, b.x1), MinInt(a.y1, b.y1);
    if x1 <= x0 || y1 <= y0 then None else Some(Tile(x0, y0, x1, y1))
  }

  /** The box intersects the rectangle with positive area (for a proper box). */
  predicate Touches(b: Box, band: Tile) {
    b.x0 < band.x1 as real && b.x1 > band.x0 as real && b.y0 < band.y1 as real && b.y1 > band.y0 as real
  }

  /** The box cut to the rectangle. */
  function Clip(b: Box, band: Tile): Box {
    Box(Max(b.x0, band.x0 as real), Max(b.y0, band.y0 as real),
        Min(b.x1, band.x1 as real), Min(b.y1, band.y1 as real))
  }

  /** Area that counts a box turned inside out by clipping as empty. */
  function PosArea(b: Box): real {
    Prod(Max(0.0, b.x1 - b.x0), Max(0.0, b.y1 - b.y0))
  }

  /** Intersection over the smaller box, both cut to the band of their two tiles first. */
  function BandIos(a: Box, b: Box, band: Tile): real {
    var ca, cb := Clip(a, band), Clip(b, band);
    var smaller := Min(PosArea(ca), PosArea(cb));
    if smaller > 0.0 then Inter(ca, cb) / smaller else 0.0
  }

  lemma BandIosSymmetric(a: Box, b: Box, band: Tile)
    ensures BandIos(a, b, band) == BandIos(b, a, band)
  {
    var ca, cb := Clip(a, band), Clip(b, band);
    assert Inter(ca, cb) == Inter(cb, ca);
    assert Min(PosArea(ca), PosArea(cb)) == Min(PosArea(cb), PosArea(ca));
  }
}
