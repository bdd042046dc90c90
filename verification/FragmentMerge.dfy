/** merge_tiles_grouped as the source runs it: a match table filled tile pair by tile pair, then a
    greedy pass that edits its list of groups in place. The result is the grouping of FragmentGroups. */
module FragmentMerge {
  import opened Geometry
  import opened BoxArea
  import opened StableOrder
  import opened FragmentGroups

  datatype Detections = Detections(boxes: seq<Box>, scores: seq<real>, classes: seq<int>,
                                   tileIds: seq<int>, tiles: seq<Tile>) {
    predicate Aligned() {
      |scores| == |boxes| && |classes| == |boxes| && |tileIds| == |boxes|
    }

    predicate TilesKnown() {
      forall i :: 0 <= i < |tileIds| ==> 0 <= tileIds[i] < |tiles|
    }
  }

  datatype Thresholds = Thresholds(iou: real, ios: real) {
    predicate Valid() {
      0.0 <= iou <= 1.0 && 0.0 <= ios <= 1.0
    }
  }

  datatype Outcome = Grouped(groups: Groups) | BadThreshold | LengthMismatch | BadTileId

  /** The two boxes cover each other enough inside the band their tiles share. */
  predicate Alike(a: Box, b: Box, band: Tile, t: Thresholds) {
    Iou(a, b) >= t.iou || BandIos(a, b, band) >= t.ios
  }

  /** Two fragments may belong to one object: the documented pairwise rule. */
  predicate Matches(d: Detections, t: Thresholds, i: nat, j: nat)
    requires d.Aligned() && d.TilesKnown() && i < |d.boxes| && j < |d.boxes|
  {
    && d.classes[i] == d.classes[j]
    && d.tileIds[i] != d.tileIds[j]
    && var band := TileOverlap(d.tiles[d.tileIds[i]], d.tiles[d.tileIds[j]]);
       band.Some? && Touches(d.boxes[i], band.value) && Touches(d.boxes[j], band.value)
       && Alike(d.boxes[i], d.boxes[j], band.value, t)
  }

  lemma MatchesSymmetric(d: Detections, t: Thresholds, i: nat, j: nat)
    requires d.Aligned() && d.TilesKnown() && i < |d.boxes| && j < |d.boxes|
    ensures Matches(d, t, i, j) == Matches(d, t, j, i)
  {
    var ti, tj := d.tiles[d.tileIds[i]], d.tiles[d.tileIds[j]];
    assert TileOverlap(ti, tj) == TileOverlap(tj, ti);
    var band := TileOverlap(ti, tj);
    if band.Some? {
      IouSymmetric(d.boxes[i], d.boxes[j]);
      BandIosSymmetric(d.boxes[i], d.boxes[j], band.value);
    }
  }

  /** The fragments as the grouping pass sees them. */
  function AsFragments(d: Detections, t: Thresholds): (f: Fragments)
    requires d.Aligned() && d.TilesKnown()
    ensures f.Shaped() && |f.tile| == |d.boxes|
    ensures forall i, j :: 0 <= i < |d.boxes| && 0 <= j < |d.boxes| ==> f.matched[i][j] == Matches(d, t, i, j)
  {
    var n := |d.boxes|;
    Fragments(seq(n, i requires 0 <= i < n => seq(n, j requires 0 <= j < n => Matches(d, t, i, j))), d.tileIds)
  }

  lemma FragmentsValid(d: Detections, t: Thresholds)
    requires d.Aligned() && d.TilesKnown()
    ensures AsFragments(d, t).Valid()
  {
    forall i, j | 0 <= i < |d.boxes| && 0 <= j < |d.boxes| ensures Matches(d, t, i, j) == Matches(d, t, j, i) {
      MatchesSymmetric(d, t, i, j);
    }
  }

  // ── the match table ────────────────────────────────────────────────────────

  /** The tile pair (a, b) with a < b has been handled when the loops stand at (ta, tb). */
  predicate PairDone(a: int, b: int, ta: int, tb: int) {
    a < ta || (a == ta && b < tb)
  }

  /** The table holds the rule for every pair of fragments whose tile pair is done. */
  ghost predicate TableUpTo(d: Detections, t: Thresholds, m: array2<bool>, ta: int, tb: int)
    requires d.Aligned() && d.TilesKnown() && m.Length0 == |d.boxes| && m.Length1 == |d.boxes|
    reads m
  {
    forall i, j :: 0 <= i < |d.boxes| && 0 <= j < |d.boxes| ==>
      m[i, j] == (PairDone(MinInt(d.tileIds[i], d.tileIds[j]), MaxInt(d.tileIds[i], d.tileIds[j]), ta, tb)
                  && Matches(d, t, i, j))
  }

  /** One tile pair's block of the table. */
  method FillPair(d: Detections, t: Thresholds, m: array2<bool>, ta: nat, tb: nat)
    requires d.Aligned() && d.TilesKnown() && m.Length0 == |d.boxes| && m.Length1 == |d.boxes|
    requires ta < tb < |d.tiles| && TableUpTo(d, t, m, ta, tb)
    modifies m
    ensures TableUpTo(d, t, m, ta, tb + 1)
  {
    var n := |d.boxes|;
    PairMeaning(d, t, ta, tb);
    var overlap := TileOverlap(d.tiles[ta], d.tiles[tb]);
    if overlap.None? {
      return;
    }
    var band := overlap.value;
    var touch := seq(n, i requires 0 <= i < n => Touches(d.boxes[i], band));
    forall i, j | 0 <= i < n && 0 <= j < n && d.tileIds[i] == ta && touch[i] && d.tileIds[j] == tb && touch[j] {
      m[i, j] := d.classes[i] == d.classes[j] && Alike(d.boxes[i], d.boxes[j], band, t);
    }
    forall i, j | 0 <= i < n && 0 <= j < n && d.tileIds[i] == ta && touch[i] && d.tileIds[j] == tb && touch[j] {
      m[j, i] := d.classes[i] == d.classes[j] && Alike(d.boxes[i], d.boxes[j], band, t);
    }
  }

  /** What the rule says of two fragments of the tile pair (ta, tb). */
  lemma PairMeaning(d: Detections, t: Thresholds, ta: nat, tb: nat)
    requires d.Aligned() && d.TilesKnown() && ta < tb < |d.tiles|
    ensures forall i, j :: 0 <= i < |d.boxes| && 0 <= j < |d.boxes| && d.tileIds[i] == ta && d.tileIds[j] == tb ==>
      var band := TileOverlap(d.tiles[ta], d.tiles[tb]);
      && Matches(d, t, j, i) == Matches(d, t, i, j)
      && Matches(d, t, i, j) == (band.Some? && Touches(d.boxes[i], band.value) && Touches(d.boxes[j], band.value)
                                 && d.classes[i] == d.classes[j] && Alike(d.boxes[i], d.boxes[j], band.value, t))
  {
    forall i, j | 0 <= i < |d.boxes| && 0 <= j < |d.boxes| && d.tileIds[i] == ta && d.tileIds[j] == tb
      ensures Matches(d, t, j, i) == Matches(d, t, i, j)
    {
      MatchesSymmetric(d, t, i, j);
    }
  }

  /** The table filled tile pair by tile pair is the pointwise rule. */
  method FragmentMatches(d: Detections, t: Thresholds) returns (m: array2<bool>)
    requires d.Aligned() && d.TilesKnown()
    ensures fresh(m) && m.Length0 == |d.boxes| && m.Length1 == |d.boxes|
    ensures forall i, j :: 0 <= i < |d.boxes| && 0 <= j < |d.boxes| ==> m[i, j] == Matches(d, t, i, j)
  {
    var n := |d.boxes|;
    m := new bool[n, n]((i, j) => false);
    var ta := 0;
    while ta < |d.tiles|
      invariant 0 <= ta <= |d.tiles| && TableUpTo(d, t, m, ta, ta + 1)
    {
      var tb := ta + 1;
      while tb < |d.tiles|
        invariant ta < tb && (tb <= |d.tiles|) && TableUpTo(d, t, m, ta, tb)
      {
        FillPair(d, t, m, ta, tb);
        tb := tb + 1;
      }
      ta := ta + 1;
    }
  }

  // ── the greedy pass ────────────────────────────────────────────────────────

  /** The groups that were not emptied into another one. */
  function Compact(gs: Groups): Groups {
    if gs == [] then []
    else if gs[0] == [] then Compact(gs[1..])
    else [gs[0]] + Compact(gs[1..])
  }

  predicate NonEmpty(gs: Groups) {
    forall a :: 0 <= a < |gs| ==> gs[a] != []
  }

  lemma {:induction false} CompactSplit(a: Groups, b: Groups)
    ensures Compact(a + b) == Compact(a) + Compact(b)
  {
    if a == [] {
      assert a + b == b;
    } else {
      CompactSplit(a[1..], b);
      assert (a + b)[0] == a[0] && (a + b)[1..] == a[1..] + b;
      Assoc([a[0]], Compact(a[1..]), Compact(b));
    }
  }

  lemma Assoc<T>(a: seq<T>, b: seq<T>, c: seq<T>)
    ensures a + (b + c) == (a + b) + c
  {
  }

  lemma {:induction false} CompactNonEmpty(gs: Groups)
    requires NonEmpty(gs)
    ensures Compact(gs) == gs
  {
    if gs != [] {
      CompactNonEmpty(gs[1..]);
    }
  }

  /** Each group's tile set is kept next to it. */
  ghost predicate TilesOf(f: Fragments, gs: Groups, ts: seq<set<int>>)
    requires f.InRanges(gs)
  {
    |ts| == |gs| && forall a :: 0 <= a < |gs| ==> ts[a] == f.Tiles(gs[a])
  }

  /** What is left to do when the walk over the groups has reached position g. */
  ghost predicate WalkState(f: Fragments, was: Groups, now: Groups, g: nat, joined: int, i: nat)
    requires f.Shaped() && i < |f.tile| && f.InRanges(was) && f.InRanges(now)
    requires |now| == |was| && g <= |was| && -1 <= joined < g
  {
    if joined == -1 then
      now == was && f.Place(was, i) == was[..g] + f.Place(was[g..], i)
    else
      && now[g..] == was[g..] && now[..joined] == was[..joined] && i in now[joined]
      && var rest := f.Absorb(now[joined], was[g..], i);
         f.Place(was, i) == was[..joined] + ([rest.0] + (Compact(now[joined + 1..g]) + rest.1))
  }

  /** A group the fragment may not join is passed over. */
  lemma WalkSkip(f: Fragments, was: Groups, g: nat, i: nat)
    requires f.Shaped() && i < |f.tile| && f.InRanges(was) && g < |was|
    requires WalkState(f, was, was, g, -1, i)
    requires f.tile[i] in f.Tiles(was[g]) || !f.MatchesAny(i, was[g])
    ensures WalkState(f, was, was, g + 1, -1, i)
  {
  }

  /** The first group the fragment may join takes it. */
  lemma WalkJoin(f: Fragments, was: Groups, g: nat, i: nat)
    requires f.Shaped() && i < |f.tile| && f.InRanges(was) && g < |was|
    requires WalkState(f, was, was, g, -1, i)
    requires f.tile[i] !in f.Tiles(was[g]) && f.MatchesAny(i, was[g])
    ensures f.InRanges(was[g := was[g] + [i]]) && WalkState(f, was, was[g := was[g] + [i]], g + 1, g, i)
  {
  }

  /** A later group is left alone. */
  lemma WalkPass(f: Fragments, was: Groups, now: Groups, g: nat, joined: nat, i: nat)
    requires f.Shaped() && i < |f.tile| && f.InRanges(was) && f.InRanges(now)
    requires |now| == |was| && g < |was| && joined < g && NonEmpty(was)
    requires WalkState(f, was, now, g, joined, i)
    requires !(f.Tiles(was[g]) !! f.Tiles(now[joined])) || !f.MatchesAny(i, was[g])
    ensures WalkState(f, was, now, g + 1, joined, i)
  {
    assert was[g..] == [was[g]] + was[g + 1..];
    assert now[g] == now[g..][0] == was[g];
    assert now[g + 1..] == now[g..][1..];
    assert now[joined + 1..g + 1] == now[joined + 1..g] + [now[g]];
    CompactSplit(now[joined + 1..g], [now[g]]);
    assert Compact([now[g]]) == [now[g]] + Compact([]);
    var rest := f.Absorb(now[joined], was[g + 1..], i);
    assert Compact(now[joined + 1..g]) + ([was[g]] + rest.1) == (Compact(now[joined + 1..g]) + [was[g]]) + rest.1;
  }

  /** A later group the fragment bridges to is emptied into the one that took it. */
  lemma WalkDraw(f: Fragments, was: Groups, now: Groups, g: nat, joined: nat, i: nat)
    requires f.Shaped() && i < |f.tile| && f.InRanges(was) && f.InRanges(now)
    requires |now| == |was| && g < |was| && joined < g
    requires WalkState(f, was, now, g, joined, i)
    requires f.Tiles(was[g]) !! f.Tiles(now[joined]) && f.MatchesAny(i, was[g])
    ensures now[g] == was[g]
    ensures var next := now[joined := now[joined] + was[g]][g := []];
      f.InRanges(next) && WalkState(f, was, next, g + 1, joined, i)
  {
    assert was[g..] == [was[g]] + was[g + 1..];
    assert now[g] == now[g..][0];
    var next := now[joined := now[joined] + was[g]][g := []];
    assert next[g + 1..] == now[g..][1..];
    assert next[joined + 1..g + 1] == now[joined + 1..g] + [[]];
    CompactSplit(now[joined + 1..g], [[]]);
    assert Compact([[]]) == Compact([]) == [];
    assert next[..joined] == now[..joined];
  }

  lemma WalkEnd(f: Fragments, was: Groups, now: Groups, joined: int, i: nat)
    requires f.Shaped() && i < |f.tile| && f.InRanges(was) && f.InRanges(now)
    requires |now| == |was| && -1 <= joined < |was| && NonEmpty(was)
    requires WalkState(f, was, now, |was|, joined, i)
    ensures f.Place(was, i) == if joined == -1 then now + [[i]] else Compact(now)
  {
    assert was[|was|..] == [];
    if joined == -1 {
      assert was[..|was|] == was;
    } else {
      assert now[joined + 1..|was|] == now[joined + 1..];
      assert now == now[..joined] + ([now[joined]] + now[joined + 1..]);
      CompactSplit(now[..joined], [now[joined]] + now[joined + 1..]);
      CompactSplit([now[joined]], now[joined + 1..]);
      CompactNonEmpty(was[..joined]);
      assert Compact([now[joined]]) == [now[joined]] + Compact([]);
      assert Compact(now[joined + 1..]) + [] == Compact(now[joined + 1..]);
    }
  }

  ghost predicate IsTable(m: array2<bool>, f: Fragments)
    requires f.Shaped()
    reads m
  {
    && m.Length0 == |f.tile| && m.Length1 == |f.tile|
    && forall x, y :: 0 <= x < |f.tile| && 0 <= y < |f.tile| ==> m[x, y] == f.matched[x][y]
  }

  /** Whether the fragment's row of the table meets the group. */
  method AnyMatch(m: array2<bool>, ghost f: Fragments, i: nat, g: Group) returns (b: bool)
    requires f.Shaped() && i < |f.tile| && InRange(g, |f.tile|)
    requires IsTable(m, f)
    ensures b == f.MatchesAny(i, g)
  {
    b := exists k :: 0 <= k < |g| && m[i, g[k]];
  }

  /** One position of the walk: skip the group, join it, draw it in, or leave it. */
  method Visit(m: array2<bool>, ghost f: Fragments, tile: seq<int>, i: nat, ghost was: Groups, g: nat,
               groups: Groups, groupTiles: seq<set<int>>, joined: int)
    returns (groups': Groups, groupTiles': seq<set<int>>, joined': int)
    requires f.Shaped() && tile == f.tile && i < |f.tile| && f.InRanges(was) && NonEmpty(was)
    requires IsTable(m, f)
    requires |groups| == |was| && g < |was| && -1 <= joined < g && f.InRanges(groups) && TilesOf(f, groups, groupTiles)
    requires WalkState(f, was, groups, g, joined, i)
    ensures |groups'| == |was| && -1 <= joined' <= g && f.InRanges(groups') && TilesOf(f, groups', groupTiles')
    ensures WalkState(f, was, groups', g + 1, joined', i)
  {
    groups', groupTiles', joined' := groups, groupTiles, joined;
    assert groups[g] == groups[g..][0] == was[g..][0] == was[g];
    var any := AnyMatch(m, f, i, groups[g]);
    if joined == -1 {
      if tile[i] in groupTiles[g] || !any {
        WalkSkip(f, was, g, i);
      } else {
        WalkJoin(f, was, g, i);
        TilesJoin(f, groups[g], [i]);
        groups' := groups[g := groups[g] + [i]];
        groupTiles' := groupTiles[g := groupTiles[g] + {tile[i]}];
        joined' := g;
      }
    } else if groupTiles[g] !! groupTiles[joined] && groups[g] != [] && any {
      WalkDraw(f, was, groups, g, joined, i);
      TilesJoin(f, groups[joined], groups[g]);
      groups' := groups[joined := groups[joined] + groups[g]][g := []];
      groupTiles' := groupTiles[joined := groupTiles[joined] + groupTiles[g]][g := {}];
    } else {
      WalkPass(f, was, groups, g, joined, i);
    }
  }

  /** One fragment placed into the list of groups, edited in place. */
  method PlaceOne(m: array2<bool>, ghost f: Fragments, tile: seq<int>, i: nat, was: Groups, wasTiles: seq<set<int>>)
    returns (groups: Groups, groupTiles: seq<set<int>>)
    requires f.Shaped() && tile == f.tile && i < |f.tile| && f.InRanges(was) && TilesOf(f, was, wasTiles) && NonEmpty(was)
    requires IsTable(m, f)
    ensures groups == f.Place(was, i) && NonEmpty(groups) && TilesOf(f, groups, groupTiles)
  {
    groups, groupTiles := was, wasTiles;
    var joined := -1;
    for g := 0 to |was|
      invariant |groups| == |was| && -1 <= joined < g && f.InRanges(groups) && TilesOf(f, groups, groupTiles)
      invariant WalkState(f, was, groups, g, joined, i)
    {
      groups, groupTiles, joined := Visit(m, f, tile, i, was, g, groups, groupTiles, joined);
    }
    WalkEnd(f, was, groups, joined, i);
    if joined == -1 {
      assert [i][0] == i && f.Tiles([i]) == {tile[i]};
      groups, groupTiles := groups + [[i]], groupTiles + [{tile[i]}];
    } else {
      groups, groupTiles := DropEmpty(f, groups, groupTiles);
    }
  }

  /** The emptied groups are filtered out, their tile sets with them. */
  method DropEmpty(ghost f: Fragments, gs: Groups, ts: seq<set<int>>) returns (groups: Groups, groupTiles: seq<set<int>>)
    requires f.InRanges(gs) && TilesOf(f, gs, ts)
    ensures groups == Compact(gs) && NonEmpty(groups) && f.InRanges(groups) && TilesOf(f, groups, groupTiles)
  {
    groups, groupTiles := [], [];
    for g := 0 to |gs|
      invariant groups == Compact(gs[..g]) && NonEmpty(groups) && f.InRanges(groups) && TilesOf(f, groups, groupTiles)
    {
      assert gs[..g + 1] == gs[..g] + [gs[g]];
      CompactSplit(gs[..g], [gs[g]]);
      if gs[g] != [] {
        groups, groupTiles := groups + [gs[g]], groupTiles + [ts[g]];
      }
    }
    assert gs[..|gs|] == gs;
  }

  /** The pass over all fragments in processing order. */
  method GroupAll(m: array2<bool>, ghost f: Fragments, tile: seq<int>, scores: seq<real>) returns (groups: Groups)
    requires f.Shaped() && tile == f.tile && |scores| == |f.tile|
    requires IsTable(m, f)
    ensures groups == f.PlaceAll(Argsort(scores, |scores|), |scores|)
  {
    var order := Argsort(scores, |scores|);
    groups := [];
    var groupTiles: seq<set<int>> := [];
    for k := 0 to |order|
      invariant groups == f.PlaceAll(order, k)
      invariant NonEmpty(groups) && f.InRanges(groups) && TilesOf(f, groups, groupTiles)
    {
      groups, groupTiles := PlaceOne(m, f, tile, order[k], groups, groupTiles);
    }
  }

  // ── the rule by counted areas ──────────────────────────────────────────────

  /** The points of a box that both tiles show. */
  ghost predicate IsShared(r: Region, b: Box, s: Tile, t: Tile) {
    forall x, y :: r(x, y) <==> Has(b, x, y) && Has(AsBox(s), x, y) && Has(AsBox(t), x, y)
  }

  /** A proper box touches the tiles' overlap exactly when they share a point of it. */
  lemma SharedTouch(b: Box, s: Tile, t: Tile, r: Region)
    requires Proper(b) && IsShared(r, b, s, t)
    ensures TileOverlap(s, t).Some? ==> IsPart(r, b, TileOverlap(s, t).value)
    ensures (TileOverlap(s, t).Some? && Touches(b, TileOverlap(s, t).value)) <==> exists x, y :: r(x, y)
  {
    forall x, y ensures r(x, y) <==> TileOverlap(s, t).Some? && Has(b, x, y) && Has(AsBox(TileOverlap(s, t).value), x, y) {
      TileOverlapMeaning(s, t, x, y);
    }
    if TileOverlap(s, t).Some? {
      TileOverlapMeaning(s, t, 0.0, 0.0);
      TouchesMeaning(b, TileOverlap(s, t).value);
    }
  }

  lemma AtLeast(part: real, whole: real, threshold: real)
    requires whole > 0.0
    ensures part / whole >= threshold <==> part >= Prod(threshold, whole)
  {
  }

  /** A part with a point in it has an area. */
  lemma PartPositive(xs: seq<real>, ys: seq<real>, r: Region, b: Box, band: Tile)
    requires Rising(xs) && Rising(ys) && OnLines(xs, ys, b) && OnLines(xs, ys, AsBox(band)) && IsPart(r, b, band)
    requires exists x, y :: r(x, y)
    ensures Measure(xs, ys, r) > 0.0
  {
    var x, y :| r(x, y);
    PartArea(xs, ys, r, b, band);
    ClipHas(b, band, x, y);
    AreaHas(Clip(b, band));
  }

  /** The pairwise rule for proper boxes, with every area counted cell by cell over a grid: one class, two
      tiles, both boxes with a point both tiles show, and enough of the two boxes in common, or enough of
      the smaller of what both tiles show of them. */
  lemma MatchMeaning(d: Detections, t: Thresholds, i: nat, j: nat, xs: seq<real>, ys: seq<real>, both: Region,
                     either: Region, partI: Region, partJ: Region, common: Region)
    requires d.Aligned() && d.TilesKnown() && i < |d.boxes| && j < |d.boxes|
    requires var (a, b, s, t) := (d.boxes[i], d.boxes[j], d.tiles[d.tileIds[i]], d.tiles[d.tileIds[j]]);
      && Proper(a) && Proper(b) && Grid(xs, ys, a, b) && Grid(xs, ys, AsBox(s), AsBox(t))
      && IsBoth(both, a, b) && IsEither(either, a, b) && IsShared(partI, a, s, t) && IsShared(partJ, b, s, t)
      && forall x, y :: common(x, y) <==> partI(x, y) && partJ(x, y)
    ensures Matches(d, t, i, j) <==>
      && d.classes[i] == d.classes[j] && d.tileIds[i] != d.tileIds[j]
      && (exists x, y :: partI(x, y)) && (exists x, y :: partJ(x, y))
      && (Measure(xs, ys, both) >= Prod(t.iou, Measure(xs, ys, either))
          || Measure(xs, ys, common) >= Prod(t.ios, Min(Measure(xs, ys, partI), Measure(xs, ys, partJ))))
  {
    var (a, b, s, u) := (d.boxes[i], d.boxes[j], d.tiles[d.tileIds[i]], d.tiles[d.tileIds[j]]);
    SharedTouch(a, s, u, partI);
    SharedTouch(b, s, u, partJ);
    if (exists x, y :: partI(x, y)) && (exists x, y :: partJ(x, y)) {
      var band := TileOverlap(s, u).value;
      AlikeMeaning(a, b, band, t, xs, ys, both, either, partI, partJ, common);
    }
  }

  lemma AlikeMeaning(a: Box, b: Box, band: Tile, t: Thresholds, xs: seq<real>, ys: seq<real>, both: Region,
                     either: Region, partA: Region, partB: Region, common: Region)
    requires Proper(a) && Proper(b) && Grid(xs, ys, a, b) && OnLines(xs, ys, AsBox(band))
    requires IsBoth(both, a, b) && IsEither(either, a, b) && IsPart(partA, a, band) && IsPart(partB, b, band)
    requires forall x, y :: common(x, y) <==> partA(x, y) && partB(x, y)
    requires (exists x, y :: partA(x, y)) && (exists x, y :: partB(x, y))
    ensures Alike(a, b, band, t) <==>
      || Measure(xs, ys, both) >= Prod(t.iou, Measure(xs, ys, either))
      || Measure(xs, ys, common) >= Prod(t.ios, Min(Measure(xs, ys, partA), Measure(xs, ys, partB)))
  {
    IouMeaning(xs, ys, both, either, a, b);
    AtLeast(Measure(xs, ys, both), Measure(xs, ys, either), t.iou);
    PartPositive(xs, ys, partA, a, band);
    PartPositive(xs, ys, partB, b, band);
    BandIosMeaning(xs, ys, partA, partB, common, a, b, band);
    AtLeast(Measure(xs, ys, common), Min(Measure(xs, ys, partA), Measure(xs, ys, partB)), t.ios);
  }

  /** Every group leads with its best member, and the groups follow their leaders' scores; ties by input. */
  ghost predicate ByScore(scores: seq<real>, groups: Groups) {
    && (forall a :: 0 <= a < |groups| ==> groups[a] != [] && InRange(groups[a], |scores|))
    && (forall a, k :: 0 <= a < |groups| && 0 < k < |groups[a]| ==>
          scores[groups[a][0]] >= scores[groups[a][k]]
          && (scores[groups[a][0]] == scores[groups[a][k]] ==> groups[a][0] < groups[a][k]))
    && (forall a, b :: 0 <= a < b < |groups| ==>
          scores[groups[a][0]] >= scores[groups[b][0]]
          && (scores[groups[a][0]] == scores[groups[b][0]] ==> groups[a][0] < groups[b][0]))
  }

  lemma RankedByScore(scores: seq<real>, groups: Groups)
    requires Ranked(scores, groups)
    ensures ByScore(scores, groups)
  {
    forall a | 0 <= a < |groups| ensures groups[a] != [] && InRange(groups[a], |scores|) {
      assert Led(scores, groups[a]);
    }
    forall a, k | 0 <= a < |groups| && 0 < k < |groups[a]| ensures Ahead(scores, groups[a][0], groups[a][k]) {
      assert Led(scores, groups[a]);
    }
  }

  // ── one object cut by its tiles ────────────────────────────────────────────

  /** Fragments of one class from different tiles that cover the same part of the band their tiles share,
      and some of it, match however long they are outside it. */
  lemma SamePartMatches(d: Detections, t: Thresholds, i: nat, j: nat, x: real, y: real)
    requires t.Valid() && d.Aligned() && d.TilesKnown() && i < |d.boxes| && j < |d.boxes|
    requires d.classes[i] == d.classes[j] && d.tileIds[i] != d.tileIds[j]
    requires var band := TileOverlap(d.tiles[d.tileIds[i]], d.tiles[d.tileIds[j]]);
      && band.Some? && Coincide(d.boxes[i], d.boxes[j], band.value)
      && Has(d.boxes[i], x, y) && Has(AsBox(band.value), x, y)
    ensures Matches(d, t, i, j)
  {
    BandIosOne(d.boxes[i], d.boxes[j], TileOverlap(d.tiles[d.tileIds[i]], d.tiles[d.tileIds[j]]).value, x, y);
  }

  /** The box is what the tile shows of the object. */
  ghost predicate Shows(b: Box, o: Box, t: Tile) {
    forall x, y :: Has(b, x, y) <==> Has(o, x, y) && Has(AsBox(t), x, y)
  }

  /** Both tiles show some point of the object. */
  ghost predicate ShownByBoth(o: Box, a: Tile, b: Tile) {
    exists x, y :: Has(o, x, y) && Has(AsBox(a), x, y) && Has(AsBox(b), x, y)
  }

  /** The detections are one object as its tiles cut it, each tile sharing part of it with the next. */
  ghost predicate OneObject(d: Detections, o: Box)
    requires d.Aligned() && d.TilesKnown()
  {
    && d.boxes != []
    && (forall i :: 0 <= i < |d.boxes| ==> Shows(d.boxes[i], o, d.tiles[d.tileIds[i]]))
    && (forall i :: 0 <= i < |d.boxes| ==> d.classes[i] == d.classes[0])
    && (forall i, j :: 0 <= i < j < |d.boxes| ==> d.tileIds[i] != d.tileIds[j])
    && (forall i {:trigger d.tileIds[i]} :: 0 < i < |d.boxes| ==>
          ShownByBoth(o, d.tiles[d.tileIds[i - 1]], d.tiles[d.tileIds[i]]))
  }

  lemma NeighboursMatch(d: Detections, t: Thresholds, o: Box, i: nat)
    requires t.Valid() && d.Aligned() && d.TilesKnown() && OneObject(d, o) && i + 1 < |d.boxes|
    ensures Matches(d, t, i, i + 1)
  {
    var a, b := d.tiles[d.tileIds[i]], d.tiles[d.tileIds[i + 1]];
    var x, y :| Has(o, x, y) && Has(AsBox(a), x, y) && Has(AsBox(b), x, y);
    TileOverlapMeaning(a, b, x, y);
    var band := TileOverlap(a, b).value;
    forall u, v | Has(AsBox(band), u, v) ensures Has(d.boxes[i], u, v) <==> Has(d.boxes[i + 1], u, v) {
      TileOverlapMeaning(a, b, u, v);
      assert Shows(d.boxes[i], o, a) && Shows(d.boxes[i + 1], o, b);
    }
    assert Shows(d.boxes[i], o, a);
    SamePartMatches(d, t, i, i + 1, x, y);
  }

  /** The fragments of one object come back as one group, whatever their scores. */
  lemma OneObjectOneGroup(d: Detections, t: Thresholds, o: Box, groups: Groups)
    requires t.Valid() && d.Aligned() && d.TilesKnown() && OneObject(d, o)
    requires IsGrouping(AsFragments(d, t), d.scores, groups)
    ensures |groups| == 1 && forall i: nat :: i < |d.boxes| ==> i in groups[0]
  {
    var f := AsFragments(d, t);
    var a := GroupHolding(groups, 0);
    forall i: nat | i < |d.boxes| ensures i in groups[a] {
      ObjectTogether(d, t, o, groups, a, i);
    }
    if |groups| > 1 {
      var b := if a == 0 then 1 else 0;
      assert groups[b] != [];
      var x := groups[b][0];
      CountTwo(groups, if a < b then a else b, if a < b then b else a, x);
    }
  }

  /** Walking along the object the group never changes. */
  lemma {:induction false} ObjectTogether(d: Detections, t: Thresholds, o: Box, groups: Groups, a: nat, i: nat)
    requires t.Valid() && d.Aligned() && d.TilesKnown() && OneObject(d, o) && i < |d.boxes|
    requires IsGrouping(AsFragments(d, t), d.scores, groups) && a < |groups| && 0 in groups[a]
    ensures i in groups[a]
  {
    if i > 0 {
      ObjectTogether(d, t, o, groups, a, i - 1);
      NeighboursMatch(d, t, o, i - 1);
      FragmentsValid(d, t);
      MatchedTogether(AsFragments(d, t), d.scores, groups, a, i - 1, i);
    }
  }

  /** The documented entry point: input errors first, then the grouping of all fragments. */
  method MergeTilesGrouped(d: Detections, t: Thresholds) returns (r: Outcome)
    ensures r.BadThreshold? <==> !(0.0 <= t.iou <= 1.0 && 0.0 <= t.ios <= 1.0)
    ensures r.LengthMismatch? <==> !r.BadThreshold? && !(|d.boxes| == |d.scores| == |d.classes| == |d.tileIds|)
    ensures r.BadTileId? <==> !r.BadThreshold? && !r.LengthMismatch?
                              && exists i :: 0 <= i < |d.tileIds| && !(0 <= d.tileIds[i] < |d.tiles|)
    ensures r.Grouped? ==> IsGrouping(AsFragments(d, t), d.scores, r.groups)
    ensures r.Grouped? ==>
      r.groups == AsFragments(d, t).PlaceAll(Argsort(d.scores, |d.scores|), |d.scores|)
    ensures r.Grouped? ==> ByScore(d.scores, r.groups)
    ensures r.Grouped? ==>
      forall o :: OneObject(d, o) ==> |r.groups| == 1 && forall i: nat :: i < |d.boxes| ==> i in r.groups[0]
  {
    if !t.Valid() {
      return BadThreshold;
    }
    if !d.Aligned() {
      return LengthMismatch;
    }
    if !d.TilesKnown() {
      return BadTileId;
    }
    ghost var f := AsFragments(d, t);
    FragmentsValid(d, t);
    GroupingCorrect(f, d.scores);
    var m := FragmentMatches(d, t);
    var groups := GroupAll(m, f, d.tileIds, d.scores);
    RankedByScore(d.scores, groups);
    forall o | OneObject(d, o) ensures |groups| == 1 && forall i: nat :: i < |d.boxes| ==> i in groups[0] {
      OneObjectOneGroup(d, t, o, groups);
    }
    r := Grouped(groups);
  }

  // ── what the rules of the table mean for a group ───────────────────────────

  /** All members of a group carry one class. */
  lemma GroupOneClass(d: Detections, t: Thresholds, g: Group, x: nat, y: nat)
    requires d.Aligned() && d.TilesKnown() && InRange(g, |d.boxes|)
    requires Connected(AsFragments(d, t), Elements(g)) && x in g && y in g
    ensures x < |d.boxes| && y < |d.boxes| && d.classes[x] == d.classes[y]
  {
    var f := AsFragments(d, t);
    ConnectedLinks(f, g, x, y);
    var path :| Chain(f, g, path) && path[0] == x && path[|path| - 1] == y;
    ChainOneClass(d, t, g, path);
  }

  lemma {:induction false} ChainOneClass(d: Detections, t: Thresholds, g: Group, path: seq<nat>)
    requires d.Aligned() && d.TilesKnown() && InRange(g, |d.boxes|) && Chain(AsFragments(d, t), g, path)
    ensures InRange(path, |d.boxes|) && d.classes[path[0]] == d.classes[path[|path| - 1]]
  {
    if |path| > 1 {
      var front := path[..|path| - 1];
      ChainOneClass(d, t, g, front);
      assert Matches(d, t, path[|path| - 2], path[|path| - 1]);
    }
  }
}
