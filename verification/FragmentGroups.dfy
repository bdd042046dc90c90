/** Grouping the per-tile fragments of one object (merge_tiles_grouped in conecsa_common/tiling.py).
    A placement step puts one fragment into a list of groups, possibly joining groups together;
    the properties of the final grouping are invariants of that step. */
module FragmentGroups {
  import opened StableOrder

  type Group = seq<nat>
  type Groups = seq<seq<nat>>

  /** What the greedy pass reads: who matches whom, and each fragment's tile of origin. */
  datatype Fragments = Fragments(matched: seq<seq<bool>>, tile: seq<int>) {
    ghost predicate Valid() {
      && |matched| == |tile|
      && (forall i :: 0 <= i < |tile| ==> |matched[i]| == |tile|)
      && (forall i, j :: 0 <= i < |tile| && 0 <= j < |tile| ==> matched[i][j] == matched[j][i])
    }

    predicate Shaped() {
      |matched| == |tile| && forall i :: 0 <= i < |tile| ==> |matched[i]| == |tile|
    }

    function Tiles(g: Group): set<int>
      requires InRange(g, |tile|)
    {
      set k | 0 <= k < |g| :: tile[g[k]]
    }

    /** Fragment i matches some member of the group. */
    predicate MatchesAny(i: nat, g: Group)
      requires Shaped() && i < |tile| && InRange(g, |tile|)
    {
      exists k :: 0 <= k < |g| && matched[i][g[k]]
    }

    predicate InRanges(gs: Groups) {
      forall a :: 0 <= a < |gs| ==> InRange(gs[a], |tile|)
    }

    /** Walking the groups behind the one that took the fragment: each matching group whose tiles
        are still disjoint from the gathered ones is drawn into it. */
    function Absorb(cur: Group, rest: Groups, i: nat): (r: (Group, Groups))
      requires Shaped() && i < |tile| && InRange(cur, |tile|) && InRanges(rest)
      ensures InRange(r.0, |tile|) && InRanges(r.1)
      decreases rest
    {
      if rest == [] then (cur, [])
      else if Tiles(rest[0]) !! Tiles(cur) && MatchesAny(i, rest[0]) then Absorb(cur + rest[0], rest[1..], i)
      else
        var (c, k) := Absorb(cur, rest[1..], i);
        (c, [rest[0]] + k)
    }

    /** The groups after fragment i has been placed. */
    function Place(gs: Groups, i: nat): (r: Groups)
      requires Shaped() && i < |tile| && InRanges(gs)
      ensures InRanges(r)
    {
      if gs == [] then [[i]]
      else if tile[i] in Tiles(gs[0]) || !MatchesAny(i, gs[0]) then [gs[0]] + Place(gs[1..], i)
      else
        var (c, k) := Absorb(gs[0] + [i], gs[1..], i);
        [c] + k
    }

    /** Placing the first n fragments of the processing order. */
    function PlaceAll(order: seq<nat>, n: nat): (r: Groups)
      requires Shaped() && n <= |order| && InRange(order, |tile|)
      ensures InRanges(r)
    {
      if n == 0 then [] else Place(PlaceAll(order, n - 1), order[n - 1])
    }
  }

  // ── partition ──────────────────────────────────────────────────────────────

  /** How often x is a member of a group. */
  function Occurs(g: Group, x: nat): nat {
    if g == [] then 0 else Occurs(g[..|g| - 1], x) + if g[|g| - 1] == x then 1 else 0
  }

  /** How often x is a member over all groups. */
  function Count(gs: Groups, x: nat): nat {
    if gs == [] then 0 else Occurs(gs[0], x) + Count(gs[1..], x)
  }

  lemma {:induction false} OccursJoin(g: Group, h: Group, x: nat)
    ensures Occurs(g + h, x) == Occurs(g, x) + Occurs(h, x)
  {
    if h == [] {
      assert g + h == g;
    } else {
      OccursJoin(g, h[..|h| - 1], x);
      assert (g + h)[..|g + h| - 1] == g + h[..|h| - 1];
    }
  }

  lemma {:induction false} AbsorbCounts(f: Fragments, cur: Group, rest: Groups, i: nat, x: nat)
    requires f.Shaped() && i < |f.tile| && InRange(cur, |f.tile|) && f.InRanges(rest)
    ensures var r := f.Absorb(cur, rest, i); Occurs(r.0, x) + Count(r.1, x) == Occurs(cur, x) + Count(rest, x)
    decreases rest
  {
    if rest == [] {
    } else if f.Tiles(rest[0]) !! f.Tiles(cur) && f.MatchesAny(i, rest[0]) {
      AbsorbCounts(f, cur + rest[0], rest[1..], i, x);
      OccursJoin(cur, rest[0], x);
    } else {
      AbsorbCounts(f, cur, rest[1..], i, x);
    }
  }

  /** A placement adds exactly the placed fragment and loses nobody. */
  lemma {:induction false} PlaceCounts(f: Fragments, gs: Groups, i: nat, x: nat)
    requires f.Shaped() && i < |f.tile| && f.InRanges(gs)
    ensures Count(f.Place(gs, i), x) == Count(gs, x) + if x == i then 1 else 0
  {
    if gs == [] {
      OccursJoin([], [i], x);
    } else if f.tile[i] in f.Tiles(gs[0]) || !f.MatchesAny(i, gs[0]) {
      PlaceCounts(f, gs[1..], i, x);
    } else {
      var r := f.Absorb(gs[0] + [i], gs[1..], i);
      AbsorbCounts(f, gs[0] + [i], gs[1..], i, x);
    }
  }

  /** The group a fragment may join: it matches a member, and no member is of its tile. */
  predicate Joinable(f: Fragments, g: Group, i: nat)
    requires f.Shaped() && i < |f.tile| && InRange(g, |f.tile|)
  {
    (exists k :: 0 <= k < |g| && f.matched[i][g[k]]) && forall k :: 0 <= k < |g| ==> f.tile[g[k]] != f.tile[i]
  }

  /** A fragment joins the first group it may join, ahead of which nothing changes, and starts a group at
      the end when there is none. */
  lemma {:induction false} PlaceJoinsFirst(f: Fragments, gs: Groups, i: nat, a: nat)
    requires f.Shaped() && i < |f.tile| && f.InRanges(gs) && a <= |gs|
    requires forall b :: 0 <= b < a ==> !Joinable(f, gs[b], i)
    requires a < |gs| ==> Joinable(f, gs[a], i)
    ensures var r := f.Place(gs, i);
      a < |r| && r[..a] == gs[..a] && (if a == |gs| then r == gs + [[i]] else gs[a] + [i] <= r[a])
  {
    if a == 0 && gs != [] {
      AbsorbExtends(f, gs[0] + [i], gs[1..], i);
    } else if gs != [] {
      PlaceJoinsFirst(f, gs[1..], i, a - 1);
      assert [gs[0]] + gs[1..][..a - 1] == gs[..a];
      assert gs == [gs[0]] + gs[1..];
    }
  }

  lemma {:induction false} AbsorbExtends(f: Fragments, cur: Group, rest: Groups, i: nat)
    requires f.Shaped() && i < |f.tile| && InRange(cur, |f.tile|) && f.InRanges(rest)
    ensures cur <= f.Absorb(cur, rest, i).0
    decreases rest
  {
    if rest != [] {
      if f.Tiles(rest[0]) !! f.Tiles(cur) && f.MatchesAny(i, rest[0]) {
        AbsorbExtends(f, cur + rest[0], rest[1..], i);
      } else {
        AbsorbExtends(f, cur, rest[1..], i);
      }
    }
  }

  // ── one member per tile ────────────────────────────────────────────────────

  ghost predicate OnePerTile(f: Fragments, g: Group)
    requires InRange(g, |f.tile|)
  {
    forall a, b :: 0 <= a < b < |g| ==> f.tile[g[a]] != f.tile[g[b]]
  }

  ghost predicate AllOnePerTile(f: Fragments, gs: Groups)
    requires f.InRanges(gs)
  {
    forall a :: 0 <= a < |gs| ==> OnePerTile(f, gs[a])
  }

  lemma JoinOnePerTile(f: Fragments, g: Group, h: Group)
    requires InRange(g, |f.tile|) && InRange(h, |f.tile|)
    requires OnePerTile(f, g) && OnePerTile(f, h) && f.Tiles(g) !! f.Tiles(h)
    ensures OnePerTile(f, g + h)
  {
    forall a, b | 0 <= a < |g| && 0 <= b < |h| ensures f.tile[g[a]] != f.tile[h[b]] {
      assert f.tile[g[a]] in f.Tiles(g) && f.tile[h[b]] in f.Tiles(h);
    }
  }

  lemma {:induction false} AbsorbOnePerTile(f: Fragments, cur: Group, rest: Groups, i: nat)
    requires f.Shaped() && i < |f.tile| && InRange(cur, |f.tile|) && f.InRanges(rest)
    requires OnePerTile(f, cur) && AllOnePerTile(f, rest)
    ensures var r := f.Absorb(cur, rest, i); OnePerTile(f, r.0) && AllOnePerTile(f, r.1)
    decreases rest
  {
    if rest == [] {
    } else if f.Tiles(rest[0]) !! f.Tiles(cur) && f.MatchesAny(i, rest[0]) {
      JoinOnePerTile(f, cur, rest[0]);
      AbsorbOnePerTile(f, cur + rest[0], rest[1..], i);
    } else {
      AbsorbOnePerTile(f, cur, rest[1..], i);
    }
  }

  lemma {:induction false} PlaceOnePerTile(f: Fragments, gs: Groups, i: nat)
    requires f.Shaped() && i < |f.tile| && f.InRanges(gs) && AllOnePerTile(f, gs)
    ensures AllOnePerTile(f, f.Place(gs, i))
  {
    if gs == [] {
    } else if f.tile[i] in f.Tiles(gs[0]) || !f.MatchesAny(i, gs[0]) {
      PlaceOnePerTile(f, gs[1..], i);
    } else {
      forall a | 0 <= a < |gs[0]| ensures f.tile[gs[0][a]] != f.tile[i] {
        assert f.tile[gs[0][a]] in f.Tiles(gs[0]);
      }
      AbsorbOnePerTile(f, gs[0] + [i], gs[1..], i);
    }
  }

  // ── connectivity ───────────────────────────────────────────────────────────

  /** No way to cut the group in two without cutting a match: the group is one object's chain. */
  ghost predicate Connected(f: Fragments, g: set<nat>)
    requires f.Shaped() && forall x :: x in g ==> x < |f.tile|
  {
    forall s: set<nat> :: s < g && s != {} ==> Crossed(f, s, g - s)
  }

  /** Some match leads from s to t. */
  ghost predicate Crossed(f: Fragments, s: set<nat>, t: set<nat>)
    requires f.Shaped() && (forall x :: x in s ==> x < |f.tile|) && (forall x :: x in t ==> x < |f.tile|)
  {
    exists x, y :: x in s && y in t && f.matched[x][y]
  }

  lemma JoinConnected(f: Fragments, g: set<nat>, h: set<nat>, x: nat, y: nat)
    requires f.Valid() && (forall z :: z in g ==> z < |f.tile|) && (forall z :: z in h ==> z < |f.tile|)
    requires Connected(f, g) && Connected(f, h) && x in g && y in h && f.matched[x][y]
    ensures Connected(f, g + h)
  {
    forall s: set<nat> | s < g + h && s != {} ensures Crossed(f, s, g + h - s) {
      if s * g != {} && !(g <= s) {
        CutPart(f, g, g + h, s);
      } else if s * h != {} && !(h <= s) {
        CutPart(f, h, g + h, s);
      } else if x in s {
        assert x in s * g;
        assert h <= s ==> g + h <= s;
        assert y in s ==> y in s * h;
        assert y in g + h - s;
      } else {
        forall z | z in s ensures z in h {
          assert z !in s * g;
        }
        assert s * h == s;
        assert y in s;
        assert x in g + h - s && f.matched[y][x];
      }
    }
  }

  /** A cut through a connected part cuts a match. */
  lemma CutPart(f: Fragments, g: set<nat>, whole: set<nat>, s: set<nat>)
    requires f.Shaped() && g <= whole && s < whole && forall z :: z in whole ==> z < |f.tile|
    requires Connected(f, g) && s * g != {} && !(g <= s)
    ensures Crossed(f, s, whole - s)
  {
    assert s * g < g;
    assert Crossed(f, s * g, g - s * g);
    var x, y :| x in s * g && y in g - s * g && f.matched[x][y];
    assert x in s && y in whole - s;
  }

  ghost predicate AllConnected(f: Fragments, gs: Groups)
    requires f.Shaped() && f.InRanges(gs)
  {
    forall a :: 0 <= a < |gs| ==> Connected(f, Elements(gs[a]))
  }

  lemma {:induction false} AbsorbConnected(f: Fragments, cur: Group, rest: Groups, i: nat)
    requires f.Valid() && i < |f.tile| && InRange(cur, |f.tile|) && f.InRanges(rest)
    requires i in cur && Connected(f, Elements(cur)) && AllConnected(f, rest)
    ensures var r := f.Absorb(cur, rest, i); Connected(f, Elements(r.0)) && AllConnected(f, r.1)
    decreases rest
  {
    if rest == [] {
    } else if f.Tiles(rest[0]) !! f.Tiles(cur) && f.MatchesAny(i, rest[0]) {
      var k :| 0 <= k < |rest[0]| && f.matched[i][rest[0][k]];
      JoinConnected(f, Elements(cur), Elements(rest[0]), i, rest[0][k]);
      assert Elements(cur + rest[0]) == Elements(cur) + Elements(rest[0]);
      AbsorbConnected(f, cur + rest[0], rest[1..], i);
    } else {
      AbsorbConnected(f, cur, rest[1..], i);
    }
  }

  lemma {:induction false} PlaceConnected(f: Fragments, gs: Groups, i: nat)
    requires f.Valid() && i < |f.tile| && f.InRanges(gs) && AllConnected(f, gs)
    ensures AllConnected(f, f.Place(gs, i))
  {
    if gs == [] {
      assert Elements([i]) == {i};
    } else if f.tile[i] in f.Tiles(gs[0]) || !f.MatchesAny(i, gs[0]) {
      PlaceConnected(f, gs[1..], i);
    } else {
      var k :| 0 <= k < |gs[0]| && f.matched[i][gs[0][k]];
      JoinConnected(f, {i}, Elements(gs[0]), i, gs[0][k]);
      assert Elements(gs[0] + [i]) == {i} + Elements(gs[0]);
      AbsorbConnected(f, gs[0] + [i], gs[1..], i);
    }
  }

  // ── maximality ─────────────────────────────────────────────────────────────

  /** The two groups have a tile in common, so they may not be joined. */
  ghost predicate ShareTile(f: Fragments, g: Group, h: Group)
    requires InRange(g, |f.tile|) && InRange(h, |f.tile|)
  {
    !(f.Tiles(g) !! f.Tiles(h))
  }

  /** No legal join is left between two groups: a match across them means a shared tile. */
  ghost predicate Apart(f: Fragments, g: Group, h: Group)
    requires f.Shaped() && InRange(g, |f.tile|) && InRange(h, |f.tile|)
  {
    forall x, y :: x in g && y in h && x < |f.tile| && y < |f.tile| && f.matched[x][y] ==> ShareTile(f, g, h)
  }

  ghost predicate Maximal(f: Fragments, gs: Groups)
    requires f.Shaped() && f.InRanges(gs)
  {
    forall a, b :: 0 <= a < b < |gs| ==> Apart(f, gs[a], gs[b])
  }

  /** Apart, matches of the fragment being placed not considered. */
  ghost predicate ApartBut(f: Fragments, g: Group, h: Group, i: nat)
    requires f.Shaped() && InRange(g, |f.tile|) && InRange(h, |f.tile|)
  {
    forall x, y :: x in g && x != i && y in h && x < |f.tile| && y < |f.tile| && f.matched[x][y] ==> ShareTile(f, g, h)
  }

  lemma MaximalTail(f: Fragments, gs: Groups)
    requires f.Shaped() && f.InRanges(gs) && gs != [] && Maximal(f, gs)
    ensures Maximal(f, gs[1..]) && forall a :: 0 <= a < |gs[1..]| ==> Apart(f, gs[0], gs[1..][a])
  {
  }

  /** x comes from one of the groups hs, all of whose tiles p has too. */
  ghost predicate FromOne(f: Fragments, x: nat, p: Group, hs: Groups)
    requires InRange(p, |f.tile|) && f.InRanges(hs)
  {
    exists b :: 0 <= b < |hs| && x in hs[b] && f.Tiles(hs[b]) <= f.Tiles(p)
  }

  /** Drawing groups in only adds tiles, and brings members only from the groups drawn in whole. */
  lemma {:induction false} AbsorbGrows(f: Fragments, cur: Group, rest: Groups, i: nat)
    requires f.Shaped() && i < |f.tile| && InRange(cur, |f.tile|) && f.InRanges(rest)
    ensures var r := f.Absorb(cur, rest, i);
      && f.Tiles(cur) <= f.Tiles(r.0)
      && (forall h :: h in r.1 ==> h in rest)
      && (forall x :: x in r.0 ==> x in cur || FromOne(f, x, r.0, rest))
    decreases rest
  {
    if rest == [] {
    } else {
      var r := f.Absorb(cur, rest, i);
      if f.Tiles(rest[0]) !! f.Tiles(cur) && f.MatchesAny(i, rest[0]) {
        AbsorbGrows(f, cur + rest[0], rest[1..], i);
        TilesJoin(f, cur, rest[0]);
      } else {
        AbsorbGrows(f, cur, rest[1..], i);
      }
      forall x | x in r.0 && x !in cur ensures FromOne(f, x, r.0, rest) {
        if !FromOne(f, x, r.0, rest[1..]) {
          assert x in rest[0];
        }
      }
    }
  }

  lemma TilesJoin(f: Fragments, g: Group, h: Group)
    requires InRange(g, |f.tile|) && InRange(h, |f.tile|)
    ensures f.Tiles(g + h) == f.Tiles(g) + f.Tiles(h)
  {
    forall t | t in f.Tiles(g) ensures t in f.Tiles(g + h) {
      var k :| 0 <= k < |g| && f.tile[g[k]] == t;
      assert (g + h)[k] == g[k];
    }
    forall t | t in f.Tiles(h) ensures t in f.Tiles(g + h) {
      var k :| 0 <= k < |h| && f.tile[h[k]] == t;
      assert (g + h)[|g| + k] == h[k];
    }
  }

  lemma {:induction false} AbsorbMaximal(f: Fragments, cur: Group, rest: Groups, i: nat)
    requires f.Valid() && i < |f.tile| && InRange(cur, |f.tile|) && f.InRanges(rest) && i in cur
    requires Maximal(f, rest) && forall a :: 0 <= a < |rest| ==> ApartBut(f, cur, rest[a], i)
    ensures var r := f.Absorb(cur, rest, i); Maximal(f, [r.0] + r.1)
    decreases rest
  {
    if rest == [] {
    } else {
      MaximalTail(f, rest);
      if f.Tiles(rest[0]) !! f.Tiles(cur) && f.MatchesAny(i, rest[0]) {
        forall a | 0 <= a < |rest[1..]| ensures ApartBut(f, cur + rest[0], rest[1..][a], i) {
          ApartJoined(f, cur, rest[0], rest[1 + a], i);
        }
        AbsorbMaximal(f, cur + rest[0], rest[1..], i);
      } else {
        AbsorbMaximal(f, cur, rest[1..], i);
        var r := f.Absorb(cur, rest[1..], i);
        MaximalTail(f, [r.0] + r.1);
        AbsorbGrows(f, cur, rest[1..], i);
        LeftBehind(f, cur, rest, i);
        forall b | 0 <= b < |r.1| ensures Apart(f, rest[0], r.1[b]) {
          assert r.1[b] in rest[1..];
        }
      }
    }
  }

  lemma ApartJoined(f: Fragments, cur: Group, g: Group, h: Group, i: nat)
    requires f.Shaped() && InRange(cur, |f.tile|) && InRange(g, |f.tile|) && InRange(h, |f.tile|)
    requires ApartBut(f, cur, h, i) && Apart(f, g, h)
    ensures ApartBut(f, cur + g, h, i)
  {
    TilesJoin(f, cur, g);
  }

  /** A group the walk leaves behind stays apart from what the walk gathers. */
  lemma LeftBehind(f: Fragments, cur: Group, rest: Groups, i: nat)
    requires f.Valid() && i < |f.tile| && InRange(cur, |f.tile|) && f.InRanges(rest) && i in cur && rest != []
    requires Maximal(f, rest) && ApartBut(f, cur, rest[0], i)
    requires !(f.Tiles(rest[0]) !! f.Tiles(cur)) || !f.MatchesAny(i, rest[0])
    ensures Apart(f, f.Absorb(cur, rest[1..], i).0, rest[0])
  {
    var c := f.Absorb(cur, rest[1..], i).0;
    AbsorbGrows(f, cur, rest[1..], i);
    forall x, y | x in c && y in rest[0] && x < |f.tile| && y < |f.tile| && f.matched[x][y]
      ensures ShareTile(f, c, rest[0])
    {
      if x == i {
        assert f.MatchesAny(i, rest[0]);
      } else if x in cur {
        assert ShareTile(f, cur, rest[0]);
      }
    }
  }

  /** Every group after a placement consists of the new fragment and of whole earlier groups. */
  lemma {:induction false} PlaceGrows(f: Fragments, gs: Groups, i: nat, p: Group, x: nat)
    requires f.Shaped() && i < |f.tile| && f.InRanges(gs) && p in f.Place(gs, i) && x in p && InRange(p, |f.tile|)
    ensures x == i || FromOne(f, x, p, gs)
  {
    if gs == [] {
    } else if f.tile[i] in f.Tiles(gs[0]) || !f.MatchesAny(i, gs[0]) {
      if p == gs[0] {
      } else {
        PlaceGrows(f, gs[1..], i, p, x);
      }
    } else {
      var r := f.Absorb(gs[0] + [i], gs[1..], i);
      AbsorbGrows(f, gs[0] + [i], gs[1..], i);
      TilesJoin(f, gs[0], [i]);
      if p != r.0 {
        assert p in gs[1..];
        assert FromOne(f, x, p, gs[1..]);
      }
    }
  }

  lemma {:induction false} PlaceMaximal(f: Fragments, gs: Groups, i: nat)
    requires f.Valid() && i < |f.tile| && f.InRanges(gs) && Maximal(f, gs)
    ensures Maximal(f, f.Place(gs, i))
  {
    if gs == [] {
    } else {
      MaximalTail(f, gs);
      if f.tile[i] in f.Tiles(gs[0]) || !f.MatchesAny(i, gs[0]) {
        PlaceMaximal(f, gs[1..], i);
        var placed := f.Place(gs[1..], i);
        forall b | 0 <= b < |placed| ensures Apart(f, gs[0], placed[b]) {
          SkippedApart(f, gs, i, placed[b]);
        }
      } else {
        forall a | 0 <= a < |gs[1..]| ensures ApartBut(f, gs[0] + [i], gs[1..][a], i) {
          TilesJoin(f, gs[0], [i]);
          assert Apart(f, gs[0], gs[1..][a]);
        }
        AbsorbMaximal(f, gs[0] + [i], gs[1..], i);
      }
    }
  }

  /** A group the new fragment may not join stays apart from every group after the placement. */
  lemma SkippedApart(f: Fragments, gs: Groups, i: nat, p: Group)
    requires f.Valid() && i < |f.tile| && f.InRanges(gs) && gs != [] && Maximal(f, gs)
    requires f.tile[i] in f.Tiles(gs[0]) || !f.MatchesAny(i, gs[0])
    requires p in f.Place(gs[1..], i) && InRange(p, |f.tile|)
    ensures Apart(f, gs[0], p)
  {
    forall x, y | x in gs[0] && y in p && x < |f.tile| && y < |f.tile| && f.matched[x][y]
      ensures ShareTile(f, gs[0], p)
    {
      PlaceGrows(f, gs[1..], i, p, y);
      if y == i {
        assert f.matched[i][x];
        assert f.MatchesAny(i, gs[0]);
        assert f.tile[i] in f.Tiles(p);
      }
    }
  }

  // ── survivors and their order ──────────────────────────────────────────────

  /** The group's first member is ahead of all its others. */
  ghost predicate Led(scores: seq<real>, g: Group) {
    && g != [] && InRange(g, |scores|)
    && forall k :: 0 < k < |g| ==> Ahead(scores, g[0], g[k])
  }

  /** Every group is led by its survivor, and groups follow the order of their survivors. */
  ghost predicate Ranked(scores: seq<real>, gs: Groups) {
    && (forall a :: 0 <= a < |gs| ==> Led(scores, gs[a]))
    && forall a, b :: 0 <= a < b < |gs| ==> Ahead(scores, gs[a][0], gs[b][0])
  }

  ghost predicate GroupAhead(scores: seq<real>, g: Group, i: nat)
    requires i < |scores| && InRange(g, |scores|)
  {
    forall k :: 0 <= k < |g| ==> Ahead(scores, g[k], i)
  }

  lemma {:induction false} AbsorbRanked(f: Fragments, scores: seq<real>, cur: Group, rest: Groups, i: nat)
    requires f.Shaped() && i < |f.tile| && InRange(cur, |f.tile|) && f.InRanges(rest) && |scores| == |f.tile|
    requires Ranked(scores, [cur] + rest)
    ensures var r := f.Absorb(cur, rest, i); Ranked(scores, [r.0] + r.1) && r.0 != [] && cur != [] && r.0[0] == cur[0]
    decreases rest
  {
    RankedTail(scores, [cur] + rest);
    assert ([cur] + rest)[1..] == rest;
    if rest == [] {
    } else {
      var first := rest[0];
      RankedTail(scores, rest);
      if f.Tiles(first) !! f.Tiles(cur) && f.MatchesAny(i, first) {
        LedJoin(scores, cur, first);
        RankedCons(scores, cur + first, rest[1..]);
        AbsorbRanked(f, scores, cur + first, rest[1..], i);
      } else {
        RankedCons(scores, cur, rest[1..]);
        AbsorbRanked(f, scores, cur, rest[1..], i);
        var r := f.Absorb(cur, rest[1..], i);
        AbsorbGrows(f, cur, rest[1..], i);
        RankedTail(scores, [r.0] + r.1);
        assert ([r.0] + r.1)[1..] == r.1;
        forall b | 0 <= b < |r.1| ensures Ahead(scores, first[0], r.1[b][0]) {
          assert r.1[b] in rest[1..];
        }
        RankedCons(scores, first, r.1);
        RankedCons(scores, r.0, [first] + r.1);
      }
    }
  }

  lemma LedJoin(scores: seq<real>, g: Group, h: Group)
    requires Led(scores, g) && Led(scores, h) && Ahead(scores, g[0], h[0])
    ensures Led(scores, g + h)
  {
    forall k | 0 < k < |g + h| ensures Ahead(scores, g[0], (g + h)[k]) {
      if k >= |g| { assert (g + h)[k] == h[k - |g|]; }
    }
  }

  lemma RankedCons(scores: seq<real>, g: Group, gs: Groups)
    requires Led(scores, g) && Ranked(scores, gs) && forall b :: 0 <= b < |gs| ==> Ahead(scores, g[0], gs[b][0])
    ensures Ranked(scores, [g] + gs)
  {
  }

  lemma RankedTail(scores: seq<real>, all: Groups)
    requires all != [] && Ranked(scores, all)
    ensures Led(scores, all[0]) && Ranked(scores, all[1..])
    ensures forall b :: 0 <= b < |all[1..]| ==> Ahead(scores, all[0][0], all[1..][b][0])
  {
    forall a, b | 0 <= a < b < |all[1..]| ensures Ahead(scores, all[1..][a][0], all[1..][b][0]) {
      assert Ahead(scores, all[a + 1][0], all[b + 1][0]);
    }
  }

  /** Placing a fragment behind all the others keeps survivors first and groups in survivor order. */
  lemma {:induction false} PlaceRanked(f: Fragments, scores: seq<real>, gs: Groups, i: nat)
    requires f.Shaped() && i < |f.tile| && f.InRanges(gs) && |scores| == |f.tile| && Ranked(scores, gs)
    requires forall a :: 0 <= a < |gs| ==> GroupAhead(scores, gs[a], i)
    ensures Ranked(scores, f.Place(gs, i))
    ensures gs != [] ==> f.Place(gs, i) != [] && f.Place(gs, i)[0][0] == gs[0][0]
  {
    if gs == [] {
    } else {
      var first, rest := gs[0], gs[1..];
      RankedTail(scores, gs);
      if f.tile[i] in f.Tiles(first) || !f.MatchesAny(i, first) {
        PlaceRanked(f, scores, rest, i);
        var placed := f.Place(rest, i);
        assert GroupAhead(scores, first, i);
        assert Ahead(scores, first[0], placed[0][0]);
        forall b | 0 <= b < |placed| ensures Ahead(scores, first[0], placed[b][0]) {
          assert b > 0 ==> Ahead(scores, placed[0][0], placed[b][0]);
        }
        RankedCons(scores, first, placed);
      } else {
        LedExtend(scores, first, i);
        RankedCons(scores, first + [i], rest);
        AbsorbRanked(f, scores, first + [i], rest, i);
      }
    }
  }

  lemma LedExtend(scores: seq<real>, g: Group, i: nat)
    requires i < |scores| && Led(scores, g) && GroupAhead(scores, g, i)
    ensures Led(scores, g + [i])
  {
  }

  // ── the whole pass ─────────────────────────────────────────────────────────

  /** Consecutive members of the path match. */
  ghost predicate Chain(f: Fragments, g: Group, path: seq<nat>)
    requires f.Shaped() && InRange(g, |f.tile|)
  {
    && path != [] && (forall k :: 0 <= k < |path| ==> path[k] in g)
    && InRange(path, |f.tile|)
    && forall k :: 0 <= k < |path| - 1 ==> f.matched[path[k]][path[k + 1]]
  }

  /** A chain of matches inside the group leads from x to y. */
  ghost predicate Linked(f: Fragments, g: Group, x: nat, y: nat)
    requires f.Shaped() && InRange(g, |f.tile|)
  {
    exists path :: Chain(f, g, path) && path[0] == x && path[|path| - 1] == y
  }

  /** In a connected group, matches link any two members. */
  lemma ConnectedLinks(f: Fragments, g: Group, x: nat, y: nat)
    requires f.Shaped() && InRange(g, |f.tile|) && Connected(f, Elements(g)) && x in g && y in g
    ensures Linked(f, g, x, y)
  {
    var all := Elements(g);
    var reached := set z | z in all && Linked(f, g, x, z);
    assert Chain(f, g, [x]);
    if y !in reached {
      assert reached < all && x in reached;
      assert Crossed(f, reached, all - reached);
      var a, b :| a in reached && b in all - reached && f.matched[a][b];
      var path :| Chain(f, g, path) && path[0] == x && path[|path| - 1] == a;
      assert Chain(f, g, path + [b]);
      assert Linked(f, g, x, b);
    }
  }

  /** Groups that obey every rule of the merge and leave no legal join undone. */
  ghost predicate Sound(f: Fragments, scores: seq<real>, gs: Groups)
    requires f.Shaped() && |scores| == |f.tile|
  {
    && f.InRanges(gs) && AllOnePerTile(f, gs) && AllConnected(f, gs) && Maximal(f, gs) && Ranked(scores, gs)
  }

  /** Everything the grouping promises about its result: a sound partition of all the fragments. */
  ghost predicate IsGrouping(f: Fragments, scores: seq<real>, gs: Groups)
    requires f.Shaped() && |scores| == |f.tile|
  {
    Sound(f, scores, gs) && forall i: nat :: Count(gs, i) == if i < |f.tile| then 1 else 0
  }

  /** After n placements the groups hold exactly the first n fragments of the order. */
  lemma {:induction false} PassPartitions(f: Fragments, order: seq<nat>, n: nat, x: nat)
    requires f.Shaped() && InRange(order, |f.tile|) && n <= |order|
    ensures Count(f.PlaceAll(order, n), x) == Occurs(order[..n], x)
  {
    if n > 0 {
      PassPartitions(f, order, n - 1, x);
      PlaceCounts(f, f.PlaceAll(order, n - 1), order[n - 1], x);
      assert order[..n][..n - 1] == order[..n - 1];
    }
  }

  /** No group ever holds two fragments of one tile. */
  lemma {:induction false} PassOnePerTile(f: Fragments, order: seq<nat>, n: nat)
    requires f.Shaped() && InRange(order, |f.tile|) && n <= |order|
    ensures AllOnePerTile(f, f.PlaceAll(order, n))
  {
    if n > 0 {
      PassOnePerTile(f, order, n - 1);
      PlaceOnePerTile(f, f.PlaceAll(order, n - 1), order[n - 1]);
    }
  }

  /** Every group stays one connected object. */
  lemma {:induction false} PassConnected(f: Fragments, order: seq<nat>, n: nat)
    requires f.Valid() && InRange(order, |f.tile|) && n <= |order|
    ensures AllConnected(f, f.PlaceAll(order, n))
  {
    if n > 0 {
      PassConnected(f, order, n - 1);
      PlaceConnected(f, f.PlaceAll(order, n - 1), order[n - 1]);
    }
  }

  /** No legal join is ever left undone, although groups join while the pass runs. */
  lemma {:induction false} PassMaximal(f: Fragments, order: seq<nat>, n: nat)
    requires f.Valid() && InRange(order, |f.tile|) && n <= |order|
    ensures Maximal(f, f.PlaceAll(order, n))
  {
    if n > 0 {
      PassMaximal(f, order, n - 1);
      PlaceMaximal(f, f.PlaceAll(order, n - 1), order[n - 1]);
    }
  }

  /** Survivors lead their groups and groups follow their survivors. */
  lemma {:induction false} PassRanked(f: Fragments, scores: seq<real>, order: seq<nat>, n: nat)
    requires f.Shaped() && |scores| == |f.tile| && InRange(order, |f.tile|) && Sorted(scores, order) && n <= |order|
    ensures Ranked(scores, f.PlaceAll(order, n))
  {
    if n > 0 {
      PassRanked(f, scores, order, n - 1);
      var before := f.PlaceAll(order, n - 1);
      AllBehind(f, scores, order, n - 1, before);
      PlaceRanked(f, scores, before, order[n - 1]);
    }
  }

  lemma AllBehind(f: Fragments, scores: seq<real>, order: seq<nat>, n: nat, gs: Groups)
    requires f.Shaped() && |scores| == |f.tile| && InRange(order, |scores|) && Sorted(scores, order) && n < |order|
    requires gs == f.PlaceAll(order, n)
    ensures forall a :: 0 <= a < |gs| ==> GroupAhead(scores, gs[a], order[n])
  {
    forall a | 0 <= a < |gs| ensures GroupAhead(scores, gs[a], order[n]) {
      forall k | 0 <= k < |gs[a]| ensures Ahead(scores, gs[a][k], order[n]) {
        CountedMember(gs, a, k);
        PassPartitions(f, order, n, gs[a][k]);
        var p := Occurrence(order[..n], gs[a][k]);
        assert Ahead(scores, order[p], order[n]);
      }
    }
  }

  lemma {:induction false} CountedMember(gs: Groups, a: nat, k: nat)
    requires a < |gs| && k < |gs[a]|
    ensures Count(gs, gs[a][k]) > 0
  {
    if a > 0 {
      CountedMember(gs[1..], a - 1, k);
    } else {
      OccursAt(gs[0], k);
    }
  }

  lemma {:induction false} OccursAt(g: Group, k: nat)
    requires k < |g|
    ensures Occurs(g, g[k]) > 0
  {
    if k < |g| - 1 {
      OccursAt(g[..|g| - 1], k);
    }
  }

  lemma {:induction false} Occurrence(g: Group, x: nat) returns (p: nat)
    requires Occurs(g, x) > 0
    ensures p < |g| && g[p] == x
  {
    if g[|g| - 1] == x {
      p := |g| - 1;
    } else {
      p := Occurrence(g[..|g| - 1], x);
    }
  }

  /** Whatever the scores, the pass returns a maximal, ranked partition into connected objects. */
  lemma GroupingCorrect(f: Fragments, scores: seq<real>)
    requires f.Valid() && |scores| == |f.tile|
    ensures IsGrouping(f, scores, f.PlaceAll(Argsort(scores, |scores|), |scores|))
  {
    var order := Argsort(scores, |scores|);
    ArgsortIsOrder(scores, |scores|);
    PassOnePerTile(f, order, |order|);
    PassConnected(f, order, |order|);
    PassMaximal(f, order, |order|);
    PassRanked(f, scores, order, |order|);
    forall i: nat ensures Count(f.PlaceAll(order, |order|), i) == if i < |scores| then 1 else 0 {
      PassPartitions(f, order, |order|, i);
      assert order[..|order|] == order;
      OrderOnce(scores, order, i);
    }
  }

  /** An order lists each index once. */
  lemma OrderOnce(scores: seq<real>, order: seq<nat>, i: nat)
    requires IsOrder(scores, |scores|, order)
    ensures Occurs(order, i) == if i < |scores| then 1 else 0
  {
    if i < |scores| {
      var p := PositionOf(scores, order, i);
      OccursAt(order, p);
    }
    SortedOnce(scores, order, i);
    if Occurs(order, i) > 0 {
      var p := Occurrence(order, i);
    }
  }

  lemma {:induction false} SortedOnce(scores: seq<real>, list: seq<nat>, x: nat)
    requires InRange(list, |scores|) && Sorted(scores, list)
    ensures Occurs(list, x) <= 1
  {
    if list != [] {
      var front := list[..|list| - 1];
      SortedOnce(scores, front, x);
      forall p | 0 <= p < |front| ensures front[p] != list[|list| - 1] {
        assert Ahead(scores, list[p], list[|list| - 1]);
      }
      if list[|list| - 1] == x {
        Absent(front, x);
      }
    }
  }

  lemma {:induction false} Absent(g: Group, x: nat)
    requires forall k :: 0 <= k < |g| ==> g[k] != x
    ensures Occurs(g, x) == 0
  {
    if g != [] {
      Absent(g[..|g| - 1], x);
    }
  }

  /** A fragment that is counted is in some group. */
  lemma {:induction false} GroupHolding(gs: Groups, x: nat) returns (a: nat)
    requires Count(gs, x) > 0
    ensures a < |gs| && x in gs[a]
  {
    if Occurs(gs[0], x) > 0 {
      var p := Occurrence(gs[0], x);
      a := 0;
    } else {
      a := GroupHolding(gs[1..], x);
      a := a + 1;
    }
  }

  /** A fragment of two groups is counted twice. */
  lemma {:induction false} CountTwo(gs: Groups, a: nat, b: nat, x: nat)
    requires a < b < |gs| && x in gs[a] && x in gs[b]
    ensures Count(gs, x) >= 2
  {
    if a > 0 {
      CountTwo(gs[1..], a - 1, b - 1, x);
    } else {
      var p :| 0 <= p < |gs[0]| && gs[0][p] == x;
      OccursAt(gs[0], p);
      CountOne(gs[1..], b - 1, x);
    }
  }

  lemma {:induction false} CountOne(gs: Groups, b: nat, x: nat)
    requires b < |gs| && x in gs[b]
    ensures Count(gs, x) >= 1
  {
    if b > 0 {
      CountOne(gs[1..], b - 1, x);
    } else {
      var p :| 0 <= p < |gs[0]| && gs[0][p] == x;
      OccursAt(gs[0], p);
    }
  }

  /** Two groups of fragments that all have tiles of their own share none. */
  lemma NoSharedTile(f: Fragments, scores: seq<real>, gs: Groups, a: nat, b: nat)
    requires f.Shaped() && |scores| == |f.tile| && IsGrouping(f, scores, gs) && a < b < |gs|
    requires forall i, j :: 0 <= i < j < |f.tile| ==> f.tile[i] != f.tile[j]
    ensures !ShareTile(f, gs[a], gs[b])
  {
    if ShareTile(f, gs[a], gs[b]) {
      var tile :| tile in f.Tiles(gs[a]) && tile in f.Tiles(gs[b]);
      var p :| 0 <= p < |gs[a]| && f.tile[gs[a][p]] == tile;
      var q :| 0 <= q < |gs[b]| && f.tile[gs[b][q]] == tile;
      CountTwo(gs, a, b, gs[a][p]);
    }
  }

  /** Then a match never leaves a group. */
  lemma MatchedTogether(f: Fragments, scores: seq<real>, gs: Groups, a: nat, x: nat, y: nat)
    requires f.Valid() && |scores| == |f.tile| && IsGrouping(f, scores, gs) && a < |gs| && x in gs[a]
    requires forall i, j :: 0 <= i < j < |f.tile| ==> f.tile[i] != f.tile[j]
    requires x < |f.tile| && y < |f.tile| && f.matched[x][y]
    ensures y in gs[a]
  {
    var b := GroupHolding(gs, y);
    if a < b {
      NoSharedTile(f, scores, gs, a, b);
    } else if b < a {
      NoSharedTile(f, scores, gs, b, a);
    }
  }
}
