/** Greedy non-maximum suppression over the union of per-tile detections
    (merge_tiles in conecsa_common/tiling.py). */
module BoxMerge {
  import opened BoxArea
  import opened Geometry
  import opened StableOrder

  datatype Detections = Detections(boxes: seq<Box>, scores: seq<real>, classes: seq<int>) {
    predicate Aligned() {
      |scores| == |boxes| && |classes| == |boxes|
    }
  }

  datatype Outcome = Kept(kept: seq<nat>) | BadThreshold | LengthMismatch

  type Matrix = seq<seq<bool>>

  predicate Square(m: Matrix, n: nat) {
    |m| == n && forall i :: 0 <= i < n ==> |m[i]| == n
  }

  /** Box i suppresses box j: same class when classes matter, and overlapping too much. */
  predicate Conflict(d: Detections, threshold: real, classAware: bool, i: nat, j: nat)
    requires d.Aligned() && i < |d.boxes| && j < |d.boxes|
  {
    (classAware ==> d.classes[i] == d.classes[j]) && Iou(d.boxes[i], d.boxes[j]) > threshold
  }

  /** The pairwise conflicts, computed once before the greedy pass. */
  function Conflicts(d: Detections, threshold: real, classAware: bool): (m: Matrix)
    requires d.Aligned()
    ensures Square(m, |d.boxes|)
    ensures forall i, j :: 0 <= i < |d.boxes| && 0 <= j < |d.boxes| ==>
      m[i][j] == Conflict(d, threshold, classAware, i, j)
  {
    var n := |d.boxes|;
    seq(n, i requires 0 <= i < n => seq(n, j requires 0 <= j < n => Conflict(d, threshold, classAware, i, j)))
  }

  /** Some kept box ahead of i conflicts with it. */
  ghost predicate Dominated(scores: seq<real>, m: Matrix, kept: seq<nat>, i: nat)
    requires Square(m, |scores|) && i < |scores| && InRange(kept, |scores|)
  {
    exists k :: k in kept && Ahead(scores, k, i) && m[k][i]
  }

  /** What greedy suppression promises: the kept boxes in processing order, and a box is kept
      exactly when no kept box ahead of it conflicts with it. */
  ghost predicate IsMerge(scores: seq<real>, m: Matrix, kept: seq<nat>)
    requires Square(m, |scores|)
  {
    && InRange(kept, |scores|)
    && Sorted(scores, kept)
    && (forall i: nat :: i < |scores| ==> (i in kept <==> !Dominated(scores, m, kept, i)))
  }

  method MergeTiles(d: Detections, threshold: real, classAware: bool) returns (r: Outcome)
    ensures r.BadThreshold? <==> !(0.0 <= threshold <= 1.0)
    ensures r.LengthMismatch? <==> !r.BadThreshold? && !(|d.boxes| == |d.scores| == |d.classes|)
    ensures r.Kept? ==> IsMerge(d.scores, Conflicts(d, threshold, classAware), r.kept)
    ensures r.Kept? ==> forall a, b :: 0 <= a < b < |r.kept| ==>
      d.scores[r.kept[a]] > d.scores[r.kept[b]] || (d.scores[r.kept[a]] == d.scores[r.kept[b]] && r.kept[a] < r.kept[b])
    ensures r.Kept? && threshold < 1.0 ==>
      forall i: nat, j: nat :: i < |d.boxes| && j < |d.boxes| && Twins(d, classAware, i, j) && Ahead(d.scores, i, j) ==>
        j !in r.kept
  {
    if !(0.0 <= threshold <= 1.0) {
      return BadThreshold;
    }
    if !d.Aligned() {
      return LengthMismatch;
    }
    var kept := Suppress(d.scores, Conflicts(d, threshold, classAware));
    r := Kept(kept);
    if threshold < 1.0 {
      forall i: nat, j: nat | i < |d.boxes| && j < |d.boxes| && Twins(d, classAware, i, j) && Ahead(d.scores, i, j)
        ensures j !in kept
      {
        TwinDropped(d, threshold, classAware, kept, i, j);
      }
    }
  }

  /** The box is still a candidate: not kept, and no kept box conflicts with it. */
  ghost predicate Open(m: Matrix, kept: seq<nat>, i: nat)
    requires Square(m, |m|) && i < |m| && InRange(kept, |m|)
  {
    i !in kept && forall k :: k in kept ==> !m[k][i]
  }

  /** The entries of the order decided so far are decided right. */
  ghost predicate Decided(scores: seq<real>, m: Matrix, done: seq<nat>, kept: seq<nat>)
    requires Square(m, |scores|) && InRange(done, |scores|)
  {
    && (forall k :: 0 <= k < |kept| ==> kept[k] in done)
    && Sorted(scores, kept)
    && (forall i :: i in done ==> (i in kept <==> !Dominated(scores, m, kept, i)))
  }

  /** The flags say which boxes are still open. */
  ghost predicate Flags(m: Matrix, kept: seq<nat>, alive: seq<bool>)
    requires Square(m, |m|) && InRange(kept, |m|)
  {
    |alive| == |m| && forall i :: 0 <= i < |m| ==> (alive[i] <==> Open(m, kept, i))
  }

  /** The greedy loop. */
  method Suppress(scores: seq<real>, m: Matrix) returns (keep: seq<nat>)
    requires Square(m, |scores|)
    ensures IsMerge(scores, m, keep)
  {
    var n := |scores|;
    var order := Argsort(scores, n);
    ArgsortIsOrder(scores, n);
    var alive := new bool[n](_ => true);
    keep := [];
    for step := 0 to n
      invariant Decided(scores, m, order[..step], keep)
      invariant InRange(keep, n) && Flags(m, keep, alive[..])
    {
      var idx := order[step];
      DecideOne(scores, m, order, step, keep);
      if alive[idx] {
        Silence(alive, m[idx], idx);
        keep := keep + [idx];
      }
    }
    AllDecided(scores, m, order, keep);
  }

  lemma AllDecided(scores: seq<real>, m: Matrix, order: seq<nat>, kept: seq<nat>)
    requires Square(m, |scores|) && IsOrder(scores, |scores|, order)
    requires Decided(scores, m, order[..|order|], kept)
    ensures IsMerge(scores, m, kept)
  {
    assert order[..|order|] == order;
  }

  /** A kept box silences itself and every box it conflicts with. */
  method Silence(alive: array<bool>, row: seq<bool>, idx: nat)
    requires alive.Length == |row| && idx < |row|
    modifies alive
    ensures forall i :: 0 <= i < |row| ==> alive[i] == (old(alive[i]) && !row[i] && i != idx)
  {
    forall i | 0 <= i < |row| {
      alive[i] := alive[i] && !row[i];
    }
    alive[idx] := false;
  }

  /** Keeping the next entry exactly when it is still open leaves every decision right. */
  lemma DecideOne(scores: seq<real>, m: Matrix, order: seq<nat>, step: nat, kept: seq<nat>)
    requires Square(m, |scores|) && IsOrder(scores, |scores|, order) && step < |order|
    requires Decided(scores, m, order[..step], kept)
    ensures Open(m, kept, order[step]) ==> Decided(scores, m, order[..step + 1], kept + [order[step]])
    ensures !Open(m, kept, order[step]) ==> Decided(scores, m, order[..step + 1], kept)
  {
    var idx := order[step];
    assert order[..step + 1] == order[..step] + [idx];
    forall i | i in order[..step]
      ensures Dominated(scores, m, kept + [idx], i) <==> Dominated(scores, m, kept, i)
    {
    }
    assert Open(m, kept, idx) <==> !Dominated(scores, m, kept, idx);
  }

  /** The promise has one possible outcome: same boxes, same order. */
  lemma {:induction false} MergeUnique(scores: seq<real>, m: Matrix, a: seq<nat>, b: seq<nat>)
    requires Square(m, |scores|) && IsMerge(scores, m, a) && IsMerge(scores, m, b)
    ensures a == b
  {
    var order := Argsort(scores, |scores|);
    ArgsortIsOrder(scores, |scores|);
    forall i: nat | i < |scores| ensures i in a <==> i in b {
      var p := PositionOf(scores, order, i);
      MergesAgree(scores, m, a, b, order, p);
    }
    SortedSame(scores, a, b);
  }

  lemma {:induction false} MergesAgree(scores: seq<real>, m: Matrix, a: seq<nat>, b: seq<nat>,
                                       order: seq<nat>, p: nat)
    requires Square(m, |scores|) && IsMerge(scores, m, a) && IsMerge(scores, m, b)
    requires IsOrder(scores, |scores|, order) && p < |order|
    ensures order[p] in a <==> order[p] in b
    decreases p
  {
    forall q | 0 <= q < p ensures order[q] in a <==> order[q] in b {
      MergesAgree(scores, m, a, b, order, q);
    }
    DominatedSame(scores, m, a, b, order, p);
    DominatedSame(scores, m, b, a, order, p);
  }

  /** Dominators are ahead, where the two sets already agree. */
  lemma DominatedSame(scores: seq<real>, m: Matrix, a: seq<nat>, b: seq<nat>, order: seq<nat>, p: nat)
    requires Square(m, |scores|) && InRange(a, |scores|) && InRange(b, |scores|)
    requires IsOrder(scores, |scores|, order) && p < |order|
    requires forall q :: 0 <= q < p ==> (order[q] in a <==> order[q] in b)
    ensures Dominated(scores, m, a, order[p]) ==> Dominated(scores, m, b, order[p])
  {
    if Dominated(scores, m, a, order[p]) {
      var k :| k in a && Ahead(scores, k, order[p]) && m[k][order[p]];
      var q := PositionOf(scores, order, k);
      assert forall later :: p < later < |order| ==> Ahead(scores, order[p], order[later]);
      assert k in b;
    }
  }

  /** Two sorted lists of the same indices are the same list. */
  lemma {:induction false} SortedSame(scores: seq<real>, a: seq<nat>, b: seq<nat>)
    requires InRange(a, |scores|) && InRange(b, |scores|)
    requires Sorted(scores, a) && Sorted(scores, b) && forall k :: k in a <==> k in b
    ensures a == b
  {
    assert Elements(a) == Elements(b);
    SortedLength(scores, a);
    SortedLength(scores, b);
    if a == [] {
    } else {
      assert a[0] in b;
      assert b[0] in a;
      var p :| 0 <= p < |b| && b[p] == a[0];
      var q :| 0 <= q < |a| && a[q] == b[0];
      assert p == 0;
      forall k | k in a[1..] ensures k in b[1..] {
        assert k in b && k != b[0];
      }
      forall k | k in b[1..] ensures k in a[1..] {
        assert k in a && k != a[0];
      }
      SortedSame(scores, a[1..], b[1..]);
    }
  }

  /** Kept boxes never conflict, whichever comes first; a dropped box has a kept dominator. */
  lemma KeptAndDropped(d: Detections, threshold: real, classAware: bool, kept: seq<nat>)
    requires d.Aligned() && IsMerge(d.scores, Conflicts(d, threshold, classAware), kept)
    ensures forall i, j :: 0 <= i < |kept| && 0 <= j < |kept| && i != j ==>
      !Conflict(d, threshold, classAware, kept[i], kept[j])
    ensures forall x: nat :: x < |d.boxes| && x !in kept ==>
      exists k :: k in kept && Ahead(d.scores, k, x) && Conflict(d, threshold, classAware, k, x)
  {
    var m := Conflicts(d, threshold, classAware);
    forall i, j | 0 <= i < |kept| && 0 <= j < |kept| && i != j
      ensures !Conflict(d, threshold, classAware, kept[i], kept[j])
    {
      IouSymmetric(d.boxes[kept[i]], d.boxes[kept[j]]);
      var lo, hi := if i < j then kept[i] else kept[j], if i < j then kept[j] else kept[i];
      assert Ahead(d.scores, lo, hi);
      assert !Dominated(d.scores, m, kept, hi);
      assert !m[lo][hi];
    }
    forall x: nat | x < |d.boxes| && x !in kept
      ensures exists k :: k in kept && Ahead(d.scores, k, x) && Conflict(d, threshold, classAware, k, x)
    {
      assert Dominated(d.scores, m, kept, x);
    }
  }

  /** The kept detections alone, in the order they were kept. */
  function Select(d: Detections, kept: seq<nat>): (s: Detections)
    requires d.Aligned() && InRange(kept, |d.boxes|)
    ensures s.Aligned() && |s.boxes| == |kept|
    ensures forall k :: 0 <= k < |kept| ==>
      s.boxes[k] == d.boxes[kept[k]] && s.scores[k] == d.scores[kept[k]] && s.classes[k] == d.classes[kept[k]]
  {
    Detections(seq(|kept|, k requires 0 <= k < |kept| => d.boxes[kept[k]]),
               seq(|kept|, k requires 0 <= k < |kept| => d.scores[kept[k]]),
               seq(|kept|, k requires 0 <= k < |kept| => d.classes[kept[k]]))
  }

  /** Merging the kept set again keeps all of it, in the same order. */
  lemma MergeIdempotent(d: Detections, threshold: real, classAware: bool, kept: seq<nat>, again: seq<nat>)
    requires d.Aligned() && IsMerge(d.scores, Conflicts(d, threshold, classAware), kept)
    requires var s := Select(d, kept); IsMerge(s.scores, Conflicts(s, threshold, classAware), again)
    ensures again == seq(|kept|, k requires 0 <= k < |kept| => k)
  {
    var s := Select(d, kept);
    var m := Conflicts(s, threshold, classAware);
    var identity: seq<nat> := seq(|kept|, k requires 0 <= k < |kept| => k);
    KeptAndDropped(d, threshold, classAware, kept);
    forall i: nat | i < |kept| ensures i in identity && !Dominated(s.scores, m, identity, i) {
      assert identity[i] == i;
      forall k | k in identity && Ahead(s.scores, k, i) ensures !m[k][i] {
        assert !Conflict(d, threshold, classAware, kept[k], kept[i]);
      }
    }
    forall a, b | 0 <= a < b < |kept| ensures Ahead(s.scores, a, b) {
      assert Ahead(d.scores, kept[a], kept[b]);
    }
    MergeUnique(s.scores, m, identity, again);
  }

  // ── what a conflict is, and what it decides ────────────────────────────────

  /** Proper boxes conflict when, counted cell by cell, what they share is more than that part of what
      either covers. */
  lemma ConflictMeaning(d: Detections, threshold: real, classAware: bool, i: nat, j: nat, xs: seq<real>, ys: seq<real>,
                        both: Region, either: Region)
    requires d.Aligned() && i < |d.boxes| && j < |d.boxes| && Proper(d.boxes[i]) && Proper(d.boxes[j])
    requires Grid(xs, ys, d.boxes[i], d.boxes[j])
    requires IsBoth(both, d.boxes[i], d.boxes[j]) && IsEither(either, d.boxes[i], d.boxes[j])
    ensures Conflict(d, threshold, classAware, i, j) <==>
      (classAware ==> d.classes[i] == d.classes[j])
      && Measure(xs, ys, both) > Prod(threshold, Measure(xs, ys, either))
  {
    IouMeaning(xs, ys, both, either, d.boxes[i], d.boxes[j]);
    MoreThan(Measure(xs, ys, both), Measure(xs, ys, either), threshold);
  }

  lemma MoreThan(part: real, whole: real, threshold: real)
    requires whole > 0.0
    ensures part / whole > threshold <==> part > Prod(threshold, whole)
  {
  }

  /** The same proper box twice, as far as the merge can tell. */
  predicate Twins(d: Detections, classAware: bool, i: nat, j: nat)
    requires d.Aligned() && i < |d.boxes| && j < |d.boxes|
  {
    i != j && Proper(d.boxes[i]) && d.boxes[i] == d.boxes[j] && (classAware ==> d.classes[i] == d.classes[j])
  }

  /** Below threshold 1 only the first of equal boxes can survive. */
  lemma TwinDropped(d: Detections, threshold: real, classAware: bool, kept: seq<nat>, i: nat, j: nat)
    requires d.Aligned() && threshold < 1.0 && IsMerge(d.scores, Conflicts(d, threshold, classAware), kept)
    requires i < |d.boxes| && j < |d.boxes| && Twins(d, classAware, i, j) && Ahead(d.scores, i, j)
    ensures j !in kept
  {
    var m := Conflicts(d, threshold, classAware);
    IouRange(d.boxes[i], d.boxes[j]);
    if i in kept {
      assert m[i][j];
    } else {
      var k :| k in kept && Ahead(d.scores, k, i) && m[k][i];
      assert m[k][j] && Ahead(d.scores, k, j);
    }
    assert Dominated(d.scores, m, kept, j);
  }

  /** own lists the detections of one class in input order. */
  ghost predicate IsClass(d: Detections, c: int, own: seq<nat>)
    requires d.Aligned()
  {
    && InRange(own, |d.boxes|)
    && (forall i: nat :: i < |d.boxes| ==> (i in own <==> d.classes[i] == c))
    && forall p, q :: 0 <= p < q < |own| ==> own[p] < own[q]
  }

  /** When classes matter, what is kept of a class is what merging that class alone keeps. */
  lemma ClassAlone(d: Detections, threshold: real, kept: seq<nat>, c: int, own: seq<nat>, alone: seq<nat>, k: nat)
    requires d.Aligned() && IsMerge(d.scores, Conflicts(d, threshold, true), kept)
    requires IsClass(d, c, own) && k < |own|
    requires var s := Select(d, own); IsMerge(s.scores, Conflicts(s, threshold, true), alone)
    ensures k in alone <==> own[k] in kept
  {
    var s := Select(d, own);
    var order := Argsort(s.scores, |s.scores|);
    ArgsortIsOrder(s.scores, |s.scores|);
    var p := PositionOf(s.scores, order, k);
    ClassAgrees(d, threshold, kept, c, own, alone, order, p);
  }

  lemma OwnAhead(d: Detections, c: int, own: seq<nat>, k: nat, l: nat)
    requires d.Aligned() && IsClass(d, c, own) && k < |own| && l < |own|
    ensures Ahead(Select(d, own).scores, k, l) <==> Ahead(d.scores, own[k], own[l])
  {
    assert k < l ==> own[k] < own[l];
    assert l < k ==> own[l] < own[k];
  }

  lemma {:induction false} ClassAgrees(d: Detections, threshold: real, kept: seq<nat>, c: int, own: seq<nat>,
                                       alone: seq<nat>, order: seq<nat>, p: nat)
    requires d.Aligned() && IsMerge(d.scores, Conflicts(d, threshold, true), kept) && IsClass(d, c, own)
    requires var s := Select(d, own);
      && IsMerge(s.scores, Conflicts(s, threshold, true), alone) && IsOrder(s.scores, |s.scores|, order)
    requires p < |order|
    ensures order[p] in alone <==> own[order[p]] in kept
    decreases p
  {
    forall q | 0 <= q < p ensures order[q] in alone <==> own[order[q]] in kept {
      ClassAgrees(d, threshold, kept, c, own, alone, order, q);
    }
    DominatedAlone(d, threshold, kept, c, own, alone, order, p);
  }

  /** Being dominated is decided inside the class, by boxes further ahead. */
  lemma DominatedAlone(d: Detections, threshold: real, kept: seq<nat>, c: int, own: seq<nat>, alone: seq<nat>,
                       order: seq<nat>, p: nat)
    requires d.Aligned() && InRange(kept, |d.boxes|) && IsClass(d, c, own) && InRange(alone, |own|)
    requires IsOrder(Select(d, own).scores, |own|, order) && p < |order|
    requires forall q :: 0 <= q < p ==> (order[q] in alone <==> own[order[q]] in kept)
    ensures Dominated(Select(d, own).scores, Conflicts(Select(d, own), threshold, true), alone, order[p])
        <==> Dominated(d.scores, Conflicts(d, threshold, true), kept, own[order[p]])
  {
    var s, i := Select(d, own), order[p];
    var ms, md := Conflicts(s, threshold, true), Conflicts(d, threshold, true);
    if Dominated(s.scores, ms, alone, i) {
      var k :| k in alone && Ahead(s.scores, k, i) && ms[k][i];
      var q := PositionOf(s.scores, order, k);
      AheadEarlier(s.scores, order, q, p);
      OwnAhead(d, c, own, k, i);
      assert md[own[k]][own[i]] && own[k] in kept;
    }
    if Dominated(d.scores, md, kept, own[i]) {
      var k' :| k' in kept && Ahead(d.scores, k', own[i]) && md[k'][own[i]];
      assert own[i] in own && k' in own;
      var k :| 0 <= k < |own| && own[k] == k';
      OwnAhead(d, c, own, k, i);
      var q := PositionOf(s.scores, order, k);
      AheadEarlier(s.scores, order, q, p);
      assert ms[k][i] && k in alone;
    }
  }

  lemma AheadEarlier(scores: seq<real>, order: seq<nat>, q: nat, p: nat)
    requires IsOrder(scores, |scores|, order) && q < |order| && p < |order| && Ahead(scores, order[q], order[p])
    ensures q < p
  {
    assert forall later :: p < later < |order| ==> Ahead(scores, order[p], order[later]);
  }
}
