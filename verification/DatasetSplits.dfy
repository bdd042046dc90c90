/** Federated shards and train/validation splits of a dataset (training-service/service/dataset_service.py).
    Image ids stand for their place in the order of the id strings. */
module DatasetSplits {
  import opened Basics
  import TileGrid

  ghost predicate SameImages<T>(a: seq<T>, b: seq<T>) {
    multiset(a) == multiset(b)
  }

  lemma PermutationFacts<T>(a: seq<T>, b: seq<T>)
    requires SameImages(a, b)
    ensures |a| == |b|
    ensures forall x :: x in a <==> x in b
  {
    assert |a| == |multiset(a)| == |multiset(b)| == |b|;
    forall x ensures x in a <==> x in b {
      assert x in a <==> x in multiset(a);
      assert x in b <==> x in multiset(b);
    }
  }

  lemma DistinctCounts<T>(s: seq<T>)
    requires Distinct(s)
    ensures forall x :: multiset(s)[x] <= 1
  {
    if s != [] {
      assert s == [s[0]] + s[1..];
      DistinctCounts(s[1..]);
    }
  }

  lemma {:induction false} CountsDistinct<T>(s: seq<T>)
    requires forall x :: multiset(s)[x] <= 1
    ensures Distinct(s)
  {
    forall a, b | 0 <= a < b < |s| ensures s[a] != s[b] {
      assert s == s[..a] + [s[a]] + s[a + 1..b] + [s[b]] + s[b + 1..];
      assert s[a] == s[b] ==> multiset(s)[s[a]] >= 2;
    }
  }

  lemma PermutationDistinct<T>(a: seq<T>, b: seq<T>)
    requires SameImages(a, b) && Distinct(a)
    ensures Distinct(b)
  {
    DistinctCounts(a);
    CountsDistinct(b);
  }

  // ── shuffling ──────────────────────────────────────────────────────────────

  function Swapped<T>(s: seq<T>, i: nat, j: nat): seq<T>
    requires i < |s| && j < |s|
  {
    s[i := s[j]][j := s[i]]
  }

  function Drawn(draws: nat -> nat, i: nat): (j: nat)
    ensures j <= i
  {
    draws(i) % (i + 1)
  }

  /** The standard shuffle from position i down, over a stream of draws. */
  function ShuffleFrom<T>(s: seq<T>, i: nat, draws: nat -> nat): seq<T>
    requires i < |s| || i == 0
    decreases i
  {
    if i == 0 then s
    else ShuffleFrom(Swapped(s, i, Drawn(draws, i)), i - 1, draws)
  }

  /** draws are what the generator yields for one seed and this length. */
  function Shuffled<T>(s: seq<T>, draws: nat -> nat): seq<T> {
    if s == [] then s else ShuffleFrom(s, |s| - 1, draws)
  }

  lemma {:induction false} ShuffleFromPermutes<T>(s: seq<T>, i: nat, draws: nat -> nat)
    requires i < |s| || i == 0
    ensures SameImages(ShuffleFrom(s, i, draws), s)
    decreases i
  {
    if i > 0 {
      ShuffleFromPermutes(Swapped(s, i, Drawn(draws, i)), i - 1, draws);
    }
  }

  lemma ShuffledPermutes<T>(s: seq<T>, draws: nat -> nat)
    ensures SameImages(Shuffled(s, draws), s)
  {
    if s != [] {
      ShuffleFromPermutes(s, |s| - 1, draws);
    }
  }

  // ── shards ─────────────────────────────────────────────────────────────────

  ghost predicate Ascending(s: seq<nat>) {
    forall a, b :: 0 <= a < b < |s| ==> s[a] < s[b]
  }

  function Inserted(s: seq<nat>, x: nat): seq<nat> {
    if s == [] || x <= s[0] then [x] + s else [s[0]] + Inserted(s[1..], x)
  }

  function SortedIds(s: seq<nat>): seq<nat> {
    if s == [] then [] else Inserted(SortedIds(s[1..]), s[0])
  }

  lemma {:induction false} InsertedPermutes(s: seq<nat>, x: nat)
    ensures SameImages(Inserted(s, x), [x] + s)
  {
    if s != [] && x > s[0] {
      InsertedPermutes(s[1..], x);
      assert s == [s[0]] + s[1..];
    }
  }

  lemma {:induction false} InsertedAscends(s: seq<nat>, x: nat)
    requires Ascending(s) && x !in s
    ensures Ascending(Inserted(s, x))
  {
    if s != [] && x > s[0] {
      var rest := Inserted(s[1..], x);
      InsertedAscends(s[1..], x);
      InsertedPermutes(s[1..], x);
      PermutationFacts(rest, [x] + s[1..]);
      forall b | 0 <= b < |rest| ensures s[0] < rest[b] {
        assert rest[b] in [x] + s[1..];
      }
    }
  }

  lemma {:induction false} SortedPermutes(s: seq<nat>)
    ensures SameImages(SortedIds(s), s)
  {
    if s != [] {
      SortedPermutes(s[1..]);
      InsertedPermutes(SortedIds(s[1..]), s[0]);
      assert s == [s[0]] + s[1..];
    }
  }

  lemma {:induction false} SortedAscends(s: seq<nat>)
    requires Distinct(s)
    ensures Ascending(SortedIds(s)) && SameImages(SortedIds(s), s)
  {
    SortedPermutes(s);
    if s != [] {
      SortedAscends(s[1..]);
      PermutationFacts(SortedIds(s[1..]), s[1..]);
      InsertedAscends(SortedIds(s[1..]), s[0]);
    }
  }

  lemma FirstMember(s: seq<nat>)
    ensures s != [] ==> s[0] in s
  {
  }

  /** There is one ascending order of a set of ids. */
  lemma {:induction false} AscendingUnique(a: seq<nat>, b: seq<nat>)
    requires Ascending(a) && Ascending(b) && (forall x :: x in a <==> x in b)
    ensures a == b
  {
    if a == [] {
      FirstMember(b);
    } else {
      assert a[0] in b && b[0] in a;
      assert a[0] == b[0];
      forall x ensures x in a[1..] <==> x in b[1..] {
        assert x in a[1..] ==> x in a && x != a[0];
        assert x in b[1..] ==> x in b && x != b[0];
        assert x in a <==> x == a[0] || x in a[1..];
        assert x in b <==> x == b[0] || x in b[1..];
      }
      AscendingUnique(a[1..], b[1..]);
    }
  }

  /** Every n-th element from position i on. */
  function Strided<T>(s: seq<T>, i: nat, n: nat): seq<T>
    requires n > 0
    decreases |s| - i
  {
    if i >= |s| then [] else [s[i]] + Strided(s, i + n, n)
  }

  /** One shard of an export: sort by id, shuffle with the seed, deal round-robin. */
  function Shard(listed: seq<nat>, draws: nat -> nat, index: nat, shards: nat): seq<nat>
    requires shards > 0
  {
    Strided(Shuffled(SortedIds(listed), draws), index, shards)
  }

  lemma ModStep(p: int, n: nat)
    requires n > 0
    ensures (p - n) % n == p % n
  {
    assert p == p / n * n + p % n;
    assert p - n == (p / n - 1) * n + p % n;
    ModUnique(p - n, n, p / n - 1, p % n);
  }

  lemma Multiple(d: int, n: nat)
    ensures d >= 1 ==> d * n >= n
    ensures d <= -1 ==> d * n <= 0 - n
  {
  }

  lemma ModUnique(p: int, n: nat, q: int, r: int)
    requires n > 0 && p == q * n + r && 0 <= r < n
    ensures p % n == r
  {
    var q2, r2 := p / n, p % n;
    assert p == q2 * n + r2 && 0 <= r2 < n;
    var d := q - q2;
    assert d * n == q * n - q2 * n;
    Multiple(d, n);
  }

  /** Position p falls on the stride from i. */
  predicate OnStride(p: nat, i: nat, n: nat)
    requires n > 0
  {
    i <= p && (p - i) % n == 0
  }

  lemma StrideStep(p: nat, i: nat, n: nat)
    requires n > 0
    ensures OnStride(p, i, n) <==> p == i || OnStride(p, i + n, n)
  {
    if i + n <= p {
      ModStep(p - i, n);
    } else if i <= p {
      ModUnique(p - i, n, 0, p - i);
    }
  }

  /** A shard holds exactly the positions on its stride. */
  lemma {:induction false} StridedMembers<T>(s: seq<T>, i: nat, n: nat, x: T)
    requires n > 0
    ensures x in Strided(s, i, n) <==> exists p :: 0 <= p < |s| && OnStride(p, i, n) && s[p] == x
    decreases |s| - i
  {
    if i < |s| {
      StridedMembers(s, i + n, n, x);
      StrideStep(i, i, n);
      forall p | 0 <= p < |s| ensures OnStride(p, i, n) <==> p == i || OnStride(p, i + n, n) {
        StrideStep(p, i, n);
      }
    }
  }

  lemma ModShift(p: nat, i: nat, n: nat)
    requires n > 0 && i < n && i <= p
    ensures OnStride(p, i, n) <==> p % n == i
  {
    var q, r := (p - i) / n, (p - i) % n;
    assert p - i == q * n + r;
    if r == 0 {
      ModUnique(p, n, q, i);
    }
    var q2, r2 := p / n, p % n;
    if r2 == i {
      ModUnique(p - i, n, q2, 0);
    }
  }

  lemma {:induction false} StridedLengths<T>(s: seq<T>, i: nat, j: nat, n: nat)
    requires n > 0 && i <= j <= i + n
    ensures |Strided(s, j, n)| <= |Strided(s, i, n)| <= |Strided(s, j, n)| + 1
    decreases |s| - i, if i < j then 1 else 0
  {
    if i < |s| && i < j {
      StridedLengths(s, j, i + n, n);
    }
  }

  /** What is dealt out: the ids in one order fixed by their set and the seed. */
  lemma DealtDistinct(listed: seq<nat>, draws: nat -> nat)
    requires Distinct(listed)
    ensures var dealt := Shuffled(SortedIds(listed), draws);
            SameImages(dealt, listed) && Distinct(dealt) && |dealt| == |listed|
    ensures forall x :: x in Shuffled(SortedIds(listed), draws) <==> x in listed
  {
    SortedAscends(listed);
    ShuffledPermutes(SortedIds(listed), draws);
    var dealt := Shuffled(SortedIds(listed), draws);
    PermutationFacts(dealt, listed);
    PermutationDistinct(listed, dealt);
  }

  /** Position p is dealt to shard p modulo n and, elements being distinct, to no other. */
  lemma StridedHome<T>(s: seq<T>, n: nat, p: nat)
    requires n > 0 && p < |s|
    ensures p % n < n && s[p] in Strided(s, p % n, n)
  {
    ModBelow(p, n);
    ModShift(p, p % n, n);
    StridedMembers(s, p % n, n, s[p]);
  }

  lemma StridedOnly<T>(s: seq<T>, n: nat, p: nat, i: nat)
    requires Distinct(s) && i < n && p < |s| && s[p] in Strided(s, i, n)
    ensures i == p % n
  {
    StridedMembers(s, i, n, s[p]);
    var q :| 0 <= q < |s| && OnStride(q, i, n) && s[q] == s[p];
    assert q == p;
    ModShift(q, i, n);
  }

  lemma StridedSubset<T>(s: seq<T>, i: nat, n: nat, x: T)
    requires n > 0 && x in Strided(s, i, n)
    ensures x in s
  {
    StridedMembers(s, i, n, x);
  }

  /** Every image is in exactly one shard, and shards hold nothing else. */
  lemma ShardsPartition(listed: seq<nat>, draws: nat -> nat, shards: nat, x: nat) returns (home: nat)
    requires Distinct(listed) && shards > 0
    ensures home < shards
    ensures x in listed ==> x in Shard(listed, draws, home, shards)
    ensures forall i :: 0 <= i < shards && x in Shard(listed, draws, i, shards) ==> x in listed && i == home
  {
    DealtDistinct(listed, draws);
    home := DealtHome(Shuffled(SortedIds(listed), draws), shards, x);
  }

  lemma DealtHome(dealt: seq<nat>, shards: nat, x: nat) returns (home: nat)
    requires Distinct(dealt) && shards > 0
    ensures home < shards
    ensures x in dealt ==> x in Strided(dealt, home, shards)
    ensures forall i :: 0 <= i < shards && x in Strided(dealt, i, shards) ==> x in dealt && i == home
  {
    home := 0;
    if x in dealt {
      var p :| 0 <= p < |dealt| && dealt[p] == x;
      StridedHome(dealt, shards, p);
      home := p % shards;
      forall i | 0 <= i < shards && x in Strided(dealt, i, shards) ensures i == home {
        StridedOnly(dealt, shards, p, i);
      }
    }
    forall i | 0 <= i < shards && x in Strided(dealt, i, shards) ensures x in dealt {
      StridedSubset(dealt, i, shards, x);
    }
  }

  lemma ModBelow(p: nat, n: nat)
    requires n > 0
    ensures p % n <= p
  {
    if p < n {
      ModUnique(p, n, 0, p);
    }
  }

  /** Two shards of one export differ in size by at most one, the earlier one being the larger. */
  lemma ShardSizes(listed: seq<nat>, draws: nat -> nat, i: nat, j: nat, shards: nat)
    requires i <= j < shards
    ensures |Shard(listed, draws, j, shards)| <= |Shard(listed, draws, i, shards)|
            <= |Shard(listed, draws, j, shards)| + 1
  {
    StridedLengths(Shuffled(SortedIds(listed), draws), i, j, shards);
  }

  /** Shards depend on which images there are and on the seed, not on the order they were listed in. */
  lemma ShardsIgnoreListing(a: seq<nat>, b: seq<nat>, draws: nat -> nat, index: nat, shards: nat)
    requires Distinct(a) && Distinct(b) && (forall x :: x in a <==> x in b) && shards > 0
    ensures Shard(a, draws, index, shards) == Shard(b, draws, index, shards)
  {
    SortedAscends(a);
    SortedAscends(b);
    PermutationFacts(SortedIds(a), a);
    PermutationFacts(SortedIds(b), b);
    AscendingUnique(SortedIds(a), SortedIds(b));
  }

  // ── exporting a classification shard ─────────────────────────────────────────────

  /** The images of a shard that have a class folder to go into. */
  function InFolders(shard: seq<nat>, classed: set<nat>): seq<nat> {
    if shard == [] then []
    else (if shard[0] in classed then [shard[0]] else []) + InFolders(shard[1..], classed)
  }

  lemma {:induction false} InFoldersMembers(shard: seq<nat>, classed: set<nat>, x: nat)
    ensures x in InFolders(shard, classed) <==> x in shard && x in classed
  {
    if shard != [] {
      InFoldersMembers(shard[1..], classed, x);
    }
  }

  /** Together the archives of a classification dataset hold every image exactly if all have a class. */
  lemma FoldersCoverIff(listed: seq<nat>, draws: nat -> nat, shards: nat, classed: set<nat>)
    requires Distinct(listed) && shards > 0
    ensures (forall x :: x in listed ==>
               exists i :: 0 <= i < shards && x in InFolders(Shard(listed, draws, i, shards), classed))
            <==> forall x :: x in listed ==> x in classed
  {
    forall x | x in listed
      ensures (exists i :: 0 <= i < shards && x in InFolders(Shard(listed, draws, i, shards), classed)) <==> x in classed
    {
      var home := ShardsPartition(listed, draws, shards, x);
      InFoldersMembers(Shard(listed, draws, home, shards), classed, x);
      if i :| 0 <= i < shards && x in InFolders(Shard(listed, draws, i, shards), classed) {
        InFoldersMembers(Shard(listed, draws, i, shards), classed, x);
      }
    }
  }

  /** Images without a class can make the written shards differ by more than one image. */
  lemma FoldersUneven(draws: nat -> nat)
    requires forall k :: draws(k) == k
    ensures |InFolders(Shard([0, 1, 2, 3], draws, 0, 2), {0, 2})| == 2
    ensures |InFolders(Shard([0, 1, 2, 3], draws, 1, 2), {0, 2})| == 0
  {
    InOrder([0, 1, 2, 3], draws, 0, 2);
    InOrder([0, 1, 2, 3], draws, 1, 2);
    DealtFour();
  }

  lemma InOrder(ids: seq<nat>, draws: nat -> nat, index: nat, shards: nat)
    requires Ascending(ids) && shards > 0 && forall k :: draws(k) == k
    ensures Shard(ids, draws, index, shards) == Strided(ids, index, shards)
  {
    SortedAscends(ids);
    PermutationFacts(SortedIds(ids), ids);
    AscendingUnique(SortedIds(ids), ids);
    if ids != [] {
      Undisturbed(ids, |ids| - 1, draws);
    }
  }

  lemma DealtFour()
    ensures InFolders(Strided([0, 1, 2, 3], 0, 2), {0, 2}) == [0, 2]
    ensures InFolders(Strided([0, 1, 2, 3], 1, 2), {0, 2}) == []
  {
    var ids: seq<nat> := [0, 1, 2, 3];
    assert Strided(ids, 4, 2) == [] && Strided(ids, 5, 2) == [];
    assert Strided(ids, 2, 2) == [2] && Strided(ids, 3, 2) == [3];
    assert Strided(ids, 0, 2) == [0, 2] && Strided(ids, 1, 2) == [1, 3];
    assert [0, 2][1..] == [2] && [1, 3][1..] == [3];
  }

  lemma {:induction false} Undisturbed(ids: seq<nat>, i: nat, draws: nat -> nat)
    requires i < |ids| && forall k :: draws(k) == k
    ensures ShuffleFrom(ids, i, draws) == ids
  {
    if i > 0 {
      DrawnSelf(draws, i);
      assert Swapped(ids, i, i) == ids;
      Undisturbed(ids, i - 1, draws);
    }
  }

  lemma DrawnSelf(draws: nat -> nat, i: nat)
    requires draws(i) == i
    ensures Drawn(draws, i) == i
  {
    ModUnique(i, i + 1, 0, i);
  }

  // ── train and validation ───────────────────────────────────────────────────────

  datatype Entry = Entry(id: nat, labeled: bool, imageClass: Option<nat>)

  function ValidationCount(n: nat, fraction: real): int {
    var wanted := TileGrid.RoundHalfEven(n as real * fraction);
    var least := if wanted < 1 then 1 else wanted;
    if least < n - 1 then least else n - 1
  }

  /** v is the wanted share of n, to the nearest whole with ties to even, but leaves one image on either
      side when there are two. */
  predicate IsShare(v: nat, n: nat, fraction: real) {
    var wanted := n as real * fraction;
    if n < 2 then v == 0
    else
      && 1 <= v <= n - 1
      && (v > 1 ==> v as real - 0.5 <= wanted && (v as real - 0.5 == wanted ==> v % 2 == 0))
      && (v < n - 1 ==> wanted <= v as real + 0.5 && (wanted == v as real + 0.5 ==> v % 2 == 0))
  }

  /** There is one such number. */
  lemma CountIsShare(n: nat, v: nat, fraction: real)
    requires n > 0
    ensures ValidationCount(n, fraction) >= 0 && (IsShare(v, n, fraction) <==> v == ValidationCount(n, fraction))
  {
  }

  /** Both parts together are the images, both are there as soon as there are two, and the second has its
      share of them. */
  ghost predicate IsSplit(ids: seq<nat>, train: seq<nat>, valid: seq<nat>, fraction: real) {
    && SameImages(valid + train, ids)
    && (ids != [] ==> train != [])
    && (valid != [] <==> |ids| >= 2)
    && IsShare(|valid|, |ids|, fraction)
  }

  lemma SplitDisjoint(ids: seq<nat>, train: seq<nat>, valid: seq<nat>, fraction: real, x: nat)
    requires Distinct(ids) && IsSplit(ids, train, valid, fraction)
    ensures x in ids <==> (x in train) != (x in valid)
  {
    PermutationFacts(valid + train, ids);
    PermutationDistinct(ids, valid + train);
    forall a, b | 0 <= a < |valid| && 0 <= b < |train| ensures valid[a] != train[b] {
      assert (valid + train)[a] == valid[a] && (valid + train)[|valid| + b] == train[b];
    }
    assert x in valid + train <==> x in valid || x in train;
  }

  method Split(ids: seq<nat>, fraction: real, draws: nat -> nat) returns (train: seq<nat>, valid: seq<nat>)
    ensures IsSplit(ids, train, valid, fraction) && valid + train == Shuffled(ids, draws)
  {
    var shuffled := Shuffled(ids, draws);
    ShuffledPermutes(ids, draws);
    PermutationFacts(shuffled, ids);
    var n := if ids == [] then 0 else ValidationCount(|ids|, fraction);
    if ids != [] {
      CountIsShare(|ids|, n, fraction);
    }
    valid, train := shuffled[..n], shuffled[n..];
    assert valid + train == shuffled;
  }

  /** The labelled images, in listing order. */
  function LabeledIds(listed: seq<Entry>): seq<nat> {
    if listed == [] then []
    else (if listed[0].labeled then [listed[0].id] else []) + LabeledIds(listed[1..])
  }

  lemma {:induction false} LabeledMembers(listed: seq<Entry>)
    ensures forall x :: x in LabeledIds(listed) <==>
      exists k :: 0 <= k < |listed| && listed[k] == Entry(x, true, listed[k].imageClass)
    ensures LabeledIds(listed) != [] <==> exists k :: 0 <= k < |listed| && listed[k].labeled
  {
    if listed != [] {
      LabeledMembers(listed[1..]);
      assert forall k :: 0 < k < |listed| ==> listed[k] == listed[1..][k - 1];
    }
  }

  /** A detection or segmentation split; refused without labelled images. */
  method BuildSplit(listed: seq<Entry>, fraction: real, draws: nat -> nat)
    returns (ok: bool, train: seq<nat>, valid: seq<nat>)
    ensures ok <==> exists k :: 0 <= k < |listed| && listed[k].labeled
    ensures ok ==> forall x :: x in valid + train <==> exists k :: 0 <= k < |listed| && listed[k] == Entry(x, true, listed[k].imageClass)
    ensures ok ==> IsSplit(LabeledIds(listed), train, valid, fraction) && valid + train == Shuffled(LabeledIds(listed), draws)
  {
    var ids := LabeledIds(listed);
    LabeledMembers(listed);
    if ids == [] {
      return false, [], [];
    }
    train, valid := Split(ids, fraction, draws);
    PermutationFacts(valid + train, ids);
    ok := true;
  }

  /** The images of one class, in listing order. */
  function OfClass(listed: seq<Entry>, c: nat): seq<nat> {
    if listed == [] then []
    else OfClass(listed[..|listed| - 1], c)
         + (if listed[|listed| - 1].imageClass == Some(c) then [listed[|listed| - 1].id] else [])
  }

  /** Images by class; entries without a class, or with one beyond the list, are left out. */
  method ByClass(listed: seq<Entry>, classes: nat) returns (groups: map<nat, seq<nat>>)
    ensures forall c: nat :: c in groups <==> c < classes && OfClass(listed, c) != []
    ensures forall c: nat :: c in groups ==> groups[c] == OfClass(listed, c)
  {
    groups := map[];
    for k := 0 to |listed|
      invariant forall c: nat :: c in groups <==> c < classes && OfClass(listed[..k], c) != []
      invariant forall c: nat :: c in groups ==> groups[c] == OfClass(listed[..k], c)
    {
      assert listed[..k + 1][..k] == listed[..k];
      var e := listed[k];
      if e.imageClass.Some? && e.imageClass.value < classes {
        var c := e.imageClass.value;
        groups := groups[c := (if c in groups then groups[c] else []) + [e.id]];
      }
    }
    assert listed[..|listed|] == listed;
  }

  /** One class: sorted by id, then split. */
  method SplitClass(ids: seq<nat>, fraction: real, draws: nat -> nat) returns (train: seq<nat>, valid: seq<nat>)
    ensures IsSplit(ids, train, valid, fraction) && valid + train == Shuffled(SortedIds(ids), draws)
  {
    SortedPermutes(ids);
    PermutationFacts(SortedIds(ids), ids);
    train, valid := Split(SortedIds(ids), fraction, draws);
  }

  /** Every class's images in one of its two parts. */
  ghost predicate AreSplits(groups: map<nat, seq<nat>>, train: map<nat, seq<nat>>, valid: map<nat, seq<nat>>,
                            fraction: real) {
    && train.Keys <= groups.Keys && train.Keys == valid.Keys
    && forall c :: c in train ==> IsSplit(groups[c], train[c], valid[c], fraction)
  }

  method SplitClasses(groups: map<nat, seq<nat>>, classes: nat, fraction: real, draws: nat -> nat -> nat)
    returns (train: map<nat, seq<nat>>, valid: map<nat, seq<nat>>)
    requires forall c :: c in groups ==> c < classes
    ensures AreSplits(groups, train, valid, fraction) && train.Keys == groups.Keys
  {
    train, valid := map[], map[];
    for c := 0 to classes
      invariant AreSplits(groups, train, valid, fraction)
      invariant forall j :: j in groups && j < c ==> j in train
    {
      if c in groups {
        var t, v := SplitClass(groups[c], fraction, draws(c));
        SplitsAdd(groups, train, valid, c, fraction, t, v);
        train, valid := train[c := t], valid[c := v];
      }
    }
  }

  lemma SplitsAdd(groups: map<nat, seq<nat>>, train: map<nat, seq<nat>>, valid: map<nat, seq<nat>>, c: nat,
                  fraction: real, t: seq<nat>, v: seq<nat>)
    requires AreSplits(groups, train, valid, fraction) && c in groups && IsSplit(groups[c], t, v, fraction)
    ensures AreSplits(groups, train[c := t], valid[c := v], fraction)
  {
  }

  /** Classes with two or more images, which are those with images in both parts. */
  ghost function Trainable(listed: seq<Entry>, classes: nat): set<nat> {
    set c: nat | 0 <= c < classes && |OfClass(listed, c)| >= 2
  }

  /** A classification split, class by class; refused unless two classes have two images each. */
  method BuildClassifySplit(listed: seq<Entry>, classes: nat, fraction: real, draws: nat -> nat -> nat)
    returns (ok: bool, train: map<nat, seq<nat>>, valid: map<nat, seq<nat>>)
    ensures train.Keys == valid.Keys
    ensures forall c: nat :: c in train <==> c < classes && OfClass(listed, c) != []
    ensures forall c: nat :: c in train ==> IsSplit(OfClass(listed, c), train[c], valid[c], fraction)
    ensures ok <==> |Trainable(listed, classes)| >= 2
  {
    var groups := ByClass(listed, classes);
    train, valid := SplitClasses(groups, classes, fraction, draws);
    var inBoth := set c | c in groups && train[c] != [] && valid[c] != [];
    forall c: nat ensures c in inBoth <==> c in Trainable(listed, classes) {
      assert c in groups ==> IsSplit(groups[c], train[c], valid[c], fraction);
    }
    assert inBoth == Trainable(listed, classes);
    ok := |inBoth| >= 2;
  }
}
