/** When the shards of a classification export stay even in size (training-service/service/dataset_service.py):
    images without a class go into no archive, so the promise depends on how many there are. */
module ShardBalance {
  import opened Basics
  import opened DatasetSplits

  ghost function Unclassed(listed: seq<nat>, classed: set<nat>): set<nat> {
    set x | x in listed && x !in classed
  }

  /** The archives of one export differ by at most one image. */
  ghost predicate Balanced(listed: seq<nat>, draws: nat -> nat, shards: nat, classed: set<nat>)
    requires shards > 0
  {
    forall i, j :: 0 <= i < shards && 0 <= j < shards ==>
      Held(listed, draws, i, shards, classed) <= Held(listed, draws, j, shards, classed) + 1
  }

  /** How many images the archive of one shard holds. */
  function Held(listed: seq<nat>, draws: nat -> nat, index: nat, shards: nat, classed: set<nat>): nat
    requires shards > 0
  {
    |InFolders(Shard(listed, draws, index, shards), classed)|
  }

  /** n images, u of them without a class: one shard, at most one image a shard, at most one image with a
      class, none without, or a single one without in shards of equal size. */
  predicate StaysEven(n: nat, u: nat, shards: nat)
    requires shards > 0
  {
    shards == 1 || n <= shards || n <= u + 1 || u == 0 || (u == 1 && n % shards == 0)
  }

  /** Whole rounds of dealing, and rounds begun. */
  function Rounds(len: nat, n: nat): nat
    requires n > 0
  {
    if len < n then 0 else 1 + Rounds(len - n, n)
  }

  function Begun(len: nat, n: nat): nat
    requires n > 0
  {
    if len == 0 then 0 else if len <= n then 1 else 1 + Begun(len - n, n)
  }

  lemma {:induction false} RoundsFacts(len: nat, n: nat)
    requires n > 0
    ensures Rounds(len, n) <= Begun(len, n) <= Rounds(len, n) + 1
    ensures Rounds(len, n) == Begun(len, n) <==> len % n == 0
    ensures n >= 2 ==> Rounds(len, n) + Begun(len, n) <= len
    ensures len > n ==> Rounds(len, n) >= 1 && Begun(len, n) >= 2
  {
    if len >= n {
      RoundsFacts(len - n, n);
      ModStep(len, n);
    } else if len > 0 {
      ModUnique(len, n, 0, len);
    }
  }

  /** A whole round dealt before leaves each shard one longer. */
  lemma {:induction false} StridedAfter(block: seq<nat>, rest: seq<nat>, j: nat, n: nat)
    requires n > 0 && |block| == n
    ensures Strided(block + rest, j + n, n) == Strided(rest, j, n)
    decreases |rest| - j
  {
    if j < |rest| {
      StridedAfter(block, rest, j + n, n);
      assert (block + rest)[j + n] == rest[j];
    }
  }

  /** The first shard takes part in every round begun, the last one in every whole round. */
  lemma {:induction false} EndLengths(s: seq<nat>, n: nat)
    requires n > 0
    ensures |Strided(s, 0, n)| == Begun(|s|, n) && |Strided(s, n - 1, n)| == Rounds(|s|, n)
  {
    if |s| >= n {
      EndLengths(s[n..], n);
      assert s == s[..n] + s[n..];
      StridedAfter(s[..n], s[n..], 0, n);
      StridedAfter(s[..n], s[n..], n - 1, n);
    }
  }

  lemma Associates(a: seq<nat>, b: seq<nat>, c: seq<nat>)
    ensures a + (b + c) == (a + b) + c
  {
  }

  lemma {:induction false} InFoldersAppend(a: seq<nat>, b: seq<nat>, classed: set<nat>)
    ensures InFolders(a + b, classed) == InFolders(a, classed) + InFolders(b, classed)
  {
    if a == [] {
      assert a + b == b;
    } else {
      InFoldersAppend(a[1..], b, classed);
      assert (a + b)[1..] == a[1..] + b && (a + b)[0] == a[0];
      var first := if a[0] in classed then [a[0]] else [];
      Associates(first, InFolders(a[1..], classed), InFolders(b, classed));
    }
  }

  lemma {:induction false} InFoldersAll(s: seq<nat>, classed: set<nat>)
    ensures (forall x :: x in s ==> x in classed) ==> InFolders(s, classed) == s
    ensures (forall x :: x in s ==> x !in classed) ==> InFolders(s, classed) == []
    ensures |InFolders(s, classed)| <= |s|
  {
    if s != [] {
      InFoldersAll(s[1..], classed);
    }
  }

  /** Images with a class and images without make up the list. */
  lemma {:induction false} InFoldersSplit(s: seq<nat>, classed: set<nat>, others: set<nat>)
    requires forall x :: x in s ==> (x in others <==> x !in classed)
    ensures SameImages(InFolders(s, others) + InFolders(s, classed), s)
    ensures |InFolders(s, others)| + |InFolders(s, classed)| == |s|
  {
    if s != [] {
      InFoldersSplit(s[1..], classed, others);
      assert s == [s[0]] + s[1..];
    }
  }

  lemma {:induction false} InFoldersDistinct(s: seq<nat>, classed: set<nat>)
    requires Distinct(s)
    ensures Distinct(InFolders(s, classed))
  {
    if s != [] {
      InFoldersDistinct(s[1..], classed);
      InFoldersMembers(s[1..], classed, s[0]);
      assert s[0] !in s[1..];
    }
  }

  lemma {:induction false} DistinctSize(s: seq<nat>, t: set<nat>)
    requires Distinct(s) && forall x :: x in s <==> x in t
    ensures |s| == |t|
  {
    if s != [] {
      assert s == [s[0]] + s[1..] && s[0] !in s[1..];
      DistinctSize(s[1..], t - {s[0]});
    } else {
      assert t == {};
    }
  }

  /** The images without a class, counted. */
  lemma UnclassedCount(listed: seq<nat>, classed: set<nat>)
    requires Distinct(listed)
    ensures var others := Unclassed(listed, classed);
            && |InFolders(listed, others)| == |others| && |InFolders(listed, classed)| == |listed| - |others|
  {
    var others := Unclassed(listed, classed);
    InFoldersSplit(listed, classed, others);
    InFoldersDistinct(listed, others);
    forall x ensures x in InFolders(listed, others) <==> x in others {
      InFoldersMembers(listed, others, x);
    }
    DistinctSize(InFolders(listed, others), others);
  }

  lemma InFoldersPermutes(a: seq<nat>, b: seq<nat>, classed: set<nat>)
    requires SameImages(a, b) && Distinct(a)
    ensures |InFolders(a, classed)| == |InFolders(b, classed)|
  {
    PermutationFacts(a, b);
    PermutationDistinct(a, b);
    var t := set x | x in a && x in classed;
    forall x ensures (x in InFolders(a, classed) <==> x in t) && (x in InFolders(b, classed) <==> x in t) {
      InFoldersMembers(a, classed, x);
      InFoldersMembers(b, classed, x);
    }
    InFoldersDistinct(a, classed);
    InFoldersDistinct(b, classed);
    DistinctSize(InFolders(a, classed), t);
    DistinctSize(InFolders(b, classed), t);
  }

  /** A shard holds no more images of a kind than the whole. */
  lemma {:induction false} ShardHolds(s: seq<nat>, i: nat, n: nat, classed: set<nat>)
    requires n > 0 && i <= |s|
    ensures |InFolders(Strided(s, i, n), classed)| <= |InFolders(s[i..], classed)|
    decreases |s| - i
  {
    if i + n <= |s| {
      ShardHolds(s, i + n, n, classed);
      InFoldersAppend([s[i]], s[i + 1..i + n], classed);
      InFoldersAppend(s[i..i + n], s[i + n..], classed);
      assert s[i..i + n] == [s[i]] + s[i + 1..i + n] && s[i..] == s[i..i + n] + s[i + n..];
      assert Strided(s, i, n)[1..] == Strided(s, i + n, n);
    } else if i < |s| {
      InFoldersAppend([s[i]], s[i + 1..], classed);
      assert s[i..] == [s[i]] + s[i + 1..];
    }
  }

  /** All shards of an export: sizes, and how many of the images without a class each can hold. */
  lemma HeldBounds(listed: seq<nat>, draws: nat -> nat, i: nat, shards: nat, classed: set<nat>)
    requires Distinct(listed) && i < shards
    ensures var size := |Shard(listed, draws, i, shards)|;
            var held := Held(listed, draws, i, shards, classed);
            var u := |Unclassed(listed, classed)|;
            && held <= size <= held + u && held <= |listed| - u
            && Rounds(|listed|, shards) <= size <= Begun(|listed|, shards)
  {
    DealtDistinct(listed, draws);
    var dealt := Shuffled(SortedIds(listed), draws);
    var shard := Strided(dealt, i, shards);
    var others := Unclassed(listed, classed);
    EndLengths(dealt, shards);
    StridedLengths(dealt, 0, i, shards);
    StridedLengths(dealt, i, shards - 1, shards);
    forall x | x in shard ensures x in others <==> x !in classed {
      StridedSubset(dealt, i, shards, x);
    }
    InFoldersSplit(shard, classed, others);
    UnclassedCount(listed, classed);
    InFoldersPermutes(dealt, listed, classed);
    InFoldersPermutes(dealt, listed, others);
    DealtHolds(dealt, i, shards, classed);
    DealtHolds(dealt, i, shards, others);
  }

  lemma DealtHolds(dealt: seq<nat>, i: nat, shards: nat, classed: set<nat>)
    requires i < shards
    ensures |InFolders(Strided(dealt, i, shards), classed)| <= |InFolders(dealt, classed)|
  {
    if i <= |dealt| {
      ShardHolds(dealt, i, shards, classed);
      InFoldersAppend(dealt[..i], dealt[i..], classed);
      assert dealt == dealt[..i] + dealt[i..];
    }
  }

  /** When nothing can go wrong, no shuffle makes it. */
  lemma EvenWhenever(listed: seq<nat>, draws: nat -> nat, shards: nat, classed: set<nat>)
    requires Distinct(listed) && shards > 0 && StaysEven(|listed|, |Unclassed(listed, classed)|, shards)
    ensures Balanced(listed, draws, shards, classed)
  {
    RoundsFacts(|listed|, shards);
    forall i, j | 0 <= i < shards && 0 <= j < shards
      ensures Held(listed, draws, i, shards, classed) <= Held(listed, draws, j, shards, classed) + 1
    {
      HeldBounds(listed, draws, i, shards, classed);
      HeldBounds(listed, draws, j, shards, classed);
    }
  }

  /** The pieces a dealing takes: what the first shard gets, the shards between, and the last shard. */
  predicate Fits(f: nat, m: nat, z: nat, n: nat)
    requires n >= 2
    decreases z
  {
    if z == 0 then f <= 1 && (f == 0 ==> m == 0) && m <= n - 2
    else f >= 1 && m >= n - 2 && Fits(f - 1, m - (n - 2), z - 1, n)
  }

  lemma {:induction false} FitsRounds(len: nat, n: nat)
    requires n >= 2
    ensures Rounds(len, n) + Begun(len, n) <= len
    ensures Fits(Begun(len, n), len - Rounds(len, n) - Begun(len, n), Rounds(len, n), n)
  {
    RoundsFacts(len, n);
    if len >= n {
      FitsRounds(len - n, n);
    }
  }

  /** An order whose first and last shard come out as given. */
  function Weave(f: seq<nat>, m: seq<nat>, z: seq<nat>, n: nat): seq<nat>
    requires n >= 2 && Fits(|f|, |m|, |z|, n)
    decreases |z|
  {
    if z == [] then f + m
    else [f[0]] + m[..n - 2] + [z[0]] + Weave(f[1..], m[n - 2..], z[1..], n)
  }

  lemma {:induction false} WeaveShards(f: seq<nat>, m: seq<nat>, z: seq<nat>, n: nat)
    requires n >= 2 && Fits(|f|, |m|, |z|, n)
    ensures Strided(Weave(f, m, z, n), 0, n) == f && Strided(Weave(f, m, z, n), n - 1, n) == z
    decreases |z|
  {
    if z != [] {
      var rest := Weave(f[1..], m[n - 2..], z[1..], n);
      var block := [f[0]] + m[..n - 2] + [z[0]];
      WeaveShards(f[1..], m[n - 2..], z[1..], n);
      StridedAfter(block, rest, 0, n);
      StridedAfter(block, rest, n - 1, n);
      assert (block + rest)[0] == f[0] && (block + rest)[n - 1] == z[0];
    }
  }

  /** How often an image occurs. */
  function Count(s: seq<nat>, x: nat): nat {
    if s == [] then 0 else (if s[0] == x then 1 else 0) + Count(s[1..], x)
  }

  lemma {:induction false} CountAppend(a: seq<nat>, b: seq<nat>, x: nat)
    ensures Count(a + b, x) == Count(a, x) + Count(b, x)
  {
    if a == [] {
      assert a + b == b;
    } else {
      CountAppend(a[1..], b, x);
      assert (a + b)[1..] == a[1..] + b;
    }
  }

  lemma CountParts(s: seq<nat>, k: nat, x: nat)
    requires k <= |s|
    ensures Count(s, x) == Count(s[..k], x) + Count(s[k..], x)
  {
    CountAppend(s[..k], s[k..], x);
    assert s == s[..k] + s[k..];
  }

  lemma {:induction false} CountMembers(s: seq<nat>, x: nat)
    ensures x in s <==> Count(s, x) >= 1
    ensures Distinct(s) ==> Count(s, x) <= 1
  {
    if s != [] {
      CountMembers(s[1..], x);
      assert s == [s[0]] + s[1..];
      assert Distinct(s) ==> s[0] !in s[1..];
    }
  }

  lemma {:induction false} CountedDistinct(s: seq<nat>)
    requires forall x :: Count(s, x) <= 1
    ensures Distinct(s)
  {
    if s != [] {
      forall x ensures Count(s[1..], x) <= 1 {
        assert Count(s, x) <= 1;
      }
      CountedDistinct(s[1..]);
      CountMembers(s[1..], s[0]);
      assert Count(s, s[0]) <= 1;
    }
  }

  lemma {:induction false} WeaveCounts(f: seq<nat>, m: seq<nat>, z: seq<nat>, n: nat, x: nat)
    requires n >= 2 && Fits(|f|, |m|, |z|, n)
    ensures Count(Weave(f, m, z, n), x) == Count(f, x) + Count(m, x) + Count(z, x)
    ensures |Weave(f, m, z, n)| == |f| + |m| + |z|
    decreases |z|
  {
    if z == [] {
      CountAppend(f, m, x);
    } else {
      var rest := Weave(f[1..], m[n - 2..], z[1..], n);
      WeaveCounts(f[1..], m[n - 2..], z[1..], n, x);
      CountParts(m, n - 2, x);
      CountAppend([f[0]], m[..n - 2], x);
      CountAppend([f[0]] + m[..n - 2], [z[0]], x);
      CountAppend([f[0]] + m[..n - 2] + [z[0]], rest, x);
      assert Count([f[0]], x) == (if f[0] == x then 1 else 0) && Count([z[0]], x) == (if z[0] == x then 1 else 0);
    }
  }

  /** The same distinct images in another order. */
  ghost predicate Rearranged(a: seq<nat>, b: seq<nat>) {
    Distinct(a) && Distinct(b) && |a| == |b| && forall x :: x in a <==> x in b
  }

  lemma {:induction false} SameDraws(s: seq<nat>, i: nat, a: nat -> nat, b: nat -> nat)
    requires i < |s| && forall k :: 0 <= k <= i ==> a(k) == b(k)
    ensures ShuffleFrom(s, i, a) == ShuffleFrom(s, i, b)
    decreases i
  {
    if i > 0 {
      assert Drawn(a, i) == Drawn(b, i);
      SameDraws(Swapped(s, i, Drawn(a, i)), i - 1, a, b);
    }
  }

  /** The shuffle reaches every order. */
  lemma {:induction false} Unshuffle(s: seq<nat>, target: seq<nat>, i: nat) returns (draws: nat -> nat)
    requires Rearranged(s, target) && i < |s|
    requires forall k :: i < k < |s| ==> s[k] == target[k]
    ensures ShuffleFrom(s, i, draws) == target
    decreases i
  {
    var j := Source(s, target, i);
    if i == 0 {
      draws := Drawing((k: nat) => 0, 0, 0);
      assert s == target;
    } else {
      var swapped := Swapped(s, i, j);
      SwapKeeps(s, target, i, j);
      var rest := Unshuffle(swapped, target, i - 1);
      draws := Drawing(rest, i, j);
      DrawOnce(s, target, i, j, draws, rest);
    }
  }

  function Drawing(rest: nat -> nat, i: nat, j: nat): nat -> nat {
    (k: nat) => if k == i then j else rest(k)
  }

  lemma DrawOnce(s: seq<nat>, target: seq<nat>, i: nat, j: nat, draws: nat -> nat, rest: nat -> nat)
    requires 0 < i < |s| && j <= i && draws == Drawing(rest, i, j)
    requires ShuffleFrom(Swapped(s, i, j), i - 1, rest) == target
    ensures ShuffleFrom(s, i, draws) == target
  {
    DrawnIs(draws, i, j);
    SameDraws(Swapped(s, i, j), i - 1, draws, rest);
  }

  lemma DrawnIs(draws: nat -> nat, i: nat, j: nat)
    requires draws(i) == j <= i
    ensures Drawn(draws, i) == j
  {
    ModUnique(j, i + 1, 0, j);
  }

  /** Where the element wanted at position i is: not among those already placed. */
  lemma Source(s: seq<nat>, target: seq<nat>, i: nat) returns (j: nat)
    requires Rearranged(s, target) && i < |s|
    requires forall k :: i < k < |s| ==> s[k] == target[k]
    ensures j <= i && s[j] == target[i]
  {
    assert target[i] in s;
    j :| 0 <= j < |s| && s[j] == target[i];
  }

  lemma SwapKeeps(s: seq<nat>, target: seq<nat>, i: nat, j: nat)
    requires Rearranged(s, target) && j <= i < |s| && s[j] == target[i]
    requires forall k :: i < k < |s| ==> s[k] == target[k]
    ensures Rearranged(Swapped(s, i, j), target)
    ensures forall k :: i <= k < |s| ==> Swapped(s, i, j)[k] == target[k]
  {
    var t := Swapped(s, i, j);
    assert forall k :: 0 <= k < |s| ==> t[k] == s[if k == i then j else if k == j then i else k];
    assert forall k :: 0 <= k < |s| ==> s[k] == t[if k == i then j else if k == j then i else k];
  }

  /** Otherwise some shuffle starves the last shard and feeds the first. */
  lemma UnevenSomewhere(listed: seq<nat>, shards: nat, classed: set<nat>) returns (draws: nat -> nat)
    requires Distinct(listed) && shards > 0 && !StaysEven(|listed|, |Unclassed(listed, classed)|, shards)
    ensures !Balanced(listed, draws, shards, classed)
  {
    var len, u := |listed|, |Unclassed(listed, classed)|;
    UnclassedCount(listed, classed);
    Starves(len, u, shards, Rounds(len, shards), Begun(len, shards));
    draws := Starved(listed, shards, classed, len, u, Rounds(len, shards), Begun(len, shards));
    assert Held(listed, draws, 0, shards, classed) > Held(listed, draws, shards - 1, shards, classed) + 1;
  }

  /** Draws under which the last shard holds as few and the first as many as there can be. */
  lemma Starved(listed: seq<nat>, shards: nat, classed: set<nat>, len: nat, u: nat, q: nat, b: nat) returns (draws: nat -> nat)
    requires Distinct(listed) && shards >= 2 && len == |listed| > shards && u == |Unclassed(listed, classed)|
    requires q == Rounds(len, shards) && b == Begun(len, shards) && q + b <= len
    ensures Held(listed, draws, 0, shards, classed) == if len - b <= u then len - u else b
    ensures Held(listed, draws, shards - 1, shards, classed) == if q <= u then 0 else q - u
  {
    var x := WithoutFirst(listed, classed);
    assert HeldAt(x, q, u, classed) && HeldAt(x, len - b, u, classed);
    draws := StarvingDraws(listed, shards, x);
  }

  /** The counts behind it. */
  lemma Starves(len: nat, u: nat, shards: nat, q: nat, b: nat)
    requires shards > 0 && u <= len && !StaysEven(len, u, shards)
    requires q == Rounds(len, shards) && b == Begun(len, shards)
    ensures q + b <= len
    ensures (if len - b <= u then len - u else b) > (if q <= u then 0 else q - u) + 1
  {
    RoundsFacts(len, shards);
  }

  /** Draws that give the last shard the beginning of an order and the first shard its end. */
  lemma StarvingDraws(listed: seq<nat>, shards: nat, x: seq<nat>) returns (draws: nat -> nat)
    requires Rearranged(x, listed) && shards >= 2 && |listed| > shards
    requires Rounds(|listed|, shards) + Begun(|listed|, shards) <= |listed|
    ensures Shard(listed, draws, shards - 1, shards) == x[..Rounds(|listed|, shards)]
    ensures Shard(listed, draws, 0, shards) == x[|listed| - Begun(|listed|, shards)..]
  {
    var len := |listed|;
    var q, b := Rounds(len, shards), Begun(len, shards);
    FitsRounds(len, shards);
    var z, m, f := x[..q], x[q..len - b], x[len - b..];
    WeaveShards(f, m, z, shards);
    WovenRearranged(listed, x, q, len - b, shards);
    draws := ReachOrder(listed, Weave(f, m, z, shards));
  }

  lemma ReachOrder(listed: seq<nat>, target: seq<nat>) returns (draws: nat -> nat)
    requires Rearranged(listed, target) && listed != []
    ensures Shuffled(SortedIds(listed), draws) == target
  {
    SortedAscends(listed);
    PermutationFacts(SortedIds(listed), listed);
    draws := Unshuffle(SortedIds(listed), target, |listed| - 1);
  }

  lemma WovenRearranged(listed: seq<nat>, x: seq<nat>, i: nat, j: nat, n: nat)
    requires Rearranged(x, listed) && i <= j <= |x| && n >= 2 && Fits(|x| - j, j - i, i, n)
    ensures Rearranged(listed, Weave(x[j..], x[i..j], x[..i], n))
  {
    var w := Weave(x[j..], x[i..j], x[..i], n);
    forall y ensures Count(w, y) == Count(x, y) && Count(x, y) <= 1 && (y in w <==> y in x) {
      WeaveCounts(x[j..], x[i..j], x[..i], n, y);
      CountParts(x, j, y);
      CountParts(x[..j], i, y);
      assert x[..j][..i] == x[..i] && x[..j][i..] == x[i..j];
      CountMembers(x, y);
      CountMembers(w, y);
    }
    WeaveCounts(x[j..], x[i..j], x[..i], n, 0);
    CountedDistinct(w);
  }

  /** Of images without a class before images with one: how many of the first q and from there on. */
  lemma HeldAround(a: seq<nat>, c: seq<nat>, q: nat, classed: set<nat>)
    requires q <= |a| + |c|
    requires (forall x :: x in a ==> x !in classed) && (forall x :: x in c ==> x in classed)
    ensures |InFolders((a + c)[..q], classed)| == (if q <= |a| then 0 else q - |a|)
    ensures |InFolders((a + c)[q..], classed)| == (if q <= |a| then |c| else |a| + |c| - q)
  {
    if q <= |a| {
      assert (a + c)[..q] == a[..q] && (a + c)[q..] == a[q..] + c;
      InFoldersAll(a[..q], classed);
      InFoldersAppend(a[q..], c, classed);
      InFoldersAll(a[q..], classed);
      InFoldersAll(c, classed);
    } else {
      var k := q - |a|;
      assert (a + c)[..q] == a + c[..k] && (a + c)[q..] == c[k..];
      InFoldersAppend(a, c[..k], classed);
      InFoldersAll(a, classed);
      InFoldersAll(c[..k], classed);
      InFoldersAll(c[k..], classed);
    }
  }

  /** What both sides of position q hold when u images without a class come first. */
  ghost predicate HeldAt(x: seq<nat>, q: nat, u: nat, classed: set<nat>)
    requires q <= |x|
  {
    && |InFolders(x[..q], classed)| == (if q <= u then 0 else q - u)
    && |InFolders(x[q..], classed)| == (if q <= u then |x| - u else |x| - q)
  }

  /** The images without a class first, then those with one. */
  lemma WithoutFirst(listed: seq<nat>, classed: set<nat>) returns (x: seq<nat>)
    requires Distinct(listed)
    ensures Rearranged(x, listed)
    ensures forall q :: 0 <= q <= |x| ==> HeldAt(x, q, |Unclassed(listed, classed)|, classed)
  {
    var others := Unclassed(listed, classed);
    var a, c := InFolders(listed, others), InFolders(listed, classed);
    x := a + c;
    InFoldersSplit(listed, classed, others);
    PermutationFacts(x, listed);
    PermutationDistinct(listed, x);
    UnclassedCount(listed, classed);
    Kinds(listed, classed);
    forall q | 0 <= q <= |x| ensures HeldAt(x, q, |others|, classed) {
      HeldAround(a, c, q, classed);
    }
  }

  lemma Kinds(listed: seq<nat>, classed: set<nat>)
    ensures forall x :: x in InFolders(listed, Unclassed(listed, classed)) ==> x !in classed
    ensures forall x :: x in InFolders(listed, classed) ==> x in classed
  {
    forall x ensures x in InFolders(listed, Unclassed(listed, classed)) ==> x !in classed {
      InFoldersMembers(listed, Unclassed(listed, classed), x);
    }
    forall x ensures x in InFolders(listed, classed) ==> x in classed {
      InFoldersMembers(listed, classed, x);
    }
  }

  /** The archives of a classification dataset differ by at most one image under every seed if and only
      if the counts allow nothing else. */
  lemma FoldersEvenIff(listed: seq<nat>, shards: nat, classed: set<nat>)
    requires Distinct(listed) && shards > 0
    ensures (forall draws: nat -> nat :: Balanced(listed, draws, shards, classed))
            <==> StaysEven(|listed|, |Unclassed(listed, classed)|, shards)
  {
    if StaysEven(|listed|, |Unclassed(listed, classed)|, shards) {
      forall draws: nat -> nat ensures Balanced(listed, draws, shards, classed) {
        EvenWhenever(listed, draws, shards, classed);
      }
    } else {
      var draws := UnevenSomewhere(listed, shards, classed);
    }
  }
}
