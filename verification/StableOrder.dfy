/** The processing order of both merges: descending score, ties by input order
    (what a stable argsort of the negated scores yields). */
module StableOrder {

  /** Index i is processed before index j. */
  predicate Ahead(scores: seq<real>, i: nat, j: nat)
    requires i < |scores| && j < |scores|
  {
    scores[i] > scores[j] || (scores[i] == scores[j] && i < j)
  }

  predicate InRange(list: seq<nat>, n: nat) {
    forall k :: 0 <= k < |list| ==> list[k] < n
  }

  function Elements(list: seq<nat>): set<nat> {
    set k | k in list
  }

  /** Earlier entries are ahead of later ones; as Ahead is irreflexive, no entry repeats. */
  ghost predicate Sorted(scores: seq<real>, order: seq<nat>)
    requires InRange(order, |scores|)
  {
    forall a, b :: 0 <= a < b < |order| ==> Ahead(scores, order[a], order[b])
  }

  /** order lists the indices below n, each once, in processing order. */
  ghost predicate IsOrder(scores: seq<real>, n: nat, order: seq<nat>)
    requires n <= |scores|
  {
    && |order| == n
    && InRange(order, n)
    && (forall i: nat :: i < n ==> i in order)
    && Sorted(scores, order)
  }

  function Insert(scores: seq<real>, order: seq<nat>, i: nat): (r: seq<nat>)
    requires i < |scores| && InRange(order, |scores|)
    ensures |r| == |order| + 1
    ensures InRange(r, |scores|)
    ensures multiset(r) == multiset(order) + multiset{i}
  {
    if order == [] then [i]
    else if Ahead(scores, i, order[0]) then [i] + order
    else
      assert order == [order[0]] + order[1..];
      [order[0]] + Insert(scores, order[1..], i)
  }

  function Argsort(scores: seq<real>, n: nat): (order: seq<nat>)
    requires n <= |scores|
    ensures InRange(order, n)
    ensures |order| == n
  {
    if n == 0 then []
    else
      var shorter := Argsort(scores, n - 1);
      var r := Insert(scores, shorter, n - 1);
      assert forall k :: 0 <= k < |r| ==> r[k] in multiset(r);
      r
  }

  lemma {:induction false} InsertSorted(scores: seq<real>, order: seq<nat>, i: nat)
    requires i < |scores| && InRange(order, |scores|)
    requires Sorted(scores, order) && i !in order
    ensures Sorted(scores, Insert(scores, order, i))
  {
    if order == [] || Ahead(scores, i, order[0]) {
    } else {
      InsertSorted(scores, order[1..], i);
      var tail := Insert(scores, order[1..], i);
      forall b | 0 <= b < |tail| ensures Ahead(scores, order[0], tail[b]) {
        assert tail[b] in multiset(tail);
        assert tail[b] == i || tail[b] in order[1..];
      }
    }
  }

  lemma InsertKeeps(scores: seq<real>, order: seq<nat>, i: nat, x: nat)
    requires i < |scores| && InRange(order, |scores|)
    ensures x in Insert(scores, order, i) <==> x == i || x in order
  {
    assert x in multiset(Insert(scores, order, i)) <==> x in multiset(order) + multiset{i};
  }

  lemma InsertIsOrder(scores: seq<real>, n: nat, shorter: seq<nat>)
    requires n < |scores| && IsOrder(scores, n, shorter)
    ensures IsOrder(scores, n + 1, Insert(scores, shorter, n))
  {
    InsertSorted(scores, shorter, n);
    var order := Insert(scores, shorter, n);
    forall i: nat | i < n + 1 ensures i in order {
      InsertKeeps(scores, shorter, n, i);
    }
    forall k | 0 <= k < |order| ensures order[k] < n + 1 {
      InsertKeeps(scores, shorter, n, order[k]);
    }
  }

  lemma ArgsortStep(scores: seq<real>, n: nat, shorter: seq<nat>) returns (order: seq<nat>)
    requires 0 < n <= |scores| && shorter == Argsort(scores, n - 1) && IsOrder(scores, n - 1, shorter)
    ensures order == Argsort(scores, n) && IsOrder(scores, n, order)
  {
    order := Insert(scores, shorter, n - 1);
    InsertIsOrder(scores, n - 1, shorter);
  }

  /** The argsort is the stable descending order of all the scores. */
  lemma {:induction false} ArgsortIsOrder(scores: seq<real>, n: nat)
    requires n <= |scores|
    ensures IsOrder(scores, n, Argsort(scores, n))
  {
    if n > 0 {
      ArgsortIsOrder(scores, n - 1);
      var order := ArgsortStep(scores, n, Argsort(scores, n - 1));
    }
  }

  /** There is only one such order, so nothing depends on how it is computed. */
  lemma {:induction false} OrderUnique(scores: seq<real>, n: nat, a: seq<nat>, b: seq<nat>)
    requires n <= |scores| && IsOrder(scores, n, a) && IsOrder(scores, n, b)
    ensures a == b
  {
    forall k | 0 <= k < n ensures a[k] == b[k] {
      OrderAgreesAt(scores, n, a, b, k);
    }
  }

  lemma {:induction false} OrderAgreesAt(scores: seq<real>, n: nat, a: seq<nat>, b: seq<nat>, k: nat)
    requires n <= |scores| && IsOrder(scores, n, a) && IsOrder(scores, n, b) && k < n
    ensures a[k] == b[k]
    decreases k
  {
    forall m | 0 <= m < k ensures a[m] == b[m] {
      OrderAgreesAt(scores, n, a, b, m);
    }
    // Each of the two entries sits at or after position k in the other order.
    assert a[k] in b && b[k] in a;
    var p :| 0 <= p < n && b[p] == a[k];
    var q :| 0 <= q < n && a[q] == b[k];
    assert p >= k && q >= k;
  }

  /** Where an order lists an index. */
  lemma PositionOf(scores: seq<real>, order: seq<nat>, i: nat) returns (p: nat)
    requires IsOrder(scores, |scores|, order) && i < |scores|
    ensures p < |order| && order[p] == i
  {
    assert i in order;
    p :| 0 <= p < |order| && order[p] == i;
  }

  lemma {:induction false} SortedLength(scores: seq<real>, list: seq<nat>)
    requires InRange(list, |scores|) && Sorted(scores, list)
    ensures |Elements(list)| == |list|
  {
    if list == [] {
    } else {
      var last := list[|list| - 1];
      var front := list[..|list| - 1];
      SortedLength(scores, front);
      assert last !in front;
      assert Elements(list) == Elements(front) + {last};
    }
  }
}
