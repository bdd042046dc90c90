/** The versioned event bus with bounded replay (os-base/conecsa_common/events.py), the gateway's copy
    of it (api-gateway/gateway/events.py), and the subscriber loop that feeds versions back
    (inference-service/api/inference_grpc.py). */
module EventBus {
  import opened Basics

  /** What a subscriber receives: one invalidation, or a full reconciliation. */
  datatype Message = Invalidation(version: nat, body: string) | Snapshot(version: nat)

  // ── what the buffer and a wait mean, over the history of published bodies ─────────

  /** The invalidations after version from, in order; body number v is published[v - 1]. */
  function Span(published: seq<string>, from: nat): seq<Message>
    decreases |published| - from
  {
    if from >= |published| then []
    else [Invalidation(from + 1, published[from])] + Span(published, from + 1)
  }

  function Buffered(published: seq<string>, limit: nat): nat {
    if |published| < limit then |published| else limit
  }

  /** The oldest version not replayable: everything after it is buffered. */
  function Floor(published: seq<string>, limit: nat): nat {
    |published| - Buffered(published, limit)
  }

  /** What a wait owes a subscriber at version last: exactly the missing invalidations while they
      are all buffered, else one snapshot. */
  function Owed(published: seq<string>, limit: nat, last: int): seq<Message> {
    if last == |published| then []
    else if Floor(published, limit) <= last < |published| then Span(published, last)
    else [Snapshot(|published|)]
  }

  /** The comprehension both buses use. */
  function Newer(events: seq<Message>, last: int): seq<Message> {
    if events == [] then []
    else if events[0].version > last then [events[0]] + Newer(events[1..], last)
    else Newer(events[1..], last)
  }

  /** A deque append with a maximum length. */
  function Push(events: seq<Message>, e: Message, limit: nat): seq<Message> {
    var all := events + [e];
    if |all| > limit then all[|all| - limit..] else all
  }

  lemma {:induction false} SpanAt(published: seq<string>, from: nat, k: nat)
    requires from <= |published|
    ensures |Span(published, from)| == |published| - from
    ensures k < |published| - from ==>
      Span(published, from)[k] == Invalidation(from + k + 1, published[from + k])
    decreases |published| - from
  {
    if from < |published| {
      SpanAt(published, from + 1, if k == 0 then 0 else k - 1);
    }
  }

  lemma {:induction false} SpanNewer(published: seq<string>, from: nat, last: int)
    requires from <= |published|
    ensures last <= from ==> Newer(Span(published, from), last) == Span(published, from)
    ensures from <= last ==> Newer(Span(published, from), last) == Span(published, last)
    decreases |published| - from
  {
    if from < |published| {
      SpanNewer(published, from + 1, last);
    }
  }

  lemma {:induction false} SpanPublish(published: seq<string>, body: string, from: nat)
    requires from <= |published|
    ensures Span(published + [body], from) == Span(published, from) + [Invalidation(|published| + 1, body)]
    decreases |published| - from
  {
    if from < |published| {
      SpanPublish(published, body, from + 1);
      assert (published + [body])[from] == published[from];
    } else {
      assert Span(published + [body], from + 1) == [];
    }
  }

  /** The bounded deque always holds the newest versions up to its limit. */
  lemma PushKeepsNewest(published: seq<string>, body: string, limit: nat)
    ensures var after := published + [body];
            Push(Span(published, Floor(published, limit)), Invalidation(|after|, body), limit)
              == Span(after, Floor(after, limit))
  {
    var from := Floor(published, limit);
    SpanPublish(published, body, from);
    SpanAt(published, from, 0);
    var after := published + [body];
    var all := Span(after, from);
    if |all| > limit {
      assert |all| == limit + 1 && all[|all| - limit..] == all[1..] == Span(after, from + 1);
    }
  }

  // ── the bus ────────────────────────────────────────────────────────────────

  class Bus {
    const historyLimit: nat
    var version: nat
    var events: seq<Message>
    var statsVersion: nat
    var stats: string
    ghost var published: seq<string>

    ghost predicate Valid()
      reads this
    {
      version == |published| && events == Span(published, Floor(published, historyLimit))
    }

    constructor (historyLimit: nat)
      ensures Valid() && this.historyLimit == historyLimit && published == [] && statsVersion == 0
    {
      this.historyLimit := historyLimit;
      version, events, statsVersion, stats, published := 0, [], 0, "", [];
    }

    method Publish(body: string) returns (event: Message)
      requires Valid()
      modifies this`version, this`events, this`published
      ensures Valid() && published == old(published) + [body]
      ensures event == Invalidation(|published|, body)
    {
      version := version + 1;
      event := Invalidation(version, body);
      PushKeepsNewest(published, body, historyLimit);
      events := Push(events, event, historyLimit);
      published := published + [body];
    }

    /** Stats never enter the replay buffer, so they cannot evict invalidations. */
    method PublishStats(value: string)
      requires Valid()
      modifies this`statsVersion, this`stats
      ensures Valid() && statsVersion == old(statsVersion) + 1 && stats == value
    {
      statsVersion := statsVersion + 1;
      stats := value;
    }

    method TakeSnapshot() returns (now: nat, event: Message)
      requires Valid()
      ensures now == |published| && event == Snapshot(now)
    {
      return version, Snapshot(version);
    }

    /** The state in which a wait ends, by a notification or by its timeout. */
    method WaitForChanges(last: int, lastStats: Option<nat>)
      returns (now: nat, messages: seq<Message>, statsNow: Option<nat>, newStats: Option<string>, changed: bool)
      requires Valid()
      ensures now == |published| && messages == Owed(published, historyLimit, last)
      ensures statsNow == if lastStats.Some? then Some(statsVersion) else None
      ensures newStats == if lastStats.Some? && lastStats.value != statsVersion then Some(stats) else None
      ensures changed <==> messages != [] || newStats.Some?
    {
      changed := version != last || (lastStats.Some? && statsVersion != lastStats.value);
      statsNow := if lastStats.Some? then Some(statsVersion) else None;
      if !changed {
        return version, [], statsNow, None, false;
      }
      messages := [];
      ghost var from := Floor(published, historyLimit);
      SpanNewer(published, from, last);
      SpanAt(published, from, 0);
      if 0 <= last < |published| {
        SpanAt(published, last, 0);
      }
      if version != last {
        messages := Newer(events, last);
        var oldest := if events != [] then events[0].version else version;
        if messages == [] || oldest > last + 1 {
          messages := [Snapshot(version)];
        }
      }
      newStats := if lastStats.Some? && statsVersion != lastStats.value then Some(stats) else None;
      now := version;
    }

    /** The gateway's copy: a snapshot only when nothing newer is buffered. */
    method WaitForChangesGateway(last: int, lastStats: Option<nat>)
      returns (now: nat, messages: seq<Message>, statsNow: Option<nat>, newStats: Option<string>, changed: bool)
      requires Valid()
      ensures now == |published| && messages == Relayed(published, historyLimit, last)
      ensures statsNow == if lastStats.Some? then Some(statsVersion) else None
      ensures newStats == if lastStats.Some? && lastStats.value != statsVersion then Some(stats) else None
      ensures changed <==> messages != [] || newStats.Some?
    {
      changed := version != last || (lastStats.Some? && statsVersion != lastStats.value);
      statsNow := if lastStats.Some? then Some(statsVersion) else None;
      if !changed {
        return version, [], statsNow, None, false;
      }
      messages := [];
      ghost var from := Floor(published, historyLimit);
      SpanNewer(published, from, last);
      SpanAt(published, from, 0);
      if 0 <= last < |published| {
        SpanAt(published, last, 0);
      }
      if version != last {
        messages := Newer(events, last);
        if messages == [] {
          messages := [Snapshot(version)];
        }
      }
      newStats := if lastStats.Some? && statsVersion != lastStats.value then Some(stats) else None;
      now := version;
    }
  }

  // ── the gateway's copy against the shared bus ──────────────────────────────────

  /** What the gateway's wait delivers: whatever part of the gap is still buffered. */
  function Relayed(published: seq<string>, limit: nat, last: int): seq<Message> {
    var floor := Floor(published, limit);
    if last == |published| then []
    else if last < |published| && floor < |published| then
      Span(published, if last < floor then floor else last)
    else [Snapshot(|published|)]
  }

  /** The gap since last is still replayable, or there is nothing to replay in its place. */
  predicate GapFits(published: seq<string>, limit: nat, last: int) {
    Floor(published, limit) <= last || Buffered(published, limit) == 0
  }

  /** The gateway answers like the shared bus exactly while the gap fits the buffer. */
  lemma GatewaySameIffGapFits(published: seq<string>, limit: nat, last: int)
    ensures Relayed(published, limit, last) == Owed(published, limit, last) <==> GapFits(published, limit, last)
  {
    var floor := Floor(published, limit);
    SpanAt(published, floor, 0);
    if last < floor < |published| {
      assert Span(published, floor)[0].Invalidation?;
    }
  }

  /** Beyond that the gateway silently skips the evicted invalidations: no message of its answer
      carries one of them, and none is a snapshot. */
  lemma GatewaySkips(published: seq<string>, limit: nat, last: int, v: nat)
    requires !GapFits(published, limit, last) && last < v <= Floor(published, limit)
    ensures var answer := Relayed(published, limit, last);
            forall k :: 0 <= k < |answer| ==> answer[k].Invalidation? && answer[k].version != v
  {
    var floor := Floor(published, limit);
    SpanAt(published, floor, 0);
    forall k | 0 <= k < |Span(published, floor)|
      ensures Span(published, floor)[k].Invalidation? && Span(published, floor)[k].version != v
    {
      SpanAt(published, floor, k);
    }
  }

  // ── subscribers ────────────────────────────────────────────────────────────

  /** A stream: the version it will pass next, and everything it has delivered. */
  datatype Subscriber = Subscriber(last: int, log: seq<Message>)

  datatype World = World(published: seq<string>, sub: Subscriber)

  datatype Step = Publishing(body: string) | Polling

  /** A stream opens with a snapshot of whatever has been published so far. */
  function Subscribe(published: seq<string>): World {
    World(published, Subscriber(|published|, [Snapshot(|published|)]))
  }

  function Apply(w: World, limit: nat, step: Step): World {
    match step
    case Publishing(body) => w.(published := w.published + [body])
    case Polling =>
      w.(sub := Subscriber(|w.published|, w.sub.log + Owed(w.published, limit, w.sub.last)))
  }

  function Run(w: World, limit: nat, steps: seq<Step>): World {
    if steps == [] then w
    else Apply(Run(w, limit, steps[..|steps| - 1]), limit, steps[|steps| - 1])
  }

  /** The bodies published by the steps, in order. */
  function Bodies(steps: seq<Step>): seq<string> {
    if steps == [] then []
    else Bodies(steps[..|steps| - 1])
         + (if steps[|steps| - 1].Publishing? then [steps[|steps| - 1].body] else [])
  }

  lemma {:induction false} RunPublishes(published: seq<string>, limit: nat, steps: seq<Step>)
    ensures Run(Subscribe(published), limit, steps).published == published + Bodies(steps)
  {
    if steps != [] {
      RunPublishes(published, limit, steps[..|steps| - 1]);
    }
  }

  /** Version v reached the subscriber: itself, or a snapshot at least as new. */
  ghost predicate Covered(log: seq<Message>, published: seq<string>, v: nat)
    requires 1 <= v <= |published|
  {
    exists k :: 0 <= k < |log| &&
      (log[k] == Invalidation(v, published[v - 1]) || (log[k].Snapshot? && v <= log[k].version))
  }

  /** Only what was published is delivered, in strictly increasing versions. */
  ghost predicate Honest(w: World) {
    && (forall i, j :: 0 <= i < j < |w.sub.log| ==> w.sub.log[i].version < w.sub.log[j].version)
    && (forall k :: 0 <= k < |w.sub.log| ==> Genuine(w, w.sub.log[k]))
  }

  ghost predicate Genuine(w: World, m: Message) {
    && m.version <= w.sub.last <= |w.published|
    && (m.Invalidation? ==> 1 <= m.version && m.body == w.published[m.version - 1])
  }

  ghost predicate Lossless(w: World) {
    && 0 <= w.sub.last <= |w.published|
    && forall v :: 1 <= v <= w.sub.last ==> Covered(w.sub.log, w.published, v)
  }

  lemma OwedHonest(published: seq<string>, limit: nat, last: int, k: nat)
    requires 0 <= last <= |published| && k < |Owed(published, limit, last)|
    ensures var m := Owed(published, limit, last)[k];
            && last < m.version <= |published|
            && (m.Invalidation? ==> last + k < |published| && m == Invalidation(last + k + 1, published[last + k]))
            && (m.Snapshot? ==> |Owed(published, limit, last)| == 1)
  {
    SpanAt(published, last, k);
  }

  lemma PollHonest(w: World, limit: nat)
    requires Honest(w) && Lossless(w)
    ensures Honest(Apply(w, limit, Polling))
  {
    var more := Owed(w.published, limit, w.sub.last);
    var log := w.sub.log + more;
    forall k | 0 <= k < |more| ensures Genuine(Apply(w, limit, Polling), more[k]) && w.sub.last < more[k].version {
      OwedHonest(w.published, limit, w.sub.last, k);
    }
    forall i, j | 0 <= i < j < |more| ensures more[i].version < more[j].version {
      OwedHonest(w.published, limit, w.sub.last, i);
      OwedHonest(w.published, limit, w.sub.last, j);
    }
    forall k | 0 <= k < |w.sub.log| ensures Genuine(w, log[k]) {
    }
  }

  lemma PollLossless(w: World, limit: nat)
    requires Lossless(w)
    ensures Lossless(Apply(w, limit, Polling))
  {
    var more := Owed(w.published, limit, w.sub.last);
    var log := w.sub.log + more;
    forall v | 1 <= v <= |w.published| ensures Covered(log, w.published, v) {
      if v <= w.sub.last {
        assert Covered(w.sub.log, w.published, v);
        var k :| 0 <= k < |w.sub.log| && (w.sub.log[k] == Invalidation(v, w.published[v - 1])
                                          || (w.sub.log[k].Snapshot? && v <= w.sub.log[k].version));
        assert log[k] == w.sub.log[k];
      } else {
        var k := v - w.sub.last - 1;
        SpanAt(w.published, w.sub.last, k);
        var at := if more[0].Snapshot? then 0 else k;
        assert log[|w.sub.log| + at] == more[at];
      }
    }
  }

  lemma PublishKeeps(w: World, limit: nat, body: string)
    requires Honest(w) && Lossless(w)
    ensures Honest(Apply(w, limit, Publishing(body))) && Lossless(Apply(w, limit, Publishing(body)))
  {
    var after := Apply(w, limit, Publishing(body));
    forall k | 0 <= k < |w.sub.log| ensures Genuine(after, w.sub.log[k]) {
      assert Genuine(w, w.sub.log[k]);
    }
    forall v | 1 <= v <= w.sub.last ensures Covered(w.sub.log, after.published, v) {
      assert Covered(w.sub.log, w.published, v);
      assert after.published[v - 1] == w.published[v - 1];
    }
  }

  lemma {:induction false} RunKeeps(published: seq<string>, limit: nat, steps: seq<Step>)
    ensures var w := Run(Subscribe(published), limit, steps); Honest(w) && Lossless(w)
  {
    if steps == [] {
      var w := Subscribe(published);
      assert w.sub.log[0] == Snapshot(|published|);
      assert forall v :: 1 <= v <= w.sub.last ==> Covered(w.sub.log, w.published, v);
    } else {
      var before := steps[..|steps| - 1];
      RunKeeps(published, limit, before);
      var w := Run(Subscribe(published), limit, before);
      match steps[|steps| - 1]
      case Publishing(body) => PublishKeeps(w, limit, body);
      case Polling =>
        PollHonest(w, limit);
        PollLossless(w, limit);
    }
  }

  /** Nothing is lost and nothing repeated: over any interleaving of publishing and polling, for any
      buffer size, every version up to the subscriber's own was delivered, itself or under a newer
      snapshot, in strictly increasing order. */
  lemma NoInvalidationLost(published: seq<string>, limit: nat, steps: seq<Step>, v: nat)
    requires 1 <= v <= Run(Subscribe(published), limit, steps).sub.last
    ensures v <= |Run(Subscribe(published), limit, steps).published|
    ensures Covered(Run(Subscribe(published), limit, steps).sub.log, Run(Subscribe(published), limit, steps).published, v)
    ensures Honest(Run(Subscribe(published), limit, steps))
    ensures Run(Subscribe(published), limit, steps).published == published + Bodies(steps)
  {
    RunKeeps(published, limit, steps);
    RunPublishes(published, limit, steps);
  }

  /** A poll leaves nothing outstanding. */
  lemma PollCatchesUp(published: seq<string>, limit: nat, steps: seq<Step>)
    requires steps != [] && steps[|steps| - 1].Polling?
    ensures var w := Run(Subscribe(published), limit, steps);
            w.published == published + Bodies(steps)
            && forall v :: 1 <= v <= |w.published| ==> Covered(w.sub.log, w.published, v)
  {
    RunKeeps(published, limit, steps);
    RunPublishes(published, limit, steps);
  }
}
