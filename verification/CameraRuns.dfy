/** Runs of the camera ring: what an undisturbed publication and an undisturbed call do, what one caller
    at a time may rely on, and two runs that show what a restart under several callers can do. */
module CameraRuns {

  import opened Basics
  import opened SharedRing
  import opened CameraRing

  /** The same event k times over. */
  function Repeat(s: State, e: Event, k: nat): State {
    if k == 0 then s else Apply(Repeat(s, e, k - 1), e)
  }

  lemma {:induction false} RepeatAdd(s: State, e: Event, a: nat, b: nat)
    ensures Repeat(s, e, a + b) == Repeat(Repeat(s, e, a), e, b)
  {
    if b != 0 {
      RepeatAdd(s, e, a, b - 1);
      assert Repeat(s, e, a + b) == Apply(Repeat(s, e, a + (b - 1)), e);
    }
  }

  /** Some number of e leads from s to t. */
  ghost predicate Leads(s: State, e: Event, t: State) {
    exists k: nat :: Repeat(s, e, k) == t
  }

  lemma LeadsHere(s: State, e: Event)
    ensures Leads(s, e, s)
  {
    assert Repeat(s, e, 0) == s;
  }

  lemma LeadsStep(s: State, e: Event, t: State, u: State)
    requires Leads(s, e, t) && u == Apply(t, e)
    ensures Leads(s, e, u)
  {
    var k: nat :| Repeat(s, e, k) == t;
    assert Repeat(s, e, k + 1) == u;
  }

  lemma LeadsOn(s: State, e: Event, t: State, u: State)
    requires Leads(s, e, t) && Leads(t, e, u)
    ensures Leads(s, e, u)
  {
    var a: nat :| Repeat(s, e, a) == t;
    var b: nat :| Repeat(t, e, b) == u;
    RepeatAdd(s, e, a, b);
  }

  predicate Uses(e: Event, callers: set<nat>) {
    e.Begin? ==> e.caller in callers
  }

  /** Only these callers ever call. */
  ghost predicate UsedBy(events: seq<Event>, callers: set<nat>) {
    forall e :: e in events ==> Uses(e, callers)
  }

  ghost predicate Reachable(s: State, callers: set<nat>) {
    exists events :: UsedBy(events, callers) && Run(Start(), events) == s
  }

  lemma StartReachable(callers: set<nat>)
    ensures Reachable(Start(), callers)
  {
    assert UsedBy([], callers) && Run(Start(), []) == Start();
  }

  lemma Reaches(s: State, e: Event, callers: set<nat>)
    requires Reachable(s, callers) && Uses(e, callers)
    ensures Reachable(Apply(s, e), callers)
  {
    var events :| UsedBy(events, callers) && Run(Start(), events) == s;
    assert (events + [e])[..|events|] == events;
    assert UsedBy(events + [e], callers) && Run(Start(), events + [e]) == Apply(s, e);
  }

  lemma {:induction false} RepeatReaches(s: State, e: Event, k: nat, callers: set<nat>)
    requires Reachable(s, callers) && Uses(e, callers)
    ensures Reachable(Repeat(s, e, k), callers)
  {
    if k != 0 {
      RepeatReaches(s, e, k - 1, callers);
      Reaches(Repeat(s, e, k - 1), e, callers);
    }
  }

  lemma LeadsReaches(s: State, e: Event, t: State, callers: set<nat>)
    requires Reachable(s, callers) && Uses(e, callers) && Leads(s, e, t)
    ensures Reachable(t, callers)
  {
    var k: nat :| Repeat(s, e, k) == t;
    RepeatReaches(s, e, k, callers);
  }

  lemma ReachableInv(s: State, callers: set<nat>)
    requires Reachable(s, callers)
    ensures ProducerInv(s) && CallsInv(s)
  {
    var events :| UsedBy(events, callers) && Run(Start(), events) == s;
    RunInv(events);
  }

  // ── a publication ──────────────────────────────────────────────────────────

  function Newest(s: State): Segment
    requires s.segments != []
  {
    s.segments[|s.segments| - 1]
  }

  /** The slots once the first k bytes are in one of them. */
  function Overlaid(slots: seq<Bytes>, slot: nat, data: Bytes, k: nat): seq<Bytes>
    requires slot < |slots| && k <= |data| <= |slots[slot]|
  {
    slots[slot := data[..k] + slots[slot][k..]]
  }

  /** The segment after the five metadata stores. */
  function Described(seg: Segment, data: Bytes, format: Format, dims: Dims, slot: nat): Segment {
    var meant := Meant(seg, data, format, dims);
    seg.(width := meant.width, height := meant.height, format := format, frameSize := |data|, activeSlot := slot)
  }

  /** The segment after a publication: the frame is in the slot that was not active. */
  function Showing(seg: Segment, data: Bytes, format: Format, dims: Dims): Segment
    requires |seg.slots| == SLOTS && |data| <= |seg.slots[0]| && |data| <= |seg.slots[1]|
  {
    var other := if seg.activeSlot == 0 then 1 else 0;
    Described(seg.(writeSeq := seg.writeSeq + 2, slots := Overlaid(seg.slots, other, data, |data|)),
              data, format, dims, other)
  }

  /** s with the producer at pc and its segment as given. */
  function With(s: State, seg: Segment, pc: ProducerPc): State
    requires s.segments != []
  {
    SetSegment(s, seg).(producer := pc)
  }

  lemma ProducerMoves(s: State, seg: Segment, pc: ProducerPc)
    requires s.segments != [] && s.linked && !Closing(pc)
    ensures Apply(With(s, seg, pc), ProducerMove) == With(s, SegmentStep(seg, pc).0, SegmentStep(seg, pc).1)
  {
    assert s.segments[Current(s) := seg][Current(s) := SegmentStep(seg, pc).0]
        == s.segments[Current(s) := SegmentStep(seg, pc).0];
  }

  lemma CloseMove(s: State, seg: Segment, data: Bytes, format: Format, dims: Dims, slot: nat)
    requires s.segments != [] && s.linked
    ensures Apply(With(s, seg, Meta(data, format, dims, slot, 5)), ProducerMove)
         == With(s, seg.(writeSeq := seg.writeSeq + 1), Idle)
              .(published := s.published[(Current(s), seg.writeSeq + 1) := Meant(seg, data, format, dims)])
  {
    assert s.segments[Current(s) := seg][Current(s) := seg.(writeSeq := seg.writeSeq + 1)]
        == s.segments[Current(s) := seg.(writeSeq := seg.writeSeq + 1)];
  }

  lemma CopyMove(s: State, seg: Segment, data: Bytes, format: Format, dims: Dims, slot: nat, k: nat)
    requires s.segments != [] && s.linked && slot < |seg.slots| && k < |data| <= |seg.slots[slot]|
    ensures Apply(With(s, seg.(slots := Overlaid(seg.slots, slot, data, k)), Copying(data, format, dims, slot, k)), ProducerMove)
         == With(s, seg.(slots := Overlaid(seg.slots, slot, data, k + 1)), Copying(data, format, dims, slot, k + 1))
  {
    var was, before := seg.slots[slot], Overlaid(seg.slots, slot, data, k);
    ProducerMoves(s, seg.(slots := before), Copying(data, format, dims, slot, k));
    assert (data[..k] + was[k..])[k := data[k]] == data[..k + 1] + was[k + 1..];
    assert PutByte(before, slot, k, data[k]) == Overlaid(seg.slots, slot, data, k + 1);
  }

  lemma {:induction false} CopiesIn(s: State, seg: Segment, data: Bytes, format: Format, dims: Dims, slot: nat, k: nat)
    requires s.segments != [] && s.linked && slot < |seg.slots| && k <= |data| <= |seg.slots[slot]|
    ensures Leads(With(s, seg, Copying(data, format, dims, slot, 0)), ProducerMove,
                  With(s, seg.(slots := Overlaid(seg.slots, slot, data, k)), Copying(data, format, dims, slot, k)))
  {
    var p := With(s, seg, Copying(data, format, dims, slot, 0));
    if k == 0 {
      assert data[..0] + seg.slots[slot][0..] == seg.slots[slot];
      assert seg.slots[slot := seg.slots[slot]] == seg.slots;
      LeadsHere(p, ProducerMove);
    } else {
      CopiesIn(s, seg, data, format, dims, slot, k - 1);
      CopyMove(s, seg, data, format, dims, slot, k - 1);
      LeadsStep(p, ProducerMove,
                With(s, seg.(slots := Overlaid(seg.slots, slot, data, k - 1)), Copying(data, format, dims, slot, k - 1)),
                With(s, seg.(slots := Overlaid(seg.slots, slot, data, k)), Copying(data, format, dims, slot, k)));
    }
  }

  /** One store further. */
  lemma StoreOn(p: State, s: State, seg: Segment, pc: ProducerPc)
    requires s.segments != [] && s.linked && !Closing(pc) && Leads(p, ProducerMove, With(s, seg, pc))
    ensures Leads(p, ProducerMove, With(s, SegmentStep(seg, pc).0, SegmentStep(seg, pc).1))
  {
    ProducerMoves(s, seg, pc);
    LeadsStep(p, ProducerMove, With(s, seg, pc), With(s, SegmentStep(seg, pc).0, SegmentStep(seg, pc).1));
  }

  lemma Describes(p: State, s: State, seg: Segment, data: Bytes, format: Format, dims: Dims, slot: nat)
    requires s.segments != [] && s.linked && Leads(p, ProducerMove, With(s, seg, Meta(data, format, dims, slot, 0)))
    ensures Leads(p, ProducerMove, With(s, Described(seg, data, format, dims, slot), Meta(data, format, dims, slot, 5)))
  {
    var meant := Meant(seg, data, format, dims);
    var g1 := seg.(width := meant.width);
    var g2 := g1.(height := meant.height);
    var g3 := g2.(format := format);
    StoreOn(p, s, seg, Meta(data, format, dims, slot, 0));
    StoreOn(p, s, g1, Meta(data, format, dims, slot, 1));
    StoreOn(p, s, g2, Meta(data, format, dims, slot, 2));
    StoreOn(p, s, g3, Meta(data, format, dims, slot, 3));
    StoreOn(p, s, g3.(frameSize := |data|), Meta(data, format, dims, slot, 4));
  }

  /** Up to the closing store. */
  lemma ReachesClose(s: State, seg: Segment, stored: Segment, data: Bytes, format: Format, dims: Dims, slot: nat)
    requires s.segments != [] && s.linked && |seg.slots| == SLOTS && slot == (if seg.activeSlot == 0 then 1 else 0)
    requires |data| <= |seg.slots[slot]| && stored == seg.(slots := Overlaid(seg.slots, slot, data, |data|))
    ensures Leads(With(s, seg, Opened(data, format, dims)), ProducerMove,
                  With(s, Described(stored, data, format, dims, slot), Meta(data, format, dims, slot, 5)))
  {
    var p := With(s, seg, Opened(data, format, dims));
    LeadsHere(p, ProducerMove);
    StoreOn(p, s, seg, Opened(data, format, dims));
    CopiesIn(s, seg, data, format, dims, slot, |data|);
    LeadsOn(p, ProducerMove, With(s, seg, Copying(data, format, dims, slot, 0)),
            With(s, stored, Copying(data, format, dims, slot, |data|)));
    StoreOn(p, s, stored, Copying(data, format, dims, slot, |data|));
    Describes(p, s, stored, data, format, dims, slot);
  }

  /** The state after a publication. */
  function Shows(s: State, data: Bytes, format: Format, dims: Dims): State
    requires s.segments != [] && |data| <= Newest(s).slotSize && |Newest(s).slots| == SLOTS
    requires |Newest(s).slots[0]| == Newest(s).slotSize && |Newest(s).slots[1]| == Newest(s).slotSize
  {
    SetSegment(s, Showing(Newest(s), data, format, dims))
      .(published := s.published[(Current(s), Newest(s).writeSeq + 2) := Meant(Newest(s), data, format, dims)])
  }

  lemma ClosedShows(s: State, data: Bytes, format: Format, dims: Dims, last: Segment, slot: nat)
    requires s.segments != [] && SegmentShaped(Newest(s)) && |data| <= Newest(s).slotSize
    requires slot == (if Newest(s).activeSlot == 0 then 1 else 0)
    requires var seg := Newest(s).(writeSeq := Newest(s).writeSeq + 1);
      last == Described(seg.(slots := Overlaid(seg.slots, slot, data, |data|)), data, format, dims, slot)
    ensures With(s, last.(writeSeq := last.writeSeq + 1), Idle)
              .(published := s.published[(Current(s), last.writeSeq + 1) := Meant(last, data, format, dims)])
         == Shows(s, data, format, dims).(producer := Idle)
  {
  }

  /** A publication that fits runs to its end: the segment shows the frame under the next even number,
      and the history grows by just that. */
  lemma PublicationShows(s: State, data: Bytes, format: Format, dims: Dims)
    requires s.segments != [] && s.linked && s.producer.Idle? && |data| <= Newest(s).slotSize
    requires SegmentShaped(Newest(s))
    ensures Leads(Apply(s, Publish(data, format, dims)), ProducerMove, Shows(s, data, format, dims))
  {
    var slot, seg := if Newest(s).activeSlot == 0 then 1 else 0, Newest(s).(writeSeq := Newest(s).writeSeq + 1);
    var p := With(s, seg, Opened(data, format, dims));
    assert Apply(s, Publish(data, format, dims)) == p;
    var stored := seg.(slots := Overlaid(seg.slots, slot, data, |data|));
    ReachesClose(s, seg, stored, data, format, dims, slot);
    var last := Described(stored, data, format, dims, slot);
    CloseMove(s, last, data, format, dims, slot);
    ClosedShows(s, data, format, dims, last, slot);
    LeadsStep(p, ProducerMove, With(s, last, Meta(data, format, dims, slot, 5)), Shows(s, data, format, dims));
  }

  // ── a call ─────────────────────────────────────────────────────────────────

  /** s with the call of c standing at pc. */
  function At(s: State, c: nat, pc: Pc): State {
    s.(calls := s.calls[c := pc])
  }

  function Source(s: State): Segment
    requires s.reader.mapped.Mapped? && s.reader.mapped.segment < |s.segments|
  {
    s.segments[s.reader.mapped.segment]
  }

  lemma CallMoves(s: State, c: nat, pc: Pc, t: State, next: Pc)
    requires Step(At(s, c, pc), c, pc) == (At(t, c, pc), Some(next))
    ensures Apply(At(s, c, pc), CallMove(c)) == At(t, c, next)
  {
    assert t.calls[c := pc][c := next] == t.calls[c := next];
  }

  /** One step of a call, which may change the shared state as well. */
  lemma CallOn(p: State, s: State, c: nat, pc: Pc, t: State, next: Pc)
    requires Leads(p, CallMove(c), At(s, c, pc)) && Step(At(s, c, pc), c, pc) == (At(t, c, pc), Some(next))
    ensures Leads(p, CallMove(c), At(t, c, next))
  {
    CallMoves(s, c, pc, t, next);
    LeadsStep(p, CallMove(c), At(s, c, pc), At(t, c, next));
  }

  lemma ReadOn(p: State, s: State, c: nat, pc: Pc, next: Pc)
    requires s.reader.mapped.Mapped? && s.reader.mapped.segment < |s.segments|
    requires (pc.Load? || HasNumber(pc)) && (pc.Recheck? ==> Source(s).writeSeq != pc.num.raw)
    requires Leads(p, CallMove(c), At(s, c, pc)) && Reading(s.reader, s.dropped == {}, Source(s), pc) == Some(next)
    ensures Leads(p, CallMove(c), At(s, c, next))
  {
    CallOn(p, s, c, pc, s, next);
  }

  /** The header as read in one undisturbed pass. */
  function HeaderOf(seg: Segment): Header {
    Header(seg.activeSlot, seg.format, seg.frameSize, seg.width, seg.height)
  }

  lemma ReadsHeader(p: State, s: State, c: nat, num: Number)
    requires s.reader.mapped.Mapped? && s.reader.mapped.segment < |s.segments|
    requires Source(s).activeSlot < SLOTS && 0 < Source(s).frameSize <= s.reader.slotSize
    requires Leads(p, CallMove(c), At(s, c, ReadHeader(num, 0, NO_HEADER)))
    ensures Leads(p, CallMove(c), At(s, c, CopyOut(num, HeaderOf(Source(s)), [])))
  {
    var seg := Source(s);
    var h1 := NO_HEADER.(active := seg.activeSlot);
    var h2 := h1.(format := seg.format);
    var h3 := h2.(size := seg.frameSize);
    var h4 := h3.(width := seg.width);
    ReadOn(p, s, c, ReadHeader(num, 0, NO_HEADER), ReadHeader(num, 1, h1));
    ReadOn(p, s, c, ReadHeader(num, 1, h1), ReadHeader(num, 2, h2));
    ReadOn(p, s, c, ReadHeader(num, 2, h2), ReadHeader(num, 3, h3));
    ReadOn(p, s, c, ReadHeader(num, 3, h3), ReadHeader(num, 4, h4));
    ReadOn(p, s, c, ReadHeader(num, 4, h4), ReadHeader(num, 5, HeaderOf(seg)));
    ReadOn(p, s, c, ReadHeader(num, 5, HeaderOf(seg)), CopyOut(num, HeaderOf(seg), []));
  }

  /** Undisturbed, the copy is the slot's own bytes. */
  lemma {:induction false} CopiesOut(p: State, s: State, c: nat, num: Number, h: Header, k: nat)
    requires s.reader.mapped.Mapped? && s.reader.mapped.segment < |s.segments|
    requires h.active < |Source(s).slots| && k <= h.size <= |Source(s).slots[h.active]|
    requires Leads(p, CallMove(c), At(s, c, CopyOut(num, h, [])))
    ensures Leads(p, CallMove(c), At(s, c, CopyOut(num, h, Source(s).slots[h.active][..k])))
  {
    var slot := Source(s).slots[h.active];
    if k == 0 {
      assert slot[..0] == [];
    } else {
      CopiesOut(p, s, c, num, h, k - 1);
      assert slot[..k - 1] + [slot[k - 1]] == slot[..k];
      ReadOn(p, s, c, CopyOut(num, h, slot[..k - 1]), CopyOut(num, h, slot[..k]));
    }
  }

  /** s after a call under this number, with this header, handed out the mapped segment's bytes. */
  function HandedOut(s: State, num: Number, h: Header): State
    requires s.reader.mapped.Mapped? && s.reader.mapped.segment < |s.segments|
    requires h.active < |Source(s).slots| && h.size <= |Source(s).slots[h.active]|
  {
    s.(reader := Noted(s.reader, num.seqNo, h),
       log := s.log + [Handed(num, s.reader.mapped.segment, num.generation == s.reader.attachGeneration,
                              Frame(Source(s).slots[h.active][..h.size], h.format, h.width, h.height))])
  }

  lemma AcceptMove(s: State, c: nat, num: Number, h: Header)
    requires MappedOk(s) && s.reader.mapped.Mapped? && c !in s.calls && Source(s).writeSeq == num.raw
    requires h.active < |Source(s).slots| && h.size <= |Source(s).slots[h.active]|
    requires h.format.RawRgb? ==> h.size == h.width * h.height * 3
    ensures Apply(At(s, c, Recheck(num, h, Source(s).slots[h.active][..h.size])), CallMove(c)) == HandedOut(s, num, h)
  {
    assert s.calls[c := Recheck(num, h, Source(s).slots[h.active][..h.size])] - {c} == s.calls;
  }

  /** From the copy on: all bytes, the re-check, and the frame is handed out. */
  lemma HandsOut(p: State, s: State, c: nat, num: Number, h: Header)
    requires MappedOk(s) && s.reader.mapped.Mapped? && c !in s.calls && Source(s).writeSeq == num.raw
    requires h.active < |Source(s).slots| && h.size <= |Source(s).slots[h.active]|
    requires h.format.RawRgb? ==> h.size == h.width * h.height * 3
    requires Leads(p, CallMove(c), At(s, c, CopyOut(num, h, [])))
    ensures Leads(p, CallMove(c), HandedOut(s, num, h))
  {
    var copy := Source(s).slots[h.active][..h.size];
    CopiesOut(p, s, c, num, h, h.size);
    ReadOn(p, s, c, CopyOut(num, h, copy), Recheck(num, h, copy));
    AcceptMove(s, c, num, h);
    LeadsStep(p, CallMove(c), At(s, c, Recheck(num, h, copy)), HandedOut(s, num, h));
  }

  /** The number the next call would give the newest segment's frame. */
  function NextNumber(s: State): nat
    requires s.segments != []
  {
    Newest(s).writeSeq + (if s.reader.mapped.Mapped? && !MappingCurrent(s) then s.reader.maxAdjSeq + 2 else s.reader.seqOffset)
  }

  function Unmap(s: State): State {
    s.(reader := s.reader.(mapped := Unmapped))
  }

  function Renumbered(s: State): State {
    s.(reader := s.reader.(mapped := Unmapped, seqOffset := s.reader.maxAdjSeq + 2))
  }

  /** s with the newest segment mapped the way a call that nobody disturbs leaves it. */
  function Attached(s: State): State {
    if s.reader.mapped.Unmapped? || MappingCurrent(s) then Open(s) else Open(Renumbered(s))
  }

  /** A call that finds the mapping stale drops it. */
  lemma Drops(s: State, c: nat, last: int)
    requires s.reader.mapped.Mapped? && !MappingCurrent(s) && c !in s.calls
    ensures Leads(Apply(s, Begin(c, last)), CallMove(c), At(Unmap(s).(dropped := s.dropped + {c}), c, Renumber(last)))
  {
    var p := At(s, c, Check(last));
    LeadsHere(p, CallMove(c));
    CallOn(p, s, c, Check(last), s, Drop(last));
    CallOn(p, s, c, Drop(last), Unmap(s).(dropped := s.dropped + {c}), Renumber(last));
  }

  /** And moves the offset on. */
  lemma Renumbers(s: State, c: nat, last: int)
    requires s.reader.mapped.Mapped? && !MappingCurrent(s) && c !in s.calls && c !in s.dropped
    ensures Leads(Apply(s, Begin(c, last)), CallMove(c), At(Renumbered(s), c, Attach(last, true)))
  {
    Drops(s, c, last);
    assert s.dropped + {c} - {c} == s.dropped;
    CallOn(Apply(s, Begin(c, last)), Unmap(s).(dropped := s.dropped + {c}), c, Renumber(last),
           Renumbered(s), Attach(last, true));
  }

  /** An undisturbed call first gets itself the newest segment mapped. */
  lemma Attaches(s: State, c: nat, last: int)
    requires MappedOk(s) && c !in s.calls && c !in s.dropped && s.linked && s.segments != []
    ensures Leads(Apply(s, Begin(c, last)), CallMove(c), At(Attached(s), c, Load(last, READ_RETRIES)))
  {
    var p := Apply(s, Begin(c, last));
    if s.reader.mapped.Unmapped? || MappingCurrent(s) {
      LeadsHere(p, CallMove(c));
      CallOn(p, s, c, Check(last), s, Attach(last, false));
      CallOn(p, s, c, Attach(last, false), Attached(s), Load(last, READ_RETRIES));
    } else {
      Renumbers(s, c, last);
      CallOn(p, Renumbered(s), c, Attach(last, true), Attached(s), Attach(last, false));
      CallOn(p, Attached(s), c, Attach(last, false), Attached(s), Load(last, READ_RETRIES));
    }
  }

  lemma AttachedFacts(s: State)
    requires MappedOk(s) && s.linked && s.segments != [] && Newest(s).channels == 3
    ensures var t := Attached(s);
      && MappedOk(t) && t.reader.mapped == Mapped(Current(s)) && t.reader.seqOffset + Newest(s).writeSeq == NextNumber(s)
      && t == s.(reader := t.reader)
  {
  }

  /** The frame the newest segment shows can be read: its window is closed, it has bytes, and a raw
      frame has the size its dimensions give. */
  predicate Readable(s: State) {
    && s.linked && s.segments != [] && s.producer.Idle? && Newest(s).frameSize > 0
    && (Newest(s).format.RawRgb? ==> Newest(s).frameSize == Newest(s).width * Newest(s).height * 3)
  }

  /** The newest segment shows a whole frame under an even number. */
  lemma NewestShows(s: State)
    requires ProducerInv(s) && Readable(s)
    ensures SegmentShaped(Newest(s)) && Newest(s).frameSize <= Newest(s).slotSize && Newest(s).writeSeq % 2 == 0
  {
    assert SegmentOk(Newest(s), Current(s), s.published);
  }

  /** The number an undisturbed call returns with the newest frame. */
  function Given(s: State, last: int): Number
    requires s.segments != []
  {
    Number(last, READ_RETRIES, Newest(s).writeSeq, NextNumber(s), Attached(s).reader.attachGeneration, s.dropped == {})
  }

  /** Number the load fixes, when the newest segment is mapped. */
  predicate Loads(s: State, last: int, num: Number) {
    && s.segments != [] && s.reader.mapped == Mapped(Current(s))
    && num == Number(last, num.tries, Newest(s).writeSeq, s.reader.seqOffset + Newest(s).writeSeq,
                     s.reader.attachGeneration, s.dropped == {})
  }

  /** A caller that already has the newest frame gets nothing. */
  lemma Declines(p: State, s: State, c: nat, last: int, num: Number)
    requires c !in s.calls && Loads(s, last, num) && Newest(s).writeSeq % 2 == 0 && last >= num.seqNo
    requires Leads(p, CallMove(c), At(s, c, Load(last, num.tries)))
    ensures Leads(p, CallMove(c), s)
  {
    assert s.calls[c := Load(last, num.tries)] - {c} == s.calls;
    LeadsStep(p, CallMove(c), At(s, c, Load(last, num.tries)), s);
  }

  /** From the header on. */
  lemma ReadsOn(p: State, s: State, c: nat, num: Number, h: Header)
    requires MappedOk(s) && c !in s.calls && s.reader.mapped.Mapped? && Source(s).writeSeq == num.raw
    requires h == HeaderOf(Source(s)) && h.active < SLOTS && 0 < h.size <= Source(s).slotSize
    requires h.active < |Source(s).slots| && h.size <= |Source(s).slots[h.active]|
    requires h.format.RawRgb? ==> h.size == h.width * h.height * 3
    requires Leads(p, CallMove(c), At(s, c, ReadHeader(num, 0, NO_HEADER)))
    ensures Leads(p, CallMove(c), HandedOut(s, num, h))
  {
    ReadsHeader(p, s, c, num);
    HandsOut(p, s, c, num, h);
  }

  lemma LoadsNumber(p: State, s: State, c: nat, last: int, num: Number)
    requires Loads(s, last, num) && Newest(s).writeSeq % 2 == 0 && last < num.seqNo
    requires Leads(p, CallMove(c), At(s, c, Load(last, num.tries)))
    ensures Leads(p, CallMove(c), At(s, c, ReadHeader(num, 0, NO_HEADER)))
  {
    ReadOn(p, s, c, Load(last, num.tries), ReadHeader(num, 0, NO_HEADER));
  }

  /** From the load on, over the mapped newest segment. */
  lemma Reads(p: State, s: State, c: nat, last: int, num: Number)
    requires MappedOk(s) && c !in s.calls && Readable(s) && Loads(s, last, num) && last < num.seqNo
    requires SegmentShaped(Newest(s)) && Newest(s).frameSize <= Newest(s).slotSize && Newest(s).writeSeq % 2 == 0
    requires Leads(p, CallMove(c), At(s, c, Load(last, num.tries)))
    ensures Leads(p, CallMove(c), HandedOut(s, num, HeaderOf(Newest(s))))
  {
    LoadsNumber(p, s, c, last, num);
    ReadsOn(p, s, c, num, HeaderOf(Newest(s)));
  }

  /** The state an undisturbed call leaves. */
  function Called(s: State, last: int): State
    requires MappedOk(s) && s.linked && s.segments != [] && Newest(s).channels == 3
    requires Newest(s).activeSlot < |Newest(s).slots| && Newest(s).frameSize <= |Newest(s).slots[Newest(s).activeSlot]|
  {
    AttachedFacts(s);
    if last < NextNumber(s) then HandedOut(Attached(s), Given(s, last), HeaderOf(Newest(s))) else Attached(s)
  }

  lemma QuietRun(s: State, c: nat, last: int)
    requires ProducerInv(s) && CallsInv(s) && c !in s.calls && Readable(s)
    requires SegmentShaped(Newest(s)) && Newest(s).frameSize <= Newest(s).slotSize && Newest(s).writeSeq % 2 == 0
    ensures Leads(Apply(s, Begin(c, last)), CallMove(c), Called(s, last))
  {
    AttachedFacts(s);
    Attaches(s, c, last);
    if last < NextNumber(s) {
      Reads(Apply(s, Begin(c, last)), Attached(s), c, last, Given(s, last));
    } else {
      Declines(Apply(s, Begin(c, last)), Attached(s), c, last, Given(s, last));
    }
  }

  lemma CalledFacts(s: State, last: int)
    requires MappedOk(s) && s.linked && s.segments != [] && SegmentShaped(Newest(s))
    requires Newest(s).frameSize <= Newest(s).slotSize
    ensures var t := Called(s, last);
      && t == s.(log := t.log, reader := t.reader)
      && t.log == (if last < NextNumber(s) then s.log + [Handed(Given(s, last), Current(s), true, Shown(Newest(s)))] else s.log)
  {
    AttachedFacts(s);
  }

  /** An undisturbed call, restart or not before it, hands out the newest frame exactly when that frame's
      number is above the caller's last one; it leaves every other call where it was. */
  lemma QuietCall(s: State, c: nat, last: int) returns (t: State)
    requires ProducerInv(s) && CallsInv(s) && c !in s.calls && Readable(s)
    ensures SegmentShaped(Newest(s)) && Newest(s).frameSize <= Newest(s).slotSize
    ensures Leads(Apply(s, Begin(c, last)), CallMove(c), t) && t == s.(log := t.log, reader := t.reader)
    ensures t.log == (if last < NextNumber(s) then s.log + [Handed(Given(s, last), Current(s), true, Shown(Newest(s)))] else s.log)
    ensures last < NextNumber(s) ==> t.reader == Noted(Attached(s).reader, NextNumber(s), HeaderOf(Newest(s)))
    ensures (last < NextNumber(s) && Newest(s).format.RawRgb?) || !MappingCurrent(s) ==>
      t.reader.width == Newest(s).width && t.reader.height == Newest(s).height
    ensures Newest(s).format.Jpeg? && MappingCurrent(s) ==>
      t.reader.width == s.reader.width && t.reader.height == s.reader.height
    ensures !MappingCurrent(s) ==> t.reader.channels == Newest(s).channels && t.reader.slotSize == Newest(s).slotSize
  {
    NewestShows(s);
    t := Called(s, last);
    QuietRun(s, c, last);
    CalledFacts(s, last);
  }

  // ── a restart ──────────────────────────────────────────────────────────────

  lemma {:induction false} ProducerMovesInv(s: State, k: nat)
    requires ProducerInv(s) && CallsInv(s)
    ensures ProducerInv(Repeat(s, ProducerMove, k)) && CallsInv(Repeat(s, ProducerMove, k))
  {
    if k != 0 {
      ProducerMovesInv(s, k - 1);
      ApplyProducer(Repeat(s, ProducerMove, k - 1), ProducerMove);
      ApplyCalls(Repeat(s, ProducerMove, k - 1), ProducerMove);
    }
  }

  /** A published frame keeps every invariant. */
  lemma ShowsInv(s: State, data: Bytes, format: Format, dims: Dims)
    requires ProducerInv(s) && CallsInv(s) && s.segments != [] && s.linked && s.producer.Idle?
    requires |data| <= Newest(s).slotSize && SegmentShaped(Newest(s))
    ensures ProducerInv(Shows(s, data, format, dims)) && CallsInv(Shows(s, data, format, dims))
  {
    var p := Apply(s, Publish(data, format, dims));
    ApplyProducer(s, Publish(data, format, dims));
    ApplyCalls(s, Publish(data, format, dims));
    PublicationShows(s, data, format, dims);
    var k: nat :| Repeat(p, ProducerMove, k) == Shows(s, data, format, dims);
    ProducerMovesInv(p, k);
  }

  /** The producer restarts: a new segment behind the path. */
  function Restarted(s: State, width: nat, height: nat, slotSize: nat): State {
    Apply(Apply(s, Unlink), Create(width, height, slotSize))
  }

  lemma RestartedInv(s: State, width: nat, height: nat, slotSize: nat)
    requires ProducerInv(s) && CallsInv(s)
    ensures ProducerInv(Restarted(s, width, height, slotSize)) && CallsInv(Restarted(s, width, height, slotSize))
  {
    ApplyProducer(s, Unlink);
    ApplyCalls(s, Unlink);
    ApplyProducer(Apply(s, Unlink), Create(width, height, slotSize));
    ApplyCalls(Apply(s, Unlink), Create(width, height, slotSize));
  }

  /** The first frame of a restarted producer. */
  function FirstFrame(s: State, width: nat, height: nat, slotSize: nat, data: Bytes, format: Format): State
    requires |data| <= slotSize
  {
    Shows(Restarted(s, width, height, slotSize), data, format, Same)
  }

  /** No caller is frozen out by a restart: whatever state the calls were in, the first frame of the new
      segment reaches every caller whose last number this reader handed out, under a higher number. */
  lemma RestartIsSeen(s: State, c: nat, last: int, k: nat, width: nat, height: nat, slotSize: nat, data: Bytes,
                      format: Format)
    returns (t: State)
    requires ProducerInv(s) && CallsInv(s) && c !in s.calls && s.reader.mapped.Mapped?
    requires 0 < |data| <= slotSize && (format.RawRgb? ==> |data| == width * height * 3)
    requires k < |s.log| && last <= s.log[k].num.seqNo
    ensures Leads(Apply(FirstFrame(s, width, height, slotSize, data, format), Begin(c, last)), CallMove(c), t)
    ensures |t.log| == |s.log| + 1 && t.log[..|s.log|] == s.log
    ensures var e := t.log[|s.log|];
      e.clean && e.num.seqNo == s.reader.maxAdjSeq + 4 && e.num.seqNo > s.log[k].num.seqNo
      && e.frame == Frame(data, format, width, height)
  {
    var r, u := Restarted(s, width, height, slotSize), FirstFrame(s, width, height, slotSize, data, format);
    assert EntryOk(s, s.log[k]);
    RestartedInv(s, width, height, slotSize);
    ShowsInv(r, data, format, Same);
    FirstShown(s, width, height, slotSize, data, format);
    t := QuietCall(u, c, last);
  }

  lemma FirstShown(s: State, width: nat, height: nat, slotSize: nat, data: Bytes, format: Format)
    requires MappedOk(s) && s.reader.mapped.Mapped? && 0 < |data| <= slotSize
    requires format.RawRgb? ==> |data| == width * height * 3
    ensures var u := FirstFrame(s, width, height, slotSize, data, format);
      && Readable(u) && NextNumber(u) == s.reader.maxAdjSeq + 4 && SegmentShaped(Newest(u))
      && Newest(u).frameSize <= Newest(u).slotSize && Shown(Newest(u)) == Frame(data, format, width, height)
      && u.log == s.log && u.reader == s.reader && u.calls == s.calls
  {
    var u := FirstFrame(s, width, height, slotSize, data, format);
    assert Newest(u).slots[1][..|data|] == data;
  }

  // ── one caller at a time ───────────────────────────────────────────────────

  /** No call begins while another caller's is under way. */
  predicate OneAtATime(events: seq<Event>) {
    events == []
    || (var before, e := events[..|events| - 1], events[|events| - 1];
        OneAtATime(before) && (e.Begin? ==> Run(Start(), before).calls.Keys <= {e.caller}))
  }

  /** The call under way is the only one, and its mapping is the one it loaded the counter from. */
  ghost predicate Alone(s: State) {
    && (forall c, d :: c in s.calls && d in s.calls ==> c == d)
    && (forall c :: c in s.calls && HasNumber(s.calls[c]) ==>
          s.calls[c].num.steady && s.calls[c].num.generation == s.reader.attachGeneration)
    && (forall k :: 0 <= k < |s.log| ==> Trusted(s.log[k]))
  }

  lemma AloneMove(s: State, c: nat)
    requires Alone(s) && CallsInv(s) && c in s.calls
    ensures Alone(MoveCall(s, c))
  {
    var (t, next) := Step(s, c, s.calls[c]);
    AloneStep(s, c);
    assert forall d :: d in Put(t, c, next).calls ==> d == c;
  }

  lemma AloneStep(s: State, c: nat)
    requires Alone(s) && CallsInv(s) && c in s.calls
    ensures var (t, next) := Step(s, c, s.calls[c]);
      && t.calls == s.calls
      && (next.Some? && HasNumber(next.value) ==>
            next.value.num.steady && next.value.num.generation == t.reader.attachGeneration)
      && (forall k :: 0 <= k < |t.log| ==> Trusted(t.log[k]))
  {
    assert CallOk(s, c, s.calls[c]);
    assert forall d :: d in s.dropped ==> d == c;
  }

  /** Used by one caller at a time, a reader hands out only trusted frames, through every restart. */
  lemma {:induction false} OneAtATimeTrusted(events: seq<Event>)
    requires OneAtATime(events)
    ensures Alone(Run(Start(), events))
  {
    if events != [] {
      var before, e := events[..|events| - 1], events[|events| - 1];
      OneAtATimeTrusted(before);
      RunInv(before);
      if e.CallMove? && e.caller in Run(Start(), before).calls {
        AloneMove(Run(Start(), before), e.caller);
      } else if ProducerEvent(e) {
        ApplyProducer(Run(Start(), before), e);
      }
    }
  }

  lemma {:induction false} CallsOfUsers(events: seq<Event>, callers: set<nat>)
    requires UsedBy(events, callers)
    ensures Run(Start(), events).calls.Keys <= callers
  {
    if events != [] {
      var before, e := events[..|events| - 1], events[|events| - 1];
      assert e in events && UsedBy(before, callers);
      CallsOfUsers(before, callers);
      var s := Run(Start(), before);
      if e.CallMove? && e.caller in s.calls {
        assert Step(s, e.caller, s.calls[e.caller]).0.calls == s.calls;
      } else if ProducerEvent(e) {
        RunInv(before);
        ApplyProducer(s, e);
      }
    }
  }

  lemma {:induction false} OneUser(events: seq<Event>, callers: set<nat>)
    requires UsedBy(events, callers) && Single(callers)
    ensures OneAtATime(events)
  {
    if events != [] {
      var before, e := events[..|events| - 1], events[|events| - 1];
      assert e in events && UsedBy(before, callers);
      OneUser(before, callers);
      CallsOfUsers(before, callers);
    }
  }

  // ── two runs with several callers ──────────────────────────────────────────

  /** A producer's first frame, as a JPEG of any camera. */
  function Frame1(s: State, slotSize: nat, data: Bytes): State
    requires |data| <= slotSize
  {
    FirstFrame(s, 0, 0, slotSize, data, Jpeg)
  }

  lemma Frame1Reached(s: State, slotSize: nat, data: Bytes, callers: set<nat>)
    requires Reachable(s, callers) && |data| <= slotSize
    ensures Reachable(Frame1(s, slotSize, data), callers)
  {
    Reaches(s, Unlink, callers);
    Reaches(Apply(s, Unlink), Create(0, 0, slotSize), callers);
    var r := Restarted(s, 0, 0, slotSize);
    Reaches(r, Publish(data, Jpeg, Same), callers);
    PublicationShows(r, data, Jpeg, Same);
    LeadsReaches(Apply(r, Publish(data, Jpeg, Same)), ProducerMove, Frame1(s, slotSize, data), callers);
  }

  /** The segment a producer leaves after its first frame. */
  function Only(slotSize: nat, data: Bytes): Segment
    requires |data| <= slotSize
  {
    Segment(slotSize, 3, 2, 1, Jpeg, |data|, 0, 0, [Zeros(slotSize), data + Zeros(slotSize)[|data|..]])
  }

  lemma Frame1Is(s: State, slotSize: nat, data: Bytes)
    requires |data| <= slotSize
    ensures Frame1(s, slotSize, data)
         == s.(segments := s.segments + [Only(slotSize, data)], linked := true, producer := Idle,
               published := s.published[(|s.segments|, 0) := Frame([], RawRgb, 0, 0)]
                                       [(|s.segments|, 2) := Frame(data, Jpeg, 0, 0)])
  {
    var n, empty := |s.segments|, Segment(slotSize, 3, 0, 0, RawRgb, 0, 0, 0, [Zeros(slotSize), Zeros(slotSize)]);
    assert (s.segments + [empty])[n := Only(slotSize, data)] == s.segments + [Only(slotSize, data)];
    assert data[..|data|] == data;
    assert Overlaid(empty.slots, 1, data, |data|) == Only(slotSize, data).slots;
    assert Showing(empty, data, Jpeg, Same) == Only(slotSize, data);
  }

  function Fresh(mapped: Mapping, slotSize: nat, seqOffset: nat, maxAdjSeq: nat, attachGeneration: nat): Reader {
    Reader(mapped, slotSize, 3, 0, 0, seqOffset, maxAdjSeq, attachGeneration)
  }

  const FIRST := Number(0, READ_RETRIES, 2, 2, 1, true)
  const TWO := Header(1, Jpeg, 2, 0, 0)

  /** A producer has published [1, 2], and the call of c has read its header but no byte yet. */
  function MidRead(slotSize: nat, c: nat): State
    requires slotSize >= 2
  {
    At(Frame1(Start(), slotSize, [1, 2]), c, CopyOut(FIRST, TWO, [])).(reader := Fresh(Mapped(0), slotSize, 0, 0, 1))
  }

  lemma MidReadReached(slotSize: nat, c: nat, callers: set<nat>)
    requires slotSize >= 2 && c in callers
    ensures Reachable(MidRead(slotSize, c), callers)
  {
    StartReachable(callers);
    Frame1Reached(Start(), slotSize, [1, 2], callers);
    Frame1Is(Start(), slotSize, [1, 2]);
    var s := Frame1(Start(), slotSize, [1, 2]);
    var p, u := Apply(s, Begin(c, 0)), s.(reader := Fresh(Mapped(0), slotSize, 0, 0, 1));
    Reaches(s, Begin(c, 0), callers);
    Attaches(s, c, 0);
    ReadOn(p, u, c, Load(0, READ_RETRIES), ReadHeader(FIRST, 0, NO_HEADER));
    ReadsHeader(p, u, c, FIRST);
    LeadsReaches(p, CallMove(c), MidRead(slotSize, c), callers);
  }

  /** Meanwhile the producer restarted and published [3], and the call of d mapped the new segment. */
  function Remapped(slotSize: nat, c: nat, d: nat): State
    requires slotSize >= 2
  {
    At(Frame1(MidRead(slotSize, c), slotSize, [3]), d, Load(0, READ_RETRIES)).(reader := Fresh(Mapped(1), slotSize, 2, 0, 2))
  }

  lemma RemappedReached(slotSize: nat, c: nat, d: nat, callers: set<nat>)
    requires slotSize >= 2 && c in callers && d in callers && c != d
    ensures Reachable(Remapped(slotSize, c, d), callers)
  {
    MidReadReached(slotSize, c, callers);
    Frame1Reached(MidRead(slotSize, c), slotSize, [3], callers);
    Frame1Is(Start(), slotSize, [1, 2]);
    Frame1Is(MidRead(slotSize, c), slotSize, [3]);
    var s := Frame1(MidRead(slotSize, c), slotSize, [3]);
    Reaches(s, Begin(d, 0), callers);
    Attaches(s, d, 0);
    LeadsReaches(Apply(s, Begin(d, 0)), CallMove(d), Remapped(slotSize, c, d), callers);
  }

  /** The frame pieced together from the old header and the new segment's bytes. */
  function Torn(slotSize: nat, c: nat, d: nat): State
    requires slotSize >= 2
  {
    Remapped(slotSize, c, d).(calls := map[d := Load(0, READ_RETRIES)], reader := Fresh(Mapped(1), slotSize, 2, 2, 2),
                              log := [Handed(FIRST, 1, false, Frame([3, 0], Jpeg, 0, 0))])
  }

  lemma TornReached(slotSize: nat, c: nat, d: nat, callers: set<nat>)
    requires slotSize >= 2 && c in callers && d in callers && c != d
    ensures Reachable(Torn(slotSize, c, d), callers)
  {
    RemappedReached(slotSize, c, d, callers);
    Frame1Is(Start(), slotSize, [1, 2]);
    Frame1Is(MidRead(slotSize, c), slotSize, [3]);
    var s := Remapped(slotSize, c, d);
    var rest := s.(calls := map[d := Load(0, READ_RETRIES)]);
    assert At(rest, c, CopyOut(FIRST, TWO, [])).calls == s.calls;
    LeadsHere(s, CallMove(c));
    HandsOut(s, rest, c, FIRST, TWO);
    assert Only(slotSize, [3]).slots[1][..2] == [3, 0];
    LeadsReaches(s, CallMove(c), Torn(slotSize, c, d), callers);
  }

  /** The generation matters: when another call remaps the reader during a call, that call can return
      bytes nobody ever published. */
  lemma TornAcrossRemap(slotSize: nat, c: nat, d: nat, callers: set<nat>) returns (s: State, e: Handed)
    requires slotSize >= 2 && c in callers && d in callers && c != d
    ensures Reachable(s, callers) && s.log == [e] && !e.clean && e.num.steady
    ensures forall k :: k in s.published ==> s.published[k].bytes != e.frame.bytes
  {
    s, e := Torn(slotSize, c, d), Handed(FIRST, 1, false, Frame([3, 0], Jpeg, 0, 0));
    TornReached(slotSize, c, d, callers);
    Frame1Is(Start(), slotSize, [1, 2]);
    Frame1Is(MidRead(slotSize, c), slotSize, [3]);
  }

  /** Steadiness matters: a call that maps the new segment between another call's dropping the old one and
      its moving the offset on gives the new frame a number that was already given to the old one. */
  lemma NumberUsedTwice(slotSize: nat, c: nat, d: nat, callers: set<nat>) returns (s: State)
    requires slotSize >= 1 && c in callers && d in callers && c != d
    ensures Reachable(s, callers) && |s.log| == 2
    ensures s.log[0].clean && s.log[1].clean && s.log[0].num.steady && !s.log[1].num.steady
    ensures s.log[0].num.seqNo == s.log[1].num.seqNo && s.log[0].frame != s.log[1].frame
  {
    StartReachable(callers);
    Frame1Reached(Start(), slotSize, [1], callers);
    Frame1Is(Start(), slotSize, [1]);
    var a := QuietFirst(Frame1(Start(), slotSize, [1]), c, 0, callers);
    Frame1Reached(a, slotSize, [3], callers);
    Frame1Is(a, slotSize, [3]);
    var b := Frame1(a, slotSize, [3]);
    Reaches(b, Begin(d, 0), callers);
    Drops(b, d, 0);
    var gap := At(Unmap(b).(dropped := b.dropped + {d}), d, Renumber(0));
    LeadsReaches(Apply(b, Begin(d, 0)), CallMove(d), gap, callers);
    s := QuietFirst(gap, c, 0, callers);
    assert Only(slotSize, [1]).slots[1][..1] == [1];
    assert Only(slotSize, [3]).slots[1][..1] == [3];
  }

  /** An undisturbed call in a reachable state. */
  lemma QuietFirst(s: State, c: nat, last: int, callers: set<nat>) returns (t: State)
    requires Reachable(s, callers) && c in callers && c !in s.calls && Readable(s) && last < NextNumber(s)
    ensures SegmentShaped(Newest(s)) && Newest(s).frameSize <= Newest(s).slotSize
    ensures Reachable(t, callers) && t == s.(log := t.log, reader := t.reader)
    ensures t.log == s.log + [Handed(Given(s, last), Current(s), true, Shown(Newest(s)))]
    ensures t.reader == Noted(Attached(s).reader, NextNumber(s), HeaderOf(Newest(s)))
  {
    ReachableInv(s, callers);
    t := QuietCall(s, c, last);
    Reaches(s, Begin(c, last), callers);
    LeadsReaches(Apply(s, Begin(c, last)), CallMove(c), t, callers);
  }

  // ── who may share a reader ─────────────────────────────────────────────────

  ghost predicate Published(h: History, f: Frame) {
    exists p :: p in h && h[p] == f
  }

  /** Everything handed out was published. */
  ghost predicate AllWhole(s: State) {
    forall k :: 0 <= k < |s.log| ==> Published(s.published, s.log[k].frame)
  }

  /** No number was given to two frames. */
  ghost predicate AllNumbered(s: State) {
    forall a, b :: 0 <= a < |s.log| && 0 <= b < |s.log| && s.log[a].num.seqNo == s.log[b].num.seqNo ==>
      s.log[a].frame == s.log[b].frame
  }

  predicate Single(callers: set<nat>) {
    forall c, d :: c in callers && d in callers ==> c == d
  }

  lemma OneUserSafe(events: seq<Event>, callers: set<nat>)
    requires UsedBy(events, callers) && Single(callers)
    ensures AllWhole(Run(Start(), events)) && AllNumbered(Run(Start(), events))
  {
    OneUser(events, callers);
    OneAtATimeTrusted(events);
    RunInv(events);
    var s := Run(Start(), events);
    forall k | 0 <= k < |s.log| ensures Published(s.published, s.log[k].frame) {
      OnlyWholeFrames(events, k);
      assert s.published[(s.log[k].segment, s.log[k].num.raw)] == s.log[k].frame;
    }
    forall a, b | 0 <= a < |s.log| && 0 <= b < |s.log| && s.log[a].num.seqNo == s.log[b].num.seqNo
      ensures s.log[a].frame == s.log[b].frame
    {
      NumberNamesOneFrame(events, a, b);
    }
  }

  /** A reader hands out only published frames, in every run, if and only if a single caller uses it. */
  lemma WholeIffOneCaller(callers: set<nat>)
    ensures (forall s :: Reachable(s, callers) ==> AllWhole(s)) <==> Single(callers)
  {
    if Single(callers) {
      forall s | Reachable(s, callers) ensures AllWhole(s) {
        var events :| UsedBy(events, callers) && Run(Start(), events) == s;
        OneUserSafe(events, callers);
      }
    } else {
      var c, d :| c in callers && d in callers && c != d;
      var s, e := TornAcrossRemap(2, c, d, callers);
      assert s.log[0] == e;
      assert !AllWhole(s);
    }
  }

  /** Its numbers stand for one frame each, in every run, under the same condition. */
  lemma NumbersIffOneCaller(callers: set<nat>)
    ensures (forall s :: Reachable(s, callers) ==> AllNumbered(s)) <==> Single(callers)
  {
    if Single(callers) {
      forall s | Reachable(s, callers) ensures AllNumbered(s) {
        var events :| UsedBy(events, callers) && Run(Start(), events) == s;
        OneUserSafe(events, callers);
      }
    } else {
      var c, d :| c in callers && d in callers && c != d;
      var s := NumberUsedTwice(1, c, d, callers);
      assert !AllNumbered(s);
    }
  }

  // ── a window that stays open for a while ───────────────────────────────────

  lemma WaitsOnce(p: State, s: State, c: nat, last: int, tries: nat)
    requires s.reader.mapped.Mapped? && s.reader.mapped.segment < |s.segments| && Source(s).writeSeq % 2 == 1
    requires tries > 1 && Leads(p, CallMove(c), At(s, c, Load(last, tries)))
    ensures Leads(p, CallMove(c), At(s, c, Load(last, tries - 1)))
  {
    ReadOn(p, s, c, Load(last, tries), Load(last, tries - 1));
  }

  /** Nobody disturbs s but its producer is inside a publication of the mapped segment. */
  lemma {:induction false} WindowWaits(p: State, s: State, c: nat, last: int, tries: nat, k: nat)
    requires s.reader.mapped.Mapped? && s.reader.mapped.segment < |s.segments| && Source(s).writeSeq % 2 == 1
    requires k < tries && Leads(p, CallMove(c), At(s, c, Load(last, tries)))
    ensures Leads(p, CallMove(c), At(s, c, Load(last, tries - k)))
  {
    if k > 0 {
      WindowWaits(p, s, c, last, tries, k - 1);
      WaitsOnce(p, s, c, last, tries - k + 1);
    }
  }

  /** A new call that meets the window open up to three times is still there to read. */
  lemma OpenWindowOutlasted(s: State, c: nat, last: int, k: nat)
    requires MappedOk(s) && c !in s.calls && c !in s.dropped && MappingCurrent(s) && Newest(s).writeSeq % 2 == 1 && k <= 3
    ensures Leads(Apply(s, Begin(c, last)), CallMove(c), At(s, c, Load(last, 4 - k)))
  {
    Attaches(s, c, last);
    WindowWaits(Apply(s, Begin(c, last)), s, c, last, 4, k);
  }

  /** One that meets it a fourth time ends there and hands out nothing. */
  lemma FourthTimeGivesUp(s: State, c: nat, last: int)
    requires s.reader.mapped.Mapped? && s.reader.mapped.segment < |s.segments| && Source(s).writeSeq % 2 == 1
    requires c !in s.calls
    ensures Repeat(At(s, c, Load(last, 4)), CallMove(c), 4) == s
  {
    var p := At(s, c, Load(last, 4));
    assert Repeat(p, CallMove(c), 1) == Apply(Repeat(p, CallMove(c), 0), CallMove(c));
    assert Repeat(p, CallMove(c), 1).calls == s.calls[c := Load(last, 3)];
    assert Repeat(p, CallMove(c), 2).calls == s.calls[c := Load(last, 2)];
    assert Repeat(p, CallMove(c), 3).calls == s.calls[c := Load(last, 1)];
    assert Repeat(p, CallMove(c), 4).calls == s.calls;
  }

  /** Once the window has closed, whichever try it is on, the call hands out the frame just published. */
  lemma LaterTryReturns(s: State, c: nat, last: int, tries: nat) returns (t: State)
    requires ProducerInv(s) && CallsInv(s) && c !in s.calls && Readable(s) && MappingCurrent(s) && last < NextNumber(s)
    ensures SegmentShaped(Newest(s)) && Newest(s).frameSize <= Newest(s).slotSize
    ensures Leads(At(s, c, Load(last, tries)), CallMove(c), t) && t == s.(log := t.log, reader := t.reader)
    ensures t.log == s.log + [Handed(Given(s, last).(tries := tries), Current(s), true, Shown(Newest(s)))]
  {
    NewestShows(s);
    t := LaterTryRuns(s, c, last, tries, Given(s, last).(tries := tries));
  }

  lemma LaterTryRuns(s: State, c: nat, last: int, tries: nat, num: Number) returns (t: State)
    requires MappedOk(s) && c !in s.calls && Readable(s) && MappingCurrent(s) && last < NextNumber(s)
    requires SegmentShaped(Newest(s)) && Newest(s).frameSize <= Newest(s).slotSize && Newest(s).writeSeq % 2 == 0
    requires num == Given(s, last).(tries := tries)
    ensures Leads(At(s, c, Load(last, tries)), CallMove(c), t) && t == s.(log := t.log, reader := t.reader)
    ensures t.log == s.log + [Handed(num, Current(s), true, Shown(Newest(s)))]
  {
    var p := At(s, c, Load(last, tries));
    CurrentNumber(s, last, tries);
    LeadsHere(p, CallMove(c));
    Reads(p, s, c, last, num);
    t := HandedOut(s, num, HeaderOf(Newest(s)));
    HandedFacts(s, num);
  }

  /** Over a current mapping the number is the one the load fixes. */
  lemma CurrentNumber(s: State, last: int, tries: nat)
    requires MappedOk(s) && MappingCurrent(s)
    ensures Loads(s, last, Given(s, last).(tries := tries))
  {
  }

  lemma HandedFacts(s: State, num: Number)
    requires MappedOk(s) && MappingCurrent(s) && SegmentShaped(Newest(s)) && Newest(s).frameSize <= Newest(s).slotSize
    requires num.generation == s.reader.attachGeneration
    ensures var t := HandedOut(s, num, HeaderOf(Newest(s)));
      t == s.(log := t.log, reader := t.reader) && t.log == s.log + [Handed(num, Current(s), true, Shown(Newest(s)))]
  {
  }
}
