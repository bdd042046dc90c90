/** The camera ring (os-base/conecsa_shm/camera_ring.py reading what webcam-server/src/webcam_server/shm.rs
    writes). The producer unlinks and recreates its segment on every start; a call that finds the mapping
    stale drops it, moves the number offset on and maps the new segment. One reader object serves any
    number of callers at once, as the gateway's feeds do, so those three steps and every access to a
    segment interleave with the steps of all other calls. */
module CameraRing {

  import opened Basics
  import opened SharedRing

  datatype Format = RawRgb | Jpeg

  datatype Dims = Same | Dims(width: nat, height: nat)

  /** A frame as published: payload, format, and the dimensions it belongs to. */
  datatype Frame = Frame(bytes: Bytes, format: Format, width: nat, height: nat)

  datatype Segment = Segment(slotSize: nat, channels: nat, writeSeq: nat, activeSlot: nat, format: Format,
                             frameSize: nat, width: nat, height: nat, slots: seq<Bytes>)

  /** A publication under way; stage counts the metadata fields already written. */
  datatype ProducerPc =
    | Idle
    | Opened(data: Bytes, format: Format, dims: Dims)
    | Copying(data: Bytes, format: Format, dims: Dims, slot: nat, copied: nat)
    | Meta(data: Bytes, format: Format, dims: Dims, slot: nat, stage: nat)

  datatype Header = Header(active: nat, format: Format, size: nat, width: nat, height: nat)

  /** What an attempt fixes when it loads the counter: the number it would return, and for the proofs
      the attach generation and whether no call was between dropping a mapping and moving the offset on. */
  datatype Number = Number(last: int, tries: nat, raw: nat, seqNo: nat, generation: nat, steady: bool)

  /** Where a call of get_latest_frame stands; stage counts the header fields already read. */
  datatype Pc =
    | Check(last: int)
    | Drop(last: int)
    | Renumber(last: int)
    | Attach(last: int, again: bool)
    | Load(last: int, tries: nat)
    | ReadHeader(num: Number, stage: nat, h: Header)
    | CopyOut(num: Number, h: Header, copy: Bytes)
    | Recheck(num: Number, h: Header, copy: Bytes)

  datatype Mapping = Unmapped | Mapped(segment: nat)

  /** The reader object, shared by all calls: its mapping, the cached constants and the number bookkeeping. */
  datatype Reader = Reader(mapped: Mapping, slotSize: nat, channels: nat, width: nat, height: nat,
                           seqOffset: nat, maxAdjSeq: nat, attachGeneration: nat)

  /** A frame handed to a caller, with the segment mapped at that moment; clean says that the attach
      generation did not change between the load of the counter and the return. */
  datatype Handed = Handed(num: Number, segment: nat, clean: bool, frame: Frame)

  /** All segments ever created; only the newest may be linked under the path and written. published
      maps segment and raw number to the frame published under it. dropped holds the callers that have
      dropped the mapping and not yet moved the offset on. */
  datatype State = State(segments: seq<Segment>, linked: bool, producer: ProducerPc,
                         published: map<(nat, nat), Frame>, reader: Reader, calls: map<nat, Pc>,
                         dropped: set<nat>, log: seq<Handed>)

  datatype Event =
    | Unlink
    | Create(width: nat, height: nat, slotSize: nat)
    | Publish(data: Bytes, format: Format, dims: Dims)
    | ProducerMove
    | Begin(caller: nat, last: int)
    | CallMove(caller: nat)

  const NO_HEADER := Header(0, RawRgb, 0, 0, 0)

  function Start(): State {
    State([], false, Idle, map[], Reader(Unmapped, 0, 3, 0, 0, 0, 0, 0), map[], {}, [])
  }

  // ── the producer ───────────────────────────────────────────────────────────

  /** The producer's segment is the newest one, while it is linked. */
  function Current(s: State): nat
    requires s.segments != []
  {
    |s.segments| - 1
  }

  function Zeros(n: nat): Bytes {
    seq(n, _ => 0)
  }

  function CreateSegment(s: State, width: nat, height: nat, slotSize: nat): State {
    s.(segments := s.segments + [Segment(slotSize, 3, 0, 0, RawRgb, 0, width, height, [Zeros(slotSize), Zeros(slotSize)])],
       linked := true, producer := Idle,
       published := s.published[(|s.segments|, 0) := Frame([], RawRgb, width, height)])
  }

  function SetSegment(s: State, seg: Segment): State
    requires s.segments != []
  {
    s.(segments := s.segments[Current(s) := seg])
  }

  /** Publishing opens the window, unless the payload does not fit a slot. */
  function BeginPublish(s: State, data: Bytes, format: Format, dims: Dims): State {
    if s.segments == [] || !s.linked || !s.producer.Idle? || |data| > s.segments[Current(s)].slotSize then s
    else
      var seg := s.segments[Current(s)];
      SetSegment(s, seg.(writeSeq := seg.writeSeq + 1)).(producer := Opened(data, format, dims))
  }

  /** One metadata store: width, height, format, size, active slot, in this order. */
  function StoreMeta(seg: Segment, pc: ProducerPc): Segment
    requires pc.Meta?
  {
    if pc.stage == 0 then (if pc.dims.Dims? then seg.(width := pc.dims.width) else seg)
    else if pc.stage == 1 then (if pc.dims.Dims? then seg.(height := pc.dims.height) else seg)
    else if pc.stage == 2 then seg.(format := pc.format)
    else if pc.stage == 3 then seg.(frameSize := |pc.data|)
    else seg.(activeSlot := pc.slot)
  }

  /** The frame a publication stands for, given the dimensions of the segment. */
  function Meant(seg: Segment, data: Bytes, format: Format, dims: Dims): Frame {
    Frame(data, format, if dims.Dims? then dims.width else seg.width, if dims.Dims? then dims.height else seg.height)
  }

  /** One store of the publication under way, on the producer's segment alone. */
  function SegmentStep(seg: Segment, pc: ProducerPc): (r: (Segment, ProducerPc)) {
    match pc
    case Idle => (seg, pc)
    case Opened(data, format, dims) => (seg, Copying(data, format, dims, if seg.activeSlot == 0 then 1 else 0, 0))
    case Copying(data, format, dims, slot, copied) =>
      if copied < |data| then
        (seg.(slots := PutByte(seg.slots, slot, copied, data[copied])), Copying(data, format, dims, slot, copied + 1))
      else (seg, Meta(data, format, dims, slot, 0))
    case Meta(data, format, dims, slot, stage) =>
      if stage < 5 then (StoreMeta(seg, pc), Meta(data, format, dims, slot, stage + 1))
      else (seg.(writeSeq := seg.writeSeq + 1), Idle)
  }

  /** The store that closes the window and publishes. */
  predicate Closing(pc: ProducerPc) {
    pc.Meta? && pc.stage >= 5
  }

  function ProducerStep(s: State): State {
    if s.segments == [] || !s.linked then s
    else
      var seg := s.segments[Current(s)];
      var (after, pc) := SegmentStep(seg, s.producer);
      SetSegment(s, after).(producer := pc, published :=
        if Closing(s.producer) then
          s.published[(Current(s), after.writeSeq) := Meant(seg, s.producer.data, s.producer.format, s.producer.dims)]
        else s.published)
  }

  // ── the calls ──────────────────────────────────────────────────────────────

  /** The mapped segment is still the one behind the path. */
  predicate MappingCurrent(s: State) {
    s.reader.mapped.Mapped? && s.linked && s.segments != [] && s.reader.mapped.segment == Current(s)
  }

  /** open(): map the linked segment, caching its constants; nothing when there is none. */
  function Open(s: State): State {
    if s.reader.mapped.Mapped? || !s.linked || s.segments == [] then s
    else
      var seg := s.segments[Current(s)];
      s.(reader := s.reader.(mapped := Mapped(Current(s)), slotSize := seg.slotSize, channels := seg.channels,
                             width := seg.width, height := seg.height,
                             attachGeneration := s.reader.attachGeneration + 1))
  }

  function Retry(last: int, tries: nat): Option<Pc> {
    if tries > 1 then Some(Load(last, tries - 1)) else None
  }

  function ReadField(seg: Segment, stage: nat, h: Header): Header {
    if stage == 0 then h.(active := seg.activeSlot)
    else if stage == 1 then h.(format := seg.format)
    else if stage == 2 then h.(size := seg.frameSize)
    else if stage == 3 then h.(width := seg.width)
    else h.(height := seg.height)
  }

  /** A step that only reads the mapped segment; None is a call that returns nothing. */
  function Reading(r: Reader, steady: bool, seg: Segment, pc: Pc): Option<Pc>
    requires pc.Load? || pc.ReadHeader? || pc.CopyOut? || pc.Recheck?
  {
    match pc
    case Load(last, tries) =>
      if seg.writeSeq % 2 == 1 then Retry(last, tries)
      else if r.seqOffset + seg.writeSeq <= last then None
      else
        var num := Number(last, tries, seg.writeSeq, r.seqOffset + seg.writeSeq, r.attachGeneration, steady);
        Some(ReadHeader(num, 0, NO_HEADER))
    case ReadHeader(num, stage, h) =>
      if stage < 5 then Some(ReadHeader(num, stage + 1, ReadField(seg, stage, h)))
      else if h.active > 1 || h.size == 0 || h.size > r.slotSize then Retry(num.last, num.tries)
      else Some(CopyOut(num, h, []))
    case CopyOut(num, h, copy) =>
      if |copy| < h.size && h.active < |seg.slots| && |copy| < |seg.slots[h.active]| then
        Some(CopyOut(num, h, copy + [seg.slots[h.active][|copy|]]))
      else Some(Recheck(num, h, copy))
    case Recheck(num, h, copy) => Retry(num.last, num.tries)
  }

  /** The highest number, and for a raw frame its dimensions, are noted. */
  function Noted(r: Reader, seqNo: nat, h: Header): Reader {
    var noted := r.(maxAdjSeq := if seqNo > r.maxAdjSeq then seqNo else r.maxAdjSeq);
    if h.format.RawRgb? then noted.(width := h.width, height := h.height) else noted
  }

  /** A copy whose counter did not move: the highest number is noted, and a raw frame must have the size
      its dimensions give. */
  function Accept(s: State, segment: nat, pc: Pc): (State, Option<Pc>)
    requires pc.Recheck?
  {
    var num, h := pc.num, pc.h;
    var noted := Noted(s.reader, num.seqNo, h);
    if h.format.RawRgb? && h.size != h.width * h.height * s.reader.channels then
      (s.(reader := noted), Retry(num.last, num.tries))
    else
      var entry := Handed(num, segment, num.generation == s.reader.attachGeneration,
                          Frame(pc.copy, h.format, h.width, h.height));
      (s.(reader := noted, log := s.log + [entry]), None)
  }

  /** One step of the call of c; using an unmapped reader raises, and the call returns nothing. */
  function Step(s: State, c: nat, pc: Pc): (State, Option<Pc>) {
    match pc
    case Check(last) => (s, Some(if s.reader.mapped.Mapped? && !MappingCurrent(s) then Drop(last) else Attach(last, false)))
    case Drop(last) => (s.(reader := s.reader.(mapped := Unmapped), dropped := s.dropped + {c}), Some(Renumber(last)))
    case Renumber(last) =>
      (s.(reader := s.reader.(seqOffset := s.reader.maxAdjSeq + 2), dropped := s.dropped - {c}), Some(Attach(last, true)))
    case Attach(last, again) =>
      var t := Open(s);
      (t, if again then Some(Attach(last, false)) else if t.reader.mapped.Unmapped? then None else Some(Load(last, READ_RETRIES)))
    case _ =>
      if s.reader.mapped.Unmapped? || s.reader.mapped.segment >= |s.segments| then (s, None)
      else
        var seg := s.segments[s.reader.mapped.segment];
        if pc.Recheck? && seg.writeSeq == pc.num.raw then Accept(s, s.reader.mapped.segment, pc)
        else (s, Reading(s.reader, s.dropped == {}, seg, pc))
  }

  function Put(s: State, c: nat, next: Option<Pc>): State {
    s.(calls := if next.Some? then s.calls[c := next.value] else s.calls - {c})
  }

  function MoveCall(s: State, c: nat): State {
    if c !in s.calls then s
    else
      var (t, next) := Step(s, c, s.calls[c]);
      Put(t, c, next)
  }

  function Apply(s: State, e: Event): State {
    match e
    case Unlink => s.(linked := false, producer := Idle)
    case Create(width, height, slotSize) => CreateSegment(s, width, height, slotSize)
    case Publish(data, format, dims) => BeginPublish(s, data, format, dims)
    case ProducerMove => ProducerStep(s)
    case Begin(c, last) => if c in s.calls then s else Put(s, c, Some(Check(last)))
    case CallMove(c) => MoveCall(s, c)
  }

  function Run(s: State, events: seq<Event>): State {
    if events == [] then s
    else Apply(Run(s, events[..|events| - 1]), events[|events| - 1])
  }

  // ── segments ───────────────────────────────────────────────────────────────

  ghost predicate SegmentShaped(seg: Segment) {
    && |seg.slots| == SLOTS && |seg.slots[0]| == seg.slotSize && |seg.slots[1]| == seg.slotSize
    && seg.activeSlot < SLOTS && seg.channels == 3
  }

  /** The frame the header and the active slot describe. */
  function Shown(seg: Segment): Frame
    requires SegmentShaped(seg) && seg.frameSize <= seg.slotSize
  {
    Frame(seg.slots[seg.activeSlot][..seg.frameSize], seg.format, seg.width, seg.height)
  }

  type History = map<(nat, nat), Frame>

  ghost predicate WasPublished(h: History, segment: nat, raw: nat, frame: Frame) {
    (segment, raw) in h && h[(segment, raw)] == frame
  }

  /** Under an even counter a segment shows exactly the frame published under it. */
  ghost predicate SegmentOk(seg: Segment, g: nat, h: History) {
    && SegmentShaped(seg)
    && (seg.writeSeq % 2 == 0 ==> seg.frameSize <= seg.slotSize && WasPublished(h, g, seg.writeSeq, Shown(seg)))
  }

  ghost predicate SegmentsOk(segments: seq<Segment>, h: History) {
    forall g: nat :: g < |segments| ==> SegmentOk(segments[g], g, h)
  }

  ghost predicate HistoryOk(segments: seq<Segment>, h: History) {
    forall k :: k in h ==> k.0 < |segments| && k.1 <= segments[k.0].writeSeq
  }

  /** What an open publication has stored so far. */
  ghost predicate Stored(seg: Segment, pc: ProducerPc) {
    match pc
    case Idle => true
    case Opened(data, _, _) => |data| <= seg.slotSize
    case Copying(data, _, _, slot, copied) =>
      copied <= |data| <= seg.slotSize && slot < SLOTS && SegmentShaped(seg) && seg.slots[slot][..copied] == data[..copied]
    case Meta(data, format, dims, slot, stage) =>
      && stage <= 5 && |data| <= seg.slotSize && slot < SLOTS && SegmentShaped(seg) && seg.slots[slot][..|data|] == data
      && (stage > 0 && dims.Dims? ==> seg.width == dims.width)
      && (stage > 1 && dims.Dims? ==> seg.height == dims.height)
      && (stage > 2 ==> seg.format == format)
      && (stage > 3 ==> seg.frameSize == |data|)
      && (stage > 4 ==> seg.activeSlot == slot)
  }

  /** The window of the linked segment is open exactly while a publication is under way. */
  ghost predicate ProducerOk(s: State) {
    if s.segments == [] || !s.linked then s.producer.Idle?
    else
      var seg := s.segments[Current(s)];
      (s.producer.Idle? <==> seg.writeSeq % 2 == 0) && Stored(seg, s.producer)
  }

  // ── the calls' view ────────────────────────────────────────────────────────

  ghost predicate MappedOk(s: State) {
    && s.reader.channels == 3
    && (s.reader.mapped.Mapped? ==> s.reader.mapped.segment < |s.segments|
                                    && s.reader.slotSize == s.segments[s.reader.mapped.segment].slotSize)
  }

  /** The header fields read so far agree with the segment. */
  predicate Agrees(seg: Segment, stage: nat, h: Header) {
    && (stage > 0 ==> h.active == seg.activeSlot) && (stage > 1 ==> h.format == seg.format)
    && (stage > 2 ==> h.size == seg.frameSize) && (stage > 3 ==> h.width == seg.width)
    && (stage > 4 ==> h.height == seg.height)
  }

  predicate HasNumber(pc: Pc) {
    pc.ReadHeader? || pc.CopyOut? || pc.Recheck?
  }

  /** What a call has read, measured against the segment it is reading. */
  ghost predicate ViewOk(seg: Segment, g: nat, published: History, pc: Pc)
    requires HasNumber(pc)
  {
    && pc.num.raw <= seg.writeSeq
    && match pc
       case ReadHeader(num, stage, h) => stage <= 5 && (seg.writeSeq == num.raw ==> Agrees(seg, stage, h))
       case CopyOut(num, h, copy) =>
         && |copy| <= h.size && 0 < h.size <= seg.slotSize && h.active < SLOTS
         && (seg.writeSeq == num.raw ==> Agrees(seg, 5, h) && SegmentShaped(seg) && copy == seg.slots[h.active][..|copy|])
       case Recheck(num, h, copy) =>
         && copy != [] && h.size == |copy|
         && (seg.writeSeq == num.raw ==> WasPublished(published, g, num.raw, Frame(copy, h.format, h.width, h.height)))
  }

  /** The segment mapped now is the one that was mapped when the counter was loaded. */
  predicate Holds(r: Reader, num: Number) {
    r.mapped.Mapped? && num.generation == r.attachGeneration
  }

  /** The number is above the caller's last one, and still what the offset gives while the mapping holds. */
  ghost predicate NumberOk(r: Reader, dropped: set<nat>, num: Number) {
    && num.last < num.seqNo && num.raw % 2 == 0 && num.generation <= r.attachGeneration
    && (Holds(r, num) && num.steady ==> dropped == {} && num.seqNo == r.seqOffset + num.raw)
  }

  ghost predicate CallOk(s: State, c: nat, pc: Pc)
    requires MappedOk(s)
  {
    && (pc.Renumber? <==> c in s.dropped)
    && (HasNumber(pc) ==> NumberOk(s.reader, s.dropped, pc.num))
    && (HasNumber(pc) && Holds(s.reader, pc.num) ==>
          ViewOk(s.segments[s.reader.mapped.segment], s.reader.mapped.segment, s.published, pc))
  }

  ghost predicate CallsOk(s: State)
    requires MappedOk(s)
  {
    && s.dropped <= s.calls.Keys
    && forall c :: c in s.calls ==> CallOk(s, c, s.calls[c])
  }

  // ── the numbers handed out ─────────────────────────────────────────────────

  /** An entry of the log: a number newer than the caller's last one, and when the mapping held a
      published frame. */
  ghost predicate EntryOk(s: State, e: Handed) {
    && e.num.last < e.num.seqNo <= s.reader.maxAdjSeq
    && (e.clean ==> WasPublished(s.published, e.segment, e.num.raw, e.frame) && e.frame.bytes != []
                    && (e.frame.format.RawRgb? ==> |e.frame.bytes| == e.frame.width * e.frame.height * 3))
  }

  /** The mapping held, and nobody had dropped it without moving the offset on when the number was made. */
  predicate Trusted(e: Handed) {
    e.clean && e.num.steady
  }

  /** A trusted number lies below the offset, or is the one the offset gives for the mapped segment. */
  ghost predicate Placed(r: Reader, dropped: set<nat>, e: Handed) {
    Trusted(e) ==>
      || e.num.seqNo < r.seqOffset
      || (e.num.seqNo == r.seqOffset + e.num.raw && (dropped == {} ==> r.mapped == Mapped(e.segment)))
  }

  ghost predicate LogOk(s: State) {
    forall k :: 0 <= k < |s.log| ==> EntryOk(s, s.log[k]) && Placed(s.reader, s.dropped, s.log[k])
  }

  /** A trusted number identifies one published frame, across all segments. */
  ghost predicate NumbersUnique(log: seq<Handed>) {
    forall a, b ::
      0 <= a < |log| && 0 <= b < |log| && Trusted(log[a]) && Trusted(log[b]) && log[a].num.seqNo == log[b].num.seqNo ==>
        log[a].segment == log[b].segment && log[a].num.raw == log[b].num.raw
  }

  ghost predicate CallsInv(s: State) {
    MappedOk(s) && CallsOk(s) && LogOk(s) && NumbersUnique(s.log)
  }

  // ── the producer keeps its side ────────────────────────────────────────────

  ghost predicate ProducerInv(s: State) {
    SegmentsOk(s.segments, s.published) && HistoryOk(s.segments, s.published) && ProducerOk(s)
  }

  /** Only the open window of the newest segment is written, and every counter only grows. */
  ghost predicate Advances(s: State, t: State) {
    && t.reader == s.reader && t.calls == s.calls && t.dropped == s.dropped && t.log == s.log && |t.segments| >= |s.segments|
    && (forall g: nat :: g < |s.segments| ==> SegmentAdvances(s.segments[g], t.segments[g]))
    && (forall k :: k in s.published ==> k in t.published && t.published[k] == s.published[k])
  }

  predicate SegmentAdvances(a: Segment, b: Segment) {
    && b.writeSeq >= a.writeSeq && b.slotSize == a.slotSize
    && (a.writeSeq == b.writeSeq && a.writeSeq % 2 == 0 ==> a == b)
  }

  /** Nothing the producer does can spoil what a call has read or what was handed out. */
  lemma CallsFrame(s: State, t: State)
    requires CallsInv(s) && Advances(s, t)
    ensures CallsInv(t)
  {
    forall c | c in t.calls ensures CallOk(t, c, t.calls[c]) {
      assert CallOk(s, c, s.calls[c]);
      if s.reader.mapped.Mapped? {
        assert SegmentAdvances(s.segments[s.reader.mapped.segment], t.segments[s.reader.mapped.segment]);
      }
    }
    forall k | 0 <= k < |t.log| ensures EntryOk(t, t.log[k]) && Placed(t.reader, t.dropped, t.log[k]) {
      assert EntryOk(s, s.log[k]) && Placed(s.reader, s.dropped, s.log[k]);
    }
  }

  lemma StepStored(seg: Segment, pc: ProducerPc)
    requires SegmentShaped(seg) && Stored(seg, pc) && !pc.Idle?
    ensures var (after, next) := SegmentStep(seg, pc); SegmentShaped(after) && Stored(after, next)
  {
    if pc.Copying? {
      var data, slot, k := pc.data, pc.slot, pc.copied;
      if k < |data| {
        var after := SegmentStep(seg, pc).0;
        assert after.slots[slot][..k + 1] == seg.slots[slot][..k] + [data[k]];
        assert data[..k + 1] == data[..k] + [data[k]];
      } else {
        assert data[..k] == data;
      }
    }
  }

  /** The counter moves only with the closing store, which shows what was meant. */
  lemma StepCloses(seg: Segment, pc: ProducerPc)
    requires SegmentShaped(seg) && Stored(seg, pc) && !pc.Idle?
    ensures var (after, next) := SegmentStep(seg, pc);
      && after.slotSize == seg.slotSize
      && after.writeSeq == (if Closing(pc) then seg.writeSeq + 1 else seg.writeSeq)
      && (next.Idle? <==> Closing(pc))
      && (Closing(pc) ==> after.frameSize <= after.slotSize && SegmentShaped(after)
                          && Shown(after) == Meant(seg, pc.data, pc.format, pc.dims))
  {
  }

  lemma ProducerStepInv(s: State)
    requires ProducerInv(s)
    ensures ProducerInv(ProducerStep(s))
  {
    if s.segments != [] && s.linked {
      var seg := s.segments[Current(s)];
      assert SegmentOk(seg, Current(s), s.published);
      var t := ProducerStep(s);
      if s.producer.Idle? {
        assert t.segments == s.segments;
      } else {
        StepStored(seg, s.producer);
        StepCloses(seg, s.producer);
        assert SegmentOk(t.segments[Current(s)], Current(s), t.published);
      }
    }
  }

  lemma ProducerStepAdvances(s: State)
    requires ProducerInv(s)
    ensures Advances(s, ProducerStep(s))
  {
    if s.segments != [] && s.linked && !s.producer.Idle? {
      var seg := s.segments[Current(s)];
      assert SegmentOk(seg, Current(s), s.published);
      StepCloses(seg, s.producer);
    }
  }

  lemma BeginPublishInv(s: State, data: Bytes, format: Format, dims: Dims)
    requires ProducerInv(s)
    ensures ProducerInv(BeginPublish(s, data, format, dims)) && Advances(s, BeginPublish(s, data, format, dims))
  {
  }

  lemma CreateInv(s: State, width: nat, height: nat, slotSize: nat)
    requires ProducerInv(s)
    ensures var t := CreateSegment(s, width, height, slotSize); ProducerInv(t) && Advances(s, t)
  {
    var t := CreateSegment(s, width, height, slotSize);
    var n := |s.segments|;
    assert t.segments[n].slots[0][..0] == [];
    assert Shown(t.segments[n]) == Frame([], RawRgb, width, height);
    forall g: nat | g < |t.segments| ensures SegmentOk(t.segments[g], g, t.published) {
      assert g < n ==> SegmentOk(s.segments[g], g, s.published);
    }
  }

  // ── the calls keep their side ──────────────────────────────────────────────

  /** Checking, dropping, renumbering and mapping, or finding nothing mapped: a new mapping starts a
      generation of its own, and a new offset is past every number handed out. */
  lemma RemapInv(s: State, c: nat)
    requires CallsInv(s) && c in s.calls && SegmentsOk(s.segments, s.published)
    requires s.reader.mapped.Unmapped? || !(s.calls[c].Load? || HasNumber(s.calls[c]))
    ensures CallsInv(MoveCall(s, c))
  {
    assert CallOk(s, c, s.calls[c]);
    if s.calls[c].Drop? {
    } else if s.calls[c].Renumber? {
    } else if s.calls[c].Attach? {
    }
  }

  /** Loading, reading the header and copying out. */
  lemma ReadingOk(s: State, c: nat, pc: Pc, steady: bool)
    requires MappedOk(s) && CallOk(s, c, pc) && s.reader.mapped.Mapped? && SegmentsOk(s.segments, s.published)
    requires pc.Load? || HasNumber(pc)
    requires pc.Recheck? ==> s.segments[s.reader.mapped.segment].writeSeq != pc.num.raw
    requires steady == (s.dropped == {})
    ensures var next := Reading(s.reader, steady, s.segments[s.reader.mapped.segment], pc);
      next.Some? ==> CallOk(s, c, next.value)
  {
    var g := s.reader.mapped.segment;
    assert SegmentOk(s.segments[g], g, s.published);
  }

  lemma ReadingInv(s: State, c: nat)
    requires CallsInv(s) && c in s.calls && SegmentsOk(s.segments, s.published) && s.reader.mapped.Mapped?
    requires s.calls[c].Load? || HasNumber(s.calls[c])
    requires s.calls[c].Recheck? ==> s.segments[s.reader.mapped.segment].writeSeq != s.calls[c].num.raw
    ensures CallsInv(MoveCall(s, c))
  {
    ReadingOk(s, c, s.calls[c], s.dropped == {});
  }

  /** Accepting a copy: the other calls and the earlier entries stay in order. */
  lemma AcceptCalls(s: State, c: nat)
    requires CallsInv(s) && c in s.calls && s.calls[c].Recheck? && s.reader.mapped.Mapped?
    requires s.segments[s.reader.mapped.segment].writeSeq == s.calls[c].num.raw
    ensures MappedOk(MoveCall(s, c)) && CallsOk(MoveCall(s, c))
  {
    var (t, next) := Step(s, c, s.calls[c]);
    assert CallOk(s, c, s.calls[c]);
    forall d | d in s.calls && d != c ensures CallOk(t, d, s.calls[d]) {
      assert CallOk(s, d, s.calls[d]);
    }
  }

  /** Accepting a copy logs, when the mapping held, exactly the published frame. */
  lemma AcceptLog(s: State, c: nat)
    requires CallsInv(s) && c in s.calls && s.calls[c].Recheck? && s.reader.mapped.Mapped?
    requires s.segments[s.reader.mapped.segment].writeSeq == s.calls[c].num.raw
    ensures LogOk(MoveCall(s, c))
  {
    var t := MoveCall(s, c);
    assert CallOk(s, c, s.calls[c]);
    forall k | 0 <= k < |t.log| ensures EntryOk(t, t.log[k]) && Placed(t.reader, t.dropped, t.log[k]) {
      assert k < |s.log| ==> EntryOk(s, s.log[k]) && Placed(s.reader, s.dropped, s.log[k]);
    }
  }

  /** A new trusted number is the mapped segment's own, or was given to no trusted entry before. */
  lemma AcceptUnique(s: State, c: nat)
    requires CallsInv(s) && c in s.calls && s.calls[c].Recheck? && s.reader.mapped.Mapped?
    requires s.segments[s.reader.mapped.segment].writeSeq == s.calls[c].num.raw
    ensures NumbersUnique(MoveCall(s, c).log)
  {
    var t := MoveCall(s, c);
    assert CallOk(s, c, s.calls[c]);
    forall a, b | 0 <= a < |t.log| && 0 <= b < |t.log| && Trusted(t.log[a]) && Trusted(t.log[b])
                  && t.log[a].num.seqNo == t.log[b].num.seqNo
      ensures t.log[a].segment == t.log[b].segment && t.log[a].num.raw == t.log[b].num.raw
    {
      assert a < |s.log| ==> Placed(s.reader, s.dropped, s.log[a]);
      assert b < |s.log| ==> Placed(s.reader, s.dropped, s.log[b]);
    }
  }

  lemma MoveCallInv(s: State, c: nat)
    requires CallsInv(s) && SegmentsOk(s.segments, s.published)
    ensures CallsInv(MoveCall(s, c))
  {
    if c in s.calls {
      var pc := s.calls[c];
      if s.reader.mapped.Unmapped? || !(pc.Load? || HasNumber(pc)) {
        RemapInv(s, c);
      } else if pc.Recheck? && s.segments[s.reader.mapped.segment].writeSeq == pc.num.raw {
        AcceptCalls(s, c);
        AcceptLog(s, c);
        AcceptUnique(s, c);
      } else {
        ReadingInv(s, c);
      }
    }
  }

  lemma BeginInv(s: State, c: nat, last: int)
    requires CallsInv(s)
    ensures CallsInv(Apply(s, Begin(c, last)))
  {
    var t := Apply(s, Begin(c, last));
    if c !in s.calls {
      forall d | d in t.calls ensures CallOk(t, d, t.calls[d]) {
        assert d != c ==> CallOk(s, d, s.calls[d]);
      }
    }
  }

  // ── whole runs ─────────────────────────────────────────────────────────────

  predicate ProducerEvent(e: Event) {
    !e.Begin? && !e.CallMove?
  }

  /** Calls leave the producer's side alone. */
  lemma CallsLeaveProducer(s: State, e: Event)
    requires !ProducerEvent(e)
    ensures var t := Apply(s, e);
      t.segments == s.segments && t.linked == s.linked && t.producer == s.producer && t.published == s.published
  {
  }

  lemma ApplyProducer(s: State, e: Event)
    requires ProducerInv(s)
    ensures ProducerInv(Apply(s, e))
    ensures ProducerEvent(e) ==> Advances(s, Apply(s, e))
  {
    match e
    case Unlink =>
    case Create(width, height, slotSize) => CreateInv(s, width, height, slotSize);
    case Publish(data, format, dims) => BeginPublishInv(s, data, format, dims);
    case ProducerMove =>
      ProducerStepInv(s);
      ProducerStepAdvances(s);
    case Begin(c, last) => CallsLeaveProducer(s, e);
    case CallMove(c) => CallsLeaveProducer(s, e);
  }

  lemma ApplyCalls(s: State, e: Event)
    requires ProducerInv(s) && CallsInv(s)
    ensures CallsInv(Apply(s, e))
  {
    match e
    case Begin(c, last) => BeginInv(s, c, last);
    case CallMove(c) => MoveCallInv(s, c);
    case _ =>
      ApplyProducer(s, e);
      CallsFrame(s, Apply(s, e));
  }

  lemma {:induction false} RunInv(events: seq<Event>)
    ensures ProducerInv(Run(Start(), events)) && CallsInv(Run(Start(), events))
  {
    if events != [] {
      var before, e := Run(Start(), events[..|events| - 1]), events[|events| - 1];
      RunInv(events[..|events| - 1]);
      ApplyProducer(before, e);
      ApplyCalls(before, e);
    }
  }

  /** Over every interleaving of any number of calls with any number of producer restarts: a call during
      whose attempt the attach generation did not change returns a whole published frame with the
      dimensions it was published with; and every call returns a number above its caller's. */
  lemma OnlyWholeFrames(events: seq<Event>, k: nat)
    requires k < |Run(Start(), events).log|
    ensures var s := Run(Start(), events);
      var e := s.log[k];
      && e.num.last < e.num.seqNo
      && (e.clean ==> WasPublished(s.published, e.segment, e.num.raw, e.frame) && e.frame.bytes != []
                      && (e.frame.format.RawRgb? ==> |e.frame.bytes| == e.frame.width * e.frame.height * 3))
  {
    RunInv(events);
    assert EntryOk(Run(Start(), events), Run(Start(), events).log[k]);
  }

  /** A trusted number never stands for two frames, although every new segment counts from 0 again. */
  lemma NumberNamesOneFrame(events: seq<Event>, a: nat, b: nat)
    requires var log := Run(Start(), events).log;
      a < |log| && b < |log| && Trusted(log[a]) && Trusted(log[b]) && log[a].num.seqNo == log[b].num.seqNo
    ensures var log := Run(Start(), events).log; log[a].frame == log[b].frame && log[a].segment == log[b].segment
  {
    RunInv(events);
    var s := Run(Start(), events);
    assert EntryOk(s, s.log[a]) && EntryOk(s, s.log[b]);
  }

  /** No caller is frozen out by a restart: once no call is between dropping and renumbering, a frame
      newer than all those handed out from the mapped segment has a number above every trusted one. */
  lemma NewFramesPass(events: seq<Event>, raw: nat, k: nat)
    requires var s := Run(Start(), events);
      && s.reader.mapped.Mapped? && s.dropped == {} && k < |s.log| && Trusted(s.log[k])
      && forall j :: 0 <= j < |s.log| && s.log[j].segment == s.reader.mapped.segment ==> s.log[j].num.raw < raw
    ensures var s := Run(Start(), events); s.log[k].num.seqNo < s.reader.seqOffset + raw
  {
    RunInv(events);
    var s := Run(Start(), events);
    assert Placed(s.reader, s.dropped, s.log[k]);
  }

  /** The entries of one caller that always passes back the number it was last given. */
  predicate FedBack(log: seq<Handed>, own: seq<nat>) {
    && (forall k :: 0 <= k < |own| ==> own[k] < |log|)
    && (forall k :: 0 < k < |own| ==> log[own[k]].num.last == log[own[k - 1]].num.seqNo)
  }

  /** Such a caller sees strictly increasing numbers, whatever the other callers do. */
  lemma {:induction false} FedBackIncreases(events: seq<Event>, own: seq<nat>, a: nat, b: nat)
    requires FedBack(Run(Start(), events).log, own) && a < b < |own|
    ensures var log := Run(Start(), events).log; log[own[a]].num.seqNo < log[own[b]].num.seqNo
    decreases b
  {
    OnlyWholeFrames(events, own[b]);
    if a < b - 1 {
      FedBackIncreases(events, own, a, b - 1);
    }
  }
}
