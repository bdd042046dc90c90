/** The processed-frame shared-memory ring (os-base/conecsa_shm/processed_ring.py): one writer, any
    number of readers, two slots and an odd/even generation counter. Every access to the segment is
    one step, slot copies go byte by byte, and a run is any interleaving of the steps. */
module ProcessedRing {

  import opened SharedRing

  /** The mapped segment. */
  datatype Segment = Segment(writeSeq: nat, activeSlot: nat, frameSize: nat, slots: seq<Bytes>)

  /** Where publish stands; every state but Idle is inside the publication window. */
  datatype WriterPc =
    | Idle
    | Opened(jpg: Bytes)
    | Copying(jpg: Bytes, slot: nat, copied: nat)
    | SizeNext(jpg: Bytes, slot: nat)
    | ActiveNext(jpg: Bytes, slot: nat)
    | CountNext(jpg: Bytes)
    | CloseNext(jpg: Bytes)

  /** The writer object: its own copy of the counter and its position. */
  datatype Writer = Writer(seqNo: nat, pc: WriterPc)

  /** Where get_latest stands; tries counts the attempts left. */
  datatype ReaderPc =
    | Resting
    | Load(last: int, tries: nat)
    | GotSeq(last: int, tries: nat, s: nat)
    | GotActive(last: int, tries: nat, s: nat, active: nat)
    | CopyOut(last: int, tries: nat, s: nat, active: nat, size: nat, copy: Bytes)
    | Recheck(last: int, tries: nat, s: nat, copy: Bytes)
    | Empty(last: int)
    | Returned(last: int, frame: Bytes, s: nat)

  /** published is the history: which bytes were published under which number. Number 0 stands for
      the fresh segment, with no bytes. */
  datatype State = State(slotBytes: nat, mem: Segment, writer: Writer, readers: map<nat, ReaderPc>,
                         published: map<nat, Bytes>)

  /** One scheduling choice. */
  datatype Event =
    | Publish(jpg: Bytes)
    | WriterMove
    | WriterFail
    | Call(reader: nat, last: int)
    | ReaderMove(reader: nat)

  function Fresh(slotBytes: nat, slots: seq<Bytes>): State {
    State(slotBytes, Segment(0, 0, 0, slots), Writer(0, Idle), map[], map[0 := []])
  }

  // ── the writer ─────────────────────────────────────────────────────────────

  /** A publish call: an oversized frame is dropped, otherwise the window opens. */
  function BeginPublish(s: State, jpg: Bytes): State {
    if !s.writer.pc.Idle? || |jpg| > s.slotBytes then s
    else s.(mem := s.mem.(writeSeq := s.writer.seqNo + 1), writer := s.writer.(pc := Opened(jpg)))
  }

  function WriterStep(s: State): State {
    match s.writer.pc
    case Idle => s
    case Opened(jpg) =>
      s.(writer := s.writer.(pc := Copying(jpg, if s.mem.activeSlot == 0 then 1 else 0, 0)))
    case Copying(jpg, slot, copied) =>
      if copied < |jpg| then
        s.(mem := s.mem.(slots := PutByte(s.mem.slots, slot, copied, jpg[copied])),
           writer := s.writer.(pc := Copying(jpg, slot, copied + 1)))
      else s.(writer := s.writer.(pc := SizeNext(jpg, slot)))
    case SizeNext(jpg, slot) =>
      s.(mem := s.mem.(frameSize := |jpg|), writer := s.writer.(pc := ActiveNext(jpg, slot)))
    case ActiveNext(jpg, slot) =>
      s.(mem := s.mem.(activeSlot := slot), writer := s.writer.(pc := CountNext(jpg)))
    case CountNext(jpg) =>
      s.(writer := Writer(s.writer.seqNo + 2, CloseNext(jpg)))
    case CloseNext(jpg) =>
      s.(mem := s.mem.(writeSeq := s.writer.seqNo), writer := s.writer.(pc := Idle),
         published := s.published[s.writer.seqNo := jpg])
  }

  /** publish swallows an exception raised anywhere inside the window. */
  function FailPublish(s: State): State {
    s.(writer := s.writer.(pc := Idle))
  }

  // ── the readers ────────────────────────────────────────────────────────────

  function Retry(last: int, tries: nat): ReaderPc {
    if tries > 1 then Load(last, tries - 1) else Empty(last)
  }

  function ReaderStep(s: State, pc: ReaderPc): ReaderPc {
    match pc
    case Resting => pc
    case Empty(_) => pc
    case Returned(_, _, _) => pc
    case Load(last, tries) =>
      if s.mem.writeSeq % 2 == 1 then Retry(last, tries)
      else if s.mem.writeSeq <= last then Empty(last)
      else GotSeq(last, tries, s.mem.writeSeq)
    case GotSeq(last, tries, n) => GotActive(last, tries, n, s.mem.activeSlot)
    case GotActive(last, tries, n, active) =>
      var size := s.mem.frameSize;
      if active >= SLOTS || size == 0 || size > s.slotBytes then Retry(last, tries)
      else CopyOut(last, tries, n, active, size, [])
    case CopyOut(last, tries, n, active, size, copy) =>
      if |copy| < size && active < |s.mem.slots| && |copy| < |s.mem.slots[active]| then
        CopyOut(last, tries, n, active, size, copy + [s.mem.slots[active][|copy|]])
      else Recheck(last, tries, n, copy)
    case Recheck(last, tries, n, copy) =>
      if s.mem.writeSeq != n then Retry(last, tries) else Returned(last, copy, n)
  }

  function Apply(s: State, e: Event): State {
    match e
    case Publish(jpg) => BeginPublish(s, jpg)
    case WriterMove => WriterStep(s)
    case WriterFail => FailPublish(s)
    case Call(r, last) => s.(readers := s.readers[r := Load(last, READ_RETRIES)])
    case ReaderMove(r) =>
      if r in s.readers then s.(readers := s.readers[r := ReaderStep(s, s.readers[r])]) else s
  }

  function Run(s: State, events: seq<Event>): State {
    if events == [] then s
    else Apply(Run(s, events[..|events| - 1]), events[|events| - 1])
  }

  // ── the invariant ──────────────────────────────────────────────────────────

  ghost predicate Shaped(s: State) {
    |s.mem.slots| == SLOTS && |s.mem.slots[0]| == s.slotBytes && |s.mem.slots[1]| == s.slotBytes
    && s.mem.activeSlot < SLOTS
  }

  /** The counter is even only between publications, and then equals the writer's own. */
  ghost predicate Counted(s: State) {
    && s.writer.seqNo % 2 == 0
    && s.mem.writeSeq <= s.writer.seqNo + 1
    && (s.mem.writeSeq % 2 == 0 ==> s.mem.writeSeq == s.writer.seqNo && s.writer.pc.Idle?)
    && (s.writer.pc.CloseNext? ==> s.mem.writeSeq < s.writer.seqNo)
  }

  /** What the writer has stored so far inside its window. */
  ghost predicate Stored(s: State)
    requires Shaped(s)
  {
    match s.writer.pc
    case Idle => true
    case Opened(jpg) => |jpg| <= s.slotBytes
    case Copying(jpg, slot, copied) =>
      copied <= |jpg| <= s.slotBytes && slot < SLOTS && s.mem.slots[slot][..copied] == jpg[..copied]
    case SizeNext(jpg, slot) => |jpg| <= s.slotBytes && slot < SLOTS && s.mem.slots[slot][..|jpg|] == jpg
    case ActiveNext(jpg, slot) =>
      |jpg| <= s.slotBytes && slot < SLOTS && s.mem.slots[slot][..|jpg|] == jpg && s.mem.frameSize == |jpg|
    case CountNext(jpg) =>
      |jpg| <= s.slotBytes && s.mem.slots[s.mem.activeSlot][..|jpg|] == jpg && s.mem.frameSize == |jpg|
    case CloseNext(jpg) =>
      |jpg| <= s.slotBytes && s.mem.slots[s.mem.activeSlot][..|jpg|] == jpg && s.mem.frameSize == |jpg|
  }

  /** Under an even counter the active slot holds exactly what was published under it. */
  ghost predicate Settled(s: State)
    requires Shaped(s)
  {
    s.mem.writeSeq % 2 == 0 ==>
      && s.mem.writeSeq in s.published && s.mem.frameSize <= s.slotBytes
      && s.mem.slots[s.mem.activeSlot][..s.mem.frameSize] == s.published[s.mem.writeSeq]
  }

  ghost predicate HistoryOk(s: State) {
    forall n :: n in s.published ==> n % 2 == 0 && n <= s.mem.writeSeq
  }

  /** What a reader holds is right as long as the counter has not moved on. */
  ghost predicate ReaderOk(s: State, pc: ReaderPc)
    requires Shaped(s)
  {
    match pc
    case GotSeq(last, _, n) => n % 2 == 0 && last < n <= s.mem.writeSeq
    case GotActive(last, _, n, active) =>
      n % 2 == 0 && last < n <= s.mem.writeSeq && (s.mem.writeSeq == n ==> active == s.mem.activeSlot)
    case CopyOut(last, _, n, active, size, copy) =>
      && n % 2 == 0 && last < n <= s.mem.writeSeq && |copy| <= size && 0 < size <= s.slotBytes && active < SLOTS
      && (s.mem.writeSeq == n ==> active == s.mem.activeSlot && size == s.mem.frameSize
                                  && copy == s.mem.slots[active][..|copy|])
    case Recheck(last, _, n, copy) =>
      && n % 2 == 0 && last < n <= s.mem.writeSeq && copy != []
      && (s.mem.writeSeq == n ==> n in s.published && copy == s.published[n])
    case Returned(last, frame, n) => last < n && frame != [] && n in s.published && s.published[n] == frame
    case _ => true
  }

  ghost predicate ReadersOk(s: State)
    requires Shaped(s)
  {
    forall r :: r in s.readers ==> ReaderOk(s, s.readers[r])
  }

  ghost predicate Inv(s: State) {
    Shaped(s) && Counted(s) && Stored(s) && Settled(s) && HistoryOk(s) && ReadersOk(s)
  }

  /** A step that moves the counter past n, or leaves everything a reader looked at alone, keeps the reader right. */
  lemma ReaderFrame(s: State, t: State, pc: ReaderPc)
    requires Shaped(s) && Shaped(t) && ReaderOk(s, pc) && s.slotBytes == t.slotBytes
    requires s.mem.writeSeq <= t.mem.writeSeq
    requires t.mem.writeSeq % 2 == 0 && t.mem.writeSeq == s.mem.writeSeq ==> t.mem == s.mem
    requires forall n :: n in s.published ==> n in t.published && t.published[n] == s.published[n]
    ensures ReaderOk(t, pc)
  {
  }

  /** The writer's own part of the invariant. */
  lemma WriterStepStored(s: State)
    requires Inv(s)
    ensures var t := WriterStep(s); Shaped(t) && Counted(t) && Stored(t)
  {
    if s.writer.pc.Copying? {
      var t := WriterStep(s);
      var jpg, slot, k := s.writer.pc.jpg, s.writer.pc.slot, s.writer.pc.copied;
      if k < |jpg| {
        assert t.mem.slots[slot][..k + 1] == s.mem.slots[slot][..k] + [jpg[k]];
        assert jpg[..k + 1] == jpg[..k] + [jpg[k]];
      } else {
        assert jpg[..k] == jpg;
      }
    }
  }

  lemma WriterStepInv(s: State)
    requires Inv(s)
    ensures Inv(WriterStep(s))
  {
    WriterStepStored(s);
    var t := WriterStep(s);
    forall r | r in t.readers ensures ReaderOk(t, t.readers[r]) {
      ReaderFrame(s, t, s.readers[r]);
    }
  }

  lemma BeginInv(s: State, jpg: Bytes)
    requires Inv(s)
    ensures Inv(BeginPublish(s, jpg))
  {
    var t := BeginPublish(s, jpg);
    forall r | r in t.readers ensures ReaderOk(t, t.readers[r]) {
      ReaderFrame(s, t, s.readers[r]);
    }
  }

  lemma FailInv(s: State)
    requires Inv(s)
    ensures Inv(FailPublish(s))
  {
    var t := FailPublish(s);
    forall r | r in t.readers ensures ReaderOk(t, t.readers[r]) {
      ReaderFrame(s, t, s.readers[r]);
    }
  }

  lemma ReaderStepOk(s: State, pc: ReaderPc)
    requires Inv(s) && ReaderOk(s, pc)
    ensures ReaderOk(s, ReaderStep(s, pc))
  {
    if pc.CopyOut? && |pc.copy| < pc.size {
      var slot, k := s.mem.slots[pc.active], |pc.copy|;
      assert slot[..k + 1] == slot[..k] + [slot[k]];
    }
  }

  lemma ApplyInv(s: State, e: Event)
    requires Inv(s)
    ensures Inv(Apply(s, e))
  {
    match e
    case Publish(jpg) => BeginInv(s, jpg);
    case WriterMove => WriterStepInv(s);
    case WriterFail => FailInv(s);
    case Call(r, last) =>
    case ReaderMove(r) => if r in s.readers { ReaderStepOk(s, s.readers[r]); }
  }

  lemma {:induction false} RunInv(s: State, events: seq<Event>)
    requires Inv(s)
    ensures Inv(Run(s, events)) && Run(s, events).slotBytes == s.slotBytes
  {
    if events != [] {
      RunInv(s, events[..|events| - 1]);
      ApplyInv(Run(s, events[..|events| - 1]), events[|events| - 1]);
    }
  }

  /** Whatever the interleaving and whichever publishes fail: a frame a reader returns is exactly the
      bytes published under the number it returns, and newer than the caller's last one. */
  lemma NoTornFrame(slotBytes: nat, slots: seq<Bytes>, events: seq<Event>, reader: nat)
    requires |slots| == SLOTS && |slots[0]| == slotBytes && |slots[1]| == slotBytes
    requires var s := Run(Fresh(slotBytes, slots), events); reader in s.readers && s.readers[reader].Returned?
    ensures var s := Run(Fresh(slotBytes, slots), events);
      var got := s.readers[reader];
      got.s in s.published && s.published[got.s] == got.frame && got.frame != [] && got.last < got.s
  {
    RunInv(Fresh(slotBytes, slots), events);
  }

  // ── failed publishes ───────────────────────────────────────────────────────

  /** While the window is open, and so also after a publish that failed inside it, no reader returns. */
  lemma OpenWindowHides(s: State, pc: ReaderPc)
    requires Inv(s) && ReaderOk(s, pc) && s.mem.writeSeq % 2 == 1 && !pc.Returned?
    ensures !ReaderStep(s, pc).Returned?
  {
  }

  /** A publish that fails inside its window adds nothing to the history and leaves the window open. */
  lemma FailureStaysHidden(s: State)
    requires Inv(s) && !s.writer.pc.Idle?
    ensures FailPublish(s).published == s.published && FailPublish(s).mem.writeSeq % 2 == 1
    ensures FailPublish(s).writer.pc.Idle? && FailPublish(s).writer.seqNo == s.writer.seqNo
  {
  }

  function WriterMoves(s: State, n: nat): State
    decreases n
  {
    if n == 0 then s else WriterMoves(WriterStep(s), n - 1)
  }

  /** Steps left until the window closes. */
  function Remaining(pc: WriterPc): nat {
    match pc
    case Idle => 0
    case Opened(jpg) => |jpg| + 6
    case Copying(jpg, _, copied) => if copied <= |jpg| then |jpg| - copied + 5 else 5
    case SizeNext(_, _) => 4
    case ActiveNext(_, _) => 3
    case CountNext(_) => 2
    case CloseNext(_) => 1
  }

  /** The number the publication under way will get. */
  function NextNumber(w: Writer): nat {
    if w.pc.CloseNext? then w.seqNo else w.seqNo + 2
  }

  lemma {:induction false} WindowCloses(s: State)
    requires Inv(s) && !s.writer.pc.Idle?
    ensures var t := WriterMoves(s, Remaining(s.writer.pc));
      && t.writer.pc.Idle? && t.mem.writeSeq == NextNumber(s.writer)
      && t.published == s.published[NextNumber(s.writer) := s.writer.pc.jpg]
      && t.readers == s.readers && t.slotBytes == s.slotBytes
    decreases Remaining(s.writer.pc)
  {
    WriterStepInv(s);
    var t := WriterStep(s);
    if !s.writer.pc.CloseNext? {
      WindowCloses(t);
    }
  }

  /** The next publish repairs the ring: however earlier ones ended, run to its end it closes the
      window under a fresh even number with its own bytes as that number's frame. */
  lemma PublishRepairs(s: State, jpg: Bytes)
    requires Inv(s) && s.writer.pc.Idle? && |jpg| <= s.slotBytes
    ensures var t := WriterMoves(BeginPublish(s, jpg), |jpg| + 6);
      && t.writer.pc.Idle? && t.mem.writeSeq == s.writer.seqNo + 2
      && t.published == s.published[t.mem.writeSeq := jpg] && t.readers == s.readers && t.slotBytes == s.slotBytes
  {
    BeginInv(s, jpg);
    WindowCloses(BeginPublish(s, jpg));
  }

  lemma {:induction false} MovesInv(s: State, n: nat)
    requires Inv(s)
    ensures Inv(WriterMoves(s, n))
    decreases n
  {
    if n > 0 {
      WriterStepInv(s);
      MovesInv(WriterStep(s), n - 1);
    }
  }

  function ReaderMoves(s: State, pc: ReaderPc, n: nat): ReaderPc
    decreases n
  {
    if n == 0 then pc else ReaderMoves(s, ReaderStep(s, pc), n - 1)
  }

  /** Any try of a call between two publications returns the newest frame, unless it is empty or known. */
  lemma QuietTryReturns(s: State, last: int, tries: nat, n: nat, frame: Bytes)
    requires Inv(s) && n % 2 == 0 && s.mem.writeSeq == n && last < n
    requires n in s.published && s.published[n] == frame && frame != []
    ensures ReaderMoves(s, Load(last, tries), |frame| + 5) == Returned(last, frame, n)
  {
    var a := s.mem.activeSlot;
    assert |frame| == s.mem.frameSize;
    var p1 := ReaderStep(s, Load(last, tries));
    var p2 := ReaderStep(s, p1);
    var p3 := ReaderStep(s, p2);
    assert p3 == CopyOut(last, tries, n, a, |frame|, frame[..0]);
    CopyOutRuns(s, last, tries, n, frame, 0, |frame| + 2);
    assert ReaderMoves(s, p3, |frame| + 2) == Returned(last, frame, n);
    assert ReaderMoves(s, p2, |frame| + 3) == ReaderMoves(s, p3, |frame| + 2);
    assert ReaderMoves(s, p1, |frame| + 4) == ReaderMoves(s, p2, |frame| + 3);
  }

  lemma {:induction false} CopyOutRuns(s: State, last: int, tries: nat, n: nat, frame: Bytes, k: nat, moves: nat)
    requires Inv(s) && s.mem.writeSeq == n && n % 2 == 0 && s.published[n] == frame && k <= |frame| == s.mem.frameSize
    requires moves == |frame| - k + 2
    ensures ReaderMoves(s, CopyOut(last, tries, n, s.mem.activeSlot, |frame|, frame[..k]), moves)
         == Returned(last, frame, n)
    decreases |frame| - k
  {
    var pc := CopyOut(last, tries, n, s.mem.activeSlot, |frame|, frame[..k]);
    if k == |frame| {
      assert frame[..k] == frame;
      assert ReaderStep(s, pc) == Recheck(last, tries, n, frame);
      assert ReaderMoves(s, Recheck(last, tries, n, frame), 1) == Returned(last, frame, n);
    } else {
      var slot := s.mem.slots[s.mem.activeSlot];
      assert slot[..s.mem.frameSize][k] == frame[k];
      assert frame[..k + 1] == frame[..k] + [slot[k]];
      CopyOutRuns(s, last, tries, n, frame, k + 1, moves - 1);
    }
  }

  /** What a new call of reader r starts with. */
  function Calling(s: State, r: nat, last: int): ReaderPc {
    Apply(s, Call(r, last)).readers[r]
  }

  /** A call that runs between two publications returns the newest frame, unless it is empty or known. */
  lemma QuietReadReturns(s: State, r: nat, last: int, n: nat, frame: Bytes)
    requires Inv(s) && n % 2 == 0 && s.mem.writeSeq == n && last < n
    requires n in s.published && s.published[n] == frame && frame != []
    ensures ReaderMoves(s, Calling(s, r, last), |frame| + 5) == Returned(last, frame, n)
  {
    QuietTryReturns(s, last, READ_RETRIES, n, frame);
  }

  lemma {:induction false} Blocked(s: State, last: int, tries: nat, k: nat)
    requires s.mem.writeSeq % 2 == 1 && k < tries
    ensures ReaderMoves(s, Load(last, tries), k) == Load(last, tries - k)
    decreases k
  {
    if k > 0 {
      Blocked(s, last, tries - 1, k - 1);
    }
  }

  /** A call that meets an open window up to three times still returns the frame published when it closes;
      meeting it four times it gives up. */
  lemma OpenWindowOutlasted(s: State, t: State, r: nat, last: int, k: nat, n: nat, frame: Bytes)
    requires s.mem.writeSeq % 2 == 1 && Inv(t) && n % 2 == 0 && t.mem.writeSeq == n && last < n
    requires n in t.published && t.published[n] == frame && frame != []
    ensures k <= 3 ==> ReaderMoves(t, ReaderMoves(s, Calling(s, r, last), k), |frame| + 5) == Returned(last, frame, n)
    ensures ReaderMoves(s, Calling(s, r, last), 4) == Empty(last)
  {
    if k <= 3 {
      Blocked(s, last, 4, k);
      QuietTryReturns(t, last, 4 - k, n, frame);
    }
    Blocked(s, last, 4, 3);
    MovesOnce(s, Load(last, 4), 3);
  }

  lemma {:induction false} MovesOnce(s: State, pc: ReaderPc, k: nat)
    ensures ReaderMoves(s, pc, k + 1) == ReaderStep(s, ReaderMoves(s, pc, k))
    decreases k
  {
    if k > 0 {
      MovesOnce(s, ReaderStep(s, pc), k - 1);
    }
  }

  /** A copy the writer has overtaken is thrown away, and while a try is left the newer frame is returned. */
  lemma OvertakenReadsAgain(s: State, last: int, tries: nat, stale: nat, copy: Bytes, n: nat, frame: Bytes)
    requires Inv(s) && n % 2 == 0 && s.mem.writeSeq == n && last < n && stale != n && tries > 1
    requires n in s.published && s.published[n] == frame && frame != []
    ensures ReaderMoves(s, Recheck(last, tries, stale, copy), |frame| + 6) == Returned(last, frame, n)
  {
    QuietTryReturns(s, last, tries - 1, n, frame);
  }

  /** A frame published after any history, failed publishes included, reaches the next quiet caller. */
  lemma PublishedIsReadable(s: State, jpg: Bytes, r: nat, last: int, t: State)
    requires Inv(s) && s.writer.pc.Idle? && 0 < |jpg| <= s.slotBytes && last < s.writer.seqNo + 2
    requires t == WriterMoves(BeginPublish(s, jpg), |jpg| + 6)
    ensures ReaderMoves(t, Calling(t, r, last), |jpg| + 5) == Returned(last, jpg, s.writer.seqNo + 2)
  {
    BeginInv(s, jpg);
    MovesInv(BeginPublish(s, jpg), |jpg| + 6);
    PublishRepairs(s, jpg);
    QuietReadReturns(t, r, last, s.writer.seqNo + 2, jpg);
  }

  // ── the slot of the frame before ───────────────────────────────────────────

  /** The slot kept is not the one the writer fills. */
  ghost predicate Sparing(s: State, keep: nat) {
    match s.writer.pc
    case Opened(_) => s.mem.activeSlot == keep
    case Copying(_, slot, _) => slot != keep
    case SizeNext(_, slot) => slot != keep
    case ActiveNext(_, slot) => slot != keep
    case _ => s.mem.activeSlot != keep
  }

  lemma {:induction false} SparesOn(s: State, keep: nat, n: nat)
    requires Inv(s) && Sparing(s, keep) && keep < SLOTS
    ensures var t := WriterMoves(s, n); Inv(t) && Sparing(t, keep) && t.mem.slots[keep] == s.mem.slots[keep]
    decreases n
  {
    if n > 0 {
      WriterStepInv(s);
      SparesOn(WriterStep(s), keep, n - 1);
    }
  }

  /** A publication never touches the slot of the frame published before, and ends with the other slot
      active. */
  lemma PublicationSparesSlot(s: State, jpg: Bytes, n: nat)
    requires Inv(s) && s.writer.pc.Idle? && |jpg| <= s.slotBytes
    ensures var t := WriterMoves(BeginPublish(s, jpg), n);
      && Shaped(t) && t.mem.slots[s.mem.activeSlot] == s.mem.slots[s.mem.activeSlot]
      && (t.writer.pc.Idle? ==> t.mem.activeSlot != s.mem.activeSlot)
  {
    BeginInv(s, jpg);
    SparesOn(BeginPublish(s, jpg), s.mem.activeSlot, n);
  }

  // ── from events to frames ──────────────────────────────────────────────────

  lemma {:induction false} RunAdd(s: State, a: seq<Event>, b: seq<Event>)
    ensures Run(s, a + b) == Run(Run(s, a), b)
  {
    if b == [] {
      assert a + b == a;
    } else {
      RunAdd(s, a, b[..|b| - 1]);
      assert (a + b)[..|a + b| - 1] == a + b[..|b| - 1];
    }
  }

  function Times(e: Event, n: nat): seq<Event> {
    seq(n, _ => e)
  }

  lemma RunFirst(s: State, e: Event, n: nat)
    requires n > 0
    ensures Run(s, Times(e, n)) == Run(Apply(s, e), Times(e, n - 1))
  {
    assert Times(e, n) == [e] + Times(e, n - 1);
    RunAdd(s, [e], Times(e, n - 1));
    assert [e][..0] == [];
  }

  lemma {:induction false} WriterRuns(s: State, n: nat)
    ensures Run(s, Times(WriterMove, n)) == WriterMoves(s, n)
    decreases n
  {
    if n > 0 {
      RunFirst(s, WriterMove, n);
      WriterRuns(WriterStep(s), n - 1);
    }
  }

  lemma {:induction false} ReaderRuns(s: State, base: State, r: nat, n: nat)
    requires r in s.readers && s.mem == base.mem && s.slotBytes == base.slotBytes
    ensures var t := Run(s, Times(ReaderMove(r), n)); r in t.readers && t.readers[r] == ReaderMoves(base, s.readers[r], n)
    decreases n
  {
    if n > 0 {
      RunFirst(s, ReaderMove(r), n);
      ReaderRuns(Apply(s, ReaderMove(r)), base, r, n - 1);
    }
  }

  /** After any events on a fresh ring: a frame published now, and a call made then, hand that frame over. */
  lemma PublishThenCall(slotBytes: nat, slots: seq<Bytes>, before: seq<Event>, jpg: Bytes, r: nat, last: int)
    requires |slots| == SLOTS && |slots[0]| == slotBytes && |slots[1]| == slotBytes
    requires var s := Run(Fresh(slotBytes, slots), before);
      s.writer.pc.Idle? && 0 < |jpg| <= slotBytes && last < s.writer.seqNo + 2
    ensures var s := Run(Fresh(slotBytes, slots), before);
      var t := Run(Run(Run(s, [Publish(jpg)]), Times(WriterMove, |jpg| + 6)), [Call(r, last)]);
      var u := Run(t, Times(ReaderMove(r), |jpg| + 5));
      r in u.readers && u.readers[r] == Returned(last, jpg, s.writer.seqNo + 2)
  {
    RunInv(Fresh(slotBytes, slots), before);
    var s := Run(Fresh(slotBytes, slots), before);
    assert [Publish(jpg)][..0] == [] && [Call(r, last)][..0] == [];
    WriterRuns(BeginPublish(s, jpg), |jpg| + 6);
    var done := WriterMoves(BeginPublish(s, jpg), |jpg| + 6);
    PublishedIsReadable(s, jpg, r, last, done);
    ReaderRuns(Apply(done, Call(r, last)), done, r, |jpg| + 5);
  }
}
