/** The dataset registry (training-service/service/dataset_registry.py) over the file system: concurrent
    operations as sequences of file steps, a crash possible before any of them, and the restart that
    rebuilds the registry from what is on disk. */
module DatasetRegistry {
  import opened Basics

  // ── directory names ────────────────────────────────────────────────────────

  /** An entry of the datasets directory. */
  datatype Name = Plain(text: string) | Staging(id: string) | Tombstone(id: string, nonce: string)

  const TOMBSTONE_PREFIX := ".deleting-"
  const STAGING_PREFIX := ".import-"
  const ID_CHARS := "0123456789abcdef-"

  /** The name as the file system shows it. */
  function Shown(n: Name): string {
    match n
    case Plain(text) => text
    case Staging(id) => STAGING_PREFIX + id
    case Tombstone(id, nonce) => TOMBSTONE_PREFIX + id + "-" + nonce
  }

  predicate ValidId(name: string) {
    name != "" && forall k :: 0 <= k < |name| ==> name[k] in ID_CHARS
  }

  /** A lower-case hexadecimal digit or a dash. */
  predicate IdChar(c: char) {
    '0' <= c <= '9' || 'a' <= c <= 'f' || c == '-'
  }

  lemma ValidIdMeaning(name: string)
    ensures ValidId(name) <==> name != "" && forall c :: c in name ==> IdChar(c)
  {
    assert forall c :: c in ID_CHARS <==> IdChar(c);
  }

  predicate Dotted(name: string) {
    name != "" && name[0] == '.'
  }

  /** What a start-up registers, judged on the shown name. */
  predicate Scannable(name: string, hasMeta: bool) {
    !Dotted(name) && hasMeta && ValidId(name)
  }

  /** The shown names of tombstones and staging directories are never scanned, whatever they hold, and
      the sweep's prefix test picks out no other of the registry's own names. */
  lemma HiddenNames(n: Name, hasMeta: bool)
    ensures !n.Plain? ==> !Scannable(Shown(n), hasMeta)
    ensures n.Plain? ==> (Scannable(Shown(n), hasMeta) <==> hasMeta && n.text != "" && forall c :: c in n.text ==> IdChar(c))
    ensures n.Tombstone? ==> TOMBSTONE_PREFIX <= Shown(n)
    ensures n.Staging? || (n.Plain? && ValidId(n.text)) ==> !(TOMBSTONE_PREFIX <= Shown(n))
  {
    ValidIdMeaning(Shown(n));
    if n.Staging? {
      assert Shown(n)[1] == 'i' && TOMBSTONE_PREFIX[1] == 'd';
    }
    if n.Plain? && ValidId(n.text) {
      assert n.text[0] in ID_CHARS;
      assert n.text[0] != TOMBSTONE_PREFIX[0];
    }
  }

  // ── the disk and its history ─────────────────────────────────────────────────

  /** What made a dataset exist or go. */
  datatype Mark = Saved(id: string) | Tombstoned(id: string)

  /** dirs says of every directory whether it holds a meta.json; used are the ids ever taken. */
  datatype Disk = Disk(dirs: map<Name, bool>, legacy: bool, used: set<string>, log: seq<Mark>)

  predicate HasMeta(d: Disk, id: string) {
    Plain(id) in d.dirs && d.dirs[Plain(id)]
  }

  /** An atomic metadata write; it makes the directory when that is missing. */
  function SaveMeta(d: Disk, id: string): Disk {
    d.(dirs := d.dirs[Plain(id) := true], log := d.log + [Saved(id)])
  }

  function MakeDir(d: Disk, n: Name, id: string): Disk {
    d.(dirs := d.dirs[n := false], used := d.used + {id})
  }

  function Drop(d: Disk, n: Name): Disk {
    d.(dirs := d.dirs - {n})
  }

  /** One rename: the staged import takes its final name. */
  function Publish(d: Disk, id: string): Disk {
    d.(dirs := (d.dirs - {Staging(id)})[Plain(id) := false])
  }

  /** One rename: the dataset becomes a tombstone. */
  function RenameAway(d: Disk, id: string, nonce: string): Disk
    requires Plain(id) in d.dirs
  {
    d.(dirs := (d.dirs - {Plain(id)})[Tombstone(id, nonce) := d.dirs[Plain(id)]], log := d.log + [Tombstoned(id)])
  }

  /** The last thing that happened to id's metadata was being saved, not being tombstoned. */
  predicate Alive(start: Disk, log: seq<Mark>, id: string) {
    if log == [] then HasMeta(start, id)
    else if log[|log| - 1].id == id then log[|log| - 1].Saved?
    else Alive(start, log[..|log| - 1], id)
  }

  /** Disk and history agree on which datasets exist. */
  ghost predicate Recorded(d: Disk, start: Disk) {
    && (forall id :: HasMeta(d, id) <==> Alive(start, d.log, id))
    && (forall id :: Plain(id) in d.dirs ==> id in d.used)
  }

  lemma AliveAppend(start: Disk, log: seq<Mark>, m: Mark, id: string)
    ensures Alive(start, log + [m], id) == (if m.id == id then m.Saved? else Alive(start, log, id))
  {
    assert (log + [m])[..|log|] == log;
  }

  lemma SaveRecorded(d: Disk, start: Disk, id: string)
    requires Recorded(d, start) && id in d.used
    ensures Recorded(SaveMeta(d, id), start)
  {
    AppendRecorded(d, SaveMeta(d, id), start, Saved(id));
  }

  lemma MoveRecorded(d: Disk, start: Disk, id: string, nonce: string)
    requires Recorded(d, start) && Plain(id) in d.dirs
    ensures Recorded(RenameAway(d, id, nonce), start)
  {
    AppendRecorded(d, RenameAway(d, id, nonce), start, Tombstoned(id));
  }

  lemma AppendRecorded(d: Disk, after: Disk, start: Disk, m: Mark)
    requires Recorded(d, start) && after.log == d.log + [m] && after.used == d.used
    requires forall j :: HasMeta(after, j) <==> if j == m.id then m.Saved? else HasMeta(d, j)
    requires forall j :: Plain(j) in after.dirs ==> j in d.used
    ensures Recorded(after, start)
  {
    forall j ensures HasMeta(after, j) <==> Alive(start, after.log, j) {
      AliveAppend(start, d.log, m, j);
      assert HasMeta(d, j) <==> Alive(start, d.log, j);
    }
  }

  /** Making or dropping directories changes no dataset, as long as no dataset had that name. */
  lemma QuietRecorded(d: Disk, after: Disk, start: Disk)
    requires Recorded(d, start) && after.log == d.log && d.used <= after.used
    requires forall id :: HasMeta(after, id) <==> HasMeta(d, id)
    requires forall id :: Plain(id) in after.dirs ==> Plain(id) in d.dirs || id in after.used
    ensures Recorded(after, start)
  {
    forall id ensures HasMeta(after, id) <==> Alive(start, after.log, id) {
      assert HasMeta(d, id) <==> Alive(start, d.log, id);
    }
  }

  lemma {:induction false} AliveAfterTombstone(start: Disk, log: seq<Mark>, k: nat, id: string)
    requires k < |log| && log[k] == Tombstoned(id)
    requires forall j :: k < j < |log| ==> log[j] != Tombstoned(id)
    ensures Alive(start, log, id) <==> exists j :: k < j < |log| && log[j] == Saved(id)
  {
    var n := |log| - 1;
    if k < n {
      AliveAfterTombstone(start, log[..n], k, id);
      if log[n].id == id {
        assert log[n] == Saved(id);
      } else if exists j :: k < j < |log| && log[j] == Saved(id) {
        var j :| k < j < |log| && log[j] == Saved(id);
        assert log[..n][j] == Saved(id);
      }
    }
  }

  // ── the process ────────────────────────────────────────────────────────────

  /** What a running operation does next; register: the new dataset is registered afterwards. */
  datatype Op =
    | Filling(id: string)
    | MetaNext(id: string, register: bool)
    | RegisterNext(id: string)
    | PopNext(id: string, moved: Option<string>)
    | RemoveTree(id: string, nonce: string)
    | SaveNext(id: string)

  /** lock is the operation that stays inside the registry lock for more than one step. */
  datatype State = State(
    disk: Disk, booting: bool, registered: set<string>, frozen: set<string>, holders: map<nat, string>,
    lock: Option<nat>, ops: map<nat, Op>)

  datatype Event =
    | Migrate(op: nat, id: string)
    | Sweep(name: Name, removed: bool)
    | Scan
    | Crash
    | Create(op: nat, id: string)
    | Import(op: nat, id: string)
    | Delete(op: nat, id: string, nonce: string)
    | Lookup(op: nat, id: string)
    | Freeze(job: nat, id: string)
    | Release(job: nat)
    | Step(op: nat, whole: bool)
    | Fail(op: nat, cleaned: bool)

  function Done(s: State, o: nat): State {
    s.(ops := s.ops - {o})
  }

  function Next(s: State, o: nat, op: Op): State {
    s.(ops := s.ops[o := op])
  }

  function StepOp(s: State, o: nat, op: Op, whole: bool): State {
    match op
    case Filling(id) => Next(s.(disk := Publish(s.disk, id)), o, MetaNext(id, true))
    case MetaNext(id, register) =>
      var saved := s.(disk := SaveMeta(s.disk, id));
      if register then Next(saved, o, RegisterNext(id)) else Done(saved, o)
    case RegisterNext(id) =>
      if s.lock.Some? then s else Done(s.(registered := s.registered + {id}), o)
    case PopNext(id, moved) =>
      var popped := s.(registered := s.registered - {id}, lock := None);
      if moved.Some? then Next(popped, o, RemoveTree(id, moved.value)) else Done(popped, o)
    case RemoveTree(id, nonce) =>
      Done(s.(disk := if whole then Drop(s.disk, Tombstone(id, nonce)) else s.disk), o)
    case SaveNext(id) => Done(s.(disk := SaveMeta(s.disk, id)), o)
  }

  /** An exception ends the operation; a failed import removes its staging directory as far as it can.
      Once renamed away, a dataset always leaves the registry: the pop does not raise. */
  function FailOp(s: State, o: nat, op: Op, cleaned: bool): State {
    match op
    case PopNext(_, _) => s
    case Filling(id) => Done(s.(disk := if cleaned then Drop(s.disk, Staging(id)) else s.disk), o)
    case _ => Done(s, o)
  }

  /** Under the lock: refuse a frozen or unknown dataset, else rename it away in one step. */
  function BeginDelete(s: State, o: nat, id: string, nonce: string): State {
    if s.lock.Some? || id !in s.registered || id in s.frozen then s
    else if Plain(id) !in s.disk.dirs then Next(s.(lock := Some(o)), o, PopNext(id, None))
    else Next(s.(disk := RenameAway(s.disk, id, nonce), lock := Some(o)), o, PopNext(id, Some(nonce)))
  }

  /** Nothing in memory survives. */
  function Restarted(s: State): State {
    State(s.disk, true, {}, {}, map[], None, map[])
  }

  predicate FreshId(s: State, id: string) {
    ValidId(id) && id !in s.disk.used
  }

  function Boot(s: State, e: Event): State {
    match e
    case Migrate(o, id) =>
      if !s.disk.legacy || s.ops != map[] || !FreshId(s, id) then s
      else Next(s.(disk := MakeDir(s.disk, Plain(id), id).(legacy := false)), o, MetaNext(id, false))
    case Sweep(name, removed) =>
      if removed && name.Tombstone? then s.(disk := Drop(s.disk, name)) else s
    case Scan =>
      if s.ops != map[] then s
      else
        s.(booting := false,
           registered := set n | n in s.disk.dirs && Scannable(Shown(n), s.disk.dirs[n]) :: Shown(n))
    case _ => s
  }

  function Serve(s: State, e: Event): State {
    match e
    case Create(o, id) =>
      if o in s.ops || !FreshId(s, id) then s
      else Next(s.(disk := MakeDir(s.disk, Plain(id), id)), o, MetaNext(id, true))
    case Import(o, id) =>
      if o in s.ops || !FreshId(s, id) then s
      else Next(s.(disk := MakeDir(s.disk, Staging(id), id)), o, Filling(id))
    case Delete(o, id, nonce) => if o in s.ops then s else BeginDelete(s, o, id, nonce)
    case Lookup(o, id) =>
      if o in s.ops || s.lock.Some? || id !in s.registered then s else Next(s, o, SaveNext(id))
    case Freeze(job, id) =>
      if s.lock.Some? || job in s.holders || id !in s.registered || id in s.frozen then s
      else s.(frozen := s.frozen + {id}, holders := s.holders[job := id])
    case Release(job) =>
      if s.lock.Some? || job !in s.holders then s
      else s.(frozen := s.frozen - {s.holders[job]}, holders := s.holders - {job})
    case _ => s
  }

  function Apply(s: State, e: Event): State {
    match e
    case Crash => Restarted(s)
    case Step(o, whole) => if o in s.ops then StepOp(s, o, s.ops[o], whole) else s
    case Fail(o, cleaned) => if o in s.ops then FailOp(s, o, s.ops[o], cleaned) else s
    case _ => if s.booting then Boot(s, e) else Serve(s, e)
  }

  function Run(s: State, events: seq<Event>): State {
    if events == [] then s
    else Apply(Run(s, events[..|events| - 1]), events[|events| - 1])
  }

  /** A disk with whatever was on it before. */
  ghost predicate Found(d: Disk) {
    d.log == [] && forall id :: Plain(id) in d.dirs ==> id in d.used
  }

  function Initial(disk: Disk): State {
    State(disk, true, {}, {}, map[], None, map[])
  }

  // ── the invariant ──────────────────────────────────────────────────────────

  predicate Creating(op: Op) {
    op.Filling? || op.MetaNext? || op.RegisterNext?
  }

  /** A dataset being created is nobody else's business yet. */
  ghost predicate Private(s: State) {
    && (forall o :: o in s.ops ==> s.ops[o].id in s.disk.used)
    && (forall o :: o in s.ops && Creating(s.ops[o]) ==> s.ops[o].id !in s.registered)
    && (forall o, p :: o in s.ops && p in s.ops && o != p && Creating(s.ops[o]) ==> s.ops[p].id != s.ops[o].id)
  }

  /** Only a delete between its rename and its pop keeps the lock. */
  ghost predicate Locked(s: State) {
    && (s.lock.Some? ==> s.lock.value in s.ops)
    && (forall o :: o in s.ops ==> (s.ops[o].PopNext? <==> s.lock == Some(o)))
  }

  ghost predicate Staged(s: State) {
    && (forall o :: o in s.ops && s.ops[o].Filling? ==> Plain(s.ops[o].id) !in s.disk.dirs)
    && (forall o :: o in s.ops && s.ops[o].RegisterNext? ==> HasMeta(s.disk, s.ops[o].id))
  }

  /** The dataset has been renamed away and is about to leave the registry. */
  predicate Popping(s: State, id: string) {
    s.lock.Some? && s.lock.value in s.ops && s.ops[s.lock.value].id == id
  }

  /** Every registered dataset has its directory and metadata. */
  ghost predicate Backed(s: State) {
    && s.registered <= s.disk.used
    && forall id :: id in s.registered && !Popping(s, id) ==> HasMeta(s.disk, id)
  }

  /** Every freeze has exactly one holder, and its dataset is registered and not on its way out. */
  ghost predicate Held(s: State) {
    && (forall id :: id in s.frozen ==> id in s.registered && !Popping(s, id))
    && (forall j :: j in s.holders ==> s.holders[j] in s.frozen)
    && (forall j, k :: j in s.holders && k in s.holders && s.holders[j] == s.holders[k] ==> j == k)
    && (forall id :: id in s.frozen ==> exists j :: j in s.holders && s.holders[j] == id)
  }

  ghost predicate Inv(s: State, start: Disk) {
    && Recorded(s.disk, start) && Private(s) && Locked(s) && Staged(s) && Backed(s) && Held(s)
    && Booting(s)
  }

  /** Before the scan nothing is registered, and only the migration runs. */
  ghost predicate Booting(s: State) {
    s.booting ==> s.registered == {} && forall o :: o in s.ops ==> s.ops[o] == MetaNext(s.ops[o].id, false)
  }

  lemma StepRecorded(s: State, start: Disk, o: nat, whole: bool)
    requires Inv(s, start) && o in s.ops
    ensures Recorded(StepOp(s, o, s.ops[o], whole).disk, start)
  {
    var op := s.ops[o];
    var after := StepOp(s, o, op, whole).disk;
    if op.MetaNext? || op.SaveNext? {
      SaveRecorded(s.disk, start, op.id);
    } else {
      QuietRecorded(s.disk, after, start);
    }
  }

  lemma StepPrivate(s: State, o: nat, whole: bool)
    requires Private(s) && o in s.ops
    ensures Private(StepOp(s, o, s.ops[o], whole))
  {
  }

  lemma StepLocked(s: State, o: nat, whole: bool)
    requires Locked(s) && o in s.ops
    ensures Locked(StepOp(s, o, s.ops[o], whole))
  {
  }

  /** Files steps touch the dataset they are about and no other, and take no metadata away. */
  lemma StepDirs(s: State, o: nat, whole: bool, id: string)
    requires Staged(s) && o in s.ops
    ensures var after := StepOp(s, o, s.ops[o], whole).disk;
            && (HasMeta(s.disk, id) ==> HasMeta(after, id))
            && (Plain(id) in after.dirs && id != s.ops[o].id ==> Plain(id) in s.disk.dirs)
  {
  }

  lemma StepStaged(s: State, o: nat, whole: bool)
    requires Private(s) && Staged(s) && o in s.ops
    ensures Staged(StepOp(s, o, s.ops[o], whole))
  {
    var after := StepOp(s, o, s.ops[o], whole);
    forall p | p in after.ops
      ensures after.ops[p].Filling? ==> Plain(after.ops[p].id) !in after.disk.dirs
      ensures after.ops[p].RegisterNext? ==> HasMeta(after.disk, after.ops[p].id)
    {
      StepDirs(s, o, whole, after.ops[p].id);
    }
  }

  lemma StepBacked(s: State, o: nat, whole: bool)
    requires Private(s) && Locked(s) && Staged(s) && Backed(s) && o in s.ops
    ensures Backed(StepOp(s, o, s.ops[o], whole))
  {
  }

  lemma HeldKept(s: State, after: State)
    requires Held(s) && after.frozen == s.frozen && after.holders == s.holders
    requires forall id :: id in s.frozen ==> id in after.registered && !Popping(after, id)
    ensures Held(after)
  {
  }

  lemma StepHeld(s: State, o: nat, whole: bool)
    requires Private(s) && Locked(s) && Held(s) && o in s.ops
    ensures Held(StepOp(s, o, s.ops[o], whole))
  {
    var after := StepOp(s, o, s.ops[o], whole);
    forall id | id in s.frozen ensures id in after.registered && !Popping(after, id) {
      assert id in s.registered && !Popping(s, id);
    }
    HeldKept(s, after);
  }

  lemma StepInv(s: State, start: Disk, o: nat, whole: bool)
    requires Inv(s, start) && o in s.ops
    ensures Inv(StepOp(s, o, s.ops[o], whole), start)
  {
    StepRecorded(s, start, o, whole);
    StepPrivate(s, o, whole);
    StepLocked(s, o, whole);
    StepStaged(s, o, whole);
    StepBacked(s, o, whole);
    StepHeld(s, o, whole);
  }

  lemma FailInv(s: State, start: Disk, o: nat, cleaned: bool)
    requires Inv(s, start) && o in s.ops
    ensures Inv(FailOp(s, o, s.ops[o], cleaned), start)
  {
    var after := FailOp(s, o, s.ops[o], cleaned);
    QuietRecorded(s.disk, after.disk, start);
    HeldKept(s, after);
  }

  lemma MadeRecorded(d: Disk, start: Disk, id: string, name: Name, legacy: bool)
    requires Recorded(d, start) && id !in d.used && (name == Plain(id) || name == Staging(id))
    ensures Recorded(MakeDir(d, name, id).(legacy := legacy), start)
  {
    QuietRecorded(d, MakeDir(d, name, id).(legacy := legacy), start);
  }

  lemma MadePrivate(s: State, o: nat, id: string, name: Name, op: Op, legacy: bool)
    requires Private(s) && Staged(s) && Locked(s) && Backed(s) && o !in s.ops && id !in s.disk.used && op.id == id
    requires (op.MetaNext? && name == Plain(id)) || (op.Filling? && name == Staging(id) && Plain(id) !in s.disk.dirs)
    ensures var after := Next(s.(disk := MakeDir(s.disk, name, id).(legacy := legacy)), o, op);
            Private(after) && Staged(after) && Locked(after)
  {
  }

  lemma CreateInv(s: State, start: Disk, o: nat, id: string, name: Name, op: Op, legacy: bool)
    requires Inv(s, start) && o !in s.ops && id !in s.disk.used && op.id == id
    requires (op.MetaNext? && name == Plain(id)) || (op.Filling? && name == Staging(id))
    requires s.booting ==> op == MetaNext(id, false)
    ensures Inv(Next(s.(disk := MakeDir(s.disk, name, id).(legacy := legacy)), o, op), start)
  {
    var after := Next(s.(disk := MakeDir(s.disk, name, id).(legacy := legacy)), o, op);
    MadeRecorded(s.disk, start, id, name, legacy);
    MadePrivate(s, o, id, name, op, legacy);
    HeldKept(s, after);
  }

  lemma DeleteInv(s: State, start: Disk, o: nat, id: string, nonce: string)
    requires Inv(s, start) && o !in s.ops
    ensures Inv(BeginDelete(s, o, id, nonce), start)
  {
    var after := BeginDelete(s, o, id, nonce);
    if after != s {
      if Plain(id) in s.disk.dirs {
        MoveRecorded(s.disk, start, id, nonce);
      }
      HeldKept(s, after);
    }
  }

  lemma ScanInv(s: State, start: Disk)
    requires Inv(s, start) && s.booting
    ensures Inv(Boot(s, Scan), start)
  {
    var after := Boot(s, Scan);
    forall id | id in after.registered ensures id in s.disk.used && (s.ops == map[] ==> HasMeta(s.disk, id)) {
      if s.ops == map[] {
        var n :| n in s.disk.dirs && Scannable(Shown(n), s.disk.dirs[n]) && Shown(n) == id;
        HiddenNames(n, s.disk.dirs[n]);
      }
    }
    HeldKept(s, after);
  }

  lemma FreezeHeld(s: State, job: nat, id: string)
    requires Held(s)
    ensures Held(Serve(s, Freeze(job, id)))
  {
    var after := Serve(s, Freeze(job, id));
    if after != s {
      assert after.holders[job] == id;
      forall f | f in s.frozen ensures exists j :: j in after.holders && after.holders[j] == f {
        var j :| j in s.holders && s.holders[j] == f;
        assert after.holders[j] == f;
      }
    }
  }

  lemma ReleaseHeld(s: State, job: nat)
    requires Held(s)
    ensures Held(Serve(s, Release(job)))
  {
    var after := Serve(s, Release(job));
    if after != s {
      forall f | f in after.frozen ensures exists j :: j in after.holders && after.holders[j] == f {
        var j :| j in s.holders && s.holders[j] == f;
        assert after.holders[j] == f;
      }
    }
  }

  lemma FreezeInv(s: State, start: Disk, e: Event)
    requires Inv(s, start) && !s.booting && (e.Freeze? || e.Release?)
    ensures Inv(Serve(s, e), start)
  {
    match e
    case Freeze(job, id) => FreezeHeld(s, job, id);
    case Release(job) => ReleaseHeld(s, job);
  }

  lemma LookupInv(s: State, start: Disk, o: nat, id: string)
    requires Inv(s, start) && !s.booting
    ensures Inv(Serve(s, Lookup(o, id)), start)
  {
    HeldKept(s, Serve(s, Lookup(o, id)));
  }

  lemma SweepInv(s: State, start: Disk, name: Name, removed: bool)
    requires Inv(s, start) && s.booting
    ensures Inv(Boot(s, Sweep(name, removed)), start)
  {
    var after := Boot(s, Sweep(name, removed));
    QuietRecorded(s.disk, after.disk, start);
    HeldKept(s, after);
  }

  lemma ApplyInv(s: State, start: Disk, e: Event)
    requires Inv(s, start)
    ensures Inv(Apply(s, e), start)
  {
    match e
    case Step(o, whole) => if o in s.ops { StepInv(s, start, o, whole); }
    case Fail(o, cleaned) => if o in s.ops { FailInv(s, start, o, cleaned); }
    case Migrate(o, id) =>
      if s.booting && s.ops == map[] && FreshId(s, id) {
        CreateInv(s, start, o, id, Plain(id), MetaNext(id, false), false);
      }
    case Create(o, id) =>
      if !s.booting && o !in s.ops && FreshId(s, id) {
        CreateInv(s, start, o, id, Plain(id), MetaNext(id, true), s.disk.legacy);
      }
    case Import(o, id) =>
      if !s.booting && o !in s.ops && FreshId(s, id) {
        CreateInv(s, start, o, id, Staging(id), Filling(id), s.disk.legacy);
      }
    case Delete(o, id, nonce) => if !s.booting && o !in s.ops { DeleteInv(s, start, o, id, nonce); }
    case Freeze(_, _) => if !s.booting { FreezeInv(s, start, e); }
    case Release(_) => if !s.booting { FreezeInv(s, start, e); }
    case Scan => if s.booting { ScanInv(s, start); }
    case Lookup(o, id) => if !s.booting { LookupInv(s, start, o, id); }
    case Sweep(name, removed) => if s.booting { SweepInv(s, start, name, removed); }
    case Crash =>
  }

  lemma {:induction false} RunInv(start: Disk, events: seq<Event>)
    requires Found(start)
    ensures Inv(Run(Initial(start), events), start)
  {
    if events == [] {
      assert forall id :: Alive(start, [], id) <==> HasMeta(start, id);
    } else {
      RunInv(start, events[..|events| - 1]);
      ApplyInv(Run(Initial(start), events[..|events| - 1]), start, events[|events| - 1]);
    }
  }

  // ── what survives a restart ──────────────────────────────────────────────────────

  /** A restart registers exactly the datasets whose metadata was saved and not tombstoned since,
      whatever crashes cut short before it. */
  lemma RestartRegisters(start: Disk, events: seq<Event>, id: string)
    requires Found(start)
    requires var s := Run(Initial(start), events); s.booting && s.ops == map[]
    ensures var s := Apply(Run(Initial(start), events), Scan);
            id in s.registered <==> ValidId(id) && Alive(start, s.disk.log, id)
  {
    RunInv(start, events);
    var s := Run(Initial(start), events);
    ScanMeaning(s, id);
    assert HasMeta(s.disk, id) <==> Alive(start, s.disk.log, id);
  }

  lemma ScanMeaning(s: State, id: string)
    requires s.booting && s.ops == map[]
    ensures id in Boot(s, Scan).registered <==> ValidId(id) && HasMeta(s.disk, id)
  {
    if id in Boot(s, Scan).registered {
      var n :| n in s.disk.dirs && Scannable(Shown(n), s.disk.dirs[n]) && Shown(n) == id;
      HiddenNames(n, s.disk.dirs[n]);
    }
    if ValidId(id) && HasMeta(s.disk, id) {
      HiddenNames(Plain(id), true);
      assert Shown(Plain(id)) == id;
    }
  }

  /** A tombstoned dataset is registered after a restart exactly if a metadata save came after its
      last tombstone. */
  lemma TombstonedReturnsIffSavedLate(start: Disk, events: seq<Event>, k: nat, id: string)
    requires Found(start) && ValidId(id)
    requires var s := Run(Initial(start), events); s.booting && s.ops == map[]
    requires k < |Run(Initial(start), events).disk.log| && Run(Initial(start), events).disk.log[k] == Tombstoned(id)
    requires var log := Run(Initial(start), events).disk.log; forall j :: k < j < |log| ==> log[j] != Tombstoned(id)
    ensures var log := Run(Initial(start), events).disk.log;
            id in Apply(Run(Initial(start), events), Scan).registered
            <==> exists j :: k < j < |log| && log[j] == Saved(id)
  {
    RestartRegisters(start, events, id);
    AliveAfterTombstone(start, Run(Initial(start), events).disk.log, k, id);
  }

  /** At every moment a registered dataset is finished: its directory and metadata are there, unless
      its deletion has just renamed them away. */
  lemma OnlyFinishedRegistered(start: Disk, events: seq<Event>, id: string)
    requires Found(start)
    requires var s := Run(Initial(start), events); id in s.registered && !Popping(s, id)
    ensures HasMeta(Run(Initial(start), events).disk, id)
  {
    RunInv(start, events);
  }

  // ── deletion against late saves ────────────────────────────────────────────────────

  /** Nothing on disk or in flight can bring the dataset back. */
  ghost predicate Forgotten(s: State, id: string) {
    && id in s.disk.used && !HasMeta(s.disk, id)
    && (id in s.registered ==> Popping(s, id))
    && forall o :: o in s.ops && s.ops[o].id == id ==> s.ops[o].PopNext? || s.ops[o].RemoveTree?
  }

  lemma ForgottenOp(s: State, o: nat, whole: bool, id: string)
    requires Locked(s) && Forgotten(s, id) && o in s.ops
    ensures var after := StepOp(s, o, s.ops[o], whole);
            Forgotten(after, id) && (id !in s.registered ==> id !in after.registered)
  {
  }

  lemma ForgottenServe(s: State, e: Event, id: string)
    requires Locked(s) && Forgotten(s, id)
    ensures var after := Serve(s, e); Forgotten(after, id) && (id !in s.registered ==> id !in after.registered)
  {
  }

  lemma ForgottenBoot(s: State, e: Event, id: string)
    requires Booting(s) && s.booting && Forgotten(s, id)
    ensures var after := Boot(s, e); Forgotten(after, id) && (id !in s.registered ==> id !in after.registered)
  {
    if e.Scan? && s.ops == map[] {
      ScanMeaning(s, id);
    }
  }

  lemma ForgottenStep(s: State, start: Disk, e: Event, id: string)
    requires Inv(s, start) && Forgotten(s, id)
    ensures Forgotten(Apply(s, e), id) && (id !in s.registered ==> id !in Apply(s, e).registered)
  {
    if e.Step? && e.op in s.ops {
      ForgottenOp(s, e.op, e.whole, id);
    } else if s.booting {
      ForgottenBoot(s, e, id);
    } else {
      ForgottenServe(s, e, id);
    }
  }

  lemma {:induction false} ForgottenForever(s: State, start: Disk, events: seq<Event>, id: string)
    requires Inv(s, start) && Forgotten(s, id)
    ensures Inv(Run(s, events), start) && Forgotten(Run(s, events), id)
  {
    if events != [] {
      var before := events[..|events| - 1];
      ForgottenForever(s, start, before, id);
      ForgottenStep(Run(s, before), start, events[|events| - 1], id);
      ApplyInv(Run(s, before), start, events[|events| - 1]);
    }
  }

  /** A delete that meets no metadata save of its dataset in flight is for good: whatever runs,
      crashes and restarts follow, the dataset is never seen again once the delete has dropped it. */
  lemma DeletedForGood(start: Disk, before: seq<Event>, o: nat, id: string, nonce: string, later: seq<Event>)
    requires Found(start)
    requires var s := Run(Initial(start), before);
             && !s.booting && o !in s.ops && s.lock.None? && id in s.registered && id !in s.frozen
             && forall p :: p in s.ops ==> s.ops[p] != SaveNext(id)
    ensures var s := Run(Apply(Run(Initial(start), before), Delete(o, id, nonce)), later);
            !HasMeta(s.disk, id) && (id in s.registered ==> Popping(s, id))
  {
    RunInv(start, before);
    var s := Run(Initial(start), before);
    var gone := Apply(s, Delete(o, id, nonce));
    ApplyInv(s, start, Delete(o, id, nonce));
    assert HasMeta(s.disk, id);
    forall p | p in gone.ops && gone.ops[p].id == id ensures gone.ops[p].PopNext? || gone.ops[p].RemoveTree? {
      if p != o {
        assert !Creating(s.ops[p]);
      }
    }
    ForgottenForever(gone, start, later, id);
  }

  /** With such a save in flight (a rename looks the dataset up first and writes its metadata later,
      outside the lock) the deleted dataset is back after the next restart. */
  lemma LateSaveResurrects(s: State, start: Disk, o: nat, id: string)
    requires Inv(s, start) && o in s.ops && s.ops[o] == SaveNext(id) && ValidId(id)
    ensures var after := Run(s, [Step(o, true), Crash, Scan]); id in after.registered && after.lock.None?
  {
    var events := [Step(o, true), Crash, Scan];
    var saved := StepOp(s, o, s.ops[o], true);
    assert Run(s, []) == s;
    assert events[..2][..1] == [Step(o, true)];
    assert Run(s, [Step(o, true)]) == saved;
    assert Run(s, events[..2]) == Restarted(saved);
    ScanMeaning(Restarted(saved), id);
  }

  /** Every registered name, and every one on its way to be, is an id. */
  ghost predicate Uuids(s: State) {
    && (forall id :: id in s.registered ==> ValidId(id))
    && (forall o :: o in s.ops && Creating(s.ops[o]) ==> ValidId(s.ops[o].id))
  }

  lemma UuidsStep(s: State, e: Event)
    requires Uuids(s)
    ensures Uuids(Apply(s, e))
  {
    if e.Scan? && s.booting && s.ops == map[] {
      forall id | id in Boot(s, Scan).registered ensures ValidId(id) {
        ScanMeaning(s, id);
      }
    } else if e.Step? && e.op in s.ops {
      UuidsOp(s, e.op, e.whole);
    }
  }

  lemma UuidsOp(s: State, o: nat, whole: bool)
    requires Uuids(s) && o in s.ops
    ensures Uuids(StepOp(s, o, s.ops[o], whole))
  {
  }

  lemma {:induction false} RunUuids(start: Disk, events: seq<Event>)
    ensures Uuids(Run(Initial(start), events))
  {
    if events != [] {
      RunUuids(start, events[..|events| - 1]);
      UuidsStep(Run(Initial(start), events[..|events| - 1]), events[|events| - 1]);
    }
  }

  /** Registered, and not merely because its delete has not dropped it yet. */
  ghost predicate Back(s: State, id: string) {
    id in s.registered && !Popping(s, id)
  }

  lemma InFlightReturns(start: Disk, before: seq<Event>, o: nat, id: string, nonce: string, s: State, p: nat)
    returns (later: seq<Event>)
    requires Found(start) && s == Run(Initial(start), before)
    requires !s.booting && o !in s.ops && s.lock.None? && id in s.registered && id !in s.frozen
    requires p in s.ops && s.ops[p] == SaveNext(id)
    ensures Back(Run(Apply(s, Delete(o, id, nonce)), later), id)
  {
    var gone := Apply(s, Delete(o, id, nonce));
    RunInv(start, before);
    RunUuids(start, before);
    ApplyInv(s, start, Delete(o, id, nonce));
    later := [Step(p, true), Crash, Scan];
    LateSaveResurrects(gone, start, p, id);
    var after := Run(gone, later);
    assert id in after.registered && after.lock.None?;
  }

  /** So a deleted dataset can come back if and only if a metadata save of it was in flight when it was
      renamed away. */
  lemma DeletedReturnsIff(start: Disk, before: seq<Event>, o: nat, id: string, nonce: string, s: State)
    requires Found(start) && s == Run(Initial(start), before)
    requires !s.booting && o !in s.ops && s.lock.None? && id in s.registered && id !in s.frozen
    ensures (exists later :: Back(Run(Apply(s, Delete(o, id, nonce)), later), id))
            <==> exists p :: p in s.ops && s.ops[p] == SaveNext(id)
  {
    var gone := Apply(s, Delete(o, id, nonce));
    if p :| p in s.ops && s.ops[p] == SaveNext(id) {
      var later := InFlightReturns(start, before, o, id, nonce, s, p);
      assert exists p :: p in s.ops && s.ops[p] == SaveNext(id);
      assert exists later :: Back(Run(gone, later), id);
    } else {
      forall later ensures !Back(Run(gone, later), id) {
        DeletedForGood(start, before, o, id, nonce, later);
      }
    }
  }

  /** A crash between the migration's rename and its metadata write loses the legacy dataset from the
      registry for good: it is neither in its old place nor ever registered. */
  lemma MigrationStrands(start: Disk, o: nat, id: string, later: seq<Event>)
    requires Found(start) && start.legacy && ValidId(id) && id !in start.used
    ensures var s := Run(Restarted(Apply(Initial(start), Migrate(o, id))), later);
            id !in s.registered && !HasMeta(s.disk, id)
    ensures !Apply(Initial(start), Migrate(o, id)).disk.legacy
  {
    RunInv(start, []);
    var migrating := Apply(Initial(start), Migrate(o, id));
    ApplyInv(Initial(start), start, Migrate(o, id));
    ApplyInv(migrating, start, Crash);
    var s := Restarted(migrating);
    ForgottenForever(s, start, later, id);
    NeverPopped(s, start, later, id);
  }

  /** Without a registration there is nothing to delete. */
  lemma {:induction false} NeverPopped(s: State, start: Disk, events: seq<Event>, id: string)
    requires Inv(s, start) && Forgotten(s, id) && id !in s.registered
    ensures id !in Run(s, events).registered
  {
    if events != [] {
      var before := events[..|events| - 1];
      NeverPopped(s, start, before, id);
      ForgottenForever(s, start, before, id);
      ForgottenStep(Run(s, before), start, events[|events| - 1], id);
    }
  }

  // ── freezing ───────────────────────────────────────────────────────────────

  /** A frozen dataset stays registered with its metadata, and no event tombstones it. */
  lemma FrozenNeverDeleted(start: Disk, events: seq<Event>, e: Event, id: string)
    requires Found(start) && id in Run(Initial(start), events).frozen
    ensures var s := Run(Initial(start), events); id in s.registered && HasMeta(s.disk, id)
    ensures HasMeta(Apply(Run(Initial(start), events), e).disk, id)
    ensures e.Delete? && e.id == id ==> Apply(Run(Initial(start), events), e) == Run(Initial(start), events)
  {
    RunInv(start, events);
    var s := Run(Initial(start), events);
    if e.Step? && e.op in s.ops {
      StepDirs(s, e.op, e.whole, id);
    }
  }

  /** Two jobs never hold the same freeze. */
  lemma OneHolder(start: Disk, events: seq<Event>, j: nat, k: nat)
    requires Found(start)
    requires var s := Run(Initial(start), events); j in s.holders && k in s.holders && s.holders[j] == s.holders[k]
    ensures j == k
  {
    RunInv(start, events);
  }
}
