/** The radio protocol (os-base/agent/ap_agent.py, os-base/agent/network_agent.py): starts, stops, join
    deadlines, station notes and Wi-Fi changes as threads that share a short lock, the long radio lock,
    a transition claim and the Wi-Fi daemon. A run is any interleaving of their steps. */
module RadioProtocol {
  import opened Basics
  import opened Supplicant

  datatype Job = Start | Stop | Wifi

  /** The critical sections under the short lock. */
  datatype Section =
    | FirstLook(job: Job)
    | SecondLook(job: Job)
    | Commit
    | EndStart
    | ClaimStop(timer: Option<nat>)
    | Reset
    | Say
    | EndStop
    | Note

  /** Where a thread stands. Saving is the block-stripping loop before SAVE_CONFIG. */
  datatype Pc =
    | Wait(section: Section)
    | In(section: Section)
    | WaitRadio(job: Job)
    | Body(job: Job)
    | Saving(left: set<nat>)
    | Leave(job: Job)
    | Finished

  /** What happened to which access-point session. */
  datatype Mark = Began(session: nat) | Joined(session: nat) | Claimed(session: nat, timer: Option<nat>)

  /** What the threads share. claimant is who set the transition flag; session counts committed starts;
      timer is the armed deadline's session. */
  datatype Shared = Shared(
    short: Option<nat>, radio: Option<nat>, transition: bool, claimant: Option<nat>,
    active: bool, joined: bool, session: nat, timer: Option<nat>, daemon: Daemon, log: seq<Mark>)

  datatype State = State(threads: map<nat, Pc>, shared: Shared)

  /** One thread's step: what it leaves shared, and where it stands next. */
  datatype Turn = Turn(shared: Shared, pc: Pc)

  /** How a body goes on. took: the daemon carried the command out; ok: it also said so. */
  datatype Choice =
    | Go
    | Issue(command: Command, took: bool)
    | BeginSave
    | Strip(id: nat, took: bool, ok: bool)
    | Write(took: bool)
    | End(ok: bool)

  datatype Event =
    | CallStart(t: nat)
    | CallStop(t: nat)
    | CallWifi(t: nat)
    | Deadline(t: nat)
    | Station(t: nat)
    | Step(t: nat, choice: Choice)

  // ── what a position means ──────────────────────────────────────────────────

  predicate HoldsShort(pc: Pc) {
    pc.In?
  }

  predicate SectionUnderRadio(x: Section) {
    x.SecondLook? || x.Commit? || x.EndStart? || x.Reset?
  }

  predicate HoldsRadio(pc: Pc) {
    match pc
    case Wait(x) => SectionUnderRadio(x)
    case In(x) => SectionUnderRadio(x)
    case Body(_) => true
    case Saving(_) => true
    case Leave(_) => true
    case _ => false
  }

  predicate SectionUnderClaim(x: Section) {
    x.Commit? || x.EndStart? || x.Reset? || x.Say? || x.EndStop?
  }

  predicate HoldsClaim(pc: Pc) {
    match pc
    case Wait(x) => SectionUnderClaim(x)
    case In(x) => SectionUnderClaim(x)
    case WaitRadio(job) => job.Stop?
    case Body(job) => !job.Wifi?
    case Leave(job) => job.Stop?
    case _ => false
  }

  /** A Wi-Fi change under way. */
  predicate ChangingWifi(pc: Pc) {
    pc == Body(Wifi) || pc.Saving?
  }

  // ── steps ──────────────────────────────────────────────────────────────────

  /** Why a start or a Wi-Fi change cannot go on now. */
  predicate Refused(sh: Shared) {
    sh.transition || sh.active
  }

  /** A deadline stops an access point only while nobody has joined it. */
  predicate Unjoined(sh: Shared) {
    sh.active && !sh.joined
  }

  /** A critical section's effect, without the lock. */
  function Act(sh: Shared, t: nat, x: Section): Turn {
    match x
    case FirstLook(job) => Turn(sh, if Refused(sh) then Finished else WaitRadio(job))
    case SecondLook(job) =>
      if Refused(sh) then Turn(sh, Leave(job))
      else if job.Start? then Turn(sh.(transition := true, claimant := Some(t)), Body(Start))
      else Turn(sh, Body(Wifi))
    case Commit =>
      var session := sh.session + 1;
      Turn(sh.(active := true, joined := false, session := session, timer := Some(session),
               log := sh.log + [Began(session)]), Wait(EndStart))
    case EndStart => Turn(sh.(transition := false, claimant := None), Leave(Start))
    case ClaimStop(timer) =>
      if sh.transition || (timer.Some? && !Unjoined(sh)) then Turn(sh, Finished)
      else
        Turn(sh.(transition := true, claimant := Some(t), log := sh.log + [Claimed(sh.session, timer)]),
             WaitRadio(Stop))
    case Reset => Turn(sh.(active := false, joined := false, timer := None), Body(Stop))
    case Say => Turn(sh, Wait(EndStop))
    case EndStop => Turn(sh.(transition := false, claimant := None), Finished)
    case Note =>
      if Unjoined(sh) then Turn(sh.(joined := true, timer := None, log := sh.log + [Joined(sh.session)]), Finished)
      else Turn(sh, Finished)
  }

  /** A start may send anything but SAVE_CONFIG; a Wi-Fi change never sets a mode, and saves only
      through the stripping loop; a stop only removes and reloads. */
  predicate Allowed(job: Job, c: Command) {
    match job
    case Start => !c.Save?
    case Stop => c.Remove? || c.Reconfigure?
    case Wifi => Harmless(c)
  }

  function BodyStep(sh: Shared, job: Job, c: Choice): Turn {
    match c
    case Issue(command, took) =>
      Turn(if took && Allowed(job, command) then sh.(daemon := Exec(sh.daemon, command)) else sh, Body(job))
    case BeginSave => Turn(sh, if job.Wifi? then Saving(sh.daemon.live.Keys) else Body(job))
    case End(ok) => Turn(sh, if job.Start? then Wait(if ok then Commit else EndStart) else Leave(job))
    case _ => Turn(sh, Body(job))
  }

  predicate IsAp(sh: Shared, id: nat) {
    id in sh.daemon.live && sh.daemon.live[id].ap
  }

  /** One turn of the loop, or the final SAVE_CONFIG once every listed block was looked at. */
  function SaveStep(sh: Shared, left: set<nat>, c: Choice): Turn {
    match c
    case Strip(id, took, ok) =>
      if id !in left then Turn(sh, Saving(left))
      else
        Turn(if IsAp(sh, id) && (took || ok) then sh.(daemon := Exec(sh.daemon, Remove(id))) else sh,
             if ok then Saving(left - {id}) else Body(Wifi))
    case Write(took) =>
      if left != {} then Turn(sh, Saving(left))
      else Turn(if took then sh.(daemon := Exec(sh.daemon, Save)) else sh, Body(Wifi))
    case _ => Turn(sh, Saving(left))
  }

  function Advance(sh: Shared, t: nat, pc: Pc, c: Choice): Turn {
    match pc
    case Wait(x) => if sh.short.None? then Turn(sh.(short := Some(t)), In(x)) else Turn(sh, pc)
    case In(x) => var r := Act(sh, t, x); r.(shared := r.shared.(short := None))
    case WaitRadio(job) =>
      if sh.radio.None? then
        Turn(sh.(radio := Some(t)), Wait(if job.Stop? then Reset else SecondLook(job)))
      else Turn(sh, pc)
    case Body(job) => BodyStep(sh, job, c)
    case Saving(left) => SaveStep(sh, left, c)
    case Leave(job) => Turn(sh.(radio := None), if job.Stop? then Wait(Say) else Finished)
    case Finished => Turn(sh, pc)
  }

  function StepOf(s: State, t: nat, c: Choice): State
    requires t in s.threads
  {
    var r := Advance(s.shared, t, s.threads[t], c);
    State(s.threads[t := r.pc], r.shared)
  }

  function Spawn(s: State, t: nat, x: Section): State {
    if t in s.threads then s else s.(threads := s.threads[t := Wait(x)])
  }

  function Apply(s: State, e: Event): State {
    match e
    case CallStart(t) => Spawn(s, t, FirstLook(Start))
    case CallStop(t) => Spawn(s, t, ClaimStop(None))
    case CallWifi(t) => Spawn(s, t, FirstLook(Wifi))
    case Deadline(t) => if s.shared.timer.Some? then Spawn(s, t, ClaimStop(s.shared.timer)) else s
    case Station(t) => if s.shared.session > 0 then Spawn(s, t, Note) else s
    case Step(t, c) => if t in s.threads then StepOf(s, t, c) else s
  }

  function Run(s: State, events: seq<Event>): State {
    if events == [] then s
    else Apply(Run(s, events[..|events| - 1]), events[|events| - 1])
  }

  /** After the start-up reconcile: a station, nobody running. */
  function Initial(daemon: Daemon): State {
    State(map[], Shared(None, None, false, None, false, false, 0, None, daemon, []))
  }

  // ── locks and the claim ────────────────────────────────────────────────────────

  /** Both locks and the claim are held exactly by the thread whose position says so. */
  ghost predicate Owner(sh: Shared, t: nat, pc: Pc) {
    && (HoldsShort(pc) <==> sh.short == Some(t))
    && (HoldsRadio(pc) <==> sh.radio == Some(t))
    && (HoldsClaim(pc) <==> sh.claimant == Some(t))
    && (pc.Wait? || pc.In? ==> (pc.section.FirstLook? || pc.section.SecondLook? ==> !pc.section.job.Stop?))
  }

  ghost predicate HeldIn(o: Option<nat>, threads: map<nat, Pc>) {
    o.Some? ==> o.value in threads
  }

  ghost predicate Owned(s: State) {
    && (s.shared.transition <==> s.shared.claimant.Some?)
    && HeldIn(s.shared.short, s.threads) && HeldIn(s.shared.radio, s.threads)
    && HeldIn(s.shared.claimant, s.threads)
    && forall t :: t in s.threads ==> Owner(s.shared, t, s.threads[t])
  }

  /** A holder changes only by t taking what was free or giving back what was its own. */
  predicate Handed(before: Option<nat>, after: Option<nat>, t: nat) {
    before == after || ((before.None? || before == Some(t)) && (after.None? || after == Some(t)))
  }

  predicate Hands(before: Shared, after: Shared, t: nat) {
    && Handed(before.short, after.short, t) && Handed(before.radio, after.radio, t)
    && Handed(before.claimant, after.claimant, t)
    && (after.transition <==> after.claimant.Some?)
  }

  lemma ActHands(sh: Shared, t: nat, x: Section)
    requires Owner(sh, t, In(x)) && (sh.transition <==> sh.claimant.Some?)
    ensures var r := Advance(sh, t, In(x), Go); Owner(r.shared, t, r.pc) && Hands(sh, r.shared, t)
  {
  }

  lemma MoveHands(sh: Shared, t: nat, pc: Pc, c: Choice)
    requires Owner(sh, t, pc) && (sh.transition <==> sh.claimant.Some?) && !pc.In?
    ensures var r := Advance(sh, t, pc, c); Owner(r.shared, t, r.pc) && Hands(sh, r.shared, t)
  {
  }

  lemma StepOwned(s: State, t: nat, c: Choice)
    requires Owned(s) && t in s.threads
    ensures Owned(StepOf(s, t, c))
  {
    var pc := s.threads[t];
    assert Owner(s.shared, t, pc);
    if pc.In? {
      ActHands(s.shared, t, pc.section);
    } else {
      MoveHands(s.shared, t, pc, c);
    }
    var after := StepOf(s, t, c);
    HandedOwned(s, after, t);
  }

  lemma HandedOwned(s: State, after: State, t: nat)
    requires Owned(s) && t in s.threads && t in after.threads
    requires after.threads == s.threads[t := after.threads[t]]
    requires Owner(after.shared, t, after.threads[t]) && Hands(s.shared, after.shared, t)
    ensures Owned(after)
  {
    forall u | u in after.threads ensures Owner(after.shared, u, after.threads[u]) {
      assert u != t ==> Owner(s.shared, u, s.threads[u]);
    }
  }

  /** Whoever holds the radio is alone in it. */
  lemma RadioAlone(s: State, t: nat, u: nat)
    requires Owned(s) && t in s.threads && u in s.threads
    requires HoldsRadio(s.threads[t]) && HoldsRadio(s.threads[u])
    ensures t == u
  {
  }

  // ── Wi-Fi changes and the configuration on disk ────────────────────────────────────

  /** A Wi-Fi change runs on a station, and its saving loop has every access-point block still ahead. */
  ghost predicate WifiSafeAt(sh: Shared, pc: Pc) {
    && (ChangingWifi(pc) ==> !sh.active)
    && (pc.Saving? ==> forall id :: IsAp(sh, id) ==> id in pc.left)
  }

  ghost predicate WifiSafe(s: State) {
    forall t :: t in s.threads ==> WifiSafeAt(s.shared, s.threads[t])
  }

  lemma OwnWifiSafe(sh: Shared, t: nat, pc: Pc, c: Choice)
    requires WifiSafeAt(sh, pc)
    ensures var r := Advance(sh, t, pc, c); WifiSafeAt(r.shared, r.pc)
  {
  }

  lemma OwnDisk(sh: Shared, t: nat, pc: Pc, c: Choice)
    requires WifiSafeAt(sh, pc) && NoAp(sh.daemon.disk)
    ensures NoAp(Advance(sh, t, pc, c).shared.daemon.disk)
  {
    if pc.Saving? && pc.left == {} {
      assert forall id :: id in sh.daemon.live ==> !IsAp(sh, id);
    }
  }

  lemma StepWifiSafe(s: State, t: nat, c: Choice)
    requires Owned(s) && WifiSafe(s) && t in s.threads
    ensures WifiSafe(StepOf(s, t, c))
  {
    var after := StepOf(s, t, c);
    OwnWifiSafe(s.shared, t, s.threads[t], c);
    forall u | u in after.threads ensures WifiSafeAt(after.shared, after.threads[u]) {
      if u != t {
        assert WifiSafeAt(s.shared, s.threads[u]);
        if HoldsRadio(s.threads[t]) && HoldsRadio(s.threads[u]) {
          RadioAlone(s, t, u);
        }
      }
    }
  }

  // ── joins and deadlines ────────────────────────────────────────────────────────

  /** A deadline's claim coming after a join of the same session. */
  predicate Defeated(first: Mark, second: Mark) {
    first.Joined? && second.Claimed? && second.timer.Some? && second.session == first.session
  }

  /** While the running session is unjoined no join of it is on record, and no deadline beat a join. */
  ghost predicate Logged(log: seq<Mark>, session: nat, unjoined: bool) {
    && (forall i :: 0 <= i < |log| ==> log[i].session <= session)
    && (forall i :: 0 <= i < |log| ==> (log[i] == Joined(session) ==> !unjoined))
    && (forall i, j :: 0 <= i < j < |log| ==> !Defeated(log[i], log[j]))
  }

  lemma ActLogged(sh: Shared, t: nat, x: Section)
    requires Logged(sh.log, sh.session, Unjoined(sh))
    ensures var r := Act(sh, t, x).shared; Logged(r.log, r.session, Unjoined(r))
  {
  }

  lemma StepLogged(sh: Shared, t: nat, pc: Pc, c: Choice)
    requires Logged(sh.log, sh.session, Unjoined(sh))
    ensures var r := Advance(sh, t, pc, c).shared; Logged(r.log, r.session, Unjoined(r))
  {
    if pc.In? {
      ActLogged(sh, t, pc.section);
    }
  }

  // ── sessions and their deadlines ─────────────────────────────────────────────────

  /** How many starts have committed. */
  function Begun(log: seq<Mark>): nat {
    if log == [] then 0 else Begun(log[..|log| - 1]) + (if log[|log| - 1].Began? then 1 else 0)
  }

  /** A mark fits the count before it: sessions are counted up one by one, and a claim carries the count. */
  predicate FollowsOn(m: Mark, begun: nat) {
    && (m.Began? ==> m.session == begun + 1)
    && (m.Claimed? ==> m.session == begun && (m.timer.Some? ==> m.timer.value <= m.session))
  }

  predicate Numbered(log: seq<Mark>) {
    log != [] ==>
      Numbered(log[..|log| - 1]) && FollowsOn(log[|log| - 1], Begun(log[..|log| - 1]))
  }

  /** An armed timer is the running session's, and an unjoined access point has its timer armed. */
  predicate Timed(sh: Shared) {
    && sh.session == Begun(sh.log) && Numbered(sh.log)
    && (sh.timer.Some? ==> sh.timer.value == sh.session)
    && (Unjoined(sh) ==> sh.timer == Some(sh.session))
  }

  /** A fired deadline's session has begun. */
  predicate FiredAt(sh: Shared, pc: Pc) {
    (pc.Wait? || pc.In?) && pc.section.ClaimStop? && pc.section.timer.Some? ==> pc.section.timer.value <= sh.session
  }

  ghost predicate Fired(s: State) {
    forall t :: t in s.threads ==> FiredAt(s.shared, s.threads[t])
  }

  lemma {:induction false} NumberedAt(log: seq<Mark>, i: nat)
    requires Numbered(log) && i < |log|
    ensures Numbered(log[..i]) && FollowsOn(log[i], Begun(log[..i]))
  {
    var front := log[..|log| - 1];
    if i < |front| {
      NumberedAt(front, i);
      assert front[..i] == log[..i];
    }
  }

  lemma {:induction false} BegunGrows(log: seq<Mark>, i: nat)
    requires i <= |log|
    ensures Begun(log[..i]) <= Begun(log)
  {
    if i < |log| {
      var front := log[..|log| - 1];
      BegunGrows(front, i);
      assert front[..i] == log[..i];
    } else {
      assert log[..i] == log;
    }
  }

  /** Every session up to the count has its mark. */
  lemma {:induction false} BegunMarks(log: seq<Mark>, m: nat)
    requires Numbered(log) && 1 <= m <= Begun(log)
    ensures Began(m) in log
  {
    var front := log[..|log| - 1];
    if m <= Begun(front) {
      BegunMarks(front, m);
    } else {
      assert log[|log| - 1] == Began(m);
    }
  }

  lemma ActTimed(sh: Shared, t: nat, x: Section)
    requires Timed(sh) && FiredAt(sh, In(x))
    ensures var r := Act(sh, t, x).shared; Timed(r) && sh.session <= r.session && sh.log <= r.log
  {
  }

  lemma MoveTimed(sh: Shared, t: nat, pc: Pc, c: Choice)
    requires !pc.In? && FiredAt(sh, pc)
    ensures var r := Advance(sh, t, pc, c);
            && r.shared.session == sh.session && r.shared.log == sh.log && r.shared.timer == sh.timer
            && Unjoined(r.shared) == Unjoined(sh) && FiredAt(r.shared, r.pc)
  {
  }

  lemma StepTimed(sh: Shared, t: nat, pc: Pc, c: Choice)
    requires Timed(sh) && FiredAt(sh, pc)
    ensures var r := Advance(sh, t, pc, c); Timed(r.shared) && FiredAt(r.shared, r.pc)
    ensures var r := Advance(sh, t, pc, c).shared; sh.session <= r.session && sh.log <= r.log
  {
    if pc.In? {
      ActTimed(sh, t, pc.section);
    } else {
      MoveTimed(sh, t, pc, c);
    }
  }

  // ── every run ──────────────────────────────────────────────────────────────

  ghost predicate Inv(s: State) {
    && Owned(s) && WifiSafe(s) && NoAp(s.shared.daemon.disk)
    && Logged(s.shared.log, s.shared.session, Unjoined(s.shared)) && Timed(s.shared) && Fired(s)
  }

  lemma SpawnInv(s: State, t: nat, x: Section)
    requires Inv(s) && (x == FirstLook(Start) || x == FirstLook(Wifi) || x.ClaimStop? || x.Note?)
    requires FiredAt(s.shared, Wait(x))
    ensures Inv(Spawn(s, t, x))
  {
    var after := Spawn(s, t, x);
    if t !in s.threads {
      forall u | u in after.threads ensures Owner(after.shared, u, after.threads[u]) {
        assert u != t ==> Owner(s.shared, u, s.threads[u]);
      }
      forall u | u in after.threads ensures WifiSafeAt(after.shared, after.threads[u]) {
        assert u != t ==> WifiSafeAt(s.shared, s.threads[u]);
      }
      forall u | u in after.threads ensures FiredAt(after.shared, after.threads[u]) {
        assert u != t ==> FiredAt(s.shared, s.threads[u]);
      }
    }
  }

  lemma StepFired(s: State, t: nat, c: Choice)
    requires Timed(s.shared) && Fired(s) && t in s.threads
    ensures var after := StepOf(s, t, c);
            Timed(after.shared) && Fired(after) && s.shared.session <= after.shared.session && s.shared.log <= after.shared.log
  {
    StepTimed(s.shared, t, s.threads[t], c);
    var after := StepOf(s, t, c);
    forall u | u in after.threads ensures FiredAt(after.shared, after.threads[u]) {
      assert u != t ==> FiredAt(s.shared, s.threads[u]);
    }
  }

  lemma StepInv(s: State, t: nat, c: Choice)
    requires Inv(s) && t in s.threads
    ensures Inv(StepOf(s, t, c))
  {
    StepOwned(s, t, c);
    StepWifiSafe(s, t, c);
    OwnDisk(s.shared, t, s.threads[t], c);
    StepLogged(s.shared, t, s.threads[t], c);
    StepFired(s, t, c);
  }

  lemma ApplyInv(s: State, e: Event)
    requires Inv(s)
    ensures Inv(Apply(s, e))
  {
    match e
    case CallStart(t) => SpawnInv(s, t, FirstLook(Start));
    case CallStop(t) => SpawnInv(s, t, ClaimStop(None));
    case CallWifi(t) => SpawnInv(s, t, FirstLook(Wifi));
    case Deadline(t) => SpawnInv(s, t, ClaimStop(s.shared.timer));
    case Station(t) => SpawnInv(s, t, Note);
    case Step(t, c) => if t in s.threads { StepInv(s, t, c); }
  }

  lemma {:induction false} RunInv(daemon: Daemon, events: seq<Event>)
    requires NoAp(daemon.disk)
    ensures Inv(Run(Initial(daemon), events))
  {
    if events != [] {
      RunInv(daemon, events[..|events| - 1]);
      ApplyInv(Run(Initial(daemon), events[..|events| - 1]), events[|events| - 1]);
    }
  }

  /** At most one thread holds the transition claim. */
  lemma OneClaimHolder(daemon: Daemon, events: seq<Event>, t: nat, u: nat)
    requires NoAp(daemon.disk)
    requires var s := Run(Initial(daemon), events);
             t in s.threads && u in s.threads && HoldsClaim(s.threads[t]) && HoldsClaim(s.threads[u])
    ensures t == u && Run(Initial(daemon), events).shared.transition
  {
    RunInv(daemon, events);
    var s := Run(Initial(daemon), events);
    assert Owner(s.shared, t, s.threads[t]) && Owner(s.shared, u, s.threads[u]);
  }

  /** A Wi-Fi change never runs while the access point is active, nor beside a start body, a teardown
      or another Wi-Fi change. */
  lemma WifiChangesAlone(daemon: Daemon, events: seq<Event>, t: nat, u: nat)
    requires NoAp(daemon.disk)
    requires var s := Run(Initial(daemon), events);
             t in s.threads && u in s.threads && t != u && (s.threads[t] == Body(Wifi) || s.threads[t].Saving?)
    ensures var s := Run(Initial(daemon), events);
            !s.shared.active && !HoldsRadio(s.threads[u])
  {
    RunInv(daemon, events);
    var s := Run(Initial(daemon), events);
    assert WifiSafeAt(s.shared, s.threads[t]);
    if HoldsRadio(s.threads[u]) {
      RadioAlone(s, t, u);
    }
  }

  /** The supplicant's file never holds an access-point block. */
  lemma DiskNeverAccessPoint(daemon: Daemon, events: seq<Event>)
    requires NoAp(daemon.disk)
    ensures NoAp(Run(Initial(daemon), events).shared.daemon.disk)
  {
    RunInv(daemon, events);
  }

  lemma DiskStep(sh: Shared, t: nat, pc: Pc, c: Choice)
    requires Advance(sh, t, pc, c).shared.daemon.disk != sh.daemon.disk
    ensures pc == Saving({}) && c == Write(true) && Advance(sh, t, pc, c).shared.daemon.disk == sh.daemon.live
  {
  }

  /** It changes only by a save that was carried out after every listed block had been looked at, and is
      then the live table, which holds no access-point block. */
  lemma DiskOnlySaved(daemon: Daemon, events: seq<Event>, e: Event)
    requires NoAp(daemon.disk)
    ensures var s, after := Run(Initial(daemon), events), Apply(Run(Initial(daemon), events), e);
      after.shared.daemon.disk != s.shared.daemon.disk ==>
        && e.Step? && e.choice == Write(true) && e.t in s.threads && s.threads[e.t] == Saving({})
        && after.shared.daemon.disk == s.shared.daemon.live && NoAp(s.shared.daemon.live)
  {
    var s := Run(Initial(daemon), events);
    if Apply(s, e).shared.daemon.disk != s.shared.daemon.disk {
      DiskStep(s.shared, e.t, s.threads[e.t], e.choice);
      assert (events + [e])[..|events|] == events;
      DiskNeverAccessPoint(daemon, events + [e]);
    }
  }

  /** Once a join of a session is noted, no deadline claims that session. */
  lemma JoinDefeatsDeadline(daemon: Daemon, events: seq<Event>, i: nat, j: nat)
    requires NoAp(daemon.disk)
    requires i < j < |Run(Initial(daemon), events).shared.log|
    requires Run(Initial(daemon), events).shared.log[i].Joined?
    requires Run(Initial(daemon), events).shared.log[j].Claimed?
    requires Run(Initial(daemon), events).shared.log[j].session == Run(Initial(daemon), events).shared.log[i].session
    ensures Run(Initial(daemon), events).shared.log[j].timer.None?
  {
    RunInv(daemon, events);
    var log := Run(Initial(daemon), events).shared.log;
    assert !Defeated(log[i], log[j]);
  }

  /** A deadline's claim is for its own session if and only if its timer is still armed just before. */
  lemma ClaimsOwnIffArmed(daemon: Daemon, events: seq<Event>, t: nat, k: nat)
    requires NoAp(daemon.disk)
    requires var s := Run(Initial(daemon), events);
             && t in s.threads && s.threads[t] == In(ClaimStop(Some(k)))
             && StepOf(s, t, Go).threads[t] == WaitRadio(Stop)
    ensures var s := Run(Initial(daemon), events);
            && StepOf(s, t, Go).shared.log == s.shared.log + [Claimed(s.shared.session, Some(k))]
            && (s.shared.session == k <==> s.shared.timer == Some(k))
  {
    RunInv(daemon, events);
  }

  /** In the record: a deadline's claim hits a session other than its own if and only if the next start
      committed before it. */
  lemma ClaimsOwnIffNoNewStart(daemon: Daemon, events: seq<Event>, j: nat, k: nat)
    requires NoAp(daemon.disk) && j < |Run(Initial(daemon), events).shared.log|
    requires Run(Initial(daemon), events).shared.log[j].Claimed?
    requires Run(Initial(daemon), events).shared.log[j].timer == Some(k)
    ensures var log := Run(Initial(daemon), events).shared.log;
            log[j].session == k <==> Began(k + 1) !in log[..j]
  {
    RunInv(daemon, events);
    OwnSession(Run(Initial(daemon), events).shared.log, j, k);
  }

  lemma OwnSession(log: seq<Mark>, j: nat, k: nat)
    requires Numbered(log) && j < |log| && log[j].Claimed? && log[j].timer == Some(k)
    ensures log[j].session == k <==> Began(k + 1) !in log[..j]
  {
    var before := log[..j];
    NumberedAt(log, j);
    if Began(k + 1) in before {
      var i :| 0 <= i < j && before[i] == Began(k + 1);
      NumberedAt(before, i);
      BegunGrows(before, i + 1);
      assert before[..i + 1][..i] == before[..i];
    } else if log[j].session > k {
      BegunMarks(before, k + 1);
    }
  }

  lemma {:induction false} RunGrows(s: State, later: seq<Event>)
    requires Inv(s)
    ensures var after := Run(s, later); Inv(after) && s.shared.log <= after.shared.log
  {
    if later != [] {
      RunGrows(s, later[..|later| - 1]);
      var now := Run(s, later[..|later| - 1]);
      var e := later[|later| - 1];
      ApplyInv(now, e);
      if e.Step? && e.t in now.threads {
        StepFired(now, e.t, e.choice);
      }
    }
  }

  /** A claim recorded after a deadline fired and before another start commits is on the session that
      deadline was armed for. */
  lemma NoForeignClaim(daemon: Daemon, before: seq<Event>, later: seq<Event>, s: State, after: State, j: nat)
    requires NoAp(daemon.disk) && s == Run(Initial(daemon), before) && after == Run(s, later)
    requires s.shared.timer.Some? && after.shared.session == s.shared.session
    requires |s.shared.log| <= j < |after.shared.log| && after.shared.log[j].Claimed?
    ensures after.shared.log[j].session == s.shared.timer.value
  {
    RunInv(daemon, before);
    RunGrows(s, later);
    ClaimBetween(after.shared.log, |s.shared.log|, j);
    assert after.shared.log[..|s.shared.log|] == s.shared.log;
  }

  lemma ClaimBetween(log: seq<Mark>, i: nat, j: nat)
    requires Numbered(log) && i <= j < |log| && log[j].Claimed?
    ensures Begun(log[..i]) <= log[j].session <= Begun(log)
  {
    NumberedAt(log, j);
    BegunGrows(log, j);
    BegunGrows(log[..j], i);
    assert log[..j][..i] == log[..i];
  }

  /** The thread could take its next step now. */
  predicate Enabled(s: State, t: nat)
    requires t in s.threads
  {
    match s.threads[t]
    case Wait(_) => s.shared.short.None?
    case WaitRadio(_) => s.shared.radio.None?
    case Finished => false
    case _ => true
  }

  lemma EnabledMoves(s: State, t: nat) returns (c: Choice)
    requires t in s.threads && Enabled(s, t)
    ensures StepOf(s, t, c).threads[t] != s.threads[t]
  {
    match s.threads[t]
    case Saving(left) =>
      if left == {} {
        c := Write(true);
      } else {
        var id :| id in left;
        c := Strip(id, true, true);
        assert id !in left - {id};
      }
    case _ => c := End(true);
  }

  /** No set of threads can block itself: while any thread is unfinished, some thread moves on. */
  lemma NoDeadlock(daemon: Daemon, events: seq<Event>, t: nat) returns (u: nat, c: Choice)
    requires NoAp(daemon.disk)
    requires var s := Run(Initial(daemon), events); t in s.threads && !s.threads[t].Finished?
    ensures var s := Run(Initial(daemon), events); u in s.threads && StepOf(s, u, c).threads[u] != s.threads[u]
  {
    RunInv(daemon, events);
    var s := Run(Initial(daemon), events);
    u := match s.shared.short
         case Some(holder) => holder
         case None => match s.shared.radio case Some(holder) => holder case None => t;
    assert u in s.threads && Owner(s.shared, u, s.threads[u]);
    c := EnabledMoves(s, u);
  }

  /** Nothing is left behind: when every thread has finished, both locks and the claim are free. */
  lemma EverythingReleased(daemon: Daemon, events: seq<Event>)
    requires NoAp(daemon.disk)
    requires AllFinished(Run(Initial(daemon), events))
    ensures Quiet(Run(Initial(daemon), events).shared)
  {
    RunInv(daemon, events);
    var s := Run(Initial(daemon), events);
    forall t | t in s.threads
      ensures s.shared.short != Some(t) && s.shared.radio != Some(t) && s.shared.claimant != Some(t)
    {
      assert s.threads[t].Finished? && Owner(s.shared, t, s.threads[t]);
    }
  }

  ghost predicate AllFinished(s: State) {
    forall t :: t in s.threads ==> s.threads[t].Finished?
  }

  predicate Quiet(sh: Shared) {
    sh.short.None? && sh.radio.None? && sh.claimant.None? && !sh.transition
  }

  // ── a deadline that outlives its session ────────────────────────────────────────

  /** n steps of one thread while the others rest. */
  function Solo(sh: Shared, t: nat, pc: Pc, n: nat): Turn
    decreases n
  {
    if n == 0 then Turn(sh, pc)
    else var r := Solo(sh, t, pc, n - 1); Advance(r.shared, t, r.pc, End(true))
  }

  lemma {:induction false} SoloRun(start: State, events: seq<Event>, s: State, t: nat, n: nat)
    returns (more: seq<Event>)
    requires s == Run(start, events) && t in s.threads
    ensures var r := Solo(s.shared, t, s.threads[t], n); Run(start, more) == State(s.threads[t := r.pc], r.shared)
  {
    if n == 0 {
      more := events;
      assert s.threads[t := s.threads[t]] == s.threads;
    } else {
      var before := SoloRun(start, events, s, t, n - 1);
      more := before + [Step(t, End(true))];
      assert more[..|more| - 1] == before;
      var r := Solo(s.shared, t, s.threads[t], n - 1);
      var r' := Solo(s.shared, t, s.threads[t], n);
      assert s.threads[t := r.pc][t := r'.pc] == s.threads[t := r'.pc];
    }
  }

  lemma Called(start: State, events: seq<Event>, e: Event) returns (more: seq<Event>)
    ensures Run(start, more) == Apply(Run(start, events), e)
  {
    more := events + [e];
    assert more[..|more| - 1] == events;
  }

  lemma {:induction false} SoloThen(sh: Shared, t: nat, pc: Pc, a: nat, b: nat)
    ensures var r := Solo(sh, t, pc, a); Solo(sh, t, pc, a + b) == Solo(r.shared, t, r.pc, b)
    decreases b
  {
    if b > 0 {
      SoloThen(sh, t, pc, a, b - 1);
    }
  }

  lemma SoloThree(sh: Shared, t: nat, pc: Pc, a: nat, r: Turn, b: nat, q: Turn, c: nat) returns (n: nat)
    requires Solo(sh, t, pc, a) == r && Solo(r.shared, t, r.pc, b) == q
    ensures Solo(sh, t, pc, n) == Solo(q.shared, t, q.pc, c)
  {
    SoloThen(sh, t, pc, a, b);
    SoloThen(sh, t, pc, a + b, c);
    n := a + b + c;
  }

  lemma StartClaims(sh: Shared, t: nat) returns (n: nat)
    requires Quiet(sh) && !sh.active
    ensures Solo(sh, t, Wait(FirstLook(Start)), n)
            == Turn(sh.(radio := Some(t), transition := true, claimant := Some(t)), Body(Start))
  {
    n := 5;
  }

  lemma StartCommits(sh: Shared, t: nat) returns (n: nat)
    requires sh.short.None?
    ensures Solo(sh, t, Body(Start), n) == Turn(
              sh.(active := true, joined := false, session := sh.session + 1, timer := Some(sh.session + 1),
                  log := sh.log + [Began(sh.session + 1)]), Wait(EndStart))
  {
    n := 3;
  }

  lemma StartEnds(sh: Shared, t: nat) returns (n: nat)
    requires sh.short.None?
    ensures Solo(sh, t, Wait(EndStart), n)
            == Turn(sh.(transition := false, claimant := None, radio := None), Finished)
  {
    n := 3;
  }

  /** Left to itself on a station, a start whose commands work raises the access point. */
  lemma StartSolo(sh: Shared, t: nat) returns (n: nat)
    requires Quiet(sh) && !sh.active
    ensures Solo(sh, t, Wait(FirstLook(Start)), n) == Turn(
              sh.(active := true, joined := false, session := sh.session + 1, timer := Some(sh.session + 1),
                  log := sh.log + [Began(sh.session + 1)]), Finished)
  {
    var pc := Wait(FirstLook(Start));
    var claimed := sh.(radio := Some(t), transition := true, claimant := Some(t));
    var a := StartClaims(sh, t);
    var b := StartCommits(claimed, t);
    var up := claimed.(active := true, joined := false, session := sh.session + 1, timer := Some(sh.session + 1),
                       log := sh.log + [Began(sh.session + 1)]);
    var c := StartEnds(up, t);
    n := SoloThree(sh, t, pc, a, Turn(claimed, Body(Start)), b, Turn(up, Wait(EndStart)), c);
  }

  lemma StopClaims(sh: Shared, t: nat) returns (n: nat)
    requires Quiet(sh)
    ensures Solo(sh, t, Wait(ClaimStop(None)), n)
            == Turn(sh.(radio := Some(t), transition := true, claimant := Some(t),
                        log := sh.log + [Claimed(sh.session, None)]), Wait(Reset))
  {
    n := 3;
  }

  lemma StopResets(sh: Shared, t: nat) returns (n: nat)
    requires sh.short.None?
    ensures Solo(sh, t, Wait(Reset), n)
            == Turn(sh.(active := false, joined := false, timer := None, radio := None), Wait(Say))
  {
    n := 4;
  }

  lemma StopEnds(sh: Shared, t: nat) returns (n: nat)
    requires sh.short.None?
    ensures Solo(sh, t, Wait(Say), n) == Turn(sh.(transition := false, claimant := None), Finished)
  {
    n := 4;
  }

  /** Left to itself, a stop ends as a station. */
  lemma StopSolo(sh: Shared, t: nat) returns (n: nat)
    requires Quiet(sh)
    ensures Solo(sh, t, Wait(ClaimStop(None)), n) == Turn(
              sh.(active := false, joined := false, timer := None, log := sh.log + [Claimed(sh.session, None)]), Finished)
  {
    var pc := Wait(ClaimStop(None));
    var claimed := sh.(radio := Some(t), transition := true, claimant := Some(t),
                       log := sh.log + [Claimed(sh.session, None)]);
    var a := StopClaims(sh, t);
    var b := StopResets(claimed, t);
    var down := claimed.(active := false, joined := false, timer := None, radio := None);
    var c := StopEnds(down, t);
    n := SoloThree(sh, t, pc, a, Turn(claimed, Wait(Reset)), b, Turn(down, Wait(Say)), c);
  }

  lemma DeadlineSolo(sh: Shared, t: nat, timer: nat) returns (n: nat)
    requires Quiet(sh) && Unjoined(sh)
    ensures Solo(sh, t, Wait(ClaimStop(Some(timer))), n).shared.log == sh.log + [Claimed(sh.session, Some(timer))]
  {
    n := 2;
  }

  lemma StartAlone(start: State, events: seq<Event>, s: State, t: nat) returns (more: seq<Event>)
    requires s == Run(start, events) && t !in s.threads && Quiet(s.shared) && !s.shared.active
    ensures var after := Run(start, more);
            && after.threads == s.threads[t := Finished]
            && after.shared == s.shared.(active := true, joined := false, session := s.shared.session + 1,
                                         timer := Some(s.shared.session + 1),
                                         log := s.shared.log + [Began(s.shared.session + 1)])
  {
    var called := Called(start, events, CallStart(t));
    var n := StartSolo(s.shared, t);
    var now := Apply(s, CallStart(t));
    more := SoloRun(start, called, now, t, n);
    assert s.threads[t := Wait(FirstLook(Start))][t := Finished] == s.threads[t := Finished];
  }

  lemma StopAlone(start: State, events: seq<Event>, s: State, t: nat) returns (more: seq<Event>)
    requires s == Run(start, events) && t !in s.threads && Quiet(s.shared)
    ensures var after := Run(start, more);
            && after.threads == s.threads[t := Finished]
            && after.shared == s.shared.(active := false, joined := false, timer := None,
                                         log := s.shared.log + [Claimed(s.shared.session, None)])
  {
    var called := Called(start, events, CallStop(t));
    var n := StopSolo(s.shared, t);
    var now := Apply(s, CallStop(t));
    more := SoloRun(start, called, now, t, n);
    assert s.threads[t := Wait(ClaimStop(None))][t := Finished] == s.threads[t := Finished];
  }

  /** Cancelling a timer does not stop a callback that has already begun: delayed before its claim, it
      stops the next session, which nobody has joined yet, on behalf of the one it was armed for. */
  lemma StaleDeadline(daemon: Daemon) returns (events: seq<Event>)
    ensures Run(Initial(daemon), events).shared.log
            == [Began(1), Claimed(1, None), Began(2), Claimed(2, Some(1))]
  {
    var init := Initial(daemon);
    events := StartAlone(init, [], init, 0);
    events := Called(init, events, Deadline(1));
    events := StopAlone(init, events, Run(init, events), 2);
    events := StartAlone(init, events, Run(init, events), 3);
    var s := Run(init, events);
    assert s.threads[1] == Wait(ClaimStop(Some(1)));
    var n := DeadlineSolo(s.shared, 1, 1);
    events := SoloRun(init, events, s, 1, n);
  }
}
