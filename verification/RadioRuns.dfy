/** What happens to a station's join over whole runs of the radio protocol, and what a Wi-Fi change that
    nobody disturbs brings about. */
module RadioRuns {
  import opened Basics
  import opened Supplicant
  import opened RadioProtocol

  // ── every finished note is on record ───────────────────────────────────────

  /** A join of the session, or a stop of it, has happened. */
  ghost predicate Settled(log: seq<Mark>, session: nat) {
    Joined(session) in log || exists timer :: Claimed(session, timer) in log
  }

  /** A thread on its way to reset has claimed the running session. */
  ghost predicate StopMarked(sh: Shared, pc: Pc) {
    pc == WaitRadio(Stop) || pc == Wait(Reset) || pc == In(Reset) ==> Settled(sh.log, sh.session)
  }

  /** An access point that is no longer unjoined was joined, or claimed by a stop. */
  ghost predicate Recorded(s: State) {
    && (s.shared.active ==> s.shared.session > 0)
    && (s.shared.session > 0 && !Unjoined(s.shared) ==> Settled(s.shared.log, s.shared.session))
    && forall t :: t in s.threads ==> StopMarked(s.shared, s.threads[t])
  }

  lemma SettledGrows(log: seq<Mark>, m: Mark, session: nat)
    ensures Settled(log, session) ==> Settled(log + [m], session)
    ensures m == Joined(session) || (m.Claimed? && m.session == session) ==> Settled(log + [m], session)
  {
    if Settled(log, session) && Joined(session) !in log {
      var timer :| Claimed(session, timer) in log;
      assert Claimed(session, timer) in log + [m];
    }
    if m.Claimed? && m.session == session {
      assert Claimed(session, m.timer) in log + [m];
    }
  }

  /** What one step keeps: a settled session stays settled, and what it notes or claims it settles. */
  ghost predicate KeepsSettled(sh: Shared, pc: Pc, after: Shared, next: Pc) {
    && (after.active ==> after.session > 0)
    && (after.session > 0 && !Unjoined(after) ==> Settled(after.log, after.session))
    && StopMarked(after, next)
    && (Settled(sh.log, sh.session) && after.session == sh.session ==> Settled(after.log, sh.session))
    && (after.session != sh.session ==> HoldsClaim(pc))
  }

  lemma StepSettles(sh: Shared, t: nat, pc: Pc, c: Choice)
    requires sh.session > 0 && !Unjoined(sh) ==> Settled(sh.log, sh.session)
    requires StopMarked(sh, pc) && Owner(sh, t, pc) && (sh.active ==> sh.session > 0)
    ensures var r := Advance(sh, t, pc, c); KeepsSettled(sh, pc, r.shared, r.pc)
  {
    if pc.In? {
      ActSettles(sh, t, pc.section);
    } else {
      var r := Advance(sh, t, pc, c).shared;
      assert r.log == sh.log && r.session == sh.session && r.active == sh.active && r.joined == sh.joined;
    }
  }

  lemma ActSettles(sh: Shared, t: nat, x: Section)
    requires sh.session > 0 && !Unjoined(sh) ==> Settled(sh.log, sh.session)
    requires StopMarked(sh, In(x)) && Owner(sh, t, In(x)) && (sh.active ==> sh.session > 0)
    ensures var r := Act(sh, t, x); KeepsSettled(sh, In(x), r.shared, r.pc)
  {
    var r := Act(sh, t, x).shared;
    if r.log != sh.log {
      var m := r.log[|sh.log|];
      assert r.log == sh.log + [m];
      SettledGrows(sh.log, m, sh.session);
    }
  }

  lemma StepRecorded(s: State, t: nat, c: Choice)
    requires Inv(s) && Recorded(s) && t in s.threads
    ensures Recorded(StepOf(s, t, c))
  {
    assert Owner(s.shared, t, s.threads[t]);
    StepSettles(s.shared, t, s.threads[t], c);
    var after := StepOf(s, t, c);
    forall u | u in after.threads ensures StopMarked(after.shared, after.threads[u]) {
      if u != t {
        assert Owner(s.shared, u, s.threads[u]) && StopMarked(s.shared, s.threads[u]);
      }
    }
  }

  lemma ApplyRecorded(s: State, e: Event)
    requires Inv(s) && Recorded(s)
    ensures Recorded(Apply(s, e))
  {
    if e.Step? && e.t in s.threads {
      StepRecorded(s, e.t, e.choice);
    }
  }

  lemma {:induction false} RunRecorded(daemon: Daemon, events: seq<Event>)
    requires NoAp(daemon.disk)
    ensures Recorded(Run(Initial(daemon), events))
  {
    if events != [] {
      var before := events[..|events| - 1];
      RunRecorded(daemon, before);
      RunInv(daemon, before);
      ApplyRecorded(Run(Initial(daemon), before), events[|events| - 1]);
    }
  }

  /** The note of t is still to come, or has settled the session it found. */
  ghost predicate NoteUnderWay(s: State, t: nat, session: nat) {
    && t in s.threads && session <= s.shared.session
    && (s.threads[t] == Wait(Note) || s.threads[t] == In(Note)
        || (s.threads[t].Finished? && (s.shared.session > session || Settled(s.shared.log, session))))
  }

  lemma NoteMoves(s: State, t: nat, session: nat, e: Event)
    requires Inv(s) && Recorded(s) && NoteUnderWay(s, t, session) && session > 0
    ensures NoteUnderWay(Apply(s, e), t, session)
  {
    if e.Step? && e.t in s.threads {
      StepFired(s, e.t, e.choice);
      assert Owner(s.shared, e.t, s.threads[e.t]);
      StepSettles(s.shared, e.t, s.threads[e.t], e.choice);
    }
  }

  lemma {:induction false} NotesSettle(s: State, t: nat, session: nat, later: seq<Event>)
    requires Inv(s) && Recorded(s) && NoteUnderWay(s, t, session) && session > 0
    ensures var after := Run(s, later); Inv(after) && Recorded(after) && NoteUnderWay(after, t, session)
  {
    if later != [] {
      NotesSettle(s, t, session, later[..|later| - 1]);
      var now := Run(s, later[..|later| - 1]);
      NoteMoves(now, t, session, later[|later| - 1]);
      ApplyInv(now, later[|later| - 1]);
      ApplyRecorded(now, later[|later| - 1]);
    }
  }

  /** Whatever else runs, once a station's note has finished in the session it was called in, the join is
      on record, or a stop of that session is. */
  lemma NoteIsOnRecord(daemon: Daemon, before: seq<Event>, s: State, t: nat, later: seq<Event>)
    requires NoAp(daemon.disk) && s == Run(Initial(daemon), before) && t !in s.threads && s.shared.session > 0
    requires var after := Run(Apply(s, Station(t)), later);
      t in after.threads && after.threads[t].Finished? && after.shared.session == s.shared.session
    ensures var log := Run(Apply(s, Station(t)), later).shared.log;
      Joined(s.shared.session) in log || exists timer :: Claimed(s.shared.session, timer) in log
  {
    RunInv(daemon, before);
    RunRecorded(daemon, before);
    ApplyInv(s, Station(t));
    ApplyRecorded(s, Station(t));
    NotesSettle(Apply(s, Station(t)), t, s.shared.session, later);
  }

  // ── an undisturbed note keeps the access point ─────────────────────────────

  lemma NoteSolo(sh: Shared, t: nat) returns (n: nat)
    requires sh.short.None? && Unjoined(sh)
    ensures Solo(sh, t, Wait(Note), n)
         == Turn(sh.(joined := true, timer := None, log := sh.log + [Joined(sh.session)]), Finished)
  {
    n := 2;
  }

  /** Left to itself, the note of a station on an unjoined access point joins it and disarms its deadline. */
  lemma NoteAlone(start: State, events: seq<Event>, s: State, t: nat) returns (more: seq<Event>)
    requires s == Run(start, events) && t !in s.threads && s.shared.short.None? && Unjoined(s.shared)
    requires s.shared.session > 0
    ensures var after := Run(start, more);
      && after.threads == s.threads[t := Finished]
      && after.shared == s.shared.(joined := true, timer := None, log := s.shared.log + [Joined(s.shared.session)])
  {
    var called := Called(start, events, Station(t));
    var n := NoteSolo(s.shared, t);
    more := SoloRun(start, called, Apply(s, Station(t)), t, n);
    assert s.threads[t := Wait(Note)][t := Finished] == s.threads[t := Finished];
  }

  /** Entry j is a claim made after s, before another start commits. */
  ghost predicate ClaimsLater(s: State, later: seq<Event>, j: int) {
    var end := Run(s, later).shared;
    end.session == s.shared.session && |s.shared.log| <= j < |end.log| && end.log[j].Claimed?
  }

  /** From then on, until another start commits, no deadline stops the access point, in any interleaving
      and not even one that had begun to fire. */
  lemma JoinKeepsAccessPoint(daemon: Daemon, before: seq<Event>, s: State, t: nat) returns (noted: seq<Event>)
    requires NoAp(daemon.disk) && s == Run(Initial(daemon), before) && t !in s.threads && s.shared.short.None?
    requires Unjoined(s.shared)
    ensures var after := Run(Initial(daemon), noted);
      && after.shared.joined && after.shared.active && after.shared.timer.None?
      && after.shared.log == s.shared.log + [Joined(s.shared.session)]
    ensures forall later, j :: ClaimsLater(Run(Initial(daemon), noted), later, j) ==>
      Run(Run(Initial(daemon), noted), later).shared.log[j].timer.None?
  {
    RunInv(daemon, before);
    RunRecorded(daemon, before);
    noted := NoteAlone(Initial(daemon), before, s, t);
    var after := Run(Initial(daemon), noted);
    RunInv(daemon, noted);
    NoDeadlineLater(after);
  }

  lemma NoDeadlineLater(s: State)
    requires Inv(s) && s.shared.log != [] && s.shared.log[|s.shared.log| - 1] == Joined(s.shared.session)
    ensures forall later, j :: ClaimsLater(s, later, j) ==> Run(s, later).shared.log[j].timer.None?
  {
    forall later, j | ClaimsLater(s, later, j) ensures Run(s, later).shared.log[j].timer.None? {
      JoinedClaim(s, later, |s.shared.log| - 1, j);
    }
  }

  /** A claim of the session after its join was noted is no deadline's. */
  lemma JoinedClaim(s: State, later: seq<Event>, i: nat, j: nat)
    requires Inv(s) && i < |s.shared.log| && s.shared.log[i] == Joined(s.shared.session)
    requires ClaimsLater(s, later, j)
    ensures Run(s, later).shared.log[j].timer.None?
  {
    RunGrows(s, later);
    var log := Run(s, later).shared.log;
    assert log[..|s.shared.log|] == s.shared.log;
    ClaimBetween(log, |s.shared.log|, j);
    assert log[i] == s.shared.log[i] && !Defeated(log[i], log[j]);
  }

  // ── what an undisturbed thread brings about ────────────────────────────────

  /** One thread's steps with these choices while the others rest. */
  function Script(sh: Shared, t: nat, pc: Pc, cs: seq<Choice>): Turn {
    if cs == [] then Turn(sh, pc)
    else var r := Script(sh, t, pc, cs[..|cs| - 1]); Advance(r.shared, t, r.pc, cs[|cs| - 1])
  }

  lemma {:induction false} ScriptThen(sh: Shared, t: nat, pc: Pc, a: seq<Choice>, b: seq<Choice>)
    ensures var r := Script(sh, t, pc, a); Script(sh, t, pc, a + b) == Script(r.shared, t, r.pc, b)
  {
    if b == [] {
      assert a + b == a;
    } else {
      var front := b[..|b| - 1];
      ScriptThen(sh, t, pc, a, front);
      assert (a + b)[..|a + b| - 1] == a + front;
    }
  }

  lemma ScriptNext(sh: Shared, t: nat, pc: Pc, a: seq<Choice>, c: Choice)
    ensures var r := Script(sh, t, pc, a); Script(sh, t, pc, a + [c]) == Advance(r.shared, t, r.pc, c)
  {
    assert (a + [c])[..|a|] == a;
  }

  lemma {:induction false} ScriptRun(start: State, events: seq<Event>, s: State, t: nat, cs: seq<Choice>)
    returns (more: seq<Event>)
    requires s == Run(start, events) && t in s.threads
    ensures var r := Script(s.shared, t, s.threads[t], cs); Run(start, more) == State(s.threads[t := r.pc], r.shared)
  {
    if cs == [] {
      more := events;
      assert s.threads[t := s.threads[t]] == s.threads;
    } else {
      var front := cs[..|cs| - 1];
      var before := ScriptRun(start, events, s, t, front);
      more := Called(start, before, Step(t, cs[|cs| - 1]));
      var r := Script(s.shared, t, s.threads[t], front);
      var r' := Script(s.shared, t, s.threads[t], cs);
      assert s.threads[t := r.pc][t := r'.pc] == s.threads[t := r'.pc];
    }
  }

  /** The daemon after commands it carries out. */
  function ExecAll(d: Daemon, cs: seq<Command>): Daemon {
    if cs == [] then d else Exec(ExecAll(d, cs[..|cs| - 1]), cs[|cs| - 1])
  }

  function Issues(cs: seq<Command>): seq<Choice> {
    seq(|cs|, k requires 0 <= k < |cs| => Issue(cs[k], true))
  }

  /** What a body of each kind may send: a start anything but the save, a Wi-Fi change nothing that makes
      access points either, a stop removals and reloads. */
  predicate MaySend(job: Job, c: Command) {
    if job.Start? then !c.Save?
    else if job.Wifi? then !c.Save? && !c.SetApMode?
    else c.Remove? || c.Reconfigure?
  }

  lemma {:induction false} BodyIssues(sh: Shared, t: nat, job: Job, cs: seq<Command>)
    requires forall k :: 0 <= k < |cs| ==> MaySend(job, cs[k])
    ensures Script(sh, t, Body(job), Issues(cs)) == Turn(sh.(daemon := ExecAll(sh.daemon, cs)), Body(job))
  {
    if cs != [] {
      var front := cs[..|cs| - 1];
      BodyIssues(sh, t, job, front);
      assert Issues(cs)[..|cs| - 1] == Issues(front);
    }
  }

  /** The table without its access points among ids. */
  function Stripped(c: Config, ids: set<nat>): Config {
    map id | id in c && !(c[id].ap && id in ids) :: c[id]
  }

  lemma {:induction false} StripsAll(sh: Shared, t: nat, left: set<nat>) returns (cs: seq<Choice>)
    ensures Script(sh, t, Saving(left), cs)
         == Turn(sh.(daemon := sh.daemon.(live := Stripped(sh.daemon.live, left))), Saving({}))
    decreases left
  {
    if left == {} {
      cs := [];
      assert Stripped(sh.daemon.live, left) == sh.daemon.live;
    } else {
      var id :| id in left;
      var c := Strip(id, true, true);
      var r := Advance(sh, t, Saving(left), c);
      var live := sh.daemon.live;
      assert r.shared == sh.(daemon := sh.daemon.(live := Stripped(live, {id})));
      var rest := StripsAll(r.shared, t, left - {id});
      assert Stripped(Stripped(live, {id}), left - {id}) == Stripped(live, left);
      ScriptNext(sh, t, Saving(left), [], c);
      ScriptThen(sh, t, Saving(left), [c], rest);
      cs := [c] + rest;
    }
  }

  /** After the save the file is the live table, and neither holds an access point. */
  lemma Saves(sh: Shared, t: nat) returns (cs: seq<Choice>)
    ensures var kept := Stripped(sh.daemon.live, sh.daemon.live.Keys);
      Script(sh, t, Body(Wifi), cs) == Turn(sh.(daemon := Daemon(kept, kept)), Body(Wifi))
  {
    var stripping := StripsAll(sh, t, sh.daemon.live.Keys);
    ScriptNext(sh, t, Body(Wifi), [], BeginSave);
    ScriptThen(sh, t, Body(Wifi), [BeginSave], stripping);
    ScriptNext(sh, t, Body(Wifi), [BeginSave] + stripping, Write(true));
    cs := [BeginSave] + stripping + [Write(true)];
  }

  lemma {:induction false} SoloScript(sh: Shared, t: nat, pc: Pc, n: nat) returns (cs: seq<Choice>)
    ensures Script(sh, t, pc, cs) == Solo(sh, t, pc, n)
    decreases n
  {
    if n == 0 {
      cs := [];
    } else {
      var front := SoloScript(sh, t, pc, n - 1);
      ScriptNext(sh, t, pc, front, End(true));
      cs := front + [End(true)];
    }
  }

  lemma WifiClaims(sh: Shared, t: nat) returns (n: nat)
    requires Quiet(sh) && !sh.active
    ensures Solo(sh, t, Wait(FirstLook(Wifi)), n) == Turn(sh.(radio := Some(t)), Body(Wifi))
  {
    n := 5;
  }

  lemma WifiEnds(sh: Shared, t: nat) returns (n: nat)
    ensures Solo(sh, t, Body(Wifi), n) == Turn(sh.(radio := None), Finished)
  {
    n := 2;
  }

  /** Left to itself on a station, a Wi-Fi change whose commands work leaves them carried out, the file
      equal to the live table without access points, and everything released. */
  lemma WifiAlone(start: State, events: seq<Event>, s: State, t: nat, cs: seq<Command>) returns (more: seq<Event>)
    requires s == Run(start, events) && t !in s.threads && Quiet(s.shared) && !s.shared.active
    requires forall k :: 0 <= k < |cs| ==> !cs[k].Save? && !cs[k].SetApMode?
    ensures var after, live := Run(start, more), ExecAll(s.shared.daemon, cs).live;
      var kept := map id | id in live && !live[id].ap :: live[id];
      after.threads == s.threads[t := Finished] && after.shared == s.shared.(daemon := Daemon(kept, kept))
  {
    var sh, pc := s.shared, Wait(FirstLook(Wifi));
    var n := WifiClaims(sh, t);
    var claim := SoloScript(sh, t, pc, n);
    var held := sh.(radio := Some(t));
    BodyIssues(held, t, Wifi, cs);
    ScriptThen(sh, t, pc, claim, Issues(cs));
    var sent := held.(daemon := ExecAll(sh.daemon, cs));
    var saving := Saves(sent, t);
    ScriptThen(sh, t, pc, claim + Issues(cs), saving);
    var live := sent.daemon.live;
    var kept := map id | id in live && !live[id].ap :: live[id];
    assert Stripped(live, live.Keys) == kept;
    var saved := sent.(daemon := Daemon(kept, kept));
    n := WifiEnds(saved, t);
    var ending := SoloScript(saved, t, Body(Wifi), n);
    ScriptThen(sh, t, pc, claim + Issues(cs) + saving, ending);
    var called := Called(start, events, CallWifi(t));
    more := ScriptRun(start, called, Apply(s, CallWifi(t)), t, claim + Issues(cs) + saving + ending);
    assert s.threads[t := pc][t := Finished] == s.threads[t := Finished];
  }

  /** The shared state after a start that sent cs. */
  function Raised(sh: Shared, cs: seq<Command>): Shared {
    sh.(active := true, joined := false, session := sh.session + 1, timer := Some(sh.session + 1),
        log := sh.log + [Began(sh.session + 1)], daemon := ExecAll(sh.daemon, cs))
  }

  lemma StartSends(sh: Shared, t: nat, cs: seq<Command>) returns (steps: seq<Choice>)
    requires Quiet(sh) && !sh.active && forall k :: 0 <= k < |cs| ==> !cs[k].Save?
    ensures Script(sh, t, Wait(FirstLook(Start)), steps)
         == Turn(sh.(radio := Some(t), transition := true, claimant := Some(t), daemon := ExecAll(sh.daemon, cs)), Body(Start))
  {
    var pc := Wait(FirstLook(Start));
    var n := StartClaims(sh, t);
    var claim := SoloScript(sh, t, pc, n);
    BodyIssues(sh.(radio := Some(t), transition := true, claimant := Some(t)), t, Start, cs);
    ScriptThen(sh, t, pc, claim, Issues(cs));
    steps := claim + Issues(cs);
  }

  lemma StartFinishes(sh: Shared, t: nat) returns (steps: seq<Choice>)
    requires sh.short.None?
    ensures Script(sh, t, Body(Start), steps)
         == Turn(Raised(sh, []).(transition := false, claimant := None, radio := None), Finished)
  {
    var n := StartCommits(sh, t);
    var commit := SoloScript(sh, t, Body(Start), n);
    n := StartEnds(Raised(sh, []), t);
    var ending := SoloScript(Raised(sh, []), t, Wait(EndStart), n);
    ScriptThen(sh, t, Body(Start), commit, ending);
    steps := commit + ending;
  }

  lemma StartScript(sh: Shared, t: nat, cs: seq<Command>) returns (steps: seq<Choice>)
    requires Quiet(sh) && !sh.active && forall k :: 0 <= k < |cs| ==> !cs[k].Save?
    ensures Script(sh, t, Wait(FirstLook(Start)), steps) == Turn(Raised(sh, cs), Finished)
  {
    var sending := StartSends(sh, t, cs);
    var sent := sh.(radio := Some(t), transition := true, claimant := Some(t), daemon := ExecAll(sh.daemon, cs));
    var ending := StartFinishes(sent, t);
    ScriptThen(sh, t, Wait(FirstLook(Start)), sending, ending);
    steps := sending + ending;
  }

  /** Left to itself on a station, a start whose commands work leaves them carried out and the access point
      active under the next session, unjoined, with its deadline armed. */
  lemma StartRaises(start: State, events: seq<Event>, s: State, t: nat, cs: seq<Command>) returns (more: seq<Event>)
    requires s == Run(start, events) && t !in s.threads && Quiet(s.shared) && !s.shared.active
    requires forall k :: 0 <= k < |cs| ==> !cs[k].Save?
    ensures var after, next := Run(start, more), s.shared.session + 1;
      && after.threads == s.threads[t := Finished]
      && after.shared == s.shared.(active := true, joined := false, session := next, timer := Some(next),
                                   log := s.shared.log + [Began(next)], daemon := ExecAll(s.shared.daemon, cs))
  {
    var steps := StartScript(s.shared, t, cs);
    var called := Called(start, events, CallStart(t));
    more := ScriptRun(start, called, Apply(s, CallStart(t)), t, steps);
    assert s.threads[t := Wait(FirstLook(Start))][t := Finished] == s.threads[t := Finished];
  }

  // ── what an undisturbed thread is refused, and what a failure leaves ───────

  lemma RefusedSolo(sh: Shared, t: nat, job: Job) returns (n: nat)
    requires sh.short.None? && (sh.active || sh.transition)
    ensures Solo(sh, t, Wait(FirstLook(job)), n) == Turn(sh, Finished)
  {
    n := 2;
  }

  /** While the access point is up or in transition a start and a Wi-Fi change are refused, and change
      nothing. */
  lemma StartRefused(start: State, events: seq<Event>, s: State, t: nat, wifi: bool) returns (more: seq<Event>)
    requires s == Run(start, events) && t !in s.threads && s.shared.short.None?
    requires s.shared.active || s.shared.transition
    ensures Run(start, more) == State(s.threads[t := Finished], s.shared)
  {
    var job, e := if wifi then Wifi else Start, if wifi then CallWifi(t) else CallStart(t);
    var called := Called(start, events, e);
    var n := RefusedSolo(s.shared, t, job);
    more := SoloRun(start, called, Apply(s, e), t, n);
    assert s.threads[t := Wait(FirstLook(job))][t := Finished] == s.threads[t := Finished];
  }

  /** A stop is refused while another transition is under way. */
  lemma StopRefused(start: State, events: seq<Event>, s: State, t: nat) returns (more: seq<Event>)
    requires s == Run(start, events) && t !in s.threads && s.shared.short.None? && s.shared.transition
    ensures Run(start, more) == State(s.threads[t := Finished], s.shared)
  {
    var called := Called(start, events, CallStop(t));
    assert Solo(s.shared, t, Wait(ClaimStop(None)), 2) == Turn(s.shared, Finished);
    more := SoloRun(start, called, Apply(s, CallStop(t)), t, 2);
    assert s.threads[t := Wait(ClaimStop(None))][t := Finished] == s.threads[t := Finished];
  }

  lemma DeadlineClaims(sh: Shared, t: nat, timer: nat) returns (n: nat)
    requires Quiet(sh) && Unjoined(sh)
    ensures Solo(sh, t, Wait(ClaimStop(Some(timer))), n)
         == Turn(sh.(radio := Some(t), transition := true, claimant := Some(t),
                     log := sh.log + [Claimed(sh.session, Some(timer))]), Wait(Reset))
  {
    n := 3;
  }

  /** Left to itself on an unjoined access point, a deadline stops it. */
  lemma DeadlineAlone(start: State, events: seq<Event>, s: State, t: nat) returns (more: seq<Event>)
    requires s == Run(start, events) && t !in s.threads && Quiet(s.shared) && Unjoined(s.shared) && s.shared.timer.Some?
    ensures var after := Run(start, more);
      && after.threads == s.threads[t := Finished]
      && after.shared == s.shared.(active := false, joined := false, timer := None,
                                   log := s.shared.log + [Claimed(s.shared.session, s.shared.timer)])
  {
    var sh, pc := s.shared, Wait(ClaimStop(s.shared.timer));
    var claimed := sh.(radio := Some(t), transition := true, claimant := Some(t),
                       log := sh.log + [Claimed(sh.session, sh.timer)]);
    var a := DeadlineClaims(sh, t, sh.timer.value);
    var b := StopResets(claimed, t);
    var down := claimed.(active := false, joined := false, timer := None, radio := None);
    var c := StopEnds(down, t);
    var n := SoloThree(sh, t, pc, a, Turn(claimed, Wait(Reset)), b, Turn(down, Wait(Say)), c);
    var called := Called(start, events, Deadline(t));
    more := SoloRun(start, called, Apply(s, Deadline(t)), t, n);
    assert s.threads[t := pc][t := Finished] == s.threads[t := Finished];
  }

  /** A start whose commands fail leaves a station, with everything released and no session begun. */
  lemma StartFails(start: State, events: seq<Event>, s: State, t: nat) returns (more: seq<Event>)
    requires s == Run(start, events) && t !in s.threads && Quiet(s.shared) && !s.shared.active
    ensures Run(start, more) == State(s.threads[t := Finished], s.shared)
  {
    var sh, pc := s.shared, Wait(FirstLook(Start));
    var n := StartClaims(sh, t);
    var claim := SoloScript(sh, t, pc, n);
    var held := sh.(radio := Some(t), transition := true, claimant := Some(t));
    ScriptNext(sh, t, pc, claim, End(false));
    n := StartEnds(held, t);
    var ending := SoloScript(held, t, Wait(EndStart), n);
    ScriptThen(sh, t, pc, claim + [End(false)], ending);
    var called := Called(start, events, CallStart(t));
    more := ScriptRun(start, called, Apply(s, CallStart(t)), t, claim + [End(false)] + ending);
    assert s.threads[t := pc][t := Finished] == s.threads[t := Finished];
  }

  /** A stop that removes and reloads leaves the live table what its commands make of it. */
  lemma StopTearsDown(sh: Shared, t: nat, cs: seq<Command>) returns (steps: seq<Choice>)
    requires Quiet(sh) && forall k :: 0 <= k < |cs| ==> cs[k].Remove? || cs[k].Reconfigure?
    ensures Script(sh, t, Wait(ClaimStop(None)), steps)
         == Turn(sh.(active := false, joined := false, timer := None, log := sh.log + [Claimed(sh.session, None)],
                     daemon := ExecAll(sh.daemon, cs)), Finished)
  {
    var pc := Wait(ClaimStop(None));
    var claimed := sh.(radio := Some(t), transition := true, claimant := Some(t),
                       log := sh.log + [Claimed(sh.session, None)]);
    var n := StopClaims(sh, t);
    var claim := SoloScript(sh, t, pc, n);
    var reset := StopClears(claimed, t, cs);
    ScriptThen(sh, t, pc, claim, reset);
    var down := claimed.(active := false, joined := false, timer := None, radio := None, daemon := ExecAll(sh.daemon, cs));
    n := StopEnds(down, t);
    var ending := SoloScript(down, t, Wait(Say), n);
    ScriptThen(sh, t, pc, claim + reset, ending);
    steps := claim + reset + ending;
  }

  lemma StopClears(sh: Shared, t: nat, cs: seq<Command>) returns (steps: seq<Choice>)
    requires sh.short.None? && forall k :: 0 <= k < |cs| ==> cs[k].Remove? || cs[k].Reconfigure?
    ensures Script(sh, t, Wait(Reset), steps)
         == Turn(sh.(active := false, joined := false, timer := None, radio := None, daemon := ExecAll(sh.daemon, cs)), Wait(Say))
  {
    var pc, cleared := Wait(Reset), sh.(active := false, joined := false, timer := None);
    var clear := SoloScript(sh, t, pc, 2);
    assert Solo(sh, t, pc, 2) == Turn(cleared, Body(Stop));
    BodyIssues(cleared, t, Stop, cs);
    ScriptThen(sh, t, pc, clear, Issues(cs));
    var sent := cleared.(daemon := ExecAll(sh.daemon, cs));
    var leave := SoloScript(sent, t, Body(Stop), 2);
    assert Solo(sent, t, Body(Stop), 2) == Turn(sent.(radio := None), Wait(Say));
    ScriptThen(sh, t, pc, clear + Issues(cs), leave);
    steps := clear + Issues(cs) + leave;
  }

  // ── nothing unasked ────────────────────────────────────────────────────────

  /** The thread is about to claim a stop somebody asked for, or to note a join. */
  predicate Asks(pc: Pc, x: Section) {
    pc == Wait(x) || pc == In(x)
  }

  /** The marks one step adds come from its section. */
  lemma StepMarks(sh: Shared, t: nat, pc: Pc, c: Choice)
    ensures var r := Advance(sh, t, pc, c);
      && (forall m :: m in r.shared.log ==>
            m in sh.log || ((m.Claimed? ==> pc == In(ClaimStop(m.timer))) && (m.Joined? ==> pc == In(Note))))
      && (Asks(r.pc, ClaimStop(None)) ==> Asks(pc, ClaimStop(None)))
      && (Asks(r.pc, Note) ==> Asks(pc, Note))
  {
  }

  /** Nobody is about to claim a stop that was asked for, and none was claimed. */
  ghost predicate NoStops(s: State) {
    && (forall t :: t in s.threads ==> !Asks(s.threads[t], ClaimStop(None)))
    && (forall m :: m in s.shared.log && m.Claimed? ==> m.timer.Some?)
  }

  /** Nobody is about to note a join, and none was noted. */
  ghost predicate NoJoins(s: State) {
    && (forall t :: t in s.threads ==> !Asks(s.threads[t], Note))
    && (forall m :: m in s.shared.log ==> !m.Joined?)
  }

  lemma EventUnasked(s: State, e: Event)
    ensures NoStops(s) && !e.CallStop? ==> NoStops(Apply(s, e))
    ensures NoJoins(s) && !e.Station? ==> NoJoins(Apply(s, e))
  {
    if e.Step? && e.t in s.threads {
      StepMarks(s.shared, e.t, s.threads[e.t], e.choice);
    }
  }

  /** Unless a stop is called every claim is a deadline's. */
  lemma {:induction false} NoStopUnasked(daemon: Daemon, events: seq<Event>)
    requires forall e :: e in events ==> !e.CallStop?
    ensures NoStops(Run(Initial(daemon), events))
  {
    if events != [] {
      var front, e := events[..|events| - 1], events[|events| - 1];
      assert e in events;
      NoStopUnasked(daemon, front);
      EventUnasked(Run(Initial(daemon), front), e);
    }
  }

  /** Unless a station appears no join is noted. */
  lemma {:induction false} NoJoinUnasked(daemon: Daemon, events: seq<Event>)
    requires forall e :: e in events ==> !e.Station?
    ensures NoJoins(Run(Initial(daemon), events))
  {
    if events != [] {
      var front, e := events[..|events| - 1], events[|events| - 1];
      assert e in events;
      NoJoinUnasked(daemon, front);
      EventUnasked(Run(Initial(daemon), front), e);
    }
  }
}
