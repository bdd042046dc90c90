/** What the registry's operations bring about: an operation nobody interrupts reaches its end, and a freeze
    lasts until its job releases it. */
module RegistryRuns {
  import opened Basics
  import opened DatasetRegistry

  lemma {:induction false} RunAdd(s: State, a: seq<Event>, b: seq<Event>)
    ensures Run(s, a + b) == Run(Run(s, a), b)
  {
    if b == [] {
      assert a + b == a;
    } else {
      RunAdd(s, a, b[..|b| - 1]);
      assert (a + b)[..|a + b| - 1] == a + b[..|b| - 1];
    }
  }

  lemma RunNext(s: State, a: seq<Event>, e: Event)
    ensures Run(s, a + [e]) == Apply(Run(s, a), e)
  {
    assert (a + [e])[..|a|] == a;
  }

  lemma TwoSteps(s: State, a: Event, b: Event)
    ensures Run(s, [a, b]) == Apply(Apply(s, a), b)
  {
    RunNext(s, [], a);
    RunNext(s, [a], b);
    assert [] + [a] == [a] && [a] + [b] == [a, b];
  }

  lemma ThreeSteps(s: State, a: Event, b: Event, c: Event)
    ensures Run(s, [a, b, c]) == Apply(Apply(Apply(s, a), b), c)
  {
    TwoSteps(s, a, b);
    RunNext(s, [a, b], c);
    assert [a, b] + [c] == [a, b, c];
  }

  // ── operations left to themselves ──────────────────────────────────────────

  /** An undisturbed creation registers its dataset, with its metadata saved. */
  lemma CreationRegisters(s: State, o: nat, id: string)
    requires !s.booting && s.lock.None? && o !in s.ops && ValidId(id) && id !in s.disk.used
    ensures var t := Run(s, [Create(o, id), Step(o, true), Step(o, true)]);
      t.registered == s.registered + {id} && HasMeta(t.disk, id) && t.ops == s.ops
      && t.disk.dirs == s.disk.dirs[Plain(id) := true] && t.frozen == s.frozen
  {
    ThreeSteps(s, Create(o, id), Step(o, true), Step(o, true));
    assert s.ops[o := MetaNext(id, true)][o := RegisterNext(id)] - {o} == s.ops;
  }

  /** Once its files are in place an import is published under its final name and saved. */
  lemma ImportPublishes(s: State, o: nat, id: string)
    requires o in s.ops && s.ops[o] == Filling(id) && s.lock.None?
    ensures var t := Run(s, [Step(o, true), Step(o, true), Step(o, true)]);
      t.registered == s.registered + {id} && HasMeta(t.disk, id) && t.ops == s.ops - {o}
      && Staging(id) !in t.disk.dirs && t.frozen == s.frozen
  {
    ThreeSteps(s, Step(o, true), Step(o, true), Step(o, true));
    assert s.ops[o := MetaNext(id, true)][o := RegisterNext(id)] - {o} == s.ops - {o};
  }

  /** An undisturbed import leaves no staging directory and registers its dataset. */
  lemma ImportRegisters(s: State, o: nat, id: string)
    requires !s.booting && s.lock.None? && o !in s.ops && ValidId(id) && id !in s.disk.used
    ensures var t := Run(Apply(s, Import(o, id)), [Step(o, true), Step(o, true), Step(o, true)]);
      t.registered == s.registered + {id} && HasMeta(t.disk, id) && t.ops == s.ops
      && Staging(id) !in t.disk.dirs && t.frozen == s.frozen
  {
    ImportPublishes(Apply(s, Import(o, id)), o, id);
    assert s.ops[o := Filling(id)] - {o} == s.ops;
  }

  /** A failed import leaves neither the dataset nor, when it can clean up, its staging directory. */
  lemma FailedImportLeavesNothing(s: State, o: nat, id: string, cleaned: bool)
    requires !s.booting && o !in s.ops && ValidId(id) && id !in s.disk.used && Staging(id) !in s.disk.dirs
    ensures var t := Run(s, [Import(o, id), Fail(o, cleaned)]);
      && t.disk.dirs == (if cleaned then s.disk.dirs else s.disk.dirs[Staging(id) := false])
      && t.registered == s.registered && t.ops == s.ops
  {
    TwoSteps(s, Import(o, id), Fail(o, cleaned));
    assert s.ops[o := Filling(id)] - {o} == s.ops;
    assert s.disk.dirs[Staging(id) := false] - {Staging(id)} == s.disk.dirs;
  }

  /** An undisturbed deletion removes the dataset from registry and disk, its tombstone included. */
  lemma DeletionRemoves(s: State, o: nat, id: string, nonce: string)
    requires !s.booting && s.lock.None? && o !in s.ops && id in s.registered && id !in s.frozen
    requires HasMeta(s.disk, id) && Tombstone(id, nonce) !in s.disk.dirs
    ensures var t := Run(s, [Delete(o, id, nonce), Step(o, true), Step(o, true)]);
      t.registered == s.registered - {id} && t.disk.dirs == s.disk.dirs - {Plain(id)} && t.ops == s.ops && t.lock.None?
  {
    ThreeSteps(s, Delete(o, id, nonce), Step(o, true), Step(o, true));
    assert s.ops[o := PopNext(id, Some(nonce))][o := RemoveTree(id, nonce)] - {o} == s.ops;
  }

  /** A deletion whose files could not be removed leaves the dataset gone from registry and scans, and the
      next start-up's sweep takes the rest. */
  lemma LeftoverSwept(s: State, o: nat, id: string, nonce: string)
    requires !s.booting && s.lock.None? && o !in s.ops && id in s.registered && id !in s.frozen
    requires HasMeta(s.disk, id)
    ensures var t := Run(s, [Delete(o, id, nonce), Step(o, true), Step(o, false)]);
      && id !in t.registered && !HasMeta(t.disk, id) && Tombstone(id, nonce) in t.disk.dirs
      && Tombstone(id, nonce) !in Run(t, [Crash, Sweep(Tombstone(id, nonce), true)]).disk.dirs
  {
    ThreeSteps(s, Delete(o, id, nonce), Step(o, true), Step(o, false));
    TwoSteps(Run(s, [Delete(o, id, nonce), Step(o, true), Step(o, false)]), Crash, Sweep(Tombstone(id, nonce), true));
  }

  /** An undisturbed rename saves the metadata. */
  lemma RenameSaves(s: State, o: nat, id: string)
    requires !s.booting && s.lock.None? && o !in s.ops && id in s.registered
    ensures var t := Run(s, [Lookup(o, id), Step(o, true)]);
      t.disk == SaveMeta(s.disk, id) && HasMeta(t.disk, id) && t.registered == s.registered && t.ops == s.ops
  {
    TwoSteps(s, Lookup(o, id), Step(o, true));
    assert s.ops[o := SaveNext(id)] - {o} == s.ops;
  }

  /** An undisturbed migration and scan register the legacy dataset under its new id. */
  lemma MigrationRegisters(start: Disk, o: nat, id: string)
    requires Found(start) && start.legacy && ValidId(id) && id !in start.used
    ensures var t := Run(Initial(start), [Migrate(o, id), Step(o, true), Scan]);
      id in t.registered && !t.disk.legacy && !t.booting
  {
    ThreeSteps(Initial(start), Migrate(o, id), Step(o, true), Scan);
    var s := Apply(Apply(Initial(start), Migrate(o, id)), Step(o, true));
    assert map[o := MetaNext(id, false)] - {o} == map[];
    ScanMeaning(s, id);
  }

  /** A crash before the metadata is saved leaves a directory no later scan registers. A staging directory
      stays for good: the start-up sweep does not take it. */
  lemma CrashLeavesDirectory(s: State, o: nat, id: string, staged: bool, removed: bool)
    requires !s.booting && o !in s.ops && ValidId(id) && id !in s.disk.used
    ensures var name := if staged then Staging(id) else Plain(id);
      var begun := if staged then Import(o, id) else Create(o, id);
      var t := Run(s, [begun, Crash, Sweep(name, removed)]);
      && t.disk.dirs == s.disk.dirs[name := false] && id in t.disk.used && t.disk.log == s.disk.log
      && (id in Apply(t, Scan).registered ==> staged && HasMeta(s.disk, id))
  {
    var name := if staged then Staging(id) else Plain(id);
    var begun := if staged then Import(o, id) else Create(o, id);
    ThreeSteps(s, begun, Crash, Sweep(name, removed));
    ScanMeaning(Run(s, [begun, Crash, Sweep(name, removed)]), id);
  }

  /** While a deletion holds the lock no other step, short of a crash, changes what is registered, frozen
      or held, or lets go of the lock. */
  lemma LockExcludes(start: Disk, before: seq<Event>, s: State, o: nat, e: Event)
    requires Found(start) && s == Run(Initial(start), before) && s.lock == Some(o)
    requires !e.Crash? && !(e.Step? && e.op == o)
    ensures var t := Apply(s, e);
      t.registered == s.registered && t.frozen == s.frozen && t.holders == s.holders && t.lock == s.lock
  {
    RunInv(start, before);
    assert o in s.ops;
  }

  // ── freezing ───────────────────────────────────────────────────────────────

  /** Job holds id. */
  predicate Holds(s: State, job: nat, id: string) {
    job in s.holders && s.holders[job] == id && id in s.frozen
  }

  lemma StepHolds(s: State, start: Disk, job: nat, id: string, e: Event)
    requires Inv(s, start) && Holds(s, job, id) && !s.booting && !e.Crash? && e != Release(job)
    ensures Holds(Apply(s, e), job, id) && !Apply(s, e).booting
  {
    if e.Release? && e.job in s.holders {
      assert s.holders[e.job] != id;
    }
  }

  lemma {:induction false} HoldsOn(s: State, start: Disk, job: nat, id: string, later: seq<Event>)
    requires Inv(s, start) && Holds(s, job, id) && !s.booting && Crash !in later && Release(job) !in later
    ensures var t := Run(s, later); Inv(t, start) && Holds(t, job, id) && !t.booting
  {
    if later != [] {
      var front, e := later[..|later| - 1], later[|later| - 1];
      HoldsOn(s, start, job, id, front);
      assert e in later;
      StepHolds(Run(s, front), start, job, id, e);
      ApplyInv(Run(s, front), start, e);
    }
  }

  /** A freeze granted to a job lasts, whatever the others do, until that job releases it or the process
      restarts: the dataset stays registered with its metadata, and no other job gets it. */
  lemma FreezeLasts(start: Disk, before: seq<Event>, s: State, job: nat, id: string, later: seq<Event>)
    requires Found(start) && s == Run(Initial(start), before) && !s.booting && s.lock.None?
    requires id in s.registered && id !in s.frozen && job !in s.holders
    requires Crash !in later && Release(job) !in later
    ensures var t := Run(Apply(s, Freeze(job, id)), later);
      && id in t.frozen && job in t.holders && t.holders[job] == id && id in t.registered && HasMeta(t.disk, id)
      && (forall other :: other in t.holders && other != job ==> t.holders[other] != id)
      && (forall other :: Apply(t, Freeze(other, id)) == t)
  {
    RunInv(start, before);
    ApplyInv(s, start, Freeze(job, id));
    HoldsOn(Apply(s, Freeze(job, id)), start, job, id, later);
  }

  /** Its release makes the dataset free to be frozen by any job, or deleted. */
  lemma ReleaseFrees(start: Disk, before: seq<Event>, s: State, job: nat, id: string, other: nat, o: nat, nonce: string)
    requires Found(start) && s == Run(Initial(start), before) && !s.booting && s.lock.None? && Holds(s, job, id)
    ensures var t := Apply(s, Release(job));
      && job !in t.holders && id !in t.frozen && t.frozen == s.frozen - {id} && id in t.registered
      && (other !in t.holders ==> Holds(Apply(t, Freeze(other, id)), other, id))
      && (o !in t.ops ==> id !in Run(t, [Delete(o, id, nonce), Step(o, true)]).registered)
  {
    RunInv(start, before);
    var t := Apply(s, Release(job));
    assert Held(s);
    if o !in t.ops {
      DeletePops(t, o, id, nonce);
    }
  }

  lemma DeletePops(s: State, o: nat, id: string, nonce: string)
    requires !s.booting && s.lock.None? && o !in s.ops && id in s.registered && id !in s.frozen
    ensures id !in Run(s, [Delete(o, id, nonce), Step(o, true)]).registered
  {
    TwoSteps(s, Delete(o, id, nonce), Step(o, true));
  }
}
