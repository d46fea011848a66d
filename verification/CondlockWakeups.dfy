/** Who may be left asleep on the one condition variable that readers and writers of a condlock share. */
module CondlockWakeups {
  import opened Threads
  import opened Condlock

  predicate SomeoneWrites(s: State) {
    exists w :: w in s.pcs && s.pcs[w].Writing?
  }

  // Readers

  /** A reader sleeps unsignalled only while a writer waits or writes; its commit is still to come. */
  ghost predicate ReadersServed(s: State) {
    forall r :: r in s.pcs && s.pcs[r].ReadAsleep? ==> s.pending > 0 || SomeoneWrites(s)
  }

  lemma StillWrites(s: State, step: Step)
    requires Enabled(s, step) && SomeoneWrites(s) && !step.Commit?
    ensures SomeoneWrites(Apply(s, step))
  {
    var w :| w in s.pcs && s.pcs[w].Writing?;
    StepOnOthers(s, step, w);
    assert Apply(s, step).pcs[w].Writing?;
  }

  lemma CommitFreesReaders(s: State, step: Step)
    requires Inv(s) && Enabled(s, step) && step.Commit?
    ensures s.pending == 0 ==> forall r :: r in Apply(s, step).pcs ==> !Apply(s, step).pcs[r].ReadAsleep?
  {
    if s.pending == 0 {
      forall r | r in s.pcs && s.pcs[r].ReadAsleep?
        ensures r in step.woken
      {
        assert r in WaitingReaders(s) && r in Sleepers(s);
      }
    }
  }

  lemma StepServesReaders(s: State, step: Step)
    requires Inv(s) && ReadersServed(s) && Enabled(s, step)
    ensures ReadersServed(Apply(s, step))
  {
    var s' := Apply(s, step);
    StepKeepsInv(s, step);
    if step.Commit? {
      CommitFreesReaders(s, step);
    } else {
      if SomeoneWrites(s) {
        StillWrites(s, step);
      }
      if step.Check? && s'.pcs[step.t].Writing? {
        assert SomeoneWrites(s');
      }
      forall r | r in s'.pcs && s'.pcs[r].ReadAsleep?
        ensures s'.pending > 0 || SomeoneWrites(s')
      {
        StepOnOthers(s, step, r);
      }
    }
  }

  lemma {:induction false} RunServesReaders(s: State, sched: seq<Step>)
    requires Inv(s) && ReadersServed(s) && Runs(s, sched)
    ensures ReadersServed(Exec(s, sched))
    decreases |sched|
  {
    if sched != [] {
      StepKeepsInv(s, sched[0]);
      StepServesReaders(s, sched[0]);
      RunServesReaders(Apply(s, sched[0]), sched[1..]);
    }
  }

  /** In no run does a reader sleep unsignalled when no writer waits or writes. */
  lemma ReadersSleepOnlyForWriters(threads: set<Tid>, sched: seq<Step>)
    requires Runs(Init(threads), sched)
    ensures ReadersServed(Exec(Init(threads), sched))
  {
    InitInv(threads);
    RunServesReaders(Init(threads), sched);
  }

  // Writers

  /** A writer that has been signalled and has not looked at `sharing` yet, or is inside. */
  predicate WriterComing(s: State) {
    exists w :: w in s.pcs && (s.pcs[w].WriteWoken? || s.pcs[w].WriteResumed? || s.pcs[w].Writing?)
  }

  /** A writer sleeps unsignalled only while readers are inside or another writer is on its way. */
  ghost predicate WritersServed(s: State) {
    forall w :: w in s.pcs && s.pcs[w].WriteAsleep? ==> s.sharing > 0 || WriterComing(s)
  }

  /** A signal meant for a sleeping writer that wakes readers only, when no other writer is awake to
      come instead: src/thread.c:36-37 for the last reader out, src/thread.c:56-57 for a commit. */
  ghost predicate Astray(s: State, step: Step)
    requires Enabled(s, step)
  {
    && (step.Commit? || (step.Release? && s.sharing == 1))
    && (exists w :: w in s.pcs && s.pcs[w].WriteAsleep?)
    && (forall w :: w in step.woken ==> !s.pcs[w].WriteAsleep?)
    && (forall w :: w in s.pcs ==> !s.pcs[w].WriteWoken?)
  }

  /** The effect of a release or a commit on every other thread. */
  lemma WakesOnly(s: State, step: Step, u: Tid)
    requires Enabled(s, step) && (step.Release? || step.Commit?) && u in s.pcs && u != step.t
    ensures Apply(s, step).pcs[u] == if u in step.woken then Woken(s.pcs[u]) else s.pcs[u]
  {
  }

  lemma AstrayStrands(s: State, step: Step)
    requires Inv(s) && Enabled(s, step) && Astray(s, step)
    ensures !WritersServed(Apply(s, step))
  {
    var s' := Apply(s, step);
    var w :| w in s.pcs && s.pcs[w].WriteAsleep?;
    WakesOnly(s, step, w);
    if step.Commit? {
      assert s.pcs[step.t].Writing?;
    }
    assert s'.sharing == 0 && s'.pcs[w].WriteAsleep?;
    forall u | u in s'.pcs
      ensures !s'.pcs[u].WriteWoken? && !s'.pcs[u].WriteResumed? && !s'.pcs[u].Writing?
    {
      StepOnOthers(s, step, u);
      if u != step.t {
        WakesOnly(s, step, u);
      }
    }
  }

  lemma StillComing(s: State, step: Step)
    requires Enabled(s, step) && WriterComing(s) && !step.Commit?
    ensures WriterComing(Apply(s, step)) || Apply(s, step).sharing != 0
  {
    var w :| w in s.pcs && (s.pcs[w].WriteWoken? || s.pcs[w].WriteResumed? || s.pcs[w].Writing?);
    StepOnOthers(s, step, w);
    var pc := Apply(s, step).pcs[w];
    assert pc.WriteWoken? || pc.WriteResumed? || pc.Writing? || Apply(s, step).sharing != 0;
  }

  /** A signal that reaches a writer, or finds one awake already, leaves a writer coming. */
  lemma SignalReachesWriter(s: State, step: Step)
    requires Inv(s) && Enabled(s, step) && !Astray(s, step)
    requires step.Commit? || (step.Release? && s.sharing == 1)
    requires exists w :: w in s.pcs && s.pcs[w].WriteAsleep?
    ensures WriterComing(Apply(s, step))
  {
    var w :| w in s.pcs && ((w in step.woken && s.pcs[w].WriteAsleep?) || s.pcs[w].WriteWoken?);
    WakesOnly(s, step, w);
    assert Apply(s, step).pcs[w].WriteWoken?;
  }

  lemma OthersServe(s: State, step: Step)
    requires Inv(s) && WritersServed(s) && Enabled(s, step) && !Astray(s, step)
    ensures WritersServed(Apply(s, step))
  {
    var s' := Apply(s, step);
    StepKeepsInv(s, step);
    forall w | w in s'.pcs && s'.pcs[w].WriteAsleep?
      ensures s'.sharing > 0 || WriterComing(s')
    {
      StepOnOthers(s, step, w);
      if step.Commit? || (step.Release? && s.sharing == 1) {
        SignalReachesWriter(s, step);
      } else if WriterComing(s) {
        StillComing(s, step);
      }
    }
  }

  /** A writer sleeps unsignalled only while readers are inside or another writer is on its way, in
      every state of a run. */
  ghost predicate ServedThroughout(s: State, sched: seq<Step>)
    requires Runs(s, sched)
    decreases |sched|
  {
    WritersServed(s) && (sched != [] ==> ServedThroughout(Apply(s, sched[0]), sched[1..]))
  }

  ghost predicate NeverAstray(s: State, sched: seq<Step>)
    requires Runs(s, sched)
    decreases |sched|
  {
    sched != [] ==> !Astray(s, sched[0]) && NeverAstray(Apply(s, sched[0]), sched[1..])
  }

  lemma {:induction false} ServedIffNeverAstray(s: State, sched: seq<Step>)
    requires Inv(s) && WritersServed(s) && Runs(s, sched)
    ensures ServedThroughout(s, sched) <==> NeverAstray(s, sched)
    decreases |sched|
  {
    if sched != [] {
      var s1 := Apply(s, sched[0]);
      StepKeepsInv(s, sched[0]);
      if Astray(s, sched[0]) {
        AstrayStrands(s, sched[0]);
        assert !ServedThroughout(s1, sched[1..]);
      } else {
        OthersServe(s, sched[0]);
        ServedIffNeverAstray(s1, sched[1..]);
      }
    }
  }

  /** A run serves its writers throughout if and only if none of its signals goes astray. */
  lemma WritersServedIffNeverAstray(threads: set<Tid>, sched: seq<Step>)
    requires Runs(Init(threads), sched)
    ensures ServedThroughout(Init(threads), sched) <==> NeverAstray(Init(threads), sched)
  {
    InitInv(threads);
    ServedIffNeverAstray(Init(threads), sched);
  }
}
