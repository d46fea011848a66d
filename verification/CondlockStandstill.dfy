/** When readers and writers of a condlock can all come to be asleep with nobody left to wake them. */
module CondlockStandstill {
  import opened Threads
  import opened Condlock
  import opened CondlockWakeups

  /** Who reads and who writes, a thread may do both; whether threads that hold accesses call for more,
      or modify; and whether sleepers wake for no reason. */
  datatype Rules = Rules(readers: set<Tid>, writers: set<Tid>, nested: bool, spurious: bool)

  predicate Permits(rules: Rules, step: Step) {
    && (step.CallAccess? || step.CallAgain? ==> step.t in rules.readers)
    && (step.CallModify? || step.CallUpgrade? ==> step.t in rules.writers)
    && (step.CallAgain? || step.CallUpgrade? ==> rules.nested)
    && (step.Spurious? ==> rules.spurious)
  }

  predicate Follows(sched: seq<Step>, rules: Rules) {
    forall i :: 0 <= i < |sched| ==> Permits(rules, sched[i])
  }

  ghost predicate Reachable(init: State, rules: Rules, s: State) {
    exists sched :: Runs(init, sched) && Follows(sched, rules) && Exec(init, sched) == s
  }

  /** Somebody sleeps, the mutex is free, and nobody is inside or on the way. */
  ghost predicate Standstill(s: State) {
    s.owner.Free? && Sleepers(s) != {} && forall t :: t in s.pcs ==> s.pcs[t].Idle? || IsAsleep(s.pcs[t])
  }

  // Never

  predicate ReadPc(pc: Pc) {
    pc.ReadLock? || pc.ReadCheck? || ReaderWaits(pc) || Inside(pc)
  }

  predicate WritePc(pc: Pc) {
    pc.WriteLock? || pc.WriteCheck? || WriterWaits(pc) || pc.Writing?
  }

  /** Every thread inside a call or an access is one whose role it is, and without nested calls a thread
      holds one access at most, and none while it calls for it. */
  ghost predicate InRoles(s: State, rules: Rules) {
    && (forall t :: t in s.pcs && ReadPc(s.pcs[t]) ==> t in rules.readers)
    && (forall t :: t in s.pcs && WritePc(s.pcs[t]) ==> t in rules.writers)
    && (forall t :: t in s.depth && s.depth[t] > 0 ==> t in rules.readers)
    && (!rules.nested ==> forall t :: t in s.pcs && t in s.depth && !Inside(s.pcs[t]) ==> s.depth[t] == 0)
    && (!rules.nested ==> forall t :: t in s.depth ==> s.depth[t] <= 1)
  }

  lemma OwnRoleKept(s: State, step: Step)
    requires Enabled(s, step)
    ensures ReadPc(Apply(s, step).pcs[step.t]) ==>
      ReadPc(s.pcs[step.t]) || step.CallAccess? || step.CallAgain? || s.depth[step.t] > 0
    ensures WritePc(Apply(s, step).pcs[step.t]) ==> WritePc(s.pcs[step.t]) || step.CallModify? || step.CallUpgrade?
  {
  }

  lemma StepKeepsPcs(s: State, step: Step, rules: Rules)
    requires InRoles(s, rules) && Enabled(s, step) && Permits(rules, step)
    ensures var s' := Apply(s, step);
      forall t :: t in s'.pcs ==>
        (ReadPc(s'.pcs[t]) ==> t in rules.readers) && (WritePc(s'.pcs[t]) ==> t in rules.writers)
  {
    OwnRoleKept(s, step);
    forall t | t in Apply(s, step).pcs
      ensures ReadPc(Apply(s, step).pcs[t]) ==> t in rules.readers
      ensures WritePc(Apply(s, step).pcs[t]) ==> t in rules.writers
    {
      StepOnOthers(s, step, t);
    }
  }

  lemma StepKeepsFlat(s: State, step: Step, rules: Rules)
    requires Inv(s) && InRoles(s, rules) && Enabled(s, step) && Permits(rules, step) && !rules.nested
    ensures var s' := Apply(s, step);
      forall t :: t in s'.depth ==>
        t in s'.pcs && s'.depth[t] <= 1 && (!Inside(s'.pcs[t]) ==> s'.depth[t] == 0)
  {
    var s' := Apply(s, step);
    StepShares(s, step);
    forall t | t in s'.depth
      ensures t in s'.pcs && s'.depth[t] <= 1 && (!Inside(s'.pcs[t]) ==> s'.depth[t] == 0)
    {
      StepOnOthers(s, step, t);
    }
  }

  lemma StepKeepsRoles(s: State, step: Step, rules: Rules)
    requires Inv(s) && InRoles(s, rules) && Enabled(s, step) && Permits(rules, step)
    ensures InRoles(Apply(s, step), rules)
  {
    StepKeepsPcs(s, step, rules);
    StepShares(s, step);
    if !rules.nested {
      StepKeepsFlat(s, step, rules);
    }
    var s' := Apply(s, step);
    forall t | t in s'.depth && s'.depth[t] > 0
      ensures t in rules.readers
    {
      assert t != step.t ==> s'.depth[t] == s.depth[t];
    }
  }

  /** Readers alone, writers alone, or two threads in all. */
  predicate Few(rules: Rules) {
    rules.readers == {} || rules.writers == {} || |rules.readers + rules.writers| <= 2
  }

  /** Every sleeping writer has a reader inside to wait for. */
  ghost predicate WritersAwaitReaders(s: State) {
    forall w :: w in s.pcs && s.pcs[w].WriteAsleep? ==> s.sharing > 0
  }

  lemma Single(a: set<Tid>, b: set<Tid>, t: Tid, u: Tid)
    requires |b| <= 2 && a <= b - {t} && t in b && u in a
    ensures a == {u}
  {
    assert |b - {t} - {u}| == |b| - 2;
    assert b - {t} - {u} == {};
  }

  /** The signal of the last reader out can only wake the writer. */
  lemma LastReaderWakesWriter(s: State, step: Step, rules: Rules, w: Tid)
    requires Inv(s) && InRoles(s, rules) && Few(rules) && Enabled(s, step) && step.Release?
    requires w in s.pcs && s.pcs[w].WriteAsleep? && Apply(s, step).sharing == 0
    ensures Apply(s, step).pcs[w].WriteWoken?
  {
    var t, all := step.t, rules.readers + rules.writers;
    DepthShared(s, t);
    assert w in WaitingWriters(s) && w in Sleepers(s);
    assert t in rules.readers && w in rules.writers;
    assert Sleepers(s) <= all - {t};
    Single(Sleepers(s), all, t, w);
    assert step.woken == {w};
  }

  /** A sleeping writer slept before, or found readers inside; only a release makes those fewer. */
  lemma WriterSlept(s: State, step: Step, w: Tid)
    requires Enabled(s, step) && w in s.pcs && Apply(s, step).pcs[w].WriteAsleep?
    ensures s.pcs[w].WriteAsleep? || Apply(s, step).sharing != 0
    ensures step.Release? || Apply(s, step).sharing >= s.sharing
  {
    StepOnOthers(s, step, w);
  }

  lemma StepKeepsAwaiting(s: State, step: Step, rules: Rules)
    requires Inv(s) && InRoles(s, rules) && Few(rules) && WritersAwaitReaders(s) && Enabled(s, step)
    ensures WritersAwaitReaders(Apply(s, step))
  {
    var s' := Apply(s, step);
    StepShares(s, step);
    forall w | w in s'.pcs && s'.pcs[w].WriteAsleep?
      ensures s'.sharing > 0
    {
      WriterSlept(s, step, w);
      if step.Release? && s'.sharing == 0 {
        LastReaderWakesWriter(s, step, rules, w);
      }
    }
  }

  lemma {:induction false} RunKeepsAwaiting(s: State, sched: seq<Step>, rules: Rules)
    requires Inv(s) && InRoles(s, rules) && Few(rules) && WritersAwaitReaders(s)
    requires Runs(s, sched) && Follows(sched, rules)
    ensures WritersAwaitReaders(Exec(s, sched)) && InRoles(Exec(s, sched), rules)
    decreases |sched|
  {
    if sched != [] {
      StepKeepsInv(s, sched[0]);
      StepKeepsRoles(s, sched[0], rules);
      StepKeepsAwaiting(s, sched[0], rules);
      RunKeepsAwaiting(Apply(s, sched[0]), sched[1..], rules);
    }
  }

  /** A standstill is one of writers: some writer sleeps. */
  lemma StandstillOfWriters(s: State) returns (w: Tid)
    requires Inv(s) && ReadersServed(s) && Standstill(s)
    ensures s.pending > 0 && w in s.pcs && s.pcs[w].WriteAsleep?
  {
    var t :| t in Sleepers(s);
    if s.pcs[t].WriteAsleep? {
      w := t;
      assert t in WaitingWriters(s);
    } else {
      assert s.pending > 0;
      w :| w in WaitingWriters(s);
    }
  }

  /** Readers alone, writers alone, or two threads that hold one access at a time. */
  predicate Safe(rules: Rules) {
    || rules.readers == {} || rules.writers == {}
    || (!rules.nested && |rules.readers + rules.writers| <= 2)
  }

  lemma SafeNeverStandStill(threads: set<Tid>, rules: Rules, sched: seq<Step>)
    requires Safe(rules) && Runs(Init(threads), sched) && Follows(sched, rules)
    ensures !Standstill(Exec(Init(threads), sched))
  {
    var s := Exec(Init(threads), sched);
    InitInv(threads);
    RunKeepsInv(Init(threads), sched);
    RunKeepsAwaiting(Init(threads), sched, rules);
    ReadersSleepOnlyForWriters(threads, sched);
    if Standstill(s) {
      SafeState(s, rules);
    }
  }

  lemma SafeState(s: State, rules: Rules)
    requires Inv(s) && InRoles(s, rules) && WritersAwaitReaders(s) && ReadersServed(s) && Safe(rules)
    ensures !Standstill(s)
  {
    if Standstill(s) {
      var w := StandstillOfWriters(s);
      NobodyReads(s);
    }
  }

  // Sometimes

  lemma {:induction false} RunsThen(s: State, a: seq<Step>, step: Step)
    requires Runs(s, a) && Enabled(Exec(s, a), step)
    ensures Runs(s, a + [step]) && Exec(s, a + [step]) == Apply(Exec(s, a), step)
    decreases |a|
  {
    if a == [] {
      assert a + [step] == [step] && [step][1..] == [];
      assert Runs(Apply(s, step), []);
    } else {
      RunsThen(Apply(s, a[0]), a[1..], step);
      assert (a + [step])[1..] == a[1..] + [step];
    }
  }

  lemma Hop(init: State, rules: Rules, step: Step, s: State, s': State)
    requires Reachable(init, rules, s) && Enabled(s, step) && Permits(rules, step) && Apply(s, step) == s'
    ensures Reachable(init, rules, s')
  {
    var sched :| Runs(init, sched) && Follows(sched, rules) && Exec(init, sched) == s;
    RunsThen(init, sched, step);
    assert Follows(sched + [step], rules);
  }

  lemma ReachInit(init: State, rules: Rules)
    ensures Reachable(init, rules, init)
  {
    assert Runs(init, []) && Follows([], rules) && Exec(init, []) == init;
  }

  /** A reachable state with the mutex free. */
  ghost predicate At(init: State, rules: Rules, s: State) {
    Reachable(init, rules, s) && s.owner.Free?
  }

  function Goto(s: State, t: Tid, pc: Pc): State {
    s.(pcs := s.pcs[t := pc])
  }

  /** The state with one thread moved and the mutex in its hands. */
  function Locked(s: State, t: Tid, pc: Pc): State {
    s.(owner := Held(t), pcs := s.pcs[t := pc])
  }

  /** The state once `t` holds one access more. */
  function Shares(s: State, t: Tid): State
    requires t in s.depth
  {
    s.(sharing := s.sharing + 1, pcs := s.pcs[t := Reading], depth := s.depth[t := s.depth[t] + 1])
  }

  /** A reader gets in. */
  lemma ReaderEnters(init: State, rules: Rules, s: State, t: Tid)
    requires At(init, rules, s) && t in s.pcs && t in s.depth && s.pcs[t].Idle? && t in rules.readers && s.pending == 0
    ensures At(init, rules, Shares(s, t))
  {
    var s1 := Shares(s, t).(owner := Held(t), pcs := s.pcs[t := ReadLeave]);
    Hop(init, rules, CallAccess(t), s, Goto(s, t, ReadLock));
    Hop(init, rules, Lock(t), Goto(s, t, ReadLock), Locked(s, t, ReadCheck));
    Hop(init, rules, Check(t), Locked(s, t, ReadCheck), s1);
    Hop(init, rules, Unlock(t), s1, Shares(s, t));
  }

  /** A reader finds a writer pending and goes to sleep. */
  lemma ReaderSleeps(init: State, rules: Rules, s: State, t: Tid)
    requires At(init, rules, s) && t in s.pcs && t in s.depth && s.pcs[t].Idle? && t in rules.readers && s.pending != 0
    ensures At(init, rules, Goto(s, t, ReadAsleep).(waiting := s.waiting + 1))
  {
    Hop(init, rules, CallAccess(t), s, Goto(s, t, ReadLock));
    Hop(init, rules, Lock(t), Goto(s, t, ReadLock), Locked(s, t, ReadCheck));
    Hop(init, rules, Check(t), Locked(s, t, ReadCheck), Goto(s, t, ReadAsleep).(waiting := s.waiting + 1));
  }

  /** A woken reader finds a writer still pending and goes back to sleep. */
  lemma WokenReaderSleeps(init: State, rules: Rules, s: State, t: Tid)
    requires At(init, rules, s) && t in s.pcs && t in s.depth && s.pcs[t].ReadWoken? && s.pending != 0
    ensures At(init, rules, Goto(s, t, ReadAsleep))
  {
    Hop(init, rules, Lock(t), s, Locked(s, t, ReadResumed));
    Hop(init, rules, Check(t), Locked(s, t, ReadResumed), Goto(s, t, ReadAsleep));
  }

  function Left(s: State, t: Tid, woken: set<Tid>): State {
    s.(sharing := 0, pcs := Wake(s.pcs, woken)[t := Idle], depth := s.depth[t := 0])
  }

  /** The last reader leaves while a writer is pending. */
  lemma LastReaderLeaves(init: State, rules: Rules, s: State, t: Tid, woken: set<Tid>)
    requires At(init, rules, s) && t in s.pcs && t in s.depth && s.pcs[t].Reading?
    requires s.sharing == 1 == s.depth[t] && s.pending != 0 && Wakes(woken, Sleepers(s))
    ensures At(init, rules, Left(s, t, woken))
  {
    var s3 := Left(s, t, woken).(owner := Held(t), pcs := Wake(s.pcs, woken)[t := Leave]);
    Hop(init, rules, CallRelease(t), s, Goto(s, t, ReleaseLock));
    Hop(init, rules, Lock(t), Goto(s, t, ReleaseLock), Locked(s, t, ReleaseBody));
    ReleaseStep(s, t, woken);
    Hop(init, rules, Release(t, woken), Locked(s, t, ReleaseBody), s3);
    Hop(init, rules, Unlock(t), s3, Left(s, t, woken));
  }

  lemma ReleaseStep(s: State, t: Tid, woken: set<Tid>)
    requires t in s.pcs && t in s.depth && s.pcs[t].Reading?
    requires s.sharing == 1 == s.depth[t] && s.pending != 0 && Wakes(woken, Sleepers(s))
    ensures var s2 := Locked(s, t, ReleaseBody);
      && Enabled(s2, Release(t, woken))
      && Apply(s2, Release(t, woken)) ==
        Left(s, t, woken).(owner := Held(t), pcs := Wake(s.pcs, woken)[t := Leave])
  {
    var s2 := Locked(s, t, ReleaseBody);
    assert Sleepers(s2) == Sleepers(s);
    assert Wake(s2.pcs, woken)[t := Leave] == Wake(s.pcs, woken)[t := Leave];
  }

  /** A writer finds a reader inside and goes to sleep. */
  lemma WriterSleeps(init: State, rules: Rules, s: State, t: Tid)
    requires At(init, rules, s) && t in s.pcs && t in s.depth && s.pcs[t].Idle? && t in rules.writers && s.sharing != 0
    ensures At(init, rules, Goto(s, t, WriteAsleep).(pending := s.pending + 1))
  {
    Hop(init, rules, CallModify(t), s, Goto(s, t, WriteLock));
    Hop(init, rules, Lock(t), Goto(s, t, WriteLock), Locked(s, t, WriteCheck));
    Hop(init, rules, Check(t), Locked(s, t, WriteCheck), Goto(s, t, WriteAsleep).(pending := s.pending + 1));
  }

  /** What is left when `t` has written and gone, its commit having woken `woken`. */
  function Wrote(s: State, t: Tid, woken: set<Tid>): State
    requires t in s.pcs
  {
    s.(pending := if s.pcs[t].WriteWoken? then s.pending - 1 else s.pending, pcs := Wake(s.pcs, woken)[t := Idle])
  }

  lemma WriterEnters(init: State, rules: Rules, s: State, t: Tid, woken: set<Tid>)
    requires At(init, rules, s) && t in s.pcs && t in s.depth && s.depth[t] == 0 && s.sharing == 0
    requires (s.pcs[t].Idle? && t in rules.writers) || s.pcs[t].WriteWoken?
    ensures Reachable(init, rules, Locked(s, t, Writing).(pending := Wrote(s, t, woken).pending))
  {
    if s.pcs[t].Idle? {
      Hop(init, rules, CallModify(t), s, Goto(s, t, WriteLock));
      Hop(init, rules, Lock(t), Goto(s, t, WriteLock), Locked(s, t, WriteCheck));
      Hop(init, rules, Check(t), Locked(s, t, WriteCheck), Locked(s, t, Writing));
    } else {
      Hop(init, rules, Lock(t), s, Locked(s, t, WriteResumed));
      Hop(init, rules, Check(t), Locked(s, t, WriteResumed), Locked(s, t, Writing).(pending := s.pending - 1));
    }
  }

  /** A writer finds nobody inside, writes, and commits while another writer is pending. */
  lemma WriterWrites(init: State, rules: Rules, s: State, t: Tid, woken: set<Tid>)
    requires At(init, rules, s) && t in s.pcs && t in s.depth && s.depth[t] == 0 && s.sharing == 0
    requires (s.pcs[t].Idle? && t in rules.writers) || s.pcs[t].WriteWoken?
    requires Wrote(s, t, woken).pending != 0 && Wakes(woken, Sleepers(s))
    ensures At(init, rules, Wrote(s, t, woken))
  {
    var s1 := Locked(s, t, Writing).(pending := Wrote(s, t, woken).pending);
    WriterEnters(init, rules, s, t, woken);
    assert Sleepers(s1) == Sleepers(s);
    var s2 := Wrote(s, t, woken).(owner := Held(t), pcs := Wake(s.pcs, woken)[t := Leave]);
    assert Wake(s1.pcs, woken)[t := Leave] == s2.pcs;
    Hop(init, rules, Commit(t, woken), s1, s2);
    Hop(init, rules, Unlock(t), s2, Wrote(s, t, woken));
  }

  /** Two readers and a writer: the signal of the last reader out wakes the other reader, which finds
      the writer pending and goes back to sleep. */
  lemma TwoReadersStandStill(threads: set<Tid>, rules: Rules, a: Tid, b: Tid, w: Tid) returns (s: State)
    requires {a, b, w} <= threads && a != b && a != w && b != w
    requires {a, b} <= rules.readers && w in rules.writers
    ensures Reachable(Init(threads), rules, s) && Standstill(s)
    ensures s.pcs == Init(threads).pcs[b := ReadAsleep][w := WriteAsleep] && s.sharing == 0
  {
    var init := Init(threads);
    ReachInit(init, rules);
    ReaderEnters(init, rules, init, a);
    var s1 := Shares(init, a);
    WriterSleeps(init, rules, s1, w);
    var s2 := Goto(s1, w, WriteAsleep).(pending := 1);
    ReaderSleeps(init, rules, s2, b);
    var s3 := Goto(s2, b, ReadAsleep).(waiting := 1);
    assert b in Sleepers(s3);
    LastReaderLeaves(init, rules, s3, a, {b});
    var s4 := Left(s3, a, {b});
    WokenReaderSleeps(init, rules, s4, b);
    s := Goto(s4, b, ReadAsleep);
    assert b in Sleepers(s);
    assert s.pcs == init.pcs[b := ReadAsleep][w := WriteAsleep];
  }

  /** A reader and two writers: the commit of the first writer wakes the reader, which finds the second
      writer pending and goes back to sleep. */
  lemma TwoWritersStandStill(threads: set<Tid>, rules: Rules, r: Tid, v: Tid, w: Tid) returns (s: State)
    requires {r, v, w} <= threads && r != v && r != w && v != w
    requires r in rules.readers && {v, w} <= rules.writers
    ensures Reachable(Init(threads), rules, s) && Standstill(s)
    ensures s.pcs == Init(threads).pcs[r := ReadAsleep][w := WriteAsleep] && s.sharing == 0
  {
    var init := Init(threads);
    ReachInit(init, rules);
    ReaderEnters(init, rules, init, r);
    var s1 := Shares(init, r);
    WriterSleeps(init, rules, s1, v);
    var s2 := Goto(s1, v, WriteAsleep).(pending := 1);
    WriterSleeps(init, rules, s2, w);
    var s3 := Goto(s2, w, WriteAsleep).(pending := 2);
    assert v in Sleepers(s3);
    LastReaderLeaves(init, rules, s3, r, {v});
    var s4 := Left(s3, r, {v});
    s := SecondWriterStays(init, rules, s4, r, v, w);
    assert s.pcs == init.pcs[r := ReadAsleep][w := WriteAsleep];
  }

  lemma SecondWriterStays(init: State, rules: Rules, s: State, r: Tid, v: Tid, w: Tid) returns (s': State)
    requires At(init, rules, s) && s.pending == 2 && s.sharing == 0 && {r, v, w} <= s.pcs.Keys
    requires r in s.depth && v in s.depth && s.depth[v] == 0
    requires s.pcs[r].Idle? && r in rules.readers && s.pcs[v].WriteWoken? && s.pcs[w].WriteAsleep?
    requires forall t :: t in s.pcs && t != v && t != w ==> s.pcs[t].Idle?
    ensures Reachable(init, rules, s') && Standstill(s')
    ensures s'.pcs == s.pcs[v := Idle][r := ReadAsleep] && s'.sharing == 0
  {
    ReaderSleeps(init, rules, s, r);
    var s1 := Goto(s, r, ReadAsleep).(waiting := s.waiting + 1);
    assert r in Sleepers(s1);
    WriterWrites(init, rules, s1, v, {r});
    var s2 := Wrote(s1, v, {r});
    WokenReaderSleeps(init, rules, s2, r);
    s' := Goto(s2, r, ReadAsleep);
    assert r in Sleepers(s');
    assert s'.pcs == s.pcs[v := Idle][r := ReadAsleep];
  }

  /** A reader and a writer: the writer waits for the reader, whose second access waits for the writer. */
  lemma NestedAccessStandsStill(threads: set<Tid>, rules: Rules, r: Tid, w: Tid) returns (s: State)
    requires {r, w} <= threads && r != w && r in rules.readers && w in rules.writers && rules.nested
    ensures Reachable(Init(threads), rules, s) && Standstill(s)
    ensures s.pcs == Init(threads).pcs[r := ReadAsleep][w := WriteAsleep] && s.sharing == 1
  {
    var init := Init(threads);
    ReachInit(init, rules);
    ReaderEnters(init, rules, init, r);
    var s1 := Shares(init, r);
    WriterSleeps(init, rules, s1, w);
    var s2 := Goto(s1, w, WriteAsleep).(pending := 1);
    Hop(init, rules, CallAgain(r), s2, Goto(s2, r, ReadLock));
    Hop(init, rules, Lock(r), Goto(s2, r, ReadLock), Locked(s2, r, ReadCheck));
    s := Goto(s2, r, ReadAsleep).(waiting := 1);
    Hop(init, rules, Check(r), Locked(s2, r, ReadCheck), s);
    assert r in Sleepers(s);
    assert s.pcs == init.pcs[r := ReadAsleep][w := WriteAsleep];
  }

  /** A thread that modifies while it reads waits for itself. */
  lemma UpgradeStandsStill(threads: set<Tid>, rules: Rules, t: Tid) returns (s: State)
    requires t in threads && t in rules.readers && t in rules.writers && rules.nested
    ensures Reachable(Init(threads), rules, s) && Standstill(s)
    ensures s.pcs == Init(threads).pcs[t := WriteAsleep] && s.sharing == 1
  {
    var init := Init(threads);
    ReachInit(init, rules);
    ReaderEnters(init, rules, init, t);
    var s1 := Shares(init, t);
    Hop(init, rules, CallUpgrade(t), s1, Goto(s1, t, WriteLock));
    Hop(init, rules, Lock(t), Goto(s1, t, WriteLock), Locked(s1, t, WriteCheck));
    s := Goto(s1, t, WriteAsleep).(pending := 1);
    Hop(init, rules, Check(t), Locked(s1, t, WriteCheck), s);
    assert t in Sleepers(s);
    assert s.pcs == init.pcs[t := WriteAsleep];
  }

  lemma NestedCanStandStill(threads: set<Tid>, rules: Rules) returns (s: State)
    requires rules.readers <= threads && rules.writers <= threads
    requires rules.nested && rules.readers != {} && rules.writers != {}
    ensures Reachable(Init(threads), rules, s) && Standstill(s)
  {
    var r :| r in rules.readers;
    var w :| w in rules.writers;
    if r == w {
      s := UpgradeStandsStill(threads, rules, r);
    } else {
      s := NestedAccessStandsStill(threads, rules, r, w);
    }
  }

  /** Three threads, both roles among them: two readers and a writer, or a reader and two writers. */
  lemma ManyCanStandStill(threads: set<Tid>, rules: Rules) returns (s: State)
    requires rules.readers <= threads && rules.writers <= threads && !Few(rules)
    ensures Reachable(Init(threads), rules, s) && Standstill(s) && s.sharing == 0
  {
    var r, w := Apart(rules);
    var all := rules.readers + rules.writers;
    assert |all - {r} - {w}| == |all| - 2;
    var t :| t in all - {r} - {w};
    if t in rules.readers {
      s := TwoReadersStandStill(threads, rules, r, t, w);
    } else {
      s := TwoWritersStandStill(threads, rules, r, t, w);
    }
  }

  lemma Apart(rules: Rules) returns (r: Tid, w: Tid)
    requires rules.readers != {} && rules.writers != {} && |rules.readers + rules.writers| > 2
    ensures r in rules.readers && w in rules.writers && r != w
  {
    r, w := (var r :| r in rules.readers; r), (var w :| w in rules.writers; w);
    if r == w {
      assert |rules.readers + rules.writers - {r}| > 1;
      var t :| t in rules.readers + rules.writers - {r};
      if t in rules.readers {
        r := t;
      } else {
        w := t;
      }
    }
  }

  /** No run comes to a standstill if and only if there are readers only, writers only, or at most two
      threads that use the lock and call it only when they hold no access. */
  lemma NoStandstillIff(threads: set<Tid>, rules: Rules)
    requires rules.readers <= threads && rules.writers <= threads
    ensures (forall s :: Reachable(Init(threads), rules, s) ==> !Standstill(s)) <==>
      || rules.readers == {} || rules.writers == {}
      || (!rules.nested && |rules.readers + rules.writers| <= 2)
  {
    if Safe(rules) {
      forall s | Reachable(Init(threads), rules, s)
        ensures !Standstill(s)
      {
        var sched :| Runs(Init(threads), sched) && Follows(sched, rules) && Exec(Init(threads), sched) == s;
        SafeNeverStandStill(threads, rules, sched);
      }
    } else if rules.nested {
      var s := NestedCanStandStill(threads, rules);
    } else {
      var s := ManyCanStandStill(threads, rules);
    }
  }

  lemma StandstillUnserved(threads: set<Tid>, sched: seq<Step>)
    requires Runs(Init(threads), sched) && Standstill(Exec(Init(threads), sched))
    requires Exec(Init(threads), sched).sharing == 0
    ensures !WritersServed(Exec(Init(threads), sched))
  {
    InitInv(threads);
    RunKeepsInv(Init(threads), sched);
    ReadersSleepOnlyForWriters(threads, sched);
    var w := StandstillOfWriters(Exec(Init(threads), sched));
  }

  /** In every reachable state a sleeping writer has readers inside or another writer on its way, if and
      only if there are readers only, writers only, or at most two threads that use the lock. */
  lemma WritersServedIff(threads: set<Tid>, rules: Rules)
    requires rules.readers <= threads && rules.writers <= threads
    ensures (forall s :: Reachable(Init(threads), rules, s) ==> WritersServed(s))
      <==> rules.readers == {} || rules.writers == {} || |rules.readers + rules.writers| <= 2
  {
    InitInv(threads);
    if Few(rules) {
      forall s | Reachable(Init(threads), rules, s)
        ensures WritersServed(s)
      {
        var sched :| Runs(Init(threads), sched) && Follows(sched, rules) && Exec(Init(threads), sched) == s;
        RunKeepsAwaiting(Init(threads), sched, rules);
      }
    } else {
      var s := ManyCanStandStill(threads, rules);
      var sched :| Runs(Init(threads), sched) && Follows(sched, rules) && Exec(Init(threads), sched) == s;
      StandstillUnserved(threads, sched);
    }
  }

  // For how long

  /** A standstill that further calls have joined: a writer is pending, so that accesses join it, and
      nobody can write, for the accesses that sleepers hold or because whoever writes is asleep. */
  ghost predicate Stuck(s: State, rules: Rules) {
    && s.pending != 0
    && (forall t :: t in s.pcs ==> var pc := s.pcs[t];
         pc.Idle? || pc.ReadLock? || pc.ReadCheck? || pc.WriteLock? || pc.WriteCheck? || IsAsleep(pc))
    && (s.sharing == 0 ==> forall t :: t in s.pcs ==> var pc := s.pcs[t];
         (pc.Idle? ==> t !in rules.writers) && !pc.WriteLock? && !pc.WriteCheck?)
  }

  lemma StepKeepsStuck(s: State, step: Step, rules: Rules)
    requires Stuck(s, rules) && s.pending > 0 && Enabled(s, step) && Permits(rules, step) && !rules.spurious
    ensures Stuck(Apply(s, step), rules) && Apply(s, step).pending > 0 && Sleepers(s) <= Sleepers(Apply(s, step))
  {
  }

  lemma {:induction false} RunKeepsStuck(s: State, sched: seq<Step>, rules: Rules)
    requires Stuck(s, rules) && s.pending > 0 && Runs(s, sched) && Follows(sched, rules) && !rules.spurious
    ensures Sleepers(s) <= Sleepers(Exec(s, sched))
    decreases |sched|
  {
    if sched != [] {
      StepKeepsStuck(s, sched[0], rules);
      RunKeepsStuck(Apply(s, sched[0]), sched[1..], rules);
    }
  }

  /** Spurious wakeups apart, a standstill lasts for ever if and only if its sleepers hold accesses or it
      has caught every thread that writes: otherwise another writer could still get in, and its commit
      would wake someone. */
  lemma StandstillLastsIff(s: State, rules: Rules)
    requires Inv(s) && ReadersServed(s) && Standstill(s) && !rules.spurious
    ensures (forall s' :: Reachable(s, rules, s') ==> Sleepers(s) <= Sleepers(s')) <==>
      s.sharing > 0 || forall t :: t in s.pcs && t in rules.writers ==> !s.pcs[t].Idle?
  {
    var w := StandstillOfWriters(s);
    if t :| s.sharing == 0 && t in s.pcs && t in rules.writers && s.pcs[t].Idle? {
      var u :| u in Sleepers(s);
      ReachInit(s, rules);
      WriterWrites(s, rules, s, t, {u});
      assert u !in Sleepers(Wrote(s, t, {u}));
    } else {
      forall s' | Reachable(s, rules, s')
        ensures Sleepers(s) <= Sleepers(s')
      {
        var sched :| Runs(s, sched) && Follows(sched, rules) && Exec(s, sched) == s';
        RunKeepsStuck(s, sched, rules);
      }
    }
  }
}
