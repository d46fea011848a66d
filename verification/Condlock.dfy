/** The reader/writer lock of src/thread.c:6-61 as a step system over any number of threads.

  A writer keeps the mutex from cpr_condlock_modify until cpr_condlock_commit; readers hold it only
  inside the calls. Readers and writers sleep on the same condition variable. Calls are matched: a
  thread releases only what it has accessed and commits only after a modify. It may access again, or
  modify, while it still holds accesses; `depth` is how many. What a thread does between taking the
  mutex and leaving it, or between two waits, is one step: every field is guarded by it.
 */
module Condlock {
  import opened Threads

  datatype Pc =
    | Idle
    | ReadLock | ReadCheck | ReadAsleep | ReadWoken | ReadResumed | ReadLeave
    | Reading
    | ReleaseLock | ReleaseBody
    | WriteLock | WriteCheck | WriteAsleep | WriteWoken | WriteResumed
    | Writing
    | Leave

  datatype State =
    State(pending: int, waiting: int, sharing: int, owner: Owner, pcs: map<Tid, Pc>, depth: map<Tid, nat>)

  datatype Step =
    | CallAccess(t: Tid)
    | CallModify(t: Tid)
    | CallAgain(t: Tid)
    | CallUpgrade(t: Tid)
    | CallRelease(t: Tid)
    | Lock(t: Tid)
    | Check(t: Tid)
    | Release(t: Tid, woken: set<Tid>)
    | Commit(t: Tid, woken: set<Tid>)
    | Unlock(t: Tid)
    | Spurious(t: Tid)

  function Init(threads: set<Tid>): State {
    State(0, 0, 0, Free, map t | t in threads :: Idle, map t | t in threads :: 0)
  }

  predicate IsAsleep(pc: Pc) {
    pc.ReadAsleep? || pc.WriteAsleep?
  }

  predicate ReaderWaits(pc: Pc) {
    pc.ReadAsleep? || pc.ReadWoken? || pc.ReadResumed?
  }

  predicate WriterWaits(pc: Pc) {
    pc.WriteAsleep? || pc.WriteWoken? || pc.WriteResumed?
  }

  /** Between an access and the release of it, and in no other call. */
  predicate Inside(pc: Pc) {
    pc.ReadLeave? || pc.Reading? || pc.ReleaseLock? || pc.ReleaseBody?
  }

  predicate HoldsLock(pc: Pc) {
    || pc.ReadCheck? || pc.ReadResumed? || pc.ReadLeave? || pc.ReleaseBody?
    || pc.WriteCheck? || pc.WriteResumed? || pc.Writing? || pc.Leave?
  }

  function Sleepers(s: State): set<Tid> {
    set t | t in s.pcs && IsAsleep(s.pcs[t])
  }

  /** Who holds accesses. */
  function Readers(s: State): set<Tid> {
    set t | t in s.depth && s.depth[t] > 0
  }

  function WaitingReaders(s: State): set<Tid> {
    set t | t in s.pcs && ReaderWaits(s.pcs[t])
  }

  function WaitingWriters(s: State): set<Tid> {
    set t | t in s.pcs && WriterWaits(s.pcs[t])
  }

  function Wake(pcs: map<Tid, Pc>, who: set<Tid>): map<Tid, Pc> {
    map t | t in pcs :: if t in who then Woken(pcs[t]) else pcs[t]
  }

  function Woken(pc: Pc): Pc {
    if pc.ReadAsleep? then ReadWoken else if pc.WriteAsleep? then WriteWoken else pc
  }

  /** src/thread.c:34-40: whom a release wakes, given the counters after the decrement. */
  predicate ReleaseWakes(s: State, sharing: int, woken: set<Tid>) {
    if s.pending != 0 && sharing == 0 then Wakes(woken, Sleepers(s))
    else if s.waiting != 0 && s.pending == 0 then woken == Sleepers(s)
    else woken == {}
  }

  /** src/thread.c:56-59 */
  predicate CommitWakes(s: State, woken: set<Tid>) {
    if s.pending != 0 then Wakes(woken, Sleepers(s))
    else if s.waiting != 0 then woken == Sleepers(s)
    else woken == {}
  }

  predicate Enabled(s: State, step: Step) {
    step.t in s.pcs && step.t in s.depth &&
    var pc := s.pcs[step.t];
    match step
    case CallAccess(_) => pc.Idle?
    case CallModify(_) => pc.Idle?
    case CallAgain(_) => pc.Reading?
    case CallUpgrade(_) => pc.Reading?
    case CallRelease(_) => pc.Reading?
    case Lock(_) =>
      s.owner.Free? && (pc.ReadLock? || pc.ReadWoken? || pc.ReleaseLock? || pc.WriteLock? || pc.WriteWoken?)
    case Check(_) => pc.ReadCheck? || pc.ReadResumed? || pc.WriteCheck? || pc.WriteResumed?
    case Release(_, woken) =>
      && pc.ReleaseBody? && s.depth[step.t] > 0
      && if s.sharing != 0 then ReleaseWakes(s, s.sharing - 1, woken) else woken == {}
    case Commit(_, woken) => pc.Writing? && CommitWakes(s, woken)
    case Unlock(_) => pc.ReadLeave? || pc.Leave?
    case Spurious(_) => IsAsleep(pc)
  }

  /** One turn of the loop of src/thread.c:22-27, after the wait's own decrement if it follows one. */
  function ReadTurn(s: State, t: Tid): State
    requires t in s.pcs && t in s.depth
  {
    var waiting := if s.pcs[t].ReadResumed? then s.waiting - 1 else s.waiting;
    if s.pending != 0 then s.(waiting := waiting + 1, owner := Free, pcs := s.pcs[t := ReadAsleep])
    else
      s.(waiting := waiting, sharing := s.sharing + 1,
         pcs := s.pcs[t := ReadLeave], depth := s.depth[t := s.depth[t] + 1])
  }

  /** One turn of the loop of src/thread.c:47-51. */
  function WriteTurn(s: State, t: Tid): State
    requires t in s.pcs
  {
    var pending := if s.pcs[t].WriteResumed? then s.pending - 1 else s.pending;
    if s.sharing != 0 then s.(pending := pending + 1, owner := Free, pcs := s.pcs[t := WriteAsleep])
    else s.(pending := pending, pcs := s.pcs[t := Writing])
  }

  function Apply(s: State, step: Step): State
    requires Enabled(s, step)
  {
    var t := step.t;
    var pc := s.pcs[t];
    match step
    case CallAccess(_) => s.(pcs := s.pcs[t := ReadLock])
    case CallModify(_) => s.(pcs := s.pcs[t := WriteLock])
    case CallAgain(_) => s.(pcs := s.pcs[t := ReadLock])
    case CallUpgrade(_) => s.(pcs := s.pcs[t := WriteLock])
    case CallRelease(_) => s.(pcs := s.pcs[t := ReleaseLock])
    case Lock(_) =>
      s.(owner := Held(t), pcs := s.pcs[t := match pc
                                             case ReadLock => ReadCheck
                                             case ReadWoken => ReadResumed
                                             case ReleaseLock => ReleaseBody
                                             case WriteLock => WriteCheck
                                             case _ => WriteResumed])
    case Check(_) => if pc.ReadCheck? || pc.ReadResumed? then ReadTurn(s, t) else WriteTurn(s, t)
    case Release(_, woken) =>
      s.(sharing := if s.sharing != 0 then s.sharing - 1 else 0,
         pcs := Wake(s.pcs, woken)[t := Leave], depth := s.depth[t := s.depth[t] - 1])
    case Commit(_, woken) => s.(pcs := Wake(s.pcs, woken)[t := Leave])
    case Unlock(_) => s.(owner := Free, pcs := s.pcs[t := if s.depth[t] > 0 then Reading else Idle])
    case Spurious(_) => s.(pcs := s.pcs[t := Woken(pc)])
  }

  ghost predicate Runs(s: State, sched: seq<Step>)
    decreases |sched|
  {
    sched != [] ==> Enabled(s, sched[0]) && Runs(Apply(s, sched[0]), sched[1..])
  }

  ghost function Exec(s: State, sched: seq<Step>): State
    requires Runs(s, sched)
    decreases |sched|
  {
    if sched == [] then s else Exec(Apply(s, sched[0]), sched[1..])
  }

  // Safety

  /** The mutex is with the one thread inside a call. */
  ghost predicate LockOk(s: State) {
    forall t :: t in s.pcs ==> (HoldsLock(s.pcs[t]) <==> s.owner == Held(t))
  }

  /** Where a thread is says whether it holds accesses. */
  ghost predicate DepthOk(s: State) {
    && s.pcs.Keys == s.depth.Keys
    && (forall t :: t in s.pcs && Inside(s.pcs[t]) ==> s.depth[t] > 0)
    && (forall t :: t in s.pcs && s.pcs[t].Idle? ==> s.depth[t] == 0)
  }

  ghost predicate Inv(s: State) {
    && LockOk(s) && DepthOk(s)
    && s.sharing == Sum(s.depth)
    && s.waiting == |WaitingReaders(s)|
    && s.pending == |WaitingWriters(s)|
    && (forall t :: t in s.pcs && s.pcs[t].Writing? ==> s.sharing == 0)
  }

  lemma DepthShared(s: State, t: Tid)
    requires Inv(s) && t in s.depth
    ensures s.depth[t] <= s.sharing
  {
    SumAt(s.depth, t);
  }

  lemma NobodyReads(s: State)
    requires Inv(s)
    ensures s.sharing == 0 <==> Readers(s) == {}
  {
    SumZero(s.depth);
    assert forall t :: t in s.depth && s.depth[t] > 0 ==> t in Readers(s);
  }

  /** To every other thread a step does nothing, or wakes it. */
  lemma StepOnOthers(s: State, step: Step, u: Tid)
    requires Enabled(s, step)
    ensures Apply(s, step).pcs.Keys == s.pcs.Keys
    ensures u in s.pcs && u != step.t ==> Apply(s, step).pcs[u] == s.pcs[u] || Apply(s, step).pcs[u] == Woken(s.pcs[u])
  {
    if step.Release? || step.Commit? {
      assert Wake(s.pcs, step.woken).Keys == s.pcs.Keys;
    }
  }

  /** A set of threads chosen by a property that waking does not change differs by at most the stepping thread. */
  lemma StepMovesOne(s: State, step: Step)
    requires Enabled(s, step)
    ensures var s' := Apply(s, step); var t := step.t;
      && WaitingReaders(s') == (if ReaderWaits(s'.pcs[t]) then WaitingReaders(s) + {t} else WaitingReaders(s) - {t})
      && WaitingWriters(s') == (if WriterWaits(s'.pcs[t]) then WaitingWriters(s) + {t} else WaitingWriters(s) - {t})
  {
    var s' := Apply(s, step);
    assert s'.pcs.Keys == s.pcs.Keys by { StepOnOthers(s, step, step.t); }
    forall u | u in s.pcs && u != step.t
      ensures ReaderWaits(s'.pcs[u]) == ReaderWaits(s.pcs[u])
      ensures WriterWaits(s'.pcs[u]) == WriterWaits(s.pcs[u])
    {
      StepOnOthers(s, step, u);
    }
  }

  /** The counters of waiting threads move exactly with the stepping thread. */
  lemma StepCounts(s: State, step: Step)
    requires Enabled(s, step)
    ensures var s' := Apply(s, step); var p, p' := s.pcs[step.t], s'.pcs[step.t];
      && s'.waiting - s.waiting == (if ReaderWaits(p') then 1 else 0) - (if ReaderWaits(p) then 1 else 0)
      && s'.pending - s.pending == (if WriterWaits(p') then 1 else 0) - (if WriterWaits(p) then 1 else 0)
  {
  }

  /** Only the stepping thread's depth changes, by one at most, and `sharing` with it. */
  lemma StepShares(s: State, step: Step)
    requires Inv(s) && Enabled(s, step)
    ensures var s' := Apply(s, step); var t := step.t;
      && s'.depth.Keys == s.depth.Keys && s'.depth == s.depth[t := s'.depth[t]]
      && s'.depth[t] == s.depth[t] + (if s'.pcs[t].ReadLeave? then 1 else if step.Release? then -1 else 0)
      && s'.sharing == Sum(s'.depth)
  {
    var s', t := Apply(s, step), step.t;
    DepthShared(s, t);
    SumUpdate(s.depth, t, s'.depth[t]);
    if s'.depth[t] == s.depth[t] {
      assert s'.depth == s.depth;
    }
  }

  lemma StepKeepsCounts(s: State, step: Step)
    requires Inv(s) && Enabled(s, step)
    ensures var s' := Apply(s, step);
      s'.waiting == |WaitingReaders(s')| && s'.pending == |WaitingWriters(s')|
  {
    StepCounts(s, step);
    StepMovesOne(s, step);
    var t, p, p' := step.t, s.pcs[step.t], Apply(s, step).pcs[step.t];
    Moved(WaitingReaders(s), t, ReaderWaits(p'));
    Moved(WaitingWriters(s), t, WriterWaits(p'));
    assert t in WaitingReaders(s) <==> ReaderWaits(p);
    assert t in WaitingWriters(s) <==> WriterWaits(p);
  }

  lemma Moved(a: set<Tid>, t: Tid, in': bool)
    ensures |if in' then a + {t} else a - {t}| == |a| + (if in' then 1 else 0) - (if t in a then 1 else 0)
  {
    if t in a {
      assert a + {t} == a;
    } else {
      assert a - {t} == a;
    }
  }

  lemma StepKeepsLock(s: State, step: Step)
    requires LockOk(s) && Enabled(s, step)
    ensures LockOk(Apply(s, step))
  {
    var s' := Apply(s, step);
    forall u | u in s'.pcs
      ensures HoldsLock(s'.pcs[u]) <==> s'.owner == Held(u)
    {
      StepOnOthers(s, step, u);
    }
  }

  lemma StepKeepsDepth(s: State, step: Step)
    requires DepthOk(s) && Enabled(s, step)
    ensures DepthOk(Apply(s, step))
  {
    var s' := Apply(s, step);
    StepOnOthers(s, step, step.t);
    forall u | u in s'.pcs
      ensures Inside(s'.pcs[u]) ==> s'.depth[u] > 0
      ensures s'.pcs[u].Idle? ==> s'.depth[u] == 0
    {
      StepOnOthers(s, step, u);
    }
  }

  lemma StepKeepsInv(s: State, step: Step)
    requires Inv(s) && Enabled(s, step)
    ensures Inv(Apply(s, step))
  {
    StepKeepsCounts(s, step);
    StepKeepsLock(s, step);
    StepKeepsDepth(s, step);
    StepShares(s, step);
    var s' := Apply(s, step);
    forall u | u in s'.pcs && s'.pcs[u].Writing?
      ensures s'.sharing == 0
    {
      StepOnOthers(s, step, u);
    }
  }

  lemma {:induction false} RunKeepsInv(s: State, sched: seq<Step>)
    requires Inv(s) && Runs(s, sched)
    ensures Inv(Exec(s, sched))
    decreases |sched|
  {
    if sched != [] {
      StepKeepsInv(s, sched[0]);
      RunKeepsInv(Apply(s, sched[0]), sched[1..]);
    }
  }

  lemma InitInv(threads: set<Tid>)
    ensures Inv(Init(threads))
  {
    var s := Init(threads);
    assert WaitingReaders(s) == {} && WaitingWriters(s) == {};
    SumZero(s.depth);
  }

  /** In every run the three counters count, at most one writer is inside, and never beside a reader. */
  lemma CondlockSafe(threads: set<Tid>, sched: seq<Step>)
    requires Runs(Init(threads), sched)
    ensures var s := Exec(Init(threads), sched);
      && s.sharing == Sum(s.depth) && s.waiting == |WaitingReaders(s)| && s.pending == |WaitingWriters(s)|
      && (forall w, v :: w in s.pcs && v in s.pcs && s.pcs[w].Writing? && s.pcs[v].Writing? ==> w == v)
      && (forall w :: w in s.pcs && s.pcs[w].Writing? ==> Readers(s) == {})
      && (forall r :: r in s.pcs && Inside(s.pcs[r]) ==> r in Readers(s))
  {
    InitInv(threads);
    RunKeepsInv(Init(threads), sched);
    NobodyReads(Exec(Init(threads), sched));
  }

  // Writer preference

  /** A writer waits in every state of the run but possibly the last. */
  ghost predicate WriterPendingThroughout(s: State, sched: seq<Step>)
    requires Runs(s, sched)
    decreases |sched|
  {
    sched != [] ==> s.pending > 0 && WriterPendingThroughout(Apply(s, sched[0]), sched[1..])
  }

  lemma NoReaderEnters(s: State, step: Step)
    requires Inv(s) && Enabled(s, step) && s.pending > 0
    ensures Apply(s, step).depth.Keys == s.depth.Keys
    ensures forall t :: t in s.depth ==> Apply(s, step).depth[t] <= s.depth[t]
  {
    StepShares(s, step);
  }

  /** While a writer waits, no thread gets a further access. */
  lemma {:induction false} ReadersOnlyLeave(s: State, sched: seq<Step>)
    requires Inv(s) && Runs(s, sched) && WriterPendingThroughout(s, sched)
    ensures Exec(s, sched).depth.Keys == s.depth.Keys
    ensures forall t :: t in s.depth ==> Exec(s, sched).depth[t] <= s.depth[t]
    decreases |sched|
  {
    if sched != [] {
      StepKeepsInv(s, sched[0]);
      NoReaderEnters(s, sched[0]);
      ReadersOnlyLeave(Apply(s, sched[0]), sched[1..]);
    }
  }

  /** In every run: from the moment a writer waits until none does, accesses are only given up. */
  lemma WritersPreferred(threads: set<Tid>, before: seq<Step>, after: seq<Step>)
    requires Runs(Init(threads), before) && Runs(Exec(Init(threads), before), after)
    requires WriterPendingThroughout(Exec(Init(threads), before), after)
    ensures var s := Exec(Init(threads), before); var s' := Exec(s, after);
      && s'.depth.Keys == s.depth.Keys && (forall t :: t in s.depth ==> s'.depth[t] <= s.depth[t])
      && Readers(s') <= Readers(s)
  {
    InitInv(threads);
    RunKeepsInv(Init(threads), before);
    ReadersOnlyLeave(Exec(Init(threads), before), after);
  }
}
