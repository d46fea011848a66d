/** The counting semaphore of src/thread.c:63-95 as a step system over any number of threads.

  A permit may be given back by another thread than the one that acquired it; calls are matched in the
  sense that nobody releases a permit that no caller holds. What a thread does between taking the mutex
  and leaving it, or between two waits, is one step: every field is guarded by that mutex.
 */
module Semaphore {
  import opened Threads

  datatype Pc =
    | Idle
    | AcquireLock | AcquireCheck | Asleep | Woken | Resumed | AcquireLeave
    | ReleaseLock | ReleaseBody | ReleaseLeave

  /** `held` is the number of permits in callers' hands: acquires returned minus releases called. */
  datatype State = State(count: nat, used: int, waits: int, owner: Owner, held: nat, pcs: map<Tid, Pc>)

  datatype Step =
    | CallAcquire(t: Tid)
    | CallRelease(t: Tid)
    | Lock(t: Tid)
    | Check(t: Tid)
    | GiveBack(t: Tid, woken: set<Tid>)
    | Unlock(t: Tid)
    | Spurious(t: Tid)

  function Init(threads: set<Tid>, limit: nat): State {
    State(limit, 0, 0, Free, 0, map t | t in threads :: Idle)
  }

  function Sleepers(s: State): set<Tid> {
    set t | t in s.pcs && s.pcs[t].Asleep?
  }

  /** Woken and on the way to looking at `used` again. */
  function Coming(s: State): set<Tid> {
    set t | t in s.pcs && (s.pcs[t].Woken? || s.pcs[t].Resumed?)
  }

  /** Threads whose permit is counted in `used` and is on its way to or from a caller. */
  function InTransit(s: State): set<Tid> {
    set t | t in s.pcs && (s.pcs[t].AcquireLeave? || s.pcs[t].ReleaseLock? || s.pcs[t].ReleaseBody?)
  }

  function Wake(pcs: map<Tid, Pc>, who: set<Tid>): map<Tid, Pc> {
    map t | t in pcs :: if t in who && pcs[t].Asleep? then Woken else pcs[t]
  }

  predicate Enabled(s: State, step: Step) {
    step.t in s.pcs &&
    var pc := s.pcs[step.t];
    match step
    case CallAcquire(_) => pc.Idle?
    case CallRelease(_) => pc.Idle? && s.held > 0
    case Lock(_) => s.owner.Free? && (pc.AcquireLock? || pc.Woken? || pc.ReleaseLock?)
    case Check(_) => pc.AcquireCheck? || pc.Resumed?
    case GiveBack(_, woken) => pc.ReleaseBody? && if s.waits > 0 then Wakes(woken, Sleepers(s)) else woken == {}
    case Unlock(_) => pc.AcquireLeave? || pc.ReleaseLeave?
    case Spurious(_) => pc.Asleep?
  }

  function Apply(s: State, step: Step): State
    requires Enabled(s, step)
  {
    var t := step.t;
    var pc := s.pcs[t];
    match step
    case CallAcquire(_) => s.(pcs := s.pcs[t := AcquireLock])
    case CallRelease(_) => s.(pcs := s.pcs[t := ReleaseLock], held := s.held - 1)
    case Lock(_) =>
      s.(owner := Held(t),
         pcs := s.pcs[t := if pc.AcquireLock? then AcquireCheck else if pc.Woken? then Resumed else ReleaseBody])
    case Check(_) =>
      var waits := if pc.Resumed? then s.waits - 1 else s.waits;
      if s.used >= s.count then
        s.(waits := waits + 1, owner := Free, pcs := s.pcs[t := Asleep])
      else
        s.(waits := waits, used := s.used + 1, pcs := s.pcs[t := AcquireLeave])
    case GiveBack(_, woken) =>
      s.(used := if s.used > 0 then s.used - 1 else 0, pcs := Wake(s.pcs, woken)[t := ReleaseLeave])
    case Unlock(_) =>
      s.(owner := Free, held := if pc.AcquireLeave? then s.held + 1 else s.held, pcs := s.pcs[t := Idle])
    case Spurious(_) => s.(pcs := s.pcs[t := Woken])
  }

  ghost predicate Runs(s: State, sched: seq<Step>)
    decreases |sched|
  {
    sched != [] ==> Enabled(s, sched[0]) && Runs(Apply(s, sched[0]), sched[1..])
  }

  ghost function Exec(s: State, sched: seq<Step>): State
    requires Runs(s, sched)
    decreases |sched|
  {
    if sched == [] then s else Exec(Apply(s, sched[0]), sched[1..])
  }

  predicate HoldsLock(pc: Pc) {
    pc.AcquireCheck? || pc.Resumed? || pc.AcquireLeave? || pc.ReleaseBody? || pc.ReleaseLeave?
  }

  /** The mutex is with the one thread inside a critical section. */
  ghost predicate LockOk(s: State) {
    forall t :: t in s.pcs ==> (HoldsLock(s.pcs[t]) <==> s.owner == Held(t))
  }

  lemma StepKeepsLock(s: State, step: Step)
    requires LockOk(s) && Enabled(s, step)
    ensures LockOk(Apply(s, step)) && Apply(s, step).pcs.Keys == s.pcs.Keys
  {
    if step.GiveBack? {
      assert Wake(s.pcs, step.woken).Keys == s.pcs.Keys;
    }
  }

  ghost predicate Inv(s: State) {
    // the counters count
    && s.used == s.held + |InTransit(s)|
    && s.waits == |Sleepers(s)| + |Coming(s)|
    // no more permits out than there are
    && s.used <= s.count
    // no wakeup is lost
    && (Sleepers(s) != {} ==> s.used + |Coming(s)| >= s.count)
  }

  lemma GiveBackKeepsInv(s: State, step: Step)
    requires Inv(s) && Enabled(s, step) && step.GiveBack?
    ensures Inv(Apply(s, step))
  {
    var t, s' := step.t, Apply(s, step);
    GiveBackMoves(s, step);
    assert |InTransit(s)| == |InTransit(s')| + 1;
    Parts(Sleepers(s), Sleepers(s'), step.woken);
    Parts(Coming(s'), Coming(s), step.woken);
    if Sleepers(s') != {} {
      var u :| u in Sleepers(s');
      assert u in Sleepers(s);
      assert |step.woken| > 0;
    }
  }

  lemma GiveBackMoves(s: State, step: Step)
    requires Enabled(s, step) && step.GiveBack?
    ensures var s' := Apply(s, step);
      && InTransit(s) == InTransit(s') + {step.t} && step.t !in InTransit(s')
      && Sleepers(s) == Sleepers(s') + step.woken && Sleepers(s') !! step.woken
      && Coming(s') == Coming(s) + step.woken && Coming(s) !! step.woken
  {
    var s' := Apply(s, step);
    assert s'.pcs.Keys == s.pcs.Keys;
  }

  lemma Parts(whole: set<Tid>, a: set<Tid>, b: set<Tid>)
    requires whole == a + b && a !! b
    ensures |whole| == |a| + |b|
  {
  }

  lemma CheckKeepsInv(s: State, step: Step)
    requires Inv(s) && Enabled(s, step) && step.Check?
    ensures Inv(Apply(s, step))
  {
    var t, s' := step.t, Apply(s, step);
    CheckMoves(s, step);
    assert t !in InTransit(s) && t !in Sleepers(s);
    assert t in Coming(s) <==> s.pcs[t].Resumed?;
  }

  lemma CheckMoves(s: State, step: Step)
    requires Enabled(s, step) && step.Check?
    ensures var s' := Apply(s, step); var t := step.t;
      && Coming(s') == Coming(s) - {t}
      && Sleepers(s') == (if s.used >= s.count then Sleepers(s) + {t} else Sleepers(s))
      && InTransit(s') == (if s.used >= s.count then InTransit(s) else InTransit(s) + {t})
  {
  }

  lemma SpuriousKeepsInv(s: State, step: Step)
    requires Inv(s) && Enabled(s, step) && step.Spurious?
    ensures Inv(Apply(s, step))
  {
    var t, s' := step.t, Apply(s, step);
    assert Sleepers(s) == Sleepers(s') + {t} && Coming(s') == Coming(s) + {t} && InTransit(s') == InTransit(s);
  }

  /** The remaining steps move a permit between callers and threads at most. */
  lemma OthersMove(s: State, step: Step)
    requires Enabled(s, step) && !step.GiveBack? && !step.Check? && !step.Spurious?
    ensures var s' := Apply(s, step); var t := step.t;
      && Sleepers(s') == Sleepers(s) && Coming(s') == Coming(s)
      && InTransit(s') ==
        (if step.CallRelease? then InTransit(s) + {t} else if step.Unlock? then InTransit(s) - {t} else InTransit(s))
  {
  }

  lemma OthersKeepInv(s: State, step: Step)
    requires Inv(s) && Enabled(s, step) && !step.GiveBack? && !step.Check? && !step.Spurious?
    ensures Inv(Apply(s, step))
  {
    OthersMove(s, step);
    assert step.t in InTransit(s) <==> s.pcs[step.t].AcquireLeave? || s.pcs[step.t].ReleaseLock?;
  }

  lemma StepKeepsInv(s: State, step: Step)
    requires Inv(s) && Enabled(s, step)
    ensures Inv(Apply(s, step))
  {
    match step
    case GiveBack(_, _) => GiveBackKeepsInv(s, step);
    case Check(_) => CheckKeepsInv(s, step);
    case Spurious(_) => SpuriousKeepsInv(s, step);
    case _ => OthersKeepInv(s, step);
  }

  lemma {:induction false} RunKeepsInv(s: State, sched: seq<Step>)
    requires Inv(s) && LockOk(s) && Runs(s, sched)
    ensures Inv(Exec(s, sched)) && LockOk(Exec(s, sched))
    decreases |sched|
  {
    if sched != [] {
      StepKeepsInv(s, sched[0]);
      StepKeepsLock(s, sched[0]);
      RunKeepsInv(Apply(s, sched[0]), sched[1..]);
    }
  }

  lemma InitInv(threads: set<Tid>, limit: nat)
    ensures Inv(Init(threads, limit)) && LockOk(Init(threads, limit))
  {
    var s := Init(threads, limit);
    assert InTransit(s) == {} && Sleepers(s) == {} && Coming(s) == {};
  }

  /** `used` is exactly the permits out, never above `count`; and a thread sleeps only while the permits
      out and the threads already woken for one account for all of them. The mutex is owned by exactly the
      thread inside a critical section. */
  lemma SemaphoreSafe(threads: set<Tid>, limit: nat, sched: seq<Step>)
    requires Runs(Init(threads, limit), sched)
    ensures var s := Exec(Init(threads, limit), sched);
      && s.count == limit
      && s.used == s.held + |InTransit(s)| <= limit
      && s.waits == |Sleepers(s)| + |Coming(s)|
      && (Sleepers(s) != {} ==> s.used + |Coming(s)| >= limit)
      && (forall t :: t in s.pcs ==> (HoldsLock(s.pcs[t]) <==> s.owner == Held(t)))
  {
    InitInv(threads, limit);
    RunKeepsInv(Init(threads, limit), sched);
    CountConstant(Init(threads, limit), sched);
  }

  lemma {:induction false} CountConstant(s: State, sched: seq<Step>)
    requires Runs(s, sched)
    ensures Exec(s, sched).count == s.count
    decreases |sched|
  {
    if sched != [] {
      CountConstant(Apply(s, sched[0]), sched[1..]);
    }
  }

  /** When everything has come to rest, a sleeping thread means that callers hold every permit. */
  lemma AsleepOnlyWhenAllHeld(threads: set<Tid>, limit: nat, sched: seq<Step>)
    requires Runs(Init(threads, limit), sched)
    requires var s := Exec(Init(threads, limit), sched);
      Sleepers(s) != {} && forall t :: t in s.pcs ==> s.pcs[t].Idle? || s.pcs[t].Asleep?
    ensures Exec(Init(threads, limit), sched).held == limit
  {
    SemaphoreSafe(threads, limit, sched);
    var s := Exec(Init(threads, limit), sched);
    assert InTransit(s) == {} && Coming(s) == {};
  }

  // Permits as callers see them

  function Acquires(sched: seq<Step>): nat {
    if sched == [] then 0 else (if sched[0].CallAcquire? then 1 else 0) + Acquires(sched[1..])
  }

  function Releases(sched: seq<Step>): nat {
    if sched == [] then 0 else (if sched[0].CallRelease? then 1 else 0) + Releases(sched[1..])
  }

  predicate Acquiring(pc: Pc) {
    pc.AcquireLock? || pc.AcquireCheck? || pc.Asleep? || pc.Woken? || pc.Resumed? || pc.AcquireLeave?
  }

  /** Threads between their call of acquire and its return. */
  function Callers(s: State): set<Tid> {
    set t | t in s.pcs && Acquiring(s.pcs[t])
  }

  lemma StepCallers(s: State, step: Step)
    requires LockOk(s) && Enabled(s, step)
    ensures var s' := Apply(s, step);
      s'.held + |Callers(s')| ==
        s.held + |Callers(s)| + (if step.CallAcquire? then 1 else 0) - (if step.CallRelease? then 1 else 0)
  {
    StepMovesCallers(s, step);
    assert step.t in Callers(s) <==> Acquiring(s.pcs[step.t]);
  }

  lemma StepMovesCallers(s: State, step: Step)
    requires Enabled(s, step)
    ensures Callers(Apply(s, step)) ==
      if step.CallAcquire? then Callers(s) + {step.t} else if step.Unlock? then Callers(s) - {step.t} else Callers(s)
  {
    var s' := Apply(s, step);
    forall u | u != step.t
      ensures u in Callers(s') <==> u in Callers(s)
    {
    }
  }

  lemma {:induction false} CallsBalance(s: State, sched: seq<Step>)
    requires LockOk(s) && Runs(s, sched)
    ensures var s' := Exec(s, sched);
      s'.held + |Callers(s')| == s.held + |Callers(s)| + Acquires(sched) - Releases(sched)
    decreases |sched|
  {
    if sched != [] {
      StepCallers(s, sched[0]);
      StepKeepsLock(s, sched[0]);
      CallsBalance(Apply(s, sched[0]), sched[1..]);
    }
  }

  /** In every run callers hold as many permits as acquires have been called and have returned, less the
      releases called. */
  lemma HeldByCalls(threads: set<Tid>, limit: nat, sched: seq<Step>)
    requires Runs(Init(threads, limit), sched)
    ensures var s := Exec(Init(threads, limit), sched);
      s.held == Acquires(sched) - |Callers(s)| - Releases(sched)
  {
    var init := Init(threads, limit);
    InitInv(threads, limit);
    assert Callers(init) == {};
    CallsBalance(init, sched);
  }

  // Calls that get through. A thread goes on alone: no other thread takes a step, and it calls nothing new.

  predicate IsCall(step: Step) {
    step.CallAcquire? || step.CallRelease?
  }

  predicate Solo(sched: seq<Step>, t: Tid) {
    forall i :: 0 <= i < |sched| ==> sched[i].t == t && !IsCall(sched[i])
  }

  ghost predicate Alone(s: State, t: Tid, s': State) {
    exists sched :: Runs(s, sched) && Solo(sched, t) && Exec(s, sched) == s'
  }

  lemma Done(s: State, t: Tid)
    ensures Alone(s, t, s)
  {
    assert Runs(s, []) && Solo([], t) && Exec(s, []) == s;
  }

  lemma Then(s: State, step: Step, s': State)
    requires Enabled(s, step) && !IsCall(step) && Alone(Apply(s, step), step.t, s')
    ensures Alone(s, step.t, s')
  {
    var s1 := Apply(s, step);
    var sched :| Runs(s1, sched) && Solo(sched, step.t) && Exec(s1, sched) == s';
    var longer := [step] + sched;
    assert longer[0] == step && longer[1..] == sched;
    assert Runs(s, longer) && Solo(longer, step.t) && Exec(s, longer) == s';
  }

  /** What an acquire comes to when the mutex is free: a permit, or sleep. */
  function Acquired(s: State, t: Tid): State
    requires t in s.pcs
  {
    var waits := if s.pcs[t].Woken? then s.waits - 1 else s.waits;
    if s.used < s.count then s.(used := s.used + 1, held := s.held + 1, waits := waits, pcs := s.pcs[t := Idle])
    else s.(waits := waits + 1, pcs := s.pcs[t := Asleep])
  }

  /** An acquire called, or woken, when the mutex is free returns with a permit if there is one left, and
      sleeps if there is none, leaving the mutex free. */
  lemma AcquireAlone(s: State, t: Tid)
    requires s.owner.Free? && t in s.pcs && (s.pcs[t].Idle? || s.pcs[t].Woken?)
    ensures Alone(if s.pcs[t].Idle? then Apply(s, CallAcquire(t)) else s, t, Acquired(s, t))
  {
    var s1 := if s.pcs[t].Idle? then Apply(s, CallAcquire(t)) else s;
    var s2 := Apply(s1, Lock(t));
    var s3 := Apply(s2, Check(t));
    Done(Acquired(s, t), t);
    if s.used < s.count {
      assert Apply(s3, Unlock(t)) == Acquired(s, t);
      Then(s3, Unlock(t), Acquired(s, t));
    } else {
      assert s3 == Acquired(s, t);
    }
    Then(s2, Check(t), Acquired(s, t));
    Then(s1, Lock(t), Acquired(s, t));
  }

  /** A release called when the mutex is free gives one permit back and wakes as a signal does, leaving the
      mutex free. */
  lemma ReleaseAlone(s: State, t: Tid, woken: set<Tid>)
    requires Inv(s) && s.owner.Free? && t in s.pcs && s.pcs[t].Idle? && s.held > 0
    requires if s.waits > 0 then Wakes(woken, Sleepers(s)) else woken == {}
    ensures Alone(Apply(s, CallRelease(t)), t, s.(used := s.used - 1, held := s.held - 1, pcs := Wake(s.pcs, woken)))
  {
    var s' := s.(used := s.used - 1, held := s.held - 1, pcs := Wake(s.pcs, woken));
    var s1 := Apply(s, CallRelease(t));
    var s2 := Apply(s1, Lock(t));
    assert Sleepers(s2) == Sleepers(s);
    var s3 := Apply(s2, GiveBack(t, woken));
    assert s.used > 0;
    assert s3.pcs == Wake(s.pcs, woken)[t := ReleaseLeave];
    assert Apply(s3, Unlock(t)).pcs == s'.pcs;
    Done(s', t);
    Then(s3, Unlock(t), s');
    Then(s2, GiveBack(t, woken), s');
    Then(s1, Lock(t), s');
  }
}
