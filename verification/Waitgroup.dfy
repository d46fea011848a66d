/** The wait group of src/thread.c:97-138 as a step system over any number of threads. The counter is
  an unsigned 32-bit integer: an add wraps around, a done at zero leaves it alone. What a thread does
  between taking the mutex and leaving it, or between two waits, is one step.
 */
module Waitgroup {
  import opened Threads

  const MODULUS := 0x1_0000_0000

  type Unsigned = n: int | 0 <= n < MODULUS

  datatype Pc =
    | Idle
    | AddLock(n: Unsigned) | AddBody(n: Unsigned)
    | DoneLock | DoneBody
    | WaitLock | WaitCheck | Asleep | Woken
    | WaitLeave
    | Leave

  datatype State = State(count: Unsigned, owner: Owner, pcs: map<Tid, Pc>)

  datatype Step =
    | CallAdd(t: Tid, n: Unsigned)
    | CallDone(t: Tid)
    | CallWait(t: Tid)
    | Lock(t: Tid)
    | Body(t: Tid)
    | Unlock(t: Tid)
    | Spurious(t: Tid)

  function Init(threads: set<Tid>, count: Unsigned): State {
    State(count, Free, map t | t in threads :: Idle)
  }

  function Sleepers(s: State): set<Tid> {
    set t | t in s.pcs && s.pcs[t].Asleep?
  }

  function WakeAll(pcs: map<Tid, Pc>): map<Tid, Pc> {
    map t | t in pcs :: if pcs[t].Asleep? then Woken else pcs[t]
  }

  predicate Enabled(s: State, step: Step) {
    step.t in s.pcs &&
    var pc := s.pcs[step.t];
    match step
    case CallAdd(_, _) => pc.Idle?
    case CallDone(_) => pc.Idle?
    case CallWait(_) => pc.Idle?
    case Lock(_) => s.owner.Free? && (pc.AddLock? || pc.DoneLock? || pc.WaitLock? || pc.Woken?)
    case Body(_) => pc.AddBody? || pc.DoneBody? || pc.WaitCheck?
    case Unlock(_) => pc.WaitLeave? || pc.Leave?
    case Spurious(_) => pc.Asleep?
  }

  function Apply(s: State, step: Step): State
    requires Enabled(s, step)
  {
    var t := step.t;
    var pc := s.pcs[t];
    match step
    case CallAdd(_, n) => s.(pcs := s.pcs[t := AddLock(n)])
    case CallDone(_) => s.(pcs := s.pcs[t := DoneLock])
    case CallWait(_) => s.(pcs := s.pcs[t := WaitLock])
    case Lock(_) =>
      s.(owner := Held(t), pcs := s.pcs[t := match pc
                                             case AddLock(n) => AddBody(n)
                                             case DoneLock => DoneBody
                                             case _ => WaitCheck])
    case Body(_) =>
      (match pc
       case AddBody(n) => s.(count := (s.count + n) % MODULUS, pcs := s.pcs[t := Leave])
       case DoneBody =>
         var count := if s.count > 0 then s.count - 1 else 0;
         s.(count := count, pcs := (if count == 0 then WakeAll(s.pcs) else s.pcs)[t := Leave])
       case _ =>
         if s.count > 0 then s.(owner := Free, pcs := s.pcs[t := Asleep])
         else s.(pcs := s.pcs[t := WaitLeave]))
    case Unlock(_) => s.(owner := Free, pcs := s.pcs[t := Idle])
    case Spurious(_) => s.(pcs := s.pcs[t := Woken])
  }

  ghost predicate Runs(s: State, sched: seq<Step>)
    decreases |sched|
  {
    sched != [] ==> Enabled(s, sched[0]) && Runs(Apply(s, sched[0]), sched[1..])
  }

  ghost function Exec(s: State, sched: seq<Step>): State
    requires Runs(s, sched)
    decreases |sched|
  {
    if sched == [] then s else Exec(Apply(s, sched[0]), sched[1..])
  }

  // The counter

  /** What a step adds to the counter by itself: an add's argument, -1 for a done that found work left. */
  function Delta(s: State, step: Step): int
    requires Enabled(s, step)
  {
    if step.Body? && s.pcs[step.t].AddBody? then s.pcs[step.t].n
    else if step.Body? && s.pcs[step.t].DoneBody? && s.count > 0 then -1
    else 0
  }

  // What callers asked for, from the schedule alone

  function AddCalled(step: Step): nat {
    if step.CallAdd? then step.n else 0
  }

  /** The arguments of all calls of add. */
  function Adds(sched: seq<Step>): nat {
    if sched == [] then 0 else AddCalled(sched[0]) + Adds(sched[1..])
  }

  function DoneCalled(step: Step): nat {
    if step.CallDone? then 1 else 0
  }

  /** The number of calls of done. */
  function Dones(sched: seq<Step>): nat {
    if sched == [] then 0 else DoneCalled(sched[0]) + Dones(sched[1..])
  }

  function Amount(pc: Pc): nat {
    if pc.AddLock? || pc.AddBody? then pc.n else 0
  }

  function Ending(pc: Pc): nat {
    if pc.DoneLock? || pc.DoneBody? then 1 else 0
  }

  function Amounts(pcs: map<Tid, Pc>): map<Tid, nat> {
    map t | t in pcs :: Amount(pcs[t])
  }

  function Endings(pcs: map<Tid, Pc>): map<Tid, nat> {
    map t | t in pcs :: Ending(pcs[t])
  }

  /** What the adds called that have not reached the counter amount to. */
  ghost function AddsUnderWay(s: State): nat {
    Sum(Amounts(s.pcs))
  }

  /** How many dones have been called that have not reached the counter. */
  ghost function DonesUnderWay(s: State): nat {
    Sum(Endings(s.pcs))
  }

  predicate IsDone(s: State, step: Step)
    requires Enabled(s, step)
  {
    step.Body? && s.pcs[step.t].DoneBody?
  }

  /** How many dones found work left. */
  ghost function Worked(s: State, sched: seq<Step>): nat
    requires Runs(s, sched)
    decreases |sched|
  {
    if sched == [] then 0
    else (if IsDone(s, sched[0]) && s.count > 0 then 1 else 0) + Worked(Apply(s, sched[0]), sched[1..])
  }

  /** How many dones found none, and count for nothing, as in the source. */
  ghost function Wasted(s: State, sched: seq<Step>): nat
    requires Runs(s, sched)
    decreases |sched|
  {
    if sched == [] then 0
    else (if IsDone(s, sched[0]) && s.count == 0 then 1 else 0) + Wasted(Apply(s, sched[0]), sched[1..])
  }

  /** Adds called minus dones that found work, over a run, apart from adds that are still under way. */
  ghost function Balance(s: State, sched: seq<Step>): int
    requires Runs(s, sched)
  {
    Adds(sched) + AddsUnderWay(s) - AddsUnderWay(Exec(s, sched)) - Worked(s, sched)
  }

  /** To every other thread a step does nothing, or wakes it. */
  lemma StepOnOthers(s: State, step: Step)
    requires Enabled(s, step)
    ensures var s' := Apply(s, step);
      && s'.pcs.Keys == s.pcs.Keys
      && forall u :: u in s.pcs && u != step.t ==>
        s'.pcs[u] == s.pcs[u] || (s.pcs[u].Asleep? && s'.pcs[u].Woken?)
  {
    assert WakeAll(s.pcs).Keys == s.pcs.Keys;
  }

  lemma PcsMove(pcs: map<Tid, Pc>, pcs': map<Tid, Pc>, t: Tid)
    requires t in pcs && pcs'.Keys == pcs.Keys
    requires forall u :: u in pcs && u != t ==> pcs'[u] == pcs[u] || (pcs[u].Asleep? && pcs'[u].Woken?)
    ensures Amounts(pcs') == Amounts(pcs)[t := Amount(pcs'[t])]
    ensures Endings(pcs') == Endings(pcs)[t := Ending(pcs'[t])]
  {
  }

  lemma StepOnOwn(s: State, step: Step)
    requires Enabled(s, step)
    ensures var pc, pc' := s.pcs[step.t], Apply(s, step).pcs[step.t];
      && Delta(s, step) ==
        AddCalled(step) + Amount(pc) - Amount(pc') - (if IsDone(s, step) && s.count > 0 then 1 else 0)
      && Ending(pc') == Ending(pc) + DoneCalled(step) - (if IsDone(s, step) then 1 else 0)
  {
  }

  /** A step takes from what is under way what it brings to the counter. */
  lemma StepUnderWay(s: State, step: Step)
    requires Enabled(s, step)
    ensures var s' := Apply(s, step);
      && Delta(s, step) ==
        AddCalled(step) + AddsUnderWay(s) - AddsUnderWay(s') - (if IsDone(s, step) && s.count > 0 then 1 else 0)
      && DonesUnderWay(s') == DonesUnderWay(s) + DoneCalled(step) - (if IsDone(s, step) then 1 else 0)
  {
    var s', t := Apply(s, step), step.t;
    StepOnOthers(s, step);
    StepOnOwn(s, step);
    PcsMove(s.pcs, s'.pcs, t);
    SumUpdate(Amounts(s.pcs), t, Amount(s'.pcs[t]));
    SumUpdate(Endings(s.pcs), t, Ending(s'.pcs[t]));
  }

  lemma BalanceFirst(s: State, sched: seq<Step>)
    requires Runs(s, sched) && sched != []
    ensures Balance(s, sched) == Delta(s, sched[0]) + Balance(Apply(s, sched[0]), sched[1..])
  {
    StepUnderWay(s, sched[0]);
  }

  /** Every done called is under way, found work, or found none. */
  lemma {:induction false} DonesAccounted(s: State, sched: seq<Step>)
    requires Runs(s, sched)
    ensures Dones(sched) + DonesUnderWay(s) ==
      Worked(s, sched) + Wasted(s, sched) + DonesUnderWay(Exec(s, sched))
    decreases |sched|
  {
    if sched != [] {
      StepUnderWay(s, sched[0]);
      DonesAccounted(Apply(s, sched[0]), sched[1..]);
    }
  }

  /** An add that takes the counter past its range. */
  predicate Wraps(s: State, step: Step)
    requires Enabled(s, step)
  {
    s.count + Delta(s, step) >= MODULUS
  }

  ghost predicate NeverWraps(s: State, sched: seq<Step>)
    requires Runs(s, sched)
    decreases |sched|
  {
    sched != [] ==> !Wraps(s, sched[0]) && NeverWraps(Apply(s, sched[0]), sched[1..])
  }

  lemma StepModulo(s: State, step: Step)
    requires Enabled(s, step)
    ensures Apply(s, step).count == (s.count + Delta(s, step)) % MODULUS
  {
  }

  /** In every run the counter is what was put in minus what was done, modulo its range. */
  lemma {:induction false} CounterModulo(s: State, sched: seq<Step>)
    requires Runs(s, sched)
    ensures Exec(s, sched).count == (s.count + Balance(s, sched)) % MODULUS
    decreases |sched|
  {
    if sched != [] {
      BalanceFirst(s, sched);
      StepModulo(s, sched[0]);
      CounterModulo(Apply(s, sched[0]), sched[1..]);
    }
  }

  /** The counter falls short of adds minus dones exactly from the first wrap-around on. */
  lemma {:induction false} ExactIffNeverWraps(s: State, sched: seq<Step>)
    requires Runs(s, sched)
    ensures Exec(s, sched).count <= s.count + Balance(s, sched)
    ensures Exec(s, sched).count == s.count + Balance(s, sched) <==> NeverWraps(s, sched)
    decreases |sched|
  {
    if sched != [] {
      BalanceFirst(s, sched);
      ExactIffNeverWraps(Apply(s, sched[0]), sched[1..]);
    }
  }

  /** When nobody is inside a call but asleep, the counter is initial plus every add called minus the dones
      that found work, modulo its range, and all dones called found work or none. */
  lemma CounterAtRest(threads: set<Tid>, count: Unsigned, sched: seq<Step>)
    requires Runs(Init(threads, count), sched)
    requires var s := Exec(Init(threads, count), sched); forall t :: t in s.pcs ==> s.pcs[t].Idle? || s.pcs[t].Asleep?
    ensures var init := Init(threads, count);
      && Exec(init, sched).count == (count + Adds(sched) - Worked(init, sched)) % MODULUS
      && Dones(sched) == Worked(init, sched) + Wasted(init, sched)
  {
    var init := Init(threads, count);
    var s := Exec(init, sched);
    SumZero(Amounts(init.pcs));
    SumZero(Endings(init.pcs));
    SumZero(Amounts(s.pcs));
    SumZero(Endings(s.pcs));
    CounterModulo(init, sched);
    DonesAccounted(init, sched);
  }

  // Releasing the waiters

  predicate HoldsLock(pc: Pc) {
    pc.AddBody? || pc.DoneBody? || pc.WaitCheck? || pc.WaitLeave? || pc.Leave?
  }

  ghost predicate Inv(s: State) {
    && (forall t :: t in s.pcs ==> (HoldsLock(s.pcs[t]) <==> s.owner == Held(t)))
    && (forall t :: t in s.pcs && s.pcs[t].WaitLeave? ==> s.count == 0)
  }

  lemma StepKeepsInv(s: State, step: Step)
    requires Inv(s) && Enabled(s, step)
    ensures Inv(Apply(s, step))
  {
  }

  /** Nobody waits unsignalled for work that is all done. */
  ghost predicate Released(s: State) {
    s.count == 0 ==> Sleepers(s) == {}
  }

  /** An add that wraps the counter to exactly zero while a waiter sleeps. */
  ghost predicate WrapsOverSleeper(s: State, step: Step)
    requires Enabled(s, step)
  {
    s.count + Delta(s, step) == MODULUS && Sleepers(s) != {}
  }

  /** There is no other way to strand a waiter. */
  lemma StrandsIffWrapsToZero(s: State, step: Step)
    requires Inv(s) && Released(s) && Enabled(s, step)
    ensures Released(Apply(s, step)) <==> !WrapsOverSleeper(s, step)
  {
    var s' := Apply(s, step);
    if step.Body? && s.pcs[step.t].AddBody? {
      assert Sleepers(s') == Sleepers(s);
    } else if step.Spurious? {
      assert Sleepers(s') == Sleepers(s) - {step.t};
    } else if step.Body? && s.pcs[step.t].DoneBody? && s'.count == 0 {
      assert Sleepers(s') == {};
    }
  }

  ghost predicate ReleasedThroughout(s: State, sched: seq<Step>)
    requires Runs(s, sched)
    decreases |sched|
  {
    Released(s) && (sched != [] ==> ReleasedThroughout(Apply(s, sched[0]), sched[1..]))
  }

  ghost predicate NeverWrapsOverSleeper(s: State, sched: seq<Step>)
    requires Runs(s, sched)
    decreases |sched|
  {
    sched != [] ==> !WrapsOverSleeper(s, sched[0]) && NeverWrapsOverSleeper(Apply(s, sched[0]), sched[1..])
  }

  lemma {:induction false} RunReleasesIff(s: State, sched: seq<Step>)
    requires Inv(s) && Released(s) && Runs(s, sched)
    ensures Inv(Exec(s, sched))
    ensures ReleasedThroughout(s, sched) <==> NeverWrapsOverSleeper(s, sched)
    ensures NeverWraps(s, sched) ==> NeverWrapsOverSleeper(s, sched)
    decreases |sched|
  {
    if sched != [] {
      var s1 := Apply(s, sched[0]);
      StepKeepsInv(s, sched[0]);
      StrandsIffWrapsToZero(s, sched[0]);
      if WrapsOverSleeper(s, sched[0]) {
        RunKeepsInv(s1, sched[1..]);
        assert !ReleasedThroughout(s1, sched[1..]);
      } else {
        RunReleasesIff(s1, sched[1..]);
      }
    }
  }

  lemma {:induction false} RunKeepsInv(s: State, sched: seq<Step>)
    requires Inv(s) && Runs(s, sched)
    ensures Inv(Exec(s, sched))
    decreases |sched|
  {
    if sched != [] {
      StepKeepsInv(s, sched[0]);
      RunKeepsInv(Apply(s, sched[0]), sched[1..]);
    }
  }

  /** In every run: no waiter is left asleep at zero in any state if and only if no add wraps to zero
      over a sleeper; the counter is initial plus adds minus dones if and only if no add wraps at all; and
      a wait is returning only while the counter is zero. */
  lemma WaitgroupReleases(threads: set<Tid>, count: Unsigned, sched: seq<Step>)
    requires Runs(Init(threads, count), sched)
    ensures var init, s := Init(threads, count), Exec(Init(threads, count), sched);
      && (ReleasedThroughout(init, sched) <==> NeverWrapsOverSleeper(init, sched))
      && (s.count == count + Balance(init, sched) <==> NeverWraps(init, sched))
      && (NeverWraps(init, sched) ==> ReleasedThroughout(init, sched))
      && (forall t :: t in s.pcs && s.pcs[t].WaitLeave? ==> s.count == 0 && s.owner == Held(t))
  {
    var init := Init(threads, count);
    assert Sleepers(init) == {};
    RunReleasesIff(init, sched);
    ExactIffNeverWraps(init, sched);
  }

  /** Wrapping strands a waiter: one unit of work, a sleeping waiter, and an add of the whole range less one. */
  lemma WrapStrands(w: Tid, a: Tid) returns (sched: seq<Step>)
    requires w != a
    ensures Runs(Init({w, a}, 1), sched)
    ensures Exec(Init({w, a}, 1), sched) == State(0, Free, map[w := Asleep, a := Idle])
  {
    var s0 := Init({w, a}, 1);
    var s1 := Apply(s0, CallWait(w));
    var s2 := Apply(s1, Lock(w));
    var s3 := Apply(s2, Body(w));
    assert s3 == State(1, Free, map[w := Asleep, a := Idle]);
    var tail := WrappingAdd(w, a);
    Prefix(s2, Body(w), tail);
    Prefix(s1, Lock(w), [Body(w)] + tail);
    Prefix(s0, CallWait(w), [Lock(w)] + ([Body(w)] + tail));
    sched := [CallWait(w)] + ([Lock(w)] + ([Body(w)] + tail));
  }

  lemma WrappingAdd(w: Tid, a: Tid) returns (sched: seq<Step>)
    requires w != a
    ensures Runs(State(1, Free, map[w := Asleep, a := Idle]), sched)
    ensures Exec(State(1, Free, map[w := Asleep, a := Idle]), sched) == State(0, Free, map[w := Asleep, a := Idle])
  {
    var s0 := State(1, Free, map[w := Asleep, a := Idle]);
    var s1 := Apply(s0, CallAdd(a, MODULUS - 1));
    var s2 := Apply(s1, Lock(a));
    var s3 := Apply(s2, Body(a));
    assert Apply(s3, Unlock(a)) == State(0, Free, map[w := Asleep, a := Idle]);
    Prefix(s3, Unlock(a), []);
    Prefix(s2, Body(a), [Unlock(a)] + []);
    Prefix(s1, Lock(a), [Body(a)] + ([Unlock(a)] + []));
    Prefix(s0, CallAdd(a, MODULUS - 1), [Lock(a)] + ([Body(a)] + ([Unlock(a)] + [])));
    sched := [CallAdd(a, MODULUS - 1)] + ([Lock(a)] + ([Body(a)] + ([Unlock(a)] + [])));
  }

  lemma Prefix(s: State, step: Step, sched: seq<Step>)
    requires Enabled(s, step) && Runs(Apply(s, step), sched)
    ensures Runs(s, [step] + sched) && Exec(s, [step] + sched) == Exec(Apply(s, step), sched)
  {
    assert ([step] + sched)[1..] == sched;
  }

  // Calls that get through. A thread goes on alone: no other thread takes a step, and it calls nothing new.

  predicate IsCall(step: Step) {
    step.CallAdd? || step.CallDone? || step.CallWait?
  }

  predicate Solo(sched: seq<Step>, t: Tid) {
    forall i :: 0 <= i < |sched| ==> sched[i].t == t && !IsCall(sched[i])
  }

  ghost predicate Alone(s: State, t: Tid, s': State) {
    exists sched :: Runs(s, sched) && Solo(sched, t) && Exec(s, sched) == s'
  }

  lemma Done(s: State, t: Tid)
    ensures Alone(s, t, s)
  {
    assert Runs(s, []) && Solo([], t) && Exec(s, []) == s;
  }

  lemma Then(s: State, step: Step, s': State)
    requires Enabled(s, step) && !IsCall(step) && Alone(Apply(s, step), step.t, s')
    ensures Alone(s, step.t, s')
  {
    var s1 := Apply(s, step);
    var sched :| Runs(s1, sched) && Solo(sched, step.t) && Exec(s1, sched) == s';
    Prefix(s, step, sched);
    assert Solo([step] + sched, step.t);
  }

  /** The end of a call: the mutex is given back. */
  lemma Leaves(s: State, t: Tid)
    requires t in s.pcs && (s.pcs[t].Leave? || s.pcs[t].WaitLeave?)
    ensures Alone(s, t, s.(owner := Free, pcs := s.pcs[t := Idle]))
  {
    var s' := s.(owner := Free, pcs := s.pcs[t := Idle]);
    Done(s', t);
    Then(s, Unlock(t), s');
  }

  /** An add called when the mutex is free adds its argument and wakes nobody. */
  lemma AddAlone(s: State, t: Tid, n: Unsigned)
    requires s.owner.Free? && t in s.pcs && s.pcs[t].Idle?
    ensures Alone(Apply(s, CallAdd(t, n)), t, s.(count := (s.count + n) % MODULUS))
  {
    var s' := s.(count := (s.count + n) % MODULUS);
    var s1 := Apply(s, CallAdd(t, n));
    var s2 := Apply(s1, Lock(t));
    var s3 := Apply(s2, Body(t));
    Leaves(s3, t);
    assert s3.(owner := Free, pcs := s3.pcs[t := Idle]) == s';
    Then(s2, Body(t), s');
    Then(s1, Lock(t), s');
  }

  /** A done called when the mutex is free takes one off, if there is one, and wakes every waiter if that
      leaves none. */
  lemma DoneAlone(s: State, t: Tid)
    requires s.owner.Free? && t in s.pcs && s.pcs[t].Idle?
    ensures Alone(Apply(s, CallDone(t)), t,
                  if s.count <= 1 then s.(count := 0, pcs := WakeAll(s.pcs)) else s.(count := s.count - 1))
  {
    var s' := if s.count <= 1 then s.(count := 0, pcs := WakeAll(s.pcs)) else s.(count := s.count - 1);
    var s1 := Apply(s, CallDone(t));
    var s2 := Apply(s1, Lock(t));
    var s3 := Apply(s2, Body(t));
    Leaves(s3, t);
    assert s3.pcs[t := Idle] == s'.pcs;
    assert s3.(owner := Free, pcs := s3.pcs[t := Idle]) == s';
    Then(s2, Body(t), s');
    Then(s1, Lock(t), s');
  }

  /** A wait called, or woken, when the mutex is free returns if the counter is zero and sleeps otherwise. */
  lemma WaitAlone(s: State, t: Tid)
    requires s.owner.Free? && t in s.pcs && (s.pcs[t].Idle? || s.pcs[t].Woken?)
    ensures Alone(if s.pcs[t].Idle? then Apply(s, CallWait(t)) else s, t,
                  s.(pcs := s.pcs[t := if s.count == 0 then Idle else Asleep]))
  {
    var s' := s.(pcs := s.pcs[t := if s.count == 0 then Idle else Asleep]);
    var s1 := if s.pcs[t].Idle? then Apply(s, CallWait(t)) else s;
    var s2 := Apply(s1, Lock(t));
    var s3 := Apply(s2, Body(t));
    if s.count == 0 {
      Leaves(s3, t);
      assert s3.(owner := Free, pcs := s3.pcs[t := Idle]) == s';
    } else {
      assert s3 == s';
      Done(s', t);
    }
    Then(s2, Body(t), s');
    Then(s1, Lock(t), s');
  }
}
