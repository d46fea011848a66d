/** Closing a pipeline: what the drain guarantees for ever after, and whom the broadcasts may miss. */
module PipelineClose {
  import opened RingStore
  import opened Threads
  import opened Pipeline
  import opened PipelineRuns

  predicate HoldsLock(pc: Pc) {
    || pc.GetCheck? || pc.GetBody? || pc.GetSignal?
    || pc.PutCheck? || pc.PutBody? || pc.PutSignal?
    || pc.Leave? || pc.Draining?
  }

  /** Past a successful exchange of the flag and not yet done. */
  predicate Closing(pc: Pc) {
    pc.CloseWakeInput? || pc.CloseWakeOutput? || pc.CloseLock? || pc.Draining?
  }

  /** The mutex is owned by exactly the thread inside a critical section; only one thread closes. */
  ghost predicate Inv(s: State) {
    && Ok(s.ring)
    && (forall t :: t in s.pcs ==> (HoldsLock(s.pcs[t]) <==> s.owner == Held(t)))
    && (forall t :: t in s.pcs && Closing(s.pcs[t]) ==> s.closed)
    && (forall t, u :: t in s.pcs && u in s.pcs && Closing(s.pcs[t]) && Closing(s.pcs[u]) ==> t == u)
  }

  /** To every other thread a step does nothing, or wakes it. */
  lemma StepOnOthers(s: State, step: Step, u: Tid)
    requires Ok(s.ring) && Enabled(s, step)
    ensures Apply(s, step).pcs.Keys == s.pcs.Keys
    ensures u in s.pcs && u != step.t ==> Apply(s, step).pcs[u] == s.pcs[u] || Apply(s, step).pcs[u] == Woken(s.pcs[u])
  {
    assert Wake(s.pcs, Getters(s)).Keys == s.pcs.Keys == Wake(s.pcs, Putters(s)).Keys;
    if step.Signal? {
      assert Wake(s.pcs, step.woken).Keys == s.pcs.Keys;
    }
  }

  /** What a step does to the flag and to closing. */
  lemma StepCloses(s: State, step: Step)
    requires Inv(s) && Enabled(s, step)
    ensures var s' := Apply(s, step);
      && (s.closed ==> s'.closed)
      && (Closing(s'.pcs[step.t]) ==> s'.closed && (Closing(s.pcs[step.t]) || !s.closed))
  {
  }

  /** What a step does to the lock. */
  lemma StepOnSelf(s: State, step: Step)
    requires Inv(s) && Enabled(s, step)
    ensures var s' := Apply(s, step);
      && (HoldsLock(s'.pcs[step.t]) <==> s'.owner == Held(step.t))
      && (|| s'.owner == s.owner
          || (s.owner.Free? && s'.owner == Held(step.t))
          || (s.owner == Held(step.t) && s'.owner.Free?))
  {
  }

  lemma StepKeepsInv(s: State, step: Step)
    requires Inv(s) && Enabled(s, step)
    ensures Inv(Apply(s, step))
  {
    StepKeepsRing(s, step);
    StepOnSelf(s, step);
    StepCloses(s, step);
    forall u | u in Apply(s, step).pcs
      ensures u in s.pcs
      ensures u != step.t ==> HoldsLock(Apply(s, step).pcs[u]) == HoldsLock(s.pcs[u])
      ensures u != step.t ==> Closing(Apply(s, step).pcs[u]) == Closing(s.pcs[u])
    {
      StepOnOthers(s, step, u);
    }
  }

  /** Drained, and nobody left between a passed test of the flag and acting on it. */
  ghost predicate Sealed(s: State) {
    && s.closed
    && s.ring.count == 0
    && forall t :: t in s.pcs ==> !s.pcs[t].GetBody? && !s.pcs[t].PutBody?
  }

  lemma FinishSeals(s: State, step: Step)
    requires Inv(s) && Enabled(s, step) && Finished in Emit(s, step)
    ensures Sealed(Apply(s, step))
  {
    assert s.pcs[step.t].Draining?;
  }

  lemma StepKeepsSealed(s: State, step: Step)
    requires Inv(s) && Sealed(s) && Enabled(s, step)
    ensures Sealed(Apply(s, step))
    ensures forall e :: e in Emit(s, step) ==> e == Finished
  {
  }

  lemma {:induction false} RunSeals(s: State, sched: seq<Step>)
    requires Inv(s) && Runs(s, sched)
    ensures Inv(Exec(s, sched))
    ensures Finished in Trace(s, sched) ==> Sealed(Exec(s, sched))
    ensures Sealed(s) ==> Sealed(Exec(s, sched)) && forall e :: e in Trace(s, sched) ==> e == Finished
    decreases |sched|
  {
    if sched != [] {
      var s1 := Apply(s, sched[0]);
      StepKeepsInv(s, sched[0]);
      RunSeals(s1, sched[1..]);
      if Sealed(s) {
        StepKeepsSealed(s, sched[0]);
      }
      if Finished in Emit(s, sched[0]) {
        FinishSeals(s, sched[0]);
      }
    }
  }

  lemma InitInv(threads: set<Tid>, size: nat, policy: Policy)
    requires size > 0
    ensures Inv(Init(threads, size, policy))
  {
    EmptyHoldsNothing(size);
  }

  /** Once a closer has finished draining, the ring is empty in every later state and nothing is ever
      accepted, delivered or freed again, whoever had passed a test of the flag before it flipped. */
  lemma ClosedForGood(threads: set<Tid>, size: nat, policy: Policy, before: seq<Step>, after: seq<Step>)
    requires size > 0 && Runs(Init(threads, size, policy), before)
    requires Runs(Exec(Init(threads, size, policy), before), after)
    requires Finished in Trace(Init(threads, size, policy), before)
    ensures var s := Exec(Init(threads, size, policy), before);
      && Contents(Exec(s, after).ring) == []
      && forall e :: e in Trace(s, after) ==> e == Finished
  {
    InitInv(threads, size, policy);
    RunSeals(Init(threads, size, policy), before);
    RunSeals(Exec(Init(threads, size, policy), before), after);
  }

  // The broadcasts of src/pipeline.c:37-38 are sent without the lock, so a thread that has passed its
  // test of the flag can go to sleep after them.

  predicate InputDue(s: State) {
    exists c :: c in s.pcs && s.pcs[c].CloseWakeInput?
  }

  predicate OutputDue(s: State) {
    exists c :: c in s.pcs && (s.pcs[c].CloseWakeInput? || s.pcs[c].CloseWakeOutput?)
  }

  predicate Asleep(s: State, t: Tid) {
    AsleepGet(s, t) || AsleepPut(s, t)
  }

  /** Past its test of the flag, with nothing left to do but sleep: src/pipeline.c:63 and 87. */
  predicate Dozes(s: State, t: Tid)
    requires t in s.pcs
  {
    || (s.pcs[t].GetBody? && s.ring.count == 0)
    || (s.pcs[t].PutBody? && s.ring.count == s.ring.size && s.policy.WAIT?)
  }

  /** Beyond the reach of the broadcasts: about to sleep on a stale test, or asleep with none to come. */
  predicate Late(s: State, t: Tid)
    requires t in s.pcs
  {
    Dozes(s, t) || (AsleepPut(s, t) && !InputDue(s)) || (AsleepGet(s, t) && !OutputDue(s))
  }

  /** A broadcast due stays due until it is sent. */
  lemma BroadcastStaysDue(s: State, step: Step)
    requires Inv(s) && Enabled(s, step) && !step.Broadcast?
    ensures InputDue(s) ==> InputDue(Apply(s, step))
    ensures OutputDue(s) ==> OutputDue(Apply(s, step))
  {
    if c :| c in s.pcs && (s.pcs[c].CloseWakeInput? || s.pcs[c].CloseWakeOutput?) {
      StepOnOthers(s, step, c);
      assert Apply(s, step).pcs[c] == s.pcs[c];
      if InputDue(s) {
        assert s.pcs[c].CloseWakeInput?;
      }
    }
  }

  /** A broadcast reaches whoever it is for. */
  lemma LateBeforeBroadcast(s: State, step: Step, t: Tid)
    requires Inv(s) && Enabled(s, step) && s.closed && step.Broadcast?
    requires t in s.pcs && Late(Apply(s, step), t)
    ensures Late(s, t)
  {
    var s' := Apply(s, step);
    if s.pcs[step.t].CloseWakeInput? {
      assert s'.pcs[step.t].CloseWakeOutput?;
    } else if InputDue(s) {
      assert false;
    }
  }

  /** Once the flag is set, no thread becomes late that was not late before. */
  lemma LateBefore(s: State, step: Step, t: Tid)
    requires Inv(s) && Enabled(s, step) && s.closed
    requires t in s.pcs && Late(Apply(s, step), t)
    ensures Late(s, t)
  {
    if step.Broadcast? {
      LateBeforeBroadcast(s, step, t);
    } else {
      BroadcastStaysDue(s, step);
    }
  }

  lemma {:induction false} LateBeforeRun(s: State, sched: seq<Step>, t: Tid)
    requires Inv(s) && Runs(s, sched) && s.closed
    requires t in Exec(s, sched).pcs && Late(Exec(s, sched), t)
    ensures Inv(Exec(s, sched)) && t in s.pcs && Late(s, t)
    decreases |sched|
  {
    if sched != [] {
      StepKeepsInv(s, sched[0]);
      LateBeforeRun(Apply(s, sched[0]), sched[1..], t);
      StepOnOthers(s, sched[0], t);
      LateBefore(s, sched[0], t);
    }
  }

  /** At the exchange, the late threads are those about to sleep; everyone asleep is still to be woken. */
  lemma LateAtExchange(s: State, c: Tid, t: Tid)
    requires Inv(s) && !s.closed && c in s.pcs && s.pcs[c].CloseExchange? && t in s.pcs
    ensures Late(Apply(s, Exchange(c)), t) <==> Dozes(s, t)
  {
    assert Apply(s, Exchange(c)).pcs[c].CloseWakeInput?;
  }

  /** No thread sleeps once both broadcasts of a close have been sent. */
  ghost predicate CloseWakesAll(s: State, roles: Roles)
    requires Ok(s.ring)
  {
    forall s', t :: Reachable(s, roles, s') && !OutputDue(s') ==> !Asleep(s', t)
  }

  /** A close wakes every sleeper if and only if, when the flag is set, no consumer is past its test with
      the ring empty and no producer past its test with the ring full. */
  lemma CloseWakesAllIff(s: State, c: Tid, roles: Roles)
    requires Inv(s) && !s.closed && c in s.pcs && s.pcs[c].CloseExchange?
    ensures Ok(Apply(s, Exchange(c)).ring)
    ensures CloseWakesAll(Apply(s, Exchange(c)), roles) <==> forall t :: t in s.pcs ==> !Dozes(s, t)
  {
    var s1 := Apply(s, Exchange(c));
    StepKeepsInv(s, Exchange(c));
    if t :| t in s.pcs && Dozes(s, t) {
      ReachInit(s1, roles);
      var s' := CloseLoses(s1, roles, s1, c, t);
      assert Reachable(s1, roles, s') && !OutputDue(s') && Asleep(s', t);
    } else {
      forall s', t | Reachable(s1, roles, s') && !OutputDue(s')
        ensures !Asleep(s', t)
      {
        if Asleep(s', t) {
          var sched :| Runs(s1, sched) && CallsBy(sched, roles) && Exec(s1, sched) == s';
          assert !InputDue(s');
          LateBeforeRun(s1, sched, t);
          LateAtExchange(s, c, t);
        }
      }
    }
  }

  ghost predicate AtMostOneLate(s: State) {
    s.closed ==> forall t, u :: t in s.pcs && u in s.pcs && Late(s, t) && Late(s, u) ==> t == u
  }

  lemma StepKeepsLate(s: State, step: Step)
    requires Inv(s) && AtMostOneLate(s) && Enabled(s, step)
    ensures AtMostOneLate(Apply(s, step))
  {
    var s' := Apply(s, step);
    if s.closed {
      forall t, u | t in s'.pcs && u in s'.pcs && Late(s', t) && Late(s', u)
        ensures t == u
      {
        LateBefore(s, step, t);
        LateBefore(s, step, u);
      }
    } else if step.Exchange? {
      assert s'.pcs[step.t].CloseWakeInput?;
    }
  }

  lemma {:induction false} RunKeepsLate(s: State, sched: seq<Step>)
    requires Inv(s) && AtMostOneLate(s) && Runs(s, sched)
    ensures Inv(Exec(s, sched)) && AtMostOneLate(Exec(s, sched))
    decreases |sched|
  {
    if sched != [] {
      StepKeepsInv(s, sched[0]);
      StepKeepsLate(s, sched[0]);
      RunKeepsLate(Apply(s, sched[0]), sched[1..]);
    }
  }

  /** When the closer has sent both broadcasts, at most one thread of all is still asleep. */
  lemma CloseMissesAtMostOne(threads: set<Tid>, size: nat, policy: Policy, sched: seq<Step>, t: Tid, u: Tid)
    requires size > 0 && Runs(Init(threads, size, policy), sched)
    requires var s := Exec(Init(threads, size, policy), sched);
      s.closed && !OutputDue(s) && Asleep(s, t) && Asleep(s, u)
    ensures t == u
  {
    InitInv(threads, size, policy);
    RunKeepsLate(Init(threads, size, policy), sched);
    var s := Exec(Init(threads, size, policy), sched);
    assert !InputDue(s);
    assert Late(s, t) && Late(s, u);
  }

  // The one thread missed is lost.

  /** Nobody left who could signal or broadcast. */
  ghost predicate Silent(s: State) {
    forall t :: t in s.pcs ==> var pc := s.pcs[t];
      !pc.GetSignal? && !pc.PutSignal? && !pc.CloseWakeInput? && !pc.CloseWakeOutput?
  }

  /** Where a thread about to sleep ends up. */
  function Nap(pc: Pc): Pc {
    if pc.GetBody? then GetAsleep else if pc.PutBody? then PutAsleep(pc.x) else pc
  }

  function Napping(s: State, t: Tid): State
    requires t in s.pcs
  {
    Goto(s, t, Nap(s.pcs[t])).(owner := Free)
  }

  lemma DozesOff(init: State, roles: Roles, s: State, t: Tid)
    requires Ok(init.ring) && Reachable(init, roles, s) && Inv(s) && t in s.pcs && Dozes(s, t)
    ensures Reachable(init, roles, Napping(s, t)) && Inv(Napping(s, t))
  {
    assert Apply(s, Body(t)) == Napping(s, t);
    Hop(init, roles, Body(t), s, Napping(s, t));
    StepKeepsInv(s, Body(t));
  }

  /** A close is over and `t` has slept through it, while every other sleeper was woken. */
  ghost predicate Lost(s: State, c: Tid, t: Tid, s': State)
    requires t in s.pcs
  {
    && Sealed(s') && Silent(s') && s'.owner.Free? && s'.pcs.Keys == s.pcs.Keys
    && s'.pcs[t] == Nap(s.pcs[t])
    && forall u :: u in s.pcs && u != t ==> s'.pcs[u] == if u == c then Idle else Woken(s.pcs[u])
  }

  lemma BroadcastReaches(s: State, c: Tid)
    requires Inv(s) && c in s.pcs && (s.pcs[c].CloseWakeInput? || s.pcs[c].CloseWakeOutput?)
    ensures var s' := Apply(s, Broadcast(c));
      && Inv(s') && s' == s.(pcs := s'.pcs) && s'.pcs.Keys == s.pcs.Keys
      && s'.pcs[c] == (if s.pcs[c].CloseWakeInput? then CloseWakeOutput else CloseLock)
      && forall u :: u in s.pcs && u != c ==>
        var reached := if s.pcs[c].CloseWakeInput? then AsleepPut(s, u) else AsleepGet(s, u);
        s'.pcs[u] == if reached then Woken(s.pcs[u]) else s.pcs[u]
  {
    StepKeepsInv(s, Broadcast(c));
    StepOnOthers(s, Broadcast(c), c);
  }

  /** Both broadcasts: nobody but the closer does anything meanwhile. */
  lemma Broadcasts(init: State, roles: Roles, s: State, c: Tid) returns (s': State)
    requires Ok(init.ring) && Reachable(init, roles, s)
    requires Inv(s) && c in s.pcs && s.pcs[c].CloseWakeInput?
    ensures Reachable(init, roles, s') && Inv(s') && s' == s.(pcs := s'.pcs) && s'.pcs.Keys == s.pcs.Keys
    ensures forall u :: u in s.pcs ==> s'.pcs[u] == if u == c then CloseLock else Woken(s.pcs[u])
  {
    var s1 := Apply(s, Broadcast(c));
    BroadcastReaches(s, c);
    Hop(init, roles, Broadcast(c), s, s1);
    s' := Apply(s1, Broadcast(c));
    BroadcastReaches(s1, c);
    Hop(init, roles, Broadcast(c), s1, s');
  }

  lemma {:induction false} Drains(init: State, roles: Roles, s: State, c: Tid) returns (r: Ring)
    requires Ok(init.ring) && Reachable(init, roles, s)
    requires Inv(s) && c in s.pcs && s.pcs[c].Draining?
    ensures r.count == 0 && Reachable(init, roles, Goto(s, c, Idle).(ring := r, owner := Free))
    ensures Inv(Goto(s, c, Idle).(ring := r, owner := Free))
    decreases s.ring.count
  {
    var s1 := Apply(s, Drain(c));
    Hop(init, roles, Drain(c), s, s1);
    StepKeepsInv(s, Drain(c));
    if s.ring.count == 0 {
      r := s.ring;
    } else {
      r := Drains(init, roles, s1, c);
    }
  }

  /** The closer drains and leaves. */
  lemma Finishes(init: State, roles: Roles, s: State, c: Tid) returns (s': State)
    requires Ok(init.ring) && Reachable(init, roles, s)
    requires Inv(s) && s.owner.Free? && c in s.pcs && s.pcs[c].CloseLock?
    ensures Reachable(init, roles, s') && Inv(s') && s'.owner.Free? && s'.closed && s'.ring.count == 0
    ensures s'.pcs == s.pcs[c := Idle]
  {
    var s1 := Apply(s, Acquire(c));
    Hop(init, roles, Acquire(c), s, s1);
    StepKeepsInv(s, Acquire(c));
    var r := Drains(init, roles, s1, c);
    s' := Goto(s1, c, Idle).(ring := r, owner := Free);
  }

  /** With the lock free and the only closer gone, nobody is left to act or to wake anyone. */
  lemma NobodyActs(s: State, s': State, c: Tid)
    requires Inv(s) && s.owner.Free? && c in s.pcs && Closing(s.pcs[c])
    requires s'.closed && s'.ring.count == 0 && s'.pcs == s.pcs[c := Idle]
    ensures Sealed(s') && Silent(s') && !OutputDue(s')
  {
    forall u | u in s'.pcs
      ensures !Closing(s'.pcs[u]) && !HoldsLock(s'.pcs[u])
    {
      assert u != c ==> s'.pcs[u] == s.pcs[u];
    }
  }

  /** A thread goes to sleep after the broadcasts, and the closer finishes. */
  lemma SleepsAfter(init: State, roles: Roles, s: State, c: Tid, t: Tid) returns (s': State)
    requires Ok(init.ring) && Reachable(init, roles, s)
    requires Inv(s) && s.closed && c in s.pcs && s.pcs[c].CloseLock? && t in s.pcs && Dozes(s, t)
    ensures Reachable(init, roles, s') && Inv(s') && s'.owner.Free?
    ensures Sealed(s') && Silent(s') && !OutputDue(s') && s'.pcs == s.pcs[t := Nap(s.pcs[t])][c := Idle]
  {
    DozesOff(init, roles, s, t);
    s' := Finishes(init, roles, Napping(s, t), c);
    NobodyActs(Napping(s, t), s', c);
  }

  /** A thread about to sleep when the flag is set can sleep through the whole close. */
  lemma CloseLoses(init: State, roles: Roles, s: State, c: Tid, t: Tid) returns (s': State)
    requires Ok(init.ring) && Reachable(init, roles, s)
    requires Inv(s) && s.closed && c in s.pcs && s.pcs[c].CloseWakeInput? && t in s.pcs && Dozes(s, t)
    ensures Reachable(init, roles, s') && Inv(s') && !OutputDue(s') && Lost(s, c, t, s')
  {
    assert t != c;
    var s1 := Broadcasts(init, roles, s, c);
    assert s1.pcs[t] == Woken(s.pcs[t]) == s.pcs[t];
    assert Dozes(s1, t);
    s' := SleepsAfter(init, roles, s1, c, t);
    LostAfter(s, s1, c, t, s');
  }

  lemma LostAfter(s: State, s1: State, c: Tid, t: Tid, s': State)
    requires t in s.pcs && c in s.pcs && t != c && s1.pcs.Keys == s.pcs.Keys && s1.pcs[t] == s.pcs[t]
    requires forall u :: u in s.pcs && u != c ==> s1.pcs[u] == Woken(s.pcs[u])
    requires Sealed(s') && Silent(s') && s'.owner.Free? && s'.pcs == s1.pcs[t := Nap(s1.pcs[t])][c := Idle]
    ensures Lost(s, c, t, s')
  {
  }

  lemma EntersInv(s: State, t: Tid, pc: Pc)
    requires Ok(s.ring) && !s.closed && s.owner.Free? && HoldsLock(pc) && !Closing(pc)
    requires forall u :: u in s.pcs ==> s.pcs[u].Idle?
    ensures Inv(Inside(s, t, pc))
  {
  }

  /** A consumer that tested the flag just before a closer set it sleeps through the whole close: the
      closer is done, the lock is free, and the consumer is asleep with no signal on its way. */
  lemma CloseCanMissConsumer(threads: set<Tid>, size: nat, policy: Policy, g: Tid, c: Tid) returns (s: State)
    requires size > 0 && g in threads && c in threads && g != c
    ensures Ok(Init(threads, size, policy).ring) && Reachable(Init(threads, size, policy), Roles({g}, {}), s)
    ensures Inv(s) && Sealed(s) && Silent(s) && s.owner.Free? && AsleepGet(s, g)
    ensures forall t :: t in s.pcs && t != g ==> s.pcs[t].Idle?
  {
    var init, roles := Init(threads, size, policy), Roles({g}, {});
    InitInv(threads, size, policy);
    ReachInit(init, roles);
    GetReady(init, roles, init, g);
    EntersInv(init, g, GetBody);
    s := ClosesOver(init, roles, Inside(init, g, GetBody), c, g);
  }

  /** So does a producer that found the ring full. */
  lemma CloseCanMissProducer(threads: set<Tid>, size: nat, p: Tid, c: Tid) returns (s: State)
    requires size > 0 && p in threads && c in threads && p != c
    ensures Ok(Init(threads, size, WAIT).ring) && Reachable(Init(threads, size, WAIT), Roles({}, {p}), s)
    ensures Inv(s) && Sealed(s) && Silent(s) && s.owner.Free? && AsleepPut(s, p)
    ensures forall t :: t in s.pcs && t != p ==> s.pcs[t].Idle?
  {
    var init, roles := Init(threads, size, WAIT), Roles({}, {p});
    InitInv(threads, size, WAIT);
    ReachInit(init, roles);
    assert Getters(init) == {};
    var r := Fills(init, roles, init, p);
    var full := init.(ring := r);
    PutReady(init, roles, full, p, 0);
    EntersInv(full, p, PutBody(0));
    s := ClosesOver(init, roles, Inside(full, p, PutBody(0)), c, p);
  }

  /** From a state in which `t` is about to sleep and all others are idle, `c` closes. */
  lemma ClosesOver(init: State, roles: Roles, s: State, c: Tid, t: Tid) returns (s': State)
    requires Ok(init.ring) && Reachable(init, roles, s)
    requires Inv(s) && !s.closed && t in s.pcs && Dozes(s, t) && c in s.pcs && c != t
    requires forall u :: u in s.pcs && u != t ==> s.pcs[u].Idle?
    ensures Reachable(init, roles, s') && Inv(s') && Lost(s, c, t, s')
  {
    var s1 := Goto(s, c, CloseExchange);
    Hop(init, roles, CallClose(c), s, s1);
    StepKeepsInv(s, CallClose(c));
    var s2 := Apply(s1, Exchange(c));
    Hop(init, roles, Exchange(c), s1, s2);
    StepKeepsInv(s1, Exchange(c));
    s' := CloseLoses(init, roles, s2, c, t);
  }

  lemma StepMisses(s: State, t: Tid, step: Step)
    requires Inv(s) && Sealed(s) && Silent(s) && Asleep(s, t) && Enabled(s, step) && step != Spurious(t)
    ensures Silent(Apply(s, step)) && Asleep(Apply(s, step), t)
  {
  }

  /** A thread missed by the close is never woken by anything the pipeline does. */
  lemma {:induction false} MissedForEver(s: State, t: Tid, sched: seq<Step>)
    requires Inv(s) && Sealed(s) && Silent(s) && Asleep(s, t) && Runs(s, sched)
    requires Spurious(t) !in sched
    ensures Asleep(Exec(s, sched), t)
    decreases |sched|
  {
    if sched != [] {
      StepKeepsInv(s, sched[0]);
      StepKeepsSealed(s, sched[0]);
      StepMisses(s, t, sched[0]);
      MissedForEver(Apply(s, sched[0]), t, sched[1..]);
    }
  }
}
