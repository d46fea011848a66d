/** What callers of a pipeline get for their calls: which items they had accepted and which they received,
  told from the calls in the schedule, and what one call does when its thread runs alone.
 */
module PipelineCalls {
  import opened Sequences
  import opened RingStore
  import opened Threads
  import opened Pipeline
  import opened PipelineClose
  import opened PipelineRuns
  import opened PipelineWakeups

  // Calls and answers, thread by thread

  function PutBy(step: Step, t: Tid): seq<Item> {
    if step.CallPut? && step.t == t then [step.item] else []
  }

  /** The items with which `t` called put_pipeline. */
  function Puts(sched: seq<Step>, t: Tid): seq<Item> {
    if sched == [] then [] else PutBy(sched[0], t) + Puts(sched[1..], t)
  }

  function AcceptedBy(s: State, step: Step, t: Tid): seq<Item>
    requires Ok(s.ring) && Enabled(s, step)
  {
    if step.t == t then Accepts(Emit(s, step)) else []
  }

  /** The items of `t` that the pipeline accepted, in order. */
  ghost function Accepted(s: State, sched: seq<Step>, t: Tid): seq<Item>
    requires Ok(s.ring) && Runs(s, sched)
    decreases |sched|
  {
    if sched == [] then []
    else (StepKeepsRing(s, sched[0]); AcceptedBy(s, sched[0], t) + Accepted(Apply(s, sched[0]), sched[1..], t))
  }

  /** The number of calls of get_pipeline by `t`. */
  function Gets(sched: seq<Step>, t: Tid): nat {
    if sched == [] then 0 else (if sched[0] == CallGet(t) then 1 else 0) + Gets(sched[1..], t)
  }

  function DeliveredTo(s: State, step: Step, t: Tid): seq<Item>
    requires Ok(s.ring) && Enabled(s, step)
  {
    if step.t == t then Deliveries(Emit(s, step)) else []
  }

  /** The items that `t` received, in order. */
  ghost function Received(s: State, sched: seq<Step>, t: Tid): seq<Item>
    requires Ok(s.ring) && Runs(s, sched)
    decreases |sched|
  {
    if sched == [] then []
    else (StepKeepsRing(s, sched[0]); DeliveredTo(s, sched[0], t) + Received(Apply(s, sched[0]), sched[1..], t))
  }

  /** Between the call of put_pipeline and the push. */
  predicate Putting(pc: Pc) {
    pc.PutLock? || pc.PutCheck? || pc.PutBody? || pc.PutAsleep? || pc.PutWoken?
  }

  function Carried(pc: Pc): seq<Item> {
    if Putting(pc) then [pc.x] else []
  }

  /** Between the call of get_pipeline and the take. */
  predicate Getting(pc: Pc) {
    pc.GetLock? || pc.GetCheck? || pc.GetBody? || pc.GetAsleep? || pc.GetWoken?
  }

  lemma EmitOne(s: State, step: Step)
    requires Ok(s.ring) && Enabled(s, step)
    ensures Accepts(Emit(s, step)) ==
      if step.Body? && s.pcs[step.t].PutBody? && s.ring.count < s.ring.size then [s.pcs[step.t].x] else []
    ensures Deliveries(Emit(s, step)) ==
      if step.Body? && s.pcs[step.t].GetBody? && s.ring.count > 0 then [s.ring.buf[s.ring.head]] else []
  {
    var events := Emit(s, step);
    if events != [] {
      assert events == [events[0]];
      LogOne(events[0], Accepted1);
      LogOne(events[0], Delivered1);
    }
  }

  /** A refusal: the flag is tested and found set. */
  predicate Refuses(s: State, step: Step) {
    step.Check? && s.closed
  }

  lemma StepCarries(s: State, step: Step, t: Tid)
    requires Ok(s.ring) && Enabled(s, step) && t in s.pcs
    ensures var s' := Apply(s, step);
      && t in s'.pcs
      && if Refuses(s, step) && step.t == t then
           Carried(s'.pcs[t]) == [] == AcceptedBy(s, step, t) && PutBy(step, t) == []
         else
           Carried(s.pcs[t]) + PutBy(step, t) == AcceptedBy(s, step, t) + Carried(s'.pcs[t])
  {
    EmitOne(s, step);
    StepOnOthers(s, step, t);
  }

  lemma StepGets(s: State, step: Step, t: Tid)
    requires Ok(s.ring) && Enabled(s, step) && t in s.pcs && !(Refuses(s, step) && step.t == t)
    ensures var s' := Apply(s, step);
      && t in s'.pcs
      && (if Getting(s.pcs[t]) then 1 else 0) + (if step == CallGet(t) then 1 else 0) ==
        |DeliveredTo(s, step, t)| + (if Getting(s'.pcs[t]) then 1 else 0)
  {
    EmitOne(s, step);
    StepOnOthers(s, step, t);
  }

  lemma {:induction false} ClosedStays(s: State, sched: seq<Step>)
    requires Ok(s.ring) && Runs(s, sched) && s.closed
    ensures Exec(s, sched).closed
    decreases |sched|
  {
    if sched != [] {
      StepKeepsRing(s, sched[0]);
      ClosedStays(Apply(s, sched[0]), sched[1..]);
    }
  }

  /** While the pipeline is open, every item a thread puts is accepted, unless its call is still waiting to
      push, and every get has delivered an item, unless it is still waiting for one. */
  lemma {:induction false} OpenCallsAnswered(s: State, sched: seq<Step>, t: Tid)
    requires Ok(s.ring) && Runs(s, sched) && t in s.pcs && !Exec(s, sched).closed
    ensures t in Exec(s, sched).pcs
    ensures Carried(s.pcs[t]) + Puts(sched, t) == Accepted(s, sched, t) + Carried(Exec(s, sched).pcs[t])
    ensures (if Getting(s.pcs[t]) then 1 else 0) + Gets(sched, t) ==
      |Received(s, sched, t)| + (if Getting(Exec(s, sched).pcs[t]) then 1 else 0)
    decreases |sched|
  {
    if s.closed {
      ClosedStays(s, sched);
    }
    if sched != [] {
      var s1, rest := Apply(s, sched[0]), sched[1..];
      StepKeepsRing(s, sched[0]);
      StepCarries(s, sched[0], t);
      StepGets(s, sched[0], t);
      OpenCallsAnswered(s1, rest, t);
      Shift(Carried(s.pcs[t]), PutBy(sched[0], t), Puts(rest, t), AcceptedBy(s, sched[0], t),
            Carried(s1.pcs[t]), Accepted(s1, rest, t), Carried(Exec(s, sched).pcs[t]));
    } else {
      assert Carried(s.pcs[t]) + [] == [] + Carried(s.pcs[t]);
    }
  }

  lemma Shift(c0: seq<Item>, p1: seq<Item>, p2: seq<Item>, a1: seq<Item>,
              c1: seq<Item>, a2: seq<Item>, c2: seq<Item>)
    requires c0 + p1 == a1 + c1 && c1 + p2 == a2 + c2
    ensures c0 + (p1 + p2) == (a1 + a2) + c2
  {
    Associative(c0, p1, p2);
    Associative(a1, c1, p2);
    Associative(a1, a2, c2);
  }

  /** In every run that leaves the pipeline open, the items a thread has had accepted are exactly those it
      called put_pipeline with, in order, but for the last while that call has not pushed; and it has
      received an item for each of its calls of get_pipeline, but for the last while that has not taken one. */
  lemma EveryCallServed(threads: set<Tid>, size: nat, policy: Policy, sched: seq<Step>, t: Tid)
    requires size > 0 && t in threads && Runs(Init(threads, size, policy), sched)
    requires !Exec(Init(threads, size, policy), sched).closed
    ensures var init := Init(threads, size, policy);
      var s, calls := Exec(init, sched), Puts(sched, t);
      && t in s.pcs
      && (Putting(s.pcs[t]) ==> calls != [] && Accepted(init, sched, t) == calls[..|calls| - 1])
      && (!Putting(s.pcs[t]) ==> Accepted(init, sched, t) == calls)
      && |Received(init, sched, t)| == Gets(sched, t) - (if Getting(s.pcs[t]) then 1 else 0)
  {
    OpenCallsAnswered(Init(threads, size, policy), sched, t);
    var a, p := Accepted(Init(threads, size, policy), sched, t), Puts(sched, t);
    assert [] + p == p && a + [] == a;
  }

  // With a close, a put may be refused.

  lemma SubsequenceSkips(a: seq<Item>, x: Item, b: seq<Item>)
    requires Subsequence(a, b)
    ensures Subsequence(a, [x] + b)
  {
    assert ([x] + b)[1..] == b;
  }

  lemma SubsequenceTakes(x: Item, a: seq<Item>, b: seq<Item>)
    requires Subsequence(a, b)
    ensures Subsequence([x] + a, [x] + b)
  {
    assert ([x] + a)[1..] == a && ([x] + b)[1..] == b;
  }

  lemma {:induction false} RunAcceptsSome(s: State, sched: seq<Step>, t: Tid)
    requires Ok(s.ring) && Runs(s, sched) && t in s.pcs
    ensures Subsequence(Accepted(s, sched, t), Carried(s.pcs[t]) + Puts(sched, t))
    decreases |sched|
  {
    if sched != [] {
      var s1, rest := Apply(s, sched[0]), sched[1..];
      StepKeepsRing(s, sched[0]);
      StepCarries(s, sched[0], t);
      RunAcceptsSome(s1, rest, t);
      var more := Accepted(s1, rest, t);
      if Refuses(s, sched[0]) && sched[0].t == t {
        assert Accepted(s, sched, t) == more && Puts(sched, t) == Puts(rest, t) == [] + Puts(rest, t);
        if Putting(s.pcs[t]) {
          SubsequenceSkips(more, s.pcs[t].x, Puts(rest, t));
        }
      } else {
        var a1, c1 := AcceptedBy(s, sched[0], t), Carried(s1.pcs[t]);
        Associative(Carried(s.pcs[t]), PutBy(sched[0], t), Puts(rest, t));
        Associative(a1, c1, Puts(rest, t));
        EmitOne(s, sched[0]);
        if a1 != [] {
          SubsequenceTakes(a1[0], more, c1 + Puts(rest, t));
        } else {
          assert a1 + (c1 + Puts(rest, t)) == c1 + Puts(rest, t) && a1 + more == more;
        }
      }
    }
  }

  /** In every run, closes included, a thread's items are accepted in the order of its calls, each at most
      once for each call. */
  lemma AcceptedAreCalls(threads: set<Tid>, size: nat, policy: Policy, sched: seq<Step>, t: Tid)
    requires size > 0 && t in threads && Runs(Init(threads, size, policy), sched)
    ensures Subsequence(Accepted(Init(threads, size, policy), sched, t), Puts(sched, t))
  {
    RunAcceptsSome(Init(threads, size, policy), sched, t);
    assert [] + Puts(sched, t) == Puts(sched, t);
  }

  // One producer

  lemma StepOfSole(s: State, step: Step, roles: Roles, p: Tid)
    requires InRoles(s, roles) && roles.puts == {p} && Enabled(s, step) && !s.closed && s.policy.WAIT?
    ensures Accepts(Emit(s, step)) == AcceptedBy(s, step, p)
    ensures Removals(Emit(s, step)) == Deliveries(Emit(s, step))
  {
    EmitOne(s, step);
    var events := Emit(s, step);
    if events != [] {
      assert events == [events[0]];
      LogOne(events[0], Removed1);
      LogOne(events[0], Delivered1);
    }
  }

  lemma {:induction false} RunOfSole(s: State, sched: seq<Step>, roles: Roles, p: Tid)
    requires InRoles(s, roles) && roles.puts == {p} && Runs(s, sched) && CallsBy(sched, roles)
    requires s.policy.WAIT? && !Exec(s, sched).closed
    ensures Accepts(Trace(s, sched)) == Accepted(s, sched, p)
    ensures Removals(Trace(s, sched)) == Deliveries(Trace(s, sched))
    decreases |sched|
  {
    if s.closed {
      ClosedStays(s, sched);
    }
    if sched != [] {
      var s1, rest := Apply(s, sched[0]), sched[1..];
      StepKeepsRoles(s, sched[0], roles);
      StepOfSole(s, sched[0], roles, p);
      RunOfSole(s1, rest, roles, p);
      LogAppend(Emit(s, sched[0]), Trace(s1, rest), Accepted1);
      LogAppend(Emit(s, sched[0]), Trace(s1, rest), Removed1);
      LogAppend(Emit(s, sched[0]), Trace(s1, rest), Delivered1);
    }
  }

  /** Through a waiting pipeline with one producer, as long as it is open, the items delivered followed by
      those held are exactly the items the producer called put_pipeline with, in order, but for the one it
      is still waiting to push. */
  lemma SoleProducerFifo(threads: set<Tid>, size: nat, sched: seq<Step>, p: Tid)
    requires size > 0 && p in threads && Runs(Init(threads, size, WAIT), sched) && SoleProducer(sched, p)
    requires !Exec(Init(threads, size, WAIT), sched).closed
    ensures var init := Init(threads, size, WAIT);
      var s, calls := Exec(init, sched), Puts(sched, p);
      && p in s.pcs && (Putting(s.pcs[p]) ==> calls != [])
      && Deliveries(Trace(init, sched)) + Contents(s.ring) ==
        if Putting(s.pcs[p]) then calls[..|calls| - 1] else calls
  {
    var init, roles := Init(threads, size, WAIT), Roles(Actors(sched), {p});
    InitInRoles(threads, size, WAIT, roles);
    assert CallsBy(sched, roles);
    RunOfSole(init, sched, roles, p);
    EveryCallServed(threads, size, WAIT, sched, p);
    AcceptedIsRemovedThenHeld(threads, size, WAIT, sched);
  }

  // One call at a time. A thread goes on alone: no other thread takes a step, and it calls nothing new.

  predicate IsCall(step: Step) {
    step.CallGet? || step.CallPut? || step.CallClose?
  }

  predicate Solo(sched: seq<Step>, t: Tid) {
    forall i :: 0 <= i < |sched| ==> sched[i].t == t && !IsCall(sched[i])
  }

  /** A thread that is idle makes the call; one that was woken is in the midst of it. */
  function Called(s: State, call: Step): State
    requires Ok(s.ring) && IsCall(call) && call.t in s.pcs
  {
    if s.pcs[call.t].Idle? then Apply(s, call) else s
  }

  ghost predicate Alone(s: State, t: Tid, s': State)
    requires Ok(s.ring)
  {
    exists sched :: Runs(s, sched) && Solo(sched, t) && Exec(s, sched) == s'
  }

  lemma Done(s: State, t: Tid)
    requires Ok(s.ring)
    ensures Alone(s, t, s)
  {
    assert Runs(s, []) && Solo([], t) && Exec(s, []) == s;
  }

  lemma Then(s: State, step: Step, s1: State, s': State)
    requires Ok(s.ring) && Enabled(s, step) && !IsCall(step)
    requires Apply(s, step) == s1 && Ok(s1.ring) && Alone(s1, step.t, s')
    ensures Alone(s, step.t, s')
  {
    var sched :| Runs(s1, sched) && Solo(sched, step.t) && Exec(s1, sched) == s';
    RunsOne(s, step);
    RunsThen(s, [step], sched);
    assert Solo([step] + sched, step.t);
  }

  /** From the lock to acting on the test of the flag. */
  lemma GetEnters(s: State, t: Tid, s': State)
    requires Ok(s.ring) && s.owner.Free? && !s.closed && t in s.pcs && (s.pcs[t].Idle? || s.pcs[t].GetWoken?)
    requires Alone(Inside(s, t, GetBody), t, s')
    ensures Alone(Called(s, CallGet(t)), t, s')
  {
    Then(Inside(s, t, GetCheck), Check(t), Inside(s, t, GetBody), s');
    if s.pcs[t].Idle? {
      Then(Goto(s, t, GetLock), Acquire(t), Inside(s, t, GetCheck), s');
    } else {
      Then(s, Acquire(t), Inside(s, t, GetCheck), s');
    }
  }

  lemma PutEnters(s: State, t: Tid, x: Item, s': State)
    requires Ok(s.ring) && s.owner.Free? && !s.closed && t in s.pcs && (s.pcs[t].Idle? || s.pcs[t] == PutWoken(x))
    requires Alone(Inside(s, t, PutBody(x)), t, s')
    ensures Alone(Called(s, CallPut(t, x)), t, s')
  {
    Then(Inside(s, t, PutCheck(x)), Check(t), Inside(s, t, PutBody(x)), s');
    if s.pcs[t].Idle? {
      Then(Goto(s, t, PutLock(x)), Acquire(t), Inside(s, t, PutCheck(x)), s');
    } else {
      Then(s, Acquire(t), Inside(s, t, PutCheck(x)), s');
    }
  }

  lemma Leaves(s: State, t: Tid)
    requires Ok(s.ring) && t in s.pcs
    ensures Alone(Inside(s, t, Leave), t, s.(owner := Free, pcs := s.pcs[t := Idle]))
  {
    var s' := s.(owner := Free, pcs := s.pcs[t := Idle]);
    Done(s', t);
    Then(Inside(s, t, Leave), Release(t), s', s');
  }

  /** A get called, or woken, on an open pipeline with the lock free takes the oldest item and returns, with
      a signal to the producers if the ring was full; on an empty ring it sleeps. */
  lemma GetAlone(s: State, t: Tid, woken: set<Tid>)
    requires Ok(s.ring) && s.owner.Free? && !s.closed && t in s.pcs && (s.pcs[t].Idle? || s.pcs[t].GetWoken?)
    requires if s.ring.count == s.ring.size then Wakes(woken, Putters(s)) else woken == {}
    ensures s.ring.count == 0 ==> Alone(Called(s, CallGet(t)), t, Goto(s, t, GetAsleep))
    ensures s.ring.count > 0 ==>
      && Alone(Called(s, CallGet(t)), t, Took(s, t, woken)) && Ok(Took(s, t, woken).ring)
      && Contents(Took(s, t, woken).ring) == Contents(s.ring)[1..]
  {
    if s.ring.count == 0 {
      Done(Goto(s, t, GetAsleep), t);
      Then(Inside(s, t, GetBody), Body(t), Goto(s, t, GetAsleep), Goto(s, t, GetAsleep));
      GetEnters(s, t, Goto(s, t, GetAsleep));
    } else {
      PopTakesOldest(s.ring);
      TakeAlone(s, t, woken);
      GetEnters(s, t, Took(s, t, woken));
    }
  }

  lemma TakeAlone(s: State, t: Tid, woken: set<Tid>)
    requires Ok(s.ring) && s.owner.Free? && t in s.pcs && s.ring.count > 0 && !s.pcs[t].PutAsleep?
    requires if s.ring.count == s.ring.size then Wakes(woken, Putters(s)) else woken == {}
    ensures Ok(Pop(s.ring)) && Alone(Inside(s, t, GetBody), t, Took(s, t, woken))
  {
    PopTakesOldest(s.ring);
    var s' := Took(s, t, woken);
    var left := Inside(s', t, Leave);
    Leaves(s', t);
    assert s'.(owner := Free, pcs := s'.pcs[t := Idle]) == s';
    if s.ring.count == s.ring.size {
      var due := Inside(s, t, GetSignal).(ring := Pop(s.ring));
      assert Putters(due) == Putters(s);
      assert Wake(due.pcs, woken)[t := Leave] == left.pcs;
      Then(due, Signal(t, woken), left, s');
      Then(Inside(s, t, GetBody), Body(t), due, s');
    } else {
      assert Wake(s.pcs, {}) == s.pcs;
      Then(Inside(s, t, GetBody), Body(t), left, s');
    }
  }

  lemma GiveAlone(s: State, t: Tid, x: Item, woken: set<Tid>)
    requires Ok(s.ring) && s.owner.Free? && t in s.pcs && s.ring.count < s.ring.size && !s.pcs[t].GetAsleep?
    requires if s.ring.count == 0 then Wakes(woken, Getters(s)) else woken == {}
    ensures Ok(Push(s.ring, x)) && Alone(Inside(s, t, PutBody(x)), t, Gave(s, t, x, woken))
  {
    PushAppends(s.ring, x);
    var s' := Gave(s, t, x, woken);
    var left := Inside(s', t, Leave);
    Leaves(s', t);
    assert s'.(owner := Free, pcs := s'.pcs[t := Idle]) == s';
    if s.ring.count == 0 {
      var due := Inside(s, t, PutSignal).(ring := Push(s.ring, x));
      assert Getters(due) == Getters(s);
      assert Wake(due.pcs, woken)[t := Leave] == left.pcs;
      Then(due, Signal(t, woken), left, s');
      Then(Inside(s, t, PutBody(x)), Body(t), due, s');
    } else {
      assert Wake(s.pcs, {}) == s.pcs;
      Then(Inside(s, t, PutBody(x)), Body(t), left, s');
    }
  }

  /** The ring into which a put pushes: on a full one that drops, the oldest item has gone. */
  function Cleared(s: State): State
    requires Ok(s.ring)
  {
    if s.ring.count == s.ring.size && s.policy.DROP? then s.(ring := Discard(s.ring)) else s
  }

  /** A put called, or woken, on an open pipeline with the lock free appends its item and returns, with a
      signal to the consumers if the ring was empty; on a full ring it sleeps, or drops the oldest item for
      its own. */
  lemma PutAlone(s: State, t: Tid, x: Item, woken: set<Tid>)
    requires Ok(s.ring) && s.owner.Free? && !s.closed && t in s.pcs && (s.pcs[t].Idle? || s.pcs[t] == PutWoken(x))
    requires if Cleared(s).ring.count == 0 then Wakes(woken, Getters(s)) else woken == {}
    ensures s.ring.count == s.ring.size && s.policy.WAIT? ==>
      Alone(Called(s, CallPut(t, x)), t, Goto(s, t, PutAsleep(x)))
    ensures s.ring.count < s.ring.size || s.policy.DROP? ==>
      && Ok(Cleared(s).ring)
      && var s' := Gave(Cleared(s), t, x, woken);
        && Alone(Called(s, CallPut(t, x)), t, s') && Ok(s'.ring)
        && Contents(s'.ring) ==
          (if s.ring.count < s.ring.size then Contents(s.ring) else Contents(s.ring)[1..]) + [x]
  {
    if s.ring.count < s.ring.size {
      PushAppends(s.ring, x);
      GiveAlone(s, t, x, woken);
      PutEnters(s, t, x, Gave(s, t, x, woken));
    } else if s.policy.WAIT? {
      Done(Goto(s, t, PutAsleep(x)), t);
      Then(Inside(s, t, PutBody(x)), Body(t), Goto(s, t, PutAsleep(x)), Goto(s, t, PutAsleep(x)));
      PutEnters(s, t, x, Goto(s, t, PutAsleep(x)));
    } else {
      DropAlone(s, t, x, woken);
    }
  }

  lemma DropAlone(s: State, t: Tid, x: Item, woken: set<Tid>)
    requires Ok(s.ring) && s.owner.Free? && !s.closed && t in s.pcs && (s.pcs[t].Idle? || s.pcs[t] == PutWoken(x))
    requires s.ring.count == s.ring.size && s.policy.DROP?
    requires if s.ring.count == 1 then Wakes(woken, Getters(s)) else woken == {}
    ensures var dropped := s.(ring := Discard(s.ring));
      && Ok(dropped.ring) && Ok(Push(dropped.ring, x))
      && Alone(Called(s, CallPut(t, x)), t, Gave(dropped, t, x, woken))
      && Contents(Push(dropped.ring, x)) == Contents(s.ring)[1..] + [x]
  {
    PopTakesOldest(s.ring);
    var dropped := s.(ring := Discard(s.ring));
    PushAppends(dropped.ring, x);
    assert Getters(dropped) == Getters(s);
    GiveAlone(dropped, t, x, woken);
    var s' := Gave(dropped, t, x, woken);
    Then(Inside(dropped, t, PutCheck(x)), Check(t), Inside(dropped, t, PutBody(x)), s');
    Then(Inside(s, t, PutBody(x)), Body(t), Inside(dropped, t, PutCheck(x)), s');
    PutEnters(s, t, x, s');
  }

  /** On a closed pipeline a get returns and changes nothing. */
  lemma ClosedGetAlone(s: State, t: Tid)
    requires Ok(s.ring) && s.owner.Free? && s.closed && t in s.pcs && (s.pcs[t].Idle? || s.pcs[t].GetWoken?)
    ensures Alone(Called(s, CallGet(t)), t, Goto(s, t, Idle))
  {
    var s' := Goto(s, t, Idle);
    Leaves(s, t);
    assert s.(owner := Free, pcs := s.pcs[t := Idle]) == s';
    Then(Inside(s, t, GetCheck), Check(t), Inside(s, t, Leave), s');
    Then(Called(s, CallGet(t)), Acquire(t), Inside(s, t, GetCheck), s');
  }

  /** And a put is refused. */
  lemma ClosedPutAlone(s: State, t: Tid, x: Item)
    requires Ok(s.ring) && s.owner.Free? && s.closed && t in s.pcs && (s.pcs[t].Idle? || s.pcs[t] == PutWoken(x))
    ensures Alone(Called(s, CallPut(t, x)), t, Goto(s, t, Idle))
  {
    var s' := Goto(s, t, Idle);
    Leaves(s, t);
    assert s.(owner := Free, pcs := s.pcs[t := Idle]) == s';
    Then(Inside(s, t, PutCheck(x)), Check(t), Inside(s, t, Leave), s');
    Then(Called(s, CallPut(t, x)), Acquire(t), Inside(s, t, PutCheck(x)), s');
  }

  /** Everybody asleep woken. */
  function AllWoken(pcs: map<Tid, Pc>): map<Tid, Pc> {
    map t | t in pcs :: Woken(pcs[t])
  }

  lemma {:induction false} DrainAlone(s: State, t: Tid) returns (r: Ring)
    requires Ok(s.ring) && t in s.pcs && s.pcs[t].Draining?
    ensures Ok(r) && r.count == 0
    ensures Alone(s, t, Goto(s, t, Idle).(ring := r, owner := Free))
    decreases s.ring.count
  {
    if s.ring.count == 0 {
      r := s.ring;
      Done(Goto(s, t, Idle).(owner := Free), t);
      Then(s, Drain(t), Goto(s, t, Idle).(owner := Free), Goto(s, t, Idle).(ring := r, owner := Free));
    } else {
      PopTakesOldest(s.ring);
      var s1 := s.(ring := Discard(s.ring));
      r := DrainAlone(s1, t);
      Then(s, Drain(t), s1, Goto(s, t, Idle).(ring := r, owner := Free));
    }
  }

  /** A close called on an open pipeline with the lock free sets the flag, wakes every sleeper and empties
      the ring. */
  lemma CloseAlone(s: State, t: Tid) returns (r: Ring)
    requires Ok(s.ring) && s.owner.Free? && t in s.pcs && s.pcs[t].Idle? && !s.closed
    ensures Ok(r) && r.count == 0
    ensures Alone(Called(s, CallClose(t)), t, s.(ring := r, closed := true, pcs := AllWoken(s.pcs)))
  {
    var s1 := Goto(s, t, CloseWakeInput).(closed := true);
    var s3 := s1.(pcs := AllWoken(s.pcs)[t := CloseLock]);
    r := FinishAlone(s3, t);
    var s' := s.(ring := r, closed := true, pcs := AllWoken(s.pcs));
    assert s3.pcs[t := Idle] == s'.pcs;
    WakesAlone(s, s1, s3, t, s');
    Then(Goto(s, t, CloseExchange), Exchange(t), s1, s');
  }

  lemma FinishAlone(s: State, t: Tid) returns (r: Ring)
    requires Ok(s.ring) && s.owner.Free? && t in s.pcs && s.pcs[t].CloseLock?
    ensures Ok(r) && r.count == 0 && Alone(s, t, s.(ring := r, pcs := s.pcs[t := Idle]))
  {
    var s1 := s.(owner := Held(t), pcs := s.pcs[t := Draining]);
    r := DrainAlone(s1, t);
    var s' := s.(ring := r, pcs := s.pcs[t := Idle]);
    assert s1.pcs[t := Idle] == s'.pcs;
    Then(s, Acquire(t), s1, s');
  }

  /** A close of a closed pipeline does nothing. */
  lemma CloseAgainAlone(s: State, t: Tid)
    requires Ok(s.ring) && t in s.pcs && s.pcs[t].Idle? && s.closed
    ensures Alone(Called(s, CallClose(t)), t, s)
  {
    Done(s, t);
    Then(Goto(s, t, CloseExchange), Exchange(t), s, s);
  }

  lemma WakesAlone(s: State, s1: State, s3: State, t: Tid, s': State)
    requires Ok(s.ring) && t in s.pcs && s.pcs[t].Idle? && s1 == Goto(s, t, CloseWakeInput).(closed := true)
    requires s3 == s1.(pcs := AllWoken(s.pcs)[t := CloseLock]) && Alone(s3, t, s')
    ensures Alone(s1, t, s')
  {
    var s2 := Apply(s1, Broadcast(t));
    assert Apply(s2, Broadcast(t)).pcs == s3.pcs;
    Then(s2, Broadcast(t), s3, s');
    Then(s1, Broadcast(t), s2, s');
  }
}
