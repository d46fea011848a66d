/** The pipeline of src/pipeline.c as a step system over any number of threads.

  Every thread is a program counter; the shared state is the ring, the mutex owner and the `closed`
  flag. `closed` is written outside the lock, so testing it and acting on the answer are separate
  steps, and so are a push or pop and the signal that may follow it. A condition variable is the set
  of threads asleep on it.
 */
module Pipeline {
  import opened Sequences
  import opened RingStore
  import opened Threads

  datatype Policy = WAIT | DROP

  datatype Pc =
    | Idle
    | GetLock | GetCheck | GetBody | GetAsleep | GetWoken | GetSignal
    | PutLock(x: Item) | PutCheck(x: Item) | PutBody(x: Item) | PutAsleep(x: Item) | PutWoken(x: Item) | PutSignal
    | Leave
    | CloseExchange | CloseWakeInput | CloseWakeOutput | CloseLock | Draining

  datatype State = State(policy: Policy, ring: Ring, closed: bool, owner: Owner, pcs: map<Tid, Pc>)

  datatype Step =
    | CallGet(t: Tid)
    | CallPut(t: Tid, item: Item)
    | CallClose(t: Tid)
    | Acquire(t: Tid)
    | Check(t: Tid)
    | Body(t: Tid)
    | Signal(t: Tid, woken: set<Tid>)
    | Release(t: Tid)
    | Spurious(t: Tid)
    | Exchange(t: Tid)
    | Broadcast(t: Tid)
    | Drain(t: Tid)

  /** What a step shows to the outside. A non-NULL item Dropped or Drained is passed to `free`. */
  datatype Event = Accepted(x: Item) | Delivered(x: Item) | Dropped(x: Item) | Drained(x: Item) | Finished

  function Init(threads: set<Tid>, size: nat, policy: Policy): State {
    State(policy, Empty(size), false, Free, map t | t in threads :: Idle)
  }

  predicate AsleepGet(s: State, t: Tid) {
    t in s.pcs && s.pcs[t].GetAsleep?
  }

  predicate AsleepPut(s: State, t: Tid) {
    t in s.pcs && s.pcs[t].PutAsleep?
  }

  function Getters(s: State): set<Tid> {
    set t | t in s.pcs && AsleepGet(s, t)
  }

  function Putters(s: State): set<Tid> {
    set t | t in s.pcs && AsleepPut(s, t)
  }

  function Woken(pc: Pc): Pc {
    if pc.GetAsleep? then GetWoken else if pc.PutAsleep? then PutWoken(pc.x) else pc
  }

  function Wake(pcs: map<Tid, Pc>, who: set<Tid>): map<Tid, Pc> {
    map t | t in pcs :: if t in who then Woken(pcs[t]) else pcs[t]
  }

  predicate Enabled(s: State, step: Step)
    requires Ok(s.ring)
  {
    step.t in s.pcs &&
    var pc := s.pcs[step.t];
    match step
    case CallGet(_) => pc.Idle?
    case CallPut(_, _) => pc.Idle?
    case CallClose(_) => pc.Idle?
    case Acquire(_) => s.owner.Free? && (pc.GetLock? || pc.GetWoken? || pc.PutLock? || pc.PutWoken? || pc.CloseLock?)
    case Check(_) => pc.GetCheck? || pc.PutCheck?
    case Body(_) => pc.GetBody? || pc.PutBody?
    case Signal(_, woken) =>
      || (pc.PutSignal? && Wakes(woken, Getters(s)))
      || (pc.GetSignal? && Wakes(woken, Putters(s)))
    case Release(_) => pc.Leave?
    case Spurious(_) => pc.GetAsleep? || pc.PutAsleep?
    case Exchange(_) => pc.CloseExchange?
    case Broadcast(_) => pc.CloseWakeInput? || pc.CloseWakeOutput?
    case Drain(_) => pc.Draining?
  }

  function Goto(s: State, t: Tid, pc: Pc): State {
    s.(pcs := s.pcs[t := pc])
  }

  /** src/pipeline.c:50-67 past the closed test: take the head or go to sleep. */
  function GetStep(s: State, t: Tid): State
    requires Ok(s.ring)
  {
    if s.ring.count > 0 then
      Goto(s, t, if s.ring.count == s.ring.size then GetSignal else Leave).(ring := Pop(s.ring))
    else
      Goto(s, t, GetAsleep).(owner := Free)
  }

  /** src/pipeline.c:74-98 past the closed test: push, go to sleep, or drop the oldest and retest. */
  function PutStep(s: State, t: Tid, x: Item): State
    requires Ok(s.ring)
  {
    if s.ring.count < s.ring.size then
      Goto(s, t, if s.ring.count == 0 then PutSignal else Leave).(ring := Push(s.ring, x))
    else if s.policy.WAIT? then
      Goto(s, t, PutAsleep(x)).(owner := Free)
    else
      Goto(s, t, PutCheck(x)).(ring := Discard(s.ring))
  }

  function Apply(s: State, step: Step): State
    requires Ok(s.ring) && Enabled(s, step)
  {
    var t := step.t;
    var pc := s.pcs[t];
    match step
    case CallGet(_) => Goto(s, t, GetLock)
    case CallPut(_, x) => Goto(s, t, PutLock(x))
    case CallClose(_) => Goto(s, t, CloseExchange)
    case Acquire(_) =>
      Goto(s, t, match pc
                 case GetLock => GetCheck
                 case GetWoken => GetCheck
                 case PutLock(x) => PutCheck(x)
                 case PutWoken(x) => PutCheck(x)
                 case _ => Draining).(owner := Held(t))
    case Check(_) =>
      Goto(s, t, if s.closed then Leave else if pc.GetCheck? then GetBody else PutBody(pc.x))
    case Body(_) => if pc.GetBody? then GetStep(s, t) else PutStep(s, t, pc.x)
    case Signal(_, woken) => s.(pcs := Wake(s.pcs, woken)[t := Leave])
    case Release(_) => Goto(s, t, Idle).(owner := Free)
    case Spurious(_) => Goto(s, t, Woken(pc))
    case Exchange(_) => Goto(s, t, if s.closed then Idle else CloseWakeInput).(closed := true)
    case Broadcast(_) =>
      if pc.CloseWakeInput? then s.(pcs := Wake(s.pcs, Putters(s))[t := CloseWakeOutput])
      else s.(pcs := Wake(s.pcs, Getters(s))[t := CloseLock])
    case Drain(_) =>
      if s.ring.count > 0 then s.(ring := Discard(s.ring))
      else Goto(s, t, Idle).(owner := Free)
  }

  function Emit(s: State, step: Step): seq<Event>
    requires Ok(s.ring) && Enabled(s, step)
  {
    var r := s.ring;
    match step
    case Body(t) =>
      if s.pcs[t].GetBody? then
        if r.count > 0 then [Delivered(r.buf[r.head])] else []
      else if r.count < r.size then [Accepted(s.pcs[t].x)]
      else if s.policy.WAIT? then []
      else [Dropped(r.buf[r.head])]
    case Drain(_) => if r.count > 0 then [Drained(r.buf[r.head])] else [Finished]
    case _ => []
  }

  lemma StepKeepsRing(s: State, step: Step)
    requires Ok(s.ring) && Enabled(s, step)
    ensures Ok(Apply(s, step).ring) && Apply(s, step).ring.size == s.ring.size
    ensures Contents(s.ring) + Accepts(Emit(s, step)) == Removals(Emit(s, step)) + Contents(Apply(s, step).ring)
  {
    if s.ring.count > 0 {
      PopTakesOldest(s.ring);
    }
    if s.ring.count < s.ring.size && step.Body? && s.pcs[step.t].PutBody? {
      PushAppends(s.ring, s.pcs[step.t].x);
    }
    var events := Emit(s, step);
    assert |events| <= 1;
    if events != [] {
      assert events == [events[0]];
      LogOne(events[0], Accepted1);
      LogOne(events[0], Removed1);
    }
  }

  // Runs. A schedule is any sequence of steps, each enabled when its turn comes.

  ghost predicate Runs(s: State, sched: seq<Step>)
    requires Ok(s.ring)
    decreases |sched|
  {
    sched != [] ==>
      Enabled(s, sched[0]) && (StepKeepsRing(s, sched[0]); Runs(Apply(s, sched[0]), sched[1..]))
  }

  ghost function Exec(s: State, sched: seq<Step>): (s': State)
    requires Ok(s.ring) && Runs(s, sched)
    ensures Ok(s'.ring) && s'.ring.size == s.ring.size
    decreases |sched|
  {
    if sched == [] then s else (StepKeepsRing(s, sched[0]); Exec(Apply(s, sched[0]), sched[1..]))
  }

  ghost function Trace(s: State, sched: seq<Step>): seq<Event>
    requires Ok(s.ring) && Runs(s, sched)
    decreases |sched|
  {
    if sched == [] then []
    else (StepKeepsRing(s, sched[0]); Emit(s, sched[0]) + Trace(Apply(s, sched[0]), sched[1..]))
  }

  // What a trace says happened to the items.

  function Accepted1(e: Event): seq<Item> { if e.Accepted? then [e.x] else [] }
  function Removed1(e: Event): seq<Item> { if e.Accepted? || e.Finished? then [] else [e.x] }
  function Delivered1(e: Event): seq<Item> { if e.Delivered? then [e.x] else [] }
  function Freed1(e: Event): seq<Item> { if (e.Dropped? || e.Drained?) && e.x != NULL then [e.x] else [] }

  function Log(events: seq<Event>, pick: Event -> seq<Item>): seq<Item> {
    if events == [] then [] else pick(events[0]) + Log(events[1..], pick)
  }

  function Accepts(events: seq<Event>): seq<Item> { Log(events, Accepted1) }

  /** The items taken from the head, whatever became of them. */
  function Removals(events: seq<Event>): seq<Item> { Log(events, Removed1) }

  function Deliveries(events: seq<Event>): seq<Item> { Log(events, Delivered1) }

  /** The arguments of the calls of `free`. */
  function Frees(events: seq<Event>): seq<Item> { Log(events, Freed1) }

  lemma LogOne(e: Event, pick: Event -> seq<Item>)
    ensures Log([e], pick) == pick(e)
  {
    assert Log([e], pick) == pick(e) + Log([], pick);
  }

  lemma {:induction false} LogAppend(a: seq<Event>, b: seq<Event>, pick: Event -> seq<Item>)
    ensures Log(a + b, pick) == Log(a, pick) + Log(b, pick)
  {
    if a == [] {
      assert a + b == b;
    } else {
      LogAppend(a[1..], b, pick);
      assert (a + b)[1..] == a[1..] + b;
    }
  }

  // Conservation

  lemma {:induction false} RunConserves(s: State, sched: seq<Step>)
    requires Ok(s.ring) && Runs(s, sched)
    ensures Contents(s.ring) + Accepts(Trace(s, sched)) == Removals(Trace(s, sched)) + Contents(Exec(s, sched).ring)
    decreases |sched|
  {
    if sched != [] {
      StepKeepsRing(s, sched[0]);
      var s1 := Apply(s, sched[0]);
      RunConserves(s1, sched[1..]);
      JoinConserved(Emit(s, sched[0]), Trace(s1, sched[1..]),
                    Contents(s.ring), Contents(s1.ring), Contents(Exec(s, sched).ring));
    }
  }

  /** Two stretches of a run that each balance, balance together. */
  lemma JoinConserved(first: seq<Event>, rest: seq<Event>, c0: seq<Item>, c1: seq<Item>, c2: seq<Item>)
    requires c0 + Accepts(first) == Removals(first) + c1
    requires c1 + Accepts(rest) == Removals(rest) + c2
    ensures c0 + Accepts(first + rest) == Removals(first + rest) + c2
  {
    LogAppend(first, rest, Accepted1);
    LogAppend(first, rest, Removed1);
    BalancesJoin(c0, Accepts(first), Accepts(rest), Removals(first), Removals(rest), c1, c2);
  }

  lemma BalancesJoin(c0: seq<Item>, a1: seq<Item>, a2: seq<Item>,
                     r1: seq<Item>, r2: seq<Item>, c1: seq<Item>, c2: seq<Item>)
    requires c0 + a1 == r1 + c1 && c1 + a2 == r2 + c2
    ensures c0 + (a1 + a2) == (r1 + r2) + c2
  {
    Associative(c0, a1, a2);
    Associative(r1, c1, a2);
    Associative(r1, r2, c2);
  }

  /** Every item accepted is removed from the head exactly once or still held, in the order accepted. */
  lemma AcceptedIsRemovedThenHeld(threads: set<Tid>, size: nat, policy: Policy, sched: seq<Step>)
    requires size > 0 && Runs(Init(threads, size, policy), sched)
    ensures var s := Init(threads, size, policy);
      Accepts(Trace(s, sched)) == Removals(Trace(s, sched)) + Contents(Exec(s, sched).ring)
  {
    var s := Init(threads, size, policy);
    EmptyHoldsNothing(size);
    RunConserves(s, sched);
    assert Contents(s.ring) + Accepts(Trace(s, sched)) == Accepts(Trace(s, sched));
  }

  /** `a` can be had from `b` by leaving items out. */
  predicate Subsequence(a: seq<Item>, b: seq<Item>) {
    a == [] || (b != [] && ((a[0] == b[0] && Subsequence(a[1..], b[1..])) || Subsequence(a, b[1..])))
  }

  lemma {:induction false} SubsequenceOfPrefix(a: seq<Item>, b: seq<Item>, c: seq<Item>)
    requires Subsequence(a, b)
    ensures Subsequence(a, b + c)
    decreases |b|
  {
    if a != [] {
      assert (b + c)[1..] == b[1..] + c;
      if a[0] == b[0] && Subsequence(a[1..], b[1..]) {
        SubsequenceOfPrefix(a[1..], b[1..], c);
      } else {
        SubsequenceOfPrefix(a, b[1..], c);
      }
    }
  }

  lemma {:induction false} DeliveriesAmongRemovals(events: seq<Event>)
    ensures Subsequence(Deliveries(events), Removals(events))
  {
    if events != [] {
      DeliveriesAmongRemovals(events[1..]);
      var e := events[0];
      if e.Delivered? {
        assert Deliveries(events) == [e.x] + Deliveries(events[1..]);
        assert Removals(events) == [e.x] + Removals(events[1..]);
      } else if e.Dropped? || e.Drained? {
        assert Removals(events)[1..] == Removals(events[1..]);
        assert Deliveries(events) == Deliveries(events[1..]);
      } else {
        assert Removals(events) == Removals(events[1..]);
        assert Deliveries(events) == Deliveries(events[1..]);
      }
    }
  }

  /** Consumers receive items in the order in which producers had them accepted. */
  lemma DeliveredInOrder(threads: set<Tid>, size: nat, policy: Policy, sched: seq<Step>)
    requires size > 0 && Runs(Init(threads, size, policy), sched)
    ensures var events := Trace(Init(threads, size, policy), sched);
      Subsequence(Deliveries(events), Accepts(events))
  {
    var s := Init(threads, size, policy);
    AcceptedIsRemovedThenHeld(threads, size, policy, sched);
    DeliveriesAmongRemovals(Trace(s, sched));
    SubsequenceOfPrefix(Deliveries(Trace(s, sched)), Removals(Trace(s, sched)), Contents(Exec(s, sched).ring));
  }

  lemma {:induction false} RemovalIsDeliveryOrFree(events: seq<Event>, x: Item)
    requires x != NULL
    ensures multiset(Removals(events))[x] == multiset(Deliveries(events))[x] + multiset(Frees(events))[x]
  {
    if events != [] {
      RemovalIsDeliveryOrFree(events[1..], x);
    }
  }

  /** A pointer accepted n times is handed to consumers, freed, or held n times in all; so one accepted
      once is never both delivered and freed, nor freed twice. */
  lemma DeliveredOrFreedOnce(threads: set<Tid>, size: nat, policy: Policy, sched: seq<Step>, x: Item)
    requires size > 0 && Runs(Init(threads, size, policy), sched) && x != NULL
    ensures var s := Init(threads, size, policy);
      var events := Trace(s, sched);
      multiset(Accepts(events))[x] ==
        multiset(Deliveries(events))[x] + multiset(Frees(events))[x] + multiset(Contents(Exec(s, sched).ring))[x]
  {
    var s := Init(threads, size, policy);
    AcceptedIsRemovedThenHeld(threads, size, policy, sched);
    RemovalIsDeliveryOrFree(Trace(s, sched), x);
  }
}
