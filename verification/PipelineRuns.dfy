/** Runs of a pipeline whose threads keep to roles, and what one call can come to when its thread runs
  undisturbed. The lemmas build the runs that show a state to be reachable.
 */
module PipelineRuns {
  import opened RingStore
  import opened Threads
  import opened Pipeline

  /** Who calls get_pipeline and who calls put_pipeline; a thread may do both, and anyone may close. */
  datatype Roles = Roles(gets: set<Tid>, puts: set<Tid>)

  predicate Permits(roles: Roles, step: Step) {
    (step.CallGet? ==> step.t in roles.gets) && (step.CallPut? ==> step.t in roles.puts)
  }

  predicate CallsBy(sched: seq<Step>, roles: Roles) {
    forall i :: 0 <= i < |sched| ==> Permits(roles, sched[i])
  }

  ghost predicate Reachable(init: State, roles: Roles, s: State)
    requires Ok(init.ring)
  {
    exists sched :: Runs(init, sched) && CallsBy(sched, roles) && Exec(init, sched) == s
  }

  lemma {:induction false} RunsThen(s: State, a: seq<Step>, b: seq<Step>)
    requires Ok(s.ring) && Runs(s, a) && Runs(Exec(s, a), b)
    ensures Runs(s, a + b) && Exec(s, a + b) == Exec(Exec(s, a), b)
    decreases |a|
  {
    if a == [] {
      assert a + b == b;
    } else {
      StepKeepsRing(s, a[0]);
      RunsThen(Apply(s, a[0]), a[1..], b);
      assert (a + b)[1..] == a[1..] + b;
    }
  }

  lemma RunsOne(s: State, step: Step)
    requires Ok(s.ring) && Enabled(s, step)
    ensures Ok(Apply(s, step).ring) && Runs(s, [step]) && Exec(s, [step]) == Apply(s, step)
  {
    StepKeepsRing(s, step);
    assert [step][1..] == [];
    assert Runs(Apply(s, step), []);
  }

  lemma Hop(init: State, roles: Roles, step: Step, s: State, s': State)
    requires Ok(init.ring) && Reachable(init, roles, s)
    requires Ok(s.ring) && Enabled(s, step) && Permits(roles, step) && Apply(s, step) == s'
    ensures Ok(s'.ring) && Reachable(init, roles, s')
  {
    var sched :| Runs(init, sched) && CallsBy(sched, roles) && Exec(init, sched) == s;
    RunsOne(s, step);
    RunsThen(init, sched, [step]);
    assert CallsBy(sched + [step], roles);
  }

  lemma ReachInit(init: State, roles: Roles)
    requires Ok(init.ring)
    ensures Reachable(init, roles, init)
  {
    assert Runs(init, []) && CallsBy([], roles) && Exec(init, []) == init;
  }

  /** A reachable state of the open pipeline with the lock free. */
  ghost predicate At(init: State, roles: Roles, s: State) {
    Ok(init.ring) && Reachable(init, roles, s) && Ok(s.ring) && s.owner.Free? && !s.closed
  }

  /** The state with one thread moved and the lock in its hands. */
  function Inside(s: State, t: Tid, pc: Pc): State {
    s.(owner := Held(t), pcs := s.pcs[t := pc])
  }

  // Gets

  predicate MayGet(s: State, roles: Roles, t: Tid) {
    t in s.pcs && ((s.pcs[t].Idle? && t in roles.gets) || s.pcs[t].GetWoken?)
  }

  /** A consumer comes as far as acting on its test of the flag. */
  lemma GetReady(init: State, roles: Roles, s: State, t: Tid)
    requires At(init, roles, s) && MayGet(s, roles, t)
    ensures Reachable(init, roles, Inside(s, t, GetBody))
  {
    var s1 := if s.pcs[t].Idle? then Goto(s, t, GetLock) else s;
    if s.pcs[t].Idle? {
      Hop(init, roles, CallGet(t), s, s1);
    }
    Hop(init, roles, Acquire(t), s1, Inside(s, t, GetCheck));
    Hop(init, roles, Check(t), Inside(s, t, GetCheck), Inside(s, t, GetBody));
  }

  lemma GetSleeps(init: State, roles: Roles, s: State, t: Tid)
    requires At(init, roles, s) && MayGet(s, roles, t) && s.ring.count == 0
    ensures At(init, roles, Goto(s, t, GetAsleep))
  {
    GetReady(init, roles, s, t);
    Hop(init, roles, Body(t), Inside(s, t, GetBody), Goto(s, t, GetAsleep));
  }

  /** What is left when `t` has taken the oldest item and gone, a signal having woken `woken`. */
  function Took(s: State, t: Tid, woken: set<Tid>): State
    requires Ok(s.ring) && s.ring.count > 0
  {
    s.(ring := Pop(s.ring), pcs := Wake(s.pcs, woken)[t := Idle])
  }

  lemma Takes(init: State, roles: Roles, s: State, t: Tid, woken: set<Tid>)
    requires At(init, roles, s) && MayGet(s, roles, t) && s.ring.count > 0
    requires if s.ring.count == s.ring.size then Wakes(woken, Putters(s)) else woken == {}
    ensures At(init, roles, Took(s, t, woken))
  {
    GetReady(init, roles, s, t);
    TakesFromBody(init, roles, s, t, woken);
    Hop(init, roles, Release(t), Inside(Took(s, t, woken), t, Leave), Took(s, t, woken));
  }

  lemma TakesFromBody(init: State, roles: Roles, s: State, t: Tid, woken: set<Tid>)
    requires Ok(init.ring) && Ok(s.ring) && t in s.pcs && s.ring.count > 0
    requires !s.pcs[t].PutAsleep? && Reachable(init, roles, Inside(s, t, GetBody))
    requires if s.ring.count == s.ring.size then Wakes(woken, Putters(s)) else woken == {}
    ensures Ok(Pop(s.ring)) && Reachable(init, roles, Inside(Took(s, t, woken), t, Leave))
  {
    PopTakesOldest(s.ring);
    var body := Inside(s, t, GetBody);
    var left := Inside(Took(s, t, woken), t, Leave);
    if s.ring.count == s.ring.size {
      var due := Inside(s, t, GetSignal).(ring := Pop(s.ring));
      Hop(init, roles, Body(t), body, due);
      assert Putters(due) == Putters(s);
      assert Wake(due.pcs, woken)[t := Leave] == left.pcs;
      Hop(init, roles, Signal(t, woken), due, left);
    } else {
      assert Wake(s.pcs, {}) == s.pcs;
      Hop(init, roles, Body(t), body, left);
    }
  }

  // Puts

  predicate MayPut(s: State, roles: Roles, t: Tid, x: Item) {
    t in s.pcs && ((s.pcs[t].Idle? && t in roles.puts) || s.pcs[t] == PutWoken(x))
  }

  /** A producer comes as far as acting on its test of the flag. */
  lemma PutReady(init: State, roles: Roles, s: State, t: Tid, x: Item)
    requires At(init, roles, s) && MayPut(s, roles, t, x)
    ensures Reachable(init, roles, Inside(s, t, PutBody(x)))
  {
    var s1 := if s.pcs[t].Idle? then Goto(s, t, PutLock(x)) else s;
    if s.pcs[t].Idle? {
      Hop(init, roles, CallPut(t, x), s, s1);
    }
    Hop(init, roles, Acquire(t), s1, Inside(s, t, PutCheck(x)));
    Hop(init, roles, Check(t), Inside(s, t, PutCheck(x)), Inside(s, t, PutBody(x)));
  }

  lemma PutSleeps(init: State, roles: Roles, s: State, t: Tid, x: Item)
    requires At(init, roles, s) && MayPut(s, roles, t, x) && s.ring.count == s.ring.size && s.policy.WAIT?
    ensures At(init, roles, Goto(s, t, PutAsleep(x)))
  {
    PutReady(init, roles, s, t, x);
    Hop(init, roles, Body(t), Inside(s, t, PutBody(x)), Goto(s, t, PutAsleep(x)));
  }

  /** What is left when `t` has put its item and gone, a signal having woken `woken`. */
  function Gave(s: State, t: Tid, x: Item, woken: set<Tid>): State
    requires Ok(s.ring) && s.ring.count < s.ring.size
  {
    s.(ring := Push(s.ring, x), pcs := Wake(s.pcs, woken)[t := Idle])
  }

  lemma Gives(init: State, roles: Roles, s: State, t: Tid, x: Item, woken: set<Tid>)
    requires At(init, roles, s) && MayPut(s, roles, t, x) && s.ring.count < s.ring.size
    requires if s.ring.count == 0 then Wakes(woken, Getters(s)) else woken == {}
    ensures At(init, roles, Gave(s, t, x, woken))
  {
    PutReady(init, roles, s, t, x);
    GivesFromBody(init, roles, s, t, x, woken);
    Hop(init, roles, Release(t), Inside(Gave(s, t, x, woken), t, Leave), Gave(s, t, x, woken));
  }

  lemma GivesFromBody(init: State, roles: Roles, s: State, t: Tid, x: Item, woken: set<Tid>)
    requires Ok(init.ring) && Ok(s.ring) && t in s.pcs && s.ring.count < s.ring.size
    requires !s.pcs[t].GetAsleep? && Reachable(init, roles, Inside(s, t, PutBody(x)))
    requires if s.ring.count == 0 then Wakes(woken, Getters(s)) else woken == {}
    ensures Ok(Push(s.ring, x)) && Reachable(init, roles, Inside(Gave(s, t, x, woken), t, Leave))
  {
    PushAppends(s.ring, x);
    var body := Inside(s, t, PutBody(x));
    var left := Inside(Gave(s, t, x, woken), t, Leave);
    if s.ring.count == 0 {
      var due := Inside(s, t, PutSignal).(ring := Push(s.ring, x));
      Hop(init, roles, Body(t), body, due);
      assert Getters(due) == Getters(s);
      assert Wake(due.pcs, woken)[t := Leave] == left.pcs;
      Hop(init, roles, Signal(t, woken), due, left);
    } else {
      assert Wake(s.pcs, {}) == s.pcs;
      Hop(init, roles, Body(t), body, left);
    }
  }

  /** An idle producer fills the ring while no consumer sleeps. */
  lemma {:induction false} Fills(init: State, roles: Roles, s: State, t: Tid) returns (r: Ring)
    requires At(init, roles, s) && t in s.pcs && s.pcs[t].Idle? && t in roles.puts && Getters(s) == {}
    ensures At(init, roles, s.(ring := r)) && r.count == r.size == s.ring.size
    decreases s.ring.size - s.ring.count
  {
    if s.ring.count == s.ring.size {
      return s.ring;
    }
    Gives(init, roles, s, t, 0, {});
    var s1 := Gave(s, t, 0, {});
    assert s1.pcs == s.pcs;
    assert Getters(s1) == Getters(s);
    r := Fills(init, roles, s1, t);
    assert s1.(ring := r) == s.(ring := r);
  }
}
