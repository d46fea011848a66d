/** Wakeups of an open pipeline. Consumers are signalled only when the ring stops being empty, producers
  only when it stops being full. That serves every sleeper exactly when no signal can find two of them
  to choose from, or the ring has room for one item only.
 */
module PipelineWakeups {
  import opened RingStore
  import opened Threads
  import opened Pipeline
  import opened PipelineClose
  import opened PipelineRuns

  predicate GetPc(pc: Pc) {
    pc.GetLock? || pc.GetCheck? || pc.GetBody? || pc.GetAsleep? || pc.GetWoken? || pc.GetSignal?
  }

  predicate PutPc(pc: Pc) {
    pc.PutLock? || pc.PutCheck? || pc.PutBody? || pc.PutAsleep? || pc.PutWoken? || pc.PutSignal?
  }

  predicate OutputSignalDue(s: State) {
    exists p :: p in s.pcs && s.pcs[p].PutSignal?
  }

  predicate InputSignalDue(s: State) {
    exists g :: g in s.pcs && s.pcs[g].GetSignal?
  }

  /** Mutual exclusion; every thread inside a call is one whose role it is; only WAIT puts producers to sleep. */
  ghost predicate InRoles(s: State, roles: Roles) {
    && Inv(s)
    && (forall t :: t in s.pcs && GetPc(s.pcs[t]) ==> t in roles.gets)
    && (forall t :: t in s.pcs && PutPc(s.pcs[t]) ==> t in roles.puts)
    && (forall t :: t in s.pcs && s.pcs[t].PutAsleep? ==> s.policy.WAIT?)
  }

  lemma OwnRoleKept(s: State, step: Step)
    requires Ok(s.ring) && Enabled(s, step)
    ensures GetPc(Apply(s, step).pcs[step.t]) ==> GetPc(s.pcs[step.t]) || step.CallGet?
    ensures PutPc(Apply(s, step).pcs[step.t]) ==> PutPc(s.pcs[step.t]) || step.CallPut?
  {
  }

  lemma RolesKept(s: State, step: Step, t: Tid)
    requires Ok(s.ring) && Enabled(s, step) && t in Apply(s, step).pcs
    ensures t in s.pcs && Apply(s, step).policy == s.policy
    ensures GetPc(Apply(s, step).pcs[t]) ==> GetPc(s.pcs[t]) || step == CallGet(t)
    ensures PutPc(Apply(s, step).pcs[t]) ==> PutPc(s.pcs[t]) || (step.CallPut? && step.t == t)
  {
    OwnRoleKept(s, step);
    StepOnOthers(s, step, t);
  }

  lemma OnlyWaitSleeps(s: State, step: Step, t: Tid)
    requires Ok(s.ring) && Enabled(s, step) && t in s.pcs
    ensures Apply(s, step).pcs[t].PutAsleep? ==> s.pcs[t].PutAsleep? || s.policy.WAIT?
  {
    StepOnOthers(s, step, t);
  }

  lemma StepKeepsRoles(s: State, step: Step, roles: Roles)
    requires InRoles(s, roles) && Enabled(s, step) && Permits(roles, step)
    ensures InRoles(Apply(s, step), roles)
  {
    StepKeepsInv(s, step);
    var s' := Apply(s, step);
    forall t | t in s'.pcs
      ensures GetPc(s'.pcs[t]) ==> t in roles.gets
      ensures PutPc(s'.pcs[t]) ==> t in roles.puts
      ensures s'.pcs[t].PutAsleep? ==> s'.policy.WAIT?
    {
      RolesKept(s, step, t);
      OnlyWaitSleeps(s, step, t);
    }
  }

  lemma InitInRoles(threads: set<Tid>, size: nat, policy: Policy, roles: Roles)
    requires size > 0
    ensures InRoles(Init(threads, size, policy), roles)
  {
    InitInv(threads, size, policy);
  }

  lemma {:induction false} RunKeepsRoles(s: State, sched: seq<Step>, roles: Roles)
    requires InRoles(s, roles) && Runs(s, sched) && CallsBy(sched, roles)
    ensures InRoles(Exec(s, sched), roles) && Exec(s, sched).policy == s.policy
    decreases |sched|
  {
    if sched != [] {
      StepKeepsRoles(s, sched[0], roles);
      RunKeepsRoles(Apply(s, sched[0]), sched[1..], roles);
    }
  }

  /** A signal due stays due until it is sent. */
  lemma SignalStaysDue(s: State, step: Step)
    requires Inv(s) && Enabled(s, step) && !step.Signal?
    ensures OutputSignalDue(s) ==> OutputSignalDue(Apply(s, step))
    ensures InputSignalDue(s) ==> InputSignalDue(Apply(s, step))
  {
    if OutputSignalDue(s) {
      var p :| p in s.pcs && s.pcs[p].PutSignal?;
      StepOnOthers(s, step, p);
      assert Apply(s, step).pcs[p].PutSignal?;
    }
    if InputSignalDue(s) {
      var g :| g in s.pcs && s.pcs[g].GetSignal?;
      StepOnOthers(s, step, g);
      assert Apply(s, step).pcs[g].GetSignal?;
    }
  }

  /** One or none: whoever is in such a set is all of it. */
  lemma Single(a: set<Tid>, b: set<Tid>, t: Tid)
    requires |b| <= 1 && a <= b && t in a
    ensures a == {t}
  {
    assert |b - {t}| == |b| - 1;
    assert b - {t} == {};
  }

  // Signals that cannot choose

  /** No producer's signal can find two consumers asleep. */
  ghost predicate OneToWakeForPut(roles: Roles) {
    forall p :: p in roles.puts ==> |roles.gets - {p}| <= 1
  }

  /** No consumer's signal can find two producers asleep. */
  ghost predicate OneToWakeForGet(roles: Roles) {
    forall g :: g in roles.gets ==> |roles.puts - {g}| <= 1
  }

  /** An unsignalled sleeping consumer has nothing to take, unless the producer that pushed is at its signal. */
  ghost predicate ConsumerServed(s: State, c: Tid) {
    !s.closed && AsleepGet(s, c) ==> s.ring.count == 0 || OutputSignalDue(s)
  }

  /** An unsignalled sleeping producer has no room, unless the consumer that made room is at its signal. */
  ghost predicate ProducerServed(s: State, p: Tid) {
    !s.closed && AsleepPut(s, p) ==> s.ring.count == s.ring.size || InputSignalDue(s)
  }

  lemma OutputSignalReaches(s: State, step: Step, roles: Roles, c: Tid)
    requires InRoles(s, roles) && OneToWakeForPut(roles)
    requires Enabled(s, step) && step.Signal? && s.pcs[step.t].PutSignal?
    ensures !AsleepGet(Apply(s, step), c)
  {
    if AsleepGet(s, c) {
      assert Getters(s) <= roles.gets - {step.t};
      Single(Getters(s), roles.gets - {step.t}, c);
      assert step.woken == {c};
    }
  }

  lemma InputSignalReaches(s: State, step: Step, roles: Roles, p: Tid)
    requires InRoles(s, roles) && OneToWakeForGet(roles)
    requires Enabled(s, step) && step.Signal? && s.pcs[step.t].GetSignal?
    ensures !AsleepPut(Apply(s, step), p)
  {
    if AsleepPut(s, p) {
      assert Putters(s) <= roles.puts - {step.t};
      Single(Putters(s), roles.puts - {step.t}, p);
      assert step.woken == {p};
    }
  }

  lemma StepServesConsumer(s: State, step: Step, roles: Roles, c: Tid)
    requires InRoles(s, roles) && OneToWakeForPut(roles) && Enabled(s, step) && ConsumerServed(s, c)
    ensures ConsumerServed(Apply(s, step), c)
  {
    var s' := Apply(s, step);
    if step.Signal? {
      if s.pcs[step.t].PutSignal? {
        OutputSignalReaches(s, step, roles, c);
      }
    } else {
      SignalStaysDue(s, step);
      if step.Body? && s'.pcs[step.t].PutSignal? {
        assert OutputSignalDue(s');
      }
    }
  }

  lemma StepServesProducer(s: State, step: Step, roles: Roles, p: Tid)
    requires InRoles(s, roles) && OneToWakeForGet(roles) && Enabled(s, step) && ProducerServed(s, p)
    ensures ProducerServed(Apply(s, step), p)
  {
    var s' := Apply(s, step);
    if step.Signal? {
      if s.pcs[step.t].GetSignal? {
        InputSignalReaches(s, step, roles, p);
      }
    } else {
      SignalStaysDue(s, step);
      if step.Body? && s'.pcs[step.t].GetSignal? {
        assert InputSignalDue(s');
      }
    }
  }

  lemma {:induction false} RunServesConsumer(s: State, sched: seq<Step>, roles: Roles, c: Tid)
    requires InRoles(s, roles) && Runs(s, sched) && CallsBy(sched, roles)
    requires OneToWakeForPut(roles) && ConsumerServed(s, c)
    ensures Inv(Exec(s, sched)) && ConsumerServed(Exec(s, sched), c)
    decreases |sched|
  {
    if sched != [] {
      StepKeepsRoles(s, sched[0], roles);
      StepServesConsumer(s, sched[0], roles, c);
      RunServesConsumer(Apply(s, sched[0]), sched[1..], roles, c);
    }
  }

  lemma {:induction false} RunServesProducer(s: State, sched: seq<Step>, roles: Roles, p: Tid)
    requires InRoles(s, roles) && Runs(s, sched) && CallsBy(sched, roles)
    requires OneToWakeForGet(roles) && ProducerServed(s, p)
    ensures Inv(Exec(s, sched)) && ProducerServed(Exec(s, sched), p)
    decreases |sched|
  {
    if sched != [] {
      StepKeepsRoles(s, sched[0], roles);
      StepServesProducer(s, sched[0], roles, p);
      RunServesProducer(Apply(s, sched[0]), sched[1..], roles, p);
    }
  }

  // One consumer, one producer

  /** Only `c` ever calls get_pipeline. */
  predicate SoleConsumer(sched: seq<Step>, c: Tid) {
    forall i :: 0 <= i < |sched| && sched[i].CallGet? ==> sched[i].t == c
  }

  /** Only `p` ever calls put_pipeline. */
  predicate SoleProducer(sched: seq<Step>, p: Tid) {
    forall i :: 0 <= i < |sched| && sched[i].CallPut? ==> sched[i].t == p
  }

  ghost function Actors(sched: seq<Step>): set<Tid> {
    set i | 0 <= i < |sched| :: sched[i].t
  }

  lemma NoLostConsumerWakeup(threads: set<Tid>, size: nat, policy: Policy, sched: seq<Step>, c: Tid)
    requires size > 0 && Runs(Init(threads, size, policy), sched) && SoleConsumer(sched, c)
    ensures Inv(Exec(Init(threads, size, policy), sched))
    ensures ConsumerServed(Exec(Init(threads, size, policy), sched), c)
  {
    var roles := Roles({c}, Actors(sched));
    InitInRoles(threads, size, policy, roles);
    assert CallsBy(sched, roles);
    forall p | p in roles.puts
      ensures |roles.gets - {p}| <= 1
    {
      assert roles.gets - {p} == if p == c then {} else {c};
    }
    RunServesConsumer(Init(threads, size, policy), sched, roles, c);
  }

  lemma NoLostProducerWakeup(threads: set<Tid>, size: nat, policy: Policy, sched: seq<Step>, p: Tid)
    requires size > 0 && Runs(Init(threads, size, policy), sched) && SoleProducer(sched, p)
    ensures Inv(Exec(Init(threads, size, policy), sched))
    ensures ProducerServed(Exec(Init(threads, size, policy), sched), p)
  {
    var roles := Roles(Actors(sched), {p});
    InitInRoles(threads, size, policy, roles);
    assert CallsBy(sched, roles);
    forall g | g in roles.gets
      ensures |roles.puts - {g}| <= 1
    {
      assert roles.puts - {g} == if g == p then {} else {p};
    }
    RunServesProducer(Init(threads, size, policy), sched, roles, p);
  }

  /** With one producer and one consumer, both are never asleep unsignalled while the lock is free. */
  lemma OpenPipelineNeverDeadlocks(threads: set<Tid>, size: nat, policy: Policy, sched: seq<Step>, c: Tid, p: Tid)
    requires size > 0 && Runs(Init(threads, size, policy), sched) && SoleConsumer(sched, c) && SoleProducer(sched, p)
    requires var s := Exec(Init(threads, size, policy), sched); !s.closed && s.owner.Free?
    ensures var s := Exec(Init(threads, size, policy), sched); !(AsleepGet(s, c) && AsleepPut(s, p))
  {
    var s := Exec(Init(threads, size, policy), sched);
    NoLostConsumerWakeup(threads, size, policy, sched, c);
    NoLostProducerWakeup(threads, size, policy, sched, p);
    assert !OutputSignalDue(s) && !InputSignalDue(s);
  }

  // A ring with room for one item: every push and every take is an edge

  /** Someone is about to look for an item, or about to send for someone who is. */
  predicate ConsumerComing(pc: Pc) {
    pc.PutSignal? || pc.GetLock? || pc.GetWoken? || pc.GetCheck? || pc.GetBody?
  }

  predicate ProducerComing(pc: Pc) {
    pc.GetSignal? || pc.PutLock? || pc.PutWoken? || pc.PutCheck? || pc.PutBody?
  }

  ghost predicate ItemsFetched(s: State) {
    !s.closed && s.ring.count > 0 && Getters(s) != {} ==> exists t :: t in s.pcs && ConsumerComing(s.pcs[t])
  }

  ghost predicate RoomFilled(s: State) {
    !s.closed && s.ring.count < s.ring.size && Putters(s) != {} ==> exists t :: t in s.pcs && ProducerComing(s.pcs[t])
  }

  /** Whoever is coming goes on coming, unless it is the signaller or the step empties or fills the ring. */
  lemma StillComing(s: State, step: Step, t: Tid)
    requires Inv(s) && s.ring.size == 1 && Enabled(s, step) && t in s.pcs && !Apply(s, step).closed
    ensures t in Apply(s, step).pcs
    ensures s.ring.count > 0 && Apply(s, step).ring.count > 0 && !(step.Signal? && s.pcs[step.t].PutSignal?) ==>
      (ConsumerComing(s.pcs[t]) ==> ConsumerComing(Apply(s, step).pcs[t]))
    ensures s.ring.count == 0 == Apply(s, step).ring.count && !(step.Signal? && s.pcs[step.t].GetSignal?) ==>
      (ProducerComing(s.pcs[t]) ==> ProducerComing(Apply(s, step).pcs[t]))
  {
    StepOnOthers(s, step, t);
  }

  lemma StepKeepsFetched(s: State, step: Step)
    requires Inv(s) && s.ring.size == 1 && ItemsFetched(s) && Enabled(s, step)
    ensures ItemsFetched(Apply(s, step))
  {
    var s' := Apply(s, step);
    if !s'.closed && s'.ring.count > 0 && Getters(s') != {} {
      var g :| g in Getters(s');
      StepOnOthers(s, step, g);
      if step.Signal? && s.pcs[step.t].PutSignal? {
        assert g in Getters(s);
        var w :| w in step.woken;
        assert s'.pcs[w].GetWoken?;
      } else if s.ring.count == 0 {
        assert s'.pcs[step.t].PutSignal?;
      } else if step.Spurious? && s'.pcs[step.t].GetWoken? {
      } else {
        assert g in Getters(s);
        var t :| t in s.pcs && ConsumerComing(s.pcs[t]);
        StillComing(s, step, t);
      }
    }
  }

  lemma StepKeepsFilled(s: State, step: Step)
    requires Inv(s) && s.ring.size == 1 && s.policy.WAIT? && RoomFilled(s) && Enabled(s, step)
    ensures RoomFilled(Apply(s, step))
  {
    var s' := Apply(s, step);
    if !s'.closed && s'.ring.count < s'.ring.size && Putters(s') != {} {
      var p :| p in Putters(s');
      StepOnOthers(s, step, p);
      if step.Signal? && s.pcs[step.t].GetSignal? {
        assert p in Putters(s);
        var w :| w in step.woken;
        assert s'.pcs[w].PutWoken?;
      } else if s.ring.count == s.ring.size {
        assert s'.pcs[step.t].GetSignal?;
      } else if step.Spurious? && s'.pcs[step.t].PutWoken? {
      } else {
        assert p in Putters(s);
        var t :| t in s.pcs && ProducerComing(s.pcs[t]);
        StillComing(s, step, t);
      }
    }
  }

  lemma {:induction false} RunKeepsFetched(s: State, sched: seq<Step>)
    requires Inv(s) && s.ring.size == 1 && Runs(s, sched) && ItemsFetched(s)
    ensures ItemsFetched(Exec(s, sched))
    decreases |sched|
  {
    if sched != [] {
      StepKeepsInv(s, sched[0]);
      StepKeepsRing(s, sched[0]);
      StepKeepsFetched(s, sched[0]);
      RunKeepsFetched(Apply(s, sched[0]), sched[1..]);
    }
  }

  lemma {:induction false} RunKeepsFilled(s: State, sched: seq<Step>)
    requires Inv(s) && s.ring.size == 1 && s.policy.WAIT? && Runs(s, sched) && RoomFilled(s)
    ensures RoomFilled(Exec(s, sched))
    decreases |sched|
  {
    if sched != [] {
      StepKeepsInv(s, sched[0]);
      StepKeepsRing(s, sched[0]);
      StepKeepsFilled(s, sched[0]);
      RunKeepsFilled(Apply(s, sched[0]), sched[1..]);
    }
  }

  // Nobody stranded

  /** Nobody is inside a call but asleep. */
  ghost predicate AtRest(s: State) {
    && !s.closed && s.owner.Free?
    && forall t :: t in s.pcs ==> s.pcs[t].Idle? || s.pcs[t].GetAsleep? || s.pcs[t].PutAsleep?
  }

  /** Nobody is on the way, and a consumer sleeps although there is an item to take. */
  ghost predicate ConsumerStranded(s: State) {
    AtRest(s) && s.ring.count > 0 && Getters(s) != {}
  }

  /** Nobody is on the way, and a producer sleeps although there is room. */
  ghost predicate ProducerStranded(s: State) {
    AtRest(s) && s.ring.count < s.ring.size && Putters(s) != {}
  }

  lemma ConsumerNotStranded(threads: set<Tid>, size: nat, policy: Policy, roles: Roles, sched: seq<Step>)
    requires size > 0 && Runs(Init(threads, size, policy), sched) && CallsBy(sched, roles)
    requires size == 1 || OneToWakeForPut(roles)
    ensures !ConsumerStranded(Exec(Init(threads, size, policy), sched))
  {
    var init := Init(threads, size, policy);
    var s := Exec(init, sched);
    InitInRoles(threads, size, policy, roles);
    if ConsumerStranded(s) {
      var g :| g in Getters(s);
      if size == 1 {
        RunKeepsFetched(init, sched);
      } else {
        RunServesConsumer(init, sched, roles, g);
      }
    }
  }

  lemma ProducerNotStranded(threads: set<Tid>, size: nat, policy: Policy, roles: Roles, sched: seq<Step>)
    requires size > 0 && Runs(Init(threads, size, policy), sched) && CallsBy(sched, roles)
    requires size == 1 || policy.DROP? || OneToWakeForGet(roles)
    ensures !ProducerStranded(Exec(Init(threads, size, policy), sched))
  {
    var init := Init(threads, size, policy);
    var s := Exec(init, sched);
    InitInRoles(threads, size, policy, roles);
    if ProducerStranded(s) {
      var p :| p in Putters(s);
      if policy.DROP? {
        RunKeepsRoles(init, sched, roles);
      } else if size == 1 {
        RunKeepsFilled(init, sched);
      } else {
        RunServesProducer(init, sched, roles, p);
      }
    }
  }

  /** Two consumers find the pipeline empty and sleep. The first item wakes one of them, the second
      nobody; the one woken takes an item and leaves, and the other sleeps on beside what remains. */
  lemma TwoConsumersStrand(threads: set<Tid>, size: nat, policy: Policy, roles: Roles, a: Tid, b: Tid, p: Tid)
    returns (s: State)
    requires size >= 2 && {a, b, p} <= threads && a != b && a != p && b != p
    requires {a, b} <= roles.gets && p in roles.puts
    ensures Ok(Init(threads, size, policy).ring) && Reachable(Init(threads, size, policy), roles, s)
    ensures ConsumerStranded(s)
  {
    var init := Init(threads, size, policy);
    EmptyHoldsNothing(size);
    ReachInit(init, roles);
    var s1 := Goto(init, a, GetAsleep);
    GetSleeps(init, roles, init, a);
    var s2 := Goto(s1, b, GetAsleep);
    GetSleeps(init, roles, s1, b);
    assert a in Getters(s2);
    Gives(init, roles, s2, p, 0, {a});
    var s3 := Gave(s2, p, 0, {a});
    Gives(init, roles, s3, p, 0, {});
    var s4 := Gave(s3, p, 0, {});
    assert Putters(s4) == {};
    Takes(init, roles, s4, a, {});
    s := Took(s4, a, {});
    assert b in Getters(s);
  }

  /** Two producers find the ring full and sleep. The first item taken wakes one of them, the second
      nobody; the one woken puts its item and leaves, and the other sleeps on beside the room left. */
  lemma TwoProducersStrand(threads: set<Tid>, size: nat, roles: Roles, a: Tid, b: Tid, g: Tid)
    returns (s: State)
    requires size >= 2 && {a, b, g} <= threads && a != b && a != g && b != g
    requires {a, b} <= roles.puts && g in roles.gets
    ensures Ok(Init(threads, size, WAIT).ring) && Reachable(Init(threads, size, WAIT), roles, s)
    ensures ProducerStranded(s)
  {
    var init := Init(threads, size, WAIT);
    EmptyHoldsNothing(size);
    ReachInit(init, roles);
    assert Getters(init) == {};
    var r := Fills(init, roles, init, a);
    var s0 := init.(ring := r);
    var s1 := Goto(s0, a, PutAsleep(0));
    PutSleeps(init, roles, s0, a, 0);
    var s2 := Goto(s1, b, PutAsleep(0));
    PutSleeps(init, roles, s1, b, 0);
    assert a in Putters(s2);
    Takes(init, roles, s2, g, {a});
    var s3 := Took(s2, g, {a});
    Takes(init, roles, s3, g, {});
    var s4 := Took(s3, g, {});
    assert Getters(s4) == {};
    Gives(init, roles, s4, a, 0, {});
    s := Gave(s4, a, 0, {});
    assert b in Putters(s);
  }

  lemma TwoOf(a: set<Tid>) returns (x: Tid, y: Tid)
    requires |a| > 1
    ensures x in a && y in a && x != y
  {
    x :| x in a;
    assert |a - {x}| == |a| - 1;
    y :| y in a - {x};
  }

  /** An open pipeline never strands a consumer if and only if it has room for one item only, or no
      producer has two consumers beside itself. */
  lemma NoConsumerStrandedIff(threads: set<Tid>, size: nat, policy: Policy, roles: Roles)
    requires size > 0 && roles.gets <= threads && roles.puts <= threads
    ensures Ok(Init(threads, size, policy).ring)
    ensures (forall s :: Reachable(Init(threads, size, policy), roles, s) ==> !ConsumerStranded(s))
      <==> size == 1 || forall p :: p in roles.puts ==> |roles.gets - {p}| <= 1
  {
    var init := Init(threads, size, policy);
    EmptyHoldsNothing(size);
    if size == 1 || OneToWakeForPut(roles) {
      forall s | Reachable(init, roles, s)
        ensures !ConsumerStranded(s)
      {
        var sched :| Runs(init, sched) && CallsBy(sched, roles) && Exec(init, sched) == s;
        ConsumerNotStranded(threads, size, policy, roles, sched);
      }
    } else {
      var p :| p in roles.puts && |roles.gets - {p}| > 1;
      var a, b := TwoOf(roles.gets - {p});
      var s := TwoConsumersStrand(threads, size, policy, roles, a, b, p);
    }
  }

  /** An open pipeline never strands a producer if and only if it has room for one item only, drops
      instead of waiting, or no consumer has two producers beside itself. */
  lemma NoProducerStrandedIff(threads: set<Tid>, size: nat, policy: Policy, roles: Roles)
    requires size > 0 && roles.gets <= threads && roles.puts <= threads
    ensures Ok(Init(threads, size, policy).ring)
    ensures (forall s :: Reachable(Init(threads, size, policy), roles, s) ==> !ProducerStranded(s))
      <==> size == 1 || policy.DROP? || forall g :: g in roles.gets ==> |roles.puts - {g}| <= 1
  {
    var init := Init(threads, size, policy);
    EmptyHoldsNothing(size);
    if size == 1 || policy.DROP? || OneToWakeForGet(roles) {
      forall s | Reachable(init, roles, s)
        ensures !ProducerStranded(s)
      {
        var sched :| Runs(init, sched) && CallsBy(sched, roles) && Exec(init, sched) == s;
        ProducerNotStranded(threads, size, policy, roles, sched);
      }
    } else {
      var g :| g in roles.gets && |roles.puts - {g}| > 1;
      var a, b := TwoOf(roles.puts - {g});
      var s := TwoProducersStrand(threads, size, roles, a, b, g);
    }
  }

  lemma SomeoneBesideTwo(a: set<Tid>, threads: set<Tid>) returns (t: Tid)
    requires |a| > 1 && |threads| > 2
    ensures t in threads && |a - {t}| > 1
  {
    var x, y := TwoOf(a);
    assert |threads - {x} - {y}| >= |threads| - 2;
    t :| t in threads - {x} - {y};
    assert {x, y} <= a - {t};
    Fewer({x, y}, a - {t});
  }

  lemma AtMostOneBeside(a: set<Tid>, threads: set<Tid>, t: Tid)
    requires a <= threads && t in threads && (|a| <= 1 || |threads| <= 2)
    ensures |a - {t}| <= 1
  {
    Fewer(a - {t}, a);
    Fewer(a - {t}, threads - {t});
  }

  /** Some thread has two others of the set beside it, unless the set or the threads are too few. */
  lemma TwoBeside(a: set<Tid>, threads: set<Tid>)
    requires a <= threads
    ensures (forall t :: t in threads ==> |a - {t}| <= 1) <==> |a| <= 1 || |threads| <= 2
  {
    if |a| > 1 && |threads| > 2 {
      var t := SomeoneBesideTwo(a, threads);
    } else {
      forall t | t in threads
        ensures |a - {t}| <= 1
      {
        AtMostOneBeside(a, threads, t);
      }
    }
  }

  lemma {:induction false} Fewer(a: set<Tid>, b: set<Tid>)
    requires a <= b
    ensures |a| <= |b|
  {
    assert b == a + (b - a);
  }

  /** Where every thread may produce, or every thread may consume, the number of threads decides. */
  lemma NobodyStrandedAmongAll(threads: set<Tid>, size: nat, policy: Policy, some: set<Tid>)
    requires size > 0 && some <= threads
    ensures Ok(Init(threads, size, policy).ring)
    ensures (forall s :: Reachable(Init(threads, size, policy), Roles(some, threads), s) ==> !ConsumerStranded(s))
      <==> size == 1 || |some| <= 1 || |threads| <= 2
    ensures (forall s :: Reachable(Init(threads, size, policy), Roles(threads, some), s) ==> !ProducerStranded(s))
      <==> size == 1 || policy.DROP? || |some| <= 1 || |threads| <= 2
  {
    NoConsumerStrandedIff(threads, size, policy, Roles(some, threads));
    NoProducerStrandedIff(threads, size, policy, Roles(threads, some));
    TwoBeside(some, threads);
  }
}
