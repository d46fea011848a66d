/** What callers of a condlock get for their calls, told from the calls in the schedule, and what one call
  does when its thread goes on alone.
 */
module CondlockCalls {
  import opened Threads
  import opened Condlock

  // Accesses, thread by thread

  predicate IsAccess(step: Step) {
    step.CallAccess? || step.CallAgain?
  }

  /** The number of calls of access by `t`. */
  function Accesses(sched: seq<Step>, t: Tid): nat {
    if sched == [] then 0 else (if IsAccess(sched[0]) && sched[0].t == t then 1 else 0) + Accesses(sched[1..], t)
  }

  /** The number of calls of release by `t`. */
  function Releases(sched: seq<Step>, t: Tid): nat {
    if sched == [] then 0 else (if sched[0] == CallRelease(t) then 1 else 0) + Releases(sched[1..], t)
  }

  /** Between the call of access and getting in. */
  predicate Accessing(pc: Pc) {
    pc.ReadLock? || pc.ReadCheck? || ReaderWaits(pc)
  }

  /** Between the call of release and giving the access up. */
  predicate Releasing(pc: Pc) {
    pc.ReleaseLock? || pc.ReleaseBody?
  }

  /** What `t` holds and will hold, once its call is through. */
  function Claim(s: State, t: Tid): int
    requires t in s.pcs && t in s.depth
  {
    var held: int := s.depth[t];
    held + (if Accessing(s.pcs[t]) then 1 else 0) - (if Releasing(s.pcs[t]) then 1 else 0)
  }

  lemma StepClaims(s: State, step: Step, t: Tid)
    requires Enabled(s, step) && t in s.pcs && t in s.depth
    ensures var s' := Apply(s, step);
      && t in s'.pcs && t in s'.depth
      && Claim(s', t) == Claim(s, t)
        + (if IsAccess(step) && step.t == t then 1 else 0) - (if step == CallRelease(t) then 1 else 0)
  {
    StepOnOthers(s, step, t);
  }

  lemma {:induction false} RunClaims(s: State, sched: seq<Step>, t: Tid)
    requires Runs(s, sched) && t in s.pcs && t in s.depth
    ensures t in Exec(s, sched).pcs && t in Exec(s, sched).depth
    ensures Claim(Exec(s, sched), t) == Claim(s, t) + Accesses(sched, t) - Releases(sched, t)
    decreases |sched|
  {
    if sched != [] {
      StepClaims(s, sched[0], t);
      RunClaims(Apply(s, sched[0]), sched[1..], t);
    }
  }

  /** In every run a thread holds as many accesses as it has called for and got, less those it has given
      up; with no call of its own under way, the accesses called for less the releases called. */
  lemma DepthByCalls(threads: set<Tid>, sched: seq<Step>, t: Tid)
    requires t in threads && Runs(Init(threads), sched)
    ensures var s := Exec(Init(threads), sched);
      && t in s.pcs && t in s.depth
      && s.depth[t] == Accesses(sched, t) - Releases(sched, t)
        - (if Accessing(s.pcs[t]) then 1 else 0) + (if Releasing(s.pcs[t]) then 1 else 0)
  {
    RunClaims(Init(threads), sched, t);
  }

  // One call at a time. A thread goes on alone: no other thread takes a step, and it calls nothing new.

  predicate IsCall(step: Step) {
    step.CallAccess? || step.CallAgain? || step.CallModify? || step.CallUpgrade? || step.CallRelease? || step.Commit?
  }

  predicate Solo(sched: seq<Step>, t: Tid) {
    forall i :: 0 <= i < |sched| ==> sched[i].t == t && !IsCall(sched[i])
  }

  ghost predicate Alone(s: State, t: Tid, s': State) {
    exists sched :: Runs(s, sched) && Solo(sched, t) && Exec(s, sched) == s'
  }

  lemma Done(s: State, t: Tid)
    ensures Alone(s, t, s)
  {
    assert Runs(s, []) && Solo([], t) && Exec(s, []) == s;
  }

  lemma Then(s: State, step: Step, s1: State, s': State)
    requires Enabled(s, step) && !IsCall(step) && Apply(s, step) == s1 && Alone(s1, step.t, s')
    ensures Alone(s, step.t, s')
  {
    var sched :| Runs(s1, sched) && Solo(sched, step.t) && Exec(s1, sched) == s';
    var longer := [step] + sched;
    assert longer[0] == step && longer[1..] == sched;
    assert Runs(s, longer) && Solo(longer, step.t) && Exec(s, longer) == s';
  }

  function At(s: State, t: Tid, pc: Pc): State {
    s.(pcs := s.pcs[t := pc])
  }

  function Locked(s: State, t: Tid, pc: Pc): State {
    s.(owner := Held(t), pcs := s.pcs[t := pc])
  }

  /** A call of access, the first or a further one. */
  function CalledAccess(s: State, t: Tid): State
    requires t in s.pcs && t in s.depth && (s.pcs[t].Idle? || s.pcs[t].Reading?)
  {
    if s.pcs[t].Idle? then Apply(s, CallAccess(t)) else Apply(s, CallAgain(t))
  }

  /** An access called with the mutex free gets in if no writer waits. */
  lemma AccessAlone(s: State, t: Tid)
    requires s.owner.Free? && t in s.pcs && t in s.depth && (s.pcs[t].Idle? || s.pcs[t].Reading?) && s.pending == 0
    ensures Alone(CalledAccess(s, t), t,
                  s.(sharing := s.sharing + 1, pcs := s.pcs[t := Reading], depth := s.depth[t := s.depth[t] + 1]))
  {
    var s' := s.(sharing := s.sharing + 1, pcs := s.pcs[t := Reading], depth := s.depth[t := s.depth[t] + 1]);
    var s1 := s'.(owner := Held(t), pcs := s.pcs[t := ReadLeave]);
    Done(s', t);
    Then(s1, Unlock(t), s', s');
    Then(Locked(s, t, ReadCheck), Check(t), s1, s');
    Then(At(s, t, ReadLock), Lock(t), Locked(s, t, ReadCheck), s');
  }

  /** It sleeps if one does. */
  lemma AccessWaitsAlone(s: State, t: Tid)
    requires s.owner.Free? && t in s.pcs && t in s.depth && (s.pcs[t].Idle? || s.pcs[t].Reading?) && s.pending != 0
    ensures Alone(CalledAccess(s, t), t, s.(waiting := s.waiting + 1, pcs := s.pcs[t := ReadAsleep]))
  {
    var s' := s.(waiting := s.waiting + 1, pcs := s.pcs[t := ReadAsleep]);
    Done(s', t);
    Then(Locked(s, t, ReadCheck), Check(t), s', s');
    Then(At(s, t, ReadLock), Lock(t), Locked(s, t, ReadCheck), s');
  }

  /** A woken reader gets in if no writer waits any more, and goes back to sleep otherwise. */
  lemma WokenReaderAlone(s: State, t: Tid)
    requires s.owner.Free? && t in s.pcs && t in s.depth && s.pcs[t].ReadWoken?
    ensures s.pending == 0 ==>
      Alone(s, t, s.(waiting := s.waiting - 1, sharing := s.sharing + 1, pcs := s.pcs[t := Reading],
                     depth := s.depth[t := s.depth[t] + 1]))
    ensures s.pending != 0 ==> Alone(s, t, At(s, t, ReadAsleep))
  {
    if s.pending == 0 {
      var s' := s.(waiting := s.waiting - 1, sharing := s.sharing + 1, pcs := s.pcs[t := Reading],
                   depth := s.depth[t := s.depth[t] + 1]);
      var s1 := s'.(owner := Held(t), pcs := s.pcs[t := ReadLeave]);
      Done(s', t);
      Then(s1, Unlock(t), s', s');
      Then(Locked(s, t, ReadResumed), Check(t), s1, s');
      Then(s, Lock(t), Locked(s, t, ReadResumed), s');
    } else {
      Done(At(s, t, ReadAsleep), t);
      Then(Locked(s, t, ReadResumed), Check(t), At(s, t, ReadAsleep), At(s, t, ReadAsleep));
      Then(s, Lock(t), Locked(s, t, ReadResumed), At(s, t, ReadAsleep));
    }
  }

  /** What is left when `t` has given one access up, with the mutex still in its hands. */
  function GivenUp(s: State, t: Tid, woken: set<Tid>): State
    requires t in s.depth && s.depth[t] > 0
  {
    s.(sharing := s.sharing - 1, depth := s.depth[t := s.depth[t] - 1], owner := Held(t),
       pcs := Wake(s.pcs, woken)[t := Leave])
  }

  lemma ReleaseStep(s: State, t: Tid, woken: set<Tid>)
    requires t in s.pcs && t in s.depth && s.pcs[t].Reading? && s.sharing >= s.depth[t] > 0
    requires ReleaseWakes(s, s.sharing - 1, woken)
    ensures var s2 := Locked(s, t, ReleaseBody);
      Enabled(s2, Release(t, woken)) && Apply(s2, Release(t, woken)) == GivenUp(s, t, woken)
  {
    var s2 := Locked(s, t, ReleaseBody);
    assert Sleepers(s2) == Sleepers(s);
    assert Wake(s2.pcs, woken)[t := Leave] == Wake(s.pcs, woken)[t := Leave];
  }

  /** A release called with the mutex free gives one access up, and wakes as the counters say. */
  lemma ReleaseAlone(s: State, t: Tid, woken: set<Tid>)
    requires Inv(s) && s.owner.Free? && t in s.pcs && s.pcs[t].Reading? && ReleaseWakes(s, s.sharing - 1, woken)
    ensures Alone(Apply(s, CallRelease(t)), t,
                  s.(sharing := s.sharing - 1, depth := s.depth[t := s.depth[t] - 1],
                     pcs := Wake(s.pcs, woken)[t := if s.depth[t] > 1 then Reading else Idle]))
  {
    DepthShared(s, t);
    GivesUpAlone(s, t, woken);
  }

  lemma GivesUpAlone(s: State, t: Tid, woken: set<Tid>)
    requires s.owner.Free? && t in s.pcs && t in s.depth && s.pcs[t].Reading? && s.sharing >= s.depth[t] > 0
    requires ReleaseWakes(s, s.sharing - 1, woken)
    ensures Alone(Apply(s, CallRelease(t)), t,
                  GivenUp(s, t, woken).(owner := Free,
                     pcs := Wake(s.pcs, woken)[t := if s.depth[t] > 1 then Reading else Idle]))
  {
    var s3 := GivenUp(s, t, woken);
    var s' := s3.(owner := Free, pcs := Wake(s.pcs, woken)[t := if s.depth[t] > 1 then Reading else Idle]);
    Leaves(s3, Wake(s.pcs, woken), t);
    ReleaseStep(s, t, woken);
    Then(Locked(s, t, ReleaseBody), Release(t, woken), s3, s');
    Locks(s, t, s');
  }

  lemma Leaves(s: State, pcs: map<Tid, Pc>, t: Tid)
    requires t in s.depth && s.pcs == pcs[t := Leave]
    ensures Alone(s, t, s.(owner := Free, pcs := pcs[t := if s.depth[t] > 0 then Reading else Idle]))
  {
    var s' := s.(owner := Free, pcs := pcs[t := if s.depth[t] > 0 then Reading else Idle]);
    Done(s', t);
    Then(s, Unlock(t), s', s');
  }

  lemma Locks(s: State, t: Tid, s': State)
    requires s.owner.Free? && t in s.pcs && t in s.depth && s.pcs[t].Reading?
    requires Alone(Locked(s, t, ReleaseBody), t, s')
    ensures Alone(Apply(s, CallRelease(t)), t, s')
  {
    Then(At(s, t, ReleaseLock), Lock(t), Locked(s, t, ReleaseBody), s');
  }

  /** A modify called, or woken, with the mutex free gets in and keeps the mutex if no access is held, and
      sleeps otherwise. */
  lemma ModifyAlone(s: State, t: Tid)
    requires s.owner.Free? && t in s.pcs && t in s.depth && (s.pcs[t].Idle? || s.pcs[t].WriteWoken?)
    ensures var pending := if s.pcs[t].WriteWoken? then s.pending - 1 else s.pending;
      Alone(if s.pcs[t].Idle? then Apply(s, CallModify(t)) else s, t,
            if s.sharing == 0 then Locked(s, t, Writing).(pending := pending)
            else At(s, t, WriteAsleep).(pending := pending + 1))
  {
    var pending := if s.pcs[t].WriteWoken? then s.pending - 1 else s.pending;
    var s' := if s.sharing == 0 then Locked(s, t, Writing).(pending := pending)
              else At(s, t, WriteAsleep).(pending := pending + 1);
    Done(s', t);
    if s.pcs[t].Idle? {
      Then(Locked(s, t, WriteCheck), Check(t), s', s');
      Then(At(s, t, WriteLock), Lock(t), Locked(s, t, WriteCheck), s');
    } else {
      Then(Locked(s, t, WriteResumed), Check(t), s', s');
      Then(s, Lock(t), Locked(s, t, WriteResumed), s');
    }
  }

  /** A commit wakes as the counters say and gives the mutex back. */
  lemma CommitAlone(s: State, t: Tid, woken: set<Tid>)
    requires t in s.pcs && t in s.depth && s.depth[t] == 0 && s.pcs[t].Writing? && CommitWakes(s, woken)
    ensures Alone(Apply(s, Commit(t, woken)), t, s.(owner := Free, pcs := Wake(s.pcs, woken)[t := Idle]))
  {
    var s1 := Apply(s, Commit(t, woken));
    var s' := s.(owner := Free, pcs := Wake(s.pcs, woken)[t := Idle]);
    assert s1.pcs[t := Idle] == s'.pcs;
    Done(s', t);
    Then(s1, Unlock(t), s', s');
  }
}
