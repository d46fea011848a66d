/** What the step systems of this project share: thread identifiers, a mutex and the wake rule of a
  condition variable. Waiting releases the mutex atomically, a signal wakes at least one sleeper if
  there is any, a sleeper may also wake spuriously, and whoever wakes must take the mutex again.
 */
module Threads {
  type Tid = nat

  datatype Owner = Free | Held(holder: Tid)

  /** What a signal may wake: some of the sleepers, and at least one when there are any. */
  predicate Wakes(woken: set<Tid>, sleepers: set<Tid>) {
    woken <= sleepers && (sleepers != {} ==> woken != {})
  }

  /** What a number for each thread adds up to. */
  ghost function Sum(per: map<Tid, nat>): nat {
    if per == map[] then 0
    else
      var t :| t in per;
      per[t] + Sum(per - {t})
  }

  lemma {:induction false} SumAt(per: map<Tid, nat>, t: Tid)
    requires t in per
    ensures Sum(per) == per[t] + Sum(per - {t})
    decreases |per|
  {
    var u :| u in per && Sum(per) == per[u] + Sum(per - {u});
    if u != t {
      SumAt(per - {u}, t);
      SumAt(per - {t}, u);
      assert per - {u} - {t} == per - {t} - {u};
    }
  }

  lemma SumUpdate(per: map<Tid, nat>, t: Tid, n: nat)
    requires t in per
    ensures Sum(per[t := n]) == Sum(per) - per[t] + n
  {
    SumAt(per, t);
    SumAt(per[t := n], t);
    assert per[t := n] - {t} == per - {t};
  }

  lemma {:induction false} SumZero(per: map<Tid, nat>)
    ensures Sum(per) == 0 <==> forall t :: t in per ==> per[t] == 0
    decreases |per|
  {
    if per != map[] {
      var u :| u in per && Sum(per) == per[u] + Sum(per - {u});
      SumZero(per - {u});
      assert forall t :: t in per ==> t == u || (t in per - {u} && (per - {u})[t] == per[t]);
    }
  }
}
