/** The one-way shape of the instance-state machine: a writer notification
    either leaves the stored state alone or moves an instance whose ALIVE bit
    is set to one of the two NOT_ALIVE kinds. Nothing in this core moves a
    state back to ALIVE or from one NOT_ALIVE kind to the other. */
module Lifecycle {
  import opened DdsTypes

  /** The effect of one notification on the stored instance state. */
  predicate StateStep(before: StateMask, after: StateMask) {
    after == before
    || (IsAlive(before) && (after == NotAliveDisposedState || after == NotAliveNoWritersState))
  }

  /** A step never produces the ALIVE bit: if it is set afterwards, nothing moved. */
  lemma StepNeverRevives(before: StateMask, after: StateMask)
    requires StateStep(before, after) && IsAlive(after)
    ensures after == before
  {
  }

  /** A sequence of stored states, each reached from the previous by one notification. */
  predicate IsRun(states: seq<StateMask>) {
    forall i :: 0 < i < |states| ==> StateStep(states[i - 1], states[i])
  }

  /** Every state of a run is its first state, or a NOT_ALIVE kind that an
      ALIVE first state moved to. */
  lemma {:induction false} RunLeavesAliveOnly(states: seq<StateMask>, k: nat)
    requires IsRun(states) && k < |states|
    ensures states[k] == states[0]
      || (IsAlive(states[0]) && (states[k] == NotAliveDisposedState || states[k] == NotAliveNoWritersState))
  {
    if k > 0 {
      RunLeavesAliveOnly(states, k - 1);
      assert StateStep(states[k - 1], states[k]);
    }
  }

  /** Once a run's state has changed, it is NOT_ALIVE and never changes again:
      the state machine moves at most once. */
  lemma RunSettles(states: seq<StateMask>, i: nat, j: nat)
    requires IsRun(states) && i <= j < |states| && states[i] != states[0]
    ensures !IsAlive(states[i])
    ensures states[j] == states[i]
  {
    RunLeavesAliveOnly(states, i);
    var tail := states[i..];
    assert IsRun(tail) by {
      forall m | 0 < m < |tail| ensures StateStep(tail[m - 1], tail[m]) {
        assert tail[m - 1] == states[i + m - 1] && tail[m] == states[i + m];
      }
    }
    RunLeavesAliveOnly(tail, j - i);
  }
}
