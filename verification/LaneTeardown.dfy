/**
 No orphan's record is dropped before its group is torn down (scripts/aggregate-test-gate.ts).
 */
module LaneTeardown {
  import opened JsText
  import opened LaneLoss
  import opened LaneRecovery
  import opened LaneSystem

  /** The gate is about to remove the file of a record that its listing tells it to recover. */
  predicate RemovesOrphan(ph: Phase, name: FileName, r: LaneRecord) {
    && ph.Removing? && ph.name == name && ph.read == Some(r)
    && OrphanedLaneGroup(r, ph.at.listing) == Recover
  }

  /** The step signals the group of that record. */
  ghost predicate Signals(s: State, a: Action, g: nat, name: FileName, r: LaneRecord) {
    && a == Signal(g) && g in s.gates && s.gates[g].phase.Signalling?
    && s.gates[g].phase.name == name && s.gates[g].phase.record == r
  }

  lemma OrphanBefore(s: State, a: Action, g: nat, name: FileName, r: LaneRecord)
    requires CanStep(s, a) && g in Step(s, a).gates && RemovesOrphan(Step(s, a).gates[g].phase, name, r)
    ensures a != ReadRecord(g) && g in s.gates
    ensures Signals(s, a, g, name, r) || RemovesOrphan(s.gates[g].phase, name, r)
  {
  }

  lemma OrphanBeforeIn(states: seq<State>, actions: seq<Action>, g: nat, n: nat, name: FileName, r: LaneRecord)
    requires IsRun(states, actions) && n <= |actions|
    requires g in states[n].gates && RemovesOrphan(states[n].gates[g].phase, name, r)
    ensures n > 0 && actions[n - 1] != ReadRecord(g) && g in states[n - 1].gates
    ensures Signals(states[n - 1], actions[n - 1], g, name, r) || RemovesOrphan(states[n - 1].gates[g].phase, name, r)
  {
    if n > 0 {
      assert StepsAt(states, actions, n - 1);
      OrphanBefore(states[n - 1], actions[n - 1], g, name, r);
    }
  }

  lemma {:induction false} SignalBefore(states: seq<State>, actions: seq<Action>, g: nat, n: nat, name: FileName,
      r: LaneRecord)
      returns (k: nat)
    requires IsRun(states, actions) && n <= |actions|
    requires g in states[n].gates && RemovesOrphan(states[n].gates[g].phase, name, r)
    ensures k < n && Signals(states[k], actions[k], g, name, r)
    ensures forall j :: k <= j < n ==> actions[j] != ReadRecord(g)
  {
    OrphanBeforeIn(states, actions, g, n, name, r);
    if Signals(states[n - 1], actions[n - 1], g, name, r) {
      k := n - 1;
    } else {
      k := SignalBefore(states, actions, g, n - 1, name, r);
    }
  }

  /**
   In every run, when a gate removes a record that was to be recovered by its listing, it has
   signalled the group of that very record since it last read one: no orphan's record is dropped
   without its group being torn down.
   */
  lemma TornDownBeforeRemoval(states: seq<State>, actions: seq<Action>, n: nat) returns (m: nat, k: nat)
    requires IsRun(states, actions) && StepsAt(states, actions, n) && actions[n].Remove?
    requires var ph := states[n].gates[actions[n].gate].phase;
      ph.read.Some? && OrphanedLaneGroup(ph.read.value, ph.at.listing) == Recover
    ensures var g := actions[n].gate;
      var ph := states[n].gates[g].phase;
      && m < k < n && LastRead(actions, g, m, n)
      && Signals(states[k], actions[k], g, ph.name, ph.read.value)
  {
    var g := actions[n].gate;
    assert StepsAt(states, actions, n);
    var ph := states[n].gates[g].phase;
    k := SignalBefore(states, actions, g, n, ph.name, ph.read.value);
    m := HasLastRead(states, actions, g, k);
    assert forall j :: m < j < n && actions[j] == ReadRecord(g) ==> k <= j;
  }
}
