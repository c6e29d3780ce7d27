/**
 How the lane-record protocol can run (scripts/aggregate-test-gate.ts): reachable states, and
 the common start of the example runs.
 */
module LaneRuns {
  import opened JsText
  import opened LaneInvariant
  import opened LaneRecovery
  import opened LaneSystem

  const TOKEN := "00000000-0000-0000-0000-000000000000"
  const GATE := "aggregate-test-gate"

  lemma OccursChars(text: string, part: string, i: nat)
    requires OccursAt(text, part, i) && |part| >= 2
    ensures i + 1 < |text| && text[i] == part[0] && text[i + 1] == part[1]
  {
    var window := text[i..i + |part|];
    assert window[0] == part[0] && window[1] == part[1];
  }

  lemma TokenValid()
    ensures IsLaneToken(TOKEN)
  {
  }

  lemma NoDoubleDash(command: string, t: string)
    requires forall i :: 0 <= i < |command| - 1 ==> command[i] != '-' || command[i + 1] != '-'
    ensures !Carries(command, t)
  {
    var marker := "--dyfj-lane=" + t;
    forall i: nat ensures !OccursAt(command, marker, i) {
      if OccursAt(command, marker, i) {
        OccursChars(command, marker, i);
        assert false;
      }
    }
  }

  function TwoGates(): State {
    State(map[10 := Proc(10, GATE, None), 20 := Proc(20, GATE, None)], map[], 0, map[], map[], {})
  }

  lemma TwoGatesInit()
    ensures Init(TwoGates()) && IsGateCommand(GATE)
    ensures forall t :: !Carries(GATE, t) && !Carries("", t)
  {
    forall t ensures !Carries(GATE, t) && !Carries("", t) {
      NoDoubleDash(GATE, t);
      NoDoubleDash("", t);
    }
    assert OccursAt(GATE, "aggregate-test-gate", 0);
  }

  ghost predicate Reachable(s: State) {
    exists states, actions :: IsRun(states, actions) && states[|actions|] == s
  }

  lemma ReachableStep(s: State, a: Action)
    requires Reachable(s) && CanStep(s, a)
    ensures Reachable(Step(s, a))
  {
    var states, actions :| IsRun(states, actions) && states[|actions|] == s;
    var more := states + [Step(s, a)];
    assert IsRun(more, actions + [a]) by {
      forall i | 0 <= i < |actions| + 1 ensures StepsAt(more, actions + [a], i) {
        if i < |actions| {
          assert StepsAt(states, actions, i);
          assert more[i] == states[i] && more[i + 1] == states[i + 1];
        }
      }
    }
    assert more[|actions + [a]|] == Step(s, a);
  }

  lemma ReachableTo(s: State, a: Action, t: State)
    requires Reachable(s) && CanStep(s, a) && Step(s, a) == t
    ensures Reachable(t)
  {
    ReachableStep(s, a);
  }

  lemma FirstGateReady()
    ensures Reachable(TwoGates().(gates := map[0 := Gate(10, Between)], nextGate := 1))
  {
    TwoGatesInit();
    var s0 := TwoGates();
    assert IsRun([s0], []) && [s0][0] == s0;
    var s1 := s0.(gates := map[0 := Gate(10, Starting)], nextGate := 1);
    ReachableTo(s0, BecomeGate(10), s1);
    ReachableTo(s1, EndRecovery(0), s0.(gates := map[0 := Gate(10, Between)], nextGate := 1));
  }
}
