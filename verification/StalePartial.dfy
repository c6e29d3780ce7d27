/**
 The one way recovery loses a usable record of a running gate
 (scripts/aggregate-test-gate.ts): a run of two gates in which it happens.
 */
module StalePartial {
  import opened JsText
  import opened LaneInvariant
  import opened LaneRecovery
  import opened LaneRuns
  import opened LaneSystem

  function ThreeProcs(): map<nat, Proc> {
    map[10 := Proc(10, GATE, None), 20 := Proc(20, GATE, None), 30 := Proc(30, "", Some(TOKEN))]
  }

  function LaneState(procs: map<nat, Proc>, gates: map<nat, Gate>, nextGate: nat, c: Content): State {
    State(procs, gates, nextGate, map[FileName(TOKEN, true) := c], map[TOKEN := Lane(0, 10, 30)], {TOKEN})
  }

  lemma FirstLaneStarted()
    ensures Reachable(State(ThreeProcs(), map[0 := Gate(10, InLane(TOKEN, Unwritten))], 1, map[],
      map[TOKEN := Lane(0, 10, 30)], {TOKEN}))
  {
    FirstGateReady();
    TwoGatesInit();
    var s0 := TwoGates().(gates := map[0 := Gate(10, Between)], nextGate := 1);
    assert CanStep(s0, SpawnLane(0, TOKEN, 30, "")) by {
      TokenValid();
      assert FreeId(s0, 30);
      assert TokensOwned(map[TOKEN := Lane(0, 10, 30)], Proc(30, "", Some(TOKEN)));
    }
    ReachableTo(s0, SpawnLane(0, TOKEN, 30, ""),
      State(ThreeProcs(), map[0 := Gate(10, InLane(TOKEN, Unwritten))], 1, map[], map[TOKEN := Lane(0, 10, 30)],
        {TOKEN}));
  }

  function HalfRecord(): Content {
    Prefix(LaneRecord(10, 30, TOKEN))
  }

  /** The first gate has begun to write its lane's record. */
  lemma HalfWritten()
    ensures Reachable(LaneState(ThreeProcs(), map[0 := Gate(10, InLane(TOKEN, Writing))], 1, HalfRecord()))
  {
    FirstLaneStarted();
    var s0 := State(ThreeProcs(), map[0 := Gate(10, InLane(TOKEN, Unwritten))], 1, map[],
      map[TOKEN := Lane(0, 10, 30)], {TOKEN});
    ReachableTo(s0, BeginWrite(0),
      LaneState(ThreeProcs(), map[0 := Gate(10, InLane(TOKEN, Writing))], 1, HalfRecord()));
  }

  function AllThree(): seq<ProcessEntry> {
    [ProcessEntry(10, 10, GATE), ProcessEntry(20, 20, GATE), ProcessEntry(30, 30, "")]
  }

  function Seen(): Moment {
    Moment(AllThree(), ThreeProcs(), map[0 := 10, 1 := 20], 2)
  }

  /** The first gate is still writing, and the second one is in phase `ph` of its recovery. */
  function WhileWriting(ph: Phase): State {
    LaneState(ThreeProcs(), map[0 := Gate(10, InLane(TOKEN, Writing)), 1 := Gate(20, ph)], 2, HalfRecord())
  }

  lemma SecondGateNamed()
    ensures Reachable(WhileWriting(Named([FileName(TOKEN, true)])))
  {
    HalfWritten();
    TwoGatesInit();
    var s0 := LaneState(ThreeProcs(), map[0 := Gate(10, InLane(TOKEN, Writing))], 1, HalfRecord());
    ReachableTo(s0, BecomeGate(20), WhileWriting(Starting));
    ReachableTo(WhileWriting(Starting), ReadNames(1, [FileName(TOKEN, true)]),
      WhileWriting(Named([FileName(TOKEN, true)])));
  }

  lemma AllThreeListed()
    ensures IsListing(AllThree(), ThreeProcs())
  {
  }

  lemma SecondGateListed()
    ensures Reachable(WhileWriting(Scanning([FileName(TOKEN, true)], Seen())))
  {
    SecondGateNamed();
    AllThreeListed();
    var s := WhileWriting(Named([FileName(TOKEN, true)]));
    assert Running(s) == map[0 := 10, 1 := 20];
    ReachableTo(s, ListProcesses(1, AllThree()), WhileWriting(Scanning([FileName(TOKEN, true)], Seen())));
  }

  lemma SecondGateJudged()
    ensures Reachable(WhileWriting(Removing(FileName(TOKEN, true), None, [], Seen())))
  {
    SecondGateListed();
    var name := FileName(TOKEN, true);
    var ph := Scanning([name], Seen());
    assert [name][1..] == [];
    assert AfterRead(ph, WhileWriting(ph).files) == Loaded(name, None, [], Seen());
    ReachableTo(WhileWriting(ph), ReadRecord(1), WhileWriting(Loaded(name, None, [], Seen())));
    ReachableTo(WhileWriting(Loaded(name, None, [], Seen())), Judge(1, true),
      WhileWriting(Removing(name, None, [], Seen())));
  }

  /** The first gate has finished its record; the second one is about to remove it. */
  function BeforeRemoval(): State {
    LaneState(ThreeProcs(),
              map[0 := Gate(10, InLane(TOKEN, Written)),
                  1 := Gate(20, Removing(FileName(TOKEN, true), None, [], Seen()))],
              2, Whole(LaneRecord(10, 30, TOKEN)))
  }

  lemma BeforeRemovalReached()
    ensures Reachable(BeforeRemoval())
  {
    SecondGateJudged();
    ReachableTo(WhileWriting(Removing(FileName(TOKEN, true), None, [], Seen())), FinishWrite(0), BeforeRemoval());
  }

  /**
   A partial record that is written slowly enough to be judged stale is removed although it has
   become usable and its gate is running: the exception in `RemovesNoLiveRecord` does occur.
   */
  lemma StalePartialIsLost()
    ensures exists s, g :: Reachable(s) && LosesAt(s, g)
  {
    BeforeRemovalReached();
    TokenValid();
    assert LosesAt(BeforeRemoval(), 1);
  }

  ghost predicate LosesAt(s: State, g: nat) {
    CanStep(s, Remove(g)) && LosesLiveRecord(s, s.gates[g].phase)
  }
}
