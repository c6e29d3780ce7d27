/**
 A run in which recovery does stop an orphaned lane group (scripts/aggregate-test-gate.ts): the
 recording gate dies mid-lane, and the next gate finds the lane's token carrier in its group.
 */
module OrphanStopped {
  import opened JsText
  import opened LaneInvariant
  import opened LaneRecovery
  import opened LaneRuns
  import opened LaneSystem

  const MARKER := "--dyfj-lane="
  const CARRIER := MARKER + TOKEN

  lemma CarriesOwnToken()
    ensures Carries(CARRIER, TOKEN)
  {
    assert OccursAt(CARRIER, MARKER + TOKEN, 0);
  }

  /** A command line of just the token's argument carries no other lane token. */
  lemma CarriesOnlyOwn(t: string)
    requires IsLaneToken(t) && Carries(CARRIER, t)
    ensures t == TOKEN
  {
    var i :| 0 <= i <= |CARRIER| && OccursAt(CARRIER, "--dyfj-lane=" + t, i);
    assert |MARKER + t| == |CARRIER|;
    assert MARKER + t == CARRIER;
    assert t == (MARKER + t)[|MARKER|..] == CARRIER[|MARKER|..];
  }

  const OWN := Lane(0, 10, 30)

  function Carrying(): map<nat, Proc> {
    map[10 := Proc(10, GATE, None), 20 := Proc(20, GATE, None), 30 := Proc(30, CARRIER, Some(TOKEN))]
  }

  function Record(): LaneRecord { LaneRecord(10, 30, TOKEN) }

  /** The first gate in its lane, its record as far as `files` says. */
  function InFirstLane(progress: Progress, files: map<FileName, Content>): State {
    State(Carrying(), map[0 := Gate(10, InLane(TOKEN, progress))], 1, files, map[TOKEN := OWN], {TOKEN})
  }

  lemma CarrierStarted()
    ensures Reachable(InFirstLane(Unwritten, map[]))
  {
    FirstGateReady();
    TokenValid();
    var s0 := TwoGates().(gates := map[0 := Gate(10, Between)], nextGate := 1);
    assert TokensOwned(map[TOKEN := OWN], Proc(30, CARRIER, Some(TOKEN))) by {
      forall t | IsLaneToken(t) && Carries(CARRIER, t) ensures t == TOKEN {
        CarriesOnlyOwn(t);
      }
    }
    assert FreeId(s0, 30);
    ReachableTo(s0, SpawnLane(0, TOKEN, 30, CARRIER), InFirstLane(Unwritten, map[]));
  }

  function Partial(c: Content): map<FileName, Content> { map[FileName(TOKEN, true) := c] }

  lemma RecordBegun()
    ensures Reachable(InFirstLane(Writing, Partial(Prefix(Record()))))
  {
    CarrierStarted();
    ReachableTo(InFirstLane(Unwritten, map[]), BeginWrite(0), InFirstLane(Writing, Partial(Prefix(Record()))));
  }

  lemma RecordWritten()
    ensures Reachable(InFirstLane(Written, Partial(Whole(Record()))))
  {
    RecordBegun();
    ReachableTo(InFirstLane(Writing, Partial(Prefix(Record()))), FinishWrite(0),
                InFirstLane(Written, Partial(Whole(Record()))));
  }

  function InPlace(): map<FileName, Content> {
    map[FileName(TOKEN, false) := Whole(Record())]
  }

  lemma RecordInPlace()
    ensures Reachable(InFirstLane(Recorded, InPlace()))
  {
    RecordWritten();
    ReachableTo(InFirstLane(Written, Partial(Whole(Record()))), Rename(0), InFirstLane(Recorded, InPlace()));
  }

  function Left(): map<nat, Proc> {
    map[20 := Proc(20, GATE, None), 30 := Proc(30, CARRIER, Some(TOKEN))]
  }

  /** The first gate is gone, its lane is not, and the second one is in phase `ph` of its recovery. */
  function After(ph: Phase): State {
    State(Left(), map[1 := Gate(20, ph)], 2, InPlace(), map[TOKEN := OWN], {TOKEN})
  }

  function NoGate(): State {
    State(Left(), map[], 1, InPlace(), map[TOKEN := OWN], {TOKEN})
  }

  lemma FirstGateDies()
    ensures Reachable(NoGate())
  {
    RecordInPlace();
    ReachableTo(InFirstLane(Recorded, InPlace()), Exit(10), NoGate());
  }

  lemma SecondGateStarts()
    ensures Reachable(After(Starting))
  {
    FirstGateDies();
    TwoGatesInit();
    ReachableTo(NoGate(), BecomeGate(20), After(Starting));
  }

  function BothLeft(): seq<ProcessEntry> {
    [ProcessEntry(20, 20, GATE), ProcessEntry(30, 30, CARRIER)]
  }

  function Seen(): Moment {
    Moment(BothLeft(), Left(), map[1 := 20], 2)
  }

  lemma SecondGateNames()
    ensures Reachable(After(Named([FileName(TOKEN, false)])))
  {
    SecondGateStarts();
    ReachableTo(After(Starting), ReadNames(1, [FileName(TOKEN, false)]), After(Named([FileName(TOKEN, false)])));
  }

  lemma BothListed()
    ensures IsListing(BothLeft(), Left())
  {
  }

  lemma SecondGateScans()
    ensures Reachable(After(Scanning([FileName(TOKEN, false)], Seen())))
  {
    SecondGateNames();
    BothListed();
    var s := After(Named([FileName(TOKEN, false)]));
    assert Running(s) == map[1 := 20];
    ReachableTo(s, ListProcesses(1, BothLeft()), After(Scanning([FileName(TOKEN, false)], Seen())));
  }

  lemma SecondGateReads()
    ensures Reachable(After(Loaded(FileName(TOKEN, false), Some(Record()), [], Seen())))
  {
    SecondGateScans();
    TokenValid();
    var name := FileName(TOKEN, false);
    assert [name][1..] == [];
    ReachableTo(After(Scanning([name], Seen())), ReadRecord(1), After(Loaded(name, Some(Record()), [], Seen())));
  }

  lemma VerdictIsRecover()
    ensures OrphanedLaneGroup(Record(), BothLeft()) == Recover
  {
    CarriesOwnToken();
    assert BothLeft()[1] in BothLeft() && BothLeft()[1].group == 30;
  }

  /** The second gate comes to signal the orphaned group: the case `SignalsOnlyOrphans` is about does occur. */
  lemma OrphanIsStopped()
    ensures exists s, g :: Reachable(s) && CanStep(s, Signal(g))
  {
    SecondGateReads();
    VerdictIsRecover();
    var name := FileName(TOKEN, false);
    ReachableTo(After(Loaded(name, Some(Record()), [], Seen())), Judge(1, false),
                After(Signalling(name, Record(), [], Seen())));
    assert CanStep(After(Signalling(name, Record(), [], Seen())), Signal(1));
  }
}
