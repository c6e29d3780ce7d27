/**
 The lane loop of the gate (scripts/aggregate-test-gate.ts) and the exit code it ends with. How
 each lane ends and when the run is aborted are inputs.
 */
module GateRun {
  import opened GateStatus
  import opened JsText
  import opened Sorting

  const LANE_DEADLINE_EXIT_CODE := 124
  const NOT_RUNNABLE_EXIT_CODE := 127
  const COMPOSED_FAIL_EXIT_CODE := 1
  const COMPOSED_INTERRUPTED_EXIT_CODE := 130
  const SIGTERM_EXIT_CODE := 143

  datatype Lane = Lane(label_: string, checkId: Option<string>)

  datatype LaneEnd = Exit(code: int) | PastDeadline | Aborted | NotRunnable

  /** What befalls the gate at one lane: whether the run was aborted before it, and how it ends when started. */
  datatype Turn = Turn(abortedBefore: bool, end: LaneEnd)

  function InterruptedExitCode(sigterm: bool): int {
    if sigterm then SIGTERM_EXIT_CODE else COMPOSED_INTERRUPTED_EXIT_CODE
  }

  // ---- What happens in a run ---------------------------------------------

  predicate Stops(t: Turn) { t.abortedBefore || t.end.Aborted? }

  /** The lane at which the run is cut short, or the number of lanes. */
  function StopAt(turns: seq<Turn>): (r: nat)
    ensures r <= |turns| && (r < |turns| ==> Stops(turns[r])) && forall i :: 0 <= i < r ==> !Stops(turns[i])
  {
    if turns == [] || Stops(turns[0]) then 0 else 1 + StopAt(turns[1..])
  }

  /** The exit code of a failing lane, or zero. */
  function FailCode(end: LaneEnd): int {
    match end
    case Exit(code) => code
    case PastDeadline => LANE_DEADLINE_EXIT_CODE
    case NotRunnable => NOT_RUNNABLE_EXIT_CODE
    case Aborted => 0
  }

  function ResultOf(end: LaneEnd): LaneResult {
    match end
    case Exit(code) => if code == 0 then Pass else Fail
    case PastDeadline => Fail
    case NotRunnable => Unavailable
    case Aborted => Interrupted
  }

  /** A lane that ran to its end and failed. */
  predicate FailedLane(turns: seq<Turn>, i: nat) {
    i < StopAt(turns) && FailCode(turns[i].end) != 0
  }

  predicate FirstFailed(turns: seq<Turn>, i: nat) {
    FailedLane(turns, i) && forall j :: 0 <= j < i ==> !FailedLane(turns, j)
  }

  predicate WasInterrupted(turns: seq<Turn>, abortedAfter: bool) {
    StopAt(turns) < |turns| || abortedAfter
  }

  /** What each lane reports: its result, `Interrupted` where the run was cut, `Skipped` after that. */
  function LaneOutcomes(lanes: seq<Lane>, turns: seq<Turn>, done: nat): (r: seq<LaneOutcome>)
    requires |turns| == |lanes|
    ensures |r| == |lanes|
    ensures forall i :: 0 <= i < |r| ==>
      r[i] == LaneOutcome(lanes[i].checkId, if i < done then ResultOf(turns[i].end) else Skipped)
  {
    seq(|lanes|, i requires 0 <= i < |lanes| =>
      LaneOutcome(lanes[i].checkId, if i < done then ResultOf(turns[i].end) else Skipped))
  }

  function FinalOutcomes(lanes: seq<Lane>, turns: seq<Turn>, abortedAfter: bool): seq<LaneOutcome>
    requires |turns| == |lanes|
  {
    var stop := StopAt(turns);
    var ran := LaneOutcomes(lanes, turns, stop);
    if stop < |turns| then ran[stop := LaneOutcome(lanes[stop].checkId, Interrupted)]
    else if abortedAfter then ran + [LaneOutcome(None, Interrupted)]
    else ran
  }

  /** The labels of the failed lanes, in order. */
  function FailedLabels(lanes: seq<Lane>, turns: seq<Turn>, n: nat): seq<string>
    requires n <= |lanes| && |turns| == |lanes|
  {
    if n == 0 then []
    else FailedLabels(lanes, turns, n - 1) + if FailCode(turns[n - 1].end) != 0 then [lanes[n - 1].label_] else []
  }

  predicate SomeLaneReports(lanes: seq<Lane>, id: string) {
    exists i :: 0 <= i < |lanes| && lanes[i].checkId == Some(id)
  }

  // ---- The run -----------------------------------------------------------

  /** The ids the lanes carry, each once, in order of appearance. */
  method LaneIds(lanes: seq<Lane>) returns (ids: seq<string>)
    ensures Distinct(ids) && forall id :: id in ids <==> SomeLaneReports(lanes, id)
  {
    ids := [];
    for n := 0 to |lanes|
      invariant Distinct(ids)
      invariant forall id :: id in ids <==> exists i :: 0 <= i < n && lanes[i].checkId == Some(id)
    {
      if lanes[n].checkId.Some? && lanes[n].checkId.value !in ids {
        ids := ids + [lanes[n].checkId.value];
      }
    }
  }

  /** The exit code of a run from its composed status and the code its lanes gave. */
  function ExitOf(result: Overall, laneCode: int): int {
    if laneCode != 0 then laneCode
    else match result
      case AllPass => 0
      case Cut => COMPOSED_INTERRUPTED_EXIT_CODE
      case SomeFail => COMPOSED_FAIL_EXIT_CODE
  }

  /** The code of the first failing lane among the first `n`, or zero. */
  function FirstCode(turns: seq<Turn>, n: nat): int
    requires n <= |turns|
  {
    if n == 0 then 0
    else if FirstCode(turns, n - 1) != 0 then FirstCode(turns, n - 1)
    else FailCode(turns[n - 1].end)
  }

  predicate NoneFailed(turns: seq<Turn>, n: nat) {
    forall i :: 0 <= i < n ==> !FailedLane(turns, i)
  }

  lemma {:induction false} FirstCodeIs(turns: seq<Turn>, n: nat)
    requires n <= StopAt(turns)
    ensures forall i: nat :: FirstFailed(turns, i) && i < n ==> FirstCode(turns, n) == FailCode(turns[i].end)
    ensures FirstCode(turns, n) == 0 <==> NoneFailed(turns, n)
  {
    if n > 0 {
      FirstCodeIs(turns, n - 1);
      var last := FailCode(turns[n - 1].end);
      assert FailedLane(turns, n - 1) <==> last != 0;
      forall i: nat | FirstFailed(turns, i) && i < n ensures FirstCode(turns, n) == FailCode(turns[i].end) {
        if i == n - 1 {
          assert NoneFailed(turns, n - 1);
        } else {
          assert FirstCode(turns, n - 1) == FailCode(turns[i].end);
        }
      }
    }
  }

  /** How a run ends. */
  datatype Ending = Ending(code: int, status: Status, failed: seq<string>)

  ghost predicate EndsRight(e: Ending, lanes: seq<Lane>, turns: seq<Turn>, abortedAfter: bool, sigterm: bool,
      mode: GateMode, required: seq<string>, collate: (string, string) -> bool)
    requires |turns| == |lanes|
  {
    && StatusIs(e.status, FinalOutcomes(lanes, turns, abortedAfter), mode, required, collate)
    && e.failed == FailedLabels(lanes, turns, StopAt(turns))
    && e.code == ExitOf(e.status.result,
                        if FirstCode(turns, StopAt(turns)) != 0 then FirstCode(turns, StopAt(turns))
                        else if WasInterrupted(turns, abortedAfter) then InterruptedExitCode(sigterm) else 0)
  }

  method RunLanes(lanes: seq<Lane>, turns: seq<Turn>, abortedAfter: bool, sigterm: bool, mode: GateMode,
                  required: seq<string>, collate: (string, string) -> bool) returns (e: Ending)
    requires |turns| == |lanes| && TotalPreorder(collate)
    ensures EndsRight(e, lanes, turns, abortedAfter, sigterm, mode, required, collate)
  {
    var outcomes := LaneOutcomes(lanes, turns, 0);
    var failedLabels: seq<string> := [];
    var firstFailureCode := 0;
    var index := 0;
    var laneCode := 0;
    while index < |lanes|
      invariant 0 <= index <= |lanes|
      invariant forall i :: 0 <= i < index ==> !Stops(turns[i])
      invariant outcomes == LaneOutcomes(lanes, turns, index)
      invariant failedLabels == FailedLabels(lanes, turns, index)
      invariant firstFailureCode == FirstCode(turns, index)
    {
      var turn := turns[index];
      if turn.abortedBefore || turn.end.Aborted? {
        break;
      }
      var code := FailCode(turn.end);
      if code != 0 {
        failedLabels := failedLabels + [lanes[index].label_];
        if firstFailureCode == 0 {
          firstFailureCode := code;
        }
      }
      outcomes := outcomes[index := LaneOutcome(lanes[index].checkId, ResultOf(turn.end))];
      index := index + 1;
    }
    StopIs(turns, index);
    if index < |lanes| {
      outcomes := outcomes[index := LaneOutcome(lanes[index].checkId, Interrupted)];
    } else if abortedAfter {
      outcomes := outcomes + [LaneOutcome(None, Interrupted)];
    }
    laneCode := if firstFailureCode != 0 then firstFailureCode
                else if index < |lanes| || abortedAfter then InterruptedExitCode(sigterm) else 0;
    var status := ComposeGateStatus(outcomes, mode, required, collate);
    e := Ending(ExitOf(status.result, laneCode), status, failedLabels);
  }

  lemma StopIs(turns: seq<Turn>, n: nat)
    requires n <= |turns| && (forall i :: 0 <= i < n ==> !Stops(turns[i])) && (n < |turns| ==> Stops(turns[n]))
    ensures StopAt(turns) == n
  {
  }

  // ---- The exit code -----------------------------------------------------

  predicate EveryLanePassed(turns: seq<Turn>) {
    forall i :: 0 <= i < |turns| ==> turns[i] == Turn(false, Exit(0))
  }

  predicate EveryIdReported(lanes: seq<Lane>, required: seq<string>) {
    forall i :: 0 <= i < |required| ==> SomeLaneReports(lanes, required[i])
  }

  lemma PassedOutcomes(lanes: seq<Lane>, turns: seq<Turn>, abortedAfter: bool)
    requires |turns| == |lanes|
    ensures AllPassed(FinalOutcomes(lanes, turns, abortedAfter)) <==> EveryLanePassed(turns) && !abortedAfter
  {
    var final, stop := FinalOutcomes(lanes, turns, abortedAfter), StopAt(turns);
    if stop < |turns| {
      assert final[stop].result == Interrupted;
    } else if abortedAfter {
      assert final[|lanes|].result == Interrupted;
    } else {
      forall i | 0 <= i < |turns| ensures final[i].result == Pass <==> turns[i] == Turn(false, Exit(0)) {
        assert !Stops(turns[i]);
      }
    }
  }

  lemma ReportedOutcomes(lanes: seq<Lane>, turns: seq<Turn>, abortedAfter: bool, id: string)
    requires |turns| == |lanes|
    ensures IsReported(FinalOutcomes(lanes, turns, abortedAfter), id) <==> SomeLaneReports(lanes, id)
  {
    var final := FinalOutcomes(lanes, turns, abortedAfter);
    forall i | 0 <= i < |final| ensures Reports(final[i], id) <==> i < |lanes| && lanes[i].checkId == Some(id) {
    }
  }

  lemma InterruptedOutcomes(lanes: seq<Lane>, turns: seq<Turn>, abortedAfter: bool)
    requires |turns| == |lanes|
    ensures SomeInterrupted(FinalOutcomes(lanes, turns, abortedAfter)) <==> WasInterrupted(turns, abortedAfter)
  {
    var final, stop := FinalOutcomes(lanes, turns, abortedAfter), StopAt(turns);
    if stop < |turns| {
      assert final[stop].result == Interrupted;
    } else if abortedAfter {
      assert final[|lanes|].result == Interrupted;
    } else {
      forall i | 0 <= i < |final| ensures final[i].result != Interrupted {
        assert !Stops(turns[i]);
      }
    }
  }

  /** A lane that failed by its own code, by its deadline, or because it could not be started. */
  predicate CodeFits(code: int, end: LaneEnd) {
    && (end.Exit? ==> code == end.code)
    && (end.PastDeadline? ==> code == 124)
    && (end.NotRunnable? ==> code == 127)
    && !end.Aborted?
  }

  /** What a run's exit code must be. */
  ghost predicate ExitIs(code: int, lanes: seq<Lane>, turns: seq<Turn>, abortedAfter: bool, sigterm: bool,
      required: seq<string>) {
    && (code == 0 <==> EveryLanePassed(turns) && EveryIdReported(lanes, required) && !abortedAfter)
    && (forall i: nat :: FirstFailed(turns, i) ==> CodeFits(code, turns[i].end))
    && ((forall i: nat :: !FailedLane(turns, i)) ==>
          if WasInterrupted(turns, abortedAfter) then code == if sigterm then 143 else 130
          else if EveryIdReported(lanes, required) then code == 0
          else code == 1)
  }

  lemma NotAllPassed(turns: seq<Turn>)
    requires FirstCode(turns, StopAt(turns)) != 0 || StopAt(turns) < |turns|
    ensures !EveryLanePassed(turns)
  {
    FirstCodeIs(turns, StopAt(turns));
    if FirstCode(turns, StopAt(turns)) != 0 {
      var i :| 0 <= i < StopAt(turns) && FailedLane(turns, i);
      assert turns[i].end != Exit(0);
    }
  }

  lemma AllPassedOtherwise(turns: seq<Turn>)
    requires FirstCode(turns, StopAt(turns)) == 0 && StopAt(turns) == |turns|
    ensures EveryLanePassed(turns)
  {
    FirstCodeIs(turns, StopAt(turns));
    forall i | 0 <= i < |turns| ensures turns[i] == Turn(false, Exit(0)) {
      assert !FailedLane(turns, i) && !Stops(turns[i]);
    }
  }

  lemma ExitIsRight(e: Ending, lanes: seq<Lane>, turns: seq<Turn>, abortedAfter: bool, sigterm: bool, mode: GateMode,
                    required: seq<string>, collate: (string, string) -> bool)
    requires |turns| == |lanes| && EndsRight(e, lanes, turns, abortedAfter, sigterm, mode, required, collate)
    ensures ExitIs(e.code, lanes, turns, abortedAfter, sigterm, required)
  {
    var final := FinalOutcomes(lanes, turns, abortedAfter);
    PassedOutcomes(lanes, turns, abortedAfter);
    InterruptedOutcomes(lanes, turns, abortedAfter);
    forall i | 0 <= i < |required| ensures IsReported(final, required[i]) <==> SomeLaneReports(lanes, required[i]) {
      ReportedOutcomes(lanes, turns, abortedAfter, required[i]);
    }
    FirstCodeIs(turns, StopAt(turns));
    if FirstCode(turns, StopAt(turns)) != 0 || StopAt(turns) < |turns| {
      NotAllPassed(turns);
    } else {
      AllPassedOtherwise(turns);
    }
  }

  function IdsOf(requiredIds: Option<seq<string>>): seq<string> {
    if requiredIds.Some? then requiredIds.value else []
  }

  lemma OwnIdsReported(lanes: seq<Lane>, turns: seq<Turn>, abortedAfter: bool, ids: seq<string>)
    requires |turns| == |lanes| && forall id :: id in ids ==> SomeLaneReports(lanes, id)
    ensures AllReported(FinalOutcomes(lanes, turns, abortedAfter), ids)
  {
    forall i | 0 <= i < |ids| ensures IsReported(FinalOutcomes(lanes, turns, abortedAfter), ids[i]) {
      ReportedOutcomes(lanes, turns, abortedAfter, ids[i]);
    }
  }

  /** Requiring ids that are reported anyway changes nothing in a status. */
  lemma OwnIdsAddNothing(status: Status, outcomes: seq<LaneOutcome>, mode: GateMode, ids: seq<string>,
      collate: (string, string) -> bool)
    requires StatusIs(status, outcomes, mode, ids, collate) && AllReported(outcomes, ids)
    ensures StatusIs(status, outcomes, mode, [], collate)
  {
    forall c: Check ensures CheckIs(outcomes, ids, c.id, c.result) <==> CheckIs(outcomes, [], c.id, c.result) {
    }
  }

  /**
   The gate: zero exactly when every lane passed, every required id was reported and nothing cut
   the run short; otherwise the first failed lane decides, even in a run that was interrupted
   later; otherwise the interruption's code; otherwise one. When no ids are required, the lanes'
   own are, which adds nothing.
   */
  method RunGate(lanes: seq<Lane>, turns: seq<Turn>, abortedAfter: bool, sigterm: bool, mode: GateMode,
                 requiredIds: Option<seq<string>>, collate: (string, string) -> bool)
    returns (code: int, status: Status, failed: seq<string>)
    requires |turns| == |lanes| && TotalPreorder(collate)
    ensures ExitIs(code, lanes, turns, abortedAfter, sigterm, IdsOf(requiredIds))
    ensures StatusIs(status, FinalOutcomes(lanes, turns, abortedAfter), mode, IdsOf(requiredIds), collate)
    ensures failed == FailedLabels(lanes, turns, StopAt(turns))
  {
    var required;
    if requiredIds.Some? {
      required := requiredIds.value;
    } else {
      required := LaneIds(lanes);
      assert EveryIdReported(lanes, required) && EveryIdReported(lanes, []);
    }
    var e := RunLanes(lanes, turns, abortedAfter, sigterm, mode, required, collate);
    ExitIsRight(e, lanes, turns, abortedAfter, sigterm, mode, required, collate);
    if requiredIds.None? {
      OwnIdsReported(lanes, turns, abortedAfter, required);
      OwnIdsAddNothing(e.status, FinalOutcomes(lanes, turns, abortedAfter), mode, required, collate);
    }
    return e.code, e.status, e.failed;
  }

  // ---- What the status reads ---------------------------------------------

  /** Neither this lane nor one before it was cut short. */
  predicate Ran(turns: seq<Turn>, i: nat)
    requires i < |turns|
  {
    forall j :: 0 <= j <= i ==> !turns[j].abortedBefore && turns[j].end != Aborted
  }

  /** What lane `i` says of its check. */
  predicate LaneSays(turns: seq<Turn>, i: nat, r: LaneResult)
    requires i < |turns|
  {
    match r
    case Pass => Ran(turns, i) && turns[i].end == Exit(0)
    case Fail => Ran(turns, i) && (turns[i].end.PastDeadline? || (turns[i].end.Exit? && turns[i].end.code != 0))
    case Unavailable => Ran(turns, i) && turns[i].end.NotRunnable?
    case Interrupted => !Ran(turns, i) && (i > 0 ==> Ran(turns, i - 1))
    case Skipped => i > 0 && !Ran(turns, i - 1)
  }

  predicate SomeLaneSays(lanes: seq<Lane>, turns: seq<Turn>, id: string, r: LaneResult)
    requires |turns| == |lanes|
  {
    exists i :: 0 <= i < |lanes| && lanes[i].checkId == Some(id) && LaneSays(turns, i, r)
  }

  lemma RanIff(turns: seq<Turn>, i: nat)
    requires i < |turns|
    ensures Ran(turns, i) <==> i < StopAt(turns)
  {
    var stop := StopAt(turns);
    assert forall j :: 0 <= j < stop ==> !Stops(turns[j]);
    assert stop <= i ==> Stops(turns[stop]);
  }

  lemma FinalAt(lanes: seq<Lane>, turns: seq<Turn>, abortedAfter: bool, i: nat)
    requires |turns| == |lanes| && i < |lanes|
    ensures var final, stop := FinalOutcomes(lanes, turns, abortedAfter), StopAt(turns);
      && i < |final| && final[i].checkId == lanes[i].checkId
      && final[i].result == if i < stop then ResultOf(turns[i].end) else if i == stop then Interrupted else Skipped
  {
  }

  lemma LaneSaysAt(turns: seq<Turn>, i: nat, r: LaneResult)
    requires i < |turns|
    ensures LaneSays(turns, i, r) <==>
      r == if i < StopAt(turns) then ResultOf(turns[i].end) else if i == StopAt(turns) then Interrupted else Skipped
  {
    RanIff(turns, i);
    if i > 0 {
      RanIff(turns, i - 1);
    }
    assert i < StopAt(turns) ==> !Stops(turns[i]);
  }

  lemma LaneSaysIts(lanes: seq<Lane>, turns: seq<Turn>, abortedAfter: bool, i: nat, r: LaneResult)
    requires |turns| == |lanes| && i < |lanes|
    ensures i < |FinalOutcomes(lanes, turns, abortedAfter)|
    ensures FinalOutcomes(lanes, turns, abortedAfter)[i].checkId == lanes[i].checkId
    ensures FinalOutcomes(lanes, turns, abortedAfter)[i].result == r <==> LaneSays(turns, i, r)
  {
    FinalAt(lanes, turns, abortedAfter, i);
    LaneSaysAt(turns, i, r);
  }

  lemma OutcomesFromTurns(lanes: seq<Lane>, turns: seq<Turn>, abortedAfter: bool, id: string, r: LaneResult)
    requires |turns| == |lanes|
    ensures Says(FinalOutcomes(lanes, turns, abortedAfter), id, r) <==> SomeLaneSays(lanes, turns, id, r)
  {
    var final := FinalOutcomes(lanes, turns, abortedAfter);
    if Says(final, id, r) {
      var i :| 0 <= i < |final| && final[i] == LaneOutcome(Some(id), r);
      LaneSaysIts(lanes, turns, abortedAfter, i, r);
    }
    if i :| 0 <= i < |lanes| && lanes[i].checkId == Some(id) && LaneSays(turns, i, r) {
      LaneSaysIts(lanes, turns, abortedAfter, i, r);
      assert final[i] == LaneOutcome(Some(id), r);
    }
  }

  /**
   What the status reads for a check that some lane has, from how the lanes ended: a failure before
   all, then a lane that could not be started, the lane at which the run was cut, and one after it;
   a pass exactly when every lane of the check ran and ended with zero.
   */
  lemma ChecksFromTurns(status: Status, lanes: seq<Lane>, turns: seq<Turn>, abortedAfter: bool, mode: GateMode,
      required: seq<string>, collate: (string, string) -> bool, id: string)
    requires |turns| == |lanes| && SomeLaneReports(lanes, id)
    requires StatusIs(status, FinalOutcomes(lanes, turns, abortedAfter), mode, required, collate)
    ensures Check(id, Fail) in status.checks <==> SomeLaneSays(lanes, turns, id, Fail)
    ensures Check(id, Unavailable) in status.checks <==>
      SomeLaneSays(lanes, turns, id, Unavailable) && !SomeLaneSays(lanes, turns, id, Fail)
    ensures Check(id, Interrupted) in status.checks <==>
      && SomeLaneSays(lanes, turns, id, Interrupted)
      && !SomeLaneSays(lanes, turns, id, Fail) && !SomeLaneSays(lanes, turns, id, Unavailable)
    ensures Check(id, Pass) in status.checks <==>
      forall i :: 0 <= i < |lanes| && lanes[i].checkId == Some(id) ==> Ran(turns, i) && turns[i].end == Exit(0)
  {
    var final := FinalOutcomes(lanes, turns, abortedAfter);
    ReportedOutcomes(lanes, turns, abortedAfter, id);
    ReportedSays(final, id);
    ReadsWorst(status.checks, final, required, id);
    OutcomesFromTurns(lanes, turns, abortedAfter, id, Fail);
    OutcomesFromTurns(lanes, turns, abortedAfter, id, Unavailable);
    OutcomesFromTurns(lanes, turns, abortedAfter, id, Interrupted);
    EveryLaneSaysPass(lanes, turns, abortedAfter, id);
  }

  lemma EveryLaneSaysPass(lanes: seq<Lane>, turns: seq<Turn>, abortedAfter: bool, id: string)
    requires |turns| == |lanes|
    ensures var final := FinalOutcomes(lanes, turns, abortedAfter);
      (forall o :: o in final && o.checkId == Some(id) ==> o.result == Pass) <==>
      forall i :: 0 <= i < |lanes| && lanes[i].checkId == Some(id) ==> LaneSays(turns, i, Pass)
  {
    var final := FinalOutcomes(lanes, turns, abortedAfter);
    forall i | 0 <= i < |lanes|
      ensures final[i].checkId == lanes[i].checkId && (final[i].result == Pass <==> LaneSays(turns, i, Pass))
    {
      LaneSaysIts(lanes, turns, abortedAfter, i, Pass);
    }
    forall i | 0 <= i < |lanes| && lanes[i].checkId == Some(id) ensures final[i] in final {
    }
  }

  /** No failure is lost: every failed lane is named, and its check reads unavailable or fail. */
  lemma FailureIsReported(e: Ending, lanes: seq<Lane>, turns: seq<Turn>, abortedAfter: bool, sigterm: bool,
      mode: GateMode, required: seq<string>, collate: (string, string) -> bool, i: nat)
    requires |turns| == |lanes| && EndsRight(e, lanes, turns, abortedAfter, sigterm, mode, required, collate)
    requires FailedLane(turns, i)
    ensures lanes[i].label_ in e.failed
    ensures lanes[i].checkId.Some? ==> ReadsBad(e.status.checks, lanes[i].checkId.value)
    ensures e.status.result != AllPass
  {
    LabelListed(lanes, turns, StopAt(turns), i);
    FailedOutcome(lanes, turns, abortedAfter, i);
    if lanes[i].checkId.Some? {
      WorstIsListed(e.status.checks, FinalOutcomes(lanes, turns, abortedAfter), required, lanes[i].checkId.value, i);
    }
  }

  /** The check is listed, with a result of unavailable or fail. */
  ghost predicate ReadsBad(checks: seq<Check>, id: string) {
    Check(id, Unavailable) in checks || Check(id, Fail) in checks
  }

  lemma FailedOutcome(lanes: seq<Lane>, turns: seq<Turn>, abortedAfter: bool, i: nat)
    requires |turns| == |lanes| && FailedLane(turns, i)
    ensures var final := FinalOutcomes(lanes, turns, abortedAfter);
      && i < |final| && final[i].checkId == lanes[i].checkId && !AllPassed(final)
      && (final[i].result == Unavailable || final[i].result == Fail)
  {
    var final := FinalOutcomes(lanes, turns, abortedAfter);
    assert final[i].result == ResultOf(turns[i].end) && !Stops(turns[i]);
  }

  lemma WorstIsListed(checks: seq<Check>, outcomes: seq<LaneOutcome>, required: seq<string>, id: string, i: nat)
    requires ChecksAre(checks, outcomes, required) && i < |outcomes| && Reports(outcomes[i], id)
    requires outcomes[i].result == Unavailable || outcomes[i].result == Fail
    ensures ReadsBad(checks, id)
  {
    WorstOfAll(outcomes, id);
    var r := WorstOf(outcomes, |outcomes|, id).value;
    assert CheckIs(outcomes, required, Check(id, r).id, Check(id, r).result);
  }

  lemma {:induction false} LabelListed(lanes: seq<Lane>, turns: seq<Turn>, n: nat, i: nat)
    requires |turns| == |lanes| && i < n <= |lanes| && FailCode(turns[i].end) != 0
    ensures lanes[i].label_ in FailedLabels(lanes, turns, n)
  {
    if i < n - 1 {
      LabelListed(lanes, turns, n - 1, i);
    }
  }
}
