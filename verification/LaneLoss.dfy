/**
 Exactly when recovery loses the usable record of a running gate
 (scripts/aggregate-test-gate.ts): the record was still being written when it was read, and its
 writing ended before the removal.
 */
module LaneLoss {
  import opened JsText
  import opened LaneInvariant
  import opened LaneRecovery
  import opened LaneSystem

  // ---- What becomes of a partial record ----------------------------------

  /** A gate that has not begun to write its record has no partial record. */
  ghost predicate Fresh(s: State) {
    forall g :: g in s.gates && s.gates[g].phase.InLane? && s.gates[g].phase.progress == Unwritten ==>
      FileName(s.gates[g].phase.token, true) !in s.files
  }

  lemma FreshFiles(s: State, a: Action, g: nat)
    requires LanesOk(s) && Fresh(s) && CanStep(s, a) && g in s.gates && g in Step(s, a).gates
    requires s.gates[g].phase == Step(s, a).gates[g].phase
    requires s.gates[g].phase.InLane? && s.gates[g].phase.progress == Unwritten
    ensures FileName(s.gates[g].phase.token, true) !in Step(s, a).files
  {
    assert LaneOk(s, g, s.gates[g].phase.token, Unwritten);
    if a.BeginWrite? {
      assert LaneOk(s, a.gate, s.gates[a.gate].phase.token, Unwritten);
    }
  }

  /** What a step does to a gate that is in a lane afterwards. */
  lemma EntersLane(s: State, a: Action, g: nat)
    requires CanStep(s, a) && g in Step(s, a).gates
    requires Step(s, a).gates[g].phase.InLane? && Step(s, a).gates[g].phase.progress == Unwritten
    ensures g in s.gates
    ensures (a.SpawnLane? && a.gate == g) || Step(s, a).gates[g].phase == s.gates[g].phase
  {
  }

  lemma UnusedStem(s: State, name: FileName)
    requires FilesOk(s) && name.stem !in s.stems
    ensures name !in s.files
  {
    assert name in s.files ==> FileOk(s.issued, s.stems, name, s.files[name]);
  }

  lemma FreshStep(s: State, a: Action)
    requires Inv(s) && Fresh(s) && CanStep(s, a)
    ensures Fresh(Step(s, a))
  {
    var t := Step(s, a);
    forall g | g in t.gates && t.gates[g].phase.InLane? && t.gates[g].phase.progress == Unwritten
      ensures FileName(t.gates[g].phase.token, true) !in t.files
    {
      EntersLane(s, a, g);
      if a.SpawnLane? && a.gate == g {
        UnusedStem(s, FileName(a.token, true));
      } else {
        FreshFiles(s, a, g);
      }
    }
  }

  lemma {:induction false} RunFresh(states: seq<State>, actions: seq<Action>, n: nat)
    requires IsRun(states, actions) && n < |states|
    ensures Fresh(states[n])
  {
    if n > 0 {
      RunFresh(states, actions, n - 1);
      RunInv(states, actions, n - 1);
      assert StepsAt(states, actions, n - 1);
      FreshStep(states[n - 1], actions[n - 1]);
    }
  }

  /** Lane `t` has begun to write, and its partial record, while there, is whole exactly when it was finished. */
  ghost predicate Tracked(s: State, t: string, record: LaneRecord, finished: bool) {
    && t in s.issued && RecordOf(s.issued, t) == record
    && (forall g :: g in s.gates ==> s.gates[g].phase != InLane(t, Unwritten))
    && (FileName(t, true) in s.files ==>
          s.files[FileName(t, true)] == if finished then Whole(record) else Prefix(record))
  }

  /** The step ends the writing of lane `t`'s record. */
  ghost predicate Finishes(s: State, a: Action, t: string) {
    a.FinishWrite? && InLaneAt(s, a.gate) && s.gates[a.gate].phase.token == t
  }

  lemma TrackedFile(s: State, a: Action, t: string, record: LaneRecord, finished: bool)
    requires CanStep(s, a) && Tracked(s, t, record, finished)
    ensures var partial, r := FileName(t, true), Step(s, a);
      partial in r.files ==>
        r.files[partial] == if finished || Finishes(s, a, t) then Whole(record) else Prefix(record)
  {
    if a.BeginWrite? || a.FinishWrite? || a.Rename? {
      assert a.BeginWrite? ==> s.gates[a.gate].phase.token != t;
    } else {
      OtherFiles(s, a, t);
    }
  }

  lemma OtherFiles(s: State, a: Action, t: string)
    requires CanStep(s, a) && t in s.issued && !a.BeginWrite? && !a.FinishWrite? && !a.Rename?
    ensures var partial, r := FileName(t, true), Step(s, a);
      partial in r.files ==> partial in s.files && r.files[partial] == s.files[partial]
  {
  }

  lemma TrackedStep(s: State, a: Action, t: string, record: LaneRecord, finished: bool)
    requires CanStep(s, a) && Tracked(s, t, record, finished) && t in s.stems
    ensures Tracked(Step(s, a), t, record, finished || Finishes(s, a, t))
  {
    var r := Step(s, a);
    TrackedFile(s, a, t, record, finished);
    forall g | g in r.gates ensures r.gates[g].phase != InLane(t, Unwritten) {
      if r.gates[g].phase.InLane? && r.gates[g].phase.progress == Unwritten {
        EntersLane(s, a, g);
      }
    }
  }

  lemma TrackedNext(states: seq<State>, actions: seq<Action>, n: nat, t: string, record: LaneRecord, finished: bool)
    requires IsRun(states, actions) && n < |actions| && Tracked(states[n], t, record, finished)
    ensures Tracked(states[n + 1], t, record, finished || Finishes(states[n], actions[n], t))
  {
    RunInv(states, actions, n);
    assert StepsAt(states, actions, n);
    TrackedStep(states[n], actions[n], t, record, finished);
  }

  ghost predicate FinishedBetween(states: seq<State>, actions: seq<Action>, t: string, m: nat, n: nat)
    requires n <= |actions| < |states|
  {
    exists k :: m < k < n && Finishes(states[k], actions[k], t)
  }

  lemma FinishedNext(states: seq<State>, actions: seq<Action>, t: string, m: nat, n: nat)
    requires m < n < |actions| < |states|
    ensures FinishedBetween(states, actions, t, m, n + 1)
      <==> FinishedBetween(states, actions, t, m, n) || Finishes(states[n], actions[n], t)
  {
  }

  lemma {:induction false} TrackedRun(states: seq<State>, actions: seq<Action>, m: nat, n: nat, t: string,
      record: LaneRecord)
    requires IsRun(states, actions) && m < n <= |actions|
    requires Tracked(states[m + 1], t, record, false)
    ensures Tracked(states[n], t, record, FinishedBetween(states, actions, t, m, n))
  {
    if n > m + 1 {
      TrackedRun(states, actions, m, n - 1, t, record);
      TrackedNext(states, actions, n - 1, t, record, FinishedBetween(states, actions, t, m, n - 1));
      FinishedNext(states, actions, t, m, n - 1);
    }
  }

  // ---- What a removal goes back to ---------------------------------------

  /** Step `m` is the last before `n` at which the gate reads a record. */
  ghost predicate LastRead(actions: seq<Action>, g: nat, m: nat, n: nat) {
    && m < n <= |actions| && actions[m] == ReadRecord(g)
    && forall k :: m < k < n ==> actions[k] != ReadRecord(g)
  }

  predicate AfterReading(ph: Phase) {
    ph.Loaded? || ph.Signalling? || ph.Removing?
  }

  /** A gate past a read got there by reading, or was there already. */
  lemma ReadBefore(s: State, a: Action, g: nat)
    requires CanStep(s, a) && g in Step(s, a).gates && AfterReading(Step(s, a).gates[g].phase)
    ensures g in s.gates && (a == ReadRecord(g) || AfterReading(s.gates[g].phase))
  {
  }

  lemma ReadBeforeIn(states: seq<State>, actions: seq<Action>, g: nat, n: nat)
    requires IsRun(states, actions) && n <= |actions|
    requires g in states[n].gates && AfterReading(states[n].gates[g].phase)
    ensures n > 0 && g in states[n - 1].gates
    ensures actions[n - 1] == ReadRecord(g) || AfterReading(states[n - 1].gates[g].phase)
  {
    if n > 0 {
      assert StepsAt(states, actions, n - 1);
      ReadBefore(states[n - 1], actions[n - 1], g);
    }
  }

  lemma {:induction false} HasLastRead(states: seq<State>, actions: seq<Action>, g: nat, n: nat) returns (m: nat)
    requires IsRun(states, actions) && n <= |actions|
    requires g in states[n].gates && AfterReading(states[n].gates[g].phase)
    ensures LastRead(actions, g, m, n)
  {
    ReadBeforeIn(states, actions, g, n);
    if actions[n - 1] == ReadRecord(g) {
      m := n - 1;
    } else {
      m := HasLastRead(states, actions, g, n - 1);
    }
  }

  /** The gate holds a file that did not parse when it was read. */
  predicate Unparsed(ph: Phase, name: FileName) {
    (ph.Loaded? || ph.Removing?) && ph.name == name && ph.read == None
  }

  lemma UnparsedBefore(s: State, a: Action, g: nat, name: FileName)
    requires CanStep(s, a) && g in Step(s, a).gates && Unparsed(Step(s, a).gates[g].phase, name)
    requires a != ReadRecord(g)
    ensures g in s.gates && Unparsed(s.gates[g].phase, name)
  {
  }

  lemma UnparsedBeforeIn(states: seq<State>, actions: seq<Action>, g: nat, n: nat, name: FileName)
    requires IsRun(states, actions) && 0 < n <= |actions| && actions[n - 1] != ReadRecord(g)
    requires g in states[n].gates && Unparsed(states[n].gates[g].phase, name)
    ensures g in states[n - 1].gates && Unparsed(states[n - 1].gates[g].phase, name)
  {
    assert StepsAt(states, actions, n - 1);
    UnparsedBefore(states[n - 1], actions[n - 1], g, name);
  }

  lemma {:induction false} UnparsedSince(states: seq<State>, actions: seq<Action>, g: nat, m: nat, n: nat,
      name: FileName)
    requires IsRun(states, actions) && LastRead(actions, g, m, n)
    requires g in states[n].gates && Unparsed(states[n].gates[g].phase, name)
    ensures g in states[m + 1].gates && Unparsed(states[m + 1].gates[g].phase, name)
    decreases n
  {
    if n > m + 1 {
      UnparsedBeforeIn(states, actions, g, n, name);
      UnparsedSince(states, actions, g, m, n - 1, name);
    }
  }

  /** A file that was read without parsing was there, and stays there through the read. */
  lemma UnparsedRead(s: State, g: nat, name: FileName)
    requires CanStep(s, ReadRecord(g)) && Unparsed(Step(s, ReadRecord(g)).gates[g].phase, name)
    ensures name in s.files && ParseLaneRecord(s.files[name]) == None
    ensures Step(s, ReadRecord(g)).files == s.files
  {
  }

  /** A stem in use is never given to a new lane. */
  lemma UsedStem(s: State, a: Action, t: string)
    requires CanStep(s, a) && t in s.stems
    ensures t in Step(s, a).stems
    ensures t in Step(s, a).issued ==> t in s.issued && s.issued[t] == Step(s, a).issued[t]
  {
  }

  lemma UsedStemIn(states: seq<State>, actions: seq<Action>, n: nat, t: string)
    requires IsRun(states, actions) && n < |actions| && t in states[n].stems
    ensures t in states[n + 1].stems
    ensures t in states[n + 1].issued ==> t in states[n].issued && states[n].issued[t] == states[n + 1].issued[t]
  {
    assert StepsAt(states, actions, n);
    UsedStem(states[n], actions[n], t);
  }

  lemma {:induction false} IssuedBefore(states: seq<State>, actions: seq<Action>, m: nat, n: nat, t: string)
    requires IsRun(states, actions) && m <= n < |states| && t in states[m].stems
    ensures t in states[n].stems
    ensures t in states[n].issued ==> t in states[m].issued && states[m].issued[t] == states[n].issued[t]
    decreases n
  {
    if m < n {
      IssuedBefore(states, actions, m, n - 1, t);
      UsedStemIn(states, actions, n - 1, t);
    }
  }

  // ---- The exact condition -----------------------------------------------

  /** The removal concerns a partial file that did not parse, of a gate alive at the listing or now. */
  ghost predicate TakesUnparsedPartial(s: State, ph: Phase)
    requires ph.Removing?
  {
    && ph.name.partial && ph.read == None && ph.name in s.files
    && ph.name.stem in s.issued && ValidRecord(RecordOf(s.issued, ph.name.stem))
    && (s.issued[ph.name.stem].gate in ph.at.running || s.issued[ph.name.stem].gate in s.gates)
  }

  /** When lane `t`'s partial record is read and does not parse, it is a prefix that its gate has begun to write. */
  lemma TrackedFromRead(states: seq<State>, actions: seq<Action>, g: nat, m: nat, t: string, record: LaneRecord)
    requires IsRun(states, actions) && m < |actions| && actions[m] == ReadRecord(g)
    requires g in states[m + 1].gates && Unparsed(states[m + 1].gates[g].phase, FileName(t, true))
    requires t in states[m].issued && RecordOf(states[m].issued, t) == record && ValidRecord(record)
    ensures Tracked(states[m + 1], t, record, false)
  {
    var s := states[m];
    assert StepsAt(states, actions, m);
    RunInv(states, actions, m);
    RunFresh(states, actions, m);
    UnparsedRead(s, g, FileName(t, true));
    PrefixBegun(s, t, record);
    ReadKeeps(s, g, t, record);
  }

  lemma PrefixBegun(s: State, t: string, record: LaneRecord)
    requires FilesOk(s) && Fresh(s) && t in s.issued && RecordOf(s.issued, t) == record && ValidRecord(record)
    requires FileName(t, true) in s.files && ParseLaneRecord(s.files[FileName(t, true)]) == None
    ensures Tracked(s, t, record, false)
  {
    assert FileOk(s.issued, s.stems, FileName(t, true), s.files[FileName(t, true)]);
  }

  lemma ReadKeeps(s: State, g: nat, t: string, record: LaneRecord)
    requires CanStep(s, ReadRecord(g)) && Tracked(s, t, record, false) && t in s.stems
    ensures Tracked(Step(s, ReadRecord(g)), t, record, false)
  {
    TrackedStep(s, ReadRecord(g), t, record, false);
  }

  lemma StemRead(states: seq<State>, actions: seq<Action>, g: nat, m: nat, name: FileName)
    requires IsRun(states, actions) && m < |actions| && actions[m] == ReadRecord(g)
    requires g in states[m + 1].gates && Unparsed(states[m + 1].gates[g].phase, name)
    ensures name.stem in states[m].stems
  {
    var s := states[m];
    assert StepsAt(states, actions, m);
    RunInv(states, actions, m);
    UnparsedRead(s, g, name);
    assert FileOk(s.issued, s.stems, name, s.files[name]);
  }

  /** At the removal the file is whole exactly when its writing ended after the read. */
  lemma WholeIffFinished(states: seq<State>, actions: seq<Action>, m: nat, n: nat)
    requires IsRun(states, actions) && StepsAt(states, actions, n) && actions[n].Remove?
      && LastRead(actions, actions[n].gate, m, n)
    requires actions[n].gate in states[n].gates && states[n].gates[actions[n].gate].phase.Removing?
    requires TakesUnparsedPartial(states[n], states[n].gates[actions[n].gate].phase)
    ensures var name := states[n].gates[actions[n].gate].phase.name;
      ParseLaneRecord(states[n].files[name]).Some? <==> FinishedBetween(states, actions, name.stem, m, n)
  {
    var g := actions[n].gate;
    var name := states[n].gates[g].phase.name;
    var t := name.stem;
    UnparsedSince(states, actions, g, m, n, name);
    StemRead(states, actions, g, m, name);
    IssuedBefore(states, actions, m, n, t);
    assert name == FileName(t, true);
    TrackedFromRead(states, actions, g, m, t, RecordOf(states[n].issued, t));
    TrackedRun(states, actions, m, n, t, RecordOf(states[n].issued, t));
  }

  lemma LosesUsable(s: State, ph: Phase)
    requires Inv(s) && ph.Removing?
    requires LosesLiveRecord(s, ph) ==> ph.name.partial && ph.read == None
    ensures LosesLiveRecord(s, ph) <==> TakesUnparsedPartial(s, ph) && ParseLaneRecord(s.files[ph.name]).Some?
  {
    if LosesLiveRecord(s, ph) {
      assert FileOk(s.issued, s.stems, ph.name, s.files[ph.name]);
    }
  }

  /**
   In every run, a removal loses the usable record of a gate alive at the listing or now exactly
   when the file is that gate's partial record, did not parse when it was read, is still there,
   and the gate finished writing it between that read and the removal.
   */
  lemma LostIffFinishedMeanwhile(states: seq<State>, actions: seq<Action>, n: nat) returns (m: nat)
    requires IsRun(states, actions) && StepsAt(states, actions, n) && actions[n].Remove?
    ensures LastRead(actions, actions[n].gate, m, n)
    ensures var s, ph := states[n], states[n].gates[actions[n].gate].phase;
      LosesLiveRecord(s, ph) <==>
        TakesUnparsedPartial(s, ph) && FinishedBetween(states, actions, ph.name.stem, m, n)
  {
    var s, g := states[n], actions[n].gate;
    assert StepsAt(states, actions, n);
    var ph := s.gates[g].phase;
    m := HasLastRead(states, actions, g, n);
    RemovesNoLiveRecord(states, actions, n);
    RunInv(states, actions, n);
    LosesUsable(s, ph);
    if TakesUnparsedPartial(s, ph) {
      WholeIffFinished(states, actions, m, n);
    }
  }

  // ---- Without a stale judgement -----------------------------------------

  /** The step judges a partial file that did not parse to be too old to be still in writing. */
  ghost predicate JudgesStale(s: State, a: Action, g: nat) {
    a == Judge(g, true) && g in s.gates && s.gates[g].phase.Loaded? && s.gates[g].phase.read == None
    && s.gates[g].phase.name.partial
  }

  predicate DropsPartial(ph: Phase) {
    ph.Removing? && ph.read == None && ph.name.partial
  }

  lemma DropsByJudging(s: State, a: Action, g: nat)
    requires CanStep(s, a) && g in Step(s, a).gates && DropsPartial(Step(s, a).gates[g].phase)
    ensures g in s.gates && (JudgesStale(s, a, g) || DropsPartial(s.gates[g].phase))
  {
  }

  lemma {:induction false} StaleJudgement(states: seq<State>, actions: seq<Action>, g: nat, n: nat) returns (k: nat)
    requires IsRun(states, actions) && n <= |actions|
    requires g in states[n].gates && DropsPartial(states[n].gates[g].phase)
    ensures k < n && JudgesStale(states[k], actions[k], g)
  {
    if n > 0 {
      assert StepsAt(states, actions, n - 1);
      DropsByJudging(states[n - 1], actions[n - 1], g);
      if JudgesStale(states[n - 1], actions[n - 1], g) {
        k := n - 1;
      } else {
        k := StaleJudgement(states, actions, g, n - 1);
      }
    }
  }

  /** A gate that judged no partial record stale removes no usable record of a gate alive at its listing or now. */
  lemma NothingLostUnlessJudgedStale(states: seq<State>, actions: seq<Action>, n: nat)
    requires IsRun(states, actions) && StepsAt(states, actions, n) && actions[n].Remove?
    requires forall k :: 0 <= k < n ==> !JudgesStale(states[k], actions[k], actions[n].gate)
    ensures !LosesLiveRecord(states[n], states[n].gates[actions[n].gate].phase)
  {
    assert StepsAt(states, actions, n);
    RemovesNoLiveRecord(states, actions, n);
    if DropsPartial(states[n].gates[actions[n].gate].phase) {
      var k := StaleJudgement(states, actions, actions[n].gate, n);
      assert false;
    }
  }
}
