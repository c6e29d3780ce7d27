/**
 Safety of orphan recovery over every run (scripts/aggregate-test-gate.ts): which groups are
 signalled and which records are removed.
 */
module LaneRecovery {
  import opened JsText
  import opened LaneInvariant
  import opened LaneSystem

  /** `states` is a run: it starts initial and each state follows from the one before by its action. */
  ghost predicate IsRun(states: seq<State>, actions: seq<Action>) {
    && |states| == |actions| + 1
    && Init(states[0])
    && forall i {:trigger StepsAt(states, actions, i)} :: 0 <= i < |actions| ==> StepsAt(states, actions, i)
  }

  ghost predicate StepsAt(states: seq<State>, actions: seq<Action>, i: nat) {
    && i < |actions| && i + 1 < |states|
    && CanStep(states[i], actions[i]) && states[i + 1] == Step(states[i], actions[i])
  }

  lemma {:induction false} RunInv(states: seq<State>, actions: seq<Action>, n: nat)
    requires IsRun(states, actions) && n < |states|
    ensures Inv(states[n])
  {
    if n == 0 {
      InitInv(states[0]);
    } else {
      RunInv(states, actions, n - 1);
      assert StepsAt(states, actions, n - 1);
      StepInv(states[n - 1], actions[n - 1]);
    }
  }

  /**
   A verdict of `recover` means a listed member of the group carries the token and no listed gate
   has the recorded pid.
   */
  lemma RecoverVerdict(r: LaneRecord, listing: seq<ProcessEntry>, procs: map<nat, Proc>)
    requires IsListing(listing, procs) && OrphanedLaneGroup(r, listing) == Recover
    ensures exists p :: p in procs && procs[p].group == r.group && Carries(procs[p].command, r.token)
    ensures !(r.gatePid in procs && IsGateCommand(procs[r.gatePid].command))
  {
    var e :| e in listing && e.group == r.group && Carries(e.command, r.token);
    assert e.pid in procs;
    if r.gatePid in procs {
      assert ProcessEntry(r.gatePid, procs[r.gatePid].group, procs[r.gatePid].command) in listing;
    }
  }

  /** The recorded gate's pid belongs to a process that runs the gate's command. */
  ghost predicate GateListed(r: LaneRecord, procs: map<nat, Proc>) {
    r.gatePid in procs && Contains(procs[r.gatePid].command, "aggregate-test-gate")
  }

  /** Some member of the recorded group carries the record's token. */
  ghost predicate CarrierListed(r: LaneRecord, procs: map<nat, Proc>) {
    exists p :: p in procs && procs[p].group == r.group && Contains(procs[p].command, "--dyfj-lane=" + r.token)
  }

  lemma ListedGate(r: LaneRecord, listing: seq<ProcessEntry>, procs: map<nat, Proc>)
    requires IsListing(listing, procs)
    ensures var gate := FindPid(listing, r.gatePid);
      gate.Some? && IsGateCommand(gate.value.command) <==> GateListed(r, procs)
  {
    if r.gatePid in procs {
      assert ProcessEntry(r.gatePid, procs[r.gatePid].group, procs[r.gatePid].command) in listing;
    }
  }

  lemma ListedCarrier(r: LaneRecord, listing: seq<ProcessEntry>, procs: map<nat, Proc>)
    requires IsListing(listing, procs)
    ensures (exists e :: e in listing && e.group == r.group && Carries(e.command, r.token)) <==> CarrierListed(r, procs)
  {
    if e :| e in listing && e.group == r.group && Carries(e.command, r.token) {
      assert e.pid in procs;
    }
    if CarrierListed(r, procs) {
      var p :| p in procs && procs[p].group == r.group && Contains(procs[p].command, "--dyfj-lane=" + r.token);
      assert ProcessEntry(p, procs[p].group, procs[p].command) in listing;
    }
  }

  /**
   The verdict, from the processes listed: gate-alive exactly when the recorded pid runs a gate,
   whoever else may have it now; otherwise recover exactly when the group holds the token's carrier.
   */
  lemma VerdictIff(r: LaneRecord, listing: seq<ProcessEntry>, procs: map<nat, Proc>)
    requires IsListing(listing, procs)
    ensures OrphanedLaneGroup(r, listing) == GateAlive <==> GateListed(r, procs)
    ensures OrphanedLaneGroup(r, listing) == Recover <==> !GateListed(r, procs) && CarrierListed(r, procs)
    ensures OrphanedLaneGroup(r, listing) == Drop <==> !GateListed(r, procs) && !CarrierListed(r, procs)
  {
    ListedGate(r, listing, procs);
    ListedCarrier(r, listing, procs);
  }

  /**
   In every run, judging a record whose group still holds the token's carrier, and whose pid, if it
   is in use again, runs no gate, leads to signalling that record.
   */
  lemma OrphansAreSignalled(states: seq<State>, actions: seq<Action>, n: nat, r: LaneRecord)
    requires IsRun(states, actions) && StepsAt(states, actions, n) && actions[n].Judge?
    requires var ph := states[n].gates[actions[n].gate].phase;
      ph.read == Some(r) && CarrierListed(r, ph.at.procs) && !GateListed(r, ph.at.procs)
    ensures var ph := states[n].gates[actions[n].gate].phase;
      actions[n].gate in states[n + 1].gates
      && states[n + 1].gates[actions[n].gate].phase == Signalling(ph.name, r, ph.todo, ph.at)
  {
    RunInv(states, actions, n);
    var s, g := states[n], actions[n].gate;
    assert Remembers(s, s.gates[g].phase);
    VerdictIff(r, s.gates[g].phase.at.listing, s.gates[g].phase.at.procs);
  }

  /** A judgement leaves the files alone, and the gate goes on to this phase. */
  ghost predicate GoesTo(s: State, t: State, g: nat, ph: Phase) {
    t.files == s.files && g in t.gates && t.gates[g].phase == ph
  }

  /**
   In every run, what a judgement leads to otherwise: the record of a gate that runs is left, one
   whose group is gone is removed; of the files that did not parse, a partial one is left until it
   is old, and any other is removed.
   */
  lemma OthersAreLeftOrRemoved(states: seq<State>, actions: seq<Action>, n: nat)
    requires IsRun(states, actions) && StepsAt(states, actions, n) && actions[n].Judge?
    ensures var s, t, g := states[n], states[n + 1], actions[n].gate;
      var ph := s.gates[g].phase;
      && (forall r :: ph.read == Some(r) && GateListed(r, ph.at.procs) ==> GoesTo(s, t, g, Scanning(ph.todo, ph.at)))
      && (forall r :: ph.read == Some(r) && !GateListed(r, ph.at.procs) && !CarrierListed(r, ph.at.procs) ==>
            GoesTo(s, t, g, Removing(ph.name, Some(r), ph.todo, ph.at)))
      && (ph.read == None && ph.name.partial && !actions[n].old_ ==> GoesTo(s, t, g, Scanning(ph.todo, ph.at)))
      && (ph.read == None && (!ph.name.partial || actions[n].old_) ==>
            GoesTo(s, t, g, Removing(ph.name, None, ph.todo, ph.at)))
  {
    RunInv(states, actions, n);
    var s, g := states[n], actions[n].gate;
    var ph := s.gates[g].phase;
    assert Remembers(s, ph);
    if ph.read.Some? {
      VerdictIff(ph.read.value, ph.at.listing, ph.at.procs);
    }
  }

  /** In every run, renaming puts the lane's whole record in place and leaves no partial one. */
  lemma RenamePublishes(states: seq<State>, actions: seq<Action>, n: nat)
    requires IsRun(states, actions) && StepsAt(states, actions, n) && actions[n].Rename?
    ensures var s, t := states[n], states[n + 1];
      var token := s.gates[actions[n].gate].phase.token;
      && t.files == (s.files - {FileName(token, true)})[FileName(token, false) := Whole(RecordOf(s.issued, token))]
      && s.issued[token].gate == actions[n].gate
  {
    RunInv(states, actions, n);
    var s, g := states[n], actions[n].gate;
    assert LaneOk(s, g, s.gates[g].phase.token, s.gates[g].phase.progress);
  }

  /** In every run, ending a write completes the record where it still is, and brings back none that was removed. */
  lemma FinishedInPlace(states: seq<State>, actions: seq<Action>, n: nat)
    requires IsRun(states, actions) && StepsAt(states, actions, n) && actions[n].FinishWrite?
    ensures var s, t := states[n], states[n + 1];
      var token := s.gates[actions[n].gate].phase.token;
      && t.files.Keys == s.files.Keys
      && (FileName(token, true) in t.files ==> t.files[FileName(token, true)] == Whole(RecordOf(s.issued, token)))
      && forall name :: name in s.files && name != FileName(token, true) ==> t.files[name] == s.files[name]
  {
    var s := states[n];
    assert CanStep(s, actions[n]);
  }

  /** In every run, a lane that ends takes its record away if it was put in place, and touches no other file. */
  lemma EndTakesRecord(states: seq<State>, actions: seq<Action>, n: nat)
    requires IsRun(states, actions) && StepsAt(states, actions, n) && actions[n].EndLane?
    ensures var s, t := states[n], states[n + 1];
      var ph := s.gates[actions[n].gate].phase;
      && (ph.progress == Recorded ==> t.files == s.files - {FileName(ph.token, false)})
      && (ph.progress != Recorded ==> t.files == s.files)
      && s.issued[ph.token].gate == actions[n].gate
  {
    RunInv(states, actions, n);
    var s, g := states[n], actions[n].gate;
    assert LaneOk(s, g, s.gates[g].phase.token, s.gates[g].phase.progress);
  }

  /** What was true of a group when the listing that condemned it was taken. */
  ghost predicate Orphaned(s: State, r: LaneRecord, at: Moment) {
    && IsListing(at.listing, at.procs)
    && (exists p :: p in at.procs && at.procs[p].group == r.group && Carries(at.procs[p].command, r.token))
    && !(r.gatePid in at.procs && IsGateCommand(at.procs[r.gatePid].command))
    && r.token in s.issued && r == RecordOf(s.issued, r.token)
    && s.issued[r.token].gate !in at.running
    && (forall p :: p in at.procs && at.procs[p].group == r.group ==> at.procs[p].lane == Some(r.token))
  }

  /**
   In every run, whenever a gate is about to signal a recorded group: at its listing a member
   of that group carried the record's token, the recording gate was gone, and every process
   then in the group descended from that very lane, whatever ids had been reused.
   */
  lemma SignalsOnlyOrphans(states: seq<State>, actions: seq<Action>, n: nat)
    requires IsRun(states, actions) && StepsAt(states, actions, n) && actions[n].Signal?
    ensures var ph := states[n].gates[actions[n].gate].phase;
      Orphaned(states[n], ph.record, ph.at)
  {
    RunInv(states, actions, n);
    var s := states[n];
    var ph := s.gates[actions[n].gate].phase;
    assert Remembers(s, ph);
    RecoverVerdict(ph.record, ph.at.listing, ph.at.procs);
    CondemnedGroup(s.issued, ph.record, ph.at);
  }

  lemma CondemnedGroup(issued: map<string, Lane>, r: LaneRecord, at: Moment)
    requires MomentOk(issued, at) && r.token in issued && r == RecordOf(issued, r.token) && IsLaneToken(r.token)
    requires exists p :: p in at.procs && at.procs[p].group == r.group && Carries(at.procs[p].command, r.token)
    requires !(r.gatePid in at.procs && IsGateCommand(at.procs[r.gatePid].command))
    ensures issued[r.token].gate !in at.running
    ensures forall p :: p in at.procs && at.procs[p].group == r.group ==> at.procs[p].lane == Some(r.token)
  {
    var p :| p in at.procs && at.procs[p].group == r.group && Carries(at.procs[p].command, r.token);
    assert TokensOwned(issued, at.procs[p]);
  }

  /** The record file a removal takes away is the usable record of a gate alive at the listing or alive now. */
  ghost predicate LosesLiveRecord(s: State, ph: Phase)
    requires ph.Removing?
  {
    && ph.name in s.files && ParseLaneRecord(s.files[ph.name]).Some? && ph.name.stem in s.issued
    && (s.issued[ph.name.stem].gate in ph.at.running || s.issued[ph.name.stem].gate in s.gates)
  }

  /**
   In every run, a removal takes away the usable record of a gate that was alive at the listing,
   or is alive now, only when it was a partial file that did not parse when it was read.
   */
  lemma RemovesNoLiveRecord(states: seq<State>, actions: seq<Action>, n: nat)
    requires IsRun(states, actions) && StepsAt(states, actions, n) && actions[n].Remove?
    ensures var ph := states[n].gates[actions[n].gate].phase;
      LosesLiveRecord(states[n], ph) ==> ph.name.partial && ph.read == None
  {
    RunInv(states, actions, n);
    var s := states[n];
    var ph := s.gates[actions[n].gate].phase;
    assert Remembers(s, ph);
    if LosesLiveRecord(s, ph) {
      assert FileOk(s.issued, s.stems, ph.name, s.files[ph.name]);
      var owner := s.issued[ph.name.stem].gate;
      if owner in s.gates {
        assert owner in Running(s);
      }
      assert owner in ph.at.running;
      if ph.read.Some? {
        AliveVerdict(s.issued, ph.read.value, ph.at);
      }
    }
  }

  lemma AliveVerdict(issued: map<string, Lane>, r: LaneRecord, at: Moment)
    requires MomentOk(issued, at) && r.token in issued && r == RecordOf(issued, r.token)
    requires issued[r.token].gate in at.running
    ensures OrphanedLaneGroup(r, at.listing) == GateAlive
  {
    assert GatesAgree(issued, at.running);
    var pid := r.gatePid;
    assert pid in at.procs && IsGateCommand(at.procs[pid].command);
    assert ProcessEntry(pid, at.procs[pid].group, at.procs[pid].command) in at.listing;
  }
}
