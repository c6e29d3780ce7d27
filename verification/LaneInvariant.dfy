/**
 What every step of the lane-record protocol keeps (scripts/aggregate-test-gate.ts).
 */
module LaneInvariant {
  import opened JsText
  import opened LaneSystem

  /** Live processes of one group descend from the same lane, or all from none. */
  ghost predicate GroupsUniform(procs: map<nat, Proc>) {
    forall p, q :: p in procs && q in procs && procs[p].group == procs[q].group ==> procs[p].lane == procs[q].lane
  }

  ghost predicate ProcsOk(procs: map<nat, Proc>, issued: map<string, Lane>) {
    GroupsUniform(procs) && forall p :: p in procs ==> TokensOwned(issued, procs[p])
  }

  /** Every running gate is a live process with a gate's command line. */
  ghost predicate GatesOk(running: map<nat, nat>, procs: map<nat, Proc>, nextGate: nat) {
    forall g :: g in running ==> g < nextGate && running[g] in procs && IsGateCommand(procs[running[g]].command)
  }

  ghost predicate IssuedOk(issued: map<string, Lane>, running: map<nat, nat>, nextGate: nat) {
    GatesAgree(issued, running) && forall t :: t in issued ==> issued[t].gate < nextGate
  }

  /** A file under a token's name holds that lane's own record, or a prefix of it while it is partial. */
  ghost predicate FileOk(issued: map<string, Lane>, stems: set<string>, name: FileName, c: Content) {
    && name.stem in stems
    && (name.stem !in issued ==> c == Junk)
    && (name.stem in issued ==>
          c == Whole(RecordOf(issued, name.stem)) || (name.partial && c == Prefix(RecordOf(issued, name.stem))))
  }

  ghost predicate FilesOk(s: State) {
    forall n :: n in s.files ==> FileOk(s.issued, s.stems, n, s.files[n])
  }

  /** The directory entry was there before the listing of `at`. */
  ghost predicate NamedBefore(issued: map<string, Lane>, stems: set<string>, name: FileName, at: Moment) {
    name.stem in stems && (name.stem in issued ==> issued[name.stem].gate < at.nextGate)
  }

  ghost predicate MomentOk(issued: map<string, Lane>, at: Moment) {
    && IsListing(at.listing, at.procs)
    && ProcsOk(at.procs, issued)
    && GatesOk(at.running, at.procs, at.nextGate)
    && GatesAgree(issued, at.running)
  }

  ghost predicate GatesAgree(issued: map<string, Lane>, running: map<nat, nat>) {
    forall t :: t in issued && issued[t].gate in running ==> running[issued[t].gate] == issued[t].gatePid
  }

  /** What a read of `name` returned is that lane's record, or the file did not hold a usable one. */
  ghost predicate ReadOk(issued: map<string, Lane>, name: FileName, read: Option<LaneRecord>) {
    match read
    case Some(r) => r.token == name.stem && name.stem in issued && r == RecordOf(issued, name.stem) && ValidRecord(r)
    case None => name.partial || name.stem !in issued || !ValidRecord(RecordOf(issued, name.stem))
  }

  ghost predicate PhaseOk(issued: map<string, Lane>, stems: set<string>, nextGate: nat, ph: Phase) {
    match ph
    case Starting => true
    case Named(names) =>
      forall n :: n in names ==> n.stem in stems && (n.stem in issued ==> issued[n.stem].gate < nextGate)
    case Scanning(todo, at) => MomentOk(issued, at) && forall n :: n in todo ==> NamedBefore(issued, stems, n, at)
    case Loaded(name, read, todo, at) =>
      && MomentOk(issued, at) && (forall n :: n in todo ==> NamedBefore(issued, stems, n, at))
      && NamedBefore(issued, stems, name, at) && ReadOk(issued, name, read)
    case Signalling(name, record, todo, at) =>
      && MomentOk(issued, at) && (forall n :: n in todo ==> NamedBefore(issued, stems, n, at))
      && NamedBefore(issued, stems, name, at) && ReadOk(issued, name, Some(record))
      && OrphanedLaneGroup(record, at.listing) == Recover
    case Removing(name, read, todo, at) =>
      && MomentOk(issued, at) && (forall n :: n in todo ==> NamedBefore(issued, stems, n, at))
      && NamedBefore(issued, stems, name, at) && ReadOk(issued, name, read)
      && (read.Some? ==> OrphanedLaneGroup(read.value, at.listing) != GateAlive)
    case Between => true
    case InLane(_, _) => true
  }

  function MomentOf(ph: Phase): Option<Moment> {
    if ph.Scanning? || ph.Loaded? || ph.Signalling? || ph.Removing? then Some(ph.at) else None
  }

  /** A gate that existed at the listing and runs now was running at the listing. */
  ghost predicate NoRevival(running: map<nat, nat>, nextGate: nat, ph: Phase) {
    MomentOf(ph).Some? ==>
      var at := MomentOf(ph).value;
      at.nextGate <= nextGate
      && (forall g :: g in running && g < at.nextGate ==> g in at.running)
      && (forall g :: g in running && g in at.running ==> at.running[g] == running[g])
      && (forall g :: g in at.running ==> g < at.nextGate)
  }

  ghost predicate Remembers(s: State, ph: Phase) {
    PhaseOk(s.issued, s.stems, s.nextGate, ph) && NoRevival(Running(s), s.nextGate, ph)
  }

  /** A gate writes only its own lane's record, and has written all of it before it renames it. */
  ghost predicate LanesOk(s: State) {
    forall g :: g in s.gates && s.gates[g].phase.InLane? ==>
      LaneOk(s, g, s.gates[g].phase.token, s.gates[g].phase.progress)
  }

  ghost predicate LaneOk(s: State, g: nat, t: string, progress: Progress) {
    && t in s.issued && s.issued[t].gate == g
    && (progress == Written && FileName(t, true) in s.files ==>
      s.files[FileName(t, true)] == Whole(RecordOf(s.issued, t)))
  }

  ghost predicate SystemOk(s: State) {
    && ProcsOk(s.procs, s.issued)
    && GatesOk(Running(s), s.procs, s.nextGate)
    && IssuedOk(s.issued, Running(s), s.nextGate)
    && (forall t :: t in s.issued ==> t in s.stems)
  }

  ghost predicate AllPhases(s: State) {
    forall g :: g in s.gates ==> Remembers(s, s.gates[g].phase)
  }

  ghost predicate Inv(s: State) {
    && SystemOk(s)
    && FilesOk(s) && LanesOk(s)
    && AllPhases(s)
  }

  /** Before any gate has run: processes of no lane, and no token in use. */
  ghost predicate Init(s: State) {
    && s.gates == map[] && s.nextGate == 0 && s.issued == map[]
    && (forall p :: p in s.procs ==> s.procs[p].lane == None && TokensOwned(s.issued, s.procs[p]))
    && (forall n :: n in s.files ==> s.files[n] == Junk && n.stem in s.stems)
  }

  lemma InitInv(s: State)
    requires Init(s)
    ensures Inv(s)
  {
  }

  // ---- Invariant preservation --------------------------------------------

  /** `issued` and `stems` only grow, and `nextGate` too: what a phase remembers stays true. */
  lemma PhaseKept(issued: map<string, Lane>, issuedLater: map<string, Lane>, stems: set<string>,
      stemsLater: set<string>, nextGate: nat, nextGateLater: nat, ph: Phase)
    requires PhaseOk(issued, stems, nextGate, ph)
    requires stems <= stemsLater && nextGate <= nextGateLater
    requires forall t :: t in issued ==> t in issuedLater && issuedLater[t] == issued[t]
    requires forall t :: t in issuedLater && t !in issued ==> t !in stems
    requires MomentOf(ph).Some? ==> GatesAgree(issuedLater, MomentOf(ph).value.running)
    ensures PhaseOk(issuedLater, stemsLater, nextGateLater, ph)
  {
    if MomentOf(ph).Some? {
      MomentKept(issued, issuedLater, MomentOf(ph).value);
    }
  }

  lemma MomentKept(issued: map<string, Lane>, issuedLater: map<string, Lane>, at: Moment)
    requires MomentOk(issued, at)
    requires forall t :: t in issued ==> t in issuedLater && issuedLater[t] == issued[t]
    requires GatesAgree(issuedLater, at.running)
    ensures MomentOk(issuedLater, at)
  {
    forall p | p in at.procs ensures TokensOwned(issuedLater, at.procs[p]) {
      assert TokensOwned(issued, at.procs[p]);
    }
  }

  /** A gate that changes its phase, and at most its own record's file, keeps the invariant. */
  lemma PhaseSystem(s: State, g: nat, ph: Phase, files: map<FileName, Content>)
    requires SystemOk(s) && g in s.gates
    ensures Running(WithPhase(s, g, ph).(files := files)) == Running(s)
    ensures SystemOk(WithPhase(s, g, ph).(files := files))
  {
    assert Running(WithPhase(s, g, ph).(files := files)) == Running(s);
  }

  lemma PhaseRemembers(s: State, g: nat, ph: Phase, files: map<FileName, Content>)
    requires g in s.gates && Remembers(s, ph) && AllPhases(s)
    requires Running(WithPhase(s, g, ph).(files := files)) == Running(s)
    ensures AllPhases(WithPhase(s, g, ph).(files := files))
  {
    var t := WithPhase(s, g, ph).(files := files);
    forall h | h in t.gates ensures Remembers(t, t.gates[h].phase) {
      if h != g {
        assert Remembers(s, s.gates[h].phase);
      }
    }
  }

  lemma PhaseStepInv(s: State, g: nat, ph: Phase, files: map<FileName, Content>)
    requires Inv(s) && g in s.gates
    requires Remembers(s, ph)
    requires forall n :: n in files ==> FileOk(s.issued, s.stems, n, files[n])
    requires LanesOk(WithPhase(s, g, ph).(files := files))
    ensures Inv(WithPhase(s, g, ph).(files := files))
  {
    PhaseSystem(s, g, ph, files);
    PhaseRemembers(s, g, ph, files);
  }

  /** From `s` to `t`, tokens, stems and gate numbers only grow, and no gate comes back. */
  ghost predicate Grows(s: State, t: State) {
    && s.stems <= t.stems && s.nextGate <= t.nextGate
    && (forall k :: k in s.issued ==> k in t.issued && t.issued[k] == s.issued[k])
    && (forall k :: k in t.issued && k !in s.issued ==>
          k !in s.stems && t.issued[k].gate in s.gates && t.issued[k].gatePid == s.gates[t.issued[k].gate].pid)
    && (forall g :: g in t.gates ==> (g in s.gates && t.gates[g].pid == s.gates[g].pid) || s.nextGate <= g)
  }

  lemma RemembersKept(s: State, t: State, ph: Phase)
    requires Remembers(s, ph) && Grows(s, t)
    ensures Remembers(t, ph)
  {
    if MomentOf(ph).Some? {
      var at := MomentOf(ph).value;
      assert NoRevival(Running(s), s.nextGate, ph);
      AgreeKept(s, t, at.running);
    }
    PhaseKept(s.issued, t.issued, s.stems, t.stems, s.nextGate, t.nextGate, ph);
  }

  lemma AgreeKept(s: State, t: State, running: map<nat, nat>)
    requires Grows(s, t) && GatesAgree(s.issued, running)
    requires forall g :: g in s.gates && g in running ==> running[g] == s.gates[g].pid
    ensures GatesAgree(t.issued, running)
  {
  }

  lemma AllRemember(s: State, t: State)
    requires Grows(s, t)
    requires forall g :: g in s.gates ==> Remembers(s, s.gates[g].phase)
    requires forall g :: g in t.gates ==>
      t.gates[g].phase == Starting || (g in s.gates && s.gates[g].phase == t.gates[g].phase)
    ensures forall g :: g in t.gates ==> Remembers(t, t.gates[g].phase)
  {
    forall g | g in t.gates ensures Remembers(t, t.gates[g].phase) {
      if t.gates[g].phase != Starting {
        RemembersKept(s, t, s.gates[g].phase);
      }
    }
  }

  lemma ForkInv(s: State, a: Action)
    requires Inv(s) && a.Fork? && CanStep(s, a)
    ensures Inv(Step(s, a))
  {
    var t := Step(s, a);
    assert Running(t) == Running(s);
    assert GroupsUniform(t.procs);
    AllRemember(s, t);
  }

  lemma ExitInv(s: State, a: Action)
    requires Inv(s) && a.Exit? && CanStep(s, a)
    ensures Inv(Step(s, a))
  {
    var t := Step(s, a);
    assert forall g :: g in Running(t) ==> g in Running(s) && Running(t)[g] == Running(s)[g];
    AllRemember(s, t);
    LanesKept(s, t);
  }

  lemma StrayFileInv(s: State, a: Action)
    requires Inv(s) && a.StrayFile? && CanStep(s, a)
    ensures Inv(Step(s, a))
  {
    var t := Step(s, a);
    assert Running(t) == Running(s);
    AllRemember(s, t);
    assert FilesOk(t);
    forall g | g in t.gates && t.gates[g].phase.InLane?
      ensures LaneOk(t, g, t.gates[g].phase.token, t.gates[g].phase.progress) {
      assert LaneOk(s, g, s.gates[g].phase.token, s.gates[g].phase.progress);
    }
  }

  lemma BecomeGateInv(s: State, a: Action)
    requires Inv(s) && a.BecomeGate? && CanStep(s, a)
    ensures Inv(Step(s, a))
  {
    BecomeGateSystem(s, a);
    AllRemember(s, Step(s, a));
    LanesKept(s, Step(s, a));
  }

  lemma BecomeGateSystem(s: State, a: Action)
    requires SystemOk(s) && a.BecomeGate? && CanStep(s, a)
    ensures SystemOk(Step(s, a)) && Grows(s, Step(s, a))
    ensures s.nextGate !in s.gates
  {
    assert forall g :: g in s.gates ==> g in Running(s);
    assert Running(Step(s, a)) == Running(s)[s.nextGate := a.pid];
  }

  lemma LanesKept(s: State, t: State)
    requires LanesOk(s) && t.files == s.files && t.issued == s.issued
    requires forall g :: g in t.gates && t.gates[g].phase.InLane? ==>
      g in s.gates && s.gates[g].phase == t.gates[g].phase
    ensures LanesOk(t)
  {
    forall g | g in t.gates && t.gates[g].phase.InLane?
      ensures LaneOk(t, g, t.gates[g].phase.token, t.gates[g].phase.progress) {
      assert LaneOk(s, g, s.gates[g].phase.token, s.gates[g].phase.progress);
    }
  }

  lemma SpawnLaneInv(s: State, a: Action)
    requires Inv(s) && a.SpawnLane? && CanStep(s, a)
    ensures Inv(Step(s, a))
  {
    SpawnedSystem(s, a);
    SpawnedRemember(s, a);
    SpawnedFiles(s, a);
  }

  lemma SpawnedSystem(s: State, a: Action)
    requires SystemOk(s) && a.SpawnLane? && CanStep(s, a)
    ensures SystemOk(Step(s, a))
  {
    SpawnedProcs(s, a);
    assert a.gate in Running(s);
    assert Running(Step(s, a)) == Running(s);
    SpawnedIssued(s.issued, Running(s), s.nextGate, a.token, Lane(a.gate, s.gates[a.gate].pid, a.leader));
  }

  lemma SpawnedIssued(issued: map<string, Lane>, running: map<nat, nat>, nextGate: nat, token: string, lane: Lane)
    requires IssuedOk(issued, running, nextGate)
    requires lane.gate in running && running[lane.gate] == lane.gatePid && lane.gate < nextGate
    ensures IssuedOk(issued[token := lane], running, nextGate)
  {
  }

  lemma SpawnedProcs(s: State, a: Action)
    requires SystemOk(s) && a.SpawnLane? && CanStep(s, a)
    ensures ProcsOk(Step(s, a).procs, Step(s, a).issued)
  {
    var t := Step(s, a);
    assert GroupsUniform(t.procs);
    forall p | p in t.procs ensures TokensOwned(t.issued, t.procs[p]) {
      if p != a.leader {
        assert TokensOwned(s.issued, s.procs[p]);
      }
    }
  }

  lemma SpawnedRemember(s: State, a: Action)
    requires Inv(s) && a.SpawnLane? && CanStep(s, a)
    ensures forall g :: g in Step(s, a).gates ==> Remembers(Step(s, a), Step(s, a).gates[g].phase)
  {
    var t := Step(s, a);
    assert Grows(s, t);
    forall g | g in t.gates ensures Remembers(t, t.gates[g].phase) {
      if g != a.gate {
        RemembersKept(s, t, s.gates[g].phase);
      }
    }
  }

  lemma SpawnedFiles(s: State, a: Action)
    requires Inv(s) && a.SpawnLane? && CanStep(s, a)
    ensures FilesOk(Step(s, a)) && LanesOk(Step(s, a))
  {
    var t := Step(s, a);
    forall n | n in t.files ensures FileOk(t.issued, t.stems, n, t.files[n]) {
      assert FileOk(s.issued, s.stems, n, s.files[n]);
    }
    forall g | g in t.gates && t.gates[g].phase.InLane?
      ensures LaneOk(t, g, t.gates[g].phase.token, t.gates[g].phase.progress) {
      if g != a.gate {
        assert LaneOk(s, g, s.gates[g].phase.token, s.gates[g].phase.progress);
      }
    }
  }

  // ---- The recovering gate's own steps -----------------------------------

  lemma OtherLanesKept(s: State, g: nat, ph: Phase, files: map<FileName, Content>)
    requires LanesOk(s) && g in s.gates
    requires forall n :: n in files ==> n in s.files && files[n] == s.files[n]
    requires !ph.InLane?
    ensures LanesOk(WithPhase(s, g, ph).(files := files))
  {
    var t := WithPhase(s, g, ph).(files := files);
    forall h | h in t.gates && t.gates[h].phase.InLane?
      ensures LaneOk(t, h, t.gates[h].phase.token, t.gates[h].phase.progress) {
      assert LaneOk(s, h, s.gates[h].phase.token, s.gates[h].phase.progress);
    }
  }

  ghost predicate Recovering(a: Action) {
    a.ReadNames? || a.ListProcesses? || a.ReadRecord? || a.Judge? || a.Signal? || a.Remove? || a.EndRecovery?
  }

  lemma ListPhase(s: State, a: Action)
    requires SystemOk(s) && a.ListProcesses? && CanStep(s, a) && Remembers(s, s.gates[a.gate].phase)
    ensures Remembers(s, Step(s, a).gates[a.gate].phase)
  {
    assert MomentOk(s.issued, Moment(a.listing, s.procs, Running(s), s.nextGate));
  }

  lemma ReadPhase(s: State, ph: Phase)
    requires FilesOk(s) && ph.Scanning? && ph.todo != [] && Remembers(s, ph)
    ensures Remembers(s, AfterRead(ph, s.files))
  {
    assert ph.todo[0] in ph.todo;
    assert forall n :: n in ph.todo[1..] ==> n in ph.todo;
    if ph.todo[0] in s.files {
      assert FileOk(s.issued, s.stems, ph.todo[0], s.files[ph.todo[0]]);
    }
  }

  lemma NamesPhase(s: State, a: Action)
    requires FilesOk(s) && (forall t :: t in s.issued ==> s.issued[t].gate < s.nextGate)
    requires a.ReadNames? && CanStep(s, a)
    ensures Remembers(s, Step(s, a).gates[a.gate].phase)
  {
    forall n | n in a.names ensures n.stem in s.stems {
      assert FileOk(s.issued, s.stems, n, s.files[n]);
    }
  }

  lemma JudgePhase(s: State, ph: Phase, old_: bool)
    requires ph.Loaded? && Remembers(s, ph)
    ensures Remembers(s, AfterJudge(ph, old_))
  {
  }

  lemma ClosingPhase(s: State, a: Action)
    requires a.Signal? || a.Remove? || a.EndRecovery?
    requires CanStep(s, a) && Remembers(s, s.gates[a.gate].phase)
    ensures Remembers(s, Step(s, a).gates[a.gate].phase)
  {
  }

  lemma RecoveryShape(s: State, a: Action)
    requires Recovering(a) && CanStep(s, a)
    ensures !Step(s, a).gates[a.gate].phase.InLane?
    ensures Step(s, a) == WithPhase(s, a.gate, Step(s, a).gates[a.gate].phase).(files := Step(s, a).files)
    ensures forall n :: n in Step(s, a).files ==> n in s.files && Step(s, a).files[n] == s.files[n]
  {
  }

  lemma RecoveryRemembers(s: State, a: Action)
    requires Inv(s) && Recovering(a) && CanStep(s, a)
    ensures Remembers(s, Step(s, a).gates[a.gate].phase)
  {
    assert Remembers(s, s.gates[a.gate].phase);
    if a.ReadNames? {
      NamesPhase(s, a);
    } else if a.ListProcesses? {
      ListPhase(s, a);
    } else if a.ReadRecord? {
      ReadPhase(s, s.gates[a.gate].phase);
    } else if a.Judge? {
      JudgePhase(s, s.gates[a.gate].phase, a.old_);
    } else {
      ClosingPhase(s, a);
    }
  }

  lemma RecoveryInv(s: State, a: Action)
    requires Inv(s) && Recovering(a) && CanStep(s, a)
    ensures Inv(Step(s, a))
  {
    RecoveryShape(s, a);
    RecoveryRemembers(s, a);
    var ph := Step(s, a).gates[a.gate].phase;
    OtherLanesKept(s, a.gate, ph, Step(s, a).files);
    forall n | n in Step(s, a).files ensures FileOk(s.issued, s.stems, n, Step(s, a).files[n]) {
      assert FileOk(s.issued, s.stems, n, s.files[n]);
    }
    PhaseStepInv(s, a.gate, ph, Step(s, a).files);
  }

  // ---- The writing gate's steps ------------------------------------------

  ghost predicate WritesLane(a: Action) {
    a.BeginWrite? || a.FinishWrite? || a.Rename? || a.GiveUp? || a.EndLane?
  }

  /** A gate changing only its own lane's files leaves the other lanes as they were. */
  lemma OwnFilesOnly(s: State, g: nat, ph: Phase, files: map<FileName, Content>, t: string)
    requires LanesOk(s) && g in s.gates && t in s.issued && s.issued[t].gate == g
    requires forall n: FileName ::
      n.stem != t ==> (n in files <==> n in s.files) && (n in files ==> files[n] == s.files[n])
    requires ph.InLane? ==> LaneOk(WithPhase(s, g, ph).(files := files), g, ph.token, ph.progress)
    ensures LanesOk(WithPhase(s, g, ph).(files := files))
  {
    var r := WithPhase(s, g, ph).(files := files);
    forall h | h in r.gates && r.gates[h].phase.InLane?
      ensures LaneOk(r, h, r.gates[h].phase.token, r.gates[h].phase.progress) {
      if h != g {
        assert LaneOk(s, h, s.gates[h].phase.token, s.gates[h].phase.progress);
      }
    }
  }

  lemma WriterFiles(s: State, a: Action)
    requires FilesOk(s) && LanesOk(s) && (forall t :: t in s.issued ==> t in s.stems)
    requires WritesLane(a) && CanStep(s, a)
    ensures forall n :: n in Step(s, a).files ==> FileOk(s.issued, s.stems, n, Step(s, a).files[n])
  {
    var t := s.gates[a.gate].phase.token;
    assert LaneOk(s, a.gate, t, s.gates[a.gate].phase.progress);
    assert forall n :: n in s.files ==> FileOk(s.issued, s.stems, n, s.files[n]);
  }

  lemma WriterShape(s: State, a: Action)
    requires WritesLane(a) && CanStep(s, a) && LanesOk(s)
    ensures var ph := Step(s, a).gates[a.gate].phase;
      && Step(s, a) == WithPhase(s, a.gate, ph).(files := Step(s, a).files)
      && (ph == Between || (ph.InLane? && ph.token == s.gates[a.gate].phase.token))
      && (ph.InLane? ==> LaneOk(Step(s, a), a.gate, ph.token, ph.progress))
    ensures forall n: FileName :: n.stem != s.gates[a.gate].phase.token ==>
      (n in Step(s, a).files <==> n in s.files) && (n in Step(s, a).files ==> Step(s, a).files[n] == s.files[n])
  {
    assert LaneOk(s, a.gate, s.gates[a.gate].phase.token, s.gates[a.gate].phase.progress);
  }

  /** A gate in or past its lane that touches only files under its own token. */
  lemma WriterMoves(s: State, g: nat, t: string, ph: Phase, files: map<FileName, Content>)
    requires Inv(s) && g in s.gates && t in s.issued && s.issued[t].gate == g
    requires ph == Between || ph.InLane?
    requires forall n :: n in files ==> FileOk(s.issued, s.stems, n, files[n])
    requires forall n: FileName ::
      n.stem != t ==> (n in files <==> n in s.files) && (n in files ==> files[n] == s.files[n])
    requires ph.InLane? ==> LaneOk(WithPhase(s, g, ph).(files := files), g, ph.token, ph.progress)
    ensures Inv(WithPhase(s, g, ph).(files := files))
  {
    OwnFilesOnly(s, g, ph, files, t);
    PhaseStepInv(s, g, ph, files);
  }

  lemma WriterInv(s: State, a: Action)
    requires Inv(s) && WritesLane(a) && CanStep(s, a)
    ensures Inv(Step(s, a))
  {
    var t, r := s.gates[a.gate].phase.token, Step(s, a);
    WriterShape(s, a);
    WriterFiles(s, a);
    assert LaneOk(s, a.gate, t, s.gates[a.gate].phase.progress);
    WriterMoves(s, a.gate, t, r.gates[a.gate].phase, r.files);
  }

  /** Every step keeps the invariant. */
  lemma StepInv(s: State, a: Action)
    requires Inv(s) && CanStep(s, a)
    ensures Inv(Step(s, a))
  {
    if a.Fork? {
      ForkInv(s, a);
    } else if a.Exit? {
      ExitInv(s, a);
    } else if a.StrayFile? {
      StrayFileInv(s, a);
    } else if a.BecomeGate? {
      BecomeGateInv(s, a);
    } else if a.SpawnLane? {
      SpawnLaneInv(s, a);
    } else if Recovering(a) {
      RecoveryInv(s, a);
    } else {
      WriterInv(s, a);
    }
  }
}
