/**
 Lane records and the recovery of orphaned lane process groups
 (scripts/aggregate-test-gate.ts): concurrent gates, each able to die at any step, write,
 rename and remove records while a starting gate decides which recorded groups to stop.
 Process and group ids are reused freely; lane tokens are not.
 */
module LaneSystem {
  import opened JsText

  // ---- Records and verdicts ----------------------------------------------

  datatype LaneRecord = LaneRecord(gatePid: nat, group: nat, token: string)

  datatype ProcessEntry = ProcessEntry(pid: nat, group: nat, command: string)

  datatype Verdict = GateAlive | Recover | Drop

  predicate OccursAt(text: string, part: string, i: nat) {
    i + |part| <= |text| && text[i..i + |part|] == part
  }

  predicate Contains(text: string, part: string) {
    exists i :: 0 <= i <= |text| && OccursAt(text, part, i)
  }

  predicate IsGateCommand(command: string) {
    Contains(command, "aggregate-test-gate")
  }

  /** The command line carries the lane token as its argument. */
  predicate Carries(command: string, token: string) {
    Contains(command, "--dyfj-lane=" + token)
  }

  predicate IsHex(c: char) {
    '0' <= c <= '9' || 'a' <= c <= 'f'
  }

  predicate IsLaneToken(token: string) {
    && |token| == 36
    && forall i :: 0 <= i < 36 ==> if i == 8 || i == 13 || i == 18 || i == 23 then token[i] == '-' else IsHex(token[i])
  }

  predicate ValidRecord(r: LaneRecord) {
    r.gatePid > 1 && r.group > 1 && IsLaneToken(r.token)
  }

  function FindPid(processes: seq<ProcessEntry>, pid: nat): (r: Option<ProcessEntry>)
    ensures r.Some? ==> r.value in processes && r.value.pid == pid
    ensures r.None? ==> forall p :: p in processes ==> p.pid != pid
  {
    if processes == [] then None
    else if processes[0].pid == pid then Some(processes[0])
    else FindPid(processes[1..], pid)
  }

  /** The verdict on a record, going by a listing of the processes. */
  function OrphanedLaneGroup(record: LaneRecord, processes: seq<ProcessEntry>): Verdict {
    var gate := FindPid(processes, record.gatePid);
    if gate.Some? && IsGateCommand(gate.value.command) then GateAlive
    else if exists p :: p in processes && p.group == record.group && Carries(p.command, record.token) then Recover
    else Drop
  }

  // ---- The system --------------------------------------------------------

  /** A live process. `lane` is the token of the lane it descends from, which `ps` does not show. */
  datatype Proc = Proc(group: nat, command: string, lane: Option<string>)

  /** The files `<stem>.json` and `<stem>.json.partial`. */
  datatype FileName = FileName(stem: string, partial: bool)

  /** A file's text: a proper prefix of a record's JSON, all of it, or something else that does not parse. */
  datatype Content = Prefix(record: LaneRecord) | Whole(record: LaneRecord) | Junk

  function ParseLaneRecord(c: Content): Option<LaneRecord> {
    match c
    case Whole(r) => if ValidRecord(r) then Some(r) else None
    case Prefix(_) => None
    case Junk => None
  }

  /** What a listing saw, with the state it was taken in. */
  datatype Moment = Moment(listing: seq<ProcessEntry>, procs: map<nat, Proc>, running: map<nat, nat>, nextGate: nat)

  datatype Progress = Unwritten | Writing | Written | Recorded | Unrecorded

  datatype Phase =
    | Starting
    | Named(names: seq<FileName>)
    | Scanning(todo: seq<FileName>, at: Moment)
    | Loaded(name: FileName, read: Option<LaneRecord>, todo: seq<FileName>, at: Moment)
    | Signalling(name: FileName, record: LaneRecord, todo: seq<FileName>, at: Moment)
    | Removing(name: FileName, read: Option<LaneRecord>, todo: seq<FileName>, at: Moment)
    | Between
    | InLane(token: string, progress: Progress)

  datatype Gate = Gate(pid: nat, phase: Phase)

  /** A lane that was started: by which gate, under which pid, as which group. */
  datatype Lane = Lane(gate: nat, gatePid: nat, group: nat)

  datatype State = State(
    procs: map<nat, Proc>,
    gates: map<nat, Gate>,
    nextGate: nat,
    files: map<FileName, Content>,
    issued: map<string, Lane>,
    stems: set<string>)

  function RecordOf(issued: map<string, Lane>, token: string): LaneRecord
    requires token in issued
  {
    LaneRecord(issued[token].gatePid, issued[token].group, token)
  }

  function Running(s: State): map<nat, nat> {
    map id | id in s.gates :: s.gates[id].pid
  }

  /** `l` lists every live process once. */
  ghost predicate IsListing(l: seq<ProcessEntry>, procs: map<nat, Proc>) {
    && (forall e :: e in l ==> e.pid in procs && e.group == procs[e.pid].group && e.command == procs[e.pid].command)
    && (forall p :: p in procs ==> ProcessEntry(p, procs[p].group, procs[p].command) in l)
  }

  // ---- Steps -------------------------------------------------------------

  datatype Action =
    | Fork(parent: nat, child: nat, command: string, ownGroup: bool)
    | Exit(pid: nat)
    | StrayFile(name: FileName)
    | BecomeGate(pid: nat)
    | ReadNames(gate: nat, names: seq<FileName>)
    | ListProcesses(gate: nat, listing: seq<ProcessEntry>)
    | ReadRecord(gate: nat)
    | Judge(gate: nat, old_: bool)
    | Signal(gate: nat)
    | Remove(gate: nat)
    | EndRecovery(gate: nat)
    | SpawnLane(gate: nat, token: string, leader: nat, command: string)
    | BeginWrite(gate: nat)
    | FinishWrite(gate: nat)
    | Rename(gate: nat)
    | GiveUp(gate: nat)
    | EndLane(gate: nat)

  /** A new process id is not the id of a live process or of a live group. */
  ghost predicate FreeId(s: State, id: nat) {
    id !in s.procs && forall p :: p in s.procs ==> s.procs[p].group != id
  }

  /** Only a lane's own descendants carry its token, whichever group they are in. */
  ghost predicate TokensOwned(issued: map<string, Lane>, p: Proc) {
    forall t :: IsLaneToken(t) && Carries(p.command, t) ==> p.lane == Some(t) && t in issued
  }

  function WithPhase(s: State, id: nat, phase: Phase): State
    requires id in s.gates
  {
    s.(gates := s.gates[id := s.gates[id].(phase := phase)])
  }

  function Forked(s: State, parent: nat, child: nat, command: string, ownGroup: bool): Proc
    requires parent in s.procs
  {
    Proc(if ownGroup then child else s.procs[parent].group, command, s.procs[parent].lane)
  }

  /** Recovery keeps the files named `.json` and `.json.partial`, in directory order. */
  ghost predicate IsDirectory(names: seq<FileName>, files: map<FileName, Content>) {
    forall n :: n in names <==> n in files
  }

  ghost predicate InLaneAt(s: State, g: nat) {
    g in s.gates && s.gates[g].phase.InLane? && s.gates[g].phase.token in s.issued
  }

  ghost predicate CanStep(s: State, a: Action) {
    match a
    case Fork(parent, child, command, ownGroup) =>
      && parent in s.procs && FreeId(s, child) && TokensOwned(s.issued, Forked(s, parent, child, command, ownGroup))
    case Exit(pid) => pid in s.procs
    case StrayFile(name) => name.stem !in s.issued
    case BecomeGate(pid) =>
      && pid in s.procs && IsGateCommand(s.procs[pid].command) && forall g :: g in s.gates ==> s.gates[g].pid != pid
    case ReadNames(g, names) => g in s.gates && s.gates[g].phase == Starting && IsDirectory(names, s.files)
    case ListProcesses(g, listing) => g in s.gates && s.gates[g].phase.Named? && IsListing(listing, s.procs)
    case ReadRecord(g) => g in s.gates && s.gates[g].phase.Scanning? && s.gates[g].phase.todo != []
    case Judge(g, _) => g in s.gates && s.gates[g].phase.Loaded?
    case Signal(g) => g in s.gates && s.gates[g].phase.Signalling?
    case Remove(g) => g in s.gates && s.gates[g].phase.Removing?
    case EndRecovery(g) =>
      g in s.gates && (s.gates[g].phase.Starting? || s.gates[g].phase.Named? || s.gates[g].phase.Scanning?)
    case SpawnLane(g, t, leader, command) =>
      && g in s.gates && s.gates[g].phase == Between && IsLaneToken(t) && t !in s.stems && FreeId(s, leader)
      && TokensOwned(s.issued[t := Lane(g, s.gates[g].pid, leader)], Proc(leader, command, Some(t)))
    case BeginWrite(g) => InLaneAt(s, g) && s.gates[g].phase.progress == Unwritten
    case FinishWrite(g) => InLaneAt(s, g) && s.gates[g].phase.progress == Writing
    case Rename(g) =>
      InLaneAt(s, g) && s.gates[g].phase.progress == Written && FileName(s.gates[g].phase.token, true) in s.files
    case GiveUp(g) => InLaneAt(s, g) && s.gates[g].phase.progress != Recorded
    case EndLane(g) => InLaneAt(s, g)
  }

  /** Reading the next recorded file; one that is gone by now is skipped. */
  function AfterRead(ph: Phase, files: map<FileName, Content>): Phase
    requires ph.Scanning? && ph.todo != []
  {
    if ph.todo[0] !in files then Scanning(ph.todo[1..], ph.at)
    else Loaded(ph.todo[0], ParseLaneRecord(files[ph.todo[0]]), ph.todo[1..], ph.at)
  }

  /** The gate's choice for the file in hand. Age alone tells an unfinished partial file from an abandoned one. */
  function AfterJudge(ph: Phase, old_: bool): Phase
    requires ph.Loaded?
  {
    if ph.read.None? then
      if ph.name.partial && !old_ then Scanning(ph.todo, ph.at) else Removing(ph.name, None, ph.todo, ph.at)
    else
      var verdict := OrphanedLaneGroup(ph.read.value, ph.at.listing);
      if verdict == GateAlive then Scanning(ph.todo, ph.at)
      else if verdict == Recover then Signalling(ph.name, ph.read.value, ph.todo, ph.at)
      else Removing(ph.name, ph.read, ph.todo, ph.at)
  }

  function Step(s: State, a: Action): State
    requires CanStep(s, a)
  {
    match a
    case Fork(parent, child, command, ownGroup) =>
      s.(procs := s.procs[child := Forked(s, parent, child, command, ownGroup)])
    case Exit(pid) =>
      s.(procs := s.procs - {pid}, gates := map g | g in s.gates && s.gates[g].pid != pid :: s.gates[g])
    case StrayFile(name) =>
      s.(files := s.files[name := Junk], stems := s.stems + {name.stem})
    case BecomeGate(pid) =>
      s.(gates := s.gates[s.nextGate := Gate(pid, Starting)], nextGate := s.nextGate + 1)
    case ReadNames(g, names) => WithPhase(s, g, Named(names))
    case ListProcesses(g, listing) =>
      WithPhase(s, g, Scanning(s.gates[g].phase.names, Moment(listing, s.procs, Running(s), s.nextGate)))
    case ReadRecord(g) => WithPhase(s, g, AfterRead(s.gates[g].phase, s.files))
    case Judge(g, old_) => WithPhase(s, g, AfterJudge(s.gates[g].phase, old_))
    case Signal(g) =>
      var ph := s.gates[g].phase;
      WithPhase(s, g, Removing(ph.name, Some(ph.record), ph.todo, ph.at))
    case Remove(g) =>
      var ph := s.gates[g].phase;
      WithPhase(s, g, Scanning(ph.todo, ph.at)).(files := s.files - {ph.name})
    case EndRecovery(g) => WithPhase(s, g, Between)
    case SpawnLane(g, t, leader, command) =>
      WithPhase(s, g, InLane(t, Unwritten)).(
        procs := s.procs[leader := Proc(leader, command, Some(t))],
        issued := s.issued[t := Lane(g, s.gates[g].pid, leader)],
        stems := s.stems + {t})
    case BeginWrite(g) =>
      var t := s.gates[g].phase.token;
      WithPhase(s, g, InLane(t, Writing)).(files := s.files[FileName(t, true) := Prefix(RecordOf(s.issued, t))])
    case FinishWrite(g) =>
      // The writer holds the file open: a removed name stays removed.
      var t := s.gates[g].phase.token;
      if FileName(t, true) !in s.files then WithPhase(s, g, InLane(t, Written))
      else WithPhase(s, g, InLane(t, Written)).(files := s.files[FileName(t, true) := Whole(RecordOf(s.issued, t))])
    case Rename(g) =>
      var t := s.gates[g].phase.token;
      WithPhase(s, g, InLane(t, Recorded)).(
        files := (s.files - {FileName(t, true)})[FileName(t, false) := s.files[FileName(t, true)]])
    case GiveUp(g) => WithPhase(s, g, InLane(s.gates[g].phase.token, Unrecorded))
    case EndLane(g) =>
      var ph := s.gates[g].phase;
      // Only a record that was put in place is removed; a partial one is left behind.
      if ph.progress == Recorded
      then WithPhase(s, g, Between).(files := s.files - {FileName(ph.token, false)})
      else WithPhase(s, g, Between)
  }
}
