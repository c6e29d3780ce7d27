/**
 The composed gate status (scripts/aggregate-test-gate.ts): the worst result reported for each
 check, and one result for the run.
 */
module GateStatus {
  import opened JsText
  import opened Sorting

  datatype LaneResult = Pass | Skipped | Interrupted | Unavailable | Fail

  datatype LaneOutcome = LaneOutcome(checkId: Option<string>, result: LaneResult)

  datatype GateMode = Full | Fast | DocsOnly

  datatype Check = Check(id: string, result: LaneResult)

  datatype Overall = AllPass | SomeFail | Cut

  datatype Status = Status(mode: GateMode, checks: seq<Check>, result: Overall)

  function Severity(r: LaneResult): nat {
    match r
    case Pass => 0
    case Skipped => 1
    case Interrupted => 2
    case Unavailable => 3
    case Fail => 4
  }

  // ---- What the status must say ------------------------------------------

  predicate Reports(o: LaneOutcome, id: string) {
    o.checkId == Some(id)
  }

  ghost predicate IsReported(outcomes: seq<LaneOutcome>, id: string) {
    exists i :: 0 <= i < |outcomes| && Reports(outcomes[i], id)
  }

  /** `r` was reported for the check and nothing worse was. */
  ghost predicate IsWorst(outcomes: seq<LaneOutcome>, id: string, r: LaneResult) {
    && LaneOutcome(Some(id), r) in outcomes
    && forall i :: 0 <= i < |outcomes| && Reports(outcomes[i], id) ==> Severity(outcomes[i].result) <= Severity(r)
  }

  /** What the status says of a check: its worst result, or skipped when it is required and went unreported. */
  ghost predicate CheckIs(outcomes: seq<LaneOutcome>, required: seq<string>, id: string, r: LaneResult) {
    if IsReported(outcomes, id) then IsWorst(outcomes, id, r) else id in required && r == Skipped
  }

  predicate IdLeq(collate: (string, string) -> bool, a: Check, b: Check) {
    collate(a.id, b.id)
  }

  function ById(collate: (string, string) -> bool): (Check, Check) -> bool {
    (a, b) => IdLeq(collate, a, b)
  }

  ghost predicate ChecksAre(checks: seq<Check>, outcomes: seq<LaneOutcome>, required: seq<string>) {
    && (forall i, j :: 0 <= i < j < |checks| ==> checks[i].id != checks[j].id)
    && (forall c :: c in checks <==> CheckIs(outcomes, required, c.id, c.result))
  }

  ghost predicate AllReported(outcomes: seq<LaneOutcome>, required: seq<string>) {
    forall i :: 0 <= i < |required| ==> IsReported(outcomes, required[i])
  }

  predicate AllPassed(outcomes: seq<LaneOutcome>) {
    forall i :: 0 <= i < |outcomes| ==> outcomes[i].result == Pass
  }

  predicate SomeInterrupted(outcomes: seq<LaneOutcome>) {
    exists i :: 0 <= i < |outcomes| && outcomes[i].result == Interrupted
  }

  ghost predicate OverallIs(outcomes: seq<LaneOutcome>, required: seq<string>, r: Overall) {
    && (r == Cut <==> SomeInterrupted(outcomes))
    && (r == AllPass <==> AllPassed(outcomes) && AllReported(outcomes, required))
  }

  ghost predicate StatusIs(s: Status, outcomes: seq<LaneOutcome>, mode: GateMode, required: seq<string>,
      collate: (string, string) -> bool) {
    && s.mode == mode && ChecksAre(s.checks, outcomes, required) && SortedBy(s.checks, ById(collate))
    && OverallIs(outcomes, required, s.result)
  }

  /** Some outcome for the check has this result. */
  predicate Says(outcomes: seq<LaneOutcome>, id: string, r: LaneResult) {
    LaneOutcome(Some(id), r) in outcomes
  }

  /**
   What is listed for a check that was reported, result by result: a failure before all, then a
   lane that could not be run, one that was cut, and one that was left out; a pass only when every
   outcome for the check is a pass.
   */
  lemma ReadsWorst(checks: seq<Check>, outcomes: seq<LaneOutcome>, required: seq<string>, id: string)
    requires ChecksAre(checks, outcomes, required) && exists r :: Says(outcomes, id, r)
    ensures Check(id, Fail) in checks <==> Says(outcomes, id, Fail)
    ensures Check(id, Unavailable) in checks <==> Says(outcomes, id, Unavailable) && !Says(outcomes, id, Fail)
    ensures Check(id, Interrupted) in checks <==>
      Says(outcomes, id, Interrupted) && !Says(outcomes, id, Fail) && !Says(outcomes, id, Unavailable)
    ensures Check(id, Skipped) in checks <==>
      Says(outcomes, id, Skipped) && forall o :: o in outcomes && o.checkId == Some(id) ==> o.result in {Pass, Skipped}
    ensures Check(id, Pass) in checks <==> forall o :: o in outcomes && o.checkId == Some(id) ==> o.result == Pass
  {
    ListedIffWorst(checks, outcomes, required, id, Fail);
    ListedIffWorst(checks, outcomes, required, id, Unavailable);
    ListedIffWorst(checks, outcomes, required, id, Interrupted);
    ListedIffWorst(checks, outcomes, required, id, Skipped);
    ListedIffWorst(checks, outcomes, required, id, Pass);
    WorseSpelledOut(outcomes, id);
    OnlySays(outcomes, id, {Pass, Skipped});
    OnlySays(outcomes, id, {Pass});
  }

  lemma OnlySays(outcomes: seq<LaneOutcome>, id: string, results: set<LaneResult>)
    ensures (forall o :: o in outcomes && o.checkId == Some(id) ==> o.result in results) <==>
      forall r :: Says(outcomes, id, r) ==> r in results
  {
    forall o | o in outcomes && o.checkId == Some(id) ensures Says(outcomes, id, o.result) {
    }
  }

  lemma WorseSpelledOut(outcomes: seq<LaneOutcome>, id: string)
    ensures NoneWorse(outcomes, id, Fail)
    ensures NoneWorse(outcomes, id, Unavailable) <==> !Says(outcomes, id, Fail)
    ensures NoneWorse(outcomes, id, Interrupted) <==> !Says(outcomes, id, Fail) && !Says(outcomes, id, Unavailable)
    ensures NoneWorse(outcomes, id, Skipped) <==> forall r :: Says(outcomes, id, r) ==> r in {Pass, Skipped}
    ensures NoneWorse(outcomes, id, Pass) <==> forall r :: Says(outcomes, id, r) ==> r in {Pass}
  {
  }

  lemma ListedIffWorst(checks: seq<Check>, outcomes: seq<LaneOutcome>, required: seq<string>, id: string,
      r: LaneResult)
    requires ChecksAre(checks, outcomes, required) && exists q :: Says(outcomes, id, q)
    ensures Check(id, r) in checks <==> Says(outcomes, id, r) && NoneWorse(outcomes, id, r)
  {
    ReportedSays(outcomes, id);
    WorstSays(outcomes, id, r);
    assert Check(id, r) in checks <==> CheckIs(outcomes, required, Check(id, r).id, Check(id, r).result);
  }

  lemma ReportedSays(outcomes: seq<LaneOutcome>, id: string)
    ensures IsReported(outcomes, id) <==> exists r :: Says(outcomes, id, r)
  {
    if i :| 0 <= i < |outcomes| && Reports(outcomes[i], id) {
      assert Says(outcomes, id, outcomes[i].result);
    }
    if r :| Says(outcomes, id, r) {
      var i :| 0 <= i < |outcomes| && outcomes[i] == LaneOutcome(Some(id), r);
      assert Reports(outcomes[i], id);
    }
  }

  ghost predicate NoneWorse(outcomes: seq<LaneOutcome>, id: string, r: LaneResult) {
    forall q :: Says(outcomes, id, q) ==> Severity(q) <= Severity(r)
  }

  lemma WorstSays(outcomes: seq<LaneOutcome>, id: string, r: LaneResult)
    ensures IsWorst(outcomes, id, r) <==> Says(outcomes, id, r) && NoneWorse(outcomes, id, r)
  {
    if Says(outcomes, id, r) && NoneWorse(outcomes, id, r) {
      forall i | 0 <= i < |outcomes| && Reports(outcomes[i], id)
        ensures Severity(outcomes[i].result) <= Severity(r)
      {
        assert Says(outcomes, id, outcomes[i].result);
      }
    }
    if IsWorst(outcomes, id, r) {
      forall q | Says(outcomes, id, q) ensures Severity(q) <= Severity(r) {
        var i :| 0 <= i < |outcomes| && outcomes[i] == LaneOutcome(Some(id), q);
        assert Reports(outcomes[i], id);
      }
    }
  }

  // ---- The table of worst results ----------------------------------------

  /** What the first outcomes leave in the table for a check. */
  function WorstOf(outcomes: seq<LaneOutcome>, n: nat, id: string): Option<LaneResult>
    requires n <= |outcomes|
  {
    if n == 0 then None
    else
      var before, o := WorstOf(outcomes, n - 1, id), outcomes[n - 1];
      if Reports(o, id) && (before.None? || Severity(o.result) > Severity(before.value)) then Some(o.result) else before
  }

  /** `w` is the worst result that the first outcomes report for the check, if they report any. */
  ghost predicate WorstAmong(outcomes: seq<LaneOutcome>, n: nat, id: string, w: Option<LaneResult>)
    requires n <= |outcomes|
  {
    match w
    case None => forall i :: 0 <= i < n ==> !Reports(outcomes[i], id)
    case Some(r) =>
      && (exists i :: 0 <= i < n && outcomes[i] == LaneOutcome(Some(id), r))
      && (forall i :: 0 <= i < n && Reports(outcomes[i], id) ==> Severity(outcomes[i].result) <= Severity(r))
  }

  lemma {:induction false} WorstOfIsWorst(outcomes: seq<LaneOutcome>, n: nat, id: string)
    requires n <= |outcomes|
    ensures WorstAmong(outcomes, n, id, WorstOf(outcomes, n, id))
  {
    if n > 0 {
      WorstOfIsWorst(outcomes, n - 1, id);
      assert Reports(outcomes[n - 1], id) ==> outcomes[n - 1] == LaneOutcome(Some(id), outcomes[n - 1].result);
    }
  }

  lemma WorstOfAll(outcomes: seq<LaneOutcome>, id: string)
    ensures var w := WorstOf(outcomes, |outcomes|, id);
      && (w.Some? <==> IsReported(outcomes, id))
      && (w.Some? ==> IsWorst(outcomes, id, w.value))
  {
    WorstOfIsWorst(outcomes, |outcomes|, id);
  }

  /** The entries of a map in the order of their insertion. */
  datatype Table = Table(ids: seq<string>, results: map<string, LaneResult>)

  ghost predicate TableOk(t: Table) {
    Distinct(t.ids) && forall id :: id in t.ids <==> id in t.results
  }

  function Put(t: Table, id: string, r: LaneResult): Table {
    Table(if id in t.results then t.ids else t.ids + [id], t.results[id := r])
  }

  lemma PutOk(t: Table, id: string, r: LaneResult)
    requires TableOk(t)
    ensures TableOk(Put(t, id, r))
  {
  }

  function Get(t: Table, id: string): Option<LaneResult> {
    if id in t.results then Some(t.results[id]) else None
  }

  /** The table has the worst result of each reported check, and skipped for the required ones with none. */
  ghost predicate Holds(t: Table, outcomes: seq<LaneOutcome>, required: seq<string>) {
    forall id :: Get(t, id) == if WorstOf(outcomes, |outcomes|, id).Some? then WorstOf(outcomes, |outcomes|, id)
                               else if id in required then Some(Skipped) else None
  }

  /** The worst results reported, and skipped for required checks with none. */
  method CollectResults(outcomes: seq<LaneOutcome>, required: seq<string>) returns (t: Table)
    ensures TableOk(t)
    ensures Holds(t, outcomes, required)
  {
    t := Table([], map[]);
    for n := 0 to |outcomes|
      invariant TableOk(t)
      invariant forall id :: Get(t, id) == WorstOf(outcomes, n, id)
    {
      var o := outcomes[n];
      if o.checkId.Some? {
        var id := o.checkId.value;
        var current := Get(t, id);
        if current.None? || Severity(o.result) > Severity(current.value) {
          PutOk(t, id, o.result);
          t := Put(t, id, o.result);
        }
      }
    }
    for m := 0 to |required|
      invariant TableOk(t)
      invariant Holds(t, outcomes, required[..m])
    {
      assert required[..m + 1] == required[..m] + [required[m]];
      if required[m] !in t.results {
        PutOk(t, required[m], Skipped);
        t := Put(t, required[m], Skipped);
      }
    }
    assert required[..|required|] == required;
  }

  function Entries(t: Table): (r: seq<Check>)
    requires forall id :: id in t.ids ==> id in t.results
    ensures |r| == |t.ids| && forall i :: 0 <= i < |r| ==> r[i] == Check(t.ids[i], t.results[t.ids[i]])
  {
    seq(|t.ids|, i requires 0 <= i < |t.ids| => Check(t.ids[i], t.results[t.ids[i]]))
  }

  lemma ByIdIsPreorder(collate: (string, string) -> bool)
    requires TotalPreorder(collate)
    ensures TotalPreorder(ById(collate))
  {
    var leq := ById(collate);
    forall a, b ensures leq(a, b) || leq(b, a) {
      assert collate(a.id, b.id) || collate(b.id, a.id);
    }
    forall a, b, c | leq(a, b) && leq(b, c) ensures leq(a, c) {
      assert collate(a.id, c.id);
    }
  }

  ghost predicate DistinctIds(checks: seq<Check>) {
    forall i, j :: 0 <= i < j < |checks| ==> checks[i].id != checks[j].id
  }

  lemma EntriesDistinct(t: Table)
    requires TableOk(t)
    ensures forall c :: c in Entries(t) <==> Get(t, c.id) == Some(c.result)
    ensures Distinct(Entries(t))
  {
    var entries := Entries(t);
    forall c ensures c in entries <==> Get(t, c.id) == Some(c.result) {
      if Get(t, c.id) == Some(c.result) {
        var i :| 0 <= i < |t.ids| && t.ids[i] == c.id;
        assert entries[i] == c;
      }
    }
  }

  lemma MembersGiveDistinctIds(t: Table, checks: seq<Check>)
    requires Distinct(checks) && forall c :: c in checks <==> Get(t, c.id) == Some(c.result)
    ensures DistinctIds(checks)
  {
    forall i, j | 0 <= i < j < |checks| ensures checks[i].id != checks[j].id {
      assert Get(t, checks[i].id) == Some(checks[i].result) && Get(t, checks[j].id) == Some(checks[j].result);
    }
  }

  lemma TableGivesChecks(t: Table, outcomes: seq<LaneOutcome>, required: seq<string>, c: Check)
    requires Holds(t, outcomes, required)
    ensures Get(t, c.id) == Some(c.result) <==> CheckIs(outcomes, required, c.id, c.result)
  {
    WorstOfAll(outcomes, c.id);
  }

  method SortedChecks(outcomes: seq<LaneOutcome>, required: seq<string>, collate: (string, string) -> bool, t: Table)
    returns (checks: seq<Check>)
    requires TotalPreorder(collate) && TableOk(t)
    requires Holds(t, outcomes, required)
    ensures ChecksAre(checks, outcomes, required) && SortedBy(checks, ById(collate))
  {
    var entries := Entries(t);
    checks := Sort(entries, ById(collate));
    ByIdIsPreorder(collate);
    SortIsSorted(entries, ById(collate));
    SortMembers(entries, ById(collate));
    EntriesDistinct(t);
    SortDistinct(entries, ById(collate));
    MembersGiveDistinctIds(t, checks);
    forall c ensures c in checks <==> CheckIs(outcomes, required, c.id, c.result) {
      TableGivesChecks(t, outcomes, required, c);
    }
  }

  function Results(outcomes: seq<LaneOutcome>): (r: seq<LaneResult>)
    ensures |r| == |outcomes| && forall i :: 0 <= i < |r| ==> r[i] == outcomes[i].result
  {
    seq(|outcomes|, i requires 0 <= i < |outcomes| => outcomes[i].result)
  }

  function RequiredResults(t: Table, required: seq<string>): (r: seq<LaneResult>)
    ensures |r| == |required|
    ensures forall i :: 0 <= i < |r| ==>
      r[i] == if Get(t, required[i]).Some? then Get(t, required[i]).value else Skipped
  {
    seq(|required|, i requires 0 <= i < |required| =>
      if Get(t, required[i]).Some? then Get(t, required[i]).value else Skipped)
  }

  /** A required check's result is one of the outcomes', or skipped when none reported it. */
  lemma RequiredFromOutcomes(t: Table, outcomes: seq<LaneOutcome>, required: seq<string>)
    requires Holds(t, outcomes, required)
    ensures forall i :: 0 <= i < |required| ==>
      if IsReported(outcomes, required[i]) then RequiredResults(t, required)[i] in Results(outcomes)
      else RequiredResults(t, required)[i] == Skipped
  {
    forall i | 0 <= i < |required|
      ensures if IsReported(outcomes, required[i]) then RequiredResults(t, required)[i] in Results(outcomes)
              else RequiredResults(t, required)[i] == Skipped
    {
      WorstOfAll(outcomes, required[i]);
      if IsReported(outcomes, required[i]) {
        var r := RequiredResults(t, required)[i];
        var k :| 0 <= k < |outcomes| && outcomes[k] == LaneOutcome(Some(required[i]), r);
        assert Results(outcomes)[k] == r;
      }
    }
  }

  method ComposeGateStatus(outcomes: seq<LaneOutcome>, mode: GateMode, required: seq<string>,
      collate: (string, string) -> bool)
    returns (status: Status)
    requires TotalPreorder(collate)
    ensures StatusIs(status, outcomes, mode, required, collate)
  {
    var byId := CollectResults(outcomes, required);
    var all := Results(outcomes) + RequiredResults(byId, required);
    var anyFail := Fail in all || Unavailable in all;
    var anyInterrupted := Interrupted in all;
    var anySkipped := Skipped in all;
    var result :=
      if anyInterrupted then Cut else if anyFail then SomeFail else if anySkipped then SomeFail else AllPass;
    OverallOfAll(byId, outcomes, required, result);
    var checks := SortedChecks(outcomes, required, collate, byId);
    status := Status(mode, checks, result);
  }

  lemma OverallOfAll(t: Table, outcomes: seq<LaneOutcome>, required: seq<string>, r: Overall)
    requires Holds(t, outcomes, required)
    requires var all := Results(outcomes) + RequiredResults(t, required);
      r == if Interrupted in all then Cut
           else if Fail in all || Unavailable in all || Skipped in all then SomeFail
           else AllPass
    ensures OverallIs(outcomes, required, r)
  {
    var own, needed := Results(outcomes), RequiredResults(t, required);
    RequiredFromOutcomes(t, outcomes, required);
    InBoth(own, needed);
    assert Interrupted in needed ==> Interrupted in own;
    InterruptedInResults(outcomes);
    PassInResults(outcomes);
    if AllPassed(outcomes) {
      AllReportedGivesPass(t, outcomes, required);
    }
  }

  lemma InBoth(a: seq<LaneResult>, b: seq<LaneResult>)
    ensures forall r :: r in a + b <==> r in a || r in b
  {
  }

  lemma InterruptedInResults(outcomes: seq<LaneOutcome>)
    ensures SomeInterrupted(outcomes) <==> Interrupted in Results(outcomes)
  {
    var own := Results(outcomes);
    if SomeInterrupted(outcomes) {
      var i :| 0 <= i < |outcomes| && outcomes[i].result == Interrupted;
      assert own[i] == Interrupted;
    }
  }

  lemma PassInResults(outcomes: seq<LaneOutcome>)
    ensures AllPassed(outcomes) <==> forall r :: r in Results(outcomes) ==> r == Pass
  {
    var own := Results(outcomes);
    if forall r :: r in own ==> r == Pass {
      assert forall i :: 0 <= i < |own| ==> own[i] in own;
    }
  }

  lemma AllReportedGivesPass(t: Table, outcomes: seq<LaneOutcome>, required: seq<string>)
    requires forall i :: 0 <= i < |required| ==>
      if IsReported(outcomes, required[i]) then RequiredResults(t, required)[i] in Results(outcomes)
      else RequiredResults(t, required)[i] == Skipped
    requires forall r :: r in Results(outcomes) ==> r == Pass
    ensures AllReported(outcomes, required) <==> forall r :: r in RequiredResults(t, required) ==> r == Pass
  {
    var needed := RequiredResults(t, required);
    if forall r :: r in needed ==> r == Pass {
      forall i | 0 <= i < |required| ensures IsReported(outcomes, required[i]) {
        assert needed[i] in needed;
      }
    }
  }

  // ---- The order of the lanes does not matter ----------------------------

  ghost predicate Antisymmetric(leq: (string, string) -> bool) {
    forall a, b :: leq(a, b) && leq(b, a) ==> a == b
  }

  lemma SameMembers(a: seq<LaneOutcome>, b: seq<LaneOutcome>)
    requires multiset(a) == multiset(b)
    ensures forall o :: o in a <==> o in b
  {
    forall o ensures o in a <==> o in b {
      assert o in a <==> o in multiset(a);
      assert o in b <==> o in multiset(b);
    }
  }

  lemma SameChecksOneWay(a: seq<LaneOutcome>, b: seq<LaneOutcome>, required: seq<string>, id: string, r: LaneResult)
    requires (forall o :: o in a <==> o in b) && CheckIs(a, required, id, r)
    ensures CheckIs(b, required, id, r)
  {
    forall i | 0 <= i < |b| ensures b[i] in a {
      assert b[i] in b;
    }
    forall i | 0 <= i < |a| ensures a[i] in b {
      assert a[i] in a;
    }
    ReportedOneWay(a, b, id);
    ReportedOneWay(b, a, id);
  }

  lemma ReportedOneWay(a: seq<LaneOutcome>, b: seq<LaneOutcome>, id: string)
    requires forall i :: 0 <= i < |a| ==> a[i] in b
    ensures IsReported(a, id) ==> IsReported(b, id)
  {
    if IsReported(a, id) {
      var i :| 0 <= i < |a| && Reports(a[i], id);
      assert a[i] in b;
    }
  }

  lemma HasMember(s: seq<Check>)
    requires s != []
    ensures exists c :: c in s
  {
    assert s[0] in s;
  }

  lemma {:induction false} SortedOnce(s: seq<Check>, t: seq<Check>, collate: (string, string) -> bool)
    requires TotalPreorder(collate) && Antisymmetric(collate)
    requires SortedBy(s, ById(collate)) && SortedBy(t, ById(collate)) && DistinctIds(s) && DistinctIds(t)
    requires forall c :: c in s <==> c in t
    ensures s == t
  {
    if s == [] {
      if t != [] {
        HasMember(t);
        assert false;
      }
    } else {
      assert s[0] in s;
      assert s[0] in t && t[0] in t && t[0] in s;
      FirstIsLeast(s, t[0], collate);
      FirstIsLeast(t, s[0], collate);
      assert s[0].id == t[0].id;
      SameIdSame(s, s[0], t[0]);
      TailMembers(s);
      TailMembers(t);
      SortedOnce(s[1..], t[1..], collate);
    }
  }

  lemma FirstIsLeast(s: seq<Check>, c: Check, collate: (string, string) -> bool)
    requires TotalPreorder(collate) && SortedBy(s, ById(collate)) && c in s
    ensures collate(s[0].id, c.id)
  {
    var i :| 0 <= i < |s| && s[i] == c;
    if i == 0 {
      assert collate(c.id, c.id);
    } else {
      assert ById(collate)(s[0], s[i]);
    }
  }

  lemma SameIdSame(s: seq<Check>, c: Check, d: Check)
    requires DistinctIds(s) && c in s && d in s && c.id == d.id
    ensures c == d
  {
  }

  lemma TailMembers(s: seq<Check>)
    requires s != [] && DistinctIds(s)
    ensures forall c :: c in s[1..] <==> c in s && c != s[0]
  {
    forall c ensures c in s[1..] <==> c in s && c != s[0] {
      if c in s && c != s[0] {
        var i :| 0 <= i < |s| && s[i] == c;
        assert s[1..][i - 1] == c;
      }
    }
  }

  /** Whatever order the lanes reported in, the composed status is the same. */
  lemma OrderDoesNotMatter(a: seq<LaneOutcome>, b: seq<LaneOutcome>, s: Status, t: Status, mode: GateMode,
                           required: seq<string>, collate: (string, string) -> bool)
    requires multiset(a) == multiset(b) && TotalPreorder(collate) && Antisymmetric(collate)
    requires StatusIs(s, a, mode, required, collate) && StatusIs(t, b, mode, required, collate)
    ensures s == t
  {
    SameMembers(a, b);
    forall c ensures c in s.checks <==> c in t.checks {
      if c in s.checks {
        SameChecksOneWay(a, b, required, c.id, c.result);
      }
      if c in t.checks {
        SameChecksOneWay(b, a, required, c.id, c.result);
      }
    }
    SortedOnce(s.checks, t.checks, collate);
    SameOverall(a, b, required, s.result, t.result);
  }

  lemma SameOverall(a: seq<LaneOutcome>, b: seq<LaneOutcome>, required: seq<string>, r: Overall, q: Overall)
    requires forall o :: o in a <==> o in b
    requires OverallIs(a, required, r) && OverallIs(b, required, q)
    ensures r == q
  {
    assert forall i :: 0 <= i < |a| ==> a[i] in b;
    assert forall i :: 0 <= i < |b| ==> b[i] in a;
    assert SomeInterrupted(a) <==> SomeInterrupted(b);
    assert AllPassed(a) <==> AllPassed(b);
    forall i | 0 <= i < |required| ensures IsReported(a, required[i]) <==> IsReported(b, required[i]) {
      ReportedOneWay(a, b, required[i]);
      ReportedOneWay(b, a, required[i]);
    }
  }
}
