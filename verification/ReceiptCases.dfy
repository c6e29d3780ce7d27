/**
 Which receipts are accepted when every check passed (scripts/assurance-receipt.ts): exactly those
 whose decision and claim of independence agree.
 */
module ReceiptCases {
  import opened JsText
  import opened Receipt

  /** A required check that ran and gave this result. */
  function Ran(id: string, result: string): Value {
    Obj(map["id" := Str(id), "result" := Str(result), "required" := Bool(true)])
  }

  function AllRan(ids: seq<string>, result: string): seq<Value> {
    seq(|ids|, i requires 0 <= i < |ids| => Ran(ids[i], result))
  }

  /** What a receipt says of independence, and the reference it gives for a bypass. */
  datatype Claim = Claim(required: bool, status: string, observer: string, implementer: string, verifier: string,
                         bypassRef: Option<Value>)

  function ClaimValue(c: Claim): Value {
    Obj(map["required" := Bool(c.required), "status" := Str(c.status), "observed_by" := Str(c.observer),
            "implementer_family" := Str(c.implementer), "verifier_family" := Str(c.verifier)])
  }

  function Buckets(executed: seq<Value>): Value {
    Obj(map["executed" := Arr(executed), "skipped" := Arr([]), "unavailable" := Arr([]), "failed" := Arr([])])
  }

  /** A receipt under the required-checks policy, with every mandatory check run to this result. */
  function ReceiptOf(decision: string, result: string, c: Claim): Value {
    Obj(With(map["policy" := Obj(map["id" := Str("repository.required_checks")]), "decision" := Str(decision),
                 "independence" := ClaimValue(c), "checks" := Buckets(AllRan(MANDATORY_CHECK_IDS, result))],
             "bypass_ref", c.bypassRef))
  }

  function With(fields: map<string, Value>, key: string, value: Option<Value>): map<string, Value> {
    if value.Some? then fields[key := value.value] else fields
  }

  predicate IsBounded(v: Option<Value>) {
    v.Some? && v.value.Str? && 0 < |v.value.s| <= 512
  }

  // ---- The checks --------------------------------------------------------

  ghost predicate DistinctIds(ids: seq<string>) {
    forall i, j :: 0 <= i < j < |ids| ==> ids[i] != ids[j]
  }

  lemma {:induction false} RanCounts(ids: seq<string>, result: string, id: string)
    requires DistinctIds(ids) && forall i :: 0 <= i < |ids| ==> ids[i] in MANDATORY_CHECK_IDS && 0 < |ids[i]| <= 100
    ensures CountId(AllRan(ids, result), id) == if id in ids then 1 else 0
    decreases |ids|
  {
    if ids != [] {
      var n := |ids| - 1;
      var all := AllRan(ids, result);
      assert all[..n] == AllRan(ids[..n], result) && all[n] == Ran(ids[n], result);
      assert ids == ids[..n] + [ids[n]];
      RanCounts(ids[..n], result, id);
      assert NamesId(all[n], id) <==> id == ids[n];
    }
  }

  lemma MandatoryIds()
    ensures DistinctIds(MANDATORY_CHECK_IDS)
    ensures forall i :: 0 <= i < |MANDATORY_CHECK_IDS| ==> 0 < |MANDATORY_CHECK_IDS[i]| <= 100
  {
  }

  lemma EntriesOf(decision: string, result: string, c: Claim)
    ensures var v := ReceiptOf(decision, result, c);
      && Bucket(v, "executed") == Some(Arr(AllRan(MANDATORY_CHECK_IDS, result)))
      && Bucket(v, "skipped") == Some(Arr([])) && Bucket(v, "unavailable") == Some(Arr([]))
      && Bucket(v, "failed") == Some(Arr([]))
      && ExecutedEntries(v) == AllRan(MANDATORY_CHECK_IDS, result) && GapEntries(v) == []
      && AllEntries(v) == AllRan(MANDATORY_CHECK_IDS, result)
  {
    var v := ReceiptOf(decision, result, c);
    assert ExecutedEntries(v) + [] == ExecutedEntries(v);
  }

  lemma ChecksHold(decision: string, result: string, c: Claim)
    requires result in ["pass", "fail", "warn"]
    ensures var v := ReceiptOf(decision, result, c); ChecksOk(v) && NoDuplicates(v) && MandatoryFloor(v)
  {
    var v := ReceiptOf(decision, result, c);
    EntriesOf(decision, result, c);
    MandatoryIds();
    forall i | 0 <= i < |MANDATORY_CHECK_IDS| ensures EntryOk(AllRan(MANDATORY_CHECK_IDS, result)[i], Executed) {
      RanIsOk(MANDATORY_CHECK_IDS[i], result);
    }
    forall id ensures CountId(AllEntries(v), id) == if id in MANDATORY_CHECK_IDS then 1 else 0 {
      RanCounts(MANDATORY_CHECK_IDS, result, id);
    }
  }

  lemma RanIsOk(id: string, result: string)
    requires id in MANDATORY_CHECK_IDS && 0 < |id| <= 100 && result in ["pass", "fail", "warn"]
    ensures EntryOk(Ran(id, result), Executed)
  {
    assert Ran(id, result).fields.Keys == {"id", "result", "required"};
  }

  lemma Results(decision: string, result: string, c: Claim, r: string)
    ensures var v := ReceiptOf(decision, result, c);
      !SomeRequired(GapEntries(v)) && (SomeRequiredResult(ExecutedEntries(v), r) <==> result == r)
  {
    var executed := ExecutedEntries(ReceiptOf(decision, result, c));
    EntriesOf(decision, result, c);
    if result == r {
      assert IsRequired(executed[0]) && HasResult(executed[0], r);
    }
  }

  // ---- The claim ---------------------------------------------------------

  lemma FamilyLetters(s: string)
    requires s in MODEL_FAMILIES
    ensures 0 < |s| <= 9 && forall i :: 0 <= i < |s| ==> 'a' <= s[i] <= 'z'
  {
  }

  lemma FamilyIsItself(s: string)
    requires s in MODEL_FAMILIES
    ensures s !in FAMILY_ALIASES && s !in SENTINEL_FAMILIES
  {
  }

  /** A model family's name is canonical and names itself. */
  lemma ModelFamily(s: string)
    requires s in MODEL_FAMILIES
    ensures IsCanonicalFamily(s) && ResolveFamily(s) == Some(s) && s !in SENTINEL_FAMILIES
    ensures 0 < |s| <= MAX_STRING
  {
    FamilyLetters(s);
    FamilyIsItself(s);
  }

  predicate IsText(s: string) { 0 < |s| <= 512 }

  const STATUSES := ["independent", "absent", "forged", "same-family", "unknown"]

  lemma ClaimHolds(decision: string, result: string, c: Claim)
    requires c.implementer in MODEL_FAMILIES && c.verifier in MODEL_FAMILIES
    ensures var v := ReceiptOf(decision, result, c);
      && (IndependenceShape(v) <==> c.status in STATUSES && IsText(c.observer))
      && (IndependenceOk(v) <==>
            && c.status in STATUSES && IsText(c.observer)
            && (c.status == "independent" ==>
                  c.observer in ["runner-observed", "operator-attested"] && c.implementer != c.verifier))
  {
    ModelFamily(c.implementer);
    ModelFamily(c.verifier);
    var v := ReceiptOf(decision, result, c);
    assert Get(v, "independence") == Some(ClaimValue(c));
  }

  /**
   Under the required-checks policy, with every mandatory check run to one result and two named model
   families: accepted exactly when the decision is a known one, the checks passed unless it is block
   or unknown, the claim is well formed and supported if made, it is made if it is required and the
   decision is allow, warn, degraded or bypass, and a bypass gives a reference.
   */
  lemma AcceptedIff(decision: string, result: string, c: Claim)
    requires result in ["pass", "fail", "warn"]
    requires c.implementer in MODEL_FAMILIES && c.verifier in MODEL_FAMILIES
    ensures Accepted(ReceiptOf(decision, result, c)) <==>
      && decision in ["allow", "warn", "needs-approval", "block", "bypass", "degraded", "unknown"]
      && (result == "pass" || decision in ["block", "unknown"])
      && c.status in STATUSES && IsText(c.observer)
      && (c.status == "independent" ==>
            c.observer in ["runner-observed", "operator-attested"] && c.implementer != c.verifier)
      && (c.required && decision in ["allow", "warn", "degraded", "bypass"] ==> c.status == "independent")
      && (decision == "bypass" ==> IsBounded(c.bypassRef))
  {
    ChecksHold(decision, result, c);
    ClaimHolds(decision, result, c);
    Results(decision, result, c, "fail");
    Results(decision, result, c, "warn");
    DecisionHolds(decision, result, c);
  }

  lemma DecisionHolds(decision: string, result: string, c: Claim)
    ensures var v := ReceiptOf(decision, result, c);
      && (DecisionKnown(v) <==>
            decision in ["allow", "warn", "needs-approval", "block", "bypass", "degraded", "unknown"])
      && (DecisionKnown(v) ==> (Passing(v) <==> decision !in ["block", "unknown"]))
      && (NeedsIndependence(v) <==> decision in ["allow", "warn", "degraded", "bypass"])
      && Get(v, "bypass_ref") == c.bypassRef && Get(v, "decision") == Some(Str(decision))
      && Field(v, "required") == Some(Bool(c.required)) && Field(v, "status") == Some(Str(c.status))
  {
  }

  // ---- One entry ---------------------------------------------------------

  /** The fields an entry gives. */
  datatype Given = Given(id: Option<Value>, result: Option<Value>, required: Option<Value>, reason: Option<Value>,
                         evidence: Option<Value>, extra: bool)

  function EntryOf(g: Given): Value {
    var a := With(With(map[], "id", g.id), "result", g.result);
    var b := With(With(a, "required", g.required), "reason_class", g.reason);
    var c := With(b, "evidence_ref", g.evidence);
    Obj(if g.extra then c["note" := Null] else c)
  }

  predicate IsFlag(v: Option<Value>) {
    v.Some? && v.value.Bool?
  }

  lemma GivenFields(g: Given)
    ensures var e := EntryOf(g);
      && Get(e, "id") == g.id && Get(e, "result") == g.result && Get(e, "required") == g.required
      && Get(e, "reason_class") == g.reason && Get(e, "evidence_ref") == g.evidence
  {
  }

  lemma GivenKeys(g: Given)
    ensures EntryOf(g).fields.Keys <= EXECUTED_CHECK_KEYS <==> g.reason.None? && !g.extra
    ensures EntryOf(g).fields.Keys <= GAP_CHECK_KEYS <==> g.result.None? && g.evidence.None? && !g.extra
  {
    var keys := EntryOf(g).fields.Keys;
    assert "reason_class" in keys <==> g.reason.Some?;
    assert "note" in keys <==> g.extra;
    assert "result" in keys <==> g.result.Some?;
    assert "evidence_ref" in keys <==> g.evidence.Some?;
  }

  /**
   A check that ran is acceptable exactly with a known id, one of three results, a flag and, if it
   cites evidence, a bounded reference, and nothing else.
   */
  lemma ExecutedIff(g: Given)
    ensures EntryOk(EntryOf(g), Executed) <==>
      && IsBounded(g.id) && g.id.value.s in MANDATORY_CHECK_IDS && IsFlag(g.required)
      && g.result.Some? && g.result.value in [Str("pass"), Str("fail"), Str("warn")]
      && (g.evidence.Some? ==> IsBounded(g.evidence)) && g.reason.None? && !g.extra
  {
    GivenFields(g);
    GivenKeys(g);
  }

  /** A check that did not run, exactly with a known id, a reason and a flag, and nothing else. */
  lemma GapIff(g: Given)
    ensures EntryOk(EntryOf(g), Gap) <==>
      && IsBounded(g.id) && g.id.value.s in MANDATORY_CHECK_IDS && IsFlag(g.required) && IsBounded(g.reason)
      && g.result.None? && g.evidence.None? && !g.extra
  {
    GivenFields(g);
    GivenKeys(g);
  }

  // ---- A family's name ---------------------------------------------------

  /** Parts joined by single hyphens. */
  function Hyphened(parts: seq<string>): string {
    if parts == [] then ""
    else if |parts| == 1 then parts[0]
    else parts[0] + ("-" + Hyphened(parts[1..]))
  }

  predicate IsPart(s: string) {
    s != "" && forall i :: 0 <= i < |s| ==> 'a' <= s[i] <= 'z' || '0' <= s[i] <= '9'
  }

  predicate PartsOk(parts: seq<string>) {
    parts != [] && forall i :: 0 <= i < |parts| ==> IsPart(parts[i])
  }

  /** What a canonical name is like, but for its length. */
  predicate Shaped(s: string) {
    && s != "" && (forall i :: 0 <= i < |s| ==> IsFamilyChar(s[i]) || s[i] == '-')
    && s[0] != '-' && s[|s| - 1] != '-'
    && forall i :: 0 <= i < |s| - 1 ==> s[i] != '-' || s[i + 1] != '-'
  }

  lemma {:induction false} HyphenedIsShaped(parts: seq<string>)
    requires PartsOk(parts)
    ensures Shaped(Hyphened(parts))
    decreases |parts|
  {
    if |parts| > 1 {
      HyphenedIsShaped(parts[1..]);
      JoinShaped(parts[0], Hyphened(parts[1..]));
    }
  }

  lemma JoinShaped(part: string, rest: string)
    requires IsPart(part) && Shaped(rest)
    ensures Shaped(part + ("-" + rest))
  {
    var s, n := part + ("-" + rest), |part|;
    assert forall i :: 0 <= i < n ==> s[i] == part[i];
    assert s[n] == '-';
    assert forall i :: n < i < |s| ==> s[i] == rest[i - n - 1];
  }

  function PartEnd(s: string): (n: nat)
    ensures n <= |s| && (forall i :: 0 <= i < n ==> s[i] != '-') && (n < |s| ==> s[n] == '-')
  {
    if s == "" || s[0] == '-' then 0 else 1 + PartEnd(s[1..])
  }

  lemma {:induction false} ShapedIsHyphened(s: string) returns (parts: seq<string>)
    requires Shaped(s)
    ensures PartsOk(parts) && Hyphened(parts) == s
    decreases |s|
  {
    var n := PartEnd(s);
    if n == |s| {
      parts := [s];
    } else {
      RestIsShaped(s, n);
      var others := ShapedIsHyphened(s[n + 1..]);
      parts := [s[..n]] + others;
      assert parts[1..] == others;
      assert s == s[..n] + ("-" + s[n + 1..]);
    }
  }

  lemma RestIsShaped(s: string, n: nat)
    requires Shaped(s) && n < |s| && s[n] == '-' && forall i :: 0 <= i < n ==> s[i] != '-'
    ensures n > 0 && IsPart(s[..n]) && Shaped(s[n + 1..])
  {
    var rest := s[n + 1..];
    assert n + 1 < |s| && s[n + 1] != '-';
    assert forall i :: 0 <= i < |rest| ==> rest[i] == s[n + 1 + i];
  }

  /** A family's name is canonical exactly when it is one to 64 characters of parts joined by single hyphens. */
  lemma CanonicalFamilyIff(s: string)
    ensures IsCanonicalFamily(s) <==> |s| <= 64 && exists parts :: PartsOk(parts) && Hyphened(parts) == s
  {
    if parts :| PartsOk(parts) && Hyphened(parts) == s {
      HyphenedIsShaped(parts);
    }
    if IsCanonicalFamily(s) {
      var parts := ShapedIsHyphened(s);
    }
  }
}
