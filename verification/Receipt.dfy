/**
 The receipt validator's rules on checks, decision and independence
 (scripts/assurance-receipt.ts), and what an accepted receipt implies.

 Only these rules are modelled. The others append violations of their own and never remove
 one, so a receipt the validator accepts is one these rules accept.
 */
module Receipt {
  import opened JsText

  /** A JSON value as the validator reads it; keys of an object are distinct. */
  datatype Value =
    | Null
    | Bool(b: bool)
    | Num(n: int)
    | Str(s: string)
    | Arr(items: seq<Value>)
    | Obj(fields: map<string, Value>)

  const MAX_STRING := 512
  const MAX_CHECK_ENTRIES := 256

  const MANDATORY_CHECK_IDS := [
    "subject.resolve", "subject.digest", "test.aggregate", "secret.tree", "secret.diff", "public.boundary",
    "diff.whitespace", "markdown.links", "shell.parse", "dependency.policy", "receipt.schema"]

  const DECISIONS := ["allow", "warn", "needs-approval", "block", "bypass", "degraded", "unknown"]

  const PASSING_DECISIONS := ["allow", "warn", "needs-approval", "bypass", "degraded"]

  const INDEPENDENCE_STATUSES := ["independent", "absent", "forged", "same-family", "unknown"]

  const SUPPORTING_OBSERVERS := ["runner-observed", "operator-attested"]

  const SENTINEL_FAMILIES := ["none", "unknown"]

  const MODEL_FAMILIES := [
    "anthropic", "openai", "google", "meta", "mistral", "deepseek", "alibaba", "xai", "amazon", "microsoft", "cohere"]

  const FAMILY_ALIASES := map[
    "claude" := "anthropic", "gpt" := "openai", "chatgpt" := "openai", "gemini" := "google", "deepmind" := "google",
    "google-deepmind" := "google", "palm" := "google", "llama" := "meta", "mixtral" := "mistral",
    "codestral" := "mistral", "qwen" := "alibaba", "grok" := "xai", "nova" := "amazon", "titan" := "amazon",
    "phi" := "microsoft", "command" := "cohere"]

  const EXECUTED_CHECK_KEYS := {"id", "result", "required", "evidence_ref"}
  const GAP_CHECK_KEYS := {"id", "reason_class", "required"}
  const CHECK_RESULTS := ["pass", "fail", "warn"]

  datatype Violation =
    | InvalidChecks
    | UnknownNestedField
    | UnknownCheckId
    | DuplicateCheckId
    | MandatoryMissing
    | MandatoryNotRequired
    | PassingWithGap
    | PassingWithFailed
    | PassingWithWarned
    | MissingDecision
    | UnknownDecision
    | MissingBypassRef
    | InvalidIndependence
    | NonCanonicalFamily
    | UnknownFamily
    | UnsupportedIndependence

  function Get(v: Value, key: string): Option<Value> {
    if v.Obj? && key in v.fields then Some(v.fields[key]) else None
  }

  predicate IsBoundedString(v: Option<Value>) {
    v.Some? && v.value.Str? && 0 < |v.value.s| <= MAX_STRING
  }

  // ---- Check entries -----------------------------------------------------

  datatype Kind = Executed | Gap

  function CheckKeys(kind: Kind): set<string> {
    if kind == Executed then EXECUTED_CHECK_KEYS else GAP_CHECK_KEYS
  }

  /** How often an id has occurred, and whether every occurrence was required. */
  datatype Occurrence = Occurrence(count: nat, allRequired: bool)

  datatype Outcome = Outcome(requiredGap: bool, executedFailure: bool, executedWarn: bool)

  /** An entry the rules accept. */
  predicate EntryOk(e: Value, kind: Kind) {
    && IsBoundedString(Get(e, "id"))
    && e.fields.Keys <= CheckKeys(kind)
    && e.fields["id"].s in MANDATORY_CHECK_IDS
    && Get(e, "required").Some? && e.fields["required"].Bool?
    && (kind == Executed ==>
          && Get(e, "result").Some? && e.fields["result"].Str? && e.fields["result"].s in CHECK_RESULTS
          && ("evidence_ref" in e.fields ==> IsBoundedString(Get(e, "evidence_ref"))))
    && (kind == Gap ==> IsBoundedString(Get(e, "reason_class")))
  }

  predicate NamesId(e: Value, id: string) {
    IsBoundedString(Get(e, "id")) && e.fields["id"].s == id && id in MANDATORY_CHECK_IDS
  }

  predicate IsRequired(e: Value) {
    Get(e, "required") == Some(Bool(true))
  }

  predicate HasResult(e: Value, result: string) {
    Get(e, "result") == Some(Str(result))
  }

  function CountId(entries: seq<Value>, id: string): nat {
    if entries == [] then 0
    else (if NamesId(entries[|entries| - 1], id) then 1 else 0) + CountId(entries[..|entries| - 1], id)
  }

  /** `seen` holds, for each id, its count and whether all its entries were required, over `entries`. */
  ghost predicate Tallies(seen: map<string, Occurrence>, entries: seq<Value>) {
    && (forall id :: id in seen <==> CountId(entries, id) > 0)
    && (forall id :: id in seen ==> seen[id].count == CountId(entries, id))
    && (forall id :: id in seen ==>
      (seen[id].allRequired <==> forall i :: 0 <= i < |entries| && NamesId(entries[i], id) ==> IsRequired(entries[i])))
  }

  method CheckEntry(e: Value, kind: Kind, seen: map<string, Occurrence>)
      returns (violations: seq<Violation>, next: map<string, Occurrence>, o: Outcome)
    ensures violations == [] <==> EntryOk(e, kind)
    ensures next == if IsBoundedString(Get(e, "id")) && e.fields["id"].s in MANDATORY_CHECK_IDS
                     then seen[e.fields["id"].s := Counted(seen, e)] else seen
    ensures violations == [] ==> o == Outcome(kind == Gap && IsRequired(e),
                                              kind == Executed && IsRequired(e) && HasResult(e, "fail"),
                                              kind == Executed && IsRequired(e) && HasResult(e, "warn"))
  {
    violations, next, o := [], seen, Outcome(false, false, false);
    if !IsBoundedString(Get(e, "id")) {
      violations := [InvalidChecks];
      return;
    }
    if !(e.fields.Keys <= CheckKeys(kind)) {
      violations := violations + [UnknownNestedField];
    }
    var id := e.fields["id"].s;
    if id !in MANDATORY_CHECK_IDS {
      violations := violations + [UnknownCheckId];
      return;
    }
    next := seen[id := Counted(seen, e)];
    if Get(e, "required").None? || !e.fields["required"].Bool? {
      violations := violations + [InvalidChecks];
      return;
    }
    var required := e.fields["required"].b;
    if kind == Executed {
      if Get(e, "result").None? || !e.fields["result"].Str? || e.fields["result"].s !in CHECK_RESULTS {
        violations := violations + [InvalidChecks];
        return;
      }
      if "evidence_ref" in e.fields && !IsBoundedString(Get(e, "evidence_ref")) {
        violations := violations + [InvalidChecks];
        return;
      }
      o := Outcome(false, e.fields["result"].s == "fail" && required, e.fields["result"].s == "warn" && required);
    } else {
      if !IsBoundedString(Get(e, "reason_class")) {
        violations := violations + [InvalidChecks];
        return;
      }
      o := Outcome(required, false, false);
    }
  }

  function Counted(seen: map<string, Occurrence>, e: Value): Occurrence
    requires IsBoundedString(Get(e, "id"))
  {
    var id := e.fields["id"].s;
    var was := if id in seen then seen[id] else Occurrence(0, true);
    Occurrence(was.count + 1, was.allRequired && IsRequired(e))
  }

  ghost predicate EntriesOk(entries: Option<Value>, kind: Kind) {
    && entries.Some? && entries.value.Arr? && |entries.value.items| <= MAX_CHECK_ENTRIES
    && forall i :: 0 <= i < |entries.value.items| ==> EntryOk(entries.value.items[i], kind)
  }

  function ItemsOf(entries: Option<Value>): seq<Value> {
    if entries.Some? && entries.value.Arr? && |entries.value.items| <= MAX_CHECK_ENTRIES
    then entries.value.items
    else []
  }

  ghost predicate SomeRequired(items: seq<Value>) {
    exists i :: 0 <= i < |items| && IsRequired(items[i])
  }

  ghost predicate SomeRequiredResult(items: seq<Value>, result: string) {
    exists i :: 0 <= i < |items| && IsRequired(items[i]) && HasResult(items[i], result)
  }

  ghost predicate OutcomeFits(o: Outcome, items: seq<Value>, kind: Kind) {
    && (o.requiredGap <==> kind == Gap && SomeRequired(items))
    && (o.executedFailure <==> kind == Executed && SomeRequiredResult(items, "fail"))
    && (o.executedWarn <==> kind == Executed && SomeRequiredResult(items, "warn"))
  }

  lemma CountAppend(entries: seq<Value>, e: Value, id: string)
    ensures CountId(entries + [e], id) == CountId(entries, id) + if NamesId(e, id) then 1 else 0
  {
    assert (entries + [e])[..|entries|] == entries;
  }

  lemma TalliesAppend(seen: map<string, Occurrence>, entries: seq<Value>, e: Value, next: map<string, Occurrence>)
    requires Tallies(seen, entries)
    requires next == if IsBoundedString(Get(e, "id")) && e.fields["id"].s in MANDATORY_CHECK_IDS
                      then seen[e.fields["id"].s := Counted(seen, e)] else seen
    ensures Tallies(next, entries + [e])
  {
    var all := entries + [e];
    forall id ensures CountId(all, id) == CountId(entries, id) + if NamesId(e, id) then 1 else 0 {
      CountAppend(entries, e, id);
    }
    forall id | id in next
      ensures next[id].allRequired <==> forall i :: 0 <= i < |all| && NamesId(all[i], id) ==> IsRequired(all[i]) {
      RequiredAppend(entries, e, id);
      if id !in seen {
        NoneNamed(entries, id);
      }
    }
  }

  lemma RequiredAppend(entries: seq<Value>, e: Value, id: string)
    ensures (forall i :: 0 <= i < |entries + [e]| && NamesId((entries + [e])[i], id) ==> IsRequired((entries + [e])[i]))
      <==>
      ((forall i :: 0 <= i < |entries| && NamesId(entries[i], id) ==> IsRequired(entries[i]))
        && (NamesId(e, id) ==> IsRequired(e)))
  {
    var all := entries + [e];
    assert all[|entries|] == e;
    assert forall i :: 0 <= i < |entries| ==> all[i] == entries[i];
  }

  lemma {:induction false} NoneNamed(entries: seq<Value>, id: string)
    requires CountId(entries, id) == 0
    ensures forall i :: 0 <= i < |entries| ==> !NamesId(entries[i], id)
  {
    if entries != [] {
      NoneNamed(entries[..|entries| - 1], id);
      assert forall i :: 0 <= i < |entries| - 1 ==> entries[i] == entries[..|entries| - 1][i];
    }
  }

  lemma OutcomeAppend(o: Outcome, p: Outcome, items: seq<Value>, e: Value, kind: Kind)
    requires OutcomeFits(o, items, kind)
    requires p == Outcome(kind == Gap && IsRequired(e), kind == Executed && IsRequired(e) && HasResult(e, "fail"),
                          kind == Executed && IsRequired(e) && HasResult(e, "warn"))
    ensures OutcomeFits(Outcome(o.requiredGap || p.requiredGap, o.executedFailure || p.executedFailure,
                                o.executedWarn || p.executedWarn),
                        items + [e], kind)
  {
    var all := items + [e];
    assert all[|items|] == e;
    assert forall i :: 0 <= i < |items| ==> all[i] == items[i];
    assert SomeRequired(all) <==> SomeRequired(items) || IsRequired(e);
    SomeResultAppend(items, e, "fail");
    SomeResultAppend(items, e, "warn");
  }

  lemma SomeResultAppend(items: seq<Value>, e: Value, result: string)
    ensures SomeRequiredResult(items + [e], result) <==>
      SomeRequiredResult(items, result) || (IsRequired(e) && HasResult(e, result))
  {
    var all := items + [e];
    assert all[|items|] == e;
    assert forall i :: 0 <= i < |items| ==> all[i] == items[i];
  }

  /** The scan's state after the first `i` entries of a bucket. */
  ghost predicate Scanned(items: seq<Value>, i: nat, kind: Kind, before: seq<Value>,
                          clean: bool, seen: map<string, Occurrence>, o: Outcome)
    requires i <= |items|
  {
    && (clean <==> forall j :: 0 <= j < i ==> EntryOk(items[j], kind))
    && Tallies(seen, before + items[..i])
    && (clean ==> OutcomeFits(o, items[..i], kind))
  }

  lemma ScannedNext(items: seq<Value>, i: nat, kind: Kind, before: seq<Value>, clean: bool,
      seen: map<string, Occurrence>, o: Outcome, more: bool, next: map<string, Occurrence>, p: Outcome)
    requires i < |items| && Scanned(items, i, kind, before, clean, seen, o)
    requires more <==> EntryOk(items[i], kind)
    requires next == if IsBoundedString(Get(items[i], "id")) && items[i].fields["id"].s in MANDATORY_CHECK_IDS
                     then seen[items[i].fields["id"].s := Counted(seen, items[i])] else seen
    requires more ==> p == Outcome(kind == Gap && IsRequired(items[i]),
                                   kind == Executed && IsRequired(items[i]) && HasResult(items[i], "fail"),
                                   kind == Executed && IsRequired(items[i]) && HasResult(items[i], "warn"))
    ensures Scanned(items, i + 1, kind, before, clean && more, next,
      Outcome(o.requiredGap || p.requiredGap, o.executedFailure || p.executedFailure, o.executedWarn || p.executedWarn))
  {
    TalliesAppend(seen, before + items[..i], items[i], next);
    assert before + items[..i] + [items[i]] == before + items[..i + 1];
    if clean && more {
      OutcomeAppend(o, p, items[..i], items[i], kind);
      assert items[..i] + [items[i]] == items[..i + 1];
    }
  }

  /** One bucket of check entries, tallied on top of the buckets `before` it. */
  method CheckEntryViolations(entries: Option<Value>, kind: Kind, seen0: map<string, Occurrence>,
      ghost before: seq<Value>)
      returns (violations: seq<Violation>, seen: map<string, Occurrence>, o: Outcome)
    requires Tallies(seen0, before)
    ensures violations == [] <==> EntriesOk(entries, kind)
    ensures Tallies(seen, before + ItemsOf(entries))
    ensures violations == [] ==> OutcomeFits(o, ItemsOf(entries), kind)
  {
    if entries.None? || !entries.value.Arr? || |entries.value.items| > MAX_CHECK_ENTRIES {
      violations, seen, o := [InvalidChecks], seen0, Outcome(false, false, false);
      assert before + [] == before;
      return;
    }
    violations, seen, o := ScanEntries(entries.value.items, kind, seen0, before);
    var items := entries.value.items;
    assert items[..|items|] == items;
  }

  method ScanEntries(items: seq<Value>, kind: Kind, seen0: map<string, Occurrence>, ghost before: seq<Value>)
      returns (violations: seq<Violation>, seen: map<string, Occurrence>, o: Outcome)
    requires Tallies(seen0, before)
    ensures Scanned(items, |items|, kind, before, violations == [], seen, o)
  {
    violations, seen, o := [], seen0, Outcome(false, false, false);
    NothingScanned(items, kind, before, seen0);
    for i := 0 to |items|
      invariant Scanned(items, i, kind, before, violations == [], seen, o)
    {
      var more, next, p := CheckEntry(items[i], kind, seen);
      ScannedNext(items, i, kind, before, violations == [], seen, o, more == [], next, p);
      violations, seen := violations + more, next;
      o := Outcome(o.requiredGap || p.requiredGap, o.executedFailure || p.executedFailure,
                   o.executedWarn || p.executedWarn);
    }
  }

  lemma NothingScanned(items: seq<Value>, kind: Kind, before: seq<Value>, seen: map<string, Occurrence>)
    requires Tallies(seen, before)
    ensures Scanned(items, 0, kind, before, true, seen, Outcome(false, false, false))
  {
    assert items[..0] == [] && before + [] == before;
  }

  // ---- All four buckets --------------------------------------------------

  function Bucket(v: Value, name: string): Option<Value> {
    match Get(v, "checks")
    case None => None
    case Some(checks) => Get(checks, name)
  }

  function ExecutedEntries(v: Value): seq<Value> { ItemsOf(Bucket(v, "executed")) }

  function GapEntries(v: Value): seq<Value> {
    ItemsOf(Bucket(v, "skipped")) + ItemsOf(Bucket(v, "unavailable")) + ItemsOf(Bucket(v, "failed"))
  }

  function AllEntries(v: Value): seq<Value> { ExecutedEntries(v) + GapEntries(v) }

  /** All four buckets are there and every entry in them is acceptable. */
  ghost predicate ChecksOk(v: Value) {
    && EntriesOk(Bucket(v, "executed"), Executed) && EntriesOk(Bucket(v, "skipped"), Gap)
    && EntriesOk(Bucket(v, "unavailable"), Gap) && EntriesOk(Bucket(v, "failed"), Gap)
  }

  /** The three buckets of checks that did not run, on top of what is already tallied. */
  method GapBuckets(v: Value, seen0: map<string, Occurrence>, ghost before: seq<Value>)
      returns (violations: seq<Violation>, seen: map<string, Occurrence>, requiredGap: bool)
    requires Tallies(seen0, before)
    ensures violations == [] <==>
      EntriesOk(Bucket(v, "skipped"), Gap) && EntriesOk(Bucket(v, "unavailable"), Gap)
        && EntriesOk(Bucket(v, "failed"), Gap)
    ensures Tallies(seen, before + GapEntries(v))
    ensures violations == [] ==> requiredGap == SomeRequired(GapEntries(v))
  {
    ghost var x, y, z := ItemsOf(Bucket(v, "skipped")), ItemsOf(Bucket(v, "unavailable")), ItemsOf(Bucket(v, "failed"));
    var b, skippedSeen, skipped := CheckEntryViolations(Bucket(v, "skipped"), Gap, seen0, before);
    var c, unavailableSeen, unavailable := CheckEntryViolations(Bucket(v, "unavailable"), Gap, skippedSeen, before + x);
    var d, failedSeen, failed := CheckEntryViolations(Bucket(v, "failed"), Gap, unavailableSeen, before + x + y);
    violations, seen := b + c + d, failedSeen;
    requiredGap := skipped.requiredGap || unavailable.requiredGap || failed.requiredGap;
    assert before + x + y + z == before + GapEntries(v);
    SomeRequiredConcat(x + y, z);
    SomeRequiredConcat(x, y);
  }

  method Checks(v: Value) returns (violations: seq<Violation>, seen: map<string, Occurrence>, o: Outcome)
    ensures violations == [] <==> ChecksOk(v)
    ensures violations == [] ==> Tallies(seen, AllEntries(v))
    ensures violations == [] ==> o.requiredGap == SomeRequired(GapEntries(v))
    ensures violations == [] ==> o.executedFailure == SomeRequiredResult(ExecutedEntries(v), "fail")
    ensures violations == [] ==> o.executedWarn == SomeRequiredResult(ExecutedEntries(v), "warn")
  {
    violations, seen, o := [], map[], Outcome(false, false, false);
    if Bucket(v, "executed").None? || Bucket(v, "skipped").None? || Bucket(v, "unavailable").None?
      || Bucket(v, "failed").None? {
      violations := [InvalidChecks];
      return;
    }
    var a, executedSeen, executed := CheckEntryViolations(Bucket(v, "executed"), Executed, map[], []);
    assert [] + ExecutedEntries(v) == ExecutedEntries(v);
    var b, gapSeen, requiredGap := GapBuckets(v, executedSeen, ExecutedEntries(v));
    violations, seen := a + b, gapSeen;
    o := Outcome(requiredGap, executed.executedFailure, executed.executedWarn);
  }

  lemma SomeRequiredConcat(a: seq<Value>, b: seq<Value>)
    ensures SomeRequired(a + b) <==> SomeRequired(a) || SomeRequired(b)
  {
    if SomeRequired(b) {
      var i :| 0 <= i < |b| && IsRequired(b[i]);
      assert (a + b)[|a| + i] == b[i];
    }
    if SomeRequired(a) {
      var i :| 0 <= i < |a| && IsRequired(a[i]);
      assert (a + b)[i] == a[i];
    }
  }

  ghost predicate NoDuplicates(v: Value) {
    forall id :: CountId(AllEntries(v), id) <= 1
  }

  predicate UnderRequiredChecks(v: Value) {
    var policy := Get(v, "policy");
    policy.Some? && Get(policy.value, "id") == Some(Str("repository.required_checks"))
  }

  ghost predicate MandatoryFloor(v: Value) {
    UnderRequiredChecks(v) ==> forall id :: id in MANDATORY_CHECK_IDS ==>
      CountId(AllEntries(v), id) > 0 && forall i ::
        0 <= i < |AllEntries(v)| && NamesId(AllEntries(v)[i], id) ==> IsRequired(AllEntries(v)[i])
  }

  method Duplicates(seen: map<string, Occurrence>) returns (violations: seq<Violation>)
    ensures violations == [] <==> forall id :: id in seen ==> seen[id].count <= 1
  {
    violations := [];
    var todo := seen.Keys;
    while todo != {}
      invariant todo <= seen.Keys
      invariant violations == [] <==> forall id :: id in seen.Keys - todo ==> seen[id].count <= 1
    {
      var id :| id in todo;
      todo := todo - {id};
      if seen[id].count > 1 {
        violations := violations + [DuplicateCheckId];
      }
    }
  }

  method MandatoryGaps(seen: map<string, Occurrence>) returns (violations: seq<Violation>)
    ensures violations == [] <==> forall id :: id in MANDATORY_CHECK_IDS ==> id in seen && seen[id].allRequired
  {
    violations := [];
    for i := 0 to |MANDATORY_CHECK_IDS|
      invariant violations == [] <==> forall id :: id in MANDATORY_CHECK_IDS[..i] ==> id in seen && seen[id].allRequired
    {
      var id := MANDATORY_CHECK_IDS[i];
      assert MANDATORY_CHECK_IDS[..i + 1] == MANDATORY_CHECK_IDS[..i] + [id];
      if id !in seen {
        violations := violations + [MandatoryMissing];
      } else if !seen[id].allRequired {
        violations := violations + [MandatoryNotRequired];
      }
    }
    assert MANDATORY_CHECK_IDS[..|MANDATORY_CHECK_IDS|] == MANDATORY_CHECK_IDS;
  }

  // ---- Independence ------------------------------------------------------

  predicate IsFamilyChar(c: char) {
    'a' <= c <= 'z' || '0' <= c <= '9'
  }

  /** Lower-case alphanumeric segments joined by single hyphens, at most 64 characters. */
  predicate IsCanonicalFamily(s: string) {
    && 0 < |s| <= 64
    && (forall i :: 0 <= i < |s| ==> IsFamilyChar(s[i]) || s[i] == '-')
    && s[0] != '-' && s[|s| - 1] != '-'
    && (forall i :: 0 <= i < |s| - 1 ==> s[i] != '-' || s[i + 1] != '-')
  }

  function ResolveFamily(s: string): Option<string> {
    if s in FAMILY_ALIASES then Some(FAMILY_ALIASES[s])
    else if s in SENTINEL_FAMILIES || s in MODEL_FAMILIES then Some(s)
    else None
  }

  function Field(v: Value, key: string): Option<Value> {
    match Get(v, "independence")
    case None => None
    case Some(i) => Get(i, key)
  }

  predicate IndependenceShape(v: Value) {
    && Field(v, "required").Some? && Field(v, "required").value.Bool?
    && Field(v, "status").Some? && Field(v, "status").value.Str? && Field(v, "status").value.s in INDEPENDENCE_STATUSES
    && IsBoundedString(Field(v, "observed_by"))
    && IsBoundedString(Field(v, "implementer_family")) && IsBoundedString(Field(v, "verifier_family"))
  }

  /** A status of `independent` with a supporting observer and two resolved, real, distinct families. */
  predicate Supported(v: Value)
    requires IndependenceShape(v)
  {
    var implementer := ResolveFamily(Field(v, "implementer_family").value.s);
    var verifier := ResolveFamily(Field(v, "verifier_family").value.s);
    && Field(v, "observed_by").value.s in SUPPORTING_OBSERVERS
    && implementer.Some? && verifier.Some?
    && implementer.value !in SENTINEL_FAMILIES && verifier.value !in SENTINEL_FAMILIES
    && implementer != verifier
  }

  predicate ClaimsIndependence(v: Value)
    requires IndependenceShape(v)
  {
    Field(v, "status").value.s == "independent"
  }

  predicate IndependenceOk(v: Value) {
    && IndependenceShape(v)
    && IsCanonicalFamily(Field(v, "implementer_family").value.s)
      && IsCanonicalFamily(Field(v, "verifier_family").value.s)
    && ResolveFamily(Field(v, "implementer_family").value.s).Some?
      && ResolveFamily(Field(v, "verifier_family").value.s).Some?
    && (ClaimsIndependence(v) ==> Supported(v))
  }

  method Independence(v: Value) returns (violations: seq<Violation>, shapeOk: bool)
    ensures violations == [] <==> IndependenceOk(v)
    ensures shapeOk ==> IndependenceShape(v)
    ensures violations == [] ==> shapeOk
  {
    violations, shapeOk := [], false;
    if !IndependenceShape(v) {
      violations := [InvalidIndependence];
    } else if !IsCanonicalFamily(Field(v, "implementer_family").value.s)
      || !IsCanonicalFamily(Field(v, "verifier_family").value.s) {
      violations := [NonCanonicalFamily];
    } else {
      shapeOk := true;
      if ResolveFamily(Field(v, "implementer_family").value.s).None?
        || ResolveFamily(Field(v, "verifier_family").value.s).None? {
        violations := [UnknownFamily];
      }
      if ClaimsIndependence(v) && !Supported(v) {
        violations := violations + [UnsupportedIndependence];
      }
    }
  }

  // ---- The decision ------------------------------------------------------

  predicate DecisionIs(v: Value, decision: string) {
    Get(v, "decision") == Some(Str(decision))
  }

  predicate DecisionKnown(v: Value) {
    var d := Get(v, "decision");
    d.Some? && d.value.Str? && d.value.s in DECISIONS
  }

  predicate Passing(v: Value) {
    var d := Get(v, "decision");
    d.Some? && d.value.Str? && d.value.s in PASSING_DECISIONS
  }

  predicate NeedsIndependence(v: Value) {
    DecisionIs(v, "allow") || DecisionIs(v, "warn") || DecisionIs(v, "degraded") || DecisionIs(v, "bypass")
  }

  ghost predicate DecisionOk(v: Value)
    requires IndependenceShape(v)
  {
    && DecisionKnown(v)
    && (Passing(v) ==>
          && !SomeRequired(GapEntries(v))
          && !SomeRequiredResult(ExecutedEntries(v), "fail") && !SomeRequiredResult(ExecutedEntries(v), "warn"))
    && (DecisionIs(v, "bypass") ==> IsBoundedString(Get(v, "bypass_ref")))
    && (NeedsIndependence(v) && Field(v, "required").value.b ==> ClaimsIndependence(v))
  }

  method DecisionViolations(v: Value, o: Outcome, shapeOk: bool) returns (violations: seq<Violation>)
    requires shapeOk ==> IndependenceShape(v)
    ensures violations == [] <==>
      && DecisionKnown(v)
      && (Passing(v) ==> !o.requiredGap && !o.executedFailure && !o.executedWarn)
      && (DecisionIs(v, "bypass") ==> IsBoundedString(Get(v, "bypass_ref")))
      && (shapeOk && NeedsIndependence(v) && Field(v, "required").value.b ==> ClaimsIndependence(v))
  {
    violations := [];
    if Get(v, "decision").None? {
      violations := [MissingDecision];
    } else if !DecisionKnown(v) {
      violations := [UnknownDecision];
    } else {
      if Passing(v) && o.requiredGap {
        violations := violations + [PassingWithGap];
      }
      if Passing(v) && o.executedFailure {
        violations := violations + [PassingWithFailed];
      }
      if Passing(v) && o.executedWarn {
        violations := violations + [PassingWithWarned];
      }
      if DecisionIs(v, "bypass") && !IsBoundedString(Get(v, "bypass_ref")) {
        violations := violations + [MissingBypassRef];
      }
      if shapeOk && Field(v, "required").value.b && NeedsIndependence(v) && !ClaimsIndependence(v) {
        violations := violations + [UnsupportedIndependence];
      }
    }
  }

  // ---- The validator -----------------------------------------------------

  /** What these rules accept. */
  ghost predicate Accepted(v: Value) {
    ChecksOk(v) && NoDuplicates(v) && MandatoryFloor(v) && IndependenceOk(v) && DecisionOk(v)
  }

  method ValidateReceipt(v: Value) returns (violations: seq<Violation>)
    ensures violations == [] <==> Accepted(v)
  {
    var independence, shapeOk := Independence(v);
    var checks, seen, o := Checks(v);
    var duplicates := Duplicates(seen);
    var mandatory: seq<Violation> := [];
    if UnderRequiredChecks(v) {
      mandatory := MandatoryGaps(seen);
    }
    var decision := DecisionViolations(v, o, shapeOk);
    violations := independence + checks + duplicates + mandatory + decision;
    if checks == [] {
      DuplicateMeaning(v, seen);
    }
  }

  lemma DuplicateMeaning(v: Value, seen: map<string, Occurrence>)
    requires Tallies(seen, AllEntries(v))
    ensures (forall id :: id in seen ==> seen[id].count <= 1) <==> NoDuplicates(v)
  {
    forall id | id !in seen ensures CountId(AllEntries(v), id) == 0 {
    }
  }

  // ---- What acceptance implies -------------------------------------------

  lemma {:induction false} CountPositive(entries: seq<Value>, id: string) returns (k: nat)
    requires CountId(entries, id) > 0
    ensures k < |entries| && NamesId(entries[k], id)
  {
    if NamesId(entries[|entries| - 1], id) {
      k := |entries| - 1;
    } else {
      k := CountPositive(entries[..|entries| - 1], id);
    }
  }

  lemma {:induction false} CountTwo(entries: seq<Value>, id: string, i: nat, j: nat)
    requires i < j < |entries| && NamesId(entries[i], id) && NamesId(entries[j], id)
    ensures CountId(entries, id) >= 2
  {
    var front := entries[..|entries| - 1];
    if j < |entries| - 1 {
      CountTwo(front, id, i, j);
    } else {
      CountOne(front, id, i);
    }
  }

  lemma {:induction false} CountOne(entries: seq<Value>, id: string, i: nat)
    requires i < |entries| && NamesId(entries[i], id)
    ensures CountId(entries, id) >= 1
  {
    if i < |entries| - 1 {
      CountOne(entries[..|entries| - 1], id, i);
    }
  }

  ghost predicate AtMostOne(v: Value, id: string) {
    var all := AllEntries(v);
    forall i, j :: 0 <= i < j < |all| && NamesId(all[i], id) ==> !NamesId(all[j], id)
  }

  /** The only entry for `id` in all four buckets is a required, executed pass. */
  ghost predicate PassedOnce(v: Value, id: string) {
    && (exists k :: 0 <= k < |ExecutedEntries(v)| && NamesId(ExecutedEntries(v)[k], id)
          && IsRequired(ExecutedEntries(v)[k]) && HasResult(ExecutedEntries(v)[k], "pass"))
    && AtMostOne(v, id)
  }

  /**
   An accepted `repository.required_checks` receipt with any decision but `block` or `unknown`
   accounts for every mandatory check exactly once, and as a required, executed pass.
   */
  lemma AcceptedChecksPassed(v: Value, id: string)
    requires Accepted(v) && UnderRequiredChecks(v) && id in MANDATORY_CHECK_IDS
    requires !DecisionIs(v, "block") && !DecisionIs(v, "unknown")
    ensures PassedOnce(v, id)
  {
    PassingIsTheRest(v);
    var all := AllEntries(v);
    var k := CountPositive(all, id);
    assert IsRequired(all[k]);
    OnlyOne(v, id);
    var executed := ExecutedEntries(v);
    if k >= |executed| {
      RequiredInGap(v, k);
      assert false;
    } else {
      assert all[k] == executed[k];
      ExecutedEntryPassed(v, k);
    }
  }

  lemma RequiredInGap(v: Value, k: nat)
    requires |ExecutedEntries(v)| <= k < |AllEntries(v)| && IsRequired(AllEntries(v)[k])
    ensures SomeRequired(GapEntries(v))
  {
    assert AllEntries(v)[k] == GapEntries(v)[k - |ExecutedEntries(v)|];
  }

  lemma PassingIsTheRest(v: Value)
    requires DecisionKnown(v) && !DecisionIs(v, "block") && !DecisionIs(v, "unknown")
    ensures Passing(v)
  {
  }

  lemma OnlyOne(v: Value, id: string)
    requires NoDuplicates(v)
    ensures AtMostOne(v, id)
  {
    forall i, j | 0 <= i < j < |AllEntries(v)| && NamesId(AllEntries(v)[i], id)
      ensures !NamesId(AllEntries(v)[j], id) {
      if NamesId(AllEntries(v)[j], id) {
        CountTwo(AllEntries(v), id, i, j);
        assert false;
      }
    }
  }

  lemma ExecutedEntryPassed(v: Value, k: nat)
    requires ChecksOk(v) && k < |ExecutedEntries(v)| && IsRequired(ExecutedEntries(v)[k])
    requires !SomeRequiredResult(ExecutedEntries(v), "fail") && !SomeRequiredResult(ExecutedEntries(v), "warn")
    ensures HasResult(ExecutedEntries(v)[k], "pass")
  {
    var e := ExecutedEntries(v)[k];
    assert EntryOk(e, Executed);
    assert !HasResult(e, "fail") && !HasResult(e, "warn");
  }

  /** Resolution is total and one-step: what an alias resolves to is a model family that resolves to itself. */
  lemma AliasesResolveToModels(s: string)
    requires ResolveFamily(s).Some?
    ensures ResolveFamily(ResolveFamily(s).value) == ResolveFamily(s)
    ensures s !in SENTINEL_FAMILIES ==> ResolveFamily(s).value in MODEL_FAMILIES
  {
  }

  /**
   A receipt that requires independence and is accepted with any decision but needs-approval, block
   or unknown has achieved it: its status is independent, its observer one that supports the claim,
   and its two families resolve to different models.
   */
  lemma RequiredIndependenceIsAchieved(v: Value)
    requires Accepted(v) && Field(v, "required") == Some(Bool(true))
    requires forall d :: Get(v, "decision") == Some(Str(d)) ==> d !in ["needs-approval", "block", "unknown"]
    ensures Field(v, "status") == Some(Str("independent"))
    ensures exists o :: o in ["runner-observed", "operator-attested"] && Field(v, "observed_by") == Some(Str(o))
    ensures exists a, b, i, j {:trigger ResolveFamily(a), ResolveFamily(b), i in MODEL_FAMILIES, j in MODEL_FAMILIES} ::
      && Field(v, "implementer_family") == Some(Str(a)) && Field(v, "verifier_family") == Some(Str(b))
      && ResolveFamily(a) == Some(i) && ResolveFamily(b) == Some(j)
      && i in MODEL_FAMILIES && j in MODEL_FAMILIES && i != j
  {
    DecisionNeeds(v);
    AcceptedIndependence(v);
    var a, b := Field(v, "implementer_family").value.s, Field(v, "verifier_family").value.s;
    assert Field(v, "observed_by").value.s in SUPPORTING_OBSERVERS;
    assert ResolveFamily(a).value in MODEL_FAMILIES && ResolveFamily(b).value in MODEL_FAMILIES;
  }

  lemma DecisionNeeds(v: Value)
    requires DecisionKnown(v)
    requires forall d :: Get(v, "decision") == Some(Str(d)) ==> d !in ["needs-approval", "block", "unknown"]
    ensures NeedsIndependence(v)
  {
    var d := Get(v, "decision").value.s;
    assert Get(v, "decision") == Some(Str(d));
    assert d in DECISIONS;
  }

  /** An accepted claim of independence rests on a supporting observer and two different model families. */
  lemma AcceptedIndependence(v: Value)
    requires Accepted(v) && ClaimsIndependence(v)
    ensures Field(v, "observed_by").value.s in SUPPORTING_OBSERVERS
    ensures var implementer := ResolveFamily(Field(v, "implementer_family").value.s);
      var verifier := ResolveFamily(Field(v, "verifier_family").value.s);
      && implementer.Some? && verifier.Some? && implementer.value != verifier.value
      && implementer.value in MODEL_FAMILIES && verifier.value in MODEL_FAMILIES
  {
    AliasesResolveToModels(Field(v, "implementer_family").value.s);
    AliasesResolveToModels(Field(v, "verifier_family").value.s);
  }
}
