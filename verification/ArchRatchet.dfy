/**
 The import-boundary ratchet: the allow-list and baseline comparison of
 scripts/arch-imports.ts, the merge-base comparison of scripts/ratchet-base.ts, and what
 the two guarantee together over a whole history of commits.
 */
module ArchRatchet {
  import opened Digraph
  import opened Sorting
  import opened ImportCycles
  import opened JsText

  datatype Baseline = Baseline(
    cycles: seq<Cycle>,
    layer: seq<string>,
    cli: seq<string>,
    dynamic: seq<string>,
    env: seq<string>,
    envKeys: seq<string>,
    packages: Option<seq<string>>,
    sqlWrites: Option<seq<string>>)

  /** An allow-list entry as parsed: a field that is missing or of another type is `None`. */
  datatype AllowEntry = AllowEntry(
    name: Option<string>,
    edges: Option<seq<string>>,
    justification: Option<string>,
    test: Option<string>)

  datatype AllowError =
    | MissingName
    | DuplicateName(name: string)
    | MissingJustification
    | NoEdges
    | EdgeGone(edge: string)
    | EdgeNotOnCycle(edge: string)
    | MissingTest
    | TestGone(test: string)

  function Listed(list: Option<seq<string>>): seq<string> {
    match list
    case None => []
    case Some(l) => l
  }

  predicate Given(field: Option<string>) {
    field.Some? && !Blank(field.value)
  }

  // ---- The allow-list ----------------------------------------------------

  ghost predicate EntryValid(e: AllowEntry, edgeKeys: set<string>, cycleKeys: set<string>, exists_: string -> bool) {
    && Given(e.name)
    && Given(e.justification)
    && e.edges.Some? && e.edges.value != []
    && (forall k :: k in e.edges.value ==> k in edgeKeys && k in cycleKeys)
    && Given(e.test) && exists_(e.test.value)
  }

  /** The first `n` entries are valid and no two of them share a name. */
  ghost predicate AllowListValid(list: seq<AllowEntry>, n: nat, edgeKeys: set<string>, cycleKeys: set<string>,
      exists_: string -> bool)
    requires n <= |list|
  {
    && (forall i :: 0 <= i < n ==> EntryValid(list[i], edgeKeys, cycleKeys, exists_))
    && (forall i, j :: 0 <= i < j < n ==> list[i].name != list[j].name)
  }

  method EdgeErrors(edges: seq<string>, edgeKeys: set<string>, cycleKeys: set<string>) returns (errors: seq<AllowError>)
    ensures errors == [] <==> forall k :: k in edges ==> k in edgeKeys && k in cycleKeys
    ensures forall k :: EdgeGone(k) in errors <==> k in edges && k !in edgeKeys
    ensures forall k :: EdgeNotOnCycle(k) in errors <==> k in edges && k in edgeKeys && k !in cycleKeys
  {
    errors := [];
    for i := 0 to |edges|
      invariant errors == [] <==> forall k :: k in edges[..i] ==> k in edgeKeys && k in cycleKeys
      invariant forall k :: EdgeGone(k) in errors <==> k in edges[..i] && k !in edgeKeys
      invariant forall k :: EdgeNotOnCycle(k) in errors <==> k in edges[..i] && k in edgeKeys && k !in cycleKeys
    {
      assert edges[..i + 1] == edges[..i] + [edges[i]];
      if edges[i] !in edgeKeys {
        errors := errors + [EdgeGone(edges[i])];
      } else if edges[i] !in cycleKeys {
        errors := errors + [EdgeNotOnCycle(edges[i])];
      }
    }
    assert edges[..|edges|] == edges;
  }

  method EntryErrors(e: AllowEntry, names: set<string>, edgeKeys: set<string>, cycleKeys: set<string>,
      exists_: string -> bool)
      returns (errors: seq<AllowError>)
    ensures errors == [] <==> EntryValid(e, edgeKeys, cycleKeys, exists_) && !(Given(e.name) && e.name.value in names)
  {
    errors := [];
    if !Given(e.name) {
      errors := errors + [MissingName];
    } else if e.name.value in names {
      errors := errors + [DuplicateName(e.name.value)];
    }
    if !Given(e.justification) {
      errors := errors + [MissingJustification];
    }
    if e.edges.None? || e.edges.value == [] {
      errors := errors + [NoEdges];
    } else {
      var more := EdgeErrors(e.edges.value, edgeKeys, cycleKeys);
      errors := errors + more;
    }
    if !Given(e.test) {
      errors := errors + [MissingTest];
    } else if !exists_(e.test.value) {
      errors := errors + [TestGone(e.test.value)];
    }
  }

  ghost predicate NamedBefore(list: seq<AllowEntry>, i: nat, name: string)
    requires i <= |list|
  {
    exists j :: 0 <= j < i && list[j].name == Some(name) && !Blank(name)
  }

  /** No error exactly when every entry is complete, names only edges on a cycle, and has a name of its own. */
  method ValidateAllowList(list: seq<AllowEntry>, edgeKeys: set<string>, cycleKeys: set<string>,
      exists_: string -> bool)
      returns (errors: seq<AllowError>)
    ensures errors == [] <==> AllowListValid(list, |list|, edgeKeys, cycleKeys, exists_)
  {
    errors := [];
    var names: set<string> := {};
    for i := 0 to |list|
      invariant forall n :: n in names <==> NamedBefore(list, i, n)
      invariant errors == [] <==> AllowListValid(list, i, edgeKeys, cycleKeys, exists_)
    {
      var e := list[i];
      var more := EntryErrors(e, names, edgeKeys, cycleKeys, exists_);
      errors := errors + more;
      AllowListGrows(list, i, names, edgeKeys, cycleKeys, exists_);
      if Given(e.name) {
        names := names + {e.name.value};
      }
    }
  }

  lemma AllowListGrows(list: seq<AllowEntry>, i: nat, names: set<string>, edgeKeys: set<string>,
      cycleKeys: set<string>, exists_: string -> bool)
    requires i < |list| && forall n :: n in names <==> NamedBefore(list, i, n)
    ensures AllowListValid(list, i + 1, edgeKeys, cycleKeys, exists_) <==>
      && AllowListValid(list, i, edgeKeys, cycleKeys, exists_)
      && EntryValid(list[i], edgeKeys, cycleKeys, exists_) && list[i].name.value !in names
  {
    if Given(list[i].name) {
      NewNameIffUnused(list, i);
    }
  }

  lemma NewNameIffUnused(list: seq<AllowEntry>, i: nat)
    requires i < |list| && Given(list[i].name)
    ensures NamedBefore(list, i, list[i].name.value) <==> exists j :: 0 <= j < i && list[j].name == list[i].name
  {
  }

  // ---- The baseline comparison -------------------------------------------

  function Prefixed(prefix: string, items: seq<string>): (r: seq<string>)
    ensures forall v :: v in r <==> exists i :: i in items && v == prefix + i
  {
    if items == [] then []
    else
      assert items == [items[0]] + items[1..];
      [prefix + items[0]] + Prefixed(prefix, items[1..])
  }

  function CycleTexts(cycles: seq<Cycle>): (r: seq<string>)
    ensures forall v :: v in r <==> exists k :: KeyListed(cycles, k) && v == "cycle: " + k
  {
    if cycles == [] then []
    else
      var rest := CycleTexts(cycles[1..]);
      assert forall k :: KeyListed(cycles, k) <==> k in cycles[0].edges || KeyListed(cycles[1..], k) by {
        KeyListedSplit(cycles);
      }
      Prefixed("cycle: ", cycles[0].edges) + rest
  }

  lemma KeyListedSplit(cycles: seq<Cycle>)
    requires cycles != []
    ensures forall k :: KeyListed(cycles, k) <==> k in cycles[0].edges || KeyListed(cycles[1..], k)
  {
    forall k | KeyListed(cycles[1..], k) ensures KeyListed(cycles, k) {
      var i :| 0 <= i < |cycles[1..]| && k in cycles[1..][i].edges;
      assert k in cycles[i + 1].edges;
    }
    forall k | KeyListed(cycles, k) && k !in cycles[0].edges ensures KeyListed(cycles[1..], k) {
      var i :| 0 <= i < |cycles| && k in cycles[i].edges;
      assert k in cycles[1..][i - 1].edges;
    }
  }

  function OtherTexts(b: Baseline): seq<string> {
    Prefixed("layer: ", b.layer) + Prefixed("cli: ", b.cli) + Prefixed("dynamic: ", b.dynamic)
    + Prefixed("env: ", b.env) + Prefixed("env-key: ", b.envKeys)
    + Prefixed("package: ", Listed(b.packages)) + Prefixed("sql-write: ", Listed(b.sqlWrites))
  }

  /** Every recorded violation as one line of text, sorted. */
  function FlattenBaseline(b: Baseline): (r: seq<string>)
    ensures forall v :: v in r <==> v in CycleTexts(b.cycles) || v in OtherTexts(b)
  {
    SortMembers(CycleTexts(b.cycles) + OtherTexts(b), TextLeq);
    Sort(CycleTexts(b.cycles) + OtherTexts(b), TextLeq)
  }

  function Allowed(list: seq<AllowEntry>): (r: set<string>)
  {
    set e, k | e in list && k in Listed(e.edges) :: k
  }

  function WithoutAllowed(cycles: seq<Cycle>, allowed: set<string>): (r: seq<Cycle>)
    ensures forall k :: KeyListed(r, k) <==> KeyListed(cycles, k) && k !in allowed
    ensures forall c :: c in r ==> c.edges != []
  {
    if cycles == [] then []
    else
      var rest := WithoutAllowed(cycles[1..], allowed);
      var edges := Kept(cycles[0].edges, allowed);
      var r := if edges == [] then rest else [Cycle(cycles[0].members, edges)] + rest;
      assert forall k :: KeyListed(r, k) <==> k in edges || KeyListed(rest, k) by {
        if edges != [] {
          KeyListedSplit(r);
          assert r[1..] == rest;
        }
      }
      assert forall k :: KeyListed(cycles, k) <==> k in cycles[0].edges || KeyListed(cycles[1..], k) by {
        KeyListedSplit(cycles);
      }
      r
  }

  function Kept(keys: seq<string>, allowed: set<string>): (r: seq<string>)
    ensures forall k :: k in r <==> k in keys && k !in allowed
  {
    if keys == [] then []
    else
      assert keys == [keys[0]] + keys[1..];
      (if keys[0] in allowed then [] else [keys[0]]) + Kept(keys[1..], allowed)
  }

  /** The members of `a` that `b` lacks, each once, in order of first appearance. */
  function Missing(a: seq<string>, b: seq<string>): (r: seq<string>)
    ensures forall v :: v in r <==> v in a && v !in b
    ensures Distinct(r)
  {
    if a == [] then []
    else
      var v := a[|a| - 1];
      assert a == a[..|a| - 1] + [v];
      var r := Missing(a[..|a| - 1], b);
      if v in b || v in r then r else r + [v]
  }

  /** One commit, as the lane reads it. `rest` and `restErrors` are what the other rules report. */
  datatype Commit = Commit(
    modules: seq<string>,
    edges: seq<Edge>,
    allow: seq<AllowEntry>,
    baseline: Baseline,
    rest: Baseline,
    restErrors: seq<string>)

  datatype Analysis = Analysis(current: Baseline, added: seq<string>, stale: seq<string>, allowErrors: seq<AllowError>,
      restErrors: seq<string>)

  ghost predicate Clean(a: Analysis) {
    a.added == [] && a.stale == [] && a.allowErrors == [] && a.restErrors == []
  }

  /** A violation present in the commit's tree. */
  ghost predicate Violation(c: Commit, v: string) {
    || (exists k :: CycleKey(c.modules, c.edges, k) && k !in Allowed(c.allow) && v == "cycle: " + k)
    || v in OtherTexts(c.rest)
  }

  /** Each allow-list edge occurs in the graph and lies on a cycle, and so on for its other fields. */
  ghost predicate AllowListHolds(c: Commit, exists_: string -> bool) {
    && (forall i :: 0 <= i < |c.allow| ==> EntryHolds(c, c.allow[i], exists_))
    && (forall i, j :: 0 <= i < j < |c.allow| ==> c.allow[i].name != c.allow[j].name)
  }

  ghost predicate EntryHolds(c: Commit, e: AllowEntry, exists_: string -> bool) {
    && Given(e.name) && Given(e.justification)
    && e.edges.Some? && e.edges.value != []
    && (forall k :: k in e.edges.value ==> CycleKey(c.modules, c.edges, k))
    && Given(e.test) && exists_(e.test.value)
  }

  /** The lane passes: the recorded violations are exactly the present ones, and nothing else is wrong. */
  ghost predicate LanePasses(c: Commit, exists_: string -> bool) {
    && c.restErrors == []
    && AllowListHolds(c, exists_)
    && forall v :: v in FlattenBaseline(c.baseline) <==> Violation(c, v)
  }

  lemma CycleKeyIsEdgeKey(modules: seq<string>, edges: seq<Edge>, k: string)
    requires CycleKey(modules, edges, k)
    ensures k in (set e | e in edges :: EdgeKey(e.from, e.to))
  {
  }

  /** The analysis is clean exactly when the lane's conditions hold of the tree. */
  method Analyze(c: Commit, exists_: string -> bool, collate: (string, string) -> bool) returns (r: Analysis)
    requires TotalPreorder(collate)
    ensures forall k :: KeyListed(r.current.cycles, k) <==> CycleKey(c.modules, c.edges, k) && k !in Allowed(c.allow)
    ensures forall v :: v in r.added <==> Violation(c, v) && v !in FlattenBaseline(c.baseline)
    ensures forall v :: v in r.stale <==> v in FlattenBaseline(c.baseline) && !Violation(c, v)
    ensures Clean(r) <==> LanePasses(c, exists_)
  {
    var components := CycleComponents(Sort(c.modules, TextLeq), c.edges, collate);
    SortedModules(c);
    var edgeKeys := set e | e in c.edges :: EdgeKey(e.from, e.to);
    var cycleKeys := KeysOf(components);
    var allowErrors := ValidateAllowList(c.allow, edgeKeys, cycleKeys, exists_);
    AllowListMeaning(c, edgeKeys, cycleKeys, exists_);
    var cycles := WithoutAllowed(components, Allowed(c.allow));
    var current := c.rest.(cycles := cycles);
    var now := FlattenBaseline(current);
    NowIsViolations(c, cycles);
    var before := FlattenBaseline(c.baseline);
    r := Analysis(current, Missing(now, before), Missing(before, now), allowErrors, c.restErrors);
    MissingBothWays(now, before);
  }

  function KeysOf(cycles: seq<Cycle>): (r: set<string>)
    ensures forall k :: k in r <==> KeyListed(cycles, k)
  {
    set i, k | 0 <= i < |cycles| && k in cycles[i].edges :: k
  }

  lemma NowIsViolations(c: Commit, cycles: seq<Cycle>)
    requires forall k :: KeyListed(cycles, k) <==> CycleKey(c.modules, c.edges, k) && k !in Allowed(c.allow)
    ensures forall v :: v in FlattenBaseline(c.rest.(cycles := cycles)) <==> Violation(c, v)
  {
    var current := c.rest.(cycles := cycles);
    assert OtherTexts(current) == OtherTexts(c.rest);
    forall v ensures v in FlattenBaseline(current) <==> Violation(c, v) {
      if v in CycleTexts(cycles) {
        var k :| KeyListed(cycles, k) && v == "cycle: " + k;
        assert CycleKey(c.modules, c.edges, k);
      }
      if Violation(c, v) && v !in OtherTexts(c.rest) {
        var k :| CycleKey(c.modules, c.edges, k) && k !in Allowed(c.allow) && v == "cycle: " + k;
        assert KeyListed(cycles, k);
      }
    }
  }

  lemma MissingBothWays(a: seq<string>, b: seq<string>)
    ensures (Missing(a, b) == [] && Missing(b, a) == []) <==> forall v :: v in a <==> v in b
  {
    if Missing(a, b) != [] {
      assert Missing(a, b)[0] in Missing(a, b);
    }
    if Missing(b, a) != [] {
      assert Missing(b, a)[0] in Missing(b, a);
    }
  }

  lemma SortedModules(c: Commit)
    ensures forall k :: CycleKey(Sort(c.modules, TextLeq), c.edges, k) <==> CycleKey(c.modules, c.edges, k)
  {
    SortMembers(c.modules, TextLeq);
    assert forall v :: ReachedFrom(EdgeGraph(c.edges), Sort(c.modules, TextLeq), v) <==>
      ReachedFrom(EdgeGraph(c.edges), c.modules, v);
  }

  lemma AllowListMeaning(c: Commit, edgeKeys: set<string>, cycleKeys: set<string>, exists_: string -> bool)
    requires edgeKeys == set e | e in c.edges :: EdgeKey(e.from, e.to)
    requires forall k :: k in cycleKeys <==> CycleKey(c.modules, c.edges, k)
    ensures AllowListValid(c.allow, |c.allow|, edgeKeys, cycleKeys, exists_) <==> AllowListHolds(c, exists_)
  {
    forall e ensures EntryValid(e, edgeKeys, cycleKeys, exists_) <==> EntryHolds(c, e, exists_) {
      forall k | CycleKey(c.modules, c.edges, k) ensures k in edgeKeys {
        CycleKeyIsEdgeKey(c.modules, c.edges, k);
      }
    }
  }

  // ---- The merge-base comparison -----------------------------------------

  datatype KindList = KindList(kind: string, items: seq<string>)

  function Rendered(cycles: seq<Cycle>, render: Cycle -> string): (r: seq<string>)
    ensures |r| == |cycles|
  {
    seq(|cycles|, i requires 0 <= i < |cycles| => render(cycles[i]))
  }

  function OptionalList(kind: string, list: Option<seq<string>>): seq<KindList> {
    match list
    case None => []
    case Some(items) => [KindList(kind, items)]
  }

  /** The baseline file's lists in order. `render` stands for the JSON text of a cycle entry. */
  function KindLists(b: Baseline, render: Cycle -> string): seq<KindList> {
    [KindList("cycles", Rendered(b.cycles, render)), KindList("layer", b.layer), KindList("cli", b.cli),
     KindList("dynamic", b.dynamic), KindList("env", b.env), KindList("envKeys", b.envKeys)]
    + OptionalList("packages", b.packages) + OptionalList("sqlWrites", b.sqlWrites)
  }

  /** The list holds an item with this key. */
  predicate Holds(list: KindList, key: string) {
    exists t :: t in list.items && key == list.kind + " " + t
  }

  ghost predicate IsEntry(lists: seq<KindList>, key: string) {
    exists i :: 0 <= i < |lists| && Holds(lists[i], key)
  }

  /** List `i` is the last that holds the key. */
  ghost predicate LastHolds(lists: seq<KindList>, i: int, key: string) {
    0 <= i < |lists| && Holds(lists[i], key) && forall j :: i < j < |lists| ==> !Holds(lists[j], key)
  }

  /** The last list that holds the key is of this kind. */
  ghost predicate HasKind(lists: seq<KindList>, key: string, kind: string) {
    exists i {:trigger LastHolds(lists, i, key)} :: LastHolds(lists, i, key) && lists[i].kind == kind
  }

  /** Every key with the kind of the last list that holds it. */
  ghost predicate AreEntries(lists: seq<KindList>, entries: map<string, string>) {
    && (forall key :: key in entries <==> IsEntry(lists, key))
    && (forall key :: key in entries ==> HasKind(lists, key, entries[key]))
  }

  method ArchEntries(lists: seq<KindList>) returns (entries: map<string, string>)
    ensures AreEntries(lists, entries)
  {
    entries := map[];
    for i := 0 to |lists|
      invariant AreEntries(lists[..i], entries)
    {
      var more := AddItems(lists[i], entries);
      assert lists[..i + 1] == lists[..i] + [lists[i]];
      EntriesNext(lists[..i], lists[i], entries, more);
      entries := more;
    }
    assert lists[..|lists|] == lists;
  }

  method AddItems(list: KindList, before: map<string, string>) returns (entries: map<string, string>)
    ensures forall key :: key in entries <==> key in before || Holds(list, key)
    ensures forall key :: key in entries ==> entries[key] == if Holds(list, key) then list.kind else before[key]
  {
    entries := before;
    for j := 0 to |list.items|
      invariant forall key :: key in entries <==> key in before || Holds(list.(items := list.items[..j]), key)
      invariant forall key :: key in entries ==>
        entries[key] == if Holds(list.(items := list.items[..j]), key) then list.kind else before[key]
    {
      assert list.items[..j + 1] == list.items[..j] + [list.items[j]];
      entries := entries[list.kind + " " + list.items[j] := list.kind];
    }
    assert list.items[..|list.items|] == list.items;
  }

  lemma HoldsIn(lists: seq<KindList>, list: KindList, i: nat, key: string)
    requires LastHolds(lists, i, key) && !Holds(list, key)
    ensures LastHolds(lists + [list], i, key)
  {
    var all := lists + [list];
    forall j | i < j < |all| ensures !Holds(all[j], key) {
      if j < |lists| {
        assert all[j] == lists[j];
      }
    }
  }

  lemma EntryNext(lists: seq<KindList>, list: KindList, key: string)
    ensures IsEntry(lists + [list], key) <==> IsEntry(lists, key) || Holds(list, key)
  {
    var all := lists + [list];
    if IsEntry(lists, key) {
      var i :| 0 <= i < |lists| && Holds(lists[i], key);
      assert Holds(all[i], key);
    }
    assert all[|lists|] == list;
  }

  lemma KindNext(lists: seq<KindList>, list: KindList, key: string, before: string, kind: string)
    requires Holds(list, key) || HasKind(lists, key, before)
    requires kind == if Holds(list, key) then list.kind else before
    ensures HasKind(lists + [list], key, kind)
  {
    var all := lists + [list];
    if Holds(list, key) {
      assert LastHolds(all, |lists|, key);
    } else {
      var i :| LastHolds(lists, i, key) && lists[i].kind == before;
      HoldsIn(lists, list, i, key);
      assert all[i] == lists[i];
    }
  }

  lemma EntriesNext(lists: seq<KindList>, list: KindList, before: map<string, string>, entries: map<string, string>)
    requires AreEntries(lists, before)
    requires forall key :: key in entries <==> key in before || Holds(list, key)
    requires forall key :: key in entries ==> entries[key] == if Holds(list, key) then list.kind else before[key]
    ensures AreEntries(lists + [list], entries)
  {
    forall key ensures key in entries <==> IsEntry(lists + [list], key) {
      EntryNext(lists, list, key);
    }
    forall key | key in entries ensures HasKind(lists + [list], key, entries[key]) {
      KindNext(lists, list, key, if key in before then before[key] else "", entries[key]);
    }
  }

  /** Every key of the lists. */
  ghost function Entries(lists: seq<KindList>): (r: set<string>)
    ensures forall key :: key in r <==> IsEntry(lists, key)
  {
    var r := set i, t | 0 <= i < |lists| && t in lists[i].items :: lists[i].kind + " " + t;
    assert forall key :: IsEntry(lists, key) ==> key in r;
    r
  }

  /** The base lacks an entry that the current lists hold under this kind. */
  ghost predicate NewUnder(before: seq<KindList>, now: seq<KindList>, kind: string) {
    exists key {:trigger HasKind(now, key, kind)} :: HasKind(now, key, kind) && !IsEntry(before, key)
  }

  lemma KindUnique(lists: seq<KindList>, key: string, a: string, b: string)
    requires HasKind(lists, key, a) && HasKind(lists, key, b)
    ensures a == b
  {
    var i :| LastHolds(lists, i, key) && lists[i].kind == a;
    var j :| LastHolds(lists, j, key) && lists[j].kind == b;
    assert i == j;
  }

  lemma KindIsListed(lists: seq<KindList>, entries: map<string, string>, key: string, kind: string)
    requires AreEntries(lists, entries) && HasKind(lists, key, kind)
    ensures key in entries && entries[key] == kind
  {
    var i :| LastHolds(lists, i, key) && lists[i].kind == kind;
    assert IsEntry(lists, key);
    KindUnique(lists, key, kind, entries[key]);
  }

  /** The errors are the kinds of these keys, one for each key. */
  ghost predicate AreKinds(errors: seq<string>, keys: set<string>, now: map<string, string>) {
    && |errors| == |keys| && keys <= now.Keys
    && (forall kind {:trigger SomeOf(keys, now, kind)} :: kind in errors <==> SomeOf(keys, now, kind))
  }

  ghost predicate SomeOf(keys: set<string>, now: map<string, string>, kind: string) {
    exists key :: key in keys && key in now && now[key] == kind
  }

  lemma KindsNext(errors: seq<string>, keys: set<string>, now: map<string, string>, key: string)
    requires AreKinds(errors, keys, now) && key in now && key !in keys
    ensures AreKinds(errors + [now[key]], keys + {key}, now)
  {
    var more, all := errors + [now[key]], keys + {key};
    forall kind ensures kind in more <==> SomeOf(all, now, kind) {
      assert kind in errors <==> SomeOf(keys, now, kind);
      assert key in all;
    }
  }

  /** The keys of `now` that are not to do and not in `before`. */
  ghost function NewDone(before: map<string, string>, now: map<string, string>, todo: set<string>): set<string> {
    now.Keys - todo - before.Keys
  }

  lemma DoneNext(before: map<string, string>, now: map<string, string>, todo: set<string>, key: string)
    requires key in todo && key in now
    ensures key !in NewDone(before, now, todo)
    ensures NewDone(before, now, todo - {key}) == NewDone(before, now, todo) + (if key in before then {} else {key})
  {
  }

  /** The kinds of the entries in `now` that `before` does not have. */
  method NewKinds(before: map<string, string>, now: map<string, string>) returns (errors: seq<string>)
    ensures AreKinds(errors, now.Keys - before.Keys, now)
  {
    errors := [];
    var todo := now.Keys;
    NoneDone(before, now);
    while todo != {}
      invariant todo <= now.Keys && AreKinds(errors, NewDone(before, now, todo), now)
    {
      var key :| key in todo;
      errors := NextKind(before, now, todo, key, errors);
      todo := todo - {key};
    }
    assert NewDone(before, now, {}) == now.Keys - before.Keys;
  }

  lemma NoneDone(before: map<string, string>, now: map<string, string>)
    ensures AreKinds([], NewDone(before, now, now.Keys), now)
  {
    assert NewDone(before, now, now.Keys) == {};
  }

  method NextKind(before: map<string, string>, now: map<string, string>, ghost todo: set<string>, key: string,
      errors: seq<string>)
      returns (more: seq<string>)
    requires key in todo && key in now && AreKinds(errors, NewDone(before, now, todo), now)
    ensures AreKinds(more, NewDone(before, now, todo - {key}), now)
  {
    DoneNext(before, now, todo, key);
    more := errors;
    if key !in before {
      KindsNext(errors, NewDone(before, now, todo), now, key);
      more := errors + [now[key]];
    }
  }

  lemma KindsAreNew(old_: seq<KindList>, new_: seq<KindList>, before: map<string, string>, now: map<string, string>,
      kind: string)
    requires AreEntries(old_, before) && AreEntries(new_, now)
    ensures SomeOf(now.Keys - before.Keys, now, kind) <==> NewUnder(old_, new_, kind)
  {
    if SomeOf(now.Keys - before.Keys, now, kind) {
      var key :| key in now.Keys - before.Keys && now[key] == kind;
      assert HasKind(new_, key, kind);
    }
    if NewUnder(old_, new_, kind) {
      var key :| HasKind(new_, key, kind) && !IsEntry(old_, key);
      KindIsListed(new_, now, key, kind);
      assert key in now.Keys - before.Keys;
    }
  }

  /** One error for each entry the base does not have, under its kind. */
  method ArchBaselineGrowth(base: Baseline, current: Baseline, render: Cycle -> string) returns (errors: seq<string>)
    ensures |errors| == |Entries(KindLists(current, render)) - Entries(KindLists(base, render))|
    ensures forall kind :: kind in errors <==> NewUnder(KindLists(base, render), KindLists(current, render), kind)
    ensures errors == [] <==> NoNewEntries(base, current, render)
  {
    var old_, new_ := KindLists(base, render), KindLists(current, render);
    var before := ArchEntries(old_);
    var now := ArchEntries(new_);
    errors := NewKinds(before, now);
    assert Entries(new_) == now.Keys && Entries(old_) == before.Keys;
    NoneNew(old_, new_);
    forall kind ensures kind in errors <==> NewUnder(old_, new_, kind) {
      KindsAreNew(old_, new_, before, now, kind);
    }
  }

  lemma NoneNew(old_: seq<KindList>, new_: seq<KindList>)
    ensures |Entries(new_) - Entries(old_)| == 0 <==> forall key :: IsEntry(new_, key) ==> IsEntry(old_, key)
  {
    if |Entries(new_) - Entries(old_)| == 0 {
      assert Entries(new_) - Entries(old_) == {};
      forall key | IsEntry(new_, key) ensures IsEntry(old_, key) {
        assert key !in Entries(new_) - Entries(old_);
      }
    }
  }

  ghost predicate NoNewEntries(base: Baseline, current: Baseline, render: Cycle -> string) {
    forall key :: IsEntry(KindLists(current, render), key) ==> IsEntry(KindLists(base, render), key)
  }

  // ---- Whole histories ---------------------------------------------------

  ghost predicate EmptyBaseline(b: Baseline) {
    && b.cycles == [] && b.layer == [] && b.cli == [] && b.dynamic == [] && b.env == [] && b.envKeys == []
    && Listed(b.packages) == [] && Listed(b.sqlWrites) == []
  }

  lemma EmptyHasNoEntries(b: Baseline, render: Cycle -> string, key: string)
    requires EmptyBaseline(b)
    ensures !IsEntry(KindLists(b, render), key)
  {
    forall i | 0 <= i < |KindLists(b, render)| ensures KindLists(b, render)[i].items == [] {
    }
  }

  lemma NoEntriesMeansEmpty(b: Baseline, render: Cycle -> string)
    requires forall key :: !IsEntry(KindLists(b, render), key)
    ensures EmptyBaseline(b)
  {
    var lists := KindLists(b, render);
    forall i | 0 <= i < |lists| ensures lists[i].items == [] {
      if lists[i].items != [] {
        var t := lists[i].items[0];
        assert Holds(lists[i], lists[i].kind + " " + t);
        assert IsEntry(lists, lists[i].kind + " " + t);
        assert false;
      }
    }
    assert lists[0].items == [] && lists[1].items == [] && lists[2].items == [];
    assert lists[3].items == [] && lists[4].items == [] && lists[5].items == [];
    if b.packages.Some? {
      assert lists[6].items == b.packages.value;
    }
    if b.sqlWrites.Some? {
      assert lists[|lists| - 1].items == b.sqlWrites.value;
    }
  }

  lemma EmptyFlattens(b: Baseline)
    requires EmptyBaseline(b)
    ensures FlattenBaseline(b) == []
  {
    assert OtherTexts(b) == [];
    assert CycleTexts(b.cycles) == [];
  }

  /** A chain of commits, each passing its own lane and the comparison with its predecessor. */
  ghost predicate GatedHistory(commits: seq<Commit>, exists_: string -> bool, render: Cycle -> string) {
    && (forall i :: 0 <= i < |commits| ==>
          LanePasses(commits[i], exists_) && EdgesListed(commits[i].modules, commits[i].edges))
    && (forall i :: 1 <= i < |commits| ==> NoNewEntries(commits[i - 1].baseline, commits[i].baseline, render))
  }

  lemma {:induction false} BaselineStaysEmpty(commits: seq<Commit>, exists_: string -> bool, render: Cycle -> string,
      n: nat)
    requires GatedHistory(commits, exists_, render) && n < |commits|
    requires EmptyBaseline(commits[0].baseline)
    ensures EmptyBaseline(commits[n].baseline)
  {
    if n > 0 {
      BaselineStaysEmpty(commits, exists_, render, n - 1);
      assert NoNewEntries(commits[n - 1].baseline, commits[n].baseline, render);
      forall key ensures !IsEntry(KindLists(commits[n].baseline, render), key) {
        EmptyHasNoEntries(commits[n - 1].baseline, render, key);
      }
      NoEntriesMeansEmpty(commits[n].baseline, render);
    }
  }

  /** A passing commit with an empty baseline names every edge on a cycle in its allow-list. */
  lemma CycleEdgeAllowed(c: Commit, exists_: string -> bool, e: Edge)
    requires LanePasses(c, exists_) && EdgesListed(c.modules, c.edges) && EmptyBaseline(c.baseline)
    requires OnCycle(c.edges, e)
    ensures EdgeKey(e.from, e.to) in Allowed(c.allow)
  {
    EmptyFlattens(c.baseline);
    ReachesSelf(EdgeGraph(c.edges), e.from);
    assert ReachedFrom(EdgeGraph(c.edges), c.modules, e.from);
    assert CycleKey(c.modules, c.edges, EdgeKey(e.from, e.to));
    assert !Violation(c, "cycle: " + EdgeKey(e.from, e.to));
  }

  /**
   From an empty baseline, at every commit of a gated history: the baseline is empty and each
   edge on an import cycle is named in that commit's allow-list. Without an allow-list the
   modules can be put in a topological order.
   */
  lemma HistoryStaysAcyclic(commits: seq<Commit>, exists_: string -> bool, render: Cycle -> string, n: nat)
    requires GatedHistory(commits, exists_, render) && n < |commits|
    requires EmptyBaseline(commits[0].baseline)
    ensures EmptyBaseline(commits[n].baseline)
    ensures forall e :: OnCycle(commits[n].edges, e) ==> EdgeKey(e.from, e.to) in Allowed(commits[n].allow)
    ensures commits[n].allow == [] ==> exists rank :: Ranks(commits[n].edges, rank)
  {
    BaselineStaysEmpty(commits, exists_, render, n);
    var c := commits[n];
    assert LanePasses(c, exists_);
    forall e | OnCycle(c.edges, e) ensures EdgeKey(e.from, e.to) in Allowed(c.allow) {
      CycleEdgeAllowed(c, exists_, e);
    }
    AcyclicIffRanked(c.edges);
  }

  // ---- What a passing lane says of its files -----------------------------

  /** Some item of the list, under this heading, is the recorded text. */
  predicate Records(heading: string, items: seq<string>, text: string) {
    exists item :: item in items && text == heading + item
  }

  /** The texts compared are those of every list of a baseline, each under its own heading. */
  lemma RecordedIff(b: Baseline, text: string)
    ensures text in FlattenBaseline(b) <==>
      || (exists k :: KeyListed(b.cycles, k) && text == "cycle: " + k)
      || Records("layer: ", b.layer, text) || Records("cli: ", b.cli, text) || Records("dynamic: ", b.dynamic, text)
      || Records("env: ", b.env, text) || Records("env-key: ", b.envKeys, text)
      || (b.packages.Some? && Records("package: ", b.packages.value, text))
      || (b.sqlWrites.Some? && Records("sql-write: ", b.sqlWrites.value, text))
  {
    OthersAreRecords(b, text);
    assert text in CycleTexts(b.cycles) <==> exists k :: KeyListed(b.cycles, k) && text == "cycle: " + k;
  }

  lemma PrefixedAreRecords(heading: string, items: seq<string>, text: string)
    ensures text in Prefixed(heading, items) <==> Records(heading, items, text)
  {
  }

  lemma OthersAreRecords(b: Baseline, text: string)
    ensures text in OtherTexts(b) <==>
      || Records("layer: ", b.layer, text) || Records("cli: ", b.cli, text) || Records("dynamic: ", b.dynamic, text)
      || Records("env: ", b.env, text) || Records("env-key: ", b.envKeys, text)
      || Records("package: ", Listed(b.packages), text) || Records("sql-write: ", Listed(b.sqlWrites), text)
  {
    PrefixedAreRecords("layer: ", b.layer, text);
    PrefixedAreRecords("cli: ", b.cli, text);
    PrefixedAreRecords("dynamic: ", b.dynamic, text);
    PrefixedAreRecords("env: ", b.env, text);
    PrefixedAreRecords("env-key: ", b.envKeys, text);
    PrefixedAreRecords("package: ", Listed(b.packages), text);
    PrefixedAreRecords("sql-write: ", Listed(b.sqlWrites), text);
  }

  /**
   In a commit that passes its lane, every entry of the allow-list has a name of its own, a
   justification and a test that exists, and names edges that lie on a cycle, at least one; and
   every other edge on a cycle that is reached is recorded in the baseline.
   */
  lemma PassingAllowList(c: Commit, exists_: string -> bool, i: nat)
    requires LanePasses(c, exists_) && i < |c.allow|
    ensures var e := c.allow[i];
      && e.name.Some? && !Blank(e.name.value) && e.justification.Some? && !Blank(e.justification.value)
      && e.test.Some? && !Blank(e.test.value) && exists_(e.test.value)
      && e.edges.Some? && e.edges.value != [] && (forall k :: k in e.edges.value ==> CycleKey(c.modules, c.edges, k))
      && forall j :: 0 <= j < |c.allow| && j != i ==> c.allow[j].name != e.name
  {
    assert EntryHolds(c, c.allow[i], exists_);
  }
}
