/**
 The exact reference-count ratchet: the list against the tree (scripts/runtime-neutral.ts), the
 list against the merge base (scripts/ratchet-base.ts), and what both give over a whole history.
 */
module CountRatchet {
  import opened Decimal
  import opened JsText
  import opened Sorting

  /** A `growth_reason` as parsed; a value that is not a string is `OtherValue`. */
  datatype Reason = Absent | Text(text: string) | OtherValue

  /** A list element as parsed. A path that is not a string, or a count that is not a safe integer, is `None`. */
  datatype Raw =
    | NotAnObject
    | Entry(path: Option<string>, count: Option<int>, reason: Option<string>, growthReason: Reason)

  datatype FileCount = FileCount(path: string, count: nat)

  datatype Violation =
    | NotAnArray
    | Malformed(index: nat)
    | ListedTwice(path: string)
    | NoEntry(path: string, count: nat)
    | Grew(path: string, count: nat, entry: int)
    | Dropped(path: string, count: nat, entry: int)
    | NotInTree(path: string)

  predicate WellFormed(r: Raw) {
    && r.Entry?
    && r.path.Some? && r.path.value != ""
    && r.count.Some? && r.count.value > 0
    && r.reason.Some? && !Blank(r.reason.value)
  }

  predicate DistinctPaths(counts: seq<FileCount>) {
    forall i, j :: 0 <= i < j < |counts| ==> counts[i].path != counts[j].path
  }

  // ---- The list against the tree -----------------------------------------

  predicate NamedBefore(list: seq<Raw>, n: nat, path: string)
    requires n <= |list|
  {
    exists i :: 0 <= i < n && WellFormed(list[i]) && list[i].path == Some(path)
  }

  /** The count that the first well-formed entry for a path gives. */
  function EntryCount(list: seq<Raw>, n: nat, path: string): (r: Option<int>)
    requires n <= |list|
    ensures r.Some? <==> NamedBefore(list, n, path)
    ensures r.Some? ==> r.value > 0
  {
    if n == 0 then None
    else
      var before := EntryCount(list, n - 1, path);
      if before.Some? then before
      else if WellFormed(list[n - 1]) && list[n - 1].path == Some(path) then Some(list[n - 1].count.value)
      else None
  }

  ghost predicate ListViolation(list: seq<Raw>, n: nat, v: Violation)
    requires n <= |list|
  {
    match v
    case Malformed(i) => i < n && !WellFormed(list[i])
    case ListedTwice(path) =>
      exists i :: 0 <= i < n && WellFormed(list[i]) && list[i].path == Some(path) && NamedBefore(list, i, path)
    case _ => false
  }

  /** What the count of one file says against its entry. */
  function CountViolation(f: FileCount, entry: Option<int>): (r: seq<Violation>)
    ensures |r| <= 1
  {
    if f.count == 0 then []
    else if entry.None? then [NoEntry(f.path, f.count)]
    else if f.count > entry.value then [Grew(f.path, f.count, entry.value)]
    else if f.count < entry.value then [Dropped(f.path, f.count, entry.value)]
    else []
  }

  predicate HasReferences(counts: seq<FileCount>, path: string) {
    exists i :: 0 <= i < |counts| && counts[i].path == path && counts[i].count > 0
  }

  /** One of the first `k` counts is reported. */
  ghost predicate CountedBefore(counts: seq<FileCount>, k: nat, list: seq<Raw>, v: Violation)
    requires k <= |counts|
  {
    exists i :: 0 <= i < k && v in CountViolation(counts[i], EntryCount(list, |list|, counts[i].path))
  }

  ghost predicate TreeViolation(counts: seq<FileCount>, list: seq<Raw>, v: Violation) {
    || CountedBefore(counts, |counts|, list, v)
    || (v.NotInTree? && NamedBefore(list, |list|, v.path) && !HasReferences(counts, v.path))
  }

  function Items(list: Option<seq<Raw>>): seq<Raw> {
    match list
    case None => []
    case Some(l) => l
  }

  ghost predicate IsViolation(counts: seq<FileCount>, list: Option<seq<Raw>>, v: Violation) {
    || (list.None? && v == NotAnArray)
    || ListViolation(Items(list), |Items(list)|, v)
    || TreeViolation(counts, Items(list), v)
  }

  /** The default order of `[path, count]` pairs: as their joined text. */
  function PairLeq(a: FileCount, b: FileCount): bool {
    TextLeq(a.path + "," + Written(a.count), b.path + "," + Written(b.count))
  }

  /** The entries by path, and the paths in the order of their first entries. */
  method CollectEntries(list: seq<Raw>) returns (errors: seq<Violation>, byPath: map<string, int>, paths: seq<string>)
    ensures forall v :: v in errors <==> ListViolation(list, |list|, v)
    ensures forall p :: p in byPath <==> NamedBefore(list, |list|, p)
    ensures forall p :: p in byPath ==> EntryCount(list, |list|, p) == Some(byPath[p])
    ensures forall p :: p in paths <==> p in byPath
  {
    errors, byPath, paths := [], map[], [];
    for n := 0 to |list|
      invariant forall v :: v in errors <==> ListViolation(list, n, v)
      invariant forall p :: p in byPath <==> NamedBefore(list, n, p)
      invariant forall p :: p in byPath ==> EntryCount(list, n, p) == Some(byPath[p])
      invariant forall p :: p in paths <==> p in byPath
    {
      var raw := list[n];
      ghost var before := errors;
      if !WellFormed(raw) {
        errors := errors + [Malformed(n)];
      } else if raw.path.value in byPath {
        errors := errors + [ListedTwice(raw.path.value)];
      } else {
        byPath := byPath[raw.path.value := raw.count.value];
        paths := paths + [raw.path.value];
      }
      forall v ensures v in errors <==> ListViolation(list, n + 1, v) {
        NextListViolation(list, n, v);
      }
    }
  }

  lemma NextListViolation(list: seq<Raw>, n: nat, v: Violation)
    requires n < |list|
    ensures ListViolation(list, n + 1, v) <==>
      || ListViolation(list, n, v)
      || (!WellFormed(list[n]) && v == Malformed(n))
      || (WellFormed(list[n]) && NamedBefore(list, n, list[n].path.value) && v == ListedTwice(list[n].path.value))
  {
  }

  function CountErrors(counts: seq<FileCount>, n: nat, list: seq<Raw>): seq<Violation>
    requires n <= |counts|
  {
    if n == 0 then []
    else CountErrors(counts, n - 1, list) + CountViolation(counts[n - 1], EntryCount(list, |list|, counts[n - 1].path))
  }

  lemma {:induction false} CountErrorsAre(counts: seq<FileCount>, n: nat, list: seq<Raw>, v: Violation)
    requires n <= |counts|
    ensures v in CountErrors(counts, n, list) <==> CountedBefore(counts, n, list, v)
  {
    if n > 0 {
      CountErrorsAre(counts, n - 1, list, v);
    }
  }

  /** The counts against the entries, in the default order of the pairs. */
  method CompareCounts(counts: seq<FileCount>, ghost list: seq<Raw>, byPath: map<string, int>)
      returns (errors: seq<Violation>)
    requires forall p :: (if p in byPath then Some(byPath[p]) else None) == EntryCount(list, |list|, p)
    ensures errors == CountErrors(Sort(counts, PairLeq), |Sort(counts, PairLeq)|, list)
  {
    var sorted := Sort(counts, PairLeq);
    errors := [];
    for k := 0 to |sorted|
      invariant errors == CountErrors(sorted, k, list)
    {
      var f := sorted[k];
      errors := errors + CountViolation(f, if f.path in byPath then Some(byPath[f.path]) else None);
    }
  }

  function GoneErrors(paths: seq<string>, n: nat, counts: seq<FileCount>): seq<Violation>
    requires n <= |paths|
  {
    if n == 0 then []
    else
      GoneErrors(paths, n - 1, counts) + if HasReferences(counts, paths[n - 1]) then [] else [NotInTree(paths[n - 1])]
  }

  predicate Gone(counts: seq<FileCount>, paths: seq<string>, v: Violation) {
    v.NotInTree? && v.path in paths && !HasReferences(counts, v.path)
  }

  lemma {:induction false} GoneErrorsAre(paths: seq<string>, n: nat, counts: seq<FileCount>, v: Violation)
    requires n <= |paths|
    ensures v in GoneErrors(paths, n, counts) <==> Gone(counts, paths[..n], v)
  {
    if n > 0 {
      GoneErrorsAre(paths, n - 1, counts, v);
      assert paths[..n] == paths[..n - 1] + [paths[n - 1]];
    }
  }

  /** The entries of files without references, in the default order of the paths. */
  method FindGone(counts: seq<FileCount>, paths: seq<string>) returns (errors: seq<Violation>)
    ensures errors == GoneErrors(Sort(paths, TextLeq), |Sort(paths, TextLeq)|, counts)
  {
    var sorted := Sort(paths, TextLeq);
    errors := [];
    for k := 0 to |sorted|
      invariant errors == GoneErrors(sorted, k, counts)
    {
      if !HasReferences(counts, sorted[k]) {
        errors := errors + [NotInTree(sorted[k])];
      }
    }
  }

  lemma ErrorsAre(counts: seq<FileCount>, paths: seq<string>, list: seq<Raw>, v: Violation)
    ensures v in CountErrors(Sort(counts, PairLeq), |Sort(counts, PairLeq)|, list) <==>
      CountedBefore(counts, |counts|, list, v)
    ensures v in GoneErrors(Sort(paths, TextLeq), |Sort(paths, TextLeq)|, counts) <==> Gone(counts, paths, v)
  {
    var sorted, sortedPaths := Sort(counts, PairLeq), Sort(paths, TextLeq);
    SortMembers(counts, PairLeq);
    SortMembers(paths, TextLeq);
    CountErrorsAre(sorted, |sorted|, list, v);
    CountedInAnyOrder(counts, sorted, list, v);
    GoneErrorsAre(sortedPaths, |sortedPaths|, counts, v);
    assert sortedPaths[..|sortedPaths|] == sortedPaths;
  }

  method RuntimeNeutralViolations(counts: seq<FileCount>, exceptions: Option<seq<Raw>>) returns (errors: seq<Violation>)
    requires DistinctPaths(counts)
    ensures forall v :: v in errors <==> IsViolation(counts, exceptions, v)
  {
    var list := Items(exceptions);
    var listErrors, byPath, paths := CollectEntries(list);
    var countErrors := CompareCounts(counts, list, byPath);
    var goneErrors := FindGone(counts, paths);
    errors := (if exceptions.None? then [NotAnArray] else []) + listErrors + countErrors + goneErrors;
    forall v ensures v in errors <==> IsViolation(counts, exceptions, v) {
      ErrorsAre(counts, paths, list, v);
    }
  }

  lemma CountedInAnyOrder(counts: seq<FileCount>, sorted: seq<FileCount>, list: seq<Raw>, v: Violation)
    requires forall f :: f in sorted <==> f in counts
    ensures CountedBefore(sorted, |sorted|, list, v) <==> CountedBefore(counts, |counts|, list, v)
  {
    forall i | 0 <= i < |sorted| ensures sorted[i] in counts {
      assert sorted[i] in sorted;
    }
    forall i | 0 <= i < |counts| ensures counts[i] in sorted {
      assert counts[i] in counts;
    }
  }

  // ---- What an accepted list says ----------------------------------------

  function CountOf(counts: seq<FileCount>, path: string): nat {
    if counts == [] then 0 else if counts[0].path == path then counts[0].count else CountOf(counts[1..], path)
  }

  lemma {:induction false} CountOfIs(counts: seq<FileCount>, path: string)
    requires DistinctPaths(counts)
    ensures forall i :: 0 <= i < |counts| && counts[i].path == path ==> CountOf(counts, path) == counts[i].count
    ensures CountOf(counts, path) > 0 <==> HasReferences(counts, path)
  {
    if counts != [] {
      CountOfIs(counts[1..], path);
      assert HasReferences(counts[1..], path) ==> HasReferences(counts, path);
      assert forall i :: 1 <= i < |counts| ==> counts[i] == counts[1..][i - 1];
    }
  }

  ghost predicate Clean(list: seq<Raw>) {
    && (forall i :: 0 <= i < |list| ==> WellFormed(list[i]))
    && (forall i, j :: 0 <= i < j < |list| ==> list[i].path != list[j].path)
  }

  /** Every entry is well-formed, no path twice, and each path has exactly its entry's count, zero without an entry. */
  ghost predicate Exact(counts: seq<FileCount>, exceptions: Option<seq<Raw>>) {
    && exceptions.Some?
    && Clean(exceptions.value)
    && (forall p :: CountOf(counts, p) == EntryOrZero(exceptions.value, p))
  }

  function EntryOrZero(list: seq<Raw>, path: string): int {
    var e := EntryCount(list, |list|, path);
    if e.Some? then e.value else 0
  }

  lemma NoViolationIsExact(counts: seq<FileCount>, exceptions: Option<seq<Raw>>)
    requires DistinctPaths(counts)
    requires forall v :: !IsViolation(counts, exceptions, v)
    ensures Exact(counts, exceptions)
  {
    var list := Items(exceptions);
    assert !IsViolation(counts, exceptions, NotAnArray);
    forall i | 0 <= i < |list| ensures WellFormed(list[i]) {
      assert !IsViolation(counts, exceptions, Malformed(i));
    }
    forall i, j | 0 <= i < j < |list| ensures list[i].path != list[j].path {
      assert !IsViolation(counts, exceptions, ListedTwice(list[j].path.value));
    }
    forall p ensures CountOf(counts, p) == EntryOrZero(list, p) {
      PathIsExact(counts, exceptions, p);
    }
  }

  lemma PathIsExact(counts: seq<FileCount>, exceptions: Option<seq<Raw>>, p: string)
    requires DistinctPaths(counts)
    requires forall v :: !IsViolation(counts, exceptions, v)
    ensures CountOf(counts, p) == EntryOrZero(Items(exceptions), p)
  {
    var list := Items(exceptions);
    CountOfIs(counts, p);
    var entry := EntryCount(list, |list|, p);
    if HasReferences(counts, p) {
      var i :| 0 <= i < |counts| && counts[i].path == p && counts[i].count > 0;
      var found := CountViolation(counts[i], entry);
      if found != [] {
        assert IsViolation(counts, exceptions, found[0]);
      }
    } else if entry.Some? {
      assert IsViolation(counts, exceptions, NotInTree(p));
    }
  }

  lemma ExactHasNoViolation(counts: seq<FileCount>, exceptions: Option<seq<Raw>>, v: Violation)
    requires DistinctPaths(counts) && Exact(counts, exceptions)
    ensures !IsViolation(counts, exceptions, v)
  {
    var list := exceptions.value;
    forall i | 0 <= i < |counts| ensures CountViolation(counts[i], EntryCount(list, |list|, counts[i].path)) == [] {
      CountOfIs(counts, counts[i].path);
      assert CountOf(counts, counts[i].path) == EntryOrZero(list, counts[i].path);
    }
    if v.NotInTree? {
      CountOfIs(counts, v.path);
      assert CountOf(counts, v.path) == EntryOrZero(list, v.path);
    }
  }

  /** The lane reports nothing exactly when the list is exact. */
  lemma PassesIffExact(counts: seq<FileCount>, exceptions: Option<seq<Raw>>)
    requires DistinctPaths(counts)
    ensures (forall v :: !IsViolation(counts, exceptions, v)) <==> Exact(counts, exceptions)
  {
    if forall v :: !IsViolation(counts, exceptions, v) {
      NoViolationIsExact(counts, exceptions);
    }
    if Exact(counts, exceptions) {
      forall v ensures !IsViolation(counts, exceptions, v) {
        ExactHasNoViolation(counts, exceptions, v);
      }
    }
  }

  // ---- The list against the merge base -----------------------------------

  datatype Measured = Measured(key: string, value: int, growthReason: Reason)

  function MeasuredOf(r: Raw): seq<Measured> {
    if r.Entry? && r.path.Some? && r.count.Some? then [Measured(r.path.value, r.count.value, r.growthReason)] else []
  }

  function MeasuredNeutral(list: seq<Raw>): seq<Measured> {
    if list == [] then [] else MeasuredOf(list[0]) + MeasuredNeutral(list[1..])
  }

  /** The last entry with a key. */
  function LastWith(entries: seq<Measured>, n: nat, key: string): Option<Measured>
    requires n <= |entries|
  {
    if n == 0 then None
    else if entries[n - 1].key == key then Some(entries[n - 1])
    else LastWith(entries, n - 1, key)
  }

  predicate Rises(base: seq<Measured>, e: Measured) {
    var previous := LastWith(base, |base|, e.key);
    previous.Some? ==> e.value > previous.value.value
  }

  /** A reason in words that the base's entry does not already carry. */
  predicate NewReason(base: seq<Measured>, e: Measured) {
    var previous := LastWith(base, |base|, e.key);
    && e.growthReason.Text? && !Blank(e.growthReason.text)
    && (previous.Some? ==> e.growthReason != previous.value.growthReason)
  }

  /** The entries that rose without a new reason, and those that rose with one. */
  method Growth(base: seq<Measured>, current: seq<Measured>) returns (errors: seq<Measured>, accepted: seq<Measured>)
    ensures forall e :: e in errors <==> e in current && Rises(base, e) && !NewReason(base, e)
    ensures forall e :: e in accepted <==> e in current && Rises(base, e) && NewReason(base, e)
  {
    var before: map<string, Measured> := map[];
    for n := 0 to |base|
      invariant forall k :: k in before <==> LastWith(base, n, k).Some?
      invariant forall k :: k in before ==> LastWith(base, n, k) == Some(before[k])
    {
      before := before[base[n].key := base[n]];
    }
    errors, accepted := [], [];
    for n := 0 to |current|
      invariant forall e :: e in errors <==> e in current[..n] && Rises(base, e) && !NewReason(base, e)
      invariant forall e :: e in accepted <==> e in current[..n] && Rises(base, e) && NewReason(base, e)
    {
      var entry := current[n];
      assert current[..n + 1] == current[..n] + [entry];
      var previous := if entry.key in before then Some(before[entry.key]) else None;
      if previous.Some? && entry.value <= previous.value.value {
        continue;
      }
      var reason := entry.growthReason;
      if reason == Absent || (previous.Some? && reason == previous.value.growthReason) {
        errors := errors + [entry];
      } else if !reason.Text? || Blank(reason.text) {
        errors := errors + [entry];
      } else {
        accepted := accepted + [entry];
      }
    }
    assert current[..|current|] == current;
  }

  // ---- Over a history ----------------------------------------------------

  datatype Commit = Commit(counts: seq<FileCount>, list: Option<seq<Raw>>)

  function MeasuredIn(c: Commit): seq<Measured> { MeasuredNeutral(Items(c.list)) }

  ghost predicate CommitPasses(c: Commit) {
    DistinctPaths(c.counts) && forall v :: !IsViolation(c.counts, c.list, v)
  }

  /** No entry of the later commit rose without a new reason. */
  ghost predicate StepPasses(c: Commit, d: Commit) {
    forall e :: e in MeasuredIn(d) && Rises(MeasuredIn(c), e) ==> NewReason(MeasuredIn(c), e)
  }

  ghost predicate Gated(history: seq<Commit>) {
    && (forall i :: 0 <= i < |history| ==> CommitPasses(history[i]))
    && (forall i :: 0 < i < |history| ==> StepPasses(history[i - 1], history[i]))
  }

  /** The later commit raises the path's entry and gives a reason that is new. */
  ghost predicate AcceptsGrowth(c: Commit, d: Commit, path: string) {
    exists e :: e in MeasuredIn(d) && e.key == path && Rises(MeasuredIn(c), e) && NewReason(MeasuredIn(c), e)
  }

  lemma {:induction false} MeasuredWellFormed(list: seq<Raw>)
    requires forall i :: 0 <= i < |list| ==> WellFormed(list[i])
    ensures |MeasuredNeutral(list)| == |list|
    ensures forall i :: 0 <= i < |list| ==>
      WellFormed(list[i]) && MeasuredNeutral(list)[i]
        == Measured(list[i].path.value, list[i].count.value, list[i].growthReason)
  {
    if list != [] {
      MeasuredWellFormed(list[1..]);
    }
  }

  lemma {:induction false} LastWithIs(entries: seq<Measured>, n: nat, key: string)
    requires n <= |entries| && forall i, j :: 0 <= i < j < |entries| ==> entries[i].key != entries[j].key
    ensures forall i :: 0 <= i < n && entries[i].key == key ==> LastWith(entries, n, key) == Some(entries[i])
    ensures LastWith(entries, n, key).Some? ==> exists i :: 0 <= i < n && entries[i].key == key
  {
    if n > 0 {
      LastWithIs(entries, n - 1, key);
    }
  }

  lemma {:induction false} EntryCountIs(list: seq<Raw>, n: nat, i: nat)
    requires i < n <= |list| && Clean(list) && WellFormed(list[i])
    ensures EntryCount(list, n, list[i].path.value) == list[i].count
  {
    if i < n - 1 {
      EntryCountIs(list, n - 1, i);
    } else {
      assert !NamedBefore(list, n - 1, list[i].path.value);
    }
  }

  /** In an exact list the last entry measured for a path gives its count, and there is none when the count is zero. */
  lemma MeasuredIsCount(c: Commit, path: string)
    requires DistinctPaths(c.counts) && Exact(c.counts, c.list)
    ensures var m := LastWith(MeasuredIn(c), |MeasuredIn(c)|, path);
      CountOf(c.counts, path) == if m.Some? then m.value.value else 0
  {
    var list, ms := c.list.value, MeasuredIn(c);
    MeasuredWellFormed(list);
    LastWithIs(ms, |ms|, path);
    if i :| 0 <= i < |list| && list[i].path.value == path {
      EntryCountIs(list, |list|, i);
      assert ms[i].key == path;
    } else {
      assert !NamedBefore(list, |list|, path);
    }
  }

  /** A file's count rises at a step exactly when the step accepts a growth of its entry. */
  lemma RisesIffAccepted(c: Commit, d: Commit, path: string)
    requires CommitPasses(c) && CommitPasses(d) && StepPasses(c, d)
    ensures CountOf(d.counts, path) > CountOf(c.counts, path) <==> AcceptsGrowth(c, d, path)
  {
    PassesIffExact(c.counts, c.list);
    PassesIffExact(d.counts, d.list);
    MeasuredIsCount(c, path);
    MeasuredIsCount(d, path);
    var list, ms := d.list.value, MeasuredIn(d);
    MeasuredWellFormed(list);
    LastWithIs(ms, |ms|, path);
    if CountOf(d.counts, path) > CountOf(c.counts, path) {
      var e := LastWith(ms, |ms|, path).value;
      assert e in ms && e.key == path;
      assert Rises(MeasuredIn(c), e);
    }
    if AcceptsGrowth(c, d, path) {
      var e :| e in ms && e.key == path && Rises(MeasuredIn(c), e) && NewReason(MeasuredIn(c), e);
      var i :| 0 <= i < |ms| && ms[i] == e;
      assert LastWith(ms, |ms|, path) == Some(e);
    }
  }

  ghost predicate AcceptedSomewhere(history: seq<Commit>, path: string) {
    exists i :: 0 < i < |history| && AcceptsGrowth(history[i - 1], history[i], path)
  }

  /**
   Over a history that passes at every commit, a file's count never ends above where it began unless
   a step accepted a growth of it.
   */
  lemma {:induction false} CountsOnlyShrink(history: seq<Commit>, path: string)
    requires history != [] && Gated(history)
    ensures CountOf(history[|history| - 1].counts, path) <= CountOf(history[0].counts, path)
      || AcceptedSomewhere(history, path)
  {
    var n := |history|;
    if n > 1 {
      CountsOnlyShrink(history[..n - 1], path);
      assert StepPasses(history[n - 2], history[n - 1]);
      RisesIffAccepted(history[n - 2], history[n - 1], path);
      EarlierAccepted(history, path);
    }
  }

  lemma EarlierAccepted(history: seq<Commit>, path: string)
    requires |history| > 1
    ensures AcceptedSomewhere(history[..|history| - 1], path) ==> AcceptedSomewhere(history, path)
  {
  }

  // ---- What a new reason is, on the lists --------------------------------

  /** Some object of the list gives this count and this reason for the path. */
  predicate Lists(list: seq<Raw>, path: string, count: int, reason: Reason) {
    exists i :: 0 <= i < |list| && list[i].Entry? && list[i].path == Some(path) && list[i].count == Some(count)
                && list[i].growthReason == reason
  }

  lemma {:induction false} MeasuredAreListed(list: seq<Raw>, m: Measured)
    ensures m in MeasuredNeutral(list) <==> Lists(list, m.key, m.value, m.growthReason)
  {
    if list != [] {
      MeasuredAreListed(list[1..], m);
      ListsFirst(list, m);
    }
  }

  lemma ListsFirst(list: seq<Raw>, m: Measured)
    requires list != []
    ensures Lists(list, m.key, m.value, m.growthReason) <==>
      m in MeasuredOf(list[0]) || Lists(list[1..], m.key, m.value, m.growthReason)
  {
    var rest := list[1..];
    if i :| 0 <= i < |rest| && rest[i].Entry? && rest[i].path == Some(m.key) && rest[i].count == Some(m.value)
            && rest[i].growthReason == m.growthReason {
      assert list[i + 1] == rest[i];
    }
    if i :| 0 <= i < |list| && list[i].Entry? && list[i].path == Some(m.key) && list[i].count == Some(m.value)
            && list[i].growthReason == m.growthReason {
      assert i > 0 ==> rest[i - 1] == list[i];
    }
  }

  lemma {:induction false} LastIsIn(entries: seq<Measured>, n: nat, key: string)
    requires n <= |entries|
    ensures LastWith(entries, n, key).Some? ==>
      LastWith(entries, n, key).value in entries && LastWith(entries, n, key).value.key == key
    ensures LastWith(entries, n, key).None? <==> forall i :: 0 <= i < n ==> entries[i].key != key
  {
    if n > 0 {
      LastIsIn(entries, n - 1, key);
    }
  }

  /** The list gives at most one count and reason for the path. */
  ghost predicate ListsOnce(list: seq<Raw>, path: string) {
    forall c, d, r, s {:trigger Lists(list, path, c, r), Lists(list, path, d, s)} ::
      Lists(list, path, c, r) && Lists(list, path, d, s) ==> c == d && r == s
  }

  lemma LastIsListed(list: seq<Raw>, path: string)
    ensures var ms := MeasuredNeutral(list);
      var last := LastWith(ms, |ms|, path);
      last.Some? ==> Lists(list, path, last.value.value, last.value.growthReason)
    ensures var ms := MeasuredNeutral(list);
      LastWith(ms, |ms|, path).None? ==> forall c, r :: !Lists(list, path, c, r)
  {
    var ms := MeasuredNeutral(list);
    LastIsIn(ms, |ms|, path);
    var last := LastWith(ms, |ms|, path);
    if last.Some? {
      MeasuredAreListed(list, last.value);
    } else {
      forall c, r ensures !Lists(list, path, c, r) {
        MeasuredAreListed(list, Measured(path, c, r));
      }
    }
  }

  /** Every count that the list gives the path is below this one. */
  ghost predicate CountGrew(base: seq<Raw>, path: string, count: int) {
    forall c, r {:trigger Lists(base, path, c, r)} :: Lists(base, path, c, r) ==> count > c
  }

  /** A reason in words that the list does not give for the path. */
  ghost predicate FreshWords(base: seq<Raw>, path: string, reason: Reason) {
    && reason.Text? && !Blank(reason.text)
    && forall c, r {:trigger Lists(base, path, c, r)} :: Lists(base, path, c, r) ==> r != reason
  }

  lemma GrowthOnLists(base: seq<Raw>, m: Measured)
    requires ListsOnce(base, m.key)
    ensures Rises(MeasuredNeutral(base), m) <==> CountGrew(base, m.key, m.value)
    ensures NewReason(MeasuredNeutral(base), m) <==> FreshWords(base, m.key, m.growthReason)
  {
    LastIsListed(base, m.key);
  }

  /**
   The list at the base against the current one. Where the base gives each path once: an entry is
   accepted exactly when its count grew and it gives fresh words, and an error exactly when its
   count grew without.
   */
  method NeutralGrowth(base: seq<Raw>, current: seq<Raw>) returns (errors: seq<Measured>, accepted: seq<Measured>)
    ensures forall path, count, reason :: ListsOnce(base, path) ==>
      (Measured(path, count, reason) in accepted <==>
        Lists(current, path, count, reason) && CountGrew(base, path, count) && FreshWords(base, path, reason))
    ensures forall path, count, reason :: ListsOnce(base, path) ==>
      (Measured(path, count, reason) in errors <==>
        Lists(current, path, count, reason) && CountGrew(base, path, count) && !FreshWords(base, path, reason))
  {
    errors, accepted := Growth(MeasuredNeutral(base), MeasuredNeutral(current));
    forall path, count, reason | ListsOnce(base, path)
      ensures Measured(path, count, reason) in accepted <==>
        Lists(current, path, count, reason) && CountGrew(base, path, count) && FreshWords(base, path, reason)
      ensures Measured(path, count, reason) in errors <==>
        Lists(current, path, count, reason) && CountGrew(base, path, count) && !FreshWords(base, path, reason)
    {
      MeasuredAreListed(current, Measured(path, count, reason));
      GrowthOnLists(base, Measured(path, count, reason));
    }
  }

  // ---- Reasons over a history --------------------------------------------

  lemma CleanListsOnce(list: seq<Raw>, path: string)
    requires Clean(list)
    ensures ListsOnce(list, path)
  {
    forall c, d, r, s | Lists(list, path, c, r) && Lists(list, path, d, s) ensures c == d && r == s {
      var i :| 0 <= i < |list| && list[i].Entry? && list[i].path == Some(path) && list[i].count == Some(c)
               && list[i].growthReason == r;
      var j :| 0 <= j < |list| && list[j].Entry? && list[j].path == Some(path) && list[j].count == Some(d)
               && list[j].growthReason == s;
      assert i == j;
    }
  }

  /** Over a step at which a file's count rises, its entry gives its count, and words that the entry before did not. */
  lemma RiseGivesFreshWords(c: Commit, d: Commit, path: string) returns (words: string)
    requires CommitPasses(c) && CommitPasses(d) && StepPasses(c, d)
    requires CountOf(d.counts, path) > CountOf(c.counts, path)
    ensures Lists(Items(d.list), path, CountOf(d.counts, path), Text(words)) && !Blank(words)
    ensures forall k, r :: Lists(Items(c.list), path, k, r) ==> r != Text(words)
  {
    PassesIffExact(c.counts, c.list);
    PassesIffExact(d.counts, d.list);
    MeasuredIsCount(c, path);
    MeasuredIsCount(d, path);
    var ms := MeasuredIn(d);
    LastIsIn(ms, |ms|, path);
    var e := LastWith(ms, |ms|, path).value;
    assert Rises(MeasuredIn(c), e);
    CleanListsOnce(Items(c.list), path);
    GrowthOnLists(Items(c.list), e);
    MeasuredAreListed(Items(d.list), e);
    words := e.growthReason.text;
  }

  /** Two rises in a row give different reasons: an old reason never allows growth again. */
  lemma RisesGiveDifferentWords(history: seq<Commit>, i: nat, path: string) returns (first: string, second: string)
    requires Gated(history) && i + 2 < |history|
    requires CountOf(history[i].counts, path) < CountOf(history[i + 1].counts, path)
    requires CountOf(history[i + 1].counts, path) < CountOf(history[i + 2].counts, path)
    ensures Lists(Items(history[i + 1].list), path, CountOf(history[i + 1].counts, path), Text(first))
    ensures Lists(Items(history[i + 2].list), path, CountOf(history[i + 2].counts, path), Text(second))
    ensures first != second && !Blank(first) && !Blank(second)
  {
    assert CommitPasses(history[i]) && CommitPasses(history[i + 1]) && CommitPasses(history[i + 2]);
    assert StepPasses(history[(i + 1) - 1], history[i + 1]) && StepPasses(history[(i + 2) - 1], history[i + 2]);
    first := RiseGivesFreshWords(history[i], history[i + 1], path);
    second := RiseGivesFreshWords(history[i + 1], history[i + 2], path);
  }

  /** In a commit that passes, every entry names a file with references, gives their number, and says why. */
  lemma PassingEntries(c: Commit, i: nat)
    requires CommitPasses(c) && i < |Items(c.list)|
    ensures var entry := Items(c.list)[i];
      && entry.Entry? && entry.path.Some? && entry.path.value != ""
      && entry.count == Some(CountOf(c.counts, entry.path.value)) && entry.count.value > 0
      && entry.reason.Some? && !Blank(entry.reason.value)
      && forall j :: 0 <= j < |Items(c.list)| && j != i ==>
           Items(c.list)[j].Entry? && Items(c.list)[j].path != entry.path
  {
    PassesIffExact(c.counts, c.list);
    EntryCountIs(c.list.value, |c.list.value|, i);
    assert CountOf(c.counts, c.list.value[i].path.value) == EntryOrZero(c.list.value, c.list.value[i].path.value);
  }

  // ---- Which violation is which ------------------------------------------

  /** What is reported of a file against its entry: no entry, a larger count, a smaller one, or references gone. */
  lemma ViolationsSay(counts: seq<FileCount>, exceptions: Option<seq<Raw>>, path: string, count: nat, entry: int)
    ensures var list := Items(exceptions);
      && (IsViolation(counts, exceptions, NoEntry(path, count)) <==>
            FileCount(path, count) in counts && count > 0 && EntryCount(list, |list|, path).None?)
      && (IsViolation(counts, exceptions, Grew(path, count, entry)) <==>
            FileCount(path, count) in counts && EntryCount(list, |list|, path) == Some(entry) && 0 < entry < count)
      && (IsViolation(counts, exceptions, Dropped(path, count, entry)) <==>
            FileCount(path, count) in counts && EntryCount(list, |list|, path) == Some(entry) && 0 < count < entry)
  {
    var list := Items(exceptions);
    forall v | v in {NoEntry(path, count), Grew(path, count, entry), Dropped(path, count, entry)}
      ensures IsViolation(counts, exceptions, v) <==>
        FileCount(path, count) in counts && v in CountViolation(FileCount(path, count), EntryCount(list, |list|, path))
    {
      ViolationOfFile(counts, list, path, count, v);
    }
  }

  predicate Concerns(v: Violation, path: string, count: nat) {
    (v.NoEntry? || v.Grew? || v.Dropped?) && v.path == path && v.count == count
  }

  lemma ViolationOfFile(counts: seq<FileCount>, list: seq<Raw>, path: string, count: nat, v: Violation)
    requires Concerns(v, path, count)
    ensures CountedBefore(counts, |counts|, list, v) <==>
      FileCount(path, count) in counts && v in CountViolation(FileCount(path, count), EntryCount(list, |list|, path))
  {
    if i :| 0 <= i < |counts| && v in CountViolation(counts[i], EntryCount(list, |list|, counts[i].path)) {
      assert counts[i] == FileCount(path, count);
    }
    if i :| 0 <= i < |counts| && counts[i] == FileCount(path, count)
            && v in CountViolation(counts[i], EntryCount(list, |list|, counts[i].path)) {
      assert CountedBefore(counts, |counts|, list, v);
    }
  }
}
