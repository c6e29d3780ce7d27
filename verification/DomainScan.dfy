/**
 The linear domain scan (scripts/public-safety-scan.ts): the longest dotted domain at a place in
 a line, found in two passes over the label ends, against the pattern it stands for.
 */
module DomainScan {
  import opened JsText

  // ---- Characters --------------------------------------------------------

  predicate IsAlpha(c: char) {
    'A' <= c <= 'Z' || 'a' <= c <= 'z'
  }

  predicate IsLabel(c: char) {
    '0' <= c <= '9' || IsAlpha(c) || c == '-'
  }

  predicate IsLocal(c: char) {
    IsLabel(c) || c == '.' || c == '_' || c == '%' || c == '+'
  }

  predicate AllLabel(s: string) { forall i :: 0 <= i < |s| ==> IsLabel(s[i]) }

  predicate AllAlpha(s: string) { forall i :: 0 <= i < |s| ==> IsAlpha(s[i]) }

  // ---- The pattern -------------------------------------------------------

  /** Labels joined by dots. */
  function Dotted(labels: seq<string>): string {
    if labels == [] then ""
    else if |labels| == 1 then labels[0]
    else labels[0] + ("." + Dotted(labels[1..]))
  }

  predicate LabelsOk(labels: seq<string>) {
    forall i :: 0 <= i < |labels| ==> labels[i] != "" && AllLabel(labels[i])
  }

  predicate IsTld(s: string) { |s| >= 2 && AllAlpha(s) }

  /** Two or more labels, the last of at least two letters and letters only. */
  predicate DomainLabels(labels: seq<string>) {
    |labels| >= 2 && LabelsOk(labels) && IsTld(labels[|labels| - 1])
  }

  ghost predicate IsDomain(s: string) {
    exists labels :: DomainLabels(labels) && Dotted(labels) == s
  }

  /** The pattern matches `line[start..end]` when the text ends at `limit`: no label character may follow. */
  ghost predicate Matches(line: string, start: nat, limit: nat, end: nat)
    requires limit <= |line|
  {
    start <= end <= limit && IsDomain(line[start..end]) && (end == limit || !IsLabel(line[end]))
  }

  ghost predicate LongestMatch(line: string, start: nat, limit: nat, end: nat)
    requires limit <= |line|
  {
    Matches(line, start, limit, end) && forall e: nat :: Matches(line, start, limit, e) ==> e <= end
  }

  const WINDOW := 256

  /** The end of the window that begins at `start`. */
  function Limit(line: string, start: nat): (r: nat)
    ensures r <= |line| && r <= start + WINDOW
  {
    if |line| < start + WINDOW then |line| else start + WINDOW
  }

  // ---- Label ends --------------------------------------------------------

  predicate LabelRun(line: string, i: nat, r: nat)
    requires r <= |line|
  {
    forall j :: i <= j < r ==> IsLabel(line[j])
  }

  /** Where the run of label characters at `i` ends. */
  function RunEnd(line: string, i: nat, limit: nat): (r: nat)
    requires i <= limit <= |line|
    ensures i <= r <= limit && LabelRun(line, i, r) && (r < limit ==> !IsLabel(line[r]))
    decreases limit - i
  {
    if i < limit && IsLabel(line[i]) then RunEnd(line, i + 1, limit) else i
  }

  lemma RunEndUnique(line: string, i: nat, limit: nat, r: nat)
    requires i <= r <= limit <= |line| && LabelRun(line, i, r) && (r < limit ==> !IsLabel(line[r]))
    ensures RunEnd(line, i, limit) == r
  {
  }

  lemma RunIsLabel(line: string, i: nat, r: nat)
    requires i <= r <= |line|
    ensures AllLabel(line[i..r]) <==> LabelRun(line, i, r)
  {
    assert forall j :: i <= j < r ==> line[j] == line[i..r][j - i];
  }

  /** The ends of the labels of the dotted run at `i`. */
  function Ends(line: string, i: nat, limit: nat): seq<nat>
    requires i <= limit <= |line|
    decreases limit - i, 1
  {
    var r := RunEnd(line, i, limit);
    if r == i then [] else [r] + EndsPast(line, r, limit)
  }

  /** The ends of the labels after the one that ends at `r`. */
  function EndsPast(line: string, r: nat, limit: nat): seq<nat>
    requires r <= limit <= |line|
    decreases limit - r, 0
  {
    if r < limit && line[r] == '.' then Ends(line, r + 1, limit) else []
  }

  lemma NoEndsPast(line: string, r: nat, limit: nat)
    requires r <= limit <= |line|
    requires r == limit || line[r] != '.' || r + 1 == limit || !IsLabel(line[r + 1])
    ensures EndsPast(line, r, limit) == []
  {
    if r < limit {
      assert r + 1 < limit && !IsLabel(line[r + 1]) ==> RunEnd(line, r + 1, limit) == r + 1;
    }
  }

  lemma NextEnd(line: string, i: nat, r: nat, limit: nat, ends: seq<nat>)
    requires i < r <= limit <= |line| && RunEnd(line, i, limit) == r
    ensures ends + Ends(line, i, limit) == ends + [r] + EndsPast(line, r, limit)
  {
  }

  /** Where label `k` begins. */
  function LabelStart(start: nat, ends: seq<nat>, k: nat): nat
    requires k <= |ends|
  {
    if k == 0 then start else ends[k - 1] + 1
  }

  /** Label ends strictly increase within the window. */
  predicate Increasing(start: nat, limit: nat, ends: seq<nat>) {
    && (forall k :: 0 <= k < |ends| ==> start < ends[k] <= limit)
    && (forall j, k :: 0 <= j < k < |ends| ==> ends[j] < ends[k])
  }

  lemma {:induction false} EndsIncrease(line: string, i: nat, limit: nat)
    requires i <= limit <= |line|
    ensures Increasing(i, limit, Ends(line, i, limit))
    decreases limit - i
  {
    var r := RunEnd(line, i, limit);
    if r != i && r < limit && line[r] == '.' {
      EndsIncrease(line, r + 1, limit);
    }
  }

  lemma {:induction false} DottedLength(labels: seq<string>)
    requires labels != []
    ensures |Dotted(labels)| >= |labels[0]|
  {
    if |labels| > 1 {
      DottedLength(labels[1..]);
    }
  }

  lemma FirstLabel(line: string, i: nat, limit: nat, labels: seq<string>, end: nat)
    requires i <= end <= limit <= |line| && labels != [] && labels[0] != "" && AllLabel(labels[0])
    requires line[i..end] == Dotted(labels) && (end == limit || !IsLabel(line[end]))
    ensures var r := i + |labels[0]|;
      && r <= end && RunEnd(line, i, limit) == r && line[i..r] == labels[0]
      && (|labels| == 1 ==> r == end)
      && (|labels| > 1 ==> r < end && line[r] == '.' && line[r + 1..end] == Dotted(labels[1..]))
  {
    DottedLength(labels);
    var r, d := i + |labels[0]|, Dotted(labels);
    assert line[i..r] == d[..r - i];
    RunIsLabel(line, i, r);
    if |labels| > 1 {
      assert d[r - i] == '.' && line[r] == line[i..end][r - i];
      assert line[r + 1..end] == d[r + 1 - i..];
    }
    RunEndUnique(line, i, limit, r);
  }

  /** Labels read off a line end at its label ends. */
  lemma {:induction false} LabelsEndAtEnds(line: string, i: nat, limit: nat, labels: seq<string>, end: nat)
    requires i <= end <= limit <= |line| && labels != [] && LabelsOk(labels)
    requires line[i..end] == Dotted(labels) && (end == limit || !IsLabel(line[end]))
    ensures var ends := Ends(line, i, limit);
      && |labels| <= |ends| && ends[|labels| - 1] == end
      && LabelStart(i, ends, |labels| - 1) <= end
      && line[LabelStart(i, ends, |labels| - 1)..end] == labels[|labels| - 1]
    decreases |labels|
  {
    DottedLength(labels);
    var r := i + |labels[0]|;
    FirstLabel(line, i, limit, labels, end);
    if |labels| > 1 {
      LabelsEndAtEnds(line, r + 1, limit, labels[1..], end);
    }
  }

  /** And every label end closes such labels. */
  lemma {:induction false} EndsCloseLabels(line: string, i: nat, limit: nat, k: nat) returns (labels: seq<string>)
    requires i <= limit <= |line| && k < |Ends(line, i, limit)|
    ensures var ends := Ends(line, i, limit);
      && |labels| == k + 1 && LabelsOk(labels)
      && i <= ends[k] <= limit && LabelStart(i, ends, k) <= ends[k]
      && line[i..ends[k]] == Dotted(labels) && (ends[k] == limit || !IsLabel(line[ends[k]]))
      && labels[k] == line[LabelStart(i, ends, k)..ends[k]]
      && (k >= 1 ==> LabelStart(i, ends, k - 1) <= ends[k - 1] <= limit
                     && labels[k - 1] == line[LabelStart(i, ends, k - 1)..ends[k - 1]])
    decreases k
  {
    var r := RunEnd(line, i, limit);
    if k == 0 {
      labels := [line[i..r]];
    } else {
      var rest := EndsCloseLabels(line, r + 1, limit, k - 1);
      labels := [line[i..r]] + rest;
      assert labels[1..] == rest;
      var end := Ends(line, i, limit)[k];
      assert line[i..end] == line[i..r] + ("." + line[r + 1..end]);
    }
  }

  /** Label `k`, which is not the first, is a top-level domain. */
  predicate TldAt(line: string, start: nat, ends: seq<nat>, k: nat)
    requires k < |ends|
  {
    k >= 1 && ends[k - 1] + 1 <= ends[k] <= |line| && IsTld(line[ends[k - 1] + 1..ends[k]])
  }

  /** The pattern's matches are exactly the label ends after the first whose label is a top-level domain. */
  lemma MatchesAreEnds(line: string, start: nat, limit: nat, end: nat)
    requires start <= limit <= |line|
    ensures Matches(line, start, limit, end) <==>
      exists k :: 0 <= k < |Ends(line, start, limit)| && TldAt(line, start, Ends(line, start, limit), k)
                  && Ends(line, start, limit)[k] == end
  {
    var ends := Ends(line, start, limit);
    if Matches(line, start, limit, end) {
      var labels :| DomainLabels(labels) && Dotted(labels) == line[start..end];
      LabelsEndAtEnds(line, start, limit, labels, end);
      assert TldAt(line, start, ends, |labels| - 1);
    }
    forall k | 0 <= k < |ends| && TldAt(line, start, ends, k) && ends[k] == end
      ensures Matches(line, start, limit, end)
    {
      var labels := EndsCloseLabels(line, start, limit, k);
      assert DomainLabels(labels);
    }
  }

  // ---- The scan ----------------------------------------------------------

  /** The last label end that closes a match is where the longest match ends. */
  lemma LastTldIsLongest(line: string, start: nat, limit: nat, k: nat)
    requires start <= limit <= |line| && k < |Ends(line, start, limit)|
      && TldAt(line, start, Ends(line, start, limit), k)
    requires forall j :: k < j < |Ends(line, start, limit)| ==> !TldAt(line, start, Ends(line, start, limit), j)
    ensures LongestMatch(line, start, limit, Ends(line, start, limit)[k])
  {
    var ends := Ends(line, start, limit);
    EndsIncrease(line, start, limit);
    MatchesAreEnds(line, start, limit, ends[k]);
    forall e: nat | Matches(line, start, limit, e) ensures e <= ends[k] {
      MatchesAreEnds(line, start, limit, e);
      var j :| 0 <= j < |ends| && TldAt(line, start, ends, j) && ends[j] == e;
    }
  }

  lemma NoTldNoMatch(line: string, start: nat, limit: nat)
    requires start <= limit <= |line|
    requires forall j :: 0 <= j < |Ends(line, start, limit)| ==> !TldAt(line, start, Ends(line, start, limit), j)
    ensures forall e: nat :: !Matches(line, start, limit, e)
  {
    forall e: nat ensures !Matches(line, start, limit, e) {
      MatchesAreEnds(line, start, limit, e);
    }
  }

  method EndOfRun(line: string, i: nat, limit: nat) returns (r: nat, ghost looks: nat)
    requires i <= limit <= |line|
    ensures r == RunEnd(line, i, limit) && looks <= r - i + 1
  {
    r, looks := i, 0;
    while r < limit && IsLabel(line[r])
      invariant i <= r <= limit && LabelRun(line, i, r)
      invariant looks == r - i
    {
      r := r + 1;
      looks := looks + 1;
    }
    looks := looks + 1;
    RunEndUnique(line, i, limit, r);
  }

  /** The label ends, in one pass over the window; `looks` counts the characters looked at. */
  method CollectEnds(line: string, start: nat, limit: nat) returns (ends: seq<nat>, ghost looks: nat)
    requires start <= limit <= |line|
    ensures ends == Ends(line, start, limit)
    ensures looks <= 4 * (limit - start) + 4
  {
    ends := [];
    looks := 0;
    var i := start;
    while i < limit
      invariant start <= i <= limit
      invariant Ends(line, start, limit) == ends + Ends(line, i, limit)
      invariant looks <= 4 * (i - start)
    {
      var r, seen := EndOfRun(line, i, limit);
      looks := looks + seen;
      if r == i {
        break;
      }
      NextEnd(line, i, r, limit, ends);
      ends := ends + [r];
      looks := looks + 1;
      if r == |line| || line[r] != '.' {
        NoEndsPast(line, r, limit);
        break;
      }
      looks := looks + 1;
      if r + 1 >= limit || !IsLabel(line[r + 1]) {
        NoEndsPast(line, r, limit);
        break;
      }
      i := r + 1;
    }
  }

  method IsAlphabetic(line: string, start: nat, end: nat) returns (alphabetic: bool, ghost looks: nat)
    requires start <= end <= |line|
    ensures alphabetic <==> AllAlpha(line[start..end])
    ensures looks <= end - start
  {
    looks := 0;
    for j := start to end
      invariant forall k :: start <= k < j ==> IsAlpha(line[k])
      invariant looks == j - start
    {
      looks := looks + 1;
      if !IsAlpha(line[j]) {
        assert line[start..end][j - start] == line[j];
        return false, looks;
      }
    }
    return true, looks;
  }

  /** The longest match of the pattern on the line cut at the end of the window, or nothing when there is none. */
  method DomainAfter(line: string, start: nat) returns (r: Option<string>, ghost looks: nat)
    requires start <= |line|
    ensures r.Some? ==> exists end: nat ::
      LongestMatch(line, start, Limit(line, start), end) && r.value == line[start..end]
    ensures r.None? ==> forall end: nat :: !Matches(line, start, Limit(line, start), end)
    ensures looks <= 5 * WINDOW + 4
  {
    var limit := if |line| < start + WINDOW then |line| else start + WINDOW;
    var labelEnds;
    labelEnds, looks := CollectEnds(line, start, limit);
    ghost var scanned := looks;
    EndsIncrease(line, start, limit);
    var k := |labelEnds|;
    while k >= 2
      invariant 0 <= k <= |labelEnds|
      invariant forall j :: 0 <= j && k <= j < |labelEnds| ==> !TldAt(line, start, labelEnds, j)
      invariant k >= 1 ==> looks - scanned <= limit - labelEnds[k - 1]
      invariant looks <= scanned + (limit - start)
    {
      var end := labelEnds[k - 1];
      var labelStart := labelEnds[k - 2] + 1;
      if end - labelStart >= 2 {
        var alphabetic, seen := IsAlphabetic(line, labelStart, end);
        looks := looks + seen;
        if alphabetic {
          LastTldIsLongest(line, start, limit, k - 1);
          return Some(line[start..end]), looks;
        }
      }
      k := k - 1;
    }
    NoTldNoMatch(line, start, limit);
    return None, looks;
  }

  // ---- Which domains are allowed -----------------------------------------

  function LowerChar(c: char): char {
    if 'A' <= c <= 'Z' then (c as int + 32) as char else c
  }

  function Lower(s: string): (r: string)
    ensures |r| == |s| && forall i :: 0 <= i < |s| ==> r[i] == LowerChar(s[i])
  {
    seq(|s|, i requires 0 <= i < |s| => LowerChar(s[i]))
  }

  function DotAt(s: string): (n: nat)
    ensures n <= |s| && (forall i :: 0 <= i < n ==> s[i] != '.') && (n < |s| ==> s[n] == '.')
  {
    if s == [] || s[0] == '.' then 0 else 1 + DotAt(s[1..])
  }

  /** The parts between the dots. */
  function SplitDots(s: string): (r: seq<string>)
    ensures r != []
    decreases |s|
  {
    var n := DotAt(s);
    if n == |s| then [s] else [s[..n]] + SplitDots(s[n + 1..])
  }

  lemma {:induction false} SplitOfDotted(labels: seq<string>)
    requires labels != [] && forall i :: 0 <= i < |labels| ==> '.' !in labels[i]
    ensures SplitDots(Dotted(labels)) == labels
  {
    var d := Dotted(labels);
    if |labels| == 1 {
      assert DotAt(d) == |d|;
    } else {
      var n := |labels[0]|;
      assert d[..n] == labels[0] && d[n] == '.' && d[n + 1..] == Dotted(labels[1..]);
      assert forall i :: 0 <= i < n ==> d[i] == labels[0][i];
      DotAtIs(d, n);
      SplitOfDotted(labels[1..]);
    }
  }

  lemma DotAtIs(s: string, n: nat)
    requires n < |s| && s[n] == '.' && forall i :: 0 <= i < n ==> s[i] != '.'
    ensures DotAt(s) == n
  {
  }

  const RESERVED_EMAIL_TLDS := ["example", "invalid", "test", "localhost"]
  const RESERVED_EXAMPLE_TLDS := ["com", "net", "org"]

  predicate Reserved(tld: string, before: Option<string>) {
    tld in RESERVED_EMAIL_TLDS || (before == Some("example") && tld in RESERVED_EXAMPLE_TLDS)
  }

  predicate IsAllowedEmailDomain(domain: string) {
    var labels := SplitDots(Lower(domain));
    Reserved(labels[|labels| - 1], if |labels| >= 2 then Some(labels[|labels| - 2]) else None)
  }

  function LowerAll(labels: seq<string>): (r: seq<string>)
    ensures |r| == |labels| && forall i :: 0 <= i < |labels| ==> r[i] == Lower(labels[i])
  {
    seq(|labels|, i requires 0 <= i < |labels| => Lower(labels[i]))
  }

  lemma {:induction false} LowerOfDotted(labels: seq<string>)
    ensures Lower(Dotted(labels)) == Dotted(LowerAll(labels))
  {
    if |labels| == 1 {
    } else if |labels| > 1 {
      LowerOfDotted(labels[1..]);
      assert LowerAll(labels)[1..] == LowerAll(labels[1..]);
      var d, e := Dotted(labels), Dotted(LowerAll(labels));
      assert e == Lower(labels[0]) + ("." + Lower(Dotted(labels[1..])));
      assert Lower(d) == e;
    }
  }

  lemma PartsOfDomain(labels: seq<string>)
    requires labels != [] && LabelsOk(labels)
    ensures SplitDots(Lower(Dotted(labels))) == LowerAll(labels)
  {
    LowerOfDotted(labels);
    forall i | 0 <= i < |labels| ensures '.' !in LowerAll(labels)[i] {
      LowerHasNoDot(labels[i]);
    }
    SplitOfDotted(LowerAll(labels));
  }

  lemma LowerHasNoDot(part: string)
    requires AllLabel(part)
    ensures '.' !in Lower(part)
  {
  }

  /** Only the last label, or the last two, reserve a domain, in any letter case; no label before them does. */
  lemma AllowedByLastLabels(labels: seq<string>)
    requires |labels| >= 2 && LabelsOk(labels)
    ensures IsAllowedEmailDomain(Dotted(labels)) <==>
      Reserved(Lower(labels[|labels| - 1]), Some(Lower(labels[|labels| - 2])))
  {
    PartsOfDomain(labels);
  }

  /** The reserved domains: four top-level ones, and `example` under three others. */
  lemma ReservedDomains(labels: seq<string>)
    requires |labels| >= 2 && LabelsOk(labels)
    ensures var last, before := Lower(labels[|labels| - 1]), Lower(labels[|labels| - 2]);
      IsAllowedEmailDomain(Dotted(labels)) <==>
        || last == "example" || last == "invalid" || last == "test" || last == "localhost"
        || (before == "example" && (last == "com" || last == "net" || last == "org"))
  {
    AllowedByLastLabels(labels);
    ReservedLiterally(Lower(labels[|labels| - 1]), Lower(labels[|labels| - 2]));
  }

  lemma ReservedLiterally(tld: string, before: string)
    ensures Reserved(tld, Some(before)) <==>
      || tld == "example" || tld == "invalid" || tld == "test" || tld == "localhost"
      || (before == "example" && (tld == "com" || tld == "net" || tld == "org"))
  {
    assert RESERVED_EMAIL_TLDS == ["example", "invalid", "test", "localhost"];
    assert RESERVED_EXAMPLE_TLDS == ["com", "net", "org"];
  }

  /** The same character, or one ASCII letter in its two cases. */
  predicate SameLetter(c: char, d: char) {
    || c == d
    || ('A' <= c <= 'Z' && d as int == c as int + 32)
    || ('A' <= d <= 'Z' && c as int == d as int + 32)
  }

  /** Letter case does not matter. */
  lemma CaseDoesNotMatter(a: string, b: string)
    requires |a| == |b| && forall i :: 0 <= i < |a| ==> SameLetter(a[i], b[i])
    ensures IsAllowedEmailDomain(a) <==> IsAllowedEmailDomain(b)
  {
    assert Lower(a) == Lower(b);
  }

  // ---- The rule ----------------------------------------------------------

  /** An address whose `@` stands at `at` has a domain that is not reserved for documentation. */
  ghost predicate DisallowedAt(line: string, at: nat) {
    && 0 < at < |line| && line[at] == '@' && IsLocal(line[at - 1])
    && NotReservedFrom(line, at + 1)
  }

  ghost predicate NotReservedFrom(line: string, start: nat) {
    NotReservedWithin(line, start, Limit(line, start))
  }

  /** The longest match on the line cut at `limit` is a domain that is not reserved. */
  ghost predicate NotReservedWithin(line: string, start: nat, limit: nat)
    requires limit <= |line|
  {
    exists end: nat :: LongestMatch(line, start, limit, end) && !IsAllowedEmailDomain(line[start..end])
  }

  lemma LongestDecides(line: string, start: nat, domain: Option<string>)
    requires domain.Some? ==> exists end: nat ::
      LongestMatch(line, start, Limit(line, start), end) && domain.value == line[start..end]
    requires domain.None? ==> forall end: nat :: !Matches(line, start, Limit(line, start), end)
    ensures NotReservedFrom(line, start) <==> domain.Some? && !IsAllowedEmailDomain(domain.value)
  {
    if domain.Some? {
      var end: nat :| LongestMatch(line, start, Limit(line, start), end) && domain.value == line[start..end];
      forall e: nat | LongestMatch(line, start, Limit(line, start), e) ensures e == end {
      }
    }
  }

  /** The check of one `@`. */
  method IsDisallowedAt(line: string, at: nat) returns (r: bool)
    requires at < |line| && line[at] == '@'
    ensures r <==> DisallowedAt(line, at)
  {
    if at == 0 || !IsLocal(line[at - 1]) {
      return false;
    }
    var domain, _ := DomainAfter(line, at + 1);
    LongestDecides(line, at + 1, domain);
    return domain.Some? && !IsAllowedEmailDomain(domain.value);
  }

  method HasDisallowedEmail(line: string) returns (r: bool)
    ensures r <==> exists at: nat :: DisallowedAt(line, at)
  {
    for at := 0 to |line|
      invariant forall p: nat :: p < at ==> !DisallowedAt(line, p)
    {
      if line[at] == '@' {
        r := IsDisallowedAt(line, at);
        if r {
          return;
        }
      }
    }
    return false;
  }
}
