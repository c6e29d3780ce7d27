/**
 The window of the domain scan (scripts/public-safety-scan.ts): exactly when cutting the line
 after 256 characters changes what the pattern yields, and what that does to the e-mail rule.
 */
module DomainWindow {
  import opened DomainScan
  import opened JsText

  // ---- The longest match, from the label ends ----------------------------

  /** The end of the last of the first `k` labels that is a top-level domain. */
  function LastTld(line: string, start: nat, ends: seq<nat>, k: nat): Option<nat>
    requires k <= |ends|
  {
    if k == 0 then None
    else if TldAt(line, start, ends, k - 1) then Some(ends[k - 1])
    else LastTld(line, start, ends, k - 1)
  }

  /** Where the longest match on the line cut at `limit` ends, if there is one. */
  function MatchEnd(line: string, start: nat, limit: nat): Option<nat>
    requires start <= limit <= |line|
  {
    LastTld(line, start, Ends(line, start, limit), |Ends(line, start, limit)|)
  }

  lemma {:induction false} LastTldFound(line: string, start: nat, ends: seq<nat>, k: nat) returns (j: nat)
    requires k <= |ends|
    ensures LastTld(line, start, ends, k).Some? ==>
      j < k && TldAt(line, start, ends, j) && LastTld(line, start, ends, k) == Some(ends[j])
    ensures LastTld(line, start, ends, k).None? ==> j == 0
    ensures forall i :: j < i < k ==> !TldAt(line, start, ends, i)
    ensures LastTld(line, start, ends, k).None? && k > 0 ==> !TldAt(line, start, ends, 0)
  {
    if k == 0 {
      j := 0;
    } else if TldAt(line, start, ends, k - 1) {
      j := k - 1;
    } else {
      j := LastTldFound(line, start, ends, k - 1);
    }
  }

  /** What the pattern yields on the line cut at `limit`: the longest match, or nothing. */
  ghost predicate Yields(line: string, start: nat, limit: nat, r: Option<nat>)
    requires limit <= |line|
  {
    match r
    case None => forall end: nat :: !Matches(line, start, limit, end)
    case Some(end) => LongestMatch(line, start, limit, end)
  }

  lemma MatchEndIsLongest(line: string, start: nat, limit: nat)
    requires start <= limit <= |line|
    ensures Yields(line, start, limit, MatchEnd(line, start, limit))
  {
    var ends := Ends(line, start, limit);
    var j := LastTldFound(line, start, ends, |ends|);
    if MatchEnd(line, start, limit).Some? {
      LastTldIsLongest(line, start, limit, j);
    } else {
      NoTldNoMatch(line, start, limit);
    }
  }

  lemma YieldsOnce(line: string, start: nat, limit: nat, q: Option<nat>, r: Option<nat>)
    requires limit <= |line| && Yields(line, start, limit, q) && Yields(line, start, limit, r)
    ensures q == r
  {
  }

  // ---- When the window agrees --------------------------------------------

  /** Some label that ends past the window could end a match. */
  predicate TldPast(line: string, start: nat, limit: nat)
    requires start <= limit <= |line|
  {
    var ends := Ends(line, start, |line|);
    exists k :: 0 <= k < |ends| && TldAt(line, start, ends, k) && ends[k] > limit
  }

  /** The window cuts a label, and what it leaves of it reads as a top-level domain. */
  predicate CutTld(line: string, start: nat, limit: nat)
    requires start <= limit <= |line|
  {
    var ends := Ends(line, start, limit);
    && limit < |line| && IsLabel(line[limit])
    && exists k :: 0 <= k < |ends| && TldAt(line, start, ends, k) && ends[k] == limit
  }

  /** The window does not matter: it reaches the end of the line, or cuts nothing that could end a match. */
  predicate WindowFits(line: string, start: nat)
    requires start <= |line|
  {
    var limit := Limit(line, start);
    limit == |line| || (!TldPast(line, start, limit) && !CutTld(line, start, limit))
  }

  ghost predicate WindowAgrees(line: string, start: nat)
    requires start <= |line|
  {
    forall r :: Yields(line, start, Limit(line, start), r) <==> Yields(line, start, |line|, r)
  }

  lemma TldMatches(line: string, start: nat, limit: nat, k: nat)
    requires start <= limit <= |line| && k < |Ends(line, start, limit)|
      && TldAt(line, start, Ends(line, start, limit), k)
    ensures Matches(line, start, limit, Ends(line, start, limit)[k])
  {
    MatchesAreEnds(line, start, limit, Ends(line, start, limit)[k]);
  }

  lemma TldPastMatches(line: string, start: nat, limit: nat)
    requires start <= limit <= |line|
    ensures TldPast(line, start, limit) <==> exists e: nat :: e > limit && Matches(line, start, |line|, e)
  {
    var ends := Ends(line, start, |line|);
    forall k | 0 <= k < |ends| && TldAt(line, start, ends, k) && ends[k] > limit
      ensures Matches(line, start, |line|, ends[k])
    {
      TldMatches(line, start, |line|, k);
    }
    forall e: nat | e > limit && Matches(line, start, |line|, e) ensures TldPast(line, start, limit) {
      MatchesAreEnds(line, start, |line|, e);
    }
  }

  lemma CutTldMatches(line: string, start: nat, limit: nat)
    requires start <= limit < |line|
    ensures CutTld(line, start, limit) <==> IsLabel(line[limit]) && Matches(line, start, limit, limit)
  {
    MatchesAreEnds(line, start, limit, limit);
  }

  /** Short of the cut, both read the line alike; at the cut, only the window ignores what follows. */
  lemma MatchesAlike(line: string, start: nat, limit: nat, e: nat)
    requires start <= limit < |line|
    ensures e < limit ==> (Matches(line, start, limit, e) <==> Matches(line, start, |line|, e))
    ensures Matches(line, start, |line|, limit) <==> Matches(line, start, limit, limit) && !IsLabel(line[limit])
  {
  }

  /** The window yields what the whole line yields, for every line and start, exactly when it fits. */
  lemma WindowAgreesIff(line: string, start: nat)
    requires start <= |line|
    ensures WindowAgrees(line, start) <==> WindowFits(line, start)
  {
    var limit := Limit(line, start);
    if limit < |line| {
      TldPastMatches(line, start, limit);
      CutTldMatches(line, start, limit);
      if WindowFits(line, start) {
        SameMatches(line, start, limit);
      } else {
        DifferentYields(line, start, limit);
      }
    }
  }

  lemma SameMatches(line: string, start: nat, limit: nat)
    requires start <= limit < |line|
    requires !exists e: nat :: e > limit && Matches(line, start, |line|, e)
    requires !(IsLabel(line[limit]) && Matches(line, start, limit, limit))
    ensures forall r :: Yields(line, start, limit, r) <==> Yields(line, start, |line|, r)
  {
    forall e: nat ensures Matches(line, start, limit, e) <==> Matches(line, start, |line|, e) {
      MatchesAlike(line, start, limit, e);
    }
  }

  lemma DifferentYields(line: string, start: nat, limit: nat)
    requires start <= limit < |line|
    requires (exists e: nat :: e > limit && Matches(line, start, |line|, e))
      || (IsLabel(line[limit]) && Matches(line, start, limit, limit))
    ensures exists r :: !(Yields(line, start, limit, r) <==> Yields(line, start, |line|, r))
  {
    var whole := MatchEnd(line, start, |line|);
    MatchEndIsLongest(line, start, |line|);
    MatchesAlike(line, start, limit, limit);
    if exists e: nat :: e > limit && Matches(line, start, |line|, e) {
      assert whole.Some? && whole.value > limit;
      assert !Yields(line, start, limit, whole);
    } else {
      assert Yields(line, start, limit, Some(limit)) && !Yields(line, start, |line|, Some(limit));
    }
  }

  // ---- What it does to the rule ------------------------------------------

  /** An address as the rule looks for it. */
  predicate IsAddress(line: string, at: nat) {
    0 < at < |line| && line[at] == '@' && IsLocal(line[at - 1])
  }

  /** The rule as documented: the pattern is read on the whole line. */
  ghost predicate DocumentedAt(line: string, at: nat) {
    IsAddress(line, at) && NotReservedWithin(line, at + 1, |line|)
  }

  ghost predicate SomeDisallowed(line: string) { exists at: nat :: DisallowedAt(line, at) }

  ghost predicate SomeDocumented(line: string) { exists at: nat :: DocumentedAt(line, at) }

  /** A domain that ends there and is not reserved. */
  predicate BadEnd(line: string, start: nat, end: Option<nat>) {
    end.Some? && start <= end.value <= |line| && !IsAllowedEmailDomain(line[start..end.value])
  }

  lemma VerdictIs(line: string, start: nat, limit: nat)
    requires start <= limit <= |line|
    ensures NotReservedWithin(line, start, limit) <==> BadEnd(line, start, MatchEnd(line, start, limit))
  {
    MatchEndIsLongest(line, start, limit);
    var r := MatchEnd(line, start, limit);
    forall end: nat | LongestMatch(line, start, limit, end) ensures r == Some(end) {
      YieldsOnce(line, start, limit, r, Some(end));
    }
  }

  /** The end of the longest match that lies wholly before the cut. */
  function EndBefore(line: string, start: nat, limit: nat): Option<nat>
    requires start <= limit <= |line|
  {
    var ends := Ends(line, start, limit);
    if ends == [] then None
    else LastTld(line, start, ends, if ends[|ends| - 1] == limit then |ends| - 1 else |ends|)
  }

  /** When the window makes a top-level domain of a cut label, the whole line yields the match before it. */
  lemma CutYieldsBefore(line: string, start: nat, limit: nat)
    requires start <= limit < |line| && CutTld(line, start, limit) && !TldPast(line, start, limit)
    ensures MatchEnd(line, start, limit) == Some(limit)
    ensures MatchEnd(line, start, |line|) == EndBefore(line, start, limit)
  {
    TldPastMatches(line, start, limit);
    CutTldMatches(line, start, limit);
    MatchEndIsLongest(line, start, limit);
    MatchEndIsLongest(line, start, |line|);
    YieldsOnce(line, start, limit, MatchEnd(line, start, limit), Some(limit));
    EndBeforeYields(line, start, limit);
    YieldsOnce(line, start, |line|, MatchEnd(line, start, |line|), EndBefore(line, start, limit));
  }

  lemma OnlyLastAtLimit(start: nat, limit: nat, ends: seq<nat>, k: nat)
    requires Increasing(start, limit, ends) && k < |ends|
    ensures k < |ends| - 1 ==> ends[k] < limit
  {
    assert k < |ends| - 1 ==> ends[k] < ends[|ends| - 1];
  }

  lemma EndBeforeYields(line: string, start: nat, limit: nat)
    requires start <= limit < |line| && CutTld(line, start, limit)
    requires !exists e: nat :: e > limit && Matches(line, start, |line|, e)
    ensures Yields(line, start, |line|, EndBefore(line, start, limit))
  {
    var ends := Ends(line, start, limit);
    EndsIncrease(line, start, limit);
    var last :| 0 <= last < |ends| && TldAt(line, start, ends, last) && ends[last] == limit;
    OnlyLastAtLimit(start, limit, ends, last);
    var j := LastTldFound(line, start, ends, last);
    forall e: nat | Matches(line, start, |line|, e)
      ensures EndBefore(line, start, limit).Some? && e <= EndBefore(line, start, limit).value
    {
      EarlierEnd(line, start, limit, e, last, j);
    }
    if EndBefore(line, start, limit).Some? {
      TldMatches(line, start, limit, j);
      MatchesAlike(line, start, limit, ends[j]);
    }
  }

  lemma EarlierEnd(line: string, start: nat, limit: nat, e: nat, last: nat, j: nat)
    requires start <= limit < |line| && IsLabel(line[limit]) && Matches(line, start, |line|, e) && e <= limit
    requires var ends := Ends(line, start, limit);
      && last == |ends| - 1 && ends[last] == limit
      && (forall i :: j < i < last ==> !TldAt(line, start, ends, i))
      && (LastTld(line, start, ends, last).None? ==> j == 0 && (last > 0 ==> !TldAt(line, start, ends, 0)))
      && (LastTld(line, start, ends, last).Some? ==> j < last && LastTld(line, start, ends, last) == Some(ends[j]))
    ensures LastTld(line, start, Ends(line, start, limit), last).Some?
    ensures e <= LastTld(line, start, Ends(line, start, limit), last).value
  {
    var ends := Ends(line, start, limit);
    MatchesAlike(line, start, limit, e);
    assert e < limit;
    MatchesAreEnds(line, start, limit, e);
    var k :| 0 <= k < |ends| && TldAt(line, start, ends, k) && ends[k] == e;
    EndsIncrease(line, start, limit);
    assert k < last;
  }

  // ---- The verdict, from the last two labels -----------------------------

  /** Label `k`. */
  function LabelAt(line: string, start: nat, ends: seq<nat>, k: nat): string
    requires k < |ends|
  {
    var first := LabelStart(start, ends, k);
    if first <= ends[k] <= |line| then line[first..ends[k]] else ""
  }

  /** Label `k` and the one before it reserve the domain that they end. */
  predicate ReservedAt(line: string, start: nat, ends: seq<nat>, k: nat)
    requires 1 <= k < |ends|
  {
    Reserved(Lower(LabelAt(line, start, ends, k)), Some(Lower(LabelAt(line, start, ends, k - 1))))
  }

  /** Some of the first `n` labels are top-level domains, and the last that is does not reserve its domain. */
  predicate LastUnreserved(line: string, start: nat, ends: seq<nat>, n: nat)
    requires n <= |ends|
  {
    exists k :: 1 <= k < n && UnreservedLast(line, start, ends, n, k)
  }

  predicate UnreservedLast(line: string, start: nat, ends: seq<nat>, n: nat, k: nat)
    requires 1 <= k < n <= |ends|
  {
    && TldAt(line, start, ends, k) && !ReservedAt(line, start, ends, k)
    && forall j :: k < j < n ==> !TldAt(line, start, ends, j)
  }

  lemma AllowedAt(line: string, start: nat, limit: nat, k: nat)
    requires start <= limit <= |line| && 1 <= k < |Ends(line, start, limit)|
    ensures var ends := Ends(line, start, limit);
      && start <= ends[k] <= limit
      && (IsAllowedEmailDomain(line[start..ends[k]]) <==> ReservedAt(line, start, ends, k))
  {
    var labels := EndsCloseLabels(line, start, limit, k);
    AllowedByLastLabels(labels);
  }

  lemma LastIsOne(line: string, start: nat, ends: seq<nat>, n: nat, j: nat)
    requires 1 <= j < n <= |ends| && TldAt(line, start, ends, j)
    requires forall i :: j < i < n ==> !TldAt(line, start, ends, i)
    ensures LastUnreserved(line, start, ends, n) <==> !ReservedAt(line, start, ends, j)
  {
    assert !ReservedAt(line, start, ends, j) ==> UnreservedLast(line, start, ends, n, j);
    forall k | 1 <= k < n && UnreservedLast(line, start, ends, n, k) ensures k == j {
      assert TldAt(line, start, ends, k);
    }
  }

  lemma LastUnreservedIs(line: string, start: nat, limit: nat, n: nat, end: Option<nat>)
    requires start <= limit <= |line| && n <= |Ends(line, start, limit)|
    requires end == LastTld(line, start, Ends(line, start, limit), n)
    ensures LastUnreserved(line, start, Ends(line, start, limit), n) <==> BadEnd(line, start, end)
  {
    var ends := Ends(line, start, limit);
    var j := LastTldFound(line, start, ends, n);
    if end.Some? {
      AllowedAt(line, start, limit, j);
      LastIsOne(line, start, ends, n, j);
    } else {
      forall k | 1 <= k < n ensures !UnreservedLast(line, start, ends, n, k) {
      }
    }
  }

  /** On a line cut anywhere, a domain is refused exactly when its last top-level label and the one before say so. */
  lemma VerdictByLabels(line: string, start: nat, limit: nat)
    requires start <= limit <= |line|
    ensures var ends := Ends(line, start, limit);
      NotReservedWithin(line, start, limit) <==> LastUnreserved(line, start, ends, |ends|)
  {
    VerdictIs(line, start, limit);
    LastUnreservedIs(line, start, limit, |Ends(line, start, limit)|, MatchEnd(line, start, limit));
  }

  // ---- What the cut does to one address ----------------------------------

  /** The cut makes a top-level domain of a label, and that one and the label before it are reserved. */
  predicate CutReserved(line: string, start: nat)
    requires start <= |line|
  {
    var limit := Limit(line, start);
    var ends := Ends(line, start, limit);
    CutTld(line, start, limit) && |ends| >= 2 && ReservedAt(line, start, ends, |ends| - 1)
  }

  lemma CutIsLast(line: string, start: nat, limit: nat)
    requires start <= limit <= |line| && CutTld(line, start, limit)
    ensures var ends := Ends(line, start, limit); |ends| >= 2 && ends[|ends| - 1] == limit
  {
    var ends := Ends(line, start, limit);
    EndsIncrease(line, start, limit);
    var k :| 0 <= k < |ends| && TldAt(line, start, ends, k) && ends[k] == limit;
    OnlyLastAtLimit(start, limit, ends, k);
  }

  lemma FitsAlike(line: string, start: nat)
    requires start <= |line| && WindowFits(line, start)
    ensures NotReservedFrom(line, start) <==> NotReservedWithin(line, start, |line|)
  {
    var limit := Limit(line, start);
    VerdictIs(line, start, limit);
    VerdictIs(line, start, |line|);
    WindowAgreesIff(line, start);
    MatchEndIsLongest(line, start, limit);
    MatchEndIsLongest(line, start, |line|);
    YieldsOnce(line, start, |line|, MatchEnd(line, start, limit), MatchEnd(line, start, |line|));
  }

  /**
   When no match goes on past the window, the verdict is that of the whole line, unless the window
   makes a top-level domain of a cut label: then that label and the one before it decide.
   */
  lemma CutDecides(line: string, start: nat)
    requires start <= |line| && !TldPast(line, start, Limit(line, start))
    ensures NotReservedFrom(line, start) <==>
      if CutTld(line, start, Limit(line, start)) then !CutReserved(line, start)
      else NotReservedWithin(line, start, |line|)
  {
    var limit := Limit(line, start);
    if CutTld(line, start, limit) {
      CutVerdict(line, start, limit);
    } else {
      FitsAlike(line, start);
    }
  }

  lemma CutEndsAtLimit(line: string, start: nat, limit: nat)
    requires start <= limit <= |line| && CutTld(line, start, limit)
    ensures MatchEnd(line, start, limit) == Some(limit)
  {
    CutTldMatches(line, start, limit);
    MatchEndIsLongest(line, start, limit);
    YieldsOnce(line, start, limit, MatchEnd(line, start, limit), Some(limit));
  }

  lemma CutAllowed(line: string, start: nat, limit: nat)
    requires start <= limit <= |line| && CutTld(line, start, limit)
    ensures var ends := Ends(line, start, limit);
      |ends| >= 2 && (IsAllowedEmailDomain(line[start..limit]) <==> ReservedAt(line, start, ends, |ends| - 1))
  {
    CutIsLast(line, start, limit);
    AllowedAt(line, start, limit, |Ends(line, start, limit)| - 1);
  }

  lemma CutVerdict(line: string, start: nat, limit: nat)
    requires start <= |line| && limit == Limit(line, start) && CutTld(line, start, limit)
    ensures NotReservedWithin(line, start, limit) <==> !CutReserved(line, start)
  {
    CutEndsAtLimit(line, start, limit);
    CutAllowed(line, start, limit);
    VerdictIs(line, start, limit);
  }

  /** The longest domain that can be delivered to (section 4.5.3.1.2 of RFC 5321). */
  const MAX_DOMAIN := 255

  /** The pattern matches the whole line up to `end`, or nowhere, and no further than a domain may go. */
  ghost predicate FindsDomain(line: string, start: nat, end: Option<nat>) {
    Yields(line, start, |line|, end) && (end.Some? ==> end.value - start <= MAX_DOMAIN)
  }

  lemma NonePast(line: string, start: nat, end: Option<nat>)
    requires start <= |line| && FindsDomain(line, start, end)
    ensures !TldPast(line, start, Limit(line, start))
  {
    TldPastMatches(line, start, Limit(line, start));
  }

  /**
   An address at a deliverable domain that is not reserved goes unreported exactly when the window
   cuts a label so that it and the one before it are reserved.
   */
  lemma HiddenIff(line: string, at: nat, end: nat)
    requires IsAddress(line, at) && FindsDomain(line, at + 1, Some(end))
    requires !IsAllowedEmailDomain(line[at + 1..end])
    ensures !DisallowedAt(line, at) <==> CutReserved(line, at + 1)
  {
    NonePast(line, at + 1, Some(end));
    CutDecides(line, at + 1);
  }

  /**
   Where the pattern finds no domain, or a deliverable and reserved one, an address is reported
   exactly when the window makes a top-level domain of a cut label and the two are not reserved.
   */
  lemma InventedIff(line: string, at: nat, end: Option<nat>)
    requires IsAddress(line, at) && FindsDomain(line, at + 1, end)
    requires end.Some? ==> IsAllowedEmailDomain(line[at + 1..end.value])
    ensures DisallowedAt(line, at) <==>
      CutTld(line, at + 1, Limit(line, at + 1)) && !CutReserved(line, at + 1)
  {
    NonePast(line, at + 1, end);
    CutDecides(line, at + 1);
    if NotReservedWithin(line, at + 1, |line|) {
      var e: nat :| LongestMatch(line, at + 1, |line|, e) && !IsAllowedEmailDomain(line[at + 1..e]);
      YieldsOnce(line, at + 1, |line|, end, Some(e));
    }
  }

  // ---- What it does to a line --------------------------------------------

  /** The line holds an address at a deliverable domain that is not reserved. */
  ghost predicate HoldsDeliverable(line: string) {
    exists at: nat, end: nat :: DeliverableAt(line, at, end)
  }

  ghost predicate DeliverableAt(line: string, at: nat, end: nat) {
    && IsAddress(line, at) && FindsDomain(line, at + 1, Some(end))
    && !IsAllowedEmailDomain(line[at + 1..end])
  }

  /** The window makes a reserved domain of the address's, and no top-level domain ends past it. */
  predicate CutReservedAt(line: string, at: nat) {
    IsAddress(line, at) && CutReserved(line, at + 1) && !TldPast(line, at + 1, Limit(line, at + 1))
  }

  /** And the last top-level domain before the cut label is not reserved with the label before it. */
  predicate CutHides(line: string, at: nat) {
    && CutReservedAt(line, at)
    && var ends := Ends(line, at + 1, Limit(line, at + 1));
       LastUnreserved(line, at + 1, ends, |ends| - 1)
  }

  /**
   Nothing is to be reported at the address: the label that the window cuts into a top-level domain
   is reserved; or, where it cuts none, the line's last top-level domain is, or the window's if the
   line's lies past it.
   */
  predicate Spared(line: string, at: nat)
    requires at < |line|
  {
    var start, limit := at + 1, Limit(line, at + 1);
    if CutTld(line, start, limit) then CutReserved(line, start)
    else
      var ends := Ends(line, start, if TldPast(line, start, limit) then limit else |line|);
      !LastUnreserved(line, start, ends, |ends|)
  }

  lemma SparedIff(line: string, at: nat)
    requires IsAddress(line, at)
    ensures Spared(line, at) <==> !DisallowedAt(line, at)
  {
    var start, limit := at + 1, Limit(line, at + 1);
    if CutTld(line, start, limit) {
      CutVerdict(line, start, limit);
    } else if TldPast(line, start, limit) {
      VerdictByLabels(line, start, limit);
    } else {
      CutDecides(line, start);
      VerdictByLabels(line, start, |line|);
    }
  }

  lemma WholeIsBefore(line: string, start: nat, limit: nat)
    requires start <= limit < |line| && CutTld(line, start, limit) && !TldPast(line, start, limit)
    ensures var ends := Ends(line, start, limit);
      |ends| >= 2 && MatchEnd(line, start, |line|) == LastTld(line, start, ends, |ends| - 1)
  {
    CutIsLast(line, start, limit);
    CutYieldsBefore(line, start, limit);
  }

  lemma BeforeDecides(line: string, start: nat, limit: nat)
    requires start <= limit < |line| && CutTld(line, start, limit) && !TldPast(line, start, limit)
    ensures var ends := Ends(line, start, limit);
      |ends| >= 2
      && (LastUnreserved(line, start, ends, |ends| - 1) <==> BadEnd(line, start, MatchEnd(line, start, |line|)))
  {
    WholeIsBefore(line, start, limit);
    LastUnreservedIs(line, start, limit, |Ends(line, start, limit)| - 1, MatchEnd(line, start, |line|));
  }

  lemma BeforeIsShorter(line: string, start: nat, limit: nat, n: nat)
    requires start <= limit <= |line| && n < |Ends(line, start, limit)|
    ensures var end := LastTld(line, start, Ends(line, start, limit), n); end.Some? ==> end.value < limit
  {
    var ends := Ends(line, start, limit);
    EndsIncrease(line, start, limit);
    var j := LastTldFound(line, start, ends, n);
    assert LastTld(line, start, ends, n).Some? ==> ends[j] < ends[n] <= limit;
  }

  lemma BeforeIsDeliverable(line: string, start: nat, limit: nat)
    requires start <= limit < |line| && limit == Limit(line, start)
    requires CutTld(line, start, limit) && !TldPast(line, start, limit)
    ensures FindsDomain(line, start, MatchEnd(line, start, |line|))
  {
    WholeIsBefore(line, start, limit);
    MatchEndIsLongest(line, start, |line|);
    BeforeIsShorter(line, start, limit, |Ends(line, start, limit)| - 1);
  }

  lemma CutHidesDomain(line: string, start: nat, limit: nat) returns (end: nat)
    requires start <= limit < |line| && limit == Limit(line, start)
    requires CutTld(line, start, limit) && !TldPast(line, start, limit)
    requires var ends := Ends(line, start, limit); |ends| > 0 && LastUnreserved(line, start, ends, |ends| - 1)
    ensures start <= end <= |line| && FindsDomain(line, start, Some(end)) && !IsAllowedEmailDomain(line[start..end])
  {
    BeforeIsDeliverable(line, start, limit);
    BeforeDecides(line, start, limit);
    end := MatchEnd(line, start, |line|).value;
  }

  lemma DomainBefore(line: string, start: nat, limit: nat, end: nat)
    requires start <= limit < |line| && limit == Limit(line, start)
    requires CutTld(line, start, limit) && !TldPast(line, start, limit)
    requires Yields(line, start, |line|, Some(end)) && !IsAllowedEmailDomain(line[start..end])
    ensures var ends := Ends(line, start, limit); |ends| > 0 && LastUnreserved(line, start, ends, |ends| - 1)
  {
    MatchEndIsLongest(line, start, |line|);
    YieldsOnce(line, start, |line|, MatchEnd(line, start, |line|), Some(end));
    BeforeDecides(line, start, limit);
  }

  lemma HiddenAt(line: string, at: nat, end: nat)
    requires DeliverableAt(line, at, end) && !DisallowedAt(line, at)
    ensures CutHides(line, at)
  {
    HiddenIff(line, at, end);
    NonePast(line, at + 1, Some(end));
    DomainBefore(line, at + 1, Limit(line, at + 1), end);
  }

  /**
   A line with an address at a deliverable, unreserved domain goes unreported exactly when the
   window hides some address of it and spares the others.
   */
  lemma LineHiddenIff(line: string)
    ensures HoldsDeliverable(line) && !SomeDisallowed(line) <==>
      (exists at: nat :: CutHides(line, at)) && forall at: nat :: IsAddress(line, at) ==> Spared(line, at)
  {
    forall at: nat | IsAddress(line, at) ensures Spared(line, at) <==> !DisallowedAt(line, at) {
      SparedIff(line, at);
    }
    if at: nat :| CutHides(line, at) {
      var end := CutHidesDomain(line, at + 1, Limit(line, at + 1));
      assert DeliverableAt(line, at, end);
    }
    if HoldsDeliverable(line) && !SomeDisallowed(line) {
      var at: nat, end: nat :| DeliverableAt(line, at, end);
      assert !DisallowedAt(line, at);
      HiddenAt(line, at, end);
    }
  }

  // ---- The window can hide a domain --------------------------------------

  function Zeros(n: nat): (r: string)
    ensures |r| == n && forall i :: 0 <= i < n ==> r[i] == '0'
  {
    seq(n, _ => '0')
  }

  const HEAD := "u@real.com."
  const TAIL := ".test9"

  /** An address whose window ends within its last label. */
  function LongAddress(): string { HEAD + (Zeros(242) + TAIL) }

  /** The characters of such a line. */
  ghost predicate IsLong(line: string) {
    && |line| == 259 && line[0] == 'u' && line[1] == '@'
    && line[2..6] == "real" && line[6] == '.' && line[7..10] == "com" && line[10] == '.'
    && (forall i :: 11 <= i < 253 ==> line[i] == '0')
    && line[253] == '.' && line[254..258] == "test" && line[258] == '9'
  }

  lemma LongAddressIsLong()
    ensures IsLong(LongAddress())
  {
    var line := LongAddress();
    assert forall i :: 11 <= i < 253 ==> line[i] == Zeros(242)[i - 11];
    assert line[..11] == HEAD && line[253..] == TAIL;
    assert line[2..6] == HEAD[2..6] == "real" && line[7..10] == HEAD[7..10] == "com";
    assert line[254..258] == TAIL[1..5] == "test";
    assert line[253] == TAIL[0] && line[258] == TAIL[5];
  }

  lemma LongLabels(line: string)
    requires IsLong(line)
    ensures LabelRun(line, 2, 6) && LabelRun(line, 7, 10) && LabelRun(line, 11, 253) && LabelRun(line, 254, 259)
  {
    RunIsLabel(line, 2, 6);
    RunIsLabel(line, 7, 10);
    RunIsLabel(line, 254, 258);
  }

  lemma FirstEnd(line: string, i: nat, r: nat, limit: nat)
    requires i < r < limit <= |line| && LabelRun(line, i, r) && line[r] == '.'
    ensures Ends(line, i, limit) == [r] + Ends(line, r + 1, limit)
  {
    RunEndUnique(line, i, limit, r);
  }

  lemma OnlyEnd(line: string, i: nat, limit: nat)
    requires i < limit <= |line| && LabelRun(line, i, limit)
    ensures Ends(line, i, limit) == [limit]
  {
    RunEndUnique(line, i, limit, limit);
  }

  lemma LongEnds(line: string, limit: nat)
    requires IsLong(line) && (limit == 258 || limit == 259)
    ensures Ends(line, 2, limit) == [6, 10, 253, limit]
  {
    LongLabels(line);
    FirstEnd(line, 2, 6, limit);
    FirstEnd(line, 7, 10, limit);
    FirstEnd(line, 11, 253, limit);
    OnlyEnd(line, 254, limit);
  }

  lemma LowerIsSame(s: string)
    requires forall i :: 0 <= i < |s| ==> 'a' <= s[i] <= 'z'
    ensures Lower(s) == s
  {
  }

  lemma TestIsReservedTld()
    ensures Lower("test") == "test" && "test" in RESERVED_EMAIL_TLDS
  {
    LowerIsSame("test");
    assert RESERVED_EMAIL_TLDS[2] == "test";
  }

  lemma TestIsReserved(line: string, labels: seq<string>)
    requires |labels| >= 2 && LabelsOk(labels) && labels[|labels| - 1] == "test"
    ensures IsAllowedEmailDomain(Dotted(labels))
  {
    AllowedByLastLabels(labels);
    TestIsReservedTld();
  }

  lemma WindowMatch(line: string)
    requires IsLong(line)
    ensures LongestMatch(line, 2, 258, 258)
  {
    LongEnds(line, 258);
    assert TldAt(line, 2, Ends(line, 2, 258), 3);
    LastTldIsLongest(line, 2, 258, 3);
  }

  lemma WindowDomainIsAllowed(line: string)
    requires IsLong(line)
    ensures IsAllowedEmailDomain(line[2..258])
  {
    LongEnds(line, 258);
    var labels := EndsCloseLabels(line, 2, 258, 3);
    TestIsReserved(line, labels);
  }

  lemma ComIsNotReserved()
    ensures !Reserved("com", Some("real"))
  {
    assert "com"[0] == 'c';
    assert forall i :: 0 <= i < |RESERVED_EMAIL_TLDS| ==> RESERVED_EMAIL_TLDS[i][0] != 'c';
    assert "real"[0] != "example"[0];
  }

  lemma RealIsNotReserved(labels: seq<string>)
    requires labels == ["real", "com"]
    ensures !IsAllowedEmailDomain(Dotted(labels))
  {
    AllowedByLastLabels(labels);
    LowerIsSame("real");
    LowerIsSame("com");
    ComIsNotReserved();
  }

  lemma WholeLineDomain(line: string)
    requires IsLong(line)
    ensures !IsAllowedEmailDomain(line[2..10])
  {
    var labels := ["real", "com"];
    RealIsNotReserved(labels);
    assert labels[1..] == ["com"];
    assert line[2..10] == line[2..6] + ("." + line[7..10]);
  }

  lemma WholeLineTlds(line: string)
    requires IsLong(line)
    ensures var ends := Ends(line, 2, 259);
      |ends| == 4 && TldAt(line, 2, ends, 1) && !TldAt(line, 2, ends, 2) && !TldAt(line, 2, ends, 3)
  {
    LongEnds(line, 259);
    assert line[11..253][0] == '0';
    assert line[254..259][4] == '9';
  }

  lemma WholeLineMatch(line: string)
    requires IsLong(line)
    ensures LongestMatch(line, 2, 259, 10)
  {
    LongEnds(line, 259);
    WholeLineTlds(line);
    LastTldIsLongest(line, 2, 259, 1);
  }

  lemma OnlyOneAt(line: string, at: nat)
    requires IsLong(line) && at < |line| && line[at] == '@'
    ensures at == 1
  {
    LongLabels(line);
    assert LabelRun(line, 2, 6) && LabelRun(line, 7, 10) && LabelRun(line, 254, 259);
  }

  /**
   The window can hide an address: the pattern on the whole line ends after `real.com`, which the
   rule would refuse, but on the cut line it goes on to `.test`, which is reserved.
   */
  lemma WindowHidesAddress()
    ensures SomeDocumented(LongAddress()) && !SomeDisallowed(LongAddress())
  {
    var line := LongAddress();
    LongAddressIsLong();
    WholeLineMatch(line);
    WholeLineDomain(line);
    assert DocumentedAt(line, 1);
    forall at: nat ensures !DisallowedAt(line, at) {
      NotDisallowed(line, at);
    }
  }

  lemma NotDisallowed(line: string, at: nat)
    requires IsLong(line)
    ensures !DisallowedAt(line, at)
  {
    if IsAddress(line, at) {
      OnlyOneAt(line, at);
      WindowMatch(line);
      WindowDomainIsAllowed(line);
      assert Limit(line, 2) == 258;
      forall end: nat | LongestMatch(line, 2, 258, end) ensures end == 258 {
      }
    }
  }
}
