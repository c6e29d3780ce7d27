/**
 Added lines of a diff (scripts/release-range.ts): a line is read by the hunk it stands in,
 whatever it starts with.
 */
module AddedLines {
  import opened Decimal
  import opened HunkHeader
  import opened JsText

  datatype AddedLine = AddedLine(line: int, text: string)

  /** Lines still expected: the count a two-way header states, or no bound for a combined one. */
  datatype Remaining = Finite(n: int) | Infinite

  datatype Hunk = Hunk(width: nat, next: int, oldRemaining: Remaining, newRemaining: Remaining)

  function Less(r: Remaining): Remaining {
    match r
    case Finite(n) => Finite(n - 1)
    case Infinite => Infinite
  }

  predicate UsedUp(r: Remaining) {
    r.Finite? && r.n <= 0
  }

  function CountOf(r: Range): nat {
    match r.count
    case None => 1
    case Some(c) => NumberOf(c)
  }

  function StartHunk(h: Header): Hunk
    requires h.ats >= 2
  {
    var combined := h.ats > 2;
    Hunk(h.ats - 1, NumberOf(h.new_.start),
         if combined then Infinite else Finite(CountOf(h.old_)),
         if combined then Infinite else Finite(CountOf(h.new_)))
  }

  predicate IsMarkerRow(markers: string) {
    forall i :: 0 <= i < |markers| ==> markers[i] == ' ' || markers[i] == '+' || markers[i] == '-'
  }

  function Slice(s: string, n: nat): string {
    if n <= |s| then s[..n] else s
  }

  /** The line is a body line of a hunk of this width. */
  predicate IsBody(raw: string, width: nat) {
    |raw| >= width && IsMarkerRow(raw[..width])
  }

  predicate IsNote(raw: string) {
    raw != [] && raw[0] == '\\'
  }

  // ---- One line ----------------------------------------------------------

  /** The hunk after a body line. */
  function AfterBody(h: Hunk, markers: string): Hunk {
    if '-' in markers then h.(oldRemaining := Less(h.oldRemaining))
    else if ' ' in markers then
      h.(next := h.next + 1, newRemaining := Less(h.newRemaining), oldRemaining := Less(h.oldRemaining))
    else h.(next := h.next + 1, newRemaining := Less(h.newRemaining))
  }

  function Closed(h: Hunk): Option<Hunk> {
    if UsedUp(h.oldRemaining) && UsedUp(h.newRemaining) then None else Some(h)
  }

  function Opened(raw: string): Option<Hunk> {
    match MatchHeader(raw)
    case None => None
    case Some(h) => if h.ats >= 2 then Some(StartHunk(h)) else None
  }

  function NextHunk(raw: string, hunk: Option<Hunk>): Option<Hunk> {
    if hunk.Some? && IsNote(raw) then hunk
    else if hunk.Some? && IsBody(raw, hunk.value.width) then Closed(AfterBody(hunk.value, raw[..hunk.value.width]))
    else Opened(raw)
  }

  function Emitted(raw: string, hunk: Option<Hunk>): seq<AddedLine> {
    if hunk.Some? && !IsNote(raw) && IsBody(raw, hunk.value.width)
       && '-' !in raw[..hunk.value.width] && ' ' !in raw[..hunk.value.width]
    then [AddedLine(hunk.value.next, raw[hunk.value.width..])]
    else []
  }

  /** The added lines of a list of lines, from the hunk state before it. */
  function ParseLines(lines: seq<string>, hunk: Option<Hunk>): seq<AddedLine> {
    if lines == [] then []
    else Emitted(lines[0], hunk) + ParseLines(lines[1..], NextHunk(lines[0], hunk))
  }

  // ---- The whole text ----------------------------------------------------

  function SplitLines(s: string): (r: seq<string>)
    ensures r != []
  {
    if s == [] then [[]]
    else
      var rest := SplitLines(s[1..]);
      if s[0] == '\n' then [[]] + rest else [[s[0]] + rest[0]] + rest[1..]
  }

  function JoinLines(lines: seq<string>): string
    requires lines != []
  {
    if |lines| == 1 then lines[0] else lines[0] + "\n" + JoinLines(lines[1..])
  }

  ghost predicate OneLine(s: string) {
    '\n' !in s
  }

  lemma {:induction false} SplitFirst(a: string, s: string)
    requires OneLine(a)
    ensures SplitLines(a + "\n" + s) == [a] + SplitLines(s)
  {
    if a == [] {
      assert (a + "\n" + s)[1..] == s;
    } else {
      SplitFirst(a[1..], s);
      assert (a + "\n" + s)[1..] == a[1..] + "\n" + s;
      assert [a[0]] + a[1..] == a;
    }
  }

  lemma {:induction false} SplitOne(a: string)
    requires OneLine(a)
    ensures SplitLines(a) == [a]
  {
    if a != [] {
      SplitOne(a[1..]);
      assert [a[0]] + a[1..] == a;
    }
  }

  /** Splitting undoes joining. */
  lemma {:induction false} SplitJoined(lines: seq<string>)
    requires lines != [] && forall i :: 0 <= i < |lines| ==> OneLine(lines[i])
    ensures SplitLines(JoinLines(lines)) == lines
  {
    if |lines| == 1 {
      SplitOne(lines[0]);
    } else {
      SplitJoined(lines[1..]);
      SplitFirst(lines[0], JoinLines(lines[1..]));
      assert lines == [lines[0]] + lines[1..];
    }
  }

  lemma MatchHasAts(raw: string)
    requires MatchHeader(raw).Some?
    ensures MatchHeader(raw).value.ats >= 2
  {
  }

  /** One body line: the added line it stands for, if any, and the hunk it leaves. */
  method ReadBody(raw: string, hunk: Hunk) returns (added: seq<AddedLine>, left: Option<Hunk>)
    requires IsBody(raw, hunk.width)
    ensures added == Emitted(raw, Some(hunk)) || IsNote(raw)
    ensures left == Closed(AfterBody(hunk, raw[..hunk.width]))
  {
    var h := hunk;
    added := [];
    var markers := raw[..h.width];
    if '-' in markers {
      h := h.(oldRemaining := Less(h.oldRemaining));
    } else {
      if ' ' !in markers {
        added := [AddedLine(h.next, raw[h.width..])];
      }
      h := h.(next := h.next + 1, newRemaining := Less(h.newRemaining));
      if ' ' in markers {
        h := h.(oldRemaining := Less(h.oldRemaining));
      }
    }
    left := if UsedUp(h.oldRemaining) && UsedUp(h.newRemaining) then None else Some(h);
  }

  /** One line of the diff in whatever state the lines before it left. */
  method ReadLine(raw: string, hunk: Option<Hunk>) returns (added: seq<AddedLine>, left: Option<Hunk>)
    ensures added == Emitted(raw, hunk) && left == NextHunk(raw, hunk)
  {
    added, left := [], None;
    if hunk.Some? {
      if IsNote(raw) {
        left := hunk;
        return;
      }
      if |Slice(raw, hunk.value.width)| == hunk.value.width && IsMarkerRow(Slice(raw, hunk.value.width)) {
        added, left := ReadBody(raw, hunk.value);
        return;
      }
    }
    var header := MatchHeader(raw);
    if header.Some? {
      MatchHasAts(raw);
      left := Some(StartHunk(header.value));
    }
  }

  lemma ParseStep(lines: seq<string>, i: nat, hunk: Option<Hunk>, added: seq<AddedLine>)
    requires i < |lines|
    ensures added + ParseLines(lines[i..], hunk)
      == added + Emitted(lines[i], hunk) + ParseLines(lines[i + 1..], NextHunk(lines[i], hunk))
  {
    assert lines[i..][1..] == lines[i + 1..];
  }

  method ParseAddedLines(diffText: string) returns (added: seq<AddedLine>)
    ensures added == ParseLines(SplitLines(diffText), None)
  {
    added := [];
    var hunk: Option<Hunk> := None;
    var lines := SplitLines(diffText);
    for i := 0 to |lines|
      invariant added + ParseLines(lines[i..], hunk) == ParseLines(lines, None)
    {
      ParseStep(lines, i, hunk, added);
      var more, left := ReadLine(lines[i], hunk);
      added, hunk := added + more, left;
    }
  }
}
