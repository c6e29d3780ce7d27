/**
 The header line of a diff hunk (scripts/release-range.ts), two-way or combined, as a grammar
 and as the left-to-right match that recognises it.
 */
module HunkHeader {
  import opened Decimal
  import opened JsText

  // ---- The grammar -------------------------------------------------------

  /** A line range, `start` or `start,count`, as written. */
  datatype Range = Range(start: string, count: Option<string>)

  predicate RangeOk(r: Range) {
    IsNumber(r.start) && (r.count.Some? ==> IsNumber(r.count.value))
  }

  predicate RangesOk(ranges: seq<Range>) {
    forall i :: 0 <= i < |ranges| ==> RangeOk(ranges[i])
  }

  function RangeText(r: Range): string {
    match r.count
    case None => r.start
    case Some(c) => r.start + "," + c
  }

  /** A header: a run of `@`, one old range per parent, the new range, and a closing run of `@`. */
  datatype Header = Header(ats: nat, old_: Range, more: seq<Range>, new_: Range)

  predicate HeaderOk(h: Header) {
    h.ats >= 2 && RangeOk(h.old_) && RangeOk(h.new_) && RangesOk(h.more)
  }

  function Ats(n: nat): string {
    if n == 0 then "" else "@" + Ats(n - 1)
  }

  const OLD_MARK := " -"
  const NEW_MARK := " +"
  const CLOSING := " @@"

  function MoreText(more: seq<Range>): string {
    if more == [] then "" else OLD_MARK + (RangeText(more[0]) + MoreText(more[1..]))
  }

  /** The text of a header, up to and including two closing `@`. */
  function HeaderText(h: Header): string {
    Ats(h.ats) + (OLD_MARK + (RangeText(h.old_) + (MoreText(h.more) + NewText(h.new_))))
  }

  function NewText(r: Range): string {
    NEW_MARK + (RangeText(r) + CLOSING)
  }

  // ---- The match ---------------------------------------------------------

  function DigitRun(s: string): (n: nat)
    ensures n <= |s| && AllDigitChars(s[..n]) && (n < |s| ==> !IsDigitChar(s[n]))
  {
    if s == [] || !IsDigitChar(s[0]) then 0 else 1 + DigitRun(s[1..])
  }

  function AtRun(s: string): (n: nat)
    ensures n <= |s|
  {
    if s == [] || s[0] != '@' then 0 else 1 + AtRun(s[1..])
  }

  datatype Matched<T> = NoMatch | Match(value: T, rest: string)

  function MatchRange(s: string): (m: Matched<Range>)
    ensures m.Match? ==> |m.rest| < |s|
  {
    var n := DigitRun(s);
    if n == 0 then NoMatch
    else
      var rest := s[n..];
      if rest != [] && rest[0] == ',' && DigitRun(rest[1..]) > 0 then
        var c := DigitRun(rest[1..]);
        Match(Range(s[..n], Some(rest[1..][..c])), rest[1..][c..])
      else Match(Range(s[..n], None), rest)
  }

  /** What follows `p` at the start of `s`. */
  function After(p: string, s: string): (r: Option<string>)
    ensures r.Some? ==> |r.value| == |s| - |p|
  {
    if p <= s then Some(s[|p|..]) else None
  }

  function MatchMore(s: string): (m: (seq<Range>, string))
    decreases |s|
  {
    var a := After(OLD_MARK, s);
    if a.None? then ([], s)
    else
      var first := MatchRange(a.value);
      if first.NoMatch? then ([], s)
      else
        var (more, rest) := MatchMore(first.rest);
        ([first.value] + more, rest)
  }

  /** The new range and the closing run. */
  function MatchNew(s: string): Option<Range> {
    var a := After(NEW_MARK, s);
    if a.None? then None
    else
      var new_ := MatchRange(a.value);
      if new_.NoMatch? || After(CLOSING, new_.rest).None? then None else Some(new_.value)
  }

  /** The anchored match of the header pattern. */
  function MatchHeader(s: string): Option<Header> {
    var ats := AtRun(s);
    var a := After(OLD_MARK, s[ats..]);
    if ats < 2 || a.None? then None
    else
      var old_ := MatchRange(a.value);
      if old_.NoMatch? then None
      else
        var (more, b) := MatchMore(old_.rest);
        var new_ := MatchNew(b);
        if new_.None? then None else Some(Header(ats, old_.value, more, new_.value))
  }

  // ---- The match is the grammar ------------------------------------------

  lemma Prefixed(p: string, s: string)
    ensures p <= p + s && (p + s)[|p|..] == s
    ensures After(p, p + s) == Some(s)
  {
  }

  lemma AfterSound(p: string, s: string)
    requires After(p, s).Some?
    ensures s == p + After(p, s).value
  {
  }

  lemma Assoc(a: string, b: string, c: string)
    ensures a + b + c == a + (b + c)
  {
  }

  lemma {:induction false} DigitRunOf(d: string, s: string)
    requires AllDigitChars(d) && (s == [] || !IsDigitChar(s[0]))
    ensures DigitRun(d + s) == |d|
  {
    if d == [] {
      assert d + s == s;
    } else {
      assert (d + s)[1..] == d[1..] + s;
      DigitRunOf(d[1..], s);
    }
  }

  /** What may follow a range without changing how it is read. */
  predicate EndsRange(s: string) {
    s == [] || (!IsDigitChar(s[0]) && s[0] != ',')
  }

  lemma MatchRangeText(r: Range, s: string)
    requires RangeOk(r) && EndsRange(s)
    ensures MatchRange(RangeText(r) + s) == Match(r, s)
  {
    match r.count {
      case None =>
        DigitRunOf(r.start, s);
        Prefixed(r.start, s);
        assert (r.start + s)[..|r.start|] == r.start;
      case Some(c) =>
        var tail := "," + (c + s);
        assert RangeText(r) + s == r.start + tail;
        DigitRunOf(r.start, tail);
        Prefixed(r.start, tail);
        assert (r.start + tail)[..|r.start|] == r.start;
        assert tail[1..] == c + s;
        DigitRunOf(c, s);
        Prefixed(c, s);
        assert (c + s)[..|c|] == c;
    }
  }

  lemma MatchMoreStep(r: Range, tail: string)
    requires RangeOk(r) && EndsRange(tail)
    ensures MatchMore(OLD_MARK + (RangeText(r) + tail)) == ([r] + MatchMore(tail).0, MatchMore(tail).1)
  {
    Prefixed(OLD_MARK, RangeText(r) + tail);
    MatchRangeText(r, tail);
  }

  lemma MatchMoreNone(s: string)
    requires NEW_MARK <= s
    ensures MatchMore(s) == ([], s)
  {
    assert s[1] == NEW_MARK[1];
  }

  lemma {:induction false} MatchMoreText(more: seq<Range>, s: string)
    requires RangesOk(more) && NEW_MARK <= s
    ensures MatchMore(MoreText(more) + s) == (more, s)
    decreases |more|
  {
    if more == [] {
      assert MoreText(more) + s == s;
      MatchMoreNone(s);
    } else {
      MatchMoreText(more[1..], s);
      MatchMoreCons(more[0], more[1..], s);
      assert more == [more[0]] + more[1..];
    }
  }

  lemma MatchMoreCons(r: Range, more: seq<Range>, s: string)
    requires RangeOk(r) && NEW_MARK <= s && MatchMore(MoreText(more) + s) == (more, s)
    ensures MatchMore(MoreText([r] + more) + s) == ([r] + more, s)
  {
    MoreStart(more, s);
    MatchMoreStep(r, MoreText(more) + s);
    MoreTextCons(r, more, s);
  }

  lemma MoreStart(more: seq<Range>, s: string)
    requires NEW_MARK <= s
    ensures EndsRange(MoreText(more) + s)
  {
    if more != [] {
      Assoc(OLD_MARK, RangeText(more[0]) + MoreText(more[1..]), s);
    }
  }

  lemma {:induction false} AtRunOf(n: nat, s: string)
    requires s == [] || s[0] != '@'
    ensures AtRun(Ats(n) + s) == n && |Ats(n)| == n
  {
    if n == 0 {
      assert Ats(n) + s == s;
    } else {
      AtRunOf(n - 1, s);
      assert (Ats(n) + s)[1..] == Ats(n - 1) + s;
    }
  }

  lemma MatchNewText(r: Range, tail: string)
    requires RangeOk(r)
    ensures MatchNew(NewText(r) + tail) == Some(r)
  {
    var e := CLOSING + tail;
    Assoc(NEW_MARK, RangeText(r) + CLOSING, tail);
    Assoc(RangeText(r), CLOSING, tail);
    Prefixed(NEW_MARK, RangeText(r) + e);
    MatchRangeText(r, e);
    Prefixed(CLOSING, tail);
  }

  /** Every header text is matched, whatever follows it, and its parts are read back. */
  lemma HeaderMatches(h: Header, tail: string)
    requires HeaderOk(h)
    ensures MatchHeader(HeaderText(h) + tail) == Some(h)
  {
    var d := NewText(h.new_) + tail;
    var c := MoreText(h.more) + d;
    var b := OLD_MARK + (RangeText(h.old_) + c);
    HeaderTail(h, tail);
    AtRunOf(h.ats, b);
    Prefixed(Ats(h.ats), b);
    Prefixed(OLD_MARK, RangeText(h.old_) + c);
    Assoc(NEW_MARK, RangeText(h.new_) + CLOSING, tail);
    MoreStart(h.more, d);
    MatchRangeText(h.old_, c);
    MatchMoreText(h.more, d);
    MatchNewText(h.new_, tail);
  }

  lemma HeaderTail(h: Header, tail: string)
    ensures HeaderText(h) + tail
      == Ats(h.ats) + (OLD_MARK + (RangeText(h.old_) + (MoreText(h.more) + (NewText(h.new_) + tail))))
  {
    Assoc(Ats(h.ats), OLD_MARK + (RangeText(h.old_) + (MoreText(h.more) + NewText(h.new_))), tail);
    Assoc(OLD_MARK, RangeText(h.old_) + (MoreText(h.more) + NewText(h.new_)), tail);
    Assoc(RangeText(h.old_), MoreText(h.more) + NewText(h.new_), tail);
    Assoc(MoreText(h.more), NewText(h.new_), tail);
  }

  lemma SplitAt(s: string, n: nat)
    requires n <= |s|
    ensures s == s[..n] + s[n..]
  {
  }

  lemma MatchRangeSound(s: string)
    requires MatchRange(s).Match?
    ensures RangeOk(MatchRange(s).value) && s == RangeText(MatchRange(s).value) + MatchRange(s).rest
  {
    var n := DigitRun(s);
    var start, rest := s[..n], s[n..];
    SplitAt(s, n);
    if rest != [] && rest[0] == ',' && DigitRun(rest[1..]) > 0 {
      var c := DigitRun(rest[1..]);
      var count, tail := rest[1..][..c], rest[1..][c..];
      assert MatchRange(s) == Match(Range(start, Some(count)), tail);
      SplitAt(rest[1..], c);
      assert rest == "," + rest[1..];
      Assoc(start + ",", count, tail);
      Assoc(start, ",", count + tail);
    }
  }

  lemma {:induction false} MatchMoreSound(s: string)
    ensures RangesOk(MatchMore(s).0) && s == MoreText(MatchMore(s).0) + MatchMore(s).1
    decreases |s|
  {
    var a := After(OLD_MARK, s);
    if a.Some? && MatchRange(a.value).Match? {
      var first := MatchRange(a.value);
      MatchMoreSound(first.rest);
      AfterSound(OLD_MARK, s);
      MatchRangeSound(a.value);
      MoreSound(s, a.value, first.value, first.rest, MatchMore(first.rest).0, MatchMore(first.rest).1);
    }
  }

  lemma MoreSound(s: string, a: string, r: Range, rest: string, more: seq<Range>, tail: string)
    requires s == OLD_MARK + a && a == RangeText(r) + rest && RangeOk(r)
    requires RangesOk(more) && rest == MoreText(more) + tail
    ensures RangesOk([r] + more) && s == MoreText([r] + more) + tail
  {
    MoreTextCons(r, more, tail);
  }

  lemma MoreTextCons(r: Range, more: seq<Range>, rest: string)
    ensures MoreText([r] + more) + rest == OLD_MARK + (RangeText(r) + (MoreText(more) + rest))
  {
    assert ([r] + more)[1..] == more;
    Assoc(OLD_MARK, RangeText(r) + MoreText(more), rest);
    Assoc(RangeText(r), MoreText(more), rest);
  }

  lemma {:induction false} AtRunSound(s: string)
    ensures s == Ats(AtRun(s)) + s[AtRun(s)..]
  {
    if s != [] && s[0] == '@' {
      AtRunSound(s[1..]);
      assert s == "@" + s[1..];
    }
  }

  /** A line is matched exactly when it starts with the text of a header; the match is that header. */
  lemma MatchIffGrammar(s: string, h: Header)
    ensures MatchHeader(s) == Some(h) <==> HeaderOk(h) && HeaderText(h) <= s
  {
    if HeaderOk(h) && HeaderText(h) <= s {
      assert s == HeaderText(h) + s[|HeaderText(h)|..];
      HeaderMatches(h, s[|HeaderText(h)|..]);
    }
    if MatchHeader(s) == Some(h) {
      MatchSound(s, h);
    }
  }

  lemma MatchNewSound(s: string) returns (tail: string)
    requires MatchNew(s).Some?
    ensures RangeOk(MatchNew(s).value) && s == NewText(MatchNew(s).value) + tail
  {
    var a := After(NEW_MARK, s).value;
    AfterSound(NEW_MARK, s);
    MatchRangeSound(a);
    var r := MatchRange(a);
    AfterSound(CLOSING, r.rest);
    tail := After(CLOSING, r.rest).value;
    Assoc(NEW_MARK, RangeText(r.value) + CLOSING, tail);
    Assoc(RangeText(r.value), CLOSING, tail);
  }

  lemma MatchSound(s: string, h: Header)
    requires MatchHeader(s) == Some(h)
    ensures HeaderOk(h) && HeaderText(h) <= s
  {
    AtRunSound(s);
    var a := s[AtRun(s)..];
    AfterSound(OLD_MARK, a);
    MatchRangeSound(After(OLD_MARK, a).value);
    var old_ := MatchRange(After(OLD_MARK, a).value);
    MatchMoreSound(old_.rest);
    var tail := MatchNewSound(MatchMore(old_.rest).1);
    HeaderTail(h, tail);
  }
}
