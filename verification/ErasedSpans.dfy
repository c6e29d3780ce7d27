/**
 Recovering what type stripping erased (scripts/arch-imports-parse.ts): the erased spans of a
 module, and the line of an offset by binary search.
 */
module ErasedSpans {

  datatype Comment = Comment(start: nat, end: nat)

  datatype Span = Span(start: nat, end: nat)

  predicate IsBlank(c: char) { c == ' ' || c == '\t' || c == '\n' || c == '\r' }

  // ---- What the spans must be --------------------------------------------

  /** An offset is erased, or keeps a character that separates spans, or keeps one that joins them. */
  datatype Mark = Erased | Separator | Filler

  predicate InComment(comments: seq<Comment>, i: nat) {
    exists k :: 0 <= k < |comments| && comments[k].start <= i < comments[k].end
  }

  /** Blank characters and comments join; the stripped text may be shorter than the original. */
  function MarkAt(original: string, stripped: string, comments: seq<Comment>, i: nat): Mark
    requires i < |original|
  {
    if i >= |stripped| || original[i] != stripped[i] then Erased
    else if !IsBlank(original[i]) && !InComment(comments, i) then Separator
    else Filler
  }

  function Marks(original: string, stripped: string, comments: seq<Comment>): (m: seq<Mark>)
    ensures |m| == |original| && forall i :: 0 <= i < |m| ==> m[i] == MarkAt(original, stripped, comments, i)
  {
    seq(|original|, i requires 0 <= i < |original| => MarkAt(original, stripped, comments, i))
  }

  predicate Covered(spans: seq<Span>, i: nat) {
    exists k :: 0 <= k < |spans| && spans[k].start <= i < spans[k].end
  }

  /** The span begins and ends on erased offsets and no separator stands in it. */
  predicate SpanOk(m: seq<Mark>, s: Span) {
    && s.start < s.end <= |m| && m[s.start] == Erased && m[s.end - 1] == Erased
    && forall i :: s.start <= i < s.end ==> m[i] != Separator
  }

  predicate SeparatorBetween(m: seq<Mark>, from: nat, to: nat) {
    exists i :: from <= i < to && i < |m| && m[i] == Separator
  }

  ghost predicate SpansOk(m: seq<Mark>, lo: nat, spans: seq<Span>) {
    && (forall k {:trigger SpanOk(m, spans[k])} :: 0 <= k < |spans| ==> lo <= spans[k].start && SpanOk(m, spans[k]))
    && (forall j, k {:trigger SeparatorBetween(m, spans[j].end, spans[k].start)} ::
      0 <= j < k < |spans| ==> SeparatorBetween(m, spans[j].end, spans[k].start))
  }

  /**
   The spans from offset `lo` on: in order, a separator between any two, each exact, together
   covering what was erased.
   */
  ghost predicate SpansFrom(m: seq<Mark>, lo: nat, spans: seq<Span>) {
    && SpansOk(m, lo, spans)
    && forall i: nat {:trigger Covered(spans, i)} :: lo <= i < |m| && m[i] == Erased ==> Covered(spans, i)
  }

  // ---- The scan ----------------------------------------------------------

  /** The offsets that lie in a comment, marked one comment after another. */
  method MarkComments(length: nat, comments: seq<Comment>) returns (inComment: array<bool>)
    ensures fresh(inComment) && inComment.Length == length
    ensures forall i :: 0 <= i < length ==> inComment[i] == InComment(comments, i)
  {
    inComment := new bool[length](_ => false);
    for n := 0 to |comments|
      invariant forall i :: 0 <= i < length ==> inComment[i] == InComment(comments[..n], i)
    {
      var from := comments[n].start;
      var to := if comments[n].end < length then comments[n].end else length;
      ghost var before := inComment[..];
      var i := from;
      while i < to
        invariant from <= i && (i <= to || i == from)
        invariant forall j :: 0 <= j < length ==> inComment[j] == (before[j] || from <= j < i)
      {
        inComment[i] := true;
        i := i + 1;
      }
      forall j | 0 <= j < length ensures inComment[j] == InComment(comments[..n + 1], j) {
        MarkedNext(comments, n, j);
      }
    }
    assert comments[..|comments|] == comments;
  }

  lemma MarkedNext(comments: seq<Comment>, n: nat, i: nat)
    requires n < |comments|
    ensures InComment(comments[..n + 1], i) <==> InComment(comments[..n], i) || comments[n].start <= i < comments[n].end
  {
    var all := comments[..n + 1];
    assert all[n] == comments[n];
    assert forall k :: 0 <= k < n ==> all[k] == comments[..n][k];
  }

  /** A separator stands between every span and `at`. */
  ghost predicate Apart(m: seq<Mark>, spans: seq<Span>, at: nat) {
    forall k {:trigger SeparatorBetween(m, spans[k].end, at)} ::
      0 <= k < |spans| ==> SeparatorBetween(m, spans[k].end, at)
  }

  /** What the loop has found below `i`: spans that are closed, and perhaps one that may go on. */
  ghost predicate Found(m: seq<Mark>, spans: seq<Span>, open_: seq<Span>, i: nat) {
    && |open_| <= 1 && i <= |m|
    && SpansOk(m, 0, spans) && Apart(m, spans, if open_ == [] then i else open_[0].start)
    && (open_ != [] ==> OpenOk(m, open_[0], i))
    && forall j: nat {:trigger Covered(spans + open_, j)} :: j < i && m[j] == Erased ==> Covered(spans + open_, j)
  }

  ghost predicate OpenOk(m: seq<Mark>, s: Span, i: nat)
    requires i <= |m|
  {
    SpanOk(m, s) && s.end <= i && forall j :: s.end <= j < i ==> m[j] != Separator
  }

  lemma ApartLater(m: seq<Mark>, spans: seq<Span>, i: nat, j: nat)
    requires Apart(m, spans, i) && i <= j
    ensures Apart(m, spans, j)
  {
    forall k | 0 <= k < |spans| ensures SeparatorBetween(m, spans[k].end, j) {
      assert SeparatorBetween(m, spans[k].end, i);
    }
  }

  lemma CoveredByMore(spans: seq<Span>, a: seq<Span>, b: seq<Span>, i: nat)
    requires Covered(spans + a, i) && |a| <= 1 && |b| <= 1
    requires a != [] ==> b != [] && b[0].start == a[0].start && a[0].end <= b[0].end
    ensures Covered(spans + b, i)
  {
    var k :| 0 <= k < |spans + a| && (spans + a)[k].start <= i < (spans + a)[k].end;
    assert (spans + b)[k].start <= i < (spans + b)[k].end;
  }

  /** An erased offset opens a span or goes on with the open one. */
  lemma ErasedStep(m: seq<Mark>, spans: seq<Span>, open_: seq<Span>, i: nat)
    requires i < |m| && Found(m, spans, open_, i) && m[i] == Erased
    ensures Found(m, spans, [Span(if open_ == [] then i else open_[0].start, i + 1)], i + 1)
  {
    var next := [Span(if open_ == [] then i else open_[0].start, i + 1)];
    forall j | 0 <= j < i && m[j] == Erased ensures Covered(spans + next, j) {
      CoveredByMore(spans, open_, next, j);
    }
    assert (spans + next)[|spans|] == next[0];
    assert Covered(spans + next, i);
  }

  /** A separator closes the open span. */
  lemma ClosingStep(m: seq<Mark>, spans: seq<Span>, s: Span, i: nat)
    requires i < |m| && Found(m, spans, [s], i) && m[i] == Separator
    ensures Found(m, spans + [s], [], i + 1)
  {
    AppendOk(m, 0, spans, s);
    ApartLater(m, spans, s.start, i + 1);
    assert SeparatorBetween(m, s.end, i + 1);
    assert spans + [s] + [] == spans + [s];
  }

  lemma AppendOk(m: seq<Mark>, lo: nat, spans: seq<Span>, s: Span)
    requires SpansOk(m, lo, spans) && Apart(m, spans, s.start) && SpanOk(m, s) && lo <= s.start
    ensures SpansOk(m, lo, spans + [s])
  {
    var more := spans + [s];
    forall k | 0 <= k < |more| ensures lo <= more[k].start && SpanOk(m, more[k]) {
      assert k < |spans| ==> SpanOk(m, spans[k]);
    }
    forall j, k | 0 <= j < k < |more| ensures SeparatorBetween(m, more[j].end, more[k].start) {
      if k < |spans| {
        assert SeparatorBetween(m, spans[j].end, spans[k].start);
      } else {
        assert SeparatorBetween(m, spans[j].end, s.start);
      }
    }
  }

  /** Any other offset changes nothing. */
  lemma OtherStep(m: seq<Mark>, spans: seq<Span>, open_: seq<Span>, i: nat)
    requires i < |m| && Found(m, spans, open_, i) && m[i] != Erased && (m[i] == Separator ==> open_ == [])
    ensures Found(m, spans, open_, i + 1)
  {
    if open_ == [] {
      ApartLater(m, spans, i, i + 1);
    }
  }

  method ErasedSpans(original: string, stripped: string, comments: seq<Comment>) returns (spans: seq<Span>)
    ensures SpansFrom(Marks(original, stripped, comments), 0, spans)
  {
    ghost var m := Marks(original, stripped, comments);
    var inComment := MarkComments(|original|, comments);
    spans := [];
    var start, end := -1, -1;
    ghost var open_: seq<Span> := [];
    for i := 0 to |original|
      invariant start < 0 <==> open_ == []
      invariant start >= 0 ==> end >= 0 && open_ == [Span(start, end)]
      invariant Found(m, spans, open_, i)
      invariant forall j :: 0 <= j < |original| ==> inComment[j] == InComment(comments, j)
    {
      assert m[i] == MarkAt(original, stripped, comments, i) && inComment[i] == InComment(comments, i);
      if i >= |stripped| || original[i] != stripped[i] {
        ErasedStep(m, spans, open_, i);
        if start < 0 {
          start := i;
        }
        end := i + 1;
        open_ := [Span(start, end)];
      } else if start >= 0 && !IsBlank(original[i]) && !inComment[i] {
        ClosingStep(m, spans, Span(start, end), i);
        spans := spans + [Span(start, end)];
        start := -1;
        open_ := [];
      } else {
        OtherStep(m, spans, open_, i);
      }
    }
    if start >= 0 {
      AppendOk(m, 0, spans, Span(start, end));
      spans := spans + [Span(start, end)];
    } else {
      assert spans + open_ == spans;
    }
  }

  // ---- There is only one such list ---------------------------------------

  lemma LaterStartsLater(m: seq<Mark>, lo: nat, spans: seq<Span>, k: nat)
    requires SpansOk(m, lo, spans) && k < |spans|
    ensures k > 0 ==> spans[0].end < spans[k].start
    ensures spans[0].start <= spans[k].start
  {
    if k > 0 {
      assert SeparatorBetween(m, spans[0].end, spans[k].start);
      assert SpanOk(m, spans[0]) && SpanOk(m, spans[k]);
    }
  }

  lemma FirstStart(m: seq<Mark>, lo: nat, a: seq<Span>, b: seq<Span>)
    requires SpansFrom(m, lo, a) && SpansFrom(m, lo, b) && b != []
    ensures a != [] && a[0].start <= b[0].start
  {
    assert SpanOk(m, b[0]);
    assert Covered(a, b[0].start);
    var k :| 0 <= k < |a| && a[k].start <= b[0].start < a[k].end;
    LaterStartsLater(m, lo, a, k);
  }

  /** Two exact spans that begin alike: the longer one cannot be interrupted. */
  lemma FirstEnd(m: seq<Mark>, lo: nat, a: seq<Span>, b: seq<Span>)
    requires SpansFrom(m, lo, a) && SpansFrom(m, lo, b) && a != [] && b != [] && a[0].start == b[0].start
    ensures b[0].end <= a[0].end
  {
    assert SpanOk(m, a[0]) && SpanOk(m, b[0]);
    assert Covered(a, b[0].end - 1);
    var k :| 0 <= k < |a| && a[k].start <= b[0].end - 1 < a[k].end;
    if k > 0 {
      assert SeparatorBetween(m, a[0].end, a[k].start);
      NoSeparatorInside(m, b[0], a[0].end, a[k].start);
    }
  }

  lemma NoSeparatorInside(m: seq<Mark>, s: Span, from: nat, to: nat)
    requires SpanOk(m, s) && s.start <= from && to < s.end
    ensures !SeparatorBetween(m, from, to)
  {
  }

  lemma TailSpans(m: seq<Mark>, lo: nat, spans: seq<Span>)
    requires SpansFrom(m, lo, spans) && spans != []
    ensures SpansFrom(m, spans[0].end, spans[1..])
  {
    TailSpansOk(m, lo, spans);
    forall i: nat | spans[0].end <= i < |m| && m[i] == Erased ensures Covered(spans[1..], i) {
      assert SpanOk(m, spans[0]);
      assert Covered(spans, i);
      TailCovered(spans, i);
    }
  }

  lemma TailSpansOk(m: seq<Mark>, lo: nat, spans: seq<Span>)
    requires SpansFrom(m, lo, spans) && spans != []
    ensures SpansOk(m, spans[0].end, spans[1..])
  {
    var rest := spans[1..];
    forall k | 0 <= k < |rest| ensures spans[0].end <= rest[k].start && SpanOk(m, rest[k]) {
      LaterStartsLater(m, lo, spans, k + 1);
      assert SpanOk(m, spans[k + 1]);
    }
    forall j, k | 0 <= j < k < |rest| ensures SeparatorBetween(m, rest[j].end, rest[k].start) {
      assert SeparatorBetween(m, spans[j + 1].end, spans[k + 1].start);
    }
  }

  lemma TailCovered(spans: seq<Span>, i: nat)
    requires spans != [] && Covered(spans, i) && spans[0].end <= i
    ensures Covered(spans[1..], i)
  {
    var k :| 0 <= k < |spans| && spans[k].start <= i < spans[k].end;
    assert spans[1..][k - 1] == spans[k];
  }

  /** The requirements leave exactly one list of spans. */
  lemma {:induction false} SpansUnique(m: seq<Mark>, lo: nat, a: seq<Span>, b: seq<Span>)
    requires SpansFrom(m, lo, a) && SpansFrom(m, lo, b)
    ensures a == b
    decreases |a|
  {
    if a == [] && b == [] {
    } else {
      SameFirst(m, lo, a, b);
      TailSpans(m, lo, a);
      TailSpans(m, lo, b);
      SpansUnique(m, a[0].end, a[1..], b[1..]);
      assert a == [a[0]] + a[1..] && b == [b[0]] + b[1..];
    }
  }

  lemma SameFirst(m: seq<Mark>, lo: nat, a: seq<Span>, b: seq<Span>)
    requires SpansFrom(m, lo, a) && SpansFrom(m, lo, b) && (a != [] || b != [])
    ensures a != [] && b != [] && a[0] == b[0]
  {
    if b != [] {
      FirstStart(m, lo, a, b);
    }
    FirstStart(m, lo, b, a);
    FirstStart(m, lo, a, b);
    FirstEnd(m, lo, a, b);
    FirstEnd(m, lo, b, a);
  }

  // ---- The spans on the text ---------------------------------------------

  /** Stripping changed the character at `i`, or cut it off. */
  predicate Changed(original: string, stripped: string, i: nat)
    requires i < |original|
  {
    i >= |stripped| || original[i] != stripped[i]
  }

  /** A character that was kept, other than white space and comments. */
  predicate KeptCode(original: string, stripped: string, comments: seq<Comment>, i: nat)
    requires i < |original|
  {
    && !Changed(original, stripped, i) && original[i] !in [' ', '\t', '\n', '\r']
    && forall k :: 0 <= k < |comments| ==> !(comments[k].start <= i < comments[k].end)
  }

  /** What the spans are on the text: they hold every change, begin and end on one, and hold no code that was kept. */
  lemma SpansOnText(original: string, stripped: string, comments: seq<Comment>, spans: seq<Span>)
    requires SpansFrom(Marks(original, stripped, comments), 0, spans)
    ensures forall i :: 0 <= i < |original| && Changed(original, stripped, i) ==> Covered(spans, i)
    ensures forall i :: 0 <= i < |original| && KeptCode(original, stripped, comments, i) ==> !Covered(spans, i)
    ensures forall k :: 0 <= k < |spans| ==>
      && spans[k].start < spans[k].end <= |original|
      && Changed(original, stripped, spans[k].start) && Changed(original, stripped, spans[k].end - 1)
    ensures forall j, k :: 0 <= j < k < |spans| ==>
      CodeBetween(original, stripped, comments, spans[j].end, spans[k].start)
  {
    var m := Marks(original, stripped, comments);
    forall i | 0 <= i < |original|
      ensures m[i] == Erased <==> Changed(original, stripped, i)
      ensures m[i] == Separator <==> KeptCode(original, stripped, comments, i)
    {
    }
    forall k | 0 <= k < |spans| ensures SpanOk(m, spans[k]) {
    }
    forall j, k | 0 <= j < k < |spans| ensures CodeBetween(original, stripped, comments, spans[j].end, spans[k].start) {
      assert SeparatorBetween(m, spans[j].end, spans[k].start);
      var i :| spans[j].end <= i < spans[k].start && i < |m| && m[i] == Separator;
      assert KeptCode(original, stripped, comments, i);
    }
  }

  predicate CodeBetween(original: string, stripped: string, comments: seq<Comment>, from: nat, to: nat) {
    exists i :: from <= i < to && i < |original| && KeptCode(original, stripped, comments, i)
  }

  // ---- Lines -------------------------------------------------------------

  /** How many newlines stand before `n`. */
  function NewlinesBefore(source: string, n: nat): nat
    requires n <= |source|
  {
    if n == 0 then 0 else NewlinesBefore(source, n - 1) + if source[n - 1] == '\n' then 1 else 0
  }

  /** Where the lines that begin at or before `n` begin. */
  function LineStarts(source: string, n: nat): (r: seq<nat>)
    requires n <= |source|
    ensures |r| == 1 + NewlinesBefore(source, n)
  {
    if n == 0 then [0] else LineStarts(source, n - 1) + if source[n - 1] == '\n' then [n] else []
  }

  ghost predicate Increasing(s: seq<nat>, bound: nat) {
    && (forall k :: 0 <= k < |s| ==> s[k] <= bound)
    && (forall j, k :: 0 <= j < k < |s| ==> s[j] < s[k])
  }

  lemma {:induction false} StartsAreOrdered(source: string, n: nat)
    requires n <= |source|
    ensures Increasing(LineStarts(source, n), n)
  {
    if n > 0 {
      StartsAreOrdered(source, n - 1);
    }
  }

  /** The lines that begin by offset `m` are the first of all lines, and the others begin after it. */
  lemma {:induction false} StartsSplit(source: string, m: nat, n: nat)
    requires m <= n <= |source|
    ensures LineStarts(source, m) <= LineStarts(source, n)
    ensures forall k :: |LineStarts(source, m)| <= k < |LineStarts(source, n)| ==> LineStarts(source, n)[k] > m
  {
    if m < n {
      StartsSplit(source, m, n - 1);
    }
  }

  function Clamped(source: string, offset: int): (r: nat)
    ensures r <= |source|
  {
    if offset < 0 then 0 else if offset > |source| then |source| else offset
  }

  method CollectStarts(source: string) returns (starts: seq<nat>)
    ensures starts == LineStarts(source, |source|)
  {
    starts := [0];
    for i := 0 to |source|
      invariant starts == LineStarts(source, i)
    {
      if source[i] == '\n' {
        starts := starts + [i + 1];
      }
    }
  }

  /** The lines of one text, as offsets where they start. */
  class LineIndex {
    ghost const source: string
    const starts: seq<nat>

    constructor (source: string)
      ensures this.source == source && starts == LineStarts(source, |source|)
    {
      var found := CollectStarts(source);
      this.source := source;
      starts := found;
    }

    /** Every offset's line, by binary search over the starts: one more than the newlines before it. */
    method LineOf(offset: int) returns (line: nat)
      requires starts == LineStarts(source, |source|)
      ensures line == 1 + NewlinesBefore(source, Clamped(source, offset))
    {
      ghost var at := Clamped(source, offset);
      ghost var last := |LineStarts(source, at)| - 1;
      StartsAreOrdered(source, at);
      StartsAreOrdered(source, |source|);
      StartsSplit(source, at, |source|);
      var low, high := 0, |starts| - 1;
      while low < high
        invariant 0 <= low <= last <= high < |starts|
      {
        var mid := (low + high + 1) / 2;
        if starts[mid] <= offset {
          low := mid;
        } else {
          high := mid - 1;
        }
      }
      line := low + 1;
    }
  }
}
