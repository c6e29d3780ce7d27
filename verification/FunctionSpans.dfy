/**
 The function spans of a token list (scripts/arch-imports-size.ts): brace matching, and the
 bodies of declarations, methods and arrow functions.
 */
module FunctionSpans {
  import opened JsText
  import opened SizeLexer
  import opened SizeTokenizer
  import opened Sorting

  predicate IsPunct(t: Token, value: string) { t.kind == Punct && t.value == value }

  predicate PunctAt(tokens: seq<Token>, i: int, value: string) {
    0 <= i < |tokens| && IsPunct(tokens[i], value)
  }

  // ---- Matching brackets -------------------------------------------------

  /** Openings less closings in `tokens[first..end]`. */
  function Balance(tokens: seq<Token>, first: nat, end: nat, opener: string, closer: string): int
    requires first <= end <= |tokens|
    decreases end
  {
    if first == end then 0
    else Balance(tokens, first, end - 1, opener, closer)
         + (if IsPunct(tokens[end - 1], opener) then 1 else if IsPunct(tokens[end - 1], closer) then -1 else 0)
  }

  lemma {:induction false} BalanceSplits(tokens: seq<Token>, a: nat, b: nat, c: nat, opener: string, closer: string)
    requires a <= b <= c <= |tokens|
    ensures Balance(tokens, a, c, opener, closer)
      == Balance(tokens, a, b, opener, closer) + Balance(tokens, b, c, opener, closer)
    decreases c
  {
    if b < c {
      BalanceSplits(tokens, a, b, c - 1, opener, closer);
    }
  }

  /** Every opening before `end`, from `open_` on, is still open: `end` is the first place that can close it. */
  ghost predicate OpenUntil(tokens: seq<Token>, open_: nat, end: nat, opener: string, closer: string)
    requires open_ <= end <= |tokens|
  {
    forall j :: open_ < j <= end ==> Balance(tokens, open_, j, opener, closer) > 0
  }

  /** `end` closes the bracket at `open_`, or is the last token when nothing does. */
  ghost predicate IsMatch(tokens: seq<Token>, open_: nat, end: nat, opener: string, closer: string) {
    && open_ <= end < |tokens| && OpenUntil(tokens, open_, end, opener, closer)
    && (end == |tokens| - 1 || Balance(tokens, open_, end + 1, opener, closer) == 0)
  }

  /** Where the brackets open before `j`, `depth` of them, are all closed, or the last token. */
  function ClosesFrom(tokens: seq<Token>, j: nat, depth: int, opener: string, closer: string): (r: nat)
    requires j <= |tokens| && tokens != []
    ensures r < |tokens| && (r < j ==> r == |tokens| - 1)
    decreases |tokens| - j
  {
    if j == |tokens| then |tokens| - 1
    else if IsPunct(tokens[j], opener) then ClosesFrom(tokens, j + 1, depth + 1, opener, closer)
    else if !IsPunct(tokens[j], closer) then ClosesFrom(tokens, j + 1, depth, opener, closer)
    else if depth == 1 then j
    else ClosesFrom(tokens, j + 1, depth - 1, opener, closer)
  }

  /** What closes the bracket at `open_`. */
  function MatchOf(tokens: seq<Token>, open_: nat, opener: string, closer: string): (r: nat)
    requires open_ < |tokens|
    ensures open_ <= r < |tokens|
  {
    ClosesFrom(tokens, open_, 0, opener, closer)
  }

  method MatchingForward(tokens: seq<Token>, open_: nat, opener: string, closer: string) returns (end: nat)
    requires PunctAt(tokens, open_, opener) && opener != closer
    ensures IsMatch(tokens, open_, end, opener, closer) && end == MatchOf(tokens, open_, opener, closer)
  {
    var depth := 0;
    for j := open_ to |tokens|
      invariant depth == Balance(tokens, open_, j, opener, closer)
      invariant OpenUntil(tokens, open_, j, opener, closer)
      invariant MatchOf(tokens, open_, opener, closer) == ClosesFrom(tokens, j, depth, opener, closer)
    {
      if IsPunct(tokens[j], opener) {
        depth := depth + 1;
      } else if IsPunct(tokens[j], closer) {
        depth := depth - 1;
        if depth == 0 {
          return j;
        }
      }
    }
    return |tokens| - 1;
  }

  lemma OpenAt(tokens: seq<Token>, open_: nat, end: nat, j: nat, opener: string, closer: string)
    requires IsMatch(tokens, open_, end, opener, closer) && open_ < j <= |tokens|
    ensures j <= end ==> Balance(tokens, open_, j, opener, closer) > 0
  {
  }

  /** Two bodies are apart, or the later one lies within the earlier. */
  lemma BodiesNest(tokens: seq<Token>, a: nat, aEnd: nat, b: nat, bEnd: nat, opener: string, closer: string)
    requires IsMatch(tokens, a, aEnd, opener, closer) && IsMatch(tokens, b, bEnd, opener, closer) && a < b
    requires PunctAt(tokens, b, opener) && opener != closer
    ensures aEnd < b || bEnd <= aEnd
  {
    if b <= aEnd {
      BalanceSplits(tokens, a, b, aEnd + 1, opener, closer);
      assert Balance(tokens, a, b, opener, closer) > 0;
      OpenAt(tokens, b, bEnd, aEnd + 1, opener, closer);
    }
  }

  /** More closings than openings in `tokens[first..]` up to `close`. */
  predicate StillClosed(tokens: seq<Token>, first: nat, close: nat, opener: string, closer: string)
    requires first <= close < |tokens|
  {
    Balance(tokens, first, close + 1, opener, closer) < 0
  }

  /** Where the brackets closed after `j`, `depth` of them, are all opened, or -1. */
  function OpensFrom(tokens: seq<Token>, j: int, depth: int, opener: string, closer: string): (r: int)
    requires j < |tokens|
    ensures r == -1 || (0 <= r <= j && PunctAt(tokens, r, opener))
    decreases j + 1
  {
    if j < 0 then -1
    else if IsPunct(tokens[j], closer) then OpensFrom(tokens, j - 1, depth + 1, opener, closer)
    else if !IsPunct(tokens[j], opener) then OpensFrom(tokens, j - 1, depth, opener, closer)
    else if depth == 1 then j
    else OpensFrom(tokens, j - 1, depth - 1, opener, closer)
  }

  /** The token that opens what `close` closes, or -1. */
  method MatchingBackward(tokens: seq<Token>, close: nat, opener: string, closer: string) returns (r: int)
    requires PunctAt(tokens, close, closer) && opener != closer
    ensures -1 <= r < close && (r >= 0 ==> PunctAt(tokens, r, opener))
    ensures r >= 0 ==> Balance(tokens, r, close + 1, opener, closer) == 0
    ensures forall j :: r < j <= close ==> StillClosed(tokens, j, close, opener, closer)
    ensures r == OpensFrom(tokens, close, 0, opener, closer)
  {
    var depth := 0;
    var j: int := close;
    while j >= 0
      invariant -1 <= j <= close
      invariant depth == -Balance(tokens, j + 1, close + 1, opener, closer)
      invariant forall k :: j < k <= close ==> StillClosed(tokens, k, close, opener, closer)
      invariant j < close ==> depth > 0
      invariant OpensFrom(tokens, close, 0, opener, closer) == OpensFrom(tokens, j, depth, opener, closer)
    {
      BalanceSplits(tokens, j, j + 1, close + 1, opener, closer);
      if IsPunct(tokens[j], closer) {
        depth := depth + 1;
      } else if IsPunct(tokens[j], opener) {
        depth := depth - 1;
        if depth == 0 {
          return j;
        }
      }
      j := j - 1;
    }
    return -1;
  }

  // ---- Where a body begins -----------------------------------------------

  const TYPE_JOINERS := {"|", "&", ".", "=>", ",", "?", ":"}

  /** Past the `>` that closes the `depth` angle brackets open before `j`, or past the end. */
  function AnglesEnd(tokens: seq<Token>, j: nat, depth: int): (r: nat)
    requires j <= |tokens|
    ensures j < r
    decreases |tokens| - j
  {
    if j == |tokens| then j + 1
    else if IsPunct(tokens[j], "<") then AnglesEnd(tokens, j + 1, depth + 1)
    else if !IsPunct(tokens[j], ">") then AnglesEnd(tokens, j + 1, depth)
    else if depth == 1 then j + 1
    else AnglesEnd(tokens, j + 1, depth - 1)
  }

  method SkipAngles(tokens: seq<Token>, j: nat) returns (r: nat)
    requires j < |tokens|
    ensures r == AnglesEnd(tokens, j, 0)
  {
    var depth := 0;
    r := j;
    while r < |tokens|
      invariant j <= r <= |tokens|
      invariant AnglesEnd(tokens, j, 0) == AnglesEnd(tokens, r, depth)
    {
      if IsPunct(tokens[r], "<") {
        depth := depth + 1;
      } else if IsPunct(tokens[r], ">") {
        depth := depth - 1;
        if depth == 0 {
          break;
        }
      }
      r := r + 1;
    }
    r := r + 1;
  }

  /** The body's `{` after a return type, the rest of which begins at `j`; at a type's start `{` is part of it. */
  function BodyAfterType(tokens: seq<Token>, j: nat, typeStart: bool): (body: int)
    ensures body == -1 || (j <= body && PunctAt(tokens, body, "{"))
    decreases |tokens| - j
  {
    if j >= |tokens| then -1
    else if tokens[j].kind != Punct then BodyAfterType(tokens, j + 1, false)
    else
      match tokens[j].value
      case "{" => if typeStart then BodyAfterType(tokens, MatchOf(tokens, j, "{", "}") + 1, false) else j
      case "(" => BodyAfterType(tokens, MatchOf(tokens, j, "(", ")") + 1, false)
      case "[" => BodyAfterType(tokens, MatchOf(tokens, j, "[", "]") + 1, false)
      case "<" => BodyAfterType(tokens, AnglesEnd(tokens, j, 0), false)
      case value => if value in TYPE_JOINERS then BodyAfterType(tokens, j + 1, true) else -1
  }

  /** The body's `{` after a parameter list and its return type, or -1. */
  function BodyAfter(tokens: seq<Token>, close: nat): (body: int)
    ensures body == -1 || (close < body && PunctAt(tokens, body, "{"))
  {
    if PunctAt(tokens, close + 1, "{") then close + 1
    else if PunctAt(tokens, close + 1, ":") then BodyAfterType(tokens, close + 2, true)
    else -1
  }

  method BodyAfterParams(tokens: seq<Token>, close: nat) returns (body: int)
    requires close < |tokens|
    ensures body == BodyAfter(tokens, close)
  {
    var j := close + 1;
    if PunctAt(tokens, j, "{") {
      return j;
    }
    if !PunctAt(tokens, j, ":") {
      return -1;
    }
    j := j + 1;
    var typeStart := true;
    while j < |tokens|
      invariant BodyAfter(tokens, close) == BodyAfterType(tokens, j, typeStart)
      decreases |tokens| - j
    {
      var t := tokens[j];
      if t.kind == Punct {
        if t.value == "{" {
          if !typeStart {
            return j;
          }
          j := MatchingForward(tokens, j, "{", "}");
          j, typeStart := j + 1, false;
        } else if t.value == "(" {
          j := MatchingForward(tokens, j, "(", ")");
          j, typeStart := j + 1, false;
        } else if t.value == "[" {
          j := MatchingForward(tokens, j, "[", "]");
          j, typeStart := j + 1, false;
        } else if t.value == "<" {
          j := SkipAngles(tokens, j);
          typeStart := false;
        } else if t.value in TYPE_JOINERS {
          j, typeStart := j + 1, true;
        } else {
          return -1;
        }
      } else {
        j, typeStart := j + 1, false;
      }
    }
    return -1;
  }

  const ARROW_REACH := 60

  predicate EndsArrowSearch(tokens: seq<Token>, j: int) {
    PunctAt(tokens, j, ";") || PunctAt(tokens, j, "{") || PunctAt(tokens, j, "}") || PunctAt(tokens, j, "=")
  }

  /** The `(` of the parameter list before the arrow, searched for from `j` backwards, or the token before the arrow. */
  function ParamsBefore(tokens: seq<Token>, arrow: nat, j: int): (start: nat)
    requires j < arrow < |tokens|
    ensures start <= arrow
    decreases j + 1
  {
    var bare := if arrow == 0 then 0 else arrow - 1;
    if j < 0 || j < arrow - ARROW_REACH || EndsArrowSearch(tokens, j) then bare
    else if !PunctAt(tokens, j, ")") then ParamsBefore(tokens, arrow, j - 1)
    else
      var open_ := OpensFrom(tokens, j, 0, "(", ")");
      if j == arrow - 1 || PunctAt(tokens, j + 1, ":") then if open_ < 0 then 0 else open_
      else ParamsBefore(tokens, arrow, open_ - 1)
  }

  /** Where the arrow function begins. */
  method ArrowStart(tokens: seq<Token>, arrow: nat) returns (start: nat)
    requires arrow < |tokens|
    ensures start == ParamsBefore(tokens, arrow, arrow - 1)
  {
    var low := if arrow < ARROW_REACH then 0 else arrow - ARROW_REACH;
    var j: int := arrow - 1;
    while j >= low
      invariant j < arrow
      invariant ParamsBefore(tokens, arrow, arrow - 1) == ParamsBefore(tokens, arrow, j)
      decreases j
    {
      if PunctAt(tokens, j, ")") {
        var open_ := MatchingBackward(tokens, j, "(", ")");
        if j == arrow - 1 || PunctAt(tokens, j + 1, ":") {
          return if open_ < 0 then 0 else open_;
        }
        j := open_ - 1;
      } else if EndsArrowSearch(tokens, j) {
        break;
      } else {
        j := j - 1;
      }
    }
    return if arrow == 0 then 0 else arrow - 1;
  }

  const ANONYMOUS := "<anonymous>"

  predicate NameSign(tokens: seq<Token>, j: int) {
    PunctAt(tokens, j, "=") || PunctAt(tokens, j, ":")
  }

  /** The name that the tokens at `j` and backwards give to the function at `index`. */
  function NameFrom(tokens: seq<Token>, index: nat, j: int): string
    requires j < index <= |tokens|
    decreases j + 1
  {
    if j < 0 || j < index - ARROW_REACH then ANONYMOUS
    else if PunctAt(tokens, j, ")") then NameFrom(tokens, index, OpensFrom(tokens, j, 0, "(", ")") - 1)
    else if PunctAt(tokens, j, ":") && PunctAt(tokens, j - 1, ")") then NameFrom(tokens, index, j - 1)
    else if NameSign(tokens, j) then
      if j > 0 && (tokens[j - 1].kind == Id || tokens[j - 1].kind == Str) then tokens[j - 1].value else ANONYMOUS
    else if PunctAt(tokens, j, ";") || PunctAt(tokens, j, "{") || PunctAt(tokens, j, "}") then ANONYMOUS
    else NameFrom(tokens, index, j - 1)
  }

  /** The name that a function is assigned to, past parameters and return types, within reach. */
  method NameBefore(tokens: seq<Token>, index: nat) returns (name: string)
    requires index <= |tokens|
    ensures name == NameFrom(tokens, index, index - 1)
  {
    var low := if index < ARROW_REACH then 0 else index - ARROW_REACH;
    var j: int := index - 1;
    while j >= low
      invariant j < index
      invariant NameFrom(tokens, index, index - 1) == NameFrom(tokens, index, j)
      decreases j
    {
      if PunctAt(tokens, j, ")") {
        j := MatchingBackward(tokens, j, "(", ")");
      } else if PunctAt(tokens, j, ":") && PunctAt(tokens, j - 1, ")") {
      } else if NameSign(tokens, j) {
        if j > 0 && (tokens[j - 1].kind == Id || tokens[j - 1].kind == Str) {
          return tokens[j - 1].value;
        }
        return ANONYMOUS;
      } else if PunctAt(tokens, j, ";") || PunctAt(tokens, j, "{") || PunctAt(tokens, j, "}") {
        break;
      }
      j := j - 1;
    }
    return ANONYMOUS;
  }

  const CONTROL_KEYWORDS := {"if", "for", "while", "switch", "catch", "with", "return", "typeof", "await", "new"}

  const MODIFIERS := {"async", "static", "get", "set", "public", "private", "protected", "readonly", "override"}

  /** The name token at `head` begins a declaration or a method. */
  predicate Declares(tokens: seq<Token>, head: nat)
    requires head < |tokens|
  {
    var t := tokens[head];
    && t.kind == Id && t.value !in CONTROL_KEYWORDS
    && (t.value == "function" || head == 0
        || (tokens[head - 1].kind == Punct && tokens[head - 1].value in {";", "{", "}", ",", "*"})
        || (tokens[head - 1].kind == Id
          && (tokens[head - 1].value == "function" || tokens[head - 1].value in MODIFIERS)))
  }

  /** The name token before the `(` at `i`, past any type parameters. */
  function HeadOf(tokens: seq<Token>, i: nat): (head: int)
    requires i < |tokens|
    ensures head < i
  {
    if PunctAt(tokens, i - 1, ">") then
      var open_ := OpensFrom(tokens, i - 1, 0, "<", ">");
      if open_ < 0 then -2 else open_ - 1
    else i - 1
  }

  method HeadBefore(tokens: seq<Token>, i: nat) returns (head: int)
    requires i < |tokens|
    ensures head == HeadOf(tokens, i)
  {
    head := i - 1;
    if PunctAt(tokens, head, ">") {
      var depth := 0;
      while head >= 0
        invariant -1 <= head < i
        invariant OpensFrom(tokens, i - 1, 0, "<", ">") == OpensFrom(tokens, head, depth, "<", ">")
      {
        if IsPunct(tokens[head], ">") {
          depth := depth + 1;
        } else if IsPunct(tokens[head], "<") {
          depth := depth - 1;
          if depth == 0 {
            break;
          }
        }
        head := head - 1;
      }
      head := head - 1;
    }
  }

  /** A function's name, where it starts, and the `{` of its body. */
  datatype Finding = Finding(name: string, start: nat, body: nat)

  /** A declaration goes by its name token, unless that is the keyword of a function expression. */
  function DeclaredName(tokens: seq<Token>, head: nat): string
    requires head < |tokens|
  {
    if tokens[head].value == "function" then NameFrom(tokens, head, head - 1) else tokens[head].value
  }

  /** The function that token `i` leads to: an arrow before a `{`, or the `(` of a declaration that has a body. */
  function FunctionOf(tokens: seq<Token>, i: nat): (f: Option<Finding>)
    requires i < |tokens|
    ensures f.Some? ==> f.value.start <= i < f.value.body && PunctAt(tokens, f.value.body, "{")
  {
    if PunctAt(tokens, i, "=>") && PunctAt(tokens, i + 1, "{") then
      var start := ParamsBefore(tokens, i, i - 1);
      Some(Finding(NameFrom(tokens, start, start - 1), start, i + 1))
    else if !PunctAt(tokens, i, "(") then None
    else
      var head := HeadOf(tokens, i);
      if head < 0 || !Declares(tokens, head) then None
      else
        var body := BodyAfter(tokens, MatchOf(tokens, i, "(", ")"));
        if body < 0 then None else Some(Finding(DeclaredName(tokens, head), head, body))
  }

  method FunctionAt(tokens: seq<Token>, i: nat) returns (f: Option<Finding>)
    requires i < |tokens|
    ensures f == FunctionOf(tokens, i)
  {
    if PunctAt(tokens, i, "=>") && PunctAt(tokens, i + 1, "{") {
      var start := ArrowStart(tokens, i);
      var name := NameBefore(tokens, start);
      return Some(Finding(name, start, i + 1));
    }
    if !PunctAt(tokens, i, "(") {
      return None;
    }
    var head := HeadBefore(tokens, i);
    if head < 0 || !Declares(tokens, head) {
      return None;
    }
    var close := MatchingForward(tokens, i, "(", ")");
    var body := BodyAfterParams(tokens, close);
    var name := tokens[head].value;
    if name == "function" {
      name := NameBefore(tokens, head);
    }
    return if body < 0 then None else Some(Finding(name, head, body));
  }

  // ---- The spans ---------------------------------------------------------

  /** A span, with the tokens of its body's braces. */
  datatype FunctionSpan = FunctionSpan(name: string, startLine: nat, endLine: nat, body: nat, bodyEnd: nat)

  predicate ByStart(a: FunctionSpan, b: FunctionSpan) { a.startLine <= b.startLine }

  /**
   The span's body runs from a `{` to what closes it, and the span ends on that token's line, not
   before it starts.
   */
  ghost predicate SpanOk(tokens: seq<Token>, s: FunctionSpan) {
    && PunctAt(tokens, s.body, "{") && IsMatch(tokens, s.body, s.bodyEnd, "{", "}")
    && s.startLine <= s.endLine == tokens[s.bodyEnd].line
  }

  ghost predicate Nested(a: FunctionSpan, b: FunctionSpan) {
    a.body < b.body <= b.bodyEnd <= a.bodyEnd
  }

  ghost predicate Apart(a: FunctionSpan, b: FunctionSpan) {
    a.bodyEnd < b.body || b.bodyEnd < a.body
  }

  /** Any two bodies are apart or one lies within the other. */
  ghost predicate Laminar(spans: seq<FunctionSpan>) {
    forall j, k :: 0 <= j < k < |spans| ==>
      Apart(spans[j], spans[k]) || Nested(spans[j], spans[k]) || Nested(spans[k], spans[j])
  }

  ghost predicate LinesOrdered(tokens: seq<Token>) {
    forall j, k :: 0 <= j < k < |tokens| ==> tokens[j].line <= tokens[k].line
  }

  ghost predicate SpansOk(tokens: seq<Token>, spans: seq<FunctionSpan>) {
    forall k :: 0 <= k < |spans| ==> SpanOk(tokens, spans[k])
  }

  ghost predicate DistinctBodies(spans: seq<FunctionSpan>) {
    forall j, k :: 0 <= j < k < |spans| ==> spans[j].body != spans[k].body
  }

  lemma SpansAreLaminar(tokens: seq<Token>, spans: seq<FunctionSpan>)
    requires SpansOk(tokens, spans) && DistinctBodies(spans)
    ensures Laminar(spans)
  {
    forall j, k | 0 <= j < k < |spans|
      ensures Apart(spans[j], spans[k]) || Nested(spans[j], spans[k]) || Nested(spans[k], spans[j])
    {
      var a, b := spans[j], spans[k];
      assert SpanOk(tokens, a) && SpanOk(tokens, b);
      if a.body < b.body {
        BodiesNest(tokens, a.body, a.bodyEnd, b.body, b.bodyEnd, "{", "}");
      } else {
        BodiesNest(tokens, b.body, b.bodyEnd, a.body, a.bodyEnd, "{", "}");
      }
    }
  }

  /** Token `i` leads to the function with this body. */
  predicate LeadsTo(tokens: seq<Token>, i: nat, body: nat) {
    i < |tokens| && FunctionOf(tokens, i).Some? && FunctionOf(tokens, i).value.body == body
  }

  /** The span has this function's name, and starts on the line of its start. */
  predicate Describes(tokens: seq<Token>, s: FunctionSpan, f: Finding) {
    f.start < |tokens| && s.name == f.name && s.startLine == tokens[f.start].line && s.body == f.body
  }

  /** Token `i` is the first that leads to the span's body, and the span describes the function it leads to. */
  ghost predicate FoundFirst(tokens: seq<Token>, i: nat, s: FunctionSpan) {
    && LeadsTo(tokens, i, s.body) && Describes(tokens, s, FunctionOf(tokens, i).value)
    && forall j {:trigger LeadsTo(tokens, j, s.body)} :: 0 <= j < i ==> !LeadsTo(tokens, j, s.body)
  }

  /** The span's function is found by a token before `n`. */
  ghost predicate FoundBefore(tokens: seq<Token>, n: nat, s: FunctionSpan) {
    exists i {:trigger FoundFirst(tokens, i, s)} :: 0 <= i < n && FoundFirst(tokens, i, s)
  }

  ghost predicate HasBody(spans: seq<FunctionSpan>, body: nat) {
    exists k :: 0 <= k < |spans| && spans[k].body == body
  }

  /** The spans are those of the functions that the first `n` tokens lead to: no other, and none missing. */
  ghost predicate SpansFound(tokens: seq<Token>, n: nat, spans: seq<FunctionSpan>) {
    && (forall k {:trigger spans[k]} :: 0 <= k < |spans| ==> FoundBefore(tokens, n, spans[k]))
    && (forall i, body {:trigger LeadsTo(tokens, i, body)} ::
          0 <= i < n && LeadsTo(tokens, i, body) ==> HasBody(spans, body))
  }

  lemma FoundNone(tokens: seq<Token>, n: nat, spans: seq<FunctionSpan>)
    requires n < |tokens| && SpansFound(tokens, n, spans)
    requires FunctionOf(tokens, n).Some? ==> HasBody(spans, FunctionOf(tokens, n).value.body)
    ensures SpansFound(tokens, n + 1, spans)
  {
    forall k | 0 <= k < |spans| ensures FoundBefore(tokens, n + 1, spans[k]) {
      assert FoundBefore(tokens, n, spans[k]);
      var i :| 0 <= i < n && FoundFirst(tokens, i, spans[k]);
    }
  }

  lemma FoundOne(tokens: seq<Token>, n: nat, spans: seq<FunctionSpan>, s: FunctionSpan)
    requires n < |tokens| && SpansFound(tokens, n, spans)
    requires LeadsTo(tokens, n, s.body) && !HasBody(spans, s.body)
    requires Describes(tokens, s, FunctionOf(tokens, n).value)
    ensures SpansFound(tokens, n + 1, spans + [s])
  {
    var more := spans + [s];
    assert FoundFirst(tokens, n, s);
    forall k | 0 <= k < |more| ensures FoundBefore(tokens, n + 1, more[k]) {
      if k < |spans| {
        assert more[k] == spans[k] && FoundBefore(tokens, n, spans[k]);
        var i :| 0 <= i < n && FoundFirst(tokens, i, spans[k]);
      }
    }
    forall i, body | 0 <= i < n + 1 && LeadsTo(tokens, i, body) ensures HasBody(more, body) {
      if i < n {
        var k :| 0 <= k < |spans| && spans[k].body == body;
        assert more[k].body == body;
      } else {
        assert more[|spans|].body == body;
      }
    }
  }

  /** The loop has dealt with the first `n` tokens, and `seen` holds the bodies of its spans. */
  ghost predicate Collected(tokens: seq<Token>, n: nat, spans: seq<FunctionSpan>, seen: set<nat>) {
    && SpansOk(tokens, spans) && DistinctBodies(spans) && SpansFound(tokens, n, spans)
    && forall body {:trigger HasBody(spans, body)} :: body in seen <==> HasBody(spans, body)
  }

  lemma HasBodyNext(spans: seq<FunctionSpan>, s: FunctionSpan, body: nat)
    ensures HasBody(spans + [s], body) <==> HasBody(spans, body) || body == s.body
  {
    var more := spans + [s];
    if body == s.body {
      assert more[|spans|].body == body;
    } else if HasBody(spans, body) {
      var k :| 0 <= k < |spans| && spans[k].body == body;
      assert more[k].body == body;
    }
  }

  lemma CollectedSeen(tokens: seq<Token>, n: nat, spans: seq<FunctionSpan>, seen: set<nat>)
    requires n < |tokens| && Collected(tokens, n, spans, seen)
    requires FunctionOf(tokens, n).Some? ==> FunctionOf(tokens, n).value.body in seen
    ensures Collected(tokens, n + 1, spans, seen)
  {
    FoundNone(tokens, n, spans);
  }

  lemma CollectedNew(tokens: seq<Token>, n: nat, spans: seq<FunctionSpan>, seen: set<nat>, s: FunctionSpan)
    requires n < |tokens| && Collected(tokens, n, spans, seen) && SpanOk(tokens, s)
    requires LeadsTo(tokens, n, s.body) && s.body !in seen
    requires Describes(tokens, s, FunctionOf(tokens, n).value)
    ensures Collected(tokens, n + 1, spans + [s], seen + {s.body})
  {
    var more := spans + [s];
    FoundOne(tokens, n, spans, s);
    forall body ensures body in seen + {s.body} <==> HasBody(more, body) {
      HasBodyNext(spans, s, body);
    }
    forall j, k | 0 <= j < k < |more| ensures more[j].body != more[k].body {
      if k == |spans| {
        assert HasBody(spans, more[j].body);
      }
    }
  }

  method CollectSpans(tokens: seq<Token>) returns (spans: seq<FunctionSpan>)
    requires LinesOrdered(tokens)
    ensures SpansOk(tokens, spans) && DistinctBodies(spans) && SpansFound(tokens, |tokens|, spans)
  {
    spans := [];
    var seenBodies: set<nat> := {};
    for i := 0 to |tokens|
      invariant Collected(tokens, i, spans, seenBodies)
    {
      var f := FunctionAt(tokens, i);
      if f.Some? && f.value.body !in seenBodies {
        var start, body := f.value.start, f.value.body;
        var end := MatchingForward(tokens, body, "{", "}");
        var s := FunctionSpan(f.value.name, tokens[start].line, tokens[end].line, body, end);
        CollectedNew(tokens, i, spans, seenBodies, s);
        seenBodies, spans := seenBodies + {body}, spans + [s];
      } else {
        CollectedSeen(tokens, i, spans, seenBodies);
      }
    }
  }

  lemma ByStartIsPreorder()
    ensures TotalPreorder(ByStart)
  {
  }

  /** The spans of a module's functions, by starting line. */
  method FunctionSpansOf(source: string) returns (spans: seq<FunctionSpan>)
    ensures var tokens := Run(source, START).tokens;
      SpansOk(tokens, spans) && DistinctBodies(spans) && SpansFound(tokens, |tokens|, spans)
    ensures SortedBy(spans, ByStart) && Laminar(spans)
  {
    var tokens := Tokenize(source);
    var found := CollectSpans(tokens);
    spans := Sort(found, ByStart);
    ByStartIsPreorder();
    SortIsSorted(found, ByStart);
    SortKeepsSpans(tokens, found, spans);
    SortKeepsFound(tokens, found, spans);
    SpansAreLaminar(tokens, spans);
  }

  lemma SortKeepsSpans(tokens: seq<Token>, found: seq<FunctionSpan>, spans: seq<FunctionSpan>)
    requires spans == Sort(found, ByStart) && SpansOk(tokens, found) && DistinctBodies(found)
    ensures SpansOk(tokens, spans) && DistinctBodies(spans)
  {
    SortMembers(found, ByStart);
    SortDistinct(found, ByStart);
    forall k | 0 <= k < |spans| ensures spans[k] in found {
      assert spans[k] in spans;
    }
    forall k | 0 <= k < |spans| ensures SpanOk(tokens, spans[k]) {
      var i :| 0 <= i < |found| && found[i] == spans[k];
    }
  }

  lemma SortKeepsFound(tokens: seq<Token>, found: seq<FunctionSpan>, spans: seq<FunctionSpan>)
    requires spans == Sort(found, ByStart) && SpansFound(tokens, |tokens|, found)
    ensures SpansFound(tokens, |tokens|, spans)
  {
    SortMembers(found, ByStart);
    forall k | 0 <= k < |spans| ensures FoundBefore(tokens, |tokens|, spans[k]) {
      assert spans[k] in found;
    }
    forall i, body | 0 <= i < |tokens| && LeadsTo(tokens, i, body) ensures HasBody(spans, body) {
      var k :| 0 <= k < |found| && found[k].body == body;
      assert found[k] in spans;
    }
  }

  // ---- What leads to a function ------------------------------------------

  lemma {:induction false} ClosesAtMatch(tokens: seq<Token>, open_: nat, j: nat, opener: string, closer: string)
    requires PunctAt(tokens, open_, opener) && opener != closer && open_ <= j <= |tokens|
    requires OpenUntil(tokens, open_, j, opener, closer)
    ensures IsMatch(tokens, open_, ClosesFrom(tokens, j, Balance(tokens, open_, j, opener, closer), opener, closer),
                    opener, closer)
    decreases |tokens| - j
  {
    if j < |tokens| && !(IsPunct(tokens[j], closer) && Balance(tokens, open_, j, opener, closer) == 1) {
      ClosesAtMatch(tokens, open_, j + 1, opener, closer);
    }
  }

  /** What closes a bracket is the first token that balances it, or the last token when none does. */
  lemma MatchOfIff(tokens: seq<Token>, open_: nat, end: nat, opener: string, closer: string)
    requires PunctAt(tokens, open_, opener) && opener != closer
    ensures end == MatchOf(tokens, open_, opener, closer) <==> IsMatch(tokens, open_, end, opener, closer)
  {
    ClosesAtMatch(tokens, open_, open_, opener, closer);
    if IsMatch(tokens, open_, end, opener, closer) {
      MatchUnique(tokens, open_, end, MatchOf(tokens, open_, opener, closer), opener, closer);
    }
  }

  lemma MatchUnique(tokens: seq<Token>, open_: nat, a: nat, b: nat, opener: string, closer: string)
    requires IsMatch(tokens, open_, a, opener, closer) && IsMatch(tokens, open_, b, opener, closer)
    ensures a == b
  {
  }

  predicate IdAt(tokens: seq<Token>, i: int, value: string) {
    0 <= i < |tokens| && tokens[i].kind == Id && tokens[i].value == value
  }

  /** The parenthesis after a control keyword leads to no function. */
  lemma ControlLeadsNowhere(tokens: seq<Token>, i: nat, keyword: string)
    requires PunctAt(tokens, i, "(") && IdAt(tokens, i - 1, keyword)
    requires keyword in ["if", "for", "while", "switch", "catch", "with", "return", "typeof", "await", "new"]
    ensures FunctionOf(tokens, i) == None
  {
    assert keyword in CONTROL_KEYWORDS;
  }

  /** A declaration `function f(...) {` leads to a function of that name, which starts at the name. */
  lemma DeclarationLeads(tokens: seq<Token>, i: nat, name: string, close: nat)
    requires IdAt(tokens, i - 2, "function") && IdAt(tokens, i - 1, name) && PunctAt(tokens, i, "(")
    requires name !in CONTROL_KEYWORDS && name != "function"
    requires IsMatch(tokens, i, close, "(", ")") && PunctAt(tokens, close + 1, "{")
    ensures FunctionOf(tokens, i) == Some(Finding(name, i - 1, close + 1))
  {
    MatchOfIff(tokens, i, close, "(", ")");
  }

  /** So does a method, after a brace or a semicolon or a modifier. */
  lemma MethodLeads(tokens: seq<Token>, i: nat, name: string, close: nat)
    requires i >= 2 && IdAt(tokens, i - 1, name) && PunctAt(tokens, i, "(")
    requires PunctAt(tokens, i - 2, "{") || PunctAt(tokens, i - 2, "}") || PunctAt(tokens, i - 2, ";")
      || IdAt(tokens, i - 2, "async") || IdAt(tokens, i - 2, "static")
    requires name !in CONTROL_KEYWORDS && name != "function"
    requires IsMatch(tokens, i, close, "(", ")") && PunctAt(tokens, close + 1, "{")
    ensures FunctionOf(tokens, i) == Some(Finding(name, i - 1, close + 1))
  {
    MatchOfIff(tokens, i, close, "(", ")");
  }

  /** An arrow with a block body leads to a function that starts at its parameter list, past any return type. */
  lemma ArrowLeads(tokens: seq<Token>, i: nat, open_: nat)
    requires PunctAt(tokens, i, "=>") && PunctAt(tokens, i + 1, "{") && PunctAt(tokens, i - 1, ")")
    requires open_ < i && OpensFrom(tokens, i - 1, 0, "(", ")") == open_
    ensures FunctionOf(tokens, i).Some? && FunctionOf(tokens, i).value.start == open_
    ensures FunctionOf(tokens, i).value.body == i + 1
  {
  }

  /** A span lists the body that a token leads to. */
  lemma LedToIsListed(tokens: seq<Token>, spans: seq<FunctionSpan>, i: nat)
    requires SpansFound(tokens, |tokens|, spans) && i < |tokens| && FunctionOf(tokens, i).Some?
    ensures HasBody(spans, FunctionOf(tokens, i).value.body)
  {
    assert LeadsTo(tokens, i, FunctionOf(tokens, i).value.body);
  }

  /** A function assigned to a name, or given as a property, goes by that name. */
  lemma AssignedName(tokens: seq<Token>, index: nat)
    requires 2 <= index <= |tokens| && tokens[index - 2].kind in {Id, Str}
    requires PunctAt(tokens, index - 1, "=") || PunctAt(tokens, index - 1, ":")
    ensures NameFrom(tokens, index, index - 1) == tokens[index - 2].value
  {
  }

  /** A return type of one name lies between the parameters and the body. */
  lemma BodyAfterNamedType(tokens: seq<Token>, close: nat)
    requires PunctAt(tokens, close + 1, ":") && close + 3 < |tokens| && tokens[close + 2].kind == Id
    requires PunctAt(tokens, close + 3, "{")
    ensures BodyAfter(tokens, close) == close + 3
  {
    assert BodyAfterType(tokens, close + 3, false) == close + 3;
    assert BodyAfterType(tokens, close + 2, true) == BodyAfterType(tokens, close + 3, false);
  }

  /** So does a return type of two names with a joiner between them. */
  lemma BodyAfterJoinedType(tokens: seq<Token>, close: nat, joiner: string)
    requires PunctAt(tokens, close + 1, ":") && close + 5 < |tokens| && tokens[close + 2].kind == Id
    requires joiner in ["|", "&", ".", "=>", ",", "?", ":"] && PunctAt(tokens, close + 3, joiner)
    requires tokens[close + 4].kind == Id && PunctAt(tokens, close + 5, "{")
    ensures BodyAfter(tokens, close) == close + 5
  {
    assert joiner in TYPE_JOINERS && joiner !in ["{", "(", "[", "<"];
    assert BodyAfterType(tokens, close + 5, false) == close + 5;
    assert BodyAfterType(tokens, close + 4, true) == BodyAfterType(tokens, close + 5, false);
    assert BodyAfterType(tokens, close + 3, false) == BodyAfterType(tokens, close + 4, true);
    assert BodyAfterType(tokens, close + 2, true) == BodyAfterType(tokens, close + 3, false);
  }

  /** An object type is passed over: the body is the brace after the one that closes it. */
  lemma BodyAfterObjectType(tokens: seq<Token>, close: nat, end: nat)
    requires PunctAt(tokens, close + 1, ":") && PunctAt(tokens, close + 2, "{")
    requires IsMatch(tokens, close + 2, end, "{", "}") && PunctAt(tokens, end + 1, "{")
    ensures BodyAfter(tokens, close) == end + 1
  {
    MatchOfIff(tokens, close + 2, end, "{", "}");
    assert BodyAfterType(tokens, end + 1, false) == end + 1;
    assert BodyAfterType(tokens, close + 2, true) == BodyAfterType(tokens, end + 1, false);
  }
}
