/**
 The tokenizer of the function-size scan (scripts/arch-imports-size.ts): one pass that keeps a
 stack of template expressions and the line it has reached.
 */
module SizeTokenizer {
  import opened JsText

  datatype Kind = Id | Str | Num | Punct | Tmpl | Regex

  /** `regexNext` is false where the source leaves it out. */
  datatype Token = Token(kind: Kind, value: string, line: nat, regexNext: bool)

  /** The tokenizer's variables. */
  datatype Lex = Lex(
    tokens: seq<Token>,
    line: nat,
    at: nat,
    templates: seq<int>,
    depth: int,
    parens: seq<bool>,
    blocks: seq<bool>)

  const START := Lex([], 1, 0, [], 0, [], [])

  // ---- Characters --------------------------------------------------------

  predicate IsIdStart(c: char) { 'A' <= c <= 'Z' || 'a' <= c <= 'z' || c == '_' || c == '$' }

  predicate IsDigit(c: char) { '0' <= c <= '9' }

  predicate IsIdPart(c: char) { IsIdStart(c) || IsDigit(c) }

  predicate IsNumPart(c: char) { (IsIdPart(c) && c != '$') || c == '.' }

  predicate Has(source: string, i: nat, c: char) { i < |source| && source[i] == c }

  /** The newlines before offset `n`, which may lie past the end. */
  function Newlines(source: string, n: nat): nat {
    if n == 0 then 0 else Newlines(source, n - 1) + if Has(source, n - 1, '\n') then 1 else 0
  }

  // ---- Pieces ------------------------------------------------------------

  /** Where a piece of text ends, and the newlines in it that the line counts, and those it does not. */
  datatype Piece = Piece(end: nat, counted: nat, lost: nat)

  ghost predicate Spans(source: string, i: nat, p: Piece) {
    i < p.end && Newlines(source, p.end) == Newlines(source, i) + p.counted + p.lost
  }

  /** The rest of a quoted string: a newline ends it, and is not counted. */
  function StringEnd(source: string, i: nat, quote: char): (p: Piece)
    requires i <= |source| + 1 && quote != '\n'
    ensures Spans(source, i, p)
    decreases |source| + 2 - i
  {
    if i >= |source| || source[i] == quote then Piece(i + 1, 0, 0)
    else if source[i] == '\\' then
      var rest := StringEnd(source, i + 2, quote);
      assert Newlines(source, i + 2) == Newlines(source, i + 1) + if Has(source, i + 1, '\n') then 1 else 0;
      rest.(counted := rest.counted + if Has(source, i + 1, '\n') then 1 else 0)
    else if source[i] == '\n' then Piece(i + 1, 0, 1)
    else StringEnd(source, i + 1, quote)
  }

  /** The value of a quoted string, without the backslashes of its escapes. */
  function StringValue(source: string, i: nat, quote: char): string
    decreases |source| + 2 - i
  {
    if i >= |source| || source[i] == quote || source[i] == '\n' then ""
    else if source[i] == '\\' then
      (if i + 1 < |source| then [source[i + 1]] else "") + StringValue(source, i + 2, quote)
    else [source[i]] + StringValue(source, i + 1, quote)
  }

  /** Past the identifier characters from `i` on. */
  function IdEnd(source: string, i: nat): (r: nat)
    ensures i <= r && (r == i || r <= |source|) && Newlines(source, r) == Newlines(source, i)
    decreases |source| - i
  {
    if i < |source| && IsIdPart(source[i]) then IdEnd(source, i + 1) else i
  }

  /** Past the number characters from `i` on. */
  function NumEnd(source: string, i: nat): (r: nat)
    ensures i <= r && (r == i || r <= |source|) && Newlines(source, r) == Newlines(source, i)
    decreases |source| - i
  {
    if i < |source| && IsNumPart(source[i]) then NumEnd(source, i + 1) else i
  }

  /** A regex up to where it closes; no newline in it is counted. */
  function RegexBody(source: string, i: nat, inClass: bool): (p: Piece)
    ensures Spans(source, i, p) && p.counted == 0
    decreases |source| + 2 - i
  {
    if i >= |source| then Piece(i + 1, 0, 0)
    else if source[i] == '\\' then
      var rest := RegexBody(source, i + 2, inClass);
      assert Newlines(source, i + 2) == Newlines(source, i + 1) + if Has(source, i + 1, '\n') then 1 else 0;
      rest.(lost := rest.lost + if Has(source, i + 1, '\n') then 1 else 0)
    else if source[i] == '\n' then Piece(i + 1, 0, 1)
    else if source[i] == '[' then RegexBody(source, i + 1, true)
    else if source[i] == ']' then RegexBody(source, i + 1, false)
    else if source[i] == '/' && !inClass then Piece(i + 1, 0, 0)
    else RegexBody(source, i + 1, inClass)
  }

  /** The regex and its flags. */
  function RegexEnd(source: string, i: nat): (p: Piece)
    ensures Spans(source, i, p) && p.counted == 0
  {
    var body := RegexBody(source, i, false);
    body.(end := IdEnd(source, body.end))
  }

  function LineCommentEnd(source: string, i: nat): (r: nat)
    ensures i <= r && Newlines(source, r) == Newlines(source, i)
    decreases |source| - i
  {
    if i < |source| && source[i] != '\n' then LineCommentEnd(source, i + 1) else i
  }

  function BlockCommentEnd(source: string, i: nat): (p: Piece)
    ensures Spans(source, i, p) && p.lost == 0
    decreases |source| - i
  {
    if i >= |source| || (source[i] == '*' && Has(source, i + 1, '/')) then
      assert Newlines(source, i + 2) == Newlines(source, i + 1);
      Piece(i + 2, 0, 0)
    else
      var rest := BlockCommentEnd(source, i + 1);
      rest.(counted := rest.counted + if source[i] == '\n' then 1 else 0)
  }

  datatype TemplateStop = Closed | Opened | RanOut

  datatype TemplateScan = TemplateScan(piece: Piece, stop: TemplateStop)

  /** A template's text up to its closing backtick or to a `${`. */
  function TemplateEnd(source: string, i: nat): (t: TemplateScan)
    ensures t.piece.end >= i && t.piece.lost == 0
    ensures Newlines(source, t.piece.end) == Newlines(source, i) + t.piece.counted
    decreases |source| + 2 - i
  {
    if i >= |source| then TemplateScan(Piece(i, 0, 0), RanOut)
    else if source[i] == '\\' then
      var rest := TemplateEnd(source, i + 2);
      assert Newlines(source, i + 2) == Newlines(source, i + 1) + if Has(source, i + 1, '\n') then 1 else 0;
      rest.(piece := rest.piece.(counted := rest.piece.counted + if Has(source, i + 1, '\n') then 1 else 0))
    else if source[i] == '`' then TemplateScan(Piece(i + 1, 0, 0), Closed)
    else if source[i] == '$' && Has(source, i + 1, '{') then
      assert Newlines(source, i + 2) == Newlines(source, i + 1);
      TemplateScan(Piece(i + 2, 0, 0), Opened)
    else
      var rest := TemplateEnd(source, i + 1);
      rest.(piece := rest.piece.(counted := rest.piece.counted + if source[i] == '\n' then 1 else 0))
  }

  // ---- What may come next ------------------------------------------------

  const CONTROL_HEADS := {"if", "while", "for", "with"}

  const REGEX_AFTER_KEYWORDS :=
    {"return", "typeof", "instanceof", "in", "of", "new", "delete", "void", "throw", "case", "do", "else", "yield",
      "await"}

  const OBJECT_AFTER := {"(", "[", ",", "=", ":", "?", "!", "&", "|", "+", "-", "*", "%", "<", ">", "~", "^"}

  function Last<T>(s: seq<T>): Option<T> {
    if s == [] then None else Some(s[|s| - 1])
  }

  function Init<T>(s: seq<T>): seq<T> {
    if s == [] then [] else s[..|s| - 1]
  }

  /** Statements, not properties, stand in the braces that open behind this token. */
  predicate OpensBlock(head: Option<Token>) {
    match head
    case None => true
    case Some(t) =>
      if t.kind == Punct then t.value !in OBJECT_AFTER
      else (t.kind == Id && t.value in {"else", "do"}) || !(t.kind == Id && t.value in REGEX_AFTER_KEYWORDS)
  }

  /** A `/` after these tokens starts a regex. */
  predicate RegexAllowed(tokens: seq<Token>) {
    if tokens == [] then true
    else
      var prev := tokens[|tokens| - 1];
      if prev.kind == Id then prev.value in REGEX_AFTER_KEYWORDS
      else if prev.kind != Punct || prev.value == "]" then false
      else if prev.value == ")" || prev.value == "}" then prev.regexNext
      else if prev.value == "++" || prev.value == "--" then |tokens| < 2 || !EndsOperand(tokens[|tokens| - 2])
      else true
  }

  predicate EndsOperand(t: Token) {
    t.kind == Id || t.kind == Num || t.value == ")" || t.value == "]"
  }

  /** The length of the punctuator of several characters at `i`, or zero. */
  function MultiPunct(source: string, i: nat): (n: nat)
    ensures n <= 3 && (n > 0 ==> i + n <= |source| && forall k :: i <= k < i + n ==> source[k] != '\n')
  {
    if Has(source, i, '.') && Has(source, i + 1, '.') && Has(source, i + 2, '.') then 3
    else if Has(source, i, '=') && Has(source, i + 1, '>') then 2
    else if Has(source, i, '?') && Has(source, i + 1, '.') && !(i + 2 < |source| && IsDigit(source[i + 2])) then 2
    else if Has(source, i, '+') && Has(source, i + 1, '+') then 2
    else if Has(source, i, '-') && Has(source, i + 1, '-') then 2
    else 0
  }

  // ---- One step ----------------------------------------------------------

  function Push(s: Lex, kind: Kind, value: string, end: nat): Lex {
    s.(tokens := s.tokens + [Token(kind, value, s.line, false)], at := end)
  }

  /** The template's text that begins at `s.at`. */
  function TemplateStep(source: string, s: Lex): Lex {
    var t := TemplateEnd(source, s.at);
    var line := s.line + t.piece.counted;
    match t.stop
    case Closed => Push(s, Tmpl, "`", t.piece.end).(line := line)
    case Opened =>
      Push(s, Tmpl, "`", t.piece.end).(line := line, templates := s.templates + [s.depth], depth := s.depth + 1)
    case RanOut => s.(line := line, at := t.piece.end)
  }

  function OpenBrace(s: Lex): Lex {
    Push(s, Punct, "{", s.at + 1).(depth := s.depth + 1, blocks := s.blocks + [OpensBlock(Last(s.tokens))])
  }

  function CloseBrace(source: string, s: Lex): Lex {
    if Last(s.templates) == Some(s.depth - 1) then
      TemplateStep(source, s.(depth := s.depth - 1, templates := Init(s.templates), at := s.at + 1))
    else
      s.(tokens := s.tokens + [Token(Punct, "}", s.line, Last(s.blocks) == Some(true))],
         at := s.at + 1, depth := s.depth - 1, blocks := Init(s.blocks))
  }

  function PunctStep(source: string, s: Lex): Lex
    requires s.at < |source|
  {
    var n, c := MultiPunct(source, s.at), source[s.at];
    if n > 0 then Push(s, Punct, source[s.at..s.at + n], s.at + n)
    else if c == '(' then
      var head := Last(s.tokens);
      var control := head.Some? && head.value.kind == Id && head.value.value in CONTROL_HEADS;
      Push(s, Punct, [c], s.at + 1).(parens := s.parens + [control])
    else if c == ')' then
      s.(tokens := s.tokens + [Token(Punct, [c], s.line, Last(s.parens) == Some(true))],
         at := s.at + 1, parens := Init(s.parens))
    else Push(s, Punct, [c], s.at + 1)
  }

  predicate StartsId(source: string, i: nat)
    requires i < |source|
  {
    IsIdStart(source[i]) || (source[i] == '#' && i + 1 < |source| && IsIdStart(source[i + 1]))
  }

  function WordStep(source: string, s: Lex): Lex
    requires s.at < |source| && source[s.at] != '\n'
  {
    if StartsId(source, s.at) then
      var end := IdEnd(source, s.at + 1);
      Push(s, Id, source[s.at..end], end)
    else if IsDigit(source[s.at]) then
      var end := NumEnd(source, s.at + 1);
      Push(s, Num, source[s.at..end], end)
    else if source[s.at] == '{' then OpenBrace(s)
    else if source[s.at] == '}' then CloseBrace(source, s)
    else PunctStep(source, s)
  }

  /** White space and comments. */
  predicate IsTrivia(source: string, i: nat)
    requires i < |source|
  {
    IsSpace(source[i]) || (source[i] == '/' && (Has(source, i + 1, '/') || Has(source, i + 1, '*')))
  }

  function TriviaStep(source: string, s: Lex): Lex
    requires s.at < |source| && IsTrivia(source, s.at)
  {
    if source[s.at] == '\n' then s.(line := s.line + 1, at := s.at + 1)
    else if IsSpace(source[s.at]) then s.(at := s.at + 1)
    else if Has(source, s.at + 1, '/') then s.(at := LineCommentEnd(source, s.at + 1))
    else
      var p := BlockCommentEnd(source, s.at + 2);
      s.(line := s.line + p.counted, at := p.end)
  }

  predicate IsQuote(c: char) { c == '\'' || c == '"' }

  function Step(source: string, s: Lex): Lex
    requires s.at < |source|
  {
    var c := source[s.at];
    if IsTrivia(source, s.at) then TriviaStep(source, s)
    else if IsQuote(c) then
      var p := StringEnd(source, s.at + 1, c);
      Push(s, Str, StringValue(source, s.at + 1, c), p.end).(line := s.line + p.counted)
    else if c == '`' then TemplateStep(source, s.(at := s.at + 1))
    else if c == '/' && RegexAllowed(s.tokens) then Push(s, Regex, "/", RegexEnd(source, s.at + 1).end)
    else WordStep(source, s)
  }

  /** The newlines that one step passes over without counting them: those of an unterminated string or in a regex. */
  function Lost(source: string, s: Lex): nat
    requires s.at < |source|
  {
    var c := source[s.at];
    if IsTrivia(source, s.at) then 0
    else if IsQuote(c) then StringEnd(source, s.at + 1, c).lost
    else if c == '/' && RegexAllowed(s.tokens) then RegexEnd(source, s.at + 1).lost
    else 0
  }

  // ---- What every step keeps ---------------------------------------------

  /** The open template expressions: each opened deeper than the one around it, and all below the brace depth. */
  ghost predicate TemplatesOk(s: Lex) {
    && (forall j, k :: 0 <= j < k < |s.templates| ==> s.templates[j] < s.templates[k])
    && (forall k :: 0 <= k < |s.templates| ==> s.templates[k] < s.depth)
  }

  ghost predicate LinesOk(s: Lex) {
    && (forall j, k :: 0 <= j < k < |s.tokens| ==> s.tokens[j].line <= s.tokens[k].line)
    && (forall k :: 0 <= k < |s.tokens| ==> 1 <= s.tokens[k].line <= s.line)
    && s.line >= 1
  }

  lemma StepTemplates(source: string, s: Lex)
    requires s.at < |source| && TemplatesOk(s)
    ensures TemplatesOk(Step(source, s))
  {
  }

  /** At most one token is pushed, on the line where the step began. */
  ghost predicate PushesOne(s: Lex, t: Lex) {
    || t.tokens == s.tokens
    || (|t.tokens| == |s.tokens| + 1 && t.tokens[..|s.tokens|] == s.tokens && t.tokens[|s.tokens|].line == s.line)
  }

  lemma StepPushes(source: string, s: Lex)
    requires s.at < |source|
    ensures s.line <= Step(source, s).line && PushesOne(s, Step(source, s))
  {
  }

  lemma StepLines(source: string, s: Lex)
    requires s.at < |source| && LinesOk(s)
    ensures LinesOk(Step(source, s))
  {
    StepPushes(source, s);
    var t := Step(source, s);
    assert forall k :: 0 <= k < |s.tokens| ==> t.tokens[k] == t.tokens[..|s.tokens|][k];
  }

  /** `t` lies further on than `s`, and the newlines between them are those counted and those lost. */
  ghost predicate Advances(source: string, s: Lex, t: Lex, lost: nat) {
    s.at < t.at && t.line + lost + Newlines(source, s.at) == s.line + Newlines(source, t.at)
  }

  lemma TemplateCounts(source: string, s: Lex, line: nat, at: nat)
    requires line == s.line && s.at == at + 1 && !Has(source, at, '\n')
    ensures var t := TemplateStep(source, s);
      at < t.at && t.line + Newlines(source, at) == line + Newlines(source, t.at)
  {
  }

  lemma NewlineFree(source: string, i: nat, n: nat)
    requires forall k :: i <= k < i + n ==> !Has(source, k, '\n')
    ensures Newlines(source, i + n) == Newlines(source, i)
  {
    if n > 0 {
      NewlineFree(source, i, n - 1);
    }
  }

  lemma PunctCounts(source: string, s: Lex)
    requires s.at < |source| && source[s.at] != '\n'
    ensures Advances(source, s, PunctStep(source, s), 0)
  {
    NewlineFree(source, s.at, 1);
    NewlineFree(source, s.at, MultiPunct(source, s.at));
  }

  lemma WordCounts(source: string, s: Lex)
    requires s.at < |source| && source[s.at] != '\n'
    ensures Advances(source, s, WordStep(source, s), 0)
  {
    NewlineFree(source, s.at, 1);
    if StartsId(source, s.at) || IsDigit(source[s.at]) {
    } else if source[s.at] == '}' {
      if Last(s.templates) == Some(s.depth - 1) {
        TemplateCounts(source, s.(depth := s.depth - 1, templates := Init(s.templates), at := s.at + 1), s.line, s.at);
      }
    } else {
      PunctCounts(source, s);
    }
  }

  lemma TriviaCounts(source: string, s: Lex)
    requires s.at < |source| && IsTrivia(source, s.at)
    ensures Advances(source, s, TriviaStep(source, s), 0)
  {
    if source[s.at] != '\n' {
      NewlineFree(source, s.at, 1);
      if !IsSpace(source[s.at]) && !Has(source, s.at + 1, '/') {
        NewlineFree(source, s.at, 2);
      }
    }
  }

  /** A step moves on, and its line advances by the newlines it passes, but for the lost ones. */
  lemma StepCounts(source: string, s: Lex)
    requires s.at < |source|
    ensures Advances(source, s, Step(source, s), Lost(source, s))
  {
    var c := source[s.at];
    if IsTrivia(source, s.at) {
      TriviaCounts(source, s);
    } else {
      NewlineFree(source, s.at, 1);
      if IsQuote(c) {
        QuoteCounts(source, s, c);
      } else if c == '`' {
        TemplateCounts(source, s.(at := s.at + 1), s.line, s.at);
      } else if c == '/' && RegexAllowed(s.tokens) {
        assert Spans(source, s.at + 1, RegexEnd(source, s.at + 1));
      } else {
        WordCounts(source, s);
      }
    }
  }

  lemma QuoteCounts(source: string, s: Lex, c: char)
    requires s.at < |source| && c == source[s.at] && IsQuote(c)
    ensures var p := StringEnd(source, s.at + 1, c);
      s.at < p.end && Newlines(source, p.end) == Newlines(source, s.at) + p.counted + p.lost
  {
    NewlineFree(source, s.at, 1);
    assert Spans(source, s.at + 1, StringEnd(source, s.at + 1, c));
  }

  // ---- Whole runs --------------------------------------------------------

  function Run(source: string, s: Lex): Lex
    decreases |source| - s.at, 1
  {
    if s.at >= |source| then s
    else
      StepCounts(source, s);
      Run(source, Step(source, s))
  }

  /** One step more, while text remains. */
  function Stepped(source: string, s: Lex): Lex {
    if s.at < |source| then Step(source, s) else s
  }

  /** The state after `k` steps from the start. */
  function After(source: string, k: nat): Lex {
    if k == 0 then START else Stepped(source, After(source, k - 1))
  }

  /** The newlines lost in the first `k` steps. */
  function LostIn(source: string, k: nat): nat {
    if k == 0 then 0
    else
      var s := After(source, k - 1);
      LostIn(source, k - 1) + if s.at < |source| then Lost(source, s) else 0
  }

  /**
   At every step the template stack strictly increases and lies below the brace depth, and token
   lines never decrease.
   */
  lemma {:induction false} EveryStepOk(source: string, k: nat)
    ensures TemplatesOk(After(source, k)) && LinesOk(After(source, k))
  {
    if k > 0 {
      EveryStepOk(source, k - 1);
      var s := After(source, k - 1);
      if s.at < |source| {
        StepTemplates(source, s);
        StepLines(source, s);
      }
    }
  }

  /** The line is one more than the newlines passed, less those lost. */
  ghost predicate Reached(source: string, s: Lex, lost: nat) {
    s.line + lost == 1 + Newlines(source, s.at)
  }

  lemma ReachedNext(source: string, s: Lex, lost: nat)
    requires s.at < |source| && Reached(source, s, lost)
    ensures Reached(source, Step(source, s), lost + Lost(source, s))
  {
    StepCounts(source, s);
  }

  lemma {:induction false} LineReached(source: string, k: nat, s: Lex, lost: nat)
    requires s == After(source, k) && lost == LostIn(source, k)
    ensures Reached(source, s, lost)
    decreases k
  {
    if k > 0 {
      var before, lostBefore := After(source, k - 1), LostIn(source, k - 1);
      LineReached(source, k - 1, before, lostBefore);
      if before.at < |source| {
        ReachedNext(source, before, lostBefore);
      }
    }
  }

  // ---- What a token's line is --------------------------------------------

  /** A step from `s` pushes token `i`, whose line is that of its first character less the newlines lost before it. */
  ghost predicate LineIs(source: string, s: Lex, lost: nat, token: Token, i: nat) {
    && s.at < |source| && |s.tokens| == i
    && Last(Step(source, s).tokens) == Some(token)
    && token.line + lost == 1 + Newlines(source, s.at)
  }

  ghost predicate HasLine(source: string, token: Token, i: nat) {
    exists k: nat {:trigger LineIs(source, After(source, k), LostIn(source, k), token, i)} ::
      LineIs(source, After(source, k), LostIn(source, k), token, i)
  }

  ghost predicate AllHaveLines(source: string, tokens: seq<Token>) {
    forall i {:trigger HasLine(source, tokens[i], i)} :: 0 <= i < |tokens| ==> HasLine(source, tokens[i], i)
  }

  lemma NextHasLine(source: string, k: nat, s: Lex, t: Lex, lost: nat)
    requires s == After(source, k) && lost == LostIn(source, k) && s.at < |source| && t == Step(source, s)
    requires PushesOne(s, t) && Reached(source, s, lost) && AllHaveLines(source, s.tokens)
    ensures AllHaveLines(source, t.tokens)
  {
    forall i | 0 <= i < |t.tokens| ensures HasLine(source, t.tokens[i], i) {
      if i < |s.tokens| {
        if t.tokens != s.tokens {
          assert t.tokens[i] == t.tokens[..|s.tokens|][i];
        }
        assert HasLine(source, s.tokens[i], i);
      } else {
        assert LineIs(source, s, lost, t.tokens[i], i);
      }
    }
  }

  lemma LinesNext(source: string, k: nat, s: Lex)
    requires s == After(source, k) && s.at < |source| && AllHaveLines(source, s.tokens)
    ensures AllHaveLines(source, Step(source, s).tokens)
  {
    var t, lost := Step(source, s), LostIn(source, k);
    LineReached(source, k, s, lost);
    StepPushes(source, s);
    NextHasLine(source, k, s, t, lost);
  }

  lemma LinesKeep(source: string, k: nat, s: Lex)
    requires s == After(source, k) && AllHaveLines(source, s.tokens)
    ensures AllHaveLines(source, After(source, k + 1).tokens)
  {
    if s.at < |source| {
      LinesNext(source, k, s);
    }
  }

  lemma {:induction false} LinesAfter(source: string, k: nat)
    ensures AllHaveLines(source, After(source, k).tokens)
  {
    if k > 0 {
      LinesAfter(source, k - 1);
      LinesKeep(source, k - 1, After(source, k - 1));
    }
  }

  /** A whole run is some number of steps. */
  lemma {:induction false} RunIsSteps(source: string, k: nat) returns (n: nat)
    ensures Run(source, After(source, k)) == After(source, n)
    decreases |source| - After(source, k).at
  {
    var s := After(source, k);
    if s.at < |source| {
      StepCounts(source, s);
      assert After(source, k + 1) == Step(source, s);
      n := RunIsSteps(source, k + 1);
    } else {
      n := k;
    }
  }

  /**
   Every token's line is one more than the newlines before its first character, less those that
   unterminated strings and regexes before it passed over; exact, when there were none.
   */
  lemma TokenLines(source: string)
    ensures AllHaveLines(source, Run(source, START).tokens)
  {
    var n := RunIsSteps(source, 0);
    LinesAfter(source, n);
  }
}
