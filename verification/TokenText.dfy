/**
 What the text of a token is (scripts/arch-imports-size.ts): where in the source it stands, and
 that no longer text would do.
 */
module TokenText {
  import opened JsText
  import opened SizeTokenizer

  /** The token that the step from `s` pushes, if it pushes one. */
  predicate Pushes(source: string, s: Lex, token: Token) {
    s.at < |source| && Step(source, s).tokens == s.tokens + [token]
  }

  /** The text of `source` from `i` to `end`. */
  function Between(source: string, i: nat, end: nat): string {
    if i <= end <= |source| then source[i..end] else ""
  }

  /** The text at `i` to `end` is a run of these characters that cannot be longer. */
  predicate WholeRun(source: string, i: nat, end: nat, part: char -> bool) {
    && i <= end <= |source| && (forall j :: i <= j < end ==> part(source[j]))
    && (end < |source| ==> !part(source[end]))
  }

  lemma {:induction false} IdRun(source: string, i: nat)
    requires i <= |source|
    ensures WholeRun(source, i, IdEnd(source, i), IsIdPart)
    decreases |source| - i
  {
    if i < |source| && IsIdPart(source[i]) {
      IdRun(source, i + 1);
    }
  }

  lemma {:induction false} NumRun(source: string, i: nat)
    requires i <= |source|
    ensures WholeRun(source, i, NumEnd(source, i), IsNumPart)
    decreases |source| - i
  {
    if i < |source| && IsNumPart(source[i]) {
      NumRun(source, i + 1);
    }
  }

  /** A name or a number is the whole run of its characters, from where the step began to where it ended. */
  lemma WordIsWhole(source: string, s: Lex, token: Token)
    requires Pushes(source, s, token) && token.kind in {Id, Num}
    ensures var end := Step(source, s).at;
      && s.at < end && token.value == Between(source, s.at, end)
      && (token.kind == Id ==> StartsId(source, s.at) && WholeRun(source, s.at + 1, end, IsIdPart))
      && (token.kind == Num ==> IsDigit(source[s.at]) && WholeRun(source, s.at + 1, end, IsNumPart))
  {
    IdRun(source, s.at + 1);
    NumRun(source, s.at + 1);
    assert Last(s.tokens + [token]) == Some(token);
  }

  const LONG_PUNCTUATORS := ["...", "=>", "++", "--"]

  predicate StartsWith(source: string, i: nat, text: string) {
    i + |text| <= |source| && source[i..i + |text|] == text
  }

  lemma LongPunct(source: string, i: nat)
    requires i < |source|
    ensures forall text :: text in LONG_PUNCTUATORS && StartsWith(source, i, text) ==> MultiPunct(source, i) == |text|
    ensures StartsWith(source, i, "?.") && !(i + 2 < |source| && IsDigit(source[i + 2])) ==> MultiPunct(source, i) == 2
  {
    forall text | text in LONG_PUNCTUATORS && StartsWith(source, i, text) ensures MultiPunct(source, i) == |text| {
      assert source[i] == source[i..i + |text|][0] && source[i + 1] == source[i..i + |text|][1];
      assert |text| == 3 ==> source[i + 2] == source[i..i + |text|][2];
    }
    if StartsWith(source, i, "?.") {
      assert source[i] == source[i..i + 2][0] && source[i + 1] == source[i..i + 2][1];
    }
  }

  lemma StepIsPunct(source: string, s: Lex)
    requires s.at < |source| && source[s.at] in ['.', '=', '?', '+', '-']
    ensures Step(source, s) == PunctStep(source, s)
  {
    assert !IsTrivia(source, s.at) && !IsQuote(source[s.at]) && !StartsId(source, s.at);
  }

  lemma FirstOfText(source: string, i: nat, text: string)
    requires text in LONG_PUNCTUATORS && StartsWith(source, i, text)
    ensures i < |source| && source[i] in ['.', '=', '?', '+', '-']
  {
    assert source[i] == source[i..i + |text|][0];
  }

  /** Wherever one of the longer punctuators begins, it is one token. */
  lemma PunctIsText(source: string, s: Lex, text: string)
    requires text in LONG_PUNCTUATORS && StartsWith(source, s.at, text)
    ensures Pushes(source, s, Token(Punct, text, s.line, false)) && Step(source, s).at == s.at + |text|
  {
    FirstOfText(source, s.at, text);
    StepIsPunct(source, s);
    LongPunct(source, s.at);
    LongStep(source, s, |text|);
  }

  lemma LongStep(source: string, s: Lex, n: nat)
    requires s.at < |source| && n == MultiPunct(source, s.at) && n > 0
    ensures PunctStep(source, s).tokens == s.tokens + [Token(Punct, source[s.at..s.at + n], s.line, false)]
    ensures PunctStep(source, s).at == s.at + n
  {
  }

  lemma MultiText(source: string, i: nat)
    requires i < |source| && MultiPunct(source, i) > 0
    ensures Between(source, i, i + MultiPunct(source, i)) in ["...", "=>", "?.", "++", "--"]
  {
    if MultiPunct(source, i) == 3 {
      assert source[i..i + 3] == "...";
    } else {
      assert source[i..i + 2] == [source[i], source[i + 1]];
    }
  }

  lemma PunctValue(source: string, s: Lex, token: Token)
    requires s.at < |source| && PunctStep(source, s).tokens == s.tokens + [token]
    ensures var n := MultiPunct(source, s.at);
      token.value == if n > 0 then Between(source, s.at, s.at + n) else [source[s.at]]
  {
    assert Last(s.tokens + [token]) == Some(token);
  }

  /** Any other punctuator is one character. */
  lemma PunctIsShort(source: string, s: Lex, token: Token)
    requires s.at < |source| && PunctStep(source, s).tokens == s.tokens + [token]
    ensures token.value == Between(source, s.at, s.at + |token.value|)
    ensures |token.value| == 1 || token.value in ["...", "=>", "?.", "++", "--"]
  {
    PunctValue(source, s, token);
    if MultiPunct(source, s.at) > 0 {
      MultiText(source, s.at);
    }
  }

  /** A string without escapes is the text between its quotes. */
  lemma {:induction false} StringIsText(source: string, i: nat, end: nat, quote: char)
    requires i <= end < |source| && source[end] == quote && quote != '\n'
    requires forall j :: i <= j < end ==> source[j] != quote && source[j] != '\\' && source[j] != '\n'
    ensures StringValue(source, i, quote) == source[i..end] && StringEnd(source, i, quote).end == end + 1
    decreases end - i
  {
    if i < end {
      StringIsText(source, i + 1, end, quote);
      assert source[i..end] == [source[i]] + source[i + 1..end];
    }
  }

  // ---- What a slash is ---------------------------------------------------

  /** A slash that begins no comment. */
  predicate SlashAt(source: string, i: nat) {
    i + 1 < |source| && source[i] == '/' && source[i + 1] != '/' && source[i + 1] != '*'
  }

  /** After a name, a number, a string or a closing square bracket a slash is a punctuator. */
  lemma SlashDivides(source: string, s: Lex, last: Token)
    requires SlashAt(source, s.at) && Last(s.tokens) == Some(last)
    requires last.kind in {Num, Str, Tmpl, Regex} || (last.kind == Punct && last.value == "]")
      || (last.kind == Id && last.value !in REGEX_AFTER_KEYWORDS)
      || (last.kind == Punct && last.value in [")", "}"] && !last.regexNext)
    ensures Pushes(source, s, Token(Punct, "/", s.line, false)) && Step(source, s).at == s.at + 1
  {
    assert !IsTrivia(source, s.at) && !RegexAllowed(s.tokens) && !IsQuote('/');
    assert [source[s.at]] == "/";
  }

  /** An expression has to follow this token. */
  predicate ExpressionFollows(last: Token) {
    || (last.kind == Punct && last.value in ["(", "[", "{", ",", ";", "=", ":", "?", "!", "&", "|", "=>", "..."])
    || (last.kind == Id && last.value in ["return", "typeof", "in", "of", "case", "throw", "await", "yield"])
    || (last.kind == Punct && last.value in [")", "}"] && last.regexNext)
  }

  /** At the start of the source, and where an expression has to follow, a slash begins a regex. */
  lemma SlashBeginsRegex(source: string, s: Lex)
    requires SlashAt(source, s.at)
    requires s.tokens == [] || ExpressionFollows(s.tokens[|s.tokens| - 1])
    ensures Pushes(source, s, Token(Regex, "/", s.line, false))
    ensures Step(source, s).at == RegexEnd(source, s.at + 1).end
  {
    assert !IsTrivia(source, s.at);
    assert RegexAllowed(s.tokens);
  }

  // ---- What a brace is ---------------------------------------------------

  /** Statements follow a brace here: at the start, and after what ends or heads a statement. */
  predicate BlockFollows(tokens: seq<Token>) {
    tokens == []
    || var last := tokens[|tokens| - 1];
       || (last.kind == Punct && last.value in [")", ";", "{", "}", "=>"])
       || (last.kind == Id && last.value in ["else", "do", "try", "finally", "static"])
  }

  /** Properties follow it here: a value has to stand in this place. */
  predicate ObjectFollows(tokens: seq<Token>) {
    tokens != []
    && var last := tokens[|tokens| - 1];
       || (last.kind == Punct && last.value in ["(", "[", ",", "=", ":", "?", "!", "&", "|"])
       || (last.kind == Id && last.value in ["return", "throw", "case", "typeof", "yield", "await", "new", "in", "of"])
  }

  /** A brace is remembered as opening a block or an object by what stands before it. */
  lemma BraceOpens(source: string, s: Lex)
    requires s.at < |source| && source[s.at] == '{'
    ensures Pushes(source, s, Token(Punct, "{", s.line, false)) && |Step(source, s).blocks| == |s.blocks| + 1
    ensures BlockFollows(s.tokens) ==> Step(source, s).blocks == s.blocks + [true]
    ensures ObjectFollows(s.tokens) ==> Step(source, s).blocks == s.blocks + [false]
  {
    assert !IsTrivia(source, s.at) && !IsQuote('{') && !StartsId(source, s.at);
    assert Step(source, s) == OpenBrace(s);
    BlockOrObject(s.tokens);
  }

  lemma BlockOrObject(tokens: seq<Token>)
    ensures BlockFollows(tokens) ==> OpensBlock(Last(tokens))
    ensures ObjectFollows(tokens) ==> !OpensBlock(Last(tokens))
  {
  }

  /** A brace that ends no template expression says whether it closed a block, so that a regex may follow. */
  lemma BraceCloses(source: string, s: Lex)
    requires s.at < |source| && source[s.at] == '}' && Last(s.templates) != Some(s.depth - 1) && s.blocks != []
    ensures Pushes(source, s, Token(Punct, "}", s.line, s.blocks[|s.blocks| - 1]))
    ensures Step(source, s).blocks == s.blocks[..|s.blocks| - 1] && Step(source, s).depth == s.depth - 1
  {
    assert !IsTrivia(source, s.at) && !IsQuote('}') && !StartsId(source, s.at);
    assert Step(source, s) == CloseBrace(source, s);
  }

  /** A parenthesis is remembered as heading a statement after `if`, `while`, `for` and `with`, and only there. */
  lemma ParenOpens(source: string, s: Lex)
    requires s.at < |source| && source[s.at] == '('
    ensures Pushes(source, s, Token(Punct, "(", s.line, false))
    ensures Step(source, s).parens == s.parens + [HeadsStatement(s.tokens)]
  {
    assert !IsTrivia(source, s.at) && !IsQuote('(') && !StartsId(source, s.at);
    assert Step(source, s) == PunctStep(source, s) && MultiPunct(source, s.at) == 0;
    assert [source[s.at]] == "(";
  }

  predicate HeadsStatement(tokens: seq<Token>) {
    tokens != [] && tokens[|tokens| - 1].kind == Id && tokens[|tokens| - 1].value in {"if", "while", "for", "with"}
  }

  /** And its closing one says so. */
  lemma ParenCloses(source: string, s: Lex)
    requires s.at < |source| && source[s.at] == ')' && s.parens != []
    ensures Pushes(source, s, Token(Punct, ")", s.line, s.parens[|s.parens| - 1]))
    ensures Step(source, s).parens == s.parens[..|s.parens| - 1]
  {
    assert !IsTrivia(source, s.at) && !IsQuote(')') && !StartsId(source, s.at);
    assert Step(source, s) == PunctStep(source, s) && MultiPunct(source, s.at) == 0;
    assert [source[s.at]] == ")";
  }

  // ---- Where a regex ends ------------------------------------------------

  /** None of these characters ends the regex, begins an escape, or opens or closes a class. */
  predicate PlainRegex(source: string, i: nat, end: nat, inClass: bool) {
    && i <= end <= |source|
    && forall j :: i <= j < end ==> source[j] !in ['\\', '\n', '[', ']'] && (inClass || source[j] != '/')
  }

  lemma {:induction false} SkipPlain(source: string, i: nat, end: nat, inClass: bool)
    requires PlainRegex(source, i, end, inClass)
    ensures RegexBody(source, i, inClass) == RegexBody(source, end, inClass)
    decreases end - i
  {
    if i < end {
      SkipPlain(source, i + 1, end, inClass);
    }
  }

  /** The first slash ends a regex, but for those in a class. */
  lemma ClassHoldsSlash(source: string, i: nat, open_: nat, close: nat, end: nat)
    requires PlainRegex(source, i, open_, false) && open_ < |source| && source[open_] == '['
    requires PlainRegex(source, open_ + 1, close, true) && close < |source| && source[close] == ']'
    requires PlainRegex(source, close + 1, end, false) && end < |source| && source[end] == '/'
    ensures RegexBody(source, i, false).end == end + 1
  {
    SkipPlain(source, i, open_, false);
    SkipPlain(source, open_ + 1, close, true);
    SkipPlain(source, close + 1, end, false);
  }

  /** And an escaped character never does. */
  lemma EscapeHoldsSlash(source: string, i: nat, escape: nat, end: nat)
    requires PlainRegex(source, i, escape, false) && escape + 1 < |source| && source[escape] == '\\'
    requires PlainRegex(source, escape + 2, end, false) && end < |source| && source[end] == '/'
    ensures RegexBody(source, i, false).end == end + 1
  {
    SkipPlain(source, i, escape, false);
    SkipPlain(source, escape + 2, end, false);
  }
}
