/**
 The loop of the tokenizer (scripts/arch-imports-size.ts), on its variables, against the steps
 of `SizeTokenizer`.
 */
module SizeLexer {
  import opened JsText
  import opened SizeTokenizer

  /** The quoted string at `start`: its value, the offset past it, and the escaped newlines in it. */
  method ScanString(source: string, start: nat) returns (value: string, end: nat, newlines: nat)
    requires start < |source| && IsQuote(source[start])
    ensures value == StringValue(source, start + 1, source[start])
    ensures end == StringEnd(source, start + 1, source[start]).end
    ensures newlines == StringEnd(source, start + 1, source[start]).counted
  {
    var quote := source[start];
    value, newlines := "", 0;
    var i := start + 1;
    while i < |source| && source[i] != quote && source[i] != '\n'
      invariant i <= |source| + 1
      invariant StringValue(source, start + 1, quote) == value + StringValue(source, i, quote)
      invariant StringEnd(source, start + 1, quote).end == StringEnd(source, i, quote).end
      invariant StringEnd(source, start + 1, quote).counted == newlines + StringEnd(source, i, quote).counted
    {
      if source[i] == '\\' {
        if i + 1 < |source| {
          value := value + [source[i + 1]];
        }
        if Has(source, i + 1, '\n') {
          newlines := newlines + 1;
        }
        i := i + 2;
      } else {
        value := value + [source[i]];
        i := i + 1;
      }
    }
    end := i + 1;
  }

  /** Past the regex literal at `start` and its flags. */
  method ScanRegex(source: string, start: nat) returns (end: nat)
    requires start < |source|
    ensures end == RegexEnd(source, start + 1).end
  {
    var inClass := false;
    end := start + 1;
    while end < |source|
      invariant RegexBody(source, start + 1, false).end == RegexBody(source, end, inClass).end
      decreases |source| - end
    {
      var c := source[end];
      if c == '\\' {
        end := end + 2;
        continue;
      }
      if c == '\n' {
        break;
      }
      if c == '[' {
        inClass := true;
      } else if c == ']' {
        inClass := false;
      } else if c == '/' && !inClass {
        break;
      }
      end := end + 1;
    }
    end := end + 1;
    end := SkipIdPart(source, end);
  }

  method SkipIdPart(source: string, start: nat) returns (end: nat)
    ensures end == IdEnd(source, start)
  {
    end := start;
    while end < |source| && IsIdPart(source[end])
      invariant IdEnd(source, start) == IdEnd(source, end)
    {
      end := end + 1;
    }
  }

  method SkipNumPart(source: string, start: nat) returns (end: nat)
    ensures end == NumEnd(source, start)
  {
    end := start;
    while end < |source| && IsNumPart(source[end])
      invariant NumEnd(source, start) == NumEnd(source, end)
    {
      end := end + 1;
    }
  }

  /** The tokenizer's variables over one source text. */
  class Lexer {
    const source: string
    var tokens: seq<Token>
    var line: nat
    var i: nat
    var templateStack: seq<int>
    var braceDepth: int
    var parenHeads: seq<bool>
    var braceBlocks: seq<bool>

    constructor (source: string)
      ensures this.source == source && State() == START
    {
      this.source := source;
      tokens, line, i := [], 1, 0;
      templateStack, braceDepth, parenHeads, braceBlocks := [], 0, [], [];
    }

    ghost function State(): Lex
      reads this
    {
      Lex(tokens, line, i, templateStack, braceDepth, parenHeads, braceBlocks)
    }

    method PushToken(kind: Kind, value: string, startLine: nat, regexNext: bool)
      modifies this`tokens
      ensures tokens == old(tokens) + [Token(kind, value, startLine, regexNext)]
    {
      tokens := tokens + [Token(kind, value, startLine, regexNext)];
    }

    method SkipLineComment()
      modifies this`i
      ensures i == LineCommentEnd(source, old(i))
    {
      while i < |source| && source[i] != '\n'
        invariant LineCommentEnd(source, old(i)) == LineCommentEnd(source, i)
      {
        i := i + 1;
      }
    }

    method SkipBlockComment()
      modifies this`i, this`line
      ensures var p := BlockCommentEnd(source, old(i)); i == p.end && line == old(line) + p.counted
    {
      while i < |source| && !(source[i] == '*' && Has(source, i + 1, '/'))
        invariant BlockCommentEnd(source, old(i)).end == BlockCommentEnd(source, i).end
        invariant old(line) + BlockCommentEnd(source, old(i)).counted == line + BlockCommentEnd(source, i).counted
      {
        if source[i] == '\n' {
          line := line + 1;
        }
        i := i + 1;
      }
      i := i + 2;
    }

    method SkipTrivia()
      requires i < |source| && IsTrivia(source, i)
      modifies this
      ensures State() == TriviaStep(source, old(State()))
    {
      if source[i] == '\n' {
        line := line + 1;
        i := i + 1;
      } else if IsSpace(source[i]) {
        i := i + 1;
      } else if Has(source, i + 1, '/') {
        i := i + 1;
        SkipLineComment();
      } else {
        i := i + 2;
        SkipBlockComment();
      }
    }

    /** The template's text from `i`, just past its opening backtick or the `}` of an expression. */
    method ScanTemplate(startLine: nat)
      requires startLine == line
      modifies this
      ensures State() == TemplateStep(source, old(State()))
    {
      while i < |source|
        invariant State() == old(State()).(line := line, at := i)
        invariant TemplateEnd(source, old(i)).stop == TemplateEnd(source, i).stop
        invariant TemplateEnd(source, old(i)).piece.end == TemplateEnd(source, i).piece.end
        invariant old(line) + TemplateEnd(source, old(i)).piece.counted == line + TemplateEnd(source, i).piece.counted
        decreases |source| - i
      {
        var ch := source[i];
        if ch == '\\' {
          if Has(source, i + 1, '\n') {
            line := line + 1;
          }
          i := i + 2;
          continue;
        }
        if ch == '\n' {
          line := line + 1;
        }
        if ch == '`' {
          i := i + 1;
          PushToken(Tmpl, "`", startLine, false);
          return;
        }
        if ch == '$' && Has(source, i + 1, '{') {
          i := i + 2;
          PushToken(Tmpl, "`", startLine, false);
          templateStack := templateStack + [braceDepth];
          braceDepth := braceDepth + 1;
          return;
        }
        i := i + 1;
      }
    }

    method ReadOpenBrace()
      modifies this
      ensures State() == OpenBrace(old(State()))
    {
      braceDepth := braceDepth + 1;
      braceBlocks := braceBlocks + [OpensBlock(Last(tokens))];
      PushToken(Punct, "{", line, false);
      i := i + 1;
    }

    method ReadCloseBrace()
      modifies this
      ensures State() == CloseBrace(source, old(State()))
    {
      braceDepth := braceDepth - 1;
      if |templateStack| > 0 && templateStack[|templateStack| - 1] == braceDepth {
        templateStack := templateStack[..|templateStack| - 1];
        i := i + 1;
        ScanTemplate(line);
        return;
      }
      PushToken(Punct, "}", line, Last(braceBlocks) == Some(true));
      braceBlocks := Init(braceBlocks);
      i := i + 1;
    }

    method ReadPunct()
      requires i < |source|
      modifies this
      ensures State() == PunctStep(source, old(State()))
    {
      var ch, multi := source[i], MultiPunct(source, i);
      if multi > 0 {
        PushToken(Punct, source[i..i + multi], line, false);
        i := i + multi;
        return;
      }
      var regexNext := false;
      if ch == '(' {
        var head := Last(tokens);
        parenHeads := parenHeads + [head.Some? && head.value.kind == Id && head.value.value in CONTROL_HEADS];
      } else if ch == ')' {
        regexNext := Last(parenHeads) == Some(true);
        parenHeads := Init(parenHeads);
      }
      PushToken(Punct, [ch], line, regexNext);
      i := i + 1;
    }

    method ReadWord()
      requires i < |source| && source[i] != '\n'
      modifies this
      ensures State() == WordStep(source, old(State()))
    {
      var start := i;
      if StartsId(source, i) {
        i := SkipIdPart(source, i + 1);
        PushToken(Id, source[start..i], line, false);
      } else if IsDigit(source[i]) {
        i := SkipNumPart(source, i + 1);
        PushToken(Num, source[start..i], line, false);
      } else if source[i] == '{' {
        ReadOpenBrace();
      } else if source[i] == '}' {
        ReadCloseBrace();
      } else {
        ReadPunct();
      }
    }

    /** One turn of the loop. */
    method Advance()
      requires i < |source|
      modifies this
      ensures State() == Step(source, old(State()))
    {
      var ch := source[i];
      if IsTrivia(source, i) {
        SkipTrivia();
      } else if IsQuote(ch) {
        var value, end, newlines := ScanString(source, i);
        PushToken(Str, value, line, false);
        line := line + newlines;
        i := end;
      } else if ch == '`' {
        i := i + 1;
        ScanTemplate(line);
      } else if ch == '/' && RegexAllowed(tokens) {
        PushToken(Regex, "/", line, false);
        i := ScanRegex(source, i);
      } else {
        ReadWord();
      }
    }
  }

  method Tokenize(source: string) returns (tokens: seq<Token>)
    ensures tokens == Run(source, START).tokens
    ensures forall j, k :: 0 <= j < k < |tokens| ==> tokens[j].line <= tokens[k].line
    ensures forall k :: 0 <= k < |tokens| ==> tokens[k].line >= 1
  {
    var lexer := new Lexer(source);
    while lexer.i < |source|
      invariant lexer.source == source
      invariant Run(source, START) == Run(source, lexer.State())
      invariant LinesOk(lexer.State())
      decreases |source| - lexer.i
    {
      ghost var s := lexer.State();
      StepCounts(source, s);
      StepLines(source, s);
      lexer.Advance();
    }
    tokens := lexer.tokens;
  }
}
