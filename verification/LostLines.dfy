/**
 Exactly when the tokenizer of the size report gives a token the wrong line
 (scripts/arch-imports-size.ts).
 */
module LostLines {
  import opened JsText
  import opened SizeTokenizer

  /** The step after `k` others pushes a token. */
  predicate PushesAt(source: string, k: nat) {
    var s := After(source, k);
    s.at < |source| && |Step(source, s).tokens| == |s.tokens| + 1
  }

  /** The line given to the token that the step after `k` others pushes. */
  function LineGiven(source: string, k: nat): nat
    requires PushesAt(source, k)
  {
    Step(source, After(source, k)).tokens[|After(source, k).tokens|].line
  }

  /** The line its first character stands on. */
  function LineWritten(source: string, k: nat): nat {
    1 + Newlines(source, After(source, k).at)
  }

  /** A token's line is right exactly when no newline was lost before it. */
  lemma LineRightIff(source: string, k: nat)
    requires PushesAt(source, k)
    ensures LineGiven(source, k) == LineWritten(source, k) <==> LostIn(source, k) == 0
  {
    var s := After(source, k);
    StepPushes(source, s);
    LineReached(source, k, s, LostIn(source, k));
  }

  // ---- What loses a newline ----------------------------------------------

  /** A string loses the newline that ends it, if one does, and no other. */
  lemma {:induction false} StringLoses(source: string, i: nat, quote: char)
    requires i <= |source| + 1 && quote != '\n'
    ensures StringEnd(source, i, quote).lost == if Has(source, StringEnd(source, i, quote).end - 1, '\n') then 1 else 0
    decreases |source| + 2 - i
  {
    if i < |source| && source[i] != quote && source[i] != '\n' {
      StringLoses(source, if source[i] == '\\' then i + 2 else i + 1, quote);
    }
  }

  lemma {:induction false} NewlinesBetween(source: string, m: nat, n: nat)
    requires m <= n
    ensures Newlines(source, m) <= Newlines(source, n)
    ensures Newlines(source, m) == Newlines(source, n) <==> forall j :: m <= j < n ==> !Has(source, j, '\n')
    decreases n
  {
    if m < n {
      NewlinesBetween(source, m, n - 1);
    }
  }

  /** The step reads a string that a newline ends, or a regex with a newline in it. */
  predicate RunsIntoNewline(source: string, s: Lex)
    requires s.at < |source|
  {
    var c := source[s.at];
    && !IsTrivia(source, s.at)
    && if IsQuote(c) then Has(source, StringEnd(source, s.at + 1, c).end - 1, '\n')
       else c == '/' && RegexAllowed(s.tokens)
            && exists j :: s.at < j < RegexEnd(source, s.at + 1).end && Has(source, j, '\n')
  }

  lemma LostIff(source: string, s: Lex)
    requires s.at < |source|
    ensures Lost(source, s) == 0 <==> !RunsIntoNewline(source, s)
  {
    var c := source[s.at];
    if IsQuote(c) {
      StringLoses(source, s.at + 1, c);
    } else if c == '/' {
      var p := RegexEnd(source, s.at + 1);
      NewlinesBetween(source, s.at + 1, p.end);
    }
  }

  lemma LostNext(source: string, k: nat)
    ensures LostIn(source, k + 1) == 0 <==> LostIn(source, k) == 0 && KeepsNewlines(source, k)
  {
    if After(source, k).at < |source| {
      LostIff(source, After(source, k));
    }
  }

  /** The step after `j` others, if there is one, reads no string or regex that runs into a newline. */
  predicate KeepsNewlines(source: string, j: nat) {
    After(source, j).at < |source| ==> !RunsIntoNewline(source, After(source, j))
  }

  /** None of the first `k` steps does. */
  predicate KeepsUntil(source: string, k: nat) {
    k == 0 || (KeepsUntil(source, k - 1) && KeepsNewlines(source, k - 1))
  }

  lemma KeepsNext(source: string, k: nat)
    ensures KeepsUntil(source, k + 1) <==> KeepsUntil(source, k) && KeepsNewlines(source, k)
  {
  }

  ghost predicate NothingLost(source: string, k: nat) {
    LostIn(source, k) == 0 <==> KeepsUntil(source, k)
  }

  lemma NothingLostNext(source: string, k: nat)
    requires NothingLost(source, k)
    ensures NothingLost(source, k + 1)
  {
    LostNext(source, k);
    KeepsNext(source, k);
  }

  /** Nothing is lost in the first `k` steps exactly when none of them reads such a string or regex. */
  lemma {:induction false} NothingLostIff(source: string, k: nat)
    ensures NothingLost(source, k)
  {
    if k > 0 {
      NothingLostIff(source, k - 1);
      NothingLostNext(source, k - 1);
    }
  }

  /** So a token's line is right exactly when no string or regex before it runs into a newline. */
  lemma LineRightUnlessLost(source: string, k: nat)
    requires PushesAt(source, k)
    ensures LineGiven(source, k) == LineWritten(source, k) <==> KeepsUntil(source, k)
  {
    LineRightIff(source, k);
    NothingLostIff(source, k);
  }

  // ---- It does happen ----------------------------------------------------

  /** An unterminated string, and a name on the second line. */
  const UNTERMINATED := "'a\nb"

  lemma EndsAtNewline(source: string, i: nat, quote: char)
    requires i < |source| && source[i] == '\n' && quote != '\n'
    ensures StringEnd(source, i, quote) == Piece(i + 1, 0, 1) && StringValue(source, i, quote) == ""
  {
  }

  lemma GoesOn(source: string, i: nat, quote: char)
    requires i < |source| && quote != '\n' && source[i] != quote && source[i] != '\n' && source[i] != '\\'
    ensures StringEnd(source, i, quote) == StringEnd(source, i + 1, quote)
    ensures StringValue(source, i, quote) == [source[i]] + StringValue(source, i + 1, quote)
  {
  }

  lemma StringPiece(source: string)
    requires |source| == 4 && source[1] == 'a' && source[2] == '\n'
    ensures StringEnd(source, 1, '\'') == Piece(3, 0, 1) && StringValue(source, 1, '\'') == "a"
  {
    GoesOn(source, 1, '\'');
    EndsAtNewline(source, 2, '\'');
    assert [source[1]] + "" == "a";
  }

  lemma StringStep(source: string, s: Lex)
    requires |source| == 4 && source[0] == '\'' && source[1] == 'a' && source[2] == '\n' && s == START
    ensures Step(source, s) == Lex([Token(Str, "a", 1, false)], 1, 3, [], 0, [], [])
  {
    StringPiece(source);
    assert !IsTrivia(source, 0) && IsQuote(source[0]);
  }

  lemma AfterString()
    ensures After(UNTERMINATED, 1) == Lex([Token(Str, "a", 1, false)], 1, 3, [], 0, [], [])
  {
    StringStep(UNTERMINATED, START);
    assert After(UNTERMINATED, 0) == START;
  }

  lemma NameStep(s: Lex)
    requires s == Lex([Token(Str, "a", 1, false)], 1, 3, [], 0, [], [])
    ensures Step(UNTERMINATED, s).tokens == [Token(Str, "a", 1, false), Token(Id, "b", 1, false)]
  {
    var source := UNTERMINATED;
    assert source[3] == 'b' && !IsTrivia(source, 3) && StartsId(source, 3);
    assert IdEnd(source, 4) == 4;
    assert source[3..4] == "b";
  }

  /** The name on the second line of that source is given line one. */
  lemma UnterminatedStringLosesALine()
    ensures PushesAt(UNTERMINATED, 1)
    ensures LineGiven(UNTERMINATED, 1) == 1 && LineWritten(UNTERMINATED, 1) == 2
  {
    AfterString();
    NameStep(After(UNTERMINATED, 1));
    assert Newlines(UNTERMINATED, 1) == 0 && Newlines(UNTERMINATED, 2) == 0 && Newlines(UNTERMINATED, 3) == 1;
  }
}
