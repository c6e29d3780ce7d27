/**
 Re-wrapping a shell command (scripts/dependency-policy.ts): a continuation or a newline after
 an operator changes where commands are reported, by known amounts, and nothing else.
 */
module ShellRewrap {
  import opened ShellCommands
  import opened JsText

  // ---- Where the scanner stands after a prefix ---------------------------

  /** The scan at the end of `a` when `b` follows; otherwise what the boundary cuts through. */
  datatype Place = At(scan: Scan) | InComment | InPair | Stopped

  function ScanTo(s: Scan, a: string, b: string): Place
    decreases |a|
  {
    if a == [] then At(s)
    else if Full(s) || Dangles(s, a + b) then Stopped
    else
      var n := Taken(s, a + b);
      if StartsComment(s, a + b) && n >= |a| then InComment
      else if n > |a| then InPair
      else ScanTo(Step(s, a + b), a[n..], b)
  }

  /** Scanning the whole text is scanning the prefix and then the rest. */
  lemma {:induction false} RunSplits(s: Scan, a: string, b: string)
    requires ScanTo(s, a, b).At?
    ensures Run(s, a + b) == Run(ScanTo(s, a, b).scan, b)
    decreases |a|
  {
    if a == [] {
      assert a + b == b;
    } else {
      var n := Taken(s, a + b);
      assert (a + b)[n..] == a[n..] + b;
      RunSplits(Step(s, a + b), a[n..], b);
    }
  }

  /** Text that may stand at a boundary without changing how the text before it is read. */
  predicate Neutral(b: string) {
    b != [] && b[0] != '|' && b[0] != '&'
  }

  lemma LookaheadTail(a: string, b: string, c: string)
    requires |a| >= 2
    ensures (a + b)[0] == (a + c)[0] && (a + b)[1] == (a + c)[1] && (a + b)[..2] == (a + c)[..2]
  {
  }

  lemma {:induction false} UntilNewlineKept(a: string, b: string, c: string)
    requires UntilNewline(a + b) < |a|
    ensures UntilNewline(a + c) == UntilNewline(a + b)
  {
    if a[0] != '\n' {
      assert (a + b)[1..] == a[1..] + b && (a + c)[1..] == a[1..] + c;
      UntilNewlineKept(a[1..], b, c);
    }
  }

  /** A turn that ends within `a` is the same turn when something else follows `a`. */
  lemma SameTurn(s: Scan, a: string, b: string, c: string)
    requires a != [] && !Dangles(s, a + b) && Neutral(c)
    requires Taken(s, a + b) < |a| || (Taken(s, a + b) == |a| && !StartsComment(s, a + b))
    requires Taken(s, a + b) == |a| ==> Step(s, a + b).quote == NoQuote
    ensures !Dangles(s, a + c) && Taken(s, a + c) == Taken(s, a + b) && Step(s, a + c) == Step(s, a + b)
    ensures StartsComment(s, a + c) == StartsComment(s, a + b)
  {
    if |a| >= 2 {
      LookaheadTail(a, b, c);
      if StartsComment(s, a + b) {
        assert (a + b)[1..] == a[1..] + b && (a + c)[1..] == a[1..] + c;
        UntilNewlineKept(a[1..], b, c);
      }
    } else {
      LastCharTurn(s, a[0], b, c);
      assert a == [a[0]];
    }
  }

  lemma LastCharTurn(s: Scan, x: char, b: string, c: string)
    requires !Dangles(s, [x] + b) && Neutral(c)
    requires Taken(s, [x] + b) == 1 && !StartsComment(s, [x] + b)
    requires Step(s, [x] + b).quote == NoQuote
    ensures !Dangles(s, [x] + c) && Taken(s, [x] + c) == 1 && Step(s, [x] + c) == Step(s, [x] + b)
    ensures !StartsComment(s, [x] + c)
  {
    assert ([x] + b)[0] == x && ([x] + c)[0] == x;
  }

  lemma {:induction false} ScanToKept(s: Scan, a: string, b: string, c: string)
    requires ScanTo(s, a, b).At? && ScanTo(s, a, b).scan.quote == NoQuote && Neutral(c)
    ensures ScanTo(s, a, c) == ScanTo(s, a, b)
    decreases |a|
  {
    if a != [] {
      var n := Taken(s, a + b);
      SameTurn(s, a, b, c);
      ScanToKept(Step(s, a + b), a[n..], b, c);
    }
  }

  /** A boundary inside a two-character turn comes just after a backslash, a `|` or a `&`. */
  lemma {:induction false} PairBoundary(s: Scan, a: string, b: string)
    requires ScanTo(s, a, b) == InPair
    ensures a != [] && a[|a| - 1] in {'\\', '|', '&'}
    decreases |a|
  {
    var n := Taken(s, a + b);
    if n <= |a| {
      PairBoundary(Step(s, a + b), a[n..], b);
      assert a[|a| - 1] == a[n..][|a[n..]| - 1];
    } else {
      assert |a| == 1 && (a + b)[0] == a[0];
    }
  }

  // ---- Shifted lines -----------------------------------------------------

  /** A command has a line exactly when one of its stages holds a word. */
  predicate WordInv(s: Scan) {
    && (s.commandLine.Some? <==> HasText(s.stages + [s.stage]))
    && (s.quote != NoQuote ==> s.commandLine.Some?)
  }

  function Shift(i: int, k: nat): int {
    if i < k then 0 else 1
  }

  ghost predicate SameCommands(a: seq<Command>, b: seq<Command>, k: nat) {
    && |a| == |b|
    && forall i :: 0 <= i < |a| ==> b[i].stages == a[i].stages && b[i].line == a[i].line + Shift(i, k)
  }

  /** The same scan one line further down, with commands from number `k` on reported one line later. */
  ghost predicate Shifted(s: Scan, t: Scan, k: nat) {
    && SameCommands(s.commands, t.commands, k)
    && t.stages == s.stages && t.stage == s.stage && t.quote == s.quote && t.depth == s.depth
    && t.pendingOperator == s.pendingOperator
    && t.line == s.line + 1
    && (s.commandLine.None? ==> t.commandLine.None? && k <= |s.commands|)
    && (s.commandLine.Some? ==> t.commandLine == Some(s.commandLine.value + Shift(|s.commands|, k)))
    && k <= |s.commands| + 1
  }

  lemma HasTextAppend(stages: seq<string>, stage: string)
    ensures HasText(stages + [stage]) <==> HasText(stages) || !Blank(stage)
  {
    var all := stages + [stage];
    assert all[|stages|] == stage;
    assert forall i :: 0 <= i < |stages| ==> all[i] == stages[i];
  }

  lemma BlankAppend(a: string, b: string)
    ensures Blank(a + b) <==> Blank(a) && Blank(b)
  {
    assert forall i :: 0 <= i < |a| ==> (a + b)[i] == a[i];
    assert forall i :: 0 <= i < |b| ==> (a + b)[|a| + i] == b[i];
  }

  lemma WordStepInv(s: Scan, text: string)
    requires !Blank(text)
    ensures WordInv(WordStep(s, text))
  {
    BlankAppend(s.stage, text);
    HasTextAppend(s.stages, s.stage + text);
  }

  lemma EndCommandInv(s: Scan)
    requires s.quote == NoQuote
    ensures WordInv(EndCommand(s))
  {
    HasTextAppend([], "");
  }

  lemma StageGrows(s: Scan, t: Scan, text: string)
    requires WordInv(s) && t.stages == s.stages && t.stage == s.stage + text && t.commandLine == s.commandLine
    requires Blank(text) || s.commandLine.Some?
    requires t.quote != NoQuote ==> s.quote != NoQuote
    ensures WordInv(t)
  {
    BlankAppend(s.stage, text);
    HasTextAppend(s.stages, s.stage);
    HasTextAppend(s.stages, s.stage + text);
  }

  lemma EndStageInv(s: Scan)
    requires WordInv(s) && s.quote == NoQuote
    ensures WordInv(EndStage(s).(pendingOperator := true))
  {
    HasTextAppend(s.stages + [s.stage], "");
  }

  lemma StepWordInv(s: Scan, rest: string)
    requires WordInv(s) && rest != [] && !Dangles(s, rest)
    ensures WordInv(Step(s, rest))
  {
    var c := rest[0];
    if s.quote != NoQuote {
      StageGrows(s, Step(s, rest), if c == '\\' && s.quote != Single && |rest| >= 2 then rest[..2] else [c]);
    } else if c == '\\' {
      if rest[1] != '\n' {
        assert rest[..2][0] == '\\';
        WordStepInv(s, rest[..2]);
      }
    } else if StartsComment(s, rest) {
    } else if c == '|' && !Next(rest, '|') {
      EndStageInv(s);
    } else if c == '|' || c == '&' || c == ';' {
      EndCommandInv(s);
    } else if c == '\n' {
      if s.pendingOperator {
        StageGrows(s, Step(s, rest), " ");
      } else {
        EndCommandInv(s.(line := s.line + 1));
      }
    } else if IsSpace(c) {
      StageGrows(s, Step(s, rest), [c]);
    } else {
      assert [c][0] == c;
      WordStepInv(s, [c]);
    }
  }

  // ---- Steps keep the shift ----------------------------------------------

  lemma WordStepShifted(s: Scan, t: Scan, k: nat, text: string)
    requires Shifted(s, t, k)
    ensures Shifted(WordStep(s, text), WordStep(t, text), k)
  {
  }

  lemma EndCommandShifted(s: Scan, t: Scan, k: nat)
    requires Shifted(s, t, k) && WordInv(s)
    ensures Shifted(EndCommand(s), EndCommand(t), k)
  {
    var a, b := EndCommand(s), EndCommand(t);
    if HasText(s.stages + [s.stage]) {
      assert SameCommands(a.commands, b.commands, k);
    }
  }

  lemma QuotedShifted(s: Scan, t: Scan, k: nat, rest: string)
    requires Shifted(s, t, k) && rest != [] && s.quote != NoQuote
    ensures Shifted(QuotedStep(s, rest), QuotedStep(t, rest), k)
  {
  }

  lemma OperatorShifted(s: Scan, t: Scan, k: nat, rest: string)
    requires Shifted(s, t, k) && WordInv(s) && rest != [] && s.quote == NoQuote
    requires rest[0] == '|' || rest[0] == '&' || rest[0] == ';'
    ensures Shifted(PlainStep(s, rest), PlainStep(t, rest), k)
  {
    EndCommandShifted(s, t, k);
  }

  lemma NewlineShifted(s: Scan, t: Scan, k: nat, rest: string)
    requires Shifted(s, t, k) && WordInv(s) && rest != [] && s.quote == NoQuote && rest[0] == '\n'
    ensures Shifted(PlainStep(s, rest), PlainStep(t, rest), k)
  {
    EndCommandShifted(s.(line := s.line + 1), t.(line := t.line + 1), k);
  }

  lemma OtherShifted(s: Scan, t: Scan, k: nat, rest: string)
    requires Shifted(s, t, k) && rest != [] && s.quote == NoQuote && !Dangles(s, rest)
    requires rest[0] != '|' && rest[0] != '&' && rest[0] != ';' && rest[0] != '\n'
    ensures Shifted(PlainStep(s, rest), PlainStep(t, rest), k)
  {
    WordStepShifted(s, t, k, if rest[0] == '\\' then rest[..2] else [rest[0]]);
  }

  lemma StepShifted(s: Scan, t: Scan, k: nat, rest: string)
    requires Shifted(s, t, k) && WordInv(s) && rest != [] && !Dangles(s, rest)
    ensures !Dangles(t, rest) && Taken(t, rest) == Taken(s, rest)
    ensures Shifted(Step(s, rest), Step(t, rest), k)
  {
    if s.quote != NoQuote {
      QuotedShifted(s, t, k, rest);
    } else if rest[0] == '|' || rest[0] == '&' || rest[0] == ';' {
      OperatorShifted(s, t, k, rest);
    } else if rest[0] == '\n' {
      NewlineShifted(s, t, k, rest);
    } else {
      OtherShifted(s, t, k, rest);
    }
  }

  ghost predicate SameEnding(e: Ending, f: Ending, k: nat) {
    f.stopped == e.stopped && Shifted(e.scan, f.scan, k) && WordInv(e.scan)
  }

  lemma {:induction false} RunShifted(s: Scan, t: Scan, k: nat, rest: string)
    requires Shifted(s, t, k) && WordInv(s)
    ensures SameEnding(Run(s, rest), Run(t, rest), k)
    decreases |rest|
  {
    if rest != [] && !Full(s) && !Dangles(s, rest) {
      StepShifted(s, t, k, rest);
      StepWordInv(s, rest);
      RunShifted(Step(s, rest), Step(t, rest), k, rest[Taken(s, rest)..]);
    }
  }

  lemma {:induction false} ScanToWordInv(s: Scan, a: string, b: string)
    requires WordInv(s) && ScanTo(s, a, b).At?
    ensures WordInv(ScanTo(s, a, b).scan)
    decreases |a|
  {
    if a != [] {
      StepWordInv(s, a + b);
      ScanToWordInv(Step(s, a + b), a[Taken(s, a + b)..], b);
    }
  }

  // ---- Re-wrapping -------------------------------------------------------

  /** How the re-wrapped text is read: the same commands and verdicts, one line later from number `k` on. */
  ghost predicate Rewrapped(p: Parsed, q: Parsed, k: nat) {
    SameCommands(p.commands, q.commands, k) && q.understood == p.understood
  }

  lemma FinishShifted(e: Ending, f: Ending, k: nat)
    requires SameEnding(e, f, k)
    ensures Rewrapped(Finish(e), Finish(f), k)
  {
    EndCommandShifted(e.scan, f.scan, k);
  }

  /** The number of the first command whose first word comes after the boundary. */
  function FirstAfter(s: Scan): nat {
    |s.commands| + if s.commandLine.Some? then 1 else 0
  }

  lemma StartWordInv(firstLine: int)
    ensures WordInv(Start(firstLine))
  {
    HasTextAppend([], "");
  }

  lemma SelfShifted(s: Scan)
    ensures Shifted(s, s.(line := s.line + 1), FirstAfter(s))
  {
  }

  const CONTINUATION := "\\\n"

  lemma RunStep(s: Scan, rest: string, t: Scan, tail: string)
    requires rest != [] && !Full(s) && !Dangles(s, rest)
    requires Step(s, rest) == t && rest[Taken(s, rest)..] == tail
    ensures Run(s, rest) == Run(t, tail)
  {
  }

  /** The scan at the boundary takes a continuation as one line further down, and nothing else. */
  lemma ContinuationRun(s: Scan, b: string)
    requires s.quote == NoQuote && !Full(s)
    ensures Run(s, CONTINUATION + b) == Run(s.(line := s.line + 1), b)
  {
    var c := CONTINUATION + b;
    assert c[0] == '\\' && c[1] == '\n' && c[2..] == b;
    assert Taken(s, c) == 2;
    RunStep(s, c, s.(line := s.line + 1), b);
  }

  lemma SuffixesShifted(s: Scan, t: Scan, k: nat, whole: Ending, other: Ending, rest: string)
    requires Shifted(s, t, k) && WordInv(s) && whole == Run(s, rest) && other == Run(t, rest)
    ensures Rewrapped(Finish(whole), Finish(other), k)
  {
    RunShifted(s, t, k, rest);
    FinishShifted(whole, other, k);
  }

  /** The state at the boundary, when what follows there is replaced by other neutral text. */
  lemma BoundaryRuns(s0: Scan, a: string, b: string, c: string) returns (s: Scan)
    requires WordInv(s0) && ScanTo(s0, a, b).At? && ScanTo(s0, a, b).scan.quote == NoQuote && Neutral(c)
    ensures s == ScanTo(s0, a, b).scan && WordInv(s)
    ensures Run(s0, a + b) == Run(s, b) && Run(s0, a + c) == Run(s, c)
  {
    s := ScanTo(s0, a, b).scan;
    RunSplits(s0, a, b);
    ScanToKept(s0, a, b, c);
    RunSplits(s0, a, c);
    ScanToWordInv(s0, a, b);
  }

  /**
   Inserting a backslash and a newline between `a` and `b`, outside quotes and comments and not
   inside a two-character turn, changes no command's stages and not whether the text was
   understood. Commands whose first word comes after the boundary are reported one line later,
   the others where they were. The size bounds must not be what decides.
   */
  lemma ContinuationKeepsCommands(a: string, b: string, firstLine: int)
    requires ScanTo(Start(firstLine), a, b).At?
    requires ScanTo(Start(firstLine), a, b).scan.quote == NoQuote
    requires |a + b| + 2 <= MAX_SHELL_TEXT_CHARS && !Full(ScanTo(Start(firstLine), a, b).scan)
    ensures Rewrapped(Parse(a + b, firstLine), Parse(a + (CONTINUATION + b), firstLine),
                      FirstAfter(ScanTo(Start(firstLine), a, b).scan))
  {
    StartWordInv(firstLine);
    var s := BoundaryRuns(Start(firstLine), a, b, CONTINUATION + b);
    ContinuationRun(s, b);
    SelfShifted(s);
    SuffixesShifted(s, s.(line := s.line + 1), FirstAfter(s), Run(Start(firstLine), a + b),
      Run(Start(firstLine), a + (CONTINUATION + b)), b);
  }

  lemma SpaceRun(s: Scan, b: string)
    requires s.quote == NoQuote && !Full(s)
    ensures Run(s, " " + b) == Run(s.(stage := s.stage + " "), b)
  {
    var x := " " + b;
    assert x[0] == ' ' && x[1..] == b;
    assert [' '] == " ";
    RunStep(s, x, s.(stage := s.stage + " "), b);
  }

  /** A pending operator takes a newline like a space, but for the line. */
  lemma NewlineRun(s: Scan, b: string)
    requires s.quote == NoQuote && s.pendingOperator && !Full(s)
    ensures Run(s, "\n" + b) == Run(s.(stage := s.stage + " ", line := s.line + 1), b)
  {
    var y := "\n" + b;
    assert y[0] == '\n' && y[1..] == b;
    assert PlainStep(s, y) == s.(stage := s.stage + " ", line := s.line + 1);
    assert Taken(s, y) == 1;
    RunStep(s, y, s.(stage := s.stage + " ", line := s.line + 1), b);
  }

  /**
   After `|`, `||` or `&&`, a newline in place of a space changes no command's stages and not
   whether the text was understood, and moves later commands down one line.
   */
  lemma NewlineAfterOperatorKeepsCommands(a: string, b: string, firstLine: int)
    requires ScanTo(Start(firstLine), a, " " + b).At?
    requires ScanTo(Start(firstLine), a, " " + b).scan.quote == NoQuote
    requires ScanTo(Start(firstLine), a, " " + b).scan.pendingOperator
    requires |a + b| + 1 <= MAX_SHELL_TEXT_CHARS
    ensures Rewrapped(Parse(a + (" " + b), firstLine), Parse(a + ("\n" + b), firstLine),
                      FirstAfter(ScanTo(Start(firstLine), a, " " + b).scan))
  {
    StartWordInv(firstLine);
    var s := BoundaryRuns(Start(firstLine), a, " " + b, "\n" + b);
    PendingRewrapped(s, b);
  }

  lemma PendingRewrapped(s: Scan, b: string)
    requires WordInv(s) && s.quote == NoQuote && s.pendingOperator
    ensures Rewrapped(Finish(Run(s, " " + b)), Finish(Run(s, "\n" + b)), FirstAfter(s))
  {
    if Full(s) {
      FinishSame(s, FirstAfter(s));
      StoppedRun(s, " " + b);
      StoppedRun(s, "\n" + b);
    } else {
      SpaceRun(s, b);
      NewlineRun(s, b);
      StageGrows(s, s.(stage := s.stage + " "), " ");
      SelfShifted(s);
      SuffixesShifted(s.(stage := s.stage + " "), s.(stage := s.stage + " ", line := s.line + 1), FirstAfter(s),
                      Run(s, " " + b), Run(s, "\n" + b), b);
    }
  }

  lemma StoppedRun(s: Scan, rest: string)
    requires rest != [] && Full(s)
    ensures Run(s, rest) == Ending(s, true)
  {
  }

  lemma FinishSame(s: Scan, k: nat)
    requires k == FirstAfter(s) && WordInv(s)
    ensures Rewrapped(Finish(Ending(s, true)), Finish(Ending(s, true)), k)
  {
  }

  // ---- What a reported line is -------------------------------------------

  function Newlines(s: string): nat {
    if s == [] then 0 else (if s[0] == '\n' then 1 else 0) + Newlines(s[1..])
  }

  lemma {:induction false} NoNewlines(s: string)
    requires '\n' !in s
    ensures Newlines(s) == 0
  {
    if s != [] {
      NoNewlines(s[1..]);
    }
  }

  lemma {:induction false} NewlinesAppend(a: string, b: string)
    ensures Newlines(a + b) == Newlines(a) + Newlines(b)
  {
    if a == [] {
      assert a + b == b;
    } else {
      NewlinesAppend(a[1..], b);
      assert (a + b)[1..] == a[1..] + b;
    }
  }

  lemma NewlinesOfTwo(x: char, y: char)
    ensures Newlines([x]) == if x == '\n' then 1 else 0
    ensures Newlines([x, y]) == Newlines([x]) + Newlines([y])
  {
    assert [x][1..] == [];
    assert [x, y][1..] == [y];
  }

  /** One turn advances the line by the newlines it takes. */
  lemma StepLine(s: Scan, rest: string)
    requires rest != [] && !Dangles(s, rest)
    ensures Step(s, rest).line == s.line + Newlines(rest[..Taken(s, rest)])
  {
    var n := Taken(s, rest);
    var taken := rest[..n];
    if StartsComment(s, rest) {
      assert taken == [rest[0]] + rest[1..][..n - 1];
      NoNewlines(taken);
    } else if n == 1 {
      assert taken == [rest[0]];
      NewlinesOfTwo(rest[0], rest[0]);
    } else {
      assert taken == [rest[0], rest[1]];
      NewlinesOfTwo(rest[0], rest[1]);
      NewlinesOfTwo(rest[1], rest[1]);
    }
  }

  /** The scan after `a`, when whole turns cover it and `b` follows. */
  function Turns(s: Scan, a: string, b: string): Option<Scan>
    decreases |a|
  {
    if a == [] then Some(s)
    else if Full(s) || Dangles(s, a + b) || Taken(s, a + b) > |a| then None
    else Turns(Step(s, a + b), a[Taken(s, a + b)..], b)
  }

  /** After whole turns the line is the first line plus the newlines before it. */
  lemma {:induction false} LineIsCounted(s: Scan, a: string, b: string)
    requires Turns(s, a, b).Some?
    ensures Turns(s, a, b).value.line == s.line + Newlines(a)
    decreases |a|
  {
    if a != [] {
      var n := Taken(s, a + b);
      StepLine(s, a + b);
      assert (a + b)[..n] == a[..n];
      LineIsCounted(Step(s, a + b), a[n..], b);
      assert a == a[..n] + a[n..];
      NewlinesAppend(a[..n], a[n..]);
    }
  }

  lemma TurnsFirst(s: Scan, a: string, b: string, text: string)
    requires text == a + b && a != [] && !Full(s) && !Dangles(s, text) && Taken(s, text) <= |a|
    ensures Turns(s, a, b) == Turns(Step(s, text), a[Taken(s, text)..], b)
  {
  }

  lemma Regroup(a: string, b: string, n: nat)
    requires n <= |b|
    ensures (a + b[..n]) + b[n..] == a + b
    ensures forall m :: 0 <= m <= |a| ==> (a + b[..n])[m..] == a[m..] + b[..n]
  {
  }

  /** One turn more. */
  lemma {:induction false} TurnsOn(s: Scan, a: string, b: string, t: Scan, n: nat)
    requires Turns(s, a, b) == Some(t) && b != [] && !Full(t) && !Dangles(t, b) && n == Taken(t, b)
    ensures Turns(s, a + b[..n], b[n..]) == Some(Step(t, b))
    decreases |a|
  {
    var text := a + b;
    Regroup(a, b, n);
    if a == [] {
      assert text == b;
      TurnsFirst(s, a + b[..n], b[n..], text);
      assert (a + b[..n])[n..] == [];
    } else {
      var m := Taken(s, text);
      TurnsFirst(s, a, b, text);
      TurnsOn(Step(s, text), a[m..], b, t, n);
      TurnsFirst(s, a + b[..n], b[n..], text);
    }
  }

  /** The first word of command number `i` begins between `a` and `b`. */
  ghost predicate BeginsAt(a: string, b: string, firstLine: int, i: nat) {
    var s := Turns(Start(firstLine), a, b);
    && s.Some? && b != [] && !Dangles(s.value, b)
    && |s.value.commands| == i && s.value.commandLine.None? && Step(s.value, b).commandLine.Some?
  }

  /** Line `line` is the first line plus the newlines before the first word of command number `i`. */
  ghost predicate BeginsOn(text: string, firstLine: int, i: nat, line: int) {
    exists a, b :: BeginsAt(a, b, firstLine, i) && a + b == text && line == firstLine + Newlines(a)
  }

  /** The commands so far, and the one that has begun, carry the lines of their first words. */
  ghost predicate LinesCounted(text: string, firstLine: int, s: Scan) {
    && (forall i :: 0 <= i < |s.commands| ==> BeginsOn(text, firstLine, i, s.commands[i].line))
    && (s.commandLine.Some? ==> BeginsOn(text, firstLine, |s.commands|, s.commandLine.value))
  }

  /** The command that has begun is reported, with its line. */
  ghost predicate Reported(s: Scan, t: Scan) {
    && s.commandLine.Some? && t.commandLine.None?
    && |t.commands| == |s.commands| + 1 && s.commands <= t.commands
    && t.commands[|s.commands|].line == s.commandLine.value
  }

  lemma EndCommandReports(s: Scan)
    requires WordInv(s)
    ensures if s.commandLine.Some? then Reported(s, EndCommand(s))
            else EndCommand(s).commands == s.commands && EndCommand(s).commandLine.None?
  {
  }

  /** A turn begins a command on its own line, reports the one that has begun, or does neither. */
  lemma StepReports(s: Scan, rest: string)
    requires rest != [] && !Dangles(s, rest) && WordInv(s)
    ensures var t := Step(s, rest);
      || Reported(s, t)
      || (t.commands == s.commands && t.commandLine == s.commandLine)
      || (t.commands == s.commands && s.commandLine.None? && t.commandLine == Some(s.line))
  {
    EndCommandReports(s);
    EndCommandReports(s.(line := s.line + 1));
  }

  lemma StepKeepsLines(text: string, firstLine: int, a: string, b: string, s: Scan)
    requires b != [] && a + b == text && Turns(Start(firstLine), a, b) == Some(s) && !Dangles(s, b)
    requires WordInv(s) && LinesCounted(text, firstLine, s)
    ensures LinesCounted(text, firstLine, Step(s, b))
  {
    var t := Step(s, b);
    StepReports(s, b);
    LineIsCounted(Start(firstLine), a, b);
    if s.commandLine.None? && t.commandLine.Some? {
      assert BeginsAt(a, b, firstLine, |s.commands|);
    }
  }

  lemma TurnOnce(firstLine: int, a: string, b: string, s: Scan) returns (c: string, d: string)
    requires Turns(Start(firstLine), a, b) == Some(s) && b != [] && !Full(s) && !Dangles(s, b)
    ensures c + d == a + b && |d| < |b|
    ensures Turns(Start(firstLine), c, d) == Some(Step(s, b)) && Run(s, b) == Run(Step(s, b), d)
  {
    var n := Taken(s, b);
    c, d := a + b[..n], b[n..];
    Regroup(a, b, n);
    TurnsOn(Start(firstLine), a, b, s, n);
    RunStep(s, b, Step(s, b), d);
  }

  lemma RunEnds(s: Scan, b: string)
    requires b == [] || Full(s) || Dangles(s, b)
    ensures Run(s, b).scan == s
  {
  }

  lemma {:induction false} RunKeepsLines(text: string, firstLine: int, a: string, b: string, s: Scan)
    requires a + b == text && Turns(Start(firstLine), a, b) == Some(s)
    requires WordInv(s) && LinesCounted(text, firstLine, s)
    ensures WordInv(Run(s, b).scan) && LinesCounted(text, firstLine, Run(s, b).scan)
    decreases |b|
  {
    if b == [] || Full(s) || Dangles(s, b) {
      RunEnds(s, b);
    } else {
      var c, d := TurnOnce(firstLine, a, b, s);
      StepWordInv(s, b);
      StepKeepsLines(text, firstLine, a, b, s);
      RunKeepsLines(text, firstLine, c, d, Step(s, b));
    }
  }

  /** Every reported command carries the first line plus the newlines read before its first word. */
  lemma CommandLinesAreCounted(text: string, firstLine: int)
    ensures forall i :: 0 <= i < |Parse(text, firstLine).commands| ==>
      BeginsOn(text, firstLine, i, Parse(text, firstLine).commands[i].line)
  {
    if |text| <= MAX_SHELL_TEXT_CHARS {
      StartWordInv(firstLine);
      RunKeepsLines(text, firstLine, "", text, Start(firstLine));
      EndCommandReports(Run(Start(firstLine), text).scan);
    }
  }
}
