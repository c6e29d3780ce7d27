/**
 The shell-command scanner (scripts/dependency-policy.ts): one pass over the text that splits
 it into commands and pipeline stages, following quotes, escapes, comments, operators and
 continuation lines.
 */
module ShellCommands {
  import opened JsText

  const MAX_SHELL_TEXT_CHARS := 100_000
  const MAX_SHELL_COMMANDS := 2000

  datatype Command = Command(line: int, stages: seq<string>)

  datatype Quote = NoQuote | Single | Double | Back

  /** The scanner's variables. `commandLine` is the line of the current command's first word, once it has one. */
  datatype Scan = Scan(
    commands: seq<Command>,
    stages: seq<string>,
    stage: string,
    line: int,
    commandLine: Option<int>,
    quote: Quote,
    depth: nat,
    pendingOperator: bool)

  function Start(firstLine: int): Scan {
    Scan([], [], "", firstLine, None, NoQuote, 0, false)
  }

  function QuoteOf(c: char): Quote {
    if c == '\'' then Single else if c == '"' then Double else if c == '`' then Back else NoQuote
  }

  function BeginWord(s: Scan): Scan {
    if s.commandLine.None? then s.(commandLine := Some(s.line)) else s
  }

  function EndStage(s: Scan): Scan {
    s.(stages := s.stages + [s.stage], stage := "")
  }

  predicate HasText(stages: seq<string>) {
    exists i :: 0 <= i < |stages| && !Blank(stages[i])
  }

  function EndCommand(s: Scan): Scan {
    var t := EndStage(s);
    t.(commands := if HasText(t.stages)
                   then t.commands + [Command(if t.commandLine.None? then t.line else t.commandLine.value, t.stages)]
                   else t.commands,
       stages := [], commandLine := None)
  }

  /** How many characters follow before the next newline. */
  function UntilNewline(s: string): (n: nat)
    ensures n <= |s| && (n < |s| ==> s[n] == '\n') && '\n' !in s[..n]
  {
    if s == [] || s[0] == '\n' then 0 else 1 + UntilNewline(s[1..])
  }

  predicate StartsComment(s: Scan, rest: string)
    requires rest != []
  {
    s.quote == NoQuote && rest[0] == '#' && (s.stage == "" || IsSpace(s.stage[|s.stage| - 1]))
  }

  /** A lone backslash at the end of the text. */
  predicate Dangles(s: Scan, rest: string)
    requires rest != []
  {
    s.quote == NoQuote && rest == "\\"
  }

  predicate Next(rest: string, c: char) {
    |rest| >= 2 && rest[1] == c
  }

  /** How much of the text one turn of the scanner takes. */
  function Taken(s: Scan, rest: string): (n: nat)
    requires rest != [] && !Dangles(s, rest)
    ensures 1 <= n <= |rest|
  {
    if s.quote != NoQuote then
      if rest[0] == '\\' && s.quote != Single && |rest| >= 2 then 2 else 1
    else if rest[0] == '\\' then 2
    else if StartsComment(s, rest) then 1 + UntilNewline(rest[1..])
    else if rest[0] == '|' && Next(rest, '|') then 2
    else if rest[0] == '&' && Next(rest, '&') then 2
    else 1
  }

  function QuotedStep(s: Scan, rest: string): Scan
    requires rest != [] && s.quote != NoQuote
  {
    var c := rest[0];
    if c == '\\' && s.quote != Single && |rest| >= 2 then
      s.(stage := s.stage + rest[..2], line := if rest[1] == '\n' then s.line + 1 else s.line)
    else
      s.(stage := s.stage + [c], line := if c == '\n' then s.line + 1 else s.line,
         quote := if QuoteOf(c) == s.quote then NoQuote else s.quote)
  }

  /** A character that starts or continues a word. */
  function WordStep(s: Scan, text: string): Scan {
    BeginWord(s.(stage := s.stage + text, pendingOperator := false))
  }

  function PlainStep(s: Scan, rest: string): Scan
    requires rest != [] && s.quote == NoQuote && !Dangles(s, rest)
  {
    var c := rest[0];
    if c == '\\' then
      if rest[1] == '\n' then s.(line := s.line + 1) else WordStep(s, rest[..2])
    else if StartsComment(s, rest) then s
    else if QuoteOf(c) != NoQuote then WordStep(s, [c]).(quote := QuoteOf(c))
    else if c == '(' then WordStep(s, [c]).(depth := s.depth + 1)
    else if c == ')' then WordStep(s, [c]).(depth := if s.depth > 0 then s.depth - 1 else 0)
    else if c == '|' then
      if Next(rest, '|') then EndCommand(s).(pendingOperator := true) else EndStage(s).(pendingOperator := true)
    else if c == '&' then EndCommand(s).(pendingOperator := Next(rest, '&'))
    else if c == ';' then EndCommand(s).(pendingOperator := false)
    else if c == '\n' then
      var t := s.(line := s.line + 1);
      if s.pendingOperator then t.(stage := s.stage + " ") else EndCommand(t)
    else if IsSpace(c) then s.(stage := s.stage + [c])
    else WordStep(s, [c])
  }

  function Step(s: Scan, rest: string): Scan
    requires rest != [] && !Dangles(s, rest)
  {
    if s.quote != NoQuote then QuotedStep(s, rest) else PlainStep(s, rest)
  }

  predicate Full(s: Scan) { |s.commands| >= MAX_SHELL_COMMANDS }

  /** Where the scan stops, and whether a bound or a dangling escape stopped it. */
  datatype Ending = Ending(scan: Scan, stopped: bool)

  function Run(s: Scan, rest: string): Ending
    decreases |rest|
  {
    if rest == [] then Ending(s, false)
    else if Full(s) || Dangles(s, rest) then Ending(s, true)
    else Run(Step(s, rest), rest[Taken(s, rest)..])
  }

  datatype Parsed = Parsed(commands: seq<Command>, understood: bool)

  function Finish(e: Ending): Parsed {
    Parsed(EndCommand(e.scan).commands,
           !e.stopped && !e.scan.pendingOperator && e.scan.quote == NoQuote && e.scan.depth == 0)
  }

  /** The commands of a shell text whose first line has the given number. */
  function Parse(text: string, firstLine: int): Parsed {
    if |text| > MAX_SHELL_TEXT_CHARS then Parsed([], false) else Finish(Run(Start(firstLine), text))
  }

  /** The scan has come to `index`, or has stopped there, on its way to what the whole text gives. */
  ghost predicate Reached(text: string, firstLine: int, s: Scan, index: nat, stopped: bool) {
    && index <= |text|
    && Run(Start(firstLine), text) == if stopped then Ending(s, true) else Run(s, text[index..])
  }

  lemma ReachedNext(text: string, firstLine: int, s: Scan, index: nat, rest: string)
    requires Reached(text, firstLine, s, index, false) && index < |text| && rest == text[index..]
    requires !Full(s) && !Dangles(s, rest)
    ensures Reached(text, firstLine, Step(s, rest), index + Taken(s, rest), false)
  {
    assert rest[Taken(s, rest)..] == text[index + Taken(s, rest)..];
  }

  lemma ReachedStop(text: string, firstLine: int, s: Scan, index: nat)
    requires Reached(text, firstLine, s, index, false) && index < |text|
    requires Full(s) || Dangles(s, text[index..])
    ensures Reached(text, firstLine, s, index, true)
  {
  }

  // ---- The loop ----------------------------------------------------------

  /** The scanner's variables over one text. */
  class Scanner {
    const text: string
    var index: nat
    var commands: seq<Command>
    var stages: seq<string>
    var stage: string
    var line: int
    var commandLine: Option<int>
    var quote: Quote
    var depth: nat
    var pendingOperator: bool

    constructor (text: string, firstLine: int)
      ensures this.text == text && index == 0 && State() == Start(firstLine)
    {
      this.text := text;
      index, commands, stages, stage := 0, [], [], "";
      line, commandLine := firstLine, None;
      quote, depth, pendingOperator := NoQuote, 0, false;
    }

    ghost function State(): Scan
      reads this
    {
      Scan(commands, stages, stage, line, commandLine, quote, depth, pendingOperator)
    }

    method TakeWord(piece: string)
      modifies this`stage, this`pendingOperator, this`commandLine
      ensures State() == WordStep(old(State()), piece)
    {
      stage := stage + piece;
      pendingOperator := false;
      if commandLine.None? {
        commandLine := Some(line);
      }
    }

    method FinishStage()
      modifies this`stages, this`stage
      ensures State() == EndStage(old(State()))
    {
      stages := stages + [stage];
      stage := "";
    }

    method FinishCommand()
      modifies this`stages, this`stage, this`commands, this`commandLine
      ensures State() == EndCommand(old(State()))
    {
      FinishStage();
      if HasText(stages) {
        commands := commands + [Command(if commandLine.None? then line else commandLine.value, stages)];
      }
      stages := [];
      commandLine := None;
    }

    /** A turn inside quotes, which a backslash leaves alone only in single ones. */
    method QuotedTurn()
      requires index < |text| && quote != NoQuote
      modifies this
      ensures var rest := text[old(index)..];
        State() == QuotedStep(old(State()), rest) && index == old(index) + Taken(old(State()), rest)
    {
      var c := text[index];
      if c == '\n' {
        line := line + 1;
      }
      if c == '\\' && quote != Single && index + 1 < |text| {
        if text[index + 1] == '\n' {
          line := line + 1;
        }
        stage := stage + text[index..index + 2];
        index := index + 2;
        return;
      }
      stage := stage + [c];
      if QuoteOf(c) == quote {
        quote := NoQuote;
      }
      index := index + 1;
    }

    method SkipComment()
      requires index < |text|
      modifies this`index
      ensures index == old(index) + 1 + UntilNewline(text[old(index) + 1..])
    {
      while index + 1 < |text| && text[index + 1] != '\n'
        invariant old(index) <= index < |text|
        invariant old(index) + UntilNewline(text[old(index) + 1..]) == index + UntilNewline(text[index + 1..])
      {
        assert text[index + 1..][1..] == text[index + 2..];
        index := index + 1;
      }
      index := index + 1;
    }

    /** A turn at a backslash outside quotes, which is not the last character. */
    method EscapedTurn()
      requires index + 1 < |text| && quote == NoQuote && text[index] == '\\'
      modifies this
      ensures var rest := text[old(index)..];
        State() == PlainStep(old(State()), rest) && index == old(index) + 2
    {
      if text[index + 1] == '\n' {
        line := line + 1;
      } else {
        TakeWord(text[index..index + 2]);
      }
      index := index + 2;
    }

    /** A turn at an operator. */
    method OperatorTurn()
      requires index < |text| && quote == NoQuote && text[index] in {'|', '&', ';', '\n'}
      modifies this
      ensures var rest := text[old(index)..];
        State() == PlainStep(old(State()), rest) && index == old(index) + Taken(old(State()), rest)
    {
      var c := text[index];
      var doubled := index + 1 < |text| && text[index + 1] == c;
      if c == '|' {
        if doubled {
          FinishCommand();
          index := index + 1;
        } else {
          FinishStage();
        }
        pendingOperator := true;
      } else if c == '&' {
        FinishCommand();
        if doubled {
          index := index + 1;
        }
        pendingOperator := doubled;
      } else if c == ';' {
        FinishCommand();
        pendingOperator := false;
      } else {
        line := line + 1;
        if pendingOperator {
          stage := stage + " ";
        } else {
          FinishCommand();
        }
      }
      index := index + 1;
    }

    /** A turn at any other character outside quotes and comments. */
    method CharacterTurn()
      requires index < |text| && quote == NoQuote && text[index] !in {'\\', '|', '&', ';', '\n'}
      requires !StartsComment(State(), text[index..])
      modifies this
      ensures var rest := text[old(index)..];
        State() == PlainStep(old(State()), rest) && index == old(index) + 1
    {
      var c := text[index];
      if QuoteOf(c) != NoQuote {
        quote := QuoteOf(c);
        TakeWord([c]);
      } else if c == '(' {
        depth := depth + 1;
        TakeWord([c]);
      } else if c == ')' {
        if depth > 0 {
          depth := depth - 1;
        }
        TakeWord([c]);
      } else if IsSpace(c) {
        stage := stage + [c];
      } else {
        TakeWord([c]);
      }
      index := index + 1;
    }

    method Turn()
      requires index < |text| && !Dangles(State(), text[index..])
      modifies this
      ensures var rest := text[old(index)..];
        State() == Step(old(State()), rest) && index == old(index) + Taken(old(State()), rest)
    {
      var c := text[index];
      if quote != NoQuote {
        QuotedTurn();
      } else if c == '\\' {
        EscapedTurn();
      } else if c == '#' && (stage == "" || IsSpace(stage[|stage| - 1])) {
        SkipComment();
      } else if c in {'|', '&', ';', '\n'} {
        OperatorTurn();
      } else {
        CharacterTurn();
      }
    }

    method AtLastEscape() returns (r: bool)
      requires index < |text|
      ensures r == Dangles(State(), text[index..])
    {
      r := quote == NoQuote && text[index] == '\\' && index + 1 == |text|;
      assert r ==> text[index..] == "\\";
    }

    method NextTurn(ghost firstLine: int)
      requires index < |text| && !Full(State()) && !Dangles(State(), text[index..])
      requires Reached(text, firstLine, State(), index, false)
      modifies this
      ensures Reached(text, firstLine, State(), index, false) && old(index) < index
    {
      ReachedNext(text, firstLine, State(), index, text[index..]);
      Turn();
    }

    /** The next turn, unless a bound or a dangling escape stops the scan. */
    method TurnOrStop(ghost firstLine: int) returns (stopped: bool)
      requires index < |text| && Reached(text, firstLine, State(), index, false)
      modifies this
      ensures Reached(text, firstLine, State(), index, stopped)
      ensures if stopped then index == old(index) else old(index) < index
    {
      var dangling := AtLastEscape();
      stopped := |commands| >= MAX_SHELL_COMMANDS || dangling;
      if stopped {
        ReachedStop(text, firstLine, State(), index);
      } else {
        NextTurn(firstLine);
      }
    }

    /** Turns up to the end of the text or to where they stop. */
    method ScanAll(ghost firstLine: int) returns (stopped: bool)
      requires index == 0 && State() == Start(firstLine)
      modifies this
      ensures Ending(State(), stopped) == Run(Start(firstLine), text)
    {
      stopped := false;
      while index < |text| && !stopped
        invariant Reached(text, firstLine, State(), index, stopped)
        decreases |text| - index, !stopped
      {
        stopped := TurnOrStop(firstLine);
      }
    }
  }

  method ParseShellCommands(text: string, firstLine: int) returns (r: Parsed)
    ensures r == Parse(text, firstLine)
  {
    if |text| > MAX_SHELL_TEXT_CHARS {
      return Parsed([], false);
    }
    var scanner := new Scanner(text, firstLine);
    var stopped := scanner.ScanAll(firstLine);
    scanner.FinishCommand();
    var understood := !stopped && !scanner.pendingOperator && scanner.quote == NoQuote && scanner.depth == 0;
    r := Parsed(scanner.commands, understood);
  }
}
