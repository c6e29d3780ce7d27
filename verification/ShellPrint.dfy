/**
 Shell text printed from its commands and read back (scripts/dependency-policy.ts): the scanner
 finds exactly the commands and stages that were written, whatever their quoted words hold.
 */
module ShellPrint {
  import opened JsText
  import opened ShellCommands

  // ---- What is written ---------------------------------------------------

  /** A piece of a stage: white space, a character, an escaped character, or a quoted text. */
  datatype Item = Gap(c: char) | Plain(c: char) | Escaped(c: char) | Quoted(mark: char, body: string)

  type Stage = seq<Item>

  /** What ends a command before the next one; a comment may stand before a line break. */
  datatype Separator = Semicolon | Ampersand | AndAnd | OrOr | LineBreak

  datatype Written = Written(stages: seq<Stage>, comment: string, separator: Separator)

  function ItemText(item: Item): string {
    match item
    case Gap(c) => [c]
    case Plain(c) => [c]
    case Escaped(c) => ['\\', c]
    case Quoted(mark, body) => [mark] + (body + [mark])
  }

  function StageText(stage: Stage): string {
    if stage == [] then "" else StageText(stage[..|stage| - 1]) + ItemText(stage[|stage| - 1])
  }

  function StageTexts(stages: seq<Stage>): seq<string> {
    seq(|stages|, i requires 0 <= i < |stages| => StageText(stages[i]))
  }

  /** Stages with a bar between any two. */
  function Piped(stages: seq<Stage>): string {
    if stages == [] then ""
    else if |stages| == 1 then StageText(stages[0])
    else StageText(stages[0]) + ("|" + Piped(stages[1..]))
  }

  function SeparatorText(separator: Separator): string {
    match separator
    case Semicolon => ";"
    case Ampersand => "&"
    case AndAnd => "&&"
    case OrOr => "||"
    case LineBreak => "\n"
  }

  /** Commands, each but the last followed by its separator, and then whatever follows. */
  function Script(commands: seq<Written>, rest: string): string
    decreases |commands|, 1
  {
    if commands == [] then rest
    else Piped(commands[0].stages) + (commands[0].comment + AfterCommand(commands, rest))
  }

  function AfterCommand(commands: seq<Written>, rest: string): string
    requires commands != []
    decreases |commands|, 0
  {
    if |commands| == 1 then rest
    else SeparatorText(commands[0].separator) + Script(commands[1..], rest)
  }

  // ---- What may be written -----------------------------------------------

  const MARKS := {'\'', '"', '`'}

  const OPERATORS := {'|', '&', ';', '\n'}

  /** Text that a quotation may hold: in single quotes anything but the mark, in others escapes too. */
  predicate BodyOk(mark: char, body: string)
    decreases |body|
  {
    if body == "" then true
    else if body[0] == '\\' && mark != '\'' then |body| >= 2 && BodyOk(mark, body[2..])
    else body[0] != mark && BodyOk(mark, body[1..])
  }

  predicate ItemOk(item: Item) {
    match item
    case Gap(c) => IsSpace(c) && c != '\n'
    case Plain(c) => !IsSpace(c) && c != '\\' && c !in MARKS && c !in OPERATORS
    case Escaped(c) => c != '\n'
    case Quoted(mark, body) => mark in MARKS && BodyOk(mark, body)
  }

  /** A `#` would begin a comment here. */
  predicate AtWordStart(before: string) {
    before == "" || IsSpace(before[|before| - 1])
  }

  predicate ItemFits(stage: Stage, i: nat)
    requires i < |stage|
  {
    ItemOk(stage[i]) && (stage[i] == Plain('#') ==> !AtWordStart(StageText(stage[..i])))
  }

  predicate StageOk(stage: Stage) {
    forall i {:trigger ItemFits(stage, i)} :: 0 <= i < |stage| ==> ItemFits(stage, i)
  }

  predicate HasWord(stage: Stage) {
    exists i :: 0 <= i < |stage| && !stage[i].Gap?
  }

  predicate EndsInGap(stage: Stage) {
    stage != [] && stage[|stage| - 1].Gap?
  }

  /** A comment follows white space and goes up to a line break. */
  predicate CommentOk(w: Written) {
    w.comment == ""
    || (w.comment[0] == '#' && '\n' !in w.comment && w.separator == LineBreak
        && w.stages != [] && EndsInGap(w.stages[|w.stages| - 1]))
  }

  predicate WrittenOk(w: Written) {
    w.stages != [] && CommentOk(w) && forall i :: 0 <= i < |w.stages| ==> StageOk(w.stages[i]) && HasWord(w.stages[i])
  }

  /** The parentheses open after one more item; a closing one without its opening does not count. */
  function DepthWith(item: Item, depth: nat): nat {
    match item
    case Plain(c) => if c == '(' then depth + 1 else if c == ')' && depth > 0 then depth - 1 else depth
    case _ => depth
  }

  function DepthAfter(stage: Stage, depth: nat): nat {
    if stage == [] then depth else DepthWith(stage[|stage| - 1], DepthAfter(stage[..|stage| - 1], depth))
  }

  function DepthOf(stages: seq<Stage>, depth: nat): nat {
    if stages == [] then depth else DepthOf(stages[1..], DepthAfter(stages[0], depth))
  }

  function ScriptDepth(commands: seq<Written>, depth: nat): nat {
    if commands == [] then depth else ScriptDepth(commands[1..], DepthOf(commands[0].stages, depth))
  }

  // ---- Reading -----------------------------------------------------------

  ghost predicate ReadsBefore(s: Scan, text: string, t: Scan, rest: string) {
    Run(s, text + rest) == Run(t, rest)
  }

  /** Whatever follows it, the text takes the scan from `s` to `t`. */
  ghost predicate Reads(s: Scan, text: string, t: Scan) {
    forall rest :: ReadsBefore(s, text, t, rest)
  }

  lemma ReadsBoth(s: Scan, a: string, u: Scan, b: string, t: Scan)
    requires Reads(s, a, u) && Reads(u, b, t)
    ensures Reads(s, a + b, t)
  {
    forall rest ensures ReadsBefore(s, a + b, t, rest) {
      assert ReadsBefore(s, a, u, b + rest) && ReadsBefore(u, b, t, rest);
      assert (a + b) + rest == a + (b + rest);
    }
  }

  /** One turn takes exactly this text, whatever follows it. */
  ghost predicate Takes(s: Scan, text: string) {
    && text != "" && !Full(s) && !Dangles(s, text)
    && forall rest: string {:trigger text + rest} ::
         !Dangles(s, text + rest) && Taken(s, text + rest) == |text| && Step(s, text + rest) == Step(s, text)
  }

  lemma ReadsTurn(s: Scan, text: string)
    requires Takes(s, text)
    ensures Reads(s, text, Step(s, text))
  {
    forall rest: string ensures ReadsBefore(s, text, Step(s, text), rest) {
      assert (text + rest)[|text|..] == rest;
      assert Taken(s, text + rest) == |text|;
    }
  }

  /** From `s` to `t` only the stage grows; the line, and the line of the command, may move. */
  ghost predicate Grown(s: Scan, t: Scan, text: string) {
    t.commands == s.commands && t.stages == s.stages && t.stage == s.stage + text
  }

  lemma GrownBoth(s: Scan, a: string, u: Scan, b: string, t: Scan)
    requires Grown(s, u, a) && Grown(u, t, b)
    ensures Grown(s, t, a + b)
  {
    assert (s.stage + a) + b == s.stage + (a + b);
  }

  // ---- One item ----------------------------------------------------------

  lemma QuotedTurn(s: Scan, text: string)
    requires s.quote != NoQuote && !Full(s)
    requires |text| == (if text != "" && text[0] == '\\' && s.quote != Single then 2 else 1)
    ensures Takes(s, text)
    ensures var t := Step(s, text);
      && Grown(s, t, text) && t.depth == s.depth && t.pendingOperator == s.pendingOperator
      && t.quote == if |text| == 1 && QuoteOf(text[0]) == s.quote then NoQuote else s.quote
  {
    forall rest: string ensures Taken(s, text + rest) == |text| && Step(s, text + rest) == Step(s, text) {
      assert (text + rest)[0] == text[0];
      assert |text| == 2 ==> (text + rest)[..2] == text[..2] && (text + rest)[1] == text[1];
    }
    assert |text| == 1 ==> text == [text[0]];
    assert |text| == 2 ==> text[..2] == text;
  }

  lemma {:induction false} ReadBody(s: Scan, mark: char, body: string) returns (t: Scan)
    requires mark in MARKS && BodyOk(mark, body) && s.quote == QuoteOf(mark) && !Full(s)
    ensures Reads(s, body + [mark], t) && Grown(s, t, body + [mark])
    ensures t.quote == NoQuote && t.depth == s.depth && t.pendingOperator == s.pendingOperator
    decreases |body|
  {
    if body == "" {
      assert body + [mark] == [mark];
      QuotedTurn(s, [mark]);
      ReadsTurn(s, [mark]);
      t := Step(s, [mark]);
    } else {
      var n := if body[0] == '\\' && mark != '\'' then 2 else 1;
      var u := BodyTurn(s, mark, body, n);
      t := ReadBody(u, mark, body[n..]);
      assert body + [mark] == body[..n] + (body[n..] + [mark]);
      ReadsBoth(s, body[..n], u, body[n..] + [mark], t);
      GrownBoth(s, body[..n], u, body[n..] + [mark], t);
    }
  }

  lemma BodyTurn(s: Scan, mark: char, body: string, n: nat) returns (u: Scan)
    requires mark in MARKS && BodyOk(mark, body) && s.quote == QuoteOf(mark) && !Full(s)
    requires body != "" && n == if body[0] == '\\' && mark != '\'' then 2 else 1
    ensures n <= |body| && BodyOk(mark, body[n..])
    ensures Reads(s, body[..n], u) && Grown(s, u, body[..n])
    ensures u.quote == s.quote && u.depth == s.depth && u.pendingOperator == s.pendingOperator
  {
    QuotedTurn(s, body[..n]);
    ReadsTurn(s, body[..n]);
    u := Step(s, body[..n]);
  }

  /** What reading an item from outside quotes gives. */
  ghost predicate ItemRead(s: Scan, item: Item, t: Scan) {
    && Reads(s, ItemText(item), t) && Grown(s, t, ItemText(item))
    && t.quote == NoQuote && t.depth == DepthWith(item, s.depth)
    && t.pendingOperator == (item.Gap? && s.pendingOperator)
  }

  lemma PlainTurn(s: Scan, item: Item)
    requires ItemOk(item) && !item.Quoted? && s.quote == NoQuote && !Full(s)
    requires item == Plain('#') ==> !AtWordStart(s.stage)
    ensures Takes(s, ItemText(item))
    ensures var t := Step(s, ItemText(item));
      && Grown(s, t, ItemText(item)) && t.quote == NoQuote && t.depth == DepthWith(item, s.depth)
      && t.pendingOperator == (item.Gap? && s.pendingOperator)
  {
    var text := ItemText(item);
    forall rest: string
      ensures !Dangles(s, text + rest) && Taken(s, text + rest) == |text| && Step(s, text + rest) == Step(s, text)
    {
      assert (text + rest)[0] == text[0];
      assert |text| == 2 ==> (text + rest)[1] == text[1] && (text + rest)[..2] == text[..2];
    }
    assert |text| == 2 ==> text[..2] == text;
  }

  lemma OpeningTurn(s: Scan, mark: char)
    requires mark in MARKS && s.quote == NoQuote && !Full(s)
    ensures Takes(s, [mark])
    ensures var t := Step(s, [mark]);
      && Grown(s, t, [mark]) && t.quote == QuoteOf(mark) && t.depth == s.depth && !t.pendingOperator
  {
    forall rest: string
      ensures !Dangles(s, [mark] + rest) && Taken(s, [mark] + rest) == 1 && Step(s, [mark] + rest) == Step(s, [mark])
    {
      assert ([mark] + rest)[0] == mark;
    }
  }

  lemma ReadItem(s: Scan, item: Item) returns (t: Scan)
    requires ItemOk(item) && s.quote == NoQuote && !Full(s)
    requires item == Plain('#') ==> !AtWordStart(s.stage)
    ensures ItemRead(s, item, t)
  {
    if item.Quoted? {
      var mark := item.mark;
      OpeningTurn(s, mark);
      ReadsTurn(s, [mark]);
      var u := Step(s, [mark]);
      t := ReadBody(u, mark, item.body);
      ReadsBoth(s, [mark], u, item.body + [mark], t);
      GrownBoth(s, [mark], u, item.body + [mark], t);
    } else {
      PlainTurn(s, item);
      ReadsTurn(s, ItemText(item));
      t := Step(s, ItemText(item));
    }
  }

  // ---- One stage ---------------------------------------------------------

  ghost predicate StageRead(s: Scan, stage: Stage, t: Scan) {
    && Reads(s, StageText(stage), t) && Grown(s, t, StageText(stage))
    && t.quote == NoQuote && t.depth == DepthAfter(stage, s.depth)
    && t.pendingOperator == (!HasWord(stage) && s.pendingOperator)
  }

  lemma {:induction false} ReadStage(s: Scan, stage: Stage) returns (t: Scan)
    requires StageOk(stage) && s.quote == NoQuote && !Full(s) && s.stage == ""
    ensures StageRead(s, stage, t)
    decreases |stage|
  {
    if stage == [] {
      t := s;
      ReadNothing(s);
    } else {
      var front, item := stage[..|stage| - 1], stage[|stage| - 1];
      FrontOk(stage);
      var u := ReadStage(s, front);
      t := ReadLast(s, front, item, u);
      assert stage == front + [item];
    }
  }

  lemma ReadNothing(s: Scan)
    ensures Reads(s, "", s)
  {
    assert forall rest: string :: "" + rest == rest;
  }

  lemma ReadLast(s: Scan, front: Stage, item: Item, u: Scan) returns (t: Scan)
    requires StageRead(s, front, u) && !Full(s) && s.stage == ""
    requires ItemOk(item) && (item == Plain('#') ==> !AtWordStart(StageText(front)))
    ensures StageRead(s, front + [item], t)
  {
    assert u.stage == StageText(front);
    t := ReadItem(u, item);
    StageNext(s, front, u, item, t);
  }

  lemma StageNext(s: Scan, front: Stage, u: Scan, item: Item, t: Scan)
    requires StageRead(s, front, u) && ItemRead(u, item, t)
    ensures StageRead(s, front + [item], t)
  {
    var stage := front + [item];
    assert stage[..|stage| - 1] == front && stage[|stage| - 1] == item;
    ReadsBoth(s, StageText(front), u, ItemText(item), t);
    GrownBoth(s, StageText(front), u, ItemText(item), t);
    HasWordNext(front, item);
  }

  lemma HasWordNext(front: Stage, item: Item)
    ensures HasWord(front + [item]) <==> HasWord(front) || !item.Gap?
  {
    var stage := front + [item];
    assert stage[|front|] == item;
    if i :| 0 <= i < |front| && !front[i].Gap? {
      assert stage[i] == front[i];
    }
  }

  lemma FrontOk(stage: Stage)
    requires StageOk(stage) && stage != []
    ensures var front, item := stage[..|stage| - 1], stage[|stage| - 1];
      StageOk(front) && ItemOk(item) && (item == Plain('#') ==> !AtWordStart(StageText(front)))
  {
    var front := stage[..|stage| - 1];
    assert ItemFits(stage, |stage| - 1);
    forall i | 0 <= i < |front| ensures ItemFits(front, i) {
      assert ItemFits(stage, i);
      assert front[i] == stage[i] && front[..i] == stage[..i];
    }
  }

  // ---- One command -------------------------------------------------------

  /** Text that does not begin with a character that an operator before it could take. */
  predicate StartsApart(text: string) {
    text == "" || (text[0] != '|' && text[0] != '&')
  }

  lemma {:induction false} StageStartsApart(stage: Stage, rest: string)
    requires StageOk(stage) && HasWord(stage)
    ensures StageText(stage) != "" && StartsApart(StageText(stage) + rest)
  {
    var i :| 0 <= i < |stage| && !stage[i].Gap?;
    TextStartsApart(stage);
    assert (StageText(stage) + rest)[0] == StageText(stage)[0];
  }

  lemma {:induction false} TextStartsApart(stage: Stage)
    requires StageOk(stage) && stage != []
    ensures StageText(stage) != "" && StartsApart(StageText(stage))
    decreases |stage|
  {
    var front := stage[..|stage| - 1];
    FrontOk(stage);
    if front != [] {
      TextStartsApart(front);
    }
  }

  predicate StagesOk(stages: seq<Stage>) {
    forall i :: 0 <= i < |stages| ==> StageOk(stages[i]) && HasWord(stages[i])
  }

  lemma PipedStartsApart(stages: seq<Stage>, rest: string)
    requires stages != [] && StagesOk(stages)
    ensures StartsApart(Piped(stages) + rest)
  {
    if |stages| == 1 {
      StageStartsApart(stages[0], rest);
    } else {
      StageStartsApart(stages[0], "|" + (Piped(stages[1..]) + rest));
      PipedSplits(stages, rest);
    }
  }

  lemma BarTurn(s: Scan, rest: string)
    requires s.quote == NoQuote && !Full(s) && StartsApart(rest)
    ensures Run(s, "|" + rest) == Run(EndStage(s).(pendingOperator := true), rest)
  {
    var text := "|" + rest;
    assert text[0] == '|' && text[1..] == rest;
  }

  /** A scan outside quotes at the start of a stage. */
  predicate AtStage(s: Scan) {
    s.quote == NoQuote && s.stage == "" && !Full(s)
  }

  /** What reading a command's stages from `s` gives. */
  ghost predicate PipedRead(s: Scan, stages: seq<Stage>, t: Scan) {
    && t.commands == s.commands && t.stages + [t.stage] == s.stages + StageTexts(stages)
    && t.quote == NoQuote && t.depth == DepthOf(stages, s.depth) && !t.pendingOperator
  }

  lemma {:induction false} ReadPiped(s: Scan, stages: seq<Stage>, rest: string) returns (t: Scan)
    requires stages != [] && StagesOk(stages) && AtStage(s)
    ensures Run(s, Piped(stages) + rest) == Run(t, rest) && PipedRead(s, stages, t)
    decreases |stages|
  {
    var u := ReadStage(s, stages[0]);
    if |stages| == 1 {
      t := u;
      OneStage(s, stages, t);
      assert ReadsBefore(s, StageText(stages[0]), u, rest);
    } else {
      PipedStartsApart(stages[1..], rest);
      PassBar(s, stages, u, rest);
      t := ReadPiped(EndStage(u).(pendingOperator := true), stages[1..], rest);
      StagesNext(s, stages, u, t);
    }
  }

  lemma PassBar(s: Scan, stages: seq<Stage>, u: Scan, rest: string)
    requires |stages| > 1 && StageRead(s, stages[0], u) && !Full(u) && StartsApart(Piped(stages[1..]) + rest)
    ensures Run(s, Piped(stages) + rest)
      == Run(EndStage(u).(pendingOperator := true), Piped(stages[1..]) + rest)
  {
    var next := Piped(stages[1..]) + rest;
    BarTurn(u, next);
    assert ReadsBefore(s, StageText(stages[0]), u, "|" + next);
    PipedSplits(stages, rest);
  }

  lemma OneStage(s: Scan, stages: seq<Stage>, t: Scan)
    requires |stages| == 1 && HasWord(stages[0]) && s.stage == "" && StageRead(s, stages[0], t)
    ensures PipedRead(s, stages, t)
  {
    assert "" + StageText(stages[0]) == StageText(stages[0]);
    assert StageTexts(stages) == [StageText(stages[0])];
    assert DepthOf(stages, s.depth) == DepthOf(stages[1..], DepthAfter(stages[0], s.depth));
  }

  lemma PipedSplits(stages: seq<Stage>, rest: string)
    requires |stages| > 1
    ensures Piped(stages) + rest == StageText(stages[0]) + ("|" + (Piped(stages[1..]) + rest))
  {
  }

  lemma TextsSplit(stages: seq<Stage>)
    requires stages != []
    ensures StageTexts(stages) == [StageText(stages[0])] + StageTexts(stages[1..])
  {
  }

  lemma StagesNext(s: Scan, stages: seq<Stage>, u: Scan, t: Scan)
    requires |stages| > 1 && s.stage == "" && StageRead(s, stages[0], u)
    requires PipedRead(EndStage(u).(pendingOperator := true), stages[1..], t)
    ensures PipedRead(s, stages, t)
  {
    TextsSplit(stages);
    FirstStageText(s, stages[0], u);
    Regroup(s.stages, StageText(stages[0]), StageTexts(stages[1..]));
  }

  lemma FirstStageText(s: Scan, stage: Stage, u: Scan)
    requires s.stage == "" && StageRead(s, stage, u)
    ensures u.stage == StageText(stage) && u.stages == s.stages && u.commands == s.commands
    ensures u.depth == DepthAfter(stage, s.depth)
  {
  }

  lemma Regroup(a: seq<string>, first: string, others: seq<string>)
    ensures (a + [first]) + others == a + ([first] + others)
  {
  }

  // ---- Several commands --------------------------------------------------

  function StagesOf(commands: seq<Command>): seq<seq<string>> {
    seq(|commands|, i requires 0 <= i < |commands| => commands[i].stages)
  }

  function ScriptTexts(commands: seq<Written>): seq<seq<string>> {
    seq(|commands|, i requires 0 <= i < |commands| => StageTexts(commands[i].stages))
  }

  /** The command is complete: its stages are listed, and the next begins. */
  ghost predicate CommandEnded(s: Scan, t: Scan) {
    && StagesOf(t.commands) == StagesOf(s.commands) + [s.stages + [s.stage]]
    && t.stages == [] && t.stage == "" && t.quote == NoQuote && t.depth == s.depth
  }

  lemma CommandEnds(s: Scan)
    requires s.quote == NoQuote && HasText(s.stages + [s.stage])
    ensures CommandEnded(s, EndCommand(s))
  {
    var t := EndCommand(s);
    assert |t.commands| == |s.commands| + 1;
    assert StagesOf(t.commands) == StagesOf(s.commands) + [s.stages + [s.stage]];
  }

  lemma SeparatorTurn(s: Scan, separator: Separator, rest: string) returns (t: Scan)
    requires s.quote == NoQuote && !Full(s) && !s.pendingOperator && StartsApart(rest)
    requires HasText(s.stages + [s.stage])
    ensures Run(s, SeparatorText(separator) + rest) == Run(t, rest)
    ensures CommandEnded(s, t)
  {
    var text := SeparatorText(separator) + rest;
    var n := |SeparatorText(separator)|;
    assert text[0] == SeparatorText(separator)[0] && text[n..] == rest;
    t := Step(s, text);
    assert Taken(s, text) == n;
    if separator == LineBreak {
      CommandEnds(s.(line := s.line + 1));
    } else {
      CommandEnds(s);
    }
  }

  lemma {:induction false} ShowsWord(stage: Stage)
    requires StageOk(stage) && HasWord(stage)
    ensures !Blank(StageText(stage))
    decreases |stage|
  {
    var front, item := stage[..|stage| - 1], stage[|stage| - 1];
    FrontOk(stage);
    HasWordNext(front, item);
    assert stage == front + [item];
    var text := StageText(stage);
    if item.Gap? {
      ShowsWord(front);
      var i :| 0 <= i < |StageText(front)| && !IsSpace(StageText(front)[i]);
      assert text[i] == StageText(front)[i];
    } else {
      assert text[|StageText(front)|] == ItemText(item)[0];
    }
  }

  lemma HasCommandText(s: Scan, stages: seq<Stage>, t: Scan)
    requires stages != [] && StagesOk(stages) && PipedRead(s, stages, t)
    ensures HasText(t.stages + [t.stage])
  {
    var all := t.stages + [t.stage];
    var k := |s.stages|;
    assert all[k] == (s.stages + StageTexts(stages))[k] == StageText(stages[0]);
    ShowsWord(stages[0]);
  }

  predicate ScriptOk(commands: seq<Written>) {
    forall i :: 0 <= i < |commands| ==> WrittenOk(commands[i])
  }

  /** What reading the rest of a script from `s` gives. */
  ghost predicate ScriptRead(s: Scan, commands: seq<Written>, t: Scan) {
    && StagesOf(EndCommand(t).commands) == StagesOf(s.commands) + ScriptTexts(commands)
    && t.quote == NoQuote && t.depth == ScriptDepth(commands, s.depth) && !t.pendingOperator
  }

  lemma ScriptStartsApart(commands: seq<Written>, rest: string)
    requires commands != [] && ScriptOk(commands)
    ensures StartsApart(Script(commands, rest))
  {
    PipedStartsApart(commands[0].stages, commands[0].comment + AfterCommand(commands, rest));
  }

  /** Text that may follow a command, with its comment if it has one. */
  predicate MayFollow(w: Written, rest: string) {
    w.comment != "" ==> rest == "" || rest[0] == '\n'
  }

  lemma {:induction false} UntilNewlineIs(body: string, rest: string)
    requires '\n' !in body && (rest == "" || rest[0] == '\n')
    ensures UntilNewline(body + rest) == |body|
  {
    if body == "" {
      assert body + rest == rest;
    } else {
      assert (body + rest)[1..] == body[1..] + rest && (body + rest)[0] == body[0];
      UntilNewlineIs(body[1..], rest);
    }
  }

  lemma CommentTurn(s: Scan, comment: string, rest: string)
    requires s.quote == NoQuote && !Full(s) && s.stage != "" && IsSpace(s.stage[|s.stage| - 1])
    requires comment != "" && comment[0] == '#' && '\n' !in comment && (rest == "" || rest[0] == '\n')
    ensures Run(s, comment + rest) == Run(s, rest)
  {
    var text := comment + rest;
    UntilNewlineIs(comment[1..], rest);
    assert text[0] == '#' && text[1..] == comment[1..] + rest && text[|comment|..] == rest;
  }

  lemma LastStageText(s: Scan, w: Written, t: Scan)
    requires WrittenOk(w) && PipedRead(s, w.stages, t) && w.comment != ""
    ensures t.stage != "" && IsSpace(t.stage[|t.stage| - 1])
  {
    LastSame(t.stages, t.stage, s.stages, StageTexts(w.stages));
    GapEndsText(w.stages[|w.stages| - 1]);
  }

  lemma LastSame(a: seq<string>, x: string, b: seq<string>, c: seq<string>)
    requires a + [x] == b + c && c != []
    ensures x == c[|c| - 1]
  {
    assert (a + [x])[|a|] == (b + c)[|a|];
  }

  lemma GapEndsText(stage: Stage)
    requires StageOk(stage) && EndsInGap(stage)
    ensures var text := StageText(stage); text != "" && IsSpace(text[|text| - 1])
  {
    FrontOk(stage);
  }

  /** The stages of a command, and its comment. */
  lemma ReadCommand(s: Scan, w: Written, rest: string) returns (t: Scan)
    requires WrittenOk(w) && AtStage(s) && MayFollow(w, rest)
    ensures Run(s, Piped(w.stages) + (w.comment + rest)) == Run(t, rest) && PipedRead(s, w.stages, t)
  {
    t := ReadPiped(s, w.stages, w.comment + rest);
    if w.comment != "" {
      LastStageText(s, w, t);
      CommentTurn(t, w.comment, rest);
    } else {
      assert w.comment + rest == rest;
    }
  }

  lemma {:induction false} ReadScript(s: Scan, commands: seq<Written>, rest: string) returns (t: Scan)
    requires commands != [] && ScriptOk(commands) && AtStage(s) && s.stages == []
    requires |s.commands| + |commands| <= MAX_SHELL_COMMANDS && MayFollow(commands[|commands| - 1], rest)
    ensures Run(s, Script(commands, rest)) == Run(t, rest) && ScriptRead(s, commands, t) && !Full(t)
    decreases |commands|
  {
    var w := commands[0];
    var next := AfterCommand(commands, rest);
    NextMayFollow(commands, rest);
    var u := ReadCommand(s, w, next);
    if |commands| == 1 {
      t := u;
      LastCommand(s, commands, t);
    } else {
      ScriptStartsApart(commands[1..], rest);
      var v := NextCommand(s, w, u, Script(commands[1..], rest));
      t := ReadScript(v, commands[1..], rest);
      CommandsNext(s, commands, v, t);
    }
  }

  lemma NextMayFollow(commands: seq<Written>, rest: string)
    requires commands != [] && ScriptOk(commands) && MayFollow(commands[|commands| - 1], rest)
    ensures MayFollow(commands[0], AfterCommand(commands, rest))
  {
    if |commands| > 1 {
      var separator := commands[0].separator;
      assert CommentOk(commands[0]);
      assert AfterCommand(commands, rest)[0] == SeparatorText(separator)[0];
    }
  }

  lemma LastCommand(s: Scan, commands: seq<Written>, t: Scan)
    requires |commands| == 1 && WrittenOk(commands[0]) && s.stages == [] && PipedRead(s, commands[0].stages, t)
    ensures ScriptRead(s, commands, t)
  {
    HasCommandText(s, commands[0].stages, t);
    CommandEnds(t);
    assert ScriptTexts(commands) == [StageTexts(commands[0].stages)];
    assert [] + StageTexts(commands[0].stages) == StageTexts(commands[0].stages);
    assert ScriptDepth(commands, s.depth) == ScriptDepth(commands[1..], DepthOf(commands[0].stages, s.depth));
  }

  /** The next command begins where this one's separator ended. */
  ghost predicate NextBegins(s: Scan, w: Written, v: Scan) {
    && StagesOf(v.commands) == StagesOf(s.commands) + [StageTexts(w.stages)]
    && v.stages == [] && v.stage == "" && v.quote == NoQuote && v.depth == DepthOf(w.stages, s.depth)
  }

  lemma NextCommand(s: Scan, w: Written, u: Scan, rest: string) returns (v: Scan)
    requires WrittenOk(w) && s.stages == [] && PipedRead(s, w.stages, u) && !Full(u) && StartsApart(rest)
    ensures Run(u, SeparatorText(w.separator) + rest) == Run(v, rest)
    ensures NextBegins(s, w, v) && |v.commands| == |s.commands| + 1
  {
    HasCommandText(s, w.stages, u);
    v := SeparatorTurn(u, w.separator, rest);
    assert [] + StageTexts(w.stages) == StageTexts(w.stages);
    assert |StagesOf(v.commands)| == |v.commands|;
  }

  lemma CommandsNext(s: Scan, commands: seq<Written>, v: Scan, t: Scan)
    requires |commands| > 1 && NextBegins(s, commands[0], v) && ScriptRead(v, commands[1..], t)
    ensures ScriptRead(s, commands, t)
  {
    var first, others := StageTexts(commands[0].stages), ScriptTexts(commands[1..]);
    assert ScriptTexts(commands) == [first] + others;
    assert (StagesOf(s.commands) + [first]) + others == StagesOf(s.commands) + ([first] + others);
  }

  /**
   Any commands, written out with bars between their stages and separators between them, are read
   back as exactly those commands with exactly those stages, whatever operators their quoted and
   escaped characters and their comments are; and they are understood exactly when no parenthesis
   is left open.
   */
  lemma ScriptIsReadBack(commands: seq<Written>, firstLine: int)
    requires ScriptOk(commands) && |commands| <= MAX_SHELL_COMMANDS && |Script(commands, "")| <= MAX_SHELL_TEXT_CHARS
    ensures var parsed := Parse(Script(commands, ""), firstLine);
      && StagesOf(parsed.commands) == ScriptTexts(commands)
      && (parsed.understood <==> ScriptDepth(commands, 0) == 0)
  {
    var s := Start(firstLine);
    if commands == [] {
      assert Blank("");
    } else {
      var t := ReadScript(s, commands, "");
      assert StagesOf(s.commands) == [];
    }
  }

  // ---- Text that breaks off ----------------------------------------------

  /** A quotation without its closing mark, a lone backslash, or an operator that needs another command. */
  predicate BreaksOff(tail: string) {
    || (tail != "" && tail[0] in MARKS && BodyOk(tail[0], tail[1..]))
    || tail == "\\"
  }

  lemma {:induction false} ReadOpenBody(s: Scan, mark: char, body: string) returns (t: Scan)
    requires mark in MARKS && BodyOk(mark, body) && s.quote == QuoteOf(mark) && !Full(s)
    ensures Run(s, body) == Ending(t, false) && t.quote != NoQuote
    decreases |body|
  {
    if body == "" {
      t := s;
    } else {
      var n := if body[0] == '\\' && mark != '\'' then 2 else 1;
      var u := BodyTurn(s, mark, body, n);
      t := ReadOpenBody(u, mark, body[n..]);
      assert body == body[..n] + body[n..];
      assert ReadsBefore(s, body[..n], u, body[n..]);
    }
  }

  /** A script that breaks off is not taken for understood. */
  lemma BrokenOffIsNotUnderstood(commands: seq<Written>, tail: string, firstLine: int)
    requires commands != [] && ScriptOk(commands) && |commands| <= MAX_SHELL_COMMANDS && BreaksOff(tail)
    requires commands[|commands| - 1].comment == "" && |Script(commands, tail)| <= MAX_SHELL_TEXT_CHARS
    ensures !Parse(Script(commands, tail), firstLine).understood
  {
    var t := ReadScript(Start(firstLine), commands, tail);
    TailStaysOpen(t, tail);
  }

  lemma TailStaysOpen(s: Scan, tail: string)
    requires s.quote == NoQuote && !Full(s) && BreaksOff(tail)
    ensures Run(s, tail).stopped || Run(s, tail).scan.quote != NoQuote
  {
    if tail != "\\" {
      var mark, body := tail[0], tail[1..];
      OpeningTurn(s, mark);
      ReadsTurn(s, [mark]);
      assert tail == [mark] + body;
      assert ReadsBefore(s, [mark], Step(s, [mark]), body);
      var u := ReadOpenBody(Step(s, [mark]), mark, body);
    }
  }

  /** Nor is one that ends in an operator that another command or stage has to follow. */
  lemma OpenOperatorIsNotUnderstood(commands: seq<Written>, operator: string, firstLine: int)
    requires commands != [] && ScriptOk(commands) && |commands| <= MAX_SHELL_COMMANDS
    requires operator in ["|", "||", "&&"] && commands[|commands| - 1].comment == ""
    requires |Script(commands, operator)| <= MAX_SHELL_TEXT_CHARS
    ensures !Parse(Script(commands, operator), firstLine).understood
  {
    var t := ReadScript(Start(firstLine), commands, operator);
    OperatorLast(t, operator);
  }

  lemma OperatorLast(s: Scan, operator: string)
    requires s.quote == NoQuote && !Full(s) && operator in ["|", "||", "&&"]
    ensures Run(s, operator).scan.pendingOperator
  {
    assert operator[Taken(s, operator)..] == "";
    assert Run(s, operator) == Run(Step(s, operator), "");
  }

  lemma {:induction false} ReadPastBound(s: Scan, commands: seq<Written>)
    requires commands != [] && ScriptOk(commands) && AtStage(s) && s.stages == []
    requires |s.commands| + |commands| > MAX_SHELL_COMMANDS
    ensures Run(s, Script(commands, "")).stopped
    decreases |commands|
  {
    var w, rest := commands[0], Script(commands[1..], "");
    var next := AfterCommand(commands, "");
    NextMayFollow(commands, "");
    var u := ReadCommand(s, w, next);
    ScriptStartsApart(commands[1..], "");
    var v := NextCommand(s, w, u, rest);
    if Full(v) {
      ScriptIsText(commands[1..], "");
    } else {
      ReadPastBound(v, commands[1..]);
    }
  }

  lemma ScriptIsText(commands: seq<Written>, rest: string)
    requires commands != [] && ScriptOk(commands)
    ensures Script(commands, rest) != ""
  {
    var stages := commands[0].stages;
    StageStartsApart(stages[0], "");
  }

  /** More commands than the scanner keeps are not taken for understood. */
  lemma TooManyIsNotUnderstood(commands: seq<Written>, firstLine: int)
    requires ScriptOk(commands) && |commands| > MAX_SHELL_COMMANDS
    ensures !Parse(Script(commands, ""), firstLine).understood
  {
    ReadPastBound(Start(firstLine), commands);
  }
}
