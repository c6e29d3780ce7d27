/**
 The pipe-to-shell rule (scripts/dependency-policy.ts): a command is refused when one stage
 fetches and a later stage's command word is a shell.
 */
module PipeToShell {
  import opened ShellCommands
  import opened ShellRewrap
  import opened JsText

  const SHELL_COMMANDS := {"sh", "bash", "zsh", "dash", "ksh", "ash"}

  const COMMAND_WRAPPERS := {"sudo", "doas", "env", "command", "exec", "nohup", "time", "xargs"}

  predicate IsWordChar(c: char) {
    'a' <= c <= 'z' || 'A' <= c <= 'Z' || '0' <= c <= '9' || c == '_'
  }

  /** `word` stands in `s` at `i`, with no word character on either side. */
  predicate WordAt(s: string, word: string, i: nat) {
    && i + |word| <= |s| && s[i..i + |word|] == word
    && (i > 0 ==> !IsWordChar(s[i - 1]))
    && (i + |word| < |s| ==> !IsWordChar(s[i + |word|]))
  }

  predicate Fetches(stage: string) {
    exists i :: 0 <= i <= |stage| && (WordAt(stage, "curl", i) || WordAt(stage, "wget", i))
  }

  // ---- The command word of a stage ---------------------------------------

  /** The leading run of characters that are, or are not, white space. */
  function SpaceRun(s: string): (n: nat)
    ensures n <= |s| && Blank(s[..n]) && (n < |s| ==> !IsSpace(s[n]))
  {
    if s == [] || !IsSpace(s[0]) then 0 else 1 + SpaceRun(s[1..])
  }

  function TokenRun(s: string): (n: nat)
    ensures n <= |s| && (s != [] && !IsSpace(s[0]) ==> n > 0)
    ensures forall i :: 0 <= i < n ==> !IsSpace(s[i])
  {
    if s == [] || IsSpace(s[0]) then 0 else 1 + TokenRun(s[1..])
  }

  /** The words of a stage. */
  function Tokens(s: string): seq<string>
    decreases |s|
  {
    var t := s[SpaceRun(s)..];
    if t == [] then [] else [t[..TokenRun(t)]] + Tokens(t[TokenRun(t)..])
  }

  /** A word without its quotes and backslashes. */
  function Bare(token: string): (r: string)
    ensures forall c :: c in r ==> c != '"' && c != '\'' && c != '\\'
  {
    if token == [] then []
    else if token[0] == '"' || token[0] == '\'' || token[0] == '\\' then Bare(token[1..])
    else [token[0]] + Bare(token[1..])
  }

  function NameRun(s: string): nat {
    if s == [] || !IsWordChar(s[0]) then 0 else 1 + NameRun(s[1..])
  }

  lemma {:induction false} NameRunBound(s: string)
    ensures NameRun(s) <= |s|
  {
    if s != [] {
      NameRunBound(s[1..]);
    }
  }

  /** An environment assignment, `NAME=...`. */
  predicate IsAssignment(s: string) {
    && s != [] && IsWordChar(s[0]) && !('0' <= s[0] <= '9')
    && NameRun(s) < |s| && s[NameRun(s)] == '='
  }

  /** The part after the last slash. */
  function Basename(s: string): string {
    if s == [] then []
    else if '/' in s then Basename(s[1..]) else s
  }

  /** The word is stepped over: empty, an assignment, an option or a wrapper. */
  predicate Skipped(token: string) {
    var bare := Bare(token);
    bare == "" || IsAssignment(bare) || bare[0] == '-' || Basename(bare) in COMMAND_WRAPPERS
  }

  /** The command word among the tokens of a stage. */
  function CommandWord(tokens: seq<string>): Option<string> {
    if tokens == [] then None
    else if Skipped(tokens[0]) then CommandWord(tokens[1..])
    else Some(Basename(Bare(tokens[0])))
  }

  /** The first word that is not stepped over, at `k`, names the command. */
  ghost predicate NamedAt(tokens: seq<string>, k: nat, name: string) {
    && k < |tokens| && !Skipped(tokens[k]) && name == Basename(Bare(tokens[k]))
    && forall j :: 0 <= j < k ==> Skipped(tokens[j])
  }

  method StageCommand(stage: string) returns (r: Option<string>)
    ensures r == CommandWord(Tokens(stage))
    ensures r.Some? ==> exists k :: NamedAt(Tokens(stage), k, r.value)
    ensures r.None? ==> forall j :: 0 <= j < |Tokens(stage)| ==> Skipped(Tokens(stage)[j])
  {
    var tokens := Tokens(stage);
    for i := 0 to |tokens|
      invariant CommandWord(tokens) == CommandWord(tokens[i..])
      invariant forall j :: 0 <= j < i ==> Skipped(tokens[j])
    {
      assert tokens[i..][1..] == tokens[i + 1..];
      var bare := Bare(tokens[i]);
      if bare == "" || IsAssignment(bare) || bare[0] == '-' {
        continue;
      }
      var name := Basename(bare);
      if name in COMMAND_WRAPPERS {
        continue;
      }
      assert NamedAt(tokens, i, name);
      return Some(name);
    }
    return None;
  }

  predicate RunsShell(stage: string) {
    var name := CommandWord(Tokens(stage));
    name.Some? && name.value in SHELL_COMMANDS
  }

  /** Stage `j` runs a shell on what an earlier stage fetched. */
  ghost predicate Fed(stages: seq<string>, j: nat)
    requires j <= |stages|
  {
    exists i :: 0 <= i < j && Fetches(stages[i])
  }

  ghost predicate FeedsShell(stages: seq<string>, j: nat) {
    j < |stages| && Fed(stages, j) && RunsShell(stages[j])
  }

  /** Some stage fetches and a later one runs a shell. */
  ghost predicate FetchIntoShell(stages: seq<string>) {
    exists j :: FeedsShell(stages, j)
  }

  method PipesFetchIntoShell(command: Command) returns (r: bool)
    ensures r <==> FetchIntoShell(command.stages)
  {
    var fetched := false;
    for j := 0 to |command.stages|
      invariant fetched <==> Fed(command.stages, j)
      invariant forall k :: 0 <= k < j ==> !FeedsShell(command.stages, k)
    {
      if fetched {
        var name := StageCommand(command.stages[j]);
        if name.Some? && name.value in SHELL_COMMANDS {
          assert FeedsShell(command.stages, j);
          return true;
        }
      }
      if Fetches(command.stages[j]) {
        fetched := true;
      }
    }
    return false;
  }

  /** The same verdict for each command of the two readings. */
  ghost predicate SameVerdicts(p: Parsed, q: Parsed) {
    && |p.commands| == |q.commands| && p.understood == q.understood
    && forall i :: 0 <= i < |p.commands| ==>
      (FetchIntoShell(p.commands[i].stages) <==> FetchIntoShell(q.commands[i].stages))
  }

  /** Wrapping a command over another line cannot hide a download piped into a shell, nor invent one. */
  lemma RewrappingKeepsVerdicts(a: string, b: string, firstLine: int)
    requires ScanTo(Start(firstLine), a, b).At? && ScanTo(Start(firstLine), a, b).scan.quote == NoQuote
    requires |a + b| + 2 <= MAX_SHELL_TEXT_CHARS && !Full(ScanTo(Start(firstLine), a, b).scan)
    ensures SameVerdicts(Parse(a + b, firstLine), Parse(a + (CONTINUATION + b), firstLine))
  {
    ContinuationKeepsCommands(a, b, firstLine);
  }

  /** Nor can breaking the line after an operator. */
  lemma BreakingAfterOperatorKeepsVerdicts(a: string, b: string, firstLine: int)
    requires ScanTo(Start(firstLine), a, " " + b).At?
    requires ScanTo(Start(firstLine), a, " " + b).scan.quote == NoQuote
    requires ScanTo(Start(firstLine), a, " " + b).scan.pendingOperator
    requires |a + b| + 1 <= MAX_SHELL_TEXT_CHARS
    ensures SameVerdicts(Parse(a + (" " + b), firstLine), Parse(a + ("\n" + b), firstLine))
  {
    NewlineAfterOperatorKeepsCommands(a, b, firstLine);
  }
}
