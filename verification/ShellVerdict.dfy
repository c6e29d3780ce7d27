/**
 The pipe-to-shell rule on written scripts (scripts/dependency-policy.ts): which words a stage
 holds, which of them is its command, and that a download piped into a shell is reported.
 */
module ShellVerdict {
  import opened JsText
  import opened PipeToShell
  import opened ShellCommands
  import opened ShellPrint

  // ---- The words of a stage ----------------------------------------------

  /** A word and the white space before it. */
  datatype Spaced = Spaced(gap: string, word: string)

  predicate IsWord(s: string) {
    s != "" && forall i :: 0 <= i < |s| ==> !IsSpace(s[i])
  }

  function Joined(words: seq<Spaced>, tail: string): string {
    if words == [] then tail else words[0].gap + (words[0].word + Joined(words[1..], tail))
  }

  predicate Stands(words: seq<Spaced>, i: nat)
    requires i < |words|
  {
    IsWord(words[i].word) && Blank(words[i].gap) && (i > 0 ==> words[i].gap != "")
  }

  predicate SpacedOk(words: seq<Spaced>, tail: string) {
    Blank(tail) && forall i {:trigger Stands(words, i)} :: 0 <= i < |words| ==> Stands(words, i)
  }

  function WordsOf(words: seq<Spaced>): seq<string> {
    seq(|words|, i requires 0 <= i < |words| => words[i].word)
  }

  lemma {:induction false} SpaceRunIs(gap: string, rest: string)
    requires Blank(gap) && (rest == "" || !IsSpace(rest[0]))
    ensures SpaceRun(gap + rest) == |gap|
  {
    if gap != "" {
      assert (gap + rest)[1..] == gap[1..] + rest && (gap + rest)[0] == gap[0];
      SpaceRunIs(gap[1..], rest);
    } else {
      assert gap + rest == rest;
    }
  }

  lemma {:induction false} TokenRunIs(word: string, rest: string)
    requires (forall i :: 0 <= i < |word| ==> !IsSpace(word[i])) && (rest == "" || IsSpace(rest[0]))
    ensures TokenRun(word + rest) == |word|
  {
    if word != "" {
      assert (word + rest)[1..] == word[1..] + rest && (word + rest)[0] == word[0];
      TokenRunIs(word[1..], rest);
    } else {
      assert word + rest == rest;
    }
  }

  lemma FirstToken(gap: string, word: string, rest: string)
    requires Blank(gap) && IsWord(word) && (rest == "" || IsSpace(rest[0]))
    ensures Tokens(gap + (word + rest)) == [word] + Tokens(rest)
  {
    var s, t := gap + (word + rest), word + rest;
    assert t[0] == word[0];
    SpaceRunIs(gap, t);
    assert s[|gap|..] == t;
    TokenRunIs(word, rest);
    assert t[..|word|] == word && t[|word|..] == rest;
  }

  lemma RestStartsWithSpace(words: seq<Spaced>, tail: string)
    requires SpacedOk(words, tail) && words != []
    ensures SpacedOk(words[1..], tail) && IsWord(words[0].word) && Blank(words[0].gap)
    ensures Joined(words[1..], tail) != "" ==> IsSpace(Joined(words[1..], tail)[0])
  {
    assert Stands(words, 0);
    forall i | 0 <= i < |words[1..]| ensures Stands(words[1..], i) {
      assert Stands(words, i + 1);
    }
    if |words| > 1 {
      assert Stands(words, 1);
      assert Joined(words[1..], tail)[0] == words[1].gap[0];
    }
  }

  /** Words with white space around them are read back as those words. */
  lemma {:induction false} TokensOfWords(words: seq<Spaced>, tail: string)
    requires SpacedOk(words, tail)
    ensures Tokens(Joined(words, tail)) == WordsOf(words)
    decreases |words|
  {
    if words == [] {
      NoTokens(tail);
    } else {
      RestStartsWithSpace(words, tail);
      TokensOfWords(words[1..], tail);
      TokensNext(words, Joined(words[1..], tail));
    }
  }

  lemma TokensNext(words: seq<Spaced>, rest: string)
    requires words != [] && IsWord(words[0].word) && Blank(words[0].gap) && (rest == "" || IsSpace(rest[0]))
    requires Tokens(rest) == WordsOf(words[1..])
    ensures Tokens(words[0].gap + (words[0].word + rest)) == WordsOf(words)
  {
    FirstToken(words[0].gap, words[0].word, rest);
    FirstWord(words);
  }

  lemma FirstWord(words: seq<Spaced>)
    requires words != []
    ensures WordsOf(words) == [words[0].word] + WordsOf(words[1..])
  {
  }

  lemma NoTokens(tail: string)
    requires Blank(tail)
    ensures Tokens(tail) == []
  {
    assert tail + "" == tail;
    SpaceRunIs(tail, "");
  }

  // ---- The name in a word ------------------------------------------------

  lemma {:induction false} BasenameIs(path: string)
    ensures '/' !in Basename(path)
    ensures |Basename(path)| <= |path| && path[|path| - |Basename(path)|..] == Basename(path)
    ensures |Basename(path)| < |path| ==> path[|path| - |Basename(path)| - 1] == '/'
  {
    if '/' in path {
      BasenameIs(path[1..]);
      if '/' in path[1..] {
      } else {
        assert path[0] == '/';
      }
    }
  }

  /** The name of a command: what follows the last slash of its path. */
  lemma {:induction false} BasenameFollowsSlash(dir: string, name: string)
    requires '/' !in name && (dir == "" || dir[|dir| - 1] == '/')
    ensures Basename(dir + name) == name
  {
    if dir == "" {
      assert dir + name == name;
    } else {
      assert (dir + name)[|dir| - 1] == '/';
      assert (dir + name)[1..] == dir[1..] + name;
      BasenameFollowsSlash(dir[1..], name);
    }
  }

  predicate IsMark(c: char) { c == '"' || c == '\'' || c == '\\' }

  lemma {:induction false} BareJoins(a: string, b: string)
    ensures Bare(a + b) == Bare(a) + Bare(b)
  {
    if a == "" {
      assert a + b == b;
    } else {
      assert (a + b)[1..] == a[1..] + b && (a + b)[0] == a[0];
      BareJoins(a[1..], b);
    }
  }

  /** Quotes and backslashes are dropped from a word, wherever they stand, and nothing else is. */
  lemma BareDropsMark(a: string, c: char, b: string)
    ensures Bare(a + ([c] + b)) == if IsMark(c) then Bare(a + b) else Bare(a) + ([c] + Bare(b))
  {
    BareJoins(a, [c] + b);
    BareJoins([c], b);
    BareJoins(a, b);
    assert [c][1..] == "";
  }

  lemma {:induction false} BareIsSame(s: string)
    requires forall i :: 0 <= i < |s| ==> !IsMark(s[i])
    ensures Bare(s) == s
  {
    if s != "" {
      BareIsSame(s[1..]);
    }
  }

  lemma {:induction false} NameRunIs(s: string, n: nat)
    requires n <= |s| && (forall i :: 0 <= i < n ==> IsWordChar(s[i])) && (n < |s| ==> !IsWordChar(s[n]))
    ensures NameRun(s) == n
  {
    if n > 0 {
      NameRunIs(s[1..], n - 1);
    }
  }

  /** A word is stepped over as an assignment exactly when a name and an equals sign begin it. */
  lemma AssignmentIff(s: string)
    ensures IsAssignment(s) <==>
      exists n :: 0 < n < |s| && s[n] == '=' && AllWordChars(s, n) && !('0' <= s[0] <= '9')
  {
    if n :| 0 < n < |s| && s[n] == '=' && AllWordChars(s, n) && !('0' <= s[0] <= '9') {
      NameRunIs(s, n);
    }
    if IsAssignment(s) {
      NameRunSpans(s);
    }
  }

  predicate AllWordChars(s: string, n: nat)
    requires n <= |s|
  {
    forall i :: 0 <= i < n ==> IsWordChar(s[i])
  }

  lemma {:induction false} NameRunSpans(s: string)
    ensures NameRun(s) <= |s| && AllWordChars(s, NameRun(s))
  {
    if s != "" && IsWordChar(s[0]) {
      NameRunSpans(s[1..]);
    }
  }

  /** What is stepped over: a word of marks alone, an assignment, an option, and what runs another command. */
  lemma SkippedIff(word: string)
    ensures Skipped(word) <==>
      || (forall i :: 0 <= i < |word| ==> IsMark(word[i]))
      || (Bare(word) != "" && Bare(word)[0] == '-')
      || (exists n :: 0 < n < |Bare(word)| && Bare(word)[n] == '=' && AllWordChars(Bare(word), n)
                      && !('0' <= Bare(word)[0] <= '9'))
      || Basename(Bare(word)) in ["sudo", "doas", "env", "command", "exec", "nohup", "time", "xargs"]
  {
    AssignmentIff(Bare(word));
    BareIsEmpty(word);
    assert COMMAND_WRAPPERS == set w | w in ["sudo", "doas", "env", "command", "exec", "nohup", "time", "xargs"];
  }

  lemma {:induction false} BareIsEmpty(word: string)
    ensures Bare(word) == "" <==> forall i :: 0 <= i < |word| ==> IsMark(word[i])
  {
    if word != "" && IsMark(word[0]) {
      BareIsEmpty(word[1..]);
      assert forall i :: 1 <= i < |word| ==> word[i] == word[1..][i - 1];
    }
  }

  /** A stage fetches exactly when `curl` or `wget` stands in it as a word, in quotes and paths too. */
  lemma FetchesIff(stage: string)
    ensures Fetches(stage) <==> exists a, word, b :: FetchedBy(stage, a, word, b)
  {
    if Fetches(stage) {
      var i :| 0 <= i <= |stage| && (WordAt(stage, "curl", i) || WordAt(stage, "wget", i));
      FoundWord(stage, if WordAt(stage, "curl", i) then "curl" else "wget", i);
    }
    if a, word, b :| FetchedBy(stage, a, word, b) {
      PlacedWord(stage, a, word, b);
    }
  }

  lemma FoundWord(stage: string, word: string, i: nat)
    requires WordAt(stage, word, i) && word in ["curl", "wget"]
    ensures FetchedBy(stage, stage[..i], word, stage[i + |word|..])
  {
  }

  lemma PlacedWord(stage: string, a: string, word: string, b: string)
    requires FetchedBy(stage, a, word, b)
    ensures WordAt(stage, word, |a|) && |a| <= |stage|
  {
    assert stage[|a|..|a| + |word|] == word;
  }

  /** The word stands between these two texts, neither of which a word character of its own joins to it. */
  ghost predicate FetchedBy(stage: string, a: string, word: string, b: string) {
    && stage == a + (word + b) && word in ["curl", "wget"]
    && (a != "" ==> !IsWordChar(a[|a| - 1])) && (b != "" ==> !IsWordChar(b[0]))
  }

  // ---- The rule on a script ----------------------------------------------

  const SHELLS := ["sh", "bash", "zsh", "dash", "ksh", "ash"]

  lemma ShellIsCommand(word: string, dir: string, name: string)
    requires Bare(word) == dir + name && name in SHELLS
    requires dir == "" || (dir[0] == '/' && dir[|dir| - 1] == '/')
    ensures !Skipped(word) && Basename(Bare(word)) == name
  {
    var bare := Bare(word);
    ShellIsPlain(name);
    BasenameFollowsSlash(dir, name);
    assert bare[0] == if dir == "" then name[0] else '/';
    if dir == "" {
      assert bare == name;
      NameRunIs(bare, |bare|);
    }
  }

  lemma ShellIsPlain(name: string)
    requires name in SHELLS
    ensures name != "" && name !in COMMAND_WRAPPERS && name in SHELL_COMMANDS
    ensures forall i :: 0 <= i < |name| ==> 'a' <= name[i] <= 'z'
  {
    assert |"command"| == 7 && |"xargs"| == 5 && |"doas"| == 4 && |"sudo"| == 4;
  }

  /** A stage whose words are some stepped over and then a shell runs a shell. */
  lemma RunsShellOf(words: seq<Spaced>, tail: string, k: nat, dir: string, name: string)
    requires SpacedOk(words, tail) && k < |words| && forall j :: 0 <= j < k ==> Skipped(words[j].word)
    requires Bare(words[k].word) == dir + name && name in SHELLS
    requires dir == "" || (dir[0] == '/' && dir[|dir| - 1] == '/')
    ensures RunsShell(Joined(words, tail))
  {
    TokensOfWords(words, tail);
    ShellIsCommand(words[k].word, dir, name);
    ShellIsPlain(name);
    CommandWordIs(WordsOf(words), k);
  }

  lemma {:induction false} CommandWordIs(tokens: seq<string>, k: nat)
    requires k < |tokens| && !Skipped(tokens[k]) && forall j :: 0 <= j < k ==> Skipped(tokens[j])
    ensures CommandWord(tokens) == Some(Basename(Bare(tokens[k])))
  {
    if k > 0 {
      assert tokens[1..][k - 1] == tokens[k];
      CommandWordIs(tokens[1..], k - 1);
    }
  }

  /** The rule's verdict on each command of a written script is its verdict on the stages as written. */
  lemma ScriptVerdicts(commands: seq<Written>, firstLine: int)
    requires ScriptOk(commands) && |commands| <= MAX_SHELL_COMMANDS && |Script(commands, "")| <= MAX_SHELL_TEXT_CHARS
    ensures var parsed := Parse(Script(commands, ""), firstLine);
      && |parsed.commands| == |commands|
      && forall k :: 0 <= k < |commands| ==>
           (FetchIntoShell(parsed.commands[k].stages) <==> FetchIntoShell(StageTexts(commands[k].stages)))
  {
    var parsed := Parse(Script(commands, ""), firstLine);
    ScriptIsReadBack(commands, firstLine);
    assert |StagesOf(parsed.commands)| == |ScriptTexts(commands)|;
    forall k | 0 <= k < |commands| ensures parsed.commands[k].stages == StageTexts(commands[k].stages) {
      assert StagesOf(parsed.commands)[k] == ScriptTexts(commands)[k];
    }
  }

  /**
   A written command that fetches in one stage and runs a shell in a later one, under any path,
   quoting and words to step over, is reported, wherever it stands in its script.
   */
  lemma DownloadIntoShellIsReported(commands: seq<Written>, firstLine: int, c: nat, i: nat, j: nat,
      words: seq<Spaced>, tail: string, k: nat, dir: string, name: string)
    requires ScriptOk(commands) && |commands| <= MAX_SHELL_COMMANDS && |Script(commands, "")| <= MAX_SHELL_TEXT_CHARS
    requires c < |commands| && i < j < |commands[c].stages|
    requires Fetches(StageText(commands[c].stages[i])) && StageText(commands[c].stages[j]) == Joined(words, tail)
    requires SpacedOk(words, tail) && k < |words| && forall q :: 0 <= q < k ==> Skipped(words[q].word)
    requires Bare(words[k].word) == dir + name && name in SHELLS
    requires dir == "" || (dir[0] == '/' && dir[|dir| - 1] == '/')
    ensures var parsed := Parse(Script(commands, ""), firstLine);
      |parsed.commands| == |commands| && FetchIntoShell(parsed.commands[c].stages)
  {
    ScriptVerdicts(commands, firstLine);
    RunsShellOf(words, tail, k, dir, name);
    var stages := StageTexts(commands[c].stages);
    assert stages[i] == StageText(commands[c].stages[i]) && stages[j] == StageText(commands[c].stages[j]);
    assert Fed(stages, j) && FeedsShell(stages, j);
  }
}
