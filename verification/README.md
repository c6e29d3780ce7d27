# Verified models of the gate tooling

A repository that lets changes in through gates depends on the gates being right. This project
models the algorithms of that tooling in Dafny and proves what they are for: that an import graph
stays acyclic over every chain of merges, that a crashed test run's leftovers are cleaned up
without stopping anybody else's processes, that a diff is read back as exactly the lines it adds,
that two documents share a digest text exactly when they are the same document, and so on.

Each module models one component. Where the program keeps variables and updates them in loops, so
do the methods here, and each is proved against a specification that is stated on values; the
lemmas then say what that specification means. `dafny verify dfyconfig.toml` checks everything.

| files | component |
|---|---|
| `Digraph`, `Tarjan`, `ImportCycles`, `Sorting` | strongly connected components and the edges on import cycles |
| `ArchRatchet` | the allow-list, the baseline comparison, and both over a history of commits |
| `LaneSystem`, `LaneInvariant`, `LaneRecovery`, `LaneLoss`, `LaneTeardown`, `LaneRuns`, `OrphanStopped`, `StalePartial` | lane records and the recovery of orphaned process groups, as a step system |
| `GateStatus`, `GateRun` | the composed status, the lane loop and the exit code |
| `HunkHeader`, `AddedLines`, `DiffRoundTrip`, `DiffContext`, `Decimal` | the parser for added lines of two-way and combined diffs |
| `CanonicalJson`, `ReceiptSize`, `ReceiptBytes`, `FalseRefusal`, `Receipt`, `ReceiptCases` | canonical JSON, the bounded size walk and the receipt rules |
| `ShellCommands`, `ShellPrint`, `ShellRewrap`, `PipeToShell`, `ShellVerdict` | the shell-command scanner and the download-into-shell rule |
| `DomainScan`, `DomainWindow` | the linear domain scan and the e-mail rule |
| `CountRatchet` | the exact reference-count list, against the tree, the base and a history |
| `SizeTokenizer`, `SizeLexer`, `TokenText`, `LostLines`, `FunctionSpans` | the tokenizer and the function spans of the size report |
| `ErasedSpans` | what type stripping erased, and the line of an offset |
| `EnumValues` | the values of an enum column type |
| `JsText` | white space and the option type |

Main results: `Tarjan.StronglyConnected`, `ImportCycles.CycleComponents` and
`ArchRatchet.HistoryStaysAcyclic`; `LaneRecovery.SignalsOnlyOrphans`,
`LaneRecovery.OrphansAreSignalled`, `LaneTeardown.TornDownBeforeRemoval` and
`LaneLoss.LostIffFinishedMeanwhile`; `DiffRoundTrip.DiffParsesToInsertions`,
`DiffRoundTrip.CombinedHunk` and `DiffContext.CountedHunk`; `CanonicalJson.CanonicalIffSame`,
`FalseRefusal.WronglyRefusedIff`, `FalseRefusal.FindingsTipTheEstimate`,
`Receipt.AcceptedChecksPassed` and `ReceiptCases.AcceptedIff`; `ShellPrint.ScriptIsReadBack`,
`ShellVerdict.DownloadIntoShellIsReported`, `ShellRewrap.ContinuationKeepsCommands` and
`ShellRewrap.CommandLinesAreCounted`; `DomainScan.DomainAfter`, `DomainWindow.WindowAgreesIff` and
`DomainWindow.HiddenIff`; `GateRun.RunGate` and `GateRun.ChecksFromTurns`;
`CountRatchet.CountsOnlyShrink` and `CountRatchet.RisesGiveDifferentWords`;
`SizeTokenizer.TokenLines`, `LostLines.LineRightUnlessLost` and `FunctionSpans.FunctionSpansOf`;
`ErasedSpans.SpansUnique`; `EnumValues.WrittenIsRead`.

## Where a comment says more than the code does

- `scripts/assurance-receipt.ts:381-387` says the size estimate never exceeds the real length, so
  refusing on it is sound. It can exceed it: every scalar that is not a string is charged 8.
  `FalseRefusal.WronglyRefusedIff` says exactly when a value is refused although it fits,
  `FalseRefusal.SoundOnLongScalars` and `FalseRefusal.MarginIsSound` when refusing is sound, and
  `FalseRefusal.FindingsTipTheEstimate` turns any receipt with room for 256 findings into one that
  is refused although it fits.
- `scripts/aggregate-test-gate.ts:600-603` says a concurrent recovery never drops a record that is
  only partly written. One that takes longer to write than the age limit, is judged stale and is
  finished before the removal is dropped although its gate runs: `StalePartial.StalePartialIsLost`.
  `LaneLoss.LostIffFinishedMeanwhile` says that a removal loses a live record exactly then, and
  `LaneLoss.NothingLostUnlessJudgedStale` that a gate which judged no partial record stale loses none.
- `scripts/public-safety-scan.ts:117-121` says the 256-character window hides no deliverable
  address. The pattern's final lookahead reads the cut as the end of the text, so a label cut by
  the window may end a match that the whole line does not have. `DomainWindow.HiddenIff` says that
  an address at an unreserved domain of at most 255 characters goes unreported exactly when that
  happens and the cut label, with the one before it, is reserved; `DomainWindow.InventedIff` says
  the same of addresses reported only because of the cut, `DomainWindow.LineHiddenIff` of whole
  lines, and `DomainWindow.WindowHidesAddress` gives a line whose address, at a domain of eight
  characters, goes unreported. `DomainWindow.WindowAgreesIff` says exactly when the window and the
  whole line give the same domain.
- `scripts/arch-imports-size.ts:118-122` calls the tokenizer exact about strings and regexes. Its
  line does not count a newline that ends an unterminated string or stands in a regex.
  `SizeTokenizer.TokenLines` gives every token's line for every input, with those newlines
  subtracted; `LostLines.LineRightUnlessLost` says exactly when a line is right, and
  `LostLines.UnterminatedStringLosesALine` gives a source where one is not.

## Model

| member | source | states |
|---|---|---|
| Tarjan.StronglyConnected | scripts/arch-imports.ts:217-256 | For every graph: the components partition exactly the nodes reachable from the given ones, each is one whole class of mutually reachable nodes, members ascend and components are ordered by first member |
| Tarjan.Walker.Visit | scripts/arch-imports.ts:227-250 | The recursive visit keeps the index, low-link and stack invariant, reaches everything its node reaches and pops only whole components; terminates over the unvisited nodes |
| Tarjan.Walker.PopComponentOf | scripts/arch-imports.ts:241-249 | Pops exactly the stack above and including the root, appends it sorted, and leaves the rest of the state |
| Tarjan.TopIsComponent | scripts/arch-imports.ts:241-249 | When a node's low-link equals its index, what lies from it to the top of the stack is one whole strongly connected component |
| Digraph.SharedComponentIffMutual | scripts/arch-imports.ts:216-220 | In such a partition two nodes share a component exactly when each reaches the other |
| Digraph.PartitionUnique | scripts/arch-imports.ts:216-220 | The specification determines the components: any two partitions over the same roots have the same classes |
| ImportCycles.CycleComponents | scripts/arch-imports.ts:445-470 | An edge key is listed exactly when some edge with that key, among what the modules reach, has a target that reaches its source, self-loops included; with all edges between listed modules the result is empty exactly when a topological order exists |
| ImportCycles.AcyclicIffRanked | scripts/arch-imports.ts:445-470 | No edge lies on a cycle exactly when the modules can be ranked so that every edge descends |
| ImportCycles.EdgeKeysDiffer | scripts/arch-imports.ts:212-214 | Different edges have different keys, as long as no path that an edge leaves from holds a `>` |
| ArchRatchet.ValidateAllowList | scripts/arch-imports.ts:393-443 | No error exactly when every entry is complete, names only edges that occur and lie on a cycle, points at a test that exists, and has a name of its own |
| ArchRatchet.Analyze | scripts/arch-imports.ts:474-667 | `added` and `stale` are exactly the two differences between present violations and the baseline, and the analysis is clean exactly when they agree and the allow-list holds |
| ArchRatchet.RecordedIff | scripts/arch-imports.ts:380-391 | The texts compared are exactly those of every list of a baseline, each under its own heading |
| ArchRatchet.PassingAllowList | scripts/arch-imports.ts:393-443 | In a commit that passes, every allow-list entry has a name of its own, a justification, a test that exists, and edges, all of them on a cycle |
| ArchRatchet.ArchEntries | scripts/ratchet-base.ts:143-154 | The keys are exactly those of the lists' items, each with the kind of the last list that holds it |
| ArchRatchet.ArchBaselineGrowth | scripts/ratchet-base.ts:156-168 | One error for each entry the base lacks, naming exactly the kinds of these; so no error exactly when every entry of the current baseline is at the base |
| ArchRatchet.BaselineStaysEmpty | scripts/ratchet-base.ts:17-18 | Over every chain of gated commits an empty baseline stays empty |
| ArchRatchet.HistoryStaysAcyclic | scripts/arch-imports.ts:499-519 | From an empty baseline, at every commit of a gated chain, each edge on an import cycle is named in the allow-list; with no allow-list the graph has a topological order |
| LaneRecovery.RecoverVerdict | scripts/aggregate-test-gate.ts:516-531 | A verdict of recover means that a listed member of the group carries the token and that no listed gate has the recorded pid |
| LaneRecovery.VerdictIff | scripts/aggregate-test-gate.ts:516-531 | For every listing: gate-alive exactly when the recorded pid runs a gate, whoever else may have it now; otherwise recover exactly when a member of the group carries the token; otherwise drop |
| LaneInvariant.StepInv | scripts/aggregate-test-gate.ts:533-613 | Every step of forking, dying, starting a gate, writing, renaming, removing, listing, judging and signalling keeps the system invariant, with pids and group ids reused freely |
| LaneRecovery.SignalsOnlyOrphans | scripts/aggregate-test-gate.ts:533-580 | In every run, whenever a gate is about to signal a recorded group: at its listing a member carried the token, the recording gate was gone, and every process then in the group descended from that lane |
| LaneRecovery.OrphansAreSignalled | scripts/aggregate-test-gate.ts:568-577 | In every run, judging a record whose group holds the token's carrier and whose pid, reused or not, runs no gate leads to signalling that record |
| LaneRecovery.OthersAreLeftOrRemoved | scripts/aggregate-test-gate.ts:558-579 | In every run, the record of a running gate is left, one whose group is gone is removed, an unparsed partial file is left until it is old, and any other unparsed file is removed |
| LaneRecovery.RenamePublishes | scripts/aggregate-test-gate.ts:600-609 | In every run, renaming puts the lane's whole record in place and leaves no partial one |
| LaneRecovery.EndTakesRecord | scripts/aggregate-test-gate.ts:1317-1321 | In every run, a lane that ends takes away its own record if it was put in place, and no other file |
| OrphanStopped.OrphanIsStopped | scripts/aggregate-test-gate.ts:549-580 | That step does occur: a reachable state in which a gate is about to signal the group of a lane whose own gate died |
| LaneRecovery.RemovesNoLiveRecord | scripts/aggregate-test-gate.ts:549-580 | In every run, a removal takes away a usable record of a gate alive at the listing or now only when it was a partial file that did not parse when read |
| LaneTeardown.TornDownBeforeRemoval | scripts/aggregate-test-gate.ts:568-579 | In every run, a gate that removes a record with the verdict recover has signalled that very record since its last read: no orphan's record is dropped without its group being torn down |
| LaneLoss.LostIffFinishedMeanwhile | scripts/aggregate-test-gate.ts:549-613 | In every run, a removal loses a live gate's record exactly when the file is a partial one that did not parse when last read, is still there, and its gate finished writing it between that read and the removal |
| LaneLoss.NothingLostUnlessJudgedStale | scripts/aggregate-test-gate.ts:560-567 | A gate that judged no unparsed partial file stale loses no live record |
| StalePartial.StalePartialIsLost | scripts/aggregate-test-gate.ts:560-567 | That exception occurs: a reachable state in which a running gate's finished record is about to be removed |
| GateStatus.ComposeGateStatus | scripts/aggregate-test-gate.ts:1124-1169 | Each reported or required id is listed once, sorted, with the worst result reported for it or skipped; interrupted exactly when some lane was, pass exactly when all passed and every required id was reported |
| GateStatus.ReadsWorst | scripts/aggregate-test-gate.ts:1129-1143 | A reported check reads fail when some outcome for it failed; otherwise unavailable, then interrupted, when some is; skipped when some is and the others passed; pass exactly when every outcome for it passed |
| GateStatus.OrderDoesNotMatter | scripts/aggregate-test-gate.ts:1136-1149 | The same outcomes in any order compose to the same status |
| GateRun.RunLanes | scripts/aggregate-test-gate.ts:1183-1333 | The lane loop's outcomes, failed labels and exit code for every way its lanes may end, with the lanes after a cut left skipped |
| GateRun.RunGate | scripts/aggregate-test-gate.ts:1171-1333 | Returns zero exactly when every lane passed, every required id was reported and nothing cut the run; otherwise the first failed lane's code, otherwise the interruption's code, otherwise one; and the status is the composed one, to which the lanes' own ids, required when none are given, add nothing |
| GateRun.ChecksFromTurns | scripts/aggregate-test-gate.ts:1183-1319 | What the status reads for a check from how its lanes ended: fail, unavailable or interrupted by the worst of them, and pass exactly when every lane of the check ran and ended with zero |
| GateRun.FailureIsReported | scripts/aggregate-test-gate.ts:1189-1196 | Every failed lane's label is listed, its check reads unavailable or fail, and the status is not a pass |
| HunkHeader.MatchIffGrammar | scripts/release-range.ts:180-185 | A line is matched as a given header exactly when it starts with that header's text, for any number of parents |
| AddedLines.ParseAddedLines | scripts/release-range.ts:233-262 | The line loop gives the lines of the parse specification, from the hunk state and not the prefix |
| AddedLines.SplitJoined | scripts/release-range.ts:236 | Joining lines with newlines and splitting gives the lines back |
| DiffRoundTrip.ReadHunk | scripts/release-range.ts:237-257 | One printed two-way hunk gives exactly its inserted lines, whatever they contain, and leaves no hunk open |
| DiffRoundTrip.DiffParsesToInsertions | scripts/release-range.ts:221-262 | For every edit script of every file, printed as zero-context hunks with file headers and notes, the parser returns exactly the inserted lines with their numbers |
| DiffRoundTrip.InsertedExact | scripts/release-range.ts:221-222 | A line is reported with a number exactly when the new file holds it, inserted, at that position |
| DiffRoundTrip.InsertedIncreasing | scripts/release-range.ts:221-222 | Reported numbers strictly increase |
| DiffRoundTrip.CombinedHunk | scripts/release-range.ts:229-257 | For any number of parents a combined hunk gives exactly the rows every parent marks added, numbered among the rows of the merged file, and ends at the first line that is no marker row |
| DiffContext.CountedHunk | scripts/release-range.ts:208-257 | A two-way hunk whose header counts its rows, with context and notes, gives exactly the rows marked added, numbered among added and context rows, and ends after the last row counted |
| DiffRoundTrip.HeaderIsNoRow | scripts/release-range.ts:195-198 | A hunk header is never a marker row or a note, so ending a combined hunk swallows no header |
| CanonicalJson.StringRoundTrip | scripts/assurance-receipt.ts:431-443 | A quoted string reads back as itself, and reading stops at its closing quote whatever follows |
| CanonicalJson.CanonicalSeparable | scripts/assurance-receipt.ts:431-443 | Two canonical texts followed by text that ends a value agree only when both parts agree: the form is readable in one way |
| CanonicalJson.CanonicalIffSame | scripts/assurance-receipt.ts:429-443 | Two values have one canonical text exactly when they are equal up to the order of object keys |
| CanonicalJson.DigestCovers | scripts/assurance-receipt.ts:454-458 | Without the digest field, two receipts are hashed over the same text exactly when they agree on everything else |
| CanonicalJson.CanonicalInjective | scripts/dependency-policy.ts:1002-1006 | Any change of a value changes the text the manifest digest covers |
| CanonicalJson.KeysAscend | scripts/assurance-receipt.ts:434-441 | A canonical object is printed from its fields with keys that ascend by code unit |
| CanonicalJson.NumberIsDecimal | scripts/assurance-receipt.ts:431-443 | A number is written with a minus sign when negative and the decimal digits of its size, the first not zero |
| CanonicalJson.CanonicalSigns | scripts/assurance-receipt.ts:431-443 | Arrays, objects and entries are made of their parts with the brackets, braces and colon of JSON |
| ReceiptSize.MeasureStructure | scripts/assurance-receipt.ts:388-422 | The walk updates the budget exactly as its specification says, with the early exits |
| ReceiptSize.WalkExact | scripts/assurance-receipt.ts:388-422 | It ends with no flag exactly when the value is within the depth bound and its estimate within the size bound, and the total is then the estimate |
| ReceiptSize.FlatStaysFlat | scripts/assurance-receipt.ts:394-397 | Only a value nested too deeply raises the depth flag |
| ReceiptSize.WorkIsBounded | scripts/assurance-receipt.ts:381-386 | Whatever the value, at most 32 775 nodes are looked at before the walk stops |
| ReceiptBytes.CanonicalSize | scripts/assurance-receipt.ts:445-452 | The real size of a canonical text is the sum of its parts' costs in UTF-8, and its surrogates are paired |
| ReceiptBytes.EstimateAgainstSize | scripts/assurance-receipt.ts:381-387 | The estimate is at most the real length exactly when the scalars' overcharge does not exceed the strings' undercharge; never more than 7 above it per scalar that is not a string |
| ReceiptBytes.AcceptedSize | scripts/assurance-receipt.ts:381-422 | A walk with no flag means nesting of at most 6 and a total within 7 per non-string scalar of the real length |
| FalseRefusal.RefusedIff | scripts/assurance-receipt.ts:388-422 | A value within the depth bound is refused exactly when its estimate passes the bound |
| FalseRefusal.WronglyRefusedIff | scripts/assurance-receipt.ts:381-387 | And although it fits exactly when the excess is positive and at most the overcharge of its scalars less the undercharge of its strings |
| FalseRefusal.SoundOnLongScalars | scripts/assurance-receipt.ts:381-387 | If every scalar is a string or at least eight characters long, the estimate is at most the real length and no refusal is wrong, at any depth |
| FalseRefusal.MarginIsSound | scripts/assurance-receipt.ts:381-387 | A value whose estimate passes the bound by more than seven for each scalar that is not a string really is too long |
| FalseRefusal.FindingsTipTheEstimate | scripts/assurance-receipt.ts:381-422 | For any other fields that leave room, some class name of at most 228 letters makes a receipt of 256 one-digit findings that is refused although it fits |
| Receipt.CheckEntryViolations | scripts/assurance-receipt.ts:471-537 | A bucket has no violation exactly when its entries are acceptable, the occurrences tally all buckets so far, and the flags say what its required entries reported |
| Receipt.ValidateReceipt | scripts/assurance-receipt.ts:719-973 | For the checks, decision and independence rules: no violation exactly when the receipt is accepted by their meaning |
| Receipt.AcceptedChecksPassed | scripts/assurance-receipt.ts:794-839 | An accepted required-checks receipt with any decision but block or unknown has each of the eleven ids exactly once over all buckets, and there as a required, executed pass |
| Receipt.AcceptedIndependence | scripts/assurance-receipt.ts:920-940 | An accepted claim of independence has a supporting observer and two resolved, different model families |
| Receipt.RequiredIndependenceIsAchieved | scripts/assurance-receipt.ts:965-973 | An accepted receipt that requires independence, with any decision but needs-approval, block or unknown, has the status independent, a supporting observer and two families that resolve to different models |
| ReceiptCases.AcceptedIff | scripts/assurance-receipt.ts:719-973 | Under the required-checks policy, every check run to one result and two named families: accepted exactly when decision, result, claim, observer, requirement and bypass reference fit together |
| ReceiptCases.ExecutedIff | scripts/assurance-receipt.ts:471-537 | An entry that ran is acceptable exactly with a known id, one of three results, a flag and at most a bounded evidence reference, and nothing else |
| ReceiptCases.GapIff | scripts/assurance-receipt.ts:471-537 | An entry that did not run is acceptable exactly with a known id, a bounded reason and a flag, and nothing else |
| ReceiptCases.CanonicalFamilyIff | scripts/assurance-receipt.ts:186-195 | A family name is canonical exactly when it is one to 64 characters of lower-case alphanumeric parts joined by single hyphens |
| ShellCommands.ParseShellCommands | scripts/dependency-policy.ts:339-481 | The loop over the text computes the commands and the verdict of the turn-by-turn specification, bounds and dangling escapes included |
| ShellPrint.ScriptIsReadBack | scripts/dependency-policy.ts:339-481 | Any commands, written with bars between their stages and `;`, `&`, `&&`, `\|\|` or line breaks between them, with quoted and escaped operators, comments and parentheses, are read back as exactly those commands and stages, understood exactly when no parenthesis is left open |
| ShellPrint.BrokenOffIsNotUnderstood | scripts/dependency-policy.ts:393-397 | A script that ends inside a quotation or in a lone backslash is not taken for understood |
| ShellPrint.OpenOperatorIsNotUnderstood | scripts/dependency-policy.ts:438-458 | Nor is one that ends in an operator which another stage or command has to follow |
| ShellPrint.TooManyIsNotUnderstood | scripts/dependency-policy.ts:374-377 | Nor is one with more than 2 000 commands |
| ShellRewrap.PairBoundary | scripts/dependency-policy.ts:383-466 | The only places inside a turn are just after a backslash, a `\|` or a `&` |
| ShellRewrap.ContinuationKeepsCommands | scripts/dependency-policy.ts:326-332 | A backslash and a newline inserted outside quotes and comments change no command's stages and not whether the text was understood, and move exactly the later commands down one line |
| ShellRewrap.NewlineAfterOperatorKeepsCommands | scripts/dependency-policy.ts:464-470 | After `\|`, `\|\|` or `&&` a newline in place of a space changes no stages and no verdict, and moves exactly the later commands down one line |
| ShellRewrap.CommandLinesAreCounted | scripts/dependency-policy.ts:312-373 | Every command is reported on the first line plus the newlines before its first word |
| PipeToShell.StageCommand | scripts/dependency-policy.ts:483-500 | The command is the first word that is no assignment, option or wrapper, bare and without its directory, and there is none when every word is stepped over |
| ShellVerdict.TokensOfWords | scripts/dependency-policy.ts:489 | Words with white space around them are read back as those words |
| ShellVerdict.BasenameFollowsSlash | scripts/dependency-policy.ts:495 | The name in a path is what follows its last slash |
| ShellVerdict.BareDropsMark | scripts/dependency-policy.ts:491 | Quotes and backslashes are dropped from a word wherever they stand, and nothing else is |
| ShellVerdict.SkippedIff | scripts/dependency-policy.ts:129-138 | A word is stepped over exactly when it is marks alone, an assignment, an option or one of eight wrappers |
| ShellVerdict.FetchesIff | scripts/dependency-policy.ts:114 | A stage fetches exactly when `curl` or `wget` stands in it as a word |
| PipeToShell.PipesFetchIntoShell | scripts/dependency-policy.ts:502-514 | True exactly when some stage fetches and a later one's command is a shell |
| ShellVerdict.ScriptVerdicts | scripts/dependency-policy.ts:339-514 | The verdict on each command of a written script is the verdict on its stages as written |
| ShellVerdict.DownloadIntoShellIsReported | scripts/dependency-policy.ts:502-514 | A written command that fetches in one stage and runs a shell in a later one, under any path, quoting and words to step over, is reported wherever it stands |
| PipeToShell.RewrappingKeepsVerdicts | scripts/dependency-policy.ts:326-337 | Wrapping a command with a continuation neither hides a download piped into a shell nor invents one |
| PipeToShell.BreakingAfterOperatorKeepsVerdicts | scripts/dependency-policy.ts:326-337 | Nor does breaking the line after an operator |
| DomainScan.MatchesAreEnds | scripts/public-safety-scan.ts:114-116 | The pattern's matches are exactly the label ends after the first whose label is a top-level domain |
| DomainScan.DomainAfter | scripts/public-safety-scan.ts:114-147 | Gives the longest match of the pattern on the line cut at the window, or nothing when none exists, and looks at at most 1 284 characters |
| DomainScan.AllowedByLastLabels | scripts/public-safety-scan.ts:82-95 | Only the last label, or the last two, reserve a domain, in any letter case |
| DomainScan.ReservedDomains | scripts/public-safety-scan.ts:82-95 | A domain is reserved exactly under four top-level domains, or as `example` under three |
| DomainScan.CaseDoesNotMatter | scripts/public-safety-scan.ts:90-95 | Two domains that differ in letter case alone are reserved alike |
| DomainScan.HasDisallowedEmail | scripts/public-safety-scan.ts:149-159 | True exactly when some `@` after a local-part character is followed by a domain that is not reserved |
| DomainWindow.WindowAgreesIff | scripts/public-safety-scan.ts:117-121 | Window and whole line give the same domain exactly when the line ends within the window, or no label that is a top-level domain ends past it and the window cuts no label into one |
| DomainWindow.VerdictByLabels | scripts/public-safety-scan.ts:90-95 | On a line cut anywhere, the longest match is an unreserved domain exactly when its last top-level label and the label before it are not reserved |
| DomainWindow.CutDecides | scripts/public-safety-scan.ts:122-147 | Unless a top-level label ends past the window, the verdict is that of the whole line, or, where the window cuts a label into a top-level domain, that of the cut label and the one before it |
| DomainWindow.HiddenIff | scripts/public-safety-scan.ts:117-121 | An address whose domain on the whole line is unreserved and at most 255 long goes unreported exactly when the window cuts a label into a top-level domain that is reserved with the label before it |
| DomainWindow.InventedIff | scripts/public-safety-scan.ts:117-121 | An address with no domain on the whole line, or a reserved one at most 255 long, is reported exactly when the window cuts a label into a top-level domain that is not reserved with the label before it |
| DomainWindow.LineHiddenIff | scripts/public-safety-scan.ts:149-159 | A line with a deliverable, unreserved address goes unreported exactly when the cut hides one of its addresses and, by their labels, the others are to be spared |
| DomainWindow.WindowHidesAddress | scripts/public-safety-scan.ts:117-121 | A line whose address the pattern finds at an unreserved domain of eight characters and the window reports nothing for |
| CountRatchet.RuntimeNeutralViolations | scripts/runtime-neutral.ts:56-106 | Reports exactly the malformed and repeated entries, the files without an entry, above it or below it, and the entries without references |
| CountRatchet.PassesIffExact | scripts/runtime-neutral.ts:51-55 | Nothing is reported exactly when every file's count is its entry's count, zero without an entry |
| CountRatchet.ViolationsSay | scripts/runtime-neutral.ts:84-106 | A file is reported as new, grown or dropped exactly when it has no entry, a larger count or a smaller one |
| CountRatchet.PassingEntries | scripts/runtime-neutral.ts:56-82 | In a commit that passes, every entry names a file with references once, gives their number and says why |
| CountRatchet.Growth | scripts/ratchet-base.ts:67-95 | Errors are exactly the entries that rose without a new reason, and accepted exactly those that rose with one |
| CountRatchet.NeutralGrowth | scripts/ratchet-base.ts:67-134 | On the raw lists: an entry is accepted exactly when its count grew and its reason is in words the base does not give for that path, and an error exactly when it grew without |
| CountRatchet.RisesIffAccepted | scripts/ratchet-base.ts:10-19 | Between two passing commits a file's count rises exactly when the later one gives its entry a new reason |
| CountRatchet.CountsOnlyShrink | scripts/ratchet-base.ts:10-19 | Over every history that passes, deletion and return included, a file's final count is at most its first unless some step accepted a growth of it |
| CountRatchet.RiseGivesFreshWords | scripts/ratchet-base.ts:10-19 | Between two passing commits a rise gives non-blank words that the earlier entry did not |
| CountRatchet.RisesGiveDifferentWords | scripts/ratchet-base.ts:10-19 | Two rises in a row over a gated history give different reasons, so an old reason never allows growth again |
| SizeTokenizer.EveryStepOk | scripts/arch-imports-size.ts:126-267 | After every number of steps on every input the template stack strictly increases below the brace depth, and token lines never decrease |
| SizeTokenizer.StepCounts | scripts/arch-imports-size.ts:126-267 | A step advances, and its line by the newlines it passes, less those of an unterminated string or in a regex |
| SizeTokenizer.TokenLines | scripts/arch-imports-size.ts:126-267 | Every token's line is one more than the newlines before its first character, less the newlines lost before it |
| SizeLexer.Tokenize | scripts/arch-imports-size.ts:79-267 | The loop on the tokenizer's variables gives the tokens of the step specification, with lines that start at one and never decrease |
| TokenText.WordIsWhole | scripts/arch-imports-size.ts:206-219 | A name or a number is the whole run of its characters in the source |
| TokenText.PunctIsText | scripts/arch-imports-size.ts:246-254 | Wherever `...`, `=>`, `++` or `--` begins, it is one token with that text |
| TokenText.SlashDivides | scripts/arch-imports-size.ts:57-71 | After a name, a literal or a closing bracket a slash is a punctuator |
| TokenText.SlashBeginsRegex | scripts/arch-imports-size.ts:57-71 | At the start, and where an expression has to follow, it begins a regex |
| TokenText.ClassHoldsSlash | scripts/arch-imports-size.ts:98-118 | A slash in a character class does not end a regex |
| TokenText.BraceOpens | scripts/arch-imports-size.ts:46-55 | A brace is remembered as opening a block or an object by what stands before it |
| LostLines.LineRightIff | scripts/arch-imports-size.ts:126-267 | A token's line is that of its first character exactly when no newline was lost before it |
| LostLines.LineRightUnlessLost | scripts/arch-imports-size.ts:79-113 | And that is so exactly when no step before it reads a string that a newline ends or a regex with a newline in it |
| LostLines.UnterminatedStringLosesALine | scripts/arch-imports-size.ts:79-96 | After an unterminated string on the first line a name on the second is given line one |
| FunctionSpans.MatchingForward | scripts/arch-imports-size.ts:291-303 | The first token at which openings and closings balance, or the last token when none does |
| FunctionSpans.MatchOfIff | scripts/arch-imports-size.ts:291-303 | The specification of a match and the balance condition determine the same token |
| FunctionSpans.BodiesNest | scripts/arch-imports-size.ts:291-303 | Two matched bodies are apart or the later one lies within the earlier, even when braces are unmatched |
| FunctionSpans.FunctionSpansOf | scripts/arch-imports-size.ts:421-485 | The spans' bodies are exactly those some token leads to, each once, with the name and the starting line that the first such token gives; they nest or are apart, end on the line of the closing token and not before they start, and come by starting line |
| FunctionSpans.ControlLeadsNowhere | scripts/arch-imports-size.ts:288-290 | The parenthesis after a control keyword leads to no function |
| FunctionSpans.DeclarationLeads | scripts/arch-imports-size.ts:441-482 | `function f(...) {` leads to a function named f, which starts at its name |
| FunctionSpans.MethodLeads | scripts/arch-imports-size.ts:455-475 | So does a method after a brace, a semicolon or a modifier |
| ErasedSpans.ErasedSpans | scripts/arch-imports-parse.ts:98-123 | The spans are in order with a kept, non-blank, non-comment character between any two, begin and end on changed offsets, hold no such character, and cover every change |
| ErasedSpans.SpansOnText | scripts/arch-imports-parse.ts:98-123 | On the text: the spans hold every change, begin and end on one, hold no kept code, and have kept code between any two |
| ErasedSpans.SpansUnique | scripts/arch-imports-parse.ts:98-123 | These requirements leave exactly one list of spans |
| ErasedSpans.CollectStarts | scripts/arch-imports-parse.ts:125-129 | The loop gives the offsets where the lines start |
| ErasedSpans.LineIndex.LineOf | scripts/arch-imports-parse.ts:125-140 | The binary search gives, for every offset, one more than the newlines before it |
| EnumValues.EnumValues | schema/introspect.ts:97-107 | The loop over matches gives the literals of the text between the parentheses, or nothing for another type |
| EnumValues.BodyEndIsLongest | schema/introspect.ts:102-103 | Where a literal is closed is the longest way the pattern can match, and there is none exactly when it cannot |
| EnumValues.WrittenIsRead | schema/introspect.ts:97-107 | Every list of values, written with doubled quotes, is read back as itself |

## Left out

- Starting processes, delivering signals, timers, file and git access and the text of `ps`: listings, file contents, lane endings and diff texts are inputs or steps. The time between a listing and a signal is outside the program's control, so recovery is stated at the listing.
- `LaneRecovery.SignalsOnlyOrphans`: lane tokens, that is, texts of a token's form, are taken to be unique and to appear only on command lines of processes descended from their own lane; an unguessable token is what the program relies on.
- `LaneRecovery.RemovesNoLiveRecord`: admits the stale partial file, because the code does; `LaneLoss.LostIffFinishedMeanwhile` says exactly when that loses a record.
- Text is a sequence of characters. In the receipt modules it is a sequence of UTF-16 code units, lone surrogates included; elsewhere a character stands for a code unit, and lone surrogates do not occur.
- `localeCompare` is a parameter, any total preorder; `GateStatus.OrderDoesNotMatter` asks that it tells different ids apart.
- `GateRun.RunGate`: the log lines and their wording, and the recovery before the loop are not part of its result.
- `ArchRatchet.Analyze`: the layer, CLI, dynamic-import, environment, package and SQL rules are given lists; so are the errors of module mapping. Cycle entries of the baseline file are compared through a given text for each.
- `ArchRatchet.HistoryStaysAcyclic`: every edge is taken to start and end at a listed module (`EdgesListed`): the graph's edges run between scanned modules (scripts/arch-imports.ts:261). `GatedHistory` assumes it of every commit.
- `Receipt.ValidateReceipt`: the rules for subject, revisions, findings, risk classes, redaction, time, references and the digest are not modelled; each concerns one field.
- `Receipt.CheckEntryViolations`: numbers are integers.
- Canonical JSON covers integers, strings, booleans, null, arrays and objects with distinct keys; fractions, `-0` and `undefined` are not modelled. SHA-256 is not modelled: the results are about the text it is taken over.
- `AddedLines.ParseAddedLines`: counts and line numbers are unbounded integers.
- `ShellRewrap.ContinuationKeepsCommands`: is stated within the size bounds, that is, when neither bound stops the scan at the boundary or refuses the longer text.
- `DomainScan.AllowedByLastLabels`: lower case is ASCII, which is all that a matched domain holds.
- `CountRatchet.Growth`: entries for module and function sizes go through the same comparison; their own lane and their keys are not modelled. Counting references in a source text is an input.
- `FunctionSpans.FunctionSpansOf`: which token leads to a function is specified by `FunctionOf`, from matching brackets, and stated in words for declarations, methods and arrows; that this is every function of the language is not claimed, detection being best effort. Spans carry the indexes of their braces, which the program's do not.
- `ErasedSpans.ErasedSpans`: the stripper, the parser and what is made of the spans are not modelled.
- The limits on module and function sizes, the YAML, package and manifest rules, the lane lists, and the database description around `enumValues` are single-branch facts and not modelled.
