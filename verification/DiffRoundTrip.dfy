/**
 What `git diff --unified=0` and combined merge diffs print, and that parsing them gives back
 exactly the lines they add.
 */
module DiffRoundTrip {
  import opened AddedLines
  import opened Decimal
  import opened HunkHeader
  import opened JsText

  // ---- Two-way diffs -----------------------------------------------------

  /** Lines kept from the old file, then lines removed and lines inserted in their place. */
  datatype Edit = Edit(kept: seq<string>, removed: seq<string>, inserted: seq<string>)

  /** A line of the new file, and whether the edit script inserted it. */
  datatype NewLine = NewLine(text: string, inserted: bool)

  function Tagged(lines: seq<string>, inserted: bool): (r: seq<NewLine>)
    ensures |r| == |lines| && forall i :: 0 <= i < |r| ==> r[i] == NewLine(lines[i], inserted)
  {
    seq(|lines|, i requires 0 <= i < |lines| => NewLine(lines[i], inserted))
  }

  /** The new file an edit script makes, up to its last edit. */
  function NewFile(edits: seq<Edit>): seq<NewLine> {
    if edits == [] then []
    else Tagged(edits[0].kept, false) + Tagged(edits[0].inserted, true) + NewFile(edits[1..])
  }

  /** A line range that starts after `before` lines and holds `n`. */
  function GitRange(before: nat, n: nat): Range {
    if n == 0 then Range(Written(before), Some(Written(0)))
    else if n == 1 then Range(Written(before + 1), None)
    else Range(Written(before + 1), Some(Written(n)))
  }

  /** How one hunk is printed: what follows its header, and any notes after its removed and added lines. */
  datatype Style = Style(context: string, notesOld: seq<string>, notesNew: seq<string>)

  function Marked(marker: char, lines: seq<string>): (r: seq<string>)
    ensures |r| == |lines| && forall i :: 0 <= i < |r| ==> r[i] == [marker] + lines[i]
  {
    seq(|lines|, i requires 0 <= i < |lines| => [marker] + lines[i])
  }

  function HunkLines(e: Edit, oldAt: nat, newAt: nat, style: Style): seq<string> {
    [HeaderText(Header(2, GitRange(oldAt, |e.removed|), [], GitRange(newAt, |e.inserted|))) + style.context]
    + (Marked('-', e.removed) + (style.notesOld + (Marked('+', e.inserted) + style.notesNew)))
  }

  /** The position after some lines. */
  function Past(at: nat, lines: seq<string>): nat {
    at + |lines|
  }

  /** The hunks of an edit script, printed from the given positions in the old and the new file. */
  function Rendered(edits: seq<Edit>, oldAt: nat, newAt: nat, styles: seq<Style>): seq<string>
    requires |styles| == |edits|
  {
    if edits == [] then []
    else
      var e := edits[0];
      HunkLines(e, Past(oldAt, e.kept), Past(newAt, e.kept), styles[0])
      + Rendered(edits[1..], Past(Past(oldAt, e.kept), e.removed), Past(Past(newAt, e.kept), e.inserted), styles[1..])
  }

  ghost predicate EditsOk(edits: seq<Edit>, styles: seq<Style>) {
    && |edits| == |styles|
    && (forall i :: 0 <= i < |edits| ==> edits[i].removed != [] || edits[i].inserted != [])
    && (forall i :: 0 <= i < |styles| ==> Notes(styles[i].notesOld) && Notes(styles[i].notesNew))
  }

  ghost predicate Notes(lines: seq<string>) {
    forall i :: 0 <= i < |lines| ==> IsNote(lines[i])
  }

  /** The inserted lines of a file, with their line numbers, `at` lines coming before it. */
  function Inserted(file: seq<NewLine>, at: nat): seq<AddedLine> {
    if file == [] then []
    else (if file[0].inserted then [AddedLine(at + 1, file[0].text)] else []) + Inserted(file[1..], at + 1)
  }

  lemma {:induction false} InsertedAppend(a: seq<NewLine>, b: seq<NewLine>, at: nat, n: nat)
    requires n == at + |a|
    ensures Inserted(a + b, at) == Inserted(a, at) + Inserted(b, n)
  {
    if a == [] {
      assert a + b == b;
    } else {
      InsertedAppend(a[1..], b, at + 1, n);
      assert (a + b)[1..] == a[1..] + b;
    }
  }

  lemma {:induction false} InsertedKept(lines: seq<string>, at: nat)
    ensures Inserted(Tagged(lines, false), at) == []
  {
    if lines != [] {
      InsertedKept(lines[1..], at + 1);
      assert Tagged(lines, false)[1..] == Tagged(lines[1..], false);
    }
  }

  /** The numbered lines of one insertion. */
  function Numbered(lines: seq<string>, at: nat): seq<AddedLine> {
    if lines == [] then [] else [AddedLine(at + 1, lines[0])] + Numbered(lines[1..], at + 1)
  }

  lemma {:induction false} InsertedNumbered(lines: seq<string>, at: nat)
    ensures Inserted(Tagged(lines, true), at) == Numbered(lines, at)
  {
    if lines != [] {
      InsertedNumbered(lines[1..], at + 1);
      assert Tagged(lines, true)[1..] == Tagged(lines[1..], true);
    }
  }

  // ---- Reading one hunk --------------------------------------------------

  lemma ConcatAssoc<T>(a: seq<T>, b: seq<T>, c: seq<T>)
    ensures a + b + c == a + (b + c)
  {
  }

  lemma ParseCons(raw: string, tail: seq<string>, hunk: Option<Hunk>)
    ensures ParseLines([raw] + tail, hunk) == Emitted(raw, hunk) + ParseLines(tail, NextHunk(raw, hunk))
  {
    assert ([raw] + tail)[1..] == tail;
  }

  lemma {:induction false} SkipNotes(notes: seq<string>, rest: seq<string>, hunk: Option<Hunk>)
    requires Notes(notes)
    ensures ParseLines(notes + rest, hunk) == ParseLines(rest, hunk)
  {
    if notes == [] {
      assert notes + rest == rest;
    } else {
      assert (notes + rest)[1..] == notes[1..] + rest;
      if hunk.None? {
        NoteIsNoHeader(notes[0]);
      }
      SkipNotes(notes[1..], rest, hunk);
    }
  }

  lemma NoteIsNoHeader(raw: string)
    requires IsNote(raw)
    ensures Opened(raw) == None
  {
  }

  lemma MarkedCons(marker: char, lines: seq<string>, rest: seq<string>)
    requires lines != []
    ensures Marked(marker, lines) + rest == [[marker] + lines[0]] + (Marked(marker, lines[1..]) + rest)
  {
    assert Marked(marker, lines) == [[marker] + lines[0]] + Marked(marker, lines[1..]);
    ConcatAssoc([[marker] + lines[0]], Marked(marker, lines[1..]), rest);
  }

  /** A removed row, while more removed or added rows are to come or not. */
  lemma MinusRow(line: string, next: int, m: int, n: int)
    requires m >= 1 && n >= 0
    ensures var hunk := Some(Hunk(1, next, Finite(m), Finite(n)));
      && Emitted(['-'] + line, hunk) == []
      && NextHunk(['-'] + line, hunk)
        == if m == 1 && n == 0 then None else Some(Hunk(1, next, Finite(m - 1), Finite(n)))
  {
    var raw := ['-'] + line;
    assert raw[..1] == "-";
  }

  lemma {:induction false} ReadRemoved(lines: seq<string>, rest: seq<string>, next: int, n: int)
    requires n >= 0 && (lines != [] || n > 0)
    ensures ParseLines(Marked('-', lines) + rest, Some(Hunk(1, next, Finite(|lines|), Finite(n))))
      == ParseLines(rest, if n > 0 then Some(Hunk(1, next, Finite(0), Finite(n))) else None)
  {
    if lines == [] {
      assert Marked('-', lines) + rest == rest;
    } else {
      var tail := Marked('-', lines[1..]) + rest;
      MarkedCons('-', lines, rest);
      MinusRow(lines[0], next, |lines|, n);
      ParseCons(['-'] + lines[0], tail, Some(Hunk(1, next, Finite(|lines|), Finite(n))));
      if |lines| == 1 && n == 0 {
        assert tail == rest;
      } else {
        ReadRemoved(lines[1..], rest, next, n);
      }
    }
  }

  /** An added row of a two-way hunk whose removed lines are used up. */
  lemma PlusRow(line: string, next: int, n: int)
    requires n >= 1
    ensures var hunk := Some(Hunk(1, next, Finite(0), Finite(n)));
      && Emitted(['+'] + line, hunk) == [AddedLine(next, line)]
      && NextHunk(['+'] + line, hunk) == if n == 1 then None else Some(Hunk(1, next + 1, Finite(0), Finite(n - 1)))
  {
    var raw := ['+'] + line;
    assert raw[..1] == "+" && raw[1..] == line;
  }

  lemma {:induction false} ReadInserted(lines: seq<string>, rest: seq<string>, at: nat)
    requires lines != []
    ensures ParseLines(Marked('+', lines) + rest, Some(Hunk(1, at + 1, Finite(0), Finite(|lines|))))
      == Numbered(lines, at) + ParseLines(rest, None)
  {
    var tail := Marked('+', lines[1..]) + rest;
    MarkedCons('+', lines, rest);
    PlusRow(lines[0], at + 1, |lines|);
    ParseCons(['+'] + lines[0], tail, Some(Hunk(1, at + 1, Finite(0), Finite(|lines|))));
    if |lines| == 1 {
      assert tail == rest;
      assert Numbered(lines[1..], at + 1) == [];
    } else {
      ReadInserted(lines[1..], rest, at + 1);
      ConcatAssoc([AddedLine(at + 1, lines[0])], Numbered(lines[1..], at + 1), ParseLines(rest, None));
    }
  }

  lemma GitRangeRead(before: nat, n: nat)
    ensures RangeOk(GitRange(before, n)) && CountOf(GitRange(before, n)) == n
    ensures n > 0 ==> NumberOf(GitRange(before, n).start) == before + 1
  {
    NumberRoundTrip(before + 1);
    NumberRoundTrip(n);
  }

  lemma OpenedIs(raw: string, h: Header)
    requires MatchHeader(raw) == Some(h) && h.ats >= 2
    ensures Opened(raw) == Some(StartHunk(h))
  {
  }

  lemma HeaderOpens(oldAt: nat, newAt: nat, removed: nat, inserted: nat, context: string)
    ensures var raw := HeaderText(Header(2, GitRange(oldAt, removed), [], GitRange(newAt, inserted))) + context;
      Opened(raw) == Some(Hunk(1, NumberOf(GitRange(newAt, inserted).start), Finite(removed), Finite(inserted)))
  {
    GitRangeRead(oldAt, removed);
    GitRangeRead(newAt, inserted);
    var h := Header(2, GitRange(oldAt, removed), [], GitRange(newAt, inserted));
    HeaderMatches(h, context);
    OpenedIs(HeaderText(h) + context, h);
  }

  /** The added part of a hunk, which has none when nothing was inserted. */
  lemma ReadAdded(lines: seq<string>, rest: seq<string>, at: nat, next: int)
    requires lines != [] ==> next == at + 1
    ensures ParseLines(Marked('+', lines) + rest,
                       if |lines| > 0 then Some(Hunk(1, next, Finite(0), Finite(|lines|))) else None)
      == Numbered(lines, at) + ParseLines(rest, None)
  {
    if lines != [] {
      ReadInserted(lines, rest, at);
    } else {
      assert Marked('+', lines) + rest == rest;
      assert Numbered(lines, at) + ParseLines(rest, None) == ParseLines(rest, None);
    }
  }

  /** One printed hunk gives exactly its inserted lines, and leaves no hunk open. */
  lemma ReadHunk(e: Edit, oldAt: nat, newAt: nat, style: Style, rest: seq<string>)
    requires e.removed != [] || e.inserted != []
    requires Notes(style.notesOld) && Notes(style.notesNew)
    ensures ParseLines(HunkLines(e, oldAt, newAt, style) + rest, None)
      == Numbered(e.inserted, newAt) + ParseLines(rest, None)
  {
    var header := HeaderText(Header(2, GitRange(oldAt, |e.removed|), [], GitRange(newAt, |e.inserted|)))
      + style.context;
    var d := style.notesNew + rest;
    var c := Marked('+', e.inserted) + d;
    var b := style.notesOld + c;
    var next := NumberOf(GitRange(newAt, |e.inserted|).start);
    HunkSplit(e, oldAt, newAt, style, rest);
    ParseCons(header, Marked('-', e.removed) + b, None);
    HeaderOpens(oldAt, newAt, |e.removed|, |e.inserted|, style.context);
    GitRangeRead(newAt, |e.inserted|);
    ReadRemoved(e.removed, b, next, |e.inserted|);
    SkipNotes(style.notesOld, c,
              if |e.inserted| > 0 then Some(Hunk(1, next, Finite(0), Finite(|e.inserted|))) else None);
    ReadAdded(e.inserted, d, newAt, next);
    SkipNotes(style.notesNew, rest, None);
  }

  lemma HunkSplit(e: Edit, oldAt: nat, newAt: nat, style: Style, rest: seq<string>)
    ensures HunkLines(e, oldAt, newAt, style) + rest
      == [HeaderText(Header(2, GitRange(oldAt, |e.removed|), [], GitRange(newAt, |e.inserted|))) + style.context]
         + (Marked('-', e.removed) + (style.notesOld + (Marked('+', e.inserted) + (style.notesNew + rest))))
  {
    var header := [HeaderText(Header(2, GitRange(oldAt, |e.removed|), [], GitRange(newAt, |e.inserted|)))
      + style.context];
    var a, b, c, d := Marked('-', e.removed), style.notesOld, Marked('+', e.inserted), style.notesNew;
    ConcatAssoc(header, a + (b + (c + d)), rest);
    ConcatAssoc(a, b + (c + d), rest);
    ConcatAssoc(b, c + d, rest);
    ConcatAssoc(c, d, rest);
  }

  // ---- Whole scripts -----------------------------------------------------

  /** Outside any hunk, the lines give `out` and leave no hunk open, whatever follows. */
  ghost predicate ReadsAs(lines: seq<string>, out: seq<AddedLine>) {
    forall rest :: ParseLines(lines + rest, None) == out + ParseLines(rest, None)
  }

  lemma ReadsAsBoth(a: seq<string>, b: seq<string>, x: seq<AddedLine>, y: seq<AddedLine>)
    requires ReadsAs(a, x) && ReadsAs(b, y)
    ensures ReadsAs(a + b, x + y)
  {
    forall rest ensures ParseLines(a + b + rest, None) == x + y + ParseLines(rest, None) {
      ConcatAssoc(a, b, rest);
      ConcatAssoc(x, y, ParseLines(rest, None));
    }
  }

  lemma ReadsAsNothing()
    ensures ReadsAs([], [])
  {
    forall rest: seq<string> ensures [] + rest == rest {
    }
  }

  lemma HunkReadsAs(e: Edit, oldAt: nat, newAt: nat, style: Style)
    requires e.removed != [] || e.inserted != []
    requires Notes(style.notesOld) && Notes(style.notesNew)
    ensures ReadsAs(HunkLines(e, oldAt, newAt, style), Numbered(e.inserted, newAt))
  {
    forall rest
      ensures ParseLines(HunkLines(e, oldAt, newAt, style) + rest, None)
        == Numbered(e.inserted, newAt) + ParseLines(rest, None)
    {
      ReadHunk(e, oldAt, newAt, style, rest);
    }
  }

  lemma OneEditReadsAs(e: Edit, o: nat, n: nat, style: Style, more: seq<string>, out: seq<AddedLine>)
    requires e.removed != [] || e.inserted != []
    requires Notes(style.notesOld) && Notes(style.notesNew) && ReadsAs(more, out)
    ensures ReadsAs(HunkLines(e, o, n, style) + more, Numbered(e.inserted, n) + out)
  {
    HunkReadsAs(e, o, n, style);
    ReadsAsBoth(HunkLines(e, o, n, style), more, Numbered(e.inserted, n), out);
  }

  lemma {:induction false} EditsReadAs(edits: seq<Edit>, oldAt: nat, newAt: nat, styles: seq<Style>)
    requires EditsOk(edits, styles)
    ensures ReadsAs(Rendered(edits, oldAt, newAt, styles), Inserted(NewFile(edits), newAt))
    decreases |edits|
  {
    if edits == [] {
      ReadsAsNothing();
    } else {
      var e := edits[0];
      var o, n := Past(oldAt, e.kept), Past(newAt, e.kept);
      var more := Rendered(edits[1..], Past(o, e.removed), Past(n, e.inserted), styles[1..]);
      var out := Inserted(NewFile(edits[1..]), Past(n, e.inserted));
      EditsReadAs(edits[1..], Past(o, e.removed), Past(n, e.inserted), styles[1..]);
      OneEditReadsAs(e, o, n, styles[0], more, out);
      NewFileInserted(edits, newAt);
    }
  }

  lemma NewFileInserted(edits: seq<Edit>, newAt: nat)
    requires edits != []
    ensures var e := edits[0];
      Inserted(NewFile(edits), newAt)
        == Numbered(e.inserted, Past(newAt, e.kept))
          + Inserted(NewFile(edits[1..]), Past(Past(newAt, e.kept), e.inserted))
  {
    var e := edits[0];
    var kept, ins, more := Tagged(e.kept, false), Tagged(e.inserted, true), NewFile(edits[1..]);
    InsertedAppend(kept + ins, more, newAt, Past(Past(newAt, e.kept), e.inserted));
    InsertedAppend(kept, ins, newAt, Past(newAt, e.kept));
    InsertedKept(e.kept, newAt);
    InsertedNumbered(e.inserted, Past(newAt, e.kept));
  }

  /** Lines outside any hunk that are no hunk header: file headers, index lines and the like. */
  ghost predicate Preamble(lines: seq<string>) {
    forall i :: 0 <= i < |lines| ==> MatchHeader(lines[i]).None?
  }

  lemma {:induction false} PreambleReadsAs(lines: seq<string>)
    requires Preamble(lines)
    ensures ReadsAs(lines, [])
  {
    if lines == [] {
      ReadsAsNothing();
    } else {
      PreambleReadsAs(lines[1..]);
      forall rest ensures ParseLines(lines + rest, None) == [] + ParseLines(rest, None) {
        assert (lines + rest)[1..] == lines[1..] + rest;
      }
    }
  }

  /** One file's part of a diff: lines before its hunks, and its edit script. */
  datatype FileDiff = FileDiff(preamble: seq<string>, edits: seq<Edit>, styles: seq<Style>)

  ghost predicate FilesOk(files: seq<FileDiff>) {
    forall i :: 0 <= i < |files| ==> Preamble(files[i].preamble) && EditsOk(files[i].edits, files[i].styles)
  }

  function DiffLines(files: seq<FileDiff>): seq<string>
    requires forall i :: 0 <= i < |files| ==> |files[i].edits| == |files[i].styles|
  {
    if files == [] then []
    else files[0].preamble + (Rendered(files[0].edits, 0, 0, files[0].styles) + DiffLines(files[1..]))
  }

  function AllInserted(files: seq<FileDiff>): seq<AddedLine> {
    if files == [] then [] else Inserted(NewFile(files[0].edits), 0) + AllInserted(files[1..])
  }

  lemma {:induction false} FilesReadAs(files: seq<FileDiff>)
    requires FilesOk(files)
    ensures ReadsAs(DiffLines(files), AllInserted(files))
  {
    if files == [] {
      ReadsAsNothing();
    } else {
      var f := files[0];
      var hunks, out := Rendered(f.edits, 0, 0, f.styles), Inserted(NewFile(f.edits), 0);
      PreambleReadsAs(f.preamble);
      EditsReadAs(f.edits, 0, 0, f.styles);
      FilesReadAs(files[1..]);
      ReadsAsBoth(hunks, DiffLines(files[1..]), out, AllInserted(files[1..]));
      ReadsAsBoth(f.preamble, hunks + DiffLines(files[1..]), [], out + AllInserted(files[1..]));
      assert [] + (out + AllInserted(files[1..])) == AllInserted(files);
    }
  }

  /**
   Whatever the lines' contents, the parser reads back from a printed diff exactly the inserted
   lines of the new files, each with its position and text.
   */
  lemma DiffParsesToInsertions(files: seq<FileDiff>, diffText: string)
    requires FilesOk(files) && DiffLines(files) != []
    requires forall i :: 0 <= i < |DiffLines(files)| ==> OneLine(DiffLines(files)[i])
    requires diffText == JoinLines(DiffLines(files))
    ensures ParseLines(SplitLines(diffText), None) == AllInserted(files)
  {
    SplitJoined(DiffLines(files));
    FilesReadAs(files);
    var lines := DiffLines(files);
    assert lines + [] == lines;
    assert ParseLines(lines + [], None) == AllInserted(files) + ParseLines([], None);
  }

  /** The positions reported are the inserted positions of the new file, with their text, and nothing else. */
  lemma {:induction false} InsertedExact(file: seq<NewLine>, at: nat, a: AddedLine)
    ensures a in Inserted(file, at) <==>
      at < a.line <= at + |file| && file[a.line - at - 1] == NewLine(a.text, true)
  {
    if file != [] {
      InsertedExact(file[1..], at + 1, a);
    }
  }

  /** They come in strictly increasing line order. */
  lemma {:induction false} InsertedIncreasing(file: seq<NewLine>, at: nat)
    ensures forall i, j :: 0 <= i < j < |Inserted(file, at)| ==> Inserted(file, at)[i].line < Inserted(file, at)[j].line
  {
    if file != [] {
      InsertedIncreasing(file[1..], at + 1);
      var rest := Inserted(file[1..], at + 1);
      forall j | 0 <= j < |rest| ensures at + 1 < rest[j].line {
        InsertedExact(file[1..], at + 1, rest[j]);
      }
    }
  }

  // ---- Combined merge hunks ----------------------------------------------

  /** A row with a marker for each parent, or a note. */
  ghost predicate Rows(rows: seq<string>, width: nat) {
    forall i :: 0 <= i < |rows| ==> IsNote(rows[i]) || IsBody(rows[i], width)
  }

  /** The row stands in the merged file: no parent's column marks it removed. */
  predicate InMerge(row: string, width: nat) {
    !IsNote(row) && |row| >= width && forall k :: 0 <= k < width ==> row[k] != '-'
  }

  /** Every parent's column marks the row added. */
  predicate AllPlus(row: string, width: nat) {
    !IsNote(row) && |row| >= width && forall k :: 0 <= k < width ==> row[k] == '+'
  }

  /** The rows every parent marks added, numbered by their place among the rows of the merged file. */
  function MergeAdded(rows: seq<string>, width: nat, next: int): seq<AddedLine> {
    if rows == [] then []
    else
      (if AllPlus(rows[0], width) then [AddedLine(next, rows[0][width..])] else [])
      + MergeAdded(rows[1..], width, if InMerge(rows[0], width) then next + 1 else next)
  }

  lemma ReadRow(raw: string, width: nat, next: int)
    requires width >= 2 && (IsNote(raw) || IsBody(raw, width))
    ensures var hunk := Some(Hunk(width, next, Infinite, Infinite));
      && Emitted(raw, hunk) == (if AllPlus(raw, width) then [AddedLine(next, raw[width..])] else [])
      && NextHunk(raw, hunk) == Some(Hunk(width, if InMerge(raw, width) then next + 1 else next, Infinite, Infinite))
  {
    if !IsNote(raw) {
      MarkersMean(raw, width);
    }
  }

  lemma {:induction false} ReadRows(rows: seq<string>, width: nat, next: int, rest: seq<string>)
    requires width >= 2 && Rows(rows, width)
    requires rest == [] || (!IsNote(rest[0]) && !IsBody(rest[0], width))
    ensures ParseLines(rows + rest, Some(Hunk(width, next, Infinite, Infinite)))
      == MergeAdded(rows, width, next) + ParseLines(rest, None)
  {
    if rows == [] {
      assert rows + rest == rest;
    } else {
      assert (rows + rest)[1..] == rows[1..] + rest;
      ReadRow(rows[0], width, next);
      var now := if InMerge(rows[0], width) then next + 1 else next;
      ReadRows(rows[1..], width, now, rest);
      ConcatAssoc(Emitted(rows[0], Some(Hunk(width, next, Infinite, Infinite))), MergeAdded(rows[1..], width, now),
        ParseLines(rest, None));
    }
  }

  lemma MarkersMean(raw: string, width: nat)
    requires IsBody(raw, width) && !IsNote(raw)
    ensures InMerge(raw, width) <==> '-' !in raw[..width]
    ensures AllPlus(raw, width) <==> '-' !in raw[..width] && ' ' !in raw[..width]
  {
    var m := raw[..width];
    assert forall k :: 0 <= k < width ==> m[k] == raw[k];
  }

  /** The header of a hunk with `width` parents. */
  ghost predicate IsCombined(h: Header, width: nat) {
    HeaderOk(h) && width >= 2 && h.ats == width + 1
  }

  lemma CombinedOpens(h: Header, raw: string, width: nat)
    requires IsCombined(h, width) && MatchHeader(raw) == Some(h)
    ensures Opened(raw) == Some(Hunk(width, NumberOf(h.new_.start), Infinite, Infinite))
  {
    OpenedIs(raw, h);
  }

  /** The next line is no row of the hunk, or there is none. */
  ghost predicate NoRowNext(rest: seq<string>, width: nat) {
    rest == [] || (!IsNote(rest[0]) && !IsBody(rest[0], width))
  }

  lemma ReadOpened(header: string, rows: seq<string>, rest: seq<string>, width: nat, next: int)
    requires Opened(header) == Some(Hunk(width, next, Infinite, Infinite)) && width >= 2 && Rows(rows, width)
    requires NoRowNext(rest, width)
    ensures ParseLines([header] + (rows + rest), None) == MergeAdded(rows, width, next) + ParseLines(rest, None)
  {
    ParseCons(header, rows + rest, None);
    ReadRows(rows, width, next, rest);
  }

  lemma ReadCombined(h: Header, raw: string, width: nat, rows: seq<string>, rest: seq<string>)
    requires IsCombined(h, width) && MatchHeader(raw) == Some(h) && Rows(rows, width) && NoRowNext(rest, width)
    ensures ParseLines([raw] + (rows + rest), None)
      == MergeAdded(rows, width, NumberOf(h.new_.start)) + ParseLines(rest, None)
  {
    CombinedOpens(h, raw, width);
    ReadOpened(raw, rows, rest, width, NumberOf(h.new_.start));
  }

  /**
   A combined hunk of any number of parents gives exactly the rows that all of them mark added,
   and ends at the first line that is no marker row, which is then read in its own right.
   */
  lemma CombinedHunk(h: Header, width: nat, context: string, rows: seq<string>, rest: seq<string>)
    requires IsCombined(h, width) && Rows(rows, width) && NoRowNext(rest, width)
    ensures ParseLines([HeaderText(h) + context] + (rows + rest), None)
      == MergeAdded(rows, width, NumberOf(h.new_.start)) + ParseLines(rest, None)
  {
    HeaderMatches(h, context);
    ReadCombined(h, HeaderText(h) + context, width, rows, rest);
  }

  /** A hunk header is no marker row, so the next hunk's header ends this one without being lost. */
  lemma HeaderIsNoRow(h: Header, context: string, width: nat)
    requires HeaderOk(h) && width >= 1
    ensures !IsNote(HeaderText(h) + context) && !IsBody(HeaderText(h) + context, width)
  {
    assert Ats(h.ats)[0] == '@';
    var raw := HeaderText(h) + context;
    assert raw[0] == '@';
    if |raw| >= width {
      assert raw[..width][0] == '@';
    }
  }
}
