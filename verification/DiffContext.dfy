/**
 Two-way hunks with context (scripts/release-range.ts): the header's counts say where a hunk ends,
 and context lines count on both sides.
 */
module DiffContext {
  import opened AddedLines
  import opened Decimal
  import opened DiffRoundTrip
  import opened HunkHeader
  import opened JsText

  predicate Marks(row: string, markers: set<char>) {
    row != "" && row[0] in markers
  }

  /** The rows of the file before: removed lines and context. */
  function OldRows(rows: seq<string>): nat {
    if rows == [] then 0 else OldRows(rows[1..]) + if Marks(rows[0], {'-', ' '}) then 1 else 0
  }

  /** The rows of the file after: added lines and context. */
  function NewRows(rows: seq<string>): nat {
    if rows == [] then 0 else NewRows(rows[1..]) + if Marks(rows[0], {'+', ' '}) then 1 else 0
  }

  function Open(next: int, old_: nat, new_: nat): Option<Hunk> {
    if old_ == 0 && new_ == 0 then None else Some(Hunk(1, next, Finite(old_), Finite(new_)))
  }

  lemma ReadCountedRow(raw: string, next: int, old_: nat, new_: nat)
    requires IsNote(raw) || IsBody(raw, 1)
    ensures var a, b := OldRows([raw]), NewRows([raw]);
      var hunk := Open(next, old_ + a, new_ + b);
      && Emitted(raw, hunk) == MergeAdded([raw], 1, next)
      && NextHunk(raw, hunk) == Open(if InMerge(raw, 1) then next + 1 else next, old_, new_)
  {
    if IsNote(raw) {
      NoteIsNoHeader(raw);
    } else {
      assert raw[..1] == [raw[0]];
      MarkersMean(raw, 1);
    }
  }

  lemma {:induction false} ReadCounted(rows: seq<string>, next: int, rest: seq<string>)
    requires Rows(rows, 1)
    ensures ParseLines(rows + rest, Open(next, OldRows(rows), NewRows(rows)))
      == MergeAdded(rows, 1, next) + ParseLines(rest, None)
  {
    if rows == [] {
      assert rows + rest == rest;
    } else {
      var now := if InMerge(rows[0], 1) then next + 1 else next;
      ReadCounted(rows[1..], now, rest);
      ReadFirst(rows, next, rest, now);
    }
  }

  lemma Chain(raw: string, tail: seq<string>, hunk: Option<Hunk>, added: seq<AddedLine>, after: seq<AddedLine>)
    requires ParseLines(tail, NextHunk(raw, hunk)) == added + after
    ensures ParseLines([raw] + tail, hunk) == (Emitted(raw, hunk) + added) + after
  {
    ParseCons(raw, tail, hunk);
    ConcatAssoc(Emitted(raw, hunk), added, after);
  }

  lemma ReadThen(raw: string, tail: seq<string>, next: int, now: int, olds: nat, news: nat, old_: nat, new_: nat,
      added: seq<AddedLine>, after: seq<AddedLine>)
    requires IsNote(raw) || IsBody(raw, 1)
    requires now == if InMerge(raw, 1) then next + 1 else next
    requires olds == old_ + OldRows([raw]) && news == new_ + NewRows([raw])
    requires ParseLines(tail, Open(now, old_, new_)) == added + after
    ensures ParseLines([raw] + tail, Open(next, olds, news)) == (MergeAdded([raw], 1, next) + added) + after
  {
    ReadCountedRow(raw, next, old_, new_);
    Chain(raw, tail, Open(next, olds, news), added, after);
  }

  lemma ReadFirst(rows: seq<string>, next: int, rest: seq<string>, now: int)
    requires rows != [] && (IsNote(rows[0]) || IsBody(rows[0], 1))
    requires now == if InMerge(rows[0], 1) then next + 1 else next
    requires ParseLines(rows[1..] + rest, Open(now, OldRows(rows[1..]), NewRows(rows[1..])))
      == MergeAdded(rows[1..], 1, now) + ParseLines(rest, None)
    ensures ParseLines(rows + rest, Open(next, OldRows(rows), NewRows(rows)))
      == MergeAdded(rows, 1, next) + ParseLines(rest, None)
  {
    RowsSplit(rows, next);
    RowFirst(rows, rest);
    ReadThen(rows[0], rows[1..] + rest, next, now, OldRows(rows), NewRows(rows), OldRows(rows[1..]), NewRows(rows[1..]),
             MergeAdded(rows[1..], 1, now), ParseLines(rest, None));
  }

  lemma RowFirst(rows: seq<string>, rest: seq<string>)
    requires rows != []
    ensures rows + rest == [rows[0]] + (rows[1..] + rest)
  {
  }

  lemma RowsSplit(rows: seq<string>, next: int)
    requires rows != []
    ensures OldRows(rows) == OldRows(rows[1..]) + OldRows([rows[0]])
    ensures NewRows(rows) == NewRows(rows[1..]) + NewRows([rows[0]])
    ensures MergeAdded(rows, 1, next)
      == MergeAdded([rows[0]], 1, next) + MergeAdded(rows[1..], 1, if InMerge(rows[0], 1) then next + 1 else next)
  {
    assert [rows[0]][1..] == [];
  }

  lemma ReadAfterHeader(raw: string, rows: seq<string>, rest: seq<string>, next: int)
    requires Rows(rows, 1) && Opened(raw) == Open(next, OldRows(rows), NewRows(rows))
    ensures ParseLines([raw] + (rows + rest), None) == MergeAdded(rows, 1, next) + ParseLines(rest, None)
  {
    ParseCons(raw, rows + rest, None);
    ReadCounted(rows, next, rest);
  }

  /**
   A two-way hunk whose header counts its rows, context and notes included, gives exactly the rows
   marked added, numbered by their place among the added and context rows, and ends after the last
   row that is counted.
   */
  lemma CountedHunk(h: Header, context: string, rows: seq<string>, rest: seq<string>)
    requires HeaderOk(h) && h.ats == 2 && Rows(rows, 1)
    requires CountOf(h.old_) == OldRows(rows) && CountOf(h.new_) == NewRows(rows) && OldRows(rows) + NewRows(rows) > 0
    ensures ParseLines([HeaderText(h) + context] + (rows + rest), None)
      == MergeAdded(rows, 1, NumberOf(h.new_.start)) + ParseLines(rest, None)
  {
    HeaderCounts(h, context);
    ReadAfterHeader(HeaderText(h) + context, rows, rest, NumberOf(h.new_.start));
  }

  lemma HeaderCounts(h: Header, context: string)
    requires HeaderOk(h) && h.ats == 2 && CountOf(h.old_) + CountOf(h.new_) > 0
    ensures Opened(HeaderText(h) + context) == Open(NumberOf(h.new_.start), CountOf(h.old_), CountOf(h.new_))
  {
    HeaderMatches(h, context);
    MatchOpens(HeaderText(h) + context, h);
  }

  lemma MatchOpens(raw: string, h: Header)
    requires MatchHeader(raw) == Some(h) && h.ats == 2 && CountOf(h.old_) + CountOf(h.new_) > 0
    ensures Opened(raw) == Open(NumberOf(h.new_.start), CountOf(h.old_), CountOf(h.new_))
  {
    OpenedIs(raw, h);
  }

  /** A line that begins with a backslash is neither a row nor the end of its hunk. */
  lemma NoteIsPassedOver(text: string, rest: seq<string>, hunk: Option<Hunk>)
    ensures ParseLines(["\\" + text] + rest, hunk) == ParseLines(rest, hunk)
  {
    var raw := "\\" + text;
    assert IsNote(raw);
    NoteIsNoHeader(raw);
    ParseCons(raw, rest, hunk);
  }
}
