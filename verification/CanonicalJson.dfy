/**
 Canonical JSON (scripts/assurance-receipt.ts): object keys sorted, no white space. The text
 is uniquely readable, so an evidence digest over it covers every value of the receipt.

 Text is a sequence of UTF-16 code units, which is what the source's strings are.
 */
module CanonicalJson {
  import opened Decimal
  import opened Sorting

  type CodeUnit = u: int | 0 <= u < 0x10000
  type Text = seq<CodeUnit>

  /** The integers that a JSON number holds exactly. */
  type SafeInteger = n: int | -0x1F_FFFF_FFFF_FFFF <= n <= 0x1F_FFFF_FFFF_FFFF

  /** A parsed JSON value; an object lists its fields in the order it enumerates them. */
  datatype Json =
    | Null
    | Bool(b: bool)
    | Num(n: SafeInteger)
    | Str(s: Text)
    | Arr(items: seq<Json>)
    | Obj(fields: seq<Field>)

  datatype Field = Field(key: Text, value: Json)

  /** No object has two fields of one name. */
  ghost predicate Proper(v: Json) {
    match v
    case Arr(items) => forall i :: 0 <= i < |items| ==> Proper(items[i])
    case Obj(fields) =>
      && (forall i, j :: 0 <= i < j < |fields| ==> fields[i].key != fields[j].key)
      && (forall i :: 0 <= i < |fields| ==> Proper(fields[i].value))
    case _ => true
  }

  /** Equal up to the order of object keys. */
  ghost predicate Same(a: Json, b: Json) {
    if a.Arr? && b.Arr? then
      |a.items| == |b.items| && forall i :: 0 <= i < |a.items| ==> Same(a.items[i], b.items[i])
    else if a.Obj? && b.Obj? then
      && |a.fields| == |b.fields|
      && forall i :: 0 <= i < |a.fields| ==>
        exists j :: 0 <= j < |b.fields| && a.fields[i].key == b.fields[j].key
          && Same(a.fields[i].value, b.fields[j].value)
    else a == b
  }

  // ---- Strings -----------------------------------------------------------

  const QUOTE: CodeUnit := 0x22
  const BACKSLASH: CodeUnit := 0x5C
  const COMMA: CodeUnit := 0x2C
  const COLON: CodeUnit := 0x3A
  const OPEN_BRACKET: CodeUnit := 0x5B
  const CLOSE_BRACKET: CodeUnit := 0x5D
  const OPEN_BRACE: CodeUnit := 0x7B
  const CLOSE_BRACE: CodeUnit := 0x7D
  const MINUS: CodeUnit := 0x2D
  const LETTER_U: CodeUnit := 0x75

  predicate IsLead(u: CodeUnit) { 0xD800 <= u < 0xDC00 }

  predicate IsTrail(u: CodeUnit) { 0xDC00 <= u < 0xE000 }

  function HexUnit(d: int): CodeUnit
    requires 0 <= d < 16
  {
    if d < 10 then 0x30 + d else 0x61 + d - 10
  }

  function HexValue(u: CodeUnit): int {
    if 0x30 <= u <= 0x39 then u - 0x30 else if 0x61 <= u <= 0x66 then u - 0x61 + 10 else 0
  }

  function UnicodeEscape(u: CodeUnit): Text {
    [BACKSLASH, LETTER_U, HexUnit(u / 16 / 16 / 16), HexUnit(u / 16 / 16 % 16), HexUnit(u / 16 % 16), HexUnit(u % 16)]
  }

  /** The letter of a two-unit escape, or 0 for a unit that has none. */
  function ShortEscape(u: CodeUnit): CodeUnit {
    if u == QUOTE then QUOTE
    else if u == BACKSLASH then BACKSLASH
    else if u == 0x08 then 0x62
    else if u == 0x0C then 0x66
    else if u == 0x0A then 0x6E
    else if u == 0x0D then 0x72
    else if u == 0x09 then 0x74
    else 0
  }

  function EscapeUnit(u: CodeUnit): Text {
    if ShortEscape(u) != 0 then [BACKSLASH, ShortEscape(u)]
    else if u < 0x20 || IsLead(u) || IsTrail(u) then UnicodeEscape(u)
    else [u]
  }

  predicate StartsWithPair(s: Text) {
    |s| >= 2 && IsLead(s[0]) && IsTrail(s[1])
  }

  /** The body of a JSON string: escapes where needed, and for a surrogate that is not paired. */
  function Escaped(s: Text): Text {
    if s == [] then []
    else if StartsWithPair(s) then [s[0], s[1]] + Escaped(s[2..])
    else EscapeUnit(s[0]) + Escaped(s[1..])
  }

  function Quoted(s: Text): Text {
    [QUOTE] + Escaped(s) + [QUOTE]
  }

  datatype Read<+T> = Bad | Good(value: T, rest: Text)

  function Unescape(letter: CodeUnit): CodeUnit {
    if letter == 0x62 then 0x08
    else if letter == 0x66 then 0x0C
    else if letter == 0x6E then 0x0A
    else if letter == 0x72 then 0x0D
    else if letter == 0x74 then 0x09
    else letter
  }

  /** Reads a string body up to and including its closing quote. */
  function ReadBody(x: Text): Read<Text>
    decreases |x|
  {
    if x == [] then Bad
    else if x[0] == QUOTE then Good([], x[1..])
    else if x[0] != BACKSLASH then Prepend(x[0], ReadBody(x[1..]))
    else if |x| >= 6 && x[1] == LETTER_U then
      Prepend((HexValue(x[2]) * 0x1000 + HexValue(x[3]) * 0x100 + HexValue(x[4]) * 16 + HexValue(x[5])),
        ReadBody(x[6..]))
    else if |x| >= 2 then Prepend(Unescape(x[1]), ReadBody(x[2..]))
    else Bad
  }

  function Prepend(u: CodeUnit, r: Read<Text>): Read<Text> {
    match r
    case Bad => Bad
    case Good(s, rest) => Good([u] + s, rest)
  }

  lemma ReadUnit(u: CodeUnit, tail: Text)
    requires ReadBody(tail).Good?
    ensures ReadBody(EscapeUnit(u) + tail) == Prepend(u, ReadBody(tail))
  {
    var x := EscapeUnit(u) + tail;
    if ShortEscape(u) != 0 {
      assert x[2..] == tail;
    } else if |EscapeUnit(u)| == 6 {
      assert x[6..] == tail;
      HexRoundTrip(u);
    } else {
      assert x[1..] == tail;
    }
  }

  lemma HexDigitRoundTrip(d: int)
    requires 0 <= d < 16
    ensures HexValue(HexUnit(d)) == d
  {
  }

  lemma HexRoundTrip(u: CodeUnit)
    ensures HexValue(HexUnit(u / 16 / 16 / 16)) * 0x1000 + HexValue(HexUnit(u / 16 / 16 % 16)) * 0x100
            + HexValue(HexUnit(u / 16 % 16)) * 16 + HexValue(HexUnit(u % 16)) == u
  {
    var a := u / 16;
    var b := a / 16;
    var c := b / 16;
    HexDigitRoundTrip(c);
    HexDigitRoundTrip(b % 16);
    HexDigitRoundTrip(a % 16);
    HexDigitRoundTrip(u % 16);
    assert u == 16 * a + u % 16 && a == 16 * b + a % 16 && b == 16 * c + b % 16;
  }

  lemma ReadPlain(u: CodeUnit, tail: Text)
    requires ReadBody(tail).Good? && u != QUOTE && u != BACKSLASH
    ensures ReadBody([u] + tail) == Prepend(u, ReadBody(tail))
  {
    assert ([u] + tail)[1..] == tail;
  }

  lemma ReadTwoPlain(u: CodeUnit, v: CodeUnit, tail: Text, s: Text, rest: Text)
    requires u != QUOTE && u != BACKSLASH && v != QUOTE && v != BACKSLASH
    requires ReadBody(tail) == Good(s, rest)
    ensures ReadBody([u, v] + tail) == Good([u, v] + s, rest)
  {
    ReadPlain(v, tail);
    ReadPlain(u, [v] + tail);
    assert [u, v] + tail == [u] + ([v] + tail);
    assert [u, v] + s == [u] + ([v] + s);
  }

  lemma TakeTwo(s: Text)
    requires |s| >= 2
    ensures s == [s[0], s[1]] + s[2..]
  {
  }

  lemma Assoc<T>(a: seq<T>, b: seq<T>, c: seq<T>)
    ensures a + b + c == a + (b + c)
  {
  }

  /** Reading a written string gives back the string and exactly what followed it. */
  lemma {:induction false} StringRoundTrip(s: Text, tail: Text)
    ensures ReadBody(Escaped(s) + ([QUOTE] + tail)) == Good(s, tail)
    decreases |s|
  {
    var end := [QUOTE] + tail;
    if s == [] {
      assert end[1..] == tail;
      assert Escaped(s) + end == end;
    } else if StartsWithPair(s) {
      StringRoundTrip(s[2..], tail);
      Assoc([s[0], s[1]], Escaped(s[2..]), end);
      ReadTwoPlain(s[0], s[1], Escaped(s[2..]) + end, s[2..], tail);
      TakeTwo(s);
    } else {
      StringRoundTrip(s[1..], tail);
      Assoc(EscapeUnit(s[0]), Escaped(s[1..]), end);
      ReadUnit(s[0], Escaped(s[1..]) + end);
      assert s == [s[0]] + s[1..];
    }
  }

  // ---- Numbers -----------------------------------------------------------

  function UnitsOf(ds: seq<Digit>): (r: Text)
    ensures |r| == |ds| && forall i :: 0 <= i < |r| ==> r[i] == (ds[i] as int) + 0x30
  {
    seq(|ds|, i requires 0 <= i < |ds| => (ds[i] as int) + 0x30)
  }

  function NumberText(n: int): Text {
    if n < 0 then [MINUS] + UnitsOf(Digits(-n)) else UnitsOf(Digits(n))
  }

  predicate IsDigitUnit(u: CodeUnit) { 0x30 <= u <= 0x39 }

  predicate AllDigits(x: Text) {
    forall i :: 0 <= i < |x| ==> IsDigitUnit(x[i])
  }

  /** A number cannot run on into what follows it. */
  predicate Stops(r: Text) {
    r == [] || !IsDigitUnit(r[0])
  }

  /** The two texts cannot be confused, whatever follows them. */
  ghost predicate Separable(t: Text, u: Text) {
    forall r, s :: Stops(r) && Stops(s) && t + r == u + s ==> t == u
  }

  lemma RunNotLonger(x: Text, y: Text, r: Text, s: Text)
    requires AllDigits(y) && Stops(r) && x + r == y + s
    ensures |y| <= |x|
  {
    var i := |x|;
    if i < |x + r| {
      assert (x + r)[i] == r[0];
    }
  }

  lemma SameRun(x: Text, y: Text, r: Text, s: Text)
    requires AllDigits(x) && AllDigits(y) && Stops(r) && Stops(s) && x + r == y + s
    ensures x == y
  {
    RunNotLonger(x, y, r, s);
    RunNotLonger(y, x, s, r);
    assert x == (x + r)[..|x|] == (y + s)[..|x|] == y;
  }

  lemma NumberSeparable(m: int, n: int)
    ensures Separable(NumberText(m), NumberText(n))
  {
    var t, u := NumberText(m), NumberText(n);
    forall r, s | Stops(r) && Stops(s) && t + r == u + s ensures t == u {
      assert (t + r)[0] == t[0] && (u + s)[0] == u[0];
      if m < 0 {
        assert (t + r)[1..] == t[1..] + r && (u + s)[1..] == u[1..] + s;
        SameRun(t[1..], u[1..], r, s);
        assert t == [t[0]] + t[1..] && u == [u[0]] + u[1..];
      } else {
        SameRun(t, u, r, s);
      }
    }
  }

  lemma UnitsInjective(x: seq<Digit>, y: seq<Digit>)
    requires UnitsOf(x) == UnitsOf(y)
    ensures x == y
  {
    forall i | 0 <= i < |x| ensures x[i] == y[i] {
      assert UnitsOf(x)[i] == UnitsOf(y)[i];
    }
  }

  lemma NumberInjective(m: int, n: int)
    requires NumberText(m) == NumberText(n)
    ensures m == n
  {
    var t := NumberText(m);
    assert (m < 0) == (t[0] == MINUS) && (n < 0) == (t[0] == MINUS);
    if m < 0 {
      assert t[1..] == UnitsOf(Digits(-m)) == UnitsOf(Digits(-n));
      UnitsInjective(Digits(-m), Digits(-n));
      ValueOfDigits(-m);
      ValueOfDigits(-n);
    } else {
      UnitsInjective(Digits(m), Digits(n));
      ValueOfDigits(m);
      ValueOfDigits(n);
    }
  }

  // ---- The canonical text ------------------------------------------------

  /** A field printed as its key and the canonical text of its value. */
  datatype Entry = Entry(key: Text, text: Text)

  predicate UnitLess(x: CodeUnit, y: CodeUnit) { x < y }

  /** The default order on strings. */
  predicate KeyLeq(a: Text, b: Text) { LexLeq(a, b, UnitLess) }

  predicate EntryLeq(a: Entry, b: Entry) {
    KeyLeq(a.key, b.key)
  }

  function Joined(ts: seq<Text>): Text {
    if ts == [] then []
    else if |ts| == 1 then ts[0]
    else ts[0] + [COMMA] + Joined(ts[1..])
  }

  function EntryText(e: Entry): Text {
    Quoted(e.key) + [COLON] + e.text
  }

  function EntryTexts(es: seq<Entry>): (r: seq<Text>)
    ensures |r| == |es| && forall i :: 0 <= i < |r| ==> r[i] == EntryText(es[i])
  {
    seq(|es|, i requires 0 <= i < |es| => EntryText(es[i]))
  }

  function Canonical(v: Json): Text {
    match v
    case Null => [0x6E, 0x75, 0x6C, 0x6C]
    case Bool(b) => if b then [0x74, 0x72, 0x75, 0x65] else [0x66, 0x61, 0x6C, 0x73, 0x65]
    case Num(n) => NumberText(n)
    case Str(s) => Quoted(s)
    case Arr(items) => [OPEN_BRACKET] + Joined(Texts(items)) + [CLOSE_BRACKET]
    case Obj(fields) => [OPEN_BRACE] + Joined(EntryTexts(Sort(Entries(fields), EntryLeq))) + [CLOSE_BRACE]
  }

  function Texts(items: seq<Json>): (r: seq<Text>)
    ensures |r| == |items| && forall i :: 0 <= i < |r| ==> r[i] == Canonical(items[i])
  {
    seq(|items|, i requires 0 <= i < |items| => Canonical(items[i]))
  }

  function Entries(fields: seq<Field>): (r: seq<Entry>)
    ensures |r| == |fields|
    ensures forall i :: 0 <= i < |r| ==> r[i] == Entry(fields[i].key, Canonical(fields[i].value))
  {
    seq(|fields|, i requires 0 <= i < |fields| => Entry(fields[i].key, Canonical(fields[i].value)))
  }

  // ---- Unique readability ------------------------------------------------

  lemma UseSeparable(t: Text, u: Text, r: Text, s: Text)
    requires Separable(t, u) && Stops(r) && Stops(s) && t + r == u + s
    ensures t == u && r == s
  {
    assert r == (t + r)[|t|..] && s == (u + s)[|u|..];
  }

  function AfterFirst(ts: seq<Text>, close: CodeUnit, r: Text): Text
    requires ts != []
  {
    if |ts| == 1 then [close] + r else [COMMA] + (Joined(ts[1..]) + ([close] + r))
  }

  lemma JoinedSplit(ts: seq<Text>, close: CodeUnit, r: Text)
    requires ts != []
    ensures Joined(ts) + ([close] + r) == ts[0] + AfterFirst(ts, close, r)
  {
    if |ts| > 1 {
      Assoc(ts[0] + [COMMA], Joined(ts[1..]), [close] + r);
      Assoc(ts[0], [COMMA], Joined(ts[1..]) + ([close] + r));
    }
  }

  ghost predicate Elements(ts: seq<Text>, close: CodeUnit) {
    forall i :: 0 <= i < |ts| ==> ts[i] != [] && ts[i][0] != close
  }

  /** A closed, comma-separated list of separable texts determines the texts and what follows. */
  lemma {:induction false} JoinedReadable(ts: seq<Text>, us: seq<Text>, close: CodeUnit, r: Text, s: Text)
    requires forall i, j :: 0 <= i < |ts| && 0 <= j < |us| ==> Separable(ts[i], us[j])
    requires Elements(ts, close) && Elements(us, close) && !IsDigitUnit(close) && close != COMMA
    requires Joined(ts) + ([close] + r) == Joined(us) + ([close] + s)
    ensures ts == us && r == s
    decreases |ts|
  {
    if ts == [] || us == [] {
      JoinedEmpty(ts, us, close, r, s);
    } else {
      JoinedSplit(ts, close, r);
      JoinedSplit(us, close, s);
      UseSeparable(ts[0], us[0], AfterFirst(ts, close, r), AfterFirst(us, close, s));
      var x, y := AfterFirst(ts, close, r), AfterFirst(us, close, s);
      assert x[1..] == y[1..] && x[0] == y[0];
      if |ts| == 1 {
        assert |us| == 1 && x[1..] == r && y[1..] == s;
      } else {
        assert x[1..] == Joined(ts[1..]) + ([close] + r) && y[1..] == Joined(us[1..]) + ([close] + s);
        JoinedReadable(ts[1..], us[1..], close, r, s);
        assert ts == [ts[0]] + ts[1..] && us == [us[0]] + us[1..];
      }
    }
  }

  lemma JoinedEmpty(ts: seq<Text>, us: seq<Text>, close: CodeUnit, r: Text, s: Text)
    requires ts == [] || us == []
    requires Elements(ts, close) && Elements(us, close)
    requires Joined(ts) + ([close] + r) == Joined(us) + ([close] + s)
    ensures ts == us && r == s
  {
    JoinedStart(ts, close, r);
    JoinedStart(us, close, s);
    assert ([close] + r)[1..] == r && ([close] + s)[1..] == s;
  }

  lemma JoinedStart(ts: seq<Text>, close: CodeUnit, r: Text)
    requires Elements(ts, close)
    ensures var x := Joined(ts) + ([close] + r); x != [] && (x[0] == close <==> ts == [])
    ensures ts == [] ==> Joined(ts) + ([close] + r) == [close] + r
  {
    if ts != [] {
      JoinedSplit(ts, close, r);
    }
  }

  /** What a canonical text starts with tells the kind of value. */
  function StartClass(u: CodeUnit): nat {
    if u == OPEN_BRACKET then 1
    else if u == OPEN_BRACE then 2
    else if u == QUOTE then 3
    else if u == 0x6E then 4
    else if u == 0x74 then 5
    else if u == 0x66 then 6
    else if u == MINUS || IsDigitUnit(u) then 7
    else 0
  }

  function ClassOf(v: Json): nat {
    match v
    case Arr(_) => 1
    case Obj(_) => 2
    case Str(_) => 3
    case Null => 4
    case Bool(b) => if b then 5 else 6
    case Num(_) => 7
  }

  lemma CanonicalStart(v: Json)
    ensures Canonical(v) != [] && StartClass(Canonical(v)[0]) == ClassOf(v)
  {
  }

  lemma SeparableByClass(a: Json, b: Json)
    requires ClassOf(a) != ClassOf(b)
    ensures Separable(Canonical(a), Canonical(b))
  {
    CanonicalStart(a);
    CanonicalStart(b);
    forall r, s ensures Canonical(a) + r != Canonical(b) + s {
      DifferentStart(Canonical(a), Canonical(b), r, s);
    }
  }

  lemma DifferentStart(t: Text, u: Text, r: Text, s: Text)
    requires t != [] && u != [] && t[0] != u[0]
    ensures t + r != u + s
  {
    assert (t + r)[0] == t[0] && (u + s)[0] == u[0];
  }

  lemma QuotedTail(x: Text, r: Text)
    ensures (Quoted(x) + r)[1..] == Escaped(x) + ([QUOTE] + r)
  {
    Assoc([QUOTE] + Escaped(x), [QUOTE], r);
    Assoc([QUOTE], Escaped(x), [QUOTE] + r);
    assert ([QUOTE] + (Escaped(x) + ([QUOTE] + r)))[1..] == Escaped(x) + ([QUOTE] + r);
  }

  lemma StringReadable(x: Text, y: Text, r: Text, s: Text)
    requires Quoted(x) + r == Quoted(y) + s
    ensures x == y && r == s
  {
    StringRoundTrip(x, r);
    StringRoundTrip(y, s);
    QuotedTail(x, r);
    QuotedTail(y, s);
  }

  lemma EntrySeparable(d: Entry, e: Entry)
    requires Separable(d.text, e.text)
    ensures Separable(EntryText(d), EntryText(e))
    ensures EntryText(d) == EntryText(e) ==> d == e
  {
    forall r, s | Stops(r) && Stops(s) && EntryText(d) + r == EntryText(e) + s ensures d == e {
      assert EntryText(d) + r == Quoted(d.key) + ([COLON] + (d.text + r));
      assert EntryText(e) + s == Quoted(e.key) + ([COLON] + (e.text + s));
      StringReadable(d.key, e.key, [COLON] + (d.text + r), [COLON] + (e.text + s));
      assert ([COLON] + (d.text + r))[1..] == d.text + r && ([COLON] + (e.text + s))[1..] == e.text + s;
      UseSeparable(d.text, e.text, r, s);
    }
    assert EntryText(d) + [] == EntryText(d) && EntryText(e) + [] == EntryText(e);
    assert Stops([]);
  }

  lemma TextsAreElements(items: seq<Json>)
    ensures Elements(Texts(items), CLOSE_BRACKET)
  {
    forall i | 0 <= i < |items| ensures Texts(items)[i] != [] && Texts(items)[i][0] != CLOSE_BRACKET {
      CanonicalStart(items[i]);
    }
  }

  lemma EntriesAreElements(es: seq<Entry>)
    ensures Elements(EntryTexts(es), CLOSE_BRACE)
  {
  }

  ghost predicate TextsSeparable(ds: seq<Entry>, es: seq<Entry>) {
    forall i, j :: 0 <= i < |ds| && 0 <= j < |es| ==> Separable(ds[i].text, es[j].text)
  }

  lemma EntriesReadable(ds: seq<Entry>, es: seq<Entry>, r: Text, s: Text)
    requires TextsSeparable(ds, es)
    requires Joined(EntryTexts(ds)) + ([CLOSE_BRACE] + r) == Joined(EntryTexts(es)) + ([CLOSE_BRACE] + s)
    ensures ds == es && r == s
  {
    forall i, j | 0 <= i < |ds| && 0 <= j < |es|
      ensures Separable(EntryTexts(ds)[i], EntryTexts(es)[j])
        && (EntryTexts(ds)[i] == EntryTexts(es)[j] ==> ds[i] == es[j])
    {
      EntrySeparable(ds[i], es[j]);
    }
    EntriesAreElements(ds);
    EntriesAreElements(es);
    JoinedReadable(EntryTexts(ds), EntryTexts(es), CLOSE_BRACE, r, s);
    assert |ds| == |EntryTexts(ds)| && |es| == |EntryTexts(es)|;
  }

  /** Sorting the entries only moves them, so what holds of all of them still holds. */
  lemma SortedTextsSeparable(ds: seq<Entry>, es: seq<Entry>)
    requires TextsSeparable(ds, es)
    ensures TextsSeparable(Sort(ds, EntryLeq), Sort(es, EntryLeq))
  {
    var x, y := Sort(ds, EntryLeq), Sort(es, EntryLeq);
    SortMembers(ds, EntryLeq);
    SortMembers(es, EntryLeq);
    forall i, j | 0 <= i < |x| && 0 <= j < |y| ensures Separable(x[i].text, y[j].text) {
      assert x[i] in x && y[j] in y;
      var k :| 0 <= k < |ds| && ds[k] == x[i];
      var l :| 0 <= l < |es| && es[l] == y[j];
      assert Separable(ds[k].text, es[l].text);
    }
  }

  lemma Bracketed(open: CodeUnit, body: Text, close: CodeUnit, r: Text)
    ensures ([open] + body + [close] + r)[1..] == body + ([close] + r)
  {
    Assoc([open] + body, [close], r);
    Assoc([open], body, [close] + r);
    assert ([open] + (body + ([close] + r)))[1..] == body + ([close] + r);
  }

  /** No canonical text can be confused with another, whatever follows: the parse is unique. */
  lemma {:induction false} CanonicalSeparable(a: Json, b: Json)
    ensures Separable(Canonical(a), Canonical(b))
  {
    if ClassOf(a) != ClassOf(b) {
      SeparableByClass(a, b);
    } else if a.Arr? {
      forall i, j | 0 <= i < |a.items| && 0 <= j < |b.items| ensures Separable(Texts(a.items)[i], Texts(b.items)[j]) {
        CanonicalSeparable(a.items[i], b.items[j]);
      }
      ArraySeparable(a.items, b.items);
    } else if a.Obj? {
      forall i, j | 0 <= i < |a.fields| && 0 <= j < |b.fields|
        ensures Separable(Entries(a.fields)[i].text, Entries(b.fields)[j].text) {
        CanonicalSeparable(a.fields[i].value, b.fields[j].value);
      }
      ObjectSeparable(a.fields, b.fields);
    } else if a.Str? {
      forall r, s | Quoted(a.s) + r == Quoted(b.s) + s ensures a.s == b.s {
        StringReadable(a.s, b.s, r, s);
      }
    } else if a.Num? {
      NumberSeparable(a.n, b.n);
    }
  }

  lemma ArraySeparable(x: seq<Json>, y: seq<Json>)
    requires forall i, j :: 0 <= i < |x| && 0 <= j < |y| ==> Separable(Texts(x)[i], Texts(y)[j])
    ensures Separable(Canonical(Arr(x)), Canonical(Arr(y)))
    ensures Canonical(Arr(x)) == Canonical(Arr(y)) ==> Texts(x) == Texts(y)
  {
    var t, u := Canonical(Arr(x)), Canonical(Arr(y));
    forall r, s | Stops(r) && Stops(s) && t + r == u + s ensures Texts(x) == Texts(y) {
      Bracketed(OPEN_BRACKET, Joined(Texts(x)), CLOSE_BRACKET, r);
      Bracketed(OPEN_BRACKET, Joined(Texts(y)), CLOSE_BRACKET, s);
      TextsAreElements(x);
      TextsAreElements(y);
      JoinedReadable(Texts(x), Texts(y), CLOSE_BRACKET, r, s);
    }
    assert t + [] == t && u + [] == u && Stops([]);
  }

  lemma ObjectSeparable(x: seq<Field>, y: seq<Field>)
    requires TextsSeparable(Entries(x), Entries(y))
    ensures Separable(Canonical(Obj(x)), Canonical(Obj(y)))
    ensures Canonical(Obj(x)) == Canonical(Obj(y)) ==> Sort(Entries(x), EntryLeq) == Sort(Entries(y), EntryLeq)
  {
    var t, u := Canonical(Obj(x)), Canonical(Obj(y));
    var ds, es := Sort(Entries(x), EntryLeq), Sort(Entries(y), EntryLeq);
    SortedTextsSeparable(Entries(x), Entries(y));
    forall r, s | Stops(r) && Stops(s) && t + r == u + s ensures ds == es {
      Bracketed(OPEN_BRACE, Joined(EntryTexts(ds)), CLOSE_BRACE, r);
      Bracketed(OPEN_BRACE, Joined(EntryTexts(es)), CLOSE_BRACE, s);
      EntriesReadable(ds, es, r, s);
    }
    assert t + [] == t && u + [] == u && Stops([]);
  }

  // ---- Equal texts are equal values --------------------------------------

  /** Equal canonical texts come only from values that are equal up to key order. */
  lemma {:induction false} CanonicalInjective(a: Json, b: Json)
    requires Canonical(a) == Canonical(b)
    ensures Same(a, b)
  {
    CanonicalStart(a);
    CanonicalStart(b);
    if a.Arr? {
      forall i, j | 0 <= i < |a.items| && 0 <= j < |b.items| ensures Separable(Texts(a.items)[i], Texts(b.items)[j]) {
        CanonicalSeparable(a.items[i], b.items[j]);
      }
      ArraySeparable(a.items, b.items);
      assert |a.items| == |Texts(a.items)| == |b.items|;
      forall i | 0 <= i < |a.items| ensures Same(a.items[i], b.items[i]) {
        assert Texts(a.items)[i] == Texts(b.items)[i];
        CanonicalInjective(a.items[i], b.items[i]);
      }
    } else if a.Obj? {
      SameEntries(a.fields, b.fields);
      forall i | 0 <= i < |a.fields|
        ensures exists j ::
          0 <= j < |b.fields| && a.fields[i].key == b.fields[j].key && Same(a.fields[i].value, b.fields[j].value)
      {
        assert Entries(a.fields)[i] in Entries(a.fields);
        var j :| 0 <= j < |Entries(b.fields)| && Entries(b.fields)[j] == Entries(a.fields)[i];
        CanonicalInjective(a.fields[i].value, b.fields[j].value);
      }
    } else if a.Str? {
      StringReadable(a.s, b.s, [], []);
    } else if a.Num? {
      NumberInjective(a.n, b.n);
    }
  }

  lemma SameEntries(x: seq<Field>, y: seq<Field>)
    requires Canonical(Obj(x)) == Canonical(Obj(y))
    ensures |x| == |y| && forall e :: e in Entries(x) <==> e in Entries(y)
  {
    forall i, j | 0 <= i < |x| && 0 <= j < |y| ensures Separable(Entries(x)[i].text, Entries(y)[j].text) {
      CanonicalSeparable(x[i].value, y[j].value);
    }
    ObjectSeparable(x, y);
    SortMembers(Entries(x), EntryLeq);
    SortMembers(Entries(y), EntryLeq);
    assert |x| == |Entries(x)| && |y| == |Entries(y)|;
  }

  // ---- Equal values have equal texts -------------------------------------

  lemma EntryLeqIsPreorder()
    ensures TotalPreorder(EntryLeq)
  {
    forall a, b ensures EntryLeq(a, b) || EntryLeq(b, a) {
      LexLeqTotal(a.key, b.key, UnitLess);
    }
    forall a, b, c | EntryLeq(a, b) && EntryLeq(b, c) ensures EntryLeq(a, c) {
      LexLeqTransitive(a.key, b.key, c.key, UnitLess);
    }
  }

  ghost predicate DistinctKeys(es: seq<Entry>) {
    forall i, j :: 0 <= i < j < |es| ==> es[i].key != es[j].key
  }

  lemma HasMember(es: seq<Entry>)
    requires es != []
    ensures exists e :: e in es
  {
    assert es[0] in es;
  }

  /** One order only: sorted entries with distinct keys are determined by which entries there are. */
  lemma {:induction false} SortedUnique(x: seq<Entry>, y: seq<Entry>)
    requires SortedBy(x, EntryLeq) && SortedBy(y, EntryLeq) && DistinctKeys(x) && DistinctKeys(y)
    requires forall e :: e in x <==> e in y
    ensures x == y
  {
    if x == [] {
      if y != [] {
        HasMember(y);
        assert false;
      }
    } else {
      assert x[0] in x;
      HeadLeast(x, y);
      HeadLeast(y, x);
      LexLeqAntisymmetric(x[0].key, y[0].key, UnitLess);
      assert x[0] == y[0] by {
        assert x[0] in y;
      }
      TailMembers(x);
      TailMembers(y);
      SortedUnique(x[1..], y[1..]);
      assert x == [x[0]] + x[1..] && y == [y[0]] + y[1..];
    }
  }

  lemma HeadLeast(x: seq<Entry>, y: seq<Entry>)
    requires SortedBy(y, EntryLeq) && x != [] && x[0] in y
    ensures y != [] && KeyLeq(y[0].key, x[0].key)
  {
    var k :| 0 <= k < |y| && y[k] == x[0];
    LexLeqTotal(y[0].key, y[0].key, UnitLess);
    assert k > 0 ==> EntryLeq(y[0], y[k]);
  }

  lemma TailMembers(x: seq<Entry>)
    requires x != [] && DistinctKeys(x)
    ensures forall e :: e in x[1..] <==> e in x && e != x[0]
  {
    forall e | e in x && e != x[0] ensures e in x[1..] {
      var k :| 0 <= k < |x| && x[k] == e;
      assert x[1..][k - 1] == e;
    }
  }

  lemma SortDistinctKeys(x: seq<Entry>)
    requires DistinctKeys(x)
    ensures DistinctKeys(Sort(x, EntryLeq))
  {
    var r := Sort(x, EntryLeq);
    assert Distinct(x);
    SortDistinct(x, EntryLeq);
    SortMembers(x, EntryLeq);
    forall i, j | 0 <= i < j < |r| ensures r[i].key != r[j].key {
      assert r[i] in r && r[j] in r;
      var k :| 0 <= k < |x| && x[k] == r[i];
      var l :| 0 <= l < |x| && x[l] == r[j];
      assert k != l;
    }
  }

  lemma SameSorted(x: seq<Entry>, y: seq<Entry>)
    requires DistinctKeys(x) && DistinctKeys(y) && forall e :: e in x <==> e in y
    ensures Sort(x, EntryLeq) == Sort(y, EntryLeq)
  {
    EntryLeqIsPreorder();
    SortIsSorted(x, EntryLeq);
    SortIsSorted(y, EntryLeq);
    SortDistinctKeys(x);
    SortDistinctKeys(y);
    SortMembers(x, EntryLeq);
    SortMembers(y, EntryLeq);
    SortedUnique(Sort(x, EntryLeq), Sort(y, EntryLeq));
  }

  /** As many entries, without repeats, all found in the other list: the same entries. */
  lemma SubsetSameLength(x: seq<Entry>, y: seq<Entry>)
    requires Distinct(x) && |x| == |y| && forall e :: e in x ==> e in y
    ensures forall e :: e in y ==> e in x
  {
    DistinctCounts(x);
    assert multiset(x) <= multiset(y) by {
      forall e | e in multiset(x) ensures multiset(x)[e] <= multiset(y)[e] {
        assert e in x && e in y;
      }
    }
    var extra := multiset(y) - multiset(x);
    assert |multiset(y)| == |multiset(x)| + |extra|;
    assert extra == multiset{};
    forall e | e in y ensures e in x {
      assert e in multiset(y);
    }
  }

  lemma {:induction false} SameCanonical(a: Json, b: Json)
    requires Proper(a) && Proper(b) && Same(a, b)
    ensures Canonical(a) == Canonical(b)
  {
    if a.Arr? && b.Arr? {
      forall i | 0 <= i < |a.items| ensures Texts(a.items)[i] == Texts(b.items)[i] {
        SameCanonical(a.items[i], b.items[i]);
      }
      assert Texts(a.items) == Texts(b.items);
    } else if a.Obj? && b.Obj? {
      var x, y := Entries(a.fields), Entries(b.fields);
      forall i | 0 <= i < |x| ensures x[i] in y {
        var j :| 0 <= j < |b.fields| && a.fields[i].key == b.fields[j].key
          && Same(a.fields[i].value, b.fields[j].value);
        SameCanonical(a.fields[i].value, b.fields[j].value);
        assert x[i] == y[j];
      }
      assert DistinctKeys(x) && DistinctKeys(y);
      assert Distinct(x);
      SubsetSameLength(x, y);
      SameSorted(x, y);
    }
  }

  /** Two values have one canonical text exactly when they are equal up to the order of object keys. */
  lemma CanonicalIffSame(a: Json, b: Json)
    requires Proper(a) && Proper(b)
    ensures Canonical(a) == Canonical(b) <==> Same(a, b)
  {
    if Canonical(a) == Canonical(b) {
      CanonicalInjective(a, b);
    }
    if Same(a, b) {
      SameCanonical(a, b);
    }
  }

  // ---- What a digest covers ----------------------------------------------

  function Without(fields: seq<Field>, key: Text): (r: seq<Field>)
    ensures forall f :: f in r <==> f in fields && f.key != key
  {
    if fields == [] then []
    else
      assert fields == [fields[0]] + fields[1..];
      (if fields[0].key == key then [] else [fields[0]]) + Without(fields[1..], key)
  }

  lemma KeyAbsent(fields: seq<Field>, r: seq<Field>)
    requires fields != [] && Proper(Obj(fields)) && forall f :: f in r ==> f in fields[1..]
    ensures forall i :: 0 <= i < |r| ==> r[i].key != fields[0].key
  {
    forall i | 0 <= i < |r| ensures r[i].key != fields[0].key {
      assert r[i] in r;
      var j :| 0 <= j < |fields[1..]| && fields[1..][j] == r[i];
      assert fields[j + 1] == r[i];
    }
  }

  lemma {:induction false} WithoutProper(fields: seq<Field>, key: Text)
    requires Proper(Obj(fields))
    ensures Proper(Obj(Without(fields, key)))
  {
    if fields != [] {
      var tail := fields[1..];
      assert forall i :: 0 <= i < |tail| ==> tail[i] == fields[i + 1];
      WithoutProper(tail, key);
      var r := Without(tail, key);
      assert fields == [fields[0]] + tail;
      KeyAbsent(fields, r);
      ConsProper(fields[0], r);
      assert Without(fields, key) == (if fields[0].key == key then r else [fields[0]] + r);
    }
  }

  lemma ConsProper(f: Field, r: seq<Field>)
    requires Proper(f.value) && Proper(Obj(r)) && forall i :: 0 <= i < |r| ==> r[i].key != f.key
    ensures Proper(Obj([f] + r))
  {
    var all := [f] + r;
    assert forall i :: 1 <= i < |all| ==> all[i] == r[i - 1];
  }

  /**
   The evidence digest is taken over the receipt without its digest field. Whatever hash is
   used, two receipts are hashed over the same text exactly when they agree, up to key order,
   on everything but that field.
   */
  lemma DigestCovers(a: seq<Field>, b: seq<Field>, digestKey: Text)
    requires Proper(Obj(a)) && Proper(Obj(b))
    ensures Canonical(Obj(Without(a, digestKey))) == Canonical(Obj(Without(b, digestKey)))
      <==> Same(Obj(Without(a, digestKey)), Obj(Without(b, digestKey)))
  {
    WithoutProper(a, digestKey);
    WithoutProper(b, digestKey);
    CanonicalIffSame(Obj(Without(a, digestKey)), Obj(Without(b, digestKey)));
  }

  // ---- The order of the keys ---------------------------------------------

  /** `a` comes before `b`: it has the smaller code unit where they first differ, or is a proper prefix. */
  predicate Before(a: Text, b: Text) {
    exists n :: 0 <= n <= |a| && n < |b| && a[..n] == b[..n] && (n == |a| || a[n] < b[n])
  }

  lemma {:induction false} KeyLeqIsBefore(a: Text, b: Text)
    requires KeyLeq(a, b) && a != b
    ensures Before(a, b)
  {
    if a != [] && a[0] == b[0] {
      assert a == [a[0]] + a[1..] && b == [b[0]] + b[1..];
      KeyLeqIsBefore(a[1..], b[1..]);
      var c, d := a[1..], b[1..];
      var n :| 0 <= n <= |c| && n < |d| && c[..n] == d[..n] && (n == |c| || c[n] < d[n]);
      assert a[..n + 1] == [a[0]] + c[..n] && b[..n + 1] == [b[0]] + d[..n];
    } else {
      assert a[..0] == b[..0];
    }
  }

  /** The entries a canonical object is printed from are its fields, with keys that ascend by code unit. */
  lemma KeysAscend(fields: seq<Field>)
    requires DistinctKeys(Entries(fields))
    ensures var es := Sort(Entries(fields), EntryLeq);
      && Canonical(Obj(fields)) == [OPEN_BRACE] + Joined(EntryTexts(es)) + [CLOSE_BRACE]
      && multiset(es) == multiset(Entries(fields))
      && forall i, j :: 0 <= i < j < |es| ==> Before(es[i].key, es[j].key)
  {
    var es := Sort(Entries(fields), EntryLeq);
    EntryLeqIsPreorder();
    SortIsSorted(Entries(fields), EntryLeq);
    SortDistinctKeys(Entries(fields));
    forall i, j | 0 <= i < j < |es| ensures Before(es[i].key, es[j].key) {
      assert EntryLeq(es[i], es[j]);
      KeyLeqIsBefore(es[i].key, es[j].key);
    }
  }

  // ---- Numbers -----------------------------------------------------------

  /** A number is written with a minus sign when negative, and the digits of its size, the first not zero. */
  lemma NumberIsDecimal(n: int) returns (ds: seq<Digit>)
    ensures NumberText(n) == (if n < 0 then [0x2D] else []) + UnitsOf(ds)
    ensures Value(ds) == (if n < 0 then -n else n) && ds != [] && (n != 0 ==> ds[0] != 0) && (n == 0 ==> ds == [0])
    ensures forall i :: 0 <= i < |ds| ==> UnitsOf(ds)[i] as int == '0' as int + ds[i]
  {
    ds := Digits(if n < 0 then -n else n);
    ValueOfDigits(if n < 0 then -n else n);
  }

  // ---- The letters and signs ---------------------------------------------

  /** ASCII text as code units. */
  function Units(s: string): (r: Text)
    requires forall i :: 0 <= i < |s| ==> s[i] < '\U{0080}'
    ensures |r| == |s| && forall i :: 0 <= i < |r| ==> r[i] == s[i] as int
  {
    seq(|s|, i requires 0 <= i < |s| => s[i] as int)
  }

  /** The three words. */
  lemma CanonicalWords()
    ensures Canonical(Null) == Units("null")
    ensures Canonical(Bool(true)) == Units("true") && Canonical(Bool(false)) == Units("false")
  {
  }

  /** How an array and an object are made of their parts. */
  lemma CanonicalSigns(items: seq<Json>, fields: seq<Field>, e: Entry)
    ensures Canonical(Arr(items)) == Units("[") + Joined(Texts(items)) + Units("]")
    ensures Canonical(Obj(fields)) == Units("{") + Joined(EntryTexts(Sort(Entries(fields), EntryLeq))) + Units("}")
    ensures EntryText(e) == Quoted(e.key) + Units(":") + e.text
  {
    assert Units("[") == [OPEN_BRACKET] && Units("]") == [CLOSE_BRACKET] && Units(":") == [COLON];
    assert Units("{") == [OPEN_BRACE] && Units("}") == [CLOSE_BRACE];
  }

  /** The parts are separated by commas. */
  lemma JoinedByCommas(a: Text, b: Text, more: seq<Text>)
    ensures Joined([]) == [] && Joined([a]) == a && Joined([a, b] + more) == a + Units(",") + Joined([b] + more)
  {
    assert ([a, b] + more)[1..] == [b] + more;
    assert Units(",") == [COMMA];
  }
}
