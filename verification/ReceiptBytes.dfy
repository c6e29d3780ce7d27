/**
 The UTF-8 size of the canonical text (scripts/assurance-receipt.ts), and exactly how far the
 size walk's estimate is from it.
 */
module ReceiptBytes {
  import opened CanonicalJson
  import opened ReceiptSize
  import opened Sorting

  // ---- UTF-8 length ------------------------------------------------------

  function UnitCost(u: CodeUnit): nat {
    if u < 0x80 then 1 else if u < 0x800 then 2 else if IsLead(u) || IsTrail(u) then 2 else 3
  }

  /** Bytes the encoder writes: four for a surrogate pair, three for the replacement of a lone surrogate. */
  function Utf8Length(x: Text): nat
    decreases |x|
  {
    if x == [] then 0
    else if StartsWithPair(x) then 4 + Utf8Length(x[2..])
    else if IsLead(x[0]) || IsTrail(x[0]) then 3 + Utf8Length(x[1..])
    else UnitCost(x[0]) + Utf8Length(x[1..])
  }

  function Cost(x: Text): nat {
    if x == [] then 0 else UnitCost(x[0]) + Cost(x[1..])
  }

  /** Every surrogate is half of a pair. */
  predicate WellPaired(x: Text)
    decreases |x|
  {
    || x == []
    || (StartsWithPair(x) && WellPaired(x[2..]))
    || (!IsLead(x[0]) && !IsTrail(x[0]) && WellPaired(x[1..]))
  }

  lemma {:induction false} Utf8IsCost(x: Text)
    requires WellPaired(x)
    ensures Utf8Length(x) == Cost(x)
    decreases |x|
  {
    if x == [] {
    } else if StartsWithPair(x) {
      Utf8IsCost(x[2..]);
      assert x[1..][1..] == x[2..];
    } else {
      Utf8IsCost(x[1..]);
    }
  }

  lemma {:induction false} CostAppend(a: Text, b: Text)
    ensures Cost(a + b) == Cost(a) + Cost(b)
  {
    if a == [] {
      assert a + b == b;
    } else {
      CostAppend(a[1..], b);
      assert (a + b)[1..] == a[1..] + b;
    }
  }

  lemma {:induction false} WellPairedAppend(a: Text, b: Text)
    requires WellPaired(a) && WellPaired(b)
    ensures WellPaired(a + b)
    decreases |a|
  {
    if a == [] {
      assert a + b == b;
    } else if StartsWithPair(a) {
      WellPairedAppend(a[2..], b);
      assert (a + b)[2..] == a[2..] + b;
    } else {
      WellPairedAppend(a[1..], b);
      assert (a + b)[1..] == a[1..] + b;
    }
  }

  lemma {:induction false} PlainText(x: Text)
    requires forall i :: 0 <= i < |x| ==> x[i] < 0x80
    ensures WellPaired(x) && Cost(x) == |x|
  {
    if x != [] {
      PlainText(x[1..]);
    }
  }

  lemma {:induction false} EscapedText(s: Text)
    ensures WellPaired(Escaped(s)) && Cost(Escaped(s)) >= |s|
    decreases |s|
  {
    if s == [] {
    } else if StartsWithPair(s) {
      EscapedText(s[2..]);
      var pair := [s[0], s[1]];
      assert pair[1..] == [s[1]] && pair[2..] == [];
      assert Cost([s[1]]) == 2 by {
        assert [s[1]][1..] == [];
      }
      assert WellPaired(pair) && Cost(pair) == 4;
      WellPairedAppend(pair, Escaped(s[2..]));
      CostAppend(pair, Escaped(s[2..]));
    } else {
      EscapedText(s[1..]);
      EscapedUnit(s[0]);
      WellPairedAppend(EscapeUnit(s[0]), Escaped(s[1..]));
      CostAppend(EscapeUnit(s[0]), Escaped(s[1..]));
    }
  }

  lemma EscapedUnit(u: CodeUnit)
    ensures WellPaired(EscapeUnit(u)) && Cost(EscapeUnit(u)) >= 1
  {
    if EscapeUnit(u) == [u] {
      assert [u][1..] == [];
    } else {
      PlainText(EscapeUnit(u));
    }
  }

  lemma QuotedText(s: Text)
    ensures WellPaired(Quoted(s)) && Cost(Quoted(s)) == Cost(Escaped(s)) + 2
  {
    EscapedText(s);
    PlainText([QUOTE]);
    WellPairedAppend([QUOTE], Escaped(s));
    WellPairedAppend([QUOTE] + Escaped(s), [QUOTE]);
    CostAppend([QUOTE], Escaped(s));
    CostAppend([QUOTE] + Escaped(s), [QUOTE]);
  }

  // ---- The canonical text's size -----------------------------------------

  ghost predicate AllWellPaired(ts: seq<Text>) {
    forall i :: 0 <= i < |ts| ==> WellPaired(ts[i])
  }

  function TotalCost(ts: seq<Text>): nat {
    if ts == [] then 0 else Cost(ts[0]) + TotalCost(ts[1..])
  }

  lemma {:induction false} JoinedText(ts: seq<Text>)
    requires AllWellPaired(ts)
    ensures WellPaired(Joined(ts)) && Cost(Joined(ts)) + 2 == TotalCost(ts) + Separators(|ts|)
  {
    if |ts| > 1 {
      JoinedText(ts[1..]);
      PlainText([COMMA]);
      WellPairedAppend(ts[0], [COMMA]);
      WellPairedAppend(ts[0] + [COMMA], Joined(ts[1..]));
      CostAppend(ts[0], [COMMA]);
      CostAppend(ts[0] + [COMMA], Joined(ts[1..]));
    } else if |ts| == 1 {
      assert ts[1..] == [];
    }
  }

  lemma EnclosedText(open: CodeUnit, body: Text, close: CodeUnit)
    requires open < 0x80 && close < 0x80 && WellPaired(body)
    ensures WellPaired([open] + body + [close]) && Cost([open] + body + [close]) == Cost(body) + 2
  {
    PlainText([open]);
    PlainText([close]);
    WellPairedAppend([open], body);
    WellPairedAppend([open] + body, [close]);
    CostAppend([open], body);
    CostAppend([open] + body, [close]);
  }

  /** The size of the canonical text, field by field in the order the object lists them. */
  function RealSize(v: Json): nat {
    match v
    case Arr(items) => Separators(|items|) + ItemsReal(items)
    case Obj(fields) => Separators(|fields|) + FieldsReal(fields)
    case Str(s) => Cost(Escaped(s)) + 2
    case _ => |Canonical(v)|
  }

  function ItemsReal(items: seq<Json>): nat {
    if items == [] then 0 else RealSize(items[0]) + ItemsReal(items[1..])
  }

  function FieldsReal(fields: seq<Field>): nat {
    if fields == [] then 0 else Cost(Escaped(fields[0].key)) + 3 + RealSize(fields[0].value) + FieldsReal(fields[1..])
  }

  function EntriesCost(es: seq<Entry>): nat {
    if es == [] then 0 else Cost(EntryText(es[0])) + EntriesCost(es[1..])
  }

  lemma {:induction false} EntryTextsCost(es: seq<Entry>)
    ensures TotalCost(EntryTexts(es)) == EntriesCost(es)
  {
    if es != [] {
      EntryTextsCost(es[1..]);
      assert EntryTexts(es)[1..] == EntryTexts(es[1..]);
    }
  }

  lemma {:induction false} InsertCost(e: Entry, es: seq<Entry>)
    ensures EntriesCost(Insert(e, es, EntryLeq)) == Cost(EntryText(e)) + EntriesCost(es)
  {
    if es != [] {
      var r := Insert(e, es, EntryLeq);
      if EntryLeq(e, es[0]) {
        assert r[1..] == es;
      } else {
        InsertCost(e, es[1..]);
        assert r[1..] == Insert(e, es[1..], EntryLeq);
      }
    }
  }

  lemma {:induction false} SortCost(es: seq<Entry>)
    ensures EntriesCost(Sort(es, EntryLeq)) == EntriesCost(es)
  {
    if es != [] {
      SortCost(es[1..]);
      InsertCost(es[0], Sort(es[1..], EntryLeq));
    }
  }

  lemma EntryTextSize(e: Entry)
    requires WellPaired(e.text)
    ensures WellPaired(EntryText(e)) && Cost(EntryText(e)) == Cost(Escaped(e.key)) + 3 + Cost(e.text)
  {
    QuotedText(e.key);
    PlainText([COLON]);
    WellPairedAppend(Quoted(e.key), [COLON]);
    WellPairedAppend(Quoted(e.key) + [COLON], e.text);
    CostAppend(Quoted(e.key), [COLON]);
    CostAppend(Quoted(e.key) + [COLON], e.text);
  }

  /** The canonical text has no lone surrogate, and its size is what the fields add up to. */
  lemma {:induction false} CanonicalSize(v: Json)
    ensures WellPaired(Canonical(v)) && Cost(Canonical(v)) == RealSize(v)
    decreases v, 1, 0
  {
    match v {
      case Arr(items) =>
        ItemsSize(items, v);
        JoinedText(Texts(items));
        EnclosedText(OPEN_BRACKET, Joined(Texts(items)), CLOSE_BRACKET);
      case Obj(fields) =>
        FieldsSize(fields, v);
        var es := Sort(Entries(fields), EntryLeq);
        SortCost(Entries(fields));
        SortMembers(Entries(fields), EntryLeq);
        forall i | 0 <= i < |es| ensures WellPaired(EntryTexts(es)[i]) {
          assert es[i] in es;
          EntryTextSize(es[i]);
        }
        EntryTextsCost(es);
        JoinedText(EntryTexts(es));
        EnclosedText(OPEN_BRACE, Joined(EntryTexts(es)), CLOSE_BRACE);
      case Str(s) => QuotedText(s);
      case Num(n) => NumberPlain(n);
      case _ => PlainText(Canonical(v));
    }
  }

  lemma NumberPlain(n: int)
    ensures WellPaired(NumberText(n)) && Cost(NumberText(n)) == |NumberText(n)|
  {
    PlainText(NumberText(n));
  }

  lemma {:induction false} ItemsSize(items: seq<Json>, whole: Json)
    requires forall i :: 0 <= i < |items| ==> items[i] < whole
    ensures AllWellPaired(Texts(items)) && TotalCost(Texts(items)) == ItemsReal(items)
    decreases whole, 0, |items|
  {
    if items != [] {
      CanonicalSize(items[0]);
      ItemsSize(items[1..], whole);
      assert Texts(items)[1..] == Texts(items[1..]);
      assert forall i :: 0 < i < |items| ==> Texts(items)[i] == Texts(items[1..])[i - 1];
    }
  }

  lemma {:induction false} FieldsSize(fields: seq<Field>, whole: Json)
    requires forall i :: 0 <= i < |fields| ==> fields[i].value < whole
    ensures forall e :: e in Entries(fields) ==> WellPaired(e.text)
    ensures EntriesCost(Entries(fields)) == FieldsReal(fields)
    decreases whole, 0, |fields|
  {
    if fields != [] {
      CanonicalSize(fields[0].value);
      FieldsSize(fields[1..], whole);
      EntryTextSize(Entries(fields)[0]);
      assert Entries(fields)[1..] == Entries(fields[1..]);
      assert Entries(fields) == [Entries(fields)[0]] + Entries(fields[1..]);
    }
  }

  // ---- Estimate against reality ------------------------------------------

  /** What the estimate charges too much for: 8 for each scalar that is not a string, whatever its text. */
  function ScalarGap(v: Json): int {
    match v
    case Arr(items) => ItemsScalarGap(items)
    case Obj(fields) => FieldsScalarGap(fields)
    case Str(_) => 0
    case _ => 8 - |Canonical(v)|
  }

  function ItemsScalarGap(items: seq<Json>): int {
    if items == [] then 0 else ScalarGap(items[0]) + ItemsScalarGap(items[1..])
  }

  function FieldsScalarGap(fields: seq<Field>): int {
    if fields == [] then 0 else ScalarGap(fields[0].value) + FieldsScalarGap(fields[1..])
  }

  /** What it charges too little for: escapes and multi-byte characters in strings and keys. */
  function StringGap(v: Json): int {
    match v
    case Arr(items) => ItemsStringGap(items)
    case Obj(fields) => FieldsStringGap(fields)
    case Str(s) => Cost(Escaped(s)) - |s|
    case _ => 0
  }

  function ItemsStringGap(items: seq<Json>): int {
    if items == [] then 0 else StringGap(items[0]) + ItemsStringGap(items[1..])
  }

  function FieldsStringGap(fields: seq<Field>): int {
    if fields == [] then 0
    else Cost(Escaped(fields[0].key)) - |fields[0].key| + StringGap(fields[0].value) + FieldsStringGap(fields[1..])
  }

  /** How many scalars are not strings. */
  function Scalars(v: Json): nat {
    match v
    case Arr(items) => ItemsScalars(items)
    case Obj(fields) => FieldsScalars(fields)
    case Str(_) => 0
    case _ => 1
  }

  function ItemsScalars(items: seq<Json>): nat {
    if items == [] then 0 else Scalars(items[0]) + ItemsScalars(items[1..])
  }

  function FieldsScalars(fields: seq<Field>): nat {
    if fields == [] then 0 else Scalars(fields[0].value) + FieldsScalars(fields[1..])
  }

  ghost predicate Balanced(estimate: nat, size: nat, scalarGap: int, stringGap: int, scalars: nat) {
    && size + scalarGap == estimate + stringGap
    && stringGap >= 0 && scalarGap <= 7 * scalars && (scalars == 0 ==> scalarGap == 0)
  }

  lemma {:induction false} Balance(v: Json)
    ensures Balanced(Estimate(v), RealSize(v), ScalarGap(v), StringGap(v), Scalars(v))
    decreases v, 1, 0
  {
    match v {
      case Arr(items) => ItemsBalance(items, v);
      case Obj(fields) => FieldsBalance(fields, v);
      case Str(s) => EscapedText(s);
      case _ => CanonicalStart(v);
    }
  }

  lemma {:induction false} ItemsBalance(items: seq<Json>, whole: Json)
    requires forall i :: 0 <= i < |items| ==> items[i] < whole
    ensures Balanced(ItemsEstimate(items), ItemsReal(items), ItemsScalarGap(items), ItemsStringGap(items),
      ItemsScalars(items))
    decreases whole, 0, |items|
  {
    if items != [] {
      Balance(items[0]);
      ItemsBalance(items[1..], whole);
    }
  }

  lemma {:induction false} FieldsBalance(fields: seq<Field>, whole: Json)
    requires forall i :: 0 <= i < |fields| ==> fields[i].value < whole
    ensures Balanced(FieldsEstimate(fields), FieldsReal(fields), FieldsScalarGap(fields), FieldsStringGap(fields),
      FieldsScalars(fields))
    decreases whole, 0, |fields|
  {
    if fields != [] {
      Balance(fields[0].value);
      FieldsBalance(fields[1..], whole);
      EscapedText(fields[0].key);
    }
  }

  /**
   The estimate stays at or below the real size exactly when the scalars' overcharge does not
   exceed what the strings were undercharged. It is never more than 7 bytes per non-string
   scalar above it, and never above it when every scalar is a string.
   */
  lemma EstimateAgainstSize(v: Json)
    ensures Estimate(v) <= Utf8Length(Canonical(v)) <==> ScalarGap(v) <= StringGap(v)
    ensures Estimate(v) <= Utf8Length(Canonical(v)) + 7 * Scalars(v)
    ensures Scalars(v) == 0 ==> Estimate(v) <= Utf8Length(Canonical(v))
  {
    CanonicalSize(v);
    Utf8IsCost(Canonical(v));
    Balance(v);
  }

  /** So a value that the walk lets through, and then the exact check, really is within the bound and the depth. */
  lemma AcceptedSize(v: Json)
    requires !Walk(v, 1, Budget(0, false, false, 0)).Stopped()
    ensures DepthFits(v, MAX_DEPTH)
    ensures Walk(v, 1, Budget(0, false, false, 0)).bytes <= Utf8Length(Canonical(v)) + 7 * Scalars(v)
  {
    WalkExact(v, 1, Budget(0, false, false, 0));
    EstimateAgainstSize(v);
  }
}
