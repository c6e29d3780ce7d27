/**
 Refusing a receipt on the size walk's estimate (scripts/assurance-receipt.ts): exactly when that
 is wrong, when it is sound, and how every ordinary receipt has a wrongly refused neighbour.
 */
module FalseRefusal {
  import opened CanonicalJson
  import opened ReceiptBytes
  import opened ReceiptSize

  const FRESH_BUDGET := Budget(0, false, false, 0)

  /** The walk refuses the value as oversized. */
  predicate Refused(v: Json) { Walk(v, 1, FRESH_BUDGET).overflow }

  /** It does so although the canonical text is within the bound. */
  predicate WronglyRefused(v: Json) { Refused(v) && Utf8Length(Canonical(v)) <= MAX_RECEIPT_BYTES }

  lemma RealLength(v: Json)
    ensures Utf8Length(Canonical(v)) == RealSize(v)
  {
    CanonicalSize(v);
    Utf8IsCost(Canonical(v));
  }

  /** A value within the depth bound is refused exactly when its estimate passes the bound. */
  lemma RefusedIff(v: Json)
    requires DepthFits(v, MAX_DEPTH)
    ensures Refused(v) <==> Estimate(v) > MAX_RECEIPT_BYTES
  {
    WalkExact(v, 1, FRESH_BUDGET);
    FlatStaysFlat(v, 1, FRESH_BUDGET);
  }

  /**
   And wrongly so exactly when the short scalars account for the excess: it is positive, and at
   most what they are overcharged by less what the strings are undercharged by.
   */
  lemma WronglyRefusedIff(v: Json)
    requires DepthFits(v, MAX_DEPTH)
    ensures WronglyRefused(v) <==> 0 < Estimate(v) - MAX_RECEIPT_BYTES <= ScalarGap(v) - StringGap(v)
  {
    RefusedIff(v);
    RealLength(v);
    Balance(v);
  }

  // ---- When refusing is sound --------------------------------------------

  /** Every scalar is a string, or at least eight characters long. */
  predicate LongScalars(v: Json) {
    match v
    case Arr(items) => forall i :: 0 <= i < |items| ==> LongScalars(items[i])
    case Obj(fields) => forall i :: 0 <= i < |fields| ==> LongScalars(fields[i].value)
    case Str(_) => true
    case _ => |Canonical(v)| >= 8
  }

  lemma {:induction false} LongScalarsGap(v: Json)
    requires LongScalars(v)
    ensures ScalarGap(v) <= 0
    decreases v, 1, 0
  {
    match v {
      case Arr(items) => LongItemsGap(items, v);
      case Obj(fields) => LongFieldsGap(fields, v);
      case _ =>
    }
  }

  lemma {:induction false} LongItemsGap(items: seq<Json>, whole: Json)
    requires forall i :: 0 <= i < |items| ==> items[i] < whole && LongScalars(items[i])
    ensures ItemsScalarGap(items) <= 0
    decreases whole, 0, |items|
  {
    if items != [] {
      LongScalarsGap(items[0]);
      LongItemsGap(items[1..], whole);
    }
  }

  lemma {:induction false} LongFieldsGap(fields: seq<Field>, whole: Json)
    requires forall i :: 0 <= i < |fields| ==> fields[i].value < whole && LongScalars(fields[i].value)
    ensures FieldsScalarGap(fields) <= 0
    decreases whole, 0, |fields|
  {
    if fields != [] {
      LongScalarsGap(fields[0].value);
      LongFieldsGap(fields[1..], whole);
    }
  }

  /** Without short scalars the estimate is a lower bound, so nothing is wrongly refused. */
  lemma SoundOnLongScalars(v: Json)
    requires LongScalars(v)
    ensures Estimate(v) <= Utf8Length(Canonical(v)) && !WronglyRefused(v)
  {
    LongScalarsGap(v);
    Balance(v);
    EstimateAgainstSize(v);
    if DepthFits(v, MAX_DEPTH) {
      WronglyRefusedIff(v);
    } else {
      OverflowMeansSize(v);
    }
  }

  /** Whatever the depth, the walk's total never passes the estimate. */
  lemma OverflowMeansSize(v: Json)
    ensures Refused(v) ==> Estimate(v) > MAX_RECEIPT_BYTES
  {
    WalkAtMost(v, 1, FRESH_BUDGET);
  }

  /** The total is at most the estimate, and the size flag is raised only above the bound. */
  predicate AtMost(b: Budget, c: Budget, estimate: nat) {
    c.bytes <= b.bytes + estimate && (c.overflow && !b.overflow ==> c.bytes > MAX_RECEIPT_BYTES)
  }

  lemma {:induction false} WalkAtMost(v: Json, depth: nat, b: Budget)
    ensures AtMost(b, Walk(v, depth, b), Estimate(v))
    decreases v, 1, 0
  {
    if !b.Stopped() && depth <= MAX_DEPTH {
      match v {
        case Arr(items) =>
          ItemsAtMost(items, depth + 1, b.(bytes := b.bytes + Separators(|items|), visits := b.visits + 1), v);
        case Obj(fields) =>
          FieldsAtMost(fields, depth + 1, b.(bytes := b.bytes + Separators(|fields|), visits := b.visits + 1), v);
        case _ =>
      }
    }
  }

  lemma {:induction false} ItemsAtMost(items: seq<Json>, depth: nat, b: Budget, whole: Json)
    requires forall i :: 0 <= i < |items| ==> items[i] < whole
    ensures AtMost(b, WalkItems(items, depth, b), ItemsEstimate(items))
    decreases whole, 0, |items|
  {
    if items != [] && !b.Stopped() {
      WalkAtMost(items[0], depth, b);
      ItemsAtMost(items[1..], depth, Walk(items[0], depth, b), whole);
      if Walk(items[0], depth, b).overflow {
        assert WalkItems(items[1..], depth, Walk(items[0], depth, b)).overflow;
        StoppedBytes(items[1..], [], depth, Walk(items[0], depth, b));
      }
    }
  }

  lemma {:induction false} FieldsAtMost(fields: seq<Field>, depth: nat, b: Budget, whole: Json)
    requires forall i :: 0 <= i < |fields| ==> fields[i].value < whole
    ensures AtMost(b, WalkFields(fields, depth, b), FieldsEstimate(fields))
    decreases whole, 0, |fields|
  {
    if fields != [] && !b.Stopped() {
      var c := b.(bytes := b.bytes + |fields[0].key| + 3);
      if c.bytes <= MAX_RECEIPT_BYTES {
        WalkAtMost(fields[0].value, depth, c);
        FieldsAtMost(fields[1..], depth, Walk(fields[0].value, depth, c), whole);
        if Walk(fields[0].value, depth, c).overflow {
          StoppedBytes([], fields[1..], depth, Walk(fields[0].value, depth, c));
        }
      }
    }
  }

  lemma StoppedBytes(items: seq<Json>, fields: seq<Field>, depth: nat, b: Budget)
    requires b.Stopped()
    ensures WalkItems(items, depth, b).bytes == b.bytes && WalkFields(fields, depth, b).bytes == b.bytes
  {
  }

  /** A refusal by more than seven bytes for each scalar that is not a string is right. */
  lemma MarginIsSound(v: Json)
    requires Estimate(v) > MAX_RECEIPT_BYTES + 7 * Scalars(v)
    ensures Utf8Length(Canonical(v)) > MAX_RECEIPT_BYTES && !WronglyRefused(v)
  {
    EstimateAgainstSize(v);
  }

  // ---- A receipt with many findings --------------------------------------

  const CLASS_KEY: Text := [0x63, 0x6C, 0x61, 0x73, 0x73]
  const COUNT_KEY: Text := [0x63, 0x6F, 0x75, 0x6E, 0x74]
  const FINDINGS_KEY: Text := [0x66, 0x69, 0x6E, 0x64, 0x69, 0x6E, 0x67, 0x73]

  const MAX_FINDINGS := 256

  function Letters(n: nat): (r: Text)
    ensures |r| == n && forall i :: 0 <= i < n ==> r[i] == 0x61
  {
    seq(n, _ => 0x61)
  }

  /** A finding whose class has `n` letters, counted once. */
  function Finding(n: nat): Json {
    Obj([Field(CLASS_KEY, Str(Letters(n))), Field(COUNT_KEY, Num(1))])
  }

  function Findings(k: nat, n: nat): (r: seq<Json>)
    ensures |r| == k && forall i :: 0 <= i < k ==> r[i] == Finding(n)
  {
    seq(k, _ => Finding(n))
  }

  /** A receipt of the given other fields, with the greatest allowed number of such findings. */
  function Reported(others: seq<Field>, n: nat): Json {
    Obj(others + [Field(FINDINGS_KEY, Arr(Findings(MAX_FINDINGS, n)))])
  }

  predicate IsPlain(s: Text) { forall i :: 0 <= i < |s| ==> 0x61 <= s[i] <= 0x7A }

  lemma {:induction false} PlainIsNotEscaped(s: Text)
    requires IsPlain(s)
    ensures Escaped(s) == s && Cost(Escaped(s)) == |s|
  {
    if s != [] {
      PlainIsNotEscaped(s[1..]);
      assert EscapeUnit(s[0]) == [s[0]];
      assert s == [s[0]] + s[1..];
    }
  }

  lemma FieldsCons(f: Field, rest: seq<Field>)
    ensures FieldsEstimate([f] + rest) == |f.key| + 3 + Estimate(f.value) + FieldsEstimate(rest)
    ensures FieldsReal([f] + rest) == Cost(Escaped(f.key)) + 3 + RealSize(f.value) + FieldsReal(rest)
  {
    assert ([f] + rest)[1..] == rest;
  }

  /** What the estimate and the real size of `c` come to, when its fields are those of `a` and then of `b`. */
  ghost predicate Adds(a: seq<Field>, b: seq<Field>, c: seq<Field>) {
    && FieldsEstimate(c) == FieldsEstimate(a) + FieldsEstimate(b)
    && FieldsReal(c) == FieldsReal(a) + FieldsReal(b)
  }

  lemma AddsCons(f: Field, a: seq<Field>, b: seq<Field>, c: seq<Field>)
    requires Adds(a, b, c)
    ensures Adds([f] + a, b, [f] + c)
  {
    FieldsCons(f, a);
    FieldsCons(f, c);
  }

  lemma SplitHead(a: seq<Field>, b: seq<Field>)
    requires a != []
    ensures [a[0]] + a[1..] == a && [a[0]] + (a[1..] + b) == a + b
  {
  }

  lemma {:induction false} FieldsAppend(a: seq<Field>, b: seq<Field>)
    ensures Adds(a, b, a + b)
  {
    if a == [] {
      assert a + b == b;
    } else {
      var tail := a[1..];
      FieldsAppend(tail, b);
      AddsCons(a[0], tail, b, tail + b);
      SplitHead(a, b);
    }
  }

  lemma OneField(f: Field)
    ensures FieldsEstimate([f]) == |f.key| + 3 + Estimate(f.value)
    ensures FieldsReal([f]) == Cost(Escaped(f.key)) + 3 + RealSize(f.value)
  {
    FieldsCons(f, []);
    assert [f] + [] == [f];
  }

  /** The sizes of an object of two fields with plain keys. */
  lemma TwoFields(a: Field, b: Field)
    requires IsPlain(a.key) && IsPlain(b.key)
    ensures Estimate(Obj([a, b])) == 9 + |a.key| + |b.key| + Estimate(a.value) + Estimate(b.value)
    ensures RealSize(Obj([a, b])) == 9 + |a.key| + |b.key| + RealSize(a.value) + RealSize(b.value)
  {
    PlainIsNotEscaped(a.key);
    PlainIsNotEscaped(b.key);
    FieldsCons(a, [b]);
    OneField(b);
    assert [a] + [b] == [a, b];
  }

  lemma ScalarSizes(n: nat)
    ensures RealSize(Num(1)) == 1 && Estimate(Num(1)) == 8
    ensures RealSize(Str(Letters(n))) == n + 2 && Estimate(Str(Letters(n))) == n + 2
  {
    PlainIsNotEscaped(Letters(n));
  }

  lemma FindingSizes(n: nat)
    ensures Estimate(Finding(n)) == n + 29 && RealSize(Finding(n)) == n + 22
  {
    ScalarSizes(n);
    TwoFields(Field(CLASS_KEY, Str(Letters(n))), Field(COUNT_KEY, Num(1)));
  }

  lemma {:induction false} SameItems(items: seq<Json>, e: nat, r: nat)
    requires forall i :: 0 <= i < |items| ==> Estimate(items[i]) == e && RealSize(items[i]) == r
    ensures ItemsEstimate(items) == |items| * e && ItemsReal(items) == |items| * r
  {
    if items != [] {
      SameItems(items[1..], e, r);
      Times(|items|, e);
      Times(|items|, r);
    }
  }

  lemma Times(k: nat, e: nat)
    requires k > 0
    ensures k * e == e + (k - 1) * e
  {
  }

  lemma ListSizes(n: nat)
    ensures Estimate(Arr(Findings(MAX_FINDINGS, n))) == 257 + MAX_FINDINGS * (n + 29)
    ensures RealSize(Arr(Findings(MAX_FINDINGS, n))) == 257 + MAX_FINDINGS * (n + 22)
  {
    FindingSizes(n);
    SameItems(Findings(MAX_FINDINGS, n), n + 29, n + 22);
  }

  /** The sizes of an object with one field more, whose key is plain. */
  lemma LastField(others: seq<Field>, f: Field)
    requires IsPlain(f.key)
    ensures Estimate(Obj(others + [f])) == FieldsEstimate(others) + |others| + 5 + |f.key| + Estimate(f.value)
    ensures RealSize(Obj(others + [f])) == FieldsReal(others) + |others| + 5 + |f.key| + RealSize(f.value)
  {
    PlainIsNotEscaped(f.key);
    FieldsAppend(others, [f]);
    OneField(f);
  }

  lemma WithList(others: seq<Field>, list: Json, e: nat, r: nat)
    requires Estimate(list) == 257 + e && RealSize(list) == 257 + r
    ensures Estimate(Obj(others + [Field(FINDINGS_KEY, list)])) == FieldsEstimate(others) + |others| + 270 + e
    ensures RealSize(Obj(others + [Field(FINDINGS_KEY, list)])) == FieldsReal(others) + |others| + 270 + r
  {
    LastField(others, Field(FINDINGS_KEY, list));
  }

  lemma ReportedSizes(others: seq<Field>, n: nat)
    ensures Estimate(Reported(others, n)) == FieldsEstimate(others) + |others| + 270 + MAX_FINDINGS * (n + 29)
    ensures RealSize(Reported(others, n)) == FieldsReal(others) + |others| + 270 + MAX_FINDINGS * (n + 22)
  {
    ListSizes(n);
    WithList(others, Arr(Findings(MAX_FINDINGS, n)), MAX_FINDINGS * (n + 29), MAX_FINDINGS * (n + 22));
  }

  lemma ReportedDepth(others: seq<Field>, n: nat)
    requires forall i :: 0 <= i < |others| ==> DepthFits(others[i].value, MAX_DEPTH - 1)
    ensures DepthFits(Reported(others, n), MAX_DEPTH)
  {
    var list := Arr(Findings(MAX_FINDINGS, n));
    FindingFits(n, MAX_DEPTH - 2);
    assert DepthFits(list, MAX_DEPTH - 1);
    var fields := others + [Field(FINDINGS_KEY, list)];
    assert forall i :: 0 <= i < |fields| ==> DepthFits(fields[i].value, MAX_DEPTH - 1);
  }

  lemma FindingFits(n: nat, room: int)
    requires room >= 2
    ensures DepthFits(Finding(n), room)
  {
    assert DepthFits(Str(Letters(n)), room - 1) && DepthFits(Num(1), room - 1);
  }

  /**
   Take any receipt fields that leave room for 256 findings and are not undercharged by more than
   1536 bytes. Some class length, of at most 228 letters, makes 256 one-digit findings of it tip
   the estimate over the bound while the receipt itself stays within it.
   */
  lemma FindingsTipTheEstimate(others: seq<Field>) returns (n: nat)
    requires forall i :: 0 <= i < |others| ==> DepthFits(others[i].value, MAX_DEPTH - 1)
    requires FieldsEstimate(others) + |others| <= 57_842
    requires FieldsReal(others) <= FieldsEstimate(others) + 1536
    ensures 1 <= n <= 228 && WronglyRefused(Reported(others, n))
  {
    var base := FieldsEstimate(others) + |others| + 270;
    n := (MAX_RECEIPT_BYTES - base) / MAX_FINDINGS - 28;
    ReportedSizes(others, n);
    ReportedDepth(others, n);
    RealLength(Reported(others, n));
    RefusedIff(Reported(others, n));
  }
}
