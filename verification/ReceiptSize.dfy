/**
 The bounded size walk over a candidate receipt (scripts/assurance-receipt.ts): what it
 measures, how much work it does, and how its estimate relates to the real serialized size.
 */
module ReceiptSize {
  import opened CanonicalJson

  const MAX_RECEIPT_BYTES := 64 * 1024
  const MAX_DEPTH := 6

  // ---- The measure the walk accumulates ----------------------------------

  function Separators(n: nat): nat {
    2 + if n > 0 then n - 1 else 0
  }

  function Estimate(v: Json): nat {
    match v
    case Arr(items) => Separators(|items|) + ItemsEstimate(items)
    case Obj(fields) => Separators(|fields|) + FieldsEstimate(fields)
    case Str(s) => |s| + 2
    case _ => 8
  }

  function ItemsEstimate(items: seq<Json>): nat {
    if items == [] then 0 else Estimate(items[0]) + ItemsEstimate(items[1..])
  }

  function FieldsEstimate(fields: seq<Field>): nat {
    if fields == [] then 0 else |fields[0].key| + 3 + Estimate(fields[0].value) + FieldsEstimate(fields[1..])
  }

  /** Every node of `v` lies at most `room` levels down, `v` itself at level 1. */
  predicate DepthFits(v: Json, room: int) {
    && room >= 1
    && (v.Arr? ==> forall i :: 0 <= i < |v.items| ==> DepthFits(v.items[i], room - 1))
    && (v.Obj? ==> forall i :: 0 <= i < |v.fields| ==> DepthFits(v.fields[i].value, room - 1))
  }

  // ---- The walk ----------------------------------------------------------

  /** The budget's value; `visits` counts the nodes the walk has looked at. */
  datatype Budget = Budget(bytes: nat, overflow: bool, tooDeep: bool, visits: nat) {
    predicate Stopped() { overflow || tooDeep }
  }

  function CheckSize(b: Budget): Budget {
    if b.bytes > MAX_RECEIPT_BYTES then b.(overflow := true) else b
  }

  function Walk(v: Json, depth: nat, b: Budget): Budget {
    if b.Stopped() then b
    else if depth > MAX_DEPTH then b.(tooDeep := true, visits := b.visits + 1)
    else
      match v
      case Arr(items) =>
        WalkItems(items, depth + 1, b.(bytes := b.bytes + Separators(|items|), visits := b.visits + 1))
      case Obj(fields) =>
        WalkFields(fields, depth + 1, b.(bytes := b.bytes + Separators(|fields|), visits := b.visits + 1))
      case Str(s) => CheckSize(b.(bytes := b.bytes + |s| + 2, visits := b.visits + 1))
      case _ => CheckSize(b.(bytes := b.bytes + 8, visits := b.visits + 1))
  }

  function WalkItems(items: seq<Json>, depth: nat, b: Budget): Budget {
    if items == [] then CheckSize(b)
    else if b.Stopped() then b
    else WalkItems(items[1..], depth, Walk(items[0], depth, b))
  }

  function WalkFields(fields: seq<Field>, depth: nat, b: Budget): Budget {
    if fields == [] then CheckSize(b)
    else if b.Stopped() then b
    else
      var c := b.(bytes := b.bytes + |fields[0].key| + 3);
      if c.bytes > MAX_RECEIPT_BYTES then c.(overflow := true)
      else WalkFields(fields[1..], depth, Walk(fields[0].value, depth, c))
  }

  class StructureBudget {
    var bytes: nat
    var overflow: bool
    var tooDeep: bool
    ghost var visits: nat

    constructor ()
      ensures View() == Budget(0, false, false, 0)
    {
      bytes, overflow, tooDeep, visits := 0, false, false, 0;
    }

    ghost function View(): Budget
      reads this
    {
      Budget(bytes, overflow, tooDeep, visits)
    }
  }

  method MeasureStructure(value: Json, depth: nat, budget: StructureBudget)
    modifies budget
    ensures budget.View() == Walk(value, depth, old(budget.View()))
    decreases value, 1
  {
    if budget.overflow || budget.tooDeep {
      return;
    }
    budget.visits := budget.visits + 1;
    if depth > MAX_DEPTH {
      budget.tooDeep := true;
      return;
    }
    match value {
      case Arr(items) =>
        budget.bytes := budget.bytes + Separators(|items|);
        MeasureItems(items, depth + 1, budget, value);
      case Obj(fields) =>
        budget.bytes := budget.bytes + Separators(|fields|);
        MeasureFields(fields, depth + 1, budget, value);
      case Str(s) =>
        budget.bytes := budget.bytes + |s| + 2;
        Settle(budget);
      case _ =>
        budget.bytes := budget.bytes + 8;
        Settle(budget);
    }
  }

  /** The check every node ends with. */
  method Settle(budget: StructureBudget)
    modifies budget
    ensures budget.View() == CheckSize(old(budget.View()))
  {
    if budget.bytes > MAX_RECEIPT_BYTES {
      budget.overflow := true;
    }
  }

  method MeasureItems(items: seq<Json>, depth: nat, budget: StructureBudget, ghost whole: Json)
    requires forall i :: 0 <= i < |items| ==> items[i] < whole
    modifies budget
    ensures budget.View() == WalkItems(items, depth, old(budget.View()))
    decreases whole, 0
  {
    for i := 0 to |items|
      invariant WalkItems(items, depth, old(budget.View())) == WalkItems(items[i..], depth, budget.View())
    {
      assert items[i..][1..] == items[i + 1..];
      if budget.overflow || budget.tooDeep {
        return;
      }
      MeasureStructure(items[i], depth, budget);
    }
    Settle(budget);
  }

  method MeasureFields(fields: seq<Field>, depth: nat, budget: StructureBudget, ghost whole: Json)
    requires forall i :: 0 <= i < |fields| ==> fields[i].value < whole
    modifies budget
    ensures budget.View() == WalkFields(fields, depth, old(budget.View()))
    decreases whole, 0
  {
    for i := 0 to |fields|
      invariant WalkFields(fields, depth, old(budget.View())) == WalkFields(fields[i..], depth, budget.View())
    {
      assert fields[i..][1..] == fields[i + 1..];
      if budget.overflow || budget.tooDeep {
        return;
      }
      budget.bytes := budget.bytes + |fields[i].key| + 3;
      if budget.bytes > MAX_RECEIPT_BYTES {
        budget.overflow := true;
        return;
      }
      MeasureStructure(fields[i].value, depth, budget);
    }
    Settle(budget);
  }

  // ---- What finishing with no flag means ---------------------------------

  /**
   The walk finishes with no flag exactly when the value is within the depth bound and the
   estimate within the size bound; the total is then the estimate.
   */
  lemma {:induction false} WalkExact(v: Json, depth: nat, b: Budget)
    requires !b.Stopped()
    ensures !Walk(v, depth, b).Stopped() <==>
      DepthFits(v, MAX_DEPTH + 1 - depth) && b.bytes + Estimate(v) <= MAX_RECEIPT_BYTES
    ensures !Walk(v, depth, b).Stopped() ==> Walk(v, depth, b).bytes == b.bytes + Estimate(v)
    decreases v, 1, 0
  {
    if depth <= MAX_DEPTH {
      match v {
        case Arr(items) =>
          WalkItemsExact(items, depth + 1, b.(bytes := b.bytes + Separators(|items|), visits := b.visits + 1), v);
        case Obj(fields) =>
          WalkFieldsExact(fields, depth + 1, b.(bytes := b.bytes + Separators(|fields|), visits := b.visits + 1), v);
        case _ =>
      }
    }
  }

  lemma {:induction false} WalkItemsExact(items: seq<Json>, depth: nat, b: Budget, whole: Json)
    requires !b.Stopped()
    requires forall i :: 0 <= i < |items| ==> items[i] < whole
    ensures !WalkItems(items, depth, b).Stopped() <==>
      (forall i :: 0 <= i < |items| ==> DepthFits(items[i], MAX_DEPTH + 1 - depth))
        && b.bytes + ItemsEstimate(items) <= MAX_RECEIPT_BYTES
    ensures !WalkItems(items, depth, b).Stopped() ==> WalkItems(items, depth, b).bytes == b.bytes + ItemsEstimate(items)
    decreases whole, 0, |items|
  {
    if items != [] {
      WalkExact(items[0], depth, b);
      var c := Walk(items[0], depth, b);
      if c.Stopped() {
        StoppedStays(items[1..], [], depth, c);
      } else {
        WalkItemsExact(items[1..], depth, c, whole);
      }
      assert forall i :: 0 < i < |items| ==> items[i] == items[1..][i - 1];
    }
  }

  lemma StoppedStays(items: seq<Json>, fields: seq<Field>, depth: nat, b: Budget)
    requires b.Stopped()
    ensures WalkItems(items, depth, b).Stopped() && WalkFields(fields, depth, b).Stopped()
  {
  }

  lemma {:induction false} WalkFieldsExact(fields: seq<Field>, depth: nat, b: Budget, whole: Json)
    requires !b.Stopped()
    requires forall i :: 0 <= i < |fields| ==> fields[i].value < whole
    ensures !WalkFields(fields, depth, b).Stopped() <==>
      (forall i :: 0 <= i < |fields| ==> DepthFits(fields[i].value, MAX_DEPTH + 1 - depth))
        && b.bytes + FieldsEstimate(fields) <= MAX_RECEIPT_BYTES
    ensures !WalkFields(fields, depth, b).Stopped() ==>
      WalkFields(fields, depth, b).bytes == b.bytes + FieldsEstimate(fields)
    decreases whole, 0, |fields|
  {
    if fields != [] {
      var c := b.(bytes := b.bytes + |fields[0].key| + 3);
      if c.bytes <= MAX_RECEIPT_BYTES {
        WalkExact(fields[0].value, depth, c);
        var d := Walk(fields[0].value, depth, c);
        if d.Stopped() {
          StoppedStays([], fields[1..], depth, d);
        } else {
          WalkFieldsExact(fields[1..], depth, d, whole);
        }
        assert forall i :: 0 < i < |fields| ==> fields[i] == fields[1..][i - 1];
      }
    }
  }

  // ---- Work bound --------------------------------------------------------

  /** One node for every two bytes of the bound, and one for each level the walk goes down unchecked. */
  const MAX_VISITS := MAX_RECEIPT_BYTES / 2 + MAX_DEPTH + 1

  /** Only a value nested too deeply raises the depth flag. */
  lemma {:induction false} FlatStaysFlat(v: Json, depth: nat, b: Budget)
    requires !b.tooDeep && depth <= MAX_DEPTH + 1 && DepthFits(v, MAX_DEPTH + 1 - depth)
    ensures !Walk(v, depth, b).tooDeep
    decreases v, 1, 0
  {
    match v {
      case Arr(items) =>
        FlatItems(items, depth + 1, b.(bytes := b.bytes + Separators(|items|), visits := b.visits + 1), v);
      case Obj(fields) =>
        FlatFields(fields, depth + 1, b.(bytes := b.bytes + Separators(|fields|), visits := b.visits + 1), v);
      case _ =>
    }
  }

  lemma {:induction false} FlatItems(items: seq<Json>, depth: nat, b: Budget, whole: Json)
    requires !b.tooDeep && depth <= MAX_DEPTH + 1
    requires forall i :: 0 <= i < |items| ==> items[i] < whole && DepthFits(items[i], MAX_DEPTH + 1 - depth)
    ensures !WalkItems(items, depth, b).tooDeep
    decreases whole, 0, |items|
  {
    if items != [] && !b.Stopped() {
      FlatStaysFlat(items[0], depth, b);
      FlatItems(items[1..], depth, Walk(items[0], depth, b), whole);
    }
  }

  lemma {:induction false} FlatFields(fields: seq<Field>, depth: nat, b: Budget, whole: Json)
    requires !b.tooDeep && depth <= MAX_DEPTH + 1
    requires forall i :: 0 <= i < |fields| ==>
      fields[i].value < whole && DepthFits(fields[i].value, MAX_DEPTH + 1 - depth)
    ensures !WalkFields(fields, depth, b).tooDeep
    decreases whole, 0, |fields|
  {
    if fields != [] && !b.Stopped() {
      var c := b.(bytes := b.bytes + |fields[0].key| + 3);
      if c.bytes <= MAX_RECEIPT_BYTES {
        FlatStaysFlat(fields[0].value, depth, c);
        FlatFields(fields[1..], depth, Walk(fields[0].value, depth, c), whole);
      }
    }
  }

  /** While nothing is flagged, every visited node has been charged at least two bytes. */
  predicate Charged(b: Budget) {
    2 * b.visits <= b.bytes
  }

  /** A budget the walk may be in at a node of depth `depth`: within the bound, or just past it. */
  predicate Underway(b: Budget, depth: nat) {
    && !b.Stopped() && Charged(b)
    && (b.bytes > MAX_RECEIPT_BYTES ==> b.visits + MAX_DEPTH + 2 - depth <= MAX_VISITS)
  }

  /** What the walk leaves behind: still charged and within the bound, or stopped soon enough. */
  predicate Bounded(b: Budget) {
    if b.Stopped() then b.visits <= MAX_VISITS else Charged(b) && b.bytes <= MAX_RECEIPT_BYTES
  }

  /** From any budget within the bound, the walk looks at no more than a constant number of nodes. */
  lemma {:induction false} WalkBounded(v: Json, depth: nat, b: Budget)
    requires 1 <= depth <= MAX_DEPTH + 1 && Underway(b, depth)
    ensures Bounded(Walk(v, depth, b))
    decreases v, 1, 0
  {
    if depth <= MAX_DEPTH {
      match v {
        case Arr(items) =>
          ItemsBounded(items, depth + 1, b.(bytes := b.bytes + Separators(|items|), visits := b.visits + 1), v);
        case Obj(fields) =>
          FieldsBounded(fields, depth + 1, b.(bytes := b.bytes + Separators(|fields|), visits := b.visits + 1), v);
        case _ =>
      }
    }
  }

  lemma {:induction false} ItemsBounded(items: seq<Json>, depth: nat, b: Budget, whole: Json)
    requires 1 <= depth <= MAX_DEPTH + 1
    requires Bounded(b) || Underway(b, depth)
    requires forall i :: 0 <= i < |items| ==> items[i] < whole
    ensures Bounded(WalkItems(items, depth, b))
    decreases whole, 0, |items|
  {
    if items != [] && !b.Stopped() {
      WalkBounded(items[0], depth, b);
      ItemsBounded(items[1..], depth, Walk(items[0], depth, b), whole);
    }
  }

  lemma {:induction false} FieldsBounded(fields: seq<Field>, depth: nat, b: Budget, whole: Json)
    requires 1 <= depth <= MAX_DEPTH + 1
    requires Bounded(b) || Underway(b, depth)
    requires forall i :: 0 <= i < |fields| ==> fields[i].value < whole
    ensures Bounded(WalkFields(fields, depth, b))
    decreases whole, 0, |fields|
  {
    if fields != [] && !b.Stopped() {
      var c := b.(bytes := b.bytes + |fields[0].key| + 3);
      if c.bytes <= MAX_RECEIPT_BYTES {
        WalkBounded(fields[0].value, depth, c);
        FieldsBounded(fields[1..], depth, Walk(fields[0].value, depth, c), whole);
      }
    }
  }

  /** The walk from the root never looks at more than 32 775 nodes, whatever the value. */
  lemma WorkIsBounded(v: Json)
    ensures Walk(v, 1, Budget(0, false, false, 0)).visits <= 32775
  {
    WalkBounded(v, 1, Budget(0, false, false, 0));
  }
}
