/**
 Tarjan's strongly connected components (scripts/arch-imports.ts), as the recursive walk
 the source runs over its index, low-link and stack state.
 */
module Tarjan {
  import opened Digraph
  import opened Sorting

  /** The state the walk updates, as a value. */
  datatype State = State(
    index: nat,
    indices: map<string, nat>,
    low: map<string, nat>,
    onStack: set<string>,
    stack: seq<string>,
    result: seq<seq<string>>)

  /** The numbering and the stack agree with each other. */
  ghost predicate Bookkeeping(s: State) {
    && (forall v :: v in s.indices ==> s.indices[v] < s.index)
    && s.low.Keys == s.indices.Keys
    && (forall v :: v in s.stack <==> v in s.onStack)
    && (forall v :: v in s.indices <==> v in s.onStack || Covered(s.result, v))
    && (forall v :: v in s.onStack ==> !Covered(s.result, v))
    && StackOrder(s)
  }

  ghost predicate StackOrder(s: State)
    requires forall v :: v in s.stack ==> v in s.indices
  {
    forall i, j :: 0 <= i < j < |s.stack| ==> s.indices[s.stack[i]] < s.indices[s.stack[j]]
  }

  /** Everything already popped is a finished component, closed under successors. */
  ghost predicate Finished(g: Graph, s: State) {
    && (forall i :: 0 <= i < |s.result| ==> IsComponent(g, s.result[i]) && Ascending(s.result[i]))
    && Disjoint(s.result)
    && (forall u, v :: Covered(s.result, u) && v in Succ(g, u) ==> Covered(s.result, v))
  }

  ghost predicate Ascending(c: seq<string>) {
    Distinct(c) && SortedBy(c, TextLeq)
  }

  /**
   The nodes still being visited are `gray`. Older stack nodes reach younger ones, every
   stack node reaches a gray one at or below it, and only gray nodes have successors the
   walk has not numbered.
   */
  ghost predicate StackLinks(g: Graph, s: State, gray: set<string>)
    requires Bookkeeping(s)
  {
    OlderReachesYounger(g, s) && GrayBelow(g, s, gray) && BlackSeen(g, s, gray)
  }

  ghost predicate OlderReachesYounger(g: Graph, s: State)
    requires forall v :: v in s.onStack ==> v in s.indices
  {
    forall x, y {:trigger Reaches(g, x, y)} ::
      x in s.onStack && y in s.onStack && s.indices[x] <= s.indices[y] ==> Reaches(g, x, y)
  }

  ghost predicate GrayBelow(g: Graph, s: State, gray: set<string>)
    requires forall v :: v in s.onStack ==> v in s.indices
  {
    gray <= s.onStack && forall y {:trigger HasGrayBelow(g, s, gray, y)} ::
      y in s.onStack ==> HasGrayBelow(g, s, gray, y)
  }

  ghost predicate BlackSeen(g: Graph, s: State, gray: set<string>) {
    forall u, v :: u in s.onStack - gray && v in Succ(g, u) ==> v in s.indices
  }

  ghost predicate HasGrayBelow(g: Graph, s: State, gray: set<string>, y: string)
    requires (forall v :: v in s.onStack ==> v in s.indices) && gray <= s.onStack && y in s.onStack
  {
    exists x :: x in gray && s.indices[x] <= s.indices[y] && Reaches(g, y, x)
  }

  ghost predicate Inv(g: Graph, s: State, gray: set<string>) {
    Bookkeeping(s) && Finished(g, s) && StackLinks(g, s, gray)
  }

  /** What any part of the walk leaves alone: old numbers and low-links, and the old stack. */
  ghost predicate Extends(old_: State, s: State) {
    && (forall v :: v in old_.indices ==> v in s.indices && s.indices[v] == old_.indices[v])
    && old_.index <= s.index
    && (forall v :: v in s.indices && v !in old_.indices ==> old_.index <= s.indices[v])
    && old_.stack <= s.stack
  }

  /** The low-link of `v` is the number of a stack node `v` reaches, or its own number. */
  ghost predicate LowWitness(g: Graph, s: State, v: string)
    requires v in s.indices && v in s.low
  {
    && s.low[v] <= s.indices[v]
    && (s.low[v] == s.indices[v] || exists y ::
      y in s.onStack && y in s.indices && s.indices[y] == s.low[v] && Reaches(g, v, y))
  }

  /** No edge from the stack above `base` into the stack below it beats `bound`. */
  ghost predicate EdgesBelow(g: Graph, s: State, base: seq<string>, from: nat, bound: nat)
    requires from <= |s.stack| && forall v :: v in base ==> v in s.indices
  {
    forall i, b :: from <= i < |s.stack| && b in Succ(g, s.stack[i]) && b in base ==> bound <= s.indices[b]
  }

  // ---- Entering a node ---------------------------------------------------

  function Entered(s: State, node: string): State {
    State(s.index + 1, s.indices[node := s.index], s.low[node := s.index],
          s.onStack + {node}, s.stack + [node], s.result)
  }

  lemma EnteredBookkeeping(s: State, node: string)
    requires Bookkeeping(s) && node !in s.indices
    ensures Bookkeeping(Entered(s, node))
    ensures Extends(s, Entered(s, node))
  {
    var t := Entered(s, node);
    forall i, j | 0 <= i < j < |t.stack| ensures t.indices[t.stack[i]] < t.indices[t.stack[j]] {
      assert s.stack[i] in s.stack;
      if j < |s.stack| {
        assert s.stack[j] in s.stack;
      }
    }
  }

  lemma EnteredLinks(g: Graph, s: State, gray: set<string>, node: string)
    requires Bookkeeping(s) && Bookkeeping(Entered(s, node)) && StackLinks(g, s, gray) && node !in s.indices
    requires forall x :: x in gray ==> Reaches(g, x, node)
    ensures StackLinks(g, Entered(s, node), gray + {node})
  {
    var t := Entered(s, node);
    ReachesSelf(g, node);
    forall x, y | x in t.onStack && y in t.onStack && t.indices[x] <= t.indices[y] ensures Reaches(g, x, y) {
      if x == node {
        assert y == node;
      } else if y == node {
        assert HasGrayBelow(g, s, gray, x);
        var z :| z in gray && s.indices[z] <= s.indices[x] && Reaches(g, x, z);
        ReachesTrans(g, x, z, node);
      } else {
        assert s.indices[x] <= s.indices[y];
      }
    }
    forall y | y in t.onStack ensures HasGrayBelow(g, t, gray + {node}, y) {
      if y != node {
        assert HasGrayBelow(g, s, gray, y);
        var z :| z in gray && s.indices[z] <= s.indices[y] && Reaches(g, y, z);
        assert z in gray + {node} && t.indices[z] <= t.indices[y];
      }
    }
    forall u, v | u in t.onStack - (gray + {node}) && v in Succ(g, u) ensures v in t.indices {
      assert u in s.onStack - gray;
    }
  }

  lemma EnteredInv(g: Graph, s: State, gray: set<string>, node: string)
    requires Inv(g, s, gray) && node !in s.indices
    requires forall x :: x in gray ==> Reaches(g, x, node)
    ensures Inv(g, Entered(s, node), gray + {node})
    ensures Extends(s, Entered(s, node))
  {
    EnteredBookkeeping(s, node);
    EnteredLinks(g, s, gray, node);
  }

  // ---- Scanning the successors -------------------------------------------

  function Min(a: nat, b: nat): nat {
    if a <= b then a else b
  }

  /** `node` sits on the stack right above `base`, with its first `k` successors looked at. */
  ghost predicate Frontier(g: Graph, s: State, base: seq<string>, node: string, k: nat) {
    && base + [node] <= s.stack
    && node in s.indices && node in s.low
    && (forall v :: v in base ==> v in s.indices)
    && LowWitness(g, s, node)
    && EdgesBelow(g, s, base, |base| + 1, s.low[node])
    && k <= |Succ(g, node)|
    && (forall j :: 0 <= j < k ==> SuccessorSeen(s, base, node, Succ(g, node)[j]))
  }

  ghost predicate SuccessorSeen(s: State, base: seq<string>, node: string, v: string)
    requires node in s.low
  {
    v in s.indices && (v in base ==> s.low[node] <= s.indices[v])
  }

  ghost predicate LowKept(s0: State, s: State) {
    forall v :: v in s0.low ==> v in s.low && s.low[v] == s0.low[v]
  }

  /** What a call of the walk on `node` leaves behind. */
  ghost predicate Returned(g: Graph, s0: State, s: State, node: string) {
    && Extends(s0, s)
    && (forall v :: v in s0.stack ==> v in s.indices)
    && LowKept(s0, s)
    && node in s.indices && node in s.low && s0.index <= s.indices[node]
    && LowWitness(g, s, node)
    && EdgesBelow(g, s, s0.stack, |s0.stack|, s.low[node])
  }

  function WithLow(s: State, node: string, n: nat): State {
    s.(low := s.low[node := n])
  }

  lemma WithLowInv(g: Graph, s: State, gray: set<string>, node: string, n: nat)
    requires Inv(g, s, gray) && node in s.low
    ensures Inv(g, WithLow(s, node, n), gray)
  {
    WithLowBookkeeping(s, node, n);
    WithLowLinks(g, s, gray, node, n);
  }

  lemma WithLowBookkeeping(s: State, node: string, n: nat)
    requires Bookkeeping(s) && node in s.low
    ensures Bookkeeping(WithLow(s, node, n))
  {
    assert WithLow(s, node, n).low.Keys == s.low.Keys;
  }

  lemma WithLowLinks(g: Graph, s: State, gray: set<string>, node: string, n: nat)
    requires Bookkeeping(s) && Bookkeeping(WithLow(s, node, n)) && StackLinks(g, s, gray)
    ensures StackLinks(g, WithLow(s, node, n), gray)
  {
    var t := WithLow(s, node, n);
    forall y | y in t.onStack ensures HasGrayBelow(g, t, gray, y) {
      assert HasGrayBelow(g, s, gray, y);
    }
  }

  lemma EnteredFrontier(g: Graph, s: State, node: string)
    requires Bookkeeping(s)
    ensures Frontier(g, Entered(s, node), s.stack, node, 0)
  {
  }

  lemma OneMoreSeen(g: Graph, s: State, base: seq<string>, node: string, k: nat)
    requires Frontier(g, s, base, node, k) && k < |Succ(g, node)|
    requires SuccessorSeen(s, base, node, Succ(g, node)[k])
    ensures Frontier(g, s, base, node, k + 1)
  {
  }

  /** A successor already popped into a component changes nothing. */
  lemma SkipSuccessor(g: Graph, s: State, base: seq<string>, node: string, k: nat)
    requires Bookkeeping(s) && Frontier(g, s, base, node, k) && k < |Succ(g, node)|
    requires Succ(g, node)[k] in s.indices && Succ(g, node)[k] !in s.onStack
    ensures Frontier(g, s, base, node, k + 1)
  {
    assert forall x :: x in base ==> x in base + [node];
    OneMoreSeen(g, s, base, node, k);
  }

  lemma LowerLow(g: Graph, s: State, base: seq<string>, node: string, k: nat, y: string)
    requires Frontier(g, s, base, node, k)
    requires y in s.onStack && y in s.indices && Reaches(g, node, y)
    ensures Frontier(g, WithLow(s, node, Min(s.low[node], s.indices[y])), base, node, k)
  {
    var t := WithLow(s, node, Min(s.low[node], s.indices[y]));
    assert t.low[node] <= s.low[node];
    forall j | 0 <= j < k ensures SuccessorSeen(t, base, node, Succ(g, node)[j]) {
      assert SuccessorSeen(s, base, node, Succ(g, node)[j]);
    }
  }

  /** A successor still on the stack lowers the low-link to its number. */
  lemma BackEdge(g: Graph, s: State, base: seq<string>, node: string, k: nat)
    requires Frontier(g, s, base, node, k) && k < |Succ(g, node)|
    requires Succ(g, node)[k] in s.indices && Succ(g, node)[k] in s.onStack
    ensures Frontier(g, WithLow(s, node, Min(s.low[node], s.indices[Succ(g, node)[k]])), base, node, k + 1)
  {
    var v := Succ(g, node)[k];
    ReachesEdge(g, node, v);
    LowerLow(g, s, base, node, k, v);
    OneMoreSeen(g, WithLow(s, node, Min(s.low[node], s.indices[v])), base, node, k);
  }

  /** After a recursive visit, its stack growth still has no edge below `base` beating the bound. */
  lemma EdgesBelowAfterChild(g: Graph, s: State, t: State, base: seq<string>, node: string, child: string, bound: nat)
    requires base + [node] <= s.stack && s.stack <= t.stack
    requires forall v :: v in s.stack ==> v in s.indices && v in t.indices && t.indices[v] == s.indices[v]
    requires forall v :: v in base ==> v in s.indices && v in t.indices
    requires child in t.low
    requires node in s.low && EdgesBelow(g, s, base, |base| + 1, s.low[node])
    requires EdgesBelow(g, t, s.stack, |s.stack|, t.low[child])
    requires bound <= s.low[node] && bound <= t.low[child]
    ensures EdgesBelow(g, t, base, |base| + 1, bound)
  {
    forall i, b | |base| + 1 <= i < |t.stack| && b in Succ(g, t.stack[i]) && b in base ensures bound <= t.indices[b] {
      assert b in base + [node];
      assert b in s.stack;
      if i < |s.stack| {
        assert t.stack[i] == s.stack[i];
      }
    }
  }

  lemma LowWitnessAfterChild(g: Graph, s: State, t: State, base: seq<string>, node: string, child: string)
    requires Bookkeeping(s) && Bookkeeping(t) && Extends(s, t)
    requires node in s.indices && node in s.low && node in t.low && child in t.low && child in t.indices
    requires t.low[node] == s.low[node] && s.index <= t.indices[child]
    requires LowWitness(g, s, node) && LowWitness(g, t, child) && child in Succ(g, node)
    ensures LowWitness(g, WithLow(t, node, Min(t.low[node], t.low[child])), node)
  {
    var r := WithLow(t, node, Min(t.low[node], t.low[child]));
    if t.low[child] < t.low[node] {
      var y :| y in t.onStack && y in t.indices && t.indices[y] == t.low[child] && Reaches(g, child, y);
      ReachesEdge(g, node, child);
      ReachesTrans(g, node, child, y);
      assert y in r.onStack && y in r.indices && r.indices[y] == r.low[node] && Reaches(g, node, y);
    } else if s.low[node] != s.indices[node] {
      var y :| y in s.onStack && y in s.indices && s.indices[y] == s.low[node] && Reaches(g, node, y);
      assert y in s.stack;
      assert y in t.stack;
      assert y in r.onStack && y in r.indices && r.indices[y] == r.low[node] && Reaches(g, node, y);
    }
  }

  /** A successor visited recursively lowers the low-link to its low-link. */
  lemma TreeEdge(g: Graph, s: State, t: State, base: seq<string>, node: string, k: nat)
    requires Bookkeeping(s) && Bookkeeping(t)
    requires Frontier(g, s, base, node, k) && k < |Succ(g, node)|
    requires Returned(g, s, t, Succ(g, node)[k])
    requires Succ(g, node)[k] !in s.indices
    ensures Frontier(g, WithLow(t, node, Min(t.low[node], t.low[Succ(g, node)[k]])), base, node, k + 1)
  {
    var child := Succ(g, node)[k];
    LowWitnessAfterChild(g, s, t, base, node, child);
    TreeEdgeFrontier(g, s, t, base, node, k);
    OneMoreSeen(g, WithLow(t, node, Min(t.low[node], t.low[child])), base, node, k);
  }

  lemma TreeEdgeFrontier(g: Graph, s: State, t: State, base: seq<string>, node: string, k: nat)
    requires forall v :: v in s.stack ==> v in s.indices
    requires Frontier(g, s, base, node, k) && k < |Succ(g, node)|
    requires Returned(g, s, t, Succ(g, node)[k])
    requires Succ(g, node)[k] !in s.indices
    requires LowWitness(g, WithLow(t, node, Min(t.low[node], t.low[Succ(g, node)[k]])), node)
    ensures Frontier(g, WithLow(t, node, Min(t.low[node], t.low[Succ(g, node)[k]])), base, node, k)
    ensures SuccessorSeen(WithLow(t, node, Min(t.low[node], t.low[Succ(g, node)[k]])), base, node, Succ(g, node)[k])
  {
    var child := Succ(g, node)[k];
    var r := WithLow(t, node, Min(t.low[node], t.low[child]));
    EdgesBelowAfterChild(g, s, t, base, node, child, r.low[node]);
    SeenAfterChild(g, s, r, base, node, k);
  }

  lemma SeenAfterChild(g: Graph, s: State, r: State, base: seq<string>, node: string, k: nat)
    requires Frontier(g, s, base, node, k) && Extends(s, r) && node in r.low && r.low[node] <= s.low[node]
    ensures forall j :: 0 <= j < k ==> SuccessorSeen(r, base, node, Succ(g, node)[j])
  {
    forall j | 0 <= j < k ensures SuccessorSeen(r, base, node, Succ(g, node)[j]) {
      assert SuccessorSeen(s, base, node, Succ(g, node)[j]);
    }
  }

  // ---- Leaving a node ----------------------------------------------------

  /** All successors of `node` have been looked at, and the nodes still being visited lie in `base`. */
  ghost predicate Leaving(g: Graph, s: State, gray: set<string>, base: seq<string>, node: string) {
    && Bookkeeping(s)
    && gray + {node} <= s.onStack
    && Frontier(g, s, base, node, |Succ(g, node)|)
    && (forall x :: x in gray ==> x in base)
  }

  lemma BaseIsOlder(g: Graph, s: State, gray: set<string>, base: seq<string>, node: string)
    requires Leaving(g, s, gray, base, node)
    ensures forall x :: x in base ==> x in s.onStack && s.indices[x] < s.indices[node]
    ensures forall x :: x in s.stack[|base|..] ==> x in s.onStack && s.indices[node] <= s.indices[x]
    ensures forall x :: x in s.onStack ==> x in base || x in s.stack[|base|..]
    ensures node in s.stack[|base|..]
  {
    assert s.stack[|base|] == (base + [node])[|base|];
    forall x | x in base ensures x in s.onStack && s.indices[x] < s.indices[node] {
      var i :| 0 <= i < |base| && base[i] == x;
      assert s.stack[i] == (base + [node])[i];
    }
    assert s.stack == base + s.stack[|base|..];
  }

  /** A node whose low-link is below its number stays on the stack for an older node to claim. */
  lemma KeepOnStack(g: Graph, s: State, gray: set<string>, base: seq<string>, node: string)
    requires Leaving(g, s, gray, base, node) && StackLinks(g, s, gray + {node})
    requires s.low[node] != s.indices[node]
    ensures StackLinks(g, s, gray)
  {
    var z := GrayBelowNode(g, s, gray, node);
    GrayBelowWithout(g, s, gray, node, z);
    BlackSeenWith(g, s, gray, base, node);
  }

  lemma GrayBelowNode(g: Graph, s: State, gray: set<string>, node: string) returns (z: string)
    requires forall v :: v in s.onStack ==> v in s.indices
    requires node in s.indices && node in s.low && LowWitness(g, s, node) && GrayBelow(g, s, gray + {node})
    requires s.low[node] != s.indices[node]
    ensures z in gray && s.indices[z] < s.indices[node] && Reaches(g, node, z)
  {
    var y :| y in s.onStack && y in s.indices && s.indices[y] == s.low[node] && Reaches(g, node, y);
    assert HasGrayBelow(g, s, gray + {node}, y);
    z :| z in gray + {node} && s.indices[z] <= s.indices[y] && Reaches(g, y, z);
    ReachesTrans(g, node, y, z);
  }

  lemma GrayBelowWithout(g: Graph, s: State, gray: set<string>, node: string, z: string)
    requires forall v :: v in s.onStack ==> v in s.indices
    requires GrayBelow(g, s, gray + {node})
    requires z in gray && s.indices[z] < s.indices[node] && Reaches(g, node, z)
    ensures GrayBelow(g, s, gray)
  {
    forall y | y in s.onStack ensures HasGrayBelow(g, s, gray, y) {
      assert HasGrayBelow(g, s, gray + {node}, y);
      var x :| x in gray + {node} && s.indices[x] <= s.indices[y] && Reaches(g, y, x);
      if x == node {
        ReachesTrans(g, y, node, z);
      }
    }
  }

  lemma BlackSeenWith(g: Graph, s: State, gray: set<string>, base: seq<string>, node: string)
    requires BlackSeen(g, s, gray + {node}) && Frontier(g, s, base, node, |Succ(g, node)|)
    ensures BlackSeen(g, s, gray)
  {
    forall u, v | u in s.onStack - gray && v in Succ(g, u) ensures v in s.indices {
      if u == node {
        var j :| 0 <= j < |Succ(g, node)| && Succ(g, node)[j] == v;
        assert SuccessorSeen(s, base, node, Succ(g, node)[j]);
      } else {
        assert u in s.onStack - (gray + {node});
      }
    }
  }

  ghost function Elements(c: seq<string>): set<string> {
    set v | v in c
  }

  ghost function Done(s: State): set<string> {
    set v | v in s.indices && Covered(s.result, v)
  }

  /** When the low-link equals the number, no edge leaves the popped nodes and the finished ones. */
  lemma TopIsClosed(g: Graph, s: State, gray: set<string>, base: seq<string>, node: string)
    requires Leaving(g, s, gray, base, node) && StackLinks(g, s, gray + {node}) && Finished(g, s)
    requires s.low[node] == s.indices[node]
    ensures Closed(g, Elements(s.stack[|base|..]) + Done(s))
  {
    BaseIsOlder(g, s, gray, base, node);
    BlackSeenWith(g, s, gray, base, node);
    var top := s.stack[|base|..];
    forall u, v | u in Elements(top) && v in Succ(g, u) ensures v in Elements(top) + Done(s) {
      TopSuccessor(g, s, gray, base, node, u, v);
    }
    forall u, v | u in Done(s) && v in Succ(g, u) ensures v in Done(s) {
      assert Covered(s.result, v);
    }
  }

  lemma TopSuccessor(g: Graph, s: State, gray: set<string>, base: seq<string>, node: string, u: string, v: string)
    requires Leaving(g, s, gray, base, node) && BlackSeen(g, s, gray)
    requires s.low[node] == s.indices[node]
    requires u in s.stack[|base|..] && v in Succ(g, u)
    ensures v in s.indices && v !in base
  {
    BaseIsOlder(g, s, gray, base, node);
    assert s.stack[|base|] == (base + [node])[|base|];
    var i :| |base| <= i < |s.stack| && s.stack[i] == u;
    if i == |base| {
      var j :| 0 <= j < |Succ(g, node)| && Succ(g, node)[j] == v;
      assert SuccessorSeen(s, base, node, Succ(g, node)[j]);
    }
  }

  /** The nodes popped together are exactly the component of `node`. */
  lemma TopIsComponent(g: Graph, s: State, gray: set<string>, base: seq<string>, node: string)
    requires Leaving(g, s, gray, base, node) && StackLinks(g, s, gray + {node}) && Finished(g, s)
    requires s.low[node] == s.indices[node]
    ensures IsComponent(g, s.stack[|base|..])
  {
    BaseIsOlder(g, s, gray, base, node);
    TopIsClosed(g, s, gray, base, node);
    DoneIsClosed(g, s);
    GrayNotInTop(g, s, gray, base, node);
    var top := s.stack[|base|..];
    forall a | a in top ensures SameComponent(g, node, a) {
      TopReachesNode(g, s, gray, node, Elements(top) + Done(s), a);
      NodeReachesTop(g, s, gray, base, node, a);
    }
    forall v | SameComponent(g, node, v) ensures v in top {
      ReachesStaysInClosed(g, Elements(top) + Done(s), node, v);
      if v in Done(s) {
        ReachesStaysInClosed(g, Done(s), v, node);
        assert false;
      }
    }
    forall u, v | u in top ensures v in top <==> SameComponent(g, u, v) {
      SameComponentVia(g, node, u, v);
    }
  }

  lemma SameComponentVia(g: Graph, node: string, u: string, v: string)
    requires SameComponent(g, node, u)
    ensures SameComponent(g, u, v) <==> SameComponent(g, node, v)
  {
    if SameComponent(g, u, v) {
      ReachesTrans(g, node, u, v);
      ReachesTrans(g, v, u, node);
    }
    if SameComponent(g, node, v) {
      ReachesTrans(g, u, node, v);
      ReachesTrans(g, v, node, u);
    }
  }

  lemma DoneIsClosed(g: Graph, s: State)
    requires Bookkeeping(s) && Finished(g, s)
    ensures Closed(g, Done(s))
  {
  }

  lemma TopReachesNode(g: Graph, s: State, gray: set<string>, node: string, cs: set<string>, a: string)
    requires forall v :: v in s.onStack ==> v in s.indices
    requires GrayBelow(g, s, gray + {node})
    requires Closed(g, cs) && gray !! cs && a in cs && a in s.onStack
    ensures Reaches(g, a, node)
  {
    assert HasGrayBelow(g, s, gray + {node}, a);
    var x :| x in gray + {node} && s.indices[x] <= s.indices[a] && Reaches(g, a, x);
    ReachesStaysInClosed(g, cs, a, x);
  }

  lemma GrayNotInTop(g: Graph, s: State, gray: set<string>, base: seq<string>, node: string)
    requires Leaving(g, s, gray, base, node)
    ensures gray !! Elements(s.stack[|base|..]) + Done(s)
  {
    BaseIsOlder(g, s, gray, base, node);
  }

  lemma NodeReachesTop(g: Graph, s: State, gray: set<string>, base: seq<string>, node: string, a: string)
    requires Leaving(g, s, gray, base, node) && OlderReachesYounger(g, s) && a in s.stack[|base|..]
    ensures Reaches(g, node, a)
  {
    BaseIsOlder(g, s, gray, base, node);
  }

  function Popped(s: State, base: seq<string>, comp: seq<string>): State {
    s.(onStack := (set v | v in base), stack := base, result := s.result + [comp])
  }

  lemma PoppedCovers(s: State, base: seq<string>, comp: seq<string>)
    ensures forall v :: Covered(Popped(s, base, comp).result, v) <==> Covered(s.result, v) || v in comp
  {
    var r := s.result + [comp];
    forall v | Covered(s.result, v) || v in comp ensures Covered(r, v) {
      if v in comp {
        assert r[|s.result|] == comp;
      } else {
        var i :| 0 <= i < |s.result| && v in s.result[i];
        assert r[i] == s.result[i];
      }
    }
  }

  /** Popping the nodes above `base` as one finished component keeps the invariant. */
  lemma PoppedInv(g: Graph, s: State, gray: set<string>, base: seq<string>, node: string, comp: seq<string>)
    requires Leaving(g, s, gray, base, node) && Inv(g, s, gray + {node})
    requires s.low[node] == s.indices[node]
    requires Ascending(comp) && forall v :: v in comp <==> v in s.stack[|base|..]
    ensures Inv(g, Popped(s, base, comp), gray)
  {
    PoppedBookkeeping(g, s, gray, base, node, comp);
    PoppedFinished(g, s, gray, base, node, comp);
    PoppedLinks(g, s, gray, base, node, comp);
  }

  lemma PoppedFinished(g: Graph, s: State, gray: set<string>, base: seq<string>, node: string, comp: seq<string>)
    requires Leaving(g, s, gray, base, node) && StackLinks(g, s, gray + {node}) && Finished(g, s)
    requires s.low[node] == s.indices[node]
    requires Ascending(comp) && forall v :: v in comp <==> v in s.stack[|base|..]
    ensures Finished(g, Popped(s, base, comp))
  {
    TopIsComponent(g, s, gray, base, node);
    PoppedComponents(g, s, gray, base, node, comp);
    TopIsClosed(g, s, gray, base, node);
    PoppedClosed(g, s, gray, base, node, comp);
  }

  lemma PoppedBookkeeping(g: Graph, s: State, gray: set<string>, base: seq<string>, node: string, comp: seq<string>)
    requires Leaving(g, s, gray, base, node)
    requires forall v :: v in comp <==> v in s.stack[|base|..]
    ensures Bookkeeping(Popped(s, base, comp))
  {
    var p := Popped(s, base, comp);
    BaseIsOlder(g, s, gray, base, node);
    PoppedCovers(s, base, comp);
    forall i, j | 0 <= i < j < |base| ensures s.indices[base[i]] < s.indices[base[j]] {
      assert s.stack[i] == (base + [node])[i] && s.stack[j] == (base + [node])[j];
    }
    assert StackOrder(p);
  }

  lemma PoppedComponents(g: Graph, s: State, gray: set<string>, base: seq<string>, node: string, comp: seq<string>)
    requires Leaving(g, s, gray, base, node) && IsComponent(g, s.stack[|base|..])
    requires forall i :: 0 <= i < |s.result| ==> IsComponent(g, s.result[i]) && Ascending(s.result[i])
    requires Disjoint(s.result) && Ascending(comp)
    requires forall v :: v in comp <==> v in s.stack[|base|..]
    ensures IsComponent(g, comp) && Disjoint(s.result + [comp])
  {
    BaseIsOlder(g, s, gray, base, node);
    assert node in comp;
    var r := s.result + [comp];
    forall i, j, v | 0 <= i < j < |r| && v in r[i] ensures v !in r[j] {
      if j == |s.result| {
        assert Covered(s.result, v);
      }
    }
  }

  lemma PoppedClosed(g: Graph, s: State, gray: set<string>, base: seq<string>, node: string, comp: seq<string>)
    requires Leaving(g, s, gray, base, node)
    requires Closed(g, Elements(s.stack[|base|..]) + Done(s))
    requires forall v :: v in comp <==> v in s.stack[|base|..]
    ensures forall u, v :: Covered(Popped(s, base, comp).result, u) && v in Succ(g, u) ==>
      Covered(Popped(s, base, comp).result, v)
  {
    BaseIsOlder(g, s, gray, base, node);
    PoppedCovers(s, base, comp);
    forall u, v | Covered(Popped(s, base, comp).result, u) && v in Succ(g, u)
      ensures Covered(Popped(s, base, comp).result, v)
    {
      assert u in Elements(s.stack[|base|..]) + Done(s);
      assert v in Elements(s.stack[|base|..]) + Done(s);
    }
  }

  lemma PoppedLinks(g: Graph, s: State, gray: set<string>, base: seq<string>, node: string, comp: seq<string>)
    requires Leaving(g, s, gray, base, node) && StackLinks(g, s, gray + {node})
    requires Bookkeeping(Popped(s, base, comp))
    ensures StackLinks(g, Popped(s, base, comp), gray)
  {
    var p := Popped(s, base, comp);
    BaseIsOlder(g, s, gray, base, node);
    PoppedGrayBelow(g, s, gray, base, node, p);
    forall u, v | u in p.onStack - gray && v in Succ(g, u) ensures v in p.indices {
      assert u in s.onStack - (gray + {node});
    }
  }

  lemma PoppedGrayBelow(g: Graph, s: State, gray: set<string>, base: seq<string>, node: string, p: State)
    requires (forall v :: v in s.onStack ==> v in s.indices) && GrayBelow(g, s, gray + {node})
    requires p.indices == s.indices && gray <= p.onStack <= s.onStack
    requires node in s.indices && forall v :: v in p.onStack ==> s.indices[v] < s.indices[node]
    ensures GrayBelow(g, p, gray)
  {
    forall y | y in p.onStack ensures HasGrayBelow(g, p, gray, y) {
      assert HasGrayBelow(g, s, gray + {node}, y);
      var x :| x in gray + {node} && s.indices[x] <= s.indices[y] && Reaches(g, y, x);
      assert x in gray;
    }
  }

  ghost predicate NewlyReached(g: Graph, s0: State, s: State, node: string) {
    forall v :: v in s.indices && v !in s0.indices ==> Reaches(g, node, v)
  }

  lemma GrayReachNext(g: Graph, gray: set<string>, node: string, next: string)
    requires forall x :: x in gray ==> Reaches(g, x, node)
    requires next in Succ(g, node)
    ensures forall x :: x in gray + {node} ==> Reaches(g, x, next)
  {
    ReachesSelf(g, node);
    forall x | x in gray + {node} ensures Reaches(g, x, next) {
      ReachesThenEdge(g, x, node, next);
    }
  }

  lemma AfterChild(g: Graph, s0: State, s: State, t: State, node: string, next: string, n: nat)
    requires Extends(s0, s) && LowKept(s0, s) && NewlyReached(g, s0, s, node)
    requires Returned(g, s, t, next) && NewlyReached(g, s, t, next)
    requires next in Succ(g, node) && node !in s0.low
    ensures Extends(s0, WithLow(t, node, n)) && LowKept(s0, WithLow(t, node, n))
    ensures NewlyReached(g, s0, WithLow(t, node, n), node)
  {
    forall v | v in t.indices && v !in s.indices ensures Reaches(g, node, v) {
      ReachesEdge(g, node, next);
      ReachesTrans(g, node, next, v);
    }
  }

  lemma EnterLeaving(g: Graph, s0: State, s: State, gray: set<string>, node: string)
    requires Bookkeeping(s0) && gray <= s0.onStack
    requires Bookkeeping(s) && gray + {node} <= s.onStack
    requires Frontier(g, s, s0.stack, node, |Succ(g, node)|)
    ensures Leaving(g, s, gray, s0.stack, node)
    ensures |s0.stack| < |s.stack| && s.stack[|s0.stack|] == node
    ensures Distinct(s.stack)
  {
    assert s.stack[|s0.stack|] == (s0.stack + [node])[|s0.stack|];
  }

  lemma ReturnKept(g: Graph, s0: State, s: State, gray: set<string>, node: string)
    requires Bookkeeping(s0) && node !in s0.indices && Extends(s0, s) && LowKept(s0, s)
    requires Leaving(g, s, gray, s0.stack, node) && s.low[node] != s.indices[node]
    ensures Returned(g, s0, s, node)
  {
    forall i, b | |s0.stack| <= i < |s.stack| && b in Succ(g, s.stack[i]) && b in s0.stack
      ensures s.low[node] <= s.indices[b]
    {
      assert s.stack[|s0.stack|] == (s0.stack + [node])[|s0.stack|];
      if i == |s0.stack| {
        var j :| 0 <= j < |Succ(g, node)| && Succ(g, node)[j] == b;
        assert SuccessorSeen(s, s0.stack, node, Succ(g, node)[j]);
      }
    }
  }

  lemma PopComponent(g: Graph, s0: State, s: State, gray: set<string>, node: string, component: seq<string>)
    requires Leaving(g, s, gray, s0.stack, node) && Inv(g, s, gray + {node})
    requires s.low[node] == s.indices[node]
    requires Distinct(s.stack) && IsReversedTop(component, s.stack, |s0.stack|)
    ensures Inv(g, Popped(s, s0.stack, Sort(component, TextLeq)), gray)
  {
    SortedReverse(s.stack, |s0.stack|, component);
    PoppedInv(g, s, gray, s0.stack, node, Sort(component, TextLeq));
  }

  lemma ReturnPopped(g: Graph, s0: State, s: State, node: string, comp: seq<string>)
    requires Bookkeeping(s0) && node !in s0.indices && Extends(s0, s) && LowKept(s0, s)
    requires node in s.indices && node in s.low && s.low[node] == s.indices[node]
    ensures Returned(g, s0, Popped(s, s0.stack, comp), node)
  {
  }

  lemma SortedReverse(s: seq<string>, from: nat, r: seq<string>)
    requires IsReversedTop(r, s, from) && Distinct(s)
    ensures Ascending(Sort(r, TextLeq))
    ensures forall v :: v in Sort(r, TextLeq) <==> v in s[from..]
  {
    assert Distinct(r);
    SortDistinct(r, TextLeq);
    TextLeqIsPreorder();
    SortIsSorted(r, TextLeq);
    SortMembers(r, TextLeq);
    ReverseMembers(s, from, r);
  }

  lemma ReverseMembers(s: seq<string>, from: nat, r: seq<string>)
    requires IsReversedTop(r, s, from)
    ensures forall v :: v in r <==> v in s[from..]
  {
    forall v | v in s[from..] ensures v in r {
      var i :| 0 <= i < |s[from..]| && s[from..][i] == v;
      assert r[|s| - 1 - (from + i)] == v;
    }
  }

  /** The state in the middle of `node`'s successor loop, relative to the state `s0` at its entry. */
  ghost predicate Scanning(g: Graph, s0: State, s: State, gray: set<string>, node: string, k: nat) {
    && Bookkeeping(s0) && gray <= s0.onStack && node !in s0.indices
    && Inv(g, s, gray + {node})
    && Frontier(g, s, s0.stack, node, k)
    && Extends(s0, s) && LowKept(s0, s)
    && NewlyReached(g, s0, s, node)
  }

  lemma StartScan(g: Graph, s0: State, gray: set<string>, node: string)
    requires Inv(g, s0, gray) && node !in s0.indices
    requires forall x :: x in gray ==> Reaches(g, x, node)
    ensures Scanning(g, s0, Entered(s0, node), gray, node, 0)
  {
    EnteredInv(g, s0, gray, node);
    EnteredFrontier(g, s0, node);
    ReachesSelf(g, node);
  }

  /** The recursive call's termination: its set of unnumbered nodes has lost `node`. */
  lemma ScanDescends(g: Graph, s0: State, s: State, gray: set<string>, node: string, universe: set<string>, k: nat)
    requires Scanning(g, s0, s, gray, node, k) && k < |Succ(g, node)|
    requires Closed(g, universe) && node in universe
    ensures Succ(g, node)[k] in universe
    ensures universe - s.indices.Keys < universe - s0.indices.Keys
  {
    assert node in universe - s0.indices.Keys && node !in universe - s.indices.Keys;
  }

  lemma ScanTree(g: Graph, s0: State, s: State, t: State, gray: set<string>, node: string, k: nat)
    requires Scanning(g, s0, s, gray, node, k) && k < |Succ(g, node)|
    requires Succ(g, node)[k] !in s.indices
    requires Inv(g, t, gray + {node}) && Returned(g, s, t, Succ(g, node)[k])
    requires NewlyReached(g, s, t, Succ(g, node)[k])
    ensures Scanning(g, s0, WithLow(t, node, Min(t.low[node], t.low[Succ(g, node)[k]])), gray, node, k + 1)
  {
    var next := Succ(g, node)[k];
    var n := Min(t.low[node], t.low[next]);
    TreeEdge(g, s, t, s0.stack, node, k);
    WithLowInv(g, t, gray + {node}, node, n);
    AfterChild(g, s0, s, t, node, next, n);
  }

  lemma ScanBack(g: Graph, s0: State, s: State, gray: set<string>, node: string, k: nat)
    requires Scanning(g, s0, s, gray, node, k) && k < |Succ(g, node)|
    requires Succ(g, node)[k] in s.indices && Succ(g, node)[k] in s.onStack
    ensures Scanning(g, s0, WithLow(s, node, Min(s.low[node], s.indices[Succ(g, node)[k]])), gray, node, k + 1)
  {
    BackEdge(g, s, s0.stack, node, k);
    WithLowInv(g, s, gray + {node}, node, Min(s.low[node], s.indices[Succ(g, node)[k]]));
  }

  lemma ScanSkip(g: Graph, s0: State, s: State, gray: set<string>, node: string, k: nat)
    requires Scanning(g, s0, s, gray, node, k) && k < |Succ(g, node)|
    requires Succ(g, node)[k] in s.indices && Succ(g, node)[k] !in s.onStack
    ensures Scanning(g, s0, s, gray, node, k + 1)
  {
    SkipSuccessor(g, s, s0.stack, node, k);
  }

  lemma ScanDone(g: Graph, s0: State, s: State, gray: set<string>, node: string)
    requires Scanning(g, s0, s, gray, node, |Succ(g, node)|)
    ensures Leaving(g, s, gray, s0.stack, node)
    ensures |s0.stack| < |s.stack| && s.stack[|s0.stack|] == node && s.stack[..|s0.stack|] == s0.stack
    ensures Distinct(s.stack)
  {
    assert s.stack[..|s0.stack|] == (s0.stack + [node])[..|s0.stack|];
    EnterLeaving(g, s0, s, gray, node);
  }

  lemma FinishPop(g: Graph, s0: State, s: State, t: State, gray: set<string>, node: string)
    requires Scanning(g, s0, s, gray, node, |Succ(g, node)|) && Leaving(g, s, gray, s0.stack, node)
    requires s.low[node] == s.indices[node] && Distinct(s.stack)
    requires exists component ::
      IsReversedTop(component, s.stack, |s0.stack|) && t == Popped(s, s0.stack, Sort(component, TextLeq))
    ensures Inv(g, t, gray) && Returned(g, s0, t, node) && NewlyReached(g, s0, t, node)
  {
    var component :| IsReversedTop(component, s.stack, |s0.stack|)
      && t == Popped(s, s0.stack, Sort(component, TextLeq));
    PopComponent(g, s0, s, gray, node, component);
    ReturnPopped(g, s0, s, node, Sort(component, TextLeq));
  }

  lemma FinishKeep(g: Graph, s0: State, s: State, gray: set<string>, node: string)
    requires Scanning(g, s0, s, gray, node, |Succ(g, node)|) && Leaving(g, s, gray, s0.stack, node)
    requires s.low[node] != s.indices[node]
    ensures Inv(g, s, gray) && Returned(g, s0, s, node)
  {
    KeepOnStack(g, s, gray, s0.stack, node);
    ReturnKept(g, s0, s, gray, node);
  }

  /** `r` is the part of `s` from position `from` up, in popping order. */
  ghost predicate IsReversedTop(r: seq<string>, s: seq<string>, from: nat) {
    && from <= |s| && |r| == |s| - from
    && forall i :: 0 <= i < |r| ==> r[i] == s[|s| - 1 - i]
  }

  /** The walk's mutable state and its recursive step. */
  class Walker {
    const adjacency: Graph
    var index: nat
    var indices: map<string, nat>
    var low: map<string, nat>
    var onStack: set<string>
    var stack: seq<string>
    var result: seq<seq<string>>

    ghost function View(): State
      reads this
    {
      State(index, indices, low, onStack, stack, result)
    }

    constructor (adjacency: Graph)
      ensures this.adjacency == adjacency
      ensures View() == State(0, map[], map[], {}, [], [])
    {
      this.adjacency := adjacency;
      index, indices, low, onStack, stack, result := 0, map[], map[], {}, [], [];
    }

    /** Numbers `node` and pushes it. */
    method Enter(node: string)
      modifies this
      ensures View() == Entered(old(View()), node)
    {
      indices := indices[node := index];
      low := low[node := index];
      index := index + 1;
      stack := stack + [node];
      onStack := onStack + {node};
    }

    method LowerTo(node: string, n: nat)
      requires node in low
      modifies this`low
      ensures View() == WithLow(old(View()), node, Min(old(low[node]), n))
    {
      low := low[node := Min(low[node], n)];
    }

    /** Pops the component whose root is `node`, the stack entry at position `bottom`. */
    method PopComponentOf(node: string, ghost bottom: nat)
      requires bottom < |stack| && stack[bottom] == node
      requires Distinct(stack)
      requires forall v :: v in stack <==> v in onStack
      modifies this
      ensures exists component ::
        IsReversedTop(component, old(stack), bottom)
        && View() == Popped(old(View()), old(stack)[..bottom], Sort(component, TextLeq))
    {
      var component := PopUntil(node, bottom);
      result := result + [Sort(component, TextLeq)];
      assert View() == Popped(old(View()), old(stack)[..bottom], Sort(component, TextLeq));
    }

    method Visit(node: string, ghost universe: set<string>, ghost gray: set<string>)
      requires Inv(adjacency, View(), gray) && node !in indices
      requires forall x :: x in gray ==> Reaches(adjacency, x, node)
      requires Closed(adjacency, universe) && node in universe
      modifies this
      ensures Inv(adjacency, View(), gray)
      ensures Returned(adjacency, old(View()), View(), node)
      ensures NewlyReached(adjacency, old(View()), View(), node)
      decreases universe - indices.Keys
    {
      ghost var s0 := View();
      StartScan(adjacency, s0, gray, node);
      Enter(node);
      var successors := Succ(adjacency, node);
      for k := 0 to |successors|
        invariant Scanning(adjacency, s0, View(), gray, node, k)
      {
        var next := successors[k];
        ghost var s := View();
        if next !in indices {
          GrayReachNext(adjacency, gray, node, next);
          ScanDescends(adjacency, s0, s, gray, node, universe, k);
          Visit(next, universe, gray + {node});
          ScanTree(adjacency, s0, s, View(), gray, node, k);
          LowerTo(node, low[next]);
        } else if next in onStack {
          ScanBack(adjacency, s0, s, gray, node, k);
          LowerTo(node, indices[next]);
        } else {
          ScanSkip(adjacency, s0, s, gray, node, k);
        }
      }
      ghost var s := View();
      ScanDone(adjacency, s0, s, gray, node);
      if low[node] == indices[node] {
        PopComponentOf(node, |s0.stack|);
        FinishPop(adjacency, s0, s, View(), gray, node);
      } else {
        FinishKeep(adjacency, s0, s, gray, node);
      }
    }

    /** Visits one root of the outer loop, unless an earlier root has reached it. */
    method VisitRoot(roots: seq<string>, i: nat)
      requires i < |roots| && Walked(adjacency, roots, View(), i)
      modifies this
      ensures Walked(adjacency, roots, View(), i + 1)
    {
      ghost var s := View();
      if roots[i] !in indices {
        UniverseClosed(adjacency, roots);
        Visit(roots[i], Universe(adjacency, roots), {});
        WalkedRoot(adjacency, roots, s, View(), i);
      }
    }

    /** Pops the stack down to and including `node`, the entry at position `bottom`. */
    method PopUntil(node: string, ghost bottom: nat) returns (component: seq<string>)
      requires bottom < |stack| && stack[bottom] == node
      requires Distinct(stack)
      requires forall v :: v in stack <==> v in onStack
      modifies this`stack, this`onStack
      ensures stack == old(stack)[..bottom]
      ensures onStack == set v | v in stack
      ensures IsReversedTop(component, old(stack), bottom)
    {
      component := [];
      var member := "";
      var popped := false;
      while !popped || member != node
        invariant |stack| + |component| == |old(stack)|
        invariant stack == old(stack)[..|stack|]
        invariant if popped && member == node then |stack| == bottom else bottom < |stack|
        invariant onStack == set v | v in stack
        invariant forall i :: 0 <= i < |component| ==> component[i] == old(stack)[|old(stack)| - 1 - i]
        decreases |stack|, !popped
      {
        member := stack[|stack| - 1];
        popped := true;
        stack := stack[..|stack| - 1];
        onStack := onStack - {member};
        component := component + [member];
      }
    }
  }

  // ---- The whole walk ----------------------------------------------------

  function Head(c: seq<string>): string {
    if c == [] then "" else c[0]
  }

  function ByHead(collate: (string, string) -> bool): (seq<string>, seq<string>) -> bool {
    (a, b) => collate(Head(a), Head(b))
  }

  /** Every node the walk can come to: the roots and everything named in a list. */
  ghost function Universe(g: Graph, nodes: seq<string>): set<string> {
    (set v | v in nodes) + set u, v | u in g && v in g[u] :: v
  }

  lemma GrayOf(g: Graph, s: State, gray: set<string>, y: string) returns (x: string)
    requires (forall v :: v in s.onStack ==> v in s.indices) && GrayBelow(g, s, gray) && y in s.onStack
    ensures x in gray
  {
    assert HasGrayBelow(g, s, gray, y);
    x :| x in gray && s.indices[x] <= s.indices[y] && Reaches(g, y, x);
  }

  /** Once no node is being visited, the stack is empty and every numbered node is in a component. */
  lemma NothingLeft(g: Graph, s: State)
    requires Bookkeeping(s) && GrayBelow(g, s, {})
    ensures forall v :: v in s.indices <==> Covered(s.result, v)
  {
    if s.onStack != {} {
      var y :| y in s.onStack;
      var x := GrayOf(g, s, {}, y);
      assert false;
    }
  }

  /** The walk has numbered the first `i` roots and nothing the roots do not reach. */
  ghost predicate Walked(g: Graph, nodes: seq<string>, s: State, i: nat)
    requires i <= |nodes|
  {
    && Inv(g, s, {})
    && (forall j :: 0 <= j < i ==> nodes[j] in s.indices)
    && (forall v :: v in s.indices ==> ReachedFrom(g, nodes, v))
  }

  lemma NothingWalked(g: Graph, nodes: seq<string>)
    ensures Walked(g, nodes, State(0, map[], map[], {}, [], []), 0)
  {
  }

  lemma WalkedRoot(g: Graph, nodes: seq<string>, s: State, t: State, i: nat)
    requires i < |nodes| && Walked(g, nodes, s, i)
    requires Inv(g, t, {}) && Returned(g, s, t, nodes[i]) && NewlyReached(g, s, t, nodes[i])
    ensures Walked(g, nodes, t, i + 1)
  {
    forall v | v in t.indices ensures ReachedFrom(g, nodes, v) {
      if v !in s.indices {
        assert nodes[i] in nodes && Reaches(g, nodes[i], v);
      }
    }
  }

  lemma WalkedAll(g: Graph, nodes: seq<string>, s: State)
    requires Walked(g, nodes, s, |nodes|)
    ensures IsSccPartition(g, nodes, s.result)
    ensures forall i :: 0 <= i < |s.result| ==> Ascending(s.result[i])
  {
    NothingLeft(g, s);
    DoneIsClosed(g, s);
    forall v | ReachedFrom(g, nodes, v) ensures Covered(s.result, v) {
      RootClosure(g, nodes, Done(s), v);
    }
  }

  lemma RootClosure(g: Graph, nodes: seq<string>, cs: set<string>, v: string)
    requires Closed(g, cs) && (forall j :: 0 <= j < |nodes| ==> nodes[j] in cs) && ReachedFrom(g, nodes, v)
    ensures v in cs
  {
    var r :| r in nodes && Reaches(g, r, v);
    ReachesStaysInClosed(g, cs, r, v);
  }

  lemma ComponentsDistinct(comps: seq<seq<string>>)
    requires Disjoint(comps) && forall i :: 0 <= i < |comps| ==> comps[i] != []
    ensures Distinct(comps)
  {
    forall i, j | 0 <= i < j < |comps| ensures comps[i] != comps[j] {
      assert comps[i][0] in comps[i];
    }
  }

  /** The order of the components does not matter to what they partition. */
  lemma ReorderedPartition(g: Graph, nodes: seq<string>, a: seq<seq<string>>, leq: (seq<string>, seq<string>) -> bool)
    requires IsSccPartition(g, nodes, a) && forall i :: 0 <= i < |a| ==> Ascending(a[i])
    ensures IsSccPartition(g, nodes, Sort(a, leq))
    ensures forall i :: 0 <= i < |Sort(a, leq)| ==> Ascending(Sort(a, leq)[i])
  {
    var b := Sort(a, leq);
    SortMembers(a, leq);
    assert forall i :: 0 <= i < |a| ==> IsComponent(g, a[i]);
    ComponentsDistinct(a);
    SortDistinct(a, leq);
    forall i | 0 <= i < |b| ensures b[i] in a {
      assert b[i] in b;
    }
    forall v | Covered(a, v) ensures Covered(b, v) {
      var i :| 0 <= i < |a| && v in a[i];
      assert a[i] in b;
    }
    forall i, j, v | 0 <= i < j < |b| && v in b[i] ensures v !in b[j] {
      var x :| 0 <= x < |a| && a[x] == b[i];
      var y :| 0 <= y < |a| && a[y] == b[j];
      assert x != y;
    }
  }

  lemma ByHeadIsPreorder(collate: (string, string) -> bool)
    requires TotalPreorder(collate)
    ensures TotalPreorder(ByHead(collate))
  {
    var leq := ByHead(collate);
    forall a, b ensures leq(a, b) || leq(b, a) {
      assert collate(Head(a), Head(b)) || collate(Head(b), Head(a));
    }
    forall a, b, c | leq(a, b) && leq(b, c) ensures leq(a, c) {
      assert collate(Head(a), Head(b)) && collate(Head(b), Head(c));
    }
  }

  lemma UniverseClosed(g: Graph, nodes: seq<string>)
    ensures Closed(g, Universe(g, nodes)) && forall v :: v in nodes ==> v in Universe(g, nodes)
  {
  }

  /** The components in the order the walk finishes them. */
  method WalkRoots(roots: seq<string>, adjacency: Graph) returns (result: seq<seq<string>>)
    ensures IsSccPartition(adjacency, roots, result)
    ensures forall i :: 0 <= i < |result| ==> Ascending(result[i])
  {
    var walker := new Walker(adjacency);
    NothingWalked(adjacency, roots);
    for i := 0 to |roots|
      invariant walker.adjacency == adjacency
      invariant Walked(adjacency, roots, walker.View(), i)
    {
      walker.VisitRoot(roots, i);
    }
    WalkedAll(adjacency, roots, walker.View());
    result := walker.result;
  }

  /**
   The strongly connected components of the part of the graph reachable from `nodes`, each
   with its members in ascending order, ordered among themselves by `collate` on their
   first members. `collate` stands for the locale's comparison.
   */
  method StronglyConnected(nodes: seq<string>, adjacency: Graph, collate: (string, string) -> bool)
      returns (result: seq<seq<string>>)
    requires TotalPreorder(collate)
    ensures IsSccPartition(adjacency, nodes, result)
    ensures forall i :: 0 <= i < |result| ==> Ascending(result[i])
    ensures SortedBy(result, ByHead(collate))
  {
    var roots := Sort(nodes, TextLeq);
    SortMembers(nodes, TextLeq);
    var found := WalkRoots(roots, adjacency);
    SameRoots(adjacency, roots, nodes, found);
    ReorderedPartition(adjacency, nodes, found, ByHead(collate));
    ByHeadIsPreorder(collate);
    SortIsSorted(found, ByHead(collate));
    result := Sort(found, ByHead(collate));
  }

  lemma SameRoots(g: Graph, a: seq<string>, b: seq<string>, comps: seq<seq<string>>)
    requires IsSccPartition(g, a, comps) && forall v :: v in a <==> v in b
    ensures IsSccPartition(g, b, comps)
  {
    forall v ensures ReachedFrom(g, a, v) <==> ReachedFrom(g, b, v) {
    }
  }
}
