/**
 Directed graphs given by adjacency lists, reachability, and what it means for a list of
 components to be the strongly connected components of a graph.
 */
module Digraph {

  type Graph = map<string, seq<string>>

  /** A node without an adjacency list has no successors. */
  function Succ(g: Graph, u: string): seq<string> {
    if u in g then g[u] else []
  }

  ghost predicate Walk(g: Graph, u: string, p: seq<string>, v: string)
    decreases p
  {
    if p == [] then u == v
    else p[0] in Succ(g, u) && Walk(g, p[0], p[1..], v)
  }

  ghost predicate Reaches(g: Graph, u: string, v: string) {
    exists p :: Walk(g, u, p, v)
  }

  ghost predicate SameComponent(g: Graph, u: string, v: string) {
    Reaches(g, u, v) && Reaches(g, v, u)
  }

  ghost predicate ReachedFrom(g: Graph, roots: seq<string>, v: string) {
    exists r :: r in roots && Reaches(g, r, v)
  }

  ghost predicate Closed(g: Graph, s: set<string>) {
    forall u, v :: u in s && v in Succ(g, u) ==> v in s
  }

  lemma ReachesSelf(g: Graph, u: string)
    ensures Reaches(g, u, u)
  {
    assert Walk(g, u, [], u);
  }

  lemma ReachesEdge(g: Graph, u: string, v: string)
    requires v in Succ(g, u)
    ensures Reaches(g, u, v)
  {
    assert Walk(g, v, [], v);
    assert Walk(g, u, [v], v);
  }

  lemma {:induction false} WalkThenReaches(g: Graph, u: string, p: seq<string>, v: string, w: string)
    requires Walk(g, u, p, v) && Reaches(g, v, w)
    ensures Reaches(g, u, w)
    decreases p
  {
    if p != [] {
      WalkThenReaches(g, p[0], p[1..], v, w);
      var q :| Walk(g, p[0], q, w);
      assert ([p[0]] + q)[1..] == q;
      assert Walk(g, u, [p[0]] + q, w);
    }
  }

  lemma ReachesTrans(g: Graph, u: string, v: string, w: string)
    requires Reaches(g, u, v) && Reaches(g, v, w)
    ensures Reaches(g, u, w)
  {
    var p :| Walk(g, u, p, v);
    WalkThenReaches(g, u, p, v, w);
  }

  lemma ReachesThenEdge(g: Graph, u: string, v: string, w: string)
    requires Reaches(g, u, v) && w in Succ(g, v)
    ensures Reaches(g, u, w)
  {
    ReachesEdge(g, v, w);
    ReachesTrans(g, u, v, w);
  }

  lemma {:induction false} WalkStaysInClosed(g: Graph, s: set<string>, u: string, p: seq<string>, v: string)
    requires Closed(g, s) && u in s && Walk(g, u, p, v)
    ensures v in s
    decreases p
  {
    if p != [] {
      WalkStaysInClosed(g, s, p[0], p[1..], v);
    }
  }

  /** Nothing outside a closed set is reachable from inside it. */
  lemma ReachesStaysInClosed(g: Graph, s: set<string>, u: string, v: string)
    requires Closed(g, s) && u in s && Reaches(g, u, v)
    ensures v in s
  {
    var p :| Walk(g, u, p, v);
    WalkStaysInClosed(g, s, u, p, v);
  }

  // ---- Strongly connected components ------------------------------------

  ghost predicate Covered(comps: seq<seq<string>>, v: string) {
    exists i :: 0 <= i < |comps| && v in comps[i]
  }

  ghost predicate IsComponent(g: Graph, c: seq<string>) {
    && c != []
    && forall u, v :: u in c ==> (v in c <==> SameComponent(g, u, v))
  }

  ghost predicate Disjoint(comps: seq<seq<string>>) {
    forall i, j, v :: 0 <= i < j < |comps| && v in comps[i] ==> v !in comps[j]
  }

  /**
   The components partition exactly the nodes reachable from `roots`, and each of them is
   one whole class of mutually reachable nodes.
   */
  ghost predicate IsSccPartition(g: Graph, roots: seq<string>, comps: seq<seq<string>>) {
    && (forall v :: Covered(comps, v) <==> ReachedFrom(g, roots, v))
    && (forall i :: 0 <= i < |comps| ==> IsComponent(g, comps[i]))
    && Disjoint(comps)
  }

  /** Two nodes reachable from the roots share a component exactly when each reaches the other. */
  lemma SharedComponentIffMutual(g: Graph, roots: seq<string>, comps: seq<seq<string>>, u: string, v: string)
    requires IsSccPartition(g, roots, comps)
    requires ReachedFrom(g, roots, u)
    ensures (exists i :: 0 <= i < |comps| && u in comps[i] && v in comps[i]) <==> SameComponent(g, u, v)
  {
    assert Covered(comps, u);
    var i :| 0 <= i < |comps| && u in comps[i];
    assert IsComponent(g, comps[i]);
  }

  /** The partition is determined: two of them over the same roots have the same classes. */
  lemma PartitionUnique(g: Graph, roots: seq<string>, a: seq<seq<string>>, b: seq<seq<string>>, i: nat)
    requires IsSccPartition(g, roots, a) && IsSccPartition(g, roots, b)
    requires i < |a|
    ensures exists j :: 0 <= j < |b| && forall v :: v in a[i] <==> v in b[j]
  {
    assert IsComponent(g, a[i]);
    var u := a[i][0];
    assert Covered(a, u);
    assert Covered(b, u);
    var j :| 0 <= j < |b| && u in b[j];
    assert IsComponent(g, b[j]);
    assert forall v :: v in a[i] <==> v in b[j];
  }
}
