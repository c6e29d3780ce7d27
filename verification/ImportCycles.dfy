/**
 Import cycles (scripts/arch-imports.ts): the edges that lie on a cycle of the module graph,
 and their exact meaning.
 */
module ImportCycles {
  import opened Digraph
  import opened Sorting
  import opened Tarjan

  datatype Edge = Edge(from: string, to: string)

  /** One cyclic component, with the keys of the edges inside it. */
  datatype Cycle = Cycle(members: seq<string>, edges: seq<string>)

  function EdgeKey(from: string, to: string): string {
    from + " -> " + to
  }

  // ---- The graph of an edge list -----------------------------------------

  function Targets(edges: seq<Edge>, u: string): (r: seq<string>)
    ensures forall v :: v in r <==> Edge(u, v) in edges
  {
    if edges == [] then []
    else
      assert edges == [edges[0]] + edges[1..];
      (if edges[0].from == u then [edges[0].to] else []) + Targets(edges[1..], u)
  }

  /** The graph an edge list stands for. */
  function EdgeGraph(edges: seq<Edge>): Graph {
    map u | u in (set e | e in edges :: e.from) :: Targets(edges, u)
  }

  lemma EdgeGraphSucc(edges: seq<Edge>)
    ensures forall u, v :: v in Succ(EdgeGraph(edges), u) <==> Edge(u, v) in edges
  {
    forall u, v | Edge(u, v) in edges ensures v in Succ(EdgeGraph(edges), u) {
      assert Edge(u, v).from == u;
    }
  }

  ghost predicate SameSuccessors(g: Graph, h: Graph) {
    forall u, v :: v in Succ(g, u) <==> v in Succ(h, u)
  }

  lemma {:induction false} SameWalks(g: Graph, h: Graph, u: string, p: seq<string>, v: string)
    requires SameSuccessors(g, h) && Walk(g, u, p, v)
    ensures Walk(h, u, p, v)
    decreases p
  {
    if p != [] {
      SameWalks(g, h, p[0], p[1..], v);
    }
  }

  lemma SameReaches(g: Graph, h: Graph, u: string, v: string)
    requires SameSuccessors(g, h)
    ensures Reaches(g, u, v) <==> Reaches(h, u, v)
  {
    if Reaches(g, u, v) {
      var p :| Walk(g, u, p, v);
      SameWalks(g, h, u, p, v);
    }
    if Reaches(h, u, v) {
      var p :| Walk(h, u, p, v);
      SameWalks(h, g, u, p, v);
    }
  }

  lemma SamePartition(g: Graph, h: Graph, roots: seq<string>, comps: seq<seq<string>>)
    requires SameSuccessors(g, h) && IsSccPartition(g, roots, comps)
    ensures IsSccPartition(h, roots, comps)
  {
    forall u, v ensures Reaches(g, u, v) <==> Reaches(h, u, v) {
      SameReaches(g, h, u, v);
    }
    forall v ensures ReachedFrom(g, roots, v) <==> ReachedFrom(h, roots, v) {
    }
    forall i | 0 <= i < |comps| ensures IsComponent(h, comps[i]) {
      assert IsComponent(g, comps[i]);
    }
  }

  // ---- Cycle edges -------------------------------------------------------

  /** The edge can be walked back: its target reaches its source. */
  ghost predicate OnCycle(edges: seq<Edge>, e: Edge) {
    e in edges && Reaches(EdgeGraph(edges), e.to, e.from)
  }

  /** The key of some edge that is on a cycle and reachable from the listed modules. */
  ghost predicate CycleKey(modules: seq<string>, edges: seq<Edge>, key: string) {
    exists e :: OnCycle(edges, e) && EdgeKey(e.from, e.to) == key && ReachedFrom(EdgeGraph(edges), modules, e.from)
  }

  ghost predicate EdgesListed(modules: seq<string>, edges: seq<Edge>) {
    forall e :: e in edges ==> e.from in modules && e.to in modules
  }

  /** Every edge goes to a node of strictly smaller rank: a topological order. */
  ghost predicate Ranks(edges: seq<Edge>, rank: map<string, nat>) {
    forall e :: e in edges ==> e.from in rank && e.to in rank && rank[e.to] < rank[e.from]
  }

  lemma {:induction false} RanksDescend(edges: seq<Edge>, rank: map<string, nat>, u: string, p: seq<string>, v: string)
    requires Ranks(edges, rank) && Walk(EdgeGraph(edges), u, p, v) && u in rank
    ensures v in rank && rank[v] <= rank[u]
    decreases p
  {
    if p != [] {
      EdgeGraphSucc(edges);
      assert Edge(u, p[0]) in edges;
      RanksDescend(edges, rank, p[0], p[1..], v);
    }
  }

  ghost function Nodes(edges: seq<Edge>): set<string> {
    (set e | e in edges :: e.from) + (set e | e in edges :: e.to)
  }

  ghost function Below(edges: seq<Edge>, u: string): set<string> {
    set w | w in Nodes(edges) && Reaches(EdgeGraph(edges), u, w)
  }

  lemma BelowShrinks(edges: seq<Edge>, e: Edge)
    requires e in edges && !OnCycle(edges, e)
    ensures |Below(edges, e.to)| < |Below(edges, e.from)|
  {
    var g := EdgeGraph(edges);
    EdgeGraphSucc(edges);
    ReachesSelf(g, e.from);
    forall w | w in Below(edges, e.to) ensures w in Below(edges, e.from) {
      ReachesEdge(g, e.from, e.to);
      ReachesTrans(g, e.from, e.to, w);
    }
    assert e.from in Below(edges, e.from) - Below(edges, e.to);
    assert |Below(edges, e.from)| == |Below(edges, e.to)| + |Below(edges, e.from) - Below(edges, e.to)|;
  }

  /** A topological order exists exactly when no edge is on a cycle. */
  lemma AcyclicIffRanked(edges: seq<Edge>)
    ensures (exists rank :: Ranks(edges, rank)) <==> forall e :: !OnCycle(edges, e)
  {
    if exists rank :: Ranks(edges, rank) {
      var rank :| Ranks(edges, rank);
      forall e ensures !OnCycle(edges, e) {
        RankedEdgeNotOnCycle(edges, rank, e);
      }
    }
    if forall e :: !OnCycle(edges, e) {
      var rank := map u | u in Nodes(edges) :: |Below(edges, u)|;
      forall e | e in edges ensures e.from in rank && e.to in rank && rank[e.to] < rank[e.from] {
        BelowShrinks(edges, e);
      }
      assert Ranks(edges, rank);
    }
  }

  lemma RankedEdgeNotOnCycle(edges: seq<Edge>, rank: map<string, nat>, e: Edge)
    requires Ranks(edges, rank)
    ensures !OnCycle(edges, e)
  {
    if OnCycle(edges, e) {
      var p :| Walk(EdgeGraph(edges), e.to, p, e.from);
      RanksDescend(edges, rank, e.to, p, e.from);
      assert false;
    }
  }

  // ---- Extracting the cycles ---------------------------------------------

  /** The distinct values in ascending order. */
  function SortedUnique(values: seq<string>): (r: seq<string>)
    ensures forall v :: v in r <==> v in values
  {
    SortMembers(Unique(values), TextLeq);
    Sort(Unique(values), TextLeq)
  }

  function Unique(values: seq<string>): (r: seq<string>)
    ensures forall v :: v in r <==> v in values
    ensures Distinct(r)
  {
    if values == [] then []
    else
      var v := values[|values| - 1];
      var r := Unique(values[..|values| - 1]);
      assert values == values[..|values| - 1] + [v];
      if v in r then r else r + [v]
  }

  method BuildAdjacency(edges: seq<Edge>) returns (adjacency: Graph)
    ensures SameSuccessors(adjacency, EdgeGraph(edges))
    ensures forall u :: u in adjacency ==> Ascending(adjacency[u])
  {
    adjacency := map[];
    for i := 0 to |edges|
      invariant forall u, v :: v in Succ(adjacency, u) <==> Edge(u, v) in edges[..i]
      invariant forall u :: u in adjacency ==> Distinct(adjacency[u])
    {
      var e := edges[i];
      var list := Succ(adjacency, e.from);
      if e.to !in list {
        list := list + [e.to];
      }
      adjacency := adjacency[e.from := list];
      assert edges[..i + 1] == edges[..i] + [e];
      assert e == Edge(e.from, e.to);
    }
    assert edges[..|edges|] == edges;
    EdgeGraphSucc(edges);
    adjacency := SortLists(adjacency);
  }

  method SortLists(unsorted: Graph) returns (adjacency: Graph)
    requires forall u :: u in unsorted ==> Distinct(unsorted[u])
    ensures SameSuccessors(adjacency, unsorted)
    ensures forall u :: u in adjacency ==> Ascending(adjacency[u])
  {
    adjacency := unsorted;
    var todo := unsorted.Keys;
    while todo != {}
      invariant todo <= adjacency.Keys == unsorted.Keys
      invariant forall u :: u in todo ==> adjacency[u] == unsorted[u]
      invariant forall u, v :: v in Succ(adjacency, u) <==> v in Succ(unsorted, u)
      invariant forall u :: u in adjacency.Keys - todo ==> Ascending(adjacency[u])
    {
      var u :| u in todo;
      SortedList(adjacency[u]);
      adjacency := adjacency[u := Sort(adjacency[u], TextLeq)];
      todo := todo - {u};
    }
  }

  lemma SortedList(list: seq<string>)
    requires Distinct(list)
    ensures Ascending(Sort(list, TextLeq)) && forall v :: v in Sort(list, TextLeq) <==> v in list
  {
    TextLeqIsPreorder();
    SortIsSorted(list, TextLeq);
    SortMembers(list, TextLeq);
    SortDistinct(list, TextLeq);
  }

  /** The keys of the edges with both ends in `members`. */
  function InsideKeys(edges: seq<Edge>, members: set<string>): (r: seq<string>)
    ensures forall k :: k in r <==>
      exists e :: e in edges && e.from in members && e.to in members && EdgeKey(e.from, e.to) == k
  {
    if edges == [] then []
    else
      var e := edges[0];
      assert edges == [e] + edges[1..];
      (if e.from in members && e.to in members then [EdgeKey(e.from, e.to)] else []) + InsideKeys(edges[1..], members)
  }

  /** The component forms a cycle: several members, or one that imports itself. */
  predicate Cyclic(g: Graph, c: seq<string>) {
    |c| >= 2 || (|c| == 1 && c[0] in Succ(g, c[0]))
  }

  ghost predicate KeyListed(cycles: seq<Cycle>, key: string) {
    exists i :: 0 <= i < |cycles| && key in cycles[i].edges
  }

  ghost predicate FromComponent(g: Graph, comps: seq<seq<string>>, n: nat, c: Cycle)
    requires n <= |comps|
  {
    exists i :: 0 <= i < n && c.members == comps[i] && Cyclic(g, comps[i])
  }

  ghost predicate HasEntry(cycles: seq<Cycle>, members: seq<string>) {
    exists i :: 0 <= i < |cycles| && cycles[i].members == members
  }

  /** The cycles that the first `n` components give. */
  ghost predicate CyclesOf(edges: seq<Edge>, g: Graph, comps: seq<seq<string>>, n: nat, cycles: seq<Cycle>) {
    && n <= |comps|
    && (forall c :: c in cycles ==> c.edges == SortedUnique(InsideKeys(edges, Elements(c.members))))
    && (forall c {:trigger FromComponent(g, comps, n, c)} :: c in cycles ==> FromComponent(g, comps, n, c))
    && (forall i {:trigger HasEntry(cycles, comps[i])} ::
      0 <= i < n && Cyclic(g, comps[i]) ==> HasEntry(cycles, comps[i]))
  }

  /**
   Every cyclic component with its edges. An edge key is listed exactly when it belongs to
   an edge whose target reaches its source, self-loops included; so with all edges between
   listed modules, nothing is listed exactly when the modules can be put in an order.
   */
  method CycleComponents(modules: seq<string>, edges: seq<Edge>, collate: (string, string) -> bool)
      returns (result: seq<Cycle>)
    requires TotalPreorder(collate)
    ensures forall key :: KeyListed(result, key) <==> CycleKey(modules, edges, key)
    ensures forall c :: c in result ==> c.edges != [] && c.members != [] && IsComponent(EdgeGraph(edges), c.members)
    ensures EdgesListed(modules, edges) ==> (result == [] <==> exists rank :: Ranks(edges, rank))
  {
    var adjacency := BuildAdjacency(edges);
    var comps := StronglyConnected(modules, adjacency, collate);
    result := [];
    for i := 0 to |comps|
      invariant CyclesOf(edges, adjacency, comps, i, result)
    {
      var component := comps[i];
      var selfLoop := |component| == 1 && component[0] in Succ(adjacency, component[0]);
      if |component| < 2 && !selfLoop {
        SkipComponent(edges, adjacency, comps, i, result);
        continue;
      }
      TakeComponent(edges, adjacency, comps, i, result);
      var members := set v | v in component;
      var inside := SortedUnique(InsideKeys(edges, members));
      result := result + [Cycle(component, inside)];
    }
    SamePartition(adjacency, EdgeGraph(edges), modules, comps);
    CyclicSame(adjacency, EdgeGraph(edges), comps, result, edges);
    ListedKeys(modules, edges, comps, result);
    NonEmptyCycles(modules, edges, comps, result);
    EmptyIffRanked(modules, edges, result);
  }

  lemma CyclicSame(g: Graph, h: Graph, comps: seq<seq<string>>, cycles: seq<Cycle>, edges: seq<Edge>)
    requires SameSuccessors(g, h) && CyclesOf(edges, g, comps, |comps|, cycles)
    ensures CyclesOf(edges, h, comps, |comps|, cycles)
  {
    assert forall c :: Cyclic(g, c) <==> Cyclic(h, c);
    forall c | c in cycles ensures FromComponent(h, comps, |comps|, c) {
      assert FromComponent(g, comps, |comps|, c);
    }
    forall i | 0 <= i < |comps| && Cyclic(h, comps[i]) ensures HasEntry(cycles, comps[i]) {
      assert Cyclic(g, comps[i]);
    }
  }

  lemma SkipComponent(edges: seq<Edge>, g: Graph, comps: seq<seq<string>>, n: nat, cycles: seq<Cycle>)
    requires n < |comps| && CyclesOf(edges, g, comps, n, cycles) && !Cyclic(g, comps[n])
    ensures CyclesOf(edges, g, comps, n + 1, cycles)
  {
    forall c | c in cycles ensures FromComponent(g, comps, n + 1, c) {
      assert FromComponent(g, comps, n, c);
    }
    forall i | 0 <= i < n + 1 && Cyclic(g, comps[i]) ensures HasEntry(cycles, comps[i]) {
      assert i < n;
    }
  }

  lemma TakeComponent(edges: seq<Edge>, g: Graph, comps: seq<seq<string>>, n: nat, cycles: seq<Cycle>)
    requires n < |comps| && CyclesOf(edges, g, comps, n, cycles) && Cyclic(g, comps[n])
    ensures CyclesOf(edges, g, comps, n + 1,
                     cycles + [Cycle(comps[n], SortedUnique(InsideKeys(edges, Elements(comps[n]))))])
  {
    var r := cycles + [Cycle(comps[n], SortedUnique(InsideKeys(edges, Elements(comps[n]))))];
    forall c | c in r ensures FromComponent(g, comps, n + 1, c) {
      if c in cycles {
        assert FromComponent(g, comps, n, c);
      }
    }
    forall i | 0 <= i < n + 1 && Cyclic(g, comps[i]) ensures HasEntry(r, comps[i]) {
      if i < n {
        assert HasEntry(cycles, comps[i]);
        var j :| 0 <= j < |cycles| && cycles[j].members == comps[i];
        assert r[j] == cycles[j];
      } else {
        assert r[|cycles|].members == comps[n];
      }
    }
  }

  /** Two different nodes of one component lie on a cycle together, and so does a self-loop. */
  lemma CyclicHasEdge(edges: seq<Edge>, c: seq<string>) returns (e: Edge)
    requires IsComponent(EdgeGraph(edges), c) && Distinct(c) && Cyclic(EdgeGraph(edges), c)
    ensures e in edges && e.from in c && e.to in c
  {
    var g := EdgeGraph(edges);
    EdgeGraphSucc(edges);
    if |c| >= 2 {
      assert SameComponent(g, c[0], c[1]);
      var p :| Walk(g, c[0], p, c[1]);
      e := Edge(c[0], p[0]);
      assert Walk(g, p[0], p[1..], c[1]);
      ReachesEdge(g, c[0], p[0]);
      ReachesTrans(g, p[0], c[1], c[0]);
      assert SameComponent(g, c[0], p[0]);
    } else {
      e := Edge(c[0], c[0]);
    }
  }

  lemma ReachesBack(edges: seq<Edge>, c: seq<string>, e: Edge)
    requires IsComponent(EdgeGraph(edges), c) && e in edges && e.from in c && e.to in c
    ensures OnCycle(edges, e)
  {
    assert SameComponent(EdgeGraph(edges), e.from, e.to);
  }

  lemma CycleEdgeMakesCyclic(edges: seq<Edge>, c: seq<string>, e: Edge)
    requires IsComponent(EdgeGraph(edges), c) && OnCycle(edges, e) && e.from in c
    ensures e.to in c && Cyclic(EdgeGraph(edges), c)
  {
    var g := EdgeGraph(edges);
    EdgeGraphSucc(edges);
    assert e == Edge(e.from, e.to);
    ReachesEdge(g, e.from, e.to);
    assert SameComponent(g, e.from, e.to);
    TwoMembers(c, e.from, e.to);
  }

  lemma TwoMembers(c: seq<string>, a: string, b: string)
    requires a in c && b in c
    ensures |c| >= 2 || (a == b && c == [a])
  {
    if |c| == 1 {
      assert c == [a];
    }
  }

  lemma ListedKeys(modules: seq<string>, edges: seq<Edge>, comps: seq<seq<string>>, cycles: seq<Cycle>)
    requires IsSccPartition(EdgeGraph(edges), modules, comps)
    requires CyclesOf(edges, EdgeGraph(edges), comps, |comps|, cycles)
    ensures forall key :: KeyListed(cycles, key) <==> CycleKey(modules, edges, key)
  {
    forall key | KeyListed(cycles, key) ensures CycleKey(modules, edges, key) {
      var i :| 0 <= i < |cycles| && key in cycles[i].edges;
      assert cycles[i] in cycles;
      var e :| e in edges && e.from in cycles[i].members && e.to in cycles[i].members && EdgeKey(e.from, e.to) == key;
      assert FromComponent(EdgeGraph(edges), comps, |comps|, cycles[i]);
      var k :| 0 <= k < |comps| && cycles[i].members == comps[k];
      assert IsComponent(EdgeGraph(edges), comps[k]);
      assert Covered(comps, e.from);
      ReachesBack(edges, comps[k], e);
    }
    forall key | CycleKey(modules, edges, key) ensures KeyListed(cycles, key) {
      var e :| OnCycle(edges, e) && EdgeKey(e.from, e.to) == key && ReachedFrom(EdgeGraph(edges), modules, e.from);
      CycleEdgeListed(modules, edges, comps, cycles, e);
    }
  }

  lemma CycleEdgeListed(modules: seq<string>, edges: seq<Edge>, comps: seq<seq<string>>, cycles: seq<Cycle>, e: Edge)
    requires IsSccPartition(EdgeGraph(edges), modules, comps)
    requires CyclesOf(edges, EdgeGraph(edges), comps, |comps|, cycles)
    requires OnCycle(edges, e) && ReachedFrom(EdgeGraph(edges), modules, e.from)
    ensures KeyListed(cycles, EdgeKey(e.from, e.to))
  {
    var g := EdgeGraph(edges);
    assert Covered(comps, e.from);
    var k :| 0 <= k < |comps| && e.from in comps[k];
    assert IsComponent(g, comps[k]);
    CycleEdgeMakesCyclic(edges, comps[k], e);
    assert HasEntry(cycles, comps[k]);
    var i :| 0 <= i < |cycles| && cycles[i].members == comps[k];
    assert cycles[i] in cycles;
    assert EdgeKey(e.from, e.to) in InsideKeys(edges, Elements(comps[k]));
    assert EdgeKey(e.from, e.to) in cycles[i].edges;
  }

  lemma NonEmptyCycles(modules: seq<string>, edges: seq<Edge>, comps: seq<seq<string>>, cycles: seq<Cycle>)
    requires IsSccPartition(EdgeGraph(edges), modules, comps)
    requires CyclesOf(edges, EdgeGraph(edges), comps, |comps|, cycles)
    requires forall i :: 0 <= i < |comps| ==> Ascending(comps[i])
    ensures forall c :: c in cycles ==> c.edges != [] && c.members != [] && IsComponent(EdgeGraph(edges), c.members)
  {
    forall c | c in cycles ensures c.edges != [] && c.members != [] && IsComponent(EdgeGraph(edges), c.members) {
      assert FromComponent(EdgeGraph(edges), comps, |comps|, c);
      var k :| 0 <= k < |comps| && c.members == comps[k] && Cyclic(EdgeGraph(edges), comps[k]);
      assert IsComponent(EdgeGraph(edges), comps[k]);
      var e := CyclicHasEdge(edges, comps[k]);
      assert EdgeKey(e.from, e.to) in InsideKeys(edges, Elements(c.members));
      assert EdgeKey(e.from, e.to) in c.edges;
    }
  }

  lemma EmptyIffRanked(modules: seq<string>, edges: seq<Edge>, cycles: seq<Cycle>)
    requires forall key :: KeyListed(cycles, key) <==> CycleKey(modules, edges, key)
    requires forall c :: c in cycles ==> c.edges != []
    ensures EdgesListed(modules, edges) ==> (cycles == [] <==> exists rank :: Ranks(edges, rank))
  {
    if EdgesListed(modules, edges) {
      AcyclicIffRanked(edges);
      if cycles == [] {
        forall e ensures !OnCycle(edges, e) {
          if e in edges {
            ReachesSelf(EdgeGraph(edges), e.from);
            assert ReachedFrom(EdgeGraph(edges), modules, e.from);
            assert !KeyListed(cycles, EdgeKey(e.from, e.to));
          }
        }
      } else {
        assert cycles[0] in cycles;
        var key := cycles[0].edges[0];
        assert KeyListed(cycles, key);
        var e :| OnCycle(edges, e) && EdgeKey(e.from, e.to) == key;
      }
    }
  }

  // ---- Keys --------------------------------------------------------------

  lemma {:induction false} FirstArrow(a: string, b: string, c: string, d: string)
    requires '>' !in a && '>' !in c && a + " -> " + b == c + " -> " + d
    ensures a == c && b == d
  {
    var s := a + " -> " + b;
    assert s[|a| + 2] == '>' && (c + " -> " + d)[|c| + 2] == '>';
    assert forall i :: 0 <= i < |a| ==> s[i] == a[i];
    assert forall i :: 0 <= i < |c| ==> (c + " -> " + d)[i] == c[i];
    assert s[|a|] == ' ' && s[|a| + 1] == '-';
    assert |a| == |c|;
    assert a == s[..|a|] == c;
    assert b == s[|a| + 4..] == d;
  }

  /** Different edges have different keys, as long as no path that an edge leaves from holds a `>`. */
  lemma EdgeKeysDiffer(e: Edge, f: Edge)
    requires '>' !in e.from && '>' !in f.from && EdgeKey(e.from, e.to) == EdgeKey(f.from, f.to)
    ensures e == f
  {
    FirstArrow(e.from, e.to, f.from, f.to);
  }
}
