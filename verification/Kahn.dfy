/** Kahn's algorithm with a heap (packages/curriculum/graph.py:101-149): when it succeeds, what
    it returns, and which nodes it blames when it fails. */
module Kahn {
  import opened Support
  import opened Graphs

  // ---------------------------------------------------------------- what an order is

  ghost predicate IsTopological(nodes: set<NodeId>, arcs: set<Arc>, o: seq<NodeId>) {
    && Distinct(o)
    && Elements(o) == nodes
    && forall i, j :: 0 <= i < |o| && 0 <= j < |o| && (o[i], o[j]) in arcs ==> i < j
  }

  /** Lexicographic order on sequences of one length. */
  ghost predicate LexLeq(a: seq<NodeId>, b: seq<NodeId>) {
    a == b || exists k :: Below(a, b, k)
  }

  /** The sequences agree before k, where a has the smaller entry. */
  ghost predicate Below(a: seq<NodeId>, b: seq<NodeId>, k: nat) {
    k < |a| && k < |b| && a[k] < b[k] && forall i :: 0 <= i < k ==> a[i] == b[i]
  }

  ghost predicate IsLeastTopological(nodes: set<NodeId>, arcs: set<Arc>, o: seq<NodeId>) {
    IsTopological(nodes, arcs, o) && forall t :: IsTopological(nodes, arcs, t) ==> LexLeq(o, t)
  }

  /** The nodes no order can place: those on a cycle, and those reached from one. */
  ghost function Unresolved(nodes: set<NodeId>, arcs: set<Arc>): set<NodeId> {
    set v | v in nodes && exists c :: Reaches(arcs, c, c) && (c == v || Reaches(arcs, c, v))
  }

  /** The order depends on the sets of nodes and arcs only, not on how they were supplied. */
  lemma LeastTopologicalIsUnique(nodes: set<NodeId>, arcs: set<Arc>, o: seq<NodeId>, p: seq<NodeId>)
    requires IsLeastTopological(nodes, arcs, o) && IsLeastTopological(nodes, arcs, p)
    ensures o == p
  {
  }

  // ---------------------------------------------------------------- the greedy discipline

  /** The nodes whose prerequisites are all done. */
  ghost function Ready(nodes: set<NodeId>, arcs: set<Arc>, done: set<NodeId>): set<NodeId> {
    set v | v in nodes && v !in done && forall a :: a in arcs && a.1 == v ==> a.0 in done
  }

  ghost predicate PicksLeast(nodes: set<NodeId>, arcs: set<Arc>, o: seq<NodeId>, i: nat)
    requires i < |o|
  {
    var ready := Ready(nodes, arcs, Elements(o[..i]));
    o[i] in ready && forall v :: v in ready ==> o[i] <= v
  }

  ghost predicate Greedy(nodes: set<NodeId>, arcs: set<Arc>, o: seq<NodeId>) {
    forall i :: 0 <= i < |o| ==> PicksLeast(nodes, arcs, o, i)
  }

  /** The run ended because nothing was ready any more. */
  ghost predicate Finished(nodes: set<NodeId>, arcs: set<Arc>, o: seq<NodeId>) {
    Greedy(nodes, arcs, o) && Ready(nodes, arcs, Elements(o)) == {}
  }

  lemma GreedySnoc(nodes: set<NodeId>, arcs: set<Arc>, o: seq<NodeId>, v: NodeId)
    requires Greedy(nodes, arcs, o)
    requires v in Ready(nodes, arcs, Elements(o))
    requires forall w :: w in Ready(nodes, arcs, Elements(o)) ==> v <= w
    ensures Greedy(nodes, arcs, o + [v])
  {
    var p := o + [v];
    forall i | 0 <= i < |p| ensures PicksLeast(nodes, arcs, p, i) {
      if i < |o| {
        assert p[..i] == o[..i];
        assert PicksLeast(nodes, arcs, o, i);
      } else {
        assert p[..i] == o;
      }
    }
  }

  lemma GreedyShape(nodes: set<NodeId>, arcs: set<Arc>, o: seq<NodeId>)
    requires Greedy(nodes, arcs, o)
    ensures Distinct(o) && Elements(o) <= nodes
    ensures forall i, j :: 0 <= i < |o| && 0 <= j < |o| && (o[i], o[j]) in arcs ==> i < j
    ensures forall a :: a in arcs && a.1 in Elements(o) ==> a.0 in Elements(o)
  {
    forall i | 0 <= i < |o|
      ensures o[i] in nodes && o[i] !in o[..i]
      ensures forall a :: a in arcs && a.1 == o[i] ==> a.0 in o[..i]
    {
      assert PicksLeast(nodes, arcs, o, i);
    }
    forall i, j | 0 <= i < j < |o| ensures o[i] != o[j] {
      assert o[j] !in o[..j] && o[i] == o[..j][i];
    }
    forall i, j | 0 <= i < |o| && 0 <= j < |o| && (o[i], o[j]) in arcs ensures i < j {
      assert o[i] in o[..j];
      var k :| 0 <= k < j && o[..j][k] == o[i];
      assert o[k] == o[i];
    }
  }

  /** A node with everything that leads to it placed never lies behind a cycle. */
  lemma {:induction false} PlacedPathsAscend(nodes: set<NodeId>, arcs: set<Arc>, o: seq<NodeId>, p: seq<NodeId>, j: nat) returns (i: nat)
    requires Greedy(nodes, arcs, o)
    requires IsPath(arcs, p) && j < |o| && p[|p| - 1] == o[j]
    ensures i <= j && p[0] == o[i] && (|p| >= 2 ==> i < j)
    decreases |p|
  {
    GreedyShape(nodes, arcs, o);
    if |p| == 1 {
      i := j;
    } else {
      var n := |p| - 1;
      assert (p[n - 1], p[n]) in arcs;
      assert p[n - 1] in Elements(o);
      var k :| 0 <= k < |o| && o[k] == p[n - 1];
      SubPath(arcs, p, 0, n - 1);
      assert p[0..n] == p[..n];
      i := PlacedPathsAscend(nodes, arcs, o, p[..n], k);
    }
  }

  lemma PlacedAvoidsCycles(nodes: set<NodeId>, arcs: set<Arc>, o: seq<NodeId>, v: NodeId)
    requires Greedy(nodes, arcs, o) && v in Elements(o)
    ensures v !in Unresolved(nodes, arcs)
  {
    if v in Unresolved(nodes, arcs) {
      var c :| Reaches(arcs, c, c) && (c == v || Reaches(arcs, c, v));
      var j :| 0 <= j < |o| && o[j] == v;
      var i := j;
      if c != v {
        var p :| |p| >= 2 && PathBetween(arcs, p, c, v);
        i := PlacedPathsAscend(nodes, arcs, o, p, j);
      }
      var q :| |q| >= 2 && PathBetween(arcs, q, c, c);
      var k := PlacedPathsAscend(nodes, arcs, o, q, i);
      GreedyShape(nodes, arcs, o);
      assert false;
    }
  }

  /** What a finished run leaves out is exactly what lies on or behind a cycle. */
  lemma FinishedLeavesUnresolved(nodes: set<NodeId>, arcs: set<Arc>, o: seq<NodeId>)
    requires Within(nodes, arcs) && Finished(nodes, arcs, o)
    ensures nodes - Elements(o) == Unresolved(nodes, arcs)
  {
    var stuck := nodes - Elements(o);
    forall v | v in stuck ensures HasPredecessorIn(arcs, stuck, v) {
      assert v !in Ready(nodes, arcs, Elements(o));
      var a :| a in arcs && a.1 == v && a.0 !in Elements(o);
      assert a == (a.0, v);
    }
    forall v | v in stuck ensures v in Unresolved(nodes, arcs) {
      var c := StuckBehindCycle(arcs, stuck, v);
    }
    forall v | v in Unresolved(nodes, arcs) ensures v in stuck {
      if v in Elements(o) {
        PlacedAvoidsCycles(nodes, arcs, o, v);
      }
    }
  }

  lemma UnresolvedEmptyIffAcyclic(nodes: set<NodeId>, arcs: set<Arc>)
    requires Within(nodes, arcs)
    ensures Unresolved(nodes, arcs) == {} <==> Acyclic(arcs)
  {
    if !Acyclic(arcs) {
      var v :| Reaches(arcs, v, v);
      ReachesWithin(nodes, arcs, v, v);
      assert v in Unresolved(nodes, arcs);
    }
  }

  lemma FirstDifference(a: seq<NodeId>, b: seq<NodeId>) returns (k: nat)
    requires |a| == |b| && a != b
    ensures k < |a| && a[k] != b[k] && forall i :: 0 <= i < k ==> a[i] == b[i]
  {
    var d :| 0 <= d < |a| && a[d] != b[d];
    k := 0;
    while a[k] == b[k]
      invariant k <= d && forall i :: 0 <= i < k ==> a[i] == b[i]
      decreases d - k
    {
      k := k + 1;
    }
  }

  /** Always taking the least ready node gives the least of all topological orders. */
  lemma GreedyIsLeast(nodes: set<NodeId>, arcs: set<Arc>, o: seq<NodeId>, t: seq<NodeId>)
    requires Greedy(nodes, arcs, o) && Elements(o) == nodes && Within(nodes, arcs)
    requires IsTopological(nodes, arcs, t)
    ensures LexLeq(o, t)
  {
    GreedyShape(nodes, arcs, o);
    DistinctCount(o);
    DistinctCount(t);
    if o != t {
      var k := FirstDifference(o, t);
      forall a | a in arcs && a.1 == t[k] ensures a.0 in Elements(o[..k]) {
        assert a.0 in Elements(t);
        var i :| 0 <= i < |t| && t[i] == a.0;
        assert a == (t[i], t[k]);
        assert t[..k][i] == a.0;
        assert t[..k] == o[..k];
      }
      assert t[k] in Elements(t);
      assert t[..k] == o[..k];
      assert t[k] !in t[..k];
      assert t[k] in Ready(nodes, arcs, Elements(o[..k]));
      assert PicksLeast(nodes, arcs, o, k);
      assert Below(o, t, k);
    }
  }

  lemma FinishedOrder(nodes: set<NodeId>, arcs: set<Arc>, o: seq<NodeId>)
    requires Within(nodes, arcs) && Finished(nodes, arcs, o)
    ensures |o| == |nodes| <==> Acyclic(arcs)
    ensures Acyclic(arcs) ==> IsLeastTopological(nodes, arcs, o)
  {
    FinishedLeavesUnresolved(nodes, arcs, o);
    UnresolvedEmptyIffAcyclic(nodes, arcs);
    GreedyShape(nodes, arcs, o);
    DistinctCount(o);
    if |o| == |nodes| {
      SubsetSameCount(Elements(o), nodes);
    }
    if Acyclic(arcs) {
      assert nodes == Elements(o) by {
        assert forall v :: v in nodes && v !in Elements(o) ==> v in nodes - Elements(o);
      }
      forall t | IsTopological(nodes, arcs, t) ensures LexLeq(o, t) {
        GreedyIsLeast(nodes, arcs, o, t);
      }
    }
  }

  // ---------------------------------------------------------------- counting edges

  /** How many of the edges into v come from a node that is not done. */
  ghost function Incoming(edges: seq<Edge>, done: set<NodeId>, v: NodeId): nat {
    if edges == [] then 0
    else
      var last := edges[|edges| - 1];
      Incoming(edges[..|edges| - 1], done, v) + (if last.target == v && last.source !in done then 1 else 0)
  }

  /** The targets of the edges out of u, in edge order. */
  function Children(edges: seq<Edge>, u: NodeId): seq<NodeId> {
    if edges == [] then []
    else
      var last := edges[|edges| - 1];
      Children(edges[..|edges| - 1], u) + (if last.source == u then [last.target] else [])
  }

  lemma {:induction false} IncomingStep(edges: seq<Edge>, done: set<NodeId>, u: NodeId, v: NodeId)
    requires u !in done
    ensures Incoming(edges, done, v) == Incoming(edges, done + {u}, v) + multiset(Children(edges, u))[v]
  {
    if edges != [] {
      IncomingStep(edges[..|edges| - 1], done, u, v);
    }
  }

  lemma {:induction false} IncomingZero(edges: seq<Edge>, done: set<NodeId>, v: NodeId)
    ensures Incoming(edges, done, v) == 0 <==> forall a :: a in Arcs(edges) && a.1 == v ==> a.0 in done
  {
    if edges != [] {
      var front, last := edges[..|edges| - 1], edges[|edges| - 1];
      IncomingZero(front, done, v);
      assert edges == front + [last];
      assert Arcs(edges) == Arcs(front) + {(last.source, last.target)};
    }
  }

  lemma {:induction false} ChildrenMembers(edges: seq<Edge>, u: NodeId)
    ensures forall v :: v in Children(edges, u) <==> (u, v) in Arcs(edges)
  {
    if edges != [] {
      var front, last := edges[..|edges| - 1], edges[|edges| - 1];
      ChildrenMembers(front, u);
      assert edges == front + [last];
      assert Arcs(edges) == Arcs(front) + {(last.source, last.target)};
    }
  }

  // ---------------------------------------------------------------- the program

  /** The children of every node, listed in edge order. */
  method BuildAdjacency(nodes: seq<NodeId>, edges: seq<Edge>) returns (adjacency: map<NodeId, seq<NodeId>>)
    requires Within(Elements(nodes), Arcs(edges))
    ensures adjacency.Keys == Elements(nodes)
    ensures forall u :: u in adjacency ==> adjacency[u] == Children(edges, u)
  {
    adjacency := map v | v in Elements(nodes) :: [];
    for k := 0 to |edges|
      invariant adjacency.Keys == Elements(nodes)
      invariant forall u :: u in adjacency ==> adjacency[u] == Children(edges[..k], u)
    {
      var e := edges[k];
      assert (e.source, e.target) in Arcs(edges);
      assert edges[..k + 1][..k] == edges[..k];
      adjacency := adjacency[e.source := adjacency[e.source] + [e.target]];
    }
    assert edges[..|edges|] == edges;
  }

  method BuildIndegree(nodes: seq<NodeId>, edges: seq<Edge>) returns (indegree: map<NodeId, nat>)
    requires Within(Elements(nodes), Arcs(edges))
    ensures indegree.Keys == Elements(nodes)
    ensures forall v :: v in indegree ==> indegree[v] == Incoming(edges, {}, v)
  {
    indegree := map v | v in Elements(nodes) :: 0;
    for k := 0 to |edges|
      invariant indegree.Keys == Elements(nodes)
      invariant forall v :: v in indegree ==> indegree[v] == Incoming(edges[..k], {}, v)
    {
      var e := edges[k];
      assert (e.source, e.target) in Arcs(edges);
      assert edges[..k + 1][..k] == edges[..k];
      indegree := indegree[e.target := indegree[e.target] + 1];
    }
    assert edges[..|edges|] == edges;
  }

  /** The counters and the heap agree with the set of finished nodes. */
  ghost predicate Tracks(nodes: set<NodeId>, edges: seq<Edge>, done: set<NodeId>, indegree: map<NodeId, nat>) {
    && indegree.Keys == nodes
    && forall v :: v in nodes ==> indegree[v] == Incoming(edges, done, v)
  }

  /** The heap holds the unfinished nodes without unfinished prerequisites. */
  ghost predicate Heaped(nodes: set<NodeId>, done: set<NodeId>, indegree: map<NodeId, nat>, ready: set<NodeId>)
    requires indegree.Keys == nodes
  {
    && (forall v :: v in done ==> v in nodes && indegree[v] == 0)
    && (forall v :: v in ready <==> v in nodes && v !in done && indegree[v] == 0)
  }

  lemma TracksReady(nodes: set<NodeId>, edges: seq<Edge>, done: set<NodeId>, indegree: map<NodeId, nat>, ready: set<NodeId>)
    requires Tracks(nodes, edges, done, indegree) && Heaped(nodes, done, indegree, ready)
    ensures Ready(nodes, Arcs(edges), done) == ready
  {
    forall v | v in nodes && v !in done ensures v in Ready(nodes, Arcs(edges), done) <==> indegree[v] == 0 {
      IncomingZero(edges, done, v);
    }
  }

  /** What is still to be discounted while the children of u are visited. */
  ghost predicate Discounting(nodes: set<NodeId>, edges: seq<Edge>, done: set<NodeId>, left: seq<NodeId>, indegree: map<NodeId, nat>) {
    && indegree.Keys == nodes
    && forall v :: v in nodes ==> indegree[v] == Incoming(edges, done, v) + multiset(left)[v]
  }

  lemma StartDiscounting(nodes: set<NodeId>, edges: seq<Edge>, done: set<NodeId>, u: NodeId, children: seq<NodeId>, indegree: map<NodeId, nat>)
    requires Tracks(nodes, edges, done, indegree) && u !in done
    requires multiset(children) == multiset(Children(edges, u))
    ensures Discounting(nodes, edges, done + {u}, children, indegree)
  {
    forall v | v in nodes
      ensures indegree[v] == Incoming(edges, done + {u}, v) + multiset(children)[v]
    {
      IncomingStep(edges, done, u, v);
    }
  }

  lemma ChildrenWithin(nodes: set<NodeId>, edges: seq<Edge>, u: NodeId, children: seq<NodeId>)
    requires Within(nodes, Arcs(edges)) && multiset(children) == multiset(Children(edges, u))
    ensures forall c :: c in children ==> c in nodes
  {
    ChildrenMembers(edges, u);
    forall c | c in children ensures c in nodes {
      assert c in multiset(children);
      assert (u, c) in Arcs(edges);
    }
  }

  /** Removes u from the graph: each edge out of it is discounted, and children left without an
      unfinished prerequisite join the heap. No child can be finished already. */
  method Discount(ghost nodes: set<NodeId>, ghost edges: seq<Edge>, ghost done: set<NodeId>,
                  children: seq<NodeId>, indegree: map<NodeId, nat>, ready: set<NodeId>)
    returns (indegree': map<NodeId, nat>, ready': set<NodeId>)
    requires forall c :: c in children ==> c in nodes
    requires Discounting(nodes, edges, done, children, indegree) && Heaped(nodes, done, indegree, ready)
    ensures Tracks(nodes, edges, done, indegree') && Heaped(nodes, done, indegree', ready')
  {
    indegree', ready' := indegree, ready;
    assert children[0..] == children;
    for i := 0 to |children|
      invariant Discounting(nodes, edges, done, children[i..], indegree')
      invariant Heaped(nodes, done, indegree', ready')
    {
      var c := children[i];
      assert children[i..] == [c] + children[i + 1..];
      assert indegree'[c] > 0;
      indegree' := indegree'[c := indegree'[c] - 1];
      if indegree'[c] == 0 {
        ready' := ready' + {c};
      }
    }
  }

  /** What holds whenever the main loop tests its heap. */
  ghost predicate Progress(nodes: set<NodeId>, edges: seq<Edge>, ordered: seq<NodeId>, indegree: map<NodeId, nat>, ready: set<NodeId>) {
    && Greedy(nodes, Arcs(edges), ordered)
    && Tracks(nodes, edges, Elements(ordered), indegree)
    && Heaped(nodes, Elements(ordered), indegree, ready)
    && ready == Ready(nodes, Arcs(edges), Elements(ordered))
  }

  /** Taking the least ready node u leaves only the edges out of u to be discounted. */
  lemma Placing(nodes: set<NodeId>, edges: seq<Edge>, ordered: seq<NodeId>, indegree: map<NodeId, nat>, ready: set<NodeId>,
                u: NodeId, children: seq<NodeId>)
    requires Within(nodes, Arcs(edges)) && Progress(nodes, edges, ordered, indegree, ready)
    requires u in ready && forall v :: v in ready ==> u <= v
    requires multiset(children) == multiset(Children(edges, u))
    ensures Greedy(nodes, Arcs(edges), ordered + [u])
    ensures Discounting(nodes, edges, Elements(ordered + [u]), children, indegree)
    ensures Heaped(nodes, Elements(ordered + [u]), indegree, ready - {u})
    ensures forall c :: c in children ==> c in nodes
    ensures nodes - Elements(ordered + [u]) < nodes - Elements(ordered)
  {
    GreedySnoc(nodes, Arcs(edges), ordered, u);
    ElementsSnoc(ordered, u);
    StartDiscounting(nodes, edges, Elements(ordered), u, children, indegree);
    ChildrenWithin(nodes, edges, u, children);
    assert u in nodes - Elements(ordered);
  }

  lemma StartProgress(nodes: set<NodeId>, edges: seq<Edge>, indegree: map<NodeId, nat>, ready: set<NodeId>)
    requires Tracks(nodes, edges, {}, indegree)
    requires forall v :: v in ready <==> v in nodes && indegree[v] == 0
    ensures Progress(nodes, edges, [], indegree, ready)
  {
    assert Elements<NodeId>([]) == {};
    TracksReady(nodes, edges, {}, indegree, ready);
  }

  lemma Advanced(nodes: set<NodeId>, edges: seq<Edge>, ordered: seq<NodeId>, indegree: map<NodeId, nat>, ready: set<NodeId>)
    requires Greedy(nodes, Arcs(edges), ordered)
    requires Tracks(nodes, edges, Elements(ordered), indegree) && Heaped(nodes, Elements(ordered), indegree, ready)
    ensures Progress(nodes, edges, ordered, indegree, ready)
  {
    TracksReady(nodes, edges, Elements(ordered), indegree, ready);
  }

  /** The main loop: pop the least ready node, append it, discount its children. */
  method Drain(nodes: set<NodeId>, ghost edges: seq<Edge>, adjacency: map<NodeId, seq<NodeId>>, start: map<NodeId, nat>)
    returns (ordered: seq<NodeId>, indegree: map<NodeId, nat>)
    requires Within(nodes, Arcs(edges)) && Tracks(nodes, edges, {}, start)
    requires adjacency.Keys == nodes && forall u :: u in nodes ==> adjacency[u] == Children(edges, u)
    ensures Finished(nodes, Arcs(edges), ordered)
    ensures indegree.Keys == nodes
    ensures forall v :: v in nodes ==> (indegree[v] > 0 <==> v !in Elements(ordered))
  {
    indegree := start;
    var ready := set v | v in nodes && indegree[v] == 0;
    ordered := [];
    StartProgress(nodes, edges, indegree, ready);
    while ready != {}
      invariant Progress(nodes, edges, ordered, indegree, ready)
      decreases nodes - Elements(ordered)
    {
      var u := Least(ready);
      var children := Sort(NatLeq, adjacency[u]);
      SortPermutes(NatLeq, adjacency[u]);
      Placing(nodes, edges, ordered, indegree, ready, u, children);
      indegree, ready := Discount(nodes, edges, Elements(ordered + [u]), children, indegree, ready - {u});
      ordered := ordered + [u];
      Advanced(nodes, edges, ordered, indegree, ready);
    }
  }

  /** The order itself, or the sorted identifiers the cycle error reports. */
  method OrderNodes(nodes: seq<NodeId>, edges: seq<Edge>) returns (r: Result<seq<NodeId>, seq<NodeId>>)
    requires Distinct(nodes) && Within(Elements(nodes), Arcs(edges))
    ensures r.Ok? <==> Acyclic(Arcs(edges))
    ensures r.Ok? ==> IsLeastTopological(Elements(nodes), Arcs(edges), r.value)
    ensures r.Err? ==> Elements(r.error) == Unresolved(Elements(nodes), Arcs(edges))
    ensures r.Err? ==> Distinct(r.error) && SortedBy(NatLeq, r.error)
  {
    var adjacency := BuildAdjacency(nodes, edges);
    var start := BuildIndegree(nodes, edges);
    var ordered, indegree := Drain(Elements(nodes), edges, adjacency, start);
    FinishedOrder(Elements(nodes), Arcs(edges), ordered);
    DistinctCount(nodes);
    if |ordered| != |nodes| {
      var blamed := set v | v in indegree && indegree[v] > 0;
      FinishedLeavesUnresolved(Elements(nodes), Arcs(edges), ordered);
      assert blamed == Elements(nodes) - Elements(ordered);
      r := Err(SortedElements(blamed));
    } else {
      r := Ok(ordered);
    }
  }

  datatype GraphError = SelfLoop | Cycle(nodes: seq<NodeId>) | UnknownNode

  /** topological_order: self-loops on any edge are refused first, then the selection is ordered. */
  method TopologicalOrder(g: Graph, confirmedOnly: bool) returns (r: Result<seq<NodeId>, GraphError>)
    requires WellFormed(g)
    ensures r == Err(SelfLoop) <==> HasSelfLoop(g.edges)
    ensures r.Ok? <==> !HasSelfLoop(g.edges) && Acyclic(SelectedArcs(g, confirmedOnly))
    ensures r.Ok? ==> IsLeastTopological(Elements(g.nodes), SelectedArcs(g, confirmedOnly), r.value)
    ensures r.Err? && r.error != SelfLoop ==>
              r.error.Cycle? && Elements(r.error.nodes) == Unresolved(Elements(g.nodes), SelectedArcs(g, confirmedOnly))
              && Distinct(r.error.nodes) && SortedBy(NatLeq, r.error.nodes)
  {
    if HasSelfLoop(g.edges) {
      return Err(SelfLoop);
    }
    PrerequisiteEdgesArcs(g, confirmedOnly);
    var o := OrderNodes(g.nodes, PrerequisiteEdges(g, confirmedOnly));
    if o.Ok? {
      r := Ok(o.value);
    } else {
      r := Err(Cycle(o.error));
    }
  }

  /** validate_dag: by default proposed edges count too. */
  method ValidateDag(g: Graph, includeProposed: bool) returns (r: Result<(), GraphError>)
    requires WellFormed(g)
    ensures r.Ok? <==> !HasSelfLoop(g.edges) && Acyclic(SelectedArcs(g, !includeProposed))
  {
    var o := TopologicalOrder(g, !includeProposed);
    r := if o.Ok? then Ok(()) else Err(o.error);
  }

  lemma PathInLarger(arcs: set<Arc>, more: set<Arc>, a: NodeId, b: NodeId)
    requires arcs <= more && Reaches(arcs, a, b)
    ensures Reaches(more, a, b)
  {
    var p :| |p| >= 2 && PathBetween(arcs, p, a, b);
    assert PathBetween(more, p, a, b);
  }

  /** A candidate graph accepted with its proposed edges stays orderable whichever of them are
      confirmed, so confirming an edge of a validated graph cannot introduce a cycle. */
  lemma CandidateHidesNoCycle(g: Graph, h: Graph)
    requires Elements(g.nodes) == Elements(h.nodes)
    requires Acyclic(SelectedArcs(g, false))
    requires SelectedArcs(h, true) <= SelectedArcs(g, false)
    ensures Acyclic(SelectedArcs(h, true))
  {
    forall v ensures !Reaches(SelectedArcs(h, true), v, v) {
      if Reaches(SelectedArcs(h, true), v, v) {
        PathInLarger(SelectedArcs(h, true), SelectedArcs(g, false), v, v);
      }
    }
  }

  /** Supplying the same nodes and edges in another order gives the same answer. */
  lemma OrderIgnoresSupply(g: Graph, h: Graph, confirmedOnly: bool, o: seq<NodeId>, p: seq<NodeId>)
    requires Elements(g.nodes) == Elements(h.nodes) && Elements(g.edges) == Elements(h.edges)
    requires IsLeastTopological(Elements(g.nodes), SelectedArcs(g, confirmedOnly), o)
    requires IsLeastTopological(Elements(h.nodes), SelectedArcs(h, confirmedOnly), p)
    ensures o == p
  {
    assert SelectedArcs(g, confirmedOnly) == SelectedArcs(h, confirmedOnly) by {
      assert forall e :: e in g.edges <==> e in Elements(g.edges);
      assert forall e :: e in h.edges <==> e in Elements(h.edges);
    }
    LeastTopologicalIsUnique(Elements(g.nodes), SelectedArcs(g, confirmedOnly), o, p);
  }
}
