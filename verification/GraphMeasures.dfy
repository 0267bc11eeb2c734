/** Longest-path depth, descendant counts and descendant lists
    (packages/curriculum/graph.py:152-211). */
module GraphMeasures {
  import opened Support
  import opened Graphs
  import opened Kahn

  // ---------------------------------------------------------------- depth

  ghost predicate EndsAt(arcs: set<Arc>, p: seq<NodeId>, v: NodeId) {
    IsPath(arcs, p) && p[|p| - 1] == v
  }

  /** d arcs is the length of the longest path that ends at v. */
  ghost predicate LongestInto(arcs: set<Arc>, v: NodeId, d: nat) {
    && (exists p :: EndsAt(arcs, p, v) && |p| == d + 1)
    && (forall p :: EndsAt(arcs, p, v) ==> |p| <= d + 1)
  }

  ghost predicate Justified(arcs: set<Arc>, depth: map<NodeId, nat>, v: NodeId)
    requires v in depth
  {
    depth[v] == 0 || exists u :: u in depth && (u, v) in arcs && depth[v] == depth[u] + 1
  }

  /** Every arc climbs, and every positive level is reached by one climbing step. */
  ghost predicate Levels(arcs: set<Arc>, depth: map<NodeId, nat>)
    requires Within(depth.Keys, arcs)
  {
    && (forall a :: a in arcs ==> depth[a.1] >= depth[a.0] + 1)
    && (forall v {:trigger Justified(arcs, depth, v)} :: v in depth ==> Justified(arcs, depth, v))
  }

  lemma {:induction false} LevelBoundsPaths(arcs: set<Arc>, depth: map<NodeId, nat>, p: seq<NodeId>)
    requires Within(depth.Keys, arcs) && Levels(arcs, depth)
    requires IsPath(arcs, p) && p[|p| - 1] in depth
    ensures |p| <= depth[p[|p| - 1]] + 1
    decreases |p|
  {
    var n := |p| - 1;
    if n > 0 {
      assert (p[n - 1], p[n]) in arcs;
      SubPath(arcs, p, 0, n - 1);
      assert p[0..n] == p[..n];
      LevelBoundsPaths(arcs, depth, p[..n]);
    }
  }

  lemma {:induction false} LevelHasPath(arcs: set<Arc>, depth: map<NodeId, nat>, v: NodeId) returns (p: seq<NodeId>)
    requires Within(depth.Keys, arcs) && Levels(arcs, depth) && v in depth
    ensures EndsAt(arcs, p, v) && |p| == depth[v] + 1
    decreases depth[v]
  {
    assert Justified(arcs, depth, v);
    if depth[v] == 0 {
      p := [v];
    } else {
      var u :| u in depth && (u, v) in arcs && depth[v] == depth[u] + 1;
      var q := LevelHasPath(arcs, depth, u);
      assert PathBetween(arcs, [u, v], u, v);
      JoinPaths(arcs, q, [u, v], q[0], u, v);
      p := q + [u, v][1..];
    }
  }

  lemma LevelsAreLongestPaths(arcs: set<Arc>, depth: map<NodeId, nat>)
    requires Within(depth.Keys, arcs) && Levels(arcs, depth)
    ensures forall v :: v in depth ==> LongestInto(arcs, v, depth[v])
  {
    forall v | v in depth ensures LongestInto(arcs, v, depth[v]) {
      var p := LevelHasPath(arcs, depth, v);
      forall q | EndsAt(arcs, q, v) ensures |q| <= depth[v] + 1 {
        LevelBoundsPaths(arcs, depth, q);
      }
    }
  }

  /** In a topological order the children of a node come after it. */
  lemma ChildrenLater(nodes: set<NodeId>, arcs: set<Arc>, edges: seq<Edge>, order: seq<NodeId>, k: nat)
    requires arcs == Arcs(edges) && Within(nodes, arcs) && IsTopological(nodes, arcs, order) && k < |order|
    ensures order[k] in nodes && order[k] !in Elements(order[..k])
    ensures Elements(order[..k + 1]) == Elements(order[..k]) + {order[k]}
    ensures forall c :: c in Children(edges, order[k]) <==> (order[k], c) in arcs
    ensures forall c :: c in Children(edges, order[k]) ==>
              c in nodes && c !in Elements(order[..k + 1]) && exists i :: k < i < |order| && order[i] == c
  {
    assert order[k] in Elements(order);
    assert order[..k + 1] == order[..k] + [order[k]];
    ElementsSnoc(order[..k], order[k]);
    ChildrenMembers(edges, order[k]);
    forall c | c in Children(edges, order[k])
      ensures c in nodes && c !in Elements(order[..k + 1]) && exists i :: k < i < |order| && order[i] == c
    {
      assert (order[k], c) in arcs;
      assert c in Elements(order);
      var i :| 0 <= i < |order| && order[i] == c;
      assert (order[k], order[i]) in arcs;
    }
  }

  /** While the first k nodes are settled: their arcs climb, every level is justified by one of them. */
  ghost predicate Climbed(arcs: set<Arc>, settled: set<NodeId>, depth: map<NodeId, nat>)
    requires Within(depth.Keys, arcs)
  {
    && (forall a :: a in arcs && a.0 in settled ==> depth[a.1] >= depth[a.0] + 1)
    && (forall v {:trigger StepsUp(arcs, settled, depth, v)} :: v in depth && depth[v] > 0 ==> StepsUp(arcs, settled, depth, v))
  }

  /** The inner loop: relaxes the arcs out of u. */
  method Relax(ghost arcs: set<Arc>, ghost settled: set<NodeId>, u: NodeId, children: seq<NodeId>, depth: map<NodeId, nat>)
    returns (depth': map<NodeId, nat>)
    requires Within(depth.Keys, arcs) && Climbed(arcs, settled, depth) && u in depth && u !in settled
    requires forall c :: c in children <==> (u, c) in arcs
    requires forall c :: c in children ==> c in depth && c !in settled + {u}
    ensures depth'.Keys == depth.Keys && Climbed(arcs, settled + {u}, depth')
  {
    depth' := depth;
    for i := 0 to |children|
      invariant depth'.Keys == depth.Keys
      invariant forall v :: v in settled + {u} && v in depth ==> depth'[v] == depth[v]
      invariant forall v :: v in depth ==> depth'[v] >= depth[v]
      invariant forall j :: 0 <= j < i ==> depth'[children[j]] >= depth[u] + 1
      invariant forall v :: v in depth && depth'[v] != depth[v] ==> (u, v) in arcs && depth'[v] == depth[u] + 1
    {
      var c := children[i];
      depth' := depth'[c := if depth'[c] >= depth'[u] + 1 then depth'[c] else depth'[u] + 1];
    }
    RelaxedClimbs(arcs, settled, u, children, depth, depth');
  }

  lemma RelaxedClimbs(arcs: set<Arc>, settled: set<NodeId>, u: NodeId, children: seq<NodeId>, depth: map<NodeId, nat>, depth': map<NodeId, nat>)
    requires Within(depth.Keys, arcs) && Climbed(arcs, settled, depth) && u in depth
    requires forall c :: c in children <==> (u, c) in arcs
    requires depth'.Keys == depth.Keys
    requires forall v :: v in settled + {u} && v in depth ==> depth'[v] == depth[v]
    requires forall v :: v in depth ==> depth'[v] >= depth[v]
    requires forall j :: 0 <= j < |children| ==> children[j] in depth && depth'[children[j]] >= depth[u] + 1
    requires forall v :: v in depth && depth'[v] != depth[v] ==> (u, v) in arcs && depth'[v] == depth[u] + 1
    ensures Climbed(arcs, settled + {u}, depth')
  {
    forall a | a in arcs && a.0 in settled + {u} ensures depth'[a.1] >= depth'[a.0] + 1 {
      if a.0 == u {
        assert a.1 in children;
      }
    }
    forall v | v in depth' && depth'[v] > 0 ensures StepsUp(arcs, settled + {u}, depth', v) {
      if depth'[v] == depth[v] {
        assert StepsUp(arcs, settled, depth, v);
        var w :| w in settled && w in depth && (w, v) in arcs && depth[v] == depth[w] + 1;
        assert w in settled + {u} && depth'[w] == depth[w];
      } else {
        assert u in settled + {u};
      }
    }
  }

  ghost predicate StepsUp(arcs: set<Arc>, settled: set<NodeId>, depth: map<NodeId, nat>, v: NodeId)
    requires v in depth
  {
    exists u :: u in settled && u in depth && (u, v) in arcs && depth[v] == depth[u] + 1
  }

  /** topological_depth: the length of the longest prerequisite chain ending at each node. */
  method TopologicalDepth(g: Graph, confirmedOnly: bool) returns (r: Result<map<NodeId, nat>, GraphError>)
    requires WellFormed(g)
    ensures r.Ok? <==> !HasSelfLoop(g.edges) && Acyclic(SelectedArcs(g, confirmedOnly))
    ensures r.Ok? ==> r.value.Keys == Elements(g.nodes)
    ensures r.Ok? ==> forall v :: v in g.nodes ==> LongestInto(SelectedArcs(g, confirmedOnly), v, r.value[v])
  {
    var o := TopologicalOrder(g, confirmedOnly);
    if o.Err? {
      return Err(o.error);
    }
    var edges := PrerequisiteEdges(g, confirmedOnly);
    PrerequisiteEdgesArcs(g, confirmedOnly);
    var adjacency := BuildAdjacency(g.nodes, edges);
    var depth := Settle(Elements(g.nodes), SelectedArcs(g, confirmedOnly), edges, o.value, adjacency);
    LevelsAreLongestPaths(SelectedArcs(g, confirmedOnly), depth);
    r := Ok(depth);
  }

  method Settle(nodes: set<NodeId>, ghost arcs: set<Arc>, ghost edges: seq<Edge>, order: seq<NodeId>, adjacency: map<NodeId, seq<NodeId>>)
    returns (depth: map<NodeId, nat>)
    requires arcs == Arcs(edges) && Within(nodes, arcs) && IsTopological(nodes, arcs, order)
    requires adjacency.Keys == nodes && forall u :: u in nodes ==> adjacency[u] == Children(edges, u)
    ensures depth.Keys == nodes && Levels(arcs, depth)
  {
    depth := map v | v in nodes :: 0;
    assert Elements(order[..0]) == {};
    for k := 0 to |order|
      invariant depth.Keys == nodes && Climbed(arcs, Elements(order[..k]), depth)
    {
      var u := order[k];
      ChildrenLater(nodes, arcs, edges, order, k);
      depth := Relax(arcs, Elements(order[..k]), u, adjacency[u], depth);
    }
    assert order[..|order|] == order;
    forall v | v in depth ensures Justified(arcs, depth, v) {
      assert depth[v] > 0 ==> StepsUp(arcs, Elements(order[..|order|]), depth, v);
    }
  }

  // ---------------------------------------------------------------- descendants

  ghost function Below(nodes: set<NodeId>, arcs: set<Arc>, v: NodeId): set<NodeId> {
    set u | u in nodes && Reaches(arcs, v, u)
  }

  /** What the given children contribute: themselves and everything below them. */
  ghost function Gathered(nodes: set<NodeId>, arcs: set<Arc>, children: seq<NodeId>): set<NodeId> {
    set u | u in nodes && exists c :: c in children && (c == u || Reaches(arcs, c, u))
  }

  lemma GatheredIsBelow(nodes: set<NodeId>, arcs: set<Arc>, v: NodeId, children: seq<NodeId>)
    requires forall c :: c in children <==> (v, c) in arcs
    ensures Gathered(nodes, arcs, children) == Below(nodes, arcs, v)
  {
    forall u | u in nodes ensures u in Gathered(nodes, arcs, children) <==> Reaches(arcs, v, u) {
      if u in Gathered(nodes, arcs, children) {
        var c :| c in children && (c == u || Reaches(arcs, c, u));
        ArcThenReaches(arcs, v, c, u);
      }
      if Reaches(arcs, v, u) {
        var c := ReachesFirstArc(arcs, v, u);
        assert c in children;
      }
    }
  }

  lemma GatheredSnoc(nodes: set<NodeId>, arcs: set<Arc>, children: seq<NodeId>, c: NodeId)
    requires c in nodes
    ensures Gathered(nodes, arcs, children + [c]) == Gathered(nodes, arcs, children) + {c} + Below(nodes, arcs, c)
  {
    assert forall d :: d in children + [c] <==> d in children || d == c;
    forall u | u in nodes
      ensures u in Gathered(nodes, arcs, children + [c]) <==>
              u in Gathered(nodes, arcs, children) || u == c || u in Below(nodes, arcs, c)
    {
      if u == c || u in Below(nodes, arcs, c) {
        assert c in children + [c];
      }
    }
  }

  /** The inner loop: collects the children of one node and what is already known below them. */
  method Collect(ghost nodes: set<NodeId>, ghost arcs: set<Arc>, children: seq<NodeId>, below: map<NodeId, set<NodeId>>)
    returns (found: set<NodeId>)
    requires forall c :: c in children ==> c in below && c in nodes && below[c] == Below(nodes, arcs, c)
    ensures found == Gathered(nodes, arcs, children)
  {
    found := {};
    for i := 0 to |children|
      invariant found == Gathered(nodes, arcs, children[..i])
    {
      var c := children[i];
      assert children[..i + 1] == children[..i] + [c];
      GatheredSnoc(nodes, arcs, children[..i], c);
      found := found + {c} + below[c];
    }
    assert children[..|children|] == children;
  }

  /** unique_descendant_counts: how many nodes lie below each node. */
  method UniqueDescendantCounts(g: Graph, confirmedOnly: bool) returns (r: Result<map<NodeId, nat>, GraphError>)
    requires WellFormed(g)
    ensures r.Ok? <==> !HasSelfLoop(g.edges) && Acyclic(SelectedArcs(g, confirmedOnly))
    ensures r.Ok? ==> r.value.Keys == Elements(g.nodes)
    ensures r.Ok? ==> forall v :: v in g.nodes ==> r.value[v] == |Below(Elements(g.nodes), SelectedArcs(g, confirmedOnly), v)|
  {
    var o := TopologicalOrder(g, confirmedOnly);
    if o.Err? {
      return Err(o.error);
    }
    var edges := PrerequisiteEdges(g, confirmedOnly);
    PrerequisiteEdgesArcs(g, confirmedOnly);
    var adjacency := BuildAdjacency(g.nodes, edges);
    var below := Accumulate(Elements(g.nodes), SelectedArcs(g, confirmedOnly), edges, o.value, adjacency);
    r := Ok(map v | v in below :: |below[v]|);
  }

  /** The set of one node, from the sets of its children, which come later in the order. */
  method CollectAt(nodes: set<NodeId>, ghost arcs: set<Arc>, ghost edges: seq<Edge>, order: seq<NodeId>, k: nat,
                   adjacency: map<NodeId, seq<NodeId>>, below: map<NodeId, set<NodeId>>)
    returns (found: set<NodeId>)
    requires arcs == Arcs(edges) && Within(nodes, arcs) && IsTopological(nodes, arcs, order) && k < |order|
    requires adjacency.Keys == nodes && forall u :: u in nodes ==> adjacency[u] == Children(edges, u)
    requires below.Keys == nodes
    requires forall i :: k < i < |order| ==> below[order[i]] == Below(nodes, arcs, order[i])
    ensures order[k] in nodes && found == Below(nodes, arcs, order[k])
  {
    var u := order[k];
    assert u in Elements(order);
    ChildrenLater(nodes, arcs, edges, order, k);
    forall c | c in adjacency[u] ensures c in nodes && below[c] == Below(nodes, arcs, c) {
      var i :| k < i < |order| && order[i] == c;
    }
    found := Collect(nodes, arcs, adjacency[u], below);
    GatheredIsBelow(nodes, arcs, u, adjacency[u]);
  }

  method Accumulate(nodes: set<NodeId>, ghost arcs: set<Arc>, ghost edges: seq<Edge>, order: seq<NodeId>, adjacency: map<NodeId, seq<NodeId>>)
    returns (below: map<NodeId, set<NodeId>>)
    requires arcs == Arcs(edges) && Within(nodes, arcs) && IsTopological(nodes, arcs, order)
    requires adjacency.Keys == nodes && forall u :: u in nodes ==> adjacency[u] == Children(edges, u)
    ensures below.Keys == nodes && forall v :: v in nodes ==> below[v] == Below(nodes, arcs, v)
  {
    below := map v | v in nodes :: {};
    for k := |order| downto 0
      invariant below.Keys == nodes
      invariant forall i :: k <= i < |order| ==> below[order[i]] == Below(nodes, arcs, order[i])
    {
      var found := CollectAt(nodes, arcs, edges, order, k, adjacency, below);
      below := below[order[k] := found];
    }
    forall v | v in nodes ensures below[v] == Below(nodes, arcs, v) {
      assert v in Elements(order);
    }
  }

  /** The worklist search of descendants(): pending may hold a node several times. */
  method Search(ghost nodes: set<NodeId>, ghost arcs: set<Arc>, ghost edges: seq<Edge>, adjacency: map<NodeId, seq<NodeId>>, start: NodeId)
    returns (found: set<NodeId>)
    requires arcs == Arcs(edges) && Within(nodes, arcs) && start in nodes
    requires adjacency.Keys == nodes && forall u :: u in nodes ==> adjacency[u] == Children(edges, u)
    ensures found == Below(nodes, arcs, start)
  {
    found := {};
    var pending := adjacency[start];
    ChildrenMembers(edges, start);
    forall c | c in pending ensures c in nodes && Reaches(arcs, start, c) {
      assert (start, c) in arcs;
      ReachesArc(arcs, start, c);
    }
    while pending != []
      invariant found <= nodes
      invariant forall c :: c in pending || c in found ==> c in nodes && Reaches(arcs, start, c)
      invariant forall a :: a in arcs && (a.0 == start || a.0 in found) ==> a.1 in found || a.1 in pending
      decreases nodes - found, |pending|
    {
      var c := pending[|pending| - 1];
      assert forall x :: x in pending <==> x in pending[..|pending| - 1] || x == c;
      pending := pending[..|pending| - 1];
      if c !in found {
        found := found + {c};
        ChildrenMembers(edges, c);
        forall d | d in adjacency[c] ensures d in nodes && Reaches(arcs, start, d) {
          assert (c, d) in arcs;
          ReachesArc(arcs, c, d);
          ReachesTrans(arcs, start, c, d);
        }
        assert forall x :: x in pending + adjacency[c] <==> x in pending || x in adjacency[c];
        pending := pending + adjacency[c];
      }
    }
    forall u | u in Below(nodes, arcs, start) ensures u in found {
      var p :| |p| >= 2 && PathBetween(arcs, p, start, u);
      ClosedHoldsPath(arcs, found, p, |p| - 1);
    }
  }

  lemma {:induction false} ClosedHoldsPath(arcs: set<Arc>, found: set<NodeId>, p: seq<NodeId>, i: nat)
    requires IsPath(arcs, p) && 0 < i < |p|
    requires forall a :: a in arcs && (a.0 == p[0] || a.0 in found) ==> a.1 in found
    ensures p[i] in found
    decreases i
  {
    assert (p[i - 1], p[i]) in arcs;
    if i > 1 {
      ClosedHoldsPath(arcs, found, p, i - 1);
    }
  }

  function Keep(order: seq<NodeId>, found: set<NodeId>): seq<NodeId> {
    if order == [] then []
    else (if order[0] in found then [order[0]] else []) + Keep(order[1..], found)
  }

  lemma {:induction false} KeepMembers(order: seq<NodeId>, found: set<NodeId>)
    requires Distinct(order)
    ensures forall v :: v in Keep(order, found) <==> v in order && v in found
    ensures Distinct(Keep(order, found))
  {
    if order != [] {
      KeepMembers(order[1..], found);
      assert order == [order[0]] + order[1..];
      assert order[0] !in order[1..];
    }
  }

  /** descendants: the nodes below one node, in topological order. Its length is the count that
      unique_descendant_counts reports, and the node itself is never listed. */
  method Descendants(g: Graph, v: NodeId, confirmedOnly: bool) returns (r: Result<seq<NodeId>, GraphError>)
    requires WellFormed(g)
    ensures r == Err(UnknownNode) <==> v !in g.nodes
    ensures r.Ok? <==> v in g.nodes && !HasSelfLoop(g.edges) && Acyclic(SelectedArcs(g, confirmedOnly))
    ensures r.Ok? ==> Elements(r.value) == Below(Elements(g.nodes), SelectedArcs(g, confirmedOnly), v)
    ensures r.Ok? ==> Distinct(r.value) && |r.value| == |Below(Elements(g.nodes), SelectedArcs(g, confirmedOnly), v)|
    ensures r.Ok? ==> v !in r.value
    ensures r.Ok? ==> exists o :: IsLeastTopological(Elements(g.nodes), SelectedArcs(g, confirmedOnly), o)
                                  && r.value == Keep(o, Elements(r.value))
  {
    if v !in g.nodes {
      return Err(UnknownNode);
    }
    var o := TopologicalOrder(g, confirmedOnly);
    if o.Err? {
      return Err(o.error);
    }
    var edges := PrerequisiteEdges(g, confirmedOnly);
    PrerequisiteEdgesArcs(g, confirmedOnly);
    var adjacency := BuildAdjacency(g.nodes, edges);
    var found := Search(Elements(g.nodes), SelectedArcs(g, confirmedOnly), edges, adjacency, v);
    KeepMembers(o.value, found);
    var kept := Keep(o.value, found);
    assert Elements(kept) == found by {
      assert forall u :: u in found ==> u in Elements(o.value);
    }
    DistinctCount(kept);
    assert IsLeastTopological(Elements(g.nodes), SelectedArcs(g, confirmedOnly), o.value) && kept == Keep(o.value, Elements(kept));
    r := Ok(kept);
  }
}
