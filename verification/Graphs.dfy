/** The prerequisite graph as packages/domain/graph.py defines it, and what its paths are.

    Node and edge identifiers are natural numbers: the program only compares them, and orders
    them by their string form, which is a total order. */
module Graphs {
  import opened Support

  type NodeId = nat
  type EdgeId = nat
  type Arc = (NodeId, NodeId)

  datatype EdgeKind = PrerequisiteOf | PartOf | RelatedTo | BuildsOn | Assesses | ExampleOf
  datatype EdgeStatus = Proposed | Confirmed | Rejected
  datatype Edge = Edge(id: EdgeId, kind: EdgeKind, source: NodeId, target: NodeId, status: EdgeStatus)
  datatype Graph = Graph(nodes: seq<NodeId>, edges: seq<Edge>)

  /** The part of GraphDefinition.validate_references that the algorithms rely on. */
  ghost predicate WellFormed(g: Graph) {
    && Distinct(g.nodes)
    && (forall e :: e in g.edges ==> e.source in g.nodes && e.target in g.nodes)
  }

  ghost function Arcs(edges: seq<Edge>): set<Arc> {
    set e | e in edges :: (e.source, e.target)
  }

  /** Every arc joins two of the nodes. */
  ghost predicate Within(nodes: set<NodeId>, arcs: set<Arc>) {
    forall a :: a in arcs ==> a.0 in nodes && a.1 in nodes
  }

  // ---------------------------------------------------------------- paths

  ghost predicate IsPath(arcs: set<Arc>, p: seq<NodeId>) {
    |p| >= 1 && forall i, j :: 0 <= i && j == i + 1 && j < |p| ==> (p[i], p[j]) in arcs
  }

  ghost predicate PathBetween(arcs: set<Arc>, p: seq<NodeId>, a: NodeId, b: NodeId) {
    IsPath(arcs, p) && p[0] == a && p[|p| - 1] == b
  }

  /** b can be reached from a along at least one arc. */
  ghost predicate Reaches(arcs: set<Arc>, a: NodeId, b: NodeId) {
    exists p :: |p| >= 2 && PathBetween(arcs, p, a, b)
  }

  ghost predicate Acyclic(arcs: set<Arc>) {
    forall v :: !Reaches(arcs, v, v)
  }

  lemma ReachesArc(arcs: set<Arc>, a: NodeId, b: NodeId)
    requires (a, b) in arcs
    ensures Reaches(arcs, a, b)
  {
    assert PathBetween(arcs, [a, b], a, b);
  }

  lemma JoinPaths(arcs: set<Arc>, p: seq<NodeId>, q: seq<NodeId>, a: NodeId, b: NodeId, c: NodeId)
    requires PathBetween(arcs, p, a, b) && PathBetween(arcs, q, b, c)
    ensures PathBetween(arcs, p + q[1..], a, c)
  {
    var r := p + q[1..];
    forall i, j | 0 <= i && j == i + 1 && j < |r| ensures (r[i], r[j]) in arcs {
      if j < |p| {
        assert (p[i], p[j]) in arcs;
      } else {
        var k := i - (|p| - 1);
        assert r[i] == q[k] && r[j] == q[k + 1];
      }
    }
    assert r[|r| - 1] == q[|q| - 1];
  }

  lemma ReachesTrans(arcs: set<Arc>, a: NodeId, b: NodeId, c: NodeId)
    requires Reaches(arcs, a, b) && Reaches(arcs, b, c)
    ensures Reaches(arcs, a, c)
  {
    var p :| |p| >= 2 && PathBetween(arcs, p, a, b);
    var q :| |q| >= 2 && PathBetween(arcs, q, b, c);
    JoinPaths(arcs, p, q, a, b, c);
  }

  /** A nonempty path ends with an arc. */
  lemma ReachesLastArc(arcs: set<Arc>, a: NodeId, c: NodeId) returns (b: NodeId)
    requires Reaches(arcs, a, c)
    ensures (b, c) in arcs && (a == b || Reaches(arcs, a, b))
  {
    var p :| |p| >= 2 && PathBetween(arcs, p, a, c);
    b := p[|p| - 2];
    assert (p[|p| - 2], p[|p| - 1]) in arcs;
    var q := p[..|p| - 1];
    assert IsPath(arcs, q) by {
      forall i, j | 0 <= i && j == i + 1 && j < |q| ensures (q[i], q[j]) in arcs {
        assert (p[i], p[j]) in arcs;
      }
    }
    assert PathBetween(arcs, q, a, b);
  }

  /** A nonempty path starts with an arc. */
  lemma ReachesFirstArc(arcs: set<Arc>, a: NodeId, c: NodeId) returns (b: NodeId)
    requires Reaches(arcs, a, c)
    ensures (a, b) in arcs && (b == c || Reaches(arcs, b, c))
  {
    var p :| |p| >= 2 && PathBetween(arcs, p, a, c);
    b := p[1];
    assert (p[0], p[1]) in arcs;
    SubPath(arcs, p, 1, |p| - 1);
    assert PathBetween(arcs, p[1..|p|], b, c);
  }

  lemma SubPath(arcs: set<Arc>, p: seq<NodeId>, i: nat, j: nat)
    requires IsPath(arcs, p) && i <= j < |p|
    ensures PathBetween(arcs, p[i..j + 1], p[i], p[j])
  {
    var q := p[i..j + 1];
    forall k, l | 0 <= k && l == k + 1 && l < |q| ensures (q[k], q[l]) in arcs {
      assert q[k] == p[i + k] && q[l] == p[i + l];
    }
  }

  lemma SubPathReaches(arcs: set<Arc>, p: seq<NodeId>, i: nat, j: nat)
    requires IsPath(arcs, p) && i < j < |p|
    ensures Reaches(arcs, p[i], p[j])
  {
    SubPath(arcs, p, i, j);
    assert |p[i..j + 1]| >= 2;
  }

  lemma ReachesWithin(nodes: set<NodeId>, arcs: set<Arc>, a: NodeId, b: NodeId)
    requires Within(nodes, arcs) && Reaches(arcs, a, b)
    ensures a in nodes && b in nodes
  {
    var x := ReachesFirstArc(arcs, a, b);
    var y := ReachesLastArc(arcs, a, b);
    assert (a, x) in arcs && (y, b) in arcs;
  }

  /** Extending a path at its front by one arc. */
  lemma ArcThenReaches(arcs: set<Arc>, a: NodeId, b: NodeId, c: NodeId)
    requires (a, b) in arcs && (b == c || Reaches(arcs, b, c))
    ensures Reaches(arcs, a, c)
  {
    ReachesArc(arcs, a, b);
    if b != c {
      ReachesTrans(arcs, a, b, c);
    }
  }

  ghost predicate HasPredecessorIn(arcs: set<Arc>, stuck: set<NodeId>, x: NodeId) {
    exists y :: y in stuck && (y, x) in arcs
  }

  /** Every member has a predecessor inside the set. */
  ghost predicate Stuck(arcs: set<Arc>, stuck: set<NodeId>) {
    forall x {:trigger HasPredecessorIn(arcs, stuck, x)} :: x in stuck ==> HasPredecessorIn(arcs, stuck, x)
  }

  /** Following predecessors inside a set that every member can leave backwards never stops:
      for any length there is a path of that length ending at v. */
  lemma {:induction false} BackwardPath(arcs: set<Arc>, stuck: set<NodeId>, v: NodeId, n: nat) returns (p: seq<NodeId>)
    requires v in stuck && Stuck(arcs, stuck)
    ensures |p| == n + 1 && Elements(p) <= stuck && IsPath(arcs, p) && p[n] == v
    decreases n
  {
    if n == 0 {
      p := [v];
    } else {
      assert HasPredecessorIn(arcs, stuck, v);
      var y :| y in stuck && (y, v) in arcs;
      var q := BackwardPath(arcs, stuck, y, n - 1);
      p := q + [v];
      forall i, j | 0 <= i && j == i + 1 && j < |p| ensures (p[i], p[j]) in arcs {
        if j < |q| { assert (q[i], q[j]) in arcs; }
      }
      ElementsSnoc(q, v);
    }
  }

  /** In such a set every node lies on a cycle or is reached from one. */
  lemma StuckBehindCycle(arcs: set<Arc>, stuck: set<NodeId>, v: NodeId) returns (c: NodeId)
    requires v in stuck && Stuck(arcs, stuck)
    ensures Reaches(arcs, c, c) && (c == v || Reaches(arcs, c, v))
  {
    var p := BackwardPath(arcs, stuck, v, |stuck|);
    var i, j := Pigeonhole(p, stuck);
    SubPathReaches(arcs, p, i, j);
    c := p[j];
    if j < |p| - 1 {
      SubPathReaches(arcs, p, j, |p| - 1);
    }
  }

  // ---------------------------------------------------------------- edge selection

  predicate Selected(e: Edge, confirmedOnly: bool) {
    && e.kind == PrerequisiteOf
    && e.status != Rejected
    && (!confirmedOnly || e.status == Confirmed)
  }

  predicate EdgeLeq(a: Edge, b: Edge) {
    a.source < b.source
    || (a.source == b.source && (a.target < b.target || (a.target == b.target && a.id <= b.id)))
  }

  function SelectEdges(edges: seq<Edge>, confirmedOnly: bool): seq<Edge> {
    if edges == [] then []
    else (if Selected(edges[0], confirmedOnly) then [edges[0]] else []) + SelectEdges(edges[1..], confirmedOnly)
  }

  predicate HasSelfLoop(edges: seq<Edge>) {
    exists e :: e in edges && e.source == e.target
  }

  /** The selected arcs, as a set: what the graph algorithms are about. */
  ghost function SelectedArcs(g: Graph, confirmedOnly: bool): set<Arc> {
    set e | e in g.edges && Selected(e, confirmedOnly) :: (e.source, e.target)
  }

  lemma {:induction false} SelectMembers(edges: seq<Edge>, confirmedOnly: bool)
    ensures forall e :: e in SelectEdges(edges, confirmedOnly) <==> e in edges && Selected(e, confirmedOnly)
  {
    if edges != [] {
      SelectMembers(edges[1..], confirmedOnly);
      assert edges == [edges[0]] + edges[1..];
    }
  }

  /** The edges handed to the algorithms: selected, then sorted by source, target and identifier. */
  function PrerequisiteEdges(g: Graph, confirmedOnly: bool): seq<Edge> {
    Sort(EdgeLeq, SelectEdges(g.edges, confirmedOnly))
  }

  lemma PrerequisiteEdgesArcs(g: Graph, confirmedOnly: bool)
    ensures Arcs(PrerequisiteEdges(g, confirmedOnly)) == SelectedArcs(g, confirmedOnly)
    ensures forall e :: e in PrerequisiteEdges(g, confirmedOnly) ==> e in g.edges
  {
    SelectMembers(g.edges, confirmedOnly);
    SortMembers(EdgeLeq, SelectEdges(g.edges, confirmedOnly));
  }

  /** What one more edge adds to the selection: its arc if it is a prerequisite that is confirmed, or, when
      candidates count too, proposed; a rejected edge or one of another kind adds nothing. */
  lemma EdgeCounts(g: Graph, e: Edge, confirmedOnly: bool)
    ensures SelectedArcs(g.(edges := g.edges + [e]), confirmedOnly) ==
            SelectedArcs(g, confirmedOnly) +
            (if e.kind == PrerequisiteOf && (e.status == Confirmed || (e.status == Proposed && !confirmedOnly))
             then {(e.source, e.target)} else {})
  {
    assert forall d :: d in g.edges + [e] <==> d in g.edges || d == e;
  }

  /** Any edge from a node to itself counts as a loop, whatever its kind or status. */
  lemma LoopCounts(edges: seq<Edge>, e: Edge)
    ensures HasSelfLoop(edges + [e]) <==> HasSelfLoop(edges) || e.source == e.target
  {
    assert forall d :: d in edges + [e] <==> d in edges || d == e;
  }
}
