/** The confirmed prerequisite closure with the edges that prove it
    (packages/curriculum/diagnostics.py:93-122). It never asks for an acyclic graph. */
module Provenance {
  import opened Support
  import opened Graphs

  type Entry = (NodeId, EdgeId)

  predicate IsConfirmed(e: Edge) {
    e.kind == PrerequisiteOf && e.status == Confirmed
  }

  ghost function ConfirmedArcs(edges: seq<Edge>): set<Arc> {
    set e | e in edges && IsConfirmed(e) :: (e.source, e.target)
  }

  /** Some confirmed edge with identifier i leads from s to x. */
  ghost predicate Confirms(edges: seq<Edge>, s: NodeId, i: EdgeId, x: NodeId) {
    exists e :: e in edges && IsConfirmed(e) && e.source == s && e.id == i && e.target == x
  }

  ghost predicate AtOrAbove(arcs: set<Arc>, x: NodeId, t: NodeId) {
    x == t || Reaches(arcs, x, t)
  }

  /** Edge i out of p ends in t or in a strict ancestor of t. */
  ghost predicate Proves(edges: seq<Edge>, p: NodeId, i: EdgeId, t: NodeId) {
    exists x :: Confirms(edges, p, i, x) && AtOrAbove(ConfirmedArcs(edges), x, t)
  }

  ghost predicate ProvesForSome(edges: seq<Edge>, p: NodeId, i: EdgeId, targets: set<NodeId>) {
    exists t :: t in targets && Proves(edges, p, i, t)
  }

  ghost predicate AncestorOfSome(edges: seq<Edge>, p: NodeId, targets: set<NodeId>) {
    exists t :: t in targets && Reaches(ConfirmedArcs(edges), p, t)
  }

  /** The proof is about the arcs an order of the executable graph is about. */
  lemma ConfirmedAreSelected(g: Graph)
    ensures ConfirmedArcs(g.edges) == SelectedArcs(g, true)
  {
  }

  /** A node is a strict ancestor of t exactly when some edge out of it is part of the proof. */
  lemma AncestorIffProved(edges: seq<Edge>, p: NodeId, t: NodeId)
    ensures Reaches(ConfirmedArcs(edges), p, t) <==> exists i :: Proves(edges, p, i, t)
  {
    var arcs := ConfirmedArcs(edges);
    if Reaches(arcs, p, t) {
      var x := ReachesFirstArc(arcs, p, t);
      var e :| e in edges && IsConfirmed(e) && (e.source, e.target) == (p, x);
      assert Confirms(edges, p, e.id, x);
      assert Proves(edges, p, e.id, t);
    }
    if i :| Proves(edges, p, i, t) {
      var x :| Confirms(edges, p, i, x) && AtOrAbove(arcs, x, t);
      ArcThenReaches(arcs, p, x, t);
    }
  }

  // ---------------------------------------------------------------- the reverse index

  function Into(reverse: map<NodeId, seq<Entry>>, x: NodeId): seq<Entry> {
    if x in reverse then reverse[x] else []
  }

  ghost predicate Indexes(reverse: map<NodeId, seq<Entry>>, edges: seq<Edge>) {
    forall x: NodeId, s: NodeId, i: EdgeId :: (s, i) in Into(reverse, x) <==> Confirms(edges, s, i, x)
  }

  predicate EntryLeq(a: Entry, b: Entry) {
    a.0 < b.0 || (a.0 == b.0 && a.1 <= b.1)
  }

  method BuildReverse(edges: seq<Edge>) returns (reverse: map<NodeId, seq<Entry>>)
    ensures Indexes(reverse, edges)
  {
    reverse := map[];
    for k := 0 to |edges|
      invariant Indexes(reverse, edges[..k])
    {
      var e := edges[k];
      ghost var before := reverse;
      assert forall f :: f in edges[..k + 1] <==> f in edges[..k] || f == e;
      if IsConfirmed(e) {
        reverse := reverse[e.target := Into(reverse, e.target) + [(e.source, e.id)]];
      }
      forall x: NodeId, s: NodeId, i: EdgeId ensures (s, i) in Into(reverse, x) <==> Confirms(edges[..k + 1], s, i, x) {
        assert (s, i) in Into(before, x) <==> Confirms(edges[..k], s, i, x);
      }
    }
    assert edges[..|edges|] == edges;
    ghost var unsorted := reverse;
    reverse := map x | x in reverse :: Sort(EntryLeq, reverse[x]);
    forall x: NodeId, s: NodeId, i: EdgeId ensures (s, i) in Into(reverse, x) <==> Confirms(edges, s, i, x) {
      SortMembers(EntryLeq, Into(unsorted, x));
      assert (s, i) in Into(unsorted, x) <==> Confirms(edges, s, i, x);
    }
  }

  // ---------------------------------------------------------------- the closure

  predicate Recorded(result: map<NodeId, set<EdgeId>>, p: NodeId, i: EdgeId) {
    p in result && i in result[p]
  }

  /** Every queued edge leads to the target or to a visited node. */
  ghost predicate Queued(edges: seq<Edge>, t: NodeId, visited: set<NodeId>, pending: seq<Entry>) {
    forall s, i :: (s, i) in pending ==> exists x :: Confirms(edges, s, i, x) && (x == t || x in visited)
  }

  /** Every edge into the target or a visited node is queued, or recorded with its source visited. */
  ghost predicate Swept(edges: seq<Edge>, t: NodeId, visited: set<NodeId>, pending: seq<Entry>, result: map<NodeId, set<EdgeId>>) {
    forall s: NodeId, i: EdgeId, x: NodeId :: Confirms(edges, s, i, x) && (x == t || x in visited) ==>
      (s, i) in pending || (s in visited && Recorded(result, s, i))
  }

  ghost predicate Sound(edges: seq<Edge>, t: NodeId, before: map<NodeId, set<EdgeId>>, result: map<NodeId, set<EdgeId>>) {
    && (forall p :: p in result ==> result[p] != {})
    && (forall p, i :: Recorded(before, p, i) ==> Recorded(result, p, i))
    && (forall p, i :: Recorded(result, p, i) ==> Recorded(before, p, i) || Proves(edges, p, i, t))
  }

  lemma QueuedProves(edges: seq<Edge>, t: NodeId, visited: set<NodeId>, pending: seq<Entry>, s: NodeId, i: EdgeId)
    requires Queued(edges, t, visited, pending) && (s, i) in pending
    requires forall x :: x in visited ==> Reaches(ConfirmedArcs(edges), x, t)
    ensures Proves(edges, s, i, t) && Reaches(ConfirmedArcs(edges), s, t)
    ensures exists e :: e in edges && e.source == s
  {
    var x :| Confirms(edges, s, i, x) && (x == t || x in visited);
    assert AtOrAbove(ConfirmedArcs(edges), x, t);
    assert Proves(edges, s, i, t);
    AncestorIffProved(edges, s, t);
  }

  /** Visited is closed under predecessors, so it holds every strict ancestor. */
  lemma {:induction false} ClosedAbove(edges: seq<Edge>, t: NodeId, visited: set<NodeId>, result: map<NodeId, set<EdgeId>>, p: seq<NodeId>)
    requires Swept(edges, t, visited, [], result)
    requires IsPath(ConfirmedArcs(edges), p) && |p| >= 2 && p[|p| - 1] == t
    ensures p[0] in visited
    decreases |p|
  {
    var arcs := ConfirmedArcs(edges);
    assert (p[0], p[1]) in arcs;
    if |p| > 2 {
      SubPath(arcs, p, 1, |p| - 1);
      assert p[1..|p|] == p[1..];
      ClosedAbove(edges, t, visited, result, p[1..]);
    }
    var e :| e in edges && IsConfirmed(e) && (e.source, e.target) == (p[0], p[1]);
    assert Confirms(edges, p[0], e.id, p[1]);
  }

  lemma SweptComplete(edges: seq<Edge>, t: NodeId, visited: set<NodeId>, result: map<NodeId, set<EdgeId>>, s: NodeId, i: EdgeId)
    requires Swept(edges, t, visited, [], result) && Proves(edges, s, i, t)
    ensures Recorded(result, s, i)
  {
    var x :| Confirms(edges, s, i, x) && AtOrAbove(ConfirmedArcs(edges), x, t);
    if x != t {
      var p :| |p| >= 2 && PathBetween(ConfirmedArcs(edges), p, x, t);
      ClosedAbove(edges, t, visited, result, p);
    }
  }

  function Record(result: map<NodeId, set<EdgeId>>, p: NodeId, i: EdgeId): map<NodeId, set<EdgeId>> {
    result[p := (if p in result then result[p] else {}) + {i}]
  }

  /** The first queued edge is taken: recorded in any case, and followed when its source is new. */
  lemma Taking(edges: seq<Edge>, reverse: map<NodeId, seq<Entry>>, t: NodeId, visited: set<NodeId>, pending: seq<Entry>,
               before: map<NodeId, set<EdgeId>>, result: map<NodeId, set<EdgeId>>, follow: bool)
    requires Indexes(reverse, edges) && pending != []
    requires Queued(edges, t, visited, pending) && Swept(edges, t, visited, pending, result) && Sound(edges, t, before, result)
    requires forall x :: x in visited ==> Reaches(ConfirmedArcs(edges), x, t)
    requires follow <==> pending[0].0 !in visited
    ensures var (s, i) := pending[0];
            var visited' := if follow then visited + {s} else visited;
            var pending' := if follow then pending[1..] + Into(reverse, s) else pending[1..];
            && Queued(edges, t, visited', pending')
            && Swept(edges, t, visited', pending', Record(result, s, i))
            && Sound(edges, t, before, Record(result, s, i))
            && Reaches(ConfirmedArcs(edges), s, t)
            && exists e :: e in edges && e.source == s
  {
    var (s, i) := pending[0];
    assert (s, i) in pending;
    QueuedProves(edges, t, visited, pending, s, i);
    var visited' := if follow then visited + {s} else visited;
    var pending' := if follow then pending[1..] + Into(reverse, s) else pending[1..];
    var result' := Record(result, s, i);
    assert forall e :: e in pending <==> e == pending[0] || e in pending[1..];
    assert forall e :: e in pending' <==> e in pending[1..] || (follow && e in Into(reverse, s));
    forall r, j | (r, j) in pending' ensures exists x :: Confirms(edges, r, j, x) && (x == t || x in visited') {
      if (r, j) in pending[1..] {
        var x :| Confirms(edges, r, j, x) && (x == t || x in visited);
      } else {
        assert Confirms(edges, r, j, s);
      }
    }
    forall p, j ensures Recorded(result', p, j) <==> Recorded(result, p, j) || (p == s && j == i) {
    }
  }

  /** One target: everything above it is recorded with the edges that lead towards it. */
  method CloseTarget(edges: seq<Edge>, reverse: map<NodeId, seq<Entry>>, t: NodeId, before: map<NodeId, set<EdgeId>>)
    returns (result: map<NodeId, set<EdgeId>>)
    requires Indexes(reverse, edges)
    requires forall p :: p in before ==> before[p] != {}
    ensures forall p :: p in result ==> result[p] != {}
    ensures forall p, i :: Recorded(result, p, i) <==> Recorded(before, p, i) || Proves(edges, p, i, t)
  {
    result := before;
    var pending := Into(reverse, t);
    var visited: set<NodeId> := {};
    ghost var sources := set e | e in edges :: e.source;
    while pending != []
      invariant Queued(edges, t, visited, pending) && Swept(edges, t, visited, pending, result) && Sound(edges, t, before, result)
      invariant forall x :: x in visited ==> Reaches(ConfirmedArcs(edges), x, t)
      decreases sources - visited, |pending|
    {
      var (s, i) := pending[0];
      Taking(edges, reverse, t, visited, pending, before, result, s !in visited);
      pending := pending[1..];
      if s in visited {
        result := Record(result, s, i);
      } else {
        assert s in sources;
        visited := visited + {s};
        result := Record(result, s, i);
        pending := pending + Into(reverse, s);
      }
    }
    forall p, i ensures Recorded(result, p, i) <==> Recorded(before, p, i) || Proves(edges, p, i, t) {
      if Proves(edges, p, i, t) {
        SweptComplete(edges, t, visited, result, p, i);
      }
    }
  }

  /** The keys are the strict confirmed ancestors of the targets; each maps to the confirmed edges
      out of it that end in a target or in a strict ancestor of one. */
  method ConfirmedProvenance(edges: seq<Edge>, targets: seq<NodeId>) returns (closure: map<NodeId, seq<EdgeId>>)
    ensures forall p :: p in closure <==> AncestorOfSome(edges, p, Elements(targets))
    ensures forall p, i :: p in closure ==> (i in closure[p] <==> ProvesForSome(edges, p, i, Elements(targets)))
    ensures forall p :: p in closure ==> Distinct(closure[p]) && SortedBy(NatLeq, closure[p])
  {
    var reverse := BuildReverse(edges);
    var result: map<NodeId, set<EdgeId>> := map[];
    var todo := Elements(targets);
    ghost var done: set<NodeId> := {};
    while todo != {}
      invariant Elements(targets) == todo + done
      invariant forall p :: p in result ==> result[p] != {}
      invariant forall p, i :: Recorded(result, p, i) <==> ProvesForSome(edges, p, i, done)
      decreases todo
    {
      var t := Least(todo);
      ghost var before, doneBefore := result, done;
      result := CloseTarget(edges, reverse, t, result);
      todo, done := todo - {t}, done + {t};
      forall p, i ensures Recorded(result, p, i) <==> ProvesForSome(edges, p, i, done) {
        assert Recorded(before, p, i) <==> ProvesForSome(edges, p, i, doneBefore);
        assert Recorded(result, p, i) <==> Recorded(before, p, i) || Proves(edges, p, i, t);
      }
    }
    closure := map p | p in result :: SortedElements(result[p]);
    forall p ensures p in closure <==> AncestorOfSome(edges, p, Elements(targets)) {
      if p in result {
        var i :| i in result[p];
        assert Recorded(result, p, i);
        var t :| t in done && Proves(edges, p, i, t);
        AncestorIffProved(edges, p, t);
      }
      if AncestorOfSome(edges, p, Elements(targets)) {
        var t :| t in Elements(targets) && Reaches(ConfirmedArcs(edges), p, t);
        AncestorIffProved(edges, p, t);
        var i :| Proves(edges, p, i, t);
        assert Recorded(result, p, i);
      }
    }
    forall p, i | p in closure ensures i in closure[p] <==> ProvesForSome(edges, p, i, Elements(targets)) {
      assert i in closure[p] <==> i in Elements(closure[p]);
      assert Recorded(result, p, i) <==> ProvesForSome(edges, p, i, done);
    }
  }
}
