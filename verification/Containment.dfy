/** The containment forest of a graph definition: the loop with a shared visited set that walks
    every node up to its root (packages/domain/graph.py:241-260). */
module Containment {
  import opened Support
  import opened Graphs

  type Parents = map<NodeId, Option<NodeId>>

  /** An arc from every node to the node that contains it. */
  ghost function ParentArcs(parents: Parents): set<Arc> {
    set v | v in parents && parents[v].Some? :: (v, parents[v].value)
  }

  /** Walking upwards from v never meets a cycle. */
  ghost predicate Safe(parents: Parents, v: NodeId) {
    forall c :: c == v || Reaches(ParentArcs(parents), v, c) ==> !Reaches(ParentArcs(parents), c, c)
  }

  lemma RootIsSafe(parents: Parents, v: NodeId)
    requires v in parents && parents[v].None?
    ensures Safe(parents, v)
  {
    forall c | Reaches(ParentArcs(parents), v, c) ensures false {
      var x := ReachesFirstArc(ParentArcs(parents), v, c);
    }
  }

  lemma SafeStep(parents: Parents, v: NodeId)
    requires v in parents && parents[v].Some? && Safe(parents, parents[v].value)
    ensures Safe(parents, v)
  {
    var arcs, up := ParentArcs(parents), parents[v].value;
    forall c | c == v || Reaches(arcs, v, c) ensures !Reaches(arcs, c, c) {
      if c == v {
        if Reaches(arcs, v, v) {
          var x := ReachesFirstArc(arcs, v, v);
        }
      } else {
        var x := ReachesFirstArc(arcs, v, c);
        assert x == up;
      }
    }
  }

  /** The nodes walked so far, each contained in the next, the last one in the cursor. */
  ghost predicate Walk(parents: Parents, walked: seq<NodeId>, cursor: Option<NodeId>) {
    && (forall i :: 0 <= i < |walked| ==> walked[i] in parents)
    && (forall i, j :: 0 <= i && j == i + 1 && j < |walked| ==> parents[walked[i]] == Some(walked[j]))
    && (|walked| > 0 ==> parents[walked[|walked| - 1]] == cursor)
  }

  lemma {:induction false} WalkIsSafe(parents: Parents, walked: seq<NodeId>, cursor: Option<NodeId>, i: nat)
    requires Walk(parents, walked, cursor) && i < |walked|
    requires cursor.Some? ==> Safe(parents, cursor.value)
    ensures Safe(parents, walked[i])
    decreases |walked| - i
  {
    if i + 1 < |walked| {
      WalkIsSafe(parents, walked, cursor, i + 1);
      SafeStep(parents, walked[i]);
    } else if cursor.Some? {
      SafeStep(parents, walked[i]);
    } else {
      RootIsSafe(parents, walked[i]);
    }
  }

  lemma WalkClosesCycle(parents: Parents, walked: seq<NodeId>, c: NodeId)
    requires Walk(parents, walked, Some(c)) && c in walked
    ensures Reaches(ParentArcs(parents), c, c)
  {
    var arcs := ParentArcs(parents);
    var i :| 0 <= i < |walked| && walked[i] == c;
    var p := walked[i..] + [c];
    forall k, l | 0 <= k && l == k + 1 && l < |p| ensures (p[k], p[l]) in arcs {
      if l < |p| - 1 {
        assert p[k] == walked[i + k] && p[l] == walked[i + l];
      } else {
        assert p[k] == walked[|walked| - 1];
      }
    }
    assert PathBetween(arcs, p, c, c);
  }

  /** One upward walk. It stops at a root, at a node already known to be safe, or on a cycle. */
  method WalkUp(parents: Parents, node: NodeId, visited: set<NodeId>) returns (ok: bool, path: set<NodeId>)
    requires node in parents
    requires forall v :: v in parents && parents[v].Some? ==> parents[v].value in parents
    requires forall v :: v in visited ==> Safe(parents, v)
    ensures ok ==> path <= parents.Keys && (node in path || node in visited)
    ensures ok ==> forall v :: v in path ==> Safe(parents, v)
    ensures !ok ==> exists c :: Reaches(ParentArcs(parents), c, c)
  {
    path := {};
    var cursor := Some(node);
    ghost var walked: seq<NodeId> := [];
    while cursor.Some? && cursor.value !in visited
      invariant Walk(parents, walked, cursor)
      invariant forall v :: v in path <==> v in walked
      invariant path <= parents.Keys
      invariant cursor.Some? ==> cursor.value in parents
      invariant node in path || cursor == Some(node)
      decreases parents.Keys - path
    {
      var c := cursor.value;
      if c in path {
        WalkClosesCycle(parents, walked, c);
        return false, path;
      }
      path := path + {c};
      walked := walked + [c];
      cursor := parents[c];
    }
    forall v | v in path ensures Safe(parents, v) {
      var i :| 0 <= i < |walked| && walked[i] == v;
      WalkIsSafe(parents, walked, cursor, i);
    }
    ok := true;
  }

  /** Accepts exactly the containments without a cycle. */
  method ValidateForest(nodes: seq<NodeId>, parents: Parents) returns (ok: bool)
    requires Elements(nodes) == parents.Keys
    requires forall v :: v in parents && parents[v].Some? ==> parents[v].value in parents
    ensures ok <==> Acyclic(ParentArcs(parents))
  {
    var visited: set<NodeId> := {};
    for k := 0 to |nodes|
      invariant forall v :: v in visited ==> Safe(parents, v)
      invariant forall i :: 0 <= i < k ==> nodes[i] in visited
    {
      assert nodes[k] in Elements(nodes);
      var walkOk, path := WalkUp(parents, nodes[k], visited);
      if !walkOk {
        return false;
      }
      visited := visited + path;
    }
    forall v | v in parents ensures Safe(parents, v) {
      assert v in Elements(nodes);
    }
    forall v ensures !Reaches(ParentArcs(parents), v, v) {
      if Reaches(ParentArcs(parents), v, v) {
        var x := ReachesFirstArc(ParentArcs(parents), v, v);
      }
    }
    ok := true;
  }
}
