/** An assembled draft survives its independent re-check: taking the generated elements back out of the
    draft, regrouping them by request and assembling again gives the same draft
    (packages/curriculum/drafts.py:18-157). */
module DraftRoundTrip {
  import opened Support
  import opened Extraction
  import opened DraftModel

  // ---------------------------------------------------------------- sections as groups

  function Ids(nodes: seq<Node>): set<NodeId> {
    set n | n in nodes :: n.id
  }

  ghost predicate DistinctNodes(nodes: seq<Node>) {
    forall i, j :: 0 <= i < j < |nodes| ==> nodes[i].id != nodes[j].id
  }

  /** The elements, section after section. */
  function Regrouped(nodes: seq<Node>, els: seq<Generated>): seq<Generated> {
    if nodes == [] then [] else Regrouped(nodes[..|nodes| - 1], els) + By(els, nodes[|nodes| - 1].id)
  }

  /** The elements whose section is among the ids, in order. */
  function Keep(els: seq<Generated>, ids: set<NodeId>): seq<Generated> {
    if els == [] then []
    else
      var k := |els| - 1;
      Keep(els[..k], ids) + (if els[k].source in ids then [els[k]] else [])
  }

  function KeepNodes(nodes: seq<Node>, ids: set<NodeId>): seq<Node> {
    if nodes == [] then []
    else
      var k := |nodes| - 1;
      KeepNodes(nodes[..k], ids) + (if nodes[k].id in ids then [nodes[k]] else [])
  }

  lemma {:induction false} ByConcat(a: seq<Generated>, b: seq<Generated>, s: NodeId)
    ensures By(a + b, s) == By(a, s) + By(b, s)
  {
    if b == [] {
      assert a + b == a;
    } else {
      var k := |b| - 1;
      assert (a + b)[..|a| + k] == a + b[..k];
      ByConcat(a, b[..k], s);
    }
  }

  lemma BySnoc(els: seq<Generated>, g: Generated, s: NodeId)
    ensures By(els + [g], s) == if g.source == s then By(els, s) + [g] else By(els, s)
  {
    assert (els + [g])[..|els|] == els;
  }

  lemma {:induction false} BySources(els: seq<Generated>, s: NodeId)
    ensures forall i :: 0 <= i < |By(els, s)| ==> By(els, s)[i].source == s
  {
    if els != [] {
      BySources(els[..|els| - 1], s);
    }
  }

  lemma {:induction false} ByUniform(els: seq<Generated>, s: NodeId, t: NodeId)
    requires forall i :: 0 <= i < |els| ==> els[i].source == s
    ensures By(els, t) == if s == t then els else []
  {
    if els != [] {
      ByUniform(els[..|els| - 1], s, t);
    }
  }

  lemma ByOwn(els: seq<Generated>, s: NodeId, t: NodeId)
    ensures By(By(els, s), t) == if s == t then By(els, s) else []
    ensures forall i :: 0 <= i < |By(els, s)| ==> By(els, s)[i].source == s
  {
    BySources(els, s);
    ByUniform(By(els, s), s, t);
  }

  lemma {:induction false} KeepConcat(a: seq<Generated>, b: seq<Generated>, ids: set<NodeId>)
    ensures Keep(a + b, ids) == Keep(a, ids) + Keep(b, ids)
  {
    if b == [] {
      assert a + b == a;
    } else {
      var k := |b| - 1;
      assert (a + b)[..|a| + k] == a + b[..k];
      KeepConcat(a, b[..k], ids);
    }
  }

  lemma {:induction false} KeepOwn(els: seq<Generated>, s: NodeId, ids: set<NodeId>)
    requires forall i :: 0 <= i < |els| ==> els[i].source == s
    ensures Keep(els, ids) == if s in ids then els else []
  {
    if els != [] {
      KeepOwn(els[..|els| - 1], s, ids);
    }
  }

  /** Regrouping keeps the elements of each section, in order. */
  lemma {:induction false} RegroupedBy(nodes: seq<Node>, els: seq<Generated>, s: NodeId)
    requires DistinctNodes(nodes)
    ensures By(Regrouped(nodes, els), s) == if s in Ids(nodes) then By(els, s) else []
  {
    if nodes != [] {
      var k := |nodes| - 1;
      RegroupedBy(nodes[..k], els, s);
      ByConcat(Regrouped(nodes[..k], els), By(els, nodes[k].id), s);
      ByOwn(els, nodes[k].id, s);
      IdsSnoc(nodes);
    }
  }

  lemma IdsSnoc(nodes: seq<Node>)
    requires nodes != []
    ensures Ids(nodes) == Ids(nodes[..|nodes| - 1]) + {nodes[|nodes| - 1].id}
    ensures DistinctNodes(nodes) ==> nodes[|nodes| - 1].id !in Ids(nodes[..|nodes| - 1])
  {
    var k := |nodes| - 1;
    assert nodes == nodes[..k] + [nodes[k]];
    forall n ensures n in nodes <==> n in nodes[..k] || n == nodes[k] {
    }
  }

  /** Selecting regrouped elements is regrouping the selected sections. */
  lemma {:induction false} KeepRegrouped(nodes: seq<Node>, els: seq<Generated>, ids: set<NodeId>)
    ensures Keep(Regrouped(nodes, els), ids) == Regrouped(KeepNodes(nodes, ids), els)
  {
    if nodes != [] {
      var k := |nodes| - 1;
      KeepRegrouped(nodes[..k], els, ids);
      KeepConcat(Regrouped(nodes[..k], els), By(els, nodes[k].id), ids);
      ByOwn(els, nodes[k].id, nodes[k].id);
      KeepOwn(By(els, nodes[k].id), nodes[k].id, ids);
      var kept := KeepNodes(nodes[..k], ids);
      assert (kept + [nodes[k]])[..|kept|] == kept;
      assert kept + [] == kept;
    }
  }

  lemma {:induction false} RegroupedAgree(nodes: seq<Node>, a: seq<Generated>, b: seq<Generated>)
    requires forall s :: s in Ids(nodes) ==> By(a, s) == By(b, s)
    ensures Regrouped(nodes, a) == Regrouped(nodes, b)
  {
    if nodes != [] {
      IdsSnoc(nodes);
      RegroupedAgree(nodes[..|nodes| - 1], a, b);
    }
  }

  /** Regrouping by distinct sections that cover every element keeps the number of elements. */
  lemma {:induction false} RegroupedCount(nodes: seq<Node>, els: seq<Generated>)
    requires DistinctNodes(nodes) && forall i :: 0 <= i < |els| ==> els[i].source in Ids(nodes)
    ensures |Regrouped(nodes, els)| == |els|
  {
    if els == [] {
      RegroupedNothing(nodes);
    } else {
      RegroupedCount(nodes, els[..|els| - 1]);
      RegroupedSnoc(nodes, els);
    }
  }

  lemma {:induction false} RegroupedNothing(nodes: seq<Node>)
    ensures Regrouped(nodes, []) == []
  {
    if nodes != [] {
      RegroupedNothing(nodes[..|nodes| - 1]);
    }
  }

  lemma {:induction false} RegroupedSnoc(nodes: seq<Node>, els: seq<Generated>)
    requires DistinctNodes(nodes) && els != []
    ensures |Regrouped(nodes, els)| == |Regrouped(nodes, els[..|els| - 1])| + (if els[|els| - 1].source in Ids(nodes) then 1 else 0)
  {
    if nodes != [] {
      RegroupedSnoc(nodes[..|nodes| - 1], els);
      IdsSnoc(nodes);
    }
  }

  /** A draft's elements depend on the provider elements only section by section. */
  lemma {:induction false} BuildAgrees(draft: nat, nodes: seq<Node>, a: seq<Generated>, b: seq<Generated>)
    requires forall s :: s in Ids(nodes) ==> By(a, s) == By(b, s)
    ensures Build(draft, nodes, a) == Build(draft, nodes, b)
  {
    if nodes != [] {
      IdsSnoc(nodes);
      BuildAgrees(draft, nodes[..|nodes| - 1], a, b);
    }
  }

  // ---------------------------------------------------------------- acceptance, section by section

  ghost predicate SectionOk(draft: nat, section: Node, gs: seq<Generated>) {
    forall i :: 0 <= i < |gs| ==> ElementOk(draft, section, gs[i], gs[..i])
  }

  lemma SectionOkSnoc(draft: nat, section: Node, gs: seq<Generated>, g: Generated)
    ensures SectionOk(draft, section, gs + [g]) <==> SectionOk(draft, section, gs) && ElementOk(draft, section, g, gs)
  {
    var all := gs + [g];
    forall i | 0 <= i < |gs| ensures all[..i] == gs[..i] && all[i] == gs[i] {
    }
    assert all[..|gs|] == gs && all[|gs|] == g;
    if SectionOk(draft, section, all) {
      forall i | 0 <= i < |gs| ensures ElementOk(draft, section, gs[i], gs[..i]) {
        assert ElementOk(draft, section, all[i], all[..i]);
      }
    }
  }

  ghost predicate AllSectionsOk(draft: nat, sections: seq<Node>, els: seq<Generated>) {
    forall k :: 0 <= k < |sections| ==> SectionOk(draft, sections[k], By(els, sections[k].id))
  }

  ghost predicate SourcesIn(sections: seq<Node>, els: seq<Generated>) {
    forall i :: 0 <= i < |els| ==> els[i].source in Ids(sections)
  }

  lemma IndexOfId(sections: seq<Node>, s: NodeId) returns (k: nat)
    requires s in Ids(sections)
    ensures k < |sections| && sections[k].id == s
  {
    var n :| n in sections && n.id == s;
    k :| 0 <= k < |sections| && sections[k] == n;
  }

  lemma AcceptedAtPrefix(draft: nat, sections: seq<Node>, els: seq<Generated>, g: Generated)
    ensures forall i :: 0 <= i < |els| ==> (AcceptedAt(draft, sections, els + [g], i) <==> AcceptedAt(draft, sections, els, i))
  {
    forall i | 0 <= i < |els| ensures AcceptedAt(draft, sections, els + [g], i) <==> AcceptedAt(draft, sections, els, i) {
      assert (els + [g])[..i] == els[..i] && (els + [g])[i] == els[i];
    }
  }

  ghost predicate AllAcceptedAt(draft: nat, sections: seq<Node>, els: seq<Generated>) {
    forall i :: 0 <= i < |els| ==> AcceptedAt(draft, sections, els, i)
  }

  lemma AllAcceptedSnoc(draft: nat, sections: seq<Node>, els: seq<Generated>, g: Generated)
    ensures AllAcceptedAt(draft, sections, els + [g]) <==>
            AllAcceptedAt(draft, sections, els) && AcceptedAt(draft, sections, els + [g], |els|)
  {
    var all := els + [g];
    AcceptedAtPrefix(draft, sections, els, g);
    if AllAcceptedAt(draft, sections, all) {
      assert AcceptedAt(draft, sections, all, |els|);
      forall i | 0 <= i < |els| ensures AcceptedAt(draft, sections, els, i) {
        assert AcceptedAt(draft, sections, all, i);
      }
    }
  }

  lemma LastAccepted(draft: nat, sections: seq<Node>, els: seq<Generated>, g: Generated)
    requires DistinctNodes(sections)
    ensures AcceptedAt(draft, sections, els + [g], |els|) <==>
            g.source in Ids(sections) && forall k :: 0 <= k < |sections| && sections[k].id == g.source ==> ElementOk(draft, sections[k], g, By(els, g.source))
  {
    var all := els + [g];
    assert all[..|els|] == els && all[|els|] == g;
    if g.source in Ids(sections) {
      var k := IndexOfId(sections, g.source);
    }
  }

  lemma SectionsSnoc(draft: nat, sections: seq<Node>, els: seq<Generated>, g: Generated)
    ensures AllSectionsOk(draft, sections, els + [g]) <==>
            AllSectionsOk(draft, sections, els)
            && forall k :: 0 <= k < |sections| && sections[k].id == g.source ==> ElementOk(draft, sections[k], g, By(els, g.source))
  {
    var all := els + [g];
    assert all[..|els|] == els && all[|els|] == g;
    forall k | 0 <= k < |sections|
      ensures SectionOk(draft, sections[k], By(all, sections[k].id)) <==>
              SectionOk(draft, sections[k], By(els, sections[k].id))
              && (sections[k].id == g.source ==> ElementOk(draft, sections[k], g, By(els, g.source)))
    {
      BySnoc(els, g, sections[k].id);
      SectionOkSnoc(draft, sections[k], By(els, sections[k].id), g);
    }
  }

  lemma {:induction false} AcceptedBySection(draft: nat, sections: seq<Node>, els: seq<Generated>)
    requires DistinctNodes(sections)
    ensures AllAcceptedAt(draft, sections, els) <==> SourcesIn(sections, els) && AllSectionsOk(draft, sections, els)
  {
    if els != [] {
      var front, g := els[..|els| - 1], els[|els| - 1];
      assert els == front + [g];
      AcceptedBySection(draft, sections, front);
      LastAccepted(draft, sections, front, g);
      SectionsSnoc(draft, sections, front, g);
      AllAcceptedSnoc(draft, sections, front, g);
      assert SourcesIn(sections, els) <==> SourcesIn(sections, front) && g.source in Ids(sections);
    }
  }

  /** Acceptance looks at one section at a time, so an accepted output stays accepted when its elements
      are regrouped by section. */
  lemma RegroupedAccepted(draft: nat, sections: seq<Node>, els: seq<Generated>)
    requires DistinctNodes(sections) && Accepts(draft, sections, els)
    ensures Accepts(draft, sections, Regrouped(sections, els))
  {
    var again := Regrouped(sections, els);
    AcceptedBySection(draft, sections, els);
    RegroupedCount(sections, els);
    forall k | 0 <= k < |sections| ensures SectionOk(draft, sections[k], By(again, sections[k].id)) {
      RegroupedBy(sections, els, sections[k].id);
      assert sections[k] in sections && sections[k].id in Ids(sections);
      assert SectionOk(draft, sections[k], By(els, sections[k].id));
    }
    RegroupedSources(sections, els);
    AcceptedBySection(draft, sections, again);
  }

  lemma {:induction false} RegroupedSources(nodes: seq<Node>, els: seq<Generated>)
    ensures SourcesIn(nodes, Regrouped(nodes, els))
  {
    if nodes != [] {
      var k := |nodes| - 1;
      RegroupedSources(nodes[..k], els);
      IdsSnoc(nodes);
      ByOwn(els, nodes[k].id, nodes[k].id);
    }
  }

  // ---------------------------------------------------------------- requests partition the sections

  lemma {:induction false} RootMapKeys(nodes: seq<Node>)
    ensures RootMap(nodes).Keys == Ids(nodes)
  {
    if nodes != [] {
      IdsSnoc(nodes);
      RootMapKeys(nodes[..|nodes| - 1]);
    }
  }

  lemma {:induction false} RootsAreNodes(nodes: seq<Node>)
    requires DistinctNodes(nodes)
    ensures forall i :: 0 <= i < |Roots(nodes)| ==> Roots(nodes)[i] in Ids(nodes)
    ensures Distinct(Roots(nodes))
  {
    if nodes != [] {
      RootsAreNodes(nodes[..|nodes| - 1]);
      IdsSnoc(nodes);
    }
  }

  lemma {:induction false} RootMapRoots(nodes: seq<Node>, s: NodeId)
    requires Rooted(nodes) && s in Ids(nodes)
    ensures s in RootMap(nodes) && RootMap(nodes)[s] in Roots(nodes)
  {
    var k := |nodes| - 1;
    var front, n := nodes[..k], nodes[k];
    RootedPrefix(nodes, k);
    RootMapKeys(nodes);
    RootMapKeys(front);
    IdsSnoc(nodes);
    if s != n.id {
      RootMapRoots(front, s);
    } else if n.parent.Some? {
      assert HasParent(nodes, k);
      var j :| 0 <= j < k && nodes[j].id == n.parent.value;
      assert front[j] in front && n.parent.value in Ids(front);
      RootMapRoots(front, n.parent.value);
    }
  }

  lemma RootedPrefix(nodes: seq<Node>, k: nat)
    requires Rooted(nodes) && k <= |nodes|
    ensures Rooted(nodes[..k])
  {
    forall i | 0 <= i < k ensures HasParent(nodes[..k], i) {
      assert HasParent(nodes, i);
      if nodes[i].parent.Some? {
        var j :| 0 <= j < i && nodes[j].id == nodes[i].parent.value;
        assert nodes[..k][j] == nodes[j];
      }
    }
  }

  /** A request selects exactly the sections whose final root is its own. */
  lemma {:induction false} SectionsSelect(nodes: seq<Node>, root: NodeId, final: map<NodeId, NodeId>)
    requires DistinctNodes(nodes)
    requires forall s :: s in RootMap(nodes) ==> s in final && final[s] == RootMap(nodes)[s]
    ensures SectionsOf(nodes, root) == KeepNodes(nodes, set s | s in final && final[s] == root)
  {
    if nodes != [] {
      var k := |nodes| - 1;
      RootMapKeys(nodes[..k]);
      IdsSnoc(nodes);
      SectionsSelect(nodes[..k], root, final);
    }
  }

  function GroupIds(nodes: seq<Node>, root: NodeId): set<NodeId> {
    set s | s in RootMap(nodes) && RootMap(nodes)[s] == root
  }

  lemma {:induction false} KeepNodesIds(nodes: seq<Node>, ids: set<NodeId>)
    ensures Ids(KeepNodes(nodes, ids)) == Ids(nodes) * ids
    ensures DistinctNodes(nodes) ==> DistinctNodes(KeepNodes(nodes, ids))
  {
    if nodes != [] {
      var k := |nodes| - 1;
      KeepNodesIds(nodes[..k], ids);
      IdsSnoc(nodes);
      var before := KeepNodes(nodes[..k], ids);
      assert (before + [nodes[k]])[..|before|] == before;
      IdsSnoc(before + [nodes[k]]);
      assert before + [] == before;
      if DistinctNodes(nodes) && nodes[k].id in ids {
        forall i | 0 <= i < |before| ensures before[i].id != nodes[k].id {
          assert before[i] in before;
        }
      }
    }
  }

  /** Request r is the sections under root r, in order. */
  lemma RequestIs(nodes: seq<Node>, r: nat)
    requires Rooted(nodes) && r < |Requests(nodes)|
    ensures Requests(nodes)[r] == KeepNodes(nodes, GroupIds(nodes, Roots(nodes)[r]))
    ensures DistinctNodes(Requests(nodes)[r])
    ensures Ids(Requests(nodes)[r]) == GroupIds(nodes, Roots(nodes)[r])
  {
    var root := Roots(nodes)[r];
    RootMapKeys(nodes);
    SectionsSelect(nodes, root, RootMap(nodes));
    KeepNodesIds(nodes, GroupIds(nodes, root));
    assert GroupIds(nodes, root) <= Ids(nodes);
  }

  lemma RequestFor(nodes: seq<Node>, s: NodeId) returns (r: nat)
    requires Rooted(nodes) && s in Ids(nodes)
    ensures r < |Requests(nodes)| && s in Ids(Requests(nodes)[r])
  {
    RootMapRoots(nodes, s);
    r :| 0 <= r < |Roots(nodes)| && Roots(nodes)[r] == RootMap(nodes)[s];
    RequestIs(nodes, r);
  }

  /** The requests partition the sections: every section is in one request, none is in two, and each
      request keeps them in order. */
  lemma RequestsPartition(nodes: seq<Node>, s: NodeId, q: nat, r: nat)
    requires Rooted(nodes) && q < |Requests(nodes)| && r < |Requests(nodes)|
    ensures s in Ids(nodes) <==> exists i :: 0 <= i < |Requests(nodes)| && s in Ids(Requests(nodes)[i])
    ensures s in Ids(Requests(nodes)[q]) && s in Ids(Requests(nodes)[r]) ==> q == r
  {
    RootsAreNodes(nodes);
    RequestIs(nodes, q);
    RequestIs(nodes, r);
    RootMapKeys(nodes);
    if s in Ids(nodes) {
      var i := RequestFor(nodes, s);
    }
    forall i | 0 <= i < |Requests(nodes)| && s in Ids(Requests(nodes)[i]) ensures s in Ids(nodes) {
      RequestIs(nodes, i);
    }
  }
}
