/** The loops that partition, validate, assemble and re-check drafts (packages/curriculum/drafts.py,
    packages/domain/curriculum.py:79-105). */
module Drafts {
  import opened Support
  import opened Extraction
  import opened DraftModel
  import opened DraftRoundTrip
  import opened DraftHierarchy
  import opened DraftRecheck

  function Group(groups: map<NodeId, seq<Node>>, root: NodeId): seq<Node> {
    if root in groups then groups[root] else []
  }

  /** The dictionaries after the given nodes. */
  ghost predicate Grouped(nodes: seq<Node>, rootOf: map<NodeId, NodeId>, groups: map<NodeId, seq<Node>>, order: seq<NodeId>) {
    && rootOf == RootMap(nodes) && order == Roots(nodes)
    && groups.Keys == Elements(order)
    && (forall s :: s in rootOf ==> rootOf[s] in groups)
    && (forall r :: SectionsOf(nodes, r) == Group(groups, r))
  }

  lemma NewId(nodes: seq<Node>, n: Node)
    requires DistinctNodes(nodes + [n])
    ensures n.id !in Ids(nodes)
  {
    var all := nodes + [n];
    forall j | 0 <= j < |nodes| ensures nodes[j].id != n.id {
      assert all[j].id != all[|nodes|].id;
    }
  }

  lemma KnownParent(nodes: seq<Node>, n: Node)
    requires Rooted(nodes + [n])
    ensures n.parent.Some? ==> n.parent.value in RootMap(nodes)
    ensures n.id !in Roots(nodes)
  {
    var all, k := nodes + [n], |nodes|;
    NewId(nodes, n);
    RootMapKeys(nodes);
    assert DistinctNodes(nodes) by {
      RootedPrefix(all, k);
      assert all[..k] == nodes;
    }
    RootsAreNodes(nodes);
    assert HasParent(all, k);
    if n.parent.Some? {
      var j :| 0 <= j < k && all[j].id == n.parent.value;
      assert nodes[j] in nodes;
    }
  }

  lemma GroupedGrow(nodes: seq<Node>, n: Node, rootOf: map<NodeId, NodeId>, groups: map<NodeId, seq<Node>>, order: seq<NodeId>, root: NodeId)
    requires Rooted(nodes + [n]) && Grouped(nodes, rootOf, groups, order)
    requires n.parent.Some? ==> n.parent.value in rootOf
    requires root == if n.parent.Some? then rootOf[n.parent.value] else n.id
    ensures Grouped(nodes + [n], rootOf[n.id := root], groups[root := Group(groups, root) + [n]], if root in groups then order else order + [root])
  {
    var all, k := nodes + [n], |nodes|;
    assert all[..k] == nodes && all[k] == n;
    KnownParent(nodes, n);
    ElementsSnoc(order, root);
    assert RootMap(all) == rootOf[n.id := root];
    assert Roots(all) == if root in groups then order else order + [root];
    forall r ensures SectionsOf(all, r) == Group(groups[root := Group(groups, root) + [n]], r) {
      assert SectionsOf(all, r) == SectionsOf(nodes, r) + (if root == r then [n] else []);
    }
  }

  /** generation_inputs: groups the nodes by root, in order of first appearance. */
  method GenerationInputs(nodes: seq<Node>) returns (requests: seq<seq<Node>>)
    requires Rooted(nodes)
    ensures requests == Requests(nodes)
  {
    var rootOf: map<NodeId, NodeId> := map[];
    var groups: map<NodeId, seq<Node>> := map[];
    var order: seq<NodeId> := [];
    for i := 0 to |nodes|
      invariant Grouped(nodes[..i], rootOf, groups, order)
    {
      var n := nodes[i];
      RootedPrefix(nodes, i + 1);
      assert nodes[..i + 1] == nodes[..i] + [n];
      KnownParent(nodes[..i], n);
      var root := if n.parent.Some? then rootOf[n.parent.value] else n.id;
      GroupedGrow(nodes[..i], n, rootOf, groups, order, root);
      rootOf := rootOf[n.id := root];
      if root !in groups {
        order := order + [root];
      }
      groups := groups[root := Group(groups, root) + [n]];
    }
    assert nodes[..|nodes|] == nodes;
    forall k | 0 <= k < |order| ensures order[k] in groups {
      assert order[k] in Elements(order);
    }
    requests := seq(|order|, k requires 0 <= k < |order| => groups[order[k]]);
    assert requests == Requests(nodes);
  }

  // ---------------------------------------------------------------- provider output

  /** The elements before i, by id. */
  ghost predicate Seen(els: seq<Generated>, i: nat, seen: map<ElementId, Generated>)
    requires i <= |els|
  {
    && (forall j :: 0 <= j < i ==> els[j].id in seen && seen[els[j].id] == els[j])
    && (forall id :: id in seen ==> exists j :: 0 <= j < i && els[j].id == id)
  }

  ghost predicate IndexedById(sections: seq<Node>, byId: map<NodeId, Node>) {
    && byId.Keys == Ids(sections)
    && forall k :: 0 <= k < |sections| ==> sections[k].id in byId && byId[sections[k].id] == sections[k]
  }

  lemma {:induction false} ByMembers(els: seq<Generated>, s: NodeId, g: Generated)
    ensures g in By(els, s) <==> g in els && g.source == s
  {
    if els != [] {
      var k := |els| - 1;
      assert els == els[..k] + [els[k]];
      ByMembers(els[..k], s, g);
    }
  }

  /** Looking an id up among all earlier elements is looking it up in the section, because an id names
      its section. */
  lemma SeenBySection(els: seq<Generated>, i: nat, seen: map<ElementId, Generated>, s: NodeId, id: ElementId)
    requires i <= |els| && Seen(els, i, seen)
    ensures id in seen && seen[id].source == s <==> exists j :: 0 <= j < |By(els[..i], s)| && By(els[..i], s)[j].id == id
  {
    var mine := By(els[..i], s);
    if id in seen && seen[id].source == s {
      var j :| 0 <= j < i && els[j].id == id;
      assert els[..i][j] == els[j];
      ByMembers(els[..i], s, els[j]);
      var m :| 0 <= m < |mine| && mine[m] == els[j];
      assert mine[m].id == id;
    }
    if exists j :: 0 <= j < |mine| && mine[j].id == id {
      var j :| 0 <= j < |mine| && mine[j].id == id;
      ByMembers(els[..i], s, mine[j]);
      var m :| 0 <= m < i && els[..i][m] == mine[j];
      assert els[m] == mine[j];
    }
  }

  ghost predicate OwnIds(draft: nat, els: seq<Generated>) {
    forall j :: 0 <= j < |els| ==> els[j].id == Derived(draft, els[j].source, els[j].key)
  }

  /** An earlier element with the id of an element of this section belongs to this section. */
  lemma SeenIsOwn(draft: nat, els: seq<Generated>, i: nat, seen: map<ElementId, Generated>, id: ElementId)
    requires i <= |els| && Seen(els, i, seen) && OwnIds(draft, els[..i]) && id in seen
    ensures id == Derived(draft, seen[id].source, seen[id].key)
  {
    var j :| 0 <= j < i && els[j].id == id;
    assert els[..i][j] == els[j];
  }

  /** The clause on parents: the section's own anchor, or an earlier element of the section. */
  ghost predicate ParentOk(draft: nat, section: Node, g: Generated, earlier: seq<Generated>) {
    if g.parent == Anchor(draft, section.id) then AnchorFits(g.subtopic, section.kind)
    else g.subtopic && exists i :: 0 <= i < |earlier| && earlier[i].id == g.parent
  }

  method CheckParent(draft: nat, byId: map<NodeId, Node>, source: Node, els: seq<Generated>, i: nat, seen: map<ElementId, Generated>)
    returns (ok: bool)
    requires source.id in byId && byId[source.id] == source && (forall s :: s in byId ==> byId[s].id == s)
    requires i < |els| && els[i].source == source.id && Seen(els, i, seen) && OwnIds(draft, els[..i])
    ensures ok <==> ParentOk(draft, source, els[i], By(els[..i], source.id))
  {
    var g := els[i];
    var anchors := map s | s in byId :: Anchor(draft, s) := byId[s];
    SeenBySection(els, i, seen, source.id, g.parent);
    if g.parent in anchors {
      var anchor := anchors[g.parent];
      ok := anchor.id == source.id
            && !(!g.subtopic && (anchor.kind == Topic || anchor.kind == Subtopic))
            && !(g.subtopic && !(anchor.kind == Topic || anchor.kind == Subtopic));
      if g.parent in seen {
        SeenIsOwn(draft, els, i, seen, g.parent);
      }
    } else {
      ok := g.parent in seen && seen[g.parent].source == source.id && g.subtopic;
    }
  }

  /** The checks on element i. */
  method CheckGenerated(draft: nat, ghost sections: seq<Node>, byId: map<NodeId, Node>, els: seq<Generated>, i: nat, seen: map<ElementId, Generated>)
    returns (ok: bool)
    requires DistinctNodes(sections) && IndexedById(sections, byId) && i < |els| && Seen(els, i, seen) && OwnIds(draft, els[..i])
    ensures ok <==> AcceptedAt(draft, sections, els, i)
    ensures ok ==> els[i].id == Derived(draft, els[i].source, els[i].key) && els[i].id !in seen
  {
    var g := els[i];
    if g.source !in byId {
      assert forall k :: 0 <= k < |sections| ==> sections[k].id != g.source;
      return false;
    }
    var source := byId[g.source];
    ghost var k := IndexOfId(sections, g.source);
    assert AcceptedAt(draft, sections, els, i) <==> ElementOk(draft, source, g, By(els[..i], g.source));
    if g.id != Derived(draft, source.id, g.key) {
      return false;
    }
    SeenBySection(els, i, seen, g.source, g.id);
    if g.id in seen {
      SeenIsOwn(draft, els, i, seen, g.id);
      return false;
    }
    if g.key == EXTRACTED_KEY || Blank(g.title) || g.sources != [source.source] {
      return false;
    }
    forall s | s in byId ensures byId[s].id == s {
      var m := IndexOfId(sections, s);
    }
    ok := CheckParent(draft, byId, source, els, i, seen);
  }

  /** validate_provider_output, on a parsed output. */
  method ValidateProviderOutput(draft: nat, sections: seq<Node>, els: seq<Generated>) returns (ok: bool)
    requires DistinctNodes(sections)
    ensures ok <==> Accepts(draft, sections, els)
  {
    if |els| > MAX_OUTPUT {
      return false;
    }
    var byId := IndexSections(sections);
    var seen: map<ElementId, Generated> := map[];
    for i := 0 to |els|
      invariant Seen(els, i, seen) && OwnIds(draft, els[..i])
      invariant forall j :: 0 <= j < i ==> AcceptedAt(draft, sections, els, j)
    {
      ok := CheckGenerated(draft, sections, byId, els, i, seen);
      if !ok {
        return;
      }
      SeenSnoc(draft, els, i, seen);
      seen := seen[els[i].id := els[i]];
    }
    ok := true;
  }

  lemma SeenSnoc(draft: nat, els: seq<Generated>, i: nat, seen: map<ElementId, Generated>)
    requires i < |els| && Seen(els, i, seen) && OwnIds(draft, els[..i])
    requires els[i].id !in seen && els[i].id == Derived(draft, els[i].source, els[i].key)
    ensures Seen(els, i + 1, seen[els[i].id := els[i]]) && OwnIds(draft, els[..i + 1])
  {
    assert els[..i + 1] == els[..i] + [els[i]];
  }

  method IndexSections(sections: seq<Node>) returns (byId: map<NodeId, Node>)
    requires DistinctNodes(sections)
    ensures IndexedById(sections, byId)
  {
    byId := map[];
    for i := 0 to |sections|
      invariant byId.Keys == Ids(sections[..i])
      invariant forall k :: 0 <= k < i ==> sections[k].id in byId && byId[sections[k].id] == sections[k]
    {
      IdsSnoc(sections[..i + 1]);
      assert sections[..i + 1][..i] == sections[..i];
      byId := byId[sections[i].id := sections[i]];
    }
    assert sections[..|sections|] == sections;
  }

  // ---------------------------------------------------------------- assembly

  /** The generated elements by section, in order. */
  ghost predicate BySection(generated: map<NodeId, seq<Generated>>, els: seq<Generated>) {
    forall s :: By(els, s) == if s in generated then generated[s] else []
  }

  method AddOutput(generated: map<NodeId, seq<Generated>>, ghost before: seq<Generated>, output: seq<Generated>)
    returns (more: map<NodeId, seq<Generated>>)
    requires BySection(generated, before)
    ensures BySection(more, before + output)
  {
    more := generated;
    assert before + output[..0] == before;
    for i := 0 to |output|
      invariant BySection(more, before + output[..i])
    {
      var g := output[i];
      assert before + output[..i + 1] == (before + output[..i]) + [g];
      forall s ensures By(before + output[..i + 1], s) == if g.source == s then By(before + output[..i], s) + [g] else By(before + output[..i], s) {
        BySnoc(before + output[..i], g, s);
      }
      more := more[g.source := (if g.source in more then more[g.source] else []) + [g]];
    }
    assert output[..|output|] == output;
  }

  /** The loop over requests and outputs. */
  method CollectOutputs(draft: nat, ghost nodes: seq<Node>, requests: seq<seq<Node>>, outputs: seq<seq<Generated>>)
    returns (ok: bool, generated: map<NodeId, seq<Generated>>)
    requires Rooted(nodes) && requests == Requests(nodes) && |outputs| == |requests|
    ensures ok <==> AllAccepted(draft, requests, outputs)
    ensures ok ==> BySection(generated, Flat(outputs))
  {
    generated := map[];
    for r := 0 to |outputs|
      invariant forall q :: 0 <= q < r ==> Accepts(draft, requests[q], outputs[q])
      invariant BySection(generated, Flat(outputs[..r]))
    {
      RequestIs(nodes, r);
      ok := ValidateProviderOutput(draft, requests[r], outputs[r]);
      if !ok {
        return;
      }
      generated := AddOutput(generated, Flat(outputs[..r]), outputs[r]);
      assert outputs[..r + 1][..r] == outputs[..r];
    }
    assert outputs[..|outputs|] == outputs;
    ok := true;
  }

  /** The loop over the generated elements of one section. */
  method AddMade(n: Node, gs: seq<Generated>, start: seq<Element>) returns (elements: seq<Element>)
    ensures elements == start + MadeAll(n, gs, |start|)
  {
    elements := start;
    ghost var made := MadeAll(n, gs, |start|);
    for i := 0 to |gs|
      invariant elements == start + made[..i]
    {
      elements := elements + [Made(n, gs[i], |elements| + 1)];
    }
  }

  /** The loop over sections. */
  method BuildElements(draft: nat, nodes: seq<Node>, generated: map<NodeId, seq<Generated>>, ghost els: seq<Generated>) returns (elements: seq<Element>)
    requires BySection(generated, els)
    ensures elements == Build(draft, nodes, els)
  {
    elements := [];
    for i := 0 to |nodes|
      invariant elements == Build(draft, nodes[..i], els)
    {
      var n := nodes[i];
      assert nodes[..i + 1][..i] == nodes[..i];
      var gs := if n.id in generated then generated[n.id] else [];
      assert gs == By(els, n.id);
      elements := elements + [Extract(draft, n, |elements| + 1)];
      elements := AddMade(n, gs, elements);
    }
    assert nodes[..|nodes|] == nodes;
  }

  /** assemble_draft. */
  method AssembleDraft(draft: nat, meta: Meta, a: Artifact, outputs: seq<seq<Generated>>) returns (r: Result<Draft, ()>)
    requires Rooted(a.extraction.nodes)
    ensures r == Assemble(draft, meta, a, outputs)
  {
    var requests := GenerationInputs(a.extraction.nodes);
    if |outputs| != |requests| {
      return Err(());
    }
    var accepted, generated := CollectOutputs(draft, a.extraction.nodes, requests, outputs);
    if !accepted {
      return Err(());
    }
    var elements := BuildElements(draft, a.extraction.nodes, generated, Flat(outputs));
    var warnings := WarningsFor(a, elements);
    var d := Draft(draft, a.extraction.source, meta, elements, a.extraction.unclassified, warnings, warnings == []);
    var valid := ValidateHierarchy(d);
    r := if valid then Ok(d) else Err(());
  }

  // ---------------------------------------------------------------- the draft's own validator

  ghost predicate Met(es: seq<Element>, i: nat, seen: map<ElementId, Element>)
    requires i <= |es|
  {
    && (forall j :: 0 <= j < i ==> es[j].id in seen && seen[es[j].id] == es[j])
    && (forall id :: id in seen ==> exists j :: 0 <= j < i && es[j].id == id)
  }

  method CheckElement(draft: nat, pageCount: nat, es: seq<Element>, i: nat, seen: map<ElementId, Element>) returns (ok: bool)
    requires i < |es| && Met(es, i, seen)
    ensures ok <==> ElementGood(draft, pageCount, es, i)
  {
    var e := es[i];
    var nested := e.parent.Some? ==> e.parent.value in seen && MayContain(seen[e.parent.value].kind, e.kind);
    assert nested <==> (e.parent.Some? ==> exists j :: 0 <= j < i && es[j].id == e.parent.value && MayContain(es[j].kind, e.kind));
    ok := e.id !in seen && e.order == i + 1 && !Blank(e.title)
          && !(e.sourceNode.None? && e.origin != Human)
          && !(e.sourceNode.Some? && e.id != Derived(draft, e.sourceNode.value, e.key))
          && nested
          && forall j :: 0 <= j < |e.sources| ==> e.sources[j].page <= pageCount;
  }

  /** validate_hierarchy. */
  method ValidateHierarchy(d: Draft) returns (ok: bool)
    ensures ok <==> ValidDraft(d)
  {
    var seen: map<ElementId, Element> := map[];
    for i := 0 to |d.elements|
      invariant Met(d.elements, i, seen)
      invariant forall j :: 0 <= j < i ==> ElementGood(d.id, d.source.pageCount, d.elements, j)
    {
      ok := CheckElement(d.id, d.source.pageCount, d.elements, i, seen);
      if !ok {
        return;
      }
      seen := seen[d.elements[i].id := d.elements[i]];
    }
    DistinctIffCount(d.warnings);
    ok := |Elements(d.warnings)| == |d.warnings| && d.complete == (d.warnings == []);
  }

  // ---------------------------------------------------------------- the re-check

  method CheckProven(draft: nat, ghost nodes: seq<Node>, byId: map<NodeId, Node>, e: Element) returns (ok: bool)
    requires DistinctNodes(nodes) && IndexedById(nodes, byId)
    ensures ok <==> Proven(draft, nodes, e)
  {
    if e.origin == Human {
      return true;
    }
    if e.sourceNode.None? || e.sourceNode.value !in byId {
      forall k | 0 <= k < |nodes| ensures !Provenance(draft, nodes[k], e) {
        assert nodes[k] in nodes;
      }
      return false;
    }
    var n := byId[e.sourceNode.value];
    ghost var k := IndexOfId(nodes, e.sourceNode.value);
    assert Proven(draft, nodes, e) <==> Provenance(draft, n, e);
    if e.sources != [n.source] {
      return false;
    }
    ok := !(e.origin == FromSource
            && (e.id != Anchor(draft, n.id) || e.title != n.title || e.kind != n.kind
                || e.parent != if n.parent.Some? then Some(Anchor(draft, n.parent.value)) else None));
  }

  method CheckProvenance(draft: nat, nodes: seq<Node>, es: seq<Element>) returns (ok: bool)
    requires DistinctNodes(nodes)
    ensures ok <==> forall i :: 0 <= i < |es| ==> Proven(draft, nodes, es[i])
  {
    var byId := IndexSections(nodes);
    for i := 0 to |es|
      invariant forall j :: 0 <= j < i ==> Proven(draft, nodes, es[j])
    {
      ok := CheckProven(draft, nodes, byId, es[i]);
      if !ok {
        return;
      }
    }
    ok := true;
  }

  /** The loop that collects one output for each request from the draft. */
  method RegroupElements(nodes: seq<Node>, es: seq<Element>) returns (r: Option<seq<seq<Generated>>>)
    requires Rooted(nodes)
    ensures r.Some? ==> RegroupsTo(nodes, es, r.value)
    ensures r.None? ==> forall outputs :: !RegroupsTo(nodes, es, outputs)
  {
    var requests := GenerationInputs(nodes);
    var outputs: seq<seq<Generated>> := [];
    for i := 0 to |requests|
      invariant |outputs| == i
      invariant forall j :: 0 <= j < i ==> TakeBack(es, Ids(requests[j])) == Some(outputs[j])
    {
      var taken := TakeBack(es, Ids(requests[i]));
      if taken.None? {
        forall other ensures !RegroupsTo(nodes, es, other) {
          assert |other| == |requests| ==> TakeBack(es, Ids(requests[i])) != Some(other[i]);
        }
        return None;
      }
      outputs := outputs + [taken.value];
    }
    r := Some(outputs);
  }

  lemma RegroupsToOne(nodes: seq<Node>, es: seq<Element>, a: seq<seq<Generated>>, b: seq<seq<Generated>>)
    requires RegroupsTo(nodes, es, a) && RegroupsTo(nodes, es, b)
    ensures a == b
  {
    forall r | 0 <= r < |a| ensures a[r] == b[r] {
      assert Some(a[r]) == Some(b[r]);
    }
  }

  /** validate_draft_source: with RecheckAcceptsExactlyAssembled, it accepts exactly the drafts that
      some provider outputs assemble to. */
  method ValidateDraftSource(d: Draft, a: Artifact) returns (ok: bool)
    requires Rooted(a.extraction.nodes)
    ensures ok <==> Recheck(d, a)
  {
    var nodes := a.extraction.nodes;
    var anchors := AnchorSources(d.elements);
    if d.source != a.extraction.source || d.unclassified != a.extraction.unclassified {
      return false;
    }
    if anchors != seq(|nodes|, i requires 0 <= i < |nodes| => Some(nodes[i].id)) {
      assert !AnchorsListed(nodes, d.elements);
      return false;
    }
    assert AnchorsListed(nodes, d.elements);
    var proven := CheckProvenance(d.id, nodes, d.elements);
    if !proven {
      return false;
    }
    var outputs := RegroupElements(nodes, d.elements);
    if outputs.None? {
      return false;
    }
    var expected := AssembleDraft(d.id, d.meta, a, outputs.value);
    ok := expected == Ok(d);
    if Recheck(d, a) {
      ghost var other :| RegroupsTo(nodes, d.elements, other) && Assemble(d.id, d.meta, a, other) == Ok(d);
      RegroupsToOne(nodes, d.elements, outputs.value, other);
    }
  }
}
