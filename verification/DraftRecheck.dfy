/** The independent re-check of a stored draft, and exactly which drafts it accepts
    (packages/curriculum/drafts.py:121-157). */
module DraftRecheck {
  import opened Support
  import opened Extraction
  import opened DraftModel
  import opened DraftRoundTrip
  import opened DraftHierarchy

  // ---------------------------------------------------------------- taking elements back out

  const MAX_SOURCES := 32

  /** The element has every field a generated element needs. */
  predicate Convertible(e: Element) {
    (e.kind == Topic || e.kind == Subtopic) && e.parent.Some? && e.sourceNode.Some? && 1 <= |e.sources| <= MAX_SOURCES
  }

  function Convert(e: Element): Generated
    requires Convertible(e)
  {
    Generated(e.id, e.key, e.kind == Subtopic, e.title, e.parent.value, e.sourceNode.value, e.sources)
  }

  predicate TakenBack(e: Element, ids: set<NodeId>) {
    e.origin == FromProvider && e.sourceNode.Some? && e.sourceNode.value in ids
  }

  /** The provider elements of the given sections in draft order, or None if one is not convertible. */
  function TakeBack(es: seq<Element>, ids: set<NodeId>): Option<seq<Generated>> {
    if es == [] then Some([])
    else
      var k := |es| - 1;
      var before := TakeBack(es[..k], ids);
      if !TakenBack(es[k], ids) then before
      else if before.None? || !Convertible(es[k]) then None
      else Some(before.value + [Convert(es[k])])
  }

  lemma {:induction false} TakeBackConcat(a: seq<Element>, b: seq<Element>, ids: set<NodeId>)
    requires TakeBack(a, ids).Some? && TakeBack(b, ids).Some?
    ensures TakeBack(a + b, ids) == Some(TakeBack(a, ids).value + TakeBack(b, ids).value)
  {
    if b == [] {
      assert a + b == a;
      assert TakeBack(a, ids).value + [] == TakeBack(a, ids).value;
    } else {
      var k := |b| - 1;
      assert (a + b)[..|a| + k] == a + b[..k];
      TakeBackConcat(a, b[..k], ids);
      if TakenBack(b[k], ids) {
        var x, y := TakeBack(a, ids).value, TakeBack(b[..k], ids).value;
        assert (x + y) + [Convert(b[k])] == x + (y + [Convert(b[k])]);
      }
    }
  }

  /** An accepted element turned into a draft element can be turned back. */
  lemma ConvertsBack(draft: nat, n: Node, g: Generated, earlier: seq<Generated>, order: nat)
    requires ElementOk(draft, n, g, earlier)
    ensures Convertible(Made(n, g, order)) && Convert(Made(n, g, order)) == g
  {
  }

  lemma {:induction false} TakeBackMade(draft: nat, n: Node, gs: seq<Generated>, start: nat, ids: set<NodeId>)
    requires SectionOk(draft, n, gs)
    ensures TakeBack(MadeAll(n, gs, start), ids) == Some(if n.id in ids then gs else [])
  {
    if gs != [] {
      var k := |gs| - 1;
      var made := MadeAll(n, gs, start);
      assert gs == gs[..k] + [gs[k]];
      SectionOkSnoc(draft, n, gs[..k], gs[k]);
      assert made[..k] == MadeAll(n, gs[..k], start);
      TakeBackMade(draft, n, gs[..k], start, ids);
      ConvertsBack(draft, n, gs[k], gs[..k], start + k + 1);
      assert made[k] == Made(n, gs[k], start + k + 1);
      assert TakenBack(made[k], ids) <==> n.id in ids;
    }
  }

  lemma TakeBackSection(draft: nat, before: seq<Element>, n: Node, gs: seq<Generated>, ids: set<NodeId>)
    requires SectionOk(draft, n, gs) && TakeBack(before, ids).Some?
    requires forall i :: 0 <= i < |gs| ==> gs[i].source == n.id
    ensures TakeBack(SoFar(draft, before, n, gs), ids) == Some(TakeBack(before, ids).value + Keep(gs, ids))
  {
    var anchor, made := [Extract(draft, n, |before| + 1)], MadeAll(n, gs, |before| + 1);
    TakeBackMade(draft, n, gs, |before| + 1, ids);
    assert anchor[..0] == [] && TakeBack(anchor, ids) == Some([]);
    TakeBackConcat(before, anchor, ids);
    TakeBackConcat(before + anchor, made, ids);
    KeepOwn(gs, n.id, ids);
    var x := TakeBack(before, ids).value;
    assert x + [] == x;
  }

  /** The elements taken back out of a built draft are those put in, section by section. */
  lemma {:induction false} TakeBackBuilt(draft: nat, nodes: seq<Node>, els: seq<Generated>, ids: set<NodeId>)
    requires AllSectionsOk(draft, nodes, els)
    ensures TakeBack(Build(draft, nodes, els), ids) == Some(Keep(Regrouped(nodes, els), ids))
  {
    if nodes != [] {
      var k := |nodes| - 1;
      var n, gs := nodes[k], By(els, nodes[k].id);
      TakeBackBuilt(draft, nodes[..k], els, ids);
      assert SectionOk(draft, n, gs);
      BySources(els, n.id);
      TakeBackSection(draft, Build(draft, nodes[..k], els), n, gs, ids);
      KeepConcat(Regrouped(nodes[..k], els), gs, ids);
    }
  }

  // ---------------------------------------------------------------- the re-check

  /** The regrouped outputs, or None if an element cannot be taken back or an output is too long. */
  ghost predicate RegroupsTo(nodes: seq<Node>, es: seq<Element>, outputs: seq<seq<Generated>>) {
    && |outputs| == |Requests(nodes)|
    && forall r :: 0 <= r < |outputs| ==> TakeBack(es, Ids(Requests(nodes)[r])) == Some(outputs[r])
  }

  /** The source nodes of the extracted elements, in order. */
  function AnchorSources(es: seq<Element>): seq<Option<NodeId>> {
    if es == [] then []
    else
      var k := |es| - 1;
      AnchorSources(es[..k]) + (if es[k].origin == FromSource then [es[k].sourceNode] else [])
  }

  ghost predicate AnchorsListed(nodes: seq<Node>, es: seq<Element>) {
    && |AnchorSources(es)| == |nodes|
    && forall i :: 0 <= i < |nodes| ==> AnchorSources(es)[i] == Some(nodes[i].id)
  }

  /** The element is the one its section dictates. */
  ghost predicate Provenance(draft: nat, n: Node, e: Element) {
    && e.sourceNode == Some(n.id) && e.sources == [n.source]
    && (e.origin == FromSource ==>
          && e.id == Anchor(draft, n.id) && e.title == n.title && e.kind == n.kind
          && e.parent == if n.parent.Some? then Some(Anchor(draft, n.parent.value)) else None)
  }

  ghost predicate Proven(draft: nat, nodes: seq<Node>, e: Element) {
    e.origin == Human || exists k :: 0 <= k < |nodes| && Provenance(draft, nodes[k], e)
  }

  /** validate_draft_source. */
  ghost predicate Recheck(d: Draft, a: Artifact) {
    && d.source == a.extraction.source && d.unclassified == a.extraction.unclassified
    && AnchorsListed(a.extraction.nodes, d.elements)
    && (forall i :: 0 <= i < |d.elements| ==> Proven(d.id, a.extraction.nodes, d.elements[i]))
    && exists outputs :: RegroupsTo(a.extraction.nodes, d.elements, outputs) && Assemble(d.id, d.meta, a, outputs) == Ok(d)
  }

  lemma AnchorSourcesConcat(a: seq<Element>, b: seq<Element>)
    requires forall i :: 0 <= i < |b| ==> b[i].origin != FromSource
    ensures AnchorSources(a + b) == AnchorSources(a)
    decreases |b|
  {
    if b == [] {
      assert a + b == a;
    } else {
      var k := |b| - 1;
      assert (a + b)[..|a| + k] == a + b[..k];
      AnchorSourcesConcat(a, b[..k]);
    }
  }

  lemma {:induction false} BuiltAnchors(draft: nat, nodes: seq<Node>, els: seq<Generated>)
    ensures AnchorsListed(nodes, Build(draft, nodes, els))
  {
    if nodes != [] {
      var k := |nodes| - 1;
      var before := Build(draft, nodes[..k], els);
      var anchor := Extract(draft, nodes[k], |before| + 1);
      BuiltAnchors(draft, nodes[..k], els);
      assert (before + [anchor])[..|before|] == before;
      assert AnchorSources(before + [anchor]) == AnchorSources(before) + [Some(nodes[k].id)];
      AnchorSourcesConcat(before + [anchor], MadeAll(nodes[k], By(els, nodes[k].id), |before| + 1));
      assert AnchorSources(Build(draft, nodes, els)) == AnchorSources(before) + [Some(nodes[k].id)];
    }
  }

  lemma BlockProven(draft: nat, before: seq<Element>, n: Node, gs: seq<Generated>, i: nat)
    requires SectionOk(draft, n, gs) && |before| <= i < |before| + 1 + |gs|
    ensures Provenance(draft, n, SoFar(draft, before, n, gs)[i])
  {
    if i > |before| {
      assert ElementOk(draft, n, gs[i - |before| - 1], gs[..i - |before| - 1]);
    }
  }

  lemma {:induction false} BuiltProven(draft: nat, nodes: seq<Node>, els: seq<Generated>, i: nat)
    requires AllSectionsOk(draft, nodes, els) && i < |Build(draft, nodes, els)|
    ensures exists j :: 0 <= j < |nodes| && Provenance(draft, nodes[j], Build(draft, nodes, els)[i])
  {
    var k := |nodes| - 1;
    var n := nodes[k];
    var before, gs := Build(draft, nodes[..k], els), By(els, n.id);
    var e := Build(draft, nodes, els)[i];
    if i < |before| {
      BuiltProven(draft, nodes[..k], els, i);
      var j :| 0 <= j < k && Provenance(draft, nodes[..k][j], e);
      assert Provenance(draft, nodes[j], e);
    } else {
      assert SectionOk(draft, n, gs);
      BlockProven(draft, before, n, gs, i);
      assert Provenance(draft, nodes[k], e);
    }
  }

  /** Regrouping the elements of an assembled draft gives outputs that are accepted again and build the
      same draft. */
  lemma RegroupedOutput(draft: nat, nodes: seq<Node>, outputs: seq<seq<Generated>>, r: nat)
    requires Rooted(nodes) && AllAccepted(draft, Requests(nodes), outputs) && r < |outputs|
    ensures var again := Regrouped(Requests(nodes)[r], outputs[r]);
            && TakeBack(Build(draft, nodes, Flat(outputs)), Ids(Requests(nodes)[r])) == Some(again)
            && Accepts(draft, Requests(nodes)[r], again)
  {
    var sections := Requests(nodes)[r];
    AcceptedSections(draft, nodes, outputs);
    AcceptedEachIn(draft, nodes, outputs);
    TakeBackBuilt(draft, nodes, Flat(outputs), Ids(sections));
    KeepRegrouped(nodes, Flat(outputs), Ids(sections));
    RequestIs(nodes, r);
    forall s | s in Ids(sections) ensures By(Flat(outputs), s) == By(outputs[r], s) {
      SectionByOutput(nodes, outputs, r, s);
    }
    RegroupedAgree(sections, Flat(outputs), outputs[r]);
    assert Accepts(draft, sections, outputs[r]);
    RegroupedAccepted(draft, sections, outputs[r]);
  }

  function RegroupAll(nodes: seq<Node>, outputs: seq<seq<Generated>>): seq<seq<Generated>>
    requires |outputs| == |Requests(nodes)|
  {
    seq(|outputs|, r requires 0 <= r < |outputs| => Regrouped(Requests(nodes)[r], outputs[r]))
  }

  lemma RegroupedBuildsSame(draft: nat, nodes: seq<Node>, outputs: seq<seq<Generated>>)
    requires Rooted(nodes) && AllAccepted(draft, Requests(nodes), outputs)
    ensures AllAccepted(draft, Requests(nodes), RegroupAll(nodes, outputs))
    ensures Build(draft, nodes, Flat(RegroupAll(nodes, outputs))) == Build(draft, nodes, Flat(outputs))
  {
    var again := RegroupAll(nodes, outputs);
    forall r | 0 <= r < |outputs| ensures Accepts(draft, Requests(nodes)[r], again[r]) {
      RegroupedOutput(draft, nodes, outputs, r);
    }
    AcceptedEachIn(draft, nodes, outputs);
    AcceptedEachIn(draft, nodes, again);
    forall s | s in Ids(nodes) ensures By(Flat(again), s) == By(Flat(outputs), s) {
      var r := RequestFor(nodes, s);
      RequestIs(nodes, r);
      SectionByOutput(nodes, outputs, r, s);
      SectionByOutput(nodes, again, r, s);
      RegroupedBy(Requests(nodes)[r], outputs[r], s);
    }
    BuildAgrees(draft, nodes, Flat(again), Flat(outputs));
  }

  /** Round trip: every assembled draft passes the re-check. */
  lemma AssembledPassesRecheck(draft: nat, meta: Meta, a: Artifact, outputs: seq<seq<Generated>>)
    requires Traceable(a.extraction) && Assemble(draft, meta, a, outputs).Ok?
    ensures Recheck(Assemble(draft, meta, a, outputs).value, a)
  {
    var nodes, d := a.extraction.nodes, Assemble(draft, meta, a, outputs).value;
    TraceableSections(a.extraction);
    var again := RegroupAll(nodes, outputs);
    AcceptedSections(draft, nodes, outputs);
    BuiltAnchors(draft, nodes, Flat(outputs));
    forall i | 0 <= i < |d.elements| ensures Proven(d.id, nodes, d.elements[i]) {
      BuiltProven(draft, nodes, Flat(outputs), i);
    }
    RegroupedBuildsSame(draft, nodes, outputs);
    forall r | 0 <= r < |outputs| ensures TakeBack(d.elements, Ids(Requests(nodes)[r])) == Some(again[r]) {
      RegroupedOutput(draft, nodes, outputs, r);
    }
    assert RegroupsTo(nodes, d.elements, again) && Assemble(d.id, d.meta, a, again) == Ok(d);
  }

  /** The re-check accepts a draft if and only if it is what some outputs assemble to. */
  lemma RecheckAcceptsExactlyAssembled(d: Draft, a: Artifact)
    requires Traceable(a.extraction)
    ensures Recheck(d, a) <==> exists outputs :: Assemble(d.id, d.meta, a, outputs) == Ok(d)
  {
    forall outputs | Assemble(d.id, d.meta, a, outputs) == Ok(d) ensures Recheck(d, a) {
      AssembledPassesRecheck(d.id, d.meta, a, outputs);
    }
  }
}
