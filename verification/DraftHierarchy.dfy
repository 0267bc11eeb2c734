/** Accepted outputs always make a draft that passes its own validator
    (packages/curriculum/drafts.py:67-118, packages/domain/curriculum.py:79-105). */
module DraftHierarchy {
  import opened Support
  import opened Extraction
  import opened DraftModel
  import opened DraftRoundTrip

  // ---------------------------------------------------------------- what the extraction provides

  ghost predicate Sections(nodes: seq<Node>, pageCount: nat) {
    && DistinctNodes(nodes)
    && (forall i :: 0 <= i < |nodes| ==> Nests(nodes, i))
    && (forall i :: 0 <= i < |nodes| ==> nodes[i].source.page <= pageCount)
  }

  lemma TraceableSections(x: Extracted)
    requires Traceable(x)
    ensures Sections(x.nodes, x.source.pageCount) && Rooted(x.nodes)
  {
    forall i | 0 <= i < |x.nodes| ensures Nests(x.nodes, i) && HasParent(x.nodes, i) && x.nodes[i].source.page <= x.source.pageCount {
      assert NodeGood(x, i);
      assert Nests(x.nodes, i) && NodeTraceable(x, i);
    }
    forall i, j | 0 <= i < j < |x.nodes| ensures x.nodes[i].id != x.nodes[j].id {
      assert NodeGood(x, j);
      assert NodeTraceable(x, j);
    }
  }

  lemma SectionsPrefix(nodes: seq<Node>, pageCount: nat, k: nat)
    requires Sections(nodes, pageCount) && k <= |nodes|
    ensures Sections(nodes[..k], pageCount)
  {
    forall i | 0 <= i < k ensures Nests(nodes[..k], i) {
      assert Nests(nodes, i);
      if nodes[i].parent.Some? {
        var j :| 0 <= j < i && nodes[j].id == nodes[i].parent.value && MayContain(nodes[j].kind, nodes[i].kind);
        assert nodes[..k][j] == nodes[j];
      }
    }
  }

  // ---------------------------------------------------------------- growing a good list

  lemma GoodSnoc(draft: nat, pageCount: nat, es: seq<Element>, e: Element)
    requires AllGood(draft, pageCount, es) && ElementGood(draft, pageCount, es + [e], |es|)
    ensures AllGood(draft, pageCount, es + [e])
  {
    var all := es + [e];
    forall i | 0 <= i < |es| ensures ElementGood(draft, pageCount, all, i) {
      assert ElementGood(draft, pageCount, es, i);
      assert all[i] == es[i];
      if es[i].parent.Some? {
        var j :| 0 <= j < i && es[j].id == es[i].parent.value && MayContain(es[j].kind, es[i].kind);
        assert all[j] == es[j];
      }
    }
  }

  /** The element standing for a section. */
  ghost predicate Anchored(draft: nat, es: seq<Element>, n: Node) {
    exists i :: 0 <= i < |es| && es[i].id == Anchor(draft, n.id) && es[i].kind == n.kind && es[i].title == n.title
  }

  ghost predicate ComesFrom(es: seq<Element>, ids: set<NodeId>) {
    forall i :: 0 <= i < |es| ==> es[i].sourceNode.Some? && es[i].sourceNode.value in ids
  }

  /** A good list to which the elements of section n may be added. */
  ghost predicate Ready(draft: nat, pageCount: nat, es: seq<Element>, n: Node) {
    && AllGood(draft, pageCount, es)
    && (forall i :: 0 <= i < |es| ==> es[i].sourceNode.Some? && es[i].sourceNode.value != n.id)
  }

  lemma ForeignIds(draft: nat, pageCount: nat, es: seq<Element>, n: Node, key: string)
    requires Ready(draft, pageCount, es, n)
    ensures forall i :: 0 <= i < |es| ==> es[i].id != Derived(draft, n.id, key)
  {
    forall i | 0 <= i < |es| ensures es[i].id != Derived(draft, n.id, key) {
      assert ElementGood(draft, pageCount, es, i);
    }
  }

  lemma AnchorIsGood(draft: nat, pageCount: nat, es: seq<Element>, n: Node)
    requires Ready(draft, pageCount, es, n) && !Blank(n.title) && n.source.page <= pageCount
    requires ParentIn(draft, es, n)
    ensures AllGood(draft, pageCount, es + [Extract(draft, n, |es| + 1)])
  {
    var e := Extract(draft, n, |es| + 1);
    var all := es + [e];
    ForeignIds(draft, pageCount, es, n, EXTRACTED_KEY);
    if n.parent.Some? {
      var i :| 0 <= i < |es| && es[i].id == Anchor(draft, n.parent.value) && MayContain(es[i].kind, n.kind);
      assert all[i] == es[i];
    }
    GoodSnoc(draft, pageCount, es, e);
  }

  /** The elements generated for a section are good once its anchor is in place. */
  lemma {:induction false} MadeAreGood(draft: nat, pageCount: nat, es: seq<Element>, n: Node, gs: seq<Generated>)
    requires Ready(draft, pageCount, es, n) && n.source.page <= pageCount
    requires AllGood(draft, pageCount, es + [Extract(draft, n, |es| + 1)])
    requires SectionOk(draft, n, gs)
    ensures AllGood(draft, pageCount, es + [Extract(draft, n, |es| + 1)] + MadeAll(n, gs, |es| + 1))
  {
    var base := es + [Extract(draft, n, |es| + 1)];
    if gs == [] {
      assert base + MadeAll(n, gs, |es| + 1) == base;
    } else {
      var k := |gs| - 1;
      var g := gs[k];
      var before := base + MadeAll(n, gs[..k], |es| + 1);
      assert gs == gs[..k] + [g];
      SectionOkSnoc(draft, n, gs[..k], g);
      MadeAreGood(draft, pageCount, es, n, gs[..k]);
      var e := Made(n, g, |base| + k + 1);
      assert base + MadeAll(n, gs, |es| + 1) == before + [e];
      NextIsGood(draft, pageCount, es, n, gs[..k], g);
      GoodSnoc(draft, pageCount, before, e);
    }
  }

  /** The list a section's next element is added to. */
  function SoFar(draft: nat, es: seq<Element>, n: Node, earlier: seq<Generated>): seq<Element> {
    es + [Extract(draft, n, |es| + 1)] + MadeAll(n, earlier, |es| + 1)
  }

  lemma NextIsDistinct(draft: nat, pageCount: nat, es: seq<Element>, n: Node, earlier: seq<Generated>, g: Generated)
    requires Ready(draft, pageCount, es, n) && ElementOk(draft, n, g, earlier)
    ensures var before := SoFar(draft, es, n, earlier);
            forall j :: 0 <= j < |before| ==> before[j].id != g.id
  {
    ForeignIds(draft, pageCount, es, n, g.key);
    var before := SoFar(draft, es, n, earlier);
    forall j | 0 <= j < |before| ensures before[j].id != g.id {
    }
  }

  lemma NextHasParent(draft: nat, es: seq<Element>, n: Node, earlier: seq<Generated>, g: Generated)
    requires ElementOk(draft, n, g, earlier)
    ensures var before := SoFar(draft, es, n, earlier);
            exists j :: 0 <= j < |before| && before[j].id == g.parent && MayContain(before[j].kind, KindOf(g))
  {
    var before := SoFar(draft, es, n, earlier);
    if g.parent == Anchor(draft, n.id) {
      assert before[|es|].id == g.parent && MayContain(before[|es|].kind, KindOf(g));
    } else {
      var i :| 0 <= i < |earlier| && earlier[i].id == g.parent;
      assert before[|es| + 1 + i].id == g.parent && MayContain(before[|es| + 1 + i].kind, KindOf(g));
    }
  }

  lemma NextIsGood(draft: nat, pageCount: nat, es: seq<Element>, n: Node, earlier: seq<Generated>, g: Generated)
    requires Ready(draft, pageCount, es, n) && n.source.page <= pageCount && ElementOk(draft, n, g, earlier)
    ensures var before := SoFar(draft, es, n, earlier);
            ElementGood(draft, pageCount, before + [Made(n, g, |before| + 1)], |before|)
  {
    var before := SoFar(draft, es, n, earlier);
    var all := before + [Made(n, g, |before| + 1)];
    NextIsDistinct(draft, pageCount, es, n, earlier, g);
    NextHasParent(draft, es, n, earlier, g);
    var j :| 0 <= j < |before| && before[j].id == g.parent && MayContain(before[j].kind, KindOf(g));
    assert all[j] == before[j];
  }

  // ---------------------------------------------------------------- the whole draft

  lemma {:induction false} BuildComesFrom(draft: nat, nodes: seq<Node>, els: seq<Generated>)
    ensures ComesFrom(Build(draft, nodes, els), Ids(nodes))
  {
    if nodes != [] {
      BuildComesFrom(draft, nodes[..|nodes| - 1], els);
      IdsSnoc(nodes);
    }
  }

  lemma AnchoredMore(draft: nat, es: seq<Element>, more: seq<Element>, n: Node)
    requires Anchored(draft, es, n)
    ensures Anchored(draft, es + more, n)
  {
    var j :| 0 <= j < |es| && es[j].id == Anchor(draft, n.id) && es[j].kind == n.kind && es[j].title == n.title;
    assert (es + more)[j] == es[j];
  }

  lemma {:induction false} BuildAnchors(draft: nat, nodes: seq<Node>, els: seq<Generated>, i: nat)
    requires i < |nodes|
    ensures Anchored(draft, Build(draft, nodes, els), nodes[i])
  {
    var k := |nodes| - 1;
    var before, all := Build(draft, nodes[..k], els), Build(draft, nodes, els);
    if i == k {
      assert all[|before|] == Extract(draft, nodes[k], |before| + 1);
    } else {
      var anchor, made := [Extract(draft, nodes[k], |before| + 1)], MadeAll(nodes[k], By(els, nodes[k].id), |before| + 1);
      BuildAnchors(draft, nodes[..k], els, i);
      AnchoredMore(draft, before, anchor, nodes[i]);
      AnchoredMore(draft, before + anchor, made, nodes[i]);
    }
  }

  ghost predicate Titled(nodes: seq<Node>) {
    forall i :: 0 <= i < |nodes| ==> !Blank(nodes[i].title)
  }

  ghost predicate ParentIn(draft: nat, es: seq<Element>, n: Node) {
    n.parent.Some? ==> exists i :: 0 <= i < |es| && es[i].id == Anchor(draft, n.parent.value) && MayContain(es[i].kind, n.kind)
  }

  /** The parent of the last section has been built already. */
  lemma ParentAnchored(draft: nat, nodes: seq<Node>, els: seq<Generated>, es: seq<Element>)
    requires nodes != [] && Nests(nodes, |nodes| - 1) && es == Build(draft, nodes[..|nodes| - 1], els)
    ensures ParentIn(draft, es, nodes[|nodes| - 1])
  {
    var k := |nodes| - 1;
    if nodes[k].parent.Some? {
      var j :| 0 <= j < k && nodes[j].id == nodes[k].parent.value && MayContain(nodes[j].kind, nodes[k].kind);
      BuildAnchors(draft, nodes[..k], els, j);
      assert Anchored(draft, es, nodes[j]);
    }
  }

  /** One more section, with its elements. */
  lemma SectionIsGood(draft: nat, pageCount: nat, nodes: seq<Node>, els: seq<Generated>, before: seq<Element>)
    requires Sections(nodes, pageCount) && Titled(nodes) && AllSectionsOk(draft, nodes, els) && nodes != []
    requires before == Build(draft, nodes[..|nodes| - 1], els) && AllGood(draft, pageCount, before)
    ensures AllGood(draft, pageCount, Build(draft, nodes, els))
  {
    var k := |nodes| - 1;
    var front, n := nodes[..k], nodes[k];
    BuildComesFrom(draft, front, els);
    IdsSnoc(nodes);
    assert Ready(draft, pageCount, before, n);
    ParentAnchored(draft, nodes, els, before);
    AnchorIsGood(draft, pageCount, before, n);
    assert SectionOk(draft, n, By(els, n.id));
    MadeAreGood(draft, pageCount, before, n, By(els, n.id));
  }

  lemma {:induction false} BuildIsGood(draft: nat, pageCount: nat, nodes: seq<Node>, els: seq<Generated>)
    requires Sections(nodes, pageCount) && Titled(nodes) && AllSectionsOk(draft, nodes, els)
    ensures AllGood(draft, pageCount, Build(draft, nodes, els))
  {
    if nodes != [] {
      var k := |nodes| - 1;
      SectionsPrefix(nodes, pageCount, k);
      assert AllSectionsOk(draft, nodes[..k], els) by {
        forall i | 0 <= i < k ensures SectionOk(draft, nodes[..k][i], By(els, nodes[..k][i].id)) {
          assert SectionOk(draft, nodes[i], By(els, nodes[i].id));
        }
      }
      BuildIsGood(draft, pageCount, nodes[..k], els);
      SectionIsGood(draft, pageCount, nodes, els, Build(draft, nodes[..k], els));
    }
  }

  lemma WarningsDistinct(a: Artifact, elements: seq<Element>)
    ensures Distinct(WarningsFor(a, elements))
  {
  }

  // ---------------------------------------------------------------- many outputs as one

  lemma {:induction false} ByAbsent(els: seq<Generated>, s: NodeId)
    requires forall i :: 0 <= i < |els| ==> els[i].source != s
    ensures By(els, s) == []
  {
    if els != [] {
      ByAbsent(els[..|els| - 1], s);
    }
  }

  ghost predicate EachIn(requests: seq<seq<Node>>, outputs: seq<seq<Generated>>) {
    |outputs| == |requests| && forall r :: 0 <= r < |outputs| ==> SourcesIn(requests[r], outputs[r])
  }

  lemma OtherOutput(nodes: seq<Node>, outputs: seq<seq<Generated>>, q: nat, r: nat, s: NodeId)
    requires Rooted(nodes) && EachIn(Requests(nodes), outputs) && q < |outputs| && r < |outputs| && q != r
    requires s in Ids(Requests(nodes)[r])
    ensures By(outputs[q], s) == []
  {
    assert SourcesIn(Requests(nodes)[q], outputs[q]);
    RequestsPartition(nodes, s, q, r);
    ByAbsent(outputs[q], s);
  }

  lemma {:induction false} FlatBy(outputs: seq<seq<Generated>>, r: int, s: NodeId)
    requires forall q :: 0 <= q < |outputs| && q != r ==> By(outputs[q], s) == []
    ensures By(Flat(outputs), s) == if 0 <= r < |outputs| then By(outputs[r], s) else []
  {
    if outputs != [] {
      var k := |outputs| - 1;
      var front := outputs[..k];
      forall q | 0 <= q < k && q != r ensures By(front[q], s) == [] {
        assert front[q] == outputs[q];
      }
      FlatBy(front, r, s);
      ByConcat(Flat(front), outputs[k], s);
      var a, b := By(Flat(front), s), By(outputs[k], s);
      assert a + [] == a && [] + b == b;
      assert if r == k then a == [] else b == [];
    }
  }

  /** A section's elements come from the output of its own request. */
  lemma SectionByOutput(nodes: seq<Node>, outputs: seq<seq<Generated>>, r: nat, s: NodeId)
    requires Rooted(nodes) && EachIn(Requests(nodes), outputs) && r < |outputs| && s in Ids(Requests(nodes)[r])
    ensures By(Flat(outputs), s) == By(outputs[r], s)
  {
    forall q | 0 <= q < |outputs| && q != r ensures By(outputs[q], s) == [] {
      OtherOutput(nodes, outputs, q, r, s);
    }
    FlatBy(outputs, r, s);
  }

  lemma AcceptedEachIn(draft: nat, nodes: seq<Node>, outputs: seq<seq<Generated>>)
    requires Rooted(nodes) && AllAccepted(draft, Requests(nodes), outputs)
    ensures EachIn(Requests(nodes), outputs)
    ensures forall r :: 0 <= r < |outputs| ==> AllSectionsOk(draft, Requests(nodes)[r], outputs[r])
  {
    forall r | 0 <= r < |outputs|
      ensures SourcesIn(Requests(nodes)[r], outputs[r]) && AllSectionsOk(draft, Requests(nodes)[r], outputs[r])
    {
      assert Accepts(draft, Requests(nodes)[r], outputs[r]);
      RequestIs(nodes, r);
      AcceptedBySection(draft, Requests(nodes)[r], outputs[r]);
    }
  }

  lemma {:induction false} KeptNode(nodes: seq<Node>, ids: set<NodeId>, n: Node)
    requires n in KeepNodes(nodes, ids)
    ensures n in nodes
  {
    if nodes != [] {
      var k := |nodes| - 1;
      if n in KeepNodes(nodes[..k], ids) {
        KeptNode(nodes[..k], ids, n);
      }
    }
  }

  lemma AcceptedSections(draft: nat, nodes: seq<Node>, outputs: seq<seq<Generated>>)
    requires Rooted(nodes) && AllAccepted(draft, Requests(nodes), outputs)
    ensures AllSectionsOk(draft, nodes, Flat(outputs))
  {
    AcceptedEachIn(draft, nodes, outputs);
    forall k | 0 <= k < |nodes| ensures SectionOk(draft, nodes[k], By(Flat(outputs), nodes[k].id)) {
      var s := nodes[k].id;
      assert nodes[k] in nodes && s in Ids(nodes);
      var r := RequestFor(nodes, s);
      SectionByOutput(nodes, outputs, r, s);
      var sections := Requests(nodes)[r];
      var q := IndexOfId(sections, s);
      RequestIs(nodes, r);
      KeptNode(nodes, GroupIds(nodes, Roots(nodes)[r]), sections[q]);
      var i :| 0 <= i < |nodes| && nodes[i] == sections[q];
      assert i == k;
      assert SectionOk(draft, sections[q], By(outputs[r], sections[q].id));
    }
  }

  /** Assembly succeeds exactly when every request has an acceptable output and no section title is
      blank: nothing else can make the draft's own validator refuse it. */
  lemma AssemblyValid(draft: nat, meta: Meta, a: Artifact, outputs: seq<seq<Generated>>)
    requires Traceable(a.extraction)
    ensures Assemble(draft, meta, a, outputs).Ok? <==>
            AllAccepted(draft, Requests(a.extraction.nodes), outputs) && Titled(a.extraction.nodes)
  {
    var nodes := a.extraction.nodes;
    var es := Build(draft, nodes, Flat(outputs));
    TraceableSections(a.extraction);
    WarningsDistinct(a, es);
    if AllAccepted(draft, Requests(nodes), outputs) {
      if Titled(nodes) {
        AcceptedSections(draft, nodes, outputs);
        BuildIsGood(draft, a.extraction.source.pageCount, nodes, Flat(outputs));
      } else {
        var k :| 0 <= k < |nodes| && Blank(nodes[k].title);
        BuildAnchors(draft, nodes, Flat(outputs), k);
        var i :| 0 <= i < |es| && es[i].title == nodes[k].title;
        assert !ElementGood(draft, a.extraction.source.pageCount, es, i);
      }
    }
  }

  /** An element above the topics that nothing hangs from, or no element at all. */
  ghost predicate TopicsMissing(es: seq<Element>) {
    es == [] || exists i :: 0 <= i < |es| && es[i].kind in {Module, Unit, Chapter, Section}
                            && forall j :: 0 <= j < |es| ==> es[j].parent != Some(es[i].id)
  }

  /** An assembled draft carries each warning exactly when there is reason for it, and is complete exactly
      when there is none: all pages have text, no line is left over, and the headings found all lead down to
      topics. */
  lemma CompleteWithoutReasons(draft: nat, meta: Meta, a: Artifact, outputs: seq<seq<Generated>>)
    requires Assemble(draft, meta, a, outputs).Ok?
    ensures var d := Assemble(draft, meta, a, outputs).value;
            && d.id == draft && d.source == a.extraction.source && d.unclassified == a.extraction.unclassified && d.meta == meta
            && (LowTextWarning in d.warnings <==> !a.fullText)
            && (EmptyPages in d.warnings <==> a.emptyPages > 0)
            && (UnclassifiedContent in d.warnings <==> a.extraction.unclassified != [])
            && (NoStructure in d.warnings <==> a.extraction.nodes == [])
            && (MissingTopics in d.warnings <==> TopicsMissing(d.elements))
            && (d.complete <==> a.fullText && a.emptyPages == 0 && a.extraction.unclassified == [] && !TopicsMissing(d.elements))
  {
    hide AllAccepted, ValidDraft, WarningsFor, TopicsMissing, Requests, Flat;
    var d := Assemble(draft, meta, a, outputs).value;
    WarningsMean(a, d.elements);
    if a.extraction.nodes == [] {
      NothingLacksTopics(d.elements);
    }
  }

  lemma NothingLacksTopics(es: seq<Element>)
    ensures es == [] ==> TopicsMissing(es)
  {
  }

  lemma WarningsMean(a: Artifact, es: seq<Element>)
    ensures var ws := WarningsFor(a, es);
            && (LowTextWarning in ws <==> !a.fullText)
            && (EmptyPages in ws <==> a.emptyPages > 0)
            && (UnclassifiedContent in ws <==> a.extraction.unclassified != [])
            && (NoStructure in ws <==> a.extraction.nodes == [])
            && (MissingTopics in ws <==> TopicsMissing(es))
            && (ws == [] <==> a.fullText && a.emptyPages == 0 && a.extraction.unclassified == []
                              && a.extraction.nodes != [] && !TopicsMissing(es))
  {
    LacksAreMissing(es);
    hide LacksTopics, TopicsMissing;
    var low, empty, rest, none, lacking :=
      if !a.fullText then [LowTextWarning] else [], if a.emptyPages > 0 then [EmptyPages] else [],
      if a.extraction.unclassified != [] then [UnclassifiedContent] else [],
      if a.extraction.nodes == [] then [NoStructure] else [], if LacksTopics(es) then [MissingTopics] else [];
    assert WarningsFor(a, es) == low + empty + rest + none + lacking;
    assert forall w :: w in WarningsFor(a, es) <==> w in low || w in empty || w in rest || w in none || w in lacking;
    assert |WarningsFor(a, es)| == |low| + |empty| + |rest| + |none| + |lacking|;
  }

  lemma LacksAreMissing(es: seq<Element>)
    ensures LacksTopics(es) <==> TopicsMissing(es)
  {
    forall i | 0 <= i < |es|
      ensures !(es[i].kind == Topic || es[i].kind == Subtopic) <==> es[i].kind in {Module, Unit, Chapter, Section}
    {
    }
  }

  const TwoBlankLines := [Page(1, [Line("", Plain(false)), Line("", Plain(false))])]

  function OverBlankLines(source: Source): Node {
    Node(NodeId(source, Module, Ref(1, 1, 2), " "), Module, " ", None, 1, Ref(1, 1, 2), Caps, 1.0)
  }

  /** One node over two blank lines has their join, a single blank, as its title. The extraction
      validator takes it, and whatever the providers answer, no draft can be assembled. */
  lemma BlankTitleIsTraceable(source: Source, draft: nat, meta: Meta, a: Artifact, outputs: seq<seq<Generated>>)
    requires source.pageCount == 1
    requires a.extraction == Extracted(source, TwoBlankLines, [OverBlankLines(source)], [], [])
    ensures Traceable(a.extraction) && !Titled(a.extraction.nodes)
    ensures Assemble(draft, meta, a, outputs).Err?
  {
    var x := a.extraction;
    assert x.pages[0].lines[0..2] == x.pages[0].lines;
    assert Join(x.pages[0].lines) == "" + " " + "" by {
      assert x.pages[0].lines[1..] == [Line("", Plain(false))];
    }
    assert NodeGood(x, 0);
    assert Refs(x) == [Ref(1, 1, 2)];
    assert Blank(x.nodes[0].title);
    AssemblyValid(draft, meta, a, outputs);
  }

  /** Besides its place, an element takes from its section how sure the extraction was of it, and says
      whether the source or a provider named it; nothing is filled in. */
  ghost predicate Carries(n: Node, e: Element) {
    && e.sourceNode == Some(n.id) && e.sources == [n.source] && e.confidence == n.confidence
    && e.description.None? && e.outcomes == []
    && (e.origin == FromSource <==> e.key == EXTRACTED_KEY)
    && (e.origin == FromSource || e.origin == FromProvider)
  }

  lemma AnchorCarries(draft: nat, n: Node, order: nat)
    ensures Carries(n, Extract(draft, n, order))
  {
  }

  lemma MadeCarries(draft: nat, n: Node, gs: seq<Generated>, j: nat, order: nat)
    requires SectionOk(draft, n, gs) && j < |gs|
    ensures Carries(n, Made(n, gs[j], order))
  {
    assert ElementOk(draft, n, gs[j], gs[..j]);
  }

  /** Every element of a built draft carries what its section says. */
  lemma {:induction false} BuildCarries(draft: nat, nodes: seq<Node>, els: seq<Generated>, i: nat)
    requires AllSectionsOk(draft, nodes, els) && i < |Build(draft, nodes, els)|
    ensures exists k :: 0 <= k < |nodes| && Carries(nodes[k], Build(draft, nodes, els)[i])
  {
    hide Carries, Extract, Made, SectionOk, By;
    var k := |nodes| - 1;
    var before, n, gs := Build(draft, nodes[..k], els), nodes[k], By(els, nodes[k].id);
    var e := Build(draft, nodes, els)[i];
    if i < |before| {
      forall j | 0 <= j < k ensures SectionOk(draft, nodes[..k][j], By(els, nodes[..k][j].id)) {
        assert SectionOk(draft, nodes[j], By(els, nodes[j].id));
      }
      BuildCarries(draft, nodes[..k], els, i);
      var j :| 0 <= j < k && Carries(nodes[..k][j], before[i]);
      assert Carries(nodes[j], e);
    } else if i == |before| {
      AnchorCarries(draft, n, i + 1);
      assert Carries(nodes[k], e);
    } else {
      assert SectionOk(draft, nodes[k], By(els, nodes[k].id));
      MadeCarries(draft, n, gs, i - |before| - 1, i + 1);
      assert Carries(nodes[k], e);
    }
  }
}
