/** Curriculum drafts: how an extraction is split into requests, which provider outputs are acceptable,
    and what draft they make (packages/curriculum/drafts.py:18-118, packages/domain/curriculum.py:29-105). */
module DraftModel {
  import opened Support
  import opened Extraction

  datatype ElementId = Derived(draft: nat, source: NodeId, key: string) | Foreign(number: nat)

  const EXTRACTED_KEY := "extracted"

  function Anchor(draft: nat, s: NodeId): ElementId {
    Derived(draft, s, EXTRACTED_KEY)
  }

  /** An element proposed by a provider: a topic or a subtopic of one source section. */
  datatype Generated = Generated(id: ElementId, key: string, subtopic: bool, title: string, parent: ElementId, source: NodeId, sources: seq<Ref>)

  datatype Origin = FromSource | FromProvider | Human

  datatype Element = Element(id: ElementId, key: string, kind: Kind, title: string, parent: Option<ElementId>, order: nat,
                             sourceNode: Option<NodeId>, sources: seq<Ref>, origin: Origin, confidence: real,
                             description: Option<string>, outcomes: seq<string>)

  datatype DraftWarning = LowTextWarning | EmptyPages | UnclassifiedContent | NoStructure | MissingTopics

  /** Job, storage reference and versions, which pass through unread. */
  datatype Meta = Meta(job: nat, reference: nat, versions: nat)

  datatype Draft = Draft(id: nat, source: Source, meta: Meta, elements: seq<Element>, unclassified: seq<Ref>,
                         warnings: seq<DraftWarning>, complete: bool)

  /** A validated extraction with the two figures of its summary that drafts read. */
  datatype Artifact = Artifact(extraction: Extracted, fullText: bool, emptyPages: nat)

  const MAX_OUTPUT := 64

  predicate Blank(title: string) {
    forall i :: 0 <= i < |title| ==> title[i] == ' ' || title[i] == '\t' || title[i] == '\n' || title[i] == '\r'
  }

  function KindOf(g: Generated): Kind {
    if g.subtopic then Subtopic else Topic
  }

  // ---------------------------------------------------------------- requests

  /** Every parent is an earlier node, and ids are distinct: true of every traceable extraction. */
  ghost predicate Rooted(nodes: seq<Node>) {
    && (forall i, j :: 0 <= i < j < |nodes| ==> nodes[i].id != nodes[j].id)
    && (forall i :: 0 <= i < |nodes| ==> HasParent(nodes, i))
  }

  ghost predicate HasParent(nodes: seq<Node>, i: nat)
    requires i < |nodes|
  {
    nodes[i].parent.Some? ==> exists j :: 0 <= j < i && nodes[j].id == nodes[i].parent.value
  }

  function RootMap(nodes: seq<Node>): map<NodeId, NodeId> {
    if nodes == [] then map[]
    else
      var k := |nodes| - 1;
      var before, n := RootMap(nodes[..k]), nodes[k];
      before[n.id := if n.parent.Some? && n.parent.value in before then before[n.parent.value] else n.id]
  }

  function RootOf(nodes: seq<Node>): NodeId
    requires nodes != []
  {
    var n := nodes[|nodes| - 1];
    assert n.id in RootMap(nodes);
    RootMap(nodes)[n.id]
  }

  /** The roots, in order. */
  function Roots(nodes: seq<Node>): seq<NodeId> {
    if nodes == [] then []
    else
      var k := |nodes| - 1;
      Roots(nodes[..k]) + (if nodes[k].parent.None? then [nodes[k].id] else [])
  }

  /** The nodes under a root, in order. */
  function SectionsOf(nodes: seq<Node>, root: NodeId): seq<Node> {
    if nodes == [] then []
    else
      var k := |nodes| - 1;
      SectionsOf(nodes[..k], root) + (if RootOf(nodes) == root then [nodes[k]] else [])
  }

  /** One request for each root. */
  function Requests(nodes: seq<Node>): seq<seq<Node>> {
    seq(|Roots(nodes)|, i requires 0 <= i < |Roots(nodes)| => SectionsOf(nodes, Roots(nodes)[i]))
  }

  // ---------------------------------------------------------------- provider output

  /** The elements of one source section, in order. */
  function By(els: seq<Generated>, s: NodeId): seq<Generated> {
    if els == [] then []
    else
      var k := |els| - 1;
      By(els[..k], s) + (if els[k].source == s then [els[k]] else [])
  }

  predicate AnchorFits(subtopic: bool, anchor: Kind) {
    subtopic <==> anchor == Topic || anchor == Subtopic
  }

  /** What one element of a section must satisfy, given the earlier elements of that section. */
  ghost predicate ElementOk(draft: nat, section: Node, g: Generated, earlier: seq<Generated>) {
    && g.source == section.id && g.id == Derived(draft, section.id, g.key) && g.key != EXTRACTED_KEY
    && !Blank(g.title) && g.sources == [section.source]
    && (forall i :: 0 <= i < |earlier| ==> earlier[i].id != g.id)
    && (if g.parent == Anchor(draft, section.id) then AnchorFits(g.subtopic, section.kind)
        else g.subtopic && exists i :: 0 <= i < |earlier| && earlier[i].id == g.parent)
  }

  ghost predicate AcceptedAt(draft: nat, sections: seq<Node>, els: seq<Generated>, i: nat)
    requires i < |els|
  {
    exists k :: 0 <= k < |sections| && sections[k].id == els[i].source
                && ElementOk(draft, sections[k], els[i], By(els[..i], els[i].source))
  }

  /** The output is acceptable for the request. */
  ghost predicate Accepts(draft: nat, sections: seq<Node>, els: seq<Generated>) {
    |els| <= MAX_OUTPUT && forall i :: 0 <= i < |els| ==> AcceptedAt(draft, sections, els, i)
  }

  // ---------------------------------------------------------------- assembly

  function Extract(draft: nat, n: Node, order: nat): Element {
    Element(Anchor(draft, n.id), EXTRACTED_KEY, n.kind, n.title,
            if n.parent.Some? then Some(Anchor(draft, n.parent.value)) else None,
            order, Some(n.id), [n.source], FromSource, n.confidence, None, [])
  }

  function Made(n: Node, g: Generated, order: nat): Element {
    Element(g.id, g.key, KindOf(g), g.title, Some(g.parent), order, Some(n.id), g.sources, FromProvider, n.confidence, None, [])
  }

  function MadeAll(n: Node, gs: seq<Generated>, start: nat): seq<Element> {
    seq(|gs|, i requires 0 <= i < |gs| => Made(n, gs[i], start + i + 1))
  }

  /** Each section followed by its generated elements. */
  function Build(draft: nat, nodes: seq<Node>, els: seq<Generated>): seq<Element> {
    if nodes == [] then []
    else
      var k := |nodes| - 1;
      var before := Build(draft, nodes[..k], els);
      before + [Extract(draft, nodes[k], |before| + 1)] + MadeAll(nodes[k], By(els, nodes[k].id), |before| + 1)
  }

  function Flat(outputs: seq<seq<Generated>>): seq<Generated> {
    if outputs == [] then [] else Flat(outputs[..|outputs| - 1]) + outputs[|outputs| - 1]
  }

  predicate LacksTopics(elements: seq<Element>) {
    elements == []
    || exists i :: 0 <= i < |elements| && !(elements[i].kind == Topic || elements[i].kind == Subtopic)
                   && forall j :: 0 <= j < |elements| ==> elements[j].parent != Some(elements[i].id)
  }

  function WarningsFor(a: Artifact, elements: seq<Element>): seq<DraftWarning> {
    (if !a.fullText then [LowTextWarning] else [])
    + (if a.emptyPages > 0 then [EmptyPages] else [])
    + (if a.extraction.unclassified != [] then [UnclassifiedContent] else [])
    + (if a.extraction.nodes == [] then [NoStructure] else [])
    + (if LacksTopics(elements) then [MissingTopics] else [])
  }

  function Built(draft: nat, meta: Meta, a: Artifact, els: seq<Generated>): Draft {
    var elements := Build(draft, a.extraction.nodes, els);
    var warnings := WarningsFor(a, elements);
    Draft(draft, a.extraction.source, meta, elements, a.extraction.unclassified, warnings, warnings == [])
  }

  // ---------------------------------------------------------------- the draft's own validator

  ghost predicate ElementGood(draft: nat, pageCount: nat, es: seq<Element>, i: nat)
    requires i < |es|
  {
    var e := es[i];
    && (forall j :: 0 <= j < i ==> es[j].id != e.id)
    && e.order == i + 1 && !Blank(e.title)
    && (e.sourceNode.None? ==> e.origin == Human)
    && (e.sourceNode.Some? ==> e.id == Derived(draft, e.sourceNode.value, e.key))
    && (e.parent.Some? ==> exists j :: 0 <= j < i && es[j].id == e.parent.value && MayContain(es[j].kind, e.kind))
    && (forall j :: 0 <= j < |e.sources| ==> e.sources[j].page <= pageCount)
  }

  ghost predicate AllGood(draft: nat, pageCount: nat, es: seq<Element>) {
    forall i :: 0 <= i < |es| ==> ElementGood(draft, pageCount, es, i)
  }

  ghost predicate ValidDraft(d: Draft) {
    && AllGood(d.id, d.source.pageCount, d.elements)
    && Distinct(d.warnings)
    && (d.complete <==> d.warnings == [])
  }

  ghost predicate AllAccepted(draft: nat, requests: seq<seq<Node>>, outputs: seq<seq<Generated>>) {
    |outputs| == |requests| && forall r :: 0 <= r < |outputs| ==> Accepts(draft, requests[r], outputs[r])
  }

  /** assemble_draft: one acceptable output for each request, and a draft its own validator takes. */
  ghost function Assemble(draft: nat, meta: Meta, a: Artifact, outputs: seq<seq<Generated>>): Result<Draft, ()> {
    var d := Built(draft, meta, a, Flat(outputs));
    if AllAccepted(draft, Requests(a.extraction.nodes), outputs) && ValidDraft(d) then Ok(d) else Err(())
  }
}
