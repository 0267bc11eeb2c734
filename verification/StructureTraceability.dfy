/** The scan against the validator: what detect_structure always guarantees, and exactly when its
    result is traceable (packages/curriculum/structure.py:50-114, packages/domain/extraction.py:111-163). */
module StructureTraceability {
  import opened Support
  import opened Extraction
  import opened Structure

  function CellOf(l: Located): Cell {
    Cell(l.page, l.n)
  }

  ghost predicate Increasing(lines: seq<Located>) {
    forall i, j :: 0 <= i < j < |lines| ==> Before(CellOf(lines[i]), CellOf(lines[j]))
  }

  ghost predicate HeadingAt(lines: seq<Located>, c: Cell) {
    exists i :: 0 <= i < |lines| && IsHeading(lines[i].line) && CellOf(lines[i]) == c
  }

  ghost predicate PlainAt(lines: seq<Located>, c: Cell) {
    exists i :: 0 <= i < |lines| && IsPlain(lines[i].line) && CellOf(lines[i]) == c
  }

  /** The line is where it says it is. */
  ghost predicate Faithful(pages: seq<Page>, l: Located) {
    l.page <= |pages| && l.n <= |pages[l.page - 1].lines| && l.line == pages[l.page - 1].lines[l.n - 1]
  }

  ghost predicate AllFaithful(pages: seq<Page>, lines: seq<Located>) {
    forall i :: 0 <= i < |lines| ==> Faithful(pages, lines[i])
  }

  ghost predicate ListsText(pages: seq<Page>, lines: seq<Located>) {
    forall c :: IsText(pages, c) ==> HeadingAt(lines, c) || PlainAt(lines, c)
  }

  // ---------------------------------------------------------------- the lines of a document

  lemma {:induction false} FlattenIsFaithful(pages: seq<Page>)
    requires Numbered(pages)
    ensures AllFaithful(pages, Flatten(pages)) && Increasing(Flatten(pages))
  {
    if pages != [] {
      var k := |pages| - 1;
      FlattenIsFaithful(pages[..k]);
      var before, last := Flatten(pages[..k]), PageLines(pages[k]);
      forall i | 0 <= i < |before| ensures Faithful(pages, before[i]) && before[i].page <= k {
        assert Faithful(pages[..k], before[i]);
      }
      forall i | 0 <= i < |last| ensures Faithful(pages, last[i]) && CellOf(last[i]) == Cell(k + 1, i + 1) {
      }
      ConcatIncreasing(before, last);
    }
  }

  lemma ConcatIncreasing(a: seq<Located>, b: seq<Located>)
    requires Increasing(a) && Increasing(b)
    requires forall i, j :: 0 <= i < |a| && 0 <= j < |b| ==> a[i].page < b[j].page
    ensures Increasing(a + b)
  {
  }

  lemma {:induction false} FlattenListsText(pages: seq<Page>, c: Cell)
    requires Numbered(pages) && IsText(pages, c)
    ensures exists i :: 0 <= i < |Flatten(pages)| && CellOf(Flatten(pages)[i]) == c && Faithful(pages, Flatten(pages)[i])
  {
    var k := |pages| - 1;
    var before, last := Flatten(pages[..k]), PageLines(pages[k]);
    if c.page == k + 1 {
      var i := |before| + c.line - 1;
      assert Flatten(pages)[i] == last[c.line - 1];
    } else {
      assert IsText(pages[..k], c);
      FlattenListsText(pages[..k], c);
      var i :| 0 <= i < |before| && CellOf(before[i]) == c && Faithful(pages[..k], before[i]);
      assert Flatten(pages)[i] == before[i];
    }
  }

  lemma DocumentLines(pages: seq<Page>)
    requires Numbered(pages)
    ensures Increasing(Flatten(pages)) && AllFaithful(pages, Flatten(pages)) && ListsText(pages, Flatten(pages))
  {
    var lines := Flatten(pages);
    FlattenIsFaithful(pages);
    forall c | IsText(pages, c) ensures HeadingAt(lines, c) || PlainAt(lines, c) {
      FlattenListsText(pages, c);
      var i :| 0 <= i < |lines| && CellOf(lines[i]) == c && Faithful(pages, lines[i]);
      assert lines[i].line == pages[c.page - 1].lines[c.line - 1];
      assert IsHeading(lines[i].line) || IsPlain(lines[i].line);
    }
  }

  // ---------------------------------------------------------------- headings

  /** The node stands for one heading line of the list. */
  ghost predicate StandsFor(source: Source, lines: seq<Located>, n: Node) {
    && n.id == NodeId(source, n.kind, n.source, n.title)
    && exists i :: 0 <= i < |lines| && IsHeading(lines[i].line) && n.source == RefOf(lines[i]) && n.title == lines[i].line.title
  }

  /** One node for each heading line, in order. */
  ghost predicate NodesInOrder(source: Source, lines: seq<Located>, nodes: seq<Node>) {
    && (forall i :: 0 <= i < |nodes| ==> nodes[i].order == i + 1 && StandsFor(source, lines, nodes[i]))
    && (forall i, j :: 0 <= i < j < |nodes| ==> Before(Start(nodes[i].source), Start(nodes[j].source)))
  }

  lemma StandsForMore(source: Source, lines: seq<Located>, l: Located, n: Node)
    requires StandsFor(source, lines, n)
    ensures StandsFor(source, lines + [l], n)
    ensures Increasing(lines + [l]) ==> Before(Start(n.source), CellOf(l))
  {
    var i :| 0 <= i < |lines| && IsHeading(lines[i].line) && n.source == RefOf(lines[i]) && n.title == lines[i].line.title;
    var all := lines + [l];
    assert all[i] == lines[i] && all[|lines|] == l;
  }

  lemma {:induction false} NodesAreInOrder(source: Source, lines: seq<Located>)
    requires Increasing(lines)
    ensures NodesInOrder(source, lines, Nodes(source, lines))
  {
    if lines != [] {
      var k := |lines| - 1;
      var front, l := lines[..k], lines[k];
      var before := Nodes(source, front);
      assert lines == front + [l];
      NodesAreInOrder(source, front);
      forall i | 0 <= i < |before| ensures StandsFor(source, lines, before[i]) && Before(Start(before[i].source), CellOf(l)) {
        StandsForMore(source, front, l, before[i]);
      }
    }
  }

  ghost predicate NodeAt(nodes: seq<Node>, c: Cell) {
    exists i :: 0 <= i < |nodes| && Start(nodes[i].source) == c && nodes[i].source.last == nodes[i].source.first
  }

  lemma {:induction false} HeadingsAreNodes(source: Source, lines: seq<Located>, c: Cell)
    requires HeadingAt(lines, c)
    ensures NodeAt(Nodes(source, lines), c)
  {
    var k := |lines| - 1;
    var front, nodes := lines[..k], Nodes(source, lines);
    var before := Nodes(source, front);
    if IsHeading(lines[k].line) && CellOf(lines[k]) == c {
      assert Start(nodes[|nodes| - 1].source) == c;
    } else {
      var i :| 0 <= i < |lines| && IsHeading(lines[i].line) && CellOf(lines[i]) == c;
      assert front[i] == lines[i];
      HeadingsAreNodes(source, front, c);
      var j :| 0 <= j < |before| && Start(before[j].source) == c && before[j].source.last == before[j].source.first;
      assert nodes[j] == before[j];
    }
  }

  // ---------------------------------------------------------------- unclassified ranges

  /** b starts after a ends, and not on the very next line of the page. */
  ghost predicate Separated(a: Ref, b: Ref) {
    Before(End(a), Start(b)) && !(a.page == b.page && b.first == a.last + 1)
  }

  ghost predicate RunPlain(lines: seq<Located>, r: Ref) {
    forall c :: c in Cells(r) ==> PlainAt(lines, c)
  }

  /** The ranges are the maximal runs of plain lines. */
  ghost predicate MaximalRuns(lines: seq<Located>, runs: seq<Ref>) {
    && (forall i :: 0 <= i < |runs| ==> RunPlain(lines, runs[i]))
    && (forall c :: PlainAt(lines, c) ==> Covers(runs, c))
    && (forall i :: 0 < i < |runs| ==> Separated(runs[i - 1], runs[i]))
  }

  lemma PlainAtMore(lines: seq<Located>, l: Located, c: Cell)
    ensures PlainAt(lines + [l], c) <==> PlainAt(lines, c) || (IsPlain(l.line) && CellOf(l) == c)
  {
    var all := lines + [l];
    if PlainAt(lines, c) {
      var i :| 0 <= i < |lines| && IsPlain(lines[i].line) && CellOf(lines[i]) == c;
      assert all[i] == lines[i];
    }
    if PlainAt(all, c) {
      var i :| 0 <= i < |all| && IsPlain(all[i].line) && CellOf(all[i]) == c;
      assert i < |lines| ==> all[i] == lines[i];
    }
    assert all[|lines|] == l;
  }

  lemma RunEndsBefore(lines: seq<Located>, l: Located, r: Ref)
    requires Increasing(lines + [l]) && RunPlain(lines, r)
    ensures Before(End(r), CellOf(l))
  {
    assert End(r) in Cells(r);
    var i :| 0 <= i < |lines| && IsPlain(lines[i].line) && CellOf(lines[i]) == End(r);
    var all := lines + [l];
    assert all[i] == lines[i] && all[|lines|] == l;
  }

  lemma AddPlainKeepsRuns(lines: seq<Located>, runs: seq<Ref>, l: Located)
    requires Increasing(lines + [l]) && MaximalRuns(lines, runs) && IsPlain(l.line)
    ensures MaximalRuns(lines + [l], AddPlain(runs, l))
  {
    var all, now := lines + [l], AddPlain(runs, l);
    var k := |now| - 1;
    forall i | 0 <= i < |runs| ensures Before(End(runs[i]), CellOf(l)) {
      RunEndsBefore(lines, l, runs[i]);
    }
    forall i | 0 <= i < |now| ensures RunPlain(all, now[i]) {
      forall c | c in Cells(now[i]) ensures PlainAt(all, c) {
        PlainAtMore(lines, l, c);
        if c != CellOf(l) {
          assert c in Cells(runs[i]) && RunPlain(lines, runs[i]);
        }
      }
    }
    forall c | PlainAt(all, c) ensures Covers(now, c) {
      PlainAtMore(lines, l, c);
      if c == CellOf(l) {
        assert c in Cells(now[k]);
      } else {
        var i :| 0 <= i < |runs| && c in Cells(runs[i]);
        assert c in Cells(now[i]);
      }
    }
  }

  lemma {:induction false} RunsAreMaximal(lines: seq<Located>)
    requires Increasing(lines)
    ensures MaximalRuns(lines, Runs(lines))
  {
    if lines != [] {
      var k := |lines| - 1;
      var front, l := lines[..k], lines[k];
      assert lines == front + [l];
      RunsAreMaximal(front);
      if IsPlain(l.line) {
        AddPlainKeepsRuns(front, Runs(front), l);
      } else {
        forall c ensures PlainAt(lines, c) <==> PlainAt(front, c) {
          PlainAtMore(front, l, c);
        }
        forall i | 0 <= i < |Runs(front)| ensures RunPlain(lines, Runs(front)[i]) {
          assert RunPlain(front, Runs(front)[i]);
        }
      }
    }
  }

  // ---------------------------------------------------------------- everything but the hierarchy

  lemma {:induction false} RunsFarApart(lines: seq<Located>, runs: seq<Ref>, i: nat, j: nat)
    requires MaximalRuns(lines, runs) && i < j < |runs|
    ensures Before(End(runs[i]), Start(runs[j]))
  {
    assert Separated(runs[j - 1], runs[j]);
    if i < j - 1 {
      RunsFarApart(lines, runs, i, j - 1);
    }
  }

  lemma NodeMeetsNoRun(source: Source, lines: seq<Located>, n: Node, r: Ref)
    requires Increasing(lines) && StandsFor(source, lines, n) && RunPlain(lines, r)
    ensures Apart(n.source, r)
  {
    var i :| 0 <= i < |lines| && IsHeading(lines[i].line) && n.source == RefOf(lines[i]) && n.title == lines[i].line.title;
    forall c | c in Cells(r) ensures c !in Cells(n.source) {
      var j :| 0 <= j < |lines| && IsPlain(lines[j].line) && CellOf(lines[j]) == c;
      if i < j {
        assert Before(CellOf(lines[i]), c);
      } else {
        assert Before(c, CellOf(lines[i]));
      }
    }
  }

  lemma ClaimsDisjoint(x: Extracted, lines: seq<Located>)
    requires Increasing(lines) && NodesInOrder(x.source, lines, x.nodes) && MaximalRuns(lines, x.unclassified)
    ensures Disjoint(Refs(x))
  {
    var refs, k := Refs(x), |x.nodes|;
    forall i, j | 0 <= i < j < |refs| ensures Apart(refs[i], refs[j]) {
      if j < k {
        assert Before(Start(refs[i]), Start(refs[j]));
        assert StandsFor(x.source, lines, x.nodes[i]) && StandsFor(x.source, lines, x.nodes[j]);
      } else if i < k {
        NodeMeetsNoRun(x.source, lines, x.nodes[i], x.unclassified[j - k]);
      } else {
        RunsFarApart(lines, x.unclassified, i - k, j - k);
      }
    }
  }

  lemma TextIsCovered(x: Extracted, lines: seq<Located>, c: Cell)
    requires ListsText(x.pages, lines) && IsText(x.pages, c)
    requires x.nodes == Nodes(x.source, lines) && MaximalRuns(lines, x.unclassified)
    ensures Covers(Refs(x), c)
  {
    if HeadingAt(lines, c) {
      HeadingsAreNodes(x.source, lines, c);
      var i :| 0 <= i < |x.nodes| && Start(x.nodes[i].source) == c && x.nodes[i].source.last == x.nodes[i].source.first;
      assert Refs(x)[i] == x.nodes[i].source && c in Cells(Refs(x)[i]);
    } else {
      assert Covers(x.unclassified, c);
      var i :| 0 <= i < |x.unclassified| && c in Cells(x.unclassified[i]);
      assert Refs(x)[|x.nodes| + i] == x.unclassified[i];
    }
  }

  lemma OneLineJoins(text: seq<Line>, at: nat)
    requires at < |text|
    ensures Join(text[at..at + 1]) == text[at].title
  {
    var one := text[at..at + 1];
    assert |one| == 1 && one[0] == text[at];
  }

  lemma NodeIsTraceable(x: Extracted, lines: seq<Located>, i: nat)
    requires AllFaithful(x.pages, lines) && NodesInOrder(x.source, lines, x.nodes) && i < |x.nodes|
    ensures NodeTraceable(x, i)
  {
    var n := x.nodes[i];
    assert StandsFor(x.source, lines, n);
    var j :| 0 <= j < |lines| && IsHeading(lines[j].line) && n.source == RefOf(lines[j]) && n.title == lines[j].line.title;
    assert Faithful(x.pages, lines[j]);
    var text := x.pages[n.source.page - 1].lines;
    var at := n.source.first - 1;
    assert n.source.first == lines[j].n == n.source.last && n.source.page == lines[j].page;
    assert at < |text| && text[at] == lines[j].line;
    OneLineJoins(text, at);
    forall h | 0 <= h < i ensures x.nodes[h].id != n.id {
      assert StandsFor(x.source, lines, x.nodes[h]);
      assert Before(Start(x.nodes[h].source), Start(n.source));
    }
  }

  lemma RunInDocument(pages: seq<Page>, lines: seq<Located>, r: Ref)
    requires AllFaithful(pages, lines) && RunPlain(lines, r)
    ensures InDocument(pages, r)
  {
    assert End(r) in Cells(r);
    var i :| 0 <= i < |lines| && IsPlain(lines[i].line) && CellOf(lines[i]) == End(r);
    assert Faithful(pages, lines[i]);
  }

  lemma {:induction false} WarningsAreValid(pages: seq<Page>, lines: seq<Located>)
    requires AllFaithful(pages, lines)
    ensures forall i :: 0 <= i < |Warnings(lines)| ==> WarningValid(pages, Warnings(lines)[i])
  {
    if lines != [] {
      var k := |lines| - 1;
      forall i | 0 <= i < k ensures Faithful(pages, lines[..k][i]) {
        assert Faithful(pages, lines[i]);
      }
      WarningsAreValid(pages, lines[..k]);
      assert Faithful(pages, lines[k]);
    }
  }

  function Detected(source: Source, pages: seq<Page>): Extracted {
    var lines := Flatten(pages);
    Extracted(source, pages, Nodes(source, lines), Runs(lines), Warnings(lines))
  }

  /** Whatever the headings are, every line of text is claimed exactly once, in order, under the right
      id and title; only the hierarchy is in question. */
  lemma DetectionCoversExactlyOnce(source: Source, pages: seq<Page>)
    requires Numbered(pages) && source.pageCount == |pages|
    ensures var x := Detected(source, pages);
            && Disjoint(Refs(x)) && (forall c :: IsText(pages, c) ==> Covers(Refs(x), c))
            && MaximalRuns(Flatten(pages), x.unclassified)
            && (forall i :: 0 <= i < |x.nodes| ==> NodeTraceable(x, i))
            && (Traceable(x) <==> forall i :: 0 <= i < |x.nodes| ==> Nests(x.nodes, i))
  {
    var x, lines := Detected(source, pages), Flatten(pages);
    DocumentLines(pages);
    NodesAreInOrder(source, lines);
    RunsAreMaximal(lines);
    ClaimsDisjoint(x, lines);
    WarningsAreValid(pages, lines);
    forall c | IsText(pages, c) ensures Covers(Refs(x), c) {
      TextIsCovered(x, lines, c);
    }
    forall i | 0 <= i < |x.nodes| ensures NodeTraceable(x, i) {
      NodeIsTraceable(x, lines, i);
    }
    forall i | 0 <= i < |x.unclassified| ensures InDocument(pages, x.unclassified[i]) {
      RunInDocument(pages, lines, x.unclassified[i]);
    }
    forall i | 0 < i < |x.unclassified| ensures Before(End(x.unclassified[i - 1]), Start(x.unclassified[i])) {
      assert Separated(x.unclassified[i - 1], x.unclassified[i]);
    }
    assert RestOrdered(pages, x.unclassified, |x.unclassified|);
    HierarchyDecides(x);
  }

  lemma HierarchyDecides(x: Extracted)
    requires forall i :: 0 <= i < |x.nodes| ==> NodeTraceable(x, i)
    ensures AllNodesGood(x) <==> forall i :: 0 <= i < |x.nodes| ==> Nests(x.nodes, i)
  {
    if AllNodesGood(x) {
      forall i | 0 <= i < |x.nodes| ensures Nests(x.nodes, i) {
        assert NodeGood(x, i);
      }
    }
  }

  // ---------------------------------------------------------------- the hierarchy

  /** A heading whose numeric parent is a heading of its own kind, other than a subtopic: either a
      two-part number under a section, or a section or topic keyword with a dotted number under one
      of the same kind. */
  predicate ClashAt(heads: seq<Head>, s: Shape) {
    match s
    case Keyword(kind, number) =>
      (kind == Section || kind == Topic) && var p := NumberParent(heads, number); p.Some? && heads[p.value].kind == kind
    case Decimal(number) =>
      |number| == 2 && var p := NumberParent(heads, number); p.Some? && heads[p.value].kind == Section
    case _ => false
  }

  ghost predicate NoClash(lines: seq<Located>) {
    forall i :: 0 <= i < |lines| && IsHeading(lines[i].line) ==> !ClashAt(Heads(lines[..i]), lines[i].line.shape)
  }

  /** The chosen parent may contain the heading exactly when there is no clash. */
  lemma ClashIffUnfit(heads: seq<Head>, s: Shape)
    requires ValidShape(s)
    ensures var h := HeadOf(heads, s);
            var p := ParentOf(heads, h);
            ClashAt(heads, s) <==> p.Some? && !MayContain(heads[p.value].kind, h.kind)
  {
  }

  ghost predicate AllWellNested(nodes: seq<Node>) {
    forall i :: 0 <= i < |nodes| ==> Nests(nodes, i)
  }

  lemma WellNestedSnoc(nodes: seq<Node>, n: Node)
    ensures AllWellNested(nodes + [n]) <==> AllWellNested(nodes) && Nests(nodes + [n], |nodes|)
  {
    var all := nodes + [n];
    forall i | 0 <= i < |nodes| ensures Nests(all, i) <==> Nests(nodes, i) {
      if Nests(all, i) && nodes[i].parent.Some? {
        var j :| 0 <= j < i && all[j].id == all[i].parent.value && MayContain(all[j].kind, all[i].kind);
        assert nodes[j] == all[j];
      }
      if Nests(nodes, i) && nodes[i].parent.Some? {
        var j :| 0 <= j < i && nodes[j].id == nodes[i].parent.value && MayContain(nodes[j].kind, nodes[i].kind);
        assert nodes[j] == all[j];
      }
    }
    if AllWellNested(all) {
      forall i | 0 <= i < |nodes| ensures Nests(nodes, i) {
        assert Nests(all, i);
      }
      assert Nests(all, |nodes|);
    }
  }

  lemma NewNodeNested(source: Source, nodes: seq<Node>, heads: seq<Head>, l: Located)
    requires SameKinds(nodes, heads) && ValidShape(l.line.shape)
    requires forall i, j :: 0 <= i < j < |nodes| ==> nodes[i].id != nodes[j].id
    ensures Nests(nodes + [NodeFor(source, nodes, heads, l)], |nodes|) <==> !ClashAt(heads, l.line.shape)
  {
    var h := HeadOf(heads, l.line.shape);
    var p, n := ParentOf(heads, h), NodeFor(source, nodes, heads, l);
    var all := nodes + [n];
    ClashIffUnfit(heads, l.line.shape);
    if p.Some? {
      assert all[p.value] == nodes[p.value];
      forall j | 0 <= j < |nodes| && all[j].id == n.parent.value ensures j == p.value {
        assert nodes[j].id == nodes[p.value].id;
      }
    }
  }

  lemma NoClashSnoc(lines: seq<Located>, l: Located)
    ensures NoClash(lines + [l]) <==> NoClash(lines) && (IsHeading(l.line) ==> !ClashAt(Heads(lines), l.line.shape))
  {
    var all := lines + [l];
    forall i | 0 <= i < |lines| ensures all[..i] == lines[..i] && all[i] == lines[i] {
    }
    assert all[..|lines|] == lines && all[|lines|] == l;
    if NoClash(all) {
      forall i | 0 <= i < |lines| && IsHeading(lines[i].line) ensures !ClashAt(Heads(lines[..i]), lines[i].line.shape) {
        assert !ClashAt(Heads(all[..i]), all[i].line.shape);
      }
    }
  }

  lemma {:induction false} NestedIffNoClash(source: Source, lines: seq<Located>)
    requires Increasing(lines) && forall i :: 0 <= i < |lines| ==> ValidShape(lines[i].line.shape)
    ensures AllWellNested(Nodes(source, lines)) <==> NoClash(lines)
  {
    if lines != [] {
      var k := |lines| - 1;
      var front, l := lines[..k], lines[k];
      var nodes := Nodes(source, front);
      assert lines == front + [l];
      NestedIffNoClash(source, front);
      NoClashSnoc(front, l);
      if IsHeading(l.line) {
        NodesAreInOrder(source, front);
        NodesMatchHeads(source, front);
        DistinctNodeIds(source, front, nodes);
        NewNodeNested(source, nodes, Heads(front), l);
        WellNestedSnoc(nodes, NodeFor(source, nodes, Heads(front), l));
      }
    }
  }

  lemma DistinctNodeIds(source: Source, lines: seq<Located>, nodes: seq<Node>)
    requires NodesInOrder(source, lines, nodes)
    ensures forall i, j :: 0 <= i < j < |nodes| ==> nodes[i].id != nodes[j].id
  {
    forall i, j | 0 <= i < j < |nodes| ensures nodes[i].id != nodes[j].id {
      assert StandsFor(source, lines, nodes[i]) && StandsFor(source, lines, nodes[j]);
      assert Before(Start(nodes[i].source), Start(nodes[j].source));
    }
  }

  /** The extraction is traceable if and only if no heading clashes with its numeric parent. */
  lemma TraceableIffNoClash(source: Source, pages: seq<Page>)
    requires Numbered(pages) && source.pageCount == |pages|
    requires forall i :: 0 <= i < |Flatten(pages)| ==> ValidShape(Flatten(pages)[i].line.shape)
    ensures Traceable(Detected(source, pages)) <==> NoClash(Flatten(pages))
  {
    var x, lines := Detected(source, pages), Flatten(pages);
    DocumentLines(pages);
    DetectionCoversExactlyOnce(source, pages);
    NestedIffNoClash(source, lines);
  }

  /** Clash or not, every parent comes before its child and ranks no lower than it. */
  lemma {:induction false} ParentPrecedes(source: Source, lines: seq<Located>, i: nat)
    requires i < |Nodes(source, lines)| && Nodes(source, lines)[i].parent.Some?
    ensures var nodes := Nodes(source, lines);
            exists j :: 0 <= j < i && nodes[j].id == nodes[i].parent.value && Rank(nodes[j].kind) <= Rank(nodes[i].kind)
  {
    var k := |lines| - 1;
    var front, nodes := lines[..k], Nodes(source, lines);
    var before := Nodes(source, front);
    if i < |before| {
      assert nodes[i] == before[i];
      ParentPrecedes(source, front, i);
      var j :| 0 <= j < i && before[j].id == before[i].parent.value && Rank(before[j].kind) <= Rank(before[i].kind);
      assert nodes[j] == before[j];
    } else {
      NodesMatchHeads(source, front);
      var p := ParentOf(Heads(front), HeadOf(Heads(front), lines[k].line.shape));
      assert nodes[p.value] == before[p.value];
    }
  }

  /** A section heading followed by a two-part number under it: the scan makes a section under a
      section, which the validator refuses. */
  lemma SectionUnderSection(digest: nat, version: nat)
    ensures var source := Source(version, digest, 1);
            var pages := [Page(1, [Line("Section 1", Keyword(Section, [1])), Line("1.1 Background", Decimal([1, 1]))])];
            && Numbered(pages) && !Traceable(Detected(source, pages))
            && (forall i :: 0 <= i < |Flatten(pages)| ==> ValidShape(Flatten(pages)[i].line.shape))
  {
    var source := Source(version, digest, 1);
    var first, second := Line("Section 1", Keyword(Section, [1])), Line("1.1 Background", Decimal([1, 1]));
    var pages := [Page(1, [first, second])];
    var lines := Flatten(pages);
    var one := [Located(1, 1, first)];
    assert Flatten(pages[..0]) == [] && lines == PageLines(pages[0]);
    assert lines == [Located(1, 1, first), Located(1, 2, second)] && lines[..1] == one;
    assert Heads(one[..0]) == [];
    var heads := Heads(one);
    assert heads == [HeadOf([], first.shape)];
    assert HeadOf([], first.shape) == Head(Section, [1]);
    assert second.shape.dotted[..1] == [1];
    assert NumberParent(heads, second.shape.dotted) == Some(0);
    assert ClashAt(heads, second.shape);
    assert lines[1].line == second && !NoClash(lines);
    TraceableIffNoClash(source, pages);
  }

  /** A warning is given for each plain line that reads like a numbered heading and is none, and for no
      other; in the order of the lines, so none is given twice. */
  lemma {:induction false} WarningsByLine(lines: seq<Located>)
    requires Increasing(lines)
    ensures forall w :: w in Warnings(lines) <==>
              exists m :: 0 <= m < |lines| && IsPlain(lines[m].line) && lines[m].line.shape.ambiguous && WarnsOf(w, lines[m])
    ensures forall i, j :: 0 <= i < j < |Warnings(lines)| ==> Warned(Warnings(lines)[i], Warnings(lines)[j])
  {
    if lines != [] {
      var k := |lines| - 1;
      var front, before, l := lines[..k], Warnings(lines[..k]), lines[k];
      WarningsByLine(front);
      forall w ensures w in Warnings(lines) <==>
                 exists m :: 0 <= m < |lines| && IsPlain(lines[m].line) && lines[m].line.shape.ambiguous && WarnsOf(w, lines[m])
      {
        if w in before {
          var m :| 0 <= m < k && IsPlain(front[m].line) && front[m].line.shape.ambiguous && WarnsOf(w, front[m]);
          assert lines[m] == front[m];
        }
        if m :| 0 <= m < |lines| && IsPlain(lines[m].line) && lines[m].line.shape.ambiguous && WarnsOf(w, lines[m]) {
          assert m < k ==> front[m] == lines[m];
        }
      }
      forall i | 0 <= i < |before| && |Warnings(lines)| > |before| ensures Warned(before[i], Warnings(lines)[|before|]) {
        assert before[i] in before;
        var m :| 0 <= m < k && IsPlain(front[m].line) && front[m].line.shape.ambiguous && WarnsOf(before[i], front[m]);
        assert Before(CellOf(lines[m]), CellOf(lines[k]));
      }
    }
  }

  /** The warning points at the line. */
  predicate WarnsOf(w: Warning, l: Located) {
    w.code == AmbiguousHeading && w.page == Some(l.page) && w.source == Some(RefOf(l))
  }

  predicate Warned(v: Warning, w: Warning) {
    v.source.Some? && w.source.Some? && Before(Start(v.source.value), Start(w.source.value))
  }
}
