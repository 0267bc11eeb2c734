/** What it means for an extraction to be traceable to its document, and the validator that decides
    it (packages/domain/extraction.py:24-76, 78-157). */
module Extraction {
  import opened Support

  datatype Kind = Module | Unit | Chapter | Section | Topic | Subtopic

  function Rank(k: Kind): nat {
    match k
    case Module => 0
    case Unit => 1
    case Chapter => 2
    case Section => 3
    case Topic => 4
    case Subtopic => 5
  }

  datatype Source = Source(version: nat, digest: nat, pageCount: nat)

  type Pos = n: nat | n >= 1 witness 1

  datatype RawRef = Ref(page: Pos, first: Pos, last: Pos)

  /** One-based inclusive lines of one page. */
  type Ref = r: RawRef | r.first <= r.last witness Ref(1, 1, 1)

  /** The parts of a heading number such as 2.1, each named by its text. */
  type Number = seq<nat>

  /** How a line reads: the classification the regular expressions make before the scan. */
  datatype Shape = Plain(ambiguous: bool) | Keyword(kind: Kind, number: Number) | Decimal(dotted: Number) | Syllabus | RepeatedCaps

  /** A line with its surrounding blanks removed. */
  datatype Line = Line(title: string, shape: Shape)

  datatype Page = Page(number: Pos, lines: seq<Line>)

  datatype Method = KeywordNumber | DecimalNumber | SyllabusHeading | Caps

  /** A node id names everything it is computed from. */
  datatype NodeId = NodeId(source: Source, kind: Kind, ref: RawRef, title: string)

  datatype Node = Node(id: NodeId, kind: Kind, title: string, parent: Option<NodeId>, order: nat, source: Ref,
                       detection: Method, confidence: real)

  datatype Code = NoText | LowText | AmbiguousHeading

  datatype Warning = Warning(code: Code, page: Option<nat>, source: Option<Ref>)

  datatype Extracted = Extracted(source: Source, pages: seq<Page>, nodes: seq<Node>, unclassified: seq<Ref>, warnings: seq<Warning>)

  // ---------------------------------------------------------------- locations

  /** A line of the document: page and line number. */
  datatype Cell = Cell(page: nat, line: nat)

  predicate Before(a: Cell, b: Cell) {
    a.page < b.page || (a.page == b.page && a.line < b.line)
  }

  ghost function Cells(r: Ref): set<Cell> {
    set n | r.first <= n <= r.last :: Cell(r.page, n)
  }

  ghost predicate Numbered(pages: seq<Page>) {
    forall i :: 0 <= i < |pages| ==> pages[i].number == i + 1
  }

  predicate InDocument(pages: seq<Page>, r: Ref) {
    r.page <= |pages| && r.last <= |pages[r.page - 1].lines|
  }

  function Join(lines: seq<Line>): string {
    if lines == [] then ""
    else if |lines| == 1 then lines[0].title
    else lines[0].title + " " + Join(lines[1..])
  }

  ghost predicate IsText(pages: seq<Page>, c: Cell) {
    1 <= c.page <= |pages| && 1 <= c.line <= |pages[c.page - 1].lines| && pages[c.page - 1].lines[c.line - 1].title != ""
  }

  // ---------------------------------------------------------------- traceability

  function Refs(x: Extracted): seq<Ref> {
    seq(|x.nodes|, i requires 0 <= i < |x.nodes| => x.nodes[i].source) + x.unclassified
  }

  ghost predicate Apart(a: Ref, b: Ref) {
    Cells(a) !! Cells(b)
  }

  ghost predicate Disjoint(refs: seq<Ref>) {
    forall i, j :: 0 <= i < j < |refs| ==> Apart(refs[i], refs[j])
  }

  function Start(r: Ref): Cell {
    Cell(r.page, r.first)
  }

  function End(r: Ref): Cell {
    Cell(r.page, r.last)
  }

  /** The node stands where it says, under the id and the title its place dictates. */
  ghost predicate NodeTraceable(x: Extracted, i: nat)
    requires i < |x.nodes|
  {
    var n := x.nodes[i];
    && n.order == i + 1
    && InDocument(x.pages, n.source)
    && n.id == NodeId(x.source, n.kind, n.source, n.title)
    && n.title == Join(x.pages[n.source.page - 1].lines[n.source.first - 1..n.source.last])
    && (forall j :: 0 <= j < i ==> x.nodes[j].id != n.id)
    && (if i == 0 then true else Before(Start(x.nodes[i - 1].source), Start(n.source)))
  }

  /** A parent, if any, is an earlier node that may contain the node. */
  ghost predicate Nests(nodes: seq<Node>, i: nat)
    requires i < |nodes|
  {
    nodes[i].parent.Some? ==> exists j :: 0 <= j < i && nodes[j].id == nodes[i].parent.value && MayContain(nodes[j].kind, nodes[i].kind)
  }

  /** A parent ranks above its child; only a subtopic may have a parent of its own kind. */
  predicate MayContain(parent: Kind, child: Kind) {
    Rank(parent) < Rank(child) || (parent == child == Subtopic)
  }

  ghost predicate NodeGood(x: Extracted, i: nat)
    requires i < |x.nodes|
  {
    NodeTraceable(x, i) && Nests(x.nodes, i)
  }

  ghost predicate AllNodesGood(x: Extracted) {
    forall i :: 0 <= i < |x.nodes| ==> NodeGood(x, i)
  }

  /** The first n unclassified references are in the document, in order and apart. */
  ghost predicate RestOrdered(pages: seq<Page>, rest: seq<Ref>, n: nat)
    requires n <= |rest|
  {
    && (forall i :: 0 <= i < n ==> InDocument(pages, rest[i]))
    && (forall i :: 0 < i < n ==> Before(End(rest[i - 1]), Start(rest[i])))
  }

  ghost predicate Covers(refs: seq<Ref>, c: Cell) {
    exists i :: 0 <= i < |refs| && c in Cells(refs[i])
  }

  ghost predicate WarningValid(pages: seq<Page>, w: Warning) {
    && (w.page.Some? ==> 1 <= w.page.value <= |pages|)
    && (w.source.Some? ==> InDocument(pages, w.source.value) && w.page == Some(w.source.value.page))
  }

  ghost predicate Traceable(x: Extracted) {
    && Numbered(x.pages) && x.source.pageCount == |x.pages|
    && AllNodesGood(x)
    && RestOrdered(x.pages, x.unclassified, |x.unclassified|)
    && Disjoint(Refs(x))
    && (forall c :: IsText(x.pages, c) ==> Covers(Refs(x), c))
    && (forall i :: 0 <= i < |x.warnings| ==> WarningValid(x.pages, x.warnings[i]))
  }

  // ---------------------------------------------------------------- the validator

  ghost function AllCells(refs: seq<Ref>): set<Cell> {
    if refs == [] then {} else AllCells(refs[..|refs| - 1]) + Cells(refs[|refs| - 1])
  }

  lemma {:induction false} AllCellsAre(refs: seq<Ref>, c: Cell)
    ensures c in AllCells(refs) <==> Covers(refs, c)
  {
    if refs != [] {
      var k := |refs| - 1;
      AllCellsAre(refs[..k], c);
      if Covers(refs, c) {
        var i :| 0 <= i < |refs| && c in Cells(refs[i]);
        assert i < k ==> refs[..k][i] == refs[i];
      }
      if Covers(refs[..k], c) {
        var i :| 0 <= i < k && c in Cells(refs[..k][i]);
        assert c in Cells(refs[i]);
      }
      if c in Cells(refs[k]) {
        assert Covers(refs, c);
      }
    }
  }

  /** One more reference keeps the list disjoint exactly when it meets none of the covered cells. */
  lemma DisjointSnoc(refs: seq<Ref>, r: Ref)
    ensures Disjoint(refs + [r]) <==> Disjoint(refs) && Cells(r) !! AllCells(refs)
    ensures AllCells(refs + [r]) == AllCells(refs) + Cells(r)
  {
    var all := refs + [r];
    assert all[..|refs|] == refs;
    if Disjoint(all) {
      forall i, j | 0 <= i < j < |refs| ensures Apart(refs[i], refs[j]) {
        assert all[i] == refs[i] && all[j] == refs[j];
      }
      forall c | c in Cells(r) ensures c !in AllCells(refs) {
        AllCellsAre(refs, c);
        forall i | 0 <= i < |refs| ensures c !in Cells(refs[i]) {
          assert Apart(all[i], all[|refs|]);
        }
      }
    }
    if Disjoint(refs) && Cells(r) !! AllCells(refs) {
      forall i | 0 <= i < |refs| ensures Apart(refs[i], r) {
        forall c | c in Cells(refs[i]) ensures c !in Cells(r) {
          AllCellsAre(refs, c);
        }
      }
    }
  }

  /** check_ref with cover: claims every line of the reference, unless one is claimed already. */
  method Claim(pages: seq<Page>, r: Ref, covered: set<Cell>) returns (ok: bool, now: set<Cell>)
    ensures ok <==> InDocument(pages, r) && Cells(r) !! covered
    ensures ok ==> now == covered + Cells(r)
  {
    if !InDocument(pages, r) {
      return false, covered;
    }
    now := covered;
    for n := r.first to r.last + 1
      invariant now == covered + set k | r.first <= k < n :: Cell(r.page, k)
      invariant forall k :: r.first <= k < n ==> Cell(r.page, k) !in covered
    {
      var cell := Cell(r.page, n);
      if cell in now {
        assert cell in Cells(r);
        return false, covered;
      }
      now := now + {cell};
    }
    assert Cells(r) == set k | r.first <= k < r.last + 1 :: Cell(r.page, k);
    ok := true;
  }

  /** The nodes before i, by id. */
  ghost predicate Seen(x: Extracted, i: nat, seen: map<NodeId, Node>)
    requires i <= |x.nodes|
  {
    && (forall j :: 0 <= j < i ==> x.nodes[j].id in seen && seen[x.nodes[j].id] == x.nodes[j])
    && (forall id :: id in seen ==> exists j :: 0 <= j < i && x.nodes[j].id == id)
  }

  /** One node against its source and the nodes before it. */
  method CheckNode(x: Extracted, i: nat, seen: map<NodeId, Node>) returns (ok: bool, met: map<NodeId, Node>)
    requires i < |x.nodes| && InDocument(x.pages, x.nodes[i].source) && Seen(x, i, seen)
    ensures ok <==> NodeGood(x, i)
    ensures ok ==> Seen(x, i + 1, met)
  {
    var n := x.nodes[i];
    var nested := CheckParent(x, i, seen);
    ok := nested
          && n.id !in seen && n.order == i + 1 && (if i == 0 then true else Before(Start(x.nodes[i - 1].source), Start(n.source)))
          && n.id == NodeId(x.source, n.kind, n.source, n.title)
          && n.title == Join(x.pages[n.source.page - 1].lines[n.source.first - 1..n.source.last]);
    met := seen[n.id := n];
  }

  method CheckParent(x: Extracted, i: nat, seen: map<NodeId, Node>) returns (ok: bool)
    requires i < |x.nodes| && Seen(x, i, seen)
    ensures ok <==> Nests(x.nodes, i)
  {
    var n := x.nodes[i];
    if n.parent.None? {
      return true;
    }
    ok := n.parent.value in seen && MayContain(seen[n.parent.value].kind, n.kind);
  }

  lemma ClaimNext(refs: seq<Ref>, i: nat, n: nat)
    requires i < n <= |refs|
    ensures Disjoint(refs[..i + 1]) <==> Disjoint(refs[..i]) && Cells(refs[i]) !! AllCells(refs[..i])
    ensures AllCells(refs[..i + 1]) == AllCells(refs[..i]) + Cells(refs[i])
    ensures Disjoint(refs[..n]) ==> Disjoint(refs[..i + 1])
  {
    assert refs[..i + 1] == refs[..i] + [refs[i]];
    DisjointSnoc(refs[..i], refs[i]);
  }

  /** The first i references are disjoint and have been claimed. */
  ghost predicate Claimed(refs: seq<Ref>, i: nat, covered: set<Cell>)
    requires i <= |refs|
  {
    Disjoint(refs[..i]) && covered == AllCells(refs[..i])
  }

  /** Claims the lines of reference i, after those before it. */
  method ClaimInTurn(pages: seq<Page>, r: Ref, covered: set<Cell>, ghost refs: seq<Ref>, ghost i: nat, ghost n: nat) returns (ok: bool, now: set<Cell>)
    requires i < n <= |refs| && refs[i] == r && Claimed(refs, i, covered)
    ensures ok ==> InDocument(pages, r) && Claimed(refs, i + 1, now)
    ensures !ok && InDocument(pages, r) ==> !Disjoint(refs[..n])
  {
    ClaimNext(refs, i, n);
    ok, now := Claim(pages, r, covered);
  }

  /** The loop over the nodes. */
  method CheckNodes(x: Extracted, ghost refs: seq<Ref>) returns (ok: bool, covered: set<Cell>)
    requires |refs| >= |x.nodes| && forall i :: 0 <= i < |x.nodes| ==> refs[i] == x.nodes[i].source
    ensures ok ==> AllNodesGood(x) && Claimed(refs, |x.nodes|, covered)
    ensures !ok ==> !AllNodesGood(x) || !Disjoint(refs[..|x.nodes|])
  {
    var seen: map<NodeId, Node> := map[];
    covered := {};
    for i := 0 to |x.nodes|
      invariant forall j :: 0 <= j < i ==> NodeGood(x, j)
      invariant Seen(x, i, seen) && Claimed(refs, i, covered)
    {
      var n := x.nodes[i];
      var claimed, now := ClaimInTurn(x.pages, n.source, covered, refs, i, |x.nodes|);
      if !claimed {
        assert NodeGood(x, i) ==> InDocument(x.pages, n.source);
        return false, covered;
      }
      var good, met := CheckNode(x, i, seen);
      if !good {
        return false, covered;
      }
      covered, seen := now, met;
    }
    ok := true;
  }

  /** The loop over the unclassified references, the last of refs. */
  method CheckUnclassified(pages: seq<Page>, rest: seq<Ref>, start: set<Cell>, ghost refs: seq<Ref>, ghost k: nat)
    returns (ok: bool, covered: set<Cell>)
    requires |refs| == k + |rest| && forall i :: 0 <= i < |rest| ==> refs[k + i] == rest[i]
    requires Claimed(refs, k, start)
    ensures ok ==> RestOrdered(pages, rest, |rest|) && Claimed(refs, |refs|, covered)
    ensures !ok ==> !RestOrdered(pages, rest, |rest|) || !Disjoint(refs[..|refs|])
  {
    covered := start;
    for i := 0 to |rest|
      invariant RestOrdered(pages, rest, i) && Claimed(refs, k + i, covered)
    {
      var r := rest[i];
      var claimed, now := ClaimInTurn(pages, r, covered, refs, k + i, |refs|);
      if !claimed || (i > 0 && !Before(End(rest[i - 1]), Start(r))) {
        return false, covered;
      }
      covered := now;
    }
    ok := true;
  }

  /** Both loops, sharing the set of claimed lines. */
  method CheckClaims(x: Extracted, ghost refs: seq<Ref>) returns (ok: bool, covered: set<Cell>)
    requires |refs| == |x.nodes| + |x.unclassified|
    requires forall i :: 0 <= i < |x.nodes| ==> refs[i] == x.nodes[i].source
    requires forall i :: 0 <= i < |x.unclassified| ==> refs[|x.nodes| + i] == x.unclassified[i]
    ensures ok <==> AllNodesGood(x) && RestOrdered(x.pages, x.unclassified, |x.unclassified|) && Disjoint(refs)
    ensures ok ==> covered == AllCells(refs)
  {
    assert refs[..|refs|] == refs;
    ok, covered := CheckNodes(x, refs);
    if ok {
      ok, covered := CheckUnclassified(x.pages, x.unclassified, covered, refs, |x.nodes|);
    }
  }

  method CheckNumbers(pages: seq<Page>) returns (ok: bool)
    ensures ok <==> Numbered(pages)
  {
    for i := 0 to |pages|
      invariant forall j :: 0 <= j < i ==> pages[j].number == j + 1
    {
      if pages[i].number != i + 1 {
        return false;
      }
    }
    ok := true;
  }

  method CheckWarnings(x: Extracted) returns (ok: bool)
    ensures ok <==> forall i :: 0 <= i < |x.warnings| ==> WarningValid(x.pages, x.warnings[i])
  {
    for i := 0 to |x.warnings|
      invariant forall j :: 0 <= j < i ==> WarningValid(x.pages, x.warnings[j])
    {
      var w := x.warnings[i];
      if (w.page.Some? && !(1 <= w.page.value <= |x.pages|))
         || (w.source.Some? && !(InDocument(x.pages, w.source.value) && w.page == Some(w.source.value.page))) {
        assert !WarningValid(x.pages, w);
        return false;
      }
    }
    ok := true;
  }

  function TextCells(pages: seq<Page>): set<Cell> {
    set p, n | 0 <= p < |pages| && 0 <= n < |pages[p].lines| && pages[p].lines[n].title != "" :: Cell(p + 1, n + 1)
  }

  lemma AllTextCovered(x: Extracted)
    ensures TextCells(x.pages) <= AllCells(Refs(x)) <==> forall c :: IsText(x.pages, c) ==> Covers(Refs(x), c)
  {
    forall c ensures c in AllCells(Refs(x)) <==> Covers(Refs(x), c) {
      AllCellsAre(Refs(x), c);
    }
    forall c ensures c in TextCells(x.pages) <==> IsText(x.pages, c) {
    }
  }

  /** validate_traceability, apart from the summary counts: it accepts exactly the traceable
      extractions. */
  method ValidateTraceability(x: Extracted) returns (ok: bool)
    ensures ok <==> Traceable(x)
  {
    var numbers := CheckNumbers(x.pages);
    if !numbers || x.source.pageCount != |x.pages| {
      return false;
    }
    var claims, covered := CheckClaims(x, Refs(x));
    if !claims {
      return false;
    }
    AllTextCovered(x);
    if !(TextCells(x.pages) <= covered) {
      return false;
    }
    ok := CheckWarnings(x);
  }

  // ---------------------------------------------------------------- every check bites

  function Replaced(x: Extracted, i: nat, n: Node): Extracted
    requires i < |x.nodes|
  {
    x.(nodes := x.nodes[i := n])
  }

  /** No traceable extraction stays traceable when one node is given another title, even under the id that
      goes with it, another id, or another place in the order. */
  lemma TamperedNodeRefused(x: Extracted, i: nat, title: string, id: NodeId, order: nat)
    requires Traceable(x) && i < |x.nodes|
    ensures var n := x.nodes[i];
            && (title != n.title ==> !Traceable(Replaced(x, i, n.(title := title, id := n.id.(title := title)))))
            && (id != n.id ==> !Traceable(Replaced(x, i, n.(id := id))))
            && (order != n.order ==> !Traceable(Replaced(x, i, n.(order := order))))
  {
    var n := x.nodes[i];
    assert NodeGood(x, i);
    RefusedAt(x, i, n.(title := title, id := n.id.(title := title)));
    RefusedAt(x, i, n.(id := id));
    RefusedAt(x, i, n.(order := order));
  }

  lemma RefusedAt(x: Extracted, i: nat, n: Node)
    requires i < |x.nodes| && NodeGood(x, i) && n.source == x.nodes[i].source && n.kind == x.nodes[i].kind
    ensures Traceable(Replaced(x, i, n)) ==> n.title == x.nodes[i].title && n.order == x.nodes[i].order && n.id == x.nodes[i].id
  {
    if Traceable(Replaced(x, i, n)) {
      assert NodeGood(Replaced(x, i, n), i);
    }
  }

  /** Nor when two neighbouring nodes change places, each with the number of its new one. */
  lemma SwappedNodesRefused(x: Extracted, i: nat)
    requires Traceable(x) && i + 1 < |x.nodes|
    ensures var a, b := x.nodes[i].(order := i + 2), x.nodes[i + 1].(order := i + 1);
            !Traceable(x.(nodes := x.nodes[i := b][i + 1 := a]))
  {
    var a, b := x.nodes[i].(order := i + 2), x.nodes[i + 1].(order := i + 1);
    var y := x.(nodes := x.nodes[i := b][i + 1 := a]);
    NeighboursInOrder(x, i);
    NeighboursInOrder(y, i);
  }

  lemma NeighboursInOrder(x: Extracted, i: nat)
    requires i + 1 < |x.nodes|
    ensures Traceable(x) ==> Before(Start(x.nodes[i].source), Start(x.nodes[i + 1].source))
  {
    if Traceable(x) {
      assert NodeGood(x, i + 1);
    }
  }

  /** Nor when a node moves below a later one, or below one that may not contain it. */
  lemma MisplacedNodeRefused(x: Extracted, i: nat, j: nat)
    requires Traceable(x) && i < |x.nodes| && j < |x.nodes| && (j >= i || Rank(x.nodes[j].kind) > Rank(x.nodes[i].kind))
    ensures !Traceable(Replaced(x, i, x.nodes[i].(parent := Some(x.nodes[j].id))))
  {
    var y := Replaced(x, i, x.nodes[i].(parent := Some(x.nodes[j].id)));
    assert y.nodes[j].id == x.nodes[j].id && y.nodes[j].kind == x.nodes[j].kind;
    ParentBefore(y, i, j);
  }

  lemma ParentBefore(x: Extracted, i: nat, j: nat)
    requires i < |x.nodes| && j < |x.nodes| && x.nodes[i].parent == Some(x.nodes[j].id)
    ensures Traceable(x) ==> j < i && Rank(x.nodes[j].kind) <= Rank(x.nodes[i].kind)
  {
    if Traceable(x) {
      assert NodeGood(x, i);
      var h :| 0 <= h < i && x.nodes[h].id == x.nodes[j].id && MayContain(x.nodes[h].kind, x.nodes[i].kind);
      forall a, b | 0 <= a < b < |x.nodes| ensures x.nodes[a].id != x.nodes[b].id {
        assert NodeGood(x, b);
      }
    }
  }

  /** Nor when an unclassified range that holds text is left out, or a warning is added that names one page
      and points at another. */
  lemma LeftOutRangeRefused(x: Extracted, c: Cell)
    requires Traceable(x) && x.unclassified != [] && c in Cells(x.unclassified[|x.unclassified| - 1]) && IsText(x.pages, c)
    ensures !Traceable(x.(unclassified := x.unclassified[..|x.unclassified| - 1]))
  {
    var y := x.(unclassified := x.unclassified[..|x.unclassified| - 1]);
    var last := |Refs(x)| - 1;
    assert Refs(x)[last] == x.unclassified[|x.unclassified| - 1];
    forall i | 0 <= i < |Refs(y)| ensures c !in Cells(Refs(y)[i]) {
      assert Refs(y)[i] == Refs(x)[i] && Apart(Refs(x)[i], Refs(x)[last]);
    }
    assert !Covers(Refs(y), c);
  }

  lemma WrongWarningRefused(x: Extracted, code: Code, page: nat, r: Ref)
    requires page != r.page
    ensures !Traceable(x.(warnings := x.warnings + [Warning(code, Some(page), Some(r))]))
  {
    var y := x.(warnings := x.warnings + [Warning(code, Some(page), Some(r))]);
    assert y.warnings[|x.warnings|] == Warning(code, Some(page), Some(r));
    assert !WarningValid(y.pages, y.warnings[|x.warnings|]);
  }
}
