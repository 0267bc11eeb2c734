/** Where each heading of a scanned document hangs and of what kind it is, told by position from the
    headings before it (packages/curriculum/structure.py:54-108). */
module StructureParents {
  import opened Support
  import opened Extraction
  import opened Structure
  import opened StructureTraceability

  // ---------------------------------------------------------------- by position

  /** Heading k ends the use of a number for those after it: it starts the numbering afresh, carries the
      number itself, or carries one that the number extends. */
  predicate Supersedes(k: Head, number: Number) {
    Top(k.kind) || k.number == number || (k.number != [] && k.number < number)
  }

  /** Heading j is the one in use under the number among the first i. */
  ghost predicate InUse(heads: seq<Head>, i: nat, j: nat, number: Number)
    requires i <= |heads|
  {
    j < i && heads[j].number == number && forall k :: j < k < i ==> !Supersedes(heads[k], number)
  }

  /** Heading j is in use under what heading i's number extends by one part. */
  ghost predicate Above(heads: seq<Head>, i: nat, j: nat)
    requires i < |heads|
  {
    |heads[i].number| > 1 && InUse(heads, i, j, heads[i].number[..|heads[i].number| - 1])
  }

  /** Such a heading is taken as the parent if it does not rank after heading i, which must not itself
      start the numbering afresh. */
  ghost predicate FitsAbove(heads: seq<Head>, i: nat, j: nat)
    requires i < |heads|
  {
    !Top(heads[i].kind) && Above(heads, i, j) && Rank(heads[j].kind) <= Rank(heads[i].kind)
  }

  /** Heading j is the last before heading i of strictly lower rank. */
  ghost predicate LastLower(heads: seq<Head>, i: nat, j: nat)
    requires i < |heads|
  {
    j < i && Rank(heads[j].kind) < Rank(heads[i].kind) && forall k :: j < k < i ==> Rank(heads[k].kind) >= Rank(heads[i].kind)
  }

  ghost predicate Adopts(heads: seq<Head>, i: nat, j: nat)
    requires i < |heads|
  {
    FitsAbove(heads, i, j) || (LastLower(heads, i, j) && forall k :: 0 <= k < i ==> !FitsAbove(heads, i, k))
  }

  // ---------------------------------------------------------------- the recursive forms find them

  lemma {:induction false} VisibleIsInUse(heads: seq<Head>, number: Number)
    requires number != []
    ensures forall j :: 0 <= j < |heads| ==> (InUse(heads, |heads|, j, number) <==> Visible(heads, number) == Some(j))
  {
    if heads != [] {
      var k := |heads| - 1;
      VisibleIsInUse(heads[..k], number);
      forall j | 0 <= j < |heads|
        ensures InUse(heads, |heads|, j, number) <==> Visible(heads, number) == Some(j)
      {
        if j < k {
          assert InUse(heads, |heads|, j, number) <==> InUse(heads[..k], k, j, number) && !Supersedes(heads[k], number);
        }
      }
    }
  }

  lemma {:induction false} NearestIsLast(heads: seq<Head>, kind: Kind)
    ensures match NearestLower(heads, kind)
            case Some(j) => forall k :: j < k < |heads| ==> Rank(heads[k].kind) >= Rank(kind)
            case None => forall k :: 0 <= k < |heads| ==> Rank(heads[k].kind) >= Rank(kind)
  {
    if heads != [] {
      NearestIsLast(heads[..|heads| - 1], kind);
    }
  }

  lemma PrefixInUse(heads: seq<Head>, i: nat, j: nat, number: Number)
    requires i <= |heads|
    ensures InUse(heads, i, j, number) <==> InUse(heads[..i], i, j, number)
  {
  }

  lemma ParentAdopts(heads: seq<Head>, i: nat)
    requires i < |heads|
    ensures match ParentOf(heads[..i], heads[i])
            case Some(j) => Adopts(heads, i, j)
            case None => forall j :: 0 <= j < i ==> !Adopts(heads, i, j)
  {
    var front, h := heads[..i], heads[i];
    NearestIsLast(front, h.kind);
    if |h.number| > 1 {
      var number := h.number[..|h.number| - 1];
      VisibleIsInUse(front, number);
      forall j | 0 <= j < i ensures Above(heads, i, j) <==> Visible(front, number) == Some(j) {
        PrefixInUse(heads, i, j, number);
      }
    }
  }

  lemma AdoptsOne(heads: seq<Head>, i: nat, j: nat, k: nat)
    requires i < |heads| && Adopts(heads, i, j) && Adopts(heads, i, k)
    ensures j == k
  {
    if FitsAbove(heads, i, j) && FitsAbove(heads, i, k) {
      var number := heads[i].number[..|heads[i].number| - 1];
      assert forall m :: j < m < i ==> !Supersedes(heads[m], number);
      assert forall m :: k < m < i ==> !Supersedes(heads[m], number);
    }
  }

  // ---------------------------------------------------------------- nodes of a document

  /** Node i and heading i were made of that line, with the headings before it in view. */
  ghost predicate MadeOf(source: Source, nodes: seq<Node>, heads: seq<Head>, i: nat, l: Located)
    requires |nodes| == |heads| && i < |heads|
  {
    IsHeading(l.line) && nodes[i] == NodeFor(source, nodes[..i], heads[..i], l) && heads[i] == HeadOf(heads[..i], l.line.shape)
  }

  lemma {:induction false} NodesAreMade(source: Source, lines: seq<Located>, i: nat)
    requires i < |Heads(lines)|
    ensures exists m :: 0 <= m < |lines| && MadeOf(source, Nodes(source, lines), Heads(lines), i, lines[m])
  {
    var k := |lines| - 1;
    var nodes, heads := Nodes(source, lines), Heads(lines);
    var before, front := Nodes(source, lines[..k]), Heads(lines[..k]);
    if i < |front| {
      NodesAreMade(source, lines[..k], i);
      var m :| 0 <= m < k && MadeOf(source, before, front, i, lines[..k][m]);
      assert nodes[..i] == before[..i] && heads[..i] == front[..i] && nodes[i] == before[i] && heads[i] == front[i];
      assert MadeOf(source, nodes, heads, i, lines[m]);
    } else {
      assert nodes[..i] == before && heads[..i] == front;
      assert MadeOf(source, nodes, heads, i, lines[k]);
    }
  }

  /** A heading hangs below the heading in use under the number it extends, if that fits, and else below
      the last heading before it of strictly lower rank; it has no parent exactly when there is neither. */
  lemma ParentByPosition(source: Source, lines: seq<Located>, i: nat)
    requires Increasing(lines) && i < |Heads(lines)|
    ensures var nodes, heads := Nodes(source, lines), Heads(lines);
            && (forall j :: 0 <= j < i ==> (nodes[i].parent == Some(nodes[j].id) <==> Adopts(heads, i, j)))
            && (nodes[i].parent.None? <==> forall j :: 0 <= j < i ==> !Adopts(heads, i, j))
  {
    var nodes, heads := Nodes(source, lines), Heads(lines);
    NodesAreMade(source, lines, i);
    hide Adopts, ParentOf, HeadOf, Nodes, Heads;
    ParentAdopts(heads, i);
    NodesAreInOrder(source, lines);
    DistinctNodeIds(source, lines, nodes);
    forall j | 0 <= j < i ensures nodes[i].parent == Some(nodes[j].id) <==> Adopts(heads, i, j) {
      if Adopts(heads, i, j) && ParentOf(heads[..i], heads[i]).Some? {
        AdoptsOne(heads, i, j, ParentOf(heads[..i], heads[i]).value);
      }
    }
  }

  /** In particular a heading without a fitting numeric parent has one exactly when some heading before it
      ranks lower. */
  lemma NestedByRank(source: Source, lines: seq<Located>, i: nat)
    requires Increasing(lines) && i < |Heads(lines)|
    requires forall j :: 0 <= j < i ==> !FitsAbove(Heads(lines), i, j)
    ensures var nodes, heads := Nodes(source, lines), Heads(lines);
            && (nodes[i].parent.None? <==> forall j :: 0 <= j < i ==> Rank(heads[j].kind) >= Rank(heads[i].kind))
            && (forall j :: 0 <= j < i && LastLower(heads, i, j) ==> nodes[i].parent == Some(nodes[j].id))
  {
    var nodes, heads := Nodes(source, lines), Heads(lines);
    ParentByPosition(source, lines, i);
    if exists j :: 0 <= j < i && Rank(heads[j].kind) < Rank(heads[i].kind) {
      var j :| 0 <= j < i && Rank(heads[j].kind) < Rank(heads[i].kind);
      var last := LastOfLower(heads, i, j);
      assert Adopts(heads, i, last);
    }
  }

  lemma LastOfLower(heads: seq<Head>, i: nat, j: nat) returns (last: nat)
    requires j < i < |heads| && Rank(heads[j].kind) < Rank(heads[i].kind)
    ensures LastLower(heads, i, last)
    decreases i - j
  {
    if k :| j < k < i && Rank(heads[k].kind) < Rank(heads[i].kind) {
      last := LastOfLower(heads, i, k);
    } else {
      last := j;
    }
  }

  /** The heading in use right above heading i is a topic or a subtopic. */
  ghost predicate BelowTopic(heads: seq<Head>, i: nat)
    requires i < |heads|
  {
    exists j :: 0 <= j < i && Above(heads, i, j) && heads[j].kind in {Topic, Subtopic}
  }

  ghost predicate HasAbove(heads: seq<Head>, i: nat)
    requires i < |heads|
  {
    exists j :: 0 <= j < i && Above(heads, i, j)
  }

  lemma AboveIsNumberParent(heads: seq<Head>, i: nat)
    requires i < |heads|
    ensures forall j :: 0 <= j < i ==> (Above(heads, i, j) <==> NumberParent(heads[..i], heads[i].number) == Some(j))
  {
    var front, h := heads[..i], heads[i];
    if |h.number| > 1 {
      var number := h.number[..|h.number| - 1];
      VisibleIsInUse(front, number);
      forall j | 0 <= j < i ensures Above(heads, i, j) <==> Visible(front, number) == Some(j) {
        PrefixInUse(heads, i, j, number);
      }
    }
  }

  /** What the node and its number take from the line itself. A decimal heading is a subtopic below a topic
      or a subtopic, or from four parts on; otherwise two parts make a section, one or three a topic; its
      confidence is higher when it extends a number in use. */
  ghost predicate ReadsAs(heads: seq<Head>, i: nat, n: Node, l: Located)
    requires i < |heads|
  {
    && n.source == RefOf(l) && n.title == l.line.title && n.order == i + 1 && heads[i].kind == n.kind
    && match l.line.shape
       case Keyword(kind, number) =>
         n.kind == kind && heads[i].number == number && n.detection == KeywordNumber && n.confidence == 0.98
       case Decimal(number) =>
         && heads[i].number == number && n.detection == DecimalNumber
         && (n.kind == Subtopic <==> BelowTopic(heads, i) || |number| == 0 || |number| >= 4)
         && (n.kind == Section <==> !BelowTopic(heads, i) && |number| == 2)
         && (n.kind == Topic <==> !BelowTopic(heads, i) && (|number| == 1 || |number| == 3))
         && n.confidence == (if HasAbove(heads, i) then 0.9 else 0.8)
       case Syllabus => n.kind == Section && heads[i].number == [] && n.detection == SyllabusHeading && n.confidence == 0.85
       case RepeatedCaps => n.kind == Section && heads[i].number == [] && n.detection == Caps && n.confidence == 0.65
       case Plain(_) => false
  }

  lemma KindByPosition(source: Source, lines: seq<Located>, i: nat)
    requires i < |Heads(lines)|
    ensures exists m :: 0 <= m < |lines| && ReadsAs(Heads(lines), i, Nodes(source, lines)[i], lines[m])
  {
    var nodes, heads := Nodes(source, lines), Heads(lines);
    NodesAreMade(source, lines, i);
    var m :| 0 <= m < |lines| && MadeOf(source, nodes, heads, i, lines[m]);
    AboveIsNumberParent(heads, i);
    assert ReadsAs(heads, i, nodes[i], lines[m]);
  }
}
