/** The scan that turns classified lines into a heading tree, and when its result is traceable
    (packages/curriculum/structure.py:35-114). */
module Structure {
  import opened Support
  import opened Extraction

  /** A line with its page and its number on the page. */
  datatype Located = Located(page: Pos, n: Pos, line: Line)

  function PageLines(page: Page): seq<Located> {
    seq(|page.lines|, i requires 0 <= i < |page.lines| => Located(page.number, i + 1, page.lines[i]))
  }

  function Flatten(pages: seq<Page>): seq<Located> {
    if pages == [] then [] else Flatten(pages[..|pages| - 1]) + PageLines(pages[|pages| - 1])
  }

  predicate IsHeading(l: Line) {
    l.title != "" && !l.shape.Plain?
  }

  predicate IsPlain(l: Line) {
    l.title != "" && l.shape.Plain?
  }

  /** What the heading patterns can yield. */
  predicate ValidShape(s: Shape) {
    match s
    case Keyword(kind, number) => kind != Subtopic && number != []
    case Decimal(number) => number != []
    case _ => true
  }

  // ---------------------------------------------------------------- numbers and nesting

  datatype Head = Head(kind: Kind, number: Number)

  /** The kinds that start the numbering afresh. */
  predicate Top(k: Kind) {
    k.Module? || k.Unit? || k.Chapter?
  }

  /** The latest heading with the given number, unless the numbering restarted or a heading that the
      number extends came after it. */
  function Visible(heads: seq<Head>, number: Number): (r: Option<nat>)
    ensures r.Some? ==> r.value < |heads| && heads[r.value].number == number
  {
    if heads == [] then None
    else
      var k := |heads| - 1;
      if heads[k].number == number then Some(k)
      else if Top(heads[k].kind) || (heads[k].number != [] && heads[k].number < number) then None
      else Visible(heads[..k], number)
  }

  function NumberParent(heads: seq<Head>, number: Number): (r: Option<nat>)
    ensures r.Some? ==> r.value < |heads|
  {
    if |number| > 1 then Visible(heads, number[..|number| - 1]) else None
  }

  /** The kind of a heading: a decimal heading under a topic or a subtopic is a subtopic, any other
      goes by its depth. */
  function KindOf(heads: seq<Head>, s: Shape): Kind {
    match s
    case Keyword(kind, _) => kind
    case Decimal(number) =>
      var p := NumberParent(heads, number);
      if p.Some? && heads[p.value].kind in {Topic, Subtopic} then Subtopic
      else if |number| == 1 || |number| == 3 then Topic
      else if |number| == 2 then Section
      else Subtopic
    case _ => Section
  }

  function NumberOf(s: Shape): Number {
    match s
    case Keyword(_, number) => number
    case Decimal(number) => number
    case _ => []
  }

  function HeadOf(heads: seq<Head>, s: Shape): Head {
    Head(KindOf(heads, s), NumberOf(s))
  }

  /** The nearest earlier heading of strictly lower rank. */
  function NearestLower(heads: seq<Head>, kind: Kind): (r: Option<nat>)
    ensures r.Some? ==> r.value < |heads| && Rank(heads[r.value].kind) < Rank(kind)
  {
    if heads == [] then None
    else
      var k := |heads| - 1;
      if Rank(heads[k].kind) < Rank(kind) then Some(k) else NearestLower(heads[..k], kind)
  }

  function NumericParent(heads: seq<Head>, h: Head): (r: Option<nat>)
    ensures r.Some? ==> r.value < |heads|
  {
    if Top(h.kind) then None else NumberParent(heads, h.number)
  }

  /** The parent of a heading: by number if that does not rank after it, else by nesting. */
  function ParentOf(heads: seq<Head>, h: Head): (r: Option<nat>)
    ensures r.Some? ==> r.value < |heads| && Rank(heads[r.value].kind) <= Rank(h.kind)
  {
    var p := NumericParent(heads, h);
    if p.Some? && Rank(heads[p.value].kind) <= Rank(h.kind) then p else NearestLower(heads, h.kind)
  }

  function Heads(lines: seq<Located>): seq<Head> {
    if lines == [] then []
    else
      var k := |lines| - 1;
      var before := Heads(lines[..k]);
      if IsHeading(lines[k].line) then before + [HeadOf(before, lines[k].line.shape)] else before
  }

  // ---------------------------------------------------------------- the result

  function RefOf(l: Located): Ref {
    Ref(l.page, l.n, l.n)
  }

  function DetectionOf(s: Shape): Method {
    match s
    case Keyword(_, _) => KeywordNumber
    case Decimal(_) => DecimalNumber
    case Syllabus => SyllabusHeading
    case _ => Caps
  }

  function ConfidenceOf(heads: seq<Head>, s: Shape): real {
    match s
    case Keyword(_, _) => 0.98
    case Decimal(number) => if NumberParent(heads, number).Some? then 0.9 else 0.8
    case Syllabus => 0.85
    case _ => 0.65
  }

  function NodeFor(source: Source, nodes: seq<Node>, heads: seq<Head>, l: Located): Node
    requires |nodes| == |heads|
  {
    var h := HeadOf(heads, l.line.shape);
    var p := ParentOf(heads, h);
    Node(NodeId(source, h.kind, RefOf(l), l.line.title), h.kind, l.line.title,
         if p.Some? then Some(nodes[p.value].id) else None, |nodes| + 1, RefOf(l),
         DetectionOf(l.line.shape), ConfidenceOf(heads, l.line.shape))
  }

  function Nodes(source: Source, lines: seq<Located>): (nodes: seq<Node>)
    ensures |nodes| == |Heads(lines)|
  {
    if lines == [] then []
    else
      var k := |lines| - 1;
      var before := Nodes(source, lines[..k]);
      if IsHeading(lines[k].line) then before + [NodeFor(source, before, Heads(lines[..k]), lines[k])] else before
  }

  /** Each plain line extends the last range if it directly follows it on the same page. */
  function Runs(lines: seq<Located>): seq<Ref> {
    if lines == [] then []
    else
      var k := |lines| - 1;
      var before, l := Runs(lines[..k]), lines[k];
      if IsPlain(l.line) then AddPlain(before, l) else before
  }

  function AddPlain(runs: seq<Ref>, l: Located): seq<Ref> {
    if runs != [] && Extends(runs[|runs| - 1], l)
    then runs[..|runs| - 1] + [Ref(l.page, runs[|runs| - 1].first, l.n)]
    else runs + [RefOf(l)]
  }

  predicate Extends(r: Ref, l: Located) {
    r.page == l.page && r.last == l.n - 1
  }

  function Warnings(lines: seq<Located>): seq<Warning> {
    if lines == [] then []
    else
      var k := |lines| - 1;
      var before, l := Warnings(lines[..k]), lines[k];
      if IsPlain(l.line) && l.line.shape.ambiguous then before + [Warning(AmbiguousHeading, Some(l.page), Some(RefOf(l)))] else before
  }

  // ---------------------------------------------------------------- the stack and the number map

  function Pop(stack: seq<Node>, kind: Kind): seq<Node> {
    if stack != [] && Rank(stack[|stack| - 1].kind) >= Rank(kind) then Pop(stack[..|stack| - 1], kind) else stack
  }

  function StackOf(nodes: seq<Node>): seq<Node> {
    if nodes == [] then []
    else
      var k := |nodes| - 1;
      Pop(StackOf(nodes[..k]), nodes[k].kind) + [nodes[k]]
  }

  ghost predicate SameKinds(nodes: seq<Node>, heads: seq<Head>) {
    |nodes| == |heads| && forall i :: 0 <= i < |nodes| ==> nodes[i].kind == heads[i].kind
  }

  lemma {:induction false} PopTwice(stack: seq<Node>, first: Kind, second: Kind)
    requires Rank(second) <= Rank(first)
    ensures Pop(Pop(stack, first), second) == Pop(stack, second)
  {
    if stack != [] && Rank(stack[|stack| - 1].kind) >= Rank(first) {
      PopTwice(stack[..|stack| - 1], first, second);
    }
  }

  /** What the popped stack shows on top is the nearest heading of lower rank. */
  lemma {:induction false} StackShowsNearest(nodes: seq<Node>, heads: seq<Head>, kind: Kind)
    requires SameKinds(nodes, heads)
    ensures var r := NearestLower(heads, kind);
            LastOf(Pop(StackOf(nodes), kind)) == if r.Some? then Some(nodes[r.value]) else None
  {
    if nodes != [] {
      var k := |nodes| - 1;
      var front := Pop(StackOf(nodes[..k]), nodes[k].kind);
      var stack := front + [nodes[k]];
      assert stack[..|front|] == front;
      if Rank(nodes[k].kind) >= Rank(kind) {
        assert Pop(stack, kind) == Pop(front, kind);
        PopTwice(StackOf(nodes[..k]), nodes[k].kind, kind);
        StackShowsNearest(nodes[..k], heads[..k], kind);
      }
    }
  }

  /** The number map holds exactly the visible headings. */
  ghost predicate Records(numbered: map<Number, Node>, nodes: seq<Node>, heads: seq<Head>)
    requires |nodes| == |heads|
  {
    && [] !in numbered
    && forall number: Number :: number != [] ==> RecordsNumber(numbered, nodes, heads, number)
  }

  ghost predicate RecordsNumber(numbered: map<Number, Node>, nodes: seq<Node>, heads: seq<Head>, number: Number)
    requires |nodes| == |heads|
  {
    var r := Visible(heads, number);
    (number in numbered <==> r.Some?) && (r.Some? && number in numbered ==> numbered[number] == nodes[r.value])
  }

  function Recorded(numbered: map<Number, Node>, node: Node, h: Head): map<Number, Node> {
    var cleared := if Top(h.kind) then map[] else numbered;
    if h.number == [] then cleared
    else (map key | key in cleared && !(h.number < key) :: cleared[key])[h.number := node]
  }

  lemma RecordsGrow(numbered: map<Number, Node>, nodes: seq<Node>, heads: seq<Head>, node: Node, h: Head)
    requires |nodes| == |heads| && Records(numbered, nodes, heads)
    ensures Records(Recorded(numbered, node, h), nodes + [node], heads + [h])
  {
    var all := heads + [h];
    assert all[..|heads|] == heads;
    forall number: Number | number != [] ensures RecordsNumber(Recorded(numbered, node, h), nodes + [node], all, number) {
      assert RecordsNumber(numbered, nodes, heads, number);
    }
  }

  lemma {:induction false} NodesMatchHeads(source: Source, lines: seq<Located>)
    ensures SameKinds(Nodes(source, lines), Heads(lines))
  {
    if lines != [] {
      NodesMatchHeads(source, lines[..|lines| - 1]);
    }
  }

  // ---------------------------------------------------------------- the scan

  /** detect_structure: one pass over the lines. */
  method DetectStructure(source: Source, pages: seq<Page>) returns (nodes: seq<Node>, unclassified: seq<Ref>, warnings: seq<Warning>)
    ensures nodes == Nodes(source, Flatten(pages))
    ensures unclassified == Runs(Flatten(pages))
    ensures warnings == Warnings(Flatten(pages))
  {
    var lines := Flatten(pages);
    nodes, unclassified, warnings := [], [], [];
    var stack: seq<Node> := [];
    var numbered: map<Number, Node> := map[];
    for i := 0 to |lines|
      invariant nodes == Nodes(source, lines[..i]) && unclassified == Runs(lines[..i]) && warnings == Warnings(lines[..i])
      invariant stack == StackOf(nodes) && Records(numbered, nodes, Heads(lines[..i]))
    {
      var l := lines[i];
      assert lines[..i + 1][..i] == lines[..i];
      if l.line.title == "" {
        continue;
      }
      if l.line.shape.Plain? {
        if l.line.shape.ambiguous {
          warnings := warnings + [Warning(AmbiguousHeading, Some(l.page), Some(RefOf(l)))];
        }
        unclassified := AddPlain(unclassified, l);
        continue;
      }
      NodesMatchHeads(source, lines[..i]);
      var node, left, recorded := AddHeading(source, nodes, Heads(lines[..i]), l, stack, numbered);
      assert (nodes + [node])[..|nodes|] == nodes;
      nodes, stack, numbered := nodes + [node], left, recorded;
    }
    assert lines[..|lines|] == lines;
  }

  /** One heading: its kind, its parent, and the stack and the number map after it. */
  method AddHeading(source: Source, nodes: seq<Node>, ghost heads: seq<Head>, l: Located, stack: seq<Node>, numbered: map<Number, Node>)
    returns (node: Node, left: seq<Node>, recorded: map<Number, Node>)
    requires SameKinds(nodes, heads) && stack == StackOf(nodes) && Records(numbered, nodes, heads) && !l.line.shape.Plain?
    ensures node == NodeFor(source, nodes, heads, l)
    ensures left == StackOf(nodes + [node])
    ensures Records(recorded, nodes + [node], heads + [HeadOf(heads, l.line.shape)])
  {
    var number := NumberOf(l.line.shape);
    var kind, confidence := Classify(nodes, heads, l.line.shape, numbered);
    var cleared := if Top(kind) then map[] else numbered;
    var popped, parent := FindParent(nodes, heads, Head(kind, number), stack, numbered, cleared);
    node := Node(NodeId(source, kind, RefOf(l), l.line.title), kind, l.line.title,
                 if parent.Some? then Some(parent.value.id) else None, |nodes| + 1, RefOf(l),
                 DetectionOf(l.line.shape), confidence);
    assert (nodes + [node])[..|nodes|] == nodes;
    left := popped + [node];
    recorded := cleared;
    if number != [] {
      recorded := map key | key in cleared && !(number < key) :: cleared[key];
      recorded := recorded[number := node];
    }
    RecordsGrow(numbered, nodes, heads, node, Head(kind, number));
    assert recorded == Recorded(numbered, node, Head(kind, number));
  }

  /** Pops the stack down to the rank of the heading and picks the parent. */
  method FindParent(nodes: seq<Node>, ghost heads: seq<Head>, h: Head, stack: seq<Node>, ghost numbered: map<Number, Node>, cleared: map<Number, Node>)
    returns (left: seq<Node>, parent: Option<Node>)
    requires SameKinds(nodes, heads) && stack == StackOf(nodes) && Records(numbered, nodes, heads)
    requires cleared == if Top(h.kind) then map[] else numbered
    ensures left == Pop(stack, h.kind)
    ensures var p := ParentOf(heads, h);
            parent == if p.Some? then Some(nodes[p.value]) else None
  {
    var numericParent := if |h.number| > 1 then Lookup(cleared, h.number[..|h.number| - 1]) else None;
    NumericLookup(nodes, heads, h, numbered);
    left := stack;
    while left != [] && Rank(left[|left| - 1].kind) >= Rank(h.kind)
      invariant Pop(left, h.kind) == Pop(stack, h.kind)
    {
      left := left[..|left| - 1];
    }
    StackShowsNearest(nodes, heads, h.kind);
    parent := if numericParent.Some? then numericParent else LastOf(left);
    if parent.Some? && Rank(parent.value.kind) > Rank(h.kind) {
      parent := LastOf(left);
    }
  }

  lemma NumericLookup(nodes: seq<Node>, heads: seq<Head>, h: Head, numbered: map<Number, Node>)
    requires |nodes| == |heads| && Records(numbered, nodes, heads)
    ensures var cleared, p := if Top(h.kind) then map[] else numbered, NumericParent(heads, h);
            (if |h.number| > 1 then Lookup(cleared, h.number[..|h.number| - 1]) else None) == if p.Some? then Some(nodes[p.value]) else None
  {
    if |h.number| > 1 {
      assert RecordsNumber(numbered, nodes, heads, h.number[..|h.number| - 1]);
    }
  }

  function Lookup(numbered: map<Number, Node>, number: Number): Option<Node> {
    if number in numbered then Some(numbered[number]) else None
  }

  function LastOf(stack: seq<Node>): Option<Node> {
    if stack == [] then None else Some(stack[|stack| - 1])
  }

  /** The kind and the confidence of a heading, from the number map alone. */
  method Classify(nodes: seq<Node>, ghost heads: seq<Head>, s: Shape, numbered: map<Number, Node>) returns (kind: Kind, confidence: real)
    requires SameKinds(nodes, heads) && Records(numbered, nodes, heads) && !s.Plain?
    ensures kind == KindOf(heads, s) && confidence == ConfidenceOf(heads, s)
  {
    match s {
      case Keyword(k, _) =>
        kind, confidence := k, 0.98;
      case Decimal(number) =>
        var parent := Lookup(numbered, if number == [] then [] else number[..|number| - 1]);
        assert |number| > 1 ==> RecordsNumber(numbered, nodes, heads, number[..|number| - 1]);
        if parent.Some? && parent.value.kind in {Topic, Subtopic} {
          kind := Subtopic;
        } else {
          kind := if |number| == 1 || |number| == 3 then Topic else if |number| == 2 then Section else Subtopic;
        }
        confidence := if parent.Some? then 0.9 else 0.8;
      case Syllabus =>
        kind, confidence := Section, 0.85;
      case _ =>
        kind, confidence := Section, 0.65;
    }
  }
}
