/** Choosing what to ask next within the remaining budget (packages/curriculum/diagnostics.py:17-80). */
module Diagnostics {
  import opened Support
  import opened Graphs
  import opened Kahn
  import opened GraphMeasures

  datatype Standing = Standing(confidence: real, assessed: bool)

  /** The budget left, the concepts already selected or assessed, and the questions already attempted. */
  datatype Run = Run(remaining: nat, excluded: set<NodeId>, attempted: set<nat>)

  datatype Candidate = Candidate(concept: NodeId, descendants: nat, rank: nat, confidence: real, questions: seq<nat>)

  const PER_CONCEPT := 2

  function Score(c: Candidate): real {
    ((c.descendants + 1) as real) * (1.0 - c.confidence)
  }

  /** Better score first, then earlier in the topological order, then the smaller id. */
  predicate NoWorse(a: Candidate, b: Candidate) {
    Score(a) > Score(b)
    || (Score(a) == Score(b) && (a.rank < b.rank || (a.rank == b.rank && a.concept <= b.concept)))
  }

  function OpenQuestions(inventory: map<NodeId, set<nat>>, attempted: set<nat>, c: NodeId): set<nat> {
    (if c in inventory then inventory[c] else {}) - attempted
  }

  predicate Eligible(standings: map<NodeId, Standing>, inventory: map<NodeId, set<nat>>, run: Run, c: NodeId) {
    c in standings && !standings[c].assessed && c !in run.excluded && OpenQuestions(inventory, run.attempted, c) != {}
  }

  function CandidateFor(standings: map<NodeId, Standing>, inventory: map<NodeId, set<nat>>, run: Run,
                        counts: map<NodeId, nat>, ranks: map<NodeId, nat>, c: NodeId): Candidate
    requires Eligible(standings, inventory, run, c) && c in counts && c in ranks
  {
    Candidate(c, counts[c], ranks[c], standings[c].confidence, SortedElements(OpenQuestions(inventory, run.attempted, c)))
  }

  /** The list is one candidate for each eligible concept, built as the data dictate. */
  ghost predicate Lists(cands: seq<Candidate>, concepts: set<NodeId>, standings: map<NodeId, Standing>, inventory: map<NodeId, set<nat>>,
                        run: Run, counts: map<NodeId, nat>, ranks: map<NodeId, nat>)
    requires concepts <= counts.Keys && concepts <= ranks.Keys
  {
    && (forall i :: 0 <= i < |cands| ==>
          && cands[i].concept in concepts && Eligible(standings, inventory, run, cands[i].concept)
          && cands[i] == CandidateFor(standings, inventory, run, counts, ranks, cands[i].concept))
    && (forall c :: c in concepts && Eligible(standings, inventory, run, c) ==> exists i :: 0 <= i < |cands| && cands[i].concept == c)
    && OneEach(cands)
  }

  function Min(a: nat, b: nat): nat {
    if a <= b then a else b
  }

  // ---------------------------------------------------------------- spending the budget

  function Take(cands: seq<Candidate>, budget: nat): seq<Candidate> {
    if cands == [] || budget == 0 then []
    else
      var n := Min(Min(PER_CONCEPT, budget), |cands[0].questions|);
      [cands[0].(questions := cands[0].questions[..n])] + Take(cands[1..], budget - n)
  }

  function Spent(selected: seq<Candidate>): nat {
    if selected == [] then 0 else |selected[0].questions| + Spent(selected[1..])
  }

  /** What the candidates could use in all. */
  function Wanted(cands: seq<Candidate>): nat {
    if cands == [] then 0 else Min(2, |cands[0].questions|) + Wanted(cands[1..])
  }

  ghost predicate AllAskable(cands: seq<Candidate>) {
    forall i :: 0 <= i < |cands| ==> cands[i].questions != []
  }

  /** Exactly the budget is spent, or everything there is to ask. */
  lemma {:induction false} SpendsExactly(cands: seq<Candidate>, budget: nat)
    ensures Spent(Take(cands, budget)) == Min(budget, Wanted(cands))
    decreases |cands|
  {
    if cands != [] && budget > 0 {
      var n := Min(Min(PER_CONCEPT, budget), |cands[0].questions|);
      var rest := Take(cands[1..], budget - n);
      SpendsExactly(cands[1..], budget - n);
      assert ([cands[0].(questions := cands[0].questions[..n])] + rest)[1..] == rest;
    }
  }

  /** The selection is a prefix of the ranking; each selected concept gets its first one or two
      questions; a candidate is left out only when the budget is gone. */
  lemma {:induction false} TakesPrefix(cands: seq<Candidate>, budget: nat, i: nat)
    requires AllAskable(cands) && i < |Take(cands, budget)|
    ensures |Take(cands, budget)| <= |cands|
    ensures var s := Take(cands, budget)[i];
            && 1 <= |s.questions| <= 2 && s.questions <= cands[i].questions
            && s == cands[i].(questions := s.questions)
            && (i + 1 < |Take(cands, budget)| ==> |s.questions| == Min(2, |cands[i].questions|))
    decreases |cands|
  {
    var n := Min(Min(PER_CONCEPT, budget), |cands[0].questions|);
    var rest := Take(cands[1..], budget - n);
    assert cands[0].questions != [];
    if i > 0 {
      TakesPrefix(cands[1..], budget - n, i - 1);
    } else if rest != [] {
      TakesPrefix(cands[1..], budget - n, 0);
    }
  }

  lemma {:induction false} LeftOutOnlyWhenSpent(cands: seq<Candidate>, budget: nat)
    requires AllAskable(cands)
    ensures |Take(cands, budget)| < |cands| ==> Spent(Take(cands, budget)) == budget
    decreases |cands|
  {
    if cands != [] && budget > 0 {
      var n := Min(Min(PER_CONCEPT, budget), |cands[0].questions|);
      var rest := Take(cands[1..], budget - n);
      LeftOutOnlyWhenSpent(cands[1..], budget - n);
      assert ([cands[0].(questions := cands[0].questions[..n])] + rest)[1..] == rest;
    }
  }

  /** Best first: whatever is left out is no better than anything selected. */
  lemma BestFirst(cands: seq<Candidate>, budget: nat, i: nat, j: nat)
    requires AllAskable(cands) && SortedBy(NoWorse, cands)
    requires i < |Take(cands, budget)| && |Take(cands, budget)| <= j < |cands|
    ensures var s, c := Take(cands, budget)[i], cands[j];
            var worth, missed := ((s.descendants + 1) as real) * (1.0 - s.confidence), ((c.descendants + 1) as real) * (1.0 - c.confidence);
            && worth >= missed
            && (worth == missed ==> s.rank <= c.rank)
            && (worth == missed && s.rank == c.rank ==> s.concept <= c.concept)
    ensures Spent(Take(cands, budget)) == budget
  {
    TakesPrefix(cands, budget, i);
    LeftOutOnlyWhenSpent(cands, budget);
    RankedNoWorse(cands[i], cands[j]);
    hide NoWorse, AllAskable, Take;
    assert Take(cands, budget)[i].concept == cands[i].concept;
  }

  lemma RankedNoWorse(s: Candidate, c: Candidate)
    requires NoWorse(s, c)
    ensures var worth, missed := ((s.descendants + 1) as real) * (1.0 - s.confidence), ((c.descendants + 1) as real) * (1.0 - c.confidence);
            && worth >= missed
            && (worth == missed ==> s.rank <= c.rank)
            && (worth == missed && s.rank == c.rank ==> s.concept <= c.concept)
  {
  }

  // ---------------------------------------------------------------- the program

  /** The position of each node in the order. */
  ghost predicate RanksOf(order: seq<NodeId>, ranks: map<NodeId, nat>) {
    && ranks.Keys == Elements(order)
    && forall i :: 0 <= i < |order| ==> order[i] in ranks && ranks[order[i]] == i
  }

  method RankNodes(order: seq<NodeId>) returns (ranks: map<NodeId, nat>)
    requires Distinct(order)
    ensures RanksOf(order, ranks)
  {
    ranks := map[];
    for i := 0 to |order|
      invariant ranks.Keys == Elements(order[..i])
      invariant forall j :: 0 <= j < i ==> order[j] in ranks && ranks[order[j]] == j
    {
      assert order[..i + 1] == order[..i] + [order[i]];
      ElementsSnoc(order[..i], order[i]);
      ranks := ranks[order[i] := i];
    }
    assert order[..|order|] == order;
  }

  /** Who is listed and with what: the concepts that have a standing, are not assessed and not excluded, and
      have a question not yet attempted; with all such questions in ascending order. */
  lemma ListedMeans(cands: seq<Candidate>, concepts: set<NodeId>, standings: map<NodeId, Standing>, inventory: map<NodeId, set<nat>>,
                    run: Run, counts: map<NodeId, nat>, ranks: map<NodeId, nat>, c: NodeId)
    requires concepts <= counts.Keys && concepts <= ranks.Keys && Lists(cands, concepts, standings, inventory, run, counts, ranks)
    requires c in concepts
    ensures (exists i :: 0 <= i < |cands| && cands[i].concept == c) <==>
              && c in standings && !standings[c].assessed && c !in run.excluded
              && c in inventory && exists q :: q in inventory[c] && q !in run.attempted
    ensures forall i :: 0 <= i < |cands| && cands[i].concept == c ==>
              && c in standings && c in inventory
              && cands[i].descendants == counts[c] && cands[i].rank == ranks[c] && cands[i].confidence == standings[c].confidence
              && Distinct(cands[i].questions) && SortedBy(NatLeq, cands[i].questions)
              && forall q :: q in cands[i].questions <==> q in inventory[c] && q !in run.attempted
  {
    var open := OpenQuestions(inventory, run.attempted, c);
    assert open != {} <==> c in inventory && exists q :: q in inventory[c] && q !in run.attempted by {
      if q :| c in inventory && q in inventory[c] && q !in run.attempted {
        assert q in open;
      }
    }
    forall i | 0 <= i < |cands| && cands[i].concept == c
      ensures forall q :: q in cands[i].questions <==> q in open
    {
      assert forall q :: q in cands[i].questions <==> q in Elements(SortedElements(open));
    }
  }

  /** The loop over the concepts in ascending order. */
  method ListCandidates(concepts: set<NodeId>, standings: map<NodeId, Standing>, inventory: map<NodeId, set<nat>>,
                        run: Run, counts: map<NodeId, nat>, ranks: map<NodeId, nat>)
    returns (cands: seq<Candidate>)
    requires concepts <= counts.Keys && concepts <= ranks.Keys
    ensures Lists(cands, concepts, standings, inventory, run, counts, ranks)
    ensures AllAskable(cands)
  {
    var ordered := SortedElements(concepts);
    cands := [];
    for i := 0 to |ordered|
      invariant Elements(ordered[..i]) <= concepts
      invariant Lists(cands, Elements(ordered[..i]), standings, inventory, run, counts, ranks) && AllAskable(cands)
    {
      var c := ordered[i];
      assert c in Elements(ordered) && c !in ordered[..i];
      assert ordered[..i + 1] == ordered[..i] + [c];
      ElementsSnoc(ordered[..i], c);
      if Eligible(standings, inventory, run, c) {
        var candidate := CandidateFor(standings, inventory, run, counts, ranks, c);
        assert Elements(candidate.questions) != {};
        ListsMore(cands, Elements(ordered[..i]), standings, inventory, run, counts, ranks, c);
        cands := cands + [candidate];
      }
    }
    assert ordered[..|ordered|] == ordered;
  }

  lemma ListsMore(cands: seq<Candidate>, concepts: set<NodeId>, standings: map<NodeId, Standing>, inventory: map<NodeId, set<nat>>,
                  run: Run, counts: map<NodeId, nat>, ranks: map<NodeId, nat>, c: NodeId)
    requires concepts <= counts.Keys && concepts <= ranks.Keys && Lists(cands, concepts, standings, inventory, run, counts, ranks)
    requires c in counts && c in ranks && c !in concepts && Eligible(standings, inventory, run, c)
    ensures Lists(cands + [CandidateFor(standings, inventory, run, counts, ranks, c)], concepts + {c}, standings, inventory, run, counts, ranks)
  {
    var more := cands + [CandidateFor(standings, inventory, run, counts, ranks, c)];
    assert more[|cands|].concept == c;
    forall d | d in concepts + {c} && Eligible(standings, inventory, run, d) ensures exists i :: 0 <= i < |more| && more[i].concept == d {
      if d != c {
        var i :| 0 <= i < |cands| && cands[i].concept == d;
        assert more[i].concept == d;
      }
    }
  }

  /** Budgeted selection: what is taken of the ranked candidates, given the descendant counts and the
      positions in the topological order. */
  method SelectCandidates(g: Graph, concepts: set<NodeId>, standings: map<NodeId, Standing>, inventory: map<NodeId, set<nat>>, run: Run)
    returns (r: Result<seq<Candidate>, GraphError>, ghost ranking: seq<Candidate>)
    requires WellFormed(g) && concepts <= Elements(g.nodes)
    ensures run.remaining == 0 ==> r == Ok([])
    ensures run.remaining > 0 ==> (r.Ok? <==> !HasSelfLoop(g.edges) && Acyclic(SelectedArcs(g, true)))
    ensures run.remaining > 0 && r.Ok? ==>
              && SortedBy(NoWorse, ranking) && AllAskable(ranking) && r.value == Take(ranking, run.remaining)
              && exists order, ranks, counts ::
                   && IsLeastTopological(Elements(g.nodes), SelectedArcs(g, true), order) && RanksOf(order, ranks)
                   && Counts(g, counts) && concepts <= counts.Keys && concepts <= ranks.Keys
                   && Lists(ranking, concepts, standings, inventory, run, counts, ranks)
  {
    ranking := [];
    if run.remaining == 0 {
      return Ok([]), [];
    }
    var counts := UniqueDescendantCounts(g, true);
    if counts.Err? {
      return Err(counts.error), [];
    }
    var order := TopologicalOrder(g, true);
    var ranks := RankNodes(order.value);
    var cands := ListCandidates(concepts, standings, inventory, run, counts.value, ranks);
    var sorted := Sort(NoWorse, cands);
    SortSorts(NoWorse, cands);
    SortKeepsLists(cands, concepts, standings, inventory, run, counts.value, ranks);
    ranking := sorted;
    var selected := Spend(sorted, run.remaining);
    r := Ok(selected);
  }

  ghost predicate Counts(g: Graph, counts: map<NodeId, nat>) {
    counts.Keys == Elements(g.nodes)
    && forall v :: v in counts ==> counts[v] == |GraphMeasures.Below(Elements(g.nodes), SelectedArcs(g, true), v)|
  }

  ghost predicate OneEach(cands: seq<Candidate>) {
    forall i, j :: 0 <= i < j < |cands| ==> cands[i].concept != cands[j].concept
  }

  lemma SortKeepsOneEach(cands: seq<Candidate>)
    requires OneEach(cands)
    ensures OneEach(Sort(NoWorse, cands))
  {
    var sorted := Sort(NoWorse, cands);
    SortMembers(NoWorse, cands);
    SortPermutes(NoWorse, cands);
    DistinctMultiset(cands, sorted);
    forall i, j | 0 <= i < j < |sorted| ensures sorted[i].concept != sorted[j].concept {
      assert sorted[i] in cands && sorted[j] in cands && sorted[i] != sorted[j];
      var a :| 0 <= a < |cands| && cands[a] == sorted[i];
      var b :| 0 <= b < |cands| && cands[b] == sorted[j];
      assert a < b || b < a;
    }
  }

  lemma SortKeepsLists(cands: seq<Candidate>, concepts: set<NodeId>, standings: map<NodeId, Standing>, inventory: map<NodeId, set<nat>>,
                       run: Run, counts: map<NodeId, nat>, ranks: map<NodeId, nat>)
    requires concepts <= counts.Keys && concepts <= ranks.Keys && Lists(cands, concepts, standings, inventory, run, counts, ranks)
    requires AllAskable(cands)
    ensures Lists(Sort(NoWorse, cands), concepts, standings, inventory, run, counts, ranks) && AllAskable(Sort(NoWorse, cands))
  {
    var sorted := Sort(NoWorse, cands);
    SortMembers(NoWorse, cands);
    SortKeepsOneEach(cands);
    forall i | 0 <= i < |sorted| ensures sorted[i] in cands {
      assert sorted[i] in sorted;
    }
    forall c | c in concepts && Eligible(standings, inventory, run, c) ensures exists i :: 0 <= i < |sorted| && sorted[i].concept == c {
      var j :| 0 <= j < |cands| && cands[j].concept == c;
      assert cands[j] in sorted;
      var i :| 0 <= i < |sorted| && sorted[i] == cands[j];
    }
  }

  lemma TakeNext(cands: seq<Candidate>, i: nat, remaining: nat)
    requires i < |cands| && remaining > 0
    ensures var n := Min(Min(PER_CONCEPT, remaining), |cands[i].questions|);
            Take(cands[i..], remaining) == [cands[i].(questions := cands[i].questions[..n])] + Take(cands[i + 1..], remaining - n)
  {
    hide Min;
    assert cands[i..][1..] == cands[i + 1..] && cands[i..][0] == cands[i];
  }

  lemma TakeNothing(cands: seq<Candidate>, i: nat, remaining: nat)
    requires i <= |cands| && (i == |cands| || remaining == 0)
    ensures Take(cands[i..], remaining) == []
  {
  }

  /** The loop that spends the budget. */
  method Spend(cands: seq<Candidate>, budget: nat) returns (selected: seq<Candidate>)
    requires AllAskable(cands)
    ensures selected == Take(cands, budget)
  {
    hide Take, AllAskable;
    selected := [];
    var remaining := budget;
    var i := 0;
    assert cands[i..] == cands;
    while i < |cands| && remaining > 0
      invariant i <= |cands|
      invariant Take(cands, budget) == selected + Take(cands[i..], remaining)
    {
      var n := Min(Min(PER_CONCEPT, remaining), |cands[i].questions|);
      var one := cands[i].(questions := cands[i].questions[..n]);
      TakeNext(cands, i, remaining);
      ghost var rest := Take(cands[i + 1..], remaining - n);
      assert selected + ([one] + rest) == (selected + [one]) + rest;
      selected := selected + [one];
      remaining := remaining - n;
      i := i + 1;
    }
    TakeNothing(cands, i, remaining);
  }
}
