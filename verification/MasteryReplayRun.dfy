/** The loops of replay (packages/mastery/engine.py:267-327, 350-414), each proved against what replay
    means on sets. */
module MasteryReplayRun {
  import opened Support
  import opened MasteryModel
  import opened MasteryEngine
  import opened MasteryHistory
  import opened MasteryReplay

  // ---------------------------------------------------------------- removing repetitions

  ghost predicate KeyDetermines<T(!new)>(key: T -> Id, s: set<T>) {
    forall x, y :: x in s && y in s && key(x) == key(y) ==> x == y
  }

  /** Keeps one copy of each item; fails when two different items share a key. */
  method Deduplicate<T(!new, ==)>(key: T -> Id, items: seq<T>) returns (r: Result<seq<T>, ()>)
    ensures r.Ok? <==> KeyDetermines(key, Elements(items))
    ensures r.Ok? ==> Distinct(r.value) && Elements(r.value) == Elements(items)
  {
    var unique: map<Id, T> := map[];
    var values: seq<T> := [];
    for i := 0 to |items|
      invariant Elements(values) == Elements(items[..i]) && Distinct(values)
      invariant forall x :: x in values ==> key(x) in unique && unique[key(x)] == x
      invariant forall k :: k in unique ==> unique[k] in values && key(unique[k]) == k
    {
      var item := items[i];
      assert items[..i + 1] == items[..i] + [item];
      ElementsSnoc(items[..i], item);
      ElementsSnoc(values, item);
      if key(item) !in unique {
        values := values + [item];
      } else if unique[key(item)] != item {
        assert unique[key(item)] in Elements(values) && item in Elements(items);
        return Err(());
      }
      unique := unique[key(item) := item];
    }
    assert items[..|items|] == items;
    r := Ok(values);
  }

  lemma ElementsNext<T>(s: seq<T>, i: nat)
    requires i < |s|
    ensures Elements(s[..i + 1]) == Elements(s[..i]) + {s[i]}
  {
    assert s[..i + 1] == s[..i] + [s[i]];
    ElementsSnoc(s[..i], s[i]);
  }

  // ---------------------------------------------------------------- self-reports

  predicate PriorLeq(p: Prior, q: Prior) {
    p.id <= q.id
  }

  function ConceptsOf(priors: seq<Prior>): seq<Id> {
    seq(|priors|, i requires 0 <= i < |priors| => priors[i].concept)
  }

  lemma ConceptsOfElements(priors: seq<Prior>)
    ensures Elements(ConceptsOf(priors)) == PriorConcepts(Elements(priors))
  {
    forall c | c in PriorConcepts(Elements(priors)) ensures c in ConceptsOf(priors) {
      var p :| p in Elements(priors) && p.concept == c;
      var i :| 0 <= i < |priors| && priors[i] == p;
      assert ConceptsOf(priors)[i] == c;
    }
  }

  lemma SameConceptsDistinct(a: seq<Prior>, b: seq<Prior>)
    requires Elements(a) == Elements(b) && |a| == |b|
    ensures Distinct(ConceptsOf(a)) <==> Distinct(ConceptsOf(b))
  {
    ConceptsOfElements(a);
    ConceptsOfElements(b);
    DistinctIffCount(ConceptsOf(a));
    DistinctIffCount(ConceptsOf(b));
  }

  lemma PriorStatesGrow(states: States, priors: set<Prior>, p: Prior)
    requires p.concept !in PriorConcepts(priors)
    ensures var now, s := PriorStates(states, priors), StateOf(states, p.concept);
            && StateOf(now, p.concept) == s
            && PriorStates(states, priors + {p}) == if s.selfReportApplied then now else now[p.concept := WithPrior(s)]
  {
    assert PriorConcepts(priors + {p}) == PriorConcepts(priors) + {p.concept};
  }

  lemma NextPrior(states: States, priors: seq<Prior>, i: nat)
    requires i < |priors| && ConceptsOf(priors)[i] !in ConceptsOf(priors)[..i]
    ensures var now, s := PriorStates(states, Elements(priors[..i])), StateOf(states, priors[i].concept);
            && StateOf(now, priors[i].concept) == s
            && PriorStates(states, Elements(priors[..i + 1])) == if s.selfReportApplied then now else now[priors[i].concept := WithPrior(s)]
  {
    ElementsSnoc(priors[..i], priors[i]);
    assert priors[..i + 1] == priors[..i] + [priors[i]];
    ConceptsOfElements(priors[..i]);
    assert ConceptsOf(priors[..i]) == ConceptsOf(priors)[..i];
    PriorStatesGrow(states, Elements(priors[..i]), priors[i]);
  }

  /** apply_self_report_priors: fails when two self-reports are about one concept. */
  method ApplyPriors(states: States, priors: seq<Prior>) returns (r: Result<States, ()>)
    ensures r.Ok? <==> Distinct(ConceptsOf(priors))
    ensures r.Ok? ==> r.value == PriorStates(states, Elements(priors))
  {
    var sorted := Sort(PriorLeq, priors);
    SortMembers(PriorLeq, priors);
    assert Elements(sorted) == Elements(priors);
    SameConceptsDistinct(sorted, priors);
    r := ApplyInOrder(states, sorted);
  }

  lemma DistinctNext(concepts: seq<Id>, i: nat)
    requires i < |concepts| && Distinct(concepts[..i])
    ensures if concepts[i] in Elements(concepts[..i]) then !Distinct(concepts) else Distinct(concepts[..i + 1])
  {
    if concepts[i] in Elements(concepts[..i]) {
      var j :| 0 <= j < i && concepts[j] == concepts[i];
    } else {
      var more := concepts[..i + 1];
      forall a, b | 0 <= a < b < |more| ensures more[a] != more[b] {
        assert more[a] == concepts[..i][a];
      }
    }
  }

  lemma PriorStep(states: States, priors: seq<Prior>, i: nat)
    requires i < |priors| && Distinct(ConceptsOf(priors)[..i])
    ensures var concepts, c, s := ConceptsOf(priors), priors[i].concept, StateOf(states, priors[i].concept);
            var now := PriorStates(states, Elements(priors[..i]));
            if c in Elements(concepts[..i]) then !Distinct(concepts)
            else
              && Distinct(concepts[..i + 1]) && Elements(concepts[..i + 1]) == Elements(concepts[..i]) + {c}
              && StateOf(now, c) == s
              && PriorStates(states, Elements(priors[..i + 1])) == if s.selfReportApplied then now else now[c := WithPrior(s)]
  {
    var concepts := ConceptsOf(priors);
    DistinctNext(concepts, i);
    if concepts[i] !in Elements(concepts[..i]) {
      NextPrior(states, priors, i);
      ElementsNext(concepts, i);
    }
  }

  method ApplyInOrder(states: States, priors: seq<Prior>) returns (r: Result<States, ()>)
    ensures r.Ok? <==> Distinct(ConceptsOf(priors))
    ensures r.Ok? ==> r.value == PriorStates(states, Elements(priors))
  {
    var updated := states;
    var seen: set<Id> := {};
    ghost var concepts := ConceptsOf(priors);
    for i := 0 to |priors|
      invariant seen == Elements(concepts[..i]) && Distinct(concepts[..i])
      invariant updated == PriorStates(states, Elements(priors[..i]))
    {
      var c := priors[i].concept;
      PriorStep(states, priors, i);
      if c in seen {
        return Err(());
      }
      seen := seen + {c};
      var state := StateOf(updated, c);
      if !state.selfReportApplied {
        updated := updated[c := WithPrior(state)];
      }
    }
    assert priors[..|priors|] == priors && concepts[..|priors|] == concepts;
    r := Ok(updated);
  }

  // ---------------------------------------------------------------- events

  predicate TimeLeq(a: Time, b: Time) {
    a <= b
  }

  /** The times are those of the events. */
  ghost predicate TimesOf(times: seq<Time>, events: set<Event>) {
    && (forall v :: v in events ==> v.occurredAt in times)
    && (forall i :: 0 <= i < |times| ==> exists v :: v in events && v.occurredAt == times[i])
  }

  lemma TimesSnoc(times: seq<Time>, events: set<Event>, v: Event)
    requires TimesOf(times, events)
    ensures TimesOf(times + [v.occurredAt], events + {v})
  {
    var more := times + [v.occurredAt];
    assert more[|times|] == v.occurredAt;
    forall i | 0 <= i < |more| ensures exists u :: u in events + {v} && u.occurredAt == more[i] {
      if i < |times| {
        var u :| u in events && u.occurredAt == times[i];
        assert u in events + {v} && u.occurredAt == more[i];
      } else {
        assert v in events + {v} && v.occurredAt == more[i];
      }
    }
    forall u | u in events + {v} ensures u.occurredAt in more {
      if u in events {
        var i :| 0 <= i < |times| && times[i] == u.occurredAt;
        assert more[i] == u.occurredAt;
      }
    }
  }

  lemma EarlierGrows(events: seq<Event>, i: nat, c: Id, e: Evidence)
    requires i < |events|
    ensures IsEarlier(events[i], c, e) ==> Earlier(Elements(events[..i + 1]), c, e) == Earlier(Elements(events[..i]), c, e) + {events[i]}
    ensures !IsEarlier(events[i], c, e) ==> Earlier(Elements(events[..i + 1]), c, e) == Earlier(Elements(events[..i]), c, e)
  {
    ElementsNext(events, i);
  }

  method LatestEarlier(events: seq<Event>, c: Id, e: Evidence) returns (t: Option<Time>)
    ensures t == LatestBefore(Elements(events), c, e)
  {
    var times: seq<Time> := [];
    for i := 0 to |events|
      invariant TimesOf(times, Earlier(Elements(events[..i]), c, e))
    {
      EarlierGrows(events, i, c, e);
      if IsEarlier(events[i], c, e) {
        TimesSnoc(times, Earlier(Elements(events[..i]), c, e), events[i]);
        times := times + [events[i].occurredAt];
      }
    }
    assert events[..|events|] == events;
    t := LastTimeOf(times, Earlier(Elements(events), c, e));
  }

  lemma LatestIsLast(events: set<Event>, times: seq<Time>, last: Time)
    requires TimesOf(times, events) && events != {}
    requires last in times && forall t :: t in times ==> t <= last
    ensures Latest(events).occurredAt == last
  {
    var i :| 0 <= i < |times| && times[i] == last;
    var v :| v in events && v.occurredAt == times[i];
    assert Latest(events).occurredAt in times;
  }

  lemma LastIsGreatest(sorted: seq<Time>)
    requires SortedBy(TimeLeq, sorted) && sorted != []
    ensures forall t :: t in sorted ==> t <= sorted[|sorted| - 1]
  {
  }

  /** The last of the sorted times. */
  method LastTimeOf(times: seq<Time>, ghost events: set<Event>) returns (t: Option<Time>)
    requires TimesOf(times, events)
    ensures t == if events == {} then None else Some(Latest(events).occurredAt)
  {
    if times == [] {
      return None;
    }
    ghost var some :| some in events && some.occurredAt == times[0];
    var sorted := Sort(TimeLeq, times);
    SortMembers(TimeLeq, times);
    SortSorts(TimeLeq, times);
    var last := sorted[|sorted| - 1];
    t := Some(last);
    LastIsGreatest(sorted);
    assert last in sorted;
    LatestIsLast(events, times, last);
  }

  method EventIdFor(events: seq<Event>, e: Evidence) returns (id: Option<Id>)
    ensures id == EventFor(Elements(events), e)
  {
    var ids: seq<Id> := [];
    for i := 0 to |events|
      invariant Elements(ids) == MatchingIds(Elements(events[..i]), e)
    {
      ElementsNext(events, i);
      if Matches(events[i], e) {
        ElementsSnoc(ids, events[i].id);
        ids := ids + [events[i].id];
      }
    }
    assert events[..|events|] == events;
    if ids == [] {
      id := None;
    } else {
      var sorted := Sort(NatLeq, ids);
      SortMembers(NatLeq, ids);
      SortSorts(NatLeq, ids);
      id := Some(sorted[0]);
      assert id.value in Elements(ids) && id.value in sorted;
    }
  }

  method BuildContext(events: seq<Event>, e: Evidence) returns (ctx: Context)
    ensures ctx == ContextOf(Elements(events), e)
  {
    var previous: map<Id, Time> := map[];
    ghost var concepts := Concepts(e.tags);
    for i := 0 to |e.tags|
      invariant previous == map c | c in Elements(concepts[..i]) && LatestBefore(Elements(events), c, e).Some?
                              :: LatestBefore(Elements(events), c, e).value
    {
      ElementsNext(concepts, i);
      var t := LatestEarlier(events, e.tags[i].concept, e);
      if t.Some? {
        previous := previous[e.tags[i].concept := t.value];
      }
    }
    assert concepts[..|e.tags|] == concepts;
    var id := EventIdFor(events, e);
    ctx := Context(previous, id);
  }

  // ---------------------------------------------------------------- replay

  lemma SortedPrefix(sorted: seq<Evidence>, i: nat)
    requires SortedBy(NotAfter, sorted) && Distinct(sorted) && DistinctIds(Elements(sorted)) && i < |sorted|
    ensures Elements(sorted[..i + 1]) - {sorted[i]} == Elements(sorted[..i])
    ensures forall x :: x in Elements(sorted[..i]) ==> NotAfter(x, sorted[i])
    ensures Elements(sorted[..i + 1]) != {} && LastOf(Elements(sorted[..i + 1])) == sorted[i]
  {
    ElementsNext(sorted, i);
    assert sorted[i] !in sorted[..i];
    forall x | x in sorted[..i] ensures NotAfter(x, sorted[i]) {
      var j :| 0 <= j < i && sorted[j] == x;
    }
    LastIsUnique(Elements(sorted[..i + 1]), sorted[i]);
  }

  /** The loop over the items in chronological order. */
  method ReplayItems(f: Retention, sorted: seq<Evidence>, events: seq<Event>, start: States, ghost priors: set<Prior>) returns (a: Application)
    requires Lawful(f) && AllValidEvidence(Elements(sorted)) && start == PriorStates(map[], priors)
    requires SortedBy(NotAfter, sorted) && Distinct(sorted) && DistinctIds(Elements(sorted))
    ensures a.states == StatesAfter(f, Elements(sorted), Elements(events), priors)
    ensures a.contributions == Recorded(f, Elements(sorted), Elements(events), priors)
  {
    var states := start;
    var contributions: seq<Contribution> := [];
    for i := 0 to |sorted|
      invariant AllValidEvidence(Elements(sorted[..i]))
      invariant states == StatesAfter(f, Elements(sorted[..i]), Elements(events), priors)
      invariant contributions == Recorded(f, Elements(sorted[..i]), Elements(events), priors)
    {
      ghost var done := Elements(sorted[..i]);
      var item := sorted[i];
      SortedPrefix(sorted, i);
      ElementsNext(sorted, i);
      assert item in Elements(sorted);
      var ctx := BuildContext(events, item);
      ReplayAtLeastPrior(f, done, Elements(events), priors);
      ReplayIsTimely(f, done, Elements(events), priors, item);
      var r := ApplyEvidence(f, states, item, ctx);
      states := r.value.states;
      contributions := contributions + r.value.contributions;
    }
    assert sorted[..|sorted|] == sorted;
    a := Application(states, contributions);
  }

  ghost predicate Projects(f: Retention, states: States, asOf: Time, c: Id, p: Projection) {
    && c in states && DecayDefined(states[c], asOf) && Decayed(f, states[c], asOf).alpha + Decayed(f, states[c], asOf).beta > 0.0
    && p == ProjectionOf(f, c, states[c], asOf)
  }

  method ProjectOne(f: Retention, states: States, c: Id, asOf: Time) returns (r: Result<Projection, ()>)
    requires Lawful(f) && AllAtLeastPrior(states) && c in states
    ensures r.Ok? <==> DecayDefined(states[c], asOf)
    ensures r.Ok? ==> Projects(f, states, asOf, c, r.value)
  {
    DecayScales(f, states[c], asOf);
    var d := DecayState(f, states[c], asOf);
    if d.Err? {
      return Err(());
    }
    r := Ok(Projection(c, d.value, MetricsFor(d.value, d.value.reviewSuccesses > 0)));
  }

  lemma AllProjected(f: Retention, states: States, asOf: Time, projected: seq<Projection>)
    requires |projected| == |SortedElements(states.Keys)|
    requires forall i :: 0 <= i < |projected| ==> Projects(f, states, asOf, SortedElements(states.Keys)[i], projected[i])
    ensures forall c :: c in states ==> DecayDefined(states[c], asOf)
  {
    forall c | c in states ensures DecayDefined(states[c], asOf) {
      assert c in Elements(SortedElements(states.Keys));
      var i :| 0 <= i < |projected| && SortedElements(states.Keys)[i] == c;
      assert Projects(f, states, asOf, c, projected[i]);
    }
  }

  lemma ProjectionsAre(f: Retention, states: States, asOf: Time, projected: seq<Projection>)
    requires Lawful(f) && AllAtLeastPrior(states) && |projected| == |SortedElements(states.Keys)|
    requires forall i :: 0 <= i < |projected| ==> Projects(f, states, asOf, SortedElements(states.Keys)[i], projected[i])
    ensures projected == Projections(f, states, asOf)
  {
    var all := Projections(f, states, asOf);
    forall i | 0 <= i < |projected| ensures projected[i] == all[i] {
      assert Projects(f, states, asOf, SortedElements(states.Keys)[i], projected[i]);
    }
  }

  /** The loop over the concepts, which fails when a state would be decayed backwards. */
  method ProjectAll(f: Retention, states: States, asOf: Time) returns (r: Result<seq<Projection>, ()>)
    requires Lawful(f) && AllAtLeastPrior(states)
    ensures r.Ok? <==> forall c :: c in states ==> DecayDefined(states[c], asOf)
    ensures r.Ok? ==> r.value == Projections(f, states, asOf)
  {
    var concepts := SortedElements(states.Keys);
    var projected: seq<Projection> := [];
    for i := 0 to |concepts|
      invariant |projected| == i && forall j :: 0 <= j < i ==> Projects(f, states, asOf, concepts[j], projected[j])
    {
      assert concepts[i] in Elements(concepts);
      var one := ProjectOne(f, states, concepts[i], asOf);
      if one.Err? {
        return Err(());
      }
      projected := projected + [one.value];
    }
    AllProjected(f, states, asOf, projected);
    ProjectionsAre(f, states, asOf, projected);
    r := Ok(projected);
  }

  lemma ListedConceptsDistinct(priors: seq<Prior>)
    requires Distinct(priors)
    ensures OnePerConcept(Elements(priors)) <==> Distinct(ConceptsOf(priors))
  {
    if OnePerConcept(Elements(priors)) {
      forall i, j | 0 <= i < j < |priors| ensures ConceptsOf(priors)[i] != ConceptsOf(priors)[j] {
        assert priors[i] in Elements(priors) && priors[j] in Elements(priors);
      }
    }
    if Distinct(ConceptsOf(priors)) {
      forall p, q | p in Elements(priors) && q in Elements(priors) && p.concept == q.concept ensures p == q {
        var i :| 0 <= i < |priors| && priors[i] == p;
        var j :| 0 <= j < |priors| && priors[j] == q;
        assert ConceptsOf(priors)[i] == ConceptsOf(priors)[j];
      }
    }
  }

  function EvidenceId(e: Evidence): Id {
    e.id
  }

  function PriorId(p: Prior): Id {
    p.id
  }

  lemma IdsDetermine(evidence: set<Evidence>, priors: set<Prior>)
    ensures KeyDetermines(EvidenceId, evidence) <==> DistinctIds(evidence)
    ensures KeyDetermines(PriorId, priors) <==> DistinctPriorIds(priors)
  {
    assert DistinctIds(evidence) ==> forall x, y :: x in evidence && y in evidence && EvidenceId(x) == EvidenceId(y) ==> x == y;
    assert DistinctPriorIds(priors) ==> forall p, q :: p in priors && q in priors && PriorId(p) == PriorId(q) ==> p == q;
    if KeyDetermines(EvidenceId, evidence) {
      forall x, y | x in evidence && y in evidence && x.id == y.id ensures x == y {
        assert EvidenceId(x) == EvidenceId(y);
      }
    }
    if KeyDetermines(PriorId, priors) {
      forall p, q | p in priors && q in priors && p.id == q.id ensures p == q {
        assert PriorId(p) == PriorId(q);
      }
    }
  }

  /** The items in chronological order. */
  method Chronological(items: seq<Evidence>) returns (sorted: seq<Evidence>)
    requires Distinct(items) && DistinctIds(Elements(items))
    ensures SortedBy(NotAfter, sorted) && Distinct(sorted) && Elements(sorted) == Elements(items)
  {
    sorted := Sort(NotAfter, items);
    SortSorts(NotAfter, items);
    SortPermutes(NotAfter, items);
    SortMembers(NotAfter, items);
    DistinctMultiset(items, sorted);
  }

  /** replay: its result depends only on the sets of items, events and self-reports. */
  method Replay(f: Retention, evidence: seq<Evidence>, asOf: Time, events: seq<Event>, priors: seq<Prior>)
    returns (r: Result<Replayed, ReplayError>)
    requires Lawful(f) && AllValidEvidence(Elements(evidence))
    ensures r == Outcome(f, Elements(evidence), Elements(events), Elements(priors), asOf)
  {
    IdsDetermine(Elements(evidence), Elements(priors));
    var unique := Deduplicate(EvidenceId, evidence);
    if unique.Err? {
      return Err(ConflictingEvidence);
    }
    var uniquePriors := Deduplicate(PriorId, priors);
    if uniquePriors.Err? {
      return Err(ConflictingPrior);
    }
    var sorted := Chronological(unique.value);
    var start := ApplyPriors(map[], uniquePriors.value);
    ListedConceptsDistinct(uniquePriors.value);
    if start.Err? {
      return Err(TwoPriorsForConcept);
    }
    r := Finish(f, sorted, asOf, events, start.value, uniquePriors.value);
  }

  method Finish(f: Retention, sorted: seq<Evidence>, asOf: Time, events: seq<Event>, start: States, priors: seq<Prior>)
    returns (r: Result<Replayed, ReplayError>)
    requires Lawful(f) && AllValidEvidence(Elements(sorted)) && start == PriorStates(map[], Elements(priors))
    requires SortedBy(NotAfter, sorted) && Distinct(sorted) && DistinctIds(Elements(sorted))
    requires DistinctPriorIds(Elements(priors)) && OnePerConcept(Elements(priors)) && Distinct(priors)
    ensures r == Outcome(f, Elements(sorted), Elements(events), Elements(priors), asOf)
  {
    var a := ReplayItems(f, sorted, events, start, Elements(priors));
    ReplayAtLeastPrior(f, Elements(sorted), Elements(events), Elements(priors));
    BackwardsIffAppliedLater(f, Elements(sorted), Elements(events), Elements(priors), asOf);
    var projected := ProjectAll(f, a.states, asOf);
    if projected.Err? {
      return Err(Backwards);
    }
    var last := LastItem(sorted);
    DistinctCount(sorted);
    DistinctCount(priors);
    r := Ok(Replayed(projected.value, a.contributions, |sorted|, last.0, last.1, |priors|));
  }

  /** max_occurred_at and max_evidence_id. */
  method LastItem(sorted: seq<Evidence>) returns (last: (Option<Time>, Option<Id>))
    requires SortedBy(NotAfter, sorted) && Distinct(sorted) && DistinctIds(Elements(sorted))
    ensures var all := Elements(sorted);
            last == if all == {} then (None, None) else (Some(LastOf(all).occurredAt), Some(LastOf(all).id))
  {
    if sorted == [] {
      last := (None, None);
    } else {
      SortedPrefix(sorted, |sorted| - 1);
      assert sorted[..|sorted|] == sorted;
      last := (Some(sorted[|sorted| - 1].occurredAt), Some(sorted[|sorted| - 1].id));
    }
  }
}
