/** Replay of a whole history, and the read that forgets lazily from a stored revision
    (packages/mastery/engine.py:267-327, 350-414; packages/persistence/mastery.py:615-672). */
module MasteryReplay {
  import opened Support
  import opened MasteryModel
  import opened MasteryEngine
  import opened MasteryHistory

  datatype Projection = Projection(concept: Id, state: State, metrics: Metrics)

  datatype ReplayError = ConflictingEvidence | ConflictingPrior | TwoPriorsForConcept | Backwards

  datatype Replayed = Replayed(projections: seq<Projection>, contributions: seq<Contribution>, evidenceCount: nat,
                               latestAt: Option<Time>, latestId: Option<Id>, priorCount: nat)

  ghost predicate DistinctPriorIds(priors: set<Prior>) {
    forall p, q :: p in priors && q in priors && p.id == q.id ==> p == q
  }

  ghost predicate OnePerConcept(priors: set<Prior>) {
    forall p, q :: p in priors && q in priors && p.concept == q.concept ==> p == q
  }

  /** Some item that was applied happened after the projection time. */
  ghost predicate AppliedLater(evidence: set<Evidence>, asOf: Time) {
    exists e :: e in evidence && !AuditOnly(e) && e.occurredAt > asOf
  }

  function ProjectionOf(f: Retention, c: Id, s: State, at: Time): Projection
    requires Decayed(f, s, at).alpha + Decayed(f, s, at).beta > 0.0
  {
    var d := Decayed(f, s, at);
    Projection(c, d, MetricsFor(d, d.reviewSuccesses > 0))
  }

  ghost function Projections(f: Retention, states: States, at: Time): seq<Projection>
    requires Lawful(f) && AllAtLeastPrior(states)
  {
    var concepts := SortedElements(states.Keys);
    seq(|concepts|, i requires 0 <= i < |concepts| =>
      assert concepts[i] in Elements(concepts);
      DecayScales(f, states[concepts[i]], at);
      ProjectionOf(f, concepts[i], states[concepts[i]], at))
  }

  /** What replay means, on sets. */
  ghost function Outcome(f: Retention, evidence: set<Evidence>, events: set<Event>, priors: set<Prior>, asOf: Time): Result<Replayed, ReplayError>
    requires Lawful(f) && AllValidEvidence(evidence)
  {
    if !DistinctIds(evidence) then Err(ConflictingEvidence)
    else if !DistinctPriorIds(priors) then Err(ConflictingPrior)
    else if !OnePerConcept(priors) then Err(TwoPriorsForConcept)
    else if AppliedLater(evidence, asOf) then Err(Backwards)
    else
      ReplayAtLeastPrior(f, evidence, events, priors);
      Ok(Replayed(Projections(f, StatesAfter(f, evidence, events, priors), asOf), Recorded(f, evidence, events, priors), |evidence|,
                  if evidence == {} then None else Some(LastOf(evidence).occurredAt),
                  if evidence == {} then None else Some(LastOf(evidence).id), |priors|))
  }

  /** Adding an inferred item that is not fully correct changes no projection and no refusal. */
  lemma AuditItemKeepsProjections(f: Retention, evidence: set<Evidence>, x: Evidence, events: set<Event>, priors: set<Prior>, asOf: Time)
    requires Lawful(f) && AllValidEvidence(evidence + {x}) && DistinctIds(evidence + {x}) && x !in evidence && AuditOnly(x)
    ensures AllValidEvidence(evidence)
    ensures var without, with := Outcome(f, evidence, events, priors, asOf), Outcome(f, evidence + {x}, events, priors, asOf);
            && (with.Ok? <==> without.Ok?)
            && (with.Ok? ==> with.value.projections == without.value.projections)
            && (with.Err? ==> with == without)
  {
    forall e | e in evidence ensures ValidEvidence(e) {
      assert e in evidence + {x};
    }
    AuditItemChangesNothing(f, evidence, x, events, priors);
    assert AppliedLater(evidence + {x}, asOf) <==> AppliedLater(evidence, asOf) by {
      assert forall e :: e in evidence + {x} && !AuditOnly(e) <==> e in evidence && !AuditOnly(e);
    }
    assert DistinctIds(evidence);
  }

  // ---------------------------------------------------------------- when a projection would run backwards

  lemma {:induction false} TouchingIsComplete(evidence: set<Evidence>, e: Evidence, c: Id)
    requires e in evidence && Touches(e, c)
    ensures Touching(evidence, c) != []
    ensures LastTime(Touching(evidence, c)).value >= e.occurredAt
    decreases |evidence|
  {
    var last := LastOf(evidence);
    if e != last && !Touches(last, c) {
      TouchingIsComplete(evidence - {last}, e, c);
    }
  }

  lemma {:induction false} TouchingAreTouched(evidence: set<Evidence>, c: Id)
    ensures forall i :: 0 <= i < |Touching(evidence, c)| ==> Touches(Touching(evidence, c)[i], c)
    decreases |evidence|
  {
    if evidence != {} {
      TouchingAreTouched(evidence - {LastOf(evidence)}, c);
    }
  }

  /** The projection time lies before the last touch of some concept exactly when some applied item
      happened later; audit-only items never stand in the way. */
  lemma BackwardsIffAppliedLater(f: Retention, evidence: set<Evidence>, events: set<Event>, priors: set<Prior>, asOf: Time)
    requires AllValidEvidence(evidence)
    ensures var states := StatesAfter(f, evidence, events, priors);
            AppliedLater(evidence, asOf) <==> exists c :: c in states && !DecayDefined(states[c], asOf)
  {
    var states := StatesAfter(f, evidence, events, priors);
    if AppliedLater(evidence, asOf) {
      var e :| e in evidence && !AuditOnly(e) && e.occurredAt > asOf;
      var c := Concepts(e.tags)[0];
      assert Touches(e, c);
      StateShape(f, evidence, events, priors, c);
      TouchingIsComplete(evidence, e, c);
      assert c in states && !DecayDefined(states[c], asOf);
    }
    forall c | c in states && !DecayDefined(states[c], asOf) ensures AppliedLater(evidence, asOf) {
      StateShape(f, evidence, events, priors, c);
      TouchingAreEvidence(evidence, c);
      TouchingAreTouched(evidence, c);
      var items := Touching(evidence, c);
      var e := items[|items| - 1];
      assert e in evidence && !AuditOnly(e) && e.occurredAt > asOf;
    }
  }

  // ---------------------------------------------------------------- lazy forgetting

  /** The state a stored revision brings back. */
  function Stored(p: Projection, asOf: Time): State {
    p.state.(hasQualifyingReview := p.state.reviewSuccesses > 0, selfReportApplied := false, lastAt := Some(asOf))
  }

  /** get_current_projection: decays the stored revision to the time of the read. */
  method ReadProjection(f: Retention, p: Projection, asOf: Time, at: Time) returns (r: Result<Projection, ()>)
    requires Lawful(f) && AtLeastPrior(p.state)
    ensures r.Ok? <==> asOf <= at
    ensures r.Ok? ==> AtLeastPrior(Decayed(f, Stored(p, asOf), at)) && r.value == ProjectionOf(f, p.concept, Stored(p, asOf), at)
    ensures r.Ok? ==> r.value.concept == p.concept && r.value.state.lastAt == Some(at)
                      && (r.value.state.hasQualifyingReview <==> p.state.reviewSuccesses > 0)
  {
    var d := DecayState(f, Stored(p, asOf), at);
    if d.Err? {
      return Err(());
    }
    DecayScales(f, Stored(p, asOf), at);
    r := Ok(Projection(p.concept, d.value, MetricsFor(d.value, d.value.hasQualifyingReview)));
  }

  /** The same weights and the same counters. */
  ghost predicate SameState(a: State, b: State) {
    && a.alpha == b.alpha && a.beta == b.beta && a.nDirect == b.nDirect && a.questions == b.questions
    && a.reviewSuccesses == b.reviewSuccesses && a.reviewRung == b.reviewRung && a.lastReviewAt == b.lastReviewAt
    && a.lastReviewEvidence == b.lastReviewEvidence && a.lastReviewEvent == b.lastReviewEvent
  }

  ghost predicate SameReading(a: Projection, b: Projection) {
    SameState(a.state, b.state) && a.metrics == b.metrics
  }

  lemma SameMetrics(a: State, b: State, qualifying: bool)
    requires SameState(a, b) && a.alpha + a.beta > 0.0
    ensures MetricsFor(a, qualifying) == MetricsFor(b, qualifying)
  {
  }

  lemma StoredDecaysAlike(f: Retention, s: State, s1: State, t1: Time, t2: Time)
    requires Lawful(f) && s.lastAt.Some? && s.lastAt.value <= t1 <= t2
    requires SameState(s1, Decayed(f, s, t1)) && s1.lastAt == Some(t1)
    ensures SameState(Decayed(f, s1, t2), Decayed(f, s, t2))
  {
    DecayComposes(f, s, t1, t2);
    DecayedAlike(f, s1, Decayed(f, s, t1), t2);
  }

  lemma DecayedAlike(f: Retention, a: State, b: State, at: Time)
    requires SameState(a, b) && a.lastAt == b.lastAt
    ensures SameState(Decayed(f, a, at), Decayed(f, b, at))
  {
  }

  lemma ReadOfTouched(f: Retention, c: Id, s: State, t1: Time, t2: Time)
    requires Lawful(f) && AtLeastPrior(s) && s.lastAt.Some? && s.lastAt.value <= t1 <= t2
    ensures AtLeastPrior(Decayed(f, s, t1)) && AtLeastPrior(Decayed(f, s, t2))
    ensures var p1 := ProjectionOf(f, c, s, t1);
            AtLeastPrior(Decayed(f, Stored(p1, t1), t2))
            && SameReading(ProjectionOf(f, c, Stored(p1, t1), t2), ProjectionOf(f, c, s, t2))
  {
    DecayScales(f, s, t1);
    DecayScales(f, s, t2);
    var s1 := Stored(ProjectionOf(f, c, s, t1), t1);
    StoredDecaysAlike(f, s, s1, t1, t2);
    SameMetrics(Decayed(f, s1, t2), Decayed(f, s, t2), s.reviewSuccesses > 0);
  }

  lemma ReadOfUntouched(f: Retention, c: Id, t1: Time, t2: Time)
    requires Lawful(f) && t1 <= t2
    ensures var s := WithPrior(Initial);
            var p1 := ProjectionOf(f, c, s, t1);
            AtLeastPrior(Decayed(f, Stored(p1, t1), t2))
            && (SameReading(ProjectionOf(f, c, Stored(p1, t1), t2), ProjectionOf(f, c, s, t2)) <==> f(HalfLife(0), t2 - t1) == 1.0)
  {
    var s := WithPrior(Initial);
    var stored := Stored(ProjectionOf(f, c, s, t1), t1);
    DecayScales(f, stored, t2);
    assert Factor(f, stored, t2) == f(HalfLife(0), t2 - t1) by {
      HalfLifeBounds(0);
    }
    assert Decayed(f, stored, t2).alpha - 1.0 == (2.0 - 1.0) * Factor(f, stored, t2);
  }

  /** Reading at t2 the revision stored at t1 gives what replaying the same history at t2 would give,
      if and only if the concept has an applied item or nothing fades between t1 and t2: a concept
      known from a self-report alone never fades in replay but does fade when read. */
  lemma LazyReadAgreesIff(f: Retention, evidence: set<Evidence>, events: set<Event>, priors: set<Prior>, c: Id, t1: Time, t2: Time)
    requires Lawful(f) && AllValidEvidence(evidence) && t1 <= t2 && !AppliedLater(evidence, t1)
    requires c in StatesAfter(f, evidence, events, priors)
    ensures var s := StatesAfter(f, evidence, events, priors)[c];
            AtLeastPrior(Decayed(f, s, t1)) && AtLeastPrior(Decayed(f, s, t2))
    ensures var s := StatesAfter(f, evidence, events, priors)[c];
            var p1 := ProjectionOf(f, c, s, t1);
            AtLeastPrior(Decayed(f, Stored(p1, t1), t2))
            && (SameReading(ProjectionOf(f, c, Stored(p1, t1), t2), ProjectionOf(f, c, s, t2))
                <==> (exists e :: e in evidence && Touches(e, c)) || f(HalfLife(0), t2 - t1) == 1.0)
  {
    var s := StatesAfter(f, evidence, events, priors)[c];
    ReplayAtLeastPrior(f, evidence, events, priors);
    StateShape(f, evidence, events, priors, c);
    BackwardsIffAppliedLater(f, evidence, events, priors, t1);
    var items := Touching(evidence, c);
    if items == [] {
      forall e | e in evidence ensures !Touches(e, c) {
        if Touches(e, c) {
          TouchingIsComplete(evidence, e, c);
        }
      }
      ReadOfUntouched(f, c, t1, t2);
    } else {
      TouchingAreEvidence(evidence, c);
      TouchingAreTouched(evidence, c);
      assert items[0] in evidence && Touches(items[0], c);
      ReadOfTouched(f, c, s, t1, t2);
    }
  }

  /** Such a history: one self-report and nothing else. Under every law by which it fades at all between
      the two times, replay and read differ. */
  lemma SelfReportAloneDiffers(f: Retention, events: set<Event>, c: Id, t1: Time, t2: Time)
    requires Lawful(f) && t1 <= t2 && f(HalfLife(0), t2 - t1) < 1.0
    ensures AllValidEvidence({}) && !AppliedLater({}, t1) && c in StatesAfter(f, {}, events, {Prior(0, c)})
    ensures var s := StatesAfter(f, {}, events, {Prior(0, c)})[c];
            var p1 := ProjectionOf(f, c, s, t1);
            && AtLeastPrior(Decayed(f, s, t1)) && AtLeastPrior(Decayed(f, s, t2))
            && AtLeastPrior(Decayed(f, Stored(p1, t1), t2))
            && !SameReading(ProjectionOf(f, c, Stored(p1, t1), t2), ProjectionOf(f, c, s, t2))
  {
    assert Prior(0, c) in {Prior(0, c)};
    LazyReadAgreesIff(f, {}, events, {Prior(0, c)}, c, t1, t2);
  }

  ghost predicate EndsAtItem(evidence: set<Evidence>, e: Evidence) {
    forall x :: x in evidence ==> x.occurredAt < e.occurredAt || (x.occurredAt == e.occurredAt && x.id <= e.id)
  }

  /** What a replay reports besides the states: one projection for each concept that has a state, in
      ascending order; the number of items and of self-reports; and the last item by time, then by id. */
  lemma ReplayReports(f: Retention, evidence: set<Evidence>, events: set<Event>, priors: set<Prior>, asOf: Time)
    requires Lawful(f) && AllValidEvidence(evidence) && Outcome(f, evidence, events, priors, asOf).Ok?
    ensures var r, states := Outcome(f, evidence, events, priors, asOf).value, StatesAfter(f, evidence, events, priors);
            && r.evidenceCount == |evidence| && r.priorCount == |priors|
            && |r.projections| == |SortedElements(states.Keys)|
            && (forall i :: 0 <= i < |r.projections| ==> r.projections[i].concept == SortedElements(states.Keys)[i])
            && (evidence == {} <==> r.latestAt.None?) && (evidence == {} <==> r.latestId.None?)
            && (evidence != {} ==>
                  exists e :: e in evidence && r.latestAt == Some(e.occurredAt) && r.latestId == Some(e.id) && EndsAtItem(evidence, e))
  {
    if evidence != {} {
      assert IsLast(evidence, LastOf(evidence)) && EndsAtItem(evidence, LastOf(evidence));
    }
  }

  /** A projection is of its state decayed to the projection time, and mastered only after a review. */
  lemma ProjectionReports(f: Retention, evidence: set<Evidence>, events: set<Event>, priors: set<Prior>, asOf: Time, i: nat)
    requires Lawful(f) && AllValidEvidence(evidence) && Outcome(f, evidence, events, priors, asOf).Ok?
    requires i < |Outcome(f, evidence, events, priors, asOf).value.projections|
    ensures var p := Outcome(f, evidence, events, priors, asOf).value.projections[i];
            && p.concept in StatesAfter(f, evidence, events, priors)
            && p.state == Decayed(f, StatesAfter(f, evidence, events, priors)[p.concept], asOf)
            && AtLeastPrior(p.state) && p.metrics == MetricsFor(p.state, Successes(events, Touching(evidence, p.concept), p.concept) > 0)
  {
    var states := StatesAfter(f, evidence, events, priors);
    ReplayAtLeastPrior(f, evidence, events, priors);
    var c := SortedElements(states.Keys)[i];
    assert c in Elements(SortedElements(states.Keys));
    DecayScales(f, states[c], asOf);
    StateShape(f, evidence, events, priors, c);
  }
}
