/** The history of one learner and what replaying it means (packages/mastery/engine.py:267-327,
    350-414). Everything here is stated on sets: the order in which evidence, events and
    self-reports are supplied, and how often each is repeated, has no way in. */
module MasteryHistory {
  import opened Support
  import opened MasteryModel
  import opened MasteryEngine

  datatype Event = Event(id: Id, concepts: set<Id>, occurredAt: Time, sourceEvidence: Option<Id>, sourceAttempt: Option<Id>)

  /** A self-report: one full success credited to one concept. */
  datatype Prior = Prior(id: Id, concept: Id)

  // ---------------------------------------------------------------- what the events say

  predicate Matches(v: Event, e: Evidence) {
    v.sourceEvidence == Some(e.id) || v.sourceAttempt == Some(e.attemptId)
  }

  predicate IsEarlier(v: Event, c: Id, e: Evidence) {
    c in v.concepts && v.occurredAt < e.occurredAt && !Matches(v, e)
  }

  ghost function Earlier(events: set<Event>, c: Id, e: Evidence): set<Event> {
    set v | v in events && IsEarlier(v, c, e)
  }

  ghost predicate IsLatest(events: set<Event>, v: Event) {
    v in events && forall u :: u in events ==> u.occurredAt <= v.occurredAt
  }

  lemma {:induction false} LatestExists(events: set<Event>) returns (v: Event)
    requires events != {}
    ensures IsLatest(events, v)
  {
    v :| v in events;
    if events - {v} != {} {
      var u := LatestExists(events - {v});
      forall w | w in events ensures w == v || w.occurredAt <= u.occurredAt {
        if w != v { assert w in events - {v}; }
      }
      v := if u.occurredAt <= v.occurredAt then v else u;
    } else {
      assert events == {v} + (events - {v});
    }
  }

  ghost function Latest(events: set<Event>): (v: Event)
    requires events != {}
    ensures IsLatest(events, v)
  {
    assert exists v :: IsLatest(events, v) by {
      var v := LatestExists(events);
    }
    var v :| IsLatest(events, v);
    v
  }

  /** The time of the latest earlier event about the concept, other than the item's own. */
  ghost function LatestBefore(events: set<Event>, c: Id, e: Evidence): Option<Time> {
    if Earlier(events, c, e) == {} then None else Some(Latest(Earlier(events, c, e)).occurredAt)
  }

  ghost function MatchingIds(events: set<Event>, e: Evidence): set<Id> {
    set v | v in events && Matches(v, e) :: v.id
  }

  ghost function EventFor(events: set<Event>, e: Evidence): Option<Id> {
    if MatchingIds(events, e) == {} then None else Some(Least(MatchingIds(events, e)))
  }

  ghost function ContextOf(events: set<Event>, e: Evidence): Context {
    Context(map c | c in Elements(Concepts(e.tags)) && LatestBefore(events, c, e).Some? :: LatestBefore(events, c, e).value,
            EventFor(events, e))
  }

  // ---------------------------------------------------------------- self-reports

  function WithPrior(s: State): State {
    if s.selfReportApplied then s else s.(alpha := s.alpha + 1.0, selfReportApplied := true)
  }

  function PriorConcepts(priors: set<Prior>): set<Id> {
    set p | p in priors :: p.concept
  }

  function PriorStates(states: States, priors: set<Prior>): States {
    map c | c in states.Keys + PriorConcepts(priors) ::
      if c !in PriorConcepts(priors) then states[c] else WithPrior(StateOf(states, c))
  }

  /** A self-report counts once, however often it is applied. */
  lemma PriorsApplyOnce(states: States, priors: set<Prior>)
    ensures PriorStates(PriorStates(states, priors), priors) == PriorStates(states, priors)
  {
  }

  // ---------------------------------------------------------------- chronological replay

  predicate NotAfter(a: Evidence, b: Evidence) {
    a.occurredAt < b.occurredAt || (a.occurredAt == b.occurredAt && a.id <= b.id)
  }

  ghost predicate IsLast(evidence: set<Evidence>, e: Evidence) {
    e in evidence && forall x :: x in evidence ==> NotAfter(x, e)
  }

  lemma {:induction false} LastExists(evidence: set<Evidence>) returns (e: Evidence)
    requires evidence != {}
    ensures IsLast(evidence, e)
  {
    e :| e in evidence;
    if evidence - {e} != {} {
      var d := LastExists(evidence - {e});
      forall x | x in evidence ensures x == e || NotAfter(x, d) {
        if x != e { assert x in evidence - {e}; }
      }
      e := if NotAfter(d, e) then e else d;
    } else {
      assert evidence == {e} + (evidence - {e});
    }
  }

  ghost function LastOf(evidence: set<Evidence>): (e: Evidence)
    requires evidence != {}
    ensures IsLast(evidence, e)
  {
    assert exists e :: IsLast(evidence, e) by {
      var e := LastExists(evidence);
    }
    var e :| IsLast(evidence, e);
    e
  }

  /** No two different items under one id. */
  ghost predicate DistinctIds(evidence: set<Evidence>) {
    forall x, y :: x in evidence && y in evidence && x.id == y.id ==> x == y
  }

  ghost predicate AllValidEvidence(evidence: set<Evidence>) {
    forall e :: e in evidence ==> ValidEvidence(e)
  }

  lemma LastIsUnique(evidence: set<Evidence>, e: Evidence)
    requires DistinctIds(evidence) && IsLast(evidence, e)
    ensures LastOf(evidence) == e
  {
  }

  ghost function StatesAfter(f: Retention, evidence: set<Evidence>, events: set<Event>, priors: set<Prior>): States
    requires AllValidEvidence(evidence)
    decreases |evidence|
  {
    if evidence == {} then PriorStates(map[], priors)
    else
      var e := LastOf(evidence);
      Applied(f, StatesAfter(f, evidence - {e}, events, priors), e, ContextOf(events, e))
  }

  ghost function Recorded(f: Retention, evidence: set<Evidence>, events: set<Event>, priors: set<Prior>): seq<Contribution>
    requires AllValidEvidence(evidence)
    decreases |evidence|
  {
    if evidence == {} then []
    else
      var e := LastOf(evidence);
      Recorded(f, evidence - {e}, events, priors) + Contributions(f, StatesAfter(f, evidence - {e}, events, priors), e)
  }

  /** Adding an inferred item that is not fully correct changes no state. */
  lemma {:induction false} AuditItemChangesNothing(f: Retention, evidence: set<Evidence>, x: Evidence, events: set<Event>, priors: set<Prior>)
    requires AllValidEvidence(evidence + {x}) && DistinctIds(evidence + {x}) && x !in evidence && AuditOnly(x)
    ensures StatesAfter(f, evidence + {x}, events, priors) == StatesAfter(f, evidence, events, priors)
    decreases |evidence|
  {
    var all := evidence + {x};
    var e := LastOf(all);
    if e == x {
      assert all - {x} == evidence;
    } else {
      var rest := evidence - {e};
      LastIsUnique(evidence, e);
      assert all - {e} == rest + {x};
      AuditItemChangesNothing(f, rest, x, events, priors);
    }
  }

  // ---------------------------------------------------------------- what touched a concept

  predicate Touches(e: Evidence, c: Id) {
    !AuditOnly(e) && c in Concepts(e.tags)
  }

  /** The applied items tagged with the concept, in chronological order. */
  ghost function Touching(evidence: set<Evidence>, c: Id): seq<Evidence>
    decreases |evidence|
  {
    if evidence == {} then []
    else
      var e := LastOf(evidence);
      Touching(evidence - {e}, c) + (if Touches(e, c) then [e] else [])
  }

  ghost function Successes(events: set<Event>, items: seq<Evidence>, c: Id): nat {
    if items == [] then 0
    else
      var e := items[|items| - 1];
      Successes(events, items[..|items| - 1], c) + (if ReviewSucceeds(e, ContextOf(events, e).previous, c) then 1 else 0)
  }

  ghost function LastTime(items: seq<Evidence>): Option<Time> {
    if items == [] then None else Some(items[|items| - 1].occurredAt)
  }

  lemma AppliedStateOf(f: Retention, states: States, e: Evidence, ctx: Context, c: Id) returns (tag: Tag)
    requires ValidEvidence(e) && Touches(e, c)
    ensures tag in e.tags && tag.concept == c
    ensures c in Applied(f, states, e, ctx) && StateOf(Applied(f, states, e, ctx), c) == TagState(f, states, e, ctx, tag)
  {
    AppliedAt(f, states, e, ctx, c);
    var i :| 0 <= i < |e.tags| && e.tags[i].concept == c;
    tag := e.tags[i];
  }

  lemma UntouchedStateOf(f: Retention, states: States, e: Evidence, ctx: Context, c: Id)
    requires ValidEvidence(e) && !Touches(e, c)
    ensures c in Applied(f, states, e, ctx) <==> c in states
    ensures StateOf(Applied(f, states, e, ctx), c) == StateOf(states, c)
  {
    if !AuditOnly(e) {
      AppliedAt(f, states, e, ctx, c);
    }
  }

  /** The counters of a tagged concept after one item. */
  lemma TagStateCounters(f: Retention, states: States, e: Evidence, ctx: Context, tag: Tag)
    requires ValidEvidence(e)
    ensures var s := TagState(f, states, e, ctx, tag);
            var was := StateOf(states, tag.concept);
            var success := ReviewSucceeds(e, ctx.previous, tag.concept);
            && s.lastAt == Some(e.occurredAt)
            && s.reviewSuccesses == was.reviewSuccesses + (if success then 1 else 0)
            && s.hasQualifyingReview == (was.hasQualifyingReview || success)
  {
  }

  /** How a state s, present or not, relates to the items that touched its concept. */
  ghost predicate Shape(s: State, present: bool, items: seq<Evidence>, events: set<Event>, priors: set<Prior>, c: Id) {
    && (present <==> c in PriorConcepts(priors) || items != [])
    && s.lastAt == LastTime(items)
    && s.reviewSuccesses == Successes(events, items, c)
    && s.hasQualifyingReview == (s.reviewSuccesses > 0)
    && (items == [] ==> s == (if c in PriorConcepts(priors) then WithPrior(Initial) else Initial))
  }

  lemma ShapeExtends(s: State, present: bool, items: seq<Evidence>, events: set<Event>, priors: set<Prior>, c: Id, e: Evidence, s': State)
    requires Shape(s, present, items, events, priors, c)
    requires s'.lastAt == Some(e.occurredAt)
    requires var success := ReviewSucceeds(e, ContextOf(events, e).previous, c);
             && s'.reviewSuccesses == s.reviewSuccesses + (if success then 1 else 0)
             && s'.hasQualifyingReview == (s.hasQualifyingReview || success)
    ensures Shape(s', true, items + [e], events, priors, c)
  {
    assert (items + [e])[..|items|] == items;
  }

  lemma ShapeStep(f: Retention, before: States, e: Evidence, items: seq<Evidence>, events: set<Event>, priors: set<Prior>, c: Id)
    requires ValidEvidence(e) && Shape(StateOf(before, c), c in before, items, events, priors, c)
    ensures var after := Applied(f, before, e, ContextOf(events, e));
            Shape(StateOf(after, c), c in after, items + (if Touches(e, c) then [e] else []), events, priors, c)
  {
    var ctx := ContextOf(events, e);
    if Touches(e, c) {
      var tag := AppliedStateOf(f, before, e, ctx, c);
      TagStateCounters(f, before, e, ctx, tag);
      ShapeExtends(StateOf(before, c), c in before, items, events, priors, c, e, TagState(f, before, e, ctx, tag));
    } else {
      UntouchedStateOf(f, before, e, ctx, c);
      assert items + [] == items;
    }
  }

  /** Which concepts have a state, when each was last touched and how many reviews it has passed. */
  lemma {:induction false} StateShape(f: Retention, evidence: set<Evidence>, events: set<Event>, priors: set<Prior>, c: Id)
    requires AllValidEvidence(evidence)
    ensures var states := StatesAfter(f, evidence, events, priors);
            Shape(StateOf(states, c), c in states, Touching(evidence, c), events, priors, c)
    decreases |evidence|
  {
    if evidence != {} {
      var e := LastOf(evidence);
      StateShape(f, evidence - {e}, events, priors, c);
      ShapeStep(f, StatesAfter(f, evidence - {e}, events, priors), e, Touching(evidence - {e}, c), events, priors, c);
    }
  }

  lemma {:induction false} TouchingAreEvidence(evidence: set<Evidence>, c: Id)
    ensures forall i :: 0 <= i < |Touching(evidence, c)| ==> Touching(evidence, c)[i] in evidence
    decreases |evidence|
  {
    if evidence != {} {
      TouchingAreEvidence(evidence - {LastOf(evidence)}, c);
    }
  }

  lemma LastTimeWithin(f: Retention, evidence: set<Evidence>, events: set<Event>, priors: set<Prior>, c: Id, bound: Time)
    requires AllValidEvidence(evidence) && forall x :: x in evidence ==> x.occurredAt <= bound
    ensures DecayDefined(StateOf(StatesAfter(f, evidence, events, priors), c), bound)
  {
    StateShape(f, evidence, events, priors, c);
    TouchingAreEvidence(evidence, c);
  }

  /** In chronological order nothing is ever decayed backwards. */
  lemma ReplayIsTimely(f: Retention, evidence: set<Evidence>, events: set<Event>, priors: set<Prior>, e: Evidence)
    requires AllValidEvidence(evidence) && forall x :: x in evidence ==> NotAfter(x, e)
    ensures Timely(StatesAfter(f, evidence, events, priors), e)
  {
    forall i | 0 <= i < |e.tags| ensures DecayDefined(StateOf(StatesAfter(f, evidence, events, priors), e.tags[i].concept), e.occurredAt) {
      LastTimeWithin(f, evidence, events, priors, e.tags[i].concept, e.occurredAt);
    }
  }

  lemma {:induction false} ReplayAtLeastPrior(f: Retention, evidence: set<Evidence>, events: set<Event>, priors: set<Prior>)
    requires Lawful(f) && AllValidEvidence(evidence)
    ensures AllAtLeastPrior(StatesAfter(f, evidence, events, priors))
    decreases |evidence|
  {
    if evidence != {} {
      var e := LastOf(evidence);
      ReplayAtLeastPrior(f, evidence - {e}, events, priors);
      AppliedAtLeastPrior(f, StatesAfter(f, evidence - {e}, events, priors), e, ContextOf(events, e));
    }
  }
}
