/** What the counters of a replayed state count (packages/mastery/engine.py:205-250). */
module MasteryCounters {
  import opened Support
  import opened MasteryModel
  import opened MasteryEngine
  import opened MasteryHistory

  function CountDirect(items: seq<Evidence>): nat {
    if items == [] then 0
    else CountDirect(items[..|items| - 1]) + (if items[|items| - 1].kind == Direct then 1 else 0)
  }

  function DirectQuestions(items: seq<Evidence>): set<Id> {
    set e | e in items && e.kind == Direct :: e.questionId
  }

  /** The items after the last failed review. */
  function SinceFailure(items: seq<Evidence>): seq<Evidence> {
    if items == [] || ReviewFails(items[|items| - 1]) then []
    else SinceFailure(items[..|items| - 1]) + [items[|items| - 1]]
  }

  ghost predicate PassesReview(events: set<Event>, e: Evidence, c: Id) {
    ReviewSucceeds(e, ContextOf(events, e).previous, c)
  }

  ghost function LastPassed(events: set<Event>, items: seq<Evidence>, c: Id): Option<Evidence> {
    if items == [] then None
    else if PassesReview(events, items[|items| - 1], c) then Some(items[|items| - 1])
    else LastPassed(events, items[..|items| - 1], c)
  }

  function AtMostFive(n: nat): nat {
    if n <= 5 then n else 5
  }

  ghost predicate CountersAre(s: State, items: seq<Evidence>, events: set<Event>, c: Id) {
    var passed := LastPassed(events, items, c);
    && s.nDirect == CountDirect(items) && s.questions == DirectQuestions(items)
    && s.reviewSuccesses == Successes(events, items, c)
    && s.reviewRung == AtMostFive(Successes(events, SinceFailure(items), c))
    && s.lastReviewAt == (if passed.Some? then Some(passed.value.occurredAt) else None)
    && s.lastReviewEvidence == (if passed.Some? then Some(passed.value.id) else None)
    && s.lastReviewEvent == (if passed.Some? then EventFor(events, passed.value) else None)
  }

  /** What one item does to the counters of a concept it touches. */
  ghost predicate Counted(was: State, s: State, e: Evidence, events: set<Event>, c: Id) {
    var success := PassesReview(events, e, c);
    && s.nDirect == was.nDirect + (if e.kind == Direct then 1 else 0)
    && s.questions == (if e.kind == Direct then was.questions + {e.questionId} else was.questions)
    && s.reviewSuccesses == was.reviewSuccesses + (if success then 1 else 0)
    && s.reviewRung == (if success then AtMostFive(was.reviewRung + 1) else if ReviewFails(e) then 0 else was.reviewRung)
    && s.lastReviewAt == (if success then Some(e.occurredAt) else was.lastReviewAt)
    && s.lastReviewEvidence == (if success then Some(e.id) else was.lastReviewEvidence)
    && s.lastReviewEvent == (if success then EventFor(events, e) else was.lastReviewEvent)
  }

  lemma TagStateCounted(f: Retention, states: States, e: Evidence, events: set<Event>, tag: Tag)
    requires ValidEvidence(e)
    ensures Counted(StateOf(states, tag.concept), TagState(f, states, e, ContextOf(events, e), tag), e, events, tag.concept)
  {
  }

  lemma QuestionsSnoc(items: seq<Evidence>, e: Evidence)
    ensures DirectQuestions(items + [e]) == DirectQuestions(items) + (if e.kind == Direct then {e.questionId} else {})
  {
    assert forall x :: x in items + [e] <==> x in items || x == e;
  }

  lemma SuccessesSnoc(events: set<Event>, items: seq<Evidence>, c: Id, e: Evidence)
    ensures Successes(events, items + [e], c) == Successes(events, items, c) + (if PassesReview(events, e, c) then 1 else 0)
  {
    assert (items + [e])[..|items|] == items;
  }

  lemma CountersExtend(was: State, s: State, items: seq<Evidence>, events: set<Event>, c: Id, e: Evidence)
    requires CountersAre(was, items, events, c) && Counted(was, s, e, events, c)
    ensures CountersAre(s, items + [e], events, c)
  {
    var all := items + [e];
    assert all[..|items|] == items && all[|items|] == e;
    QuestionsSnoc(items, e);
    SuccessesSnoc(events, items, c, e);
    SuccessesSnoc(events, SinceFailure(items), c, e);
    assert CountDirect(all) == CountDirect(items) + (if e.kind == Direct then 1 else 0);
    assert SinceFailure(all) == if ReviewFails(e) then [] else SinceFailure(items) + [e];
    assert LastPassed(events, all, c) == if PassesReview(events, e, c) then Some(e) else LastPassed(events, items, c);
  }

  /** In a replayed state: the direct count and the questions are those of the direct items, the rung is
      the number of reviews passed since the last failed one, at most five, and the recorded review is
      the last one passed. */
  lemma {:induction false} CountersCount(f: Retention, evidence: set<Evidence>, events: set<Event>, priors: set<Prior>, c: Id)
    requires AllValidEvidence(evidence)
    ensures CountersAre(StateOf(StatesAfter(f, evidence, events, priors), c), Touching(evidence, c), events, c)
    decreases |evidence|
  {
    if evidence != {} {
      var e := LastOf(evidence);
      var before := StatesAfter(f, evidence - {e}, events, priors);
      var items := Touching(evidence - {e}, c);
      CountersCount(f, evidence - {e}, events, priors, c);
      if Touches(e, c) {
        var tag := AppliedStateOf(f, before, e, ContextOf(events, e), c);
        TagStateCounted(f, before, e, events, tag);
        CountersExtend(StateOf(before, c), TagState(f, before, e, ContextOf(events, e), tag), items, events, c, e);
      } else {
        UntouchedStateOf(f, before, e, ContextOf(events, e), c);
        assert items + [] == items;
      }
    }
  }
}
