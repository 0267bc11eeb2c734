/** What the figures of the mastery engine mean: the weight of an answer, the status of a concept, the pace
    of forgetting and what counts as a passed review (packages/mastery/engine.py, packages/mastery/weights.py). */
module MasteryLaws {
  import opened Support
  import opened MasteryModel
  import opened MasteryEngine
  import opened MasteryHistory
  import opened MasteryCounters

  // ---------------------------------------------------------------- status

  lemma ConfidenceAtLeast(s: State, k: real)
    requires AtLeastPrior(s)
    ensures EffectiveSize(s) == s.alpha + s.beta - 2.0 >= 0.0
    ensures Confidence(s) >= k <==> EffectiveSize(s) >= k * (EffectiveSize(s) + 4.0)
  {
    DivideCompare(EffectiveSize(s), EffectiveSize(s) + 4.0, k);
  }

  /** Alpha at three times beta, weights of four answers in all, three direct answers to two questions. */
  predicate Strong(s: State) {
    s.alpha >= 3.0 * s.beta && s.alpha + s.beta >= 6.0 && s.nDirect >= 3 && |s.questions| >= 2
  }

  /** The status in terms of the two weights alone, without a division: unassessed below three in all, weak
      where beta leads with at least 12/7 over the prior, proficient when strong, and mastered when strong
      and reviewed. */
  lemma StatusByWeights(s: State, qualifying: bool)
    requires AtLeastPrior(s)
    ensures Classify(s, qualifying) == Unassessed <==> s.alpha + s.beta < 3.0
    ensures Classify(s, qualifying) == Weak <==> s.alpha < s.beta && 7.0 * (s.alpha + s.beta) >= 26.0
    ensures Classify(s, qualifying) == Mastered <==> Strong(s) && qualifying
    ensures Classify(s, qualifying) == Proficient <==> Strong(s) && !qualifying
  {
    MasteryAtLeast(s, 0.5);
    MasteryAtLeast(s, 0.75);
    ConfidenceAtLeast(s, 0.3);
    ConfidenceAtLeast(s, 0.5);
  }

  // ---------------------------------------------------------------- forgetting

  /** The half-life is 21 days at first, grows by three fifths with every passed review, and stops at 180. */
  lemma HalfLifeLadder(successes: nat)
    ensures HalfLife(0) == 21.0
    ensures HalfLife(successes + 1) == if 1.6 * HalfLife(successes) <= 180.0 then 1.6 * HalfLife(successes) else 180.0
    ensures successes >= 5 ==> HalfLife(successes) == 180.0
  {
    HalfLifeBounds(successes);
    if successes >= 5 {
      GrowthMonotone(5, successes);
      FifthPower();
    }
  }

  lemma FifthPower()
    ensures 21.0 * Growth(5) > 180.0
  {
    assert Growth(1) == 1.6 && Growth(2) == 2.56 && Growth(3) == 4.096 && Growth(4) == 6.5536;
  }

  lemma {:induction false} GrowthMonotone(m: nat, n: nat)
    requires m <= n
    ensures 0.0 < Growth(m) <= Growth(n)
    decreases n
  {
    if m < n {
      GrowthMonotone(m, n - 1);
    } else if m > 0 {
      GrowthMonotone(m - 1, m - 1);
    }
  }

  /** Where a half-life halves, what a state holds over the prior is halved after its own half-life, and
      its counters stay. */
  lemma HalvesAfterHalfLife(f: Retention, s: State, at: Time)
    requires Lawful(f) && s.lastAt.Some? && at == s.lastAt.value + HalfLife(s.reviewSuccesses)
    requires f(HalfLife(s.reviewSuccesses), HalfLife(s.reviewSuccesses)) == 0.5
    ensures var d := Decayed(f, s, at);
            && 2.0 * (d.alpha - 1.0) == s.alpha - 1.0 && 2.0 * (d.beta - 1.0) == s.beta - 1.0
            && d == s.(alpha := d.alpha, beta := d.beta, lastAt := Some(at))
  {
    HalfLifeBounds(s.reviewSuccesses);
  }

  // ---------------------------------------------------------------- weights

  lemma Commute(a: real, t: real, h: real, c: real)
    ensures a * t * h * c == t * (a * h * c)
  {
    assert a * t * h * c == (t * a) * h * c == t * (a * h) * c == t * ((a * h) * c);
  }

  /** Both weights are the weight of the question type times factors of the difficulty, the hints and the
      confidence in the tags. */
  lemma WeightFactors(e: Evidence)
    requires ValidEvidence(e)
    ensures CorrectWeight(e) == TypeWeight(e) * (CorrectDifficulty(e.difficulty) * HintFactor(e.hintsUsed) * ClampedTag(e.tagConfidence))
    ensures IncorrectWeight(e) == TypeWeight(e) * (IncorrectDifficulty(e.difficulty) * 1.0 * ClampedTag(e.tagConfidence))
  {
    Commute(CorrectDifficulty(e.difficulty), TypeWeight(e), HintFactor(e.hintsUsed), ClampedTag(e.tagConfidence));
    Commute(IncorrectDifficulty(e.difficulty), TypeWeight(e), 1.0, ClampedTag(e.tagConfidence));
  }

  /** An ordinary answer: of middle difficulty, without hints, with full confidence in its tags. */
  function Plainly(e: Evidence): Evidence {
    e.(difficulty := 3, hintsUsed := 0, tagConfidence := 1.0)
  }

  /** Such an answer weighs the same right as wrong: what a rubric grader trusts itself, or else what the
      question type discriminates, which for multiple choice is corrected for guessing. */
  lemma PlainWeight(e: Evidence)
    requires ValidEvidence(e)
    ensures ValidEvidence(Plainly(e)) && CorrectWeight(Plainly(e)) == IncorrectWeight(Plainly(e))
    ensures var w := CorrectWeight(Plainly(e));
            if e.grader == LlmRubric then w == e.graderConfidence
            else match e.questionType
                 case Mcq(options) => w * (options as real) == 0.6 * ((options as real) - 1.0)
                 case TrueFalse => w == 0.4
                 case Numeric => w == 1.0
                 case ShortText => w == 0.9
                 case Code => w == 1.2
  {
    if e.questionType.Mcq? {
      GuessCorrected(e.questionType.options as real);
    }
  }

  lemma GuessCorrected(n: real)
    requires n > 0.0
    ensures 0.6 * (1.0 - 1.0 / n) * n == 0.6 * (n - 1.0)
  {
    var q := 1.0 / n;
    assert q * n == 1.0;
    assert 0.6 * (1.0 - q) * n == 0.6 * (n - q * n);
  }

  /** How hard the question is moves the credit for a right answer and the blame for a wrong one in
      opposite ways, by three tenths: an easy question credits less and blames more. */
  lemma DifficultyWeights(e: Evidence)
    requires ValidEvidence(e)
    ensures var middle := e.(difficulty := 3);
            var up, down := 1.3, 0.7;
            && ValidEvidence(middle)
            && CorrectWeight(e) == (if e.difficulty < 3 then down else if e.difficulty > 3 then up else 1.0) * CorrectWeight(middle)
            && IncorrectWeight(e) == (if e.difficulty < 3 then up else if e.difficulty > 3 then down else 1.0) * IncorrectWeight(middle)
  {
    assert TypeWeight(e.(difficulty := 3)) == TypeWeight(e);
    FactorOut(CorrectDifficulty(e.difficulty), TypeWeight(e), HintFactor(e.hintsUsed), ClampedTag(e.tagConfidence));
    FactorOut(IncorrectDifficulty(e.difficulty), TypeWeight(e), 1.0, ClampedTag(e.tagConfidence));
  }

  lemma FactorOut(d: real, t: real, h: real, c: real)
    ensures d * t * h * c == d * (1.0 * t * h * c)
    ensures d * t * 1.0 * c == d * t * c && 1.0 * t * 1.0 * c == 1.0 * t * c
  {
  }

  /** The first hint halves the credit for a right answer, the second halves it again, further ones cost
      nothing; hints never change the blame for a wrong one. */
  lemma HintWeights(e: Evidence)
    requires ValidEvidence(e)
    ensures var bare := e.(hintsUsed := 0);
            && ValidEvidence(bare) && IncorrectWeight(e) == IncorrectWeight(bare)
            && (if e.hintsUsed == 0 then 1.0 else if e.hintsUsed == 1 then 2.0 else 4.0) * CorrectWeight(e) == CorrectWeight(bare)
  {
    assert TypeWeight(e.(hintsUsed := 0)) == TypeWeight(e);
    HintOut(CorrectDifficulty(e.difficulty) * TypeWeight(e), ClampedTag(e.tagConfidence));
  }

  lemma HintOut(p: real, c: real)
    ensures 2.0 * (p * 0.5 * c) == p * 1.0 * c && 4.0 * (p * 0.25 * c) == p * 1.0 * c
  {
  }

  /** Both weights are proportional to the confidence in the tags, taken as at least one half and at most
      one. */
  lemma TagWeights(e: Evidence)
    requires ValidEvidence(e)
    ensures var sure := e.(tagConfidence := 1.0);
            var c := if e.tagConfidence < 0.5 then 0.5 else if e.tagConfidence > 1.0 then 1.0 else e.tagConfidence;
            && ValidEvidence(sure)
            && CorrectWeight(e) == c * CorrectWeight(sure) && IncorrectWeight(e) == c * IncorrectWeight(sure)
  {
    assert TypeWeight(e.(tagConfidence := 1.0)) == TypeWeight(e);
    hide TypeWeight, CorrectDifficulty, IncorrectDifficulty, HintFactor;
    LastOut(CorrectDifficulty(e.difficulty) * TypeWeight(e) * HintFactor(e.hintsUsed), ClampedTag(e.tagConfidence));
    LastOut(IncorrectDifficulty(e.difficulty) * TypeWeight(e), ClampedTag(e.tagConfidence));
  }

  lemma LastOut(p: real, c: real)
    ensures p * c == c * (p * 1.0)
  {
  }

  // ---------------------------------------------------------------- reviews

  /** A review is passed exactly when it is direct, fully correct and, for the concept, there has been an
      earlier learning event of another item, and none within the last day. */
  lemma ReviewPassedIff(events: set<Event>, e: Evidence, c: Id)
    requires ValidEvidence(e)
    ensures PassesReview(events, e, c) <==>
              && e.kind == Direct && e.isReview && e.correct == 1.0 && (exists i :: 0 <= i < |e.tags| && e.tags[i].concept == c)
              && (exists v :: v in events && Taught(v, e, c))
              && (forall v :: v in events && Taught(v, e, c) ==> v.occurredAt + 1.0 <= e.occurredAt)
  {
    var earlier := Earlier(events, c, e);
    assert c in Elements(Concepts(e.tags)) <==> exists i :: 0 <= i < |e.tags| && e.tags[i].concept == c by {
      if i :| 0 <= i < |e.tags| && e.tags[i].concept == c {
        assert Concepts(e.tags)[i] == c;
      }
    }
    assert forall v :: v in earlier <==> v in events && Taught(v, e, c);
    if earlier != {} {
      assert IsLatest(earlier, Latest(earlier));
      assert Latest(earlier) in earlier;
    }
  }

  /** The event is about the concept, happened before the item, and records another item. */
  predicate Taught(v: Event, e: Evidence, c: Id) {
    c in v.concepts && v.occurredAt < e.occurredAt && v.sourceEvidence != Some(e.id) && v.sourceAttempt != Some(e.attemptId)
  }

  /** A concept known from a self-report alone stands at two to one and is never more than developing. */
  lemma SelfReportIsWeak(f: Retention, events: set<Event>, p: Prior, qualifying: bool)
    ensures var states := StatesAfter(f, {}, events, {p});
            && states.Keys == {p.concept}
            && states[p.concept].alpha == 2.0 && states[p.concept].beta == 1.0 && states[p.concept].selfReportApplied
            && states[p.concept].lastAt.None?
            && Classify(states[p.concept], qualifying) == Developing
  {
  }

  // ---------------------------------------------------------------- what is read off a state

  /** The metrics are the evidence over the prior, alpha's part of both weights, and how far that evidence
      outweighs four more answers. */
  lemma MetricsMean(s: State, qualifying: bool)
    requires AtLeastPrior(s)
    ensures var m := MetricsFor(s, qualifying);
            && m.nEff == s.alpha + s.beta - 2.0 && m.mastery * (s.alpha + s.beta) == s.alpha
            && m.confidence * (m.nEff + 4.0) == m.nEff && m.status == Classify(s, qualifying)
  {
  }

  /** A review that failed takes its concept back to the first rung, one that was passed takes it one rung
      up to the fifth, and nothing else moves it. */
  lemma ReviewMovesRung(f: Retention, states: States, e: Evidence, events: set<Event>, i: nat)
    requires ValidEvidence(e) && !AuditOnly(e) && i < |e.tags|
    ensures var c := e.tags[i].concept;
            var before, after := StateOf(states, c), StateOf(Applied(f, states, e, ContextOf(events, e)), c);
            after.reviewRung == if e.kind == Direct && e.isReview && e.correct < 1.0 then 0
                                else if !PassesReview(events, e, c) then before.reviewRung
                                else if before.reviewRung < 5 then before.reviewRung + 1 else 5
  {
    AppliedAt(f, states, e, ContextOf(events, e), e.tags[i].concept);
  }

  /** Replay remembers of each concept whether its learner reported knowing it. */
  lemma {:induction false} SelfReportRemembered(f: Retention, evidence: set<Evidence>, events: set<Event>, priors: set<Prior>, c: Id)
    requires AllValidEvidence(evidence)
    ensures StateOf(StatesAfter(f, evidence, events, priors), c).selfReportApplied <==> exists p :: p in priors && p.concept == c
    decreases |evidence|
  {
    if evidence == {} {
      assert c in PriorConcepts(priors) <==> exists p :: p in priors && p.concept == c;
    } else {
      var e := LastOf(evidence);
      var before := StatesAfter(f, evidence - {e}, events, priors);
      SelfReportRemembered(f, evidence - {e}, events, priors, c);
      if Touches(e, c) {
        var tag := AppliedStateOf(f, before, e, ContextOf(events, e), c);
      } else {
        UntouchedStateOf(f, before, e, ContextOf(events, e), c);
      }
    }
  }

  // ---------------------------------------------------------------- order

  /** Items apply in the order of their times, and of their ids at one time. */
  lemma {:induction false} AppliedInOrder(evidence: set<Evidence>, c: Id, i: nat, j: nat)
    requires i < j < |Touching(evidence, c)|
    ensures var a, b := Touching(evidence, c)[i], Touching(evidence, c)[j];
            a.occurredAt < b.occurredAt || (a.occurredAt == b.occurredAt && a.id <= b.id)
    decreases |evidence|
  {
    var e := LastOf(evidence);
    var rest := Touching(evidence - {e}, c);
    if j < |rest| {
      AppliedInOrder(evidence - {e}, c, i, j);
    } else {
      TouchingAreEvidence(evidence - {e}, c);
    }
  }

  /** The event a passed review is recorded under is the one with the least id among those of the item. */
  lemma EventForIsLeast(events: set<Event>, e: Evidence)
    ensures match EventFor(events, e)
            case None => forall v :: v in events ==> v.sourceEvidence != Some(e.id) && v.sourceAttempt != Some(e.attemptId)
            case Some(id) =>
              && (exists v :: v in events && v.id == id && (v.sourceEvidence == Some(e.id) || v.sourceAttempt == Some(e.attemptId)))
              && (forall v :: v in events && (v.sourceEvidence == Some(e.id) || v.sourceAttempt == Some(e.attemptId)) ==> id <= v.id)
  {
    var ids := MatchingIds(events, e);
    forall v | v in events && Matches(v, e) ensures v.id in ids {
    }
    if ids != {} {
      assert IsLeast(ids, Least(ids));
    }
  }
}
