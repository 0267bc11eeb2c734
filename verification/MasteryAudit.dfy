/** Every unit of alpha and beta above the prior is accounted for by the self-report and the recorded
    contributions, each faded by the time that has passed since
    (packages/mastery/engine.py:92-113, 218-287, 393-403). */
module MasteryAudit {
  import opened Support
  import opened MasteryModel
  import opened MasteryEngine
  import opened MasteryHistory

  function Dot(xs: seq<real>, ys: seq<real>): real
    requires |xs| == |ys|
  {
    if xs == [] then 0.0
    else
      var k := |xs| - 1;
      Dot(xs[..k], ys[..k]) + xs[k] * ys[k]
  }

  lemma {:induction false} DotScales(xs: seq<real>, ys: seq<real>, zs: seq<real>, k: real)
    requires |xs| == |ys| == |zs| && forall i :: 0 <= i < |xs| ==> zs[i] == ys[i] * k
    ensures Dot(xs, zs) == Dot(xs, ys) * k
  {
    if xs != [] {
      var n := |xs| - 1;
      DotScales(xs[..n], ys[..n], zs[..n], k);
      Regroup(xs[n], ys[n], k, Dot(xs[..n], ys[..n]));
    }
  }

  lemma Regroup(x: real, y: real, k: real, rest: real)
    ensures rest * k + x * (y * k) == (rest + x * y) * k
  {
    assert x * (y * k) == (x * y) * k;
  }

  // ---------------------------------------------------------------- what is left of an item

  /** The half-life of a concept after the given items. */
  ghost function HalfLifeAfter(events: set<Event>, items: seq<Evidence>, c: Id): real {
    HalfLife(Successes(events, items, c))
  }

  /** The part of what item i contributed that is left at a later time: one factor for each stretch
      between the items that touched the concept, at the half-life then in force. */
  ghost function Kept(f: Retention, events: set<Event>, items: seq<Evidence>, c: Id, i: nat, at: Time): real
    requires i < |items|
    decreases |items|, 1
  {
    KeptBefore(f, events, items, c, i) * f(HalfLifeAfter(events, items, c), at - items[|items| - 1].occurredAt)
  }

  /** What was left of it when the last item came. */
  ghost function KeptBefore(f: Retention, events: set<Event>, items: seq<Evidence>, c: Id, i: nat): real
    requires i < |items|
    decreases |items|, 0
  {
    var k := |items| - 1;
    if i == k then 1.0 else Kept(f, events, items[..k], c, i, items[k].occurredAt)
  }

  ghost function AllKept(f: Retention, events: set<Event>, items: seq<Evidence>, c: Id, at: Time): seq<real> {
    seq(|items|, i requires 0 <= i < |items| => Kept(f, events, items, c, i, at))
  }

  /** What is left at a time of a self-report of size prior and of the deltas of the items. A
      self-report fades only from the first item on. */
  ghost function MassLeft(f: Retention, events: set<Event>, items: seq<Evidence>, c: Id, prior: real, deltas: seq<real>, at: Time): real
    requires |deltas| == |items|
  {
    if items == [] then prior
    else prior * Kept(f, events, items, c, 0, at) + Dot(deltas, AllKept(f, events, items, c, at))
  }

  lemma NothingLostAtOnce(f: Retention, events: set<Event>, items: seq<Evidence>, c: Id)
    requires Lawful(f)
    ensures f(HalfLifeAfter(events, items, c), 0.0) == 1.0
  {
    HalfLifeBounds(Successes(events, items, c));
  }

  /** Nothing is lost at the moment the last item comes. */
  lemma KeptOnArrival(f: Retention, events: set<Event>, items: seq<Evidence>, c: Id, i: nat)
    requires Lawful(f) && i < |items|
    ensures Kept(f, events, items, c, i, items[|items| - 1].occurredAt) == KeptBefore(f, events, items, c, i)
  {
    var last := items[|items| - 1].occurredAt;
    NothingLostAtOnce(f, events, items, c);
    assert last - last == 0.0;
  }

  lemma KeptFades(f: Retention, events: set<Event>, items: seq<Evidence>, c: Id, i: nat, last: Time, at: Time)
    requires Lawful(f) && i < |items| && last == items[|items| - 1].occurredAt
    ensures Kept(f, events, items, c, i, at) == Kept(f, events, items, c, i, last) * f(HalfLifeAfter(events, items, c), at - last)
  {
    KeptOnArrival(f, events, items, c, i);
  }

  lemma MassFades(f: Retention, events: set<Event>, items: seq<Evidence>, c: Id, prior: real, deltas: seq<real>, last: Time, at: Time)
    requires Lawful(f) && items != [] && |deltas| == |items| && last == items[|items| - 1].occurredAt
    ensures MassLeft(f, events, items, c, prior, deltas, at)
            == MassLeft(f, events, items, c, prior, deltas, last) * f(HalfLifeAfter(events, items, c), at - last)
  {
    var k := f(HalfLifeAfter(events, items, c), at - last);
    var was, now := AllKept(f, events, items, c, last), AllKept(f, events, items, c, at);
    forall i | 0 <= i < |items| ensures now[i] == was[i] * k {
      KeptFades(f, events, items, c, i, last, at);
    }
    DotScales(deltas, was, now, k);
    Regroup(prior, was[0], k, Dot(deltas, was));
  }

  lemma KeptOnAppend(f: Retention, events: set<Event>, items: seq<Evidence>, c: Id, e: Evidence, i: nat)
    requires Lawful(f) && i <= |items|
    ensures Kept(f, events, items + [e], c, i, e.occurredAt) == if i == |items| then 1.0 else Kept(f, events, items, c, i, e.occurredAt)
  {
    var all := items + [e];
    assert all[..|items|] == items && all[|items|] == e;
    KeptOnArrival(f, events, all, c, i);
  }

  lemma DotSnoc(xs: seq<real>, ys: seq<real>, x: real, y: real)
    requires |xs| == |ys|
    ensures Dot(xs + [x], ys + [y]) == Dot(xs, ys) + x * y
  {
    assert (xs + [x])[..|xs|] == xs && (ys + [y])[..|ys|] == ys;
  }

  /** A new item adds exactly its own delta. */
  lemma MassGrows(f: Retention, events: set<Event>, items: seq<Evidence>, c: Id, prior: real, deltas: seq<real>, e: Evidence, delta: real)
    requires Lawful(f) && |deltas| == |items|
    ensures MassLeft(f, events, items + [e], c, prior, deltas + [delta], e.occurredAt)
            == MassLeft(f, events, items, c, prior, deltas, e.occurredAt) + delta
  {
    var all, n := items + [e], |items|;
    var was, now := AllKept(f, events, items, c, e.occurredAt), AllKept(f, events, all, c, e.occurredAt);
    forall i | 0 <= i <= n ensures now[i] == (was + [1.0])[i] {
      KeptOnAppend(f, events, items, c, e, i);
    }
    assert now == was + [1.0];
    DotSnoc(deltas, was, delta, 1.0);
    KeptOnAppend(f, events, items, c, e, 0);
  }

  // ---------------------------------------------------------------- the recorded contributions

  /** The contributions that were applied to the concept, in the order recorded. */
  function Taken(contributions: seq<Contribution>, c: Id): seq<Contribution> {
    if contributions == [] then []
    else
      var k := |contributions| - 1;
      var rest := Taken(contributions[..k], c);
      if contributions[k].applied && contributions[k].concept == c then rest + [contributions[k]] else rest
  }

  lemma {:induction false} TakenConcat(a: seq<Contribution>, b: seq<Contribution>, c: Id)
    ensures Taken(a + b, c) == Taken(a, c) + Taken(b, c)
  {
    if b == [] {
      assert a + b == a;
    } else {
      var k := |b| - 1;
      assert (a + b)[..|a| + k] == a + b[..k];
      TakenConcat(a, b[..k], c);
    }
  }

  lemma {:induction false} TakenNone(contributions: seq<Contribution>, c: Id)
    requires forall i :: 0 <= i < |contributions| ==> !(contributions[i].applied && contributions[i].concept == c)
    ensures Taken(contributions, c) == []
  {
    if contributions != [] {
      TakenNone(contributions[..|contributions| - 1], c);
    }
  }

  lemma TakenOne(contributions: seq<Contribution>, c: Id, i: nat)
    requires i < |contributions| && contributions[i].applied && contributions[i].concept == c
    requires forall j :: 0 <= j < |contributions| && j != i ==> contributions[j].concept != c
    ensures Taken(contributions, c) == [contributions[i]]
  {
    var front, back := contributions[..i], contributions[i + 1..];
    TakenNone(front, c);
    TakenNone(back, c);
    TakenConcat(front + [contributions[i]], back, c);
    assert (front + [contributions[i]])[..i] == front;
    assert contributions == front + [contributions[i]] + back;
  }

  /** One item records one applied contribution for each concept it touches, and none for others. */
  lemma TakenOfItem(f: Retention, states: States, e: Evidence, c: Id, tag: Tag)
    requires ValidEvidence(e) && (Touches(e, c) ==> tag in e.tags && tag.concept == c)
    ensures Taken(Contributions(f, states, e), c) == if Touches(e, c) then [TagContribution(f, states, e, tag)] else []
  {
    var all := Contributions(f, states, e);
    if Touches(e, c) {
      var i :| 0 <= i < |e.tags| && e.tags[i] == tag;
      assert all[i] == TagContribution(f, states, e, tag);
      TakenOne(all, c, i);
    } else {
      forall i | 0 <= i < |all| ensures !(all[i].applied && all[i].concept == c) {
        assert all[i].concept == Concepts(e.tags)[i];
      }
      TakenNone(all, c);
    }
  }

  function AlphaDeltas(taken: seq<Contribution>): seq<real> {
    seq(|taken|, i requires 0 <= i < |taken| => taken[i].alphaDelta)
  }

  function BetaDeltas(taken: seq<Contribution>): seq<real> {
    seq(|taken|, i requires 0 <= i < |taken| => taken[i].betaDelta)
  }

  function PriorMass(priors: set<Prior>, c: Id): real {
    if c in PriorConcepts(priors) then 1.0 else 0.0
  }

  /** The weights of s above the prior are what the self-report and the contributions have left. */
  ghost predicate Accounted(f: Retention, events: set<Event>, priors: set<Prior>, c: Id,
                            items: seq<Evidence>, taken: seq<Contribution>, s: State, at: Time) {
    && |taken| == |items|
    && s.alpha - 1.0 == MassLeft(f, events, items, c, PriorMass(priors, c), AlphaDeltas(taken), at)
    && s.beta - 1.0 == MassLeft(f, events, items, c, 0.0, BetaDeltas(taken), at)
  }

  /** Decay keeps the books. With no item yet, any time will do. */
  lemma AccountedFades(f: Retention, events: set<Event>, priors: set<Prior>, c: Id,
                       items: seq<Evidence>, taken: seq<Contribution>, s: State, last: Time, at: Time)
    requires Lawful(f) && Accounted(f, events, priors, c, items, taken, s, last)
    requires s.lastAt == LastTime(items) && s.reviewSuccesses == Successes(events, items, c)
    requires items != [] ==> last == items[|items| - 1].occurredAt <= at
    ensures Accounted(f, events, priors, c, items, taken, Decayed(f, s, at), at)
  {
    if items != [] {
      DecayScales(f, s, at);
      NothingLostAtOnce(f, events, items, c);
      assert Factor(f, s, at) == f(HalfLifeAfter(events, items, c), at - last);
      MassFades(f, events, items, c, PriorMass(priors, c), AlphaDeltas(taken), last, at);
      MassFades(f, events, items, c, 0.0, BetaDeltas(taken), last, at);
    }
  }

  lemma AccountedGrows(f: Retention, events: set<Event>, priors: set<Prior>, c: Id,
                       items: seq<Evidence>, taken: seq<Contribution>, s: State, e: Evidence, k: Contribution, s': State)
    requires Lawful(f) && Accounted(f, events, priors, c, items, taken, s, e.occurredAt)
    requires s'.alpha == s.alpha + k.alphaDelta && s'.beta == s.beta + k.betaDelta
    ensures Accounted(f, events, priors, c, items + [e], taken + [k], s', e.occurredAt)
  {
    MassGrows(f, events, items, c, PriorMass(priors, c), AlphaDeltas(taken), e, k.alphaDelta);
    MassGrows(f, events, items, c, 0.0, BetaDeltas(taken), e, k.betaDelta);
    assert AlphaDeltas(taken + [k]) == AlphaDeltas(taken) + [k.alphaDelta];
    assert BetaDeltas(taken + [k]) == BetaDeltas(taken) + [k.betaDelta];
  }

  lemma AccountedStep(f: Retention, events: set<Event>, priors: set<Prior>, c: Id, items: seq<Evidence>, taken: seq<Contribution>,
                      states: States, e: Evidence, tag: Tag, last: Time)
    requires Lawful(f) && ValidEvidence(e) && !AuditOnly(e) && tag.concept == c
    requires Accounted(f, events, priors, c, items, taken, StateOf(states, c), last)
    requires Shape(StateOf(states, c), c in states, items, events, priors, c)
    requires items != [] ==> last == items[|items| - 1].occurredAt <= e.occurredAt
    ensures Accounted(f, events, priors, c, items + [e], taken + [TagContribution(f, states, e, tag)],
                      TagState(f, states, e, ContextOf(events, e), tag), e.occurredAt)
  {
    AccountedFades(f, events, priors, c, items, taken, StateOf(states, c), last, e.occurredAt);
    AccountedGrows(f, events, priors, c, items, taken, DecayedOf(f, states, c, e.occurredAt), e,
                   TagContribution(f, states, e, tag), TagState(f, states, e, ContextOf(events, e), tag));
  }

  ghost function LastTimeOr(items: seq<Evidence>, otherwise: Time): Time {
    if items == [] then otherwise else items[|items| - 1].occurredAt
  }

  /** One item keeps the books of every concept, tagged or not. */
  lemma BooksKept(f: Retention, events: set<Event>, priors: set<Prior>, c: Id, items: seq<Evidence>, earlier: seq<Contribution>,
                  states: States, e: Evidence, t: Time)
    requires Lawful(f) && ValidEvidence(e)
    requires Accounted(f, events, priors, c, items, Taken(earlier, c), StateOf(states, c), LastTimeOr(items, t))
    requires Shape(StateOf(states, c), c in states, items, events, priors, c)
    requires items != [] ==> items[|items| - 1].occurredAt <= e.occurredAt
    ensures var now := items + (if Touches(e, c) then [e] else []);
            Accounted(f, events, priors, c, now, Taken(earlier + Contributions(f, states, e), c),
                      StateOf(Applied(f, states, e, ContextOf(events, e)), c), LastTimeOr(now, t))
  {
    TakenConcat(earlier, Contributions(f, states, e), c);
    if Touches(e, c) {
      var tag := AppliedStateOf(f, states, e, ContextOf(events, e), c);
      TakenOfItem(f, states, e, c, tag);
      AccountedStep(f, events, priors, c, items, Taken(earlier, c), states, e, tag, LastTimeOr(items, t));
    } else {
      TakenOfItem(f, states, e, c, Tag(c, Primary));
      UntouchedStateOf(f, states, e, ContextOf(events, e), c);
      assert items + [] == items && Taken(earlier, c) + [] == Taken(earlier, c);
    }
  }

  /** The state after the whole history is accounted for at the time it was last touched. */
  lemma {:induction false} StateIsAudited(f: Retention, evidence: set<Evidence>, events: set<Event>, priors: set<Prior>, c: Id, t: Time)
    requires Lawful(f) && AllValidEvidence(evidence)
    ensures Accounted(f, events, priors, c, Touching(evidence, c), Taken(Recorded(f, evidence, events, priors), c),
                      StateOf(StatesAfter(f, evidence, events, priors), c), LastTimeOr(Touching(evidence, c), t))
    decreases |evidence|
  {
    if evidence != {} {
      var e := LastOf(evidence);
      var rest := evidence - {e};
      StateShape(f, rest, events, priors, c);
      TouchingAreEvidence(rest, c);
      StateIsAudited(f, rest, events, priors, c, t);
      BooksKept(f, events, priors, c, Touching(rest, c), Recorded(f, rest, events, priors), StatesAfter(f, rest, events, priors), e, t);
    }
  }

  /** The projection at any time is fully audited: alpha - 1 and beta - 1 are the decay-weighted sums
      of the self-report and of the contributions recorded for the concept. */
  lemma ProjectionIsAudited(f: Retention, evidence: set<Evidence>, events: set<Event>, priors: set<Prior>, c: Id, at: Time)
    requires Lawful(f) && AllValidEvidence(evidence)
    requires DecayDefined(StateOf(StatesAfter(f, evidence, events, priors), c), at)
    ensures Accounted(f, events, priors, c, Touching(evidence, c), Taken(Recorded(f, evidence, events, priors), c),
                      Decayed(f, StateOf(StatesAfter(f, evidence, events, priors), c), at), at)
  {
    var items := Touching(evidence, c);
    StateShape(f, evidence, events, priors, c);
    StateIsAudited(f, evidence, events, priors, c, at);
    AccountedFades(f, events, priors, c, items, Taken(Recorded(f, evidence, events, priors), c),
                   StateOf(StatesAfter(f, evidence, events, priors), c), LastTimeOr(items, at), at);
  }
}
