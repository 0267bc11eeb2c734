/** Applying one piece of evidence to all concepts it is tagged with, splitting the blame for a wrong
    answer (packages/mastery/engine.py:116-264). */
module MasteryEngine {
  import opened Support
  import opened MasteryModel

  type States = map<Id, State>

  datatype Contribution = Contribution(evidence: Id, concept: Id, alphaDelta: real, betaDelta: real, applied: bool)

  /** What the events say about one item: for each concept the time of the latest earlier learning
      event, and the event recorded for the item itself. */
  datatype Context = Context(previous: map<Id, Time>, event: Option<Id>)

  const REVIEW_DELAY: Time := 1.0

  function RoleWeight(role: Role): real {
    match role
    case Primary => 1.0
    case Prerequisite => 0.5
  }

  function StateOf(states: States, c: Id): State {
    if c in states then states[c] else Initial
  }

  function DecayedOf(f: Retention, states: States, c: Id, at: Time): State {
    Decayed(f, StateOf(states, c), at)
  }

  /** Inferred evidence counts only when it is fully correct; otherwise it is kept for audit. */
  predicate AuditOnly(e: Evidence) {
    e.kind == Inferred && e.correct < 1.0
  }

  function PositiveMass(e: Evidence): real
    requires e.questionType.Mcq? ==> e.questionType.options >= 2
  {
    if e.kind == Inferred then 0.3 * CorrectWeight(e) else e.correct * CorrectWeight(e)
  }

  function NegativeMass(e: Evidence): real
    requires e.questionType.Mcq? ==> e.questionType.options >= 2
  {
    if e.kind == Inferred then 0.0 else (1.0 - e.correct) * IncorrectWeight(e)
  }

  /** How plausible it is that this concept caused a wrong answer. */
  function Suspicion(f: Retention, states: States, at: Time, tag: Tag): real {
    var s := DecayedOf(f, states, tag.concept, at);
    RoleWeight(tag.role) * (1.0 - (if s.alpha + s.beta > 0.0 then MasteryValue(s) else 0.0))
  }

  function Sum(xs: seq<real>): real {
    if xs == [] then 0.0 else Sum(xs[..|xs| - 1]) + xs[|xs| - 1]
  }

  function Suspicions(f: Retention, states: States, at: Time, tags: seq<Tag>): seq<real> {
    seq(|tags|, i requires 0 <= i < |tags| => Suspicion(f, states, at, tags[i]))
  }

  function Roles(tags: seq<Tag>): seq<real> {
    seq(|tags|, i requires 0 <= i < |tags| => RoleWeight(tags[i].role))
  }

  function Portion(n: real, part: real, whole: real): real
    requires whole > 0.0
  {
    n * part / whole
  }

  /** The blame one concept takes out of n. The first branch is the fallback for a zero denominator. */
  function ShareOf(n: real, suspicion: real, total: real, role: real, roles: real): real {
    if n > 0.0 && total <= 0.0 then (if roles > 0.0 then Portion(n, role, roles) else 0.0)
    else if n > 0.0 then Portion(n, suspicion, total)
    else 0.0
  }

  function Share(f: Retention, states: States, e: Evidence, tag: Tag): real
    requires ValidEvidence(e)
  {
    ShareOf(NegativeMass(e), Suspicion(f, states, e.occurredAt, tag), Sum(Suspicions(f, states, e.occurredAt, e.tags)),
            RoleWeight(tag.role), Sum(Roles(e.tags)))
  }

  function Shares(f: Retention, states: States, e: Evidence): seq<real>
    requires ValidEvidence(e)
  {
    seq(|e.tags|, i requires 0 <= i < |e.tags| => Share(f, states, e, e.tags[i]))
  }

  predicate ReviewSucceeds(e: Evidence, previous: map<Id, Time>, c: Id) {
    e.kind == Direct && e.isReview && e.correct == 1.0 && c in previous && e.occurredAt - previous[c] >= REVIEW_DELAY
  }

  predicate ReviewFails(e: Evidence) {
    e.kind == Direct && e.isReview && e.correct < 1.0
  }

  /** The state of one tagged concept after the evidence. */
  function NewState(s: State, e: Evidence, ctx: Context, c: Id, alphaDelta: real, betaDelta: real): State {
    var success := ReviewSucceeds(e, ctx.previous, c);
    State(
      s.alpha + alphaDelta, s.beta + betaDelta,
      s.nDirect + (if e.kind == Direct then 1 else 0),
      if e.kind == Direct then s.questions + {e.questionId} else s.questions,
      s.reviewSuccesses + (if success then 1 else 0),
      if success then (if s.reviewRung + 1 <= 5 then s.reviewRung + 1 else 5) else if ReviewFails(e) then 0 else s.reviewRung,
      s.hasQualifyingReview || success,
      s.selfReportApplied,
      Some(e.occurredAt),
      if success then Some(e.occurredAt) else s.lastReviewAt,
      if success then Some(e.id) else s.lastReviewEvidence,
      if success then ctx.event else s.lastReviewEvent)
  }

  function Gain(e: Evidence, tag: Tag): real
    requires e.questionType.Mcq? ==> e.questionType.options >= 2
  {
    PositiveMass(e) * RoleWeight(tag.role)
  }

  function TagState(f: Retention, states: States, e: Evidence, ctx: Context, tag: Tag): State
    requires ValidEvidence(e)
  {
    NewState(DecayedOf(f, states, tag.concept, e.occurredAt), e, ctx, tag.concept, Gain(e, tag), Share(f, states, e, tag))
  }

  function TagContribution(f: Retention, states: States, e: Evidence, tag: Tag): Contribution
    requires ValidEvidence(e)
  {
    if AuditOnly(e) then Contribution(e.id, tag.concept, 0.0, 0.0, false)
    else Contribution(e.id, tag.concept, Gain(e, tag), Share(f, states, e, tag), true)
  }

  // ---------------------------------------------------------------- the whole application

  function Concepts(tags: seq<Tag>): seq<Id> {
    seq(|tags|, i requires 0 <= i < |tags| => tags[i].concept)
  }

  function TagStates(f: Retention, states: States, e: Evidence, ctx: Context): seq<State>
    requires ValidEvidence(e)
  {
    seq(|e.tags|, i requires 0 <= i < |e.tags| => TagState(f, states, e, ctx, e.tags[i]))
  }

  function Contributions(f: Retention, states: States, e: Evidence): seq<Contribution>
    requires ValidEvidence(e)
  {
    seq(|e.tags|, i requires 0 <= i < |e.tags| => TagContribution(f, states, e, e.tags[i]))
  }

  function Applied(f: Retention, states: States, e: Evidence, ctx: Context): States
    requires ValidEvidence(e)
  {
    if AuditOnly(e) then states else Overlay(states, Concepts(e.tags), TagStates(f, states, e, ctx))
  }

  /** No tagged concept was last touched after the evidence occurred. */
  predicate Timely(states: States, e: Evidence) {
    forall i :: 0 <= i < |e.tags| ==> DecayDefined(StateOf(states, e.tags[i].concept), e.occurredAt)
  }

  datatype Application = Application(states: States, contributions: seq<Contribution>)

  /** Each tagged concept gets exactly its own new state; every other concept keeps its state. */
  lemma AppliedAt(f: Retention, states: States, e: Evidence, ctx: Context, c: Id)
    requires ValidEvidence(e) && !AuditOnly(e)
    ensures forall i :: 0 <= i < |e.tags| && e.tags[i].concept == c ==>
              c in Applied(f, states, e, ctx)
              && Applied(f, states, e, ctx)[c] == TagState(f, states, e, ctx, e.tags[i])
    ensures c !in Concepts(e.tags) ==>
              (c in Applied(f, states, e, ctx) <==> c in states)
              && (c in states ==> Applied(f, states, e, ctx)[c] == states[c])
  {
    var concepts, values := Concepts(e.tags), TagStates(f, states, e, ctx);
    OverlayAt(states, concepts, values, c);
    forall i | 0 <= i < |e.tags| && e.tags[i].concept == c
      ensures c in Applied(f, states, e, ctx) && Applied(f, states, e, ctx)[c] == TagState(f, states, e, ctx, e.tags[i])
    {
      assert concepts[i] == c && values[i] == TagState(f, states, e, ctx, e.tags[i]);
    }
  }

  // ---------------------------------------------------------------- conservation

  ghost predicate AllAtLeastPrior(states: States) {
    forall c :: c in states ==> AtLeastPrior(states[c])
  }

  /** What every MasteryState satisfies, reachable from the prior or not. */
  ghost predicate ValidState(s: State) {
    s.alpha >= 0.0 && s.beta >= 0.0 && s.alpha + s.beta > 0.0
  }

  ghost predicate AllValid(states: States) {
    forall c :: c in states ==> ValidState(states[c])
  }

  lemma DecayedValid(f: Retention, s: State, at: Time)
    requires Lawful(f) && ValidState(s)
    ensures ValidState(Decayed(f, s, at))
  {
    DecayScales(f, s, at);
    FadedValid(s.alpha, s.beta, Factor(f, s, at));
  }

  lemma FadedValid(a: real, b: real, k: real)
    requires a >= 0.0 && b >= 0.0 && a + b > 0.0 && 0.0 < k <= 1.0
    ensures 1.0 + (a - 1.0) * k >= 0.0 && 1.0 + (b - 1.0) * k >= 0.0
    ensures 1.0 + (a - 1.0) * k + 1.0 + (b - 1.0) * k > 0.0
  {
    FadedAbove(a, k);
    FadedAbove(b, k);
  }

  /** Fading moves a weight towards one: it stays above zero, strictly unless it was zero. */
  lemma FadedAbove(a: real, k: real)
    requires a >= 0.0 && 0.0 < k <= 1.0
    ensures 1.0 + (a - 1.0) * k >= 0.0
    ensures a > 0.0 ==> 1.0 + (a - 1.0) * k > 0.0
  {
    var x := a * k;
    LessOne(a, k);
    ProductNonNegative(a, k);
    if a > 0.0 {
      ProductPositive(a, k);
    }
  }

  lemma LessOne(a: real, k: real)
    ensures (a - 1.0) * k == a * k - k
  {
  }

  lemma SumTimes(a: real, b: real, k: real)
    ensures (a + b) * k == a * k + b * k
  {
  }

  lemma SuspicionNonNegative(f: Retention, states: States, at: Time, tag: Tag)
    requires Lawful(f) && AllValid(states)
    ensures Suspicion(f, states, at, tag) >= 0.0
  {
    var d := DecayedOf(f, states, tag.concept, at);
    DecayedValid(f, StateOf(states, tag.concept), at);
    DivideCompare(d.alpha, d.alpha + d.beta, 1.0);
    assert MasteryValue(d) <= 1.0;
    ProductNonNegative(RoleWeight(tag.role), 1.0 - MasteryValue(d));
  }

  lemma SuspicionPositive(f: Retention, states: States, at: Time, tag: Tag)
    requires Lawful(f) && AllAtLeastPrior(states)
    ensures Suspicion(f, states, at, tag) > 0.0
  {
    var s := StateOf(states, tag.concept);
    DecayScales(f, s, at);
    MasteryBounds(Decayed(f, s, at));
    ProductPositive(RoleWeight(tag.role), 1.0 - MasteryValue(Decayed(f, s, at)));
  }

  lemma {:induction false} SumPositive(xs: seq<real>)
    requires forall i :: 0 <= i < |xs| ==> xs[i] > 0.0
    ensures Sum(xs) >= 0.0 && (xs != [] ==> Sum(xs) > 0.0)
  {
    if xs != [] {
      SumPositive(xs[..|xs| - 1]);
    }
  }

  lemma MassesNonNegative(e: Evidence)
    requires ValidEvidence(e)
    ensures PositiveMass(e) >= 0.0 && NegativeMass(e) >= 0.0
  {
    WeightsPositive(e);
    ProductNonNegative(e.correct, CorrectWeight(e));
    ProductNonNegative(1.0 - e.correct, IncorrectWeight(e));
  }

  lemma QuotientNonNegative(n: real, x: real, d: real)
    requires d > 0.0 && n >= 0.0 && x >= 0.0
    ensures n * x / d >= 0.0
  {
    ProductNonNegative(n, x);
    DivideCompare(n * x, d, 0.0);
  }

  lemma ShareOfNonNegative(n: real, x: real, total: real, role: real, roles: real)
    requires x >= 0.0 && role >= 0.0
    ensures ShareOf(n, x, total, role, roles) >= 0.0
  {
    if n > 0.0 && total > 0.0 {
      QuotientNonNegative(n, x, total);
    } else if n > 0.0 && roles > 0.0 {
      QuotientNonNegative(n, role, roles);
    }
  }

  /** Adding one more proportional part. */
  lemma AddPart(n: real, sum: real, x: real, whole: real, d: real)
    requires d > 0.0 && whole == sum + x
    ensures n * sum / d + n * x / d == n * whole / d
  {
    assert n * whole == n * sum + n * x;
    SumOfQuotients(n * sum, n * x, n * whole, d);
  }

  lemma SumOfQuotients(a: real, b: real, c: real, d: real)
    requires d > 0.0 && c == a + b
    ensures a / d + b / d == c / d
  {
  }

  /** A share n * x / d is x times a fixed rate, and the rate times the whole is n. */
  lemma ShareIsRate(n: real, x: real, d: real)
    requires d > 0.0
    ensures Portion(n, x, d) == x * (n / d)
  {
    var r := n / d;
    assert n == r * d;
    assert n * x == (x * r) * d by {
      assert (r * d) * x == (x * r) * d;
    }
  }

  lemma RateOfWhole(n: real, d: real)
    requires d > 0.0
    ensures d * (n / d) == n
  {
  }

  lemma {:induction false} RatedSum(xs: seq<real>, parts: seq<real>, rate: real)
    requires |parts| == |xs| && forall i :: 0 <= i < |xs| ==> parts[i] == xs[i] * rate
    ensures Sum(parts) == Sum(xs) * rate
  {
    if xs != [] {
      var k := |xs| - 1;
      RatedSum(xs[..k], parts[..k], rate);
      SumTimes(Sum(xs[..k]), xs[k], rate);
    }
  }

  /** Parts in proportion to xs add up to n. */
  lemma ProportionalSum(n: real, xs: seq<real>, parts: seq<real>, total: real)
    requires |parts| == |xs| && total > 0.0 && total == Sum(xs)
    requires forall i :: 0 <= i < |xs| ==> parts[i] == Portion(n, xs[i], total)
    ensures Sum(parts) == n
  {
    var rate := n / total;
    forall i | 0 <= i < |xs| ensures parts[i] == xs[i] * rate {
      ShareIsRate(n, xs[i], total);
    }
    RatedSum(xs, parts, rate);
    RateOfWhole(n, total);
  }

  lemma {:induction false} SumOfZeros(xs: seq<real>)
    requires forall i :: 0 <= i < |xs| ==> xs[i] == 0.0
    ensures Sum(xs) == 0.0
  {
    if xs != [] {
      SumOfZeros(xs[..|xs| - 1]);
    }
  }

  /** Whichever branch splits n, the shares add up to n. */
  lemma SharesSumToWhole(n: real, xs: seq<real>, roles: seq<real>, parts: seq<real>, total: real, roleTotal: real)
    requires n >= 0.0 && |parts| == |xs| == |roles|
    requires total == Sum(xs) && roleTotal == Sum(roles) && roleTotal > 0.0
    requires forall i :: 0 <= i < |xs| ==> parts[i] == ShareOf(n, xs[i], total, roles[i], roleTotal)
    ensures Sum(parts) == n
  {
    if n == 0.0 {
      SumOfZeros(parts);
    } else if total > 0.0 {
      ProportionalSum(n, xs, parts, total);
    } else {
      ProportionalSum(n, roles, parts, roleTotal);
    }
  }

  /** Blame is conserved whichever branch splits it: the shares of one item add up to exactly its
      negative mass. */
  lemma BlameIsConserved(f: Retention, states: States, e: Evidence)
    requires ValidEvidence(e)
    ensures Sum(Shares(f, states, e)) == NegativeMass(e)
  {
    MassesNonNegative(e);
    SumPositive(Roles(e.tags));
    var xs, roles := Suspicions(f, states, e.occurredAt, e.tags), Roles(e.tags);
    SharesSumToWhole(NegativeMass(e), xs, roles, Shares(f, states, e), Sum(xs), Sum(roles));
  }

  lemma ShareNonNegative(f: Retention, states: States, e: Evidence, tag: Tag)
    requires Lawful(f) && AllValid(states) && ValidEvidence(e)
    ensures Share(f, states, e, tag) >= 0.0
  {
    SuspicionNonNegative(f, states, e.occurredAt, tag);
    ShareOfNonNegative(NegativeMass(e), Suspicion(f, states, e.occurredAt, tag), Sum(Suspicions(f, states, e.occurredAt, e.tags)),
                       RoleWeight(tag.role), Sum(Roles(e.tags)));
  }

  /** From the prior upwards the zero-denominator fallback is never taken. */
  lemma FallbackNeverTaken(f: Retention, states: States, e: Evidence)
    requires Lawful(f) && AllAtLeastPrior(states) && ValidEvidence(e)
    ensures Sum(Suspicions(f, states, e.occurredAt, e.tags)) > 0.0
  {
    forall i | 0 <= i < |e.tags| ensures Suspicions(f, states, e.occurredAt, e.tags)[i] > 0.0 {
      SuspicionPositive(f, states, e.occurredAt, e.tags[i]);
    }
    SumPositive(Suspicions(f, states, e.occurredAt, e.tags));
  }

  lemma ShareOfMonotone(n: real, x: real, y: real, total: real, role: real, roles: real)
    requires x >= y && total > 0.0
    ensures ShareOf(n, x, total, role, roles) >= ShareOf(n, y, total, role, roles)
  {
    if n > 0.0 {
      QuotientNonNegative(n, x - y, total);
      AddPart(n, y, x - y, x, total);
    }
  }

  /** A concept that is more suspect takes at least as much blame: among concepts tagged in the same
      role, the less mastered one. */
  lemma WeakerTakesMoreBlame(f: Retention, states: States, e: Evidence, a: Tag, b: Tag)
    requires Lawful(f) && AllAtLeastPrior(states) && ValidEvidence(e) && a.role == b.role
    requires Suspicion(f, states, e.occurredAt, a) >= Suspicion(f, states, e.occurredAt, b)
    ensures Share(f, states, e, a) >= Share(f, states, e, b)
  {
    FallbackNeverTaken(f, states, e);
    ShareOfMonotone(NegativeMass(e), Suspicion(f, states, e.occurredAt, a), Suspicion(f, states, e.occurredAt, b),
                    Sum(Suspicions(f, states, e.occurredAt, e.tags)), RoleWeight(a.role), Sum(Roles(e.tags)));
  }

  lemma TagStateAtLeastPrior(f: Retention, states: States, e: Evidence, ctx: Context, tag: Tag)
    requires Lawful(f) && AllAtLeastPrior(states) && ValidEvidence(e)
    ensures AtLeastPrior(TagState(f, states, e, ctx, tag)) && Gain(e, tag) >= 0.0
  {
    DecayScales(f, StateOf(states, tag.concept), e.occurredAt);
    ShareNonNegative(f, states, e, tag);
    MassesNonNegative(e);
    ProductNonNegative(PositiveMass(e), RoleWeight(tag.role));
  }

  lemma AppliedAtLeastPrior(f: Retention, states: States, e: Evidence, ctx: Context)
    requires Lawful(f) && AllAtLeastPrior(states) && ValidEvidence(e)
    ensures AllAtLeastPrior(Applied(f, states, e, ctx))
  {
    forall c | c in Applied(f, states, e, ctx) ensures AtLeastPrior(Applied(f, states, e, ctx)[c]) {
      if !AuditOnly(e) {
        AppliedAt(f, states, e, ctx, c);
        if c in Concepts(e.tags) {
          var i :| 0 <= i < |e.tags| && e.tags[i].concept == c;
          TagStateAtLeastPrior(f, states, e, ctx, e.tags[i]);
        }
      }
    }
  }

  // ---------------------------------------------------------------- the program

  /** apply_evidence: decays every tagged concept, then adds its share of credit and blame. */
  method ApplyEvidence(f: Retention, states: States, e: Evidence, ctx: Context) returns (r: Result<Application, ()>)
    requires Lawful(f) && AllValid(states) && ValidEvidence(e)
    ensures r.Ok? <==> Timely(states, e)
    ensures r.Ok? ==> r.value.states == Applied(f, states, e, ctx)
    ensures r.Ok? ==> r.value.contributions == Contributions(f, states, e)
  {
    var d := DecayTagged(f, states, e);
    if d.Err? {
      return Err(());
    }
    if AuditOnly(e) {
      var audit := AuditContributions(f, states, e);
      return Ok(Application(states, audit));
    }
    var denominator := SumSuspicion(f, states, e, d.value);
    var roles := SumRoles(e.tags);
    var application := UpdateAll(f, states, e, ctx, d.value, denominator, roles);
    r := Ok(application);
  }

  /** The first i tagged concepts have been updated. */
  ghost predicate Updated(f: Retention, states: States, e: Evidence, ctx: Context, i: nat, a: Application)
    requires ValidEvidence(e) && i <= |e.tags|
  {
    && a.states == Overlay(states, Concepts(e.tags)[..i], TagStates(f, states, e, ctx)[..i])
    && a.contributions == Contributions(f, states, e)[..i]
  }

  lemma UpdatedNext(f: Retention, states: States, e: Evidence, ctx: Context, i: nat, a: Application)
    requires ValidEvidence(e) && i < |e.tags| && Updated(f, states, e, ctx, i, a)
    ensures Updated(f, states, e, ctx, i + 1,
                    Application(a.states[e.tags[i].concept := TagState(f, states, e, ctx, e.tags[i])],
                                a.contributions + [TagContribution(f, states, e, e.tags[i])]))
  {
    OverlayNext(states, Concepts(e.tags), TagStates(f, states, e, ctx), i);
  }

  lemma UpdatedWhole(f: Retention, states: States, e: Evidence, ctx: Context, a: Application)
    requires ValidEvidence(e) && !AuditOnly(e) && Updated(f, states, e, ctx, |e.tags|, a)
    ensures a.states == Applied(f, states, e, ctx) && a.contributions == Contributions(f, states, e)
  {
    var n := |e.tags|;
    assert Concepts(e.tags)[..n] == Concepts(e.tags) && TagStates(f, states, e, ctx)[..n] == TagStates(f, states, e, ctx);
    assert Contributions(f, states, e)[..n] == Contributions(f, states, e);
  }

  /** The loop over the tagged concepts. */
  method UpdateAll(f: Retention, states: States, e: Evidence, ctx: Context, decayed: map<Id, State>, denominator: real, roles: real)
    returns (a: Application)
    requires ValidEvidence(e) && !AuditOnly(e) && DecayedTags(f, states, e, e.tags, decayed)
    requires denominator == Sum(Suspicions(f, states, e.occurredAt, e.tags)) && roles == Sum(Roles(e.tags))
    ensures a.states == Applied(f, states, e, ctx)
    ensures a.contributions == Contributions(f, states, e)
  {
    a := Application(states, []);
    for i := 0 to |e.tags|
      invariant Updated(f, states, e, ctx, i, a)
    {
      var state, contribution := UpdateTag(f, states, e, ctx, e.tags[i], decayed, denominator, roles);
      UpdatedNext(f, states, e, ctx, i, a);
      a := Application(a.states[e.tags[i].concept := state], a.contributions + [contribution]);
    }
    UpdatedWhole(f, states, e, ctx, a);
  }

  method UpdateTag(f: Retention, states: States, e: Evidence, ctx: Context, tag: Tag, decayed: map<Id, State>,
                   denominator: real, roles: real)
    returns (state: State, contribution: Contribution)
    requires ValidEvidence(e) && !AuditOnly(e)
    requires tag in e.tags && DecayedTags(f, states, e, e.tags, decayed)
    requires denominator == Sum(Suspicions(f, states, e.occurredAt, e.tags)) && roles == Sum(Roles(e.tags))
    ensures state == TagState(f, states, e, ctx, tag)
    ensures contribution == TagContribution(f, states, e, tag)
  {
    var s, role := decayed[tag.concept], RoleWeight(tag.role);
    var suspicion := SuspicionOf(f, states, e.occurredAt, tag, s);
    var share := ShareOf(NegativeMass(e), suspicion, denominator, role, roles);
    var gain := PositiveMass(e) * role;
    state := NewState(s, e, ctx, tag.concept, gain, share);
    contribution := Contribution(e.id, tag.concept, gain, share, true);
  }

  /** The tagged concepts, decayed to the time of the evidence. */
  ghost predicate DecayedTags(f: Retention, states: States, e: Evidence, tags: seq<Tag>, decayed: map<Id, State>) {
    && (forall j :: 0 <= j < |tags| ==> tags[j].concept in decayed)
    && (forall c :: c in decayed ==> decayed[c] == DecayedOf(f, states, c, e.occurredAt) && ValidState(decayed[c]))
  }

  method DecayTagged(f: Retention, states: States, e: Evidence) returns (r: Result<map<Id, State>, ()>)
    requires Lawful(f) && AllValid(states)
    ensures r.Ok? <==> Timely(states, e)
    ensures r.Ok? ==> DecayedTags(f, states, e, e.tags, r.value)
  {
    var decayed: map<Id, State> := map[];
    for i := 0 to |e.tags|
      invariant forall j :: 0 <= j < i ==> DecayDefined(StateOf(states, e.tags[j].concept), e.occurredAt)
      invariant DecayedTags(f, states, e, e.tags[..i], decayed)
    {
      var c := e.tags[i].concept;
      var d := DecayState(f, StateOf(states, c), e.occurredAt);
      if d.Err? {
        return Err(());
      }
      DecayedValid(f, StateOf(states, c), e.occurredAt);
      decayed := decayed[c := d.value];
    }
    assert e.tags[..|e.tags|] == e.tags;
    r := Ok(decayed);
  }

  method AuditContributions(f: Retention, states: States, e: Evidence) returns (contributions: seq<Contribution>)
    requires ValidEvidence(e) && AuditOnly(e)
    ensures contributions == Contributions(f, states, e)
  {
    contributions := [];
    for i := 0 to |e.tags|
      invariant contributions == Contributions(f, states, e)[..i]
    {
      contributions := contributions + [Contribution(e.id, e.tags[i].concept, 0.0, 0.0, false)];
    }
  }

  method SuspicionOf(f: Retention, states: States, at: Time, tag: Tag, s: State) returns (x: real)
    requires ValidState(s) && s == DecayedOf(f, states, tag.concept, at)
    ensures x == Suspicion(f, states, at, tag)
  {
    x := RoleWeight(tag.role) * (1.0 - MasteryValue(s));
  }

  method SumSuspicion(f: Retention, states: States, e: Evidence, decayed: map<Id, State>) returns (total: real)
    requires DecayedTags(f, states, e, e.tags, decayed)
    ensures total == Sum(Suspicions(f, states, e.occurredAt, e.tags))
  {
    total := 0.0;
    ghost var all := Suspicions(f, states, e.occurredAt, e.tags);
    for i := 0 to |e.tags|
      invariant total == Sum(all[..i])
    {
      var tag := e.tags[i];
      assert all[..i + 1][..i] == all[..i];
      var part := SuspicionOf(f, states, e.occurredAt, tag, decayed[tag.concept]);
      total := total + part;
    }
    assert all[..|e.tags|] == all;
  }

  method SumRoles(tags: seq<Tag>) returns (total: real)
    ensures total == Sum(Roles(tags))
  {
    total := 0.0;
    ghost var all := Roles(tags);
    for i := 0 to |tags|
      invariant total == Sum(all[..i])
    {
      assert all[..i + 1][..i] == all[..i];
      total := total + RoleWeight(tags[i].role);
    }
    assert all[..|tags|] == all;
  }
}
