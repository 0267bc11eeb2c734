/** What one answer does to the concepts it is tagged with: credit for what is right, blame for what is
    wrong, told from the states before and after (packages/mastery/engine.py:116-264, weights.py). */
module MasteryCredit {
  import opened Support
  import opened MasteryModel
  import opened MasteryEngine

  /** What the evidence adds to alpha and beta of a concept, over what it would have decayed to anyway. */
  function AlphaRise(f: Retention, states: States, e: Evidence, ctx: Context, c: Id): real
    requires ValidEvidence(e)
  {
    StateOf(Applied(f, states, e, ctx), c).alpha - DecayedOf(f, states, c, e.occurredAt).alpha
  }

  function BetaRise(f: Retention, states: States, e: Evidence, ctx: Context, c: Id): real
    requires ValidEvidence(e)
  {
    StateOf(Applied(f, states, e, ctx), c).beta - DecayedOf(f, states, c, e.occurredAt).beta
  }

  function BetaRises(f: Retention, states: States, e: Evidence, ctx: Context): seq<real>
    requires ValidEvidence(e)
  {
    seq(|e.tags|, i requires 0 <= i < |e.tags| => BetaRise(f, states, e, ctx, e.tags[i].concept))
  }

  /** The mastery of a concept as it stands when the evidence arrives. */
  function MasteryBefore(f: Retention, states: States, e: Evidence, c: Id): real {
    var d := DecayedOf(f, states, c, e.occurredAt);
    if d.alpha + d.beta > 0.0 then MasteryValue(d) else 0.0
  }

  lemma DecayedOfAtLeastPrior(f: Retention, states: States, c: Id, at: Time)
    requires Lawful(f) && AllAtLeastPrior(states)
    ensures AtLeastPrior(DecayedOf(f, states, c, at))
    ensures 0.0 < MasteryValue(DecayedOf(f, states, c, at)) < 1.0
  {
    DecayScales(f, StateOf(states, c), at);
    MasteryBounds(DecayedOf(f, states, c, at));
  }

  lemma RisesAre(f: Retention, states: States, e: Evidence, ctx: Context, i: nat)
    requires ValidEvidence(e) && !AuditOnly(e) && i < |e.tags|
    ensures e.tags[i].concept in Applied(f, states, e, ctx)
    ensures AlphaRise(f, states, e, ctx, e.tags[i].concept) == Gain(e, e.tags[i])
    ensures BetaRise(f, states, e, ctx, e.tags[i].concept) == Share(f, states, e, e.tags[i])
  {
    AppliedAt(f, states, e, ctx, e.tags[i].concept);
  }

  lemma SharePositive(f: Retention, states: States, e: Evidence, tag: Tag)
    requires Lawful(f) && AllAtLeastPrior(states) && ValidEvidence(e) && NegativeMass(e) > 0.0
    ensures Share(f, states, e, tag) > 0.0
  {
    var n, x, total := NegativeMass(e), Suspicion(f, states, e.occurredAt, tag), Sum(Suspicions(f, states, e.occurredAt, e.tags));
    FallbackNeverTaken(f, states, e);
    SuspicionPositive(f, states, e.occurredAt, tag);
    ProductPositive(n, x);
    DivideCompare(n * x, total, 0.0);
  }

  /** More alpha raises mastery, more beta lowers it. */
  lemma MasteryMoves(a: real, b: real, x: real, y: real)
    requires a > 0.0 && b > 0.0 && x >= 0.0 && y >= 0.0
    ensures x > 0.0 && y == 0.0 ==> (a + x) / (a + x + b + y) > a / (a + b)
    ensures x == 0.0 && y > 0.0 ==> (a + x) / (a + x + b + y) < a / (a + b)
  {
    var m := a / (a + b);
    assert m * (a + b) == a;
    DivideCompare(a, a + b, 1.0);
    DivideCompare(a, a + b, 0.0);
    DivideCompare(a + x, a + x + b + y, m);
    if x > 0.0 && y == 0.0 {
      assert m * (a + x + b) == a + m * x;
      BelowWhole(m, x);
    }
    if x == 0.0 && y > 0.0 {
      assert m * (a + b + y) == a + m * y;
      ProductPositive(m, y);
    }
  }

  lemma BelowWhole(m: real, x: real)
    requires m < 1.0 && x > 0.0
    ensures m * x < x
  {
    SignOfProduct(x, 1.0 - m);
    assert (1.0 - m) * x == x - m * x;
  }

  lemma MasteryFollows(f: Retention, states: States, e: Evidence, ctx: Context, i: nat)
    requires Lawful(f) && AllAtLeastPrior(states) && ValidEvidence(e) && !AuditOnly(e) && i < |e.tags|
    ensures var c := e.tags[i].concept;
            var x, y := AlphaRise(f, states, e, ctx, c), BetaRise(f, states, e, ctx, c);
            && c in Applied(f, states, e, ctx) && AtLeastPrior(Applied(f, states, e, ctx)[c]) && AtLeastPrior(DecayedOf(f, states, c, e.occurredAt))
            && x >= 0.0 && y >= 0.0
            && (x > 0.0 && y == 0.0 ==> MasteryValue(Applied(f, states, e, ctx)[c]) > MasteryBefore(f, states, e, c))
            && (x == 0.0 && y > 0.0 ==> MasteryValue(Applied(f, states, e, ctx)[c]) < MasteryBefore(f, states, e, c))
  {
    var c := e.tags[i].concept;
    RisesAre(f, states, e, ctx, i);
    AppliedAtLeastPrior(f, states, e, ctx);
    DecayedOfAtLeastPrior(f, states, c, e.occurredAt);
    TagStateAtLeastPrior(f, states, e, ctx, e.tags[i]);
    ShareNonNegative(f, states, e, e.tags[i]);
    var d := DecayedOf(f, states, c, e.occurredAt);
    MasteryMoves(d.alpha, d.beta, AlphaRise(f, states, e, ctx, c), BetaRise(f, states, e, ctx, c));
  }

  // ---------------------------------------------------------------- right and wrong answers

  /** A fully correct answer raises alpha and mastery of every tagged concept and leaves beta as it had
      decayed. */
  lemma RightAnswerCredits(f: Retention, states: States, e: Evidence, ctx: Context, i: nat)
    requires Lawful(f) && AllAtLeastPrior(states) && ValidEvidence(e) && e.correct == 1.0 && i < |e.tags|
    ensures var c := e.tags[i].concept;
            && c in Applied(f, states, e, ctx) && AtLeastPrior(Applied(f, states, e, ctx)[c]) && AtLeastPrior(DecayedOf(f, states, c, e.occurredAt))
            && AlphaRise(f, states, e, ctx, c) > 0.0 && BetaRise(f, states, e, ctx, c) == 0.0
            && MasteryValue(Applied(f, states, e, ctx)[c]) > MasteryBefore(f, states, e, c)
  {
    RisesAre(f, states, e, ctx, i);
    WeightsPositive(e);
    ProductPositive(PositiveMass(e), RoleWeight(e.tags[i].role));
    MasteryFollows(f, states, e, ctx, i);
  }

  /** A wrong direct answer leaves alpha as it had decayed, and raises beta and lowers mastery of every
      tagged concept. */
  lemma WrongAnswerBlames(f: Retention, states: States, e: Evidence, ctx: Context, i: nat)
    requires Lawful(f) && AllAtLeastPrior(states) && ValidEvidence(e) && e.kind == Direct && e.correct == 0.0 && i < |e.tags|
    ensures var c := e.tags[i].concept;
            && c in Applied(f, states, e, ctx) && AtLeastPrior(Applied(f, states, e, ctx)[c]) && AtLeastPrior(DecayedOf(f, states, c, e.occurredAt))
            && AlphaRise(f, states, e, ctx, c) == 0.0 && BetaRise(f, states, e, ctx, c) > 0.0
            && MasteryValue(Applied(f, states, e, ctx)[c]) < MasteryBefore(f, states, e, c)
  {
    RisesAre(f, states, e, ctx, i);
    WeightsPositive(e);
    SharePositive(f, states, e, e.tags[i]);
    MasteryFollows(f, states, e, ctx, i);
  }

  /** The same answer graded otherwise. */
  function Graded(e: Evidence, correct: real): Evidence {
    e.(correct := correct)
  }

  lemma GradedWeights(e: Evidence, correct: real)
    requires ValidEvidence(e) && 0.0 <= correct <= 1.0
    ensures ValidEvidence(Graded(e, correct))
    ensures CorrectWeight(Graded(e, correct)) == CorrectWeight(e) && IncorrectWeight(Graded(e, correct)) == IncorrectWeight(e)
  {
  }

  lemma PortionScales(k: real, n: real, x: real, d: real)
    requires d > 0.0
    ensures Portion(k * n, x, d) == k * Portion(n, x, d)
  {
    ShareIsRate(n, x, d);
    ShareIsRate(k * n, x, d);
    QuotientScales(k, n, d);
    Regroup(x, k, n / d);
  }

  lemma QuotientScales(k: real, n: real, d: real)
    requires d > 0.0
    ensures k * n / d == k * (n / d)
  {
  }

  lemma Regroup(x: real, k: real, q: real)
    ensures x * (k * q) == k * (x * q)
  {
  }

  lemma GainOf(e: Evidence, tag: Tag)
    requires ValidEvidence(e)
    ensures Gain(e, tag) == (if e.kind == Inferred then 0.3 else e.correct) * (CorrectWeight(e) * RoleWeight(tag.role))
  {
    Regrouped(if e.kind == Inferred then 0.3 else e.correct, CorrectWeight(e), RoleWeight(tag.role));
  }

  lemma Regrouped(a: real, b: real, c: real)
    ensures a * b * c == a * (b * c)
  {
  }

  /** Credit is proportional to how much of the answer is right. */
  lemma PartialCredit(f: Retention, states: States, e: Evidence, ctx: Context, i: nat, correct: real)
    requires ValidEvidence(e) && e.kind == Direct && i < |e.tags| && 0.0 <= correct <= 1.0
    ensures ValidEvidence(Graded(e, correct)) && ValidEvidence(Graded(e, 1.0))
    ensures AlphaRise(f, states, Graded(e, correct), ctx, e.tags[i].concept)
            == correct * AlphaRise(f, states, Graded(e, 1.0), ctx, e.tags[i].concept)
  {
    hide AlphaRise, BetaRise, Gain, Share, Applied, CorrectWeight;
    GradedWeights(e, correct);
    GradedWeights(e, 1.0);
    RisesAre(f, states, Graded(e, correct), ctx, i);
    RisesAre(f, states, Graded(e, 1.0), ctx, i);
    GainOf(Graded(e, correct), e.tags[i]);
    GainOf(Graded(e, 1.0), e.tags[i]);
  }

  /** Blame is proportional to how much of it is wrong. */
  lemma PartialBlame(f: Retention, states: States, e: Evidence, ctx: Context, i: nat, correct: real)
    requires Lawful(f) && AllAtLeastPrior(states)
    requires ValidEvidence(e) && e.kind == Direct && i < |e.tags| && 0.0 <= correct <= 1.0
    ensures ValidEvidence(Graded(e, correct)) && ValidEvidence(Graded(e, 0.0))
    ensures BetaRise(f, states, Graded(e, correct), ctx, e.tags[i].concept)
            == (1.0 - correct) * BetaRise(f, states, Graded(e, 0.0), ctx, e.tags[i].concept)
  {
    hide AlphaRise, BetaRise, Gain, Share, Applied, CorrectWeight, IncorrectWeight, DecayedOf, Suspicion, MasteryBefore;
    GradedWeights(e, correct);
    GradedWeights(e, 0.0);
    RisesAre(f, states, Graded(e, correct), ctx, i);
    RisesAre(f, states, Graded(e, 0.0), ctx, i);
    ScaledShare(f, states, e, e.tags[i], correct);
  }

  lemma ScaledShare(f: Retention, states: States, e: Evidence, tag: Tag, correct: real)
    requires Lawful(f) && AllAtLeastPrior(states) && ValidEvidence(e) && e.kind == Direct && 0.0 <= correct <= 1.0
    requires ValidEvidence(Graded(e, correct)) && ValidEvidence(Graded(e, 0.0))
    ensures Share(f, states, Graded(e, correct), tag) == (1.0 - correct) * Share(f, states, Graded(e, 0.0), tag)
  {
    hide CorrectWeight, IncorrectWeight, Suspicion, ShareOf;
    GradedWeights(e, correct);
    GradedWeights(e, 0.0);
    WeightsPositive(e);
    OneTimes(IncorrectWeight(e));
    FallbackNeverTaken(f, states, Graded(e, 0.0));
    var n, x, total := IncorrectWeight(e), Suspicion(f, states, e.occurredAt, tag), Sum(Suspicions(f, states, e.occurredAt, e.tags));
    assert NegativeMass(Graded(e, correct)) == (1.0 - correct) * n && NegativeMass(Graded(e, 0.0)) == n;
    var k := 1.0 - correct;
    ScaledShareOf(k, n, NegativeMass(Graded(e, correct)), x, total, RoleWeight(tag.role), Sum(Roles(e.tags)));
    assert Share(f, states, Graded(e, 0.0), tag) == ShareOf(n, x, total, RoleWeight(tag.role), Sum(Roles(e.tags)));
  }

  lemma OneTimes(x: real)
    ensures (1.0 - 0.0) * x == x
  {
  }

  lemma ScaledShareOf(k: real, n: real, m: real, x: real, total: real, role: real, roles: real)
    requires 0.0 <= k <= 1.0 && n > 0.0 && m == k * n && total > 0.0
    ensures ShareOf(m, x, total, role, roles) == k * ShareOf(n, x, total, role, roles)
  {
    if k > 0.0 {
      ProductPositive(k, n);
      PortionScales(k, n, x, total);
    }
  }

  /** So the better of two grades credits every tagged concept more and blames it less. */
  lemma BetterGradeIsBetter(f: Retention, states: States, e: Evidence, ctx: Context, i: nat, low: real, high: real)
    requires Lawful(f) && AllAtLeastPrior(states)
    requires ValidEvidence(e) && e.kind == Direct && i < |e.tags| && 0.0 <= low < high <= 1.0
    ensures ValidEvidence(Graded(e, low)) && ValidEvidence(Graded(e, high))
    ensures var c := e.tags[i].concept;
            && AlphaRise(f, states, Graded(e, low), ctx, c) < AlphaRise(f, states, Graded(e, high), ctx, c)
            && BetaRise(f, states, Graded(e, low), ctx, c) > BetaRise(f, states, Graded(e, high), ctx, c)
  {
    hide AlphaRise, BetaRise, Gain, Share, Applied, CorrectWeight, IncorrectWeight, DecayedOf, Suspicion, MasteryBefore;
    GradedWeights(e, 1.0);
    GradedWeights(e, 0.0);
    PartialCredit(f, states, e, ctx, i, low);
    PartialCredit(f, states, e, ctx, i, high);
    PartialBlame(f, states, e, ctx, i, low);
    PartialBlame(f, states, e, ctx, i, high);
    RightAnswerCredits(f, states, Graded(e, 1.0), ctx, i);
    WrongAnswerBlames(f, states, Graded(e, 0.0), ctx, i);
    MoreOf(low, high, AlphaRise(f, states, Graded(e, 1.0), ctx, e.tags[i].concept));
    MoreOf(1.0 - high, 1.0 - low, BetaRise(f, states, Graded(e, 0.0), ctx, e.tags[i].concept));
  }

  lemma MoreOf(x: real, y: real, a: real)
    requires x < y && a > 0.0
    ensures x * a < y * a
  {
    SignOfProduct(a, y - x);
    assert (y - x) * a == y * a - x * a;
  }

  /** A fully right answer credits a primary concept with the frozen weight, a prerequisite with half of
      it; a fully wrong one blames the tagged concepts with the other weight in all. */
  lemma WholeCredit(f: Retention, states: States, e: Evidence, ctx: Context, i: nat)
    requires ValidEvidence(e) && e.kind == Direct && e.correct == 1.0 && i < |e.tags|
    ensures var x := AlphaRise(f, states, e, ctx, e.tags[i].concept);
            if e.tags[i].role == Primary then x == CorrectWeight(e) else x + x == CorrectWeight(e)
  {
    RisesAre(f, states, e, ctx, i);
    GainOf(e, e.tags[i]);
  }

  lemma WholeBlame(f: Retention, states: States, e: Evidence, ctx: Context)
    requires ValidEvidence(e) && e.kind == Direct && e.correct == 0.0
    ensures Sum(BetaRises(f, states, e, ctx)) == IncorrectWeight(e)
  {
    hide AlphaRise, BetaRise, Share, Gain, Applied, IncorrectWeight, CorrectWeight;
    forall i | 0 <= i < |e.tags| ensures BetaRises(f, states, e, ctx)[i] == Shares(f, states, e)[i] {
      RisesAre(f, states, e, ctx, i);
    }
    assert BetaRises(f, states, e, ctx) == Shares(f, states, e);
    BlameIsConserved(f, states, e);
    OneTimes(IncorrectWeight(e));
  }

  /** A right answer that is only inferred credits each concept with three tenths of what the same answer
      given directly would, and blames none. */
  lemma InferredCredit(f: Retention, states: States, e: Evidence, ctx: Context, i: nat)
    requires ValidEvidence(e) && e.kind == Inferred && e.correct == 1.0 && i < |e.tags|
    ensures ValidEvidence(e.(kind := Direct))
    ensures var c := e.tags[i].concept;
            && AlphaRise(f, states, e, ctx, c) == 0.3 * AlphaRise(f, states, e.(kind := Direct), ctx, c)
            && BetaRise(f, states, e, ctx, c) == 0.0
  {
    var direct := e.(kind := Direct);
    RisesAre(f, states, e, ctx, i);
    RisesAre(f, states, direct, ctx, i);
    GainOf(e, e.tags[i]);
    GainOf(direct, e.tags[i]);
    SameWeight(e, direct);
  }

  lemma SameWeight(e: Evidence, direct: Evidence)
    requires ValidEvidence(e) && direct == e.(kind := Direct)
    ensures ValidEvidence(direct) && CorrectWeight(direct) == CorrectWeight(e)
  {
  }

  // ---------------------------------------------------------------- who takes the blame

  /** How much of the blame a concept attracts: all it lacks of mastery, and half of that as a
      prerequisite. */
  function Lack(f: Retention, states: States, e: Evidence, tag: Tag): real {
    (if tag.role == Primary then 1.0 else 0.5) * (1.0 - MasteryBefore(f, states, e, tag.concept))
  }

  lemma LackIsSuspicion(f: Retention, states: States, e: Evidence, tag: Tag)
    ensures Lack(f, states, e, tag) == Suspicion(f, states, e.occurredAt, tag)
  {
  }

  lemma SharesCross(n: real, x: real, y: real, total: real, role: real, role': real, roles: real)
    requires total > 0.0
    ensures ShareOf(n, x, total, role, roles) * y == ShareOf(n, y, total, role', roles) * x
  {
    if n > 0.0 {
      ShareIsRate(n, x, total);
      ShareIsRate(n, y, total);
      SwapRate(x, y, n / total);
    }
  }

  lemma SwapRate(x: real, y: real, rate: real)
    ensures (x * rate) * y == (y * rate) * x
  {
  }

  /** The blame of one answer is split in proportion to what each concept lacks. */
  lemma BlameFollowsLack(f: Retention, states: States, e: Evidence, ctx: Context, i: nat, j: nat)
    requires Lawful(f) && AllAtLeastPrior(states) && ValidEvidence(e) && !AuditOnly(e) && i < |e.tags| && j < |e.tags|
    ensures BetaRise(f, states, e, ctx, e.tags[i].concept) * Lack(f, states, e, e.tags[j])
            == BetaRise(f, states, e, ctx, e.tags[j].concept) * Lack(f, states, e, e.tags[i])
  {
    hide AlphaRise, BetaRise, Gain, Applied, CorrectWeight, IncorrectWeight, NegativeMass, DecayedOf, Suspicion, Lack, ShareOf;
    RisesAre(f, states, e, ctx, i);
    RisesAre(f, states, e, ctx, j);
    FallbackNeverTaken(f, states, e);
    LackIsSuspicion(f, states, e, e.tags[i]);
    LackIsSuspicion(f, states, e, e.tags[j]);
    SharesCross(NegativeMass(e), Lack(f, states, e, e.tags[i]), Lack(f, states, e, e.tags[j]),
                Sum(Suspicions(f, states, e.occurredAt, e.tags)),
                RoleWeight(e.tags[i].role), RoleWeight(e.tags[j].role), Sum(Roles(e.tags)));
  }

  lemma SomeBlame(f: Retention, states: States, e: Evidence, ctx: Context, i: nat)
    requires Lawful(f) && AllAtLeastPrior(states) && ValidEvidence(e) && !AuditOnly(e) && i < |e.tags|
    ensures BetaRise(f, states, e, ctx, e.tags[i].concept) >= 0.0
    ensures e.kind == Direct && e.correct < 1.0 ==> BetaRise(f, states, e, ctx, e.tags[i].concept) > 0.0
  {
    hide AlphaRise, BetaRise, Gain, Share, Applied, CorrectWeight, IncorrectWeight, DecayedOf, Suspicion;
    RisesAre(f, states, e, ctx, i);
    ShareNonNegative(f, states, e, e.tags[i]);
    if e.kind == Direct && e.correct < 1.0 {
      WeightsPositive(e);
      ProductPositive(1.0 - e.correct, IncorrectWeight(e));
      SharePositive(f, states, e, e.tags[i]);
    }
  }

  /** Of two concepts tagged in one role the less mastered takes at least as much blame, and strictly more
      if it is strictly less mastered and there is blame to take. */
  lemma LessMasteredIsBlamedMore(f: Retention, states: States, e: Evidence, ctx: Context, i: nat, j: nat)
    requires Lawful(f) && AllAtLeastPrior(states) && ValidEvidence(e) && !AuditOnly(e) && i < |e.tags| && j < |e.tags|
    requires e.tags[i].role == e.tags[j].role
    ensures var a, b := e.tags[i].concept, e.tags[j].concept;
            && (MasteryBefore(f, states, e, a) <= MasteryBefore(f, states, e, b) ==>
                  BetaRise(f, states, e, ctx, a) >= BetaRise(f, states, e, ctx, b))
            && (MasteryBefore(f, states, e, a) < MasteryBefore(f, states, e, b) && e.kind == Direct && e.correct < 1.0 ==>
                  BetaRise(f, states, e, ctx, a) > BetaRise(f, states, e, ctx, b))
  {
    hide AlphaRise, BetaRise, Gain, Share, Applied, CorrectWeight, IncorrectWeight, DecayedOf, Suspicion, MasteryValue;
    BlameFollowsLack(f, states, e, ctx, i, j);
    DecayedOfAtLeastPrior(f, states, e.tags[i].concept, e.occurredAt);
    DecayedOfAtLeastPrior(f, states, e.tags[j].concept, e.occurredAt);
    SomeBlame(f, states, e, ctx, i);
    SomeBlame(f, states, e, ctx, j);
    var x, y := Lack(f, states, e, e.tags[i]), Lack(f, states, e, e.tags[j]);
    if x >= y {
      CrossOrder(BetaRise(f, states, e, ctx, e.tags[i].concept), BetaRise(f, states, e, ctx, e.tags[j].concept), x, y);
    }
  }

  lemma CrossOrder(p: real, q: real, x: real, y: real)
    requires p * y == q * x && x >= y > 0.0 && p >= 0.0 && q >= 0.0
    ensures p >= q && (x > y && q > 0.0 ==> p > q)
  {
    var gap := q * (x - y);
    ProductNonNegative(q, x - y);
    if x > y && q > 0.0 {
      ProductPositive(q, x - y);
    }
    Expand(q, x, y);
    Expand(y, p, q);
    assert gap == y * (p - q);
    SignOfProduct(y, p - q);
  }

  lemma Expand(a: real, b: real, c: real)
    ensures a * (b - c) == a * b - a * c
  {
  }

  // ---------------------------------------------------------------- what is recorded

  /** An inferred answer that is not fully right changes no state. */
  lemma InferredPartialIsIgnored(f: Retention, states: States, e: Evidence, ctx: Context)
    requires ValidEvidence(e) && e.kind == Inferred && e.correct < 1.0
    ensures Applied(f, states, e, ctx) == states
    ensures |Contributions(f, states, e)| == |e.tags|
    ensures forall i :: 0 <= i < |e.tags| ==>
              Contributions(f, states, e)[i] == Contribution(e.id, e.tags[i].concept, 0.0, 0.0, false)
  {
  }

  /** Any other answer is recorded as it was applied: one contribution for each tagged concept, in the order
      of the tags, with what its alpha and beta rose by. */
  lemma ContributionsReport(f: Retention, states: States, e: Evidence, ctx: Context)
    requires ValidEvidence(e) && (e.kind == Direct || e.correct == 1.0)
    ensures |Contributions(f, states, e)| == |e.tags|
    ensures forall i :: 0 <= i < |e.tags| ==>
              var c := e.tags[i].concept;
              Contributions(f, states, e)[i] == Contribution(e.id, c, AlphaRise(f, states, e, ctx, c), BetaRise(f, states, e, ctx, c), true)
  {
    forall i | 0 <= i < |e.tags|
      ensures var c := e.tags[i].concept;
              Contributions(f, states, e)[i] == Contribution(e.id, c, AlphaRise(f, states, e, ctx, c), BetaRise(f, states, e, ctx, c), true)
    {
      RisesAre(f, states, e, ctx, i);
    }
  }
}
