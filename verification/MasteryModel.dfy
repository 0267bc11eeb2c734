/** The Beta posterior of one concept: weights, metrics, status and forgetting
    (packages/mastery/engine.py:30-113, packages/mastery/weights.py). Numbers are exact reals and
    times are in days. */
module MasteryModel {
  import opened Support

  type Id = nat
  type Time = real

  datatype Kind = Direct | Inferred
  datatype Role = Primary | Prerequisite
  datatype QuestionType = Mcq(options: nat) | TrueFalse | Numeric | ShortText | Code
  datatype Grader = Rule | Tests | LlmRubric | Escalated
  datatype Tag = Tag(concept: Id, role: Role)

  datatype Evidence = Evidence(
    id: Id, questionId: Id, attemptId: Id, correct: real, difficulty: nat, questionType: QuestionType,
    hintsUsed: nat, grader: Grader, graderConfidence: real, kind: Kind, occurredAt: Time,
    tags: seq<Tag>, tagConfidence: real, isReview: bool)

  ghost predicate DistinctConcepts(tags: seq<Tag>) {
    forall i, j :: 0 <= i < j < |tags| ==> tags[i].concept != tags[j].concept
  }

  /** What EvidenceInput enforces, and positive weights, which WeightSnapshot enforces. */
  ghost predicate ValidEvidence(e: Evidence) {
    && 0.0 <= e.correct <= 1.0
    && 1 <= e.difficulty <= 5
    && (e.questionType.Mcq? ==> e.questionType.options >= 2)
    && 0.0 <= e.graderConfidence <= 1.0
    && (e.grader == LlmRubric ==> e.graderConfidence > 0.0)
    && |e.tags| >= 1 && DistinctConcepts(e.tags)
  }

  // ---------------------------------------------------------------- weights

  function CorrectDifficulty(difficulty: nat): real {
    if difficulty <= 2 then 0.7 else if difficulty == 3 then 1.0 else 1.3
  }

  function IncorrectDifficulty(difficulty: nat): real {
    if difficulty <= 2 then 1.3 else if difficulty == 3 then 1.0 else 0.7
  }

  function TypeWeight(e: Evidence): real
    requires e.questionType.Mcq? ==> e.questionType.options >= 2
  {
    if e.grader == LlmRubric then e.graderConfidence
    else match e.questionType
      case Mcq(options) => 0.6 * (1.0 - 1.0 / (options as real))
      case TrueFalse => 0.4
      case Numeric => 1.0
      case ShortText => 0.9
      case Code => 1.2
  }

  function HintFactor(hints: nat): real {
    if hints == 0 then 1.0 else if hints == 1 then 0.5 else 0.25
  }

  function ClampedTag(confidence: real): real {
    if confidence < 0.5 then 0.5 else if confidence > 1.0 then 1.0 else confidence
  }

  function CorrectWeight(e: Evidence): real
    requires e.questionType.Mcq? ==> e.questionType.options >= 2
  {
    CorrectDifficulty(e.difficulty) * TypeWeight(e) * HintFactor(e.hintsUsed) * ClampedTag(e.tagConfidence)
  }

  function IncorrectWeight(e: Evidence): real
    requires e.questionType.Mcq? ==> e.questionType.options >= 2
  {
    IncorrectDifficulty(e.difficulty) * TypeWeight(e) * ClampedTag(e.tagConfidence)
  }

  lemma ProductPositive(a: real, b: real)
    requires a > 0.0 && b > 0.0
    ensures a * b > 0.0
  {
  }

  lemma ProductNonNegative(a: real, b: real)
    requires a >= 0.0 && b >= 0.0
    ensures a * b >= 0.0
  {
  }

  lemma ReciprocalAtMostHalf(n: real)
    requires n >= 2.0
    ensures 1.0 / n <= 0.5
  {
    DivideCompare(1.0, n, 0.5);
  }

  /** Both frozen weights are positive, and hints only ever lower the credit for a correct answer. */
  lemma WeightsPositive(e: Evidence)
    requires ValidEvidence(e)
    ensures CorrectWeight(e) > 0.0 && IncorrectWeight(e) > 0.0
    ensures CorrectWeight(e) <= CorrectWeight(e.(hintsUsed := 0))
  {
    if e.questionType.Mcq? {
      ReciprocalAtMostHalf(e.questionType.options as real);
    }
    assert TypeWeight(e) > 0.0;
    HintedProduct(CorrectDifficulty(e.difficulty), TypeWeight(e), HintFactor(e.hintsUsed), ClampedTag(e.tagConfidence));
    HintedProduct(IncorrectDifficulty(e.difficulty), TypeWeight(e), 1.0, ClampedTag(e.tagConfidence));
    assert TypeWeight(e.(hintsUsed := 0)) == TypeWeight(e);
  }

  lemma HintedProduct(d: real, t: real, h: real, c: real)
    requires d > 0.0 && t > 0.0 && 0.0 < h <= 1.0 && c > 0.0
    ensures 0.0 < d * t * h * c <= d * t * 1.0 * c
    ensures d * t * 1.0 * c == d * t * c
  {
    var p := d * t;
    ProductPositive(d, t);
    var q := p * h;
    ProductPositive(p, h);
    ProductMonotone(p, h, 1.0);
    assert q <= p;
    ProductPositive(q, c);
    ProductMonotone(c, q, p);
    assert q * c <= p * c;
  }

  lemma ProductMonotone(a: real, x: real, y: real)
    requires a >= 0.0 && x <= y
    ensures a * x <= a * y && x * a <= y * a
  {
  }

  // ---------------------------------------------------------------- state and metrics

  datatype State = State(
    alpha: real, beta: real, nDirect: nat, questions: set<Id>, reviewSuccesses: nat, reviewRung: nat,
    hasQualifyingReview: bool, selfReportApplied: bool, lastAt: Option<Time>, lastReviewAt: Option<Time>,
    lastReviewEvidence: Option<Id>, lastReviewEvent: Option<Id>)

  const Initial := State(1.0, 1.0, 0, {}, 0, 0, false, false, None, None, None, None)

  ghost predicate AtLeastPrior(s: State) {
    s.alpha >= 1.0 && s.beta >= 1.0
  }

  function EffectiveSize(s: State): real {
    if s.alpha + s.beta - 2.0 >= 0.0 then s.alpha + s.beta - 2.0 else 0.0
  }

  function MasteryValue(s: State): real
    requires s.alpha + s.beta > 0.0
  {
    s.alpha / (s.alpha + s.beta)
  }

  function Confidence(s: State): real {
    EffectiveSize(s) / (EffectiveSize(s) + 4.0)
  }

  datatype Status = Unassessed | Weak | Developing | Proficient | Mastered

  function Classify(s: State, qualifying: bool): Status
    requires s.alpha + s.beta > 0.0
  {
    if EffectiveSize(s) < 1.0 then Unassessed
    else if MasteryValue(s) < 0.5 && Confidence(s) >= 0.3 then Weak
    else if MasteryValue(s) >= 0.75 && s.nDirect >= 3 && |s.questions| >= 2 && Confidence(s) >= 0.5
    then (if qualifying then Mastered else Proficient)
    else Developing
  }

  datatype Metrics = Metrics(nEff: real, mastery: real, confidence: real, status: Status)

  function MetricsFor(s: State, qualifying: bool): Metrics
    requires s.alpha + s.beta > 0.0
  {
    Metrics(EffectiveSize(s), MasteryValue(s), Confidence(s), Classify(s, qualifying))
  }

  lemma DivideCompare(x: real, y: real, k: real)
    requires y > 0.0
    ensures x / y >= k <==> x >= k * y
    ensures x / y > k <==> x > k * y
  {
    var m := x / y;
    assert m * y == x;
    assert (m - k) * y == x - k * y;
    SignOfProduct(y, m - k);
  }

  lemma SignOfProduct(k: real, x: real)
    requires k > 0.0
    ensures x * k > 0.0 <==> x > 0.0
    ensures x * k >= 0.0 <==> x >= 0.0
  {
  }

  lemma MasteryBounds(s: State)
    requires AtLeastPrior(s)
    ensures 0.0 < MasteryValue(s) < 1.0
    ensures 0.0 <= Confidence(s) < 1.0
  {
    DivideCompare(s.alpha, s.alpha + s.beta, 1.0);
    DivideCompare(s.alpha, s.alpha + s.beta, 0.0);
    DivideCompare(EffectiveSize(s), EffectiveSize(s) + 4.0, 1.0);
    DivideCompare(EffectiveSize(s), EffectiveSize(s) + 4.0, 0.0);
  }

  // ---------------------------------------------------------------- forgetting

  /** Retention after a number of days, for a given half-life: 2 to the power -days/halfLife in the
      program. Only the laws below are used. */
  type Retention = (real, real) -> real

  ghost predicate Lawful(f: Retention) {
    && (forall h :: h > 0.0 ==> f(h, 0.0) == 1.0)
    && (forall h, d :: h > 0.0 && d >= 0.0 ==> 0.0 < f(h, d) <= 1.0)
    && (forall h, a, b :: h > 0.0 && a >= 0.0 && b >= 0.0 ==> Composes(f, h, a, b))
  }

  ghost predicate Composes(f: Retention, h: real, a: real, b: real) {
    f(h, a + b) == f(h, a) * f(h, b)
  }

  function Growth(n: nat): real {
    if n == 0 then 1.0 else 1.6 * Growth(n - 1)
  }

  function HalfLife(successes: nat): real {
    var h := 21.0 * Growth(successes);
    if h <= 180.0 then h else 180.0
  }

  lemma {:induction false} HalfLifeBounds(successes: nat)
    ensures Growth(successes) >= 1.0
    ensures 21.0 <= HalfLife(successes) <= 180.0
  {
    if successes > 0 {
      HalfLifeBounds(successes - 1);
    }
  }

  predicate DecayDefined(s: State, at: Time) {
    s.lastAt.None? || s.lastAt.value <= at
  }

  function Decayed(f: Retention, s: State, at: Time): State {
    if s.lastAt.None? || at <= s.lastAt.value then s
    else
      var factor := f(HalfLife(s.reviewSuccesses), at - s.lastAt.value);
      s.(alpha := 1.0 + (s.alpha - 1.0) * factor, beta := 1.0 + (s.beta - 1.0) * factor, lastAt := Some(at))
  }

  function DecayState(f: Retention, s: State, at: Time): Result<State, ()> {
    if !DecayDefined(s, at) then Err(()) else Ok(Decayed(f, s, at))
  }

  /** The factor decay applies to everything above the prior. */
  function Factor(f: Retention, s: State, at: Time): real {
    if s.lastAt.None? || at <= s.lastAt.value then 1.0 else f(HalfLife(s.reviewSuccesses), at - s.lastAt.value)
  }

  lemma DecayScales(f: Retention, s: State, at: Time)
    requires Lawful(f)
    ensures 0.0 < Factor(f, s, at) <= 1.0
    ensures Decayed(f, s, at).alpha - 1.0 == (s.alpha - 1.0) * Factor(f, s, at)
    ensures Decayed(f, s, at).beta - 1.0 == (s.beta - 1.0) * Factor(f, s, at)
    ensures AtLeastPrior(s) ==> AtLeastPrior(Decayed(f, s, at))
  {
    HalfLifeBounds(s.reviewSuccesses);
    if AtLeastPrior(s) {
      ProductMonotone(Factor(f, s, at), 0.0, s.alpha - 1.0);
      ProductMonotone(Factor(f, s, at), 0.0, s.beta - 1.0);
    }
  }

  /** Forgetting in two stages is forgetting in one. */
  lemma DecayComposes(f: Retention, s: State, t1: Time, t2: Time)
    requires Lawful(f) && DecayDefined(s, t1) && t1 <= t2
    ensures Decayed(f, Decayed(f, s, t1), t2) == Decayed(f, s, t2)
  {
    if s.lastAt.Some? && s.lastAt.value < t1 < t2 {
      HalfLifeBounds(s.reviewSuccesses);
      var h, a, b := HalfLife(s.reviewSuccesses), t1 - s.lastAt.value, t2 - t1;
      assert Composes(f, h, a, b);
      assert a + b == t2 - s.lastAt.value;
      var x, y := f(h, a), f(h, b);
      assert 1.0 + ((1.0 + (s.alpha - 1.0) * x) - 1.0) * y == 1.0 + (s.alpha - 1.0) * (x * y);
      assert 1.0 + ((1.0 + (s.beta - 1.0) * x) - 1.0) * y == 1.0 + (s.beta - 1.0) * (x * y);
    }
  }

  // ---------------------------------------------------------------- forgetting never promotes

  /** Mastery against a threshold, without the division. */
  lemma MasteryAtLeast(s: State, c: real)
    requires AtLeastPrior(s)
    ensures MasteryValue(s) >= c <==> s.alpha >= c * (s.alpha + s.beta)
    ensures MasteryValue(s) > c <==> s.alpha > c * (s.alpha + s.beta)
  {
    DivideCompare(s.alpha, s.alpha + s.beta, c);
  }

  /** d has the evidence of s scaled by k. */
  ghost predicate Scaled(s: State, d: State, k: real) {
    && AtLeastPrior(s) && 0.0 < k <= 1.0
    && d.alpha - 1.0 == (s.alpha - 1.0) * k && d.beta - 1.0 == (s.beta - 1.0) * k
  }

  lemma ScaledAtLeastPrior(s: State, d: State, k: real)
    requires Scaled(s, d, k)
    ensures AtLeastPrior(d) && EffectiveSize(d) == k * EffectiveSize(s)
  {
    SignOfProduct(k, s.alpha - 1.0);
    SignOfProduct(k, s.beta - 1.0);
    assert (s.alpha - 1.0) * k + (s.beta - 1.0) * k == k * (s.alpha + s.beta - 2.0);
  }

  lemma ScaledOrder(s: State, d: State, k: real)
    requires Scaled(s, d, k)
    ensures d.alpha > d.beta <==> s.alpha > s.beta
    ensures d.alpha >= d.beta <==> s.alpha >= s.beta
  {
    var x, y := s.alpha - s.beta, d.alpha - d.beta;
    assert y == x * k;
    SignOfProduct(k, x);
  }

  /** Which side of one half mastery is on does not change. */
  lemma ScaledSide(s: State, d: State, k: real)
    requires Scaled(s, d, k)
    ensures AtLeastPrior(d)
    ensures MasteryValue(s) >= 0.5 <==> MasteryValue(d) >= 0.5
    ensures MasteryValue(s) > 0.5 <==> MasteryValue(d) > 0.5
  {
    ScaledAtLeastPrior(s, d, k);
    MasteryAtLeast(s, 0.5);
    MasteryAtLeast(d, 0.5);
    ScaledOrder(s, d, k);
  }

  lemma ScaledProficiency(s: State, d: State, k: real)
    requires Scaled(s, d, k)
    ensures AtLeastPrior(d)
    ensures MasteryValue(d) >= 0.75 ==> MasteryValue(s) >= 0.75
  {
    ScaledAtLeastPrior(s, d, k);
    MasteryAtLeast(s, 0.75);
    MasteryAtLeast(d, 0.75);
    var x := (s.alpha - 1.0) - 3.0 * (s.beta - 1.0);
    assert (d.alpha - 1.0) - 3.0 * (d.beta - 1.0) == x * k;
    if x < 2.0 {
      ScaledBelow(k, x, 2.0);
    }
  }

  lemma ScaledBelow(k: real, x: real, bound: real)
    requires 0.0 < k <= 1.0 && x < bound && bound > 0.0
    ensures x * k < bound
  {
    if x > 0.0 {
      ProductMonotone(x, k, 1.0);
    } else {
      SignOfProduct(k, x);
    }
  }

  /** Comparing two fractions by cross multiplication. */
  lemma CrossProduct(x: real, y: real, x': real, y': real)
    requires y > 0.0 && y' > 0.0
    ensures x * y' >= x' * y ==> x / y >= x' / y'
  {
    var m, m' := x / y, x' / y';
    ProductPositive(y, y');
    assert x == m * y && x' == m' * y';
    CrossTerms(m, m', y, y');
    SignOfProduct(y * y', m - m');
  }

  lemma CrossTerms(m: real, m': real, y: real, y': real)
    ensures (m * y) * y' - (m' * y') * y == (m - m') * (y * y')
  {
    assert (m * y) * y' == m * (y * y');
    assert (m' * y') * y == m' * (y * y');
  }

  lemma CrossDifference(a: real, b: real, k: real)
    ensures (1.0 + a) * (2.0 + a * k + b * k) - (1.0 + a * k) * (2.0 + a + b) == (1.0 - k) * (a - b)
  {
    assert (1.0 + a) * (2.0 + a * k + b * k) == 2.0 + a * k + b * k + 2.0 * a + a * (a * k) + a * (b * k);
    assert (1.0 + a * k) * (2.0 + a + b) == 2.0 + a + b + 2.0 * (a * k) + (a * k) * a + (a * k) * b;
    assert a * (b * k) == (a * k) * b;
  }

  lemma SignOfDifference(a: real, b: real, k: real)
    requires 0.0 < k <= 1.0
    ensures a >= b ==> (1.0 - k) * (a - b) >= 0.0
    ensures a <= b ==> (1.0 - k) * (a - b) <= 0.0
  {
    if a >= b {
      ProductNonNegative(1.0 - k, a - b);
    }
    if a <= b {
      ProductNonNegative(1.0 - k, b - a);
      assert (1.0 - k) * (a - b) == -((1.0 - k) * (b - a));
    }
  }

  lemma ScaledCross(s: State, d: State, k: real)
    requires Scaled(s, d, k)
    ensures s.alpha >= s.beta ==> s.alpha * (d.alpha + d.beta) >= d.alpha * (s.alpha + s.beta)
    ensures s.alpha <= s.beta ==> s.alpha * (d.alpha + d.beta) <= d.alpha * (s.alpha + s.beta)
  {
    var a, b := s.alpha - 1.0, s.beta - 1.0;
    CrossDifference(a, b, k);
    SignOfDifference(a, b, k);
    assert d.alpha == 1.0 + a * k && d.alpha + d.beta == 2.0 + a * k + b * k;
    assert s.alpha == 1.0 + a && s.alpha + s.beta == 2.0 + a + b;
  }

  lemma ScaledTowardsHalf(s: State, d: State, k: real)
    requires Scaled(s, d, k)
    ensures AtLeastPrior(d)
    ensures s.alpha >= s.beta ==> MasteryValue(d) <= MasteryValue(s)
    ensures s.alpha <= s.beta ==> MasteryValue(s) <= MasteryValue(d)
  {
    ScaledAtLeastPrior(s, d, k);
    ScaledCross(s, d, k);
    CrossProduct(s.alpha, s.alpha + s.beta, d.alpha, d.alpha + d.beta);
    CrossProduct(d.alpha, d.alpha + d.beta, s.alpha, s.alpha + s.beta);
  }

  lemma ScaledConfidence(s: State, d: State, k: real)
    requires Scaled(s, d, k)
    ensures Confidence(d) <= Confidence(s)
  {
    ScaledAtLeastPrior(s, d, k);
    var n := EffectiveSize(s);
    ProductMonotone(n, k, 1.0);
    assert EffectiveSize(d) == k * n <= n;
    ConfidenceMonotone(EffectiveSize(d), EffectiveSize(s));
  }

  lemma ConfidenceMonotone(m: real, n: real)
    requires 0.0 <= m <= n
    ensures m / (m + 4.0) <= n / (n + 4.0)
  {
    assert n * (m + 4.0) == n * m + 4.0 * n;
    assert m * (n + 4.0) == n * m + 4.0 * m;
    CrossProduct(n, n + 4.0, m, m + 4.0);
  }

  lemma ScaledStatus(s: State, d: State, k: real, qualifying: bool)
    requires Scaled(s, d, k) && d.nDirect == s.nDirect && d.questions == s.questions
    ensures AtLeastPrior(d)
    ensures Classify(d, qualifying) in {Weak, Proficient, Mastered} ==> Classify(s, qualifying) == Classify(d, qualifying)
  {
    ScaledAtLeastPrior(s, d, k);
    ScaledSide(s, d, k);
    ScaledProficiency(s, d, k);
    ScaledConfidence(s, d, k);
    ProductMonotone(EffectiveSize(s), k, 1.0);
  }

  /** Everything scaling by at most one does to what is read off a state. */
  ghost predicate Subdued(s: State, d: State, k: real, qualifying: bool) {
    && AtLeastPrior(s) && AtLeastPrior(d)
    && EffectiveSize(d) == k * EffectiveSize(s) && Confidence(d) <= Confidence(s)
    && (MasteryValue(s) >= 0.5 ==> 0.5 <= MasteryValue(d) <= MasteryValue(s))
    && (MasteryValue(s) <= 0.5 ==> MasteryValue(s) <= MasteryValue(d) <= 0.5)
    && (Classify(d, qualifying) in {Weak, Proficient, Mastered} ==> Classify(s, qualifying) == Classify(d, qualifying))
  }

  lemma ScaledMastery(s: State, d: State, k: real)
    requires Scaled(s, d, k)
    ensures AtLeastPrior(d)
    ensures MasteryValue(s) >= 0.5 ==> 0.5 <= MasteryValue(d) <= MasteryValue(s)
    ensures MasteryValue(s) <= 0.5 ==> MasteryValue(s) <= MasteryValue(d) <= 0.5
  {
    ScaledSide(s, d, k);
    ScaledTowardsHalf(s, d, k);
    MasteryAtLeast(s, 0.5);
  }

  lemma ScaledIsSubdued(s: State, d: State, k: real, qualifying: bool)
    requires Scaled(s, d, k) && d.nDirect == s.nDirect && d.questions == s.questions
    ensures Subdued(s, d, k, qualifying)
  {
    ScaledAtLeastPrior(s, d, k);
    ScaledMastery(s, d, k);
    ScaledConfidence(s, d, k);
    ScaledStatus(s, d, k, qualifying);
  }

  /** Decay multiplies the evidence mass by exactly the factor, pulls mastery towards one half
      without crossing it, and never awards a status that was not there before. */
  lemma ForgettingNeverPromotes(f: Retention, s: State, at: Time, qualifying: bool)
    requires Lawful(f) && AtLeastPrior(s)
    ensures Subdued(s, Decayed(f, s, at), Factor(f, s, at), qualifying)
  {
    DecayScales(f, s, at);
    ScaledIsSubdued(s, Decayed(f, s, at), Factor(f, s, at), qualifying);
  }

  /** The laws are satisfiable. */
  lemma LawsHaveAModel()
    ensures Lawful((h: real, d: real) => 1.0)
  {
  }
}
