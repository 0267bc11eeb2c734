/** The idempotency keys as the strings the program writes (packages/persistence/jobs.py:87-278,
    apps/worker/handlers.py:62-89). Distinct keys never render alike, although stage names and
    result kinds are chosen by handlers, so distinct Key values may stand for the strings. */
module JobKeys {
  import opened JobPolicy
  import opened JobEvents

  function Digit(d: nat): char
    requires d < 10
  {
    "0123456789"[d]
  }

  function Decimal(n: nat): string {
    if n < 10 then [Digit(n)] else Decimal(n / 10) + [Digit(n % 10)]
  }

  predicate NoColon(s: string) {
    ':' !in s
  }

  /** Stage names and result kinds match a pattern of lower-case letters, digits and underscores. */
  predicate Named(key: Key) {
    match key
    case StageKey(_, stage) => NoColon(stage)
    case ProgressKey(_, stage, _) => NoColon(stage)
    case PartialKey(_, kind) => NoColon(kind)
    case _ => true
  }

  function ClosingName(c: Closing): string {
    match c
    case ByRetry => "retry"
    case ByFailure => "failed"
    case ByCancel => "cancelled"
    case ByPartial => "partial"
    case ByCompletion => "completed"
    case ByRecovery => "recovered"
    case ByReaperRetry => "reaper-retry"
    case ByReaperFailure => "reaper-failed"
  }

  function Segments(key: Key): seq<string> {
    match key
    case CreatedKey => ["created"]
    case CancelKey(job) => ["cancel", Decimal(job)]
    case StartedKey(n) => ["attempt", Decimal(n), "started"]
    case ClosingKey(n, c) => ["attempt", Decimal(n), ClosingName(c)]
    case StageKey(n, stage) => ["attempt", Decimal(n), "stage", stage, "started"]
    case ProgressKey(n, stage, percent) => ["attempt", Decimal(n), "stage", stage, "progress", Decimal(percent)]
    case PartialKey(n, kind) => ["attempt", Decimal(n), "partial", kind]
  }

  function Join(segments: seq<string>): string
    requires |segments| >= 1
  {
    if |segments| == 1 then segments[0] else segments[0] + ":" + Join(segments[1..])
  }

  function Render(key: Key): string {
    Join(Segments(key))
  }

  lemma {:induction false} DecimalHasNoColon(n: nat)
    ensures NoColon(Decimal(n)) && |Decimal(n)| >= 1
    decreases n
  {
    if n >= 10 {
      DecimalHasNoColon(n / 10);
    }
  }

  lemma {:induction false} DecimalInjective(n: nat, m: nat)
    requires Decimal(n) == Decimal(m)
    ensures n == m
    decreases n
  {
    DecimalHasNoColon(n / 10);
    DecimalHasNoColon(m / 10);
    var a, b := Decimal(n), Decimal(m);
    assert a[|a| - 1] == b[|b| - 1];
    if n >= 10 && m >= 10 {
      assert Decimal(n / 10) == a[..|a| - 1] == b[..|b| - 1] == Decimal(m / 10);
      DecimalInjective(n / 10, m / 10);
    }
  }

  lemma SplitUnique(a: string, b: string, c: string, d: string)
    requires NoColon(a) && NoColon(c) && a + ":" + b == c + ":" + d
    ensures a == c && b == d
  {
    var s := a + ":" + b;
    assert s[|a|] == ':' && s[|c|] == ':';
    assert forall i :: 0 <= i < |a| ==> s[i] == a[i];
    assert forall i :: 0 <= i < |c| ==> s[i] == c[i];
    assert |a| == |c|;
    assert a == s[..|a|] && c == s[..|c|] && b == s[|a| + 1..] && d == s[|c| + 1..];
  }

  lemma {:induction false} JoinInjective(a: seq<string>, b: seq<string>)
    requires |a| >= 1 && |b| >= 1
    requires (forall i :: 0 <= i < |a| ==> NoColon(a[i])) && (forall i :: 0 <= i < |b| ==> NoColon(b[i]))
    requires Join(a) == Join(b)
    ensures a == b
  {
    assert |a| > 1 ==> Join(a)[|a[0]|] == ':';
    assert |b| > 1 ==> Join(b)[|b[0]|] == ':';
    if |a| > 1 && |b| > 1 {
      SplitUnique(a[0], Join(a[1..]), b[0], Join(b[1..]));
      JoinInjective(a[1..], b[1..]);
      assert a == [a[0]] + a[1..] && b == [b[0]] + b[1..];
    }
  }

  lemma SegmentsHaveNoColon(key: Key)
    requires Named(key)
    ensures |Segments(key)| >= 1 && forall i :: 0 <= i < |Segments(key)| ==> NoColon(Segments(key)[i])
  {
    match key
    case CreatedKey =>
    case CancelKey(job) => DecimalHasNoColon(job);
    case StartedKey(n) => DecimalHasNoColon(n);
    case ClosingKey(n, _) => DecimalHasNoColon(n);
    case StageKey(n, _) => DecimalHasNoColon(n);
    case ProgressKey(n, _, percent) => DecimalHasNoColon(n); DecimalHasNoColon(percent);
    case PartialKey(n, _) => DecimalHasNoColon(n);
  }

  function AttemptOf(key: Key): nat {
    match key
    case CreatedKey => 0
    case CancelKey(job) => job
    case StartedKey(n) => n
    case ClosingKey(n, _) => n
    case StageKey(n, _) => n
    case ProgressKey(n, _, _) => n
    case PartialKey(n, _) => n
  }

  lemma ClosingNames(a: Closing, b: Closing)
    requires ClosingName(a) == ClosingName(b)
    ensures a == b
  {
    assert ClosingName(a)[|ClosingName(a)| - 3..] == ClosingName(b)[|ClosingName(b)| - 3..];
  }

  /** Two keys of the program are equal exactly when their strings are. */
  lemma RenderInjective(a: Key, b: Key)
    requires Named(a) && Named(b) && Render(a) == Render(b)
    ensures a == b
  {
    SegmentsHaveNoColon(a);
    SegmentsHaveNoColon(b);
    JoinInjective(Segments(a), Segments(b));
    var s, t := Segments(a), Segments(b);
    assert s[0] == t[0];
    if |s| > 1 {
      assert s[1] == Decimal(AttemptOf(a)) && t[1] == Decimal(AttemptOf(b));
      DecimalInjective(AttemptOf(a), AttemptOf(b));
      if a.ClosingKey? && b.ClosingKey? {
        assert s[2] == t[2];
        ClosingNames(a.closing, b.closing);
      }
      if a.ProgressKey? && b.ProgressKey? {
        assert s[3] == t[3] && s[5] == t[5];
        DecimalInjective(a.percent, b.percent);
      }
    }
  }

  /** What all keys of one attempt begin with. */
  function OfAttempt(n: nat): string {
    "attempt:" + Decimal(n) + ":"
  }

  /** The strings as the program writes them. */
  lemma RepositoryForms(n: nat, job: JobId)
    ensures Render(CreatedKey) == "created" && Render(CancelKey(job)) == "cancel:" + Decimal(job)
    ensures Render(StartedKey(n)) == OfAttempt(n) + "started"
  {
    hide Decimal, Join, OfAttempt;
    JoinOne("created");
    JoinTwo("cancel", Decimal(job));
    assert "cancel" + ":" == "cancel:";
    JoinAttempt(StartedKey(n), n, ["started"]);
    JoinOne("started");
  }

  lemma StageForm(n: nat, stage: string)
    ensures Render(StageKey(n, stage)) == OfAttempt(n) + ("stage:" + stage + ":started")
  {
    hide Decimal, Join, OfAttempt;
    JoinAttempt(StageKey(n, stage), n, ["stage", stage, "started"]);
    JoinThree("stage", stage, "started");
    assert "stage" + ":" == "stage:" && ":" + "started" == ":started";
    Reassociate("stage:" + stage, ":", "started");
  }

  lemma ProgressForm(n: nat, stage: string, percent: nat)
    ensures Render(ProgressKey(n, stage, percent)) == OfAttempt(n) + ("stage:" + stage + ":progress:" + Decimal(percent))
  {
    hide Decimal, Join, OfAttempt;
    var d := Decimal(percent);
    JoinAttempt(ProgressKey(n, stage, percent), n, ["stage", stage, "progress", d]);
    assert ["stage", stage] + ["progress", d] == ["stage", stage, "progress", d];
    JoinBoth(["stage", stage], ["progress", d]);
    JoinTwo("stage", stage);
    JoinTwo("progress", d);
    assert "stage" + ":" == "stage:" && ":" + ("progress" + ":") == ":progress:";
    Reassociate("stage:" + stage, ":", "progress" + ":" + d);
    Reassociate(":", "progress" + ":", d);
    Reassociate("stage:" + stage, ":progress:", d);
  }

  lemma PartialForm(n: nat, kind: string)
    ensures Render(PartialKey(n, kind)) == OfAttempt(n) + ("partial:" + kind)
  {
    hide Decimal, Join, OfAttempt;
    JoinAttempt(PartialKey(n, kind), n, ["partial", kind]);
    JoinTwo("partial", kind);
    assert "partial" + ":" == "partial:";
  }

  lemma Reassociate(a: string, b: string, c: string)
    ensures a + b + c == a + (b + c)
  {
  }

  lemma ClosingForms(n: nat)
    ensures Render(ClosingKey(n, ByRetry)) == OfAttempt(n) + "retry"
    ensures Render(ClosingKey(n, ByFailure)) == OfAttempt(n) + "failed"
    ensures Render(ClosingKey(n, ByCancel)) == OfAttempt(n) + "cancelled"
    ensures Render(ClosingKey(n, ByPartial)) == OfAttempt(n) + "partial"
    ensures Render(ClosingKey(n, ByCompletion)) == OfAttempt(n) + "completed"
    ensures Render(ClosingKey(n, ByRecovery)) == OfAttempt(n) + "recovered"
    ensures Render(ClosingKey(n, ByReaperRetry)) == OfAttempt(n) + "reaper-retry"
    ensures Render(ClosingKey(n, ByReaperFailure)) == OfAttempt(n) + "reaper-failed"
  {
    hide Decimal, Join, OfAttempt;
    ClosingForm(n, ByRetry);
    ClosingForm(n, ByFailure);
    ClosingForm(n, ByCancel);
    ClosingForm(n, ByPartial);
    ClosingForm(n, ByCompletion);
    ClosingForm(n, ByRecovery);
    ClosingForm(n, ByReaperRetry);
    ClosingForm(n, ByReaperFailure);
  }

  lemma ClosingForm(n: nat, c: Closing)
    ensures Render(ClosingKey(n, c)) == OfAttempt(n) + ClosingName(c)
  {
    hide Decimal, Join, ClosingName;
    JoinAttempt(ClosingKey(n, c), n, [ClosingName(c)]);
    JoinOne(ClosingName(c));
  }

  lemma JoinOne(a: string)
    ensures Join([a]) == a
  {
  }

  lemma JoinAttempt(key: Key, n: nat, rest: seq<string>)
    requires rest != [] && Segments(key) == ["attempt", Decimal(n)] + rest
    ensures Render(key) == OfAttempt(n) + Join(rest)
  {
    hide Decimal;
    JoinBoth(["attempt", Decimal(n)], rest);
    JoinTwo("attempt", Decimal(n));
    assert "attempt" + ":" == "attempt:";
  }

  lemma JoinTwo(a: string, b: string)
    ensures Join([a, b]) == a + ":" + b
  {
    assert [a, b][1..] == [b];
  }

  lemma JoinThree(a: string, b: string, c: string)
    ensures Join([a, b, c]) == a + ":" + b + ":" + c
  {
    assert [a, b, c][1..] == [b, c];
    JoinTwo(b, c);
  }

  lemma {:induction false} JoinBoth(s: seq<string>, t: seq<string>)
    requires s != [] && t != []
    ensures Join(s + t) == Join(s) + ":" + Join(t)
  {
    assert (s + t)[1..] == s[1..] + t;
    if |s| > 1 {
      JoinBoth(s[1..], t);
    }
  }

  /** The value of a decimal string. */
  function ValueOf(s: string): int {
    if s == "" then 0 else 10 * ValueOf(s[..|s| - 1]) + (s[|s| - 1] as int - '0' as int)
  }

  lemma {:induction false} DecimalReadsBack(n: nat)
    ensures ValueOf(Decimal(n)) == n
  {
    var s := Decimal(n);
    if n >= 10 {
      DecimalReadsBack(n / 10);
      assert s[..|s| - 1] == Decimal(n / 10) && s[|s| - 1] == Digit(n % 10);
    } else {
      assert s[..0] == "" && s[0] == Digit(n);
    }
    assert Digit(n % 10) as int - '0' as int == n % 10;
  }
}
