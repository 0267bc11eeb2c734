/** Pure job lifecycle policy (packages/domain/jobs.py). Times and delays are in seconds. */
module JobPolicy {
  import opened Support

  datatype JobStatus = Pending | Running | Partial | Succeeded | Failed | Cancelled | Retrying

  function Successors(s: JobStatus): set<JobStatus> {
    match s
    case Pending => {Running, Cancelled}
    case Retrying => {Running, Cancelled}
    case Running => {Partial, Succeeded, Failed, Cancelled, Retrying}
    case Partial => {Retrying, Cancelled}
    case Succeeded => {}
    case Failed => {}
    case Cancelled => {}
  }

  predicate IsTerminal(s: JobStatus) {
    s == Succeeded || s == Failed || s == Cancelled
  }

  function FailureStatus(attempts: nat, maxAttempts: nat, retryable: bool): JobStatus {
    if retryable && attempts < maxAttempts then Retrying else Failed
  }

  // ---------------------------------------------------------------- retry delay

  function MinReal(a: real, b: real): real {
    if a <= b then a else b
  }

  /** base doubled n times. */
  ghost function Doubled(base: real, n: nat): real {
    if n == 0 then base else 2.0 * Doubled(base, n - 1)
  }

  ghost function PowerOfTwo(n: nat): real {
    if n == 0 then 1.0 else 2.0 * PowerOfTwo(n - 1)
  }

  lemma {:induction false} DoubledIsProduct(base: real, n: nat)
    ensures Doubled(base, n) == base * PowerOfTwo(n)
  {
    if n > 0 {
      DoubledIsProduct(base, n - 1);
    }
  }

  lemma {:induction false} DoubledGrows(base: real, n: nat, m: nat)
    requires base > 0.0 && n <= m
    ensures 0.0 < Doubled(base, n) <= Doubled(base, m)
    decreases m
  {
    if n < m {
      DoubledGrows(base, n, m - 1);
    } else if n > 0 {
      DoubledGrows(base, n - 1, n - 1);
    }
  }

  predicate ValidRetryPolicy(base: real, maximum: real) {
    0.0 < base <= maximum
  }

  /** The delay before retry number attempts: exponential, capped at the maximum. */
  ghost function Backoff(attempts: nat, base: real, maximum: real): real
    requires attempts >= 1
  {
    MinReal(maximum, base * PowerOfTwo(attempts - 1))
  }

  /** The doubling loop may stop as soon as it reaches the cap. */
  method RetryDelay(attempts: int, base: real, maximum: real) returns (r: Result<real, ()>)
    ensures r.Ok? <==> attempts >= 1 && ValidRetryPolicy(base, maximum)
    ensures r.Ok? ==> r.value == Backoff(attempts, base, maximum)
  {
    if attempts < 1 || base <= 0.0 || maximum < base {
      return Err(());
    }
    var delay := base;
    var i := 0;
    while i < attempts - 1
      invariant 0 <= i <= attempts - 1
      invariant delay == MinReal(maximum, Doubled(base, i))
    {
      delay := MinReal(maximum, delay * 2.0);
      i := i + 1;
      if delay == maximum {
        DoubledGrows(base, i, attempts - 1);
        break;
      }
    }
    DoubledIsProduct(base, attempts - 1);
    DoubledGrows(base, i, attempts - 1);
    r := Ok(delay);
  }

  lemma BackoffBounds(attempts: nat, base: real, maximum: real)
    requires attempts >= 1 && ValidRetryPolicy(base, maximum)
    ensures base <= Backoff(attempts, base, maximum) <= maximum
    ensures attempts >= 2 ==> Backoff(attempts - 1, base, maximum) <= Backoff(attempts, base, maximum)
  {
    DoubledGrows(base, 0, attempts - 1);
    DoubledIsProduct(base, attempts - 1);
    if attempts >= 2 {
      DoubledGrows(base, attempts - 2, attempts - 1);
      DoubledIsProduct(base, attempts - 2);
    }
  }

  /** The first retry waits for the base delay, each further one twice as long as the one before, up to the
      maximum. */
  lemma BackoffDoubles(attempts: nat, base: real, maximum: real)
    requires attempts >= 1 && ValidRetryPolicy(base, maximum)
    ensures Backoff(1, base, maximum) == base
    ensures Backoff(attempts + 1, base, maximum) ==
            if 2.0 * Backoff(attempts, base, maximum) <= maximum then 2.0 * Backoff(attempts, base, maximum) else maximum
  {
    DoubledIsProduct(base, attempts - 1);
    DoubledIsProduct(base, attempts);
    DoubledGrows(base, 0, attempts - 1);
    assert PowerOfTwo(0) == 1.0;
  }

  /** A job starts from waiting, ends or waits again from running, may be retried after a partial outcome,
      and can be cancelled until it has ended; nothing ever waits for the first time again. */
  lemma TransitionTable(s: JobStatus, t: JobStatus)
    ensures t in Successors(s) <==>
              || (t == Running && (s == Pending || s == Retrying))
              || (t == Retrying && (s == Running || s == Partial))
              || (t in {Partial, Succeeded, Failed} && s == Running)
              || (t == Cancelled && s !in {Succeeded, Failed, Cancelled})
  {
  }
}
