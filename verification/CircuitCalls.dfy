/** The breaker object with the permits it hands out, and the retry loop that completes them
    (packages/model_client/policies.py:190-282, apps/model_gateway/gateway.py:270-302). */
module CircuitCalls {
  import opened Support
  import C = Circuit

  class CircuitPermit {
    const probe: bool
    var completed: bool

    constructor (probe: bool)
      ensures this.probe == probe && !completed
    {
      this.probe, completed := probe, false;
    }
  }

  class CircuitBreaker {
    const config: C.Config
    var state: C.State
    var failures: nat
    var openedAt: C.Time
    var probes: nat
    ghost var issued: seq<CircuitPermit>

    ghost predicate Valid()
      reads this
    {
      Distinct(issued)
    }

    ghost function Issued(): seq<C.Permit>
      reads this, issued
    {
      seq(|issued|, i requires 0 <= i < |issued| reads this, issued => C.Permit(issued[i].probe, issued[i].completed))
    }

    ghost function View(): C.Breaker
      reads this, issued
    {
      C.Breaker(state, failures, openedAt, probes, Issued())
    }

    constructor (config: C.Config)
      ensures Valid() && View() == C.Fresh && this.config == config
    {
      this.config := config;
      state, failures, openedAt, probes, issued := C.Closed, 0, 0.0, 0, [];
    }

    /** acquire; null stands for the circuit-open error. */
    method Acquire(now: C.Time) returns (permit: CircuitPermit?)
      requires Valid()
      modifies this
      ensures Valid() && View() == C.Apply(config, old(View()), C.Acquire(now))
      ensures permit != null <==> C.Grants(config, old(View()), now)
      ensures permit != null ==> fresh(permit) && !permit.completed && issued == old(issued) + [permit]
      ensures permit == null ==> issued == old(issued)
    {
      if state == C.Open {
        if now - openedAt < config.duration {
          return null;
        }
        state := C.HalfOpen;
        probes := 0;
      }
      if state == C.HalfOpen {
        if probes >= config.capacity {
          return null;
        }
        probes := probes + 1;
        permit := new CircuitPermit(true);
      } else {
        permit := new CircuitPermit(false);
      }
      issued := issued + [permit];
    }

    method OpenAt(now: C.Time)
      modifies this
      ensures issued == old(issued) && View() == C.Opened(old(View()), now)
    {
      state, openedAt, probes := C.Open, now, 0;
    }

    method Success(permit: CircuitPermit, ghost k: nat)
      requires Valid() && k < |issued| && issued[k] == permit
      modifies this, permit
      ensures Valid() && issued == old(issued) && permit.completed
      ensures View() == C.Apply(config, old(View()), C.Success(k))
    {
      if permit.completed {
        return;
      }
      permit.completed := true;
      if permit.probe || state == C.HalfOpen {
        state, failures, probes := C.Closed, 0, 0;
      } else {
        failures := 0;
      }
      assert Issued() == old(Issued())[k := C.Permit(permit.probe, true)];
    }

    method Failure(permit: CircuitPermit, ghost k: nat, now: C.Time)
      requires Valid() && k < |issued| && issued[k] == permit
      modifies this, permit
      ensures Valid() && issued == old(issued) && permit.completed
      ensures View() == C.Apply(config, old(View()), C.Failure(k, now))
    {
      if permit.completed {
        return;
      }
      permit.completed := true;
      assert Issued() == old(Issued())[k := C.Permit(permit.probe, true)];
      if permit.probe || state == C.HalfOpen {
        OpenAt(now);
        return;
      }
      failures := failures + 1;
      if failures >= config.threshold {
        OpenAt(now);
      }
    }

    method Cancel(permit: CircuitPermit, ghost k: nat)
      requires Valid() && k < |issued| && issued[k] == permit
      modifies this, permit
      ensures Valid() && issued == old(issued) && permit.completed
      ensures View() == C.Apply(config, old(View()), C.Cancel(k))
    {
      if permit.completed {
        return;
      }
      permit.completed := true;
      if permit.probe && probes > 0 {
        probes := probes - 1;
      }
      assert Issued() == old(Issued())[k := C.Permit(permit.probe, true)];
    }

    method Reset()
      requires Valid()
      modifies this
      ensures Valid() && issued == old(issued) && View() == C.Apply(config, old(View()), C.Reset)
    {
      state, failures, probes, openedAt := C.Closed, 0, 0, 0.0;
    }
  }

  // ---------------------------------------------------------------- the retry loop

  /** How one attempt at the provider ends. Reached: the provider was called before that. */
  datatype Operation = Returned | Failed(retryable: bool, reached: bool) | Interrupted(reached: bool)

  /** One attempt: whether the sleep before it was cancelled, what other tasks do to the breaker before
      and during it, and the clock readings. */
  datatype Attempt = Attempt(sleepCancelled: bool, before: seq<C.Step>, at: C.Time, during: seq<C.Step>, operation: Operation, endedAt: C.Time)

  datatype Verdict = Answer | CircuitOpen | Raised | Stopped

  function Completions(trace: seq<C.Step>, p: nat): nat {
    if trace == [] then 0
    else
      var k := |trace| - 1;
      Completions(trace[..k], p) + (if C.Completes(trace[k], p) then 1 else 0)
  }

  /** The trace leads from b0 to b, and touches no permit that was not issued. */
  ghost predicate Leads(cfg: C.Config, b0: C.Breaker, trace: seq<C.Step>, b: C.Breaker) {
    && C.IsRun(cfg, b0, trace) && C.After(cfg, b0, trace) == b
    && |b0.permits| <= |b.permits|
    && forall p: nat :: p >= |b.permits| ==> Completions(trace, p) == 0
  }

  lemma LeadsSnoc(cfg: C.Config, b0: C.Breaker, trace: seq<C.Step>, b: C.Breaker, s: C.Step)
    requires Leads(cfg, b0, trace, b) && C.Admissible(b, s)
    ensures Leads(cfg, b0, trace + [s], C.Apply(cfg, b, s))
  {
    C.RunSnoc(cfg, b0, trace, s);
    forall p: nat | p >= |C.Apply(cfg, b, s).permits| ensures Completions(trace + [s], p) == 0 {
    }
  }

  /** The loop's own permits: each completed, by exactly one step of the trace. */
  ghost predicate Settled(trace: seq<C.Step>, b: C.Breaker, mine: seq<nat>) {
    && Distinct(mine)
    && forall i :: 0 <= i < |mine| ==> mine[i] < |b.permits| && b.permits[mine[i]].completed && Completions(trace, mine[i]) == 1
  }

  /** A step other tasks may take: they hold no permit of the loop. */
  predicate Foreign(b: C.Breaker, mine: seq<nat>, s: C.Step) {
    C.Admissible(b, s) && forall i :: 0 <= i < |mine| ==> !C.Completes(s, mine[i])
  }

  /** The steps other tasks take, of those offered; held is the permit the loop holds, if any. */
  method OtherTasks(cfg: C.Config, b0: C.Breaker, ghost before: seq<C.Step>, b: C.Breaker, mine: seq<nat>, held: Option<nat>, steps: seq<C.Step>)
    returns (now: C.Breaker, ghost trace: seq<C.Step>)
    requires Leads(cfg, b0, before, b) && Settled(before, b, mine)
    requires held.Some? ==> held.value < |b.permits| && Completions(before, held.value) == 0
    ensures Leads(cfg, b0, trace, now) && Settled(trace, now, mine) && |b.permits| <= |now.permits| && before <= trace
    ensures held.Some? ==> Completions(trace, held.value) == 0
  {
    now, trace := b, before;
    for i := 0 to |steps|
      invariant Leads(cfg, b0, trace, now) && Settled(trace, now, mine) && |b.permits| <= |now.permits| && before <= trace
      invariant held.Some? ==> Completions(trace, held.value) == 0
    {
      var s := steps[i];
      if Foreign(now, mine, s) && (held.Some? ==> !C.Completes(s, held.value)) {
        LeadsSnoc(cfg, b0, trace, now, s);
        now := C.Apply(cfg, now, s);
        trace := trace + [s];
      }
    }
  }

  /** The step says of permit p how the attempt ended: a success if it returned, a failure at its end if
      it failed, a cancellation if it was interrupted. */
  predicate Reports(s: C.Step, p: nat, a: Attempt) {
    match s
    case Success(q) => q == p && a.operation.Returned?
    case Failure(q, now) => q == p && a.operation.Failed? && now == a.endedAt
    case Cancel(q) => q == p && a.operation.Interrupted?
    case _ => false
  }

  /** Each of the permits is reported by a step of the trace as its own attempt ended, after an acquire at
      the time of that attempt. */
  ghost predicate AllReported(trace: seq<C.Step>, mine: seq<nat>, attempts: seq<Attempt>)
    requires |mine| <= |attempts|
  {
    forall i :: 0 <= i < |mine| ==> ReportedIn(trace, mine[i], attempts[i])
  }

  ghost predicate ReportedIn(trace: seq<C.Step>, p: nat, a: Attempt) {
    exists j, k :: 0 <= j < k < |trace| && trace[j] == C.Acquire(a.at) && Reports(trace[k], p, a)
  }

  lemma ReportedStays(trace: seq<C.Step>, more: seq<C.Step>, mine: seq<nat>, attempts: seq<Attempt>)
    requires |mine| <= |attempts| && trace <= more && AllReported(trace, mine, attempts)
    ensures AllReported(more, mine, attempts)
  {
    forall i | 0 <= i < |mine| ensures ReportedIn(more, mine[i], attempts[i]) {
      assert ReportedIn(trace, mine[i], attempts[i]);
      var j, k :| 0 <= j < k < |trace| && trace[j] == C.Acquire(attempts[i].at) && Reports(trace[k], mine[i], attempts[i]);
      assert more[j] == trace[j] && Reports(more[k], mine[i], attempts[i]);
    }
  }

  lemma ReportedMore(trace: seq<C.Step>, s: C.Step, mine: seq<nat>, p: nat, attempts: seq<Attempt>)
    requires |mine| < |attempts| && AllReported(trace, mine, attempts) && Reports(s, p, attempts[|mine|])
    requires C.Acquire(attempts[|mine|].at) in trace
    ensures AllReported(trace + [s], mine + [p], attempts)
  {
    ReportedStays(trace, trace + [s], mine, attempts);
    var j :| 0 <= j < |trace| && trace[j] == C.Acquire(attempts[|mine|].at);
    assert (trace + [s])[j] == trace[j] && Reports((trace + [s])[|trace|], p, attempts[|mine|]);
    forall i | 0 <= i < |mine| + 1 ensures ReportedIn(trace + [s], (mine + [p])[i], attempts[i]) {
      if i < |mine| {
        assert (mine + [p])[i] == mine[i] && ReportedIn(trace + [s], mine[i], attempts[i]);
      }
    }
  }

  /** How many of the attempts reached the provider: those that returned always do. */
  function Calls(attempts: seq<Attempt>): nat {
    if attempts == [] then 0
    else
      var k := |attempts| - 1;
      Calls(attempts[..k]) + (if attempts[k].operation.Returned? || attempts[k].operation.reached then 1 else 0)
  }

  lemma CallsNext(attempts: seq<Attempt>, n: nat)
    requires n < |attempts|
    ensures var o := attempts[n].operation;
            Calls(attempts[..n + 1]) == Calls(attempts[..n]) + (if o.Returned? || o.reached then 1 else 0)
  {
    assert attempts[..n + 1][..n] == attempts[..n];
  }

  predicate CanRetry(a: Attempt) {
    a.operation.Failed? && a.operation.retryable
  }

  /** The step that completes the permit after an attempt. */
  function Completion(o: Operation, p: nat, now: C.Time): C.Step {
    match o
    case Returned => C.Success(p)
    case Failed(_, _) => C.Failure(p, now)
    case Interrupted(_) => C.Cancel(p)
  }

  predicate Reached(o: Operation) {
    match o
    case Returned => true
    case Failed(_, reached) => reached
    case Interrupted(reached) => reached
  }

  lemma SettledMore(cfg: C.Config, trace: seq<C.Step>, b: C.Breaker, mine: seq<nat>, p: nat, s: C.Step)
    requires Settled(trace, b, mine) && p < |b.permits| && p !in mine && Completions(trace, p) == 0
    requires C.Completes(s, p) && C.Admissible(b, s)
    ensures Settled(trace + [s], C.Apply(cfg, b, s), mine + [p])
  {
    var e, more := C.Apply(cfg, b, s), mine + [p];
    assert (trace + [s])[..|trace|] == trace;
    forall i | 0 <= i < |more|
      ensures more[i] < |e.permits| && e.permits[more[i]].completed && Completions(trace + [s], more[i]) == 1
    {
      if i < |mine| {
        assert more[i] == mine[i] && !C.Completes(s, mine[i]);
      } else {
        assert more[i] == p;
      }
    }
  }

  lemma Nothing(cfg: C.Config, b0: C.Breaker, attempts: seq<Attempt>)
    ensures Leads(cfg, b0, [], b0) && Settled([], b0, []) && AllReported([], [], attempts) && Calls(attempts[..0]) == 0
  {
  }

  /** _invoke_with_resilience: whatever the other tasks do, every permit the loop acquires is completed by
      exactly one step, which reports how the attempt that held it ended; all attempts before the last
      failed and could be retried; and the verdict says why there was no other. */
  method InvokeWithResilience(cfg: C.Config, b0: C.Breaker, attempts: seq<Attempt>, maxAttempts: nat)
    returns (b: C.Breaker, verdict: Verdict, calls: nat, retries: nat, mine: seq<nat>, ghost trace: seq<C.Step>)
    requires 1 <= maxAttempts <= |attempts|
    ensures Leads(cfg, b0, trace, b) && Settled(trace, b, mine)
    ensures |mine| <= maxAttempts && AllReported(trace, mine, attempts)
    ensures calls == Calls(attempts[..|mine|])
    ensures forall i :: 0 <= i < |mine| ==> mine[i] >= |b0.permits|
    ensures forall i :: 0 <= i < |mine| - 1 ==> CanRetry(attempts[i])
    ensures verdict == Answer <==> mine != [] && attempts[|mine| - 1].operation.Returned?
    ensures verdict == Raised <==>
              mine != [] && attempts[|mine| - 1].operation.Failed? && (!attempts[|mine| - 1].operation.retryable || |mine| == maxAttempts)
    ensures verdict == Stopped <==>
              mine != [] && (attempts[|mine| - 1].operation.Interrupted?
                             || (CanRetry(attempts[|mine| - 1]) && |mine| < maxAttempts && attempts[|mine|].sleepCancelled))
    ensures verdict == CircuitOpen <==>
              |mine| < maxAttempts && (mine != [] ==> CanRetry(attempts[|mine| - 1]) && !attempts[|mine|].sleepCancelled)
    ensures verdict == CircuitOpen ==> !C.Grants(cfg, b, attempts[|mine|].at)
    ensures verdict == Answer ==> trace != [] && trace[|trace| - 1] == C.Success(mine[|mine| - 1])
    ensures retries == if verdict == Answer || verdict == Raised || (verdict == Stopped && attempts[|mine| - 1].operation.Interrupted?)
                       then |mine| - 1 else |mine|
  {
    hide Leads, Settled, ReportedIn, Calls;
    b, calls, retries, mine, trace := b0, 0, 0, [], [];
    Nothing(cfg, b0, attempts);
    for attempt := 1 to maxAttempts + 1
      invariant attempt <= maxAttempts
      invariant |mine| == retries == attempt - 1
      invariant Leads(cfg, b0, trace, b) && Settled(trace, b, mine) && AllReported(trace, mine, attempts)
      invariant calls == Calls(attempts[..|mine|])
      invariant forall i :: 0 <= i < |mine| ==> mine[i] >= |b0.permits| && CanRetry(attempts[i])
    {
      var a := attempts[attempt - 1];
      if attempt > 1 && a.sleepCancelled {
        verdict := Stopped;
        return;
      }
      ghost var was := trace;
      b, trace := OtherTasks(cfg, b0, trace, b, mine, None, a.before);
      ReportedStays(was, trace, mine, attempts);
      if !C.Grants(cfg, b, a.at) {
        verdict := CircuitOpen;
        return;
      }
      b, mine, trace := Attempted(cfg, b0, b, mine, a, attempts, trace);
      CallsNext(attempts, attempt - 1);
      if Reached(a.operation) {
        calls := calls + 1;
      }
      if a.operation.Returned? {
        verdict := Answer;
        return;
      }
      if a.operation.Interrupted? {
        verdict := Stopped;
        return;
      }
      if !a.operation.retryable || attempt >= maxAttempts {
        verdict := Raised;
        return;
      }
      retries := retries + 1;
    }
    assert false;
  }

  /** One attempt that was granted a permit: acquire, call, complete. */
  method Attempted(cfg: C.Config, b0: C.Breaker, b1: C.Breaker, mine1: seq<nat>, a: Attempt, ghost attempts: seq<Attempt>,
                   ghost before: seq<C.Step>)
    returns (b: C.Breaker, mine: seq<nat>, ghost trace: seq<C.Step>)
    requires Leads(cfg, b0, before, b1) && Settled(before, b1, mine1) && C.Grants(cfg, b1, a.at)
    requires |mine1| < |attempts| && attempts[|mine1|] == a && AllReported(before, mine1, attempts)
    ensures Leads(cfg, b0, trace, b) && Settled(trace, b, mine)
    ensures mine == mine1 + [|b1.permits|] && AllReported(trace, mine, attempts)
    ensures trace != [] && Reports(trace[|trace| - 1], |b1.permits|, a)
  {
    hide ReportedIn;
    var p := |b1.permits|;
    LeadsSnoc(cfg, b0, before, b1, C.Acquire(a.at));
    ghost var acquired := before + [C.Acquire(a.at)];
    b, trace := OtherTasks(cfg, b0, acquired, C.Granted(b1), mine1, Some(p), a.during);
    var end := Completion(a.operation, p, a.endedAt);
    LeadsSnoc(cfg, b0, trace, b, end);
    SettledMore(cfg, trace, b, mine1, p, end);
    ReportedStays(before, trace, mine1, attempts);
    assert trace[|before|] == acquired[|before|] == C.Acquire(a.at);
    ReportedMore(trace, end, mine1, p, attempts);
    b, trace, mine := C.Apply(cfg, b, end), trace + [end], mine1 + [p];
  }
}
