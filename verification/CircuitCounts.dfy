/** When a circuit opens, told from the calls alone: which of them complete a permit first, and how many
    such failures have followed one another (packages/model_client/policies.py:225-282). */
module CircuitCounts {
  import opened Support
  import opened Circuit

  // ---------------------------------------------------------------- read off the steps

  ghost predicate Spent(steps: seq<Step>, p: nat) {
    exists i :: 0 <= i < |steps| && Completes(steps[i], p)
  }

  /** The success of a permit that nothing completed before. */
  ghost predicate NewSuccess(steps: seq<Step>, s: Step) {
    s.Success? && !Spent(steps, s.permit)
  }

  ghost predicate NewFailure(steps: seq<Step>, s: Step) {
    s.Failure? && !Spent(steps, s.permit)
  }

  /** The failures since the last success or reset. */
  ghost function FailuresInRow(steps: seq<Step>): nat {
    if steps == [] then 0
    else
      var k := |steps| - 1;
      var before := FailuresInRow(steps[..k]);
      if steps[k].Reset? || NewSuccess(steps[..k], steps[k]) then 0
      else if NewFailure(steps[..k], steps[k]) then before + 1
      else before
  }

  /** The run ends with the step, which finds the breaker b. */
  ghost predicate EndsWith(cfg: Config, steps: seq<Step>, b: Breaker, s: Step) {
    IsRun(cfg, Fresh, steps) && After(cfg, Fresh, steps) == b && Admissible(b, s)
  }

  lemma {:induction false} RunSplit(cfg: Config, b: Breaker, steps: seq<Step>)
    requires IsRun(cfg, b, steps) && steps != []
    ensures var k := |steps| - 1;
            && IsRun(cfg, b, steps[..k]) && Admissible(After(cfg, b, steps[..k]), steps[k])
            && After(cfg, b, steps) == Apply(cfg, After(cfg, b, steps[..k]), steps[k])
    decreases |steps|
  {
    if |steps| == 1 {
      assert steps[1..] == [];
    } else {
      var rest := steps[1..];
      RunSplit(cfg, Apply(cfg, b, steps[0]), rest);
      assert steps[..|steps| - 1][1..] == rest[..|rest| - 1];
    }
  }

  lemma SpentSnoc(steps: seq<Step>, p: nat)
    requires steps != []
    ensures Spent(steps, p) <==> Spent(steps[..|steps| - 1], p) || Completes(steps[|steps| - 1], p)
  {
    var k := |steps| - 1;
    if Spent(steps[..k], p) {
      var i :| 0 <= i < k && Completes(steps[..k][i], p);
      assert Completes(steps[i], p);
    }
    if Spent(steps, p) && !Completes(steps[k], p) {
      var i :| 0 <= i < |steps| && Completes(steps[i], p);
      assert steps[..k][i] == steps[i];
    }
  }

  /** What the last step does to the permits, whatever else it does. */
  lemma PermitsNext(cfg: Config, b: Breaker, s: Step, p: nat)
    requires Admissible(b, s)
    ensures var e := Apply(cfg, b, s);
            && |b.permits| <= |e.permits|
            && (p < |b.permits| ==> e.permits[p].probe == b.permits[p].probe
                                    && (e.permits[p].completed <==> b.permits[p].completed || Completes(s, p)))
            && (|b.permits| <= p < |e.permits| ==> !e.permits[p].completed && !Completes(s, p))
            && (Completes(s, p) ==> p < |b.permits|)
  {
  }

  /** A permit is completed exactly when a step of the run was its success, failure or cancellation. */
  lemma {:induction false} CompletedIffSpent(cfg: Config, steps: seq<Step>, p: nat)
    requires IsRun(cfg, Fresh, steps)
    ensures var e := After(cfg, Fresh, steps);
            && (p < |e.permits| ==> (e.permits[p].completed <==> Spent(steps, p)))
            && (Spent(steps, p) ==> p < |e.permits|)
    decreases |steps|
  {
    if steps != [] {
      var k := |steps| - 1;
      RunSplit(cfg, Fresh, steps);
      CompletedIffSpent(cfg, steps[..k], p);
      SpentSnoc(steps, p);
      PermitsNext(cfg, After(cfg, Fresh, steps[..k]), steps[k], p);
    }
  }

  // ---------------------------------------------------------------- closed circuits

  lemma ClosedNext(cfg: Config, steps: seq<Step>, b: Breaker, s: Step)
    requires EndsWith(cfg, steps, b, s) && (b.state == Closed ==> b.failures == FailuresInRow(steps))
    ensures var e := Apply(cfg, b, s);
            e.state == Closed ==> e.failures == FailuresInRow(steps + [s])
  {
    assert (steps + [s])[..|steps|] == steps;
    if s.Success? || s.Failure? {
      CompletedIffSpent(cfg, steps, s.permit);
    }
  }

  /** While the circuit is closed its failure count is the number of failures since the last success or
      reset, each counted once and none of them of a permit completed before. */
  lemma {:induction false} ClosedCountsFailures(cfg: Config, steps: seq<Step>)
    requires IsRun(cfg, Fresh, steps)
    ensures var e := After(cfg, Fresh, steps);
            e.state == Closed ==> e.failures == FailuresInRow(steps) < cfg.threshold
    decreases |steps|
  {
    RunKeepsInv(cfg, Fresh, steps);
    if steps != [] {
      var k := |steps| - 1;
      RunSplit(cfg, Fresh, steps);
      ClosedCountsFailures(cfg, steps[..k]);
      ClosedNext(cfg, steps[..k], After(cfg, Fresh, steps[..k]), steps[k]);
      assert steps == steps[..k] + [steps[k]];
    }
  }

  /** A closed circuit opens on a step if and only if that is a new failure, and either of a probe left
      from an earlier window or the one that brings the failures in a row to the threshold. It opens at
      the time of that failure, and nothing else moves it. */
  lemma OpensAtThreshold(cfg: Config, steps: seq<Step>, b: Breaker, s: Step)
    requires EndsWith(cfg, steps, b, s) && b.state == Closed
    ensures var e := Apply(cfg, b, s);
            && (e.state == Open <==>
                  NewFailure(steps, s) && (b.permits[s.permit].probe || FailuresInRow(steps + [s]) >= cfg.threshold))
            && (if e.state == Open then e.openedAt == s.now else e.state == Closed)
  {
    ClosedCountsFailures(cfg, steps);
    assert (steps + [s])[..|steps|] == steps;
    if s.Failure? {
      CompletedIffSpent(cfg, steps, s.permit);
    }
  }

  const Pair: Config := Config(2, 10.0, 1)

  const WithProbeOut := [Acquire(0.0), Acquire(0.0), Failure(0, 0.0), Failure(1, 0.0), Acquire(10.0), Reset]

  const P1 := Breaker(Closed, 0, 0.0, 0, [Out(false)])
  const P2 := Breaker(Closed, 0, 0.0, 0, [Out(false), Out(false)])
  const P3 := Breaker(Closed, 1, 0.0, 0, [Ended(false), Out(false)])
  const P4 := Breaker(Open, 2, 0.0, 0, [Ended(false), Ended(false)])
  const P5 := Breaker(HalfOpen, 2, 0.0, 1, [Ended(false), Ended(false), Out(true)])
  const P6 := Breaker(Closed, 0, 0.0, 0, [Ended(false), Ended(false), Out(true)])

  lemma WithProbeOutSteps()
    ensures Apply(Pair, Fresh, Acquire(0.0)) == P1 && Apply(Pair, P1, Acquire(0.0)) == P2
    ensures Apply(Pair, P2, Failure(0, 0.0)) == P3 && Apply(Pair, P3, Failure(1, 0.0)) == P4
    ensures Apply(Pair, P4, Acquire(10.0)) == P5 && Apply(Pair, P5, Reset) == P6
  {
  }

  /** The run leads from the fresh breaker to b. */
  ghost predicate LeadsTo(cfg: Config, steps: seq<Step>, b: Breaker) {
    IsRun(cfg, Fresh, steps) && After(cfg, Fresh, steps) == b
  }

  lemma LeadsNext(cfg: Config, steps: seq<Step>, k: nat, b: Breaker)
    requires k < |steps| && LeadsTo(cfg, steps[..k], b) && Admissible(b, steps[k])
    ensures LeadsTo(cfg, steps[..k + 1], Apply(cfg, b, steps[k]))
  {
    RunSnoc(cfg, Fresh, steps[..k], steps[k]);
    assert steps[..k] + [steps[k]] == steps[..k + 1];
  }

  /** The threshold is not all there is to it: with a threshold of two, a probe that was still out when the
      circuit was reset opens the closed circuit by its one failure. */
  lemma LateProbeOpensAtOnce()
    ensures EndsWith(Pair, WithProbeOut, P6, Failure(2, 11.0))
    ensures P6.state == Closed && Apply(Pair, P6, Failure(2, 11.0)).state == Open
    ensures FailuresInRow(WithProbeOut + [Failure(2, 11.0)]) == 1 < Pair.threshold
  {
    WithProbeOutSteps();
    var steps := WithProbeOut;
    LeadsNext(Pair, steps, 0, Fresh);
    LeadsNext(Pair, steps, 1, P1);
    LeadsNext(Pair, steps, 2, P2);
    LeadsNext(Pair, steps, 3, P3);
    LeadsNext(Pair, steps, 4, P4);
    LeadsNext(Pair, steps, 5, P5);
    assert steps[..6] == steps;
    var all := steps + [Failure(2, 11.0)];
    assert all[..6] == steps && steps[..5] + [Reset] == steps;
    CompletedIffSpent(Pair, steps, 2);
  }

  // ---------------------------------------------------------------- open and half-open circuits

  /** The failures that were counted since the last success or reset: those of ordinary permits that
      came in while the circuit was not half-open. */
  ghost function FailuresCounted(cfg: Config, steps: seq<Step>): nat
    requires IsRun(cfg, Fresh, steps)
    decreases |steps|
  {
    if steps == [] then 0
    else
      var k := |steps| - 1;
      RunSplit(cfg, Fresh, steps);
      var b, s, before := After(cfg, Fresh, steps[..k]), steps[k], FailuresCounted(cfg, steps[..k]);
      if s.Reset? || NewSuccess(steps[..k], s) then 0
      else if NewFailure(steps[..k], s) && !b.permits[s.permit].probe && b.state != HalfOpen then before + 1
      else before
  }

  /** In every state the failure count is the number of those failures. */
  lemma {:induction false} CountIsFailuresCounted(cfg: Config, steps: seq<Step>)
    requires IsRun(cfg, Fresh, steps)
    ensures After(cfg, Fresh, steps).failures == FailuresCounted(cfg, steps)
    decreases |steps|
  {
    if steps != [] {
      var k := |steps| - 1;
      RunSplit(cfg, Fresh, steps);
      CountIsFailuresCounted(cfg, steps[..k]);
      if steps[k].Success? || steps[k].Failure? {
        CompletedIffSpent(cfg, steps[..k], steps[k].permit);
      }
    }
  }

  ghost predicate Reopens(cfg: Config, steps: seq<Step>, b: Breaker, s: Step)
    requires EndsWith(cfg, steps, b, s)
  {
    NewFailure(steps, s) && (b.permits[s.permit].probe || FailuresCounted(cfg, steps) + 1 >= cfg.threshold)
  }

  /** An open circuit turns half-open on the first acquire after its window, closes on a reset or the new
      success of a probe, and otherwise stays open; its window starts again on the new failure of a probe
      or at the threshold. */
  lemma FromOpen(cfg: Config, steps: seq<Step>, b: Breaker, s: Step)
    requires EndsWith(cfg, steps, b, s) && b.state == Open
    ensures var e := Apply(cfg, b, s);
            && (e.state == HalfOpen <==> s.Acquire? && s.now >= b.openedAt + cfg.duration)
            && (e.state == Closed <==> s.Reset? || (NewSuccess(steps, s) && b.permits[s.permit].probe))
            && (e.state == Open ==> e.openedAt == if Reopens(cfg, steps, b, s) then s.now else b.openedAt)
  {
    CountIsFailuresCounted(cfg, steps);
    if s.Success? || s.Failure? {
      CompletedIffSpent(cfg, steps, s.permit);
    }
  }

  /** A half-open circuit closes on a reset or any new success, and opens again on any new failure. */
  lemma FromHalfOpen(cfg: Config, steps: seq<Step>, b: Breaker, s: Step)
    requires EndsWith(cfg, steps, b, s) && b.state == HalfOpen
    ensures var e := Apply(cfg, b, s);
            && (e.state == Closed <==> s.Reset? || NewSuccess(steps, s))
            && (e.state == Open <==> NewFailure(steps, s))
            && (e.state == Open ==> e.openedAt == s.now)
  {
    if s.Success? || s.Failure? {
      CompletedIffSpent(cfg, steps, s.permit);
    }
  }

  /** A permit is issued by an acquire in a closed circuit, after the window of an open one, or in a
      half-open one below capacity, and by nothing else; it is a probe unless the circuit was closed. */
  lemma IssuesPermit(cfg: Config, b: Breaker, s: Step)
    requires Inv(cfg, b) && Admissible(b, s)
    ensures var e := Apply(cfg, b, s);
            && |b.permits| <= |e.permits| <= |b.permits| + 1
            && (|e.permits| > |b.permits| <==>
                  s.Acquire? && match b.state
                                case Closed => true
                                case Open => s.now >= b.openedAt + cfg.duration
                                case HalfOpen => b.probes < cfg.capacity)
            && (|e.permits| > |b.permits| ==> (e.permits[|b.permits|].probe <==> b.state != Closed))
            && (|e.permits| > |b.permits| && b.state != Closed ==> e.state == HalfOpen && e.probes == b.probes + 1)
  {
  }
}
