/** The circuit breaker of a model provider as a state machine over its calls, late ones included
    (packages/model_client/policies.py:190-282). */
module Circuit {
  import opened Support

  type Time = real

  datatype State = Closed | Open | HalfOpen

  /** What the constructor accepts. */
  datatype RawConfig = Config(threshold: nat, duration: Time, capacity: nat)
  type Config = c: RawConfig | c.threshold >= 1 && c.duration >= 0.0 && c.capacity >= 1 witness Config(3, 30.0, 1)

  datatype Permit = Permit(probe: bool, completed: bool)

  /** The breaker and every permit it has issued, by order of issue. */
  datatype Breaker = Breaker(state: State, failures: nat, openedAt: Time, probes: nat, permits: seq<Permit>)

  const Fresh := Breaker(Closed, 0, 0.0, 0, [])

  datatype Step = Acquire(now: Time) | Success(permit: nat) | Failure(permit: nat, now: Time) | Cancel(permit: nat) | Reset

  predicate Admissible(b: Breaker, s: Step) {
    match s
    case Acquire(_) => true
    case Success(p) => p < |b.permits|
    case Failure(p, _) => p < |b.permits|
    case Cancel(p) => p < |b.permits|
    case Reset => true
  }

  function Opened(b: Breaker, now: Time): Breaker {
    b.(state := Open, openedAt := now, probes := 0)
  }

  function Done(b: Breaker, p: nat): Breaker
    requires p < |b.permits|
  {
    b.(permits := b.permits[p := b.permits[p].(completed := true)])
  }

  /** The window of an open circuit has not ended yet. */
  predicate Waits(cfg: Config, b: Breaker, now: Time) {
    b.state == Open && now - b.openedAt < cfg.duration
  }

  predicate Grants(cfg: Config, b: Breaker, now: Time) {
    match b.state
    case Closed => true
    case Open => !Waits(cfg, b, now)
    case HalfOpen => b.probes < cfg.capacity
  }

  function Granted(b: Breaker): Breaker {
    match b.state
    case Closed => b.(permits := b.permits + [Permit(false, false)])
    case Open => b.(state := HalfOpen, probes := 1, permits := b.permits + [Permit(true, false)])
    case HalfOpen => b.(probes := b.probes + 1, permits := b.permits + [Permit(true, false)])
  }

  function Succeeded(b: Breaker, p: nat): Breaker
    requires p < |b.permits|
  {
    if b.permits[p].completed then b
    else if b.permits[p].probe || b.state == HalfOpen then Done(b, p).(state := Closed, failures := 0, probes := 0)
    else Done(b, p).(failures := 0)
  }

  function Failed(cfg: Config, b: Breaker, p: nat, now: Time): Breaker
    requires p < |b.permits|
  {
    if b.permits[p].completed then b
    else if b.permits[p].probe || b.state == HalfOpen then Opened(Done(b, p), now)
    else
      var counted := Done(b, p).(failures := b.failures + 1);
      if counted.failures >= cfg.threshold then Opened(counted, now) else counted
  }

  function Cancelled(b: Breaker, p: nat): Breaker
    requires p < |b.permits|
  {
    if b.permits[p].completed then b
    else if b.permits[p].probe && b.probes > 0 then Done(b, p).(probes := b.probes - 1)
    else Done(b, p)
  }

  function Apply(cfg: Config, b: Breaker, s: Step): Breaker
    requires Admissible(b, s)
  {
    match s
    case Acquire(now) => if Grants(cfg, b, now) then Granted(b) else b
    case Success(p) => Succeeded(b, p)
    case Failure(p, now) => Failed(cfg, b, p, now)
    case Cancel(p) => Cancelled(b, p)
    case Reset => Breaker(Closed, 0, 0.0, 0, b.permits)
  }

  // ---------------------------------------------------------------- invariant

  function LiveProbes(permits: seq<Permit>): nat {
    if permits == [] then 0
    else
      var k := |permits| - 1;
      LiveProbes(permits[..k]) + (if permits[k].probe && !permits[k].completed then 1 else 0)
  }

  ghost predicate Inv(cfg: Config, b: Breaker) {
    && b.probes <= cfg.capacity
    && (b.state != HalfOpen ==> b.probes == 0)
    && b.probes <= LiveProbes(b.permits)
    && (b.state == Closed ==> b.failures < cfg.threshold)
  }

  lemma {:induction false} DoneProbes(permits: seq<Permit>, p: nat)
    requires p < |permits|
    ensures LiveProbes(permits[p := permits[p].(completed := true)])
            == LiveProbes(permits) - (if permits[p].probe && !permits[p].completed then 1 else 0)
  {
    var k := |permits| - 1;
    var after := permits[p := permits[p].(completed := true)];
    if p < k {
      DoneProbes(permits[..k], p);
      assert after[..k] == permits[..k][p := permits[p].(completed := true)];
    } else {
      assert after[..k] == permits[..k];
    }
  }

  lemma StepKeepsInv(cfg: Config, b: Breaker, s: Step)
    requires Inv(cfg, b) && Admissible(b, s)
    ensures Inv(cfg, Apply(cfg, b, s))
  {
    match s {
      case Acquire(now) =>
      case Success(p) =>
        DoneProbes(b.permits, p);
      case Failure(p, now) =>
        DoneProbes(b.permits, p);
      case Cancel(p) =>
        DoneProbes(b.permits, p);
      case Reset =>
    }
  }

  // ---------------------------------------------------------------- whole runs

  ghost predicate IsRun(cfg: Config, b: Breaker, steps: seq<Step>)
    decreases |steps|
  {
    steps != [] ==> Admissible(b, steps[0]) && IsRun(cfg, Apply(cfg, b, steps[0]), steps[1..])
  }

  ghost function After(cfg: Config, b: Breaker, steps: seq<Step>): Breaker
    requires IsRun(cfg, b, steps)
    decreases |steps|
  {
    if steps == [] then b else After(cfg, Apply(cfg, b, steps[0]), steps[1..])
  }

  /** The step that may complete a permit. */
  predicate Completes(s: Step, p: nat) {
    match s
    case Success(q) => q == p
    case Failure(q, _) => q == p
    case Cancel(q) => q == p
    case _ => false
  }

  lemma {:induction false} RunSnoc(cfg: Config, b: Breaker, steps: seq<Step>, s: Step)
    requires IsRun(cfg, b, steps) && Admissible(After(cfg, b, steps), s)
    ensures IsRun(cfg, b, steps + [s]) && After(cfg, b, steps + [s]) == Apply(cfg, After(cfg, b, steps), s)
    decreases |steps|
  {
    if steps == [] {
      assert ([] + [s])[1..] == [] && ([] + [s])[0] == s;
    } else {
      RunSnoc(cfg, Apply(cfg, b, steps[0]), steps[1..], s);
      assert (steps + [s])[1..] == steps[1..] + [s];
    }
  }

  /** Over every run, late completions included: the probe count stays within capacity, is zero outside
      HALF_OPEN and never exceeds the uncompleted probes; a closed circuit is below its threshold; and a
      half-open circuit that rejects has a live probe. */
  lemma {:induction false} RunKeepsInv(cfg: Config, b: Breaker, steps: seq<Step>)
    requires Inv(cfg, b) && IsRun(cfg, b, steps)
    ensures var e := After(cfg, b, steps);
            Inv(cfg, e) && (e.state == HalfOpen && !Grants(cfg, e, 0.0) ==> LiveProbes(e.permits) > 0)
    decreases |steps|
  {
    if steps != [] {
      StepKeepsInv(cfg, b, steps[0]);
      RunKeepsInv(cfg, Apply(cfg, b, steps[0]), steps[1..]);
    }
  }

  // ---------------------------------------------------------------- how an open window can be cut short

  /** The two ways out of an open circuit other than waiting: a reset, or the success of a probe that was
      still out when the circuit opened again. */
  predicate Escapes(b: Breaker, s: Step) {
    match s
    case Reset => true
    case Success(p) => p < |b.permits| && b.permits[p].probe && !b.permits[p].completed
    case _ => false
  }

  /** The step happens within the window of an open circuit: it acquires before the window ends, or
      reads a clock that has not gone back. */
  predicate Within(cfg: Config, since: Time, s: Step) {
    match s
    case Acquire(now) => now - since < cfg.duration
    case Failure(_, now) => now >= since
    case _ => true
  }

  lemma LeavesOpenIffEscapes(cfg: Config, b: Breaker, s: Step, since: Time)
    requires b.state == Open && b.openedAt >= since && Admissible(b, s) && Within(cfg, since, s)
    ensures var e := Apply(cfg, b, s);
            && (e.state == Open <==> !Escapes(b, s))
            && (e.state == Open ==> e.openedAt >= since)
            && (s.Acquire? ==> e == b)
            && (Escapes(b, s) ==> e.state == Closed && forall now :: Grants(cfg, e, now))
  {
  }

  /** Every circuit of the run is open. */
  ghost predicate StaysOpen(cfg: Config, b: Breaker, steps: seq<Step>)
    requires IsRun(cfg, b, steps)
    decreases |steps|
  {
    b.state == Open && (steps != [] ==> StaysOpen(cfg, Apply(cfg, b, steps[0]), steps[1..]))
  }

  ghost predicate NoEscape(cfg: Config, b: Breaker, steps: seq<Step>)
    requires IsRun(cfg, b, steps)
    decreases |steps|
  {
    steps != [] ==> !Escapes(b, steps[0]) && NoEscape(cfg, Apply(cfg, b, steps[0]), steps[1..])
  }

  /** At every point of the run an acquire before the window's end would be refused. */
  ghost predicate Refuses(cfg: Config, b: Breaker, steps: seq<Step>, since: Time)
    requires IsRun(cfg, b, steps)
    decreases |steps|
  {
    && (forall now :: now - since < cfg.duration ==> !Grants(cfg, b, now))
    && (steps != [] ==> Refuses(cfg, Apply(cfg, b, steps[0]), steps[1..], since))
  }

  /** No permit can be had before the window of an open circuit ends, if and only if there is neither a
      reset nor a late probe success in the meantime. */
  lemma {:induction false} OpenUntilEscape(cfg: Config, b: Breaker, steps: seq<Step>, since: Time)
    requires b.state == Open && b.openedAt >= since && IsRun(cfg, b, steps)
    requires forall i :: 0 <= i < |steps| ==> Within(cfg, since, steps[i])
    ensures StaysOpen(cfg, b, steps) <==> NoEscape(cfg, b, steps)
    ensures Refuses(cfg, b, steps, since) <==> NoEscape(cfg, b, steps)
    ensures NoEscape(cfg, b, steps) ==> |After(cfg, b, steps).permits| == |b.permits|
    decreases |steps|
  {
    if steps != [] {
      LeavesOpenIffEscapes(cfg, b, steps[0], since);
      if !Escapes(b, steps[0]) {
        OpenUntilEscape(cfg, Apply(cfg, b, steps[0]), steps[1..], since);
      } else {
        assert Grants(cfg, Apply(cfg, b, steps[0]), since + cfg.duration - 1.0);
      }
    }
  }

  function Out(probe: bool): Permit {
    Permit(probe, false)
  }

  function Ended(probe: bool): Permit {
    Permit(probe, true)
  }

  lemma Prepend(cfg: Config, b: Breaker, s: Step, rest: seq<Step>)
    requires Admissible(b, s) && IsRun(cfg, Apply(cfg, b, s), rest)
    ensures IsRun(cfg, b, [s] + rest) && After(cfg, b, [s] + rest) == After(cfg, Apply(cfg, b, s), rest)
  {
    assert ([s] + rest)[1..] == rest;
  }

  /** Threshold and capacity one, and a window of ten. */
  const Small: Config := Config(1, 10.0, 1)

  /** Two calls start while the circuit is closed; the first fails and opens it, a probe goes out at 10,
      and the second call's late failure opens the circuit again at 11 with the probe still out. */
  const LateOpening := [Acquire(0.0), Acquire(0.0), Failure(0, 0.0), Acquire(10.0), Failure(1, 11.0)]

  const AfterLateOpening := Breaker(Open, 1, 11.0, 0, [Ended(false), Ended(false), Out(true)])

  const Late1 := Breaker(Closed, 0, 0.0, 0, [Out(false)])
  const Late2 := Breaker(Closed, 0, 0.0, 0, [Out(false), Out(false)])
  const Late3 := Breaker(Open, 1, 0.0, 0, [Ended(false), Out(false)])
  const Late4 := Breaker(HalfOpen, 1, 0.0, 1, [Ended(false), Out(false), Out(true)])

  lemma LateOpeningSteps()
    ensures Apply(Small, Fresh, Acquire(0.0)) == Late1 && Apply(Small, Late1, Acquire(0.0)) == Late2
    ensures Apply(Small, Late2, Failure(0, 0.0)) == Late3 && Apply(Small, Late3, Acquire(10.0)) == Late4
    ensures Apply(Small, Late4, Failure(1, 11.0)) == AfterLateOpening
  {
  }

  lemma LateOpeningThen(s: Step)
    requires Admissible(AfterLateOpening, s)
    ensures IsRun(Small, Fresh, LateOpening + [s])
    ensures After(Small, Fresh, LateOpening + [s]) == Apply(Small, AfterLateOpening, s)
  {
    LateOpeningSteps();
    Prepend(Small, AfterLateOpening, s, []);
    Prepend(Small, Late4, LateOpening[4], [s]);
    assert [LateOpening[4]] + [s] == LateOpening[4..] + [s];
    Prepend(Small, Late3, LateOpening[3], LateOpening[4..] + [s]);
    assert [LateOpening[3]] + (LateOpening[4..] + [s]) == LateOpening[3..] + [s];
    Prepend(Small, Late2, LateOpening[2], LateOpening[3..] + [s]);
    assert [LateOpening[2]] + (LateOpening[3..] + [s]) == LateOpening[2..] + [s];
    Prepend(Small, Late1, LateOpening[1], LateOpening[2..] + [s]);
    assert [LateOpening[1]] + (LateOpening[2..] + [s]) == LateOpening[1..] + [s];
    Prepend(Small, Fresh, LateOpening[0], LateOpening[1..] + [s]);
    assert [LateOpening[0]] + (LateOpening[1..] + [s]) == LateOpening + [s];
  }

  /** A late probe success ends an open window at once: this one opened at 11 and should last until 21,
      yet a permit is granted at 12. */
  lemma LateProbeEndsWindow()
    ensures var steps := LateOpening + [Success(2)];
            IsRun(Small, Fresh, steps)
            && var e := After(Small, Fresh, steps);
               e.openedAt == 11.0 && 12.0 - e.openedAt < Small.duration && Grants(Small, e, 12.0)
  {
    LateOpeningThen(Success(2));
  }

  // ---------------------------------------------------------------- probes in flight

  /** The window opens again while a probe of an earlier one is still out. */
  predicate ReopensOverProbe(cfg: Config, b: Breaker, s: Step) {
    s.Acquire? && b.state == Open && Grants(cfg, b, s.now) && LiveProbes(b.permits) > 0
  }

  ghost predicate CleanReopens(cfg: Config, b: Breaker, steps: seq<Step>)
    requires IsRun(cfg, b, steps)
    decreases |steps|
  {
    steps != [] ==> !ReopensOverProbe(cfg, b, steps[0]) && CleanReopens(cfg, Apply(cfg, b, steps[0]), steps[1..])
  }

  predicate CountsProbes(b: Breaker) {
    b.state == HalfOpen ==> LiveProbes(b.permits) == b.probes
  }

  predicate Bounds(cfg: Config, b: Breaker) {
    b.state == HalfOpen ==> LiveProbes(b.permits) <= cfg.capacity
  }

  /** In every half-open circuit of the run the probe count is the number of probes in flight. */
  ghost predicate CountsThroughout(cfg: Config, b: Breaker, steps: seq<Step>)
    requires IsRun(cfg, b, steps)
    decreases |steps|
  {
    CountsProbes(b) && (steps != [] ==> CountsThroughout(cfg, Apply(cfg, b, steps[0]), steps[1..]))
  }

  /** In every half-open circuit of the run the probes in flight are within capacity. */
  ghost predicate BoundsThroughout(cfg: Config, b: Breaker, steps: seq<Step>)
    requires IsRun(cfg, b, steps)
    decreases |steps|
  {
    Bounds(cfg, b) && (steps != [] ==> BoundsThroughout(cfg, Apply(cfg, b, steps[0]), steps[1..]))
  }

  lemma LiveSnoc(permits: seq<Permit>, p: Permit)
    ensures LiveProbes(permits + [p]) == LiveProbes(permits) + (if p.probe && !p.completed then 1 else 0)
  {
    assert (permits + [p])[..|permits|] == permits;
  }

  lemma CountStep(cfg: Config, b: Breaker, s: Step)
    requires Inv(cfg, b) && Admissible(b, s) && CountsProbes(b)
    ensures var e := Apply(cfg, b, s);
            && (CountsProbes(e) <==> !ReopensOverProbe(cfg, b, s))
            && (ReopensOverProbe(cfg, b, s) ==> e.state == HalfOpen && LiveProbes(e.permits) > 1)
  {
    match s {
      case Acquire(now) =>
        LiveSnoc(b.permits, Permit(b.state != Closed, false));
      case Success(p) =>
        DoneProbes(b.permits, p);
      case Failure(p, now) =>
        DoneProbes(b.permits, p);
      case Cancel(p) =>
        DoneProbes(b.permits, p);
      case Reset =>
    }
  }

  /** The probe count of a half-open circuit is the number of probes in flight, over a whole run, if and
      only if no window opens again over a probe that is still out. Then those in flight stay within
      capacity; and at capacity one they do only then. */
  lemma {:induction false} CapacityBoundsProbes(cfg: Config, b: Breaker, steps: seq<Step>)
    requires Inv(cfg, b) && CountsProbes(b) && IsRun(cfg, b, steps)
    ensures CountsThroughout(cfg, b, steps) <==> CleanReopens(cfg, b, steps)
    ensures CleanReopens(cfg, b, steps) ==> BoundsThroughout(cfg, b, steps)
    ensures cfg.capacity == 1 ==> (BoundsThroughout(cfg, b, steps) <==> CleanReopens(cfg, b, steps))
    decreases |steps|
  {
    if steps != [] {
      StepKeepsInv(cfg, b, steps[0]);
      CountStep(cfg, b, steps[0]);
      var e := Apply(cfg, b, steps[0]);
      if ReopensOverProbe(cfg, b, steps[0]) {
        assert !CountsThroughout(cfg, e, steps[1..]);
        assert cfg.capacity == 1 ==> !BoundsThroughout(cfg, e, steps[1..]);
      } else {
        CapacityBoundsProbes(cfg, e, steps[1..]);
      }
    }
  }

  const AfterSecondProbe := Breaker(HalfOpen, 1, 11.0, 1, [Ended(false), Ended(false), Out(true), Out(true)])

  /** Nothing is cancelled in this run: the window of 11 opens again at 21 over the probe of 10, and with
      capacity one two probes are in flight. */
  lemma ReopeningAdmitsSecondProbe()
    ensures var steps := LateOpening + [Acquire(21.0)];
            && IsRun(Small, Fresh, steps) && After(Small, Fresh, steps) == AfterSecondProbe
            && (forall i :: 0 <= i < |steps| ==> !steps[i].Cancel?)
    ensures LiveProbes(AfterSecondProbe.permits) == 2 > Small.capacity
  {
    LateOpeningThen(Acquire(21.0));
    assert Apply(Small, AfterLateOpening, Acquire(21.0)) == AfterSecondProbe;
    var none := [Ended(false), Ended(false)];
    LiveSnoc([Ended(false)], Ended(false));
    LiveSnoc(none, Out(true));
    LiveSnoc(none + [Out(true)], Out(true));
    assert [Ended(false)] + [Ended(false)] == none;
    assert none + [Out(true)] + [Out(true)] == AfterSecondProbe.permits;
  }

  // ---------------------------------------------------------------- probes by window

  /** Which half-open window each permit belongs to, and how many slots of the current window were freed
      by cancelling probes of earlier windows. */
  datatype Ledger = Ledger(window: nat, windows: seq<nat>, freed: int)

  function NotedCancel(b: Breaker, l: Ledger, p: nat): Ledger
    requires p < |b.permits| == |l.windows|
  {
    if b.state != HalfOpen || b.permits[p].completed || !b.permits[p].probe then l
    else if l.windows[p] != l.window && b.probes > 0 then l.(freed := l.freed + 1)
    else if l.windows[p] == l.window && b.probes == 0 then l.(freed := l.freed - 1)
    else l
  }

  function Noted(cfg: Config, b: Breaker, l: Ledger, s: Step): (r: Ledger)
    requires Admissible(b, s) && |l.windows| == |b.permits|
    ensures |r.windows| == |Apply(cfg, b, s).permits|
  {
    match s
    case Acquire(now) =>
      if !Grants(cfg, b, now) then l
      else if b.state == Open then Ledger(l.window + 1, l.windows + [l.window + 1], 0)
      else l.(windows := l.windows + [l.window])
    case Cancel(p) => NotedCancel(b, l, p)
    case _ => l
  }

  /** The uncompleted probes of one window. */
  function LiveIn(permits: seq<Permit>, windows: seq<nat>, w: nat): nat
    requires |windows| == |permits|
  {
    if permits == [] then 0
    else
      var k := |permits| - 1;
      LiveIn(permits[..k], windows[..k], w) + (if permits[k].probe && !permits[k].completed && windows[k] == w then 1 else 0)
  }

  /** The uncompleted probes of the windows before one. */
  function LiveBefore(permits: seq<Permit>, windows: seq<nat>, w: nat): nat
    requires |windows| == |permits|
  {
    if permits == [] then 0
    else
      var k := |permits| - 1;
      LiveBefore(permits[..k], windows[..k], w) + (if permits[k].probe && !permits[k].completed && windows[k] < w then 1 else 0)
  }

  ghost predicate Accounts(b: Breaker, l: Ledger) {
    && |l.windows| == |b.permits|
    && (forall i :: 0 <= i < |l.windows| ==> l.windows[i] <= l.window)
    && (b.state == HalfOpen ==> l.freed >= 0 && LiveIn(b.permits, l.windows, l.window) == b.probes + l.freed)
  }

  lemma {:induction false} LiveSplits(permits: seq<Permit>, windows: seq<nat>, w: nat)
    requires |permits| == |windows| && forall i :: 0 <= i < |windows| ==> windows[i] <= w
    ensures LiveProbes(permits) == LiveIn(permits, windows, w) + LiveBefore(permits, windows, w)
  {
    if permits != [] {
      LiveSplits(permits[..|permits| - 1], windows[..|windows| - 1], w);
    }
  }

  lemma {:induction false} DoneLive(permits: seq<Permit>, windows: seq<nat>, w: nat, p: nat)
    requires p < |permits| == |windows|
    ensures LiveIn(permits[p := permits[p].(completed := true)], windows, w)
            == LiveIn(permits, windows, w) - (if permits[p].probe && !permits[p].completed && windows[p] == w then 1 else 0)
  {
    var k := |permits| - 1;
    var after := permits[p := permits[p].(completed := true)];
    if p < k {
      DoneLive(permits[..k], windows[..k], w, p);
      assert after[..k] == permits[..k][p := permits[p].(completed := true)];
    } else {
      assert after[..k] == permits[..k];
    }
  }

  lemma {:induction false} NoneLive(permits: seq<Permit>, windows: seq<nat>, w: nat)
    requires |permits| == |windows| && forall i :: 0 <= i < |windows| ==> windows[i] < w
    ensures LiveIn(permits, windows, w) == 0
  {
    if permits != [] {
      NoneLive(permits[..|permits| - 1], windows[..|windows| - 1], w);
    }
  }

  lemma SuccessKeepsAccounts(b: Breaker, l: Ledger, p: nat)
    requires Accounts(b, l) && p < |b.permits|
    ensures Accounts(Succeeded(b, p), l)
  {
  }

  lemma FailureKeepsAccounts(cfg: Config, b: Breaker, l: Ledger, p: nat, now: Time)
    requires Accounts(b, l) && p < |b.permits|
    ensures Accounts(Failed(cfg, b, p, now), l)
  {
  }

  lemma CancelKeepsAccounts(b: Breaker, l: Ledger, p: nat)
    requires Accounts(b, l) && p < |b.permits|
    ensures Accounts(Cancelled(b, p), NotedCancel(b, l, p))
  {
    DoneLive(b.permits, l.windows, l.window, p);
  }

  lemma IssueKeepsAccounts(b: Breaker, l: Ledger, w: nat)
    requires Accounts(b, l) && (if b.state == Open then w == l.window + 1 else w == l.window)
    ensures Accounts(Granted(b), Ledger(w, l.windows + [w], if b.state == Open then 0 else l.freed))
  {
    var p := Permit(b.state != Closed, false);
    assert (b.permits + [p])[..|b.permits|] == b.permits && (l.windows + [w])[..|l.windows|] == l.windows;
    if b.state == Open {
      NoneLive(b.permits, l.windows, w);
    }
  }

  lemma StepKeepsAccounts(cfg: Config, b: Breaker, l: Ledger, s: Step)
    requires Admissible(b, s) && Accounts(b, l)
    ensures Accounts(Apply(cfg, b, s), Noted(cfg, b, l, s))
  {
    match s {
      case Acquire(now) =>
        if Grants(cfg, b, now) {
          IssueKeepsAccounts(b, l, if b.state == Open then l.window + 1 else l.window);
        }
      case Success(p) =>
        SuccessKeepsAccounts(b, l, p);
      case Failure(p, now) =>
        FailureKeepsAccounts(cfg, b, l, p, now);
      case Cancel(p) =>
        CancelKeepsAccounts(b, l, p);
      case Reset =>
    }
  }

  ghost function Books(cfg: Config, b: Breaker, l: Ledger, steps: seq<Step>): Ledger
    requires IsRun(cfg, b, steps) && |l.windows| == |b.permits|
    decreases |steps|
  {
    if steps == [] then l
    else Books(cfg, Apply(cfg, b, steps[0]), Noted(cfg, b, l, steps[0]), steps[1..])
  }

  /** Over every run, all probes in flight of a half-open circuit are accounted for: the probe count, the
      slots freed by stale cancellations, and the probes of earlier windows. */
  lemma {:induction false} RunKeepsAccounts(cfg: Config, b: Breaker, l: Ledger, steps: seq<Step>)
    requires Accounts(b, l) && IsRun(cfg, b, steps)
    ensures var e, books := After(cfg, b, steps), Books(cfg, b, l, steps);
            && Accounts(e, books)
            && (e.state == HalfOpen ==>
                  LiveProbes(e.permits) == e.probes + books.freed + LiveBefore(e.permits, books.windows, books.window))
    decreases |steps|
  {
    if steps == [] {
      LiveSplits(b.permits, l.windows, l.window);
    } else {
      StepKeepsAccounts(cfg, b, l, steps[0]);
      RunKeepsAccounts(cfg, Apply(cfg, b, steps[0]), Noted(cfg, b, l, steps[0]), steps[1..]);
    }
  }

  /** What the breaker does not see when it grants: the probes of earlier windows, when it opens a new
      one; and in a half-open circuit also the slots that stale cancellations have freed. */
  function Unseen(b: Breaker, l: Ledger): int
    requires |l.windows| == |b.permits|
  {
    match b.state
    case Closed => 0
    case Open => LiveBefore(b.permits, l.windows, l.window + 1)
    case HalfOpen => l.freed + LiveBefore(b.permits, l.windows, l.window)
  }

  predicate CancelsProbe(b: Breaker, s: Step) {
    s.Cancel? && s.permit < |b.permits| && b.permits[s.permit].probe && !b.permits[s.permit].completed
  }

  /** A window opens over as many unseen probes as are then in flight. Within it their number never rises:
      cancelling a probe of any window, while a slot is taken, frees that slot and hides as many as before. */
  lemma UnseenComeFromReopening(cfg: Config, b: Breaker, l: Ledger, s: Step)
    requires Inv(cfg, b) && Accounts(b, l) && Admissible(b, s) && Apply(cfg, b, s).state == HalfOpen
    ensures var e, r := Apply(cfg, b, s), Noted(cfg, b, l, s);
            && Unseen(e, r) == (if b.state == Open then LiveProbes(b.permits)
                                else if CancelsProbe(b, s) && b.probes == 0 then Unseen(b, l) - 1
                                else Unseen(b, l))
            && (CancelsProbe(b, s) ==> e.probes == if b.probes > 0 then b.probes - 1 else 0)
  {
    StepKeepsAccounts(cfg, b, l, s);
    var e, r := Apply(cfg, b, s), Noted(cfg, b, l, s);
    LiveSplits(b.permits, l.windows, l.window);
    LiveSplits(e.permits, r.windows, r.window);
    match s {
      case Acquire(now) =>
        LiveSnoc(b.permits, Permit(true, false));
      case Success(p) =>
        DoneProbes(b.permits, p);
      case Failure(p, now) =>
        DoneProbes(b.permits, p);
      case Cancel(p) =>
        DoneProbes(b.permits, p);
      case Reset =>
    }
  }

  /** The step grants a probe although the seen and the unseen ones fill the capacity. */
  predicate Overfills(cfg: Config, b: Breaker, l: Ledger, s: Step)
    requires |l.windows| == |b.permits|
  {
    s.Acquire? && b.state != Closed && Grants(cfg, b, s.now) && b.probes + Unseen(b, l) >= cfg.capacity
  }

  ghost predicate NeverOverfills(cfg: Config, b: Breaker, l: Ledger, steps: seq<Step>)
    requires IsRun(cfg, b, steps) && |l.windows| == |b.permits|
    decreases |steps|
  {
    steps != [] ==> !Overfills(cfg, b, l, steps[0]) && NeverOverfills(cfg, Apply(cfg, b, steps[0]), Noted(cfg, b, l, steps[0]), steps[1..])
  }

  /** One step takes the probes in flight over capacity if and only if it overfills; such a grant either
      opens a window again over an earlier probe, or follows a reopening of that kind. */
  lemma OverCapacityIffOverfills(cfg: Config, b: Breaker, l: Ledger, s: Step)
    requires Inv(cfg, b) && Accounts(b, l) && Admissible(b, s) && LiveProbes(b.permits) <= cfg.capacity
    ensures var e := Apply(cfg, b, s);
            && (LiveProbes(e.permits) > cfg.capacity <==> Overfills(cfg, b, l, s))
            && (Overfills(cfg, b, l, s) ==> e.state == HalfOpen && (ReopensOverProbe(cfg, b, s) || !CountsProbes(b)))
  {
    match s {
      case Acquire(now) =>
        LiveSnoc(b.permits, Permit(b.state != Closed, false));
        LiveSplits(b.permits, l.windows, l.window);
        if b.state == Open {
          LiveSplits(b.permits, l.windows, l.window + 1);
          NoneLive(b.permits, l.windows, l.window + 1);
        }
      case Success(p) =>
        DoneProbes(b.permits, p);
      case Failure(p, now) =>
        DoneProbes(b.permits, p);
      case Cancel(p) =>
        DoneProbes(b.permits, p);
      case Reset =>
    }
  }

  /** Over a whole run, at any capacity: the probes in flight stay within capacity if and only if no grant
      overfills. */
  lemma {:induction false} BoundsIffNeverOverfills(cfg: Config, b: Breaker, l: Ledger, steps: seq<Step>)
    requires Inv(cfg, b) && Accounts(b, l) && IsRun(cfg, b, steps) && LiveProbes(b.permits) <= cfg.capacity
    ensures BoundsThroughout(cfg, b, steps) <==> NeverOverfills(cfg, b, l, steps)
    decreases |steps|
  {
    if steps != [] {
      StepKeepsInv(cfg, b, steps[0]);
      StepKeepsAccounts(cfg, b, l, steps[0]);
      OverCapacityIffOverfills(cfg, b, l, steps[0]);
      var e := Apply(cfg, b, steps[0]);
      if Overfills(cfg, b, l, steps[0]) {
        assert !BoundsThroughout(cfg, e, steps[1..]);
      } else {
        BoundsIffNeverOverfills(cfg, e, Noted(cfg, b, l, steps[0]), steps[1..]);
      }
    }
  }

  /** Cancelling a probe left over from an earlier window frees a slot that is taken: with capacity one,
      two probes of the same window are out at once. */
  lemma StaleCancelAdmitsSecondProbe()
    ensures IsRun(Small, Fresh, LateOpening + [Acquire(21.0)])
    ensures After(Small, Fresh, LateOpening + [Acquire(21.0)]) == AfterSecondProbe
    ensures var b := Apply(Small, AfterSecondProbe, Cancel(2));
            Grants(Small, b, 22.0)
            && Apply(Small, b, Acquire(22.0)) == Breaker(HalfOpen, 1, 11.0, 1, [Ended(false), Ended(false), Ended(true), Out(true), Out(true)])
  {
    ReopeningAdmitsSecondProbe();
  }
}
