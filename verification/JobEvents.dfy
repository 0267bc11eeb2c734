/** Durable job events (packages/persistence/job_events.py): their kinds, their idempotency keys,
    the sequenced append, and what the log says about the row. */
module JobEvents {
  import opened Support
  import opened JobPolicy

  type JobId = nat
  type Instant = real
  type ErrorCode = nat
  const LEASE_EXPIRED: ErrorCode := 0
  const CANCELLED_CODE: ErrorCode := 1
  const RETRYABLE_FAILURE: ErrorCode := 2
  const PERMANENT_FAILURE: ErrorCode := 3

  datatype EventKind =
    | Created
    | Started
    | StageStarted(stage: string, percent: nat)
    | ProgressUpdated(stage: string, percent: nat)
    | PartialResult(resultKind: string)
    | RetryScheduled(code: ErrorCode, retryAt: Instant)
    | Recovered(previousAttempt: nat, nextAttempt: nat)
    | FailedWith(code: ErrorCode)
    | Completed(resultAvailable: bool)
    | CancelledEvent

  /** The ways an attempt can be closed; each has its own key. */
  datatype Closing = ByRetry | ByFailure | ByCancel | ByPartial | ByCompletion | ByRecovery | ByReaperRetry | ByReaperFailure

  /** The key forms of the repository and of the worker's progress context. */
  datatype Key =
    | CreatedKey
    | CancelKey(job: JobId)
    | StartedKey(attempt: nat)
    | ClosingKey(attempt: nat, closing: Closing)
    | StageKey(attempt: nat, stage: string)
    | ProgressKey(attempt: nat, stage: string, percent: nat)
    | PartialKey(attempt: nat, resultKind: string)

  datatype Event = Event(sequence: nat, kind: EventKind, attempt: nat, key: Key)

  predicate IsProgressKind(k: EventKind) {
    k.StageStarted? || k.ProgressUpdated? || k.PartialResult?
  }

  /** A key that the repository does not build for events of its own. */
  predicate IsReportKey(k: Key) {
    k.StageKey? || k.ProgressKey? || k.PartialKey?
  }

  predicate HasKey(log: seq<Event>, key: Key) {
    exists i :: 0 <= i < |log| && log[i].key == key
  }

  ghost predicate UniqueKeys(log: seq<Event>) {
    forall i, j :: 0 <= i < j < |log| ==> log[i].key != log[j].key
  }

  ghost predicate Sequenced(log: seq<Event>) {
    forall i :: 0 <= i < |log| ==> log[i].sequence == i + 1
  }

  function Appended(log: seq<Event>, kind: EventKind, attempt: nat, key: Key): seq<Event> {
    log + [Event(|log| + 1, kind, attempt, key)]
  }

  // ---------------------------------------------------------------- reading the log back

  datatype Folded = Folded(status: JobStatus, attempts: nat)

  /** The partial outcome and a partial progress report share an event type; only the key of the
      outcome tells them apart. */
  predicate IsPartialOutcome(e: Event) {
    e.kind.PartialResult? && e.key == ClosingKey(e.attempt, ByPartial)
  }

  function FoldStep(f: Folded, e: Event): Folded {
    match e.kind
    case Created => Folded(Pending, 0)
    case Started => Folded(Running, f.attempts + 1)
    case StageStarted(_, _) => f
    case ProgressUpdated(_, _) => f
    case PartialResult(_) => if IsPartialOutcome(e) then f.(status := Partial) else f
    case RetryScheduled(_, _) => f.(status := Retrying)
    case Recovered(_, _) => f.(status := Retrying)
    case FailedWith(_) => f.(status := Failed)
    case Completed(_) => f.(status := Succeeded)
    case CancelledEvent => f.(status := Cancelled)
  }

  function Fold(log: seq<Event>): Folded {
    if log == [] then Folded(Pending, 0)
    else FoldStep(Fold(log[..|log| - 1]), log[|log| - 1])
  }

  function CountStarted(log: seq<Event>): nat {
    if log == [] then 0
    else CountStarted(log[..|log| - 1]) + (if log[|log| - 1].kind.Started? then 1 else 0)
  }

  predicate IsTerminalKind(k: EventKind) {
    k.FailedWith? || k.Completed? || k.CancelledEvent?
  }

  function CountTerminal(log: seq<Event>): nat {
    if log == [] then 0
    else CountTerminal(log[..|log| - 1]) + (if IsTerminalKind(log[|log| - 1].kind) then 1 else 0)
  }

  /** Events that move the job, as opposed to reports from inside an attempt. */
  predicate IsLifecycle(e: Event) {
    !IsProgressKind(e.kind) || IsPartialOutcome(e)
  }

  function CountLifecycle(log: seq<Event>): nat {
    if log == [] then 0
    else CountLifecycle(log[..|log| - 1]) + (if IsLifecycle(log[|log| - 1]) then 1 else 0)
  }

  /** Keys stay unique exactly when the appended key is new: a second event under a used key would
      break the uniqueness for good. */
  lemma AppendedUnique(log: seq<Event>, kind: EventKind, attempt: nat, key: Key)
    ensures UniqueKeys(Appended(log, kind, attempt, key)) <==> UniqueKeys(log) && !HasKey(log, key)
  {
    var log' := Appended(log, kind, attempt, key);
    forall i | 0 <= i < |log| ensures log'[i].key == log[i].key {
    }
    assert log'[|log|].key == key;
    if UniqueKeys(log') {
      forall i, j | 0 <= i < j < |log| ensures log[i].key != log[j].key {
        assert log'[i].key != log'[j].key;
      }
      forall i | 0 <= i < |log| ensures log[i].key != key {
        assert log'[i].key != log'[|log|].key;
      }
    }
  }

  /** What one append does to everything that is read off the log. */
  lemma AppendedReads(log: seq<Event>, kind: EventKind, attempt: nat, key: Key)
    ensures var e := Event(|log| + 1, kind, attempt, key);
            var log' := Appended(log, kind, attempt, key);
            && Fold(log') == FoldStep(Fold(log), e)
            && CountStarted(log') == CountStarted(log) + (if kind.Started? then 1 else 0)
            && CountTerminal(log') == CountTerminal(log) + (if IsTerminalKind(kind) then 1 else 0)
            && CountLifecycle(log') == CountLifecycle(log) + (if IsLifecycle(e) then 1 else 0)
            && (Sequenced(log') <==> Sequenced(log))
            && (UniqueKeys(log') <==> UniqueKeys(log) && !HasKey(log, key))
            && (forall k :: HasKey(log', k) <==> HasKey(log, k) || k == key)
  {
    var log' := Appended(log, kind, attempt, key);
    assert log'[..|log'| - 1] == log;
    AppendedUnique(log, kind, attempt, key);
    forall i | 0 <= i < |log| ensures log'[i] == log[i] {
    }
    forall k ensures HasKey(log', k) <==> HasKey(log, k) || k == key {
      if HasKey(log, k) {
        var i :| 0 <= i < |log| && log[i].key == k;
        assert log'[i].key == k;
      }
      assert log'[|log|].key == key;
    }
  }

  // ---------------------------------------------------------------- replay reads

  /** events_after: the rows beyond a sequence number, in sequence order, at most limit of them. */
  function EventsAfter(log: seq<Event>, after: nat, limit: nat): seq<Event> {
    if log == [] || limit == 0 then []
    else if log[0].sequence > after then [log[0]] + EventsAfter(log[1..], after, limit - 1)
    else EventsAfter(log[1..], after, limit)
  }

  ghost predicate SequencedFrom(log: seq<Event>, start: nat) {
    forall i :: 0 <= i < |log| ==> log[i].sequence == start + i + 1
  }

  lemma {:induction false} EventsAfterIsSlice(log: seq<Event>, start: nat, after: nat, limit: nat)
    requires SequencedFrom(log, start)
    ensures var skip := if after <= start then 0 else if after - start <= |log| then after - start else |log|;
            var stop := if skip + limit <= |log| then skip + limit else |log|;
            EventsAfter(log, after, limit) == log[skip..stop]
  {
    if log != [] && limit > 0 {
      var rest := log[1..];
      assert log == [log[0]] + rest && SequencedFrom(rest, start + 1);
      if log[0].sequence > after {
        EventsAfterIsSlice(rest, start + 1, after, limit - 1);
        var stop := if limit <= |log| then limit else |log|;
        assert EventsAfter(log, after, limit) == [log[0]] + rest[..stop - 1];
      } else {
        EventsAfterIsSlice(rest, start + 1, after, limit);
        assert EventsAfter(log, after, limit) == EventsAfter(rest, after, limit);
      }
    }
  }
}
