/** What the end of an attempt leaves behind, and how long a retry waits for its delay
    (packages/persistence/jobs.py:108-280, packages/domain/jobs.py:179-194). */
module JobRetries {
  import opened Support
  import opened JobPolicy
  import opened JobEvents
  import opened JobQueue
  import opened JobRuns

  /** Nobody holds the row. */
  predicate Unheld(row: Row) {
    row.lockedBy.None? && row.leaseExpiresAt.None? && row.heartbeatAt.None?
  }

  /** What no transaction changes once the row is there. */
  predicate SameRequest(a: Row, b: Row) {
    a.priority == b.priority && a.lane == b.lane && a.createdAt == b.createdAt && a.maxAttempts == b.maxAttempts
  }

  /** The events added, if the first log is a prefix of the second. */
  function Added(before: seq<Event>, after: seq<Event>): seq<EventKind>
    requires |before| <= |after|
  {
    seq(|after| - |before|, i requires 0 <= i < |after| - |before| => after[|before| + i].kind)
  }

  /** A finish by the owner writes the outcome it was given, or a failure if that was a retry and no
      attempt is left; keeps a result of a success or a partial one only; and dates a retry its delay after
      the last reading of the clock. */
  lemma FinishWrites(p: Policy, w: World, s: Step)
    requires Inv(w) && Admissible(w, s) && s.FinishStep? && Owns(w.store, s.claim, s.t2)
    ensures s.claim in w.issued && s.claim.attempts >= 1 && s.claim.id in Apply(p, w, s).store
    ensures var before, after := w.store[s.claim.id], Apply(p, w, s).store[s.claim.id];
            var delay := Backoff(s.claim.attempts, p.retryBase, p.retryMax);
            && Unheld(after.row) && SameRequest(before.row, after.row) && after.row.attempts == before.row.attempts
            && (s.status != Retrying ==> after.row.status == s.status && after.row.runAfter == s.t1)
            && (s.status == Retrying && before.row.attempts < before.row.maxAttempts ==>
                  after.row.status == Retrying && after.row.runAfter == s.t3 + delay)
            && (s.status == Retrying && before.row.attempts == before.row.maxAttempts ==> after.row.status == Failed)
            && after.row.errorCode == s.code
            && (after.row.resultRef == s.resultRef || (after.row.status !in {Succeeded, Partial} && after.row.resultRef.None?))
            && (after.row.status !in {Succeeded, Partial} ==> after.row.resultRef.None?)
            && before.log <= after.log && Added(before.log, after.log) == [match after.row.status
               case Succeeded => Completed(s.resultRef.Some?)
               case Partial => PartialResult("job_result")
               case Cancelled => CancelledEvent
               case Retrying => RetryScheduled(if s.code.Some? then s.code.value else RETRYABLE_FAILURE, s.t1 + delay)
               case _ => FailedWith(if s.code.Some? then s.code.value else PERMANENT_FAILURE)]
  {
    hide Apply, LogAgrees;
    ApplyIsEffect(p, w, s);
    assert RecordInv(w.store[s.claim.id]);
  }

  /** A lapsed row in the reaper's batch goes back to waiting while it has attempts left, for its delay
      from the reaper's clock, and else fails; either way the log says that the lease ran out. */
  lemma ReapWrites(p: Policy, w: World, s: Step, id: JobId)
    requires Inv(w) && Admissible(w, s) && s.ReapStep? && id in s.batch
    ensures id in w.store && w.store[id].row.attempts >= 1 && id in Apply(p, w, s).store
    ensures var before, after := w.store[id], Apply(p, w, s).store[id];
            var delay := Backoff(before.row.attempts, p.retryBase, p.retryMax);
            && Unheld(after.row) && SameRequest(before.row, after.row) && after.row.attempts == before.row.attempts
            && (after.row.status == Retrying <==> before.row.attempts < before.row.maxAttempts)
            && (after.row.status == Failed <==> before.row.attempts == before.row.maxAttempts)
            && after.row.runAfter == s.t2 + delay && after.row.errorCode == Some(LEASE_EXPIRED)
            && before.log <= after.log
            && Added(before.log, after.log) ==
               if before.row.attempts < before.row.maxAttempts
               then [Recovered(before.row.attempts, before.row.attempts + 1), RetryScheduled(LEASE_EXPIRED, s.t2 + delay)]
               else [FailedWith(LEASE_EXPIRED)]
  {
    hide Apply, LogAgrees;
    assert LapsedIn(w.store, s.t1, s.skipped, id);
    assert RecordInv(w.store[id]);
    ApplyIsEffect(p, w, s);
  }

  /** A cancellation of an unfinished job, or of a partial one, frees it and ends it. */
  lemma CancelWrites(p: Policy, w: World, s: Step)
    requires Inv(w) && Admissible(w, s) && s.CancelStep? && s.id in w.store
    ensures s.id in Apply(p, w, s).store
    ensures var before, after := w.store[s.id], Apply(p, w, s).store[s.id];
            if before.row.status in {Succeeded, Failed, Cancelled} then after == before
            else
              && after.row.status == Cancelled && Unheld(after.row) && SameRequest(before.row, after.row)
              && after.row.attempts == before.row.attempts && after.row.errorCode == Some(CANCELLED_CODE)
              && before.log <= after.log && Added(before.log, after.log) == [CancelledEvent]
  {
    hide Apply, RecordInv;
    ApplyIsEffect(p, w, s);
  }

  /** The claim takes the first job in line that nobody else has locked: of those waiting and due, in the
      lanes asked for, with attempts left, none has a higher priority, and none of the same priority is
      older. */
  lemma ClaimTakesFirst(p: Policy, w: World, s: Step, other: JobId)
    requires Inv(w) && Admissible(w, s) && s.ClaimStep? && other in w.store && other !in s.skipped
    requires var row := w.store[other].row;
             row.status in {Pending, Retrying} && row.runAfter <= s.t1 && row.attempts < row.maxAttempts && row.lane in s.lanes
    ensures s.found.Some? && s.found.value in w.store && s.found.value in Apply(p, w, s).store
    ensures var best, row, after := w.store[s.found.value].row, w.store[other].row, Apply(p, w, s).store[s.found.value];
            && best.status in {Pending, Retrying} && best.runAfter <= s.t1 && best.lane in s.lanes && s.found.value !in s.skipped
            && best.priority >= row.priority
            && (best.priority == row.priority ==> best.createdAt <= row.createdAt)
            && (best.priority == row.priority && best.createdAt == row.createdAt ==> s.found.value <= other)
            && after.row.status == Running && after.row.lockedBy == Some(s.worker) && after.row.attempts == best.attempts + 1
            && SameRequest(best, after.row) && after.row.errorCode.None? && after.row.heartbeatAt == Some(s.t2)
  {
    assert Offered(w.store, s.lanes, s.t1, s.skipped, other);
    ApplyIsEffect(p, w, s);
  }

  /** The reaper takes the leases that ran out first. */
  lemma ReapTakesOldest(p: Policy, w: World, s: Step, other: JobId)
    requires Inv(w) && Admissible(w, s) && s.ReapStep? && other in w.store && other !in s.skipped && other !in s.batch
    requires var row := w.store[other].row; row.status == Running && row.leaseExpiresAt.value <= s.t1
    ensures |s.batch| == s.limit
    ensures forall id :: id in s.batch ==>
              id in w.store && w.store[id].row.leaseExpiresAt.Some?
              && w.store[id].row.leaseExpiresAt.value <= w.store[other].row.leaseExpiresAt.value
  {
    assert RecordInv(w.store[other]);
    assert LapsedIn(w.store, s.t1, s.skipped, other);
    forall id | id in s.batch
      ensures id in w.store && w.store[id].row.leaseExpiresAt.Some?
              && w.store[id].row.leaseExpiresAt.value <= w.store[other].row.leaseExpiresAt.value
    {
      assert LapsesBefore(w.store[id].row, id, w.store[other].row, other);
    }
  }

  /** A new job is due at once, as it was asked for, with nothing in its log but its creation. */
  lemma EnqueueWrites(p: Policy, w: World, s: Step)
    requires Admissible(w, s) && s.EnqueueStep? && s.maxAttempts >= 1 && s.id !in w.store
    ensures s.id in Apply(p, w, s).store
    ensures var rec := Apply(p, w, s).store[s.id];
            && rec.row.priority == s.priority && rec.row.lane == s.lane && rec.row.maxAttempts == s.maxAttempts
            && rec.row.createdAt == s.t1 == rec.row.runAfter && rec.row.status == Pending && rec.row.attempts == 0
            && Unheld(rec.row) && rec.row.errorCode.None? && rec.row.resultRef.None?
            && |rec.log| == 1 && rec.log[0].kind == Created
  {
  }

  /** A report by the owner under a new key adds that event and nothing else but the progress it tells. */
  lemma ReportWrites(p: Policy, w: World, s: Step)
    requires Inv(w) && Admissible(w, s) && s.ReportStep? && Owns(w.store, s.claim, s.t1) && !HasKey(w.store[s.claim.id].log, s.key)
    ensures s.claim.id in Apply(p, w, s).store
    ensures var before, after := w.store[s.claim.id], Apply(p, w, s).store[s.claim.id];
            && after.log == before.log + [Event(|before.log| + 1, s.kind, before.row.attempts, s.key)]
            && after.row == before.row.(latestSequence := |after.log|, progress := after.row.progress)
  {
    assert RecordInv(w.store[s.claim.id]);
  }

  /** A heartbeat by the owner moves the lease and its own time, and nothing else. */
  lemma HeartbeatWrites(p: Policy, w: World, s: Step)
    requires Admissible(w, s) && s.HeartbeatStep? && Owns(w.store, s.claim, s.t1)
    ensures Apply(p, w, s).store == w.store[s.claim.id :=
              Record(w.store[s.claim.id].row.(heartbeatAt := Some(s.t2), leaseExpiresAt := Some(s.t2 + s.lease)), w.store[s.claim.id].log)]
  {
  }

  /** The jobs a step is about. */
  predicate Concerns(s: Step, id: JobId) {
    match s
    case Tick(_) => false
    case EnqueueStep(j, _, _, _, _) => j == id
    case ClaimStep(_, _, _, _, found, _, _) => found == Some(id)
    case HeartbeatStep(c, _, _, _) => c.id == id
    case FinishStep(c, _, _, _, _, _, _) => c.id == id
    case CancelStep(j, _) => j == id
    case ReportStep(c, _, _, _) => c.id == id
    case ReapStep(_, _, batch, _, _) => id in batch
  }

  /** A step leaves all other jobs as they are, and moves the status of its own only as the lifecycle
      allows. */
  lemma StepsKeepToTheirJobs(p: Policy, w: World, s: Step, id: JobId)
    requires Inv(w) && Admissible(w, s) && id in w.store
    ensures id in Apply(p, w, s).store
    ensures !Concerns(s, id) ==> Apply(p, w, s).store[id] == w.store[id]
    ensures var from, to := w.store[id].row.status, Apply(p, w, s).store[id].row.status; from != to ==> to in Successors(from)
  {
    ApplyIsEffect(p, w, s);
    EffectMoves(p, w, s, id);
  }

  // ---------------------------------------------------------------- the attempt an event belongs to

  /** Each event carries the number of attempts started when it was written. */
  ghost predicate CarriesAttempts(log: seq<Event>) {
    forall i {:trigger log[i]} :: 0 <= i < |log| ==> log[i].attempt == CountStarted(log[..i + 1])
  }

  lemma CarriesMore(log: seq<Event>, kind: EventKind, attempt: nat, key: Key)
    requires CarriesAttempts(log) && attempt == CountStarted(log) + (if kind.Started? then 1 else 0)
    ensures CarriesAttempts(Appended(log, kind, attempt, key))
  {
    AppendedCounts(log, kind, attempt, key);
    var more := Appended(log, kind, attempt, key);
    forall i | 0 <= i < |more| ensures more[i].attempt == CountStarted(more[..i + 1]) {
      if i < |log| {
        assert more[..i + 1] == log[..i + 1] && more[i] == log[i];
      } else {
        assert more[..i + 1] == more;
      }
    }
  }

  lemma LogFacts(w: World, id: JobId)
    requires Inv(w) && id in w.store
    ensures CountStarted(w.store[id].log) == w.store[id].row.attempts && w.store[id].row.latestSequence == |w.store[id].log|
  {
    assert RecordInv(w.store[id]);
  }

  lemma EffectCarries(p: Policy, w: World, s: Step, id: JobId)
    requires Inv(w) && Admissible(w, s) && id in w.store && CarriesAttempts(w.store[id].log)
    ensures CarriesAttempts(Effect(p, w, s, id).log)
  {
    hide LogAgrees, RecordInv, Inv, CarriesAttempts, CountStarted, ClaimAnswer, ReapAnswer;
    var rec := w.store[id];
    LogFacts(w, id);
    var n := rec.row.attempts;
    match s
    case ClaimStep(worker, _, lease, _, found, _, t2) =>
      CarriesMore(rec.log, Started, n + 1, StartedKey(n + 1));
    case FinishStep(c, status, code, resultRef, t1, t2, t3) =>
      var delay := if c.attempts >= 1 then Backoff(c.attempts, p.retryBase, p.retryMax) else 0.0;
      var (kind, closing) := OutcomeKind(FinishStatus(c, status), code, resultRef, t1 + delay);
      CarriesMore(rec.log, kind, n, ClosingKey(n, closing));
    case CancelStep(_, _) =>
      CarriesMore(rec.log, CancelledEvent, n, CancelKey(id));
    case ReportStep(c, kind, key, _) =>
      CarriesMore(rec.log, kind, n, key);
    case ReapStep(_, _, _, _, t2) =>
      ReapedCarries(rec, t2, ReapDelay(p, rec.row));
    case _ =>
  }

  lemma ReapedCarries(rec: Record, now: Instant, delay: real)
    requires CarriesAttempts(rec.log) && CountStarted(rec.log) == rec.row.attempts && rec.row.latestSequence == |rec.log|
    ensures CarriesAttempts(Reaped(rec, now, delay).log)
  {
    hide CarriesAttempts, CountStarted;
    var n := rec.row.attempts;
    if ReapedRow(rec.row, now + delay).status == Retrying {
      CarriesMore(rec.log, Recovered(n, n + 1), n, ClosingKey(n, ByRecovery));
      AppendedCounts(rec.log, Recovered(n, n + 1), n, ClosingKey(n, ByRecovery));
      CarriesMore(Appended(rec.log, Recovered(n, n + 1), n, ClosingKey(n, ByRecovery)),
                  RetryScheduled(LEASE_EXPIRED, now + delay), n, ClosingKey(n, ByReaperRetry));
    } else {
      CarriesMore(rec.log, FailedWith(LEASE_EXPIRED), n, ClosingKey(n, ByReaperFailure));
    }
  }

  /** In every reachable world each event of a log carries the attempt it was written in. */
  lemma {:induction false} EventsCarryAttempt(p: Policy, ws: seq<World>, steps: seq<Step>, i: nat, id: JobId)
    requires IsRun(p, ws, steps) && ws[0] == EmptyWorld && i < |ws| && id in ws[i].store
    ensures CarriesAttempts(ws[i].store[id].log)
  {
    if i > 0 {
      assert StepAt(p, ws, steps, i - 1);
      ApplyIsEffect(p, ws[i - 1], steps[i - 1]);
      RunKeepsInv(p, ws, steps, i - 1);
      if id in ws[i - 1].store {
        EventsCarryAttempt(p, ws, steps, i - 1, id);
        EffectCarries(p, ws[i - 1], steps[i - 1], id);
      } else {
        CarriesMore([], Created, 0, CreatedKey);
        assert ws[i].store[id].log == Appended([], Created, 0, CreatedKey);
      }
    }
  }

  // ---------------------------------------------------------------- the wait before a retry

  /** The job waits for its retry, or was cancelled while it waited. */
  ghost predicate WaitsUntil(store: Store, id: JobId, due: Instant, attempts: nat) {
    id in store && store[id].row.attempts == attempts
    && (store[id].row.status == Cancelled || (store[id].row.status == Retrying && store[id].row.runAfter == due))
  }

  lemma WaitStep(p: Policy, w: World, s: Step, id: JobId, due: Instant, attempts: nat)
    requires Inv(w) && Admissible(w, s) && WaitsUntil(w.store, id, due, attempts) && s.t1 < due
    ensures WaitsUntil(Apply(p, w, s).store, id, due, attempts)
  {
    hide Apply, RecordInv;
    ApplyIsEffect(p, w, s);
    if s.ReapStep? {
      forall j | j in s.batch ensures j != id {
        assert LapsedIn(w.store, s.t1, s.skipped, j);
      }
    }
  }

  /** Until its delay is over no run starts the job again: it can only be cancelled. */
  lemma {:induction false} RetryWaits(p: Policy, ws: seq<World>, steps: seq<Step>, i: nat, j: nat, id: JobId, due: Instant)
    requires IsRun(p, ws, steps) && Inv(ws[0]) && i <= j < |ws|
    requires id in ws[i].store && ws[i].store[id].row.status == Retrying && ws[i].store[id].row.runAfter == due
    requires forall k :: i <= k < j ==> steps[k].t1 < due
    ensures WaitsUntil(ws[j].store, id, due, ws[i].store[id].row.attempts)
    decreases j
  {
    if i < j {
      RetryWaits(p, ws, steps, i, j - 1, id, due);
      RunKeepsInv(p, ws, steps, j - 1);
      assert StepAt(p, ws, steps, j - 1);
      WaitStep(p, ws[j - 1], steps[j - 1], id, due, ws[i].store[id].row.attempts);
    }
  }

  // ---------------------------------------------------------------- progress

  /** The stage and the percentage reported last. */
  function LastProgress(log: seq<Event>): Option<Progress> {
    if log == [] then None
    else
      match log[|log| - 1].kind
      case StageStarted(stage, percent) => Some(Progress(stage, percent))
      case ProgressUpdated(stage, percent) => Some(Progress(stage, percent))
      case _ => LastProgress(log[..|log| - 1])
  }

  ghost predicate ShowsProgress(rec: Record) {
    rec.row.progress == LastProgress(rec.log)
  }

  lemma AppendShows(rec: Record, kind: EventKind, attempt: nat, key: Key)
    requires ShowsProgress(rec)
    ensures ShowsProgress(Append(rec, kind, attempt, key))
  {
    var after := Append(rec, kind, attempt, key);
    assert after.log[..|after.log| - 1] == rec.log;
  }

  lemma ClosedShows(rec: Record, c: Claim, status: JobStatus, code: Option<ErrorCode>, resultRef: Option<string>,
                    now: Instant, late: Instant, delay: real)
    requires ShowsProgress(rec) && status in Successors(Running)
    ensures ShowsProgress(Finished(rec, c, status, code, resultRef, now, late, delay))
  {
    var keptRef := if status == Succeeded || status == Partial then resultRef else None;
    var row := ReleasedRow(rec.row, status, code, keptRef, if status == Retrying then late + delay else now);
    var (kind, closing) := OutcomeKind(status, code, resultRef, now + delay);
    AppendShows(Record(row, rec.log), kind, c.attempts, ClosingKey(c.attempts, closing));
  }

  lemma ReapedShows(rec: Record, now: Instant, delay: real)
    requires ShowsProgress(rec)
    ensures ShowsProgress(Reaped(rec, now, delay))
  {
    var n, row := rec.row.attempts, ReapedRow(rec.row, now + delay);
    if row.status == Retrying {
      AppendShows(Record(row, rec.log), Recovered(n, n + 1), n, ClosingKey(n, ByRecovery));
      AppendShows(RecoveredRecord(rec, now + delay), RetryScheduled(LEASE_EXPIRED, now + delay), n, ClosingKey(n, ByReaperRetry));
    } else {
      AppendShows(Record(row, rec.log), FailedWith(LEASE_EXPIRED), n, ClosingKey(n, ByReaperFailure));
    }
  }

  lemma ClaimedShows(rec: Record, worker: Worker, now: Instant, lease: real)
    requires ShowsProgress(rec)
    ensures ShowsProgress(Claimed(rec, worker, now, lease))
  {
    var after := Claimed(rec, worker, now, lease);
    assert after.log[..|after.log| - 1] == rec.log;
  }

  lemma CancelledShows(id: JobId, rec: Record)
    requires ShowsProgress(rec)
    ensures ShowsProgress(CancelledRecord(id, rec))
  {
    var after := CancelledRecord(id, rec);
    assert after.log[..|after.log| - 1] == rec.log;
  }

  lemma EffectShows(p: Policy, w: World, s: Step, id: JobId)
    requires Admissible(w, s) && id in w.store && ShowsProgress(w.store[id])
    ensures ShowsProgress(Effect(p, w, s, id))
  {
    var rec := w.store[id];
    match s
    case ClaimStep(worker, _, lease, _, found, _, t2) =>
      ClaimedShows(rec, worker, t2, lease);
    case FinishStep(c, status, code, resultRef, t1, t2, t3) =>
      var delay := if c.attempts >= 1 then Backoff(c.attempts, p.retryBase, p.retryMax) else 0.0;
      ClosedShows(rec, c, FinishStatus(c, status), code, resultRef, t1, t3, delay);
    case CancelStep(_, _) =>
      CancelledShows(id, rec);
    case ReportStep(c, kind, key, _) =>
      AppendShows(rec, kind, c.attempts, key);
    case ReapStep(_, _, _, _, t2) =>
      ReapedShows(rec, t2, ReapDelay(p, rec.row));
    case _ =>
  }

  /** In every reachable world the progress shown on the row is the one reported last. */
  lemma {:induction false} ProgressIsLastReport(p: Policy, ws: seq<World>, steps: seq<Step>, i: nat, id: JobId)
    requires IsRun(p, ws, steps) && ws[0] == EmptyWorld && i < |ws| && id in ws[i].store
    ensures ws[i].store[id].row.progress == LastProgress(ws[i].store[id].log)
  {
    if i > 0 {
      assert StepAt(p, ws, steps, i - 1);
      ApplyIsEffect(p, ws[i - 1], steps[i - 1]);
      if id in ws[i - 1].store {
        ProgressIsLastReport(p, ws, steps, i - 1, id);
        EffectShows(p, ws[i - 1], steps[i - 1], id);
      } else {
        assert ws[i].store[id].log[..0] == [];
      }
    }
  }
}
