/** The repository itself (packages/persistence/jobs.py): methods that overwrite the fields of row
    objects and append events, each equal to the transaction that JobQueue describes. */
module JobRepository {
  import opened Support
  import opened JobPolicy
  import opened JobEvents
  import Q = JobQueue

  /** One row of the jobs table, with its durable events. */
  class Job {
    const priority: int
    const lane: Q.Lane
    const createdAt: Instant
    const maxAttempts: nat
    var status: JobStatus
    var attempts: nat
    var runAfter: Instant
    var lockedBy: Option<Q.Worker>
    var leaseExpiresAt: Option<Instant>
    var heartbeatAt: Option<Instant>
    var errorCode: Option<ErrorCode>
    var resultRef: Option<string>
    var progress: Option<Q.Progress>
    var latestSequence: nat
    var log: seq<Event>

    ghost function Row(): Q.Row
      reads this
    {
      Q.Row(priority, lane, createdAt, maxAttempts, status, attempts, runAfter, lockedBy, leaseExpiresAt,
            heartbeatAt, errorCode, resultRef, progress, latestSequence)
    }

    ghost function Rec(): Q.Record
      reads this
    {
      Q.Record(Row(), log)
    }

    constructor (priority: int, lane: Q.Lane, maxAttempts: nat, now: Instant)
      ensures Rec() == Q.NewRecord(priority, lane, maxAttempts, now)
    {
      this.priority, this.lane, this.createdAt, this.maxAttempts := priority, lane, now, maxAttempts;
      status, attempts, runAfter := Pending, 0, now;
      lockedBy, leaseExpiresAt, heartbeatAt := None, None, None;
      errorCode, resultRef, progress := None, None, None;
      latestSequence, log := 0, [];
      new;
      AppendEvent(Created, 0, CreatedKey);
    }

    method AppendEvent(kind: EventKind, attempt: nat, key: Key)
      modifies this
      ensures Rec() == Q.Append(old(Rec()), kind, attempt, key)
    {
      var sequence := latestSequence + 1;
      latestSequence := sequence;
      match kind {
        case StageStarted(stage, percent) => progress := Some(Q.Progress(stage, percent));
        case ProgressUpdated(stage, percent) => progress := Some(Q.Progress(stage, percent));
        case _ =>
      }
      log := log + [Event(sequence, kind, attempt, key)];
    }

    method Start(worker: Q.Worker, now: Instant, lease: real)
      modifies this
      ensures Rec() == Q.Claimed(old(Rec()), worker, now, lease)
    {
      status := Running;
      attempts := attempts + 1;
      lockedBy := Some(worker);
      heartbeatAt := Some(now);
      leaseExpiresAt := Some(now + lease);
      errorCode := None;
      AppendEvent(Started, attempts, StartedKey(attempts));
    }

    method Renew(now: Instant, lease: real)
      modifies this
      ensures Rec() == old(Rec()).(row := old(Row()).(heartbeatAt := Some(now), leaseExpiresAt := Some(now + lease)))
    {
      heartbeatAt := Some(now);
      leaseExpiresAt := Some(now + lease);
    }

    method Release()
      modifies this
      ensures Rec() == old(Rec()).(row := old(Row()).(lockedBy := None, leaseExpiresAt := None, heartbeatAt := None))
    {
      lockedBy, leaseExpiresAt, heartbeatAt := None, None, None;
    }

    method MarkEnded(outcome: JobStatus, code: Option<ErrorCode>, ref: Option<string>, after: Instant)
      modifies this
      ensures Rec() == Q.Record(Q.ReleasedRow(old(Row()), outcome, code, ref, after), old(log))
    {
      status := outcome;
      errorCode := code;
      resultRef := ref;
      runAfter := after;
      Release();
    }

    method Close(c: Q.Claim, outcome: JobStatus, code: Option<ErrorCode>, ref: Option<string>, now: Instant, late: Instant, delay: real)
      requires outcome in Successors(Running)
      modifies this
      ensures Rec() == Q.Finished(old(Rec()), c, outcome, code, ref, now, late, delay)
    {
      MarkEnded(outcome, code, if outcome == Succeeded || outcome == Partial then ref else None,
                now + (if outcome == Retrying then delay else 0.0));
      AppendOutcome(c, outcome, code, ref, now, delay);
      if outcome == Retrying {
        runAfter := late + delay;
      }
    }

    /** The event of an outcome. */
    method AppendOutcome(c: Q.Claim, outcome: JobStatus, code: Option<ErrorCode>, ref: Option<string>, now: Instant, delay: real)
      requires outcome in Successors(Running)
      modifies this
      ensures var (kind, closing) := Q.OutcomeKind(outcome, code, ref, now + delay);
              Rec() == Q.Append(old(Rec()), kind, c.attempts, ClosingKey(c.attempts, closing))
    {
      match outcome {
        case Retrying =>
          AppendEvent(RetryScheduled(Q.OrElse(code, RETRYABLE_FAILURE), now + delay), c.attempts, ClosingKey(c.attempts, ByRetry));
        case Failed =>
          AppendEvent(FailedWith(Q.OrElse(code, PERMANENT_FAILURE)), c.attempts, ClosingKey(c.attempts, ByFailure));
        case Cancelled =>
          AppendEvent(CancelledEvent, c.attempts, ClosingKey(c.attempts, ByCancel));
        case Partial =>
          AppendEvent(PartialResult("job_result"), c.attempts, ClosingKey(c.attempts, ByPartial));
        case Succeeded =>
          AppendEvent(Completed(ref.Some?), c.attempts, ClosingKey(c.attempts, ByCompletion));
      }
    }

    method CancelRow(id: JobId)
      modifies this
      ensures Rec() == Q.CancelledRecord(id, old(Rec()))
    {
      status := Cancelled;
      errorCode := Some(CANCELLED_CODE);
      Release();
      AppendEvent(CancelledEvent, attempts, CancelKey(id));
    }

    method MarkLapsed(after: Instant)
      modifies this
      ensures Rec() == Q.Record(Q.ReapedRow(old(Row()), after), old(log))
    {
      status := FailureStatus(attempts, maxAttempts, true);
      errorCode := Some(LEASE_EXPIRED);
      Release();
      runAfter := after;
    }

    method Recover(now: Instant, delay: real)
      modifies this
      ensures Rec() == Q.Reaped(old(Rec()), now, delay)
    {
      MarkLapsed(now + delay);
      if status == Retrying {
        AppendEvent(Recovered(attempts, attempts + 1), attempts, ClosingKey(attempts, ByRecovery));
        AppendEvent(RetryScheduled(LEASE_EXPIRED, runAfter), attempts, ClosingKey(attempts, ByReaperRetry));
      } else {
        AppendEvent(FailedWith(LEASE_EXPIRED), attempts, ClosingKey(attempts, ByReaperFailure));
      }
    }
  }

  /** Raised as ValueError: the call is refused before any row is read. */
  datatype Refused = Refused

  /** What job creation raises: an attempt limit below one, or a key already used for another request. */
  datatype EnqueueError = BadLimit | Conflict

  class Repository {
    const policy: Q.Policy
    var jobs: map<JobId, Job>

    ghost predicate Valid()
      reads this
    {
      && ValidRetryPolicy(policy.retryBase, policy.retryMax)
      && forall i, j :: i in jobs && j in jobs && i != j ==> jobs[i] != jobs[j]
    }

    /** The committed table. */
    ghost function Table(): Q.Store
      reads this, jobs.Values
    {
      map id | id in jobs :: jobs[id].Rec()
    }

    /** Overwriting one row object changes that row of the table and no other. */
    twostate lemma TableUpdated(id: JobId)
      requires jobs == old(jobs) && id in jobs
      requires forall i :: i in jobs && i != id ==> unchanged(jobs[i])
      ensures Table() == old(Table())[id := jobs[id].Rec()]
    {
    }

    constructor (retryBase: real, retryMax: real)
      requires ValidRetryPolicy(retryBase, retryMax)
      ensures Valid() && Table() == map[]
    {
      policy := Q.Policy(retryBase, retryMax);
      jobs := map[];
    }

    /** A repeated request finds the stored job; another request under its id conflicts. */
    method Enqueue(id: JobId, priority: int, lane: Q.Lane, maxAttempts: nat, now: Instant) returns (r: Result<Job, EnqueueError>)
      requires Valid()
      modifies this
      ensures Valid() && Table() == Q.Enqueue(old(Table()), id, priority, lane, maxAttempts, now)
      ensures r == Err(BadLimit) <==> maxAttempts < 1
      ensures r == Err(Conflict) <==> maxAttempts >= 1 && id in old(Table())
                                      && (old(Table())[id].row.lane, old(Table())[id].row.priority, old(Table())[id].row.maxAttempts)
                                         != (lane, priority, maxAttempts)
      ensures r.Ok? ==> id in jobs && r.value == jobs[id] && (id in old(jobs) ==> jobs == old(jobs))
    {
      if maxAttempts < 1 {
        return Err(BadLimit);
      }
      if id in jobs {
        var existing := jobs[id];
        assert Table()[id] == existing.Rec();
        if existing.lane != lane || existing.priority != priority || existing.maxAttempts != maxAttempts {
          return Err(Conflict);
        }
        return Ok(existing);
      }
      var job := Add(id, priority, lane, maxAttempts, now);
      r := Ok(job);
    }

    method Add(id: JobId, priority: int, lane: Q.Lane, maxAttempts: nat, now: Instant) returns (job: Job)
      requires Valid() && id !in jobs
      modifies this
      ensures Valid() && jobs == old(jobs)[id := job]
      ensures Table() == old(Table())[id := Q.NewRecord(priority, lane, maxAttempts, now)]
    {
      job := new Job(priority, lane, maxAttempts, now);
      jobs := jobs[id := job];
    }

    method Claim(worker: Q.Worker, lanes: set<Q.Lane>, lease: real, ghost skipped: set<JobId>, found: Option<JobId>, t1: Instant, t2: Instant)
      returns (r: Result<Option<Q.Claim>, Refused>)
      requires Valid() && Q.ClaimAnswer(Table(), lanes, t1, skipped, found)
      modifies jobs.Values
      ensures Valid() && jobs == old(jobs)
      ensures r.Err? <==> worker == "" || |worker| > 255 || lease <= 0.0
      ensures r.Err? ==> Table() == old(Table())
      ensures r.Ok? ==> Table() == Q.ClaimIn(old(Table()), found, worker, t2, lease)
      ensures r.Ok? ==> r.value == match found
                                   case None => None
                                   case Some(id) => Some(Q.IssuedClaim(old(Table())[id], id, worker, t2, lease))
      ensures r.Ok? && r.value.Some? ==>
                var c := r.value.value;
                && found == Some(c.id) && c.worker == worker && c.leaseExpiresAt == t2 + lease
                && forall at :: Q.Owns(Table(), c, at) <==> at < t2 + lease
    {
      if worker == "" || |worker| > 255 || lease <= 0.0 {
        return Err(Refused);
      }
      if found.None? {
        return Ok(None);
      }
      var job := jobs[found.value];
      assert Q.Offered(Table(), lanes, t1, skipped, found.value);
      assert Running in Successors(job.status);
      job.Start(worker, t2, lease);
      r := Ok(Some(Q.Claim(found.value, worker, job.attempts, job.maxAttempts, t2 + lease)));
    }

    predicate Owned(c: Q.Claim, at: Instant)
      reads this, jobs.Values
      ensures Owned(c, at) == Q.Owns(Table(), c, at)
    {
      && c.id in jobs
      && var job := jobs[c.id];
         job.lockedBy == Some(c.worker) && job.attempts == c.attempts && job.status == Running
         && job.leaseExpiresAt.Some? && job.leaseExpiresAt.value > at
    }

    method Heartbeat(c: Q.Claim, lease: real, t1: Instant, t2: Instant) returns (r: Result<bool, Refused>)
      requires Valid()
      modifies jobs.Values
      ensures Valid() && jobs == old(jobs)
      ensures r.Err? <==> lease <= 0.0
      ensures r.Err? ==> Table() == old(Table())
      ensures r.Ok? ==> r.value == Q.Owns(old(Table()), c, t1) && Table() == Q.Heartbeat(old(Table()), c, lease, t1, t2)
      ensures r == Ok(true) ==> forall at :: Q.Owns(Table(), c, at) <==> at < t2 + lease
      ensures r == Ok(false) ==> Table() == old(Table())
    {
      if lease <= 0.0 {
        return Err(Refused);
      }
      if !Owned(c, t1) {
        return Ok(false);
      }
      jobs[c.id].Renew(t2, lease);
      r := Ok(true);
    }

    method Finish(c: Q.Claim, status: JobStatus, code: Option<ErrorCode>, ref: Option<string>, t1: Instant, t2: Instant, t3: Instant)
      returns (r: Result<bool, Refused>)
      requires Valid()
      modifies jobs.Values
      ensures Valid() && jobs == old(jobs)
      ensures r.Err? <==> status !in Successors(Running) || c.attempts < 1
      ensures r.Err? ==> Table() == old(Table())
      ensures r.Ok? ==> r.value == Q.Owns(old(Table()), c, t2)
      ensures r.Ok? ==> Table() == Q.Finish(old(Table()), c, status, code, ref, t1, t2, t3,
                                            Backoff(c.attempts, policy.retryBase, policy.retryMax))
    {
      if status !in Successors(Running) {
        return Err(Refused);
      }
      var outcome := if status == Retrying && c.attempts >= c.maxAttempts then Failed else status;
      var delay := RetryDelay(c.attempts, policy.retryBase, policy.retryMax);
      if delay.Err? {
        return Err(Refused);
      }
      if !Owned(c, t2) {
        return Ok(false);
      }
      jobs[c.id].Close(c, outcome, code, ref, t1, t3, delay.value);
      TableUpdated(c.id);
      r := Ok(true);
    }

    method Fail(c: Q.Claim, code: ErrorCode, retryable: bool, t1: Instant, t2: Instant, t3: Instant) returns (r: Result<bool, Refused>)
      requires Valid()
      modifies jobs.Values
      ensures Valid() && jobs == old(jobs)
      ensures r.Ok? <==> c.attempts >= 1
      ensures r.Err? ==> Table() == old(Table())
      ensures r.Ok? ==> r.value == Q.Owns(old(Table()), c, t2)
      ensures r.Ok? ==> Table() == Q.Finish(old(Table()), c, FailureStatus(c.attempts, c.maxAttempts, retryable), Some(code), None,
                                            t1, t2, t3, Backoff(c.attempts, policy.retryBase, policy.retryMax))
      ensures r == Ok(true) ==>
                var row := Table()[c.id].row;
                && row.errorCode == Some(code) && row.lockedBy.None?
                && (row.status == Retrying <==> retryable && c.attempts < c.maxAttempts)
                && (row.status == Failed <==> !retryable || c.attempts >= c.maxAttempts)
    {
      r := Finish(c, FailureStatus(c.attempts, c.maxAttempts, retryable), Some(code), None, t1, t2, t3);
    }

    method Cancel(id: JobId) returns (ok: bool)
      requires Valid()
      modifies jobs.Values
      ensures Valid() && jobs == old(jobs)
      ensures ok == (id in old(Table()) && Q.Cancellable(old(Table())[id].row.status))
      ensures Table() == Q.Cancel(old(Table()), id)
    {
      if id !in jobs || !Q.Cancellable(jobs[id].status) {
        return false;
      }
      assert Cancelled in Successors(jobs[id].status);
      jobs[id].CancelRow(id);
      ok := true;
    }

    method ReportProgress(c: Q.Claim, kind: EventKind, key: Key, t1: Instant) returns (r: Result<bool, Refused>)
      requires Valid()
      modifies jobs.Values
      ensures Valid() && jobs == old(jobs)
      ensures r.Err? <==> !IsProgressKind(kind)
      ensures r.Err? ==> Table() == old(Table())
      ensures r.Ok? ==> r.value == Q.Reported(old(Table()), c, key, t1)
      ensures r.Ok? ==> Table() == Q.Report(old(Table()), c, kind, key, t1)
    {
      if !IsProgressKind(kind) {
        return Err(Refused);
      }
      if c.id in jobs && HasKey(jobs[c.id].log, key) {
        return Ok(true);
      }
      if !Owned(c, t1) {
        return Ok(false);
      }
      jobs[c.id].AppendEvent(kind, c.attempts, key);
      r := Ok(true);
    }

    /** The reaper's loop body: one lapsed row goes back to waiting, or fails for good. */
    method ReapRow(id: JobId, ghost before: Q.Store, ghost reaped: seq<JobId>, now: Instant)
      requires Valid() && id in jobs && before.Keys == jobs.Keys && id !in reaped
      requires Table() == Q.Reap(policy, before, reaped, now) && Running == before[id].row.status
      modifies jobs[id]
      ensures Table() == Q.Reap(policy, before, reaped + [id], now)
    {
      var job := jobs[id];
      assert Table()[id] == job.Rec();
      assert FailureStatus(job.attempts, job.maxAttempts, true) in Successors(job.status);
      var delay := RetryDelay(if job.attempts >= 1 then job.attempts else 1, policy.retryBase, policy.retryMax);
      job.Recover(now, delay.value);
      TableUpdated(id);
      assert job.Rec() == Q.Reaped(before[id], now, Q.ReapDelay(policy, before[id].row));
      ReapedNext(before, reaped, id, now);
    }

    lemma ReapedNext(before: Q.Store, reaped: seq<JobId>, id: JobId, now: Instant)
      requires id in before && id !in reaped
      ensures Q.Reap(policy, before, reaped + [id], now)
           == Q.Reap(policy, before, reaped, now)[id := Q.Reaped(before[id], now, Q.ReapDelay(policy, before[id].row))]
    {
    }

    method Reap(limit: nat, ghost skipped: set<JobId>, batch: seq<JobId>, t1: Instant, t2: Instant) returns (r: Result<nat, Refused>)
      requires Valid() && Q.ReapAnswer(Table(), t1, skipped, limit, batch)
      modifies jobs.Values
      ensures Valid() && jobs == old(jobs)
      ensures r.Err? <==> limit < 1
      ensures r.Err? ==> Table() == old(Table())
      ensures r.Ok? ==> r.value == |batch| && Table() == Q.Reap(policy, old(Table()), batch, t2)
    {
      if limit < 1 {
        return Err(Refused);
      }
      ghost var before := Table();
      forall i | 0 <= i < |batch| ensures batch[i] in jobs && before[batch[i]].row.status == Running {
        assert Q.LapsedIn(before, t1, skipped, batch[i]);
      }
      ReapBatch(batch, before, t2);
      r := Ok(|batch|);
    }

    method ReapBatch(batch: seq<JobId>, ghost before: Q.Store, now: Instant)
      requires Valid() && Table() == before && Distinct(batch)
      requires forall i :: 0 <= i < |batch| ==> batch[i] in jobs && before[batch[i]].row.status == Running
      modifies jobs.Values
      ensures Valid() && jobs == old(jobs) && Table() == Q.Reap(policy, before, batch, now)
    {
      assert before.Keys == jobs.Keys;
      for k := 0 to |batch|
        invariant Table() == Q.Reap(policy, before, batch[..k], now)
      {
        ReapRow(batch[k], before, batch[..k], now);
        assert batch[..k + 1] == batch[..k] + [batch[k]];
      }
      assert batch[..|batch|] == batch;
    }
  }
}
