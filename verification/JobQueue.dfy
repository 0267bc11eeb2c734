/** What each repository transaction does to the jobs table (packages/persistence/jobs.py), as
    functions on values. A transaction reads the database clock more than once; each reading is a
    parameter, later readings are not smaller. Rows locked by other transactions are skipped. */
module JobQueue {
  import opened Support
  import opened JobPolicy
  import opened JobEvents

  type Worker = string
  datatype Lane = Interactive | Prefetch | Batch
  datatype Progress = Progress(stage: string, percent: nat)

  datatype Row = Row(
    priority: int, lane: Lane, createdAt: Instant, maxAttempts: nat,
    status: JobStatus, attempts: nat, runAfter: Instant,
    lockedBy: Option<Worker>, leaseExpiresAt: Option<Instant>, heartbeatAt: Option<Instant>,
    errorCode: Option<ErrorCode>, resultRef: Option<string>,
    progress: Option<Progress>, latestSequence: nat)

  /** A row and its durable events. */
  datatype Record = Record(row: Row, log: seq<Event>)

  type Store = map<JobId, Record>

  /** The detached snapshot a worker holds: its ownership token. */
  datatype Claim = Claim(id: JobId, worker: Worker, attempts: nat, maxAttempts: nat, leaseExpiresAt: Instant)

  datatype Policy = Policy(retryBase: real, retryMax: real)

  /** append_event: takes the next sequence number in the same transaction. */
  function Append(rec: Record, kind: EventKind, attempt: nat, key: Key): Record {
    var sequence := rec.row.latestSequence + 1;
    var progress := match kind
      case StageStarted(stage, percent) => Some(Progress(stage, percent))
      case ProgressUpdated(stage, percent) => Some(Progress(stage, percent))
      case _ => rec.row.progress;
    Record(rec.row.(latestSequence := sequence, progress := progress), rec.log + [Event(sequence, kind, attempt, key)])
  }

  // ---------------------------------------------------------------- enqueue

  function NewRecord(priority: int, lane: Lane, maxAttempts: nat, now: Instant): Record {
    var row := Row(priority, lane, now, maxAttempts, Pending, 0, now, None, None, None, None, None, None, 0);
    Append(Record(row, []), Created, 0, CreatedKey)
  }

  function Enqueue(store: Store, id: JobId, priority: int, lane: Lane, maxAttempts: nat, now: Instant): Store {
    if id in store || maxAttempts < 1 then store else store[id := NewRecord(priority, lane, maxAttempts, now)]
  }

  // ---------------------------------------------------------------- claim

  predicate Claimable(row: Row, lanes: set<Lane>, at: Instant) {
    && (row.status == Pending || row.status == Retrying)
    && row.runAfter <= at
    && row.attempts < row.maxAttempts
    && row.lane in lanes
  }

  /** ORDER BY priority DESC, created_at, id. */
  predicate ClaimsBefore(a: Row, i: JobId, b: Row, j: JobId) {
    a.priority > b.priority
    || (a.priority == b.priority && (a.createdAt < b.createdAt || (a.createdAt == b.createdAt && i <= j)))
  }

  predicate Offered(store: Store, lanes: set<Lane>, at: Instant, skipped: set<JobId>, id: JobId) {
    id in store && id !in skipped && Claimable(store[id].row, lanes, at)
  }

  /** What claim_query may answer while other transactions hold the skipped rows. */
  ghost predicate ClaimAnswer(store: Store, lanes: set<Lane>, at: Instant, skipped: set<JobId>, found: Option<JobId>) {
    match found
    case None => forall id :: id in store ==> !Offered(store, lanes, at, skipped, id)
    case Some(best) =>
      && Offered(store, lanes, at, skipped, best)
      && forall id :: id in store && Offered(store, lanes, at, skipped, id) ==> ClaimsBefore(store[best].row, best, store[id].row, id)
  }

  function Claimed(rec: Record, worker: Worker, now: Instant, lease: real): Record {
    var row := rec.row.(
      status := Running, attempts := rec.row.attempts + 1, lockedBy := Some(worker),
      heartbeatAt := Some(now), leaseExpiresAt := Some(now + lease), errorCode := None);
    Append(Record(row, rec.log), Started, row.attempts, StartedKey(row.attempts))
  }

  function IssuedClaim(rec: Record, id: JobId, worker: Worker, now: Instant, lease: real): Claim {
    Claim(id, worker, rec.row.attempts + 1, rec.row.maxAttempts, now + lease)
  }

  function ClaimIn(store: Store, found: Option<JobId>, worker: Worker, now: Instant, lease: real): Store
    requires found.Some? ==> found.value in store
  {
    match found
    case None => store
    case Some(id) => store[id := Claimed(store[id], worker, now, lease)]
  }

  // ---------------------------------------------------------------- the fence

  /** ownership(): the token's worker and attempt, a running row, and a live lease. */
  predicate OwnsRow(row: Row, c: Claim, at: Instant) {
    && row.lockedBy == Some(c.worker)
    && row.attempts == c.attempts
    && row.status == Running
    && row.leaseExpiresAt.Some? && row.leaseExpiresAt.value > at
  }

  predicate Owns(store: Store, c: Claim, at: Instant) {
    c.id in store && OwnsRow(store[c.id].row, c, at)
  }

  function Heartbeat(store: Store, c: Claim, lease: real, at: Instant, now: Instant): Store {
    if Owns(store, c, at) then
      var rec := store[c.id];
      store[c.id := rec.(row := rec.row.(heartbeatAt := Some(now), leaseExpiresAt := Some(now + lease)))]
    else store
  }

  // ---------------------------------------------------------------- finish

  function FinishStatus(c: Claim, status: JobStatus): JobStatus {
    if status == Retrying && c.attempts >= c.maxAttempts then Failed else status
  }

  function OrElse(code: Option<ErrorCode>, default: ErrorCode): ErrorCode {
    if code.Some? then code.value else default
  }

  function ReleasedRow(row: Row, status: JobStatus, code: Option<ErrorCode>, resultRef: Option<string>, runAfter: Instant): Row {
    row.(status := status, errorCode := code, resultRef := resultRef, runAfter := runAfter,
         lockedBy := None, leaseExpiresAt := None, heartbeatAt := None)
  }

  /** The event each outcome appends, and its key. */
  function OutcomeKind(status: JobStatus, code: Option<ErrorCode>, resultRef: Option<string>, retryAt: Instant): (EventKind, Closing)
    requires status in Successors(Running)
  {
    match status
    case Retrying => (RetryScheduled(OrElse(code, RETRYABLE_FAILURE), retryAt), ByRetry)
    case Failed => (FailedWith(OrElse(code, PERMANENT_FAILURE)), ByFailure)
    case Cancelled => (CancelledEvent, ByCancel)
    case Partial => (PartialResult("job_result"), ByPartial)
    case Succeeded => (Completed(resultRef.Some?), ByCompletion)
  }

  function Finished(rec: Record, c: Claim, status: JobStatus, code: Option<ErrorCode>, resultRef: Option<string>,
                    now: Instant, late: Instant, delay: real): Record
    requires status in Successors(Running)
  {
    var keptRef := if status == Succeeded || status == Partial then resultRef else None;
    var row := ReleasedRow(rec.row, status, code, keptRef, if status == Retrying then late + delay else now);
    var (kind, closing) := OutcomeKind(status, code, resultRef, now + delay);
    Append(Record(row, rec.log), kind, c.attempts, ClosingKey(c.attempts, closing))
  }

  function Finish(store: Store, c: Claim, status: JobStatus, code: Option<ErrorCode>, resultRef: Option<string>,
                  now: Instant, at: Instant, late: Instant, delay: real): Store
    requires status in Successors(Running)
  {
    if Owns(store, c, at) then store[c.id := Finished(store[c.id], c, FinishStatus(c, status), code, resultRef, now, late, delay)]
    else store
  }

  // ---------------------------------------------------------------- cancel

  predicate Cancellable(status: JobStatus) {
    status == Pending || status == Retrying || status == Running || status == Partial
  }

  function CancelledRecord(id: JobId, rec: Record): Record {
    var row := rec.row.(status := Cancelled, errorCode := Some(CANCELLED_CODE),
                        lockedBy := None, leaseExpiresAt := None, heartbeatAt := None);
    Append(Record(row, rec.log), CancelledEvent, row.attempts, CancelKey(id))
  }

  function Cancel(store: Store, id: JobId): Store {
    if id in store && Cancellable(store[id].row.status) then store[id := CancelledRecord(id, store[id])] else store
  }

  // ---------------------------------------------------------------- progress

  function Report(store: Store, c: Claim, kind: EventKind, key: Key, at: Instant): Store {
    if c.id in store && !HasKey(store[c.id].log, key) && Owns(store, c, at)
    then store[c.id := Append(store[c.id], kind, c.attempts, key)]
    else store
  }

  predicate Reported(store: Store, c: Claim, key: Key, at: Instant) {
    c.id in store && (HasKey(store[c.id].log, key) || Owns(store, c, at))
  }

  // ---------------------------------------------------------------- reap

  predicate Lapsed(row: Row, at: Instant) {
    row.status == Running && row.leaseExpiresAt.Some? && row.leaseExpiresAt.value <= at
  }

  predicate LapsedIn(store: Store, at: Instant, skipped: set<JobId>, id: JobId) {
    id in store && id !in skipped && Lapsed(store[id].row, at)
  }

  /** ORDER BY lease_expires_at, id. */
  predicate LapsesBefore(a: Row, i: JobId, b: Row, j: JobId) {
    a.leaseExpiresAt.Some? && b.leaseExpiresAt.Some?
    && (a.leaseExpiresAt.value < b.leaseExpiresAt.value || (a.leaseExpiresAt.value == b.leaseExpiresAt.value && i <= j))
  }

  /** What the reaper's query may answer: the first limit lapsed rows that are not skipped. */
  ghost predicate ReapAnswer(store: Store, at: Instant, skipped: set<JobId>, limit: nat, batch: seq<JobId>) {
    && Distinct(batch) && |batch| <= limit
    && (forall i :: 0 <= i < |batch| ==> LapsedIn(store, at, skipped, batch[i]))
    && (forall i, j :: 0 <= i < j < |batch| ==> LapsesBefore(store[batch[i]].row, batch[i], store[batch[j]].row, batch[j]))
    && (forall id :: LapsedIn(store, at, skipped, id) && id !in batch ==>
          |batch| == limit && forall b :: b in batch ==> LapsesBefore(store[b].row, b, store[id].row, id))
  }

  function ReapedRow(row: Row, runAfter: Instant): Row {
    row.(status := FailureStatus(row.attempts, row.maxAttempts, true), errorCode := Some(LEASE_EXPIRED), runAfter := runAfter,
         lockedBy := None, leaseExpiresAt := None, heartbeatAt := None)
  }

  function Reaped(rec: Record, now: Instant, delay: real): Record {
    var n := rec.row.attempts;
    var row := ReapedRow(rec.row, now + delay);
    if row.status == Retrying then
      Append(Append(Record(row, rec.log), Recovered(n, n + 1), n, ClosingKey(n, ByRecovery)),
             RetryScheduled(LEASE_EXPIRED, now + delay), n, ClosingKey(n, ByReaperRetry))
    else
      Append(Record(row, rec.log), FailedWith(LEASE_EXPIRED), n, ClosingKey(n, ByReaperFailure))
  }

  ghost function ReapDelay(p: Policy, row: Row): real {
    Backoff(if row.attempts >= 1 then row.attempts else 1, p.retryBase, p.retryMax)
  }

  ghost function Reap(p: Policy, store: Store, batch: seq<JobId>, now: Instant): Store {
    map id | id in store :: if id in batch then Reaped(store[id], now, ReapDelay(p, store[id].row)) else store[id]
  }

  // ---------------------------------------------------------------- what every row satisfies

  predicate KeyAllowed(row: Row, key: Key) {
    match key
    case CreatedKey => true
    case CancelKey(_) => row.status == Cancelled
    case StartedKey(n) => n <= row.attempts
    case ClosingKey(n, _) => n < row.attempts || (n == row.attempts && row.status != Running)
    case StageKey(_, _) => true
    case ProgressKey(_, _, _) => true
    case PartialKey(_, _) => true
  }

  /** Every key used so far is one the row can have used. */
  ghost predicate KeysAllowed(row: Row, log: seq<Event>) {
    forall k :: HasKey(log, k) ==> KeyAllowed(row, k)
  }

  ghost predicate LogAgrees(rec: Record) {
    && rec.row.latestSequence == |rec.log| && Sequenced(rec.log)
    && UniqueKeys(rec.log)
    && KeysAllowed(rec.row, rec.log)
    && Fold(rec.log) == Folded(rec.row.status, rec.row.attempts)
    && CountStarted(rec.log) == rec.row.attempts
    && CountTerminal(rec.log) == (if IsTerminal(rec.row.status) then 1 else 0)
    && CountLifecycle(rec.log) + (if rec.row.status == Running then 2 else 0)
         <= 3 * rec.row.attempts + 1 + (if rec.row.status == Cancelled then 1 else 0)
  }

  ghost predicate RowSound(row: Row) {
    && row.attempts <= row.maxAttempts
    && (row.status == Pending || row.status == Retrying ==> row.attempts < row.maxAttempts)
    && (row.status == Running <==> row.lockedBy.Some?)
    && (row.lockedBy.Some? <==> row.leaseExpiresAt.Some?)
    && (row.status == Running || row.status == Retrying ==> row.attempts >= 1)
  }

  ghost predicate RecordInv(rec: Record) {
    RowSound(rec.row) && LogAgrees(rec)
  }

  /** The event fits the log and the row: what its append has to meet. */
  ghost predicate Fits(row: Row, log: seq<Event>, kind: EventKind, attempt: nat, key: Key) {
    && row.latestSequence == |log| && Sequenced(log) && UniqueKeys(log) && KeysAllowed(row, log)
    && !HasKey(log, key) && KeyAllowed(row, key)
    && FoldStep(Fold(log), Event(|log| + 1, kind, attempt, key)) == Folded(row.status, row.attempts)
    && CountStarted(log) + (if kind.Started? then 1 else 0) == row.attempts
    && CountTerminal(log) + (if IsTerminalKind(kind) then 1 else 0) == (if IsTerminal(row.status) then 1 else 0)
    && CountLifecycle(log) + (if IsLifecycle(Event(|log| + 1, kind, attempt, key)) then 1 else 0)
         + (if row.status == Running then 2 else 0)
       <= 3 * row.attempts + 1 + (if row.status == Cancelled then 1 else 0)
  }

  lemma AppendedCounts(log: seq<Event>, kind: EventKind, attempt: nat, key: Key)
    ensures var e := Event(|log| + 1, kind, attempt, key);
            var log' := Appended(log, kind, attempt, key);
            && Fold(log') == FoldStep(Fold(log), e)
            && CountStarted(log') == CountStarted(log) + (if kind.Started? then 1 else 0)
            && CountTerminal(log') == CountTerminal(log) + (if IsTerminalKind(kind) then 1 else 0)
            && CountLifecycle(log') == CountLifecycle(log) + (if IsLifecycle(e) then 1 else 0)
            && (Sequenced(log') <==> Sequenced(log))
            && (UniqueKeys(log') <==> UniqueKeys(log) && !HasKey(log, key))
  {
    AppendedReads(log, kind, attempt, key);
  }

  lemma AppendedAllowed(row: Row, row': Row, log: seq<Event>, kind: EventKind, attempt: nat, key: Key)
    requires KeyStable(row, row')
    ensures KeysAllowed(row', Appended(log, kind, attempt, key)) <==> KeysAllowed(row, log) && KeyAllowed(row, key)
  {
    AppendedReads(log, kind, attempt, key);
    var log' := Appended(log, kind, attempt, key);
    if KeysAllowed(row', log') {
      forall k | HasKey(log, k) ensures KeyAllowed(row, k) {
        assert HasKey(log', k) && KeyAllowed(row', k);
      }
      assert HasKey(log', key) && KeyAllowed(row', key);
    }
  }

  lemma AppendFits(row: Row, log: seq<Event>, kind: EventKind, attempt: nat, key: Key)
    requires Fits(row, log, kind, attempt, key)
    ensures LogAgrees(Append(Record(row, log), kind, attempt, key))
  {
    var rec := Append(Record(row, log), kind, attempt, key);
    AppendedCounts(log, kind, attempt, key);
    AppendedAllowed(row, rec.row, log, kind, attempt, key);
    assert rec.log == Appended(log, kind, attempt, key);
  }

  lemma AppendNeeds(row: Row, log: seq<Event>, kind: EventKind, attempt: nat, key: Key)
    requires LogAgrees(Append(Record(row, log), kind, attempt, key))
    ensures Fits(row, log, kind, attempt, key)
  {
    var rec := Append(Record(row, log), kind, attempt, key);
    assert |rec.log| == |log| + 1 && row.latestSequence == |log|;
    AppendedCounts(log, kind, attempt, key);
    AppendedAllowed(row, rec.row, log, kind, attempt, key);
    assert rec.log == Appended(log, kind, attempt, key);
  }

  /** A log with one more event agrees with a row that was just updated exactly when the event fits. */
  lemma AppendAgrees(row: Row, log: seq<Event>, kind: EventKind, attempt: nat, key: Key)
    ensures LogAgrees(Append(Record(row, log), kind, attempt, key)) <==> Fits(row, log, kind, attempt, key)
  {
    if Fits(row, log, kind, attempt, key) {
      AppendFits(row, log, kind, attempt, key);
    } else if LogAgrees(Append(Record(row, log), kind, attempt, key)) {
      AppendNeeds(row, log, kind, attempt, key);
    }
  }

  /** Key permissions depend on the status and the attempt count only. */
  predicate KeyStable(row: Row, row': Row) {
    row.status == row'.status && row.attempts == row'.attempts
  }

  lemma NewRecordInv(priority: int, lane: Lane, maxAttempts: nat, now: Instant)
    requires maxAttempts >= 1
    ensures RecordInv(NewRecord(priority, lane, maxAttempts, now))
  {
    var row := Row(priority, lane, now, maxAttempts, Pending, 0, now, None, None, None, None, None, None, 0);
    AppendFits(row, [], Created, 0, CreatedKey);
  }

  /** Starting the next attempt makes no used key forbidden, and its own key is unused. */
  lemma StartKeys(rec: Record, row: Row)
    requires RecordInv(rec) && row.attempts == rec.row.attempts + 1 && rec.row.status != Cancelled
    ensures KeysAllowed(row, rec.log)
    ensures !HasKey(rec.log, StartedKey(row.attempts))
  {
    forall k | HasKey(rec.log, k) ensures KeyAllowed(row, k) && k != StartedKey(row.attempts) {
      assert KeyAllowed(rec.row, k);
    }
  }

  /** The STARTED event fits a waiting row that has just begun its next attempt. */
  lemma StartedAgrees(rec: Record, row: Row)
    requires RecordInv(rec) && (rec.row.status == Pending || rec.row.status == Retrying)
    requires row.status == Running && row.attempts == rec.row.attempts + 1 && row.latestSequence == rec.row.latestSequence
    ensures LogAgrees(Append(Record(row, rec.log), Started, row.attempts, StartedKey(row.attempts)))
  {
    StartKeys(rec, row);
    AppendFits(row, rec.log, Started, row.attempts, StartedKey(row.attempts));
  }

  lemma ClaimedInv(rec: Record, lanes: set<Lane>, at: Instant, worker: Worker, now: Instant, lease: real)
    requires RecordInv(rec) && Claimable(rec.row, lanes, at)
    ensures RecordInv(Claimed(rec, worker, now, lease))
  {
    var n := rec.row.attempts + 1;
    var row := rec.row.(
      status := Running, attempts := n, lockedBy := Some(worker),
      heartbeatAt := Some(now), leaseExpiresAt := Some(now + lease), errorCode := None);
    StartedAgrees(rec, row);
  }

  /** A running attempt has used none of its closing keys yet, and ending it forbids no used key. */
  lemma ClosingKeysFree(rec: Record, row: Row, closing: Closing)
    requires RecordInv(rec) && rec.row.status == Running && row.attempts == rec.row.attempts && row.status != Running
    ensures KeysAllowed(row, rec.log)
    ensures !HasKey(rec.log, ClosingKey(row.attempts, closing))
  {
    forall k | HasKey(rec.log, k) ensures KeyAllowed(row, k) && k != ClosingKey(row.attempts, closing) {
      assert KeyAllowed(rec.row, k);
    }
  }

  /** An event that closes the running attempt fits the row it has just brought to its new status. */
  lemma ClosingAgrees(rec: Record, row: Row, kind: EventKind, closing: Closing)
    requires RecordInv(rec) && rec.row.status == Running && row.status != Running
    requires row.attempts == rec.row.attempts && row.latestSequence == rec.row.latestSequence
    requires !kind.Started? && (IsTerminalKind(kind) <==> IsTerminal(row.status))
    requires var e := Event(|rec.log| + 1, kind, row.attempts, ClosingKey(row.attempts, closing));
             FoldStep(Folded(Running, row.attempts), e) == Folded(row.status, row.attempts)
    ensures LogAgrees(Append(Record(row, rec.log), kind, row.attempts, ClosingKey(row.attempts, closing)))
  {
    ClosingKeysFree(rec, row, closing);
    AppendFits(row, rec.log, kind, row.attempts, ClosingKey(row.attempts, closing));
  }

  /** What OutcomeKind returns says the status it was given. */
  lemma OutcomeFolds(status: JobStatus, code: Option<ErrorCode>, resultRef: Option<string>, retryAt: Instant, n: nat, sequence: nat)
    requires status in Successors(Running)
    ensures var (kind, closing) := OutcomeKind(status, code, resultRef, retryAt);
            && !kind.Started? && (IsTerminalKind(kind) <==> IsTerminal(status))
            && FoldStep(Folded(Running, n), Event(sequence, kind, n, ClosingKey(n, closing))) == Folded(status, n)
  {
  }

  lemma FinishedInv(rec: Record, c: Claim, at: Instant, status: JobStatus, code: Option<ErrorCode>, resultRef: Option<string>,
                    now: Instant, late: Instant, delay: real)
    requires RecordInv(rec) && OwnsRow(rec.row, c, at)
    requires status in Successors(Running) && (status == Retrying ==> rec.row.attempts < rec.row.maxAttempts)
    ensures RecordInv(Finished(rec, c, status, code, resultRef, now, late, delay))
  {
    var keptRef := if status == Succeeded || status == Partial then resultRef else None;
    var row := ReleasedRow(rec.row, status, code, keptRef, if status == Retrying then late + delay else now);
    var (kind, closing) := OutcomeKind(status, code, resultRef, now + delay);
    OutcomeFolds(status, code, resultRef, now + delay, c.attempts, |rec.log| + 1);
    ClosingAgrees(rec, row, kind, closing);
  }

  lemma CancelledInv(id: JobId, rec: Record)
    requires RecordInv(rec) && Cancellable(rec.row.status)
    ensures RecordInv(CancelledRecord(id, rec))
  {
    var row := rec.row.(status := Cancelled, errorCode := Some(CANCELLED_CODE),
                        lockedBy := None, leaseExpiresAt := None, heartbeatAt := None);
    assert !HasKey(rec.log, CancelKey(id));
    AppendFits(row, rec.log, CancelledEvent, rec.row.attempts, CancelKey(id));
  }

  lemma ReportedInv(rec: Record, kind: EventKind, key: Key)
    requires RecordInv(rec) && rec.row.status == Running && !HasKey(rec.log, key)
    requires IsProgressKind(kind) && IsReportKey(key)
    ensures RecordInv(Append(rec, kind, rec.row.attempts, key))
  {
    AppendFits(rec.row, rec.log, kind, rec.row.attempts, key);
  }

  /** The record between the two events of a recovery. */
  function RecoveredRecord(rec: Record, runAfter: Instant): Record {
    var n := rec.row.attempts;
    Append(Record(ReapedRow(rec.row, runAfter), rec.log), Recovered(n, n + 1), n, ClosingKey(n, ByRecovery))
  }

  lemma RecoveredAgrees(rec: Record, at: Instant, runAfter: Instant)
    requires RecordInv(rec) && Lapsed(rec.row, at) && rec.row.attempts < rec.row.maxAttempts
    ensures LogAgrees(RecoveredRecord(rec, runAfter))
  {
    var n, row := rec.row.attempts, ReapedRow(rec.row, runAfter);
    ClosingAgrees(rec, row, Recovered(n, n + 1), ByRecovery);
  }

  lemma RecoveredLeavesRoom(rec: Record, at: Instant, runAfter: Instant)
    requires RecordInv(rec) && Lapsed(rec.row, at) && rec.row.attempts < rec.row.maxAttempts
    ensures !HasKey(RecoveredRecord(rec, runAfter).log, ClosingKey(rec.row.attempts, ByReaperRetry))
    ensures CountLifecycle(RecoveredRecord(rec, runAfter).log) <= 3 * rec.row.attempts
  {
    var n := rec.row.attempts;
    ClosingKeysFree(rec, ReapedRow(rec.row, runAfter), ByReaperRetry);
    AppendedReads(rec.log, Recovered(n, n + 1), n, ClosingKey(n, ByRecovery));
    assert RecoveredRecord(rec, runAfter).log == Appended(rec.log, Recovered(n, n + 1), n, ClosingKey(n, ByRecovery));
  }

  lemma RetriedInv(rec: Record, at: Instant, now: Instant, delay: real)
    requires RecordInv(rec) && Lapsed(rec.row, at) && rec.row.attempts < rec.row.maxAttempts
    ensures RecordInv(Reaped(rec, now, delay))
  {
    var n, mid := rec.row.attempts, RecoveredRecord(rec, now + delay);
    RecoveredAgrees(rec, at, now + delay);
    RecoveredLeavesRoom(rec, at, now + delay);
    AppendFits(mid.row, mid.log, RetryScheduled(LEASE_EXPIRED, now + delay), n, ClosingKey(n, ByReaperRetry));
  }

  lemma ReapedInv(rec: Record, at: Instant, now: Instant, delay: real)
    requires RecordInv(rec) && Lapsed(rec.row, at)
    ensures RecordInv(Reaped(rec, now, delay))
  {
    if rec.row.attempts < rec.row.maxAttempts {
      RetriedInv(rec, at, now, delay);
    } else {
      var n, row := rec.row.attempts, ReapedRow(rec.row, now + delay);
      ClosingAgrees(rec, row, FailedWith(LEASE_EXPIRED), ByReaperFailure);
    }
  }
}
