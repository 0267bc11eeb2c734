/** Whole runs of the job queue: any interleaving of transactions by any number of workers and
    reapers under a clock that never goes back, with the set of all claims ever issued. */
module JobRuns {
  import opened Support
  import opened JobPolicy
  import opened JobEvents
  import opened JobQueue

  datatype World = World(now: Instant, store: Store, issued: set<Claim>)

  /** One committed transaction, with the clock readings it made (t1 <= t2 <= t3) and what its
      query answered. A tick is a transaction that changes nothing. */
  datatype Step =
    | Tick(t1: Instant)
    | EnqueueStep(id: JobId, priority: int, lane: Lane, maxAttempts: nat, t1: Instant)
    | ClaimStep(worker: Worker, lanes: set<Lane>, lease: real, skipped: set<JobId>, found: Option<JobId>, t1: Instant, t2: Instant)
    | HeartbeatStep(claim: Claim, lease: real, t1: Instant, t2: Instant)
    | FinishStep(claim: Claim, status: JobStatus, code: Option<ErrorCode>, resultRef: Option<string>, t1: Instant, t2: Instant, t3: Instant)
    | CancelStep(id: JobId, t1: Instant)
    | ReportStep(claim: Claim, kind: EventKind, key: Key, t1: Instant)
    | ReapStep(limit: nat, skipped: set<JobId>, batch: seq<JobId>, t1: Instant, t2: Instant)

  /** Workers present only claims the queue issued, and report under keys other than the queue's own. */
  ghost predicate Admissible(w: World, s: Step) {
    w.now <= s.t1 &&
    match s
    case Tick(_) => true
    case EnqueueStep(_, _, _, _, _) => true
    case ClaimStep(worker, lanes, lease, skipped, found, t1, t2) =>
      worker != "" && lease > 0.0 && t1 <= t2 && ClaimAnswer(w.store, lanes, t1, skipped, found)
    case HeartbeatStep(claim, lease, t1, t2) => claim in w.issued && lease > 0.0 && t1 <= t2
    case FinishStep(claim, status, _, _, t1, t2, t3) =>
      claim in w.issued && status in Successors(Running) && t1 <= t2 <= t3
    case CancelStep(_, _) => true
    case ReportStep(claim, kind, key, _) => claim in w.issued && IsProgressKind(kind) && IsReportKey(key)
    case ReapStep(limit, skipped, batch, t1, t2) =>
      limit >= 1 && t1 <= t2 && ReapAnswer(w.store, t1, skipped, limit, batch)
  }

  ghost function Apply(p: Policy, w: World, s: Step): World
    requires Admissible(w, s)
  {
    match s
    case Tick(t1) => World(t1, w.store, w.issued)
    case EnqueueStep(id, priority, lane, maxAttempts, t1) =>
      World(t1, Enqueue(w.store, id, priority, lane, maxAttempts, t1), w.issued)
    case ClaimStep(worker, lanes, lease, skipped, found, t1, t2) =>
      World(t2, ClaimIn(w.store, found, worker, t2, lease),
            if found.None? then w.issued
            else w.issued + {IssuedClaim(w.store[found.value], found.value, worker, t2, lease)})
    case HeartbeatStep(claim, lease, t1, t2) =>
      World(t2, Heartbeat(w.store, claim, lease, t1, t2), w.issued)
    case FinishStep(claim, status, code, resultRef, t1, t2, t3) =>
      var delay := if claim.attempts >= 1 then Backoff(claim.attempts, p.retryBase, p.retryMax) else 0.0;
      World(t3, Finish(w.store, claim, status, code, resultRef, t1, t2, t3, delay), w.issued)
    case CancelStep(id, t1) => World(t1, Cancel(w.store, id), w.issued)
    case ReportStep(claim, kind, key, t1) => World(t1, Report(w.store, claim, kind, key, t1), w.issued)
    case ReapStep(limit, skipped, batch, t1, t2) => World(t2, Reap(p, w.store, batch, t2), w.issued)
  }

  const EmptyWorld := World(0.0, map[], {})

  ghost predicate StepAt(p: Policy, ws: seq<World>, steps: seq<Step>, i: nat)
    requires i + 1 < |ws| && i < |steps|
  {
    Admissible(ws[i], steps[i]) && ws[i + 1] == Apply(p, ws[i], steps[i])
  }

  ghost predicate IsRun(p: Policy, ws: seq<World>, steps: seq<Step>) {
    |ws| == |steps| + 1 && forall i {:trigger StepAt(p, ws, steps, i)} :: 0 <= i < |steps| ==> StepAt(p, ws, steps, i)
  }

  /** What a step does to one existing row. */
  ghost function Effect(p: Policy, w: World, s: Step, id: JobId): Record
    requires Admissible(w, s) && id in w.store
  {
    var rec := w.store[id];
    match s
    case Tick(_) => rec
    case EnqueueStep(_, _, _, _, _) => rec
    case ClaimStep(worker, _, lease, _, found, _, t2) =>
      if found == Some(id) then Claimed(rec, worker, t2, lease) else rec
    case HeartbeatStep(c, lease, t1, t2) =>
      if c.id == id && OwnsRow(rec.row, c, t1)
      then rec.(row := rec.row.(heartbeatAt := Some(t2), leaseExpiresAt := Some(t2 + lease))) else rec
    case FinishStep(c, status, code, resultRef, t1, t2, t3) =>
      var delay := if c.attempts >= 1 then Backoff(c.attempts, p.retryBase, p.retryMax) else 0.0;
      if c.id == id && OwnsRow(rec.row, c, t2)
      then Finished(rec, c, FinishStatus(c, status), code, resultRef, t1, t3, delay) else rec
    case CancelStep(j, _) => if j == id && Cancellable(rec.row.status) then CancelledRecord(id, rec) else rec
    case ReportStep(c, kind, key, t1) =>
      if c.id == id && !HasKey(rec.log, key) && OwnsRow(rec.row, c, t1) then Append(rec, kind, c.attempts, key) else rec
    case ReapStep(_, _, batch, _, t2) => if id in batch then Reaped(rec, t2, ReapDelay(p, rec.row)) else rec
  }

  /** Steps touch rows one by one, and only an enqueue or nothing adds a row. */
  lemma ApplyIsEffect(p: Policy, w: World, s: Step)
    requires Admissible(w, s)
    ensures forall id :: id in w.store ==> id in Apply(p, w, s).store && Apply(p, w, s).store[id] == Effect(p, w, s, id)
    ensures forall id :: id in Apply(p, w, s).store && id !in w.store ==>
              s.EnqueueStep? && s.maxAttempts >= 1
              && Apply(p, w, s).store[id] == NewRecord(s.priority, s.lane, s.maxAttempts, s.t1)
  {
  }

  // ---------------------------------------------------------------- invariant

  ghost predicate ClaimsSound(w: World) {
    && (forall c :: c in w.issued ==>
          c.id in w.store && 1 <= c.attempts <= w.store[c.id].row.attempts && c.maxAttempts == w.store[c.id].row.maxAttempts)
    && (forall c, d :: c in w.issued && d in w.issued && c.id == d.id && c.attempts == d.attempts ==> c == d)
    && (forall id {:trigger HasHolder(w, id)} :: id in w.store && w.store[id].row.status == Running ==> HasHolder(w, id))
  }

  ghost predicate HasHolder(w: World, id: JobId) {
    exists c :: c in w.issued && Holds(w, c, id)
  }

  /** The claim of the current attempt, by the worker that locked the row. */
  ghost predicate Holds(w: World, c: Claim, id: JobId) {
    && c.id == id && id in w.store
    && c.attempts == w.store[id].row.attempts && w.store[id].row.lockedBy == Some(c.worker)
  }

  ghost predicate Inv(w: World) {
    ClaimsSound(w) && forall id :: id in w.store ==> RecordInv(w.store[id])
  }

  /** How one step may change one row, without saying which step it was. */
  ghost predicate Evolves(before: Record, after: Record) {
    && before.log <= after.log
    && before.row.attempts <= after.row.attempts
    && before.row.maxAttempts == after.row.maxAttempts
    && (IsTerminal(before.row.status) ==> after == before)
    && (after.row.status == Running && before.row.status == Running ==>
          after.row.attempts == before.row.attempts && after.row.lockedBy == before.row.lockedBy)
  }

  lemma EffectInv(p: Policy, w: World, s: Step, id: JobId)
    requires Inv(w) && Admissible(w, s) && id in w.store
    ensures RecordInv(Effect(p, w, s, id))
  {
    var rec := w.store[id];
    assert RecordInv(rec);
    match s
    case Tick(_) =>
    case EnqueueStep(_, _, _, _, _) =>
    case ClaimStep(worker, lanes, lease, _, found, t1, t2) =>
      if found == Some(id) { ClaimedInv(rec, lanes, t1, worker, t2, lease); }
    case HeartbeatStep(_, _, _, _) =>
    case FinishStep(c, status, code, resultRef, t1, t2, t3) =>
      if c.id == id && OwnsRow(rec.row, c, t2) {
        FinishedInv(rec, c, t2, FinishStatus(c, status), code, resultRef, t1, t3, Backoff(c.attempts, p.retryBase, p.retryMax));
      }
    case CancelStep(j, _) =>
      if j == id && Cancellable(rec.row.status) { CancelledInv(id, rec); }
    case ReportStep(c, kind, key, t1) =>
      if c.id == id && !HasKey(rec.log, key) && OwnsRow(rec.row, c, t1) { ReportedInv(rec, kind, key); }
    case ReapStep(_, skipped, batch, t1, t2) =>
      if id in batch {
        assert LapsedIn(w.store, t1, skipped, id);
        ReapedInv(rec, t1, t2, ReapDelay(p, rec.row));
      }
  }

  // How a step may move one row: not at all, a renewed lease, a start, the end of an attempt, a cancellation.

  predicate Kept(r: Row, r': Row) {
    r' == r.(progress := r'.progress, latestSequence := r'.latestSequence)
  }

  predicate Renewed(r: Row, r': Row, c: Claim, at: Instant) {
    OwnsRow(r, c, at) && r' == r.(heartbeatAt := r'.heartbeatAt, leaseExpiresAt := r'.leaseExpiresAt)
  }

  predicate Begun(r: Row, r': Row) {
    && (r.status == Pending || r.status == Retrying) && r.attempts < r.maxAttempts
    && r'.status == Running && r'.attempts == r.attempts + 1 && r'.maxAttempts == r.maxAttempts
  }

  predicate Ended(r: Row, r': Row) {
    && r.status == Running && r'.status in Successors(Running)
    && r'.attempts == r.attempts && r'.maxAttempts == r.maxAttempts
  }

  predicate Called(r: Row, r': Row) {
    && Cancellable(r.status) && r'.status == Cancelled
    && r'.attempts == r.attempts && r'.maxAttempts == r.maxAttempts
  }

  predicate Moves(r: Row, r': Row, s: Step, id: JobId) {
    || Kept(r, r')
    || (s.HeartbeatStep? && s.claim.id == id && Renewed(r, r', s.claim, s.t1))
    || (s.ClaimStep? && s.found == Some(id) && Begun(r, r'))
    || Ended(r, r')
    || Called(r, r')
  }

  lemma ReapedMoves(rec: Record, at: Instant, now: Instant, delay: real)
    requires Lapsed(rec.row, at)
    ensures Ended(rec.row, Reaped(rec, now, delay).row) && rec.log <= Reaped(rec, now, delay).log
  {
  }

  lemma ReapedChanges(rec: Record, at: Instant, now: Instant, delay: real)
    requires Lapsed(rec.row, at)
    ensures Reaped(rec, now, delay).row.status != rec.row.status
  {
  }

  lemma FinishedMoves(rec: Record, c: Claim, at: Instant, status: JobStatus, code: Option<ErrorCode>, resultRef: Option<string>,
                      now: Instant, late: Instant, delay: real)
    requires OwnsRow(rec.row, c, at) && status in Successors(Running)
    ensures Ended(rec.row, Finished(rec, c, status, code, resultRef, now, late, delay).row)
    ensures rec.log <= Finished(rec, c, status, code, resultRef, now, late, delay).log
  {
  }

  lemma EffectMoves(p: Policy, w: World, s: Step, id: JobId)
    requires Admissible(w, s) && id in w.store
    ensures Moves(w.store[id].row, Effect(p, w, s, id).row, s, id)
    ensures w.store[id].log <= Effect(p, w, s, id).log
    ensures IsTerminal(w.store[id].row.status) ==> Effect(p, w, s, id) == w.store[id]
  {
    var rec := w.store[id];
    match s
    case FinishStep(c, status, code, resultRef, t1, t2, t3) =>
      var delay := if c.attempts >= 1 then Backoff(c.attempts, p.retryBase, p.retryMax) else 0.0;
      if c.id == id && OwnsRow(rec.row, c, t2) {
        FinishedMoves(rec, c, t2, FinishStatus(c, status), code, resultRef, t1, t3, delay);
      }
    case ReapStep(_, skipped, batch, t1, t2) =>
      if id in batch {
        assert LapsedIn(w.store, t1, skipped, id);
        ReapedMoves(rec, t1, t2, ReapDelay(p, rec.row));
      }
    case _ =>
  }

  lemma EffectEvolves(p: Policy, w: World, s: Step, id: JobId)
    requires Admissible(w, s) && id in w.store
    ensures Evolves(w.store[id], Effect(p, w, s, id))
  {
    EffectMoves(p, w, s, id);
  }

  ghost predicate AllEvolve(w: World, w': World) {
    forall id :: id in w.store ==> id in w'.store && Evolves(w.store[id], w'.store[id])
  }

  lemma StepKeepsRecords(p: Policy, w: World, s: Step)
    requires Inv(w) && Admissible(w, s)
    ensures forall id :: id in Apply(p, w, s).store ==> RecordInv(Apply(p, w, s).store[id])
    ensures AllEvolve(w, Apply(p, w, s))
  {
    ApplyIsEffect(p, w, s);
    forall id | id in Apply(p, w, s).store ensures RecordInv(Apply(p, w, s).store[id]) {
      if id in w.store {
        EffectInv(p, w, s, id);
      } else {
        NewRecordInv(s.priority, s.lane, s.maxAttempts, s.t1);
      }
    }
    forall id | id in w.store ensures Evolves(w.store[id], Apply(p, w, s).store[id]) {
      EffectEvolves(p, w, s, id);
    }
  }

  lemma StepGrows(p: Policy, w: World, s: Step)
    requires Admissible(w, s)
    ensures w.issued <= Apply(p, w, s).issued && w.now <= Apply(p, w, s).now
  {
  }

  /** The claims a step issues: none, or one for the next attempt of the row it found. */
  ghost function Issues(w: World, s: Step): set<Claim>
    requires Admissible(w, s)
  {
    if s.ClaimStep? && s.found.Some?
    then {IssuedClaim(w.store[s.found.value], s.found.value, s.worker, s.t2, s.lease)} else {}
  }

  lemma IssuesFacts(p: Policy, w: World, s: Step)
    requires Admissible(w, s)
    ensures Apply(p, w, s).issued == w.issued + Issues(w, s)
    ensures forall c :: c in Issues(w, s) ==>
              s.ClaimStep? && s.found == Some(c.id) && c.id in w.store
              && c.attempts == w.store[c.id].row.attempts + 1
              && c.maxAttempts == w.store[c.id].row.maxAttempts && Holds(Apply(p, w, s), c, c.id)
  {
  }

  ghost predicate StartedNow(w: World, w': World, id: JobId) {
    id in w'.store && w'.store[id].row.status == Running && (id !in w.store || w.store[id].row.status != Running)
  }

  /** A row starts running only through a claim, which issues its token. */
  lemma StartsByClaim(p: Policy, w: World, s: Step, id: JobId)
    requires Inv(w) && Admissible(w, s) && StartedNow(w, Apply(p, w, s), id)
    ensures exists c :: c in Issues(w, s) && c.id == id
  {
    ApplyIsEffect(p, w, s);
    if id in w.store {
      EffectMoves(p, w, s, id);
      assert IssuedClaim(w.store[id], id, s.worker, s.t2, s.lease) in Issues(w, s);
    }
  }

  /** The rows a claim's record refers to keep its attempt number in the past or present. */
  lemma ClaimsSoundNext(w: World, w': World, granted: set<Claim>)
    requires ClaimsSound(w) && w'.issued == w.issued + granted
    requires AllEvolve(w, w')
    requires forall c, d :: c in granted && d in granted ==> c == d
    requires forall c :: c in granted ==>
               c.id in w.store && c.attempts == w.store[c.id].row.attempts + 1
               && c.maxAttempts == w.store[c.id].row.maxAttempts && Holds(w', c, c.id)
    requires StartsClaimed(w, w', granted)
    ensures ClaimsSound(w')
  {
    forall id | id in w'.store && w'.store[id].row.status == Running ensures HasHolder(w', id) {
      if StartedNow(w, w', id) {
        var c :| c in granted && c.id == id;
        assert Holds(w', c, id);
      } else {
        assert HasHolder(w, id);
        var c :| c in w.issued && Holds(w, c, id);
        assert Evolves(w.store[id], w'.store[id]);
        assert Holds(w', c, id);
      }
    }
  }

  /** Every row that starts running does so through a claim of the step. */
  ghost predicate StartsClaimed(w: World, w': World, granted: set<Claim>) {
    forall id :: StartedNow(w, w', id) ==> exists c :: c in granted && c.id == id
  }

  lemma StepStartsClaimed(p: Policy, w: World, s: Step)
    requires Inv(w) && Admissible(w, s)
    ensures StartsClaimed(w, Apply(p, w, s), Issues(w, s))
  {
    forall id | StartedNow(w, Apply(p, w, s), id) ensures exists c :: c in Issues(w, s) && c.id == id {
      StartsByClaim(p, w, s, id);
    }
  }

  lemma StepKeepsClaims(p: Policy, w: World, s: Step)
    requires Inv(w) && Admissible(w, s)
    ensures ClaimsSound(Apply(p, w, s))
  {
    StepKeepsRecords(p, w, s);
    IssuesFacts(p, w, s);
    StepStartsClaimed(p, w, s);
    ClaimsSoundNext(w, Apply(p, w, s), Issues(w, s));
  }

  lemma StepKeepsInv(p: Policy, w: World, s: Step)
    requires Inv(w) && Admissible(w, s)
    ensures Inv(Apply(p, w, s))
  {
    StepKeepsRecords(p, w, s);
    StepKeepsClaims(p, w, s);
  }

  /** Every world of every run from the empty table satisfies the invariant: attempts never exceed
      the maximum and are the STARTED events, the log is numbered 1..n with distinct keys and folds
      back to the row, and at most one terminal event was ever written. */
  lemma {:induction false} RunKeepsInv(p: Policy, ws: seq<World>, steps: seq<Step>, i: nat)
    requires IsRun(p, ws, steps) && Inv(ws[0]) && i < |ws|
    ensures Inv(ws[i])
  {
    if i > 0 {
      RunKeepsInv(p, ws, steps, i - 1);
      assert StepAt(p, ws, steps, i - 1);
      StepKeepsInv(p, ws[i - 1], steps[i - 1]);
    }
  }

  lemma {:induction false} RunEvolves(p: Policy, ws: seq<World>, steps: seq<Step>, i: nat, j: nat)
    requires IsRun(p, ws, steps) && Inv(ws[0]) && i <= j < |ws|
    ensures ws[i].issued <= ws[j].issued && ws[i].now <= ws[j].now
    ensures forall id :: id in ws[i].store ==>
              id in ws[j].store
              && ws[i].store[id].log <= ws[j].store[id].log
              && (IsTerminal(ws[i].store[id].row.status) ==> ws[j].store[id] == ws[i].store[id])
    decreases j
  {
    if i < j {
      RunEvolves(p, ws, steps, i, j - 1);
      RunKeepsInv(p, ws, steps, j - 1);
      assert StepAt(p, ws, steps, j - 1);
      StepKeepsRecords(p, ws[j - 1], steps[j - 1]);
      StepGrows(p, ws[j - 1], steps[j - 1]);
    }
  }

  // ---------------------------------------------------------------- fencing

  /** At any instant at most one issued claim owns a job; while a running lease is live, one does. */
  lemma AtMostOneOwner(w: World, c: Claim, d: Claim, at: Instant)
    requires Inv(w) && c in w.issued && d in w.issued && c.id == d.id
    requires Owns(w.store, c, at) && Owns(w.store, d, at)
    ensures c == d
  {
  }

  lemma LiveLeaseHasOwner(w: World, id: JobId, at: Instant)
    requires Inv(w) && id in w.store && w.store[id].row.status == Running && !Lapsed(w.store[id].row, at)
    ensures exists c :: c in w.issued && c.id == id && Owns(w.store, c, at)
  {
    assert HasHolder(w, id);
    var c :| c in w.issued && Holds(w, c, id);
    assert RecordInv(w.store[id]);
    assert Owns(w.store, c, at);
  }

  /** Only a claim with a newer attempt makes a row run again, and only its owner renews a lease. */
  lemma StaleEffect(p: Policy, w: World, s: Step, c: Claim)
    requires Inv(w) && Admissible(w, s) && c in w.issued && !Owns(w.store, c, w.now)
    ensures c.id in w.store && !OwnsRow(Effect(p, w, s, c.id).row, c, Apply(p, w, s).now)
  {
    EffectMoves(p, w, s, c.id);
    StepGrows(p, w, s);
  }

  lemma StaleStep(p: Policy, w: World, s: Step, c: Claim)
    requires Inv(w) && Admissible(w, s)
    requires c in w.issued && !Owns(w.store, c, w.now)
    ensures !Owns(Apply(p, w, s).store, c, Apply(p, w, s).now)
  {
    StaleEffect(p, w, s, c);
    ApplyIsEffect(p, w, s);
  }

  /** Once a claim has lost its job, it never owns it again. */
  lemma {:induction false} StaleForever(p: Policy, ws: seq<World>, steps: seq<Step>, i: nat, j: nat, c: Claim)
    requires IsRun(p, ws, steps) && Inv(ws[0]) && i <= j < |ws|
    requires c in ws[i].issued && !Owns(ws[i].store, c, ws[i].now)
    ensures !Owns(ws[j].store, c, ws[j].now)
    decreases j
  {
    if i < j {
      StaleForever(p, ws, steps, i, j - 1, c);
      RunEvolves(p, ws, steps, i, j - 1);
      RunKeepsInv(p, ws, steps, j - 1);
      assert StepAt(p, ws, steps, j - 1);
      StaleStep(p, ws[j - 1], steps[j - 1], c);
    }
  }

  /** So everything the former owner tries later leaves the table alone. Its heartbeats and finishes are
      refused; a report is answered yes if its key is in use, whoever used it, and refused otherwise. */
  lemma StaleIsInert(p: Policy, ws: seq<World>, steps: seq<Step>, i: nat, j: nat, c: Claim, s: Step)
    requires IsRun(p, ws, steps) && Inv(ws[0]) && i <= j < |ws|
    requires c in ws[i].issued && !Owns(ws[i].store, c, ws[i].now)
    requires Admissible(ws[j], s) && (s.HeartbeatStep? || s.FinishStep? || s.ReportStep?) && s.claim == c
    ensures Apply(p, ws[j], s).store == ws[j].store
    ensures !Owns(ws[j].store, c, if s.FinishStep? then s.t2 else s.t1)
    ensures s.ReportStep? ==> (Reported(ws[j].store, c, s.key, s.t1) <==> c.id in ws[j].store && HasKey(ws[j].store[c.id].log, s.key))
  {
    StaleForever(p, ws, steps, i, j, c);
  }

  /** A finished job has exactly one terminal event, whatever interleaving led there, and keeps
      its row and its log for ever; an unfinished one has none. */
  lemma OneTerminalOutcome(p: Policy, ws: seq<World>, steps: seq<Step>, i: nat, j: nat, id: JobId)
    requires IsRun(p, ws, steps) && ws[0] == EmptyWorld && i <= j < |ws|
    requires id in ws[i].store
    ensures CountTerminal(ws[i].store[id].log) == (if IsTerminal(ws[i].store[id].row.status) then 1 else 0)
    ensures IsTerminal(ws[i].store[id].row.status) ==> id in ws[j].store && ws[j].store[id] == ws[i].store[id]
  {
    RunKeepsInv(p, ws, steps, i);
    RunEvolves(p, ws, steps, i, j);
    assert RecordInv(ws[i].store[id]);
  }

  /** The log alone determines the row's status and attempts, in every reachable world. */
  lemma LogRefinesRow(p: Policy, ws: seq<World>, steps: seq<Step>, i: nat, id: JobId)
    requires IsRun(p, ws, steps) && ws[0] == EmptyWorld && i < |ws|
    requires id in ws[i].store
    ensures var rec := ws[i].store[id];
            && Fold(rec.log) == Folded(rec.row.status, rec.row.attempts)
            && CountStarted(rec.log) == rec.row.attempts <= rec.row.maxAttempts
            && |rec.log| == rec.row.latestSequence && Sequenced(rec.log) && UniqueKeys(rec.log)
            && CountLifecycle(rec.log) <= 3 * rec.row.maxAttempts + 2
            && (rec.row.status == Running <==> rec.row.lockedBy.Some?)
            && (rec.row.lockedBy.Some? <==> rec.row.leaseExpiresAt.Some?)
  {
    RunKeepsInv(p, ws, steps, i);
    assert RecordInv(ws[i].store[id]);
  }

  // ---------------------------------------------------------------- progress

  /** Falls whenever a job changes status, so a job changes status at most 2 * maxAttempts + 1 times. */
  ghost function Rank(row: Row): int {
    2 * (row.maxAttempts - row.attempts) + (if row.status == Running then 1 else 0) + (if IsTerminal(row.status) then 0 else 1)
  }

  lemma MoveLowersRank(r: Row, r': Row, s: Step, id: JobId)
    requires RowSound(r) && Moves(r, r', s, id)
    ensures 0 <= Rank(r) <= 2 * r.maxAttempts + 1
    ensures if r.status == r'.status then Rank(r) == Rank(r') else Rank(r') < Rank(r)
  {
  }

  lemma StatusChangeLowersRank(p: Policy, w: World, s: Step, id: JobId)
    requires Inv(w) && Admissible(w, s) && id in w.store
    ensures id in Apply(p, w, s).store
    ensures var before, after := w.store[id].row, Apply(p, w, s).store[id].row;
            && 0 <= Rank(before) <= 2 * before.maxAttempts + 1
            && (if before.status == after.status then Rank(before) == Rank(after) else Rank(after) < Rank(before))
  {
    assert RecordInv(w.store[id]);
    ApplyIsEffect(p, w, s);
    EffectMoves(p, w, s, id);
    MoveLowersRank(w.store[id].row, Effect(p, w, s, id).row, s, id);
  }

  lemma {:induction false} FirstClaimExists(store: Store, ids: set<JobId>) returns (best: JobId)
    requires ids != {} && ids <= store.Keys
    ensures best in ids && forall id :: id in ids ==> ClaimsBefore(store[best].row, best, store[id].row, id)
  {
    best :| best in ids;
    if ids != {best} {
      var b := FirstClaimExists(store, ids - {best});
      if !ClaimsBefore(store[best].row, best, store[b].row, b) {
        best := b;
      }
    }
  }

  lemma {:induction false} FirstLapseExists(store: Store, ids: set<JobId>) returns (best: JobId)
    requires ids != {} && ids <= store.Keys
    requires forall id :: id in ids ==> store[id].row.leaseExpiresAt.Some?
    ensures best in ids && forall id :: id in ids ==> LapsesBefore(store[best].row, best, store[id].row, id)
  {
    best :| best in ids;
    if ids != {best} {
      var b := FirstLapseExists(store, ids - {best});
      if !LapsesBefore(store[best].row, best, store[b].row, b) {
        best := b;
      }
    }
  }

  predicate Unfinished(row: Row) {
    row.status == Pending || row.status == Retrying || row.status == Running
  }

  /** The time after which a job is due for a claim or for the reaper. */
  function DueAt(row: Row): Instant {
    if row.status == Running && row.leaseExpiresAt.Some? then row.leaseExpiresAt.value else row.runAfter
  }

  /** An unfinished job that is due can be claimed by a worker of its lane, or reaped. */
  lemma UnfinishedIsServed(w: World, id: JobId, at: Instant)
    requires Inv(w) && id in w.store && Unfinished(w.store[id].row) && at >= DueAt(w.store[id].row)
    ensures Claimable(w.store[id].row, {w.store[id].row.lane}, at) || Lapsed(w.store[id].row, at)
  {
    assert RecordInv(w.store[id]);
  }

  lemma ReaperFindsWork(w: World, id: JobId, at: Instant) returns (first: JobId)
    requires id in w.store && Lapsed(w.store[id].row, at)
    ensures ReapAnswer(w.store, at, {}, 1, [first]) && first in w.store && Lapsed(w.store[first].row, at)
  {
    var lapsed := set other | other in w.store && Lapsed(w.store[other].row, at);
    assert id in lapsed;
    first := FirstLapseExists(w.store, lapsed);
    assert LapsedIn(w.store, at, {}, first);
  }

  lemma WorkerFindsWork(w: World, id: JobId, lanes: set<Lane>, at: Instant) returns (first: JobId)
    requires id in w.store && Claimable(w.store[id].row, lanes, at)
    ensures ClaimAnswer(w.store, lanes, at, {}, Some(first)) && first in w.store && Claimable(w.store[first].row, lanes, at)
  {
    var offered := set other | other in w.store && Claimable(w.store[other].row, lanes, at);
    assert id in offered;
    first := FirstClaimExists(w.store, offered);
    assert Offered(w.store, lanes, at, {}, first);
  }

  ghost predicate LowersSomeRank(p: Policy, w: World, s: Step)
    requires Admissible(w, s)
  {
    exists id :: id in w.store && id in Apply(p, w, s).store && Rank(Apply(p, w, s).store[id].row) < Rank(w.store[id].row)
  }

  /** So the queue never stalls: some worker's claim finds a job, or some reaper's batch is not empty. */
  lemma QueueNeverStalls(p: Policy, w: World, id: JobId, at: Instant) returns (s: Step)
    requires Inv(w) && id in w.store && Unfinished(w.store[id].row)
    requires w.now <= at && DueAt(w.store[id].row) <= at
    ensures Admissible(w, s) && s.t1 == at && LowersSomeRank(p, w, s)
  {
    UnfinishedIsServed(w, id, at);
    var first: JobId;
    if Lapsed(w.store[id].row, at) {
      first := ReaperFindsWork(w, id, at);
      s := ReapStep(1, {}, [first], at, at);
      ReapedChanges(w.store[first], at, at, ReapDelay(p, w.store[first].row));
    } else {
      var lanes := {w.store[id].row.lane};
      first := WorkerFindsWork(w, id, lanes, at);
      s := ClaimStep("worker", lanes, 1.0, {}, Some(first), at, at);
    }
    ApplyIsEffect(p, w, s);
    StatusChangeLowersRank(p, w, s, first);
  }
}
