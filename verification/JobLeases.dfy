/** What a claim is good for: until when its holder owns the job, and what ends that early
    (packages/persistence/jobs.py:48-106). */
module JobLeases {
  import opened Support
  import opened JobPolicy
  import opened JobEvents
  import opened JobQueue
  import opened JobRuns

  /** The claim passes the ownership test before that time and at no other. */
  ghost predicate OwnsUntil(store: Store, c: Claim, expiry: Instant) {
    && c.id in store && store[c.id].row.leaseExpiresAt == Some(expiry)
    && forall at :: Owns(store, c, at) <==> at < expiry
  }

  /** A claim that found a job issues a new token; the token names the worker and the end of the lease it
      asked for, the row's lease ends then too, and until then the token passes the ownership test. */
  lemma ClaimSecuresLease(p: Policy, w: World, s: Step)
    requires Inv(w) && Admissible(w, s) && s.ClaimStep? && s.found.Some?
    ensures exists c ::
              && c in Apply(p, w, s).issued && c !in w.issued
              && c.id == s.found.value && c.worker == s.worker && c.leaseExpiresAt == s.t2 + s.lease
              && OwnsUntil(Apply(p, w, s).store, c, s.t2 + s.lease)
  {
    var id := s.found.value;
    var c := Claim(id, s.worker, w.store[id].row.attempts + 1, w.store[id].row.maxAttempts, s.t2 + s.lease);
    assert c in Apply(p, w, s).issued;
    assert OwnsUntil(Apply(p, w, s).store, c, s.t2 + s.lease);
  }

  /** The step takes the job from a claim whose lease runs until then. */
  predicate TakesFrom(c: Claim, expiry: Instant, s: Step) {
    || (s.CancelStep? && s.id == c.id)
    || (s.FinishStep? && s.claim == c && s.t2 < expiry)
  }

  predicate Renews(c: Claim, s: Step) {
    s.HeartbeatStep? && s.claim == c
  }

  /** Before the lease ends only a cancellation of the job and a finish by the claim itself take it away,
      and both do; a heartbeat moves its end to its own clock plus the lease it asks for. */
  lemma LeaseStep(p: Policy, w: World, s: Step, c: Claim, expiry: Instant)
    requires Inv(w) && Admissible(w, s) && c in w.issued && OwnsUntil(w.store, c, expiry) && s.t1 < expiry
    ensures var after := Apply(p, w, s).store;
            if TakesFrom(c, expiry, s) then forall at :: !Owns(after, c, at)
            else OwnsUntil(after, c, if Renews(c, s) then s.t2 + s.lease else expiry)
  {
    hide Apply, RecordInv;
    assert Owns(w.store, c, s.t1);
    ApplyIsEffect(p, w, s);
    assert forall d :: d in w.issued && d != c && d.id == c.id ==> d.attempts != c.attempts;
    if s.ReapStep? {
      forall id | id in s.batch ensures id != c.id {
        assert LapsedIn(w.store, s.t1, s.skipped, id);
      }
    }
  }

  /** The end of the lease as the claim's heartbeats move it. */
  ghost function Expiry(c: Claim, first: Instant, steps: seq<Step>, i: nat, j: nat): Instant
    requires i <= j <= |steps|
    decreases j
  {
    if i == j then first
    else if Renews(c, steps[j - 1]) then steps[j - 1].t2 + steps[j - 1].lease
    else Expiry(c, first, steps, i, j - 1)
  }

  /** Each step begins before the lease ends, and takes the job from nobody. */
  ghost predicate Undisturbed(c: Claim, first: Instant, steps: seq<Step>, i: nat, j: nat)
    requires i <= j <= |steps|
    decreases j
  {
    i < j ==>
      var expiry := Expiry(c, first, steps, i, j - 1);
      Undisturbed(c, first, steps, i, j - 1) && steps[j - 1].t1 < expiry && !TakesFrom(c, expiry, steps[j - 1])
  }

  lemma StepOfRun(p: Policy, ws: seq<World>, steps: seq<Step>, i: nat, j: nat, c: Claim)
    requires IsRun(p, ws, steps) && Inv(ws[0]) && i <= j && j + 1 < |ws| && c in ws[i].issued
    ensures Inv(ws[j]) && c in ws[j].issued && j < |steps| && Admissible(ws[j], steps[j]) && ws[j + 1] == Apply(p, ws[j], steps[j])
  {
    RunKeepsInv(p, ws, steps, j);
    RunEvolves(p, ws, steps, i, j);
    assert StepAt(p, ws, steps, j);
  }

  /** Along any run, whatever all other workers and reapers do, a claim keeps its job until its lease ends,
      as far as its heartbeats have moved that, unless the job is cancelled or the claim finishes it. */
  lemma {:induction false} KeepsLease(p: Policy, ws: seq<World>, steps: seq<Step>, i: nat, j: nat, c: Claim, first: Instant)
    requires IsRun(p, ws, steps) && Inv(ws[0]) && i <= j < |ws|
    requires c in ws[i].issued && OwnsUntil(ws[i].store, c, first) && Undisturbed(c, first, steps, i, j)
    ensures OwnsUntil(ws[j].store, c, Expiry(c, first, steps, i, j))
    decreases j
  {
    if i < j {
      hide IsRun, StepAt, Apply, OwnsUntil, TakesFrom, Renews, Inv, Admissible;
      KeepsLease(p, ws, steps, i, j - 1, c, first);
      StepOfRun(p, ws, steps, i, j - 1, c);
      LeaseStep(p, ws[j - 1], steps[j - 1], c, Expiry(c, first, steps, i, j - 1));
    }
  }

  /** From the claim on: the token it issues owns the job until its lease ends, along any undisturbed run. */
  lemma ClaimHolds(p: Policy, ws: seq<World>, steps: seq<Step>, i: nat, j: nat)
    requires IsRun(p, ws, steps) && ws[0] == EmptyWorld && i < j < |ws| && steps[i].ClaimStep? && steps[i].found.Some?
    ensures exists c ::
              && c in ws[i + 1].issued && c !in ws[i].issued && c.id == steps[i].found.value && c.worker == steps[i].worker
              && (Undisturbed(c, c.leaseExpiresAt, steps, i + 1, j) ==>
                    OwnsUntil(ws[j].store, c, Expiry(c, c.leaseExpiresAt, steps, i + 1, j)))
  {
    hide Apply, OwnsUntil, Owns, TakesFrom, Renews, Undisturbed, Expiry;
    RunKeepsInv(p, ws, steps, i);
    assert StepAt(p, ws, steps, i);
    ClaimSecuresLease(p, ws[i], steps[i]);
    var c :| c in ws[i + 1].issued && c !in ws[i].issued && c.id == steps[i].found.value && c.worker == steps[i].worker
             && c.leaseExpiresAt == steps[i].t2 + steps[i].lease && OwnsUntil(ws[i + 1].store, c, steps[i].t2 + steps[i].lease);
    if Undisturbed(c, c.leaseExpiresAt, steps, i + 1, j) {
      KeepsLease(p, ws, steps, i + 1, j, c, c.leaseExpiresAt);
    }
  }

  /** Whatever token passes the ownership test carries the worker and the attempt of one that was issued
      for that job. */
  lemma OwnerIsIssued(w: World, c: Claim, at: Instant)
    requires Inv(w) && Owns(w.store, c, at)
    ensures exists d :: d in w.issued && d.id == c.id && d.worker == c.worker && d.attempts == c.attempts
  {
    assert HasHolder(w, c.id);
    var d :| d in w.issued && Holds(w, d, c.id);
    assert d.worker == c.worker;
  }
}
