/** The admission monitor itself: each method runs under the lock as one step of Admission
    (packages/model_client/policies.py:101-187). */
module AdmissionMonitor {
  import opened Support
  import A = Admission

  class PriorityAdmission {
    const capacities: A.Capacities
    var active: A.Table
    var waiters: seq<A.Waiter>
    var sequence: nat
    ghost var held: map<nat, A.Lane>

    ghost function Desk(): A.Desk
      reads this
    {
      A.Desk(active, waiters, sequence, held)
    }

    constructor (capacities: A.Capacities)
      ensures this.capacities == capacities && Desk() == A.Empty
    {
      this.capacities := capacities;
      active, waiters, sequence, held := A.Table(0, 0, 0), [], 0, map[];
    }

    /** _can_start: the loop over the other waiters. */
    method CanStart(lane: A.Lane, mine: nat) returns (ok: bool)
      ensures ok <==> A.CanStart(capacities, Desk(), lane, mine)
    {
      if active.At(lane) >= capacities.At(lane) {
        return false;
      }
      for i := 0 to |waiters|
        invariant forall j :: 0 <= j < i ==> !A.Ahead(waiters[j], lane, mine)
      {
        var other := waiters[i];
        if other.sequence == mine {
          continue;
        }
        if A.Priority(other.lane) < A.Priority(lane) || (other.lane == lane && other.sequence < mine) {
          return false;
        }
      }
      ok := true;
    }

    method Remove(mine: nat)
      modifies this`waiters
      ensures waiters == A.Without(old(waiters), mine)
    {
      var i := 0;
      while i < |waiters| && waiters[i].sequence != mine
        invariant i <= |waiters| && waiters == old(waiters)
        invariant A.Without(waiters, mine) == waiters[..i] + A.Without(waiters[i..], mine)
      {
        WithoutNext(waiters, i, mine);
        i := i + 1;
      }
      WithoutHere(waiters, i, mine);
      if i < |waiters| {
        waiters := waiters[..i] + waiters[i + 1..];
      }
    }

    static lemma WithoutNext(waiters: seq<A.Waiter>, i: nat, mine: nat)
      requires i < |waiters| && waiters[i].sequence != mine
      ensures waiters[..i] + A.Without(waiters[i..], mine) == waiters[..i + 1] + A.Without(waiters[i + 1..], mine)
    {
      assert waiters[i..][1..] == waiters[i + 1..];
      assert A.Without(waiters[i..], mine) == [waiters[i]] + A.Without(waiters[i + 1..], mine);
      assert waiters[..i + 1] == waiters[..i] + [waiters[i]];
    }

    static lemma WithoutHere(waiters: seq<A.Waiter>, i: nat, mine: nat)
      requires i <= |waiters| && (i < |waiters| ==> waiters[i].sequence == mine)
      ensures waiters[..i] + A.Without(waiters[i..], mine) == if i < |waiters| then waiters[..i] + waiters[i + 1..] else waiters
    {
      if i < |waiters| {
        assert waiters[i..][1..] == waiters[i + 1..];
      } else {
        assert waiters[i..] == [] && waiters[..i] == waiters;
      }
    }

    /** One evaluation of the predicate that wait_for waits on. */
    method Evaluate(lane: A.Lane, mine: nat) returns (started: bool)
      modifies this
      ensures Desk() == A.Evaluated(capacities, old(Desk()), lane, mine)
      ensures started <==> A.CanStart(capacities, old(Desk()), lane, mine)
    {
      started := CanStart(lane, mine);
      if started {
        Remove(mine);
        active := active.With(lane, active.At(lane) + 1);
        held := held[mine := lane];
      } else {
        waiters := A.Asleep(waiters, mine);
      }
    }

    /** _acquire up to its first evaluation. */
    method Arrive(lane: A.Lane) returns (mine: nat, started: bool)
      modifies this
      ensures mine == old(sequence)
      ensures A.Apply(capacities, old(Desk()), A.Arrive(lane)) == Ok(Desk())
      ensures started <==> mine in held && A.CanStart(capacities, A.Joined(old(Desk()), lane), lane, mine)
    {
      mine := sequence;
      sequence := sequence + 1;
      waiters := waiters + [A.Waiter(lane, mine, false)];
      started := Evaluate(lane, mine);
    }

    /** A woken waiter evaluates again. */
    method Recheck(w: A.Waiter) returns (started: bool)
      requires A.Admissible(Desk(), A.Recheck(w))
      modifies this
      ensures A.Apply(capacities, old(Desk()), A.Recheck(w)) == Ok(Desk())
      ensures started <==> A.CanStart(capacities, old(Desk()), w.lane, w.sequence)
    {
      started := Evaluate(w.lane, w.sequence);
    }

    /** A cancelled waiter leaves and wakes everybody. */
    method Cancel(mine: nat)
      requires A.Admissible(Desk(), A.Cancel(mine))
      modifies this
      ensures A.Apply(capacities, old(Desk()), A.Cancel(mine)) == Ok(Desk())
    {
      Remove(mine);
      waiters := A.AllAwake(waiters);
    }

    /** _release; false stands for the error raised on an idle lane. */
    method Release(permit: nat, lane: A.Lane) returns (ok: bool)
      requires permit in held && held[permit] == lane
      modifies this
      ensures A.Apply(capacities, old(Desk()), A.Release(permit)) == if ok then Ok(Desk()) else Err(())
      ensures !ok ==> Desk() == old(Desk())
      ensures A.Inv(capacities, old(Desk())) ==> ok
    {
      if A.Inv(capacities, Desk()) {
        A.ReleasedInv(capacities, Desk(), permit);
      }
      if active.At(lane) < 1 {
        return false;
      }
      active := active.With(lane, active.At(lane) - 1);
      held := held - {permit};
      waiters := A.AllAwake(waiters);
      ok := true;
    }
  }
}
