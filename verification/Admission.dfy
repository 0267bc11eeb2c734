/** Priority admission to a model provider (packages/model_client/policies.py:19-32, 101-187): waiters
    sleep on a condition, a release or a cancellation wakes all of them, a start wakes nobody. */
module Admission {
  import opened Support

  datatype Lane = Interactive | Prefetch | Batch

  function Priority(l: Lane): nat {
    match l
    case Interactive => 0
    case Prefetch => 1
    case Batch => 2
  }

  /** A caller in the queue. Awake: woken, but not yet back in possession of the lock. */
  datatype Waiter = Waiter(lane: Lane, sequence: nat, awake: bool)

  /** One number for each lane. */
  datatype Table = Table(interactive: nat, prefetch: nat, batch: nat) {
    function At(l: Lane): nat {
      match l
      case Interactive => interactive
      case Prefetch => prefetch
      case Batch => batch
    }

    function With(l: Lane, n: nat): Table {
      match l
      case Interactive => this.(interactive := n)
      case Prefetch => this.(prefetch := n)
      case Batch => this.(batch := n)
    }
  }

  /** The constructor refuses a lane without capacity. */
  type Capacities = t: Table | t.interactive >= 1 && t.prefetch >= 1 && t.batch >= 1 witness Table(4, 2, 1)

  /** The monitor and the permits handed out, by arrival number. */
  datatype Desk = Desk(active: Table, waiters: seq<Waiter>, next: nat, held: map<nat, Lane>)

  const Empty := Desk(Table(0, 0, 0), [], 0, map[])

  /** What _can_start refuses: some other waiter of a better lane, or an earlier one of the same lane. */
  predicate Ahead(other: Waiter, lane: Lane, sequence: nat) {
    other.sequence != sequence
    && (Priority(other.lane) < Priority(lane) || (other.lane == lane && other.sequence < sequence))
  }

  predicate CanStart(caps: Capacities, d: Desk, lane: Lane, sequence: nat) {
    d.active.At(lane) < caps.At(lane) && forall i :: 0 <= i < |d.waiters| ==> !Ahead(d.waiters[i], lane, sequence)
  }

  function Without(waiters: seq<Waiter>, sequence: nat): seq<Waiter> {
    if waiters == [] then []
    else if waiters[0].sequence == sequence then waiters[1..]
    else [waiters[0]] + Without(waiters[1..], sequence)
  }

  function AllAwake(waiters: seq<Waiter>): seq<Waiter> {
    seq(|waiters|, i requires 0 <= i < |waiters| => waiters[i].(awake := true))
  }

  function Asleep(waiters: seq<Waiter>, sequence: nat): seq<Waiter> {
    seq(|waiters|, i requires 0 <= i < |waiters| => if waiters[i].sequence == sequence then waiters[i].(awake := false) else waiters[i])
  }

  // ---------------------------------------------------------------- steps

  datatype Step = Arrive(lane: Lane) | Recheck(waiter: Waiter) | Cancel(sequence: nat) | Release(permit: nat)

  function Started(d: Desk, lane: Lane, sequence: nat): Desk {
    d.(waiters := Without(d.waiters, sequence), active := d.active.With(lane, d.active.At(lane) + 1), held := d.held[sequence := lane])
  }

  /** The waiter evaluates the predicate: it starts, or goes back to sleep. */
  function Evaluated(caps: Capacities, d: Desk, lane: Lane, sequence: nat): Desk {
    if CanStart(caps, d, lane, sequence) then Started(d, lane, sequence) else d.(waiters := Asleep(d.waiters, sequence))
  }

  predicate Waiting(d: Desk, sequence: nat) {
    exists i :: 0 <= i < |d.waiters| && d.waiters[i].sequence == sequence
  }

  /** A waiter rechecks only once woken; a caller gives up only while waiting; a permit is released only
      by its holder, once. */
  predicate Admissible(d: Desk, s: Step) {
    match s
    case Arrive(_) => true
    case Recheck(w) => w in d.waiters && w.awake
    case Cancel(sequence) => Waiting(d, sequence)
    case Release(p) => p in d.held
  }

  function Joined(d: Desk, lane: Lane): Desk {
    d.(waiters := d.waiters + [Waiter(lane, d.next, false)], next := d.next + 1)
  }

  function Cancelled(d: Desk, sequence: nat): Desk {
    d.(waiters := AllAwake(Without(d.waiters, sequence)))
  }

  /** The release raises when the lane has no active call. */
  function Released(d: Desk, permit: nat, lane: Lane): Result<Desk, ()> {
    if d.active.At(lane) < 1 then Err(())
    else Ok(d.(active := d.active.With(lane, d.active.At(lane) - 1), waiters := AllAwake(d.waiters), held := d.held - {permit}))
  }

  function Apply(caps: Capacities, d: Desk, s: Step): Result<Desk, ()>
    requires Admissible(d, s)
  {
    match s
    case Arrive(lane) => Ok(Evaluated(caps, Joined(d, lane), lane, d.next))
    case Recheck(w) => Ok(Evaluated(caps, d, w.lane, w.sequence))
    case Cancel(sequence) => Ok(Cancelled(d, sequence))
    case Release(p) => Released(d, p, d.held[p])
  }

  // ---------------------------------------------------------------- invariant

  ghost predicate IsFirst(d: Desk, w: Waiter) {
    w in d.waiters && forall i :: 0 <= i < |d.waiters| ==> !Ahead(d.waiters[i], w.lane, w.sequence)
  }

  function HoldersOf(d: Desk, l: Lane): set<nat> {
    set p | p in d.held && d.held[p] == l
  }

  ghost predicate Queue(d: Desk) {
    && (forall i, j :: 0 <= i < j < |d.waiters| ==> d.waiters[i].sequence < d.waiters[j].sequence)
    && (forall i :: 0 <= i < |d.waiters| ==> d.waiters[i].sequence < d.next && d.waiters[i].sequence !in d.held)
    && (forall p :: p in d.held ==> p < d.next)
  }

  /** With nobody active, the first waiter is awake. */
  ghost predicate FirstAwakeWhenIdle(d: Desk) {
    d.held == map[] ==> forall w :: IsFirst(d, w) ==> w.awake
  }

  ghost predicate CountedAt(caps: Capacities, d: Desk, l: Lane) {
    d.active.At(l) == |HoldersOf(d, l)| && d.active.At(l) <= caps.At(l)
  }

  ghost predicate Counted(caps: Capacities, d: Desk) {
    forall l :: CountedAt(caps, d, l)
  }

  ghost predicate Inv(caps: Capacities, d: Desk) {
    Queue(d) && Counted(caps, d) && FirstAwakeWhenIdle(d)
  }

  lemma {:induction false} WithoutKeepsOrder(waiters: seq<Waiter>, sequence: nat)
    requires forall i, j :: 0 <= i < j < |waiters| ==> waiters[i].sequence < waiters[j].sequence
    ensures var rest := Without(waiters, sequence);
            && (forall i, j :: 0 <= i < j < |rest| ==> rest[i].sequence < rest[j].sequence)
            && (forall w :: w in rest <==> w in waiters && w.sequence != sequence)
  {
    if waiters != [] {
      var first, tail := waiters[0], waiters[1..];
      WithoutKeepsOrder(tail, sequence);
      assert forall w :: w in waiters <==> w == first || w in tail;
      forall w | w in tail ensures first.sequence < w.sequence {
      }
      var rest := Without(tail, sequence);
      forall i | 0 <= i < |rest| ensures first.sequence < rest[i].sequence {
        assert rest[i] in tail;
      }
    }
  }

  lemma StartedQueue(d: Desk, lane: Lane, sequence: nat)
    requires Queue(d) && Waiting(d, sequence)
    ensures Queue(Started(d, lane, sequence))
  {
    WithoutKeepsOrder(d.waiters, sequence);
    var rest := Without(d.waiters, sequence);
    forall i | 0 <= i < |rest| ensures rest[i].sequence < d.next && rest[i].sequence !in d.held && rest[i].sequence != sequence {
      assert rest[i] in rest;
    }
  }

  lemma StartedCounts(caps: Capacities, d: Desk, lane: Lane, sequence: nat)
    requires Counted(caps, d) && sequence !in d.held && d.active.At(lane) < caps.At(lane)
    ensures Counted(caps, Started(d, lane, sequence))
  {
    var e := Started(d, lane, sequence);
    forall l ensures CountedAt(caps, e, l) {
      assert CountedAt(caps, d, l);
      assert HoldersOf(e, l) == if l == lane then HoldersOf(d, l) + {sequence} else HoldersOf(d, l);
    }
  }

  lemma StartedInv(caps: Capacities, d: Desk, lane: Lane, sequence: nat)
    requires Queue(d) && Counted(caps, d) && Waiting(d, sequence) && CanStart(caps, d, lane, sequence)
    ensures Inv(caps, Started(d, lane, sequence))
  {
    StartedQueue(d, lane, sequence);
    StartedCounts(caps, d, lane, sequence);
    assert sequence in Started(d, lane, sequence).held;
  }

  ghost predicate WaitsIn(d: Desk, lane: Lane, sequence: nat) {
    exists i :: 0 <= i < |d.waiters| && d.waiters[i].sequence == sequence && d.waiters[i].lane == lane
  }

  lemma SameCounts(caps: Capacities, d: Desk, e: Desk)
    requires Counted(caps, d) && e.active == d.active && e.held == d.held
    ensures Counted(caps, e)
  {
    forall l ensures CountedAt(caps, e, l) {
      assert CountedAt(caps, d, l);
      assert HoldersOf(e, l) == HoldersOf(d, l);
    }
  }

  /** Waking or putting to sleep changes nobody's place. */
  ghost predicate SamePlaces(a: seq<Waiter>, b: seq<Waiter>) {
    |a| == |b| && forall i :: 0 <= i < |a| ==> a[i].lane == b[i].lane && a[i].sequence == b[i].sequence
  }

  lemma FirstStays(d: Desk, e: Desk, i: nat)
    requires SamePlaces(d.waiters, e.waiters) && i < |e.waiters| && IsFirst(e, e.waiters[i])
    ensures IsFirst(d, d.waiters[i])
  {
    forall j | 0 <= j < |d.waiters| ensures !Ahead(d.waiters[j], d.waiters[i].lane, d.waiters[i].sequence) {
      assert !Ahead(e.waiters[j], e.waiters[i].lane, e.waiters[i].sequence);
    }
  }

  lemma IdleHasRoom(caps: Capacities, d: Desk, lane: Lane)
    requires Counted(caps, d) && d.held == map[]
    ensures d.active.At(lane) < caps.At(lane)
  {
    assert CountedAt(caps, d, lane);
    assert HoldersOf(d, lane) == {};
  }

  /** A waiter that is refused while nobody is active is not the first. */
  lemma RefusedNotFirst(caps: Capacities, d: Desk, w: Waiter)
    requires Counted(caps, d) && d.held == map[] && !CanStart(caps, d, w.lane, w.sequence)
    ensures !IsFirst(d, w)
  {
    IdleHasRoom(caps, d, w.lane);
  }

  lemma RefusedInv(caps: Capacities, d: Desk, lane: Lane, sequence: nat)
    requires Queue(d) && Counted(caps, d) && WaitsIn(d, lane, sequence) && !CanStart(caps, d, lane, sequence)
    requires d.held == map[] ==> forall w :: IsFirst(d, w) && w.sequence != sequence ==> w.awake
    ensures Inv(caps, d.(waiters := Asleep(d.waiters, sequence)))
  {
    var e := d.(waiters := Asleep(d.waiters, sequence));
    SameCounts(caps, d, e);
    if d.held == map[] {
      forall w | IsFirst(e, w) ensures w.awake {
        var i :| 0 <= i < |e.waiters| && e.waiters[i] == w;
        FirstStays(d, e, i);
        if w.sequence == sequence {
          var k :| 0 <= k < |d.waiters| && d.waiters[k].sequence == sequence && d.waiters[k].lane == lane;
          assert i == k;
          RefusedNotFirst(caps, d, d.waiters[i]);
        }
      }
    }
  }

  lemma AwakeInv(caps: Capacities, d: Desk)
    requires Queue(d) && Counted(caps, d)
    ensures Inv(caps, d.(waiters := AllAwake(d.waiters)))
  {
    SameCounts(caps, d, d.(waiters := AllAwake(d.waiters)));
  }

  /** A newcomer is not ahead of its lane, but may be ahead of everybody else. */
  lemma JoinedReady(caps: Capacities, d: Desk, lane: Lane)
    requires Inv(caps, d)
    ensures var e := Joined(d, lane);
            && Queue(e) && Counted(caps, e) && WaitsIn(e, lane, d.next) && Waiting(e, d.next)
            && (e.held == map[] ==> forall w :: IsFirst(e, w) && w.sequence != d.next ==> w.awake)
  {
    var e := Joined(d, lane);
    SameCounts(caps, d, e);
    assert e.waiters[|d.waiters|] == Waiter(lane, d.next, false);
    if e.held == map[] {
      forall w | IsFirst(e, w) && w.sequence != d.next ensures w.awake {
        forall i | 0 <= i < |d.waiters| ensures !Ahead(d.waiters[i], w.lane, w.sequence) {
          assert !Ahead(e.waiters[i], w.lane, w.sequence);
        }
        assert IsFirst(d, w);
      }
    }
  }

  lemma CancelledInv(caps: Capacities, d: Desk, sequence: nat)
    requires Inv(caps, d)
    ensures Inv(caps, Cancelled(d, sequence))
  {
    var rest := Without(d.waiters, sequence);
    var e := d.(waiters := rest);
    WithoutKeepsOrder(d.waiters, sequence);
    forall i | 0 <= i < |rest| ensures rest[i].sequence < d.next && rest[i].sequence !in d.held {
      assert rest[i] in rest;
    }
    SameCounts(caps, d, e);
    AwakeInv(caps, e);
  }

  lemma ReleasedInv(caps: Capacities, d: Desk, permit: nat)
    requires Inv(caps, d) && permit in d.held
    ensures Released(d, permit, d.held[permit]).Ok?
    ensures Inv(caps, Released(d, permit, d.held[permit]).value)
  {
    var lane := d.held[permit];
    assert CountedAt(caps, d, lane) && permit in HoldersOf(d, lane);
    var e := d.(active := d.active.With(lane, d.active.At(lane) - 1), held := d.held - {permit});
    forall l ensures CountedAt(caps, e, l) {
      assert CountedAt(caps, d, l);
      assert HoldersOf(e, l) == if l == lane then HoldersOf(d, l) - {permit} else HoldersOf(d, l);
    }
    AwakeInv(caps, e);
  }

  /** Every admissible step succeeds, a release never underflows, and the invariant survives. */
  lemma StepKeepsInv(caps: Capacities, d: Desk, s: Step)
    requires Inv(caps, d) && Admissible(d, s)
    ensures Apply(caps, d, s).Ok? && Inv(caps, Apply(caps, d, s).value)
  {
    match s {
      case Arrive(lane) =>
        var e := Joined(d, lane);
        JoinedReady(caps, d, lane);
        if CanStart(caps, e, lane, d.next) {
          StartedInv(caps, e, lane, d.next);
        } else {
          RefusedInv(caps, e, lane, d.next);
        }
      case Recheck(w) =>
        var i :| 0 <= i < |d.waiters| && d.waiters[i] == w;
        if CanStart(caps, d, w.lane, w.sequence) {
          StartedInv(caps, d, w.lane, w.sequence);
        } else {
          RefusedInv(caps, d, w.lane, w.sequence);
        }
      case Cancel(sequence) =>
        CancelledInv(caps, d, sequence);
      case Release(p) =>
        ReleasedInv(caps, d, p);
    }
  }

  // ---------------------------------------------------------------- whole runs

  /** The desk after the steps, or None if one of them could not be taken. */
  ghost function After(caps: Capacities, steps: seq<Step>): Option<Desk> {
    if steps == [] then Some(Empty)
    else
      var k := |steps| - 1;
      var before := After(caps, steps[..k]);
      if before.None? || !Admissible(before.value, steps[k]) then None
      else
        var r := Apply(caps, before.value, steps[k]);
        if r.Ok? then Some(r.value) else None
  }

  /** At most one waiter can start: the first by lane priority and then by arrival. */
  lemma OnlyFirstStarts(caps: Capacities, d: Desk, w: Waiter)
    requires Inv(caps, d) && w in d.waiters
    ensures CanStart(caps, d, w.lane, w.sequence) <==> IsFirst(d, w) && d.active.At(w.lane) < caps.At(w.lane)
    ensures forall v :: IsFirst(d, w) && IsFirst(d, v) ==> v == w
    ensures IsFirst(d, w) <==> forall v :: v in d.waiters && v != w ==> Ranks(w, v)
  {
    forall v | v in d.waiters && v != w ensures Ahead(v, w.lane, w.sequence) <==> !Ranks(w, v) {
      RanksOrAhead(d, w, v);
    }
    if IsFirst(d, w) {
      forall v | v in d.waiters && v != w ensures Ranks(w, v) {
        var i :| 0 <= i < |d.waiters| && d.waiters[i] == v;
        assert !Ahead(d.waiters[i], w.lane, w.sequence);
      }
      forall v | IsFirst(d, v) ensures v == w {
        var k :| 0 <= k < |d.waiters| && d.waiters[k] == w;
        assert !Ahead(d.waiters[k], v.lane, v.sequence);
      }
    }
  }

  predicate Ranks(w: Waiter, v: Waiter) {
    Priority(w.lane) < Priority(v.lane) || (w.lane == v.lane && w.sequence < v.sequence)
  }

  /** Of two waiters exactly one ranks first. */
  lemma RanksOrAhead(d: Desk, w: Waiter, v: Waiter)
    requires Queue(d) && w in d.waiters && v in d.waiters && v != w
    ensures Ahead(v, w.lane, w.sequence) <==> !Ranks(w, v)
  {
    var i :| 0 <= i < |d.waiters| && d.waiters[i] == v;
    var k :| 0 <= k < |d.waiters| && d.waiters[k] == w;
    assert i < k || k < i;
  }

  /** Over every run: no lane is ever over capacity, and if the first waiter could start but sleeps, some
      permit is still held, whose release wakes every waiter. */
  lemma {:induction false} NeverWedged(caps: Capacities, steps: seq<Step>)
    requires After(caps, steps).Some?
    ensures var d := After(caps, steps).value;
            && Inv(caps, d)
            && (forall l :: d.active.At(l) <= caps.At(l))
            && (forall w :: IsFirst(d, w) && d.active.At(w.lane) < caps.At(w.lane) && !w.awake ==> d.held != map[])
            && (forall p :: p in d.held ==>
                  var r := Released(d, p, d.held[p]);
                  r.Ok? && forall i :: 0 <= i < |r.value.waiters| ==> r.value.waiters[i].awake)
    decreases |steps|
  {
    if steps == [] {
      EmptyInv(caps);
    } else {
      var k := |steps| - 1;
      NeverWedged(caps, steps[..k]);
      StepKeepsInv(caps, After(caps, steps[..k]).value, steps[k]);
    }
    var d := After(caps, steps).value;
    forall l ensures d.active.At(l) <= caps.At(l) {
      assert CountedAt(caps, d, l);
    }
    forall p | p in d.held ensures Released(d, p, d.held[p]).Ok? {
      ReleasedInv(caps, d, p);
    }
  }

  lemma EmptyInv(caps: Capacities)
    ensures Inv(caps, Empty)
  {
    forall l ensures CountedAt(caps, Empty, l) {
      assert HoldersOf(Empty, l) == {};
    }
  }

  /** While anybody waits, either the first waiter is awake and starts as soon as it rechecks, or a
      permit is held. */
  lemma WaitingMakesProgress(caps: Capacities, d: Desk, w: Waiter)
    requires Inv(caps, d) && IsFirst(d, w)
    ensures d.held != map[] || (Admissible(d, Recheck(w)) && w.sequence in Apply(caps, d, Recheck(w)).value.held)
  {
    if d.held == map[] {
      IdleHasRoom(caps, d, w.lane);
      assert CanStart(caps, d, w.lane, w.sequence);
    }
  }

  /** A waiting interactive call keeps every other lane from starting, a waiting prefetch call the batch
      lane. */
  lemma LanesInOrder(caps: Capacities, d: Desk, lane: Lane, sequence: nat, w: Waiter)
    requires CanStart(caps, d, lane, sequence) && w in d.waiters && w.sequence != sequence
    ensures w.lane == Interactive ==> lane == Interactive
    ensures w.lane == Prefetch ==> lane != Batch
    ensures w.lane == lane ==> sequence < w.sequence
  {
    var i :| 0 <= i < |d.waiters| && d.waiters[i] == w;
    assert !Ahead(d.waiters[i], lane, sequence);
  }

  // ---------------------------------------------------------------- starts that leave somebody asleep

  /** The first waiter sleeps although its lane has room. */
  ghost predicate Strands(caps: Capacities, d: Desk, v: Waiter) {
    IsFirst(d, v) && !v.awake && d.active.At(v.lane) < caps.At(v.lane)
  }

  ghost predicate Stranded(caps: Capacities, d: Desk) {
    exists v :: Strands(caps, d, v)
  }

  /** The waiter that is first once w has left. */
  ghost predicate NextAfter(d: Desk, w: Waiter, v: Waiter) {
    v in d.waiters && v != w && forall u :: u in d.waiters && u != w ==> !Ahead(u, v.lane, v.sequence)
  }

  /** The step is the start of a waiter whose successor sleeps although its own lane has room left. */
  ghost predicate StartsOverSleeper(caps: Capacities, d: Desk, s: Step) {
    && s.Recheck? && CanStart(caps, d, s.waiter.lane, s.waiter.sequence)
    && exists v :: NextAfter(d, s.waiter, v) && !v.awake
                   && d.active.At(v.lane) + (if v.lane == s.waiter.lane then 1 else 0) < caps.At(v.lane)
  }

  lemma FirstIsMember(d: Desk, v: Waiter)
    ensures IsFirst(d, v) <==> v in d.waiters && forall u :: u in d.waiters ==> !Ahead(u, v.lane, v.sequence)
  {
    if IsFirst(d, v) {
      forall u | u in d.waiters ensures !Ahead(u, v.lane, v.sequence) {
        var i :| 0 <= i < |d.waiters| && d.waiters[i] == u;
        assert !Ahead(d.waiters[i], v.lane, v.sequence);
      }
    }
  }

  lemma AfterStart(d: Desk, w: Waiter, v: Waiter)
    requires Queue(d) && w in d.waiters
    ensures IsFirst(Started(d, w.lane, w.sequence), v) <==> NextAfter(d, w, v)
  {
    var e := Started(d, w.lane, w.sequence);
    WithoutKeepsOrder(d.waiters, w.sequence);
    FirstIsMember(e, v);
    forall u ensures u in e.waiters <==> u in d.waiters && u != w {
      if u in d.waiters && u.sequence == w.sequence {
        var i :| 0 <= i < |d.waiters| && d.waiters[i] == u;
        var k :| 0 <= k < |d.waiters| && d.waiters[k] == w;
        assert i == k;
      }
    }
  }

  /** A waiter that was refused strands nobody: if it is first, its lane is full. */
  lemma RefusalStrandsNobody(caps: Capacities, d: Desk, lane: Lane, sequence: nat)
    requires Queue(d) && WaitsIn(d, lane, sequence) && !CanStart(caps, d, lane, sequence)
    requires forall v :: Strands(caps, d, v) ==> v.sequence == sequence
    ensures !Stranded(caps, d.(waiters := Asleep(d.waiters, sequence)))
  {
    var e := d.(waiters := Asleep(d.waiters, sequence));
    forall v | IsFirst(e, v) && !v.awake ensures e.active.At(v.lane) >= caps.At(v.lane) {
      var i :| 0 <= i < |e.waiters| && e.waiters[i] == v;
      FirstStays(d, e, i);
      if v.sequence == sequence {
        var k :| 0 <= k < |d.waiters| && d.waiters[k].sequence == sequence && d.waiters[k].lane == lane;
        assert i == k;
      } else {
        assert !Strands(caps, d, v);
      }
    }
  }

  /** Whoever was first before a newcomer joined is first among the rest. */
  lemma FirstWithoutNewcomer(d: Desk, lane: Lane, v: Waiter)
    requires IsFirst(Joined(d, lane), v) && v in d.waiters
    ensures IsFirst(d, v)
  {
    var e := Joined(d, lane);
    forall i | 0 <= i < |d.waiters| ensures !Ahead(d.waiters[i], v.lane, v.sequence) {
      assert d.waiters[i] == e.waiters[i];
    }
  }

  lemma ArrivalStrandsNobody(caps: Capacities, d: Desk, lane: Lane)
    requires Inv(caps, d) && !Stranded(caps, d)
    ensures !Stranded(caps, Evaluated(caps, Joined(d, lane), lane, d.next))
  {
    var j := Joined(d, lane);
    var w := Waiter(lane, d.next, false);
    JoinedReady(caps, d, lane);
    assert w == j.waiters[|d.waiters|] && forall v :: v in j.waiters <==> v in d.waiters || v == w;
    if CanStart(caps, j, lane, d.next) {
      var e := Started(j, lane, d.next);
      forall v | IsFirst(e, v) && !v.awake ensures e.active.At(v.lane) >= caps.At(v.lane) {
        AfterStart(j, w, v);
        FirstIsMember(d, v);
        assert IsFirst(d, v) && !Strands(caps, d, v);
      }
    } else {
      forall v | v in d.waiters ensures !Strands(caps, j, v) {
        if IsFirst(j, v) {
          FirstWithoutNewcomer(d, lane, v);
          assert !Strands(caps, d, v);
        }
      }
      RefusalStrandsNobody(caps, j, lane, d.next);
    }
  }

  lemma StartStrandsIff(caps: Capacities, d: Desk, w: Waiter)
    requires Inv(caps, d) && w in d.waiters && CanStart(caps, d, w.lane, w.sequence)
    ensures Stranded(caps, Started(d, w.lane, w.sequence)) <==> StartsOverSleeper(caps, d, Recheck(w))
  {
    var e := Started(d, w.lane, w.sequence);
    forall v ensures Strands(caps, e, v) <==>
                     NextAfter(d, w, v) && !v.awake && d.active.At(v.lane) + (if v.lane == w.lane then 1 else 0) < caps.At(v.lane)
    {
      AfterStart(d, w, v);
    }
  }

  /** The first waiter comes to sleep with room in its lane in one way only: a start that wakes nobody. */
  lemma StrandedIffStartsOverSleeper(caps: Capacities, d: Desk, s: Step)
    requires Inv(caps, d) && Admissible(d, s) && !Stranded(caps, d)
    ensures Apply(caps, d, s).Ok? && (Stranded(caps, Apply(caps, d, s).value) <==> StartsOverSleeper(caps, d, s))
  {
    StepKeepsInv(caps, d, s);
    match s {
      case Arrive(lane) =>
        ArrivalStrandsNobody(caps, d, lane);
      case Recheck(w) =>
        if CanStart(caps, d, w.lane, w.sequence) {
          StartStrandsIff(caps, d, w);
        } else {
          RefusalStrandsNobody(caps, d, w.lane, w.sequence);
        }
      case Cancel(sequence) =>
      case Release(p) =>
    }
  }

  // One place in each lane; the waiters recheck in the order in which they went to sleep. Waiter 2 rechecks
  // before waiter 3, which then starts without waking it.

  const One: Capacities := Table(1, 1, 1)

  const SilentStart := [Arrive(Interactive), Arrive(Prefetch), Arrive(Prefetch), Arrive(Interactive), Release(0), Release(1),
                        Recheck(Waiter(Prefetch, 2, true)), Recheck(Waiter(Interactive, 3, true))]

  const Desk1 := Desk(Table(1, 0, 0), [], 1, map[0 := Interactive])
  const Desk2 := Desk(Table(1, 1, 0), [], 2, map[0 := Interactive, 1 := Prefetch])
  const Desk3 := Desk2.(waiters := [Waiter(Prefetch, 2, false)], next := 3)
  const Desk4 := Desk2.(waiters := [Waiter(Prefetch, 2, false), Waiter(Interactive, 3, false)], next := 4)
  const Desk5 := Desk(Table(0, 1, 0), [Waiter(Prefetch, 2, true), Waiter(Interactive, 3, true)], 4, map[1 := Prefetch])
  const Desk6 := Desk5.(active := Table(0, 0, 0), held := map[])
  const Desk7 := Desk6.(waiters := [Waiter(Prefetch, 2, false), Waiter(Interactive, 3, true)])
  const Desk8 := Desk(Table(1, 0, 0), [Waiter(Prefetch, 2, false)], 4, map[3 := Interactive])

  lemma AfterNext(caps: Capacities, steps: seq<Step>, k: nat, d: Desk, e: Desk)
    requires k < |steps| && After(caps, steps[..k]) == Some(d) && Admissible(d, steps[k]) && Apply(caps, d, steps[k]) == Ok(e)
    ensures After(caps, steps[..k + 1]) == Some(e)
  {
    assert steps[..k + 1][..k] == steps[..k];
  }

  lemma FirstArrivals()
    ensures After(One, SilentStart[..2]) == Some(Desk2)
  {
    assert Apply(One, Empty, Arrive(Interactive)).value.waiters == [];
    AfterNext(One, SilentStart, 0, Empty, Desk1);
    assert Apply(One, Desk1, Arrive(Prefetch)).value.waiters == [];
    AfterNext(One, SilentStart, 1, Desk1, Desk2);
  }

  lemma LaterArrivals()
    ensures After(One, SilentStart[..4]) == Some(Desk4)
  {
    FirstArrivals();
    assert Apply(One, Desk2, Arrive(Prefetch)).value.waiters == Desk3.waiters;
    AfterNext(One, SilentStart, 2, Desk2, Desk3);
    assert Apply(One, Desk3, Arrive(Interactive)).value.waiters == Desk4.waiters;
    AfterNext(One, SilentStart, 3, Desk3, Desk4);
  }

  lemma BothReleases()
    ensures After(One, SilentStart[..6]) == Some(Desk6)
  {
    LaterArrivals();
    assert Desk4.held - {0} == Desk5.held && Desk5.held - {1} == Desk6.held;
    assert Apply(One, Desk4, Release(0)).value.waiters == Desk5.waiters;
    AfterNext(One, SilentStart, 4, Desk4, Desk5);
    assert Apply(One, Desk5, Release(1)).value.waiters == Desk6.waiters;
    AfterNext(One, SilentStart, 5, Desk5, Desk6);
  }

  /** A reachable desk whose first waiter sleeps with room in its lane, until the one permit still held is
      released. */
  lemma SilentStartStrands()
    ensures After(One, SilentStart) == Some(Desk8) && Strands(One, Desk8, Waiter(Prefetch, 2, false))
  {
    var w := Waiter(Interactive, 3, true);
    BothReleases();
    assert Ahead(Desk6.waiters[1], Prefetch, 2);
    assert Apply(One, Desk6, Recheck(Waiter(Prefetch, 2, true))).value.waiters == Desk7.waiters;
    AfterNext(One, SilentStart, 6, Desk6, Desk7);
    assert Desk7.waiters[1] == w && Without([w], 3) == [];
    assert Apply(One, Desk7, Recheck(w)).value.waiters == Desk8.waiters;
    AfterNext(One, SilentStart, 7, Desk7, Desk8);
    assert SilentStart[..8] == SilentStart;
  }
}
