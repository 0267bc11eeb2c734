/** The event stream of one job (apps/api/jobs.py:45-109) reading the log while the queue writes it.
    Every await is a point where other transactions may commit, so each database read sees a later
    state of the same job, and each connection check may find the client gone. */
module JobStream {
  import opened Support
  import opened JobPolicy
  import opened JobEvents
  import opened JobQueue
  import opened JobRuns

  const PAGE := 100

  // ---------------------------------------------------------------- the cursor

  datatype Header = Absent | NotANumber | Number(value: int)

  /** A cursor beyond the log is clamped, so that nothing appended later is skipped. */
  function Cursor(raw: Header, latest: nat): (r: Result<nat, ()>)
    ensures r.Err? <==> raw.NotANumber? || (raw.Number? && raw.value < 0)
    ensures r.Ok? ==> r.value <= latest && (raw.Number? && raw.value <= latest ==> r.value == raw.value)
    ensures raw.Absent? ==> r == Ok(0)
    ensures raw.Number? && raw.value > latest ==> r == Ok(latest)
  {
    match raw
    case Absent => Ok(0)
    case NotANumber => Err(())
    case Number(value) => if value < 0 then Err(()) else if value <= latest then Ok(value) else Ok(latest)
  }

  // ---------------------------------------------------------------- what the reads see

  /** Two states of one job, the second not earlier than the first. */
  ghost predicate Later(before: Record, after: Record) {
    before.log <= after.log && (IsTerminal(before.row.status) ==> after == before)
  }

  ghost predicate SeenBefore(views: seq<Record>, i: nat, j: nat)
    requires i <= j < |views|
  {
    RecordInv(views[i]) && RecordInv(views[j]) && Later(views[i], views[j])
  }

  /** The states seen by successive reads. */
  ghost predicate History(views: seq<Record>) {
    forall i, j {:trigger SeenBefore(views, i, j)} :: 0 <= i <= j < |views| ==> SeenBefore(views, i, j)
  }

  /** Reads made at successive points of any queue run form such a history. */
  lemma RunGivesHistory(p: Policy, ws: seq<World>, steps: seq<Step>, id: JobId, at: seq<nat>, views: seq<Record>)
    requires IsRun(p, ws, steps) && ws[0] == EmptyWorld
    requires |at| == |views| && forall i, j :: 0 <= i <= j < |at| ==> at[i] <= at[j]
    requires forall i :: 0 <= i < |at| ==> at[i] < |ws| && id in ws[at[i]].store && ws[at[i]].store[id] == views[i]
    ensures History(views)
  {
    forall i, j | 0 <= i <= j < |views| ensures SeenBefore(views, i, j) {
      RunKeepsInv(p, ws, steps, at[i]);
      RunKeepsInv(p, ws, steps, at[j]);
      RunEvolves(p, ws, steps, at[i], at[j]);
    }
  }

  // ---------------------------------------------------------------- the stream

  datatype Ending = Stopped | JobOver

  /** Exactly the events after start have been sent, in order, without gap or repeat. */
  ghost predicate Delivered(log: seq<Event>, start: nat, sent: seq<Event>) {
    && start + |sent| <= |log|
    && (forall i :: 0 <= i < |sent| ==> sent[i] == log[start + i] && sent[i].sequence == start + i + 1)
  }

  /** Sends one page, checking the connection before each event. */
  method SendPage(ghost log: seq<Event>, ghost start: nat, sent0: seq<Event>, page: seq<Event>, gone: seq<bool>, check0: nat)
    returns (sent: seq<Event>, check: nat, stopped: bool)
    requires Sequenced(log) && Delivered(log, start, sent0) && check0 <= |gone|
    requires start + |sent0| + |page| <= |log|
    requires forall i :: 0 <= i < |page| ==> page[i] == log[start + |sent0| + i]
    ensures Delivered(log, start, sent) && check0 <= check <= |gone| && Connected(gone[check0..check])
    ensures |sent| - |sent0| == check - check0
    ensures if stopped then Lost(gone, check) && |sent| < |sent0| + |page| else |sent| == |sent0| + |page|
  {
    sent, check := sent0, check0;
    for k := 0 to |page|
      invariant Delivered(log, start, sent) && |sent| == |sent0| + k
      invariant check0 <= check == check0 + k <= |gone| && Connected(gone[check0..check])
    {
      if check == |gone| || gone[check] {
        return sent, check, true;
      }
      assert gone[check0..check + 1] == gone[check0..check] + [gone[check]];
      check := check + 1;
      sent := sent + [page[k]];
    }
    stopped := false;
  }

  datatype PageOutcome = Empty | Sent | Cut

  /** One read of the log, and the page it finds. */
  method SendNext(views: seq<Record>, read: nat, ghost start: nat, cursor: nat, sent0: seq<Event>, gone: seq<bool>, check0: nat)
    returns (sent: seq<Event>, check: nat, outcome: PageOutcome)
    requires History(views) && read < |views| && check0 <= |gone|
    requires cursor == start + |sent0| && Delivered(views[|views| - 1].log, start, sent0)
    ensures Delivered(views[|views| - 1].log, start, sent) && check0 <= check <= |gone| && Connected(gone[check0..check])
    ensures |sent| - |sent0| == check - check0
    ensures match outcome
            case Empty => sent == sent0 && cursor >= |views[read].log|
            case Sent => |sent| > |sent0|
            case Cut => Lost(gone, check) && start + |sent| < |views[|views| - 1].log|
  {
    var page := EventsAfter(views[read].log, cursor, PAGE);
    PageIsNext(views, read, cursor);
    if page == [] {
      return sent0, check0, Empty;
    }
    ViewFacts(views, read);
    var stopped;
    sent, check, stopped := SendPage(views[|views| - 1].log, start, sent0, page, gone, check0);
    outcome := if stopped then Cut else Sent;
  }

  /** No check of these found the client gone. */
  ghost predicate Connected(gone: seq<bool>) {
    true !in gone
  }

  /** The next check finds the client gone, or nothing is known of it. */
  predicate Lost(gone: seq<bool>, check: nat) {
    check >= |gone| || gone[check]
  }

  /** The client stays, for as many checks as the reads and the events can take. */
  ghost predicate Stays(gone: seq<bool>, views: seq<Record>, start: nat) {
    Connected(gone) && |views| > 0 && |gone| >= |views| + |views[|views| - 1].log| - start
  }

  /** Progress up to the read t: each page read from then on carries something, until all that t saw has
      been sent. */
  ghost predicate Advances(views: seq<Record>, t: nat, read: nat, start: nat, sent: nat)
    requires t < |views|
  {
    && (read <= t + 1 + sent || start + sent >= |views[t].log|)
    && (IsTerminal(views[t].row.status) ==> read <= t + 1 + sent)
  }

  ghost predicate AllAdvance(views: seq<Record>, read: nat, start: nat, sent: nat) {
    forall t {:trigger views[t]} :: 0 <= t < |views| ==> Advances(views, t, read, start, sent)
  }

  lemma NothingRead(views: seq<Record>, start: nat)
    ensures AllAdvance(views, 0, start, 0)
  {
    forall t | 0 <= t < |views| ensures Advances(views, t, 0, start, 0) {
    }
  }

  /** A page with something in it makes up for the read. */
  lemma PageAdvances(views: seq<Record>, read: nat, start: nat, sent: nat, more: nat)
    requires AllAdvance(views, read, start, sent) && more > sent
    ensures AllAdvance(views, read + 1, start, more)
  {
    var next := read + 1;
    forall t | 0 <= t < |views| ensures Advances(views, t, next, start, more) {
      assert Advances(views, t, read, start, sent);
    }
  }

  /** An empty page shows that all seen so far has been sent; a second read then ends the stream, or the
      job was not over before it. */
  lemma EmptyPageAdvances(views: seq<Record>, read: nat, start: nat, sent: nat)
    requires History(views) && read + 1 < |views| && start + sent >= |views[read].log|
    requires views[read + 1].row.latestSequence > start + sent || !IsTerminal(views[read + 1].row.status)
    ensures AllAdvance(views, read + 2, start, sent)
  {
    var next := read + 2;
    forall t | 0 <= t < |views| ensures Advances(views, t, next, start, sent) {
      if t <= read {
        assert SeenBefore(views, t, read) && SeenBefore(views, t, read + 1);
      }
    }
  }

  /** What a read has seen is sent once enough reads have followed: at most one for each event. */
  ghost predicate CatchesUp(views: seq<Record>, start: nat, sent: nat) {
    forall t :: 0 <= t < |views| && t + 1 + |views[t].log| < start + |views| ==> start + sent >= |views[t].log|
  }

  /** A read finds the job over, and enough reads follow. */
  ghost predicate EndsInTime(views: seq<Record>, start: nat) {
    exists t :: 0 <= t < |views| && IsTerminal(views[t].row.status) && t + 2 + |views[t].log| < start + |views|
  }

  /** When the reads run out, the stream has caught up and the job did not end in time. */
  lemma ReadsRunOut(views: seq<Record>, read: nat, start: nat, sent: nat)
    requires History(views) && |views| > 0 && AllAdvance(views, read, start, sent)
    requires start + sent <= |views[|views| - 1].log|
    requires read == |views| || (read + 1 == |views| && start + sent >= |views[read].log|)
    ensures CatchesUp(views, start, sent) && !EndsInTime(views, start)
  {
    forall t | 0 <= t < |views|
      ensures t + 1 + |views[t].log| < start + |views| ==> start + sent >= |views[t].log|
      ensures IsTerminal(views[t].row.status) ==> t + 2 + |views[t].log| >= start + |views|
    {
      assert Advances(views, t, read, start, sent);
      ViewFacts(views, t);
    }
  }

  /** gone[k] is what the k-th connection check finds, views[k] what the k-th database read sees.
      Running out of either only means that the observation stops there. */
  method Stream(start: nat, gone: seq<bool>, views: seq<Record>)
    returns (sent: seq<Event>, ending: Ending, check: nat, read: nat)
    requires History(views) && |views| > 0
    requires start <= views[0].row.latestSequence
    ensures Delivered(views[|views| - 1].log, start, sent)
    ensures check <= |gone| && Connected(gone[..check]) && read <= |views|
    ensures ending == Stopped ==> Lost(gone, check) || read == |views|
    ensures ending == JobOver ==> IsTerminal(views[|views| - 1].row.status) && start + |sent| == |views[|views| - 1].log|
    ensures Stays(gone, views, start) ==> CatchesUp(views, start, |sent|)
    ensures Stays(gone, views, start) && EndsInTime(views, start) ==> ending == JobOver
  {
    ghost var log := views[|views| - 1].log;
    ViewFacts(views, 0);
    ViewFacts(views, |views| - 1);
    sent := [];
    var cursor := start;
    check, read := 0, 0;
    NothingRead(views, start);
    while true
      invariant read <= |views| && check <= |gone| && Connected(gone[..check]) && check <= read + |sent|
      invariant cursor == start + |sent| && Delivered(log, start, sent)
      invariant AllAdvance(views, read, start, |sent|)
      decreases |views| - read
    {
      if check == |gone| || read == |views| || gone[check] {
        if read == |views| {
          ReadsRunOut(views, read, start, |sent|);
        }
        return sent, Stopped, check, read;
      }
      assert gone[..check + 1] == gone[..check] + [gone[check]];
      check := check + 1;
      ghost var from, before := check, |sent|;
      var outcome;
      sent, check, outcome := SendNext(views, read, start, cursor, sent, gone, check);
      assert gone[..check] == gone[..from] + gone[from..check];
      read := read + 1;
      if outcome == Cut {
        return sent, Stopped, check, read;
      }
      if outcome == Sent {
        PageAdvances(views, read - 1, start, before, |sent|);
        cursor := sent[|sent| - 1].sequence;
        continue;
      }
      if read == |views| {
        ReadsRunOut(views, read - 1, start, |sent|);
        return sent, Stopped, check, read;
      }
      var current := views[read];
      ViewFacts(views, read);
      read := read + 1;
      if current.row.latestSequence > cursor {
        EmptyPageAdvances(views, read - 2, start, |sent|);
        continue;
      }
      if IsTerminal(current.row.status) {
        forall t | 0 <= t < |views| ensures |views[t].log| <= |log| {
          ViewFacts(views, t);
        }
        return sent, JobOver, check, read;
      }
      EmptyPageAdvances(views, read - 2, start, |sent|);
    }
  }

  lemma ViewFacts(views: seq<Record>, k: nat)
    requires History(views) && k < |views|
    ensures var last := views[|views| - 1];
            && |views[k].log| == views[k].row.latestSequence <= |last.log|
            && Sequenced(last.log)
            && (IsTerminal(views[k].row.status) ==> last == views[k])
  {
    assert SeenBefore(views, k, |views| - 1);
  }

  /** One page is the next stretch of the log as any later read sees it. */
  lemma PageIsNext(views: seq<Record>, read: nat, cursor: nat)
    requires History(views) && read < |views|
    ensures var page := EventsAfter(views[read].log, cursor, PAGE);
            var log := views[|views| - 1].log;
            page != [] ==> cursor + |page| <= |log| && forall i :: 0 <= i < |page| ==> page[i] == log[cursor + i]
    ensures EventsAfter(views[read].log, cursor, PAGE) == [] <==> |views[read].log| <= cursor
  {
    assert SeenBefore(views, read, |views| - 1);
    EventsAfterIsSlice(views[read].log, 0, cursor, PAGE);
  }

  /** A stream that ends because the job is over has delivered every event the job will ever have:
      in every later world of the run the log is the one that was sent. */
  lemma NothingFollows(p: Policy, ws: seq<World>, steps: seq<Step>, id: JobId, i: nat, j: nat, start: nat, sent: seq<Event>)
    requires IsRun(p, ws, steps) && ws[0] == EmptyWorld && i <= j < |ws|
    requires id in ws[i].store && IsTerminal(ws[i].store[id].row.status)
    requires Delivered(ws[i].store[id].log, start, sent) && start + |sent| == |ws[i].store[id].log|
    ensures id in ws[j].store && Delivered(ws[j].store[id].log, start, sent) && start + |sent| == |ws[j].store[id].log|
  {
    RunEvolves(p, ws, steps, i, j);
  }

  /** A client that reconnects with the number of the last event it received continues where it
      stopped: the two stretches together are gapless, however much was appended in between. */
  lemma ResumptionContinues(before: seq<Event>, after: seq<Event>, start: nat, sent: seq<Event>, more: seq<Event>)
    requires Sequenced(before) && Sequenced(after) && before <= after
    requires Delivered(before, start, sent) && sent != []
    requires var c := Cursor(Number(sent[|sent| - 1].sequence), |after|);
             c.Ok? && Delivered(after, c.value, more)
    ensures Cursor(Number(sent[|sent| - 1].sequence), |after|) == Ok(start + |sent|)
    ensures Delivered(after, start, sent + more)
  {
    assert sent[|sent| - 1].sequence == start + |sent|;
    var all := sent + more;
    forall i | 0 <= i < |all| ensures all[i] == after[start + i] && all[i].sequence == start + i + 1 {
      if i < |sent| {
        assert all[i] == sent[i] == before[start + i];
      } else {
        assert all[i] == more[i - |sent|];
      }
    }
  }
}
