/**
 * The life of one published job when every attempt is delivered once: entries are reclaimed only from
 * crashed workers, and a worker that finishes gets its transaction through.
 */
module QueueLife {
  import opened Basics
  import opened JobQueue
  import opened QueueRuns

  /** Where the one copy of a job is. */
  datatype Place = Nowhere | Queued(id: Id) | Waiting | Buried | Done

  predicate Orderly(s: Sys, e: Event) {
    && (e.Reclaim? ==> forall d <- s.flight :: d.id != e.id)
    && (e.Process? ==> e.applied)
  }

  ghost predicate OrderlyRun(max: int, es: seq<Event>)
    requires max > 0
  {
    es != [] ==> OrderlyRun(max, es[..|es| - 1]) && Orderly(Exec(max, es[..|es| - 1]), es[|es| - 1])
  }

  /** The job is at p and nowhere else, and its attempt count is the number of its failures. */
  ghost predicate At(max: int, s: Sys, j: Job, p: Place) {
    && InQueue(s.q, Entry(j, s.failures[j]), p) && InHands(s.flight, j, p)
    && (j in s.handled <==> p.Done?)
    && Counts(max, s, j, p)
  }

  /** `now` is the job with its failures so far. */
  ghost predicate InQueue(q: Queue, now: Entry, p: Place) {
    && (forall id <- q.stream :: q.stream[id].job == now.job ==> p == Queued(id))
    && (p.Queued? ==> p.id in q.stream && q.stream[p.id] == now)
    && (forall e <- q.delayed :: e.job == now.job ==> p.Waiting? && e == now)
    && (p.Waiting? ==> now in q.delayed)
    && Graves(q.dead, now.job) == (if p.Buried? then [now] else [])
  }

  ghost predicate InHands(flight: multiset<Delivery>, j: Job, p: Place) {
    forall d <- flight :: d.entry.job == j ==> p == Queued(d.id) && flight[d] == 1
  }

  ghost predicate Counts(max: int, s: Sys, j: Job, p: Place) {
    && (p.Nowhere? <==> j !in s.published)
    && (p.Nowhere? ==> s.failures[j] == 0)
    && (if p.Buried? then s.failures[j] == max || (s.failures[j] <= max && j in s.hopeless)
        else s.failures[j] < max && j !in s.hopeless)
  }

  /** The dead letters of one job. */
  function Graves(dead: seq<Entry>, j: Job): seq<Entry> {
    if dead == [] then []
    else
      var rest := Graves(dead[..|dead| - 1], j);
      if dead[|dead| - 1].job == j then rest + [dead[|dead| - 1]] else rest
  }

  lemma GravesPush(dead: seq<Entry>, e: Entry, j: Job)
    ensures Graves(dead + [e], j) == if e.job == j then Graves(dead, j) + [e] else Graves(dead, j)
  {
    assert (dead + [e])[..|dead|] == dead;
  }

  lemma PublishMoves(max: int, s: Sys, job: Job, j: Job, p: Place) returns (p': Place)
    requires Inv(max, s) && At(max, s, j, p) && max > 0
    requires job == j ==> j !in s.published
    ensures At(max, Step(max, s, Publish(job)), j, p')
  {
    p' := if job == j then Queued(s.q.next) else p;
    var n := Step(max, s, Publish(job));
    assert n.published[j] == s.published[j] + if job == j then 1 else 0;
  }

  lemma DeliverMoves(max: int, s: Sys, e: Event, j: Job, p: Place)
    requires Inv(max, s) && At(max, s, j, p) && Enabled(s, e) && Orderly(s, e)
    requires e.Read? || e.Reclaim? || e.Crash?
    ensures At(max, Step(max, s, e), j, p)
  {
  }

  /** What settling leaves of other jobs: everything. */
  lemma SettleSpares(max: int, q: Queue, id: Id, e: Entry, result: Outcome, now: Time, j: Job)
    requires e.job != j
    ensures var n := Settle(q, id, e, result, max, now);
      && n.stream == q.stream - {id} && Graves(n.dead, j) == Graves(q.dead, j)
      && (forall y: Entry :: y.job == j ==> (y in n.delayed <==> y in q.delayed))
  {
    GravesPush(q.dead, Entry(e.job, e.attempt + 1), j);
    hide Graves, Backoff;
  }

  /** Settling another job's entry leaves this one where it is. */
  lemma SettleOther(max: int, q: Queue, id: Id, e: Entry, result: Outcome, now: Time, x: Entry, p: Place)
    requires InQueue(q, x, p) && e.job != x.job && (id in q.stream ==> q.stream[id] == e)
    ensures InQueue(Settle(q, id, e, result, max, now), x, p)
  {
    SettleSpares(max, q, id, e, result, now, x.job);
    hide Graves, Settle;
  }

  /** Where a worker's verdict sends the job. */
  function Fate(max: int, e: Entry, result: Outcome): Place {
    if result.Succeeded? then Done
    else if result.permanent || e.attempt + 1 >= max then Buried
    else Waiting
  }

  lemma SettleOwn(max: int, q: Queue, id: Id, e: Entry, result: Outcome, now: Time)
    requires InQueue(q, e, Queued(id))
    ensures InQueue(Settle(q, id, e, result, max, now),
                    if result.Succeeded? then e else Entry(e.job, e.attempt + 1), Fate(max, e, result))
  {
    var failed, n := Entry(e.job, e.attempt + 1), Settle(q, id, e, result, max, now);
    GravesPush(q.dead, failed, e.job);
    hide Graves, Backoff;
    assert forall k <- n.stream :: k in q.stream && k != id && n.stream[k] == q.stream[k];
    assert forall x <- n.delayed :: x in q.delayed || (x == failed && Fate(max, e, result).Waiting?);
  }

  /** A run on another job counts for that job only. */
  lemma OtherCounts(max: int, s: Sys, d: Delivery, result: Outcome, now: Time, j: Job, p: Place)
    requires Counts(max, s, j, p) && d.entry.job != j
    ensures var n := Work(max, s, d, result, true, now);
      n.failures[j] == s.failures[j] && (j in n.handled <==> j in s.handled) && Counts(max, n, j, p)
  {
    hide Settle;
  }

  lemma OtherHands(s: Sys, d: Delivery, j: Job, p: Place)
    requires InHands(s.flight, j, p) && d.entry.job != j
    ensures InHands(s.flight - multiset{d}, j, p)
  {
    var n := s.flight - multiset{d};
    forall x <- n | x.entry.job == j ensures p == Queued(x.id) && n[x] == 1 { assert x in s.flight; }
  }

  lemma WorkOther(max: int, s: Sys, d: Delivery, result: Outcome, now: Time, j: Job, p: Place)
    requires Shape(s) && At(max, s, j, p) && d in s.flight && d.entry.job != j
    ensures At(max, Work(max, s, d, result, true, now), j, p)
  {
    SettleOther(max, s.q, d.id, d.entry, result, now, Entry(j, s.failures[j]), p);
    OtherCounts(max, s, d, result, now, j, p);
    OtherHands(s, d, j, p);
    hide InQueue, InHands, Counts, Settle, Shape;
  }

  lemma WorkOwn(max: int, s: Sys, d: Delivery, result: Outcome, now: Time)
    requires d in s.flight && At(max, s, d.entry.job, Queued(d.id))
    requires forall x <- s.flight :: x.entry.job == d.entry.job ==> x == d
    requires d.entry.attempt == s.failures[d.entry.job] && d.entry.attempt < max
    ensures At(max, Work(max, s, d, result, true, now), d.entry.job, Fate(max, d.entry, result))
  {
    SettleOwn(max, s.q, d.id, d.entry, result, now);
    hide InQueue, Settle;
    assert d.entry == Entry(d.entry.job, d.entry.attempt);
    assert forall x <- s.flight - multiset{d} :: x in s.flight && x.entry.job != d.entry.job;
  }

  lemma WorkMoves(max: int, s: Sys, d: Delivery, result: Outcome, now: Time, j: Job, p: Place) returns (p': Place)
    requires Inv(max, s) && At(max, s, j, p) && d in s.flight
    ensures At(max, Work(max, s, d, result, true, now), j, p')
  {
    if d.entry.job == j {
      assert p == Queued(d.id) && d.entry == Entry(j, s.failures[j]);
      assert Known(max, s, d.entry);
      assert forall x <- s.flight :: x.entry.job == j ==> x == d;
      hide At, Inv, Work;
      WorkOwn(max, s, d, result, now);
      p' := Fate(max, d.entry, result);
    } else {
      hide At, Work;
      WorkOther(max, s, d, result, now, j, p);
      p' := p;
    }
  }

  lemma MoveQueue(q: Queue, batch: seq<Entry>, now: int, x: Entry, p: Place) returns (p': Place)
    requires InQueue(q, x, p) && IsDue(q.delayed, now, batch) && forall id <- q.stream :: id < q.next
    ensures InQueue(Move(q, batch), x, p')
    ensures p' == p || (p.Waiting? && p'.Queued?)
  {
    var n := Move(q, batch);
    MoveExact(q, batch);
    hide Move, Graves;
    p' := p;
    if i :| 0 <= i < |batch| && batch[i] == x { p' := Queued(q.next + i); }
    forall id <- n.stream | n.stream[id].job == x.job ensures p' == Queued(id) {
      if q.next <= id {
        var k := id - q.next;
        assert batch[k] in batch;
      }
    }
  }

  lemma MoveMoves(max: int, s: Sys, now: int, batch: seq<Entry>, j: Job, p: Place) returns (p': Place)
    requires Inv(max, s) && At(max, s, j, p) && IsDue(s.q.delayed, now, batch)
    ensures At(max, Step(max, s, MoveDue(now, batch)), j, p')
  {
    p' := MoveQueue(s.q, batch, now, Entry(j, s.failures[j]), p);
    hide Move, InQueue, IsDue;
  }

  lemma {:induction false} Follow(max: int, es: seq<Event>, j: Job) returns (p: Place)
    requires max > 0 && OrderlyRun(max, es) && Exec(max, es).published[j] <= 1
    ensures At(max, Exec(max, es), j, p)
  {
    p := Nowhere;
    if es != [] {
      var s, e := Exec(max, es[..|es| - 1]), es[|es| - 1];
      assert Orderly(s, e);
      ExecInv(max, es[..|es| - 1]);
      hide Exec, At, Inv;
      assert s.published[j] <= Step(max, s, e).published[j];
      p := Follow(max, es[..|es| - 1], j);
      if Enabled(s, e) {
        match e
        case Publish(job) => p := PublishMoves(max, s, job, j, p);
        case Process(d, result, _, now) => p := WorkMoves(max, s, d, result, now, j, p);
        case MoveDue(now, batch) => p := MoveMoves(max, s, now, batch, j, p);
        case _ => DeliverMoves(max, s, e, j, p);
      }
    }
  }

  /**
   * A job published once that has not succeeded and never failed permanently is dead exactly when it has
   * failed MaxRetries times: with one dead letter that says so, and until then with none.
   */
  lemma DiesAtTheLimit(max: int, es: seq<Event>, j: Job)
    requires max > 0 && OrderlyRun(max, es)
    requires var s := Exec(max, es); s.published[j] == 1 && j !in s.handled && j !in s.hopeless
    ensures var s := Exec(max, es);
      && s.failures[j] <= max
      && Graves(s.q.dead, j) == if s.failures[j] == max then [Entry(j, max)] else []
  {
    var p := Follow(max, es, j);
  }

  /** A server whose limit is not set, or not positive, gives a job eight attempts. */
  lemma EightByDefault(configured: int, es: seq<Event>, j: Job)
    requires configured <= 0 && OrderlyRun(MaxRetries(configured), es)
    requires var s := Exec(MaxRetries(configured), es); s.published[j] == 1 && j !in s.handled && j !in s.hopeless
    ensures var s := Exec(MaxRetries(configured), es);
      && s.failures[j] <= 8
      && Graves(s.q.dead, j) == if s.failures[j] == 8 then [Entry(j, 8)] else []
  {
    hide Exec, OrderlyRun, Graves;
    DiesAtTheLimit(MaxRetries(configured), es, j);
  }

  /** A permanent failure is the last: one dead letter, counting the failures so far, and no copy elsewhere. */
  lemma PermanentIsFinal(max: int, es: seq<Event>, j: Job)
    requires max > 0 && OrderlyRun(max, es)
    requires var s := Exec(max, es); s.published[j] == 1 && j in s.hopeless
    ensures var s := Exec(max, es);
      && 0 < s.failures[j] <= max && Graves(s.q.dead, j) == [Entry(j, s.failures[j])]
      && j !in s.handled
      && (forall id <- s.q.stream :: s.q.stream[id].job != j) && (forall e <- s.q.delayed :: e.job != j)
  {
    var p := Follow(max, es, j);
    ExecInv(max, es);
    GravesKnown(max, Exec(max, es), Exec(max, es).q.dead, j);
  }

  lemma {:induction false} GravesKnown(max: int, s: Sys, dead: seq<Entry>, j: Job)
    requires Bounded(max, s) && forall e <- dead :: e in s.q.dead
    ensures forall e <- Graves(dead, j) :: 0 < e.attempt <= max
  {
    if dead != [] { GravesKnown(max, s, dead[..|dead| - 1], j); }
  }

  /** A job that succeeded leaves nothing behind. */
  lemma SuccessLeavesNothing(max: int, es: seq<Event>, j: Job)
    requires max > 0 && OrderlyRun(max, es)
    requires Exec(max, es).published[j] == 1 && j in Exec(max, es).handled
    ensures var s := Exec(max, es);
      && Graves(s.q.dead, j) == []
      && (forall id <- s.q.stream :: s.q.stream[id].job != j) && (forall e <- s.q.delayed :: e.job != j)
  {
    var p := Follow(max, es, j);
  }
}
