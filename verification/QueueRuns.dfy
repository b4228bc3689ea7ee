/**
 * Whole runs of the job queue: publishers, readers, reclaimers, workers and the mover interleave freely;
 * workers crash, transactions fail, and one entry may be delivered to several workers at once.
 */
module QueueRuns {
  import opened Basics
  import opened JobQueue

  /** A message in a worker's hands: a copy of the entry as it was read. */
  datatype Delivery = Delivery(id: Id, entry: Entry)

  /**
   * `handled`: jobs some handler run succeeded on; `failures`: failed handler runs;
   * `hopeless`: jobs a handler failed permanently on.
   */
  datatype Sys = Sys(
    q: Queue, flight: multiset<Delivery>,
    published: multiset<Job>, handled: set<Job>, failures: multiset<Job>, hopeless: set<Job>)

  datatype Event =
    | Publish(job: Job)
    | Read(id: Id)
    | Reclaim(id: Id)
    | Crash(d: Delivery)
    | Process(d: Delivery, result: Outcome, applied: bool, now: Time)
    | MoveDue(now: int, batch: seq<Entry>)

  const INIT: Sys := Sys(EMPTY, multiset{}, multiset{}, {}, multiset{}, {})

  predicate Enabled(s: Sys, e: Event) {
    match e
    case Publish(_) => true
    case Read(id) => id in s.q.stream && id !in s.q.pending
    case Reclaim(id) => id in s.q.pending && id in s.q.stream
    case Crash(d) => d in s.flight
    case Process(d, _, _, _) => d in s.flight
    case MoveDue(now, batch) => IsDue(s.q.delayed, now, batch)
  }

  /** One handler run and, if its transaction is applied, what follows from it. */
  function Work(max: int, s: Sys, d: Delivery, result: Outcome, applied: bool, now: Time): Sys {
    var j := d.entry.job;
    Sys(if applied then Settle(s.q, d.id, d.entry, result, max, now) else s.q,
        s.flight - multiset{d},
        s.published,
        if result.Succeeded? then s.handled + {j} else s.handled,
        if result.Failed? then s.failures + multiset{j} else s.failures,
        if result.Failed? && result.permanent then s.hopeless + {j} else s.hopeless)
  }

  function Step(max: int, s: Sys, e: Event): Sys {
    if !Enabled(s, e) then s
    else match e
      case Publish(job) => s.(q := Enqueue(s.q, job), published := s.published + multiset{job})
      case Crash(d) => s.(flight := s.flight - multiset{d})
      case Process(d, result, applied, now) => Work(max, s, d, result, applied, now)
      case MoveDue(_, batch) => s.(q := Move(s.q, batch))
      case _ =>
        s.(q := Deliver(s.q, e.id), flight := s.flight + multiset{Delivery(e.id, s.q.stream[e.id])})
  }

  // ---- conservation and the retry limit ----

  ghost predicate Somewhere(s: Sys, j: Job) {
    || j in s.handled
    || (exists id <- s.q.stream :: s.q.stream[id].job == j)
    || (exists e <- s.q.delayed :: e.job == j)
    || (exists e <- s.q.dead :: e.job == j)
  }

  ghost predicate Known(max: int, s: Sys, e: Entry) {
    e.attempt < max && e.job in s.published
  }

  ghost predicate Shape(s: Sys) {
    && s.q.pending <= s.q.stream.Keys
    && (forall id <- s.q.stream :: id < s.q.next)
    && (forall d <- s.flight ::
          && d.id < s.q.next
          && (d.id in s.q.stream ==> s.q.stream[d.id] == d.entry && d.id in s.q.pending))
  }

  ghost predicate Bounded(max: int, s: Sys) {
    && (forall id <- s.q.stream :: Known(max, s, s.q.stream[id]))
    && (forall e <- s.q.delayed :: Known(max, s, e))
    && (forall d <- s.flight :: Known(max, s, d.entry))
    && (forall e <- s.q.dead :: 0 < e.attempt <= max && e.job in s.published)
    && (forall j <- s.handled :: j in s.published)
  }

  ghost predicate Conserved(s: Sys) {
    forall j <- s.published :: Somewhere(s, j)
  }

  ghost predicate Inv(max: int, s: Sys) {
    Shape(s) && Bounded(max, s) && Conserved(s)
  }

  lemma PublishKeeps(max: int, s: Sys, job: Job)
    requires Inv(max, s) && max > 0
    ensures Inv(max, Step(max, s, Publish(job)))
  {
    var n := Step(max, s, Publish(job));
    forall j <- n.published ensures Somewhere(n, j) {
      if j in s.published {
        assert Somewhere(s, j);
        if id :| id in s.q.stream && s.q.stream[id].job == j { assert n.q.stream[id].job == j; }
      } else {
        assert n.q.stream[s.q.next].job == j;
      }
    }
  }

  /** Nothing changes but what is pending and in flight. */
  lemma SomewhereStays(s: Sys, n: Sys)
    requires Conserved(s) && n.published == s.published && n.handled == s.handled
    requires n.q.stream == s.q.stream && n.q.delayed == s.q.delayed && n.q.dead == s.q.dead
    ensures Conserved(n)
  {
    forall j <- n.published ensures Somewhere(n, j) { assert Somewhere(s, j); }
  }

  lemma DeliverKeeps(max: int, s: Sys, id: Id)
    requires Inv(max, s) && id in s.q.stream
    ensures Inv(max, s.(q := Deliver(s.q, id), flight := s.flight + multiset{Delivery(id, s.q.stream[id])}))
  {
    var n := s.(q := Deliver(s.q, id), flight := s.flight + multiset{Delivery(id, s.q.stream[id])});
    assert Known(max, s, s.q.stream[id]);
    assert forall d <- n.flight :: d in s.flight || d == Delivery(id, s.q.stream[id]);
    SomewhereStays(s, n);
    hide Conserved;
    assert Shape(n) by { hide Bounded, Known; }
    assert Bounded(max, n) by { hide Shape; }
  }

  lemma CrashKeeps(max: int, s: Sys, d: Delivery)
    requires Inv(max, s)
    ensures Inv(max, s.(flight := s.flight - multiset{d}))
  {
    var n := s.(flight := s.flight - multiset{d});
    assert forall x <- n.flight :: x in s.flight;
    SomewhereStays(s, n);
  }

  /** A job whose entry was deleted is handled, delayed or dead. */
  lemma Settled(max: int, s: Sys, d: Delivery, result: Outcome, now: Time)
    ensures var n, j, next := Work(max, s, d, result, true, now), d.entry.job, d.entry.attempt + 1;
      || (result.Succeeded? && j in n.handled)
      || (result.Failed? && Entry(j, next) in n.q.delayed && next < max)
      || (result.Failed? && Entry(j, next) in n.q.dead)
  {
  }

  lemma WorkConserves(max: int, s: Sys, d: Delivery, result: Outcome, applied: bool, now: Time, j: Job)
    requires Shape(s) && d in s.flight && Somewhere(s, j)
    ensures Somewhere(Work(max, s, d, result, applied, now), j)
  {
    var n := Work(max, s, d, result, applied, now);
    if id :| id in s.q.stream && s.q.stream[id].job == j {
      if id in n.q.stream { assert n.q.stream[id].job == j; } else { Settled(max, s, d, result, now); }
    } else if x :| x in s.q.delayed && x.job == j {
      assert x in n.q.delayed;
    } else if x :| x in s.q.dead && x.job == j {
      assert x in n.q.dead;
    }
  }

  lemma SettleShape(max: int, s: Sys, d: Delivery, result: Outcome, now: Time)
    requires Shape(s) && d in s.flight
    ensures Shape(s.(q := Settle(s.q, d.id, d.entry, result, max, now)))
  {
  }

  lemma SettleBounds(max: int, s: Sys, d: Delivery, result: Outcome, now: Time)
    requires Bounded(max, s) && d in s.flight
    ensures Bounded(max, s.(q := Settle(s.q, d.id, d.entry, result, max, now)))
  {
    var n, failed := Settle(s.q, d.id, d.entry, result, max, now), Entry(d.entry.job, d.entry.attempt + 1);
    assert Known(max, s, d.entry);
    assert forall x <- n.dead :: x in s.q.dead || x == failed;
    assert forall x <- n.delayed :: x in s.q.delayed || (x == failed && failed.attempt < max);
    assert forall id <- n.stream :: id in s.q.stream && n.stream[id] == s.q.stream[id];
    hide Settle;
  }

  /** A delivery is used up, and its job may be handled or have failed. */
  lemma UseUp(max: int, s: Sys, d: Delivery, n: Sys)
    requires Shape(s) && Bounded(max, s) && d in s.flight
    requires n.q == s.q && n.flight == s.flight - multiset{d} && n.published == s.published
    requires n.handled == s.handled || n.handled == s.handled + {d.entry.job}
    ensures Shape(n) && Bounded(max, n)
  {
    assert Known(max, s, d.entry);
    assert forall x <- n.flight :: x in s.flight;
  }

  lemma WorkBounds(max: int, s: Sys, d: Delivery, result: Outcome, applied: bool, now: Time)
    requires Shape(s) && Bounded(max, s) && d in s.flight
    ensures var n := Work(max, s, d, result, applied, now); Shape(n) && Bounded(max, n)
  {
    var t := s.(q := Settle(s.q, d.id, d.entry, result, max, now));
    SettleShape(max, s, d, result, now);
    SettleBounds(max, s, d, result, now);
    UseUp(max, if applied then t else s, d, Work(max, s, d, result, applied, now));
  }

  lemma WorkKeeps(max: int, s: Sys, d: Delivery, result: Outcome, applied: bool, now: Time)
    requires Inv(max, s) && d in s.flight
    ensures Inv(max, Work(max, s, d, result, applied, now))
  {
    WorkBounds(max, s, d, result, applied, now);
    var n := Work(max, s, d, result, applied, now);
    forall j <- n.published ensures Somewhere(n, j) {
      hide Shape, Bounded;
      WorkConserves(max, s, d, result, applied, now, j);
    }
  }

  lemma MoveBounds(max: int, s: Sys, now: int, batch: seq<Entry>)
    requires Shape(s) && Bounded(max, s) && IsDue(s.q.delayed, now, batch)
    ensures var n := s.(q := Move(s.q, batch)); Shape(n) && Bounded(max, n)
  {
    var n := s.(q := Move(s.q, batch));
    MoveExact(s.q, batch);
    hide Move;
    forall id <- n.q.stream ensures Known(max, n, n.q.stream[id]) {
      if id >= s.q.next {
        var i := id - s.q.next;
        assert batch[i] in batch;
        assert Known(max, s, batch[i]);
      } else {
        assert Known(max, s, s.q.stream[id]);
      }
    }
  }

  lemma MoveConserves(s: Sys, batch: seq<Entry>, j: Job)
    requires Shape(s) && Somewhere(s, j)
    ensures Somewhere(s.(q := Move(s.q, batch)), j)
  {
    var n := s.(q := Move(s.q, batch));
    MoveExact(s.q, batch);
    hide Move;
    if id :| id in s.q.stream && s.q.stream[id].job == j {
      assert n.q.stream[id].job == j;
    } else if x :| x in s.q.delayed && x.job == j {
      if i :| 0 <= i < |batch| && batch[i] == x {
        assert s.q.next + i in n.q.stream && n.q.stream[s.q.next + i].job == j;
      } else {
        assert x in n.q.delayed;
      }
    }
  }

  lemma MoveKeeps(max: int, s: Sys, now: int, batch: seq<Entry>)
    requires Inv(max, s) && IsDue(s.q.delayed, now, batch)
    ensures Inv(max, s.(q := Move(s.q, batch)))
  {
    MoveBounds(max, s, now, batch);
    var n := s.(q := Move(s.q, batch));
    hide Move, Bounded, Shape, IsDue;
    forall j <- n.published ensures Somewhere(n, j) { MoveConserves(s, batch, j); }
  }

  lemma StepKeepsInv(max: int, s: Sys, e: Event)
    requires Inv(max, s) && max > 0
    ensures Inv(max, Step(max, s, e))
  {
    if Enabled(s, e) {
      hide Inv, Work, Deliver, Enqueue, Move, IsDue;
      match e
      case Publish(job) => PublishKeeps(max, s, job);
      case Read(id) => DeliverKeeps(max, s, id);
      case Reclaim(id) => DeliverKeeps(max, s, id);
      case Crash(d) => CrashKeeps(max, s, d);
      case Process(d, result, applied, now) => WorkKeeps(max, s, d, result, applied, now);
      case MoveDue(now, batch) => MoveKeeps(max, s, now, batch);
    }
  }

  function Exec(max: int, es: seq<Event>): Sys {
    if es == [] then INIT else Step(max, Exec(max, es[..|es| - 1]), es[|es| - 1])
  }

  lemma {:induction false} ExecInv(max: int, es: seq<Event>)
    requires max > 0
    ensures Inv(max, Exec(max, es))
  {
    if es == [] {
    } else {
      ExecInv(max, es[..|es| - 1]);
      StepKeepsInv(max, Exec(max, es[..|es| - 1]), es[|es| - 1]);
      hide Inv, Step;
    }
  }

  /**
   * Conservation: in every run, the jobs that are in the stream, delayed, dead or handled are exactly
   * the published ones. Nothing is lost, and nothing comes from nowhere.
   */
  lemma NothingIsLost(max: int, es: seq<Event>, j: Job)
    requires max > 0
    ensures var s := Exec(max, es); j in s.published <==> Somewhere(s, j)
  {
    var s := Exec(max, es);
    ExecInv(max, es);
    hide Exec;
    if id :| id in s.q.stream && s.q.stream[id].job == j { assert Known(max, s, s.q.stream[id]); }
    if e :| e in s.q.delayed && e.job == j { assert Known(max, s, e); }
  }

  /** No entry in a stream or in the delayed set has used up its attempts. */
  lemma AttemptsBelowLimit(max: int, es: seq<Event>)
    requires max > 0
    ensures var s := Exec(max, es);
      && (forall id <- s.q.stream :: s.q.stream[id].attempt < max)
      && (forall e <- s.q.delayed :: e.attempt < max)
      && (forall e <- s.q.dead :: 0 < e.attempt <= max)
  {
    var s := Exec(max, es);
    ExecInv(max, es);
    hide Exec;
    forall id <- s.q.stream ensures s.q.stream[id].attempt < max { assert Known(max, s, s.q.stream[id]); }
    forall e <- s.q.delayed ensures e.attempt < max { assert Known(max, s, e); }
  }
}
