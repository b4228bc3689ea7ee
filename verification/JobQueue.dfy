/**
 * The durable job queue of internal/platform/queue/redis.go: topic streams with one consumer group, the
 * set of delayed retries and the dead-letter stream. One function per Redis command, script or
 * transaction; streams are not trimmed.
 */
module JobQueue {
  import opened Basics

  const MOVE_LIMIT: nat := 100
  const MILLISECOND: Time := 1000
  const FIRST_BACKOFF: Time := 200 * MILLISECOND
  const LAST_BACKOFF: Time := 30 * SECOND

  datatype Job = Job(topic: string, payload: string)

  /** A stream entry or a delayed envelope: the job and how often it has failed. */
  datatype Entry = Entry(job: Job, attempt: nat)

  datatype Outcome = Succeeded | Failed(permanent: bool)

  /**
   * `delayed` is a sorted set: equal envelopes are one member, its value the due time in unix ms.
   * `next`: the identifier XADD gives next.
   */
  datatype Queue = Queue(
    stream: map<Id, Entry>, pending: set<Id>, delayed: map<Entry, int>, dead: seq<Entry>, next: Id)

  const EMPTY: Queue := Queue(map[], {}, map[], [], 0)

  /** RedisOptions.defaults */
  function MaxRetries(configured: int): (n: int)
    ensures n > 0
  {
    if configured <= 0 then 8 else configured
  }

  function Pow2(n: nat): (p: nat)
    ensures p > 0
  {
    if n == 0 then 1 else 2 * Pow2(n - 1)
  }

  /** The delay before retry n, from 1 on. */
  function Backoff(n: nat): Time
    requires n > 0
  {
    Min(FIRST_BACKOFF * Pow2(Min(n - 1, 8)), LAST_BACKOFF)
  }

  lemma {:induction false} Pow2Grows(m: nat, n: nat)
    requires m <= n
    ensures Pow2(m) <= Pow2(n)
  {
    if m < n { Pow2Grows(m, n - 1); }
  }

  /** The powers of two at both ends of the schedule, and where it is capped. */
  lemma Powers()
    ensures Pow2(0) == 1 && Pow2(7) == 128 && Pow2(8) == 256
  {
    assert Pow2(3) == 8;
    assert Pow2(6) == 64;
  }

  /** Backoff doubles from 200 ms for eight attempts and stays at 30 s from the ninth on. */
  lemma BackoffShape(m: nat, n: nat)
    requires 0 < m <= n
    ensures FIRST_BACKOFF <= Backoff(m) <= Backoff(n) <= LAST_BACKOFF
    ensures m < 8 ==> Backoff(m + 1) == 2 * Backoff(m)
    ensures n >= 9 <==> Backoff(n) == LAST_BACKOFF
  {
    Powers();
    Pow2Grows(Min(m - 1, 8), Min(n - 1, 8));
    Pow2Grows(0, Min(m - 1, 8));
    if m < 8 { Pow2Grows(m, 7); }
    if n < 9 { Pow2Grows(n - 1, 7); }
  }

  // ---- commands ----

  function Add(q: Queue, e: Entry): Queue {
    q.(stream := q.stream[q.next := e], next := q.next + 1)
  }

  function Enqueue(q: Queue, job: Job): Queue {
    Add(q, Entry(job, 0))
  }

  /** XREADGROUP of a new entry, or XAUTOCLAIM of a pending one. */
  function Deliver(q: Queue, id: Id): Queue {
    q.(pending := q.pending + {id})
  }

  /** The transaction at the end of process: reschedule or bury a failed job, acknowledge and delete the entry. */
  function Settle(q: Queue, id: Id, e: Entry, result: Outcome, max: int, now: Time): Queue {
    var failed := Entry(e.job, e.attempt + 1);
    var q :=
      if result.Succeeded? then q
      else if result.permanent || e.attempt + 1 >= max then q.(dead := q.dead + [failed])
      else q.(delayed := q.delayed[failed := (now + Backoff(e.attempt + 1)) / MILLISECOND]);
    q.(stream := q.stream - {id}, pending := q.pending - {id})
  }

  /** What ZRANGEBYSCORE may return: the first hundred of the due envelopes, by due time. */
  predicate IsDue(delayed: map<Entry, int>, now: int, batch: seq<Entry>) {
    && |batch| <= MOVE_LIMIT
    && (forall i, j :: 0 <= i < j < |batch| ==> batch[i] != batch[j])
    && (forall e <- batch :: e in delayed && delayed[e] <= now)
    && (forall e <- delayed :: delayed[e] <= now && e !in batch ==>
          |batch| == MOVE_LIMIT && forall b <- batch :: delayed[b] <= delayed[e])
  }

  /** The loop of the move script. */
  function Move(q: Queue, batch: seq<Entry>): Queue
    decreases |batch|
  {
    if batch == [] then q
    else
      var rest := Move(q, batch[..|batch| - 1]);
      var e := batch[|batch| - 1];
      Add(rest.(delayed := rest.delayed - {e}), e)
  }

  /** n is q with exactly the batch taken out of the delayed set, one entry for each of it, and nothing else changed. */
  ghost predicate Moved(q: Queue, batch: seq<Entry>, n: Queue) {
    && n.delayed == (map e | e in q.delayed && e !in batch :: q.delayed[e])
    && n.pending == q.pending && n.dead == q.dead && n.next == q.next + |batch|
    && (forall id: Id :: q.next <= id < n.next ==> id in n.stream && n.stream[id] == batch[id - q.next])
    && (forall id <- n.stream :: q.next <= id < n.next || (id in q.stream && n.stream[id] == q.stream[id]))
    && (forall id <- q.stream :: q.next <= id < n.next || (id in n.stream && n.stream[id] == q.stream[id]))
  }

  lemma MovedOneMore(q: Queue, batch: seq<Entry>, n: Queue, e: Entry)
    requires Moved(q, batch, n)
    ensures Moved(q, batch + [e], Add(n.(delayed := n.delayed - {e}), e))
  {
    var m, more := Add(n.(delayed := n.delayed - {e}), e), batch + [e];
    assert forall x :: x in more <==> x in batch || x == e;
    assert m.delayed == (map x | x in q.delayed && x !in more :: q.delayed[x]);
  }

  lemma {:induction false} MoveExact(q: Queue, batch: seq<Entry>)
    ensures Moved(q, batch, Move(q, batch))
    decreases |batch|
  {
    if batch == [] {
      assert q.delayed == (map e | e in q.delayed && e !in batch :: q.delayed[e]);
    } else {
      var k := |batch| - 1;
      MoveExact(q, batch[..k]);
      MovedOneMore(q, batch[..k], Move(q, batch[..k]), batch[k]);
      assert batch == batch[..k] + [batch[k]];
      hide Moved;
    }
  }

  // ---- the queue in place ----

  lemma {:induction false} FirstExists(delayed: map<Entry, int>, due: set<Entry>) returns (first: Entry)
    requires due != {} && due <= delayed.Keys
    ensures first in due && forall e <- due :: delayed[first] <= delayed[e]
    decreases |due|
  {
    first :| first in due;
    var rest := due - {first};
    if rest != {} {
      var f := FirstExists(delayed, rest);
      if delayed[f] < delayed[first] { first := f; }
    }
  }

  class Redis {
    const max: int
    var stream: map<Id, Entry>
    var pending: set<Id>
    var delayed: map<Entry, int>
    var dead: seq<Entry>
    var next: Id

    constructor (retries: int)
      ensures View() == EMPTY && max == MaxRetries(retries)
    {
      max := MaxRetries(retries);
      stream, pending, delayed, dead, next := map[], {}, map[], [], 0;
    }

    function View(): Queue
      reads this
    {
      Queue(stream, pending, delayed, dead, next)
    }

    method XAdd(e: Entry) returns (id: Id)
      modifies this`stream, this`next
      ensures View() == Add(old(View()), e) && id == old(next)
    {
      id := next;
      stream, next := stream[id := e], next + 1;
    }

    method Publish(topic: string, payload: string)
      modifies this`stream, this`next
      ensures View() == Enqueue(old(View()), Job(topic, payload))
    {
      var _ := XAdd(Entry(Job(topic, payload), 0));
    }

    /** One worker's run on a delivered message; `applied` is false when the transaction failed. */
    method Process(id: Id, e: Entry, result: Outcome, applied: bool, now: Time)
      modifies this`stream, this`pending, this`delayed, this`dead
      ensures View() == if applied then Settle(old(View()), id, e, result, max, now) else old(View())
    {
      if !applied {
        return;
      }
      match result {
        case Succeeded =>
        case Failed(permanent) =>
          if permanent || e.attempt + 1 >= max {
            dead := dead + [Entry(e.job, e.attempt + 1)];
          } else {
            delayed := delayed[Entry(e.job, e.attempt + 1) := (now + Backoff(e.attempt + 1)) / MILLISECOND];
          }
      }
      pending := pending - {id};
      stream := stream - {id};
    }

    /** ZRANGEBYSCORE delayed -inf now LIMIT 0 100 */
    method FirstDue(now: int) returns (batch: seq<Entry>)
      ensures IsDue(delayed, now, batch)
    {
      batch := [];
      var due := set e <- delayed | delayed[e] <= now;
      while due != {} && |batch| < MOVE_LIMIT
        invariant |batch| <= MOVE_LIMIT && due <= delayed.Keys
        invariant forall e <- due :: delayed[e] <= now
        invariant forall i, j :: 0 <= i < j < |batch| ==> batch[i] != batch[j]
        invariant forall e <- batch :: e in delayed && delayed[e] <= now && e !in due
        invariant forall e <- delayed :: delayed[e] <= now ==> e in batch || e in due
        invariant forall b <- batch, e <- due :: delayed[b] <= delayed[e]
        decreases |due|
      {
        ghost var first := FirstExists(delayed, due);
        var e :| e in due && forall f <- due :: delayed[e] <= delayed[f];
        assert forall b <- batch + [e] :: b in batch || b == e;
        batch := batch + [e];
        due := due - {e};
      }
    }

    /** One run of the move script; `moved` is what it returns. */
    method MoveDue(now: Time) returns (moved: nat)
      modifies this
      ensures exists batch :: IsDue(old(delayed), now / MILLISECOND, batch) && |batch| == moved
                              && View() == Move(old(View()), batch)
    {
      var due := FirstDue(now / MILLISECOND);
      for i := 0 to |due|
        invariant View() == Move(old(View()), due[..i])
      {
        assert due[..i + 1][..i] == due[..i];
        delayed := delayed - {due[i]};
        var _ := XAdd(due[i]);
      }
      assert due[..|due|] == due;
      moved := |due|;
    }
  }
}
