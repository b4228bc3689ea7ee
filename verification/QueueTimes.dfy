/** When a failed job is tried again: the times of the events of a run, and what they make of the delayed set. */
module QueueTimes {
  import opened Basics
  import opened JobQueue
  import opened QueueRuns

  /** How long a job waits after its n-th failure: 200 ms at first, twice as long each time, 30 s from the ninth on. */
  function Wait(n: nat): Time
    requires n > 0
  {
    if n == 1 then 200 * MILLISECOND
    else if n < 9 then 2 * Wait(n - 1)
    else 30 * SECOND
  }

  lemma {:induction false} BackoffIsWait(n: nat)
    requires n > 0
    ensures Backoff(n) == Wait(n)
  {
    Powers();
    if n == 1 {
    } else if n < 9 {
      BackoffIsWait(n - 1);
      Pow2Grows(n - 2, 7);
      Pow2Grows(n - 1, 7);
      BackoffShape(n - 1, n);
    } else {
      BackoffShape(n, n);
    }
  }

  /** The i-th event is a failure, with its transaction through, that brings the job to e.attempt failures. */
  ghost predicate FailsInto(max: int, es: seq<Event>, i: nat, e: Entry)
    requires i < |es|
  {
    && Enabled(Exec(max, es[..i]), es[i])
    && e.attempt < max
    && es[i].Process? && es[i].applied && es[i].result == Failed(false)
    && es[i].d.entry.job == e.job && es[i].d.entry.attempt + 1 == e.attempt
  }

  /** The due time is that of the failure and the wait, in whole milliseconds. */
  predicate DueFrom(due: int, failed: Time, n: nat) {
    n > 0 && due * MILLISECOND <= failed + Wait(n) < (due + 1) * MILLISECOND
  }

  /** The i-th event is the latest failure before the k-th that made e wait, and says until when. */
  ghost predicate WaitsSince(max: int, es: seq<Event>, i: nat, k: nat, e: Entry, due: int)
    requires k <= |es|
  {
    && i < k && FailsInto(max, es, i, e)
    && (forall x :: i < x < k ==> !FailsInto(max, es, x, e))
    && DueFrom(due, es[i].now, e.attempt)
  }

  lemma Floor(t: Time)
    ensures t / MILLISECOND * MILLISECOND <= t < (t / MILLISECOND + 1) * MILLISECOND
  {
  }

  /** A failure that is not the last puts one envelope onto the delayed set, and nothing else does. */
  lemma SettleDelays(q: Queue, id: Id, was: Entry, result: Outcome, max: int, now: Time, e: Entry)
    requires e in Settle(q, id, was, result, max, now).delayed
    ensures var n := Settle(q, id, was, result, max, now);
      if result == Failed(false) && was.attempt + 1 < max && e == Entry(was.job, was.attempt + 1) then
        DueFrom(n.delayed[e], now, e.attempt)
      else e in q.delayed && n.delayed[e] == q.delayed[e]
  {
    BackoffIsWait(was.attempt + 1);
    Floor(now + Backoff(was.attempt + 1));
    hide Backoff, Wait;
  }

  lemma MoveUndelays(q: Queue, batch: seq<Entry>, e: Entry)
    requires e in Move(q, batch).delayed
    ensures e in q.delayed && Move(q, batch).delayed[e] == q.delayed[e]
  {
    MoveExact(q, batch);
    hide Move;
  }

  /** The delayed set after one event: the failure's envelope is put in, the due ones are taken out, the rest stays. */
  lemma DelayedStep(max: int, es: seq<Event>, k: nat, e: Entry)
    requires max > 0 && k < |es| && e in Exec(max, es[..k + 1]).q.delayed
    ensures FailsInto(max, es, k, e) || e in Exec(max, es[..k]).q.delayed
    ensures if FailsInto(max, es, k, e) then DueFrom(Exec(max, es[..k + 1]).q.delayed[e], es[k].now, e.attempt)
            else
              && e in Exec(max, es[..k]).q.delayed
              && Exec(max, es[..k + 1]).q.delayed[e] == Exec(max, es[..k]).q.delayed[e]
  {
    var s, ev := Exec(max, es[..k]), es[k];
    assert es[..k + 1][..k] == es[..k];
    assert Exec(max, es[..k + 1]) == Step(max, s, ev);
    hide Exec;
    if ev.MoveDue? && Enabled(s, ev) {
      MoveUndelays(s.q, ev.batch, e);
    } else if ev.Process? && ev.applied && Enabled(s, ev) {
      SettleDelays(s.q, ev.d.id, ev.d.entry, ev.result, max, ev.now, e);
    }
    hide Move, IsDue, Settle, DueFrom;
  }

  lemma {:induction false} LastFailure(max: int, es: seq<Event>, k: nat, e: Entry) returns (i: nat)
    requires max > 0 && k <= |es| && e in Exec(max, es[..k]).q.delayed
    ensures e.attempt > 0 && WaitsSince(max, es, i, k, e, Exec(max, es[..k]).q.delayed[e])
    decreases k
  {
    if k == 0 {
      assert false;
    } else {
      i := k - 1;
      DelayedStep(max, es, i, e);
      hide Exec, FailsInto, DueFrom;
      if !FailsInto(max, es, i, e) { i := LastFailure(max, es, i, e); }
    }
  }

  /**
   * In every run, whatever is on the delayed set got there by a failure, and is due its wait after the latest
   * one: not before, and less than a millisecond after.
   */
  lemma DueAfterItsWait(max: int, es: seq<Event>, e: Entry)
    requires max > 0 && e in Exec(max, es).q.delayed
    ensures e.attempt > 0 && exists i :: WaitsSince(max, es, i, |es|, e, Exec(max, es).q.delayed[e])
  {
    assert es[..|es|] == es;
    var i := LastFailure(max, es, |es|, e);
  }

  /** The k-th event moves e back into the stream, its wait after a failure at the i-th. */
  ghost predicate Retried(max: int, es: seq<Event>, i: nat, k: nat, e: Entry)
    requires k < |es|
  {
    && i < k && FailsInto(max, es, i, e)
    && (forall x :: i < x < k ==> !FailsInto(max, es, x, e))
    && Enabled(Exec(max, es[..k]), es[k]) && es[k].MoveDue? && e in es[k].batch
    && e.attempt > 0 && es[i].now + Wait(e.attempt) < (es[k].now + 1) * MILLISECOND
  }

  /** What one event can put into the stream: an entry that was there, a fresh job, or a due envelope. */
  lemma StreamStep(max: int, s: Sys, ev: Event, id: Id)
    requires id in Step(max, s, ev).q.stream && Step(max, s, ev).q.stream[id].attempt > 0
    ensures var e := Step(max, s, ev).q.stream[id];
      || (id in s.q.stream && s.q.stream[id] == e)
      || (ev.MoveDue? && Enabled(s, ev) && e in ev.batch)
  {
    if ev.MoveDue? { MoveExact(s.q, ev.batch); }
    hide Move, IsDue, Backoff;
  }

  lemma {:induction false} EntersStream(max: int, es: seq<Event>, n: nat, id: Id) returns (k: nat)
    requires max > 0 && n <= |es| && id in Exec(max, es[..n]).q.stream
    requires Exec(max, es[..n]).q.stream[id].attempt > 0
    ensures k < n && Enabled(Exec(max, es[..k]), es[k]) && es[k].MoveDue? && Exec(max, es[..n]).q.stream[id] in es[k].batch
    decreases n
  {
    k := 0;
    if n == 0 {
      assert false;
    } else {
      k := n - 1;
      assert es[..n][..k] == es[..k];
      assert Exec(max, es[..n]) == Step(max, Exec(max, es[..k]), es[k]);
      hide Exec, Step, Enabled;
      var s, e := Exec(max, es[..k]), Exec(max, es[..n]).q.stream[id];
      StreamStep(max, s, es[k], id);
      if id in s.q.stream && s.q.stream[id] == e { k := EntersStream(max, es, k, id); }
    }
  }

  /** In every run, an entry in the stream that has failed n times was moved there no earlier than its wait after that failure. */
  lemma RetriesWait(max: int, es: seq<Event>, id: Id)
    requires max > 0 && id in Exec(max, es).q.stream && Exec(max, es).q.stream[id].attempt > 0
    ensures exists i, k :: 0 <= k < |es| && Retried(max, es, i, k, Exec(max, es).q.stream[id])
  {
    var e := Exec(max, es).q.stream[id];
    assert es[..|es|] == es;
    hide Exec, FailsInto, Wait;
    var k := EntersStream(max, es, |es|, id);
    assert e in Exec(max, es[..k]).q.delayed && Exec(max, es[..k]).q.delayed[e] <= es[k].now;
    var i := LastFailure(max, es, k, e);
    hide Enabled, Step;
    assert Retried(max, es, i, k, e);
  }

  /** A move that has room left leaves nothing behind that was due; a full one leaves nothing that was due earlier. */
  lemma DueIsMoved(max: int, es: seq<Event>, now: int, batch: seq<Entry>, e: Entry)
    requires Enabled(Exec(max, es), MoveDue(now, batch)) && e in Exec(max, es + [MoveDue(now, batch)]).q.delayed
    ensures e in Exec(max, es).q.delayed && Exec(max, es).q.delayed[e] == Exec(max, es + [MoveDue(now, batch)]).q.delayed[e]
    ensures Exec(max, es).q.delayed[e] > now
            || (|batch| == 100 && forall b <- batch :: Exec(max, es).q.delayed[b] <= Exec(max, es).q.delayed[e])
  {
    var s := Exec(max, es);
    assert (es + [MoveDue(now, batch)])[..|es|] == es;
    MoveExact(s.q, batch);
    hide Exec;
  }
}
