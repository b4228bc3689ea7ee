/** The call log table and its guarded statements (internal/database/calls.sql.go). */
module CallLog {
  import opened Basics
  import opened CallManager

  datatype Row = Row(
    id: Id, caller: Id, callee: Id, state: LogState,
    started: Time, answered: Option<Time>, ended: Option<Time>, reason: Option<Reason>)
  {
    predicate Has(u: Id) { u == caller || u == callee }

    /** COALESCE(ended_at, now) */
    function EndOr(now: Time): Time { if ended.Some? then ended.value else now }
  }

  type Log = seq<Row>

  predicate HasId(log: Log, id: Id) {
    exists r <- log :: r.id == id
  }

  /** INSERT INTO calls; the primary key refuses a second row with the same id. */
  function InsertCall(log: Log, id: Id, caller: Id, callee: Id, state: LogState, at: Time): Log {
    if HasId(log, id) then log
    else if state == Closed(Busy) then
      log + [Row(id, caller, callee, state, at, None, Some(at), Some(Busy))]
    else
      log + [Row(id, caller, callee, state, at, None, None, None)]
  }

  function AnswerRow(r: Row, id: Id, at: Time): Row {
    if r.id == id && r.state == Ringing then r.(state := Active, answered := Some(at)) else r
  }

  function FinishRow(r: Row, id: Id, state: LogState, reason: Reason, at: Time): Row {
    if r.id == id && r.ended.None? then r.(state := state, reason := Some(reason), ended := Some(at)) else r
  }

  /** UPDATE calls SET state = 'active' ... WHERE id = .. AND state = 'ringing' */
  function AnswerCall(log: Log, id: Id, at: Time): Log {
    seq(|log|, i requires 0 <= i < |log| => AnswerRow(log[i], id, at))
  }

  /** UPDATE calls SET state = .. WHERE id = .. AND ended_at IS NULL */
  function FinishCall(log: Log, id: Id, state: LogState, reason: Reason, at: Time): Log {
    seq(|log|, i requires 0 <= i < |log| => FinishRow(log[i], id, state, reason, at))
  }

  /** The log write an effect asks for (other effects write nothing). */
  function Write(log: Log, e: Effect): Log {
    match e
    case Insert(id, caller, callee, state, at) => InsertCall(log, id, caller, callee, state, at)
    case Answer(id, at) => AnswerCall(log, id, at)
    case Finish(id, state, reason, at) => FinishCall(log, id, state, reason, at)
    case _ => log
  }

  /** A finished row never reads "ringing", which is what AnswerCall's guard relies on. */
  predicate NoneRingsAfterEnd(log: Log) {
    forall r <- log :: r.ended.Some? ==> r.state != Ringing
  }

  /** Whatever order the writes arrive in, a row with ended_at set never changes again. */
  lemma ClosedRowsFrozen(log: Log, e: Effect)
    requires NoneRingsAfterEnd(log)
    requires e.Finish? ==> e.state != Ringing
    ensures |log| <= |Write(log, e)|
    ensures forall i :: 0 <= i < |log| && log[i].ended.Some? ==> Write(log, e)[i] == log[i]
    ensures NoneRingsAfterEnd(Write(log, e))
  {
    var after := Write(log, e);
    forall r <- after | r.ended.Some? ensures r.state != Ringing {
      var i :| 0 <= i < |after| && after[i] == r;
      if i < |log| { assert log[i] in log; }
    }
  }

  /** What each write does to one row: an answer needs a ringing one, an end an open one, an entry a new id. */
  lemma WritesTake(log: Log, e: Effect, i: nat)
    requires i < |log| && (e.Insert? || e.Answer? || e.Finish?)
    ensures var n := Write(log, e);
      && i < |n|
      && (e.Insert? ==> n[i] == log[i])
      && (e.Answer? ==>
            if log[i].id == e.id && log[i].state == Ringing
            then n[i] == log[i].(state := Active, answered := Some(e.at)) else n[i] == log[i])
      && (e.Finish? ==>
            if log[i].id == e.id && log[i].ended.None?
            then n[i] == log[i].(state := e.state, reason := Some(e.reason), ended := Some(e.at)) else n[i] == log[i])
  {
  }

  /** An entry for a new id adds one row: a busy call is over at once, a ringing one is open. */
  lemma InsertTakes(log: Log, e: Effect)
    requires e.Insert? && (e.state == Ringing || e.state == Closed(Busy))
    ensures if exists r <- log :: r.id == e.id then Write(log, e) == log
            else
              var busy := e.state == Closed(Busy);
              Write(log, e) == log + [Row(e.id, e.caller, e.callee, e.state, e.at, None,
                                          if busy then Some(e.at) else None, if busy then Some(Busy) else None)]
  {
  }

  // ---- CallSecondsSince ----

  /** What one row adds to the sum. */
  function Counted(r: Row, u: Id, since: Time, now: Time): Time {
    if r.Has(u) && r.answered.Some? && r.EndOr(now) > since then
      r.EndOr(now) - Max(r.answered.value, since)
    else 0
  }

  /**
   * A hang-up that read the clock before the answer did, and came to the lock after it, leaves a row that
   * ends before it was answered: the sum takes it for negative talk.
   */
  lemma EarlierEndCountsNegative(r: Row, u: Id, since: Time, now: Time)
    requires r.Has(u) && r.answered.Some? && r.ended.Some? && since < r.ended.value < r.answered.value
    ensures Counted(r, u, since, now) == r.ended.value - r.answered.value < 0
  {
  }

  function SumCounted(log: Log, u: Id, since: Time, now: Time): Time {
    if log == [] then 0
    else SumCounted(log[..|log| - 1], u, since, now) + Counted(log[|log| - 1], u, since, now)
  }

  /** `::bigint` of a number of seconds: to the nearest, halves away from zero. */
  function RoundSeconds(t: Time): int {
    if t >= 0 then (t + SECOND / 2) / SECOND else -((-t + SECOND / 2) / SECOND)
  }

  /** answered call seconds of u since `since`; a call in progress counts up to `now` */
  function CallSecondsSince(log: Log, u: Id, since: Time, now: Time): int {
    RoundSeconds(SumCounted(log, u, since, now))
  }

  /** Rounding is to the nearest second, and a half goes away from zero. */
  lemma RoundingLoss(t: Time)
    ensures t - SECOND / 2 <= RoundSeconds(t) * SECOND <= t + SECOND / 2
    ensures RoundSeconds(t) * SECOND == t - SECOND / 2 ==> t < 0
    ensures RoundSeconds(t) * SECOND == t + SECOND / 2 ==> t > 0
  {
  }

  /** Rows that count the same, or belong to others, give the same sum. */
  lemma {:induction false} SumSame(a: Log, b: Log, u: Id, since: Time, now: Time)
    requires |a| == |b|
    requires forall i :: 0 <= i < |a| ==> Counted(a[i], u, since, now) == Counted(b[i], u, since, now)
    ensures SumCounted(a, u, since, now) == SumCounted(b, u, since, now)
  {
    if a != [] { SumSame(a[..|a| - 1], b[..|b| - 1], u, since, now); }
  }

  /** Rows from k on that add nothing can be cut off. */
  lemma {:induction false} SumCut(log: Log, k: nat, u: Id, since: Time, now: Time)
    requires k <= |log|
    requires forall i :: k <= i < |log| ==> Counted(log[i], u, since, now) == 0
    ensures SumCounted(log, u, since, now) == SumCounted(log[..k], u, since, now)
    decreases |log|
  {
    if k < |log| {
      SumCut(log[..|log| - 1], k, u, since, now);
      assert log[..|log| - 1][..k] == log[..k];
    } else {
      assert log[..k] == log;
    }
  }

  /** Changing one row changes the sum by what that row adds. */
  lemma {:induction false} SumChange(a: Log, b: Log, k: nat, u: Id, since: Time, now: Time)
    requires k < |a| == |b| && forall i :: 0 <= i < |a| && i != k ==> a[i] == b[i]
    ensures SumCounted(b, u, since, now) - SumCounted(a, u, since, now)
            == Counted(b[k], u, since, now) - Counted(a[k], u, since, now)
  {
    var n := |a| - 1;
    if k < n { SumChange(a[..n], b[..n], k, u, since, now); } else { assert a[..n] == b[..n]; }
  }

  /**
   * What the daily sum makes of an answered call whose two writes race: in order it counts the talk,
   * the wrong way round the answer's guard refuses the closed row and the talk is never counted.
   */
  lemma LateAnswerIsLost(log: Log, k: nat, at: Time, end: Time, u: Id, since: Time, now: Time)
    requires k < |log| && log[k].state == Ringing && log[k].answered.None? && log[k].ended.None? && log[k].Has(u)
    requires forall i :: 0 <= i < |log| && i != k ==> log[i].id != log[k].id
    ensures var id := log[k].id;
      && SumCounted(FinishCall(AnswerCall(log, id, at), id, Closed(Ended), Ended, end), u, since, now)
         == SumCounted(log, u, since, now) + (if end > since then end - Max(at, since) else 0)
      && SumCounted(AnswerCall(FinishCall(log, id, Closed(Ended), Ended, end), id, at), u, since, now)
         == SumCounted(log, u, since, now)
  {
    var id := log[k].id;
    SumChange(log, FinishCall(AnswerCall(log, id, at), id, Closed(Ended), Ended, end), k, u, since, now);
    SumChange(log, AnswerCall(FinishCall(log, id, Closed(Ended), Ended, end), id, at), k, u, since, now);
  }
}
