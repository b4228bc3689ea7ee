/**
 * Whole runs of the call manager again: which timers are out for a call, what a call may end for, and what the
 * log says about it.
 */
module CallCauses {
  import opened Basics
  import opened CallLog
  import opened CallManager
  import opened CallRuns

  // ---- the timers of a call ----

  /** A ringing call has its ring timer. */
  ghost predicate RingsOut(trace: seq<Effect>) {
    forall e <- trace :: e.Insert? && e.state == Ringing ==> Arm(e.id, Missed, RING_TIMEOUT) in trace
  }

  /** A listed call rang, between the two who are on it. */
  ghost predicate Rang(m: Mgr, trace: seq<Effect>) {
    forall id <- m.calls :: Insert(id, m.calls[id].caller, m.calls[id].callee, Ringing, m.calls[id].started) in trace
  }

  /** The callee was offered this limit, and a timer waits for it. */
  ghost predicate Limited(trace: seq<Effect>, id: Id, at: Time, from: Conn, limit: Time) {
    && (exists caller, since :: Insert(id, caller, from.user, Ringing, since) in trace)
    && Offer(from, id, at, limit) in trace
    && Arm(id, if limit < MAX_DURATION then DailyLimit else Ended, limit) in trace
  }

  ghost predicate TalksOut(trace: seq<Effect>) {
    forall e <- trace :: e.Answer? ==> exists from, limit :: Limited(trace, e.id, e.at, from, limit)
  }

  /** A side that is gone has its grace timer. */
  ghost predicate GraceRuns(m: Mgr, trace: seq<Effect>) {
    forall id <- m.calls :: m.calls[id].lost != {} ==> Arm(id, Disconnected, RECONNECT_GRACE) in trace
  }

  ghost predicate TimersOut(s: Sys) {
    RingsOut(s.trace) && Rang(s.mgr, s.trace) && TalksOut(s.trace) && GraceRuns(s.mgr, s.trace)
  }

  lemma RingArms(m: Mgr, r: Req, e: Effect)
    requires Pointed(m) && e in Handle(m, r).effects && e.Insert? && e.state == Ringing
    ensures Arm(e.id, Missed, RING_TIMEOUT) in Handle(m, r).effects
  {
    hide AllowStart;
  }

  lemma AnswerArms(m: Mgr, r: Req, e: Effect)
    requires Pointed(m) && e in Handle(m, r).effects && e.Answer?
    ensures r.ReqCommit? && e == Answer(r.id, r.at) && r.id in m.calls && m.calls[r.id].callee == r.from.user
    ensures Arm(r.id, if r.limit < MAX_DURATION then DailyLimit else Ended, r.limit) in Handle(m, r).effects
  {
    hide AllowStart;
  }

  lemma LossArms(m: Mgr, r: Req, id: Id)
    requires Inv(m) && id in Handle(m, r).mgr.calls && Handle(m, r).mgr.calls[id].lost != {}
    ensures (id in m.calls && m.calls[id].lost != {}) || Arm(id, Disconnected, RECONNECT_GRACE) in Handle(m, r).effects
  {
    hide AllowStart, GoodCall;
  }

  /** Two of a call that never change, and when it started. */
  ghost predicate SameParties(c: Call, d: Call) {
    d.caller == c.caller && d.callee == c.callee && d.started == c.started
  }

  lemma StartInserts(m: Mgr, r: Req, id: Id)
    requires Pointed(m) && r.ReqStart? && id in Handle(m, r).mgr.calls
    ensures var c := Handle(m, r).mgr.calls[id];
      || (id in m.calls && SameParties(m.calls[id], c))
      || Insert(id, c.caller, c.callee, Ringing, c.started) in Handle(m, r).effects
  {
    hide AllowStart;
  }

  lemma DevicesKeep(m: Mgr, r: Req, id: Id)
    requires Inv(m) && (r.ReqConnected? || r.ReqDropped?) && id in Handle(m, r).mgr.calls
    ensures id in m.calls && SameParties(m.calls[id], Handle(m, r).mgr.calls[id])
  {
    hide GoodCall;
  }

  lemma OthersKeepParties(m: Mgr, r: Req, id: Id)
    requires Pointed(m) && !r.ReqStart? && !r.ReqConnected? && !r.ReqDropped? && id in Handle(m, r).mgr.calls
    ensures id in m.calls && SameParties(m.calls[id], Handle(m, r).mgr.calls[id])
  {
  }

  lemma RingInserts(m: Mgr, r: Req, id: Id)
    requires Inv(m) && id in Handle(m, r).mgr.calls
    ensures var c := Handle(m, r).mgr.calls[id];
      || (id in m.calls && SameParties(m.calls[id], c))
      || Insert(id, c.caller, c.callee, Ringing, c.started) in Handle(m, r).effects
  {
    PointedOf(m);
    hide *;
    if r.ReqStart? { StartInserts(m, r, id); }
    else if r.ReqConnected? || r.ReqDropped? { DevicesKeep(m, r, id); }
    else { OthersKeepParties(m, r, id); }
  }

  lemma TimersStep(s: Sys, r: Req)
    requires Inv(s.mgr) && TimersOut(s) && Enabled(s, Do(r))
    ensures TimersOut(Step(s, Do(r)))
  {
    PointedOf(s.mgr);
    var o, n := Handle(s.mgr, r), Step(s, Do(r));
    hide Handle, Inv;
    forall e <- n.trace | e.Insert? && e.state == Ringing ensures Arm(e.id, Missed, RING_TIMEOUT) in n.trace {
      if e !in s.trace { RingArms(s.mgr, r, e); }
    }
    forall id <- n.mgr.calls
      ensures Insert(id, n.mgr.calls[id].caller, n.mgr.calls[id].callee, Ringing, n.mgr.calls[id].started) in n.trace
    {
      RingInserts(s.mgr, r, id);
    }
    forall e <- n.trace | e.Answer? ensures exists from, limit :: Limited(n.trace, e.id, e.at, from, limit) {
      if e in s.trace {
        var from, limit :| Limited(s.trace, e.id, e.at, from, limit);
        assert Limited(n.trace, e.id, e.at, from, limit);
      } else {
        AnswerArms(s.mgr, r, e);
        var c := s.mgr.calls[r.id];
        assert Insert(r.id, c.caller, r.from.user, Ringing, c.started) in n.trace;
        assert Limited(n.trace, e.id, e.at, r.from, r.limit);
      }
    }
    forall id <- n.mgr.calls | n.mgr.calls[id].lost != {} ensures Arm(id, Disconnected, RECONNECT_GRACE) in n.trace {
      LossArms(s.mgr, r, id);
    }
  }

  lemma {:induction false} TimersInv(es: seq<Event>)
    ensures TimersOut(Exec(es))
  {
    if es != [] {
      var before, e := Exec(es[..|es| - 1]), es[|es| - 1];
      assert Exec(es) == Step(before, e);
      TimersInv(es[..|es| - 1]);
      if Enabled(before, e) && e.Do? { TimersStep(before, e.req); }
    }
  }

  /**
   * In every run: whatever rang has its ring timer; whatever was answered has a timer for exactly the limit that
   * was offered to its callee at the time of the answer; a call with a side that is gone has its grace timer.
   */
  lemma TimersAreArmed(es: seq<Event>, id: Id)
    ensures var s := Exec(es);
      && (Tally(s.trace, Opened(id)) > 0 ==> Arm(id, Missed, RING_TIMEOUT) in s.trace)
      && (Tally(s.trace, Answered(id)) > 0 ==>
            exists from, at, limit :: Answer(id, at) in s.trace && Limited(s.trace, id, at, from, limit))
      && (id in s.mgr.calls && s.mgr.calls[id].lost != {} ==> Arm(id, Disconnected, RECONNECT_GRACE) in s.trace)
  {
    var t := Exec(es).trace;
    TimersInv(es);
    hide Exec;
    if Tally(t, Opened(id)) > 0 {
      var e := Tallied(t, Opened(id));
    }
    if Tally(t, Answered(id)) > 0 {
      var e := Tallied(t, Answered(id));
      var from, limit :| Limited(t, e.id, e.at, from, limit);
      assert Answer(id, e.at) in t && Limited(t, id, e.at, from, limit);
    }
  }

  lemma Tallied(trace: seq<Effect>, k: Kind) returns (e: Effect)
    requires Tally(trace, k) > 0
    ensures e in trace && Is(e, k)
  {
    if forall x <- trace :: !Is(x, k) {
      TallyZero(trace, k);
      assert false;
    }
    e :| e in trace && Is(e, k);
  }

  // ---- what a call ends for ----

  ghost predicate Rings(m: Mgr, id: Id) { id in m.calls && !m.calls[id].active }

  ghost predicate Talks(m: Mgr, id: Id) { id in m.calls && m.calls[id].active }

  /** Who or what may send a call on its way to ending for a reason. */
  ghost predicate Cause(m: Mgr, r: Req, id: Id, reason: Reason) {
    match reason
    case Missed =>
      r.ReqStart? && r.id == id
    case Declined =>
      Rings(m, id) && r.ReqHangUp? && r.id == id && r.from.user == m.calls[id].callee
    case Cancelled =>
      && Rings(m, id)
      && ((r.ReqHangUp? && r.id == id && r.from.user == m.calls[id].caller)
          || r == ReqDropped(Conn(m.calls[id].caller, m.calls[id].callerConn)))
    case Ended =>
      || (Talks(m, id) && r.ReqHangUp? && r.id == id && m.calls[id].Has(r.from.user))
      || (Rings(m, id) && r.ReqCommit? && r.id == id && r.from.user == m.calls[id].callee && r.limit >= MAX_DURATION)
    case DailyLimit =>
      || (id in m.calls && r.ReqPeek? && r.id == id && r.from.user == m.calls[id].callee
          && r.leftCaller.Some? && r.leftCallee.Some? && (r.leftCaller.value <= 0 || r.leftCallee.value <= 0))
      || (Rings(m, id) && r.ReqCommit? && r.id == id && r.from.user == m.calls[id].callee && r.limit < MAX_DURATION)
    case Disconnected =>
      Talks(m, id) && exists u :: m.calls[id].Has(u) && u !in m.calls[id].lost && r == ReqDropped(Conn(u, m.calls[id].ConnOf(u)))
    case Unfriended =>
      id in m.calls && r.ReqEndBetween? && r.a != r.b && m.calls[id].Has(r.a) && m.calls[id].Has(r.b)
    case _ => false
  }

  lemma EnderCause(m: Mgr, r: Req, e: Effect)
    requires Inv(m) && e in Handle(m, r).effects && (e.Then? || e.Arm?)
    ensures Cause(m, r, e.id, e.reason)
  {
    PointedOf(m);
    if r.ReqDropped? {
      hide *;
      DropCause(m, r.conn, e);
    } else if r.ReqEndBetween? {
      hide *;
      UnfriendCause(m, r.a, r.b, e);
    } else if r.ReqStart? {
      hide *;
      StartCause(m, r, e);
    } else if r.ReqConnected? || r.ReqSignal? || r.ReqEnd? {
      hide Inv, Cause;
    } else {
      hide *;
      AskedCause(m, r, e);
    }
  }

  lemma AskedCause(m: Mgr, r: Req, e: Effect)
    requires Pointed(m) && (r.ReqPeek? || r.ReqCommit? || r.ReqHangUp?)
    requires e in Handle(m, r).effects && (e.Then? || e.Arm?)
    ensures Cause(m, r, e.id, e.reason)
  {
    hide Start, Signal, End, Connected, Dropped, EndBetween, Pointed;
  }

  lemma StartCause(m: Mgr, r: Req, e: Effect)
    requires Pointed(m) && r.ReqStart? && e in Handle(m, r).effects && (e.Then? || e.Arm?)
    ensures Cause(m, r, e.id, e.reason)
  {
    hide AllowStart;
  }

  lemma DropCause(m: Mgr, conn: Conn, e: Effect)
    requires Inv(m) && e in Handle(m, ReqDropped(conn)).effects && (e.Then? || e.Arm?)
    ensures Cause(m, ReqDropped(conn), e.id, e.reason)
  {
    var c := m.calls[m.byUser[conn.user]];
    assert c.Has(conn.user) && c.id == m.byUser[conn.user];
    hide Inv;
    assert ReqDropped(conn) == ReqDropped(Conn(conn.user, c.ConnOf(conn.user)));
  }

  lemma UnfriendCause(m: Mgr, a: Id, b: Id, e: Effect)
    requires Inv(m) && e in Handle(m, ReqEndBetween(a, b)).effects && (e.Then? || e.Arm?)
    ensures Cause(m, ReqEndBetween(a, b), e.id, e.reason)
  {
    var c := m.calls[m.byUser[a]];
    assert c.Has(a) && c.caller != c.callee by { assert GoodCall(c); }
    hide Inv;
  }

  lemma FinishCause(m: Mgr, r: Req, e: Effect)
    requires Pointed(m) && e in Handle(m, r).effects && e.Finish?
    ensures r.ReqEnd? && r.id == e.id && r.reason == e.reason
  {
    hide AllowStart;
  }

  /** Among the first k events is the one that sent the call on its way to ending for this reason. */
  lemma {:induction false} CausedBefore(es: seq<Event>, k: nat, e: Effect) returns (i: nat)
    requires k <= |es| && e in Exec(es[..k]).trace && (e.Then? || e.Arm?)
    ensures i < k && es[i].Do? && Enabled(Exec(es[..i]), es[i]) && Cause(Exec(es[..i]).mgr, es[i].req, e.id, e.reason)
    decreases k
  {
    if k > 0 {
      i := k - 1;
      var before := Exec(es[..i]);
      assert es[..k][..i] == es[..i];
      assert Exec(es[..k]) == Step(before, es[i]);
      hide Exec, Inv, Cause;
      if e in before.trace {
        i := CausedBefore(es, i, e);
      } else {
        TraceGrows(before, es[i], e);
        EnderCause(before.mgr, es[i].req, e);
      }
    }
  }

  lemma {:induction false} EndedBefore(es: seq<Event>, k: nat, e: Effect) returns (i: nat)
    requires k <= |es| && e in Exec(es[..k]).trace && e.Finish?
    ensures i < k && MayEnd(Exec(es[..i]).trace, e.id, e.reason)
    decreases k
  {
    if k > 0 {
      i := k - 1;
      var before := Exec(es[..i]);
      assert es[..k][..i] == es[..i];
      assert Exec(es[..k]) == Step(before, es[i]);
      hide Exec, Inv, MayEnd, Handle;
      if e in before.trace {
        i := EndedBefore(es, i, e);
      } else {
        TraceGrows(before, es[i], e);
        PointedOf(before.mgr);
        FinishCause(before.mgr, es[i].req, e);
      }
    }
  }

  /**
   * Whatever a call ended for really happened before: declined by its callee or cancelled by its caller while it
   * rang, hung up by one of the two while they talked, out of time, dropped, unfriended, or started and not answered.
   */
  lemma EveryEndHasACause(es: seq<Event>, e: Effect)
    requires e in Exec(es).trace && e.Finish?
    ensures exists i :: 0 <= i < |es| && es[i].Do? && Enabled(Exec(es[..i]), es[i])
                        && Cause(Exec(es[..i]).mgr, es[i].req, e.id, e.reason)
  {
    WholeRun(es);
    hide Exec, Cause, Enabled;
    var k := EndedBefore(es, |es|, e);
    var x :| x in Exec(es[..k]).trace && (x == Then(e.id, e.reason) || (x.Arm? && x.id == e.id && x.reason == e.reason));
    var i := CausedBefore(es, k, x);
    assert es[i].Do? && Enabled(Exec(es[..i]), es[i]) && Cause(Exec(es[..i]).mgr, es[i].req, e.id, e.reason);
  }

  // ---- what the log says ----

  /** A call that found its callee busy. */
  predicate BusyRow(r: Row) {
    r.state == Closed(Busy) && r.answered.None? && r.ended == Some(r.started) && r.reason == Some(Busy)
  }

  /** A call that rang: answered when its callee answered, and ended as, for what and when the call ended. */
  ghost predicate RungRow(trace: seq<Effect>, r: Row) {
    && (r.answered.Some? ==> Answer(r.id, r.answered.value) in trace)
    && (r.ended.None? ==> r.reason.None? && r.state == if r.answered.Some? then Active else Ringing)
    && (r.ended.Some? ==> r.reason.Some? && Finish(r.id, r.state, r.reason.value, r.ended.value) in trace)
  }

  ghost predicate TrueRow(trace: seq<Effect>, r: Row) {
    || (BusyRow(r) && Insert(r.id, r.caller, r.callee, Closed(Busy), r.started) in trace)
    || (RungRow(trace, r) && Insert(r.id, r.caller, r.callee, Ringing, r.started) in trace)
  }

  /** A call is entered as ringing or as busy. */
  ghost predicate Entered(trace: seq<Effect>) {
    forall e <- trace :: e.Insert? ==> e.state == Ringing || e.state == Closed(Busy)
  }

  lemma InsertStates(m: Mgr, r: Req, e: Effect)
    requires Pointed(m) && e in Handle(m, r).effects && e.Insert?
    ensures e.state == Ringing || e.state == Closed(Busy)
  {
    hide AllowStart;
  }

  lemma MoreTrace(a: seq<Effect>, b: seq<Effect>, r: Row)
    requires TrueRow(a, r)
    ensures TrueRow(a + b, r)
  {
  }

  /** A write that the trace knows of leaves true rows. */
  lemma WriteKeepsTrue(log: Log, trace: seq<Effect>, e: Effect, i: nat)
    requires NoneRingsAfterEnd(log) && Entered(trace) && e in trace
    requires forall r <- log :: TrueRow(trace, r)
    requires i < |Write(log, e)|
    ensures TrueRow(trace, Write(log, e)[i])
  {
    hide HasId;
    if i < |log| {
      assert log[i] in log && TrueRow(trace, log[i]);
    }
  }

  ghost predicate LogTrue(s: Sys) {
    Entered(s.trace) && forall r <- s.log :: TrueRow(s.trace, r)
  }

  lemma LogStep(s: Sys, e: Event)
    requires SysInv(s) && LogTrue(s) && Enabled(s, e)
    ensures Pointed(s.mgr) && LogTrue(Step(s, e))
  {
    PointedOf(s.mgr);
    var n := Step(s, e);
    hide SysInv, Inv, Handle, TrueRow, Write, Enabled;
    match e
    case Do(r) =>
      forall x <- n.trace | x.Insert? ensures x.state == Ringing || x.state == Closed(Busy) {
        if x !in s.trace { InsertStates(s.mgr, r, x); }
      }
      forall x <- n.log ensures TrueRow(n.trace, x) { MoreTrace(s.trace, Handle(s.mgr, r).effects, x); }
    case Store(k) =>
      StoreStep(s, k);
  }

  lemma StoreStep(s: Sys, k: nat)
    requires SysInv(s) && LogTrue(s) && k < |s.trace|
    ensures forall r <- Write(s.log, s.trace[k]) :: TrueRow(s.trace, r)
  {
    var n := Write(s.log, s.trace[k]);
    assert NoneRingsAfterEnd(s.log);
    hide SysInv, TrueRow, Write;
    forall r <- n ensures TrueRow(s.trace, r) {
      var i :| 0 <= i < |n| && n[i] == r;
      WriteKeepsTrue(s.log, s.trace, s.trace[k], i);
    }
  }

  lemma {:induction false} LogInv(es: seq<Event>)
    ensures LogTrue(Exec(es))
  {
    if es != [] {
      var before, e := Exec(es[..|es| - 1]), es[|es| - 1];
      assert Exec(es) == Step(before, e);
      LogInv(es[..|es| - 1]);
      ExecInv(es[..|es| - 1]);
      hide Exec, SysInv, LogTrue;
      if Enabled(before, e) { LogStep(before, e); }
    }
  }

  /**
   * In every run, whatever order the writes arrive in, a log row tells what happened: who called whom and when;
   * that the callee was busy, or when the call was answered, if it was; and how, for what and when it ended.
   */
  lemma LogIsTrue(es: seq<Event>, r: Row)
    requires r in Exec(es).log
    ensures TrueRow(Exec(es).trace, r)
  {
    LogInv(es);
  }
}
