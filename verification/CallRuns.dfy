/**
 * Whole runs of the call manager: handlers, timers and log writes interleave freely.
 *
 * `trace` records every effect in lock order. What a handler does after unlocking (ending a call,
 * answering it, writing the log) may happen at any later point, in any order, any number of times;
 * so may the callback of a timer, stopped or not.
 */
module CallRuns {
  import opened Basics
  import opened CallManager
  import opened CallLog

  datatype Sys = Sys(mgr: Mgr, trace: seq<Effect>, log: Log, named: set<Id>)

  datatype Event = Do(req: Req) | Store(k: nat)

  const INIT: Sys := Sys(EMPTY, [], [], {})

  /** Someone is on the way to calling end(id, reason). */
  ghost predicate MayEnd(trace: seq<Effect>, id: Id, reason: Reason) {
    Then(id, reason) in trace || exists d :: Arm(id, reason, d) in trace
  }

  ghost predicate Enabled(s: Sys, e: Event) {
    match e
    case Do(r) =>
      (match r
       case ReqStart(_, _, _, _, _, id) => id !in s.named   // a new uuid: nobody has named it
       case ReqCommit(from, id, at, limit) => Offer(from, id, at, limit) in s.trace
       case ReqEnd(id, reason, _) => MayEnd(s.trace, id, reason)
       case _ => true)
    case Store(k) => k < |s.trace|
  }

  function Names(r: Req): set<Id> {
    match r
    case ReqConnected(_) => {}
    case ReqDropped(_) => {}
    case ReqEndBetween(_, _) => {}
    case _ => {r.id}
  }

  ghost function Step(s: Sys, e: Event): Sys
    requires Pointed(s.mgr)
  {
    if !Enabled(s, e) then s
    else match e
      case Do(r) =>
        var o := Handle(s.mgr, r);
        Sys(o.mgr, s.trace + o.effects, s.log, s.named + Names(r))
      case Store(k) => s.(log := Write(s.log, s.trace[k]))
  }

  // ---- counting effects ----

  datatype Kind = Opened(id: Id) | Answered(id: Id) | Finished(id: Id) | Relayed(id: Id, user: Id)

  predicate Is(e: Effect, k: Kind) {
    match k
    case Opened(id) => e.Insert? && e.id == id && e.state == Ringing
    case Answered(id) => e.Answer? && e.id == id
    case Finished(id) => e.Finish? && e.id == id
    case Relayed(id, u) => e.ToConn? && e.msg.RelayMsg? && e.msg.id == id && e.msg.sender == u
  }

  function One(b: bool): nat { if b then 1 else 0 }

  function Tally(trace: seq<Effect>, k: Kind): nat {
    if trace == [] then 0
    else Tally(trace[..|trace| - 1], k) + One(Is(trace[|trace| - 1], k))
  }

  /** The tally of the effects of one critical section. */
  function Few(es: seq<Effect>, k: Kind): nat {
    One(|es| > 0 && Is(es[0], k)) + One(|es| > 1 && Is(es[1], k))
    + One(|es| > 2 && Is(es[2], k)) + One(|es| > 3 && Is(es[3], k))
  }

  lemma TallyPush(trace: seq<Effect>, e: Effect, k: Kind)
    ensures Tally(trace + [e], k) == Tally(trace, k) + One(Is(e, k))
  {
    assert (trace + [e])[..|trace|] == trace;
  }

  lemma FewLast(es: seq<Effect>, k: Kind)
    requires 0 < |es| <= 4
    ensures Few(es, k) == Few(es[..|es| - 1], k) + One(Is(es[|es| - 1], k))
  {
    hide Is;
  }

  lemma {:induction false} TallyFew(trace: seq<Effect>, es: seq<Effect>, k: Kind)
    requires |es| <= 4
    ensures Tally(trace + es, k) == Tally(trace, k) + Few(es, k)
    decreases |es|
  {
    hide Is;
    if es == [] {
      assert trace + es == trace;
    } else {
      var n := |es| - 1;
      TallyFew(trace, es[..n], k);
      TallyPush(trace + es[..n], es[n], k);
      assert trace + es == (trace + es[..n]) + [es[n]];
      FewLast(es, k);
    }
  }

  lemma TallyAppend(trace: seq<Effect>, es: seq<Effect>)
    requires |es| <= 4
    ensures forall k :: Tally(trace + es, k) == Tally(trace, k) + Few(es, k)
  {
    forall k { TallyFew(trace, es, k); }
  }

  // ---- one critical section ----

  /** What a critical section tells the log and the peers is what it does to the call. */
  ghost predicate Ledger(m: Mgr, o: Out, id: Id) {
    && |o.effects| <= 4
    && Few(o.effects, Opened(id)) == One(id !in m.calls && id in o.mgr.calls)
    && Few(o.effects, Finished(id)) == One(id in m.calls && id !in o.mgr.calls)
    && Few(o.effects, Answered(id)) == One(id in m.calls && !m.calls[id].active
                                           && id in o.mgr.calls && o.mgr.calls[id].active)
    && (id in m.calls && m.calls[id].active && id in o.mgr.calls ==> o.mgr.calls[id].active)
    && (id !in m.calls && id in o.mgr.calls ==> !o.mgr.calls[id].active)
    && (forall u ::
          Few(o.effects, Relayed(id, u))
          == (if id in m.calls && id in o.mgr.calls
              then Min(MAX_SIGNALS, o.mgr.calls[id].Signals(u)) - Min(MAX_SIGNALS, m.calls[id].Signals(u))
              else 0))
    && (id !in m.calls && id in o.mgr.calls ==> forall u :: o.mgr.calls[id].Signals(u) == 0)
  }

  lemma StartLedger(m: Mgr, from: Conn, to: Id, now: Time, i: Id, id: Id)
    requires i !in m.calls
    ensures Ledger(m, StartCall(m, from, to, now, i), id)
  {
    hide AllowStart;
  }

  lemma CommitLedger(m: Mgr, from: Conn, i: Id, at: Time, limit: Time, id: Id)
    ensures Ledger(m, Commit(m, from, i, at, limit), id)
  {
  }

  lemma SignalLedger(m: Mgr, from: Conn, i: Id, data: string, valid: bool, id: Id)
    requires Inv(m)
    ensures Ledger(m, Signal(m, from, i, data, valid), id)
  {
    assert i in m.calls ==> GoodCall(m.calls[i]);
    assert id in m.calls ==> GoodCall(m.calls[id]);
    hide Inv;
  }

  lemma EndLedger(m: Mgr, i: Id, reason: Reason, now: Time, id: Id)
    ensures Ledger(m, End(m, i, reason, now), id)
  {
  }

  lemma ConnectedLedger(m: Mgr, conn: Conn, id: Id)
    requires Inv(m)
    ensures Ledger(m, Connected(m, conn), id)
  {
  }

  lemma DroppedLedger(m: Mgr, conn: Conn, id: Id)
    requires Inv(m)
    ensures Ledger(m, Dropped(m, conn), id)
  {
  }

  lemma HandleLedger(m: Mgr, r: Req, id: Id)
    requires Inv(m) && Fresh(m, r)
    ensures Ledger(m, Handle(m, r), id)
  {
    hide Inv, AllowStart;
    match r
    case ReqStart(from, to, friends, left, now, i) => StartLedger(m, from, to, now, i, id);
    case ReqPeek(from, i, now, lr, le) =>
    case ReqCommit(from, i, at, limit) => CommitLedger(m, from, i, at, limit, id);
    case ReqSignal(from, i, data, valid) => SignalLedger(m, from, i, data, valid, id);
    case ReqHangUp(from, i) =>
    case ReqEnd(i, reason, now) => EndLedger(m, i, reason, now, id);
    case ReqConnected(conn) => ConnectedLedger(m, conn, id);
    case ReqDropped(conn) => DroppedLedger(m, conn, id);
    case ReqEndBetween(a, b) =>
  }

  lemma OnlyStartLists(m: Mgr, r: Req)
    requires Inv(m)
    ensures forall id <- Handle(m, r).mgr.calls :: id in m.calls || (r.ReqStart? && id == r.id)
  {
    hide AllowStart, GoodCall;
  }

  lemma {:induction false} TallyPositive(trace: seq<Effect>, i: nat, k: Kind)
    requires i < |trace| && Is(trace[i], k)
    ensures Tally(trace, k) >= 1
  {
    hide Is;
    if i < |trace| - 1 { TallyPositive(trace[..|trace| - 1], i, k); }
  }

  // ---- the invariant of whole runs ----

  /** One call's life: opened at most once, answered at most once, finished once it is gone. */
  ghost predicate Life(s: Sys, id: Id) {
    && Tally(s.trace, Opened(id)) <= 1
    && Tally(s.trace, Answered(id)) <= 1
    && (forall u :: Tally(s.trace, Relayed(id, u)) <= MAX_SIGNALS)
    && (if id in s.mgr.calls then
          && id in s.named
          && Tally(s.trace, Opened(id)) == 1
          && Tally(s.trace, Finished(id)) == 0
          && Tally(s.trace, Answered(id)) == One(s.mgr.calls[id].active)
          && (forall u :: Tally(s.trace, Relayed(id, u)) == Min(MAX_SIGNALS, s.mgr.calls[id].Signals(u)))
        else
          Tally(s.trace, Finished(id)) == Tally(s.trace, Opened(id)))
    && (id !in s.named ==>
          && Tally(s.trace, Opened(id)) == Tally(s.trace, Answered(id)) == 0
          && (forall u :: Tally(s.trace, Relayed(id, u)) == 0))
  }

  /** States a call that was never answered may end in. */
  predicate Unanswered(state: LogState) {
    state in {Closed(Missed), Closed(Declined), Closed(Cancelled), Failed}
  }

  /** The log is told "ended" exactly for the calls that had been answered. */
  ghost predicate Verdicts(s: Sys) {
    forall e <- s.trace :: e.Finish? ==>
      if Tally(s.trace, Answered(e.id)) == 1 then e.state == Closed(Ended) else Unanswered(e.state)
  }

  /** Whoever is about to end a call for having been hung up after talking is right about that. */
  ghost predicate Enders(s: Sys) {
    forall id, reason :: MayEnd(s.trace, id, reason) ==>
      && id in s.named
      && reason != Busy && reason != Elsewhere
      && (reason == Ended && id in s.mgr.calls ==> s.mgr.calls[id].active)
  }

  ghost predicate SysInv(s: Sys) {
    && Inv(s.mgr)
    && (forall id :: Life(s, id))
    && Verdicts(s)
    && Enders(s)
    && NoneRingsAfterEnd(s.log)
  }

  /** Whom a critical section sends off to end a call, and what it tells the log about endings. */
  ghost predicate Endings(m: Mgr, r: Req, o: Out) {
    forall e <- o.effects ::
      && (e.Then? || e.Arm? ==>
            && (e.id in m.calls || e.id in Names(r))
            && e.reason != Busy && e.reason != Elsewhere
            && (e.reason == Ended ==> e.id in o.mgr.calls && o.mgr.calls[e.id].active))
      && (e.Finish? ==> r.ReqEnd? && r.id == e.id && e.id in m.calls && e.id !in o.mgr.calls
                        && e.state == FinalState(m.calls[e.id].active, r.reason))
  }

  lemma StartEndings(m: Mgr, r: Req)
    requires Inv(m) && r.ReqStart?
    ensures Endings(m, r, Handle(m, r))
  {
    assert Pointed(m);
    hide AllowStart, Inv;
  }

  lemma CommitEndings(m: Mgr, r: Req)
    requires Inv(m) && r.ReqCommit?
    ensures Endings(m, r, Handle(m, r))
  {
    assert Pointed(m);
    hide Inv;
  }

  lemma DeviceEndings(m: Mgr, r: Req)
    requires Inv(m) && (r.ReqConnected? || r.ReqDropped? || r.ReqEndBetween?)
    ensures Endings(m, r, Handle(m, r))
  {
    hide GoodCall;
  }

  lemma HandleEndings(m: Mgr, r: Req)
    requires Inv(m)
    ensures Endings(m, r, Handle(m, r))
  {
    PointedOf(m);
    hide AllowStart, Inv;
    if r.ReqStart? { hide *; StartEndings(m, r); }
    else if r.ReqCommit? { hide *; CommitEndings(m, r); }
    else if r.ReqConnected? || r.ReqDropped? || r.ReqEndBetween? { hide *; DeviceEndings(m, r); }
  }

  /** What the ledger says of one critical section carries a call's life on. */
  lemma LifeGoesOn(s: Sys, o: Out, names: set<Id>, id: Id)
    requires Life(s, id) && Ledger(s.mgr, o, id)
    requires id !in s.mgr.calls && id in o.mgr.calls ==> id in names && id !in s.named
    requires forall k :: Tally(s.trace + o.effects, k) == Tally(s.trace, k) + Few(o.effects, k)
    ensures Life(Sys(o.mgr, s.trace + o.effects, s.log, s.named + names), id)
  {
    hide Tally, Few, Is;
  }

  lemma StepLife(s: Sys, r: Req, id: Id)
    requires SysInv(s) && Enabled(s, Do(r))
    ensures Life(Step(s, Do(r)), id)
  {
    assert Pointed(s.mgr);
    hide Inv, Handle, Is, Few, Tally, Ledger, Verdicts, Enders, NoneRingsAfterEnd;
    assert Life(s, id);
    if r.ReqStart? { assert Life(s, r.id); }
    OnlyStartLists(s.mgr, r);
    HandleLedger(s.mgr, r, id);
    TallyAppend(s.trace, Handle(s.mgr, r).effects) by { LedgerIsShort(s.mgr, Handle(s.mgr, r), id); }
    hide SysInv, Life;
    LifeGoesOn(s, Handle(s.mgr, r), Names(r), id);
  }

  lemma LedgerIsShort(m: Mgr, o: Out, id: Id)
    requires Ledger(m, o, id)
    ensures |o.effects| <= 4
  {
  }

  lemma StepVerdicts(s: Sys, r: Req)
    requires SysInv(s) && Enabled(s, Do(r))
    ensures Verdicts(Step(s, Do(r)))
  {
    assert Pointed(s.mgr);
    hide Inv, Handle, Few, NoneRingsAfterEnd;
    var o := Handle(s.mgr, r);
    var n := Step(s, Do(r));
    forall e <- n.trace | e.Finish?
      ensures if Tally(n.trace, Answered(e.id)) == 1 then e.state == Closed(Ended) else Unanswered(e.state)
    {
      assert Life(s, e.id);
      if r.ReqStart? { assert Life(s, r.id); }
      HandleLedger(s.mgr, r, e.id);
      TallyAppend(s.trace, o.effects);
      if e in s.trace {
        var k :| 0 <= k < |s.trace| && s.trace[k] == e;
        TallyPositive(s.trace, k, Finished(e.id));
      } else {
        HandleEndings(s.mgr, r);
        assert e in o.effects;
      }
    }
  }

  lemma StepEnders(s: Sys, r: Req)
    requires SysInv(s) && Enabled(s, Do(r))
    ensures Enders(Step(s, Do(r)))
  {
    assert Pointed(s.mgr);
    hide Inv, Handle, Verdicts, NoneRingsAfterEnd;
    var o := Handle(s.mgr, r);
    var n := Step(s, Do(r));
    forall id, reason | MayEnd(n.trace, id, reason)
      ensures id in n.named && reason != Busy && reason != Elsewhere
      ensures reason == Ended && id in n.mgr.calls ==> n.mgr.calls[id].active
    {
      assert Life(s, id);
      if r.ReqStart? { assert Life(s, r.id); }
      HandleLedger(s.mgr, r, id);
      OnlyStartLists(s.mgr, r);
      HandleEndings(s.mgr, r);
      if !MayEnd(s.trace, id, reason) {
        var e :| e in o.effects && (e == Then(id, reason) || (e.Arm? && e.id == id && e.reason == reason));
      }
    }
  }

  /** Every event keeps the invariant. */
  lemma StepKeepsInv(s: Sys, e: Event)
    requires SysInv(s)
    ensures SysInv(Step(s, e))
  {
    if Enabled(s, e) {
      match e
      case Do(r) =>
        if r.ReqStart? { assert Life(s, r.id); }
        HandleKeepsInv(s.mgr, r);
        forall id ensures Life(Step(s, e), id) { StepLife(s, r, id); }
        StepVerdicts(s, r);
        StepEnders(s, r);
      case Store(k) =>
        var n := Step(s, e);
        forall id ensures Life(n, id) { assert Life(s, id); }
        ClosedRowsFrozen(s.log, s.trace[k]);
    }
  }

  // ---- runs ----

  /** The part of the invariant that makes every step well defined. */
  ghost predicate Indexed(m: Mgr, named: set<Id>) {
    Inv(m) && m.calls.Keys <= named
  }

  lemma HandleKeepsIndex(m: Mgr, r: Req, named: set<Id>)
    requires Indexed(m, named) && (r.ReqStart? ==> r.id !in named)
    ensures Pointed(m) && Indexed(Handle(m, r).mgr, named + Names(r))
  {
    HandleKeepsInv(m, r);
    OnlyStartLists(m, r);
    PointedOf(m);
    hide Inv, Handle;
  }

  lemma PointedOf(m: Mgr)
    requires Inv(m)
    ensures Pointed(m)
  {
  }

  lemma StepKeepsIndex(s: Sys, e: Event)
    requires Indexed(s.mgr, s.named)
    ensures Indexed(Step(s, e).mgr, Step(s, e).named)
  {
    if Enabled(s, e) && e.Do? { HandleKeepsIndex(s.mgr, e.req, s.named); }
    PointedOf(s.mgr);
    hide Inv, Handle;
  }

  /** The state after any sequence of events; a disabled event changes nothing. */
  ghost function Exec(es: seq<Event>): (s: Sys)
    ensures Indexed(s.mgr, s.named)
  {
    if es == [] then INIT
    else
      var before := Exec(es[..|es| - 1]);
      StepKeepsIndex(before, es[|es| - 1]);
      Step(before, es[|es| - 1])
  }

  lemma {:induction false} ExecInv(es: seq<Event>)
    ensures SysInv(Exec(es))
  {
    if es == [] {
      StartsOk();
    } else {
      var before, e := Exec(es[..|es| - 1]), es[|es| - 1];
      assert Exec(es) == Step(before, e);
      ExecInv(es[..|es| - 1]);
      hide SysInv, Step, Exec;
      StepKeepsInv(before, e);
    }
  }

  lemma StartsOk()
    ensures SysInv(INIT)
  {
    forall id ensures Life(INIT, id) {}
  }

  /** A call that rang is either listed and not ended, or gone and ended exactly once. */
  lemma EndsExactlyOnce(es: seq<Event>, id: Id)
    ensures var s := Exec(es);
      && Tally(s.trace, Opened(id)) <= 1
      && Tally(s.trace, Finished(id)) == (if id in s.mgr.calls then 0 else Tally(s.trace, Opened(id)))
      && (id in s.mgr.calls ==> Tally(s.trace, Opened(id)) == 1)
  {
    ExecInv(es);
    hide Exec;
    assert Life(Exec(es), id);
  }

  /** The log is told "ended" exactly when the call had been answered, and never twice. */
  lemma EndedMeansAnswered(es: seq<Event>, e: Effect)
    requires e in Exec(es).trace && e.Finish?
    ensures e.state == Closed(Ended) <==> exists at :: Answer(e.id, at) in Exec(es).trace
    ensures e.state != Closed(Ended) ==> Unanswered(e.state)
  {
    var t := Exec(es).trace;
    ExecInv(es);
    hide Exec;
    assert Life(Exec(es), e.id);
    if at :| Answer(e.id, at) in t {
      var k :| 0 <= k < |t| && t[k] == Answer(e.id, at);
      TallyPositive(t, k, Answered(e.id));
    } else {
      TallyZero(t, Answered(e.id));
    }
  }

  lemma {:induction false} TallyZero(trace: seq<Effect>, k: Kind)
    requires forall e <- trace :: !Is(e, k)
    ensures Tally(trace, k) == 0
  {
    if trace != [] { TallyZero(trace[..|trace| - 1], k); }
  }

  /** A log row with ended_at set keeps its content for the rest of the run. */
  lemma {:induction false} ClosedRowsStay(es: seq<Event>, more: seq<Event>, i: nat)
    requires i < |Exec(es).log| && Exec(es).log[i].ended.Some?
    ensures i < |Exec(es + more).log| && Exec(es + more).log[i] == Exec(es).log[i]
    decreases |more|
  {
    if more == [] {
      assert es + more == es;
    } else {
      var n := |more| - 1;
      ClosedRowsStay(es, more[..n], i);
      assert (es + more)[..|es + more| - 1] == es + more[..n];
      var s, e := Exec(es + more[..n]), more[n];
      ExecInv(es + more[..n]);
      if Enabled(s, e) && e.Store? {
        assert s.trace[e.k] in s.trace;
        ClosedRowsFrozen(s.log, s.trace[e.k]);
      }
    }
  }

  /** At most 500 signals per side per call are relayed, over the whole run. */
  lemma RelayBudget(es: seq<Event>, id: Id, u: Id)
    ensures Tally(Exec(es).trace, Relayed(id, u)) <= MAX_SIGNALS
  {
    ExecInv(es);
    hide Exec;
    assert Life(Exec(es), id);
  }

  // ---- who may signal to whom ----

  /** `e` relays what the sender's bound device sent to the peer's bound device of an active call. */
  ghost predicate ProperRelay(m: Mgr, r: Req, e: Effect) {
    && r.ReqSignal? && r.id in m.calls && m.calls[r.id].active
    && m.calls[r.id].Has(r.from.user)
    && m.calls[r.id].ConnOf(r.from.user) == r.from.id
    && var peer := m.calls[r.id].Peer(r.from.user);
       e == ToConn(Conn(peer, m.calls[r.id].ConnOf(peer)), RelayMsg(r.id, r.from.user, r.data))
  }

  lemma RelayStep(m: Mgr, r: Req, e: Effect)
    requires Inv(m) && e in Handle(m, r).effects && e.ToConn? && e.msg.RelayMsg?
    ensures ProperRelay(m, r, e)
  {
    hide AllowStart, GoodCall;
  }

  /** The trace grows by what the critical section of an event does. */
  lemma TraceGrows(s: Sys, ev: Event, e: Effect)
    requires Inv(s.mgr) && e in Step(s, ev).trace && e !in s.trace
    ensures ev.Do? && e in Handle(s.mgr, ev.req).effects
  {
    hide Handle, Inv;
    assert Pointed(s.mgr) by { PointedOf(s.mgr); }
  }

  /** Among the first k events is the one that relayed e. */
  lemma {:induction false} RelayedBefore(es: seq<Event>, k: nat, e: Effect) returns (i: nat)
    requires k <= |es| && e in Exec(es[..k]).trace && e.ToConn? && e.msg.RelayMsg?
    ensures i < k && es[i].Do? && ProperRelay(Exec(es[..i]).mgr, es[i].req, e)
    decreases k
  {
    if k > 0 {
      i := k - 1;
      var before := Exec(es[..i]);
      assert es[..k][..i] == es[..i];
      assert Exec(es[..k]) == Step(before, es[i]);
      hide Exec, Inv, Step, ProperRelay;
      if e in before.trace {
        i := RelayedBefore(es, i, e);
      } else {
        TraceGrows(before, es[i], e);
        RelayStep(before.mgr, es[i].req, e);
      }
    }
  }

  lemma WholeRun(es: seq<Event>)
    ensures es[..|es|] == es
  {
  }

  /** Every signal ever relayed was relayed properly, in the state it was sent in. */
  lemma RelayOrigin(es: seq<Event>, e: Effect)
    requires e in Exec(es).trace && e.ToConn? && e.msg.RelayMsg?
    ensures exists i :: 0 <= i < |es| && es[i].Do? && ProperRelay(Exec(es[..i]).mgr, es[i].req, e)
  {
    hide *;
    WholeRun(es);
    var i := RelayedBefore(es, |es|, e);
    assert es[i].Do? && ProperRelay(Exec(es[..i]).mgr, es[i].req, e);
  }

  /** u keeps its device, or has come back with a new one. */
  ghost predicate BindingKept(r: Req, u: Id, c: Call, d: Call) {
    && d.caller == c.caller && d.callee == c.callee
    && (d.ConnOf(u) != c.ConnOf(u) ==> r == ReqConnected(Conn(u, d.ConnOf(u))) && u in c.lost && u !in d.lost)
  }

  lemma DeviceMoves(m: Mgr, r: Req, id: Id, u: Id)
    requires Inv(m) && (r.ReqConnected? || r.ReqDropped?)
    requires id in m.calls && m.calls[id].active && m.calls[id].Has(u) && id in Handle(m, r).mgr.calls
    ensures BindingKept(r, u, m.calls[id], Handle(m, r).mgr.calls[id])
  {
    hide GoodCall;
  }

  lemma OthersBindNothing(m: Mgr, r: Req, id: Id, u: Id)
    requires Pointed(m) && Fresh(m, r) && !r.ReqConnected? && !r.ReqDropped?
    requires id in m.calls && m.calls[id].active && m.calls[id].Has(u) && id in Handle(m, r).mgr.calls
    ensures BindingKept(r, u, m.calls[id], Handle(m, r).mgr.calls[id])
  {
    hide AllowStart;
  }

  /** In an answered call a side changes device only by reconnecting after a drop. */
  lemma BindingMoves(m: Mgr, r: Req, id: Id, u: Id)
    requires Inv(m) && Fresh(m, r)
    requires id in m.calls && m.calls[id].active && m.calls[id].Has(u)
    requires id in Handle(m, r).mgr.calls
    ensures BindingKept(r, u, m.calls[id], Handle(m, r).mgr.calls[id])
  {
    PointedOf(m);
    hide *;
    if r.ReqConnected? || r.ReqDropped? { DeviceMoves(m, r, id, u); } else { OthersBindNothing(m, r, id, u); }
  }
}
