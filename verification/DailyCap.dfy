/**
 * The daily cap over whole runs of one server, with the cap set and each log write taken in step with its
 * critical section: no user's answered talk time in any 24 hours exceeds the cap by more than the time an
 * answer takes, the lateness of the limit timer, and the half second lost to rounding.
 */
module DailyCap {
  import opened Basics
  import opened CallManager
  import opened CallLog
  import CallRuns

  const DAY: Time := 86400 * SECOND
  const HALF: Time := SECOND / 2

  /** How much call time u has left today. */
  function Remaining(daily: Time, log: Log, u: Id, now: Time): Time {
    if daily <= 0 then MAX_DURATION
    else Min(daily - CallSecondsSince(log, u, now - DAY, now) * SECOND, MAX_DURATION)
  }

  /**
   * The cap and the delays of a server. `answering`: how long accept may take from reading the clock, which
   * becomes answered_at, to its second lock, where the limit timer is armed. `firing`: how long after its time
   * the timer's callback may get to end the call. `lag`: how long `start` and `end` may take from reading the
   * clock to their lock.
   */
  datatype Env = Env(daily: Time, answering: Time, firing: Time, lag: Time)

  ghost predicate Sane(env: Env) {
    env.daily > 0 && env.answering >= 0 && env.firing >= 0 && env.lag >= 0
  }

  /** What the calls of a day may add up to, but for rounding. */
  function Cap(env: Env): Time {
    env.daily + env.answering + env.firing
  }

  /**
   * `deadline`: by when the limit timer has ended an answered call; `listed`: when start got the lock for a call;
   * `now`: the true time.
   */
  datatype Sys = Sys(
    mgr: Mgr, log: Log, offers: set<Effect>,
    deadline: map<Id, Time>, listed: map<Id, Time>, now: Time, named: set<Id>)

  datatype Event = Tick(to: Time) | Do(req: Req)

  const INIT: Sys := Sys(EMPTY, [], {}, map[], map[], 0, {})

  ghost predicate Enabled(env: Env, s: Sys, e: Event) {
    match e
    case Tick(t) =>
      s.now <= t && forall id <- s.mgr.calls :: s.mgr.calls[id].active && id in s.deadline ==> t <= s.deadline[id]
    case Do(r) =>
      (match r
       case ReqStart(_, _, _, _, now, id) => id !in s.named && s.now - env.lag <= now <= s.now
       case ReqPeek(_, id, now, leftCaller, leftCallee) =>
         && now <= s.now
         && (id in s.mgr.calls ==>
               && id in s.listed && s.listed[id] <= now   // nobody can answer a call before it exists
               && leftCaller in {None, Some(Remaining(env.daily, s.log, s.mgr.calls[id].caller, now))}
               && leftCallee in {None, Some(Remaining(env.daily, s.log, s.mgr.calls[id].callee, now))})
       case ReqCommit(from, id, at, limit) => Offer(from, id, at, limit) in s.offers && s.now <= at + env.answering
       case ReqEnd(_, _, now) => s.now - env.lag <= now <= s.now
       case _ => true)
  }

  /** Whether accept's second critical section answers the call. */
  predicate Answers(m: Mgr, from: Conn, id: Id) {
    id in m.calls && m.calls[id].callee == from.user && !m.calls[id].active
  }

  /** The first timer among the effects that will end the call, and how long it waits. */
  function Timer(es: seq<Effect>, id: Id): Option<Time> {
    if es == [] then None
    else if es[0].Arm? && es[0].id == id then Some(es[0].after)
    else Timer(es[1..], id)
  }

  /** Nothing but an armed timer sets a call's deadline: without one the call may go on for ever. */
  function Scheduled(env: Env, s: Sys, id: Id, es: seq<Effect>): map<Id, Time> {
    match Timer(es, id)
    case None => s.deadline
    case Some(after) => s.deadline[id := s.now + after + env.firing]
  }

  function WriteAll(log: Log, es: seq<Effect>): Log
    decreases |es|
  {
    if es == [] then log else WriteAll(Write(log, es[0]), es[1..])
  }

  ghost function Step(env: Env, s: Sys, e: Event): Sys
    requires Pointed(s.mgr)
  {
    if !Enabled(env, s, e) then s
    else match e
      case Tick(t) => s.(now := t)
      case Do(r) =>
        var o := Handle(s.mgr, r);
        Sys(o.mgr, WriteAll(s.log, o.effects),
            s.offers + (set x <- o.effects | x.Offer?),
            if r.ReqCommit? then Scheduled(env, s, r.id, o.effects) else s.deadline,
            if r.ReqStart? && r.id in o.mgr.calls then s.listed[r.id := s.now] else s.listed,
            s.now, s.named + CallRuns.Names(r))
  }

  // ---- what one event does to the log ----

  lemma WriteNothing(log: Log, es: seq<Effect>)
    requires forall e <- es :: !e.Insert? && !e.Answer? && !e.Finish?
    ensures WriteAll(log, es) == log
    decreases |es|
  {
    if es != [] { WriteNothing(log, es[1..]); }
  }

  lemma WriteOne(log: Log, es: seq<Effect>, k: nat)
    requires k < |es|
    requires forall i :: 0 <= i < |es| && i != k ==> !es[i].Insert? && !es[i].Answer? && !es[i].Finish?
    ensures WriteAll(log, es) == Write(log, es[k])
    decreases |es|
  {
    if k == 0 { WriteNothing(Write(log, es[0]), es[1..]); }
    else { WriteOne(log, es[1..], k - 1); }
  }

  lemma StartWrites(m: Mgr, r: Req, log: Log)
    requires Pointed(m) && r.ReqStart? && r.id !in m.calls && !HasId(log, r.id)
    ensures var n := WriteAll(log, Handle(m, r).effects);
      if r.id in Handle(m, r).mgr.calls then
        n == log + [Row(r.id, r.from.user, r.to, Ringing, r.now, None, None, None)]
      else
        n == log || n == log + [Row(r.id, r.from.user, r.to, Closed(Busy), r.now, None, Some(r.now), Some(Busy))]
  {
    hide AllowStart;
    var es := Handle(m, r).effects;
    if |es| == 4 { WriteOne(log, es, 1); }
    else if |es| == 2 { WriteOne(log, es, 0); }
    else { WriteNothing(log, es); }
  }

  lemma OthersWrite(m: Mgr, r: Req, log: Log)
    requires Pointed(m) && !r.ReqStart?
    ensures WriteAll(log, Handle(m, r).effects) ==
      if r.ReqCommit? && Answers(m, r.from, r.id) then
        AnswerCall(log, r.id, r.at)
      else if r.ReqEnd? && r.id in m.calls then
        FinishCall(log, r.id, FinalState(m.calls[r.id].active, r.reason), r.reason, r.now)
      else log
  {
    var es := Handle(m, r).effects;
    if r.ReqCommit? && |es| == 4 { WriteOne(log, es, 1); }
    else if r.ReqEnd? && |es| == 3 { WriteOne(log, es, 0); }
    else { WriteNothing(log, es); }
  }

  // ---- the invariant ----

  /** A row is open exactly while its call is listed, and says what the call says. */
  ghost predicate Matches(s: Sys, r: Row) {
    && r.id in s.named
    && (r.ended.None? <==> r.id in s.mgr.calls)
    && (r.id in s.mgr.calls ==>
          var c := s.mgr.calls[r.id];
          && r.caller == c.caller && r.callee == c.callee
          && r.state == (if c.active then Active else Ringing)
          && r.answered == (if c.active then Some(c.answered) else None)
          && (c.active ==> r.id in s.deadline && s.now <= s.deadline[r.id]))
  }

  /** Nothing on the log lies ahead, and no call was answered before it was listed. */
  ghost predicate Timed(s: Sys, r: Row) {
    && r.started <= s.now && r.EndOr(s.now) <= s.now
    && (r.ended.None? ==> r.id in s.listed && s.listed[r.id] <= s.now)
    && (r.answered.Some? ==> r.answered.value <= s.now && r.id in s.listed && s.listed[r.id] <= r.answered.value)
  }

  ghost predicate Tables(s: Sys) {
    && Inv(s.mgr)
    && s.mgr.calls.Keys <= s.named
    && (forall id <- s.mgr.calls :: HasId(s.log, id))
    && (forall i :: 0 <= i < |s.log| ==> Matches(s, s.log[i]) && Timed(s, s.log[i]))
    && (forall i, j :: 0 <= i < j < |s.log| ==> s.log[i].id != s.log[j].id)
  }

  /** A row that takes up its users' time: open, or answered. */
  predicate Takes(r: Row) { r.ended.None? || r.answered.Some? }

  /** One call per user: whatever a user had before was over when the next call was listed. */
  ghost predicate OneAtATime(log: Log, listed: map<Id, Time>) {
    forall i, j, u :: 0 <= i < j < |log| && log[i].Has(u) && log[j].Has(u) && Takes(log[j])
      ==> log[i].ended.Some? && log[j].id in listed && log[i].ended.value <= listed[log[j].id]
  }

  /** How long before its answer a call ended, by the log: its end may have read the clock first. */
  function Inversion(r: Row): Time {
    if r.answered.Some? && r.ended.Some? then Max(0, r.answered.value - r.ended.value) else 0
  }

  function Inverted(log: Log, u: Id): (t: Time)
    ensures t >= 0
  {
    if log == [] then 0
    else
      var r := log[|log| - 1];
      Inverted(log[..|log| - 1], u) + if r.Has(u) then Inversion(r) else 0
  }

  /** What u had used in the 24 hours before t, by the rows before k. */
  function Used(log: Log, k: nat, u: Id, t: Time): Time
    requires k <= |log|
  {
    SumCounted(log[..k], u, t - DAY, t)
  }

  /** Row k, answered at `from` and talking until `until`, keeps both its users within the cap. */
  ghost predicate Within(daily: Time, log: Log, k: nat, from: Time, until: Time)
    requires k < |log|
  {
    forall u :: log[k].Has(u) ==> Used(log, k, u, from) + (until - from) <= daily + HALF
  }

  /** When the talk of an answered row is over at the latest. */
  function Horizon(s: Sys, r: Row): Time {
    if r.ended.Some? then r.ended.value
    else if r.id in s.deadline then s.deadline[r.id] else 0
  }

  ghost predicate Budgets(daily: Time, s: Sys) {
    forall k :: 0 <= k < |s.log| && s.log[k].answered.Some? ==>
      Within(daily, s.log, k, s.log[k].answered.value, Horizon(s, s.log[k]))
  }

  /** An offer to answer a call that still rings was computed from what both users have used. */
  ghost predicate OfferOk(daily: Time, s: Sys, o: Effect)
    requires o.Offer?
  {
    && o.id in s.named && o.at <= s.now && o.limit > 0
    && (o.id in s.mgr.calls ==> o.id in s.listed && s.listed[o.id] <= o.at)
    && (o.id in s.mgr.calls && !s.mgr.calls[o.id].active && s.mgr.calls[o.id].callee == o.from.user ==>
          forall k :: 0 <= k < |s.log| && s.log[k].id == o.id ==>
            Within(daily, s.log, k, o.at, o.at + o.limit))
  }

  ghost predicate Offers(daily: Time, s: Sys) {
    forall o <- s.offers :: o.Offer? && OfferOk(daily, s, o)
  }

  /** No end was read more than `lag` before the answer. */
  ghost predicate Lags(lag: Time, log: Log) {
    forall k :: 0 <= k < |log| ==> Inversion(log[k]) <= lag
  }

  ghost predicate SysInv(env: Env, s: Sys) {
    Tables(s) && OneAtATime(s.log, s.listed) && Budgets(Cap(env), s) && Offers(env.daily, s) && Lags(env.lag, s.log)
  }

  // ---- the theorem, from the invariant ----

  /** The length of [a, b] within [lo, hi]. */
  function Overlap(a: Time, b: Time, lo: Time, hi: Time): Time {
    Max(0, Min(b, hi) - Max(a, lo))
  }

  /** How long u has talked between lo and hi, by the log. */
  function Talked(log: Log, u: Id, lo: Time, hi: Time, now: Time): Time {
    if log == [] then 0
    else
      var r := log[|log| - 1];
      Talked(log[..|log| - 1], u, lo, hi, now)
      + if r.Has(u) && r.answered.Some? then Overlap(r.answered.value, r.EndOr(now), lo, hi) else 0
  }

  /** Talk in a window that ends after t is talk counted at t, when all of it is over by t. */
  lemma {:induction false} TalkedIsUsed(log: Log, u: Id, lo: Time, hi: Time, t: Time, now: Time)
    requires t < hi && lo == hi - DAY
    requires forall i :: 0 <= i < |log| && log[i].Has(u) ==> log[i].ended.Some? && log[i].ended.value <= t
    ensures Talked(log, u, lo, hi, now) <= SumCounted(log, u, t - DAY, t) + Inverted(log, u)
  {
    if log != [] {
      TalkedIsUsed(log[..|log| - 1], u, lo, hi, t, now);
    }
  }

  /** The sum the log is asked for is the talk of the last day, exactly, while no row ends before its answer or ahead of now. */
  lemma {:induction false} SumIsTalk(log: Log, u: Id, now: Time)
    requires forall r <- log :: r.Has(u) && r.answered.Some? ==> r.answered.value <= r.EndOr(now) <= now
    ensures SumCounted(log, u, now - DAY, now) == Talked(log, u, now - DAY, now, now)
  {
    if log != [] {
      var n := |log| - 1;
      assert log[n] in log;
      SumIsTalk(log[..n], u, now);
    }
  }

  /** What a user may still talk: the cap less the talk of the last day, to half a second, and never more than the longest call. */
  lemma RemainingIsWhatIsLeft(daily: Time, log: Log, u: Id, now: Time)
    requires daily > 0
    requires forall r <- log :: r.Has(u) && r.answered.Some? ==> r.answered.value <= r.EndOr(now) <= now
    ensures var left, remaining := daily - Talked(log, u, now - DAY, now, now), Remaining(daily, log, u, now);
      && remaining <= MAX_DURATION
      && (left + HALF < MAX_DURATION ==> left - HALF <= remaining <= left + HALF)
      && (left - HALF >= MAX_DURATION ==> remaining == MAX_DURATION)
  {
    SumIsTalk(log, u, now);
    RoundingLoss(SumCounted(log, u, now - DAY, now));
    hide RoundSeconds, Talked, SumCounted;
  }

  /** Without a cap only the longest call counts. */
  lemma NoCap(daily: Time, log: Log, u: Id, now: Time)
    requires daily <= 0
    ensures Remaining(daily, log, u, now) == MAX_DURATION
  {
  }

  /** The latest row with talk in the window: what came before was over when it was answered, and was counted then. */
  lemma CapAtRow(env: Env, s: Sys, k: nat, u: Id, hi: Time)
    requires SysInv(env, s) && k < |s.log| && s.log[k].Has(u)
    requires s.log[k].answered.Some? && s.log[k].answered.value < hi
    ensures Talked(s.log[..k], u, hi - DAY, hi, s.now)
            + Overlap(s.log[k].answered.value, s.log[k].EndOr(s.now), hi - DAY, hi)
            <= Cap(env) + HALF + Inverted(s.log[..k], u) + Inversion(s.log[k])
  {
    var r, a := s.log[k], s.log[k].answered.value;
    hide Inv, Offers;
    assert Matches(s, r) && Timed(s, r);
    forall i | 0 <= i < k && s.log[i].Has(u) ensures s.log[i].ended.Some? && s.log[i].ended.value <= a {}
    hide Timed, OneAtATime;
    TalkedIsUsed(s.log[..k], u, hi - DAY, hi, a, s.now);
    assert Within(Cap(env), s.log, k, a, Horizon(s, r));
  }

  lemma {:induction false} CapFromInv(env: Env, s: Sys, n: nat, u: Id, hi: Time)
    requires SysInv(env, s) && n <= |s.log| && Sane(env)
    ensures Talked(s.log[..n], u, hi - DAY, hi, s.now) <= Cap(env) + HALF + Inverted(s.log[..n], u)
  {
    if n > 0 {
      var k := n - 1;
      var r := s.log[k];
      assert s.log[..n][..k] == s.log[..k];
      if r.Has(u) && r.answered.Some? && r.answered.value < hi {
        CapAtRow(env, s, k, u, hi);
      } else {
        CapFromInv(env, s, k, u, hi);
      }
      hide SysInv;
    }
  }

  // ---- every event keeps the invariant ----

  /** What the log tracks of a call. */
  ghost predicate SameTalk(c: Call, d: Call) {
    c.caller == d.caller && c.callee == d.callee && c.active == d.active && c.answered == d.answered
  }

  ghost predicate SameCalls(m: Mgr, n: Mgr) {
    m.calls.Keys == n.calls.Keys && forall id <- m.calls :: SameTalk(m.calls[id], n.calls[id])
  }

  lemma KeepWithin(daily: Time, a: Log, b: Log, k: nat, from: Time, until: Time)
    requires k < |a| && k < |b| && a[k].caller == b[k].caller && a[k].callee == b[k].callee
    requires forall i, u :: 0 <= i < k && a[k].Has(u) ==> a[i] == b[i] || (!a[i].Has(u) && !b[i].Has(u))
    requires Within(daily, a, k, from, until)
    ensures Within(daily, b, k, from, until)
  {
    forall u | b[k].Has(u) ensures Used(b, k, u, from) == Used(a, k, u, from) {
      forall i | 0 <= i < k ensures Counted(b[..k][i], u, from - DAY, from) == Counted(a[..k][i], u, from - DAY, from) {
        assert a[k].Has(u) && (a[i] == b[i] || (!a[i].Has(u) && !b[i].Has(u)));
      }
      SumSame(b[..k], a[..k], u, from - DAY, from);
    }
  }

  lemma TickKeeps(env: Env, s: Sys, t: Time)
    requires SysInv(env, s) && Enabled(env, s, Tick(t))
    ensures SysInv(env, s.(now := t))
  {
    hide Inv, Within;
    var n := s.(now := t);
    forall i | 0 <= i < |n.log| ensures Matches(n, n.log[i]) && Timed(n, n.log[i]) {
      assert Matches(s, s.log[i]) && Timed(s, s.log[i]);
    }
    assert Budgets(Cap(env), n) by { hide Matches, Timed; }
    forall o <- n.offers ensures o.Offer? && OfferOk(env.daily, n, o) {
      assert OfferOk(env.daily, s, o);
    }
  }

  /** An event that leaves the log and the talk of every call alone. */
  lemma QuietKeeps(env: Env, s: Sys, n: Sys)
    requires SysInv(env, s) && Inv(n.mgr) && SameCalls(s.mgr, n.mgr)
    requires n.log == s.log && n.deadline == s.deadline && n.listed == s.listed && n.now == s.now && s.named <= n.named
    requires forall o <- n.offers :: o.Offer? && (o in s.offers || OfferOk(env.daily, n, o))
    ensures SysInv(env, n)
  {
    hide Inv, Within;
    assert Tables(n) by {
      forall i | 0 <= i < |n.log| ensures Matches(n, n.log[i]) && Timed(n, n.log[i]) {
        assert Matches(s, s.log[i]) && Timed(s, s.log[i]);
      }
    }
    assert Budgets(Cap(env), n);
    forall o <- n.offers ensures o.Offer? && OfferOk(env.daily, n, o) {
      if o in s.offers { assert OfferOk(env.daily, s, o); }
    }
  }

  /** b is a with one open row rewritten (same call, same users). */
  ghost predicate Rewritten(a: Log, b: Log, m: nat) {
    && |a| == |b| && m < |a|
    && (forall i :: 0 <= i < |a| && i != m ==> a[i] == b[i])
    && b[m].id == a[m].id && b[m].caller == a[m].caller && b[m].callee == a[m].callee
    && b[m].started == a[m].started
    && a[m].ended.None?
  }

  /** n differs from s only in what happened to call id. */
  ghost predicate OnlyCall(s: Sys, n: Sys, id: Id) {
    && n.offers == s.offers && s.named <= n.named && n.now == s.now && n.listed == s.listed
    && n.mgr.calls.Keys <= s.mgr.calls.Keys
    && (forall k <- s.mgr.calls :: k != id ==> k in n.mgr.calls && n.mgr.calls[k] == s.mgr.calls[k])
    && (forall k <- s.deadline :: k != id ==> k in n.deadline && n.deadline[k] == s.deadline[k])
    && (forall k <- n.deadline :: k != id ==> k in s.deadline)
    && (id in s.mgr.calls && id in n.mgr.calls ==>
          && n.mgr.calls[id].callee == s.mgr.calls[id].callee
          && (s.mgr.calls[id].active ==> n.mgr.calls[id].active))
  }

  /** Rows that share a user with a later talking row are closed, so they were not the one rewritten. */
  lemma RewriteKeepsWithin(daily: Time, a: Log, b: Log, listed: map<Id, Time>, m: nat, k: nat, from: Time, until: Time)
    requires OneAtATime(a, listed) && Rewritten(a, b, m) && k < |a| && (k == m || Takes(a[k]))
    requires Within(daily, a, k, from, until)
    ensures Within(daily, b, k, from, until)
  {
    KeepWithin(daily, a, b, k, from, until);
  }

  lemma RewriteKeepsOrder(a: Log, b: Log, listed: map<Id, Time>, m: nat)
    requires OneAtATime(a, listed) && Rewritten(a, b, m)
    ensures OneAtATime(b, listed)
  {
  }

  lemma RewriteKeepsBudgets(daily: Time, s: Sys, n: Sys, m: nat)
    requires OneAtATime(s.log, s.listed) && Budgets(daily, s) && Rewritten(s.log, n.log, m)
    requires Tables(s) && OnlyCall(s, n, s.log[m].id)
    requires n.log[m].answered.Some? ==>
      Within(daily, s.log, m, n.log[m].answered.value, Horizon(n, n.log[m]))
    ensures Budgets(daily, n)
  {
    hide Within, OneAtATime, Inv, Matches, Timed;
    forall k | 0 <= k < |n.log| && n.log[k].answered.Some?
      ensures Within(daily, n.log, k, n.log[k].answered.value, Horizon(n, n.log[k]))
    {
      RewriteKeepsWithin(daily, s.log, n.log, s.listed, m, k, n.log[k].answered.value, Horizon(n, n.log[k]));
    }
  }

  lemma RewriteKeepsOffers(daily: Time, s: Sys, n: Sys, m: nat)
    requires Tables(s) && OneAtATime(s.log, s.listed) && Offers(daily, s) && Rewritten(s.log, n.log, m)
    requires OnlyCall(s, n, s.log[m].id)
    ensures Offers(daily, n)
  {
    hide Inv, Within, OneAtATime;
    forall o <- n.offers ensures o.Offer? && OfferOk(daily, n, o) {
      assert OfferOk(daily, s, o);
      if o.id in n.mgr.calls && !n.mgr.calls[o.id].active && n.mgr.calls[o.id].callee == o.from.user {
        forall k | 0 <= k < |n.log| && n.log[k].id == o.id
          ensures Within(daily, n.log, k, o.at, o.at + o.limit)
        {
          assert Matches(s, s.log[k]);
          RewriteKeepsWithin(daily, s.log, n.log, s.listed, m, k, o.at, o.at + o.limit);
        }
      }
    }
  }

  lemma RewriteKeepsLags(lag: Time, a: Log, b: Log, m: nat)
    requires Lags(lag, a) && Rewritten(a, b, m) && Inversion(b[m]) <= lag
    ensures Lags(lag, b)
  {
  }

  lemma RewriteKeepsTables(s: Sys, n: Sys, m: nat)
    requires Tables(s) && Rewritten(s.log, n.log, m)
    requires Inv(n.mgr) && OnlyCall(s, n, s.log[m].id)
    requires Matches(n, n.log[m]) && Timed(n, n.log[m])
    ensures Tables(n)
  {
    hide Inv;
    forall i | 0 <= i < |n.log| ensures Matches(n, n.log[i]) && Timed(n, n.log[i]) {
      assert Matches(s, s.log[i]) && Timed(s, s.log[i]);
    }
    forall id <- n.mgr.calls ensures HasId(n.log, id) {
      var i :| 0 <= i < |s.log| && s.log[i].id == id;
      assert n.log[i].id == id;
    }
  }

  /** Rewriting one open row as its call demands keeps everything. */
  lemma RewriteKeeps(env: Env, s: Sys, n: Sys, m: nat)
    requires SysInv(env, s) && Rewritten(s.log, n.log, m) && Inv(n.mgr) && OnlyCall(s, n, s.log[m].id)
    requires Matches(n, n.log[m]) && Timed(n, n.log[m]) && Inversion(n.log[m]) <= env.lag
    requires n.log[m].answered.Some? ==>
      Within(Cap(env), s.log, m, n.log[m].answered.value, Horizon(n, n.log[m]))
    ensures SysInv(env, n)
  {
    hide Inv, Tables, Within, OneAtATime, Budgets, Offers, Lags, Matches, Timed, Rewritten, OnlyCall;
    LogLength(s.log, n.log, m);
    RewriteKeepsOrder(s.log, n.log, s.listed, m);
    RewriteKeepsTables(s, n, m);
    RewriteKeepsBudgets(Cap(env), s, n, m);
    RewriteKeepsOffers(env.daily, s, n, m);
    RewriteKeepsLags(env.lag, s.log, n.log, m);
    SameListing(s, n, s.log[m].id);
  }

  lemma LogLength(a: Log, b: Log, m: nat)
    requires Rewritten(a, b, m)
    ensures m < |a| == |b|
  {
  }

  lemma SameListing(s: Sys, n: Sys, id: Id)
    requires OnlyCall(s, n, id)
    ensures n.listed == s.listed
  {
  }

  lemma RowOf(s: Sys, id: Id) returns (m: nat)
    requires Tables(s) && id in s.mgr.calls
    ensures m < |s.log| && s.log[m].id == id
  {
    assert HasId(s.log, id);
    m :| 0 <= m < |s.log| && s.log[m].id == id;
  }

  // An answered call: its row, found at m, gets answered_at and the limit timer is armed.

  function Answering(env: Env, s: Sys, from: Conn, id: Id, at: Time, limit: Time): Sys {
    Sys(Commit(s.mgr, from, id, at, limit).mgr, AnswerCall(s.log, id, at),
        s.offers, s.deadline[id := s.now + limit + env.firing], s.listed, s.now, s.named + {id})
  }

  ghost predicate Answerable(env: Env, s: Sys, from: Conn, id: Id, at: Time, limit: Time) {
    && Answers(s.mgr, from, id)
    && Offer(from, id, at, limit) in s.offers && s.now <= at + env.answering
  }

  lemma WidenWithin(daily: Time, cap: Time, log: Log, k: nat, from: Time, until: Time, later: Time)
    requires k < |log| && Within(daily, log, k, from, until) && later - until <= cap - daily
    ensures Within(cap, log, k, from, later)
  {
  }

  lemma AnsweringRow(env: Env, s: Sys, from: Conn, id: Id, at: Time, limit: Time, m: nat)
    requires Sane(env) && Tables(s) && Offers(env.daily, s) && Answerable(env, s, from, id, at, limit)
    requires m < |s.log| && s.log[m].id == id
    ensures var n := Answering(env, s, from, id, at, limit);
      && Rewritten(s.log, n.log, m) && OnlyCall(s, n, id)
      && n.log[m] == s.log[m].(state := Active, answered := Some(at))
      && Matches(n, n.log[m]) && Timed(n, n.log[m])
      && Within(Cap(env), s.log, m, at, Horizon(n, n.log[m]))
  {
    hide Inv, Within;
    assert Matches(s, s.log[m]) && Timed(s, s.log[m]);
    assert OfferOk(env.daily, s, Offer(from, id, at, limit));
    WidenWithin(env.daily, Cap(env), s.log, m, at, at + limit, s.now + limit + env.firing);
  }

  lemma AnsweringKeeps(env: Env, s: Sys, from: Conn, id: Id, at: Time, limit: Time)
    requires Sane(env) && SysInv(env, s) && Answerable(env, s, from, id, at, limit)
    ensures SysInv(env, Answering(env, s, from, id, at, limit))
  {
    var n := Answering(env, s, from, id, at, limit);
    var m := RowOf(s, id);
    CommitKeepsInv(s.mgr, from, id, at, limit);
    AnsweringRow(env, s, from, id, at, limit, m);
    assert s.log[m].ended.None? by { assert Matches(s, s.log[m]); }
    hide SysInv, Inv, Within, Matches, Timed, Answering, Rewritten, OnlyCall;
    RewriteKeeps(env, s, n, m);
  }

  // An ended call: its row gets ended_at, no later than its limit timer.

  function Ending(s: Sys, id: Id, reason: Reason, at: Time): Sys
    requires id in s.mgr.calls
  {
    Sys(End(s.mgr, id, reason, at).mgr,
        FinishCall(s.log, id, FinalState(s.mgr.calls[id].active, reason), reason, at),
        s.offers, s.deadline, s.listed, s.now, s.named + {id})
  }

  lemma EndingMatches(s: Sys, id: Id, reason: Reason, at: Time, m: nat)
    requires Tables(s) && id in s.mgr.calls && m < |s.log| && s.log[m].id == id && at <= s.now
    ensures var n := Ending(s, id, reason, at);
      && n.log[m].answered == s.log[m].answered && n.log[m].ended == Some(at)
      && Matches(n, n.log[m]) && Timed(n, n.log[m])
  {
    hide Inv;
    assert Matches(s, s.log[m]) && Timed(s, s.log[m]);
    hide Unlist;
  }

  lemma EndingRewrites(s: Sys, id: Id, reason: Reason, at: Time, m: nat)
    requires Tables(s) && id in s.mgr.calls && m < |s.log| && s.log[m].id == id
    ensures var n := Ending(s, id, reason, at); Rewritten(s.log, n.log, m) && OnlyCall(s, n, id)
  {
    hide Inv, Timed;
    assert Matches(s, s.log[m]);
    hide Matches, Unlist;
  }

  lemma EndingRow(daily: Time, s: Sys, id: Id, reason: Reason, at: Time, m: nat)
    requires Tables(s) && id in s.mgr.calls && Budgets(daily, s) && at <= s.now
    requires m < |s.log| && s.log[m].id == id
    ensures var n := Ending(s, id, reason, at);
      && Rewritten(s.log, n.log, m) && OnlyCall(s, n, id)
      && m < |n.log| && n.log[m].answered == s.log[m].answered && n.log[m].ended == Some(at)
      && Matches(n, n.log[m]) && Timed(n, n.log[m])
      && (n.log[m].answered.Some? ==>
            && n.log[m].answered.value <= s.now
            && Within(daily, s.log, m, n.log[m].answered.value, Horizon(n, n.log[m])))
  {
    EndingMatches(s, id, reason, at, m);
    EndingRewrites(s, id, reason, at, m);
    hide Inv;
    assert Matches(s, s.log[m]) && Timed(s, s.log[m]);
    if s.log[m].answered.Some? {
      assert Within(daily, s.log, m, s.log[m].answered.value, Horizon(s, s.log[m]));
    }
    hide Budgets, Ending, Rewritten, OnlyCall, Timed;
  }

  lemma EndingIndex(s: Sys, id: Id, reason: Reason, at: Time)
    requires Inv(s.mgr) && id in s.mgr.calls
    ensures Inv(Ending(s, id, reason, at).mgr) && Ending(s, id, reason, at).now == s.now
  {
    EndKeepsInv(s.mgr, id, reason, at);
    hide Inv, End;
  }

  lemma EndingKeeps(env: Env, s: Sys, id: Id, reason: Reason, at: Time)
    requires Sane(env) && SysInv(env, s) && id in s.mgr.calls && s.now - env.lag <= at <= s.now
    ensures SysInv(env, Ending(s, id, reason, at))
  {
    assert Tables(s) && Budgets(Cap(env), s) && Inv(s.mgr) && env.lag >= 0;
    hide *;
    var m := RowOf(s, id);
    EndingIndex(s, id, reason, at);
    EndingRow(Cap(env), s, id, reason, at, m);
    var n := Ending(s, id, reason, at);
    assert Inversion(n.log[m]) <= env.lag by { InversionBound(n.log[m], at, s.now, env.lag); }
    RewriteKeeps(env, s, n, m);
  }

  lemma InversionBound(r: Row, at: Time, now: Time, lag: Time)
    requires r.ended == Some(at) && now - lag <= at && lag >= 0 && (r.answered.Some? ==> r.answered.value <= now)
    ensures Inversion(r) <= lag
  {
  }

  // A new row at the end: the call rings, or its callee was busy.

  ghost predicate Appended(s: Sys, n: Sys, row: Row) {
    && n.log == s.log + [row] && row.id !in s.named
    && n.offers == s.offers && n.deadline == s.deadline && n.now == s.now && n.named == s.named + {row.id}
    && n.listed == (if row.ended.None? then s.listed[row.id := s.now] else s.listed)
    && n.mgr.calls.Keys == s.mgr.calls.Keys + (if row.ended.None? then {row.id} else {})
    && (forall id <- s.mgr.calls :: n.mgr.calls[id] == s.mgr.calls[id])
    && row.answered.None? && row.started <= s.now && row.EndOr(s.now) <= s.now
    && (row.ended.None? ==>
          var c := n.mgr.calls[row.id];
          && !c.active && row.state == Ringing && c.caller == row.caller && c.callee == row.callee
          && (forall id <- s.mgr.calls :: !s.mgr.calls[id].Has(row.caller) && !s.mgr.calls[id].Has(row.callee)))
  }

  lemma AppendKeepsTables(s: Sys, n: Sys, row: Row)
    requires Tables(s) && Inv(n.mgr) && Appended(s, n, row)
    ensures Tables(n)
  {
    hide Inv;
    forall i | 0 <= i < |n.log| ensures Matches(n, n.log[i]) && Timed(n, n.log[i]) {
      if i < |s.log| { assert Matches(s, s.log[i]) && Timed(s, s.log[i]); }
    }
    hide Timed;
    forall i | 0 <= i < |s.log| ensures s.log[i].id != row.id { assert Matches(s, s.log[i]); }
  }

  lemma AppendKeepsOrder(s: Sys, n: Sys, row: Row)
    requires Tables(s) && OneAtATime(s.log, s.listed) && Appended(s, n, row)
    ensures OneAtATime(n.log, n.listed)
  {
    hide Inv;
    forall i, u | 0 <= i < |s.log| && Takes(row) && s.log[i].Has(u) && row.Has(u)
      ensures s.log[i].ended.Some? && s.log[i].ended.value <= s.now
    {
      assert Matches(s, s.log[i]) && Timed(s, s.log[i]);
    }
    hide Tables;
  }

  lemma AppendKeepsWithin(daily: Time, log: Log, row: Row, k: nat, from: Time, until: Time)
    requires k < |log| && Within(daily, log, k, from, until)
    ensures Within(daily, log + [row], k, from, until)
  {
    assert (log + [row])[..k] == log[..k];
  }

  lemma AppendKeepsBudgets(daily: Time, s: Sys, n: Sys, row: Row)
    requires Budgets(daily, s) && Appended(s, n, row)
    ensures Budgets(daily, n)
  {
    hide Within;
    forall k | 0 <= k < |n.log| && n.log[k].answered.Some?
      ensures Within(daily, n.log, k, n.log[k].answered.value, Horizon(n, n.log[k]))
    {
      AppendKeepsWithin(daily, s.log, row, k, n.log[k].answered.value, Horizon(n, n.log[k]));
    }
  }

  lemma AppendKeepsOffers(daily: Time, s: Sys, n: Sys, row: Row)
    requires Offers(daily, s) && Appended(s, n, row)
    ensures Offers(daily, n)
  {
    hide Within;
    forall o <- n.offers ensures o.Offer? && OfferOk(daily, n, o) {
      assert OfferOk(daily, s, o);
      forall k | 0 <= k < |s.log| && s.log[k].id == o.id && Within(daily, s.log, k, o.at, o.at + o.limit)
        ensures Within(daily, n.log, k, o.at, o.at + o.limit)
      {
        AppendKeepsWithin(daily, s.log, row, k, o.at, o.at + o.limit);
      }
    }
  }

  lemma AppendKeepsLags(lag: Time, s: Sys, n: Sys, row: Row)
    requires lag >= 0 && Lags(lag, s.log) && Appended(s, n, row)
    ensures Lags(lag, n.log)
  {
  }

  lemma AppendKeeps(env: Env, s: Sys, n: Sys, row: Row)
    requires Sane(env) && SysInv(env, s) && Inv(n.mgr) && Appended(s, n, row)
    ensures SysInv(env, n)
  {
    hide Inv, Tables, OneAtATime, Budgets, Offers, Appended;
    AppendKeepsTables(s, n, row);
    AppendKeepsOrder(s, n, row);
    AppendKeepsBudgets(Cap(env), s, n, row);
    AppendKeepsOffers(env.daily, s, n, row);
    AppendKeepsLags(env.lag, s, n, row);
  }

  // ---- all events ----

  lemma StartOutcome(m: Mgr, r: Req)
    requires Inv(m) && r.ReqStart? && r.id !in m.calls
    ensures var o := Handle(m, r);
      && (forall x <- o.effects :: !x.Offer?)
      && (if r.id in o.mgr.calls then
            && o.mgr.calls == m.calls[r.id := NewCall(r.from, r.to, r.now, r.id)]
            && (forall id <- m.calls :: !m.calls[id].Has(r.from.user) && !m.calls[id].Has(r.to))
          else o.mgr.calls == m.calls)
  {
    hide AllowStart, GoodCall;
  }

  lemma NotLogged(s: Sys, id: Id)
    requires Tables(s) && id !in s.named
    ensures !HasId(s.log, id)
  {
    forall i | 0 <= i < |s.log| ensures s.log[i].id != id { assert Matches(s, s.log[i]); }
  }

  /** The row a start leaves in the log, when it leaves one. */
  function StartRow(m: Mgr, r: Req): Row
    requires r.ReqStart?
  {
    if r.id in m.calls then Row(r.id, r.from.user, r.to, Ringing, r.now, None, None, None)
    else Row(r.id, r.from.user, r.to, Closed(Busy), r.now, None, Some(r.now), Some(Busy))
  }

  lemma StartAppends(s: Sys, n: Sys, r: Req)
    requires r.ReqStart? && r.id !in s.named && r.now <= s.now && s.mgr.calls.Keys <= s.named
    requires n.offers == s.offers && n.deadline == s.deadline && n.now == s.now && n.named == s.named + {r.id}
    requires n.listed == if r.id in n.mgr.calls then s.listed[r.id := s.now] else s.listed
    requires n.log == s.log + [StartRow(n.mgr, r)]
    requires if r.id in n.mgr.calls then
        && n.mgr.calls == s.mgr.calls[r.id := NewCall(r.from, r.to, r.now, r.id)]
        && (forall id <- s.mgr.calls :: !s.mgr.calls[id].Has(r.from.user) && !s.mgr.calls[id].Has(r.to))
      else n.mgr.calls == s.mgr.calls
    ensures Appended(s, n, StartRow(n.mgr, r))
  {
  }

  lemma StartingKeeps(env: Env, s: Sys, n: Sys, r: Req)
    requires Sane(env) && SysInv(env, s) && r.ReqStart? && r.id !in s.named && r.now <= s.now
    requires n == Sys(Handle(s.mgr, r).mgr, WriteAll(s.log, Handle(s.mgr, r).effects),
                      s.offers, s.deadline,
                      if r.id in Handle(s.mgr, r).mgr.calls then s.listed[r.id := s.now] else s.listed,
                      s.now, s.named + {r.id})
    ensures SysInv(env, n)
  {
    assert Pointed(s.mgr);
    NotLogged(s, r.id);
    StartWrites(s.mgr, r, s.log);
    StartOutcome(s.mgr, r);
    HandleKeepsInv(s.mgr, r);
    hide Inv, Handle, WriteAll, OneAtATime, Budgets, Offers, HasId, Matches, Timed, Appended;
    if n.log == s.log {
      hide Tables;
      QuietKeeps(env, s, n);
    } else {
      StartAppends(s, n, r);
      hide Tables;
      AppendKeeps(env, s, n, StartRow(n.mgr, r));
    }
  }

  /** The offers a peek makes respect what both users have used. */
  lemma PeekOffer(daily: Time, s: Sys, id: Id, at: Time, limit: Time, k: nat)
    requires Tables(s) && OneAtATime(s.log, s.listed) && daily > 0 && at <= s.now && id in s.listed && s.listed[id] <= at
    requires k < |s.log| && s.log[k].id == id && id in s.mgr.calls && !s.mgr.calls[id].active
    requires limit <= Remaining(daily, s.log, s.mgr.calls[id].caller, at)
    requires limit <= Remaining(daily, s.log, s.mgr.calls[id].callee, at)
    ensures Within(daily, s.log, k, at, at + limit)
  {
    hide Inv;
    assert Matches(s, s.log[k]) && Timed(s, s.log[k]);
    forall u | s.log[k].Has(u) ensures Used(s.log, k, u, at) + limit <= daily + HALF {
      forall i | k <= i < |s.log| ensures Counted(s.log[i], u, at - DAY, at) == 0 {}
      SumCut(s.log, k, u, at - DAY, at);
      RoundingLoss(SumCounted(s.log, u, at - DAY, at));
    }
  }

  lemma PeekKeeps(env: Env, s: Sys, n: Sys, r: Req)
    requires SysInv(env, s) && Enabled(env, s, Do(r)) && Sane(env) && r.ReqPeek?
    requires n == s.(offers := s.offers + (set x <- Handle(s.mgr, r).effects | x.Offer?), named := s.named + {r.id})
    ensures SysInv(env, n)
  {
    hide Inv, OneAtATime, Budgets, Matches, Timed, Within, Remaining;
    forall o <- n.offers ensures o.Offer? && (o in s.offers || OfferOk(env.daily, n, o)) {
      if o !in s.offers && o.id in s.mgr.calls && !s.mgr.calls[o.id].active
         && s.mgr.calls[o.id].callee == o.from.user {
        forall k | 0 <= k < |s.log| && s.log[k].id == o.id
          ensures Within(env.daily, s.log, k, o.at, o.at + o.limit)
        {
          PeekOffer(env.daily, s, o.id, o.at, o.limit, k);
        }
      }
    }
    QuietKeeps(env, s, n);
  }

  /** Signals and devices coming and going do not change what the log tracks of a call. */
  lemma QuietCalls(m: Mgr, r: Req)
    requires Inv(m) && (r.ReqSignal? || r.ReqConnected? || r.ReqDropped?)
    ensures SameCalls(m, Handle(m, r).mgr) && forall x <- Handle(m, r).effects :: !x.Offer?
  {
    hide GoodCall;
    match r
    case ReqSignal(_, _, _, _) => hide Connected, Dropped;
    case ReqConnected(_) => hide Signal, Dropped;
    case ReqDropped(_) => hide Signal, Connected;
  }

  lemma SameMgr(m: Mgr)
    ensures SameCalls(m, m)
  {
  }

  /** The other critical sections change neither the talk of a call nor the log. */
  lemma QuietHandle(s: Sys, r: Req)
    requires Inv(s.mgr) && !r.ReqStart? && !r.ReqPeek?
    requires r.ReqCommit? ==> !Answers(s.mgr, r.from, r.id)
    requires r.ReqEnd? ==> r.id !in s.mgr.calls
    ensures SameCalls(s.mgr, Handle(s.mgr, r).mgr)
    ensures WriteAll(s.log, Handle(s.mgr, r).effects) == s.log
    ensures (set x <- Handle(s.mgr, r).effects | x.Offer?) == {}
  {
    assert Pointed(s.mgr);
    OthersWrite(s.mgr, r, s.log);
    hide Inv, WriteAll;
    if r.ReqSignal? || r.ReqConnected? || r.ReqDropped? {
      QuietCalls(s.mgr, r);
      hide Handle, SameCalls;
    } else {
      hide SameCalls, Signal, Connected, Dropped;
      SameMgr(s.mgr);
    }
  }

  lemma PeekHandle(s: Sys, r: Req)
    requires Pointed(s.mgr) && r.ReqPeek?
    ensures Handle(s.mgr, r).mgr == s.mgr
    ensures WriteAll(s.log, Handle(s.mgr, r).effects) == s.log
  {
    OthersWrite(s.mgr, r, s.log);
    hide WriteAll;
  }

  lemma NoOffers(m: Mgr, r: Req)
    requires Pointed(m) && (r.ReqStart? || r.ReqCommit? || r.ReqEnd?)
    ensures (set x <- Handle(m, r).effects | x.Offer?) == {}
  {
    hide AllowStart;
  }

  /** The timer that accept arms in its second critical section: one that waits for the limit, if the call is answered. */
  lemma AnswerArms(m: Mgr, from: Conn, id: Id, at: Time, limit: Time)
    ensures Timer(Commit(m, from, id, at, limit).effects, id) == if Answers(m, from, id) then Some(limit) else None
  {
  }

  lemma StepIsAnswering(env: Env, s: Sys, r: Req)
    requires Pointed(s.mgr) && Enabled(env, s, Do(r)) && r.ReqCommit? && Answers(s.mgr, r.from, r.id)
    ensures Step(env, s, Do(r)) == Answering(env, s, r.from, r.id, r.at, r.limit)
    ensures Answerable(env, s, r.from, r.id, r.at, r.limit)
  {
    NoOffers(s.mgr, r);
    OthersWrite(s.mgr, r, s.log);
    AnswerArms(s.mgr, r.from, r.id, r.at, r.limit);
    hide WriteAll, Commit, AnswerCall, Timer;
  }

  lemma StepIsEnding(env: Env, s: Sys, r: Req)
    requires Pointed(s.mgr) && Enabled(env, s, Do(r)) && r.ReqEnd? && r.id in s.mgr.calls
    ensures Step(env, s, Do(r)) == Ending(s, r.id, r.reason, r.now)
  {
    NoOffers(s.mgr, r);
    OthersWrite(s.mgr, r, s.log);
    hide WriteAll, End, FinishCall;
  }

  lemma QuietStep(env: Env, s: Sys, r: Req)
    requires SysInv(env, s) && Enabled(env, s, Do(r)) && !r.ReqStart? && !r.ReqPeek?
    requires r.ReqCommit? ==> !Answers(s.mgr, r.from, r.id)
    requires r.ReqEnd? ==> r.id !in s.mgr.calls
    ensures SysInv(env, Step(env, s, Do(r)))
  {
    QuietHandle(s, r);
    HandleKeepsInv(s.mgr, r);
    if r.ReqCommit? { AnswerArms(s.mgr, r.from, r.id, r.at, r.limit); }
    hide Inv, Handle, WriteAll, OneAtATime, Budgets, Offers, Tables;
    QuietKeeps(env, s, Step(env, s, Do(r)));
  }

  /** Every event keeps the invariant. */
  lemma StepKeepsInv(env: Env, s: Sys, e: Event)
    requires Sane(env) && SysInv(env, s)
    ensures SysInv(env, Step(env, s, e))
  {
    assert Pointed(s.mgr);
    hide SysInv, Inv, Handle, WriteAll;
    if Enabled(env, s, e) {
      match e
      case Tick(t) => TickKeeps(env, s, t);
      case Do(r) =>
        if r.ReqStart? {
          NoOffers(s.mgr, r);
          StartingKeeps(env, s, Step(env, s, e), r);
        } else if r.ReqPeek? {
          PeekHandle(s, r);
          PeekKeeps(env, s, Step(env, s, e), r);
        } else if r.ReqCommit? && Answers(s.mgr, r.from, r.id) {
          StepIsAnswering(env, s, r);
          AnsweringKeeps(env, s, r.from, r.id, r.at, r.limit);
        } else if r.ReqEnd? && r.id in s.mgr.calls {
          StepIsEnding(env, s, r);
          EndingKeeps(env, s, r.id, r.reason, r.now);
        } else {
          QuietStep(env, s, r);
        }
    }
  }

  lemma StepKeepsIndex(env: Env, s: Sys, e: Event)
    requires CallRuns.Indexed(s.mgr, s.named)
    ensures CallRuns.Indexed(Step(env, s, e).mgr, Step(env, s, e).named)
  {
    if Enabled(env, s, e) && e.Do? { CallRuns.HandleKeepsIndex(s.mgr, e.req, s.named); }
    CallRuns.PointedOf(s.mgr);
    hide Inv, Handle, WriteAll;
  }

  ghost function Exec(env: Env, es: seq<Event>): (s: Sys)
    ensures CallRuns.Indexed(s.mgr, s.named)
  {
    if es == [] then INIT
    else
      var before := Exec(env, es[..|es| - 1]);
      StepKeepsIndex(env, before, es[|es| - 1]);
      Step(env, before, es[|es| - 1])
  }

  lemma {:induction false} ExecInv(env: Env, es: seq<Event>)
    requires Sane(env)
    ensures SysInv(env, Exec(env, es))
  {
    if es == [] {
    } else {
      var before, e := Exec(env, es[..|es| - 1]), es[|es| - 1];
      assert Exec(env, es) == Step(env, before, e);
      ExecInv(env, es[..|es| - 1]);
      hide SysInv, Step, Exec;
      StepKeepsInv(env, before, e);
    }
  }

  /**
   * In every run, at every moment, every user's answered talk time in every 24 hours is at most the cap,
   * the two delays of the server, and half a second.
   */
  lemma DailyCapHolds(env: Env, es: seq<Event>, u: Id, hi: Time)
    requires Sane(env)
    ensures var s := Exec(env, es);
      && Talked(s.log, u, hi - DAY, hi, s.now) <= Cap(env) + HALF + Inverted(s.log, u)
      && (forall r <- s.log :: Inversion(r) <= env.lag)
      && (env.lag == 0 ==> Inverted(s.log, u) == 0)
  {
    var s := Exec(env, es);
    ExecInv(env, es);
    hide Exec;
    CapFromInv(env, s, |s.log|, u, hi);
    assert s.log[..|s.log|] == s.log;
    if env.lag == 0 { NoneInverted(s.log, u); }
  }

  lemma {:induction false} NoneInverted(log: Log, u: Id)
    requires Lags(0, log)
    ensures Inverted(log, u) == 0
  {
    if log != [] { NoneInverted(log[..|log| - 1], u); }
  }

  /** The open rows of the log are the calls in memory, one row each, with the same users and answer time. */
  lemma OpenRowsAreTheCalls(env: Env, es: seq<Event>)
    requires Sane(env)
    ensures var s := Exec(env, es);
      && (forall id <- s.mgr.calls :: exists k :: 0 <= k < |s.log| && s.log[k].id == id && s.log[k].ended.None?)
      && (forall k :: 0 <= k < |s.log| && s.log[k].ended.None? ==>
            && s.log[k].id in s.mgr.calls
            && var c := s.mgr.calls[s.log[k].id];
               s.log[k].caller == c.caller && s.log[k].callee == c.callee
               && s.log[k].answered == if c.active then Some(c.answered) else None)
      && (forall j, k, u :: 0 <= j < k < |s.log| && s.log[j].ended.None? && s.log[k].ended.None? ==>
            !(s.log[j].Has(u) && s.log[k].Has(u)))
  {
    var s := Exec(env, es);
    ExecInv(env, es);
    assert Tables(s) && OneAtATime(s.log, s.listed);
    hide Exec, Budgets, Offers, Timed, Inv;
    forall id <- s.mgr.calls ensures exists k :: 0 <= k < |s.log| && s.log[k].id == id && s.log[k].ended.None? {
      var k := OpenRow(s, id);
    }
    hide HasId;
    forall k | 0 <= k < |s.log| && s.log[k].ended.None? ensures Matches(s, s.log[k]) {}
  }

  lemma OpenRow(s: Sys, id: Id) returns (k: nat)
    requires Tables(s) && id in s.mgr.calls
    ensures k < |s.log| && s.log[k].id == id && s.log[k].ended.None?
  {
    assert HasId(s.log, id);
    var r :| r in s.log && r.id == id;
    k :| 0 <= k < |s.log| && s.log[k] == r;
    assert Matches(s, s.log[k]);
  }

  // ---- the bound is reached ----

  const CALLER: Conn := Conn(1, 1)
  const CALLEE: Conn := Conn(2, 2)
  const CALL: Id := 7

  lemma Push(env: Env, es: seq<Event>, e: Event)
    ensures Pointed(Exec(env, es).mgr) && Exec(env, es + [e]) == Step(env, Exec(env, es), e)
  {
    assert (es + [e])[..|es|] == es;
    CallRuns.PointedOf(Exec(env, es).mgr);
  }

  /** The row of the call, ringing since 0. */
  function Ringing0(): Row {
    Row(CALL, 1, 2, Ringing, 0, None, None, None)
  }

  /** A call that rings and has been offered the whole cap, all at time 0. */
  ghost predicate Offered(env: Env, s: Sys) {
    && Answers(s.mgr, CALLEE, CALL) && s.mgr.calls.Keys == {CALL} && s.now == 0
    && s.log == [Ringing0()] && Offer(CALLEE, CALL, 0, env.daily) in s.offers
  }

  lemma CallRings(env: Env) returns (es: seq<Event>)
    requires Sane(env)
    ensures var s := Exec(env, es);
      && s.mgr.calls == map[CALL := NewCall(CALLER, 2, 0, CALL)] && s.now == 0
      && s.log == [Ringing0()] && CALL in s.listed && s.listed[CALL] == 0
  {
    var r := ReqStart(CALLER, 2, Some(true), Some(env.daily), 0, CALL);
    Push(env, [], Do(r));
    es := [] + [Do(r)];
    assert Exec(env, []) == INIT;
    StartWrites(INIT.mgr, r, []);
    StartRings(r.left.value);
    hide Exec, Handle, WriteAll;
  }

  lemma StartRings(left: Time)
    requires left > 0
    ensures Handle(EMPTY, ReqStart(CALLER, 2, Some(true), Some(left), 0, CALL)).mgr.calls
            == map[CALL := NewCall(CALLER, 2, 0, CALL)]
  {
    assert Recent([], 0) == [];
  }

  lemma NothingUsed(daily: Time, u: Id)
    requires 0 < daily <= MAX_DURATION
    ensures Remaining(daily, [Ringing0()], u, 0) == daily
  {
    assert [Ringing0()][..0] == [];
    assert SumCounted([Ringing0()], u, 0 - DAY, 0) == 0;
    assert RoundSeconds(0) == 0;
  }

  lemma CallIsOffered(env: Env) returns (es: seq<Event>)
    requires Sane(env) && env.daily <= MAX_DURATION
    ensures Offered(env, Exec(env, es))
  {
    es := CallRings(env);
    var s := Exec(env, es);
    var r := ReqPeek(CALLEE, CALL, 0, Some(env.daily), Some(env.daily));
    NothingUsed(env.daily, 1);
    NothingUsed(env.daily, 2);
    Push(env, es, Do(r));
    PeekHandle(s, r);
    hide Exec, WriteAll, Remaining;
    assert Handle(s.mgr, r).effects == [Offer(CALLEE, CALL, 0, env.daily)];
    es := es + [Do(r)];
  }

  /** Then the time an answer may take goes by. */
  lemma CallWaits(env: Env) returns (es: seq<Event>)
    requires Sane(env) && env.daily <= MAX_DURATION
    ensures var s := Exec(env, es); Offered(env, s.(now := 0)) && s.now == env.answering
  {
    es := CallIsOffered(env);
    Push(env, es, Tick(env.answering));
    es := es + [Tick(env.answering)];
    hide Exec;
  }

  /** The call has been answered by an accept that took all its time. */
  lemma CallIsAnswered(env: Env) returns (es: seq<Event>)
    requires Sane(env) && env.daily <= MAX_DURATION
    ensures var s := Exec(env, es);
      && s.now == env.answering && s.mgr.calls.Keys == {CALL}
      && CALL in s.deadline && s.deadline[CALL] == Cap(env)
      && s.log == [Ringing0().(state := Active, answered := Some(0))]
  {
    es := CallWaits(env);
    var t, r := Exec(env, es), ReqCommit(CALLEE, CALL, 0, env.daily);
    hide Exec;
    Push(env, es, Do(r));
    StepIsAnswering(env, t, r);
    es := es + [Do(r)];
    hide Step, Enabled;
    AnsweredLog();
  }

  lemma AnsweredLog()
    ensures AnswerCall([Ringing0()], CALL, 0) == [Ringing0().(state := Active, answered := Some(0))]
  {
  }

  lemma OneRowTalk(r: Row, u: Id, lo: Time, hi: Time, now: Time)
    requires r.Has(u) && r.answered.Some?
    ensures Talked([r], u, lo, hi, now) == Overlap(r.answered.value, r.EndOr(now), lo, hi)
  {
    assert [r][..0] == [];
  }

  /** The cap is overrun by both delays in full: a single call of a day is talked for all of it. */
  lemma CapIsOverrun(env: Env) returns (es: seq<Event>)
    requires Sane(env) && env.daily <= MAX_DURATION && Cap(env) <= DAY
    ensures var s := Exec(env, es); Talked(s.log, 1, Cap(env) - DAY, Cap(env), s.now) == Cap(env)
  {
    es := CallIsAnswered(env);
    var s := Exec(env, es);
    Push(env, es, Tick(Cap(env)));
    es := es + [Tick(Cap(env))];
    hide Exec;
    OneRowTalk(s.log[0], 1, Cap(env) - DAY, Cap(env), Cap(env));
  }
}
