/**
 * The call manager of internal/calls/calls.go, one function per critical section.
 *
 * A handler that takes the lock, drops it and takes it again is split where it drops it: the
 * part before returns an effect (`Then`, `Offer`, `Arm`) that names the part that runs later.
 * A stopped Go timer whose callback has started still runs, so an armed timer is an effect
 * that nothing takes back.
 */
module CallManager {
  import opened Basics

  const RING_TIMEOUT: Time := 45 * SECOND
  const RECONNECT_GRACE: Time := 30 * SECOND
  const MAX_DURATION: Time := 14400 * SECOND
  const MAX_SIGNAL_BYTES: nat := 16384
  const MAX_SIGNALS: nat := 500
  const STARTS_PER_MINUTE: nat := 10
  const MINUTE: Time := 60 * SECOND
  const MAX_STARTERS: nat := 100_000

  /** One device of one user. */
  datatype Conn = Conn(user: Id, id: Id)

  datatype Reason =
    | Ended | Missed | Declined | Cancelled | Busy | Disconnected | Elsewhere | Unfriended | DailyLimit

  datatype Code = NotFriends | InCall | RateLimited | UnknownCall | BadRequest | Unavailable | OverLimit

  /** The state column of the call log; Closed(r) is the state spelled like the reason r. */
  datatype LogState = Ringing | Active | Closed(reason: Reason) | Failed

  datatype Msg =
    | RingingMsg(id: Id, to: Id)
    | IncomingMsg(id: Id, caller: Id)
    | AcceptedMsg(id: Id)
    | EndedMsg(id: Id, reason: Reason, talked: Time)
    | ResumedMsg(id: Id, peer: Id)
    | RelayMsg(id: Id, sender: Id, data: string)
    | ErrorMsg(id: Id, code: Code)

  datatype Effect =
    | ToConn(conn: Conn, msg: Msg)
    | ToUser(user: Id, msg: Msg)
    | ToOthers(user: Id, except: Id, msg: Msg)
    | Arm(id: Id, reason: Reason, after: Time)             // time.AfterFunc(after, end(id, reason))
    | Then(id: Id, reason: Reason)                         // unlock, then end(id, reason)
    | Offer(from: Conn, id: Id, at: Time, limit: Time)     // unlock, then answer with this limit
    | Insert(id: Id, caller: Id, callee: Id, state: LogState, at: Time)
    | Answer(id: Id, at: Time)
    | Finish(id: Id, state: LogState, reason: Reason, at: Time)

  datatype Call = Call(
    id: Id, caller: Id, callee: Id,
    callerConn: Id, calleeConn: Id,
    active: bool, started: Time, answered: Time,
    lost: set<Id>, signals: map<Id, int>)
  {
    predicate Has(u: Id) { u == caller || u == callee }

    function Peer(u: Id): Id { if u == caller then callee else caller }

    function ConnOf(u: Id): Id { if u == caller then callerConn else calleeConn }

    function Bind(u: Id, conn: Id): Call {
      if u == caller then this.(callerConn := conn) else this.(calleeConn := conn)
    }

    function Signals(u: Id): int { if u in signals then signals[u] else 0 }
  }

  datatype Mgr = Mgr(calls: map<Id, Call>, byUser: map<Id, Id>, starts: map<Id, seq<Time>>)

  datatype Out = Out(mgr: Mgr, effects: seq<Effect>)

  const EMPTY: Mgr := Mgr(map[], map[], map[])

  // ---- the invariant that holds whenever the lock is free ----

  ghost predicate GoodCall(c: Call) {
    && c.caller != c.callee
    && c.lost <= {c.caller, c.callee}
    && (forall u <- c.signals :: c.signals[u] >= 0)
    && (!c.active ==> c.calleeConn == NIL && c.lost == {} && c.signals == map[])
  }

  ghost predicate Inv(m: Mgr) {
    && (forall id <- m.calls ::
          && m.calls[id].id == id
          && GoodCall(m.calls[id])
          && m.calls[id].caller in m.byUser && m.byUser[m.calls[id].caller] == id
          && m.calls[id].callee in m.byUser && m.byUser[m.calls[id].callee] == id)
    && Pointed(m)
    && (forall u <- m.byUser :: m.calls[m.byUser[u]].Has(u))
  }

  /** The part of the invariant that following a pointer needs. */
  ghost predicate Pointed(m: Mgr) {
    forall u <- m.byUser :: m.byUser[u] in m.calls
  }

  // ---- critical sections ----

  /** The starts of the last minute, oldest first. */
  function Recent(ts: seq<Time>, now: Time): (r: seq<Time>)
    ensures forall t :: t in r <==> t in ts && now - t < MINUTE
    ensures |r| <= |ts|
  {
    if ts == [] then []
    else
      var rest := Recent(ts[..|ts| - 1], now);
      var last := ts[|ts| - 1];
      assert ts == ts[..|ts| - 1] + [last];
      if now - last < MINUTE then rest + [last] else rest
  }

  function StartsOf(starts: map<Id, seq<Time>>, u: Id): seq<Time> {
    if u in starts then starts[u] else []
  }

  function AllowStart(starts: map<Id, seq<Time>>, u: Id, now: Time): (bool, map<Id, seq<Time>>) {
    var recent := Recent(StartsOf(starts, u), now);
    if |recent| >= STARTS_PER_MINUTE then (false, starts[u := recent])
    else
      var next := starts[u := recent + [now]];
      (true, if |next| > MAX_STARTERS then map[] else next)
  }

  function Fail(m: Mgr, to: Conn, id: Id, code: Code): Out {
    Out(m, [ToConn(to, ErrorMsg(id, code))])
  }

  function NewCall(from: Conn, to: Id, now: Time, id: Id): Call {
    Call(id, from.user, to, from.id, NIL, false, now, 0, {}, map[])
  }

  /** start, from the lock on. */
  function StartCall(m: Mgr, from: Conn, to: Id, now: Time, id: Id): Out
  {
    var (ok, starts) := AllowStart(m.starts, from.user, now);
    var m := m.(starts := starts);
    if !ok then Fail(m, from, NIL, RateLimited)
    else if from.user in m.byUser then Fail(m, from, NIL, InCall)
    else if to in m.byUser then
      Out(m, [Insert(id, from.user, to, Closed(Busy), now), ToConn(from, EndedMsg(id, Busy, 0))])
    else
      Out(m.(calls := m.calls[id := NewCall(from, to, now, id)], byUser := m.byUser[from.user := id][to := id]),
          [Arm(id, Missed, RING_TIMEOUT),
           Insert(id, from.user, to, Ringing, now),
           ToConn(from, RingingMsg(id, to)),
           ToUser(to, IncomingMsg(id, from.user))])
  }

  /** start: `friends` and `left` are the answers of the two lookups made before the lock (None: an error). */
  function Start(m: Mgr, from: Conn, to: Id, friends: Option<bool>, left: Option<Time>, now: Time, id: Id): Out
  {
    if to == NIL || to == from.user then Fail(m, from, NIL, BadRequest)
    else if friends.None? then Fail(m, from, NIL, Unavailable)
    else if !friends.value then Fail(m, from, NIL, NotFriends)
    else if left.None? then Fail(m, from, NIL, Unavailable)
    else if left.value <= 0 then Fail(m, from, NIL, OverLimit)
    else StartCall(m, from, to, now, id)
  }

  /** accept, up to its second lock; leftCaller and leftCallee answer the two log queries. */
  function Peek(m: Mgr, from: Conn, id: Id, now: Time, leftCaller: Option<Time>, leftCallee: Option<Time>): Out
  {
    if id in m.calls && m.calls[id].callee == from.user then
      if leftCaller.None? || leftCallee.None? then Fail(m, from, id, Unavailable)
      else
        var limit := Min(Min(MAX_DURATION, leftCaller.value), leftCallee.value);
        Out(m, if limit <= 0 then [Then(id, DailyLimit)] else [Offer(from, id, now, limit)])
    else
      Out(m, [Offer(from, id, now, MAX_DURATION)])
  }

  /** accept, from its second lock on. */
  function Commit(m: Mgr, from: Conn, id: Id, at: Time, limit: Time): Out
  {
    if id !in m.calls || m.calls[id].callee != from.user || m.calls[id].active then
      Fail(m, from, id, UnknownCall)
    else
      var c := m.calls[id].(active := true, calleeConn := from.id, answered := at);
      Out(m.(calls := m.calls[id := c]),
          [Arm(id, if limit < MAX_DURATION then DailyLimit else Ended, limit),
           Answer(id, at),
           ToConn(Conn(c.caller, c.callerConn), AcceptedMsg(id)),
           ToOthers(from.user, from.id, EndedMsg(id, Elsewhere, 0))])
  }

  function Signal(m: Mgr, from: Conn, id: Id, data: string, valid: bool): Out
  {
    if |data| == 0 || |data| > MAX_SIGNAL_BYTES || !valid then Fail(m, from, id, BadRequest)
    else if id !in m.calls || !m.calls[id].active || !m.calls[id].Has(from.user)
            || m.calls[id].ConnOf(from.user) != from.id then
      Fail(m, from, id, UnknownCall)
    else
      var was := m.calls[id];
      var c := was.(signals := was.signals[from.user := was.Signals(from.user) + 1]);
      var m := m.(calls := m.calls[id := c]);
      if c.Signals(from.user) > MAX_SIGNALS then Fail(m, from, id, RateLimited)
      else
        var peer := c.Peer(from.user);
        Out(m, [ToConn(Conn(peer, c.ConnOf(peer)), RelayMsg(id, from.user, data))])
  }

  function HangUp(m: Mgr, from: Conn, id: Id): Out
  {
    if id !in m.calls || !m.calls[id].Has(from.user) then Fail(m, from, id, UnknownCall)
    else
      Out(m, [Then(id,
        if m.calls[id].active then Ended
        else if from.user == m.calls[id].caller then Cancelled
        else Declined)])
  }

  /** What the log says about a call that ends for `reason`. */
  function FinalState(active: bool, reason: Reason): LogState {
    if active then Closed(Ended)
    else if reason in {Disconnected, Unfriended, DailyLimit} then Failed
    else Closed(reason)
  }

  function Unlist(byUser: map<Id, Id>, u: Id, id: Id): map<Id, Id> {
    if u in byUser && byUser[u] == id then byUser - {u} else byUser
  }

  function End(m: Mgr, id: Id, reason: Reason, now: Time): Out
  {
    if id !in m.calls then Out(m, [])
    else
      var c := m.calls[id];
      var talked := if c.active then now - c.answered else 0;
      Out(m.(calls := m.calls - {id}, byUser := Unlist(Unlist(m.byUser, c.caller, id), c.callee, id)),
          [Finish(id, FinalState(c.active, reason), reason, now),
           ToUser(c.caller, EndedMsg(id, reason, talked)),
           ToUser(c.callee, EndedMsg(id, reason, talked))])
  }

  function Connected(m: Mgr, conn: Conn): Out
    requires Pointed(m)
  {
    if conn.user !in m.byUser then Out(m, [])
    else
      var c := m.calls[m.byUser[conn.user]];
      if !c.active then
        Out(m, if conn.user == c.callee then [ToConn(conn, IncomingMsg(c.id, c.caller))] else [])
      else if conn.user !in c.lost then Out(m, [])
      else
        var d := c.(lost := c.lost - {conn.user}).Bind(conn.user, conn.id);
        var peer := d.Peer(conn.user);
        Out(m.(calls := m.calls[c.id := d]),
            [ToConn(conn, ResumedMsg(c.id, peer)),
             ToConn(Conn(peer, d.ConnOf(peer)), ResumedMsg(c.id, conn.user))])
  }

  function Dropped(m: Mgr, conn: Conn): Out
    requires Pointed(m)
  {
    if conn.user !in m.byUser then Out(m, [])
    else
      var c := m.calls[m.byUser[conn.user]];
      if c.ConnOf(conn.user) != conn.id then Out(m, [])
      else if !c.active then Out(m, if conn.user == c.caller then [Then(c.id, Cancelled)] else [])
      else if conn.user in c.lost then Out(m, [])
      else
        Out(m.(calls := m.calls[c.id := c.(lost := c.lost + {conn.user})]),
            [Arm(c.id, Disconnected, RECONNECT_GRACE)])
  }

  function EndBetween(m: Mgr, a: Id, b: Id): Out
    requires Pointed(m)
  {
    if a in m.byUser && m.calls[m.byUser[a]].Peer(a) == b then Out(m, [Then(m.byUser[a], Unfriended)])
    else Out(m, [])
  }

  // ---- one request type for all of them ----

  datatype Req =
    | ReqStart(from: Conn, to: Id, friends: Option<bool>, left: Option<Time>, now: Time, id: Id)
    | ReqPeek(from: Conn, id: Id, now: Time, leftCaller: Option<Time>, leftCallee: Option<Time>)
    | ReqCommit(from: Conn, id: Id, at: Time, limit: Time)
    | ReqSignal(from: Conn, id: Id, data: string, valid: bool)
    | ReqHangUp(from: Conn, id: Id)
    | ReqEnd(id: Id, reason: Reason, now: Time)
    | ReqConnected(conn: Conn)
    | ReqDropped(conn: Conn)
    | ReqEndBetween(a: Id, b: Id)

  function Handle(m: Mgr, r: Req): Out
    requires Pointed(m)
  {
    match r
    case ReqStart(from, to, friends, left, now, id) => Start(m, from, to, friends, left, now, id)
    case ReqPeek(from, id, now, lr, le) => Peek(m, from, id, now, lr, le)
    case ReqCommit(from, id, at, limit) => Commit(m, from, id, at, limit)
    case ReqSignal(from, id, data, valid) => Signal(m, from, id, data, valid)
    case ReqHangUp(from, id) => HangUp(m, from, id)
    case ReqEnd(id, reason, now) => End(m, id, reason, now)
    case ReqConnected(conn) => Connected(m, conn)
    case ReqDropped(conn) => Dropped(m, conn)
    case ReqEndBetween(a, b) => EndBetween(m, a, b)
  }

  /** uuid.NewV7 never repeats an identifier. */
  predicate Fresh(m: Mgr, r: Req) {
    r.ReqStart? ==> r.id !in m.calls
  }

  /** Listing a call of two free users keeps the index. */
  lemma ListKeepsInv(m: Mgr, c: Call)
    requires Inv(m) && GoodCall(c) && c.id !in m.calls
    requires c.caller !in m.byUser && c.callee !in m.byUser
    ensures Inv(m.(calls := m.calls[c.id := c], byUser := m.byUser[c.caller := c.id][c.callee := c.id]))
  {
    hide GoodCall;
    forall k <- m.calls ensures !m.calls[k].Has(c.caller) && !m.calls[k].Has(c.callee) {}
  }

  lemma StartKeepsInv(m: Mgr, from: Conn, to: Id, now: Time, id: Id)
    requires Inv(m) && id !in m.calls && from.user != to
    ensures Inv(StartCall(m, from, to, now, id).mgr)
  {
    hide AllowStart;
    if from.user !in m.byUser && to !in m.byUser {
      var (ok, starts) := AllowStart(m.starts, from.user, now);
      ListKeepsInv(m.(starts := starts), NewCall(from, to, now, id));
    }
  }

  /** Replacing a call by one with the same two users keeps the index. */
  lemma UpdateKeepsInv(m: Mgr, id: Id, c: Call)
    requires Inv(m) && id in m.calls && GoodCall(c)
    requires c.id == id && c.caller == m.calls[id].caller && c.callee == m.calls[id].callee
    ensures Inv(m.(calls := m.calls[id := c]))
  {
  }

  lemma EndKeepsInv(m: Mgr, id: Id, reason: Reason, now: Time)
    requires Inv(m)
    ensures Inv(End(m, id, reason, now).mgr)
    ensures id in m.calls ==>
      var n := End(m, id, reason, now).mgr;
      n.calls.Keys == m.calls.Keys - {id} && n.byUser.Keys == m.byUser.Keys - {m.calls[id].caller, m.calls[id].callee}
  {
    if id in m.calls {
      var c, n := m.calls[id], End(m, id, reason, now).mgr;
      assert n.byUser.Keys == m.byUser.Keys - {c.caller, c.callee};
      assert n.calls.Keys == m.calls.Keys - {id};
      forall k <- n.calls ensures n.calls[k].caller in n.byUser && n.calls[k].callee in n.byUser {
        assert m.byUser[n.calls[k].caller] == k && m.byUser[n.calls[k].callee] == k;
      }
    }
  }

  lemma CommitKeepsInv(m: Mgr, from: Conn, id: Id, at: Time, limit: Time)
    requires Inv(m)
    ensures Inv(Commit(m, from, id, at, limit).mgr)
  {
    if id in m.calls {
      UpdateKeepsInv(m, id, m.calls[id].(active := true, calleeConn := from.id, answered := at));
    }
  }

  lemma SignalKeepsInv(m: Mgr, from: Conn, id: Id, data: string, valid: bool)
    requires Inv(m)
    ensures Inv(Signal(m, from, id, data, valid).mgr)
  {
    if id in m.calls && m.calls[id].active {
      var c := m.calls[id];
      UpdateKeepsInv(m, id, c.(signals := c.signals[from.user := c.Signals(from.user) + 1]));
    }
  }

  lemma ConnectedKeepsInv(m: Mgr, conn: Conn)
    requires Inv(m)
    ensures Inv(Connected(m, conn).mgr)
  {
    if conn.user in m.byUser {
      var c := m.calls[m.byUser[conn.user]];
      if c.active { UpdateKeepsInv(m, c.id, c.(lost := c.lost - {conn.user}).Bind(conn.user, conn.id)); }
    }
  }

  lemma DroppedKeepsInv(m: Mgr, conn: Conn)
    requires Inv(m)
    ensures Inv(Dropped(m, conn).mgr)
  {
    if conn.user in m.byUser {
      var c := m.calls[m.byUser[conn.user]];
      if c.active { UpdateKeepsInv(m, c.id, c.(lost := c.lost + {conn.user})); }
    }
  }

  /** Every critical section keeps the index invariant. */
  lemma HandleKeepsInv(m: Mgr, r: Req)
    requires Inv(m) && Fresh(m, r)
    ensures Inv(Handle(m, r).mgr)
  {
    match r
    case ReqStart(from, to, friends, left, now, id) =>
      if to != from.user { StartKeepsInv(m, from, to, now, id); }
    case ReqCommit(from, id, at, limit) => CommitKeepsInv(m, from, id, at, limit);
    case ReqSignal(from, id, data, valid) => SignalKeepsInv(m, from, id, data, valid);
    case ReqEnd(id, reason, now) => EndKeepsInv(m, id, reason, now);
    case ReqConnected(conn) => ConnectedKeepsInv(m, conn);
    case ReqDropped(conn) => DroppedKeepsInv(m, conn);
    case _ =>
  }

  /** Unfriending ends the call between the two, and no other call. */
  lemma UnfriendFindsTheirCall(m: Mgr, a: Id, b: Id, e: Effect)
    requires Inv(m)
    ensures Handle(m, ReqEndBetween(a, b)).mgr == m
    ensures e in Handle(m, ReqEndBetween(a, b)).effects <==>
      exists id <- m.calls :: e == Then(id, Unfriended) && a != b && m.calls[id].Has(a) && m.calls[id].Has(b)
  {
    if id :| id in m.calls && e == Then(id, Unfriended) && a != b && m.calls[id].Has(a) && m.calls[id].Has(b) {
      assert m.byUser[a] == id;
    }
  }

  lemma DropTwo(s: set<Id>, a: Id, b: Id)
    requires a in s && b in s && a != b
    ensures |s - {a, b}| == |s| - 2
  {
    assert s - {a, b} == s - {a} - {b};
  }

  /** The index holds exactly two entries per call. */
  lemma {:induction false} TwoEntriesPerCall(m: Mgr)
    requires Inv(m)
    ensures |m.byUser| == 2 * |m.calls|
    decreases |m.calls|
  {
    if m.calls == map[] {
      assert m.byUser == map[];
    } else {
      var id :| id in m.calls;
      var n := End(m, id, Missed, 0).mgr;
      EndKeepsInv(m, id, Missed, 0);
      DropTwo(m.byUser.Keys, m.calls[id].caller, m.calls[id].callee);
      TwoEntriesPerCall(n);
      assert |n.calls.Keys| == |m.calls.Keys| - 1;
    }
  }
}
