/**
 * What each critical section of internal/calls/calls.go does for the people involved: when a call rings, is
 * answered, relayed, ended, dropped and resumed, who is told, and which timer is armed.
 */
module CallRules {
  import opened Basics
  import opened CallManager

  /** Nothing happens to any call, and the device that asked is told why. */
  ghost predicate Refused(m: Mgr, o: Out, to: Conn, id: Id, code: Code) {
    o.mgr.calls == m.calls && o.mgr.byUser == m.byUser && o.effects == [ToConn(to, ErrorMsg(id, code))]
  }

  /** Two friends, both free, time left today, and fewer than ten starts in the last minute. */
  ghost predicate MayRing(m: Mgr, from: Conn, to: Id, friends: Option<bool>, left: Option<Time>, now: Time) {
    && to != NIL && to != from.user && friends == Some(true) && left.Some? && left.value > 0
    && |Recent(StartsOf(m.starts, from.user), now)| < 10
    && from.user !in m.byUser && to !in m.byUser
  }

  lemma AllowedWhen(starts: map<Id, seq<Time>>, u: Id, now: Time)
    ensures AllowStart(starts, u, now).0 <==> |Recent(StartsOf(starts, u), now)| < 10
  {
  }

  /** A call rings if and only if it may; then it belongs to both, its timer is armed, and both sides are told. */
  lemma StartRules(m: Mgr, from: Conn, to: Id, friends: Option<bool>, left: Option<Time>, now: Time, id: Id)
    requires Inv(m) && id !in m.calls
    ensures var o := Handle(m, ReqStart(from, to, friends, left, now, id));
      && (id in o.mgr.calls <==> MayRing(m, from, to, friends, left, now))
      && (forall k <- m.calls :: k in o.mgr.calls && o.mgr.calls[k] == m.calls[k])
      && (forall k <- o.mgr.calls :: k in m.calls || k == id)
      && (id in o.mgr.calls ==>
            var c := o.mgr.calls[id];
            && c.caller == from.user && c.callerConn == from.id && c.callee == to && !c.active && c.started == now
            && multiset(o.effects) == multiset{
                 Arm(id, Missed, 45 * SECOND), Insert(id, from.user, to, Ringing, now),
                 ToConn(from, RingingMsg(id, to)), ToUser(to, IncomingMsg(id, from.user))})
  {
    AllowedWhen(m.starts, from.user, now);
    hide Recent, AllowStart, StartsOf, Inv;
  }

  /** Why a call does not ring, in the order of the questions asked. */
  lemma StartRefusals(m: Mgr, from: Conn, to: Id, friends: Option<bool>, left: Option<Time>, now: Time, id: Id)
    requires Pointed(m) && !MayRing(m, from, to, friends, left, now)
    ensures var o := Handle(m, ReqStart(from, to, friends, left, now, id));
      var asked := to != NIL && to != from.user;
      var friendly, allowed := asked && friends == Some(true), |Recent(StartsOf(m.starts, from.user), now)| < 10;
      var timely := friendly && left.Some? && left.value > 0;
      && (!asked ==> Refused(m, o, from, NIL, BadRequest))
      && (asked && friends.None? ==> Refused(m, o, from, NIL, Unavailable))
      && (asked && friends == Some(false) ==> Refused(m, o, from, NIL, NotFriends))
      && (friendly && left.None? ==> Refused(m, o, from, NIL, Unavailable))
      && (friendly && left.Some? && left.value <= 0 ==> Refused(m, o, from, NIL, OverLimit))
      && (timely && !allowed ==> Refused(m, o, from, NIL, RateLimited))
      && (timely && allowed && from.user in m.byUser ==> Refused(m, o, from, NIL, InCall))
      && (timely && allowed && from.user !in m.byUser ==>
            && o.mgr.calls == m.calls && o.mgr.byUser == m.byUser
            && multiset(o.effects) == multiset{
                 Insert(id, from.user, to, Closed(Busy), now), ToConn(from, EndedMsg(id, Busy, 0))})
  {
    AllowedWhen(m.starts, from.user, now);
    hide Recent, AllowStart, StartsOf;
  }

  /** The limit offered is what the one with less time left has, up to the longest call; with none left the call ends. */
  lemma PeekRules(m: Mgr, from: Conn, id: Id, now: Time, leftCaller: Option<Time>, leftCallee: Option<Time>, limit: Time)
    requires Pointed(m) && id in m.calls && m.calls[id].callee == from.user && leftCaller.Some? && leftCallee.Some?
    requires limit <= 14400 * SECOND && limit <= leftCaller.value && limit <= leftCallee.value
    requires limit in {14400 * SECOND, leftCaller.value, leftCallee.value}
    ensures Handle(m, ReqPeek(from, id, now, leftCaller, leftCallee))
            == Out(m, [if limit <= 0 then Then(id, DailyLimit) else Offer(from, id, now, limit)])
  {
  }

  lemma PeekRefusals(m: Mgr, from: Conn, id: Id, now: Time, leftCaller: Option<Time>, leftCallee: Option<Time>)
    requires Pointed(m) && id in m.calls && m.calls[id].callee == from.user && (leftCaller.None? || leftCallee.None?)
    ensures Refused(m, Handle(m, ReqPeek(from, id, now, leftCaller, leftCallee)), from, id, Unavailable)
  {
  }

  /**
   * A ringing call is answered by its callee only, once, and for exactly the limit offered: the device is bound,
   * the timer armed, the log written, the caller's device told, and the callee's other devices stop ringing.
   */
  lemma AnswerRules(m: Mgr, from: Conn, id: Id, at: Time, limit: Time)
    requires Pointed(m)
    ensures var o := Handle(m, ReqCommit(from, id, at, limit));
      if id in m.calls && m.calls[id].callee == from.user && !m.calls[id].active then
        var c := m.calls[id];
        && o.mgr.calls == m.calls[id := c.(active := true, calleeConn := from.id, answered := at)]
        && o.mgr.byUser == m.byUser
        && multiset(o.effects) == multiset{
             Arm(id, if limit < 14400 * SECOND then DailyLimit else Ended, limit), Answer(id, at),
             ToConn(Conn(c.caller, c.callerConn), AcceptedMsg(id)),
             ToOthers(from.user, from.id, EndedMsg(id, Elsewhere, 0))}
      else Refused(m, o, from, id, UnknownCall)
  {
  }

  /** A well-formed signal from a bound device of an active call is counted, and relayed while the count allows. */
  lemma SignalRules(m: Mgr, from: Conn, id: Id, data: string, valid: bool)
    requires Pointed(m)
    ensures var o := Handle(m, ReqSignal(from, id, data, valid));
      var formed := 0 < |data| <= 16384 && valid;
      var bound := id in m.calls && m.calls[id].active && m.calls[id].Has(from.user) && m.calls[id].ConnOf(from.user) == from.id;
      && (!formed ==> Refused(m, o, from, id, BadRequest))
      && (formed && !bound ==> Refused(m, o, from, id, UnknownCall))
      && (formed && bound ==>
            var c := m.calls[id];
            var peer := c.Peer(from.user);
            && o.mgr.byUser == m.byUser && id in o.mgr.calls
            && o.mgr.calls == m.calls[id := c.(signals := o.mgr.calls[id].signals)]
            && o.mgr.calls[id].Signals(from.user) == c.Signals(from.user) + 1
            && (peer != from.user ==> o.mgr.calls[id].Signals(peer) == c.Signals(peer))
            && o.effects == [if c.Signals(from.user) < 500
                             then ToConn(Conn(peer, c.ConnOf(peer)), RelayMsg(id, from.user, data))
                             else ToConn(from, ErrorMsg(id, RateLimited))])
  {
  }

  /** Either side may hang up: before the answer the caller cancels and the callee declines, afterwards the call ends. */
  lemma HangUpRules(m: Mgr, from: Conn, id: Id)
    requires Inv(m)
    ensures var o := Handle(m, ReqHangUp(from, id));
      && (id !in m.calls || !m.calls[id].Has(from.user) ==> Refused(m, o, from, id, UnknownCall))
      && (id in m.calls && m.calls[id].active && m.calls[id].Has(from.user) ==> o == Out(m, [Then(id, Ended)]))
      && (id in m.calls && !m.calls[id].active && m.calls[id].caller == from.user ==> o == Out(m, [Then(id, Cancelled)]))
      && (id in m.calls && !m.calls[id].active && m.calls[id].callee == from.user ==> o == Out(m, [Then(id, Declined)]))
  {
  }

  /** An ended call is off the list and frees both users; both hear the reason and the time talked, and the log is closed. */
  lemma EndRules(m: Mgr, id: Id, reason: Reason, now: Time)
    requires Inv(m) && id in m.calls
    ensures var o, c := Handle(m, ReqEnd(id, reason, now)), m.calls[id];
      && o.mgr.calls == m.calls - {id} && o.mgr.byUser == m.byUser - {c.caller, c.callee}
      && exists state, talked ::
           && multiset(o.effects) == multiset{
                Finish(id, state, reason, now),
                ToUser(c.caller, EndedMsg(id, reason, talked)), ToUser(c.callee, EndedMsg(id, reason, talked))}
           && (c.active ==> state == Closed(Ended) && talked == now - c.answered)
           && (!c.active ==>
                 && talked == 0
                 && state == match reason
                             case Disconnected => Failed
                             case Unfriended => Failed
                             case DailyLimit => Failed
                             case _ => Closed(reason))
  {
    var o, c := Handle(m, ReqEnd(id, reason, now)), m.calls[id];
    var talked := if c.active then now - c.answered else 0;
    Unlisted(m, id);
    hide Inv, Unlist;
    assert multiset(o.effects) == multiset{
      Finish(id, FinalState(c.active, reason), reason, now),
      ToUser(c.caller, EndedMsg(id, reason, talked)), ToUser(c.callee, EndedMsg(id, reason, talked))};
  }

  lemma Unlisted(m: Mgr, id: Id)
    requires Inv(m) && id in m.calls
    ensures var c := m.calls[id]; Unlist(Unlist(m.byUser, c.caller, id), c.callee, id) == m.byUser - {c.caller, c.callee}
  {
  }

  lemma EndOfNothing(m: Mgr, id: Id, reason: Reason, now: Time)
    requires Pointed(m) && id !in m.calls
    ensures Handle(m, ReqEnd(id, reason, now)) == Out(m, [])
  {
  }

  /**
   * A device that comes back takes over a lost side and both ends are told to resume; a ringing callee's new
   * device rings too; nothing else happens.
   */
  lemma ReconnectRules(m: Mgr, conn: Conn)
    requires Inv(m)
    ensures var o, u := Handle(m, ReqConnected(conn)), conn.user;
      && (u !in m.byUser ==> o == Out(m, []))
      && (u in m.byUser ==>
            var c := m.calls[m.byUser[u]];
            && (!c.active && u == c.callee ==> o == Out(m, [ToConn(conn, IncomingMsg(c.id, c.caller))]))
            && (!c.active && u == c.caller ==> o == Out(m, []))
            && (c.active && u !in c.lost ==> o == Out(m, []))
            && (c.active && u in c.lost ==>
                  && o.mgr.byUser == m.byUser && c.id in o.mgr.calls
                  && var d, peer := o.mgr.calls[c.id], c.Peer(u);
                     && o.mgr.calls == m.calls[c.id := d]
                     && d == c.(lost := c.lost - {u}, callerConn := d.callerConn, calleeConn := d.calleeConn)
                     && d.ConnOf(u) == conn.id && d.ConnOf(peer) == c.ConnOf(peer)
                     && multiset(o.effects) == multiset{
                          ToConn(conn, ResumedMsg(c.id, peer)),
                          ToConn(Conn(peer, c.ConnOf(peer)), ResumedMsg(c.id, u))}))
  {
  }

  /**
   * A bound device that goes away cancels a call it is ringing out, and in an active call starts the grace period
   * of its side, once; any other device changes nothing.
   */
  lemma DropRules(m: Mgr, conn: Conn)
    requires Inv(m)
    ensures var o, u := Handle(m, ReqDropped(conn)), conn.user;
      var bound := u in m.byUser && m.calls[m.byUser[u]].ConnOf(u) == conn.id;
      && (!bound ==> o == Out(m, []))
      && (bound ==>
            var c := m.calls[m.byUser[u]];
            && (!c.active && u == c.caller ==> o == Out(m, [Then(c.id, Cancelled)]))
            && (!c.active && u == c.callee ==> o == Out(m, []))
            && (c.active && u in c.lost ==> o == Out(m, []))
            && (c.active && u !in c.lost ==>
                  && o.effects == [Arm(c.id, Disconnected, 30 * SECOND)]
                  && o.mgr.byUser == m.byUser && o.mgr.calls == m.calls[c.id := c.(lost := c.lost + {u})]))
  {
  }

  /** Only a start that gets as far as the lock is counted against the starts of its caller. */
  lemma StartsCounted(m: Mgr, r: Req)
    requires Pointed(m)
    ensures Handle(m, r).mgr.starts ==
      if r.ReqStart? && r.to != NIL && r.to != r.from.user && r.friends == Some(true) && r.left.Some? && r.left.value > 0
      then AllowStart(m.starts, r.from.user, r.now).1
      else m.starts
  {
    hide AllowStart;
  }
}
