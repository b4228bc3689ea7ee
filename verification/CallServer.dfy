/**
 * The Manager of internal/calls/calls.go: `calls` and `byUser` point at shared mutable call records.
 * Each method is one critical section under `mu`; it returns what the handler does after unlocking.
 */
module CallServer {
  import opened Basics
  import M = CallManager
  import opened CallTypes = CallManager

  class CallRecord {
    const id: Id
    const caller: Id
    const callee: Id
    const started: Time
    var callerConn: Id
    var calleeConn: Id
    var active: bool
    var answered: Time
    var lost: set<Id>
    var signals: map<Id, int>

    constructor (id: Id, from: Conn, to: Id, now: Time)
      ensures Value() == M.NewCall(from, to, now, id)
    {
      this.id, caller, callee, started := id, from.user, to, now;
      callerConn, calleeConn, active, answered := from.id, NIL, false, 0;
      lost, signals := {}, map[];
    }

    function Value(): Call
      reads this
    {
      Call(id, caller, callee, callerConn, calleeConn, active, started, answered, lost, signals)
    }
  }

  class Manager {
    var calls: map<Id, CallRecord>
    var byUser: map<Id, CallRecord>
    var starts: map<Id, seq<Time>>

    ghost function Records(): map<Id, Call>
      reads this`calls, calls.Values
    {
      map id | id in calls :: calls[id].Value()
    }

    ghost function Index(): map<Id, Id>
      reads this`byUser
    {
      map u | u in byUser :: byUser[u].id
    }

    /** The manager as a value: records by content, pointers by call id. */
    ghost function View(): Mgr
      reads this, calls.Values
    {
      Mgr(Records(), Index(), starts)
    }

    /** Every pointer leads to a listed record of that user's call. */
    ghost predicate Valid()
      reads this
    {
      && (forall id <- calls :: calls[id].id == id)
      && (forall u <- byUser :: byUser[u].id in calls && calls[byUser[u].id] == byUser[u]
                                && (byUser[u].caller == u || byUser[u].callee == u))
    }

    /** Writing to one listed record changes one entry of the view. */
    twostate lemma Wrote(c: CallRecord)
      requires old(Valid()) && unchanged(this) && c in calls.Values
      requires forall id <- calls :: calls[id] != c ==> unchanged(calls[id])
      ensures Valid() && View() == old(View()).(calls := old(View()).calls[c.id := c.Value()])
    {
      assert calls[c.id] == c;
    }

    constructor ()
      ensures Valid() && View() == M.EMPTY
    {
      calls, byUser, starts := map[], map[], map[];
    }

    method AllowStart(u: Id, now: Time) returns (ok: bool)
      modifies this`starts
      ensures (ok, starts) == M.AllowStart(old(starts), u, now)
    {
      var all := if u in starts then starts[u] else [];
      var recent: seq<Time> := [];
      for i := 0 to |all|
        invariant recent == M.Recent(all[..i], now)
      {
        assert all[..i + 1][..i] == all[..i];
        if now - all[i] < M.MINUTE {
          recent := recent + [all[i]];
        }
      }
      assert all[..|all|] == all;
      if |recent| >= M.STARTS_PER_MINUTE {
        starts := starts[u := recent];
        return false;
      }
      starts := starts[u := recent + [now]];
      if |starts| > M.MAX_STARTERS {
        starts := map[];
      }
      return true;
    }

    /** m.calls[c.id] = c */
    method Put(c: CallRecord)
      requires Valid() && c.id !in calls
      modifies this`calls
      ensures Valid() && calls == old(calls)[c.id := c]
      ensures Records() == old(Records())[c.id := c.Value()]
    {
      calls := calls[c.id := c];
    }

    /** m.byUser[u] = c */
    method Point(u: Id, c: CallRecord)
      requires Valid() && c.id in calls && calls[c.id] == c && (u == c.caller || u == c.callee)
      modifies this`byUser
      ensures Valid() && Index() == old(Index())[u := c.id]
    {
      byUser := byUser[u := c];
    }

    method List(c: CallRecord)
      requires Valid() && c.id !in calls
      modifies this`calls, this`byUser
      ensures Valid() && calls == old(calls)[c.id := c]
      ensures Records() == old(Records())[c.id := c.Value()]
      ensures Index() == old(Index())[c.caller := c.id][c.callee := c.id]
    {
      Put(c);
      hide Valid, Index;
      Point(c.caller, c);
      Point(c.callee, c);
    }

    /** delete(m.byUser, u) if it points at c. */
    method Free(u: Id, c: CallRecord)
      requires forall v <- byUser :: byUser[v] == c || byUser[v].id != c.id
      modifies this`byUser
      ensures forall v <- byUser :: v in old(byUser) && byUser[v] == old(byUser)[v] && (v == u ==> byUser[v] != c)
      ensures forall v <- old(byUser) :: v in byUser || (v == u && old(byUser)[v] == c)
      ensures Index() == M.Unlist(old(Index()), u, c.id)
    {
      if u in byUser && byUser[u] == c {
        byUser := byUser - {u};
      }
    }

    method Unlist(c: CallRecord)
      requires Valid() && c in calls.Values
      modifies this`calls, this`byUser
      ensures Valid() && calls == old(calls) - {c.id}
      ensures View() == old(View()).(
        calls := old(View()).calls - {c.id},
        byUser := M.Unlist(M.Unlist(old(View()).byUser, c.caller, c.id), c.callee, c.id))
    {
      ghost var records: map<Id, Call> := Records();
      assert calls[c.id] == c;
      calls := calls - {c.id};
      assert Records() == records - {c.id};
      hide M.Unlist, CallRecord.Value;
      Free(c.caller, c);
      Free(c.callee, c);
    }

    method Start(from: Conn, to: Id, now: Time, id: Id) returns (effects: seq<Effect>)
      requires Valid() && id !in calls && from.user != to
      modifies this
      ensures Valid() && forall k <- calls :: k !in old(calls) ==> fresh(calls[k])
      ensures View() == M.StartCall(old(View()), from, to, now, id).mgr
      ensures effects == M.StartCall(old(View()), from, to, now, id).effects
    {
      var ok := AllowStart(from.user, now);
      hide M.AllowStart;
      if !ok {
        return [ToConn(from, ErrorMsg(NIL, RateLimited))];
      }
      if from.user in byUser {
        return [ToConn(from, ErrorMsg(NIL, InCall))];
      }
      if to in byUser {
        return [Insert(id, from.user, to, Closed(Busy), now), ToConn(from, EndedMsg(id, Busy, 0))];
      }
      var c := new CallRecord(id, from, to, now);
      assert Records() == old(Records()) && Index() == old(Index());
      List(c);
      effects := [Arm(id, Missed, M.RING_TIMEOUT),
                  Insert(id, from.user, to, Ringing, now),
                  ToConn(from, RingingMsg(id, to)),
                  ToUser(to, IncomingMsg(id, from.user))];
    }

    /** accept, from its second lock on. */
    method Commit(from: Conn, id: Id, at: Time, limit: Time) returns (effects: seq<Effect>)
      requires Valid()
      modifies calls.Values
      ensures Valid()
      ensures View() == M.Commit(old(View()), from, id, at, limit).mgr
      ensures effects == M.Commit(old(View()), from, id, at, limit).effects
    {
      if id !in calls || calls[id].callee != from.user || calls[id].active {
        return [ToConn(from, ErrorMsg(id, UnknownCall))];
      }
      var c := calls[id];
      c.active, c.calleeConn, c.answered := true, from.id, at;
      effects := [Arm(id, if limit < M.MAX_DURATION then DailyLimit else Ended, limit),
                  Answer(id, at),
                  ToConn(Conn(c.caller, c.callerConn), AcceptedMsg(id)),
                  ToOthers(from.user, from.id, EndedMsg(id, Elsewhere, 0))];
      Wrote(c);
    }

    method Signal(from: Conn, id: Id, data: string, valid: bool) returns (effects: seq<Effect>)
      requires Valid()
      modifies calls.Values
      ensures Valid()
      ensures View() == M.Signal(old(View()), from, id, data, valid).mgr
      ensures effects == M.Signal(old(View()), from, id, data, valid).effects
    {
      if |data| == 0 || |data| > M.MAX_SIGNAL_BYTES || !valid {
        return [ToConn(from, ErrorMsg(id, BadRequest))];
      }
      if id !in calls {
        return [ToConn(from, ErrorMsg(id, UnknownCall))];
      }
      var c := calls[id];
      if !c.active || (from.user != c.caller && from.user != c.callee)
         || (if from.user == c.caller then c.callerConn else c.calleeConn) != from.id {
        return [ToConn(from, ErrorMsg(id, UnknownCall))];
      }
      c.signals := c.signals[from.user := (if from.user in c.signals then c.signals[from.user] else 0) + 1];
      Wrote(c);
      if c.signals[from.user] > M.MAX_SIGNALS {
        return [ToConn(from, ErrorMsg(id, RateLimited))];
      }
      var peer := if from.user == c.caller then c.callee else c.caller;
      var conn := if peer == c.caller then c.callerConn else c.calleeConn;
      effects := [ToConn(Conn(peer, conn), RelayMsg(id, from.user, data))];
    }

    method HangUp(from: Conn, id: Id) returns (effects: seq<Effect>)
      requires Valid()
      ensures Out(View(), effects) == M.HangUp(View(), from, id)
    {
      if id !in calls || (from.user != calls[id].caller && from.user != calls[id].callee) {
        return [ToConn(from, ErrorMsg(id, UnknownCall))];
      }
      var c := calls[id];
      var reason := if c.active then Ended else if from.user == c.caller then Cancelled else Declined;
      return [Then(id, reason)];
    }

    method End(id: Id, reason: Reason, now: Time) returns (effects: seq<Effect>)
      requires Valid()
      modifies this
      ensures Valid() && calls.Values <= old(calls.Values)
      ensures View() == M.End(old(View()), id, reason, now).mgr
      ensures effects == M.End(old(View()), id, reason, now).effects
    {
      if id !in calls {
        return [];
      }
      var c := calls[id];
      Unlist(c);
      var talked := if c.active then now - c.answered else 0;
      effects := [Finish(id, M.FinalState(c.active, reason), reason, now),
                  ToUser(c.caller, EndedMsg(id, reason, talked)),
                  ToUser(c.callee, EndedMsg(id, reason, talked))];
    }

    method Connected(conn: Conn) returns (effects: seq<Effect>)
      requires Valid()
      modifies calls.Values
      ensures Valid()
      ensures View() == old(M.Connected(View(), conn)).mgr && effects == old(M.Connected(View(), conn)).effects
    {
      if conn.user !in byUser {
        return [];
      }
      var c := byUser[conn.user];
      assert c == calls[c.id];
      if !c.active {
        return if conn.user == c.callee then [ToConn(conn, IncomingMsg(c.id, c.caller))] else [];
      }
      if conn.user !in c.lost {
        return [];
      }
      c.lost := c.lost - {conn.user};
      if conn.user == c.caller {
        c.callerConn := conn.id;
      } else {
        c.calleeConn := conn.id;
      }
      var peer := if conn.user == c.caller then c.callee else c.caller;
      var peerConn := if peer == c.caller then c.callerConn else c.calleeConn;
      effects := [ToConn(conn, ResumedMsg(c.id, peer)),
                  ToConn(Conn(peer, peerConn), ResumedMsg(c.id, conn.user))];
      Wrote(c);
    }

    method Dropped(conn: Conn) returns (effects: seq<Effect>)
      requires Valid()
      modifies calls.Values
      ensures Valid()
      ensures View() == old(M.Dropped(View(), conn)).mgr && effects == old(M.Dropped(View(), conn)).effects
    {
      if conn.user !in byUser {
        return [];
      }
      var c := byUser[conn.user];
      assert c == calls[c.id];
      if (if conn.user == c.caller then c.callerConn else c.calleeConn) != conn.id {
        return [];
      }
      if !c.active {
        return if conn.user == c.caller then [Then(c.id, Cancelled)] else [];
      }
      if conn.user in c.lost {
        return [];
      }
      c.lost := c.lost + {conn.user};
      effects := [Arm(c.id, Disconnected, M.RECONNECT_GRACE)];
      Wrote(c);
    }

    method EndBetween(a: Id, b: Id) returns (effects: seq<Effect>)
      requires Valid()
      ensures Out(View(), effects) == M.EndBetween(View(), a, b)
    {
      if a !in byUser {
        return [];
      }
      var c := byUser[a];
      return if (if a == c.caller then c.callee else c.caller) == b then [Then(c.id, Unfriended)] else [];
    }
  }
}
