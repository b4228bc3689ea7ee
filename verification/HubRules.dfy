/** What each operation of the hub does in any run: to the connections named, and to nobody else. */
module HubRules {
  import opened Basics
  import H = Hub
  import opened HubTypes = Hub
  import opened HubRuns

  /** Nobody but those named has another list of connections. */
  ghost predicate ListsKept(s: State, n: State, but: Id) {
    forall v :: v != but ==> (v in n.clients <==> v in s.clients) && ListOf(n.clients, v) == ListOf(s.clients, v)
  }

  /** The channels are the same ones; exactly those of `closing` are closed now, and nothing is in or out of a queue. */
  ghost predicate Closing(s: State, n: State, closing: set<Id>) {
    && n.chans.Keys == s.chans.Keys
    && forall c <- s.chans :: n.chans[c] == if c in closing then s.chans[c].(open := false) else s.chans[c]
  }

  lemma Push(es: seq<Event>, e: Event)
    ensures Exec(es + [e]) == Step(Exec(es), e)
  {
    assert (es + [e])[..|es|] == es;
  }

  // ---- coming and going ----

  /**
   * Disconnect cuts a user off: every channel of theirs is closed and they have no list; everyone else keeps
   * theirs; and the last thing decided about the user, if anything ever was, is that they are offline.
   */
  lemma DisconnectCutsOff(es: seq<Event>, u: Id)
    ensures var s, n := Exec(es).state, Exec(es + [Disconnect(u)]).state;
      && u !in n.clients && ListsKept(s, n, u)
      && Closing(s, n, set c <- s.chans | s.chans[c].user == u)
    ensures var d := Decisions(Exec(es + [Disconnect(u)]).trace, u); d != [] ==> !d[|d| - 1]
  {
    var s := Exec(es).state;
    ExecChannels(es);
    PresenceAlternates(es + [Disconnect(u)], u);
    Push(es, Disconnect(u));
    hide Exec, Decisions, Farewells;
    if u in s.clients { assert GoodList(s, u, s.clients[u]); }
  }

  /** After that nothing reaches the user's channels, whatever happens, until they register again with a new one. */
  lemma StaysCutOff(es: seq<Event>, u: Id, more: seq<Event>, c: Id)
    requires c in Exec(es).state.chans && Exec(es).state.chans[c].user == u
    ensures var t := Exec(es + [Disconnect(u)]).trace;
      forall i :: 0 <= i < |Exec(es + [Disconnect(u)] + more).trace| && i >= |t| ==>
        var a := Exec(es + [Disconnect(u)] + more).trace[i]; !(a.Write? && a.c == c)
    ensures Exec(es + [Disconnect(u)]).trace <= Exec(es + [Disconnect(u)] + more).trace
  {
    var now, later := es + [Disconnect(u)], es + [Disconnect(u)] + more;
    TraceExtends(now, more);
    DisconnectCutsOff(es, u);
    ExecChannels(now);
    var t, l := Exec(now).trace, Exec(later).trace;
    assert Close(c) in t;
    var k :| 0 <= k < |t| && t[k] == Close(c);
    hide Exec;
    forall i | |t| <= i < |l| ensures !(l[i].Write? && l[i].c == c) {
      assert l[k] == t[k];
      NeverAfterClose(later, k, i);
    }
  }

  lemma {:induction false} TraceExtends(es: seq<Event>, more: seq<Event>)
    ensures Exec(es).trace <= Exec(es + more).trace
    decreases |more|
  {
    if more == [] {
      assert es + more == es;
    } else {
      TraceExtends(es, more[..|more| - 1]);
      assert (es + more)[..|es + more| - 1] == es + more[..|more| - 1];
    }
  }

  /** remove closes one channel and takes that client, and nobody else, off its list. */
  lemma RemoveTakesOne(es: seq<Event>, c: Id)
    ensures var s, n := Exec(es).state, Exec(es + [Remove(c)]).state;
      if c !in s.chans then n == s
      else
        var was, rest := ListOf(s.clients, s.chans[c].user), ListOf(n.clients, s.chans[c].user);
        && Closing(s, n, {c}) && ListsKept(s, n, s.chans[c].user)
        && (forall i :: 0 <= i < |was| && was[i] == c ==> rest == was[..i] + was[i + 1..])
        && (c !in was ==> rest == was)
  {
    var s := Exec(es).state;
    ExecChannels(es);
    Push(es, Remove(c));
    hide Exec, Without;
    if c in s.chans && c in ListOf(s.clients, s.chans[c].user) {
      var was := s.clients[s.chans[c].user];
      assert GoodList(s, s.chans[c].user, was);
      forall i | 0 <= i < |was| && was[i] == c ensures Without(was, c) == was[..i] + was[i + 1..] { WithoutAt(was, i); }
    }
  }

  /** A new client goes to the end of its user's list, open and empty; the oldest of six goes. */
  lemma RegisterRules(es: seq<Event>, c: Id, u: Id)
    requires c !in Exec(es).state.chans
    ensures var s, n := Exec(es).state, Exec(es + [Register(c, u)]).state;
      var was := ListOf(s.clients, u);
      && c in n.chans && n.chans[c] == Client(u, true, [])
      && ListsKept(s, n, u)
      && ListOf(n.clients, u) == (if |was| < 5 then was else was[1..]) + [c]
      && Closing(s, n.(chans := n.chans - {c}), if |was| == 5 then {was[0]} else {})
  {
    var s := Exec(es).state;
    ExecChannels(es);
    Push(es, Register(c, u));
    hide Exec;
    if u in s.clients {
      assert GoodList(s, u, s.clients[u]);
      if |s.clients[u]| == 5 { assert (s.clients[u] + [c])[1..] == s.clients[u][1..] + [c]; }
    }
  }

  // ---- what the call manager is told ----

  /** Every close is followed by the report that the connection is gone, and nothing else is reported gone. */
  ghost predicate Paired(acts: seq<Act>) {
    && (forall i :: 0 <= i < |acts| && acts[i].Close? ==> i + 1 < |acts| && acts[i + 1] == Gone(acts[i].c))
    && (forall i :: 0 <= i < |acts| && acts[i].Gone? ==> i > 0 && acts[i - 1] == Close(acts[i].c))
  }

  lemma PairedConcat(a: seq<Act>, b: seq<Act>)
    requires Paired(a) && Paired(b)
    ensures Paired(a + b)
  {
    forall i | 0 <= i < |a + b| && (a + b)[i].Gone? ensures i > 0 && (a + b)[i - 1] == Close((a + b)[i].c) {
      if i >= |a| { assert b[i - |a|].Gone?; }
    }
  }

  lemma {:induction false} FarewellsPaired(list: seq<Id>)
    ensures Paired(Farewells(list))
    ensures forall a <- Farewells(list) :: !a.Came?
  {
    if list != [] {
      var n := |list| - 1;
      FarewellsPaired(list[..n]);
      PairedConcat(Farewells(list[..n]), [Close(list[n]), Gone(list[n])]);
    }
  }

  lemma QuietIsPaired(acts: seq<Act>)
    requires forall a <- acts :: !a.Close? && !a.Gone?
    ensures Paired(acts)
  {
  }

  lemma {:induction false} OfferReports(s: State, list: seq<Id>, msg: string)
    ensures forall a <- Offer(s, list, msg).acts :: a.Write? || a.Skip?
    decreases |list|
  {
    if list != [] { OfferReports(s, list[..|list| - 1], msg); }
  }

  lemma {:induction false} OfferKeepsChannels(s: State, list: seq<Id>, msg: string)
    ensures Offer(s, list, msg).state.chans.Keys == s.chans.Keys
    decreases |list|
  {
    if list != [] { OfferKeepsChannels(s, list[..|list| - 1], msg); }
  }

  /** The connections one critical section reports as come are the new ones, once each. */
  ghost predicate Reported(s: State, o: Out) {
    && Paired(o.acts)
    && s.chans.Keys <= o.state.chans.Keys
    && (forall c :: Came(c) in o.acts <==> c in o.state.chans && c !in s.chans)
    && (forall i, j :: 0 <= i < j < |o.acts| && o.acts[i].Came? ==> o.acts[j] != o.acts[i])
  }

  lemma RegisterReports(s: State, c: Id, u: Id)
    requires c !in s.chans
    ensures Reported(s, H.Register(s, c, u))
  {
    var acts := H.Register(s, c, u).acts;
    assert acts[|acts| - 1] == Came(c);
  }

  lemma DisconnectReports(s: State, u: Id)
    ensures Reported(s, H.Disconnect(s, u))
  {
    FarewellsPaired(ListOf(s.clients, u));
    PairedConcat(Farewells(ListOf(s.clients, u)), [Presence(u, false)]);
    hide Farewells;
  }

  lemma OffersReport(s: State, list: seq<Id>, msg: string)
    ensures Reported(s, Offer(s, list, msg))
  {
    OfferReports(s, list, msg);
    QuietIsPaired(Offer(s, list, msg).acts);
    OfferKeepsChannels(s, list, msg);
    hide Offer;
  }

  lemma HandleReports(s: State, e: Event)
    ensures Reported(s, Handle(s, e))
  {
    hide Offer, Audience, Except, Only, Without, Farewells;
    if e.Register? {
      if e.c !in s.chans { RegisterReports(s, e.c, e.user); }
    } else if e.Disconnect? {
      DisconnectReports(s, e.user);
      hide Reported;
    } else if e.Send? || e.SendToConn? || e.SendExcept? {
      OffersReport(s, Recipients(s, e), e.msg);
      hide Reported;
    }
  }

  lemma NewAreRegistered(s: State, e: Event, c: Id)
    requires c in Handle(s, e).state.chans && c !in s.chans
    ensures e.Register? && e.c == c && Handle(s, e).state.chans[c].queued == []
  {
    hide Offer, Audience, Except, Only, Without, Farewells;
    if e.Send? || e.SendToConn? || e.SendExcept? { OfferKeepsChannels(s, Recipients(s, e), e.msg); }
  }

  /** Whatever was reported gone was just closed, and the other way round; connections come once, when they register. */
  lemma {:induction false} ReportsAreTrue(es: seq<Event>)
    ensures var s := Exec(es);
      && Paired(s.trace)
      && (forall c :: Came(c) in s.trace <==> c in s.state.chans)
      && (forall i, j :: 0 <= i < j < |s.trace| && s.trace[i].Came? ==> s.trace[j] != s.trace[i])
  {
    if es != [] {
      var s, e := Exec(es[..|es| - 1]), es[|es| - 1];
      ReportsAreTrue(es[..|es| - 1]);
      HandleReports(s.state, e);
      PairedConcat(s.trace, Handle(s.state, e).acts);
      assert Exec(es) == Step(s, e);
      hide Exec, Handle, Paired;
      var acts, t := Handle(s.state, e).acts, Step(s, e).trace;
      forall i, j | 0 <= i < j < |t| && t[i].Came? ensures t[j] != t[i] {
        if i < |s.trace| {
          assert t[i] == Came(t[i].c) && t[i] in s.trace;
          if j >= |s.trace| { assert t[j] == acts[j - |s.trace|] && t[j] in acts; }
        } else {
          assert t[i] == acts[i - |s.trace|] && t[j] == acts[j - |s.trace|];
        }
      }
    }
  }

  // ---- delivery ----

  /** The events written to a connection, in order. */
  function Written(acts: seq<Act>, c: Id): seq<string> {
    if acts == [] then []
    else
      var last := acts[|acts| - 1];
      Written(acts[..|acts| - 1], c) + if last.Write? && last.c == c then [last.msg] else []
  }

  lemma {:induction false} WrittenConcat(a: seq<Act>, b: seq<Act>, c: Id)
    ensures Written(a + b, c) == Written(a, c) + Written(b, c)
    decreases |b|
  {
    if b == [] {
      assert a + b == a;
    } else {
      WrittenConcat(a, b[..|b| - 1], c);
      assert (a + b)[..|a + b| - 1] == a + b[..|b| - 1];
    }
  }

  lemma {:induction false} NothingWritten(acts: seq<Act>, c: Id)
    requires forall a <- acts :: !a.Write?
    ensures Written(acts, c) == []
  {
    if acts != [] { NothingWritten(acts[..|acts| - 1], c); }
  }

  lemma {:induction false} OfferQueues(s: State, list: seq<Id>, msg: string, c: Id)
    requires c in s.chans
    ensures var o := Offer(s, list, msg); c in o.state.chans && o.state.chans[c].queued == s.chans[c].queued + Written(o.acts, c)
    decreases |list|
  {
    if list != [] {
      var n := |list| - 1;
      OfferQueues(s, list[..n], msg, c);
      var o := Offer(s, list[..n], msg);
      WrittenConcat(o.acts, OfferOne(o.state, list[n], msg).acts, c);
    }
  }

  /** One critical section adds to a queue what it writes to that connection. */
  lemma HandleQueues(s: State, e: Event, c: Id)
    requires c in s.chans && !e.Drain?
    ensures var o := Handle(s, e); c in o.state.chans && o.state.chans[c].queued == s.chans[c].queued + Written(o.acts, c)
  {
    hide Offer, Audience, Except, Only, Without, Farewells, Written;
    match e
    case Register(_, u) => NothingWritten(Handle(s, e).acts, c);
    case Remove(_) => NothingWritten(Handle(s, e).acts, c);
    case Disconnect(u) =>
      FarewellsQuiet(ListOf(s.clients, u));
      NothingWritten(Handle(s, e).acts, c);
    case Drain(_) =>
    case _ => OfferQueues(s, Recipients(s, e), e.msg, c);
  }

  lemma {:induction false} FarewellsQuiet(list: seq<Id>)
    ensures forall a <- Farewells(list) :: !a.Write?
  {
    if list != [] { FarewellsQuiet(list[..|list| - 1]); }
  }

  /** What is queued is the end of what was written. */
  ghost predicate InOrder(queued: seq<string>, written: seq<string>) {
    |queued| <= |written| && queued == written[|written| - |queued|..]
  }

  lemma OrderKept(queued: seq<string>, written: seq<string>, more: seq<string>)
    requires InOrder(queued, written)
    ensures InOrder(queued + more, written + more)
  {
  }

  /** In every run a queue holds the latest of what was written to its connection, in the order it was written. */
  lemma {:induction false} QueuesAreInOrder(es: seq<Event>, c: Id)
    requires c in Exec(es).state.chans
    ensures InOrder(Exec(es).state.chans[c].queued, Written(Exec(es).trace, c))
  {
    if es != [] {
      var s, e := Exec(es[..|es| - 1]), es[|es| - 1];
      assert Exec(es) == Step(s, e);
      if c !in s.state.chans {
        NewAreRegistered(s.state, e, c);
        hide Written;
      } else {
        QueuesAreInOrder(es[..|es| - 1], c);
        hide Exec;
        WrittenConcat(s.trace, Handle(s.state, e).acts, c);
        if !e.Drain? {
          hide Handle, InOrder, Written;
          HandleQueues(s.state, e, c);
          OrderKept(s.state.chans[c].queued, Written(s.trace, c), Written(Handle(s.state, e).acts, c));
        }
      }
    }
  }

  /** The writer takes all of it, and nothing else is ever taken. */
  lemma DrainTakesAll(es: seq<Event>, c: Id, x: Id)
    requires x in Exec(es).state.chans
    ensures var s, n := Exec(es), Exec(es + [Drain(c)]);
      && x in n.state.chans && n.trace == s.trace && n.state.clients == s.state.clients
      && n.state.chans[x] == s.state.chans[x].(queued := if x == c then [] else s.state.chans[x].queued)
  {
    Push(es, Drain(c));
  }

  /** SendToConn writes to that one connection if it is still listed for the user and has room, and says which it was. */
  lemma SendToConnRules(es: seq<Event>, u: Id, c: Id, msg: string, x: Id)
    requires x in Exec(es).state.chans
    ensures var s, o := Exec(es).state, H.SendToConn(Exec(es).state, u, c, msg);
      && x in o.state.chans
      && o.state.chans[x] == s.chans[x].(queued :=
           s.chans[x].queued + if x == c && s.chans[x].open && s.chans[x].user == u && |s.chans[x].queued| < 256 then [msg] else [])
      && (x == c ==>
            o.acts == if !s.chans[c].open || s.chans[c].user != u then []
                      else if |s.chans[c].queued| < 256 then [Write(c, msg)] else [Skip(c)])
  {
    var s := Exec(es).state;
    ExecChannels(es);
    hide Exec;
    if u in s.clients { assert GoodList(s, u, s.clients[u]); }
    OfferSingle(s, c, msg);
    assert Offer(s, [], msg) == Out(s, []);
    hide Offer;
    if x != c && c in ListOf(s.clients, u) { assert s.chans[x].queued + [] == s.chans[x].queued; }
  }

  lemma OfferSingle(s: State, c: Id, msg: string)
    ensures Offer(s, [c], msg) == OfferOne(s, c, msg)
  {
    assert [c][..0] == [];
  }

  /** WriteToUserExcept reaches every connection of the user but one, once, as far as there is room; nobody else. */
  lemma SendExceptRules(es: seq<Event>, u: Id, c: Id, msg: string, x: Id)
    requires x in Exec(es).state.chans
    ensures var s, o := Exec(es).state, H.SendExcept(Exec(es).state, u, c, msg);
      && x in o.state.chans
      && o.state.chans[x] == s.chans[x].(queued :=
           s.chans[x].queued + if x != c && s.chans[x].open && s.chans[x].user == u && |s.chans[x].queued| < 256 then [msg] else [])
  {
    var s := Exec(es).state;
    ExecChannels(es);
    hide Exec;
    var list := ListOf(s.clients, u);
    if u in s.clients { assert GoodList(s, u, list); }
    OfferExact(s, Except(list, c), msg, x);
    ExceptCount(list, c, x);
    CountDistinct(list, x);
    RepeatOnce(msg);
    hide Offer, Except;
  }

  lemma RepeatOnce(msg: string)
    ensures Repeat(msg, 0) == [] && Repeat(msg, 1) == [msg]
  {
    assert Repeat(msg, 0) == [];
  }

  lemma {:induction false} ExceptCount(list: seq<Id>, c: Id, x: Id)
    ensures Count(Except(list, c), x) == if x == c then 0 else Count(list, x)
  {
    if list != [] {
      var n := |list| - 1;
      ExceptCount(list[..n], c, x);
      var more := if list[n] == c then [] else [list[n]];
      CountConcat(Except(list[..n], c), more, x);
    }
  }
}
