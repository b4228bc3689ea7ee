/** Whole runs of the websocket hub: registrations, removals, bans and sends in any order. */
module HubRuns {
  import opened Basics
  import H = Hub
  import opened HubTypes = Hub

  datatype Sys = Sys(state: State, trace: seq<Act>)

  /** Remove happens for an unregistering client, and later on for every client a send found full. */
  datatype Event =
    | Register(c: Id, user: Id)
    | Remove(c: Id)
    | Disconnect(user: Id)
    | Send(targets: seq<Id>, msg: string)
    | SendToConn(user: Id, c: Id, msg: string)
    | SendExcept(user: Id, c: Id, msg: string)
    | Drain(c: Id)

  const INIT: Sys := Sys(EMPTY, [])

  function Handle(s: State, e: Event): Out {
    match e
    case Register(c, u) => if c in s.chans then Out(s, []) else H.Register(s, c, u)   // connection ids never repeat
    case Remove(c) => H.Remove(s, c)
    case Disconnect(u) => H.Disconnect(s, u)
    case Send(targets, msg) => H.Send(s, targets, msg)
    case SendToConn(u, c, msg) => H.SendToConn(s, u, c, msg)
    case SendExcept(u, c, msg) => H.SendExcept(s, u, c, msg)
    case Drain(c) => Out(H.Drain(s, c), [])
  }

  function Step(s: Sys, e: Event): Sys {
    var o := Handle(s.state, e);
    Sys(o.state, s.trace + o.acts)
  }

  function Exec(es: seq<Event>): Sys {
    if es == [] then INIT else Step(Exec(es[..|es| - 1]), es[|es| - 1])
  }

  // ---- channels ----

  /** What one critical section does to the channels: it closes open ones, once each, and writes only to open ones. */
  ghost predicate Tidy(s: State, o: Out) {
    && (forall c <- s.chans :: c in o.state.chans && (o.state.chans[c].open ==> s.chans[c].open))
    && (forall c <- s.chans :: s.chans[c].open && !o.state.chans[c].open ==> Close(c) in o.acts)
    && (forall i :: 0 <= i < |o.acts| ==> TidyAct(s, o.state, o.acts[i]))
    && (forall i, j :: 0 <= i < j < |o.acts| && o.acts[i].Close? ==> o.acts[j] != o.acts[i])
    && (forall c <- o.state.chans :: c !in s.chans ==> o.state.chans[c].open)
  }

  ghost predicate TidyAct(s: State, n: State, a: Act) {
    && (a.Close? ==> a.c in s.chans && a.c in n.chans && s.chans[a.c].open && !n.chans[a.c].open)
    && (a.Write? ==> a.c in s.chans && a.c in n.chans && s.chans[a.c].open && n.chans[a.c].open)
  }

  lemma RegisterTidy(s: State, c: Id, u: Id)
    requires Inv(s) && c !in s.chans
    ensures Tidy(s, H.Register(s, c, u))
  {
    if u in s.clients { assert GoodList(s, u, s.clients[u]); }
    var o, list := H.Register(s, c, u), ListOf(s.clients, u) + [c];
    if |list| > MAX_DEVICES {
      assert o.acts[0] == Close(list[0]) && list[0] in s.clients[u];
    }
  }

  lemma RemoveTidy(s: State, c: Id)
    requires Inv(s)
    ensures Tidy(s, H.Remove(s, c))
  {
    hide Without;
    if c in s.chans && c in ListOf(s.clients, s.chans[c].user) {
      assert GoodList(s, s.chans[c].user, s.clients[s.chans[c].user]);
      assert H.Remove(s, c).acts[0] == Close(c);
    }
  }

  lemma {:induction false} FarewellsExact(list: seq<Id>)
    requires Distinct(list)
    ensures forall a <- Farewells(list) :: (a.Close? || a.Gone?) && a.c in list
    ensures forall c <- list :: Close(c) in Farewells(list)
    ensures forall i, j :: 0 <= i < j < |Farewells(list)| && Farewells(list)[i].Close? ==>
      Farewells(list)[j] != Farewells(list)[i]
  {
    if list != [] {
      var n := |list| - 1;
      FarewellsExact(list[..n]);
      var f, g := Farewells(list[..n]), Farewells(list);
      assert g == f + [Close(list[n]), Gone(list[n])];
      assert list == list[..n] + [list[n]] && list[n] !in list[..n];
      assert forall a <- f :: a in g;
      assert g[|f|] == Close(list[n]);
      hide Farewells;
      assert forall i :: 0 <= i < |f| ==> f[i] in f && g[i] == f[i];
    }
  }

  lemma DisconnectTidy(s: State, u: Id)
    requires Inv(s)
    ensures Tidy(s, H.Disconnect(s, u))
  {
    var list, o := ListOf(s.clients, u), H.Disconnect(s, u);
    if u in s.clients {
      assert GoodList(s, u, list);
      hide Inv, GoodList, Farewells;
      FarewellsExact(list);
      hide Distinct;
      var f := Farewells(list);
      assert o.acts == f + [Presence(u, false)];
      forall i | 0 <= i < |o.acts| ensures TidyAct(s, o.state, o.acts[i]) {
        if i < |f| { assert o.acts[i] == f[i] && f[i] in f; }
      }
      hide TidyAct;
      forall c <- s.chans | s.chans[c].open && !o.state.chans[c].open ensures Close(c) in o.acts {
        assert Close(c) in f;
      }
      forall i, j | 0 <= i < j < |o.acts| && o.acts[i].Close? ensures o.acts[j] != o.acts[i] {
        assert o.acts[i] == f[i];
      }
    }
  }

  lemma {:induction false} OfferTidy(s: State, list: seq<Id>, msg: string)
    requires forall c <- list :: c in s.chans && s.chans[c].open
    ensures Tidy(s, Offer(s, list, msg))
    ensures forall a <- Offer(s, list, msg).acts :: a.Write? || a.Skip?
    ensures forall c <- s.chans :: Offer(s, list, msg).state.chans[c].open == s.chans[c].open
    ensures Offer(s, list, msg).state.chans.Keys == s.chans.Keys && Offer(s, list, msg).state.clients == s.clients
    decreases |list|
  {
    if list != [] {
      OfferTidy(s, list[..|list| - 1], msg);
      assert list[|list| - 1] in list;
    }
  }

  lemma {:induction false} AudienceListed(s: State, targets: seq<Id>)
    requires Inv(s)
    ensures forall c <- Audience(s.clients, targets) ::
      c in s.chans && s.chans[c].open && s.chans[c].user in targets
    ensures forall c <- s.chans :: s.chans[c].open && s.chans[c].user in targets ==> c in Audience(s.clients, targets)
  {
    if targets != [] {
      var n := |targets| - 1;
      AudienceListed(s, targets[..n]);
      if targets[n] in s.clients { assert GoodList(s, targets[n], s.clients[targets[n]]); }
    }
  }

  lemma {:induction false} ExceptExact(list: seq<Id>, c: Id)
    ensures forall x :: x in Except(list, c) <==> x in list && x != c
  {
    if list != [] { ExceptExact(list[..|list| - 1], c); }
  }

  /** The list an Offer event goes through. */
  function Recipients(s: State, e: Event): seq<Id>
    requires e.Send? || e.SendToConn? || e.SendExcept?
  {
    match e
    case Send(targets, _) => Audience(s.clients, targets)
    case SendToConn(u, c, _) => Only(ListOf(s.clients, u), c)
    case SendExcept(u, c, _) => Except(ListOf(s.clients, u), c)
  }

  lemma RecipientsOpen(s: State, e: Event)
    requires Inv(s) && (e.Send? || e.SendToConn? || e.SendExcept?)
    ensures forall c <- Recipients(s, e) :: c in s.chans && s.chans[c].open
  {
    match e
    case Send(targets, _) => AudienceListed(s, targets);
    case SendToConn(u, c, _) => if u in s.clients { assert GoodList(s, u, s.clients[u]); }
    case SendExcept(u, c, _) =>
      ExceptExact(ListOf(s.clients, u), c);
      if u in s.clients { assert GoodList(s, u, s.clients[u]); }
  }

  lemma HandleTidy(s: State, e: Event)
    requires Inv(s)
    ensures Inv(Handle(s, e).state) && Tidy(s, Handle(s, e))
  {
    hide Inv, Tidy, Offer, Audience, Except, Only;
    match e
    case Register(c, u) => if c in s.chans { NothingIsTidy(s); } else { RegisterKeepsInv(s, c, u); RegisterTidy(s, c, u); }
    case Remove(c) => RemoveKeepsInv(s, c); RemoveTidy(s, c);
    case Disconnect(u) => DisconnectKeepsInv(s, u); DisconnectTidy(s, u);
    case Drain(c) => DrainKeeps(s, c);
    case _ =>
      RecipientsOpen(s, e);
      OfferKeepsInv(s, Recipients(s, e), e.msg);
      OfferTidy(s, Recipients(s, e), e.msg);
  }

  lemma NothingIsTidy(s: State)
    ensures Tidy(s, Out(s, []))
  {
  }

  lemma DrainKeeps(s: State, c: Id)
    requires Inv(s)
    ensures Inv(H.Drain(s, c)) && Tidy(s, Out(H.Drain(s, c), []))
  {
    var n := H.Drain(s, c);
    forall u <- n.clients ensures GoodList(n, u, n.clients[u]) { assert GoodList(s, u, s.clients[u]); }
  }

  /** A channel that was closed is neither closed nor written again. */
  ghost predicate ClosedOnce(trace: seq<Act>) {
    forall i, j :: 0 <= i < j < |trace| && trace[i].Close? ==>
      trace[j] != trace[i] && !(trace[j].Write? && trace[j].c == trace[i].c)
  }

  ghost predicate Channels(s: Sys) {
    && Inv(s.state) && ClosedOnce(s.trace)
    && (forall c :: Close(c) in s.trace <==> c in s.state.chans && !s.state.chans[c].open)
  }

  lemma ChannelsStep(s: Sys, o: Out)
    requires Channels(s) && Inv(o.state) && Tidy(s.state, o)
    ensures Channels(Sys(o.state, s.trace + o.acts))
  {
    hide Inv;
    var t := s.trace + o.acts;
    forall c ensures Close(c) in t <==> c in o.state.chans && !o.state.chans[c].open {
      assert Close(c) in t <==> Close(c) in s.trace || Close(c) in o.acts;
      if Close(c) in o.acts {
        var i :| 0 <= i < |o.acts| && o.acts[i] == Close(c);
        assert TidyAct(s.state, o.state, o.acts[i]);
      }
    }
    forall i, j | 0 <= i < j < |t| && t[i].Close?
      ensures t[j] != t[i] && !(t[j].Write? && t[j].c == t[i].c)
    {
      if i < |s.trace| {
        assert t[i] == Close(t[i].c) && t[i] in s.trace;
        if j >= |s.trace| { assert TidyAct(s.state, o.state, o.acts[j - |s.trace|]); }
      } else {
        assert TidyAct(s.state, o.state, o.acts[i - |s.trace|]);
        assert TidyAct(s.state, o.state, o.acts[j - |s.trace|]);
      }
    }
  }

  lemma {:induction false} ExecChannels(es: seq<Event>)
    ensures Channels(Exec(es))
  {
    if es == [] {
    } else {
      var s := Exec(es[..|es| - 1]);
      ExecChannels(es[..|es| - 1]);
      HandleTidy(s.state, es[|es| - 1]);
      ChannelsStep(s, Handle(s.state, es[|es| - 1]));
    }
  }

  /** In every run each Send channel is closed at most once and never written after it was closed. */
  lemma NeverAfterClose(es: seq<Event>, i: nat, j: nat)
    requires i < j < |Exec(es).trace| && Exec(es).trace[i].Close?
    ensures var t := Exec(es).trace; t[j] != t[i] && !(t[j].Write? && t[j].c == t[i].c)
  {
    ExecChannels(es);
  }

  /** A client that was ever registered is listed if and only if its channel is open, that is, was not closed. */
  lemma ListedIffOpen(es: seq<Event>, c: Id)
    requires c in Exec(es).state.chans
    ensures var s := Exec(es);
      && (c in ListOf(s.state.clients, s.state.chans[c].user) <==> s.state.chans[c].open)
      && (s.state.chans[c].open <==> Close(c) !in s.trace)
      && (forall u <- s.state.clients :: c in s.state.clients[u] ==> u == s.state.chans[c].user)
  {
    ExecChannels(es);
    var s := Exec(es).state;
    forall u <- s.clients ensures GoodList(s, u, s.clients[u]) {}
  }

  /** No user has more than five connections, one twice, or an empty list. */
  lemma ListsAreBounded(es: seq<Event>, u: Id)
    requires u in Exec(es).state.clients
    ensures var list := Exec(es).state.clients[u]; 0 < |list| <= MAX_DEVICES && Distinct(list)
  {
    ExecChannels(es);
    assert GoodList(Exec(es).state, u, Exec(es).state.clients[u]);
  }

  // ---- presence ----

  /** The online and offline decisions about u, in lock order. */
  function Decisions(trace: seq<Act>, u: Id): seq<bool> {
    if trace == [] then []
    else
      var rest, last := Decisions(trace[..|trace| - 1], u), trace[|trace| - 1];
      if last.Presence? && last.user == u then rest + [last.online] else rest
  }

  lemma {:induction false} DecisionsAppend(a: seq<Act>, b: seq<Act>, u: Id)
    ensures Decisions(a + b, u) == Decisions(a, u) + Decisions(b, u)
    decreases |b|
  {
    if b == [] {
      assert a + b == a;
    } else {
      DecisionsAppend(a, b[..|b| - 1], u);
      assert (a + b)[..|a + b| - 1] == a + b[..|b| - 1];
    }
  }

  lemma {:induction false} NoDecisions(acts: seq<Act>, u: Id)
    requires forall a <- acts :: !a.Presence?
    ensures Decisions(acts, u) == []
  {
    if acts != [] { NoDecisions(acts[..|acts| - 1], u); }
  }

  lemma OneDecision(before: seq<Act>, d: Act, behind: seq<Act>, u: Id)
    requires (forall a <- before :: !a.Presence?) && (forall a <- behind :: !a.Presence?) && d.Presence?
    ensures Decisions(before + [d] + behind, u) == if d.user == u then [d.online] else []
  {
    NoDecisions(before, u);
    NoDecisions(behind, u);
    DecisionsAppend(before + [d], behind, u);
    DecisionsAppend(before, [d], u);
    assert Decisions([d], u) == if d.user == u then [d.online] else [];
  }

  /** A critical section decides about u exactly when u's list becomes non-empty or empty. */
  ghost predicate Honest(s: State, o: Out, u: Id) {
    Decisions(o.acts, u) == if (u in s.clients) == (u in o.state.clients) then [] else [u in o.state.clients]
  }

  lemma RegisterHonest(s: State, c: Id, v: Id, u: Id)
    requires Inv(s)
    ensures Honest(s, H.Register(s, c, v), u)
  {
    if v in s.clients { assert GoodList(s, v, s.clients[v]); }
    var o := H.Register(s, c, v);
    if v in s.clients {
      NoDecisions(o.acts, u);
    } else {
      assert o.acts == [] + [Presence(v, true)] + [Came(c)];
      OneDecision([], Presence(v, true), [Came(c)], u);
    }
  }

  lemma RemoveHonest(s: State, c: Id, u: Id)
    requires Inv(s)
    ensures Honest(s, H.Remove(s, c), u)
  {
    hide Without;
    var o := H.Remove(s, c);
    if c in s.chans && c in ListOf(s.clients, s.chans[c].user) && o.state.clients != s.clients {
      var v := s.chans[c].user;
      if Without(s.clients[v], c) == [] {
        assert o.acts == [Close(c), Gone(c)] + [Presence(v, false)] + [];
        OneDecision([Close(c), Gone(c)], Presence(v, false), [], u);
      } else {
        NoDecisions(o.acts, u);
      }
    } else {
      NoDecisions(o.acts, u);
    }
  }

  lemma DisconnectHonest(s: State, v: Id, u: Id)
    requires Inv(s)
    ensures Honest(s, H.Disconnect(s, v), u)
  {
    var list, o := ListOf(s.clients, v), H.Disconnect(s, v);
    if v in s.clients {
      assert GoodList(s, v, list);
      FarewellsExact(list);
      assert o.acts == Farewells(list) + [Presence(v, false)] + [];
      OneDecision(Farewells(list), Presence(v, false), [], u);
    }
  }

  lemma HandleHonest(s: State, e: Event, u: Id)
    requires Inv(s)
    ensures Honest(s, Handle(s, e), u)
  {
    hide Inv, Offer, Audience, Except, Only;
    match e
    case Register(c, v) => if c !in s.chans { RegisterHonest(s, c, v, u); }
    case Remove(c) => RemoveHonest(s, c, u);
    case Disconnect(v) => DisconnectHonest(s, v, u);
    case Drain(c) =>
    case _ =>
      RecipientsOpen(s, e);
      OfferTidy(s, Recipients(s, e), e.msg);
      NoDecisions(Handle(s, e).acts, u);
  }

  lemma Parity(d: seq<bool>, more: seq<bool>, was: bool, now: bool)
    requires (forall k :: 0 <= k < |d| ==> d[k] == (k % 2 == 0)) && (was <==> |d| % 2 == 1)
    requires more == if was == now then [] else [now]
    ensures forall k :: 0 <= k < |d + more| ==> (d + more)[k] == (k % 2 == 0)
    ensures now <==> |d + more| % 2 == 1
  {
  }

  /** Presence decisions alternate, start with online, and the last one says whether u is connected. */
  lemma {:induction false} PresenceAlternates(es: seq<Event>, u: Id)
    ensures var d := Decisions(Exec(es).trace, u);
      && (forall k :: 0 <= k < |d| ==> d[k] == (k % 2 == 0))
      && (u in Exec(es).state.clients <==> |d| % 2 == 1)
  {
    if es == [] {
    } else {
      var s, e := Exec(es[..|es| - 1]), es[|es| - 1];
      PresenceAlternates(es[..|es| - 1], u);
      ExecChannels(es[..|es| - 1]);
      HandleHonest(s.state, e, u);
      var acts := Handle(s.state, e).acts;
      DecisionsAppend(s.trace, acts, u);
      Parity(Decisions(s.trace, u), Decisions(acts, u), u in s.state.clients, u in Exec(es).state.clients);
      hide *;
    }
  }

  // ---- delivery ----

  /** How often a client is visited. */
  function Count(list: seq<Id>, c: Id): nat {
    if list == [] then 0 else Count(list[..|list| - 1], c) + if list[|list| - 1] == c then 1 else 0
  }

  function Repeat(msg: string, times: nat): seq<string> {
    if times == 0 then [] else Repeat(msg, times - 1) + [msg]
  }

  /** What a client's queue is after `times` visits: a message for each, until it is full. */
  function Heard(queued: seq<string>, msg: string, times: nat): seq<string> {
    queued + Repeat(msg, Min(times, Max(0, BUFFER - |queued|)))
  }

  lemma {:induction false} RepeatLength(msg: string, times: nat)
    ensures |Repeat(msg, times)| == times
  {
    if times > 0 { RepeatLength(msg, times - 1); }
  }

  lemma HeardOnce(queued: seq<string>, msg: string, times: nat)
    ensures Heard(queued, msg, times + 1) ==
      if |Heard(queued, msg, times)| >= BUFFER then Heard(queued, msg, times) else Heard(queued, msg, times) + [msg]
    ensures |Heard(queued, msg, times)| >= BUFFER <==> |queued| + times >= BUFFER
  {
    RepeatLength(msg, Min(times, Max(0, BUFFER - |queued|)));
  }

  lemma {:induction false} CountNone(list: seq<Id>, c: Id)
    ensures Count(list, c) == 0 <==> c !in list
  {
    if list != [] {
      assert list == list[..|list| - 1] + [list[|list| - 1]];
      CountNone(list[..|list| - 1], c);
    }
  }

  lemma {:induction false} CountConcat(a: seq<Id>, b: seq<Id>, c: Id)
    ensures Count(a + b, c) == Count(a, c) + Count(b, c)
    decreases |b|
  {
    if b == [] {
      assert a + b == a;
    } else {
      assert (a + b)[..|a + b| - 1] == a + b[..|b| - 1];
      CountConcat(a, b[..|b| - 1], c);
    }
  }

  lemma {:induction false} CountDistinct(list: seq<Id>, c: Id)
    requires Distinct(list)
    ensures Count(list, c) == if c in list then 1 else 0
  {
    if list != [] {
      var n := |list| - 1;
      assert list == list[..n] + [list[n]] && list[n] !in list[..n];
      CountDistinct(list[..n], c);
    }
  }

  /** Exactly what a send leaves in one client's queue, and whether it found it full. */
  lemma {:induction false} OfferExact(s: State, list: seq<Id>, msg: string, c: Id)
    requires c in s.chans
    ensures var o := Offer(s, list, msg);
      && c in o.state.chans
      && o.state.chans[c] == s.chans[c].(queued := Heard(s.chans[c].queued, msg, Count(list, c)))
      && (Skip(c) in o.acts <==> c in list && |s.chans[c].queued| + Count(list, c) > BUFFER)
    decreases |list|
  {
    if list == [] {
      assert s.chans[c].queued + [] == s.chans[c].queued;
    } else {
      var n := |list| - 1;
      var last := list[n];
      assert list == list[..n] + [last];
      OfferExact(s, list[..n], msg, c);
      HeardOnce(s.chans[c].queued, msg, Count(list[..n], c));
      CountNone(list[..n], c);
      var o := Offer(s, list[..n], msg);
      assert Offer(s, list, msg).acts == o.acts + OfferOne(o.state, last, msg).acts;
      hide Heard;
    }
  }

  /** A client is visited once for each time its user is named. */
  lemma {:induction false} AudienceCount(s: State, targets: seq<Id>, c: Id)
    requires Inv(s) && c in s.chans
    ensures Count(Audience(s.clients, targets), c) == if s.chans[c].open then Count(targets, s.chans[c].user) else 0
  {
    if targets != [] {
      var n := |targets| - 1;
      var u := targets[n];
      AudienceCount(s, targets[..n], c);
      CountConcat(Audience(s.clients, targets[..n]), ListOf(s.clients, u), c);
      if u in s.clients {
        assert GoodList(s, u, s.clients[u]);
        CountDistinct(s.clients[u], c);
      }
      hide Distinct;
    }
  }

  /**
   * Every open connection of a target gets an event as often as its user is named, up to a full buffer; one
   * whose buffer had no room for all of them, and no other, is up for removal; nobody else gets it.
   */
  lemma EveryDeviceHears(es: seq<Event>, targets: seq<Id>, msg: string, c: Id)
    requires c in Exec(es).state.chans
    ensures var s, o := Exec(es).state, H.Send(Exec(es).state, targets, msg);
      var times := if s.chans[c].open then Count(targets, s.chans[c].user) else 0;
      && c in o.state.chans
      && o.state.chans[c].queued == Heard(s.chans[c].queued, msg, times)
      && (Skip(c) in o.acts <==> times > 0 && |s.chans[c].queued| + times > BUFFER)
  {
    ExecChannels(es);
    var s := Exec(es).state;
    var list := Audience(s.clients, targets);
    assert |s.chans[c].queued| <= BUFFER;
    AudienceCount(s, targets, c);
    CountNone(list, c);
    OfferExact(s, list, msg, c);
    hide Inv, Audience, Offer, Exec;
  }
}
