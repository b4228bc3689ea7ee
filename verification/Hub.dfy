/**
 * The websocket hub of internal/ws/hub.go, one function per critical section. A client is known by its
 * connection id. `acts` records channel operations and presence decisions in lock order.
 */
module Hub {
  import opened Basics

  const MAX_DEVICES: nat := 5
  const BUFFER: nat := 256

  /** A client with its Send channel. */
  datatype Client = Client(user: Id, open: bool, queued: seq<string>)

  /** `chans`: every client ever registered; `clients`: per user the live ones, oldest first. */
  datatype State = State(clients: map<Id, seq<Id>>, chans: map<Id, Client>)

  /** Skip: the buffer was full, so the message was not written. */
  datatype Act = Close(c: Id) | Write(c: Id, msg: string) | Skip(c: Id) | Came(c: Id) | Gone(c: Id) | Presence(user: Id, online: bool)

  datatype Out = Out(state: State, acts: seq<Act>)

  const EMPTY: State := State(map[], map[])

  function ListOf(clients: map<Id, seq<Id>>, u: Id): seq<Id> {
    if u in clients then clients[u] else []
  }

  function Shut(chans: map<Id, Client>, list: seq<Id>): map<Id, Client> {
    map r | r in chans :: if r in list then chans[r].(open := false) else chans[r]
  }

  /** The register case of Run, for a new client. */
  function Register(s: State, c: Id, u: Id): Out {
    var was := ListOf(s.clients, u);
    var list := was + [c];
    var chans := s.chans[c := Client(u, true, [])];
    if |list| > MAX_DEVICES then
      Out(State(s.clients[u := list[1..]], Shut(chans, [list[0]])),
          [Close(list[0]), Gone(list[0])] + (if was == [] then [Presence(u, true)] else []) + [Came(c)])
    else
      Out(State(s.clients[u := list], chans), (if was == [] then [Presence(u, true)] else []) + [Came(c)])
  }

  function Without(list: seq<Id>, c: Id): seq<Id> {
    if list == [] then []
    else if list[0] == c then list[1..]
    else [list[0]] + Without(list[1..], c)
  }

  /** The first occurrence is what goes. */
  lemma {:induction false} WithoutAt(list: seq<Id>, i: nat)
    requires i < |list| && forall k :: 0 <= k < i ==> list[k] != list[i]
    ensures Without(list, list[i]) == list[..i] + list[i + 1..]
  {
    if i > 0 { WithoutAt(list[1..], i - 1); }
  }

  /** remove, for a client that was once registered. */
  function Remove(s: State, c: Id): Out {
    if c !in s.chans || c !in ListOf(s.clients, s.chans[c].user) then Out(s, [])
    else
      var u := s.chans[c].user;
      var rest := Without(s.clients[u], c);
      Out(State(if rest == [] then s.clients - {u} else s.clients[u := rest], Shut(s.chans, [c])),
          [Close(c), Gone(c)] + if rest == [] then [Presence(u, false)] else [])
  }

  function Farewells(list: seq<Id>): seq<Act> {
    if list == [] then [] else Farewells(list[..|list| - 1]) + [Close(list[|list| - 1]), Gone(list[|list| - 1])]
  }

  function Disconnect(s: State, u: Id): Out {
    var list := ListOf(s.clients, u);
    Out(State(s.clients - {u}, Shut(s.chans, list)), Farewells(list) + if list == [] then [] else [Presence(u, false)])
  }

  predicate Full(c: Client) {
    |c.queued| >= BUFFER
  }

  /** One non-blocking write. */
  function OfferOne(s: State, c: Id, msg: string): Out {
    if c !in s.chans then Out(s, [])
    else if Full(s.chans[c]) then Out(s, [Skip(c)])
    else
      Out(s.(chans := s.chans[c := s.chans[c].(queued := s.chans[c].queued + [msg])]), [Write(c, msg)])
  }

  /** Offer msg to each client of the list in turn; those whose buffer is full get nothing. */
  function Offer(s: State, list: seq<Id>, msg: string): Out
    decreases |list|
  {
    if list == [] then Out(s, [])
    else
      var o := Offer(s, list[..|list| - 1], msg);
      var last := OfferOne(o.state, list[|list| - 1], msg);
      Out(last.state, o.acts + last.acts)
  }

  /** The clients a send found full, in order. */
  function Skips(acts: seq<Act>): seq<Id> {
    if acts == [] then []
    else Skips(acts[..|acts| - 1]) + if acts[|acts| - 1].Skip? then [acts[|acts| - 1].c] else []
  }

  lemma SkipsPush(acts: seq<Act>, a: Act)
    ensures Skips(acts + [a]) == Skips(acts) + if a.Skip? then [a.c] else []
  {
    assert (acts + [a])[..|acts|] == acts;
  }

  lemma {:induction false} SkipsConcat(a: seq<Act>, b: seq<Act>)
    ensures Skips(a + b) == Skips(a) + Skips(b)
    decreases |b|
  {
    if b == [] {
      assert a + b == a;
    } else {
      assert (a + b)[..|a + b| - 1] == a + b[..|b| - 1];
      SkipsConcat(a, b[..|b| - 1]);
    }
  }

  lemma {:induction false} OfferKeepsLists(s: State, list: seq<Id>, msg: string)
    ensures Offer(s, list, msg).state.clients == s.clients
    decreases |list|
  {
    if list != [] { OfferKeepsLists(s, list[..|list| - 1], msg); }
  }

  lemma {:induction false} OfferConcat(s: State, a: seq<Id>, b: seq<Id>, msg: string)
    ensures var o := Offer(s, a, msg);
      Offer(s, a + b, msg) == Out(Offer(o.state, b, msg).state, o.acts + Offer(o.state, b, msg).acts)
    decreases |b|
  {
    if b == [] {
      assert a + b == a;
    } else {
      assert (a + b)[..|a + b| - 1] == a + b[..|b| - 1];
      OfferConcat(s, a, b[..|b| - 1], msg);
    }
  }

  /** All connections of the targets, in the order send visits them. */
  function Audience(clients: map<Id, seq<Id>>, targets: seq<Id>): seq<Id> {
    if targets == [] then []
    else Audience(clients, targets[..|targets| - 1]) + ListOf(clients, targets[|targets| - 1])
  }

  /** send, up to the unlock; what it removes afterwards are separate Removes. */
  function Send(s: State, targets: seq<Id>, msg: string): Out {
    Offer(s, Audience(s.clients, targets), msg)
  }

  function Only(list: seq<Id>, c: Id): seq<Id> {
    if c in list then [c] else []
  }

  function Except(list: seq<Id>, c: Id): seq<Id> {
    if list == [] then []
    else Except(list[..|list| - 1], c) + if list[|list| - 1] == c then [] else [list[|list| - 1]]
  }

  function SendToConn(s: State, u: Id, c: Id, msg: string): Out {
    Offer(s, Only(ListOf(s.clients, u), c), msg)
  }

  function SendExcept(s: State, u: Id, c: Id, msg: string): Out {
    Offer(s, Except(ListOf(s.clients, u), c), msg)
  }

  /** The client's writer takes everything off the channel; it does so after a close, too. */
  function Drain(s: State, c: Id): State {
    if c in s.chans then s.(chans := s.chans[c := s.chans[c].(queued := [])]) else s
  }

  // ---- the invariant ----

  predicate Distinct(list: seq<Id>) {
    forall i, j :: 0 <= i < j < |list| ==> list[i] != list[j]
  }

  ghost predicate GoodList(s: State, u: Id, list: seq<Id>) {
    && 0 < |list| <= MAX_DEVICES && Distinct(list)
    && forall c <- list :: c in s.chans && s.chans[c].user == u && s.chans[c].open
  }

  /** The lists hold exactly the open clients, each with its user; nobody has more than five or an empty list. */
  ghost predicate Inv(s: State) {
    && (forall u <- s.clients :: GoodList(s, u, s.clients[u]))
    && (forall c <- s.chans :: s.chans[c].open ==> c in ListOf(s.clients, s.chans[c].user))
    && (forall c <- s.chans :: |s.chans[c].queued| <= BUFFER)
  }

  lemma {:induction false} WithoutExact(list: seq<Id>, c: Id)
    requires Distinct(list) && c in list
    ensures |Without(list, c)| == |list| - 1 && Distinct(Without(list, c))
    ensures forall x :: x in Without(list, c) <==> x in list && x != c
  {
    if list[0] == c {
      assert list == [c] + list[1..];
    } else {
      assert list == [list[0]] + list[1..];
      assert list[0] !in list[1..];
      WithoutExact(list[1..], c);
      assert Without(list, c) == [list[0]] + Without(list[1..], c);
    }
  }

  lemma RegisterKeepsInv(s: State, c: Id, u: Id)
    requires Inv(s) && c !in s.chans
    ensures Inv(Register(s, c, u).state)
  {
    var n, list := Register(s, c, u).state, ListOf(s.clients, u) + [c];
    forall v <- n.clients ensures GoodList(n, v, n.clients[v]) {
      if v in s.clients { assert GoodList(s, v, s.clients[v]); }
      if u in s.clients { assert GoodList(s, u, s.clients[u]); }
    }
    forall x <- n.chans | n.chans[x].open ensures x in ListOf(n.clients, n.chans[x].user) {
      if n.chans[x].user == u {
        assert x in list;
        if |list| > MAX_DEVICES { assert list == [list[0]] + list[1..]; }
      }
    }
  }

  lemma RemoveKeepsInv(s: State, c: Id)
    requires Inv(s)
    ensures Inv(Remove(s, c).state)
  {
    if c in s.chans && c in ListOf(s.clients, s.chans[c].user) {
      var n, u := Remove(s, c).state, s.chans[c].user;
      assert GoodList(s, u, s.clients[u]);
      WithoutExact(s.clients[u], c);
      hide Without;
      forall v <- n.clients ensures GoodList(n, v, n.clients[v]) { assert GoodList(s, v, s.clients[v]); }
    }
  }

  lemma DisconnectKeepsInv(s: State, u: Id)
    requires Inv(s)
    ensures Inv(Disconnect(s, u).state)
  {
    var n := Disconnect(s, u).state;
    forall v <- n.clients ensures GoodList(n, v, n.clients[v]) { assert GoodList(s, v, s.clients[v]); }
  }

  lemma {:induction false} OfferKeepsInv(s: State, list: seq<Id>, msg: string)
    requires Inv(s)
    ensures Inv(Offer(s, list, msg).state)
    decreases |list|
  {
    if list != [] {
      OfferKeepsInv(s, list[..|list| - 1], msg);
      var o, n := Offer(s, list[..|list| - 1], msg).state, Offer(s, list, msg).state;
      hide Offer;
      forall v <- n.clients ensures GoodList(n, v, n.clients[v]) { assert GoodList(o, v, o.clients[v]); }
    }
  }
}
