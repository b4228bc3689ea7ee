/**
 * The Hub of internal/ws/hub.go with its clients as shared objects. A Send channel may be closed or
 * written only while it is open, which is what the methods of Client require.
 */
module HubServer {
  import opened Basics
  import H = Hub
  import opened HubTypes = Hub

  class Conn {
    const user: Id
    const id: Id
    var open: bool
    var queued: seq<string>

    constructor (user: Id, id: Id)
      ensures this.id == id && Value() == Client(user, true, [])
    {
      this.user, this.id, open, queued := user, id, true, [];
    }

    function Value(): Client
      reads this
    {
      Client(user, open, queued)
    }

    /** close(c.Send) panics on a closed channel. */
    method CloseSend()
      requires open
      modifies this`open
      ensures !open
    {
      open := false;
    }

    /** select { case c.Send <- msg: default: } panics on a closed channel. */
    method TrySend(msg: string) returns (sent: bool)
      requires open
      modifies this`queued
      ensures sent == !Full(old(Value()))
      ensures queued == if sent then old(queued) + [msg] else old(queued)
    {
      sent := |queued| < BUFFER;
      if sent {
        queued := queued + [msg];
      }
    }
  }

  class Server {
    var clients: map<Id, seq<Conn>>
    ghost var all: map<Id, Conn>

    static ghost function Ids(list: seq<Conn>): seq<Id> {
      seq(|list|, i requires 0 <= i < |list| => list[i].id)
    }

    ghost function Lists(): map<Id, seq<Id>>
      reads this`clients
    {
      map u | u in clients :: Ids(clients[u])
    }

    static ghost function Chans(all: map<Id, Conn>): map<Id, Client>
      reads all.Values
    {
      map c | c in all :: all[c].Value()
    }

    ghost function View(): State
      reads this, all.Values
    {
      State(Lists(), Chans(all))
    }

    /** Clients are known by their ids. */
    ghost predicate Linked()
      reads this
    {
      && (forall c <- all :: all[c].id == c)
      && (forall u <- clients :: forall c <- clients[u] :: c.id in all && all[c.id] == c)
    }

    /** ... and the lists obey the hub's invariant. */
    ghost predicate Valid()
      reads this, all.Values
    {
      Linked() && Inv(View())
    }

    constructor ()
      ensures Valid() && View() == EMPTY
    {
      clients, all := map[], map[];
    }

    /** Writing to one client changes one entry of the view. */
    twostate lemma Wrote(c: Conn)
      requires old(Linked()) && unchanged(this) && c.id in all && all[c.id] == c
      requires forall x <- all :: all[x] != c ==> unchanged(all[x])
      ensures View() == old(View()).(chans := old(View()).chans[c.id := c.Value()])
    {
    }

    lemma ListedAreOpen(u: Id)
      requires Valid() && u in clients
      ensures forall c <- clients[u] :: c.open && c.user == u
      ensures forall i, j :: 0 <= i < j < |clients[u]| ==> clients[u][i] != clients[u][j]
    {
      var ids := Ids(clients[u]);
      assert View().clients[u] == ids && GoodList(View(), u, ids);
      forall c <- clients[u] ensures c.open && c.user == u {
        var i :| 0 <= i < |clients[u]| && clients[u][i] == c;
        assert ids[i] in ids && Chans(all)[c.id] == c.Value();
      }
      forall i, j | 0 <= i < j < |clients[u]| ensures clients[u][i] != clients[u][j] {
        assert ids[i] != ids[j];
      }
    }

    method WriteTo(c: Conn, msg: string) returns (sent: bool)
      requires Valid() && c.id in all && all[c.id] == c && c.open
      modifies c`queued
      ensures Valid()
      ensures Out(View(), [if sent then Write(c.id, msg) else Skip(c.id)]) == OfferOne(old(View()), c.id, msg)
    {
      ghost var s := View();
      assert s.chans[c.id] == c.Value();
      sent := c.TrySend(msg);
      Wrote(c);
      OfferKeepsInv(s, [c.id], msg);
      assert Offer(s, [c.id], msg).state == OfferOne(s, c.id, msg).state by { assert [c.id][..0] == []; }
      hide Inv;
    }

    /** The inner loop of send: one user's connections. */
    method OfferAll(list: seq<Conn>, msg: string) returns (slow: seq<Conn>, ghost acts: seq<Act>)
      requires Valid() && forall c <- list :: c.open && c.id in all && all[c.id] == c
      modifies list`queued
      ensures Valid()
      ensures Out(View(), acts) == Offer(old(View()), Ids(list), msg)
      ensures Ids(slow) == Skips(acts) && forall c <- slow :: c in list
    {
      slow, acts := [], [];
      hide View, Valid;
      for i := 0 to |list|
        invariant Valid()
        invariant Out(View(), acts) == Offer(old(View()), Ids(list[..i]), msg)
        invariant Ids(slow) == Skips(acts) && forall c <- slow :: c in list
      {
        assert Ids(list[..i + 1])[..i] == Ids(list[..i]);
        var sent := WriteTo(list[i], msg);
        ghost var act := if sent then Write(list[i].id, msg) else Skip(list[i].id);
        SkipsPush(acts, act);
        acts := acts + [act];
        if !sent {
          assert Ids(slow + [list[i]]) == Ids(slow) + [list[i].id];
          slow := slow + [list[i]];
        }
      }
      assert list[..|list|] == list;
    }

    method ListFor(u: Id) returns (list: seq<Conn>)
      requires Valid()
      ensures Ids(list) == ListOf(View().clients, u)
      ensures forall c <- list :: c.open && c.user == u && c.id in all && all[c.id] == c && c in all.Values
      ensures forall i, j :: 0 <= i < j < |list| ==> list[i] != list[j]
    {
      list := if u in clients then clients[u] else [];
      if u in clients { ListedAreOpen(u); }
    }

    /** SendToConn, up to the unlock: the client to drop, if its buffer was full. */
    method SendToConn(u: Id, id: Id, msg: string) returns (sent: bool, slow: seq<Conn>, ghost acts: seq<Act>)
      requires Valid()
      modifies all.Values`queued
      ensures Valid() && Out(View(), acts) == H.SendToConn(old(View()), u, id, msg)
      ensures Ids(slow) == Skips(acts) && (sent <==> acts == [Write(id, msg)])
    {
      var list := ListFor(u);
      var target: seq<Conn> := [];
      for i := 0 to |list|
        invariant Ids(target) == if id in Ids(list[..i]) then [id] else []
        invariant forall c <- target :: c in list
      {
        assert Ids(list[..i + 1]) == Ids(list[..i]) + [list[i].id];
        if list[i].id == id {
          target := [list[i]];
        }
      }
      assert list[..|list|] == list;
      slow, acts := OfferAll(target, msg);
      sent := target != [] && slow == [];
    }

    /** WriteToUserExcept: full connections just miss the event. */
    method SendExcept(u: Id, except: Id, msg: string) returns (ghost acts: seq<Act>)
      requires Valid()
      modifies all.Values`queued
      ensures Valid() && Out(View(), acts) == H.SendExcept(old(View()), u, except, msg)
    {
      var list := ListFor(u);
      var others: seq<Conn> := [];
      for i := 0 to |list|
        invariant Ids(others) == Except(Ids(list[..i]), except)
        invariant forall c <- others :: c.open && c.id in all && all[c.id] == c && c in all.Values
      {
        assert Ids(list[..i + 1])[..i] == Ids(list[..i]);
        assert list[i] in list;
        if list[i].id != except {
          assert Ids(others + [list[i]]) == Ids(others) + [list[i].id];
          others := others + [list[i]];
        }
      }
      assert list[..|list|] == list;
      var slow;
      slow, acts := OfferAll(others, msg);
    }

    /** One round of send's outer loop. */
    method SendUser(u: Id, msg: string) returns (slow: seq<Conn>, ghost acts: seq<Act>)
      requires Valid()
      modifies all.Values`queued
      ensures Valid() && Out(View(), acts) == Offer(old(View()), ListOf(old(View()).clients, u), msg)
      ensures Ids(slow) == Skips(acts) && View().clients == old(View()).clients
    {
      var list := ListFor(u);
      slow, acts := OfferAll(list, msg);
    }

    /** send, up to the unlock: the clients to remove. */
    method Send(targets: seq<Id>, msg: string) returns (slow: seq<Conn>, ghost acts: seq<Act>)
      requires Valid()
      modifies all.Values`queued
      ensures Valid() && Out(View(), acts) == H.Send(old(View()), targets, msg)
      ensures Ids(slow) == Skips(acts)
    {
      slow, acts := [], [];
      ghost var s, heard := View(), [];
      hide View, Valid, Offer, ListOf;
      assert Offer(s, [], msg) == Out(s, []) by { OfferNobody(s, msg); }
      for i := 0 to |targets|
        invariant Valid() && View().clients == s.clients
        invariant heard == Audience(s.clients, targets[..i])
        invariant Out(View(), acts) == Offer(s, heard, msg)
        invariant Ids(slow) == Skips(acts)
      {
        assert targets[..i + 1][..i] == targets[..i];
        var more;
        ghost var moreActs;
        more, moreActs := SendUser(targets[i], msg);
        OfferConcat(s, heard, ListOf(s.clients, targets[i]), msg);
        SkipsConcat(acts, moreActs);
        assert Ids(slow + more) == Ids(slow) + Ids(more);
        heard := heard + ListOf(s.clients, targets[i]);
        slow, acts := slow + more, acts + moreActs;
      }
      assert targets[..|targets|] == targets;
    }

    lemma OfferNobody(s: State, msg: string)
      ensures Offer(s, [], msg) == Out(s, [])
    {
    }

    /** close(c.Send) of a listed client. */
    method Cut(c: Conn)
      requires Linked() && c.id in all && all[c.id] == c && c.open
      modifies c`open
      ensures Linked() && View() == old(View()).(chans := Shut(old(View()).chans, [c.id]))
    {
      c.CloseSend();
      Wrote(c);
    }

    /** h.clients[u] = list, or its removal. */
    method SetList(u: Id, list: seq<Conn>)
      requires Linked() && forall c <- list :: c.id in all && all[c.id] == c
      modifies this`clients
      ensures Linked()
      ensures View() == old(View()).(
        clients := if list == [] then old(View()).clients - {u} else old(View()).clients[u := Ids(list)])
    {
      clients := if list == [] then clients - {u} else clients[u := list];
      assert Lists() == if list == [] then old(Lists()) - {u} else old(Lists())[u := Ids(list)];
    }

    ghost method Admit(c: Conn)
      requires Linked() && c.id !in all
      modifies this`all
      ensures Linked() && all == old(all)[c.id := c]
      ensures View() == old(View()).(chans := old(View()).chans[c.id := c.Value()])
    {
      all := all[c.id := c];
    }

    /** Brings a list that has just grown back within MAX_DEVICES. */
    method CutOldest(list: seq<Conn>) returns (rest: seq<Conn>, ghost acts: seq<Act>)
      requires Linked() && forall c <- list :: c.id in all && all[c.id] == c && c.open
      modifies list`open
      ensures Linked() && forall c <- rest :: c in list
      ensures var ids, s := Ids(list), old(View());
        if |ids| > MAX_DEVICES then
          && Ids(rest) == ids[1..] && acts == [Close(ids[0]), Gone(ids[0])]
          && View() == s.(chans := Shut(s.chans, [ids[0]]))
        else rest == list && acts == [] && View() == s
    {
      rest, acts := list, [];
      if |list| > MAX_DEVICES {
        assert list[0] in list;
        Cut(list[0]);
        acts := [Close(list[0].id), Gone(list[0].id)];
        rest := list[1..];
        assert Ids(rest) == Ids(list)[1..];
      }
    }

    /** The end of the user's list takes a new client; the list stays within the limit. */
    method Enlist(was: seq<Conn>, c: Conn) returns (ghost acts: seq<Act>)
      requires Linked() && forall x <- was + [c] :: x.id in all && all[x.id] == x && x.open
      modifies this`clients, was`open, c`open
      ensures Linked()
      ensures var s, ids := old(View()), Ids(was) + [c.id];
        if |ids| > MAX_DEVICES then
          && View() == State(s.clients[c.user := ids[1..]], Shut(s.chans, [ids[0]]))
          && acts == [Close(ids[0]), Gone(ids[0])] + (if Ids(was) == [] then [Presence(c.user, true)] else []) + [Came(c.id)]
        else
          && View() == s.(clients := s.clients[c.user := ids])
          && acts == (if Ids(was) == [] then [Presence(c.user, true)] else []) + [Came(c.id)]
    {
      assert Ids(was + [c]) == Ids(was) + [c.id];
      var list;
      list, acts := CutOldest(was + [c]);
      SetList(c.user, list);
      acts := acts + (if was == [] then [Presence(c.user, true)] else []) + [Came(c.id)];
    }

    /** The register case of Run. */
    method Register(c: Conn) returns (ghost acts: seq<Act>)
      requires Valid() && c.id !in all && c.open && c.queued == []
      modifies this, all.Values`open, c`open
      ensures Valid() && all == old(all)[c.id := c]
      ensures Out(View(), acts) == H.Register(old(View()), c.id, c.user)
    {
      RegisterKeepsInv(View(), c.id, c.user);
      var was := ListFor(c.user);
      assert c.Value() == Client(c.user, true, []);
      hide View, Inv, ListOf, Linked, Shut, Ids, Conn.Value;
      Admit(c);
      acts := Enlist(was, c);
    }

    method Find(list: seq<Conn>, c: Conn) returns (i: nat)
      ensures i <= |list| && c !in list[..i] && (i < |list| ==> list[i] == c)
    {
      i := 0;
      while i < |list| && list[i] != c
        invariant i <= |list| && c !in list[..i]
      {
        i := i + 1;
      }
    }

    /** Close the channel and take the client off its user's list. */
    method DropAt(c: Conn, list: seq<Conn>, i: nat) returns (ghost acts: seq<Act>)
      requires Linked() && c.id in all && all[c.id] == c && c.open
      requires forall x <- list :: x.id in all && all[x.id] == x
      requires i < |list| && list[i] == c && forall k :: 0 <= k < i ==> list[k].id != c.id
      modifies this`clients, c`open
      ensures Linked()
      ensures var s, rest := old(View()), Without(Ids(list), c.id);
        && View() == State(if rest == [] then s.clients - {c.user} else s.clients[c.user := rest], Shut(s.chans, [c.id]))
        && acts == [Close(c.id), Gone(c.id)] + if rest == [] then [Presence(c.user, false)] else []
    {
      ghost var ids := Ids(list);
      WithoutAt(ids, i);
      var rest := list[..i] + list[i + 1..];
      assert Ids(rest) == ids[..i] + ids[i + 1..];
      hide View, Linked, Shut, Without;
      Cut(c);
      SetList(c.user, rest);
      acts := [Close(c.id), Gone(c.id)] + if rest == [] then [Presence(c.user, false)] else [];
    }

    lemma Positions(list: seq<Conn>, c: Conn, i: nat)
      requires Linked() && c.id in all && all[c.id] == c && forall x <- list :: x.id in all && all[x.id] == x
      requires i <= |list| && c !in list[..i] && (i < |list| ==> list[i] == c)
      ensures forall k :: 0 <= k < i ==> list[k].id != c.id
      ensures c.id in Ids(list) <==> i < |list|
    {
      forall k | 0 <= k < i ensures list[k].id != c.id { assert list[k] in list && list[k] in list[..i]; }
      if i < |list| { assert Ids(list)[i] == c.id; }
    }

    /** remove: closes the client's channel if it is still registered. */
    method Remove(c: Conn) returns (ghost acts: seq<Act>)
      requires Valid() && c.id in all && all[c.id] == c
      modifies this`clients, c`open
      ensures Valid() && Out(View(), acts) == H.Remove(old(View()), c.id)
    {
      assert View().chans[c.id] == c.Value();
      RemoveKeepsInv(View(), c.id);
      var list := ListFor(c.user);
      var i := Find(list, c);
      Positions(list, c, i);
      hide View, Inv, Linked, Shut, Without;
      acts := [];
      if i < |list| {
        assert list[i] in list;
        acts := DropAt(c, list, i);
      }
    }

    /** The loop of Disconnect. */
    method CutAll(list: seq<Conn>) returns (ghost acts: seq<Act>)
      requires Linked() && forall c <- list :: c.id in all && all[c.id] == c && c.open
      requires forall i, j :: 0 <= i < j < |list| ==> list[i] != list[j]
      modifies list`open
      ensures Linked()
      ensures View() == old(View()).(chans := Shut(old(View()).chans, Ids(list))) && acts == Farewells(Ids(list))
    {
      ghost var s, ids := View(), Ids(list);
      acts := [];
      assert Shut(s.chans, []) == s.chans;
      hide View, Linked, Shut;
      for i := 0 to |list|
        invariant Linked() && View() == s.(chans := Shut(s.chans, ids[..i]))
        invariant acts == Farewells(ids[..i])
        invariant forall k :: i <= k < |list| ==> list[k].open
      {
        assert list[i] in list && ids[..i + 1] == ids[..i] + [ids[i]] && ids[..i + 1][..i] == ids[..i];
        assert list[i].id == ids[i];
        Cut(list[i]);
        ShutMore(s.chans, ids[..i], ids[i]);
        acts := acts + [Close(list[i].id), Gone(list[i].id)];
      }
      assert ids[..|list|] == ids;
    }

    /** Disconnect: closes all of the user's channels. */
    method Disconnect(u: Id) returns (ghost acts: seq<Act>)
      requires Valid()
      modifies this`clients, all.Values`open
      ensures Valid() && Out(View(), acts) == H.Disconnect(old(View()), u)
    {
      DisconnectKeepsInv(View(), u);
      var list := ListFor(u);
      hide View, Inv, Linked, Shut;
      acts := CutAll(list);
      SetList(u, []);
      acts := acts + if list == [] then [] else [Presence(u, false)];
    }

    lemma ShutMore(chans: map<Id, Client>, list: seq<Id>, c: Id)
      ensures Shut(Shut(chans, list), [c]) == Shut(chans, list + [c])
    {
    }
  }
}
