/**
 * De-duplication of message sends (internal/chat/dedupe.go): one function and one method per critical
 * section. An entry is known by its number in order of creation, which stands for its address.
 */
module Dedupe {
  import opened Basics

  const WINDOW: Time := 600 * SECOND
  const GC_EVERY: Time := 60 * SECOND

  /** A pair of sender and client message id; only equality matters. */
  type Key = Id

  datatype Attempt = Running | Sent(id: Id) | Failed

  /** `key` is the key the entry was made for. */
  datatype Entry = Entry(key: Key, at: Time, state: Attempt)

  /** `entries`: every entry ever made; `m` holds the ones still known. lastGC None: the zero time. */
  datatype Table = Table(m: map<Key, nat>, entries: seq<Entry>, lastGC: Option<Time>)

  const EMPTY: Table := Table(map[], [], None)

  predicate Linked(t: Table) {
    forall k <- t.m :: t.m[k] < |t.entries| && t.entries[t.m[k]].key == k
  }

  predicate Expired(e: Entry, now: Time) {
    !e.state.Running? && now - e.at > WINDOW
  }

  function Swept(t: Table, now: Time): map<Key, nat>
    requires Linked(t)
  {
    map k | k in t.m && !Expired(t.entries[t.m[k]], now) :: t.m[k]
  }

  function Gc(t: Table, now: Time, maxKeys: nat): Table
    requires Linked(t)
  {
    var t := if |t.m| > maxKeys then t.(m := map[]) else t;
    if t.lastGC.Some? && now - t.lastGC.value < GC_EVERY then t
    else t.(m := Swept(t, now), lastGC := Some(now))
  }

  /** The critical section of do: the entry to wait for, or a new one to send for. */
  function Ask(t: Table, k: Key, now: Time, maxKeys: nat): (r: (Table, nat, bool))
    requires Linked(t)
    ensures Linked(r.0) && r.1 < |r.0.entries| && r.0.entries[r.1].key == k
  {
    var t := Gc(t, now, maxKeys);
    if k in t.m && now - t.entries[t.m[k]].at <= WINDOW then (t, t.m[k], false)
    else
      (t.(m := t.m[k := |t.entries|], entries := t.entries + [Entry(k, now, Running)]), |t.entries|, true)
  }

  function Finish(t: Table, ref: nat, result: Attempt): Table
    requires ref < |t.entries|
  {
    t.(entries := t.entries[ref := t.entries[ref].(state := result)])
  }

  function Forget(t: Table, k: Key, ref: nat): Table {
    if k in t.m && t.m[k] == ref then t.(m := t.m - {k}) else t
  }

  // ---- the table in place ----

  class Record {
    ghost const ref: nat
    const key: Key
    const at: Time
    var state: Attempt

    constructor (ghost ref: nat, key: Key, at: Time)
      ensures this.ref == ref && Value() == Entry(key, at, Running)
    {
      this.ref, this.key, this.at, state := ref, key, at, Running;
    }

    function Value(): Entry
      reads this
    {
      Entry(key, at, state)
    }
  }

  class Deduper {
    const maxKeys: nat
    var m: map<Key, Record>
    var lastGC: Option<Time>
    ghost var made: seq<Record>

    ghost predicate Valid()
      reads this
    {
      && (forall i :: 0 <= i < |made| ==> made[i].ref == i)
      && (forall k <- m :: m[k] in made && m[k].key == k)
    }

    ghost function Index(): map<Key, nat>
      reads this`m
    {
      map k | k in m :: m[k].ref
    }

    static ghost function Values(records: seq<Record>): seq<Entry>
      reads records
    {
      seq(|records|, i requires 0 <= i < |records| reads records => records[i].Value())
    }

    ghost function View(): Table
      reads this, made
    {
      Table(Index(), Values(made), lastGC)
    }

    constructor (maxKeys: nat)
      ensures Valid() && View() == EMPTY && this.maxKeys == maxKeys
    {
      this.maxKeys, m, lastGC, made := maxKeys, map[], None, [];
    }

    lemma ViewLinked()
      requires Valid()
      ensures Linked(View())
      ensures forall k <- m :: View().entries[m[k].ref] == m[k].Value()
    {
    }

    /** The loop of gc. */
    static method Prune(all: map<Key, Record>, now: Time) returns (kept: map<Key, Record>)
      ensures kept.Keys <= all.Keys
      ensures forall k <- kept :: kept[k] == all[k]
      ensures forall k <- all :: k in kept <==> all[k].state.Running? || now - all[k].at <= WINDOW
    {
      kept := all;
      var todo := all.Keys;
      while todo != {}
        invariant todo <= kept.Keys <= all.Keys
        invariant forall k <- kept :: kept[k] == all[k]
        invariant forall k <- all :: k in kept <==> k in todo || all[k].state.Running? || now - all[k].at <= WINDOW
        decreases |todo|
      {
        var k :| k in todo;
        todo := todo - {k};
        if !all[k].state.Running? && now - all[k].at > WINDOW {
          kept := kept - {k};
        }
      }
    }

    method Sweep(now: Time)
      requires Valid()
      modifies this`m
      ensures Valid() && Linked(old(View())) && Index() == Swept(old(View()), now)
    {
      ViewLinked();
      ghost var t := View();
      assert forall k <- m :: Expired(t.entries[t.m[k]], now) <==> !m[k].state.Running? && now - m[k].at > WINDOW;
      m := Prune(m, now);
    }

    method RunGc(now: Time)
      requires Valid()
      modifies this`m, this`lastGC
      ensures Valid() && Linked(old(View())) && View() == Gc(old(View()), now, maxKeys)
    {
      ViewLinked();
      assert Index().Keys == m.Keys;
      if |m| > maxKeys {
        m := map[];
        assert View() == old(View()).(m := map[]);
      }
      if lastGC.Some? && now - lastGC.value < GC_EVERY {
        return;
      }
      Sweep(now);
      lastGC := Some(now);
    }

    method Insert(k: Key, now: Time) returns (e: Record)
      requires Valid()
      modifies this`m, this`made
      ensures Valid() && e in made
      ensures e.ref == |old(View()).entries|
      ensures View() == old(View()).(
        m := old(View()).m[k := |old(View()).entries|],
        entries := old(View()).entries + [Entry(k, now, Running)])
    {
      e := new Record(|made|, k, now);
      made := made + [e];
      m := m[k := e];
      assert Values(made) == old(Values(made)) + [Entry(k, now, Running)];
      assert Index() == old(Index())[k := |old(made)|];
    }

    /** do, up to the unlock: the entry to wait for, or (first) a new one to send for. */
    method Enter(k: Key, now: Time) returns (e: Record, first: bool)
      requires Valid()
      modifies this
      ensures Valid() && e in made && Linked(old(View()))
      ensures (View(), e.ref, first) == Ask(old(View()), k, now, maxKeys)
    {
      RunGc(now);
      ViewLinked();
      if k in m && now - m[k].at <= WINDOW {
        return m[k], false;
      }
      e := Insert(k, now);
      first := true;
    }

    method Done(e: Record, result: Attempt)
      requires Valid() && e in made
      modifies e
      ensures Valid() && e.ref < |old(View()).entries| && View() == Finish(old(View()), e.ref, result)
    {
      e.state := result;
    }

    method Drop(k: Key, e: Record)
      requires Valid() && e in made
      modifies this`m
      ensures Valid() && View() == Forget(old(View()), k, e.ref)
    {
      if k in m && m[k] == e {
        m := m - {k};
      }
    }
  }
}
