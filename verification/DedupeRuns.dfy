/**
 * Whole runs of the send de-duplication: senders, waiters and retries interleave freely between the
 * critical sections. The clock is read under the lock and does not run backwards.
 */
module DedupeRuns {
  import opened Basics
  import opened Dedupe

  /** What a goroutine inside do is at: sending, about to forget its failed entry, or waiting. */
  datatype Caller = Sending(ref: nat) | Failing(ref: nat) | Waiting(ref: nat, asked: Time)

  /** do came back without an error. */
  datatype Return = Return(key: Key, id: Id, replay: bool, asked: Time)

  /** `cleared`: gc once dropped everything because the map had outgrown maxKeys. */
  datatype Sys = Sys(table: Table, callers: map<nat, Caller>, returned: seq<Return>, now: Time, cleared: bool)

  /** A waiter whose first attempt failed asks again: a Wake followed by an Enter. */
  datatype Event =
    | Enter(c: nat, key: Key, now: Time)
    | Finish(c: nat, result: Attempt)
    | Forget(c: nat)
    | Wake(c: nat)
    | Cancel(c: nat)

  const INIT: Sys := Sys(EMPTY, map[], [], 0, false)

  predicate Enabled(s: Sys, e: Event) {
    match e
    case Enter(c, _, now) => c !in s.callers && s.now <= now
    case Finish(c, result) => c in s.callers && s.callers[c].Sending? && !result.Running?
    case Forget(c) => c in s.callers && s.callers[c].Failing?
    case Wake(c) =>
      c in s.callers && s.callers[c].Waiting? && s.callers[c].ref < |s.table.entries|
      && !s.table.entries[s.callers[c].ref].state.Running?
    case Cancel(c) => c in s.callers && s.callers[c].Waiting?
  }

  /** References of callers and of the map lead to entries. */
  predicate Refs(s: Sys) {
    Linked(s.table) && forall c <- s.callers :: s.callers[c].ref < |s.table.entries|
  }

  function Step(maxKeys: nat, s: Sys, e: Event): Sys
    requires Refs(s)
  {
    if !Enabled(s, e) then s
    else match e
      case Enter(c, k, now) =>
        var (t, ref, first) := Ask(s.table, k, now, maxKeys);
        Sys(t, s.callers[c := if first then Sending(ref) else Waiting(ref, now)], s.returned, now,
            s.cleared || |s.table.m| > maxKeys)
      case Finish(c, result) =>
        var ref := s.callers[c].ref;
        var n := s.(table := Dedupe.Finish(s.table, ref, result));
        if result.Sent? then
          n.(callers := s.callers - {c},
             returned := s.returned + [Return(s.table.entries[ref].key, result.id, false, s.table.entries[ref].at)])
        else n.(callers := s.callers[c := Failing(ref)])
      case Forget(c) =>
        var ref := s.callers[c].ref;
        s.(table := Dedupe.Forget(s.table, s.table.entries[ref].key, ref), callers := s.callers - {c})
      case Wake(c) =>
        var e := s.table.entries[s.callers[c].ref];
        var n := s.(callers := s.callers - {c});
        if e.state.Sent? then n.(returned := s.returned + [Return(e.key, e.state.id, true, s.callers[c].asked)])
        else n
      case Cancel(c) => s.(callers := s.callers - {c})
  }

  // ---- the invariant ----

  /** Senders own a running entry each, and only failed entries are about to be forgotten. */
  ghost predicate Owners(callers: map<nat, Caller>, entries: seq<Entry>) {
    && (forall c <- callers :: callers[c].ref < |entries| && Owns(callers[c], entries[callers[c].ref]))
    && (forall c <- callers, d <- callers ::
          callers[c].Sending? && callers[d].Sending? && callers[c].ref == callers[d].ref ==> c == d)
  }

  predicate Owns(c: Caller, e: Entry) {
    match c
    case Sending(_) => e.state.Running?
    case Failing(_) => e.state.Failed?
    case Waiting(_, asked) => asked - e.at <= WINDOW
  }

  ghost predicate Clock(t: Table, now: Time) {
    && (forall i :: 0 <= i < |t.entries| ==> t.entries[i].at <= now)
    && (forall i, j :: 0 <= i < j < |t.entries| ==> t.entries[i].at <= t.entries[j].at)
    && (t.lastGC.Some? ==> t.lastGC.value <= now)
  }

  /** Within the window an entry is on the map until it fails. */
  ghost predicate Remembered(t: Table, now: Time) {
    forall i :: 0 <= i < |t.entries| ==>
      var e := t.entries[i];
      e.state.Failed? || now - e.at > WINDOW || (e.key in t.m && t.m[e.key] == i)
  }

  ghost predicate Apart(t: Table) {
    forall i, j :: 0 <= i < j < |t.entries| && t.entries[i].key == t.entries[j].key ==>
      t.entries[i].state.Failed? || t.entries[j].at - t.entries[i].at > WINDOW
  }

  /** Some entry was sent under that id for that key, at most a window before do was asked. */
  ghost predicate Backed(entries: seq<Entry>, r: Return) {
    exists i :: 0 <= i < |entries| && Backs(entries[i], r)
  }

  predicate Backs(e: Entry, r: Return) {
    e.key == r.key && e.state == Sent(r.id) && r.asked - e.at <= WINDOW
  }

  ghost predicate Inv(s: Sys) {
    && Linked(s.table) && Owners(s.callers, s.table.entries) && Clock(s.table, s.now)
    && (!s.cleared ==> Remembered(s.table, s.now) && Apart(s.table))
    && (forall r <- s.returned :: Backed(s.table.entries, r))
  }

  /** Sent entries stay as they are. */
  lemma BackedStays(a: seq<Entry>, b: seq<Entry>, r: Return)
    requires Backed(a, r) && |a| <= |b| && forall i :: 0 <= i < |a| && a[i].state.Sent? ==> b[i] == a[i]
    ensures Backed(b, r)
  {
    var i :| 0 <= i < |a| && Backs(a[i], r);
    assert Backs(b[i], r);
  }

  lemma GcKeeps(t: Table, was: Time, now: Time, maxKeys: nat)
    requires Linked(t) && Remembered(t, was) && was <= now && |t.m| <= maxKeys
    ensures var g := Gc(t, now, maxKeys); g.entries == t.entries && Remembered(g, now)
  {
  }

  lemma InsertKeeps(t: Table, k: Key, now: Time)
    requires Linked(t) && Remembered(t, now) && Apart(t) && Clock(t, now)
    requires k in t.m ==> now - t.entries[t.m[k]].at > WINDOW
    ensures var n := t.(m := t.m[k := |t.entries|], entries := t.entries + [Entry(k, now, Running)]);
      Remembered(n, now) && Apart(n)
  {
    forall i | 0 <= i < |t.entries| && t.entries[i].key == k
      ensures t.entries[i].state.Failed? || now - t.entries[i].at > WINDOW {}
  }

  lemma EnterKeepsTable(t: Table, k: Key, was: Time, now: Time, maxKeys: nat)
    requires Linked(t) && Remembered(t, was) && Apart(t) && was <= now && |t.m| <= maxKeys
    requires Clock(t, was)
    ensures var (n, ref, first) := Ask(t, k, now, maxKeys); Remembered(n, now) && Apart(n)
  {
    GcKeeps(t, was, now, maxKeys);
    var g := Gc(t, now, maxKeys);
    assert Linked(g) && g.lastGC in {t.lastGC, Some(now)};
    hide Gc, Remembered;
    if !(k in g.m && now - g.entries[g.m[k]].at <= WINDOW) { InsertKeeps(g, k, now); }
    hide Linked, Apart, Clock;
  }

  /** What the critical section adds to the entries. */
  lemma AskAdds(t: Table, k: Key, now: Time, maxKeys: nat)
    requires Linked(t)
    ensures var (n, ref, first) := Ask(t, k, now, maxKeys);
      && (if first then n.entries == t.entries + [Entry(k, now, Running)] && ref == |t.entries|
          else n.entries == t.entries && now - t.entries[ref].at <= WINDOW)
      && (n.lastGC == t.lastGC || n.lastGC == Some(now))
  {
  }

  lemma EnterOwners(callers: map<nat, Caller>, entries: seq<Entry>, c: nat, k: Key, now: Time)
    requires Owners(callers, entries) && c !in callers
    ensures Owners(callers[c := Sending(|entries|)], entries + [Entry(k, now, Running)])
  {
  }

  lemma EnterKeepsRest(s: Sys, t: Table, k: Key, now: Time)
    requires Clock(s.table, s.now) && s.now <= now && forall r <- s.returned :: Backed(s.table.entries, r)
    requires t.entries == s.table.entries || t.entries == s.table.entries + [Entry(k, now, Running)]
    requires t.lastGC == s.table.lastGC || t.lastGC == Some(now)
    ensures Clock(t, now) && forall r <- s.returned :: Backed(t.entries, r)
  {
    forall r <- s.returned ensures Backed(t.entries, r) { BackedStays(s.table.entries, t.entries, r); }
    hide Backed;
  }

  lemma EnterKeeps(maxKeys: nat, s: Sys, e: Event)
    requires Inv(s) && e.Enter? && Enabled(s, e)
    ensures Inv(Step(maxKeys, s, e))
  {
    assert Refs(s);
    hide Remembered, Apart, Owners, Clock, Backed, Gc;
    if !s.cleared && |s.table.m| <= maxKeys {
      EnterKeepsTable(s.table, e.key, s.now, e.now, maxKeys);
    }
    AskAdds(s.table, e.key, e.now, maxKeys);
    EnterOwners(s.callers, s.table.entries, e.c, e.key, e.now);
    var (t, ref, first) := Ask(s.table, e.key, e.now, maxKeys);
    EnterKeepsRest(s, t, e.key, e.now);
    if !first { WaiterOwns(s.callers, s.table.entries, e.c, ref, e.now); }
    hide Ask, Linked;
  }

  lemma WaiterOwns(callers: map<nat, Caller>, entries: seq<Entry>, c: nat, ref: nat, now: Time)
    requires Owners(callers, entries) && c !in callers && ref < |entries| && now - entries[ref].at <= WINDOW
    ensures Owners(callers[c := Waiting(ref, now)], entries)
  {
  }

  lemma FinishKeepsTable(t: Table, now: Time, ref: nat, result: Attempt)
    requires ref < |t.entries| && Linked(t)
    requires !result.Running?
    ensures Linked(Dedupe.Finish(t, ref, result))
    ensures t.entries[ref].state.Running? && Remembered(t, now) && Apart(t) ==>
      var n := Dedupe.Finish(t, ref, result); Remembered(n, now) && Apart(n)
  {
  }

  lemma FinishOwners(callers: map<nat, Caller>, entries: seq<Entry>, c: nat, result: Attempt)
    requires Owners(callers, entries) && c in callers && callers[c].Sending?
    ensures var ref := callers[c].ref;
      var next := entries[ref := entries[ref].(state := result)];
      && Owners(callers - {c}, next)
      && (result.Failed? ==> Owners(callers[c := Failing(ref)], next))
  {
    var ref := callers[c].ref;
    assert forall d <- callers :: Owns(callers[d], entries[callers[d].ref]);
    assert Owns(callers[c], entries[ref]);
  }

  lemma FinishKeeps(maxKeys: nat, s: Sys, e: Event)
    requires Inv(s) && e.Finish? && Enabled(s, e)
    ensures Inv(Step(maxKeys, s, e))
  {
    var n, ref := Step(maxKeys, s, e), s.callers[e.c].ref;
    assert Owns(s.callers[e.c], s.table.entries[ref]);
    FinishKeepsTable(s.table, s.now, ref, e.result);
    FinishOwners(s.callers, s.table.entries, e.c, e.result);
    hide Linked, Remembered, Apart, Owners, Owns;
    forall r <- n.returned ensures Backed(n.table.entries, r) {
      if r in s.returned { BackedStays(s.table.entries, n.table.entries, r); }
      else { assert Backs(n.table.entries[ref], r); }
    }
  }

  lemma ForgetKeepsTable(t: Table, now: Time, ref: nat)
    requires ref < |t.entries| && Linked(t) && t.entries[ref].state.Failed?
    ensures var n := Dedupe.Forget(t, t.entries[ref].key, ref);
      && n.entries == t.entries && n.lastGC == t.lastGC && Linked(n)
      && (Remembered(t, now) && Apart(t) ==> Remembered(n, now) && Apart(n))
  {
  }

  lemma LeaveOwners(callers: map<nat, Caller>, entries: seq<Entry>, c: nat)
    requires Owners(callers, entries)
    ensures Owners(callers - {c}, entries)
  {
  }

  lemma ForgetKeeps(maxKeys: nat, s: Sys, e: Event)
    requires Inv(s) && e.Forget? && Enabled(s, e)
    ensures Inv(Step(maxKeys, s, e))
  {
    var ref := s.callers[e.c].ref;
    assert Owns(s.callers[e.c], s.table.entries[ref]);
    ForgetKeepsTable(s.table, s.now, ref);
    LeaveOwners(s.callers, s.table.entries, e.c);
    hide Backed, Remembered, Apart, Linked, Owners;
  }

  lemma OthersKeep(maxKeys: nat, s: Sys, e: Event)
    requires Inv(s) && (e.Wake? || e.Cancel?) && Enabled(s, e)
    ensures Inv(Step(maxKeys, s, e))
  {
    var n, ref := Step(maxKeys, s, e), s.callers[e.c].ref;
    assert Owns(s.callers[e.c], s.table.entries[ref]);
    assert Owners(n.callers, n.table.entries);
    hide Linked, Remembered, Apart, Clock, Owners;
    forall r <- n.returned ensures Backed(n.table.entries, r) {
      if r !in s.returned {
        assert Backs(s.table.entries[ref], r);
      }
    }
  }

  lemma StepKeepsInv(maxKeys: nat, s: Sys, e: Event)
    requires Inv(s)
    ensures Inv(Step(maxKeys, s, e))
  {
    if Enabled(s, e) {
      match e
      case Enter(_, _, _) => EnterKeeps(maxKeys, s, e);
      case Finish(_, _) => FinishKeeps(maxKeys, s, e);
      case Forget(_) => ForgetKeeps(maxKeys, s, e);
      case _ => OthersKeep(maxKeys, s, e);
    }
  }

  lemma StepKeepsRefs(maxKeys: nat, s: Sys, e: Event)
    requires Refs(s)
    ensures Refs(Step(maxKeys, s, e))
  {
    if e.Enter? { AskAdds(s.table, e.key, e.now, maxKeys); }
    hide Ask;
  }

  function Exec(maxKeys: nat, es: seq<Event>): (s: Sys)
    ensures Refs(s)
  {
    if es == [] then INIT
    else
      var before := Exec(maxKeys, es[..|es| - 1]);
      StepKeepsRefs(maxKeys, before, es[|es| - 1]);
      Step(maxKeys, before, es[|es| - 1])
  }

  lemma {:induction false} ExecInv(maxKeys: nat, es: seq<Event>)
    ensures Inv(Exec(maxKeys, es))
  {
    if es == [] {
    } else {
      ExecInv(maxKeys, es[..|es| - 1]);
      StepKeepsInv(maxKeys, Exec(maxKeys, es[..|es| - 1]), es[|es| - 1]);
      hide Inv, Step, Refs;
    }
  }

  /** Unless everything was once cleared, two sends of one key start more than a window apart or the first failed. */
  lemma SendsAreApart(maxKeys: nat, es: seq<Event>, i: nat, j: nat)
    requires var s := Exec(maxKeys, es);
      !s.cleared && i < j < |s.table.entries| && s.table.entries[i].key == s.table.entries[j].key
    ensures var t := Exec(maxKeys, es).table;
      t.entries[i].state.Failed? || t.entries[j].at - t.entries[i].at > WINDOW
  {
    ExecInv(maxKeys, es);
    assert Apart(Exec(maxKeys, es).table);
  }

  /** Whatever do reports, a send of that very key had that result at most ten minutes before do was asked. */
  lemma ReplayedIdIsReal(maxKeys: nat, es: seq<Event>, r: Return)
    requires r in Exec(maxKeys, es).returned
    ensures exists e <- Exec(maxKeys, es).table.entries ::
      e.key == r.key && e.state == Sent(r.id) && r.asked - e.at <= WINDOW
  {
    var entries := Exec(maxKeys, es).table.entries;
    ExecInv(maxKeys, es);
    hide Exec;
    assert Backed(entries, r);
    var i :| 0 <= i < |entries| && Backs(entries[i], r);
    assert entries[i] in entries;
  }

  /** A failed attempt takes at most its own entry off the map: one that runs or succeeded stays. */
  lemma ForgetSparesNewer(maxKeys: nat, es: seq<Event>, c: nat, k: Key)
    requires var s := Exec(maxKeys, es); k in s.table.m && !s.table.entries[s.table.m[k]].state.Failed?
    ensures var s, n := Exec(maxKeys, es), Step(maxKeys, Exec(maxKeys, es), Forget(c));
      k in n.table.m && n.table.m[k] == s.table.m[k]
  {
    var s := Exec(maxKeys, es);
    ExecInv(maxKeys, es);
    hide Exec;
    if c in s.callers { assert Owns(s.callers[c], s.table.entries[s.callers[c].ref]); }
  }

  /** Why the clear is excepted: past maxKeys it forgets a send that has just succeeded. */
  lemma ClearRepeatsASend() returns (es: seq<Event>)
    ensures var s := Exec(0, es);
      && s.cleared && |s.table.entries| == 2
      && s.table.entries[0].key == s.table.entries[1].key && s.table.entries[0].at == s.table.entries[1].at
      && s.table.entries[0].state == Sent(7) && s.table.entries[1].state == Sent(8)
  {
    hide Exec, Inv;
    var k: Key := 1;
    var first := Entry(k, 0, Sent(7));
    EmptyRun(0);
    es := Push(0, [], Enter(0, k, 0));
    es := Push(0, es, Finish(0, Sent(7)));
    var s := Exec(0, es);
    assert s.table == Table(map[k := 0], [first], Some(0)) && s.callers == map[] && s.now == 0;
    es := SendAgain(es, k);
  }

  /** The second send of the run above, past the bound of an empty table. */
  lemma SendAgain(es: seq<Event>, k: Key) returns (out: seq<Event>)
    requires var s := Exec(0, es);
      s.table == Table(map[k := 0], [Entry(k, 0, Sent(7))], Some(0)) && s.callers == map[] && s.now == 0
    ensures var s := Exec(0, out); s.cleared && s.table.entries == [Entry(k, 0, Sent(7)), Entry(k, 0, Sent(8))]
  {
    hide Exec, Inv;
    out := Push(0, es, Enter(1, k, 0));
    var s := Exec(0, out);
    assert s.cleared && s.callers == map[1 := Sending(1)];
    assert s.table.entries == [Entry(k, 0, Sent(7)), Entry(k, 0, Running)];
    out := Push(0, out, Finish(1, Sent(8)));
  }

  lemma EmptyRun(maxKeys: nat)
    ensures Exec(maxKeys, []) == INIT
  {
  }

  lemma Push(maxKeys: nat, es: seq<Event>, e: Event) returns (more: seq<Event>)
    ensures more == es + [e] && Refs(Exec(maxKeys, es)) && Exec(maxKeys, more) == Step(maxKeys, Exec(maxKeys, es), e)
  {
    more := es + [e];
    assert more[..|es|] == es;
  }
}
