/** What each critical section of the send de-duplication does in any run: who sends, who waits, and who may try again. */
module DedupeRules {
  import opened Basics
  import opened Dedupe
  import opened DedupeRuns

  /** Whatever is unfinished has its sender, and whatever failed and is still known has someone about to forget it. */
  ghost predicate Attended(s: Sys) {
    && (forall i :: 0 <= i < |s.table.entries| && s.table.entries[i].state.Running? ==>
          exists c :: c in s.callers && s.callers[c] == Sending(i))
    && (forall k <- s.table.m :: s.table.m[k] < |s.table.entries| && (s.table.entries[s.table.m[k]].state.Failed? ==>
          exists c :: c in s.callers && s.callers[c] == Failing(s.table.m[k])))
  }

  /** What asking changes: a new caller, for a new entry of its own or for an old one, and nothing else is made known. */
  ghost predicate Asked(s: Sys, n: Sys, c: nat, k: Key, now: Time) {
    && c !in s.callers && Linked(n.table)
    && ((n.table.entries == s.table.entries && c in n.callers && n.callers == s.callers[c := n.callers[c]])
        || (n.table.entries == s.table.entries + [Entry(k, now, Running)]
            && n.callers == s.callers[c := Sending(|s.table.entries|)]))
    && (forall x <- n.table.m :: (x in s.table.m && n.table.m[x] == s.table.m[x]) || n.table.m[x] == |s.table.entries|)
  }

  lemma EnterStep(maxKeys: nat, s: Sys, e: Event)
    requires Inv(s) && e.Enter? && Enabled(s, e)
    ensures Refs(s) && Asked(s, Step(maxKeys, s, e), e.c, e.key, e.now)
  {
    assert Linked(s.table) && Refs(s);
    AskAdds(s.table, e.key, e.now, maxKeys);
    AskKnows(s.table, e.key, e.now, maxKeys);
    hide Ask, Inv, Linked;
  }

  lemma EnterAttended(s: Sys, n: Sys, c: nat, k: Key, now: Time)
    requires Attended(s) && Asked(s, n, c, k, now)
    ensures Attended(n)
  {
    forall i | 0 <= i < |n.table.entries| && n.table.entries[i].state.Running?
      ensures exists c :: c in n.callers && n.callers[c] == Sending(i)
    {
      if i < |s.table.entries| {
        var d :| d in s.callers && s.callers[d] == Sending(i);
        assert n.callers[d] == Sending(i);
      } else {
        assert n.callers[c] == Sending(i);
      }
    }
    forall x <- n.table.m | n.table.entries[n.table.m[x]].state.Failed?
      ensures exists d :: d in n.callers && n.callers[d] == Failing(n.table.m[x])
    {
      assert x in s.table.m && s.table.m[x] == n.table.m[x];
      var d :| d in s.callers && s.callers[d] == Failing(s.table.m[x]);
      assert n.callers[d] == Failing(n.table.m[x]);
    }
  }

  /** Asking makes nothing known but a new entry for its own key. */
  lemma AskKnows(t: Table, k: Key, now: Time, maxKeys: nat)
    requires Linked(t)
    ensures var (n, ref, first) := Ask(t, k, now, maxKeys);
      && Linked(n)
      && forall x <- n.m :: (x in t.m && n.m[x] == t.m[x]) || (x == k && first && n.m[x] == |t.entries|)
  {
  }

  /** What a finished send changes. */
  ghost predicate Finished(s: Sys, n: Sys, c: nat, result: Attempt) {
    && c in s.callers && s.callers[c].Sending? && s.callers[c].ref < |s.table.entries| && !result.Running?
    && n.table.m == s.table.m
    && n.table.entries == s.table.entries[s.callers[c].ref := s.table.entries[s.callers[c].ref].(state := result)]
    && n.callers == if result.Sent? then s.callers - {c} else s.callers[c := Failing(s.callers[c].ref)]
  }

  lemma FinishStep(maxKeys: nat, s: Sys, e: Event)
    requires Inv(s) && e.Finish? && Enabled(s, e)
    ensures Refs(s) && Finished(s, Step(maxKeys, s, e), e.c, e.result)
  {
    assert Linked(s.table) && Refs(s);
    hide Inv, Linked;
  }

  lemma FinishAttended(s: Sys, n: Sys, c: nat, result: Attempt)
    requires Attended(s) && Finished(s, n, c, result)
    ensures Attended(n)
  {
    var ref := s.callers[c].ref;
    forall i | 0 <= i < |n.table.entries| && n.table.entries[i].state.Running?
      ensures exists c :: c in n.callers && n.callers[c] == Sending(i)
    {
      var d :| d in s.callers && s.callers[d] == Sending(i);
      assert n.callers[d] == Sending(i);
    }
    forall k <- n.table.m | n.table.entries[n.table.m[k]].state.Failed?
      ensures exists d :: d in n.callers && n.callers[d] == Failing(n.table.m[k])
    {
      if n.table.m[k] == ref {
        assert n.callers[c] == Failing(ref);
      } else {
        var d :| d in s.callers && s.callers[d] == Failing(s.table.m[k]);
        assert n.callers[d] == Failing(n.table.m[k]);
      }
    }
  }

  /** A caller who leaves was not sending, and does not leave a failed entry behind that is still known. */
  lemma LeaveAttended(s: Sys, n: Sys, c: nat)
    requires Attended(s) && c in s.callers && n.table.entries == s.table.entries && n.callers == s.callers - {c}
    requires forall k <- n.table.m :: k in s.table.m && n.table.m[k] == s.table.m[k]
    requires !s.callers[c].Sending?
    requires s.callers[c].Failing? ==> forall k <- n.table.m :: n.table.m[k] != s.callers[c].ref
    ensures Attended(n)
  {
    forall i | 0 <= i < |n.table.entries| && n.table.entries[i].state.Running?
      ensures exists d :: d in n.callers && n.callers[d] == Sending(i)
    {
      var d :| d in s.callers && s.callers[d] == Sending(i);
      assert n.callers[d] == Sending(i);
    }
    forall k <- n.table.m | n.table.entries[n.table.m[k]].state.Failed?
      ensures exists d :: d in n.callers && n.callers[d] == Failing(n.table.m[k])
    {
      var d :| d in s.callers && s.callers[d] == Failing(s.table.m[k]);
      assert n.callers[d] == Failing(n.table.m[k]);
    }
  }

  lemma LeaveStep(maxKeys: nat, s: Sys, e: Event)
    requires Inv(s) && (e.Forget? || e.Wake? || e.Cancel?) && Enabled(s, e)
    ensures Refs(s)
    ensures var n := Step(maxKeys, s, e);
      && n.table.entries == s.table.entries && n.callers == s.callers - {e.c} && e.c in s.callers
      && (forall k <- n.table.m :: k in s.table.m && n.table.m[k] == s.table.m[k])
      && !s.callers[e.c].Sending?
      && (s.callers[e.c].Failing? ==> forall k <- n.table.m :: n.table.m[k] != s.callers[e.c].ref)
  {
    assert Linked(s.table) && Refs(s);
    hide Inv;
  }

  lemma {:induction false} ExecAttended(maxKeys: nat, es: seq<Event>)
    ensures Attended(Exec(maxKeys, es))
  {
    if es != [] {
      var s, e := Exec(maxKeys, es[..|es| - 1]), es[|es| - 1];
      assert Exec(maxKeys, es) == Step(maxKeys, s, e);
      ExecAttended(maxKeys, es[..|es| - 1]);
      ExecInv(maxKeys, es[..|es| - 1]);
      hide Exec, Inv, Attended;
      if Enabled(s, e) {
        match e
        case Enter(c, k, now) => EnterStep(maxKeys, s, e); EnterAttended(s, Step(maxKeys, s, e), c, k, now);
        case Finish(c, result) => FinishStep(maxKeys, s, e); FinishAttended(s, Step(maxKeys, s, e), c, result);
        case _ => LeaveStep(maxKeys, s, e); LeaveAttended(s, Step(maxKeys, s, e), e.c);
      }
    }
  }

  /** Whoever waits, waits for an entry that is done, or for one that somebody is sending. */
  lemma NobodyWaitsInVain(maxKeys: nat, es: seq<Event>, c: nat)
    requires var s := Exec(maxKeys, es); c in s.callers && s.callers[c].Waiting?
    ensures var s := Exec(maxKeys, es);
      && s.callers[c].ref < |s.table.entries|
      && (s.table.entries[s.callers[c].ref].state.Running? ==>
            exists d :: d in s.callers && s.callers[d] == Sending(s.callers[c].ref))
  {
    ExecAttended(maxKeys, es);
  }

  // ---- who sends ----

  /** A send of k that runs or succeeded, at most ten minutes before now. */
  ghost predicate Counts(t: Table, i: nat, k: Key, now: Time) {
    i < |t.entries| && t.entries[i].key == k && !t.entries[i].state.Failed? && now - t.entries[i].at <= WINDOW
  }

  /** A repeat within ten minutes of a send that runs or succeeded sends nothing: it waits for that one. */
  lemma RepeatWaits(maxKeys: nat, es: seq<Event>, c: nat, k: Key, now: Time, i: nat)
    requires var s := Exec(maxKeys, es);
      && Enabled(s, Enter(c, k, now)) && !s.cleared && |s.table.m| <= maxKeys
      && Counts(s.table, i, k, now)
    ensures var s, n := Exec(maxKeys, es), Step(maxKeys, Exec(maxKeys, es), Enter(c, k, now));
      n.table.entries == s.table.entries && n.callers == s.callers[c := Waiting(i, now)] && n.returned == s.returned
  {
    var s := Exec(maxKeys, es);
    ExecInv(maxKeys, es);
    hide Exec;
    GcKeeps(s.table, s.now, now, maxKeys);
    var g := Gc(s.table, now, maxKeys);
    assert k in g.m && g.m[k] == i;
    hide Gc;
  }

  /**
   * Without such a send, and with nobody about to forget a failed one, it is sent, under a new entry; so a
   * failed send can be tried again as soon as its entry was forgotten, and any send after ten minutes.
   */
  lemma OthersSend(maxKeys: nat, es: seq<Event>, c: nat, k: Key, now: Time)
    requires var s := Exec(maxKeys, es);
      && Enabled(s, Enter(c, k, now))
      && (forall i :: !Counts(s.table, i, k, now))
      && (forall d <- s.callers :: s.callers[d].Failing? ==> s.table.entries[s.callers[d].ref].key != k)
    ensures var s, n := Exec(maxKeys, es), Step(maxKeys, Exec(maxKeys, es), Enter(c, k, now));
      && n.table.entries == s.table.entries + [Entry(k, now, Running)]
      && n.callers == s.callers[c := Sending(|s.table.entries|)] && n.returned == s.returned
      && k in n.table.m && n.table.m[k] == |s.table.entries|
  {
    var s := Exec(maxKeys, es);
    ExecInv(maxKeys, es);
    ExecAttended(maxKeys, es);
    hide Exec;
    if k in s.table.m {
      KnownIsNotFailed(s, k);
      assert !Counts(s.table, s.table.m[k], k, now);
    }
    hide Inv, Attended;
  }

  lemma KnownIsNotFailed(s: Sys, k: Key)
    requires Inv(s) && Attended(s) && k in s.table.m
    requires forall d <- s.callers :: s.callers[d].Failing? ==> s.table.entries[s.callers[d].ref].key != k
    ensures !s.table.entries[s.table.m[k]].state.Failed?
  {
  }

  /** After a failed attempt has forgotten its entry, that entry is not known under any key, nor will it ever be again. */
  lemma ForgottenIsUnknown(maxKeys: nat, es: seq<Event>, c: nat, k: Key)
    requires var s := Exec(maxKeys, es); c in s.callers && s.callers[c].Failing?
    ensures var s, n := Exec(maxKeys, es), Step(maxKeys, Exec(maxKeys, es), Forget(c));
      && n.table.entries == s.table.entries && c !in n.callers
      && (k in n.table.m ==> n.table.m[k] != s.callers[c].ref)
      && (k in s.table.m && s.table.m[k] != s.callers[c].ref ==> k in n.table.m && n.table.m[k] == s.table.m[k])
  {
    ExecInv(maxKeys, es);
  }

  // ---- what comes back ----

  /** A send that succeeded reports its own id to its caller, who is done; one that failed is about to be forgotten. */
  lemma SenderReturns(maxKeys: nat, es: seq<Event>, c: nat, result: Attempt)
    requires Enabled(Exec(maxKeys, es), DedupeRuns.Finish(c, result))
    ensures var s, n := Exec(maxKeys, es), Step(maxKeys, Exec(maxKeys, es), DedupeRuns.Finish(c, result));
      var ref := s.callers[c].ref;
      && n.table.m == s.table.m && n.table.entries == s.table.entries[ref := s.table.entries[ref].(state := result)]
      && match result
         case Sent(id) =>
           && c !in n.callers
           && n.returned == s.returned + [Return(s.table.entries[ref].key, id, false, s.table.entries[ref].at)]
         case _ => n.callers == s.callers[c := Failing(ref)] && n.returned == s.returned
  {
  }

  /** A waiter whose send succeeded gets the id it was sent under; after a failure it gets nothing and may ask again. */
  lemma WaiterReturns(maxKeys: nat, es: seq<Event>, c: nat)
    requires Enabled(Exec(maxKeys, es), Wake(c))
    ensures var s, n := Exec(maxKeys, es), Step(maxKeys, Exec(maxKeys, es), Wake(c));
      var e := s.table.entries[s.callers[c].ref];
      && n.table == s.table && n.callers == s.callers - {c}
      && (e.state.Sent? ==> n.returned == s.returned + [Return(e.key, e.state.id, true, s.callers[c].asked)])
      && (e.state.Failed? ==> n.returned == s.returned)
  {
  }

  // ---- the sweep ----

  /** At most once a minute finished sends of more than ten minutes ago are dropped; nothing else ever is. */
  lemma GcRules(t: Table, now: Time, maxKeys: nat, k: Key)
    requires Linked(t) && |t.m| <= maxKeys
    ensures var n := Gc(t, now, maxKeys);
      && n.entries == t.entries
      && (k in n.m ==> k in t.m && n.m[k] == t.m[k])
      && (if t.lastGC.Some? && now < t.lastGC.value + 60 * SECOND then n == t
          else
            && n.lastGC == Some(now)
            && (k in t.m ==>
                  (k in n.m <==> t.entries[t.m[k]].state.Running? || now <= t.entries[t.m[k]].at + 600 * SECOND)))
  {
  }
}
