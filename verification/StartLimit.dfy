/**
 * The limit on starting calls (internal/calls/calls.go allowStart) over any sequence of attempts. Handlers
 * read the clock before they take the lock, so readings may reach the lock out of order, by at most `lag`.
 */
module StartLimit {
  import opened Basics
  import opened CallManager

  datatype Ask = Ask(user: Id, at: Time)

  /**
   * `allowed`: per user, the times of all starts let through since the table last outgrew its bound and was
   * cleared, in lock order; `now`: the latest reading so far.
   */
  datatype Sys = Sys(starts: map<Id, seq<Time>>, allowed: map<Id, seq<Time>>, now: Time)

  /** With this user the table holds more users than it may. */
  predicate Outgrown(starts: map<Id, seq<Time>>, u: Id) {
    |starts.Keys + {u}| > 100_000
  }

  function Step(lag: Time, s: Sys, a: Ask): Sys {
    if a.at < s.now - lag then s
    else
      var (ok, starts) := AllowStart(s.starts, a.user, a.at);
      if ok && Outgrown(s.starts, a.user) then Sys(starts, map[], Max(s.now, a.at))
      else
        Sys(starts, if ok then s.allowed[a.user := StartsOf(s.allowed, a.user) + [a.at]] else s.allowed,
            Max(s.now, a.at))
  }

  function Exec(lag: Time, asks: seq<Ask>): Sys {
    if asks == [] then Sys(map[], map[], 0)
    else Step(lag, Exec(lag, asks[..|asks| - 1]), asks[|asks| - 1])
  }

  /** `kept` is `all` without some times that lie a minute or more before `now`. */
  predicate Kept(kept: seq<Time>, all: seq<Time>, now: Time) {
    if all == [] then kept == []
    else
      var n, k := |all| - 1, |kept| - 1;
      || (k >= 0 && kept[k] == all[n] && Kept(kept[..k], all[..n], now))
      || (now - all[n] >= MINUTE && Kept(kept, all[..n], now))
  }

  predicate Near(all: seq<Time>, now: Time, lag: Time) {
    && (forall i :: 0 <= i < |all| ==> all[i] <= now)
    && (forall i, j :: 0 <= i < j < |all| ==> all[i] <= all[j] + lag)
  }

  predicate Spaced(all: seq<Time>, lag: Time) {
    forall i :: 0 <= i < |all| - STARTS_PER_MINUTE ==> all[i + STARTS_PER_MINUTE] - all[i] >= MINUTE - 2 * lag
  }

  ghost predicate Good(kept: seq<Time>, all: seq<Time>, now: Time, lag: Time) {
    Kept(kept, all, now) && Near(all, now, lag) && Spaced(all, lag)
  }

  ghost predicate Inv(lag: Time, s: Sys) {
    forall u :: Good(StartsOf(s.starts, u), StartsOf(s.allowed, u), s.now, lag)
  }

  /** Filtering again, at any reading, drops only times a minute older than the latest one. */
  lemma {:induction false} RecentKept(kept: seq<Time>, all: seq<Time>, now: Time, at: Time)
    requires Kept(kept, all, now)
    ensures Kept(Recent(kept, at), all, Max(now, at))
  {
    if all != [] {
      var n, k := |all| - 1, |kept| - 1;
      if k >= 0 && kept[k] == all[n] && Kept(kept[..k], all[..n], now) {
        RecentKept(kept[..k], all[..n], now, at);
        var rest := Recent(kept[..k], at);
        if at - kept[k] < MINUTE { assert (rest + [kept[k]])[..|rest|] == rest; }
      } else {
        RecentKept(kept, all[..n], now, at);
      }
    }
  }

  /** If fewer than n are kept, one of the last n is a minute old. */
  lemma {:induction false} SomeDropped(kept: seq<Time>, all: seq<Time>, now: Time, n: nat) returns (j: nat)
    requires Kept(kept, all, now) && |kept| < n <= |all|
    ensures |all| - n <= j < |all| && now - all[j] >= MINUTE
    decreases |all|
  {
    j := |all| - 1;
    if now - all[j] < MINUTE {
      j := SomeDropped(kept[..|kept| - 1], all[..j], now, n - 1);
    }
  }

  lemma PushKept(kept: seq<Time>, all: seq<Time>, now: Time, at: Time)
    requires Kept(kept, all, now)
    ensures Kept(kept + [at], all + [at], now)
  {
    assert (kept + [at])[..|kept|] == kept && (all + [at])[..|all|] == all;
  }

  lemma PushSpaced(kept: seq<Time>, all: seq<Time>, now: Time, at: Time, lag: Time)
    requires Good(kept, all, now, lag) && now - lag <= at <= now && |kept| < STARTS_PER_MINUTE && lag >= 0
    ensures Near(all + [at], now, lag) && Spaced(all + [at], lag)
  {
    if |all| >= STARTS_PER_MINUTE {
      var i := |all| - STARTS_PER_MINUTE;
      var j := SomeDropped(kept, all, now, STARTS_PER_MINUTE);
      assert all[i] <= all[j] + lag;
    }
    hide Kept;
  }

  lemma AskKeeps(kept: seq<Time>, all: seq<Time>, now: Time, at: Time, lag: Time)
    requires Good(kept, all, now, lag) && now - lag <= at && lag >= 0
    ensures Good(kept, all, Max(now, at), lag)
    ensures var recent := Recent(kept, at);
      if |recent| >= STARTS_PER_MINUTE then Good(recent, all, Max(now, at), lag)
      else Good(recent + [at], all + [at], Max(now, at), lag)
  {
    var recent, later := Recent(kept, at), Max(now, at);
    RecentKept(kept, all, now, at);
    KeptLater(kept, all, now, later);
    hide Recent, Kept, Spaced;
    if |recent| < STARTS_PER_MINUTE {
      PushKept(recent, all, later, at);
      PushSpaced(recent, all, later, at, lag);
    }
  }

  lemma {:induction false} KeptLater(kept: seq<Time>, all: seq<Time>, now: Time, later: Time)
    requires Kept(kept, all, now) && now <= later
    ensures Kept(kept, all, later)
  {
    if all != [] {
      var n, k := |all| - 1, |kept| - 1;
      if k >= 0 && kept[k] == all[n] && Kept(kept[..k], all[..n], now) { KeptLater(kept[..k], all[..n], now, later); }
      else { KeptLater(kept, all[..n], now, later); }
    }
  }

  /** What allowStart does to each user's entry: it clears all of them only when the table has outgrown its bound. */
  lemma EntryAfter(starts: map<Id, seq<Time>>, asker: Id, at: Time, u: Id)
    ensures var (ok, next) := AllowStart(starts, asker, at);
      var recent := Recent(StartsOf(starts, asker), at);
      && (ok <==> |recent| < STARTS_PER_MINUTE)
      && (StartsOf(next, u) ==
            if ok && Outgrown(starts, asker) then []
            else if u != asker then StartsOf(starts, u) else if ok then recent + [at] else recent)
  {
    hide Recent;
    var recent := Recent(StartsOf(starts, asker), at);
    assert starts[asker := recent + [at]].Keys == starts.Keys + {asker};
  }

  lemma NothingKept(now: Time, lag: Time)
    ensures Good([], [], now, lag)
  {
  }

  lemma GoodOf(lag: Time, s: Sys, u: Id)
    requires Inv(lag, s)
    ensures Good(StartsOf(s.starts, u), StartsOf(s.allowed, u), s.now, lag)
  {
  }

  /** One attempt, seen by any user: only the asker's entry changes, or all go. */
  lemma StepUser(lag: Time, s: Sys, a: Ask, u: Id)
    requires Inv(lag, s) && lag >= 0 && s.now - lag <= a.at
    ensures var n := Step(lag, s, a); Good(StartsOf(n.starts, u), StartsOf(n.allowed, u), n.now, lag)
  {
    hide Inv, Good, Recent, AllowStart, Outgrown;
    GoodOf(lag, s, u);
    NothingKept(Max(s.now, a.at), lag);
    AskKeeps(StartsOf(s.starts, u), StartsOf(s.allowed, u), s.now, a.at, lag);
    EntryAfter(s.starts, a.user, a.at, u);
  }

  lemma StepKeepsInv(lag: Time, s: Sys, a: Ask)
    requires Inv(lag, s) && lag >= 0
    ensures Inv(lag, Step(lag, s, a))
  {
    var n := Step(lag, s, a);
    if a.at >= s.now - lag {
      forall u ensures Good(StartsOf(n.starts, u), StartsOf(n.allowed, u), n.now, lag) {
        hide *;
        StepUser(lag, s, a, u);
      }
    }
    hide Good, AllowStart;
  }

  lemma {:induction false} ExecInv(lag: Time, asks: seq<Ask>)
    requires lag >= 0
    ensures Inv(lag, Exec(lag, asks))
  {
    if asks == [] {
    } else {
      ExecInv(lag, asks[..|asks| - 1]);
      StepKeepsInv(lag, Exec(lag, asks[..|asks| - 1]), asks[|asks| - 1]);
      hide Inv, Step;
    }
  }

  /**
   * Between two clears of the table nobody ever starts eleven calls within a minute, less twice what the clock
   * readings may be out of order.
   */
  lemma ElevenTakeAMinute(lag: Time, asks: seq<Ask>, u: Id, i: nat)
    requires lag >= 0
    requires i + STARTS_PER_MINUTE < |StartsOf(Exec(lag, asks).allowed, u)|
    ensures var ts := StartsOf(Exec(lag, asks).allowed, u); ts[i + STARTS_PER_MINUTE] - ts[i] >= MINUTE - 2 * lag
  {
    ExecInv(lag, asks);
    var s := Exec(lag, asks);
    hide Exec;
    assert Good(StartsOf(s.starts, u), StartsOf(s.allowed, u), s.now, lag);
  }

  // ---- readings in order: the exact rule ----

  /** Of a list in order, n kept times less than a minute old are among the last. */
  lemma {:induction false} KeptAreLast(kept: seq<Time>, all: seq<Time>, now: Time, n: nat)
    requires Kept(kept, all, now) && 0 < n <= |kept| && (forall i :: 0 <= i < |kept| ==> now - kept[i] < MINUTE)
    requires forall i, j :: 0 <= i < j < |all| ==> all[i] <= all[j]
    ensures n <= |all| && now - all[|all| - n] < MINUTE
    decreases |all|
  {
    var m, k := |all| - 1, |kept| - 1;
    if kept[k] == all[m] && Kept(kept[..k], all[..m], now) {
      if n > 1 { KeptAreLast(kept[..k], all[..m], now, n - 1); }
    } else {
      KeptAreLast(kept, all[..m], now, n);
    }
  }

  /** With readings in order, a start is refused if and only if ten since the last clear lie in the minute before it. */
  lemma RefusedOnlyAtTheLimit(asks: seq<Ask>, a: Ask)
    requires Exec(0, asks).now <= a.at
    ensures var s := Exec(0, asks);
      var ts := StartsOf(s.allowed, a.user);
      !AllowStart(s.starts, a.user, a.at).0 <==>
      |ts| >= STARTS_PER_MINUTE && a.at - ts[|ts| - STARTS_PER_MINUTE] < MINUTE
  {
    ExecInv(0, asks);
    var s := Exec(0, asks);
    hide Exec;
    var kept, all := StartsOf(s.starts, a.user), StartsOf(s.allowed, a.user);
    assert Good(kept, all, s.now, 0);
    EntryAfter(s.starts, a.user, a.at, a.user);
    RecentKept(kept, all, s.now, a.at);
    NearLater(all, s.now, a.at, 0);
    hide Inv, AllowStart, Kept, Near, Recent, StartsOf, Outgrown;
    FullMeansRecent(Recent(kept, a.at), all, a.at);
  }

  lemma NearLater(all: seq<Time>, now: Time, later: Time, lag: Time)
    requires Near(all, now, lag) && now <= later
    ensures Near(all, later, lag)
  {
  }

  lemma FullMeansRecent(recent: seq<Time>, all: seq<Time>, at: Time)
    requires Kept(recent, all, at) && Near(all, at, 0) && forall t <- recent :: at - t < MINUTE
    ensures |recent| >= STARTS_PER_MINUTE <==>
      |all| >= STARTS_PER_MINUTE && at - all[|all| - STARTS_PER_MINUTE] < MINUTE
  {
    if |recent| >= STARTS_PER_MINUTE {
      assert forall i :: 0 <= i < |recent| ==> recent[i] in recent;
      KeptAreLast(recent, all, at, STARTS_PER_MINUTE);
    } else if |all| >= STARTS_PER_MINUTE {
      var j := SomeDropped(recent, all, at, STARTS_PER_MINUTE);
      assert all[|all| - STARTS_PER_MINUTE] <= all[j];
    }
    hide Kept;
  }
}
