/**
 * The in-process rate limiter (internal/platform/ratelimit/memory.go): per key a window that opens with
 * its first request, and now and then a scan that throws expired windows away.
 */
module FixedWindow {
  import opened Basics

  datatype Window = Window(count: nat, start: Time)

  datatype Reply = Reply(allowed: bool, remaining: int, retryAfter: Time)

  /** lastScan None: the zero time. */
  datatype State = State(windows: map<string, Window>, lastScan: Option<Time>)

  const EMPTY: State := State(map[], None)

  /** The window that still counts at `now`. */
  function Live(windows: map<string, Window>, key: string, period: Time, now: Time): Option<Window> {
    if key in windows && now - windows[key].start <= period then Some(windows[key]) else None
  }

  /** The decision for one key. */
  function Tick(live: Option<Window>, limit: int, period: Time, now: Time): (Window, Reply) {
    var w := if live.Some? then live.value else Window(0, now);
    if w.count >= limit then (w, Reply(false, 0, period - (now - w.start)))
    else (w.(count := w.count + 1), Reply(true, limit - (w.count + 1), 0))
  }

  function Scan(windows: map<string, Window>, period: Time, now: Time): map<string, Window> {
    map k | k in windows && now - windows[k].start <= period :: windows[k]
  }

  /** Allow, under the lock. */
  function Decide(s: State, limit: int, period: Time, key: string, now: Time): (State, Reply) {
    var s := if s.lastScan.None? || now - s.lastScan.value > period
             then State(Scan(s.windows, period, now), Some(now)) else s;
    var (w, r) := Tick(Live(s.windows, key, period, now), limit, period, now);
    (s.(windows := s.windows[key := w]), r)
  }

  class Memory {
    const limit: int
    const period: Time
    var windows: map<string, Window>
    var lastScan: Option<Time>

    constructor (limit: int, period: Time)
      ensures this.limit == limit && this.period == period && View() == EMPTY
    {
      this.limit, this.period, windows, lastScan := limit, period, map[], None;
    }

    function View(): State
      reads this
    {
      State(windows, lastScan)
    }

    /** The loop of the scan. */
    static method Prune(all: map<string, Window>, period: Time, now: Time) returns (kept: map<string, Window>)
      ensures kept == Scan(all, period, now)
    {
      kept := all;
      var todo := all.Keys;
      while todo != {}
        invariant todo <= kept.Keys <= all.Keys
        invariant forall k <- kept :: kept[k] == all[k]
        invariant forall k <- all :: k in kept <==> k in todo || now - all[k].start <= period
        decreases |todo|
      {
        var k :| k in todo;
        todo := todo - {k};
        if now - all[k].start > period {
          kept := kept - {k};
        }
      }
    }

    method Allow(key: string, now: Time) returns (r: Reply)
      modifies this`windows, this`lastScan
      ensures (View(), r) == Decide(old(View()), limit, period, key, now)
    {
      if lastScan.None? || now - lastScan.value > period {
        windows := Prune(windows, period, now);
        lastScan := Some(now);
      }
      var w := Window(0, now);
      if key in windows && now - windows[key].start <= period {
        w := windows[key];
      }
      if w.count >= limit {
        windows := windows[key := w];
        return Reply(false, 0, period - (now - w.start));
      }
      w := w.(count := w.count + 1);
      windows := windows[key := w];
      r := Reply(true, limit - w.count, 0);
    }
  }

  // ---- the scan never changes a decision ----

  datatype Ask = Ask(key: string, at: Time)

  function Exec(limit: int, period: Time, asks: seq<Ask>): State {
    if asks == [] then EMPTY
    else
      var a := asks[|asks| - 1];
      Decide(Exec(limit, period, asks[..|asks| - 1]), limit, period, a.key, a.at).0
  }

  /** One key on its own, its last window kept forever. */
  function Alone(limit: int, period: Time, asks: seq<Ask>, key: string): Option<Window> {
    if asks == [] then None
    else
      var w, a := Alone(limit, period, asks[..|asks| - 1], key), asks[|asks| - 1];
      if a.key == key then Some(Tick(Current(w, period, a.at), limit, period, a.at).0) else w
  }

  function Current(w: Option<Window>, period: Time, now: Time): Option<Window> {
    if w.Some? && now - w.value.start <= period then w else None
  }

  predicate InOrder(asks: seq<Ask>) {
    forall i, j :: 0 <= i < j < |asks| ==> asks[i].at <= asks[j].at
  }

  /** What one request leaves for a key at a later time: its own result, or what was there. */
  lemma LiveAfter(s: State, limit: int, period: Time, asked: string, at: Time, key: string, now: Time)
    requires at <= now
    ensures Live(Decide(s, limit, period, asked, at).0.windows, key, period, now)
            == if asked == key then Current(Some(Tick(Live(s.windows, key, period, at), limit, period, at).0), period, now)
               else Live(s.windows, key, period, now)
  {
  }

  /** Whatever other keys do and whenever scans happen, what counts for a key is what its own requests made. */
  lemma {:induction false} ScansAreInvisible(limit: int, period: Time, asks: seq<Ask>, key: string, now: Time)
    requires InOrder(asks) && (asks != [] ==> asks[|asks| - 1].at <= now)
    ensures Live(Exec(limit, period, asks).windows, key, period, now)
            == Current(Alone(limit, period, asks, key), period, now)
  {
    if asks != [] {
      var n := |asks| - 1;
      var a := asks[n];
      assert n > 0 ==> asks[..n][n - 1].at <= a.at;
      ScansAreInvisible(limit, period, asks[..n], key, a.at);
      ScansAreInvisible(limit, period, asks[..n], key, now);
      LiveAfter(Exec(limit, period, asks[..n]), limit, period, a.key, a.at, key, now);
      hide Live, Decide, Tick;
    }
  }

  /** The limiter decides every request as if its key had it to itself. */
  lemma KeysAreIndependent(limit: int, period: Time, asks: seq<Ask>, key: string, now: Time)
    requires InOrder(asks) && (asks != [] ==> asks[|asks| - 1].at <= now)
    ensures Decide(Exec(limit, period, asks), limit, period, key, now).1
            == Tick(Current(Alone(limit, period, asks, key), period, now), limit, period, now).1
  {
    ScansAreInvisible(limit, period, asks, key, now);
  }

  // ---- what is decided, by the times of the requests alone ----

  function TimesOf(asks: seq<Ask>, key: string): seq<Time> {
    if asks == [] then []
    else
      var a := asks[|asks| - 1];
      TimesOf(asks[..|asks| - 1], key) + if a.key == key then [a.at] else []
  }

  /** When the window of the last request opened: requests no later than a period after an opening share its window. */
  function Opening(ts: seq<Time>, period: Time): Time
    requires ts != []
  {
    var n := |ts| - 1;
    if n > 0 && ts[n] <= Opening(ts[..n], period) + period then Opening(ts[..n], period) else ts[n]
  }

  /** Which request of its window the last one is, from 1 on. */
  function Rank(ts: seq<Time>, period: Time): nat
    requires ts != []
  {
    var n := |ts| - 1;
    if n > 0 && ts[n] <= Opening(ts[..n], period) + period then Rank(ts[..n], period) + 1 else 1
  }

  /** What is kept for a key: when the window of its last request opened, and how many of that window got through. */
  lemma {:induction false} AloneByTimes(limit: int, period: Time, asks: seq<Ask>, key: string)
    requires period >= 0
    ensures var ts := TimesOf(asks, key);
      Alone(limit, period, asks, key)
      == if ts == [] then None else Some(Window(Min(Rank(ts, period), Max(limit, 0)), Opening(ts, period)))
  {
    if asks != [] {
      var n := |asks| - 1;
      AloneByTimes(limit, period, asks[..n], key);
      var ts := TimesOf(asks[..n], key);
      var at := asks[n].at;
      if asks[n].key == key { assert (ts + [at])[..|ts|] == ts; } else { assert ts + [] == ts; }
    }
  }

  /**
   * A request is let in if and only if it is among the first `limit` of its key's window; it is told how many of
   * them are left, or how long the window still lasts.
   */
  lemma DecidesByRank(limit: int, period: Time, asks: seq<Ask>, key: string, now: Time)
    requires period >= 0 && InOrder(asks) && (asks != [] ==> asks[|asks| - 1].at <= now)
    ensures var r, ts := Decide(Exec(limit, period, asks), limit, period, key, now).1, TimesOf(asks, key) + [now];
      && (r.allowed <==> Rank(ts, period) <= limit)
      && (r.allowed ==> r.remaining == limit - Rank(ts, period) && r.retryAfter == 0)
      && (!r.allowed ==> r.remaining == 0 && now + r.retryAfter == Opening(ts, period) + period)
  {
    var ts := TimesOf(asks, key);
    KeysAreIndependent(limit, period, asks, key, now);
    AloneByTimes(limit, period, asks, key);
    assert (ts + [now])[..|ts|] == ts;
    hide Exec, Decide, Alone;
  }

  // ---- how many can get through ----

  /** An admitted request and the start of the window it was counted in. */
  datatype Pass = Pass(at: Time, start: Time)

  function Passes(limit: int, period: Time, asks: seq<Ask>, key: string): seq<Pass> {
    if asks == [] then []
    else
      var n := |asks| - 1;
      var rest, a := Passes(limit, period, asks[..n], key), asks[n];
      var s := Exec(limit, period, asks[..n]);
      var (t, r) := Decide(s, limit, period, a.key, a.at);
      if a.key == key && r.allowed then rest + [Pass(a.at, t.windows[key].start)] else rest
  }

  /** How many passes belong to the window that starts at `start`. */
  function Of(ps: seq<Pass>, start: Time): nat {
    if ps == [] then 0
    else Of(ps[..|ps| - 1], start) + if ps[|ps| - 1].start == start then 1 else 0
  }

  /** How many passes lie in [lo, hi]. */
  function In(ps: seq<Pass>, lo: Time, hi: Time): nat {
    if ps == [] then 0
    else In(ps[..|ps| - 1], lo, hi) + if lo <= ps[|ps| - 1].at <= hi then 1 else 0
  }

  predicate Follows(a: Time, b: Time, period: Time) {
    a == b || a + period < b
  }

  /** Windows lie more than a period apart and hold at most `limit` passes. */
  ghost predicate Windows(ps: seq<Pass>, limit: int, period: Time) {
    && (forall i :: 0 <= i < |ps| ==> ps[i].start <= ps[i].at <= ps[i].start + period)
    && (forall i, j :: 0 <= i < j < |ps| ==> Follows(ps[i].start, ps[j].start, period))
    && (forall start :: Of(ps, start) <= Max(limit, 0))
  }

  /** The key's last window counts its passes and comes after all others. */
  ghost predicate Tracks(w: Option<Window>, ps: seq<Pass>, period: Time) {
    if w.None? then ps == []
    else
      && w.value.count == Of(ps, w.value.start)
      && forall i :: 0 <= i < |ps| ==> Follows(ps[i].start, w.value.start, period)
  }

  lemma OfPush(ps: seq<Pass>, p: Pass, start: Time)
    ensures Of(ps + [p], start) == Of(ps, start) + if p.start == start then 1 else 0
  {
    assert (ps + [p])[..|ps|] == ps;
  }

  lemma {:induction false} OfNone(ps: seq<Pass>, start: Time)
    requires forall i :: 0 <= i < |ps| ==> ps[i].start != start
    ensures Of(ps, start) == 0
  {
    if ps != [] { OfNone(ps[..|ps| - 1], start); }
  }

  /** One more pass of a window that has room and is the last one. */
  lemma PassTracks(v: Window, ps: seq<Pass>, limit: int, period: Time, now: Time)
    requires Windows(ps, limit, period) && Tracks(Some(v), ps, period)
    requires v.start <= now <= v.start + period && v.count < limit
    ensures var more := ps + [Pass(now, v.start)];
      Tracks(Some(v.(count := v.count + 1)), more, period) && Windows(more, limit, period)
  {
    var more := ps + [Pass(now, v.start)];
    forall start ensures Of(more, start) == Of(ps, start) + if v.start == start then 1 else 0 {
      OfPush(ps, Pass(now, v.start), start);
    }
    hide Of;
  }

  /** A window that opens after the last one is over has no passes yet. */
  lemma OpensEmpty(w: Option<Window>, ps: seq<Pass>, period: Time, now: Time)
    requires period >= 0 && Tracks(w, ps, period) && Current(w, period, now).None? && (w.Some? ==> w.value.start <= now)
    ensures Tracks(Some(Window(0, now)), ps, period)
  {
    OfNone(ps, now);
  }

  /** One request of the key itself. */
  lemma TickTracks(w: Option<Window>, ps: seq<Pass>, limit: int, period: Time, now: Time)
    requires period >= 0 && Tracks(w, ps, period) && Windows(ps, limit, period) && (w.Some? ==> w.value.start <= now)
    ensures var (v, r) := Tick(Current(w, period, now), limit, period, now);
      var more := if r.allowed then ps + [Pass(now, v.start)] else ps;
      v.start <= now && Tracks(Some(v), more, period) && Windows(more, limit, period)
  {
    var (v, r) := Tick(Current(w, period, now), limit, period, now);
    var cur := Current(w, period, now);
    if cur.None? { OpensEmpty(w, ps, period, now); }
    var u := if cur.Some? then cur.value else Window(0, now);
    assert u.start <= now <= u.start + period;
    hide Tracks, Windows;
    if r.allowed { PassTracks(u, ps, limit, period, now); }
  }

  lemma {:induction false} PassesKeep(limit: int, period: Time, asks: seq<Ask>, key: string)
    requires period >= 0 && InOrder(asks)
    ensures var w, ps := Alone(limit, period, asks, key), Passes(limit, period, asks, key);
      && Tracks(w, ps, period) && Windows(ps, limit, period)
      && (w.Some? ==> asks != [] && w.value.start <= asks[|asks| - 1].at)
  {
    if asks != [] {
      var n := |asks| - 1;
      var a, before := asks[n], asks[..n];
      assert n > 0 ==> before[n - 1].at <= a.at;
      PassesKeep(limit, period, before, key);
      if a.key == key {
        ScansAreInvisible(limit, period, before, key, a.at);
        StepIsTick(limit, period, before, key, a.at);
        TickTracks(Alone(limit, period, before, key), Passes(limit, period, before, key), limit, period, a.at);
        hide Tracks, Windows, Tick, Decide;
      }
    }
  }

  /** After a request the map holds what Tick made of the live window. */
  lemma StepIsTick(limit: int, period: Time, before: seq<Ask>, key: string, now: Time)
    requires Live(Exec(limit, period, before).windows, key, period, now)
             == Current(Alone(limit, period, before, key), period, now)
    ensures var s := Exec(limit, period, before);
      var (w, r) := Tick(Current(Alone(limit, period, before, key), period, now), limit, period, now);
      var (t, q) := Decide(s, limit, period, key, now);
      r == q && key in t.windows && t.windows[key] == w
  {
  }

  /** Passes in a stretch belong to its windows. */
  lemma {:induction false} InOfTwo(ps: seq<Pass>, lo: Time, hi: Time, s: Time, t: Time)
    requires forall i :: 0 <= i < |ps| && lo <= ps[i].at <= hi ==> ps[i].start == s || ps[i].start == t
    ensures In(ps, lo, hi) <= Of(ps, s) + Of(ps, t)
  {
    if ps != [] { InOfTwo(ps[..|ps| - 1], lo, hi, s, t); }
  }

  lemma {:induction false} TwoWindows(ps: seq<Pass>, limit: int, period: Time, lo: Time)
    requires Windows(ps, limit, period)
    ensures In(ps, lo, lo + period) <= 2 * Max(limit, 0)
  {
    if ps != [] {
      var n, hi := |ps| - 1, lo + period;
      if lo <= ps[n].at <= hi {
        var s := ps[n].start;
        var t := s;
        if i :| 0 <= i < n && lo <= ps[i].at <= hi && ps[i].start != s { t := ps[i].start; }
        InOfTwo(ps, lo, hi, s, t);
      } else {
        WindowsPrefix(ps, limit, period);
        TwoWindows(ps[..n], limit, period, lo);
      }
    }
  }

  lemma WindowsPrefix(ps: seq<Pass>, limit: int, period: Time)
    requires ps != [] && Windows(ps, limit, period)
    ensures Windows(ps[..|ps| - 1], limit, period)
  {
    var front := ps[..|ps| - 1];
    forall start ensures Of(front, start) <= Max(limit, 0) { assert Of(front, start) <= Of(ps, start); }
  }

  /** In any stretch of one period, both ends included, a key gets at most twice the limit through. */
  lemma AtMostTwice(limit: int, period: Time, asks: seq<Ask>, key: string, lo: Time)
    requires period >= 0 && InOrder(asks)
    ensures In(Passes(limit, period, asks, key), lo, lo + period) <= 2 * Max(limit, 0)
  {
    PassesKeep(limit, period, asks, key);
    TwoWindows(Passes(limit, period, asks, key), limit, period, lo);
  }

  /**
   * A refused caller who asks again after a wait d is let in if and only if d is longer than the wait it
   * was told: after exactly that long the window is still the old one.
   */
  lemma RetryMustBeLater(live: Option<Window>, limit: int, period: Time, now: Time, d: Time)
    requires limit > 0 && d >= 0 && (live.Some? ==> now - live.value.start <= period)
    requires !Tick(live, limit, period, now).1.allowed
    ensures var (w, r) := Tick(live, limit, period, now);
      Tick(Current(Some(w), period, now + d), limit, period, now + d).1.allowed <==> d > r.retryAfter
  {
  }

  lemma FirstAsk(limit: int, period: Time, key: string)
    requires limit > 0 && period > 0
    ensures Exec(limit, period, [Ask(key, 0)]) == State(map[key := Window(1, 0)], Some(0))
  {
    var asks := [Ask(key, 0)];
    assert asks[..|asks| - 1] == [];
    assert Exec(limit, period, []) == EMPTY;
    assert Exec(limit, period, asks) == Decide(EMPTY, limit, period, key, 0).0;
    hide Exec;
    assert Scan(map[], period, 0) == map[];
  }

  /** A run in which a caller is refused, waits as long as told, and is refused again. */
  lemma RefusedAgain(period: Time, key: string)
    requires period > 0
    ensures var s := Exec(1, period, [Ask(key, 0)]);
      var (t, r) := Decide(s, 1, period, key, 0);
      !r.allowed && r.retryAfter == period && !Decide(t, 1, period, key, r.retryAfter).1.allowed
  {
    FirstAsk(1, period, key);
    hide Exec;
  }
}
