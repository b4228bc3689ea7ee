/**
 * The Redis rate limiter (internal/platform/ratelimit/redis.go): per caller one counter per window of
 * W milliseconds, and the previous window's count fades out linearly. Division is exact: counts are
 * compared scaled by W.
 */
module SlidingWindow {
  import opened Basics

  /** A counter key with its expiry time. */
  datatype Counter = Counter(count: nat, expires: int)

  datatype Reply = Reply(allowed: bool, remaining: int, retryAfter: int)

  /** GET key, or 0 */
  function Read(cs: map<int, Counter>, idx: int, now: int): nat {
    if idx in cs && now < cs[idx].expires then cs[idx].count else 0
  }

  /** The script's `count`, times W: prev * (W - elapsed) + cur * W. */
  function Weight(prev: nat, cur: nat, W: int, elapsed: int): int {
    prev * (W - elapsed) + cur * W
  }

  /** The script and the reply made from it. */
  function Decide(cs: map<int, Counter>, limit: int, W: int, now: int): (map<int, Counter>, Reply)
    requires W > 0 && now >= 0
  {
    var idx, elapsed := now / W, now % W;
    var cur := Read(cs, idx, now);
    var weight := Weight(Read(cs, idx - 1, now), cur, W, elapsed);
    if weight >= limit * W then (cs, Reply(false, 0, W - elapsed))
    else (cs[idx := Counter(cur + 1, now + 2 * W)], Reply(true, (limit * W - weight - W) / W, 0))
  }

  /** The limiter over its Redis keys; one counter per caller and window. */
  class Limiter {
    const limit: int
    const W: int
    var keys: map<string, map<int, Counter>>

    constructor (limit: int, W: int)
      ensures this.limit == limit && this.W == W && forall k :: CountersOf(k) == map[]
    {
      this.limit, this.W, keys := limit, W, map[];
    }

    function CountersOf(key: string): map<int, Counter>
      reads this`keys
    {
      if key in keys then keys[key] else map[]
    }

    /** GET of one counter */
    method Get(key: string, idx: int, now: int) returns (n: nat)
      ensures n == Read(CountersOf(key), idx, now)
    {
      n := 0;
      if key in keys && idx in keys[key] && now < keys[key][idx].expires {
        n := keys[key][idx].count;
      }
    }

    method Allow(key: string, now: int) returns (r: Reply)
      requires W > 0 && now >= 0
      modifies this`keys
      ensures (CountersOf(key), r) == Decide(old(CountersOf(key)), limit, W, now)
      ensures forall k :: k != key ==> CountersOf(k) == old(CountersOf(k))
    {
      var idx, elapsed := now / W, now % W;
      var cur := Get(key, idx, now);
      var prev := Get(key, idx - 1, now);
      var count := Weight(prev, cur, W, elapsed);
      if count >= limit * W {
        return Reply(false, 0, W - elapsed);
      }
      keys := keys[key := CountersOf(key)[idx := Counter(cur + 1, now + 2 * W)]];
      r := Reply(true, (limit * W - count - W) / W, 0);
    }
  }

  /**
   * The remaining count of an admitted call is what the fraction leaves, rounded down; in the last
   * fraction below the limit that is -1, not 0.
   */
  lemma RemainingMayBeMinusOne(cs: map<int, Counter>, limit: int, W: int, now: int)
    requires W > 0 && now >= 0 && Decide(cs, limit, W, now).1.allowed
    ensures var r, weight := Decide(cs, limit, W, now).1.remaining,
                             Weight(Read(cs, now / W - 1, now), Read(cs, now / W, now), W, now % W);
      && r >= -1
      && r * W <= limit * W - weight - W < (r + 1) * W
      && (r == -1 <==> weight > (limit - 1) * W)
  {
    var weight := Weight(Read(cs, now / W - 1, now), Read(cs, now / W, now), W, now % W);
    FloorDiv(limit * W - weight - W, W);
    Spread(limit, W);
  }

  lemma FloorDiv(a: int, W: int)
    requires W > 0
    ensures (a / W) * W <= a < (a / W + 1) * W
    ensures a >= -W ==> a / W >= -1
    ensures a < 0 ==> a / W < 0
    ensures a >= 0 ==> a / W >= 0
  {
    var q := a / W;
    assert a == q * W + a % W;
    if a >= -W && q < -1 { MulMono(q, -2, W); }
    if a < 0 && q >= 0 { MulMono(0, q, W); }
    if a >= 0 && q < 0 { MulMono(q, -1, W); }
  }

  lemma MulMono(a: int, b: int, W: int)
    requires a <= b && W >= 0
    ensures a * W <= b * W
  {
  }

  lemma Spread(limit: int, W: int)
    ensures (limit - 1) * W == limit * W - W && (limit + 1) * W == limit * W + W
  {
  }

  // ---- whole runs ----

  datatype Sys = Sys(cs: map<int, Counter>, admitted: seq<int>, now: int)

  /** One caller's requests; the clock does not run backwards. */
  function Step(limit: int, W: int, s: Sys, now: int): Sys
    requires W > 0
  {
    if now < 0 || now < s.now then s
    else
      var (cs, r) := Decide(s.cs, limit, W, now);
      Sys(cs, if r.allowed then s.admitted + [now] else s.admitted, now)
  }

  function Exec(limit: int, W: int, asks: seq<int>): Sys
    requires W > 0
  {
    if asks == [] then Sys(map[], [], 0) else Step(limit, W, Exec(limit, W, asks[..|asks| - 1]), asks[|asks| - 1])
  }

  /** How many of the times lie in [lo, hi). */
  function In(ts: seq<int>, lo: int, hi: int): nat {
    if ts == [] then 0
    else In(ts[..|ts| - 1], lo, hi) + if lo <= ts[|ts| - 1] < hi then 1 else 0
  }

  predicate Sorted(ts: seq<int>) {
    forall i, j :: 0 <= i < j < |ts| ==> ts[i] <= ts[j]
  }

  lemma InPush(ts: seq<int>, t: int, lo: int, hi: int)
    ensures In(ts + [t], lo, hi) == In(ts, lo, hi) + if lo <= t < hi then 1 else 0
  {
    assert (ts + [t])[..|ts|] == ts;
  }

  lemma {:induction false} InSplit(ts: seq<int>, lo: int, mid: int, hi: int)
    requires lo <= mid <= hi
    ensures In(ts, lo, hi) == In(ts, lo, mid) + In(ts, mid, hi)
  {
    if ts != [] { InSplit(ts[..|ts| - 1], lo, mid, hi); }
  }

  lemma {:induction false} InMono(ts: seq<int>, lo: int, hi: int, a: int, b: int)
    requires a <= lo && hi <= b
    ensures In(ts, lo, hi) <= In(ts, a, b)
  {
    if ts != [] { InMono(ts[..|ts| - 1], lo, hi, a, b); }
  }

  /** Nothing in a stretch after the last time, or before the first. */
  lemma {:induction false} InNone(ts: seq<int>, lo: int, hi: int)
    requires forall i :: 0 <= i < |ts| ==> ts[i] < lo || ts[i] >= hi
    ensures In(ts, lo, hi) == 0
  {
    if ts != [] { InNone(ts[..|ts| - 1], lo, hi); }
  }

  /** The admissions of window k. */
  function Of(ts: seq<int>, W: int, k: int): nat {
    In(ts, k * W, (k + 1) * W)
  }

  /** What each admission left behind: its window's count and the faded previous one stay below limit + 1. */
  predicate Kept(limit: int, W: int, ts: seq<int>)
    requires W > 0
  {
    ts != [] ==>
      var n := |ts| - 1;
      var k, e := ts[n] / W, ts[n] % W;
      && Kept(limit, W, ts[..n])
      && Of(ts, W, k) <= limit
      && Weight(Of(ts, W, k - 1), Of(ts, W, k), W, e) < (limit + 1) * W
  }

  ghost predicate Mirror(cs: map<int, Counter>, ts: seq<int>, W: int) {
    && (forall k <- cs :: cs[k].expires >= (k + 2) * W && cs[k].count == Of(ts, W, k))
    && (forall k :: k !in cs ==> Of(ts, W, k) == 0)
  }

  ghost predicate Inv(limit: int, W: int, s: Sys)
    requires W > 0
  {
    && Sorted(s.admitted) && (forall t <- s.admitted :: 0 <= t <= s.now) && s.now >= 0
    && Mirror(s.cs, s.admitted, W) && Kept(limit, W, s.admitted)
  }

  lemma WindowOf(t: int, W: int)
    requires W > 0
    ensures (t / W) * W <= t < (t / W + 1) * W && t % W == t - (t / W) * W
  {
    FloorDiv(t, W);
  }

  lemma SameWindow(t: int, W: int, k: int)
    requires W > 0
    ensures k * W <= t < (k + 1) * W <==> k == t / W
  {
    WindowOf(t, W);
    if k < t / W { MulMono(k + 1, t / W, W); }
    if k > t / W { MulMono(t / W + 1, k, W); }
  }

  /** Neither counter the script reads has expired. */
  lemma ReadIsCount(cs: map<int, Counter>, ts: seq<int>, W: int, now: int, k: int)
    requires W > 0 && Mirror(cs, ts, W) && now / W - 1 <= k
    ensures Read(cs, k, now) == Of(ts, W, k)
  {
    WindowOf(now, W);
    MulMono(now / W + 1, k + 2, W);
  }

  lemma MirrorPush(cs: map<int, Counter>, ts: seq<int>, W: int, now: int)
    requires W > 0 && Mirror(cs, ts, W)
    ensures Mirror(cs[now / W := Counter(Of(ts, W, now / W) + 1, now + 2 * W)], ts + [now], W)
  {
    var more, idx := ts + [now], now / W;
    forall k ensures Of(more, W, k) == Of(ts, W, k) + if k == idx then 1 else 0 { OfPush(ts, W, now, k); }
    WindowOf(now, W);
    Spread2(idx, W);
    hide Of;
  }

  lemma Spread2(k: int, W: int)
    ensures (k + 1) * W == k * W + W && (k + 2) * W == k * W + 2 * W
  {
  }

  lemma WeightStep(p: nat, c: nat, limit: int, W: int, e: int)
    requires 0 <= e < W && Weight(p, c, W, e) < limit * W
    ensures c + 1 <= limit && Weight(p, c + 1, W, e) < (limit + 1) * W
  {
    MulMono(0, p, W - e);
    if c >= limit { MulMono(limit, c, W); }
    assert (c + 1) * W == c * W + W;
    Spread(limit, W);
  }

  /** Counting the admission at now changes its own window's count only. */
  lemma OfPush(ts: seq<int>, W: int, now: int, k: int)
    requires W > 0
    ensures Of(ts + [now], W, k) == Of(ts, W, k) + if k == now / W then 1 else 0
  {
    InPush(ts, now, k * W, (k + 1) * W);
    SameWindow(now, W, k);
  }

  lemma KeptPush(limit: int, W: int, ts: seq<int>, now: int)
    requires W > 0 && Kept(limit, W, ts)
    requires Weight(Of(ts, W, now / W - 1), Of(ts, W, now / W), W, now % W) < limit * W
    ensures Kept(limit, W, ts + [now])
  {
    var more, k := ts + [now], now / W;
    assert more[..|ts|] == ts;
    OfPush(ts, W, now, k);
    OfPush(ts, W, now, k - 1);
    WeightStep(Of(ts, W, k - 1), Of(ts, W, k), limit, W, now % W);
    hide Of, Weight;
  }

  lemma AdmitKeepsInv(limit: int, W: int, s: Sys, now: int)
    requires W > 0 && Inv(limit, W, s) && now >= s.now
    requires Weight(Of(s.admitted, W, now / W - 1), Of(s.admitted, W, now / W), W, now % W) < limit * W
    ensures Inv(limit, W, Sys(s.cs[now / W := Counter(Of(s.admitted, W, now / W) + 1, now + 2 * W)],
                              s.admitted + [now], now))
  {
    MirrorPush(s.cs, s.admitted, W, now);
    KeptPush(limit, W, s.admitted, now);
    SortedPush(s.admitted, now);
    hide Mirror, Kept, Of, Weight, Sorted;
    assert forall t <- s.admitted + [now] :: t in s.admitted || t == now;
  }

  lemma SortedPush(ts: seq<int>, t: int)
    requires Sorted(ts) && forall x <- ts :: x <= t
    ensures Sorted(ts + [t])
  {
    forall i | 0 <= i < |ts| ensures ts[i] <= t { assert ts[i] in ts; }
  }

  lemma StepKeepsInv(limit: int, W: int, s: Sys, now: int)
    requires W > 0 && Inv(limit, W, s)
    ensures Inv(limit, W, Step(limit, W, s, now))
  {
    if now >= 0 && now >= s.now {
      assert Mirror(s.cs, s.admitted, W);
      ReadIsCount(s.cs, s.admitted, W, now, now / W);
      ReadIsCount(s.cs, s.admitted, W, now, now / W - 1);
      hide Mirror, Kept, Of, Weight, Read, Sorted;
      if Decide(s.cs, limit, W, now).1.allowed {
        hide Inv;
        AdmitKeepsInv(limit, W, s, now);
      }
    }
  }

  lemma {:induction false} ExecInv(limit: int, W: int, asks: seq<int>)
    requires W > 0
    ensures Inv(limit, W, Exec(limit, W, asks))
  {
    if asks == [] {
    } else {
      ExecInv(limit, W, asks[..|asks| - 1]);
      StepKeepsInv(limit, W, Exec(limit, W, asks[..|asks| - 1]), asks[|asks| - 1]);
    }
  }

  /** Every admission a request decides by is in the counters it reads: expiry never loses one. */
  lemma CountersAreExact(limit: int, W: int, asks: seq<int>, now: int)
    requires W > 0 && now >= Exec(limit, W, asks).now
    ensures var s := Exec(limit, W, asks);
      && Read(s.cs, now / W, now) == Of(s.admitted, W, now / W)
      && Read(s.cs, now / W - 1, now) == Of(s.admitted, W, now / W - 1)
  {
    ExecInv(limit, W, asks);
    var s := Exec(limit, W, asks);
    ReadIsCount(s.cs, s.admitted, W, now, now / W);
    ReadIsCount(s.cs, s.admitted, W, now, now / W - 1);
  }

  /**
   * A request is decided by what was really admitted: prev in the window before, cur so far in this one. It is let
   * in if and only if prev * (W - e) + cur * W is below limit * W, and is told what that leaves, rounded down, or
   * how long this window still lasts.
   */
  lemma DecidesByHistory(limit: int, W: int, asks: seq<int>, now: int)
    requires W > 0 && now >= 0 && now >= Exec(limit, W, asks).now
    ensures var s := Exec(limit, W, asks);
      var r, prev, cur := Decide(s.cs, limit, W, now).1, Of(s.admitted, W, now / W - 1), Of(s.admitted, W, now / W);
      var used := prev * (W - now % W) + cur * W;
      && (r.allowed <==> used < limit * W)
      && (r.allowed ==> r.retryAfter == 0 && r.remaining * W <= limit * W - used - W < (r.remaining + 1) * W)
      && (!r.allowed ==> r.remaining == 0 && now + r.retryAfter == (now / W + 1) * W)
  {
    var s := Exec(limit, W, asks);
    CountersAreExact(limit, W, asks, now);
    WindowOf(now, W);
    Minus(W, now / W, 1);
    var used := Weight(Read(s.cs, now / W - 1, now), Read(s.cs, now / W, now), W, now % W);
    FloorDiv(limit * W - used - W, W);
    hide Exec, Read, Of;
  }

  // ---- how many can get through ----

  /** When no time lies at offset e of window k or later, the window's admissions are those before e. */
  lemma AllBefore(ts: seq<int>, W: int, k: int, e: int)
    requires W > 0 && 0 <= e < W && ts != [] && Sorted(ts) && ts[|ts| - 1] < k * W + e
    ensures Of(ts, W, k) == In(ts, k * W, k * W + e)
    ensures In(ts, k * W, k * W + e) > 0 ==> k * W <= ts[|ts| - 1]
  {
    var lo, t := k * W, ts[|ts| - 1];
    assert lo + W == (k + 1) * W;
    InNone(ts, lo + e, lo + W);
    InSplit(ts, lo, lo + e, lo + W);
    if t < lo { InNone(ts, lo, lo + e); }
  }

  /** What Kept says about the last admission, at a later offset of its window. */
  lemma KeptLater(limit: int, W: int, ts: seq<int>, k: int, e: int)
    requires W > 0 && Kept(limit, W, ts) && ts != [] && ts[|ts| - 1] / W == k && ts[|ts| - 1] - k * W <= e
    ensures Weight(Of(ts, W, k - 1), Of(ts, W, k), W, e) < (limit + 1) * W
  {
    var t := ts[|ts| - 1];
    WindowOf(t, W);
    Fade(Of(ts, W, k - 1), Of(ts, W, k), W, t % W, e);
    hide Of, Weight;
  }

  /** The last admission of window k before offset e, and what Kept says about it. */
  lemma {:induction false} LastBefore(limit: int, W: int, ts: seq<int>, k: int, e: int)
    requires W > 0 && 0 <= e < W && Sorted(ts) && Kept(limit, W, ts)
    requires In(ts, k * W, k * W + e) > 0
    ensures Weight(Of(ts, W, k - 1), In(ts, k * W, k * W + e), W, e - 1) < (limit + 1) * W
  {
    var n := |ts| - 1;
    var t := ts[n];
    assert Sorted(ts[..n]);
    if t < k * W + e {
      AllBefore(ts, W, k, e);
      assert k * W + W == (k + 1) * W;
      SameWindow(t, W, k);
      hide Of, In, Sorted, Kept, Weight;
      KeptLater(limit, W, ts, k, e - 1);
    } else {
      LastBefore(limit, W, ts[..n], k, e);
      assert (k - 1 + 1) * W == k * W;
      hide Kept;
    }
  }

  /** Later in the window the previous one weighs less. */
  lemma Fade(p: nat, c: nat, W: int, e: int, later: int)
    requires e <= later
    ensures Weight(p, c, W, later) <= Weight(p, c, W, e)
  {
    MulMono(W - later, W - e, p);
  }

  lemma {:induction false} FullWindow(limit: int, W: int, ts: seq<int>, k: int)
    requires W > 0 && limit >= 0 && Kept(limit, W, ts)
    ensures Of(ts, W, k) <= limit
  {
    if ts != [] {
      FullWindow(limit, W, ts[..|ts| - 1], k);
      SameWindow(ts[|ts| - 1], W, k);
    }
  }

  lemma Minus(a: int, b: int, c: int)
    ensures a * (b - c) == a * b - a * c && (b - c) * a == b * a - c * a && (b + c) * a == b * a + c * a
  {
  }

  /** With admissions in the new window, scaled by W. */
  lemma ScaledBound(p: nat, b: nat, limit: nat, W: int, e: int)
    requires 0 < e < W && p <= limit && Weight(p, b, W, e - 1) < (limit + 1) * W
    ensures (p + b) * W < (limit + 1) * W + limit * e - limit
  {
    Minus(p, W, e - 1);
    Minus(W, p, b);
    MulMono(p, limit, e - 1);
    Minus(limit, e, 1);
  }

  lemma Bound(p: nat, b: nat, limit: nat, W: int, e: int)
    requires 0 <= e < W && p <= limit
    requires b > 0 ==> e > 0 && Weight(p, b, W, e - 1) < (limit + 1) * W
    ensures p + b <= 2 * limit
    ensures (p + b) * W < (limit + 1) * W + limit * e
  {
    Minus(W, limit, 1);
    MulMono(0, limit, e);
    if b == 0 {
      MulMono(p, limit, W);
    } else {
      ScaledBound(p, b, limit, W, e);
      hide Weight;
      if limit == 0 && p + b > 0 { MulMono(1, p + b, W); }
      MulMono(e, W, limit);
      if p + b > 2 * limit { MulMono(2 * limit + 1, p + b, W); TwoPlusOne(limit, W); }
    }
  }

  lemma TwoPlusOne(limit: int, W: int)
    ensures (2 * limit + 1) * W == 2 * (limit * W) + W
  {
  }

  lemma BoundFrom(limit: nat, W: int, ts: seq<int>, from: int)
    requires W > 0 && Sorted(ts) && Kept(limit, W, ts)
    ensures In(ts, from, from + W) <= 2 * limit
    ensures In(ts, from, from + W) * W < (limit + 1) * W + limit * (from % W)
  {
    var k, e := from / W + 1, from % W;
    WindowOf(from, W);
    assert (k - 1 + 1) * W == k * W == from - e + W;
    InSplit(ts, from, k * W, from + W);
    InMono(ts, from, k * W, (k - 1) * W, k * W);
    FullWindow(limit, W, ts, k - 1);
    var b := In(ts, k * W, k * W + e);
    if b > 0 {
      if e == 0 { InNone(ts, k * W, k * W); }
      LastBefore(limit, W, ts, k, e);
    }
    Bound(Of(ts, W, k - 1), b, limit, W, e);
    MulMono(In(ts, from, from + W), Of(ts, W, k - 1) + b, W);
  }

  /**
   * Any stretch of one window's length lets at most twice the limit through; one that starts at offset e
   * of a window lets fewer than limit + 1 + limit * e / W through.
   */
  lemma AtMostTwice(limit: int, W: int, asks: seq<int>, from: int)
    requires W > 0
    ensures var n := In(Exec(limit, W, asks).admitted, from, from + W);
      && n <= 2 * Max(limit, 0)
      && (limit >= 0 ==> n * W < (limit + 1) * W + limit * (from % W))
  {
    ExecInv(limit, W, asks);
    if limit >= 0 { BoundFrom(limit, W, Exec(limit, W, asks).admitted, from); }
  }

  lemma Push(limit: int, W: int, asks: seq<int>, t: int)
    requires W > 0
    ensures Exec(limit, W, asks + [t]) == Step(limit, W, Exec(limit, W, asks), t)
  {
    assert (asks + [t])[..|asks|] == asks;
  }

  lemma PushFirst(ts: seq<int>, t: int)
    requires |ts| == 0
    ensures ts + [t] == [t]
  {
  }

  lemma OneAsk(limit: int, W: int, t: int)
    requires limit == 2 && W == 8 && t == 7
    ensures Exec(limit, W, [t]) == Sys(map[0 := Counter(1, 23)], [t], t)
  {
    var asks, s := [t], Sys(map[], [], 0);
    assert asks[..|asks| - 1] == [];
    assert Exec(limit, W, asks) == Step(limit, W, s, t);
    hide Exec, In;
    PushFirst(s.admitted, t);
  }

  /** With a limit of 2 and a window of 8 ms: two requests at the end of a window ... */
  lemma TwoAsks(limit: int, W: int, t: int) returns (asks: seq<int>)
    requires limit == 2 && W == 8 && t == 7
    ensures var s := Exec(limit, W, asks);
      s.admitted == [t] + [t] && s.now == t && s.cs == map[0 := Counter(1, 23)][0 := Counter(2, 23)]
  {
    hide Exec, In;
    OneAsk(limit, W, t);
    asks := [t];
    Push(limit, W, asks, t);
    asks := asks + [t];
  }

  /** ... one in the next ... */
  lemma ThreeAsks(limit: int, W: int, t: int) returns (asks: seq<int>)
    requires limit == 2 && W == 8 && t == 7
    ensures var s := Exec(limit, W, asks);
      s.now == 9 && s.admitted == [t] + [t] + [9]
      && s.cs == map[0 := Counter(1, 23)][0 := Counter(2, 23)][1 := Counter(1, 25)]
  {
    hide Exec, In;
    asks := TwoAsks(limit, W, t);
    Push(limit, W, asks, 9);
    asks := asks + [9];
  }

  /** ... and one more. */
  lemma FourAsks(limit: int, W: int, t: int) returns (asks: seq<int>)
    requires limit == 2 && W == 8 && t == 7
    ensures Exec(limit, W, asks).admitted == [t] + [t] + [9] + [13]
  {
    hide Exec, In;
    asks := ThreeAsks(limit, W, t);
    Push(limit, W, asks, 13);
    asks := asks + [13];
  }

  /** The last of the four is told that -1 requests remain. */
  lemma MinusOneIsReached() returns (limit: int, W: int, asks: seq<int>, now: int)
    ensures W > 0 && now >= 0 && now >= Exec(limit, W, asks).now
    ensures var r := Decide(Exec(limit, W, asks).cs, limit, W, now).1; r.allowed && r.remaining == -1
  {
    limit, W, now := 2, 8, 13;
    asks := ThreeAsks(limit, W, 7);
    hide Exec;
  }

  lemma InOne(t: int, lo: int, hi: int)
    ensures In([t], lo, hi) == if lo <= t < hi then 1 else 0
  {
    assert [t][..0] == [];
  }

  /** The bound of twice the limit is reached. */
  lemma TwiceIsReached() returns (limit: int, W: int, asks: seq<int>, from: int)
    ensures W > 0 && limit > 0 && In(Exec(limit, W, asks).admitted, from, from + W) == 2 * limit
  {
    limit, W, from := 2, 8, 7;
    asks := FourAsks(limit, W, from);
    hide Exec;
    InPush([from] + [from] + [9], 13, from, from + W);
    InPush([from] + [from], 9, from, from + W);
    InPush([from], from, from, from + W);
    InOne(from, from, from + W);
    hide In;
  }

  lemma NothingAhead(s: Sys, W: int, limit: int, idx: int)
    requires W > 0 && Inv(limit, W, s) && s.now < idx * W
    ensures Of(s.admitted, W, idx) == 0
  {
    forall i | 0 <= i < |s.admitted| ensures s.admitted[i] < idx * W { assert s.admitted[i] in s.admitted; }
    InNone(s.admitted, idx * W, (idx + 1) * W);
  }

  lemma AtBoundary(c: nat, limit: int, W: int)
    requires W > 0
    ensures Weight(c, 0, W, 0) < limit * W <==> c < limit
  {
    if c >= limit { MulMono(limit, c, W); } else { MulMono(c + 1, limit, W); }
    Minus(W, c, 1);
  }

  /**
   * A refused caller is told to wait for the end of the current window. Asking again right then succeeds
   * only if the window had room of its own: with a full window the weight is still the whole limit.
   */
  lemma RetryAfterMayFail(limit: int, W: int, asks: seq<int>, now: int)
    requires W > 0 && now >= Exec(limit, W, asks).now && now >= 0
    requires !Decide(Exec(limit, W, asks).cs, limit, W, now).1.allowed
    ensures var s := Exec(limit, W, asks);
      var next := now + Decide(s.cs, limit, W, now).1.retryAfter;
      && next == (now / W + 1) * W
      && (Decide(s.cs, limit, W, next).1.allowed <==> Of(s.admitted, W, now / W) < limit)
  {
    ExecInv(limit, W, asks);
    var s := Exec(limit, W, asks);
    var idx := now / W + 1;
    var next := idx * W;
    WindowOf(now, W);
    Minus(W, idx, 1);
    SameWindow(next, W, idx);
    WindowOf(next, W);
    assert next / W == idx && next % W == 0;
    ReadIsCount(s.cs, s.admitted, W, next, idx);
    ReadIsCount(s.cs, s.admitted, W, next, idx - 1);
    NothingAhead(s, W, limit, idx);
    AtBoundary(Of(s.admitted, W, idx - 1), limit, W);
    hide Exec, Inv, Mirror, Kept, Read, Of, Weight;
  }

  lemma OnlyAsk(limit: int, W: int, t: int)
    requires limit == 1 && W == 8 && t == 0
    ensures Exec(limit, W, [t]) == Sys(map[0 := Counter(1, 16)], [t], t)
  {
    var asks, s := [t], Sys(map[], [], 0);
    assert asks[..|asks| - 1] == [];
    assert Exec(limit, W, asks) == Step(limit, W, s, t);
    hide Exec, In;
    PushFirst(s.admitted, t);
  }

  lemma RefusedTwice(cs: map<int, Counter>, limit: int, W: int, t: int)
    requires cs == map[0 := Counter(1, 16)] && limit == 1 && W == 8 && t == 0
    ensures !Decide(cs, limit, W, t).1.allowed && Decide(cs, limit, W, t).1.retryAfter == W
    ensures !Decide(cs, limit, W, t + W).1.allowed
  {
  }

  /** A caller with a limit of one, refused at once, is refused again at the very time it was told. */
  lemma RefusedAgain() returns (limit: int, W: int, asks: seq<int>, now: int)
    ensures W > 0 && now >= 0 && now >= Exec(limit, W, asks).now
    ensures var cs := Exec(limit, W, asks).cs;
      var r := Decide(cs, limit, W, now).1;
      !r.allowed && r.retryAfter == W && !Decide(cs, limit, W, now + r.retryAfter).1.allowed
  {
    hide *;
    limit, W, now := 1, 8, 0;
    asks := [now];
    OnlyAsk(limit, W, now);
    RefusedTwice(Exec(limit, W, asks).cs, limit, W, now);
  }
}
