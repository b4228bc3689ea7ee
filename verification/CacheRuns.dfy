/**
 * The versioned cache of internal/platform/redisx/versioned.go, one key, under any interleaving of
 * readers, writers and key expiry. A snapshot has several parts, each loaded by its own query
 * (internal/friends/repo.go Snapshot, internal/groups/repo.go Snapshot).
 */
module CacheRuns {
  import opened Basics
  import opened VersionedCache

  /** A snapshot and, per part, the number of the commit whose state the part was read from. */
  datatype Snap<V> = Snap(parts: seq<V>, stamps: seq<nat>)

  datatype Phase<V> =
    | Starting                                             // Load was called
    | Missed                                               // Get found nothing or failed
    | Loading(version: Option<int>, got: Snap<V>)          // version None: reading it failed
    | Watching(seen: int, full: Snap<V>, touched: nat)     // WATCH done, EXEC to come

  /** `since`: the writes whose Invalidate had completed when this Load began. */
  datatype Reader<V> = Reader(since: set<nat>, phase: Phase<V>)

  datatype Return<V> = Return(since: set<nat>, snap: Snap<V>)

  /**
   * hist[n] is the joint database state after commit n, part by part (None: the query finds no row and
   * the load fails). `finished` are the commits whose Invalidate completed. `touch` counts changes of the
   * version key, which is what WATCH sees. `reset`: the version key expired under a loading reader.
   */
  datatype Sys<V> = Sys(
    hist: seq<seq<Option<V>>>, finished: set<nat>,
    cached: Option<Snap<V>>, ver: int, touch: nat,
    readers: map<nat, Reader<V>>, returned: seq<Return<V>>, reset: bool)

  datatype Event<V> =
    | Commit(state: seq<Option<V>>)
    | Invalidate(commit: nat)
    | ExpireValue
    | ExpireVersion
    | Begin(r: nat)
    | Get(r: nat, ok: bool)
    | Version(r: nat, ok: bool)
    | LoadPart(r: nat)
    | Watch(r: nat, ok: bool)
    | ExecPut(r: nat, ok: bool)
    | Abandon(r: nat)

  function Width<V>(s: Sys<V>): nat
    requires s.hist != []
  {
    |s.hist[0]|
  }

  function Last<V>(s: Sys<V>): seq<Option<V>>
    requires s.hist != []
  {
    s.hist[|s.hist| - 1]
  }

  predicate HoldsVersion<V>(r: Reader<V>) {
    r.phase.Watching? || (r.phase.Loading? && r.phase.version.Some?)
  }

  function Reply<V>(s: Sys<V>, r: nat, snap: Snap<V>): Sys<V>
    requires r in s.readers
  {
    s.(readers := s.readers - {r}, returned := s.returned + [Return(s.readers[r].since, snap)])
  }

  function Advance<V>(s: Sys<V>, r: nat, p: Phase<V>): Sys<V>
    requires r in s.readers
  {
    s.(readers := s.readers[r := Reader(s.readers[r].since, p)])
  }

  /** One atomic command, statement or query; an event that makes no sense in s changes nothing. */
  ghost function Step<V>(s: Sys<V>, e: Event<V>): Sys<V>
    requires s.hist != []
  {
    match e
    case Commit(state) => if |state| == Width(s) then s.(hist := s.hist + [state]) else s
    case Invalidate(c) =>
      if 0 < c < |s.hist| then
        s.(finished := s.finished + {c}, cached := None, ver := s.ver + 1, touch := s.touch + 1)
      else s
    case ExpireValue => s.(cached := None)
    case ExpireVersion =>
      s.(ver := 0, touch := s.touch + 1,
         reset := s.reset || exists r <- s.readers :: HoldsVersion(s.readers[r]))
    case Begin(r) => if r in s.readers then s else s.(readers := s.readers[r := Reader(s.finished, Starting)])
    case Abandon(r) => s.(readers := s.readers - {r})
    case _ =>
      if e.r !in s.readers then s else StepReader(s, e, s.readers[e.r].phase)
  }

  ghost function StepReader<V>(s: Sys<V>, e: Event<V>, p: Phase<V>): Sys<V>
    requires s.hist != [] && (e.Get? || e.Version? || e.LoadPart? || e.Watch? || e.ExecPut?)
    requires e.r in s.readers
  {
    match e
    case Get(r, ok) =>
      if !p.Starting? then s
      else if ok && s.cached.Some? then Reply(s, r, s.cached.value)
      else Advance(s, r, Missed)
    case Version(r, ok) =>
      if !p.Missed? then s
      else Advance(s, r, Loading(if ok then Some(s.ver) else None, Snap([], [])))
    case LoadPart(r) =>
      if !p.Loading? || |p.got.parts| >= Width(s) || |Last(s)| <= |p.got.parts| then s
      else
        var part := Last(s)[|p.got.parts|];
        if part.None? then s.(readers := s.readers - {r})
        else
          Advance(s, r, p.(got := Snap(p.got.parts + [part.value], p.got.stamps + [|s.hist| - 1])))
    case Watch(r, ok) =>
      if !p.Loading? || |p.got.parts| < Width(s) then s
      else if p.version.None? || !ok || s.ver != p.version.value then Reply(s, r, p.got)
      else Advance(s, r, Watching(p.version.value, p.got, s.touch))
    case ExecPut(r, ok) =>
      if !p.Watching? then s
      else if ok && s.touch == p.touched then Reply(s, r, p.full).(cached := Some(p.full))
      else Reply(s, r, p.full)
  }

  // ---- the invariant ----

  /** Every part was read from the state its stamp names. */
  ghost predicate Genuine<V>(s: Sys<V>, x: Snap<V>) {
    && |x.parts| == |x.stamps|
    && forall p :: 0 <= p < |x.parts| ==>
         && x.stamps[p] < |s.hist| && p < |s.hist[x.stamps[p]]|
         && s.hist[x.stamps[p]][p] == Some(x.parts[p])
  }

  /** No part is older than any of these commits. */
  ghost predicate AtLeast<V>(x: Snap<V>, commits: set<nat>) {
    forall c, p :: c in commits && 0 <= p < |x.stamps| ==> c <= x.stamps[p]
  }

  ghost predicate Whole<V>(s: Sys<V>, x: Snap<V>)
    requires s.hist != []
  {
    Genuine(s, x) && |x.parts| == Width(s)
  }

  ghost predicate GoodReader<V>(s: Sys<V>, r: Reader<V>)
    requires s.hist != []
  {
    && r.since <= s.finished
    && match r.phase
       case Starting => true
       case Missed => true
       case Loading(version, got) =>
         && Genuine(s, got) && |got.parts| <= Width(s) && AtLeast(got, r.since)
         && (version.Some? ==> version.value <= s.ver && (version.value == s.ver ==> AtLeast(got, s.finished)))
       case Watching(version, full, touched) =>
         && Whole(s, full) && AtLeast(full, r.since)
         && version <= s.ver && touched <= s.touch
         && (touched == s.touch <==> version == s.ver)
         && (version == s.ver ==> AtLeast(full, s.finished))
  }

  ghost predicate Base<V>(s: Sys<V>) {
    && s.hist != []
    && (forall n :: 0 <= n < |s.hist| ==> |s.hist[n]| == |s.hist[0]|)
    && (forall c <- s.finished :: 0 < c < |s.hist|)
  }

  ghost predicate Inv<V>(s: Sys<V>) {
    && Base(s)
    && (s.cached.Some? ==> Whole(s, s.cached.value) && AtLeast(s.cached.value, s.finished))
    && (forall r <- s.readers :: GoodReader(s, s.readers[r]))
    && (forall x <- s.returned :: Whole(s, x.snap) && AtLeast(x.snap, x.since))
  }

  lemma CommitKeeps<V>(s: Sys<V>, state: seq<Option<V>>)
    requires Inv(s) && |state| == Width(s)
    ensures Inv(Step(s, Commit(state)))
  {
    var n := Step(s, Commit(state));
    forall r <- n.readers ensures GoodReader(n, n.readers[r]) {
      assert GoodReader(s, s.readers[r]);
    }
  }

  lemma SharedKeeps<V>(s: Sys<V>, e: Event<V>)
    requires Inv(s) && (e.Invalidate? || e.ExpireValue? || e.ExpireVersion?) && !Step(s, e).reset
    ensures Inv(Step(s, e))
  {
    var n := Step(s, e);
    forall r <- n.readers ensures GoodReader(n, n.readers[r]) {
      assert GoodReader(s, s.readers[r]);
    }
  }

  lemma AdvanceKeeps<V>(s: Sys<V>, r: nat, p: Phase<V>)
    requires Inv(s) && r in s.readers && GoodReader(s, Reader(s.readers[r].since, p))
    ensures Inv(Advance(s, r, p))
  {
    var n := Advance(s, r, p);
    forall k <- n.readers ensures GoodReader(n, n.readers[k]) {
      assert k == r || GoodReader(s, s.readers[k]);
    }
  }

  lemma ReplyKeeps<V>(s: Sys<V>, r: nat, x: Snap<V>)
    requires Inv(s) && r in s.readers && Whole(s, x) && AtLeast(x, s.readers[r].since)
    ensures Inv(Reply(s, r, x))
  {
    var n := Reply(s, r, x);
    forall k <- n.readers ensures GoodReader(n, n.readers[k]) {
      assert GoodReader(s, s.readers[k]);
    }
  }

  /** One more part, read now, is genuine and newer than every finished commit. */
  lemma ReadNow<V>(s: Sys<V>, got: Snap<V>, x: V, commits: set<nat>)
    requires Base(s) && Genuine(s, got) && |got.parts| < Width(s)
    requires Last(s)[|got.parts|] == Some(x) && commits <= s.finished
    ensures var more := Snap(got.parts + [x], got.stamps + [|s.hist| - 1]);
      Genuine(s, more) && (AtLeast(got, commits) ==> AtLeast(more, commits))
  {
  }

  lemma LoadPartKeeps<V>(s: Sys<V>, r: nat)
    requires Inv(s) && r in s.readers
    ensures Inv(StepReader(s, LoadPart(r), s.readers[r].phase))
  {
    var p := s.readers[r].phase;
    assert GoodReader(s, s.readers[r]);
    if p.Loading? && |p.got.parts| < Width(s) {
      var part := Last(s)[|p.got.parts|];
      if part.Some? {
        ReadNow(s, p.got, part.value, s.readers[r].since);
        ReadNow(s, p.got, part.value, s.finished);
        hide Genuine, AtLeast;
        AdvanceKeeps(s, r, p.(got := Snap(p.got.parts + [part.value], p.got.stamps + [|s.hist| - 1])));
      } else {
        AbandonKeeps(s, r);
      }
    }
  }

  lemma AbandonKeeps<V>(s: Sys<V>, r: nat)
    requires Inv(s)
    ensures Inv(s.(readers := s.readers - {r}))
  {
    var n := s.(readers := s.readers - {r});
    forall k <- n.readers ensures GoodReader(n, n.readers[k]) {
      assert GoodReader(s, s.readers[k]);
    }
  }

  lemma PutKeeps<V>(s: Sys<V>, r: nat)
    requires Inv(s) && r in s.readers && s.readers[r].phase.Watching? && s.touch == s.readers[r].phase.touched
    ensures Inv(StepReader(s, ExecPut(r, true), s.readers[r].phase))
  {
    var p, n := s.readers[r].phase, StepReader(s, ExecPut(r, true), s.readers[r].phase);
    assert GoodReader(s, s.readers[r]);
    ReplyKeeps(s, r, p.full);
    forall k <- n.readers ensures GoodReader(n, n.readers[k]) {
      assert GoodReader(s, s.readers[k]);
    }
  }

  lemma ReaderKeeps<V>(s: Sys<V>, e: Event<V>)
    requires Inv(s) && (e.Get? || e.Version? || e.LoadPart? || e.Watch? || e.ExecPut?) && e.r in s.readers
    ensures Inv(StepReader(s, e, s.readers[e.r].phase))
  {
    var p := s.readers[e.r].phase;
    assert GoodReader(s, s.readers[e.r]);
    hide Inv, Genuine;
    match e
    case Get(r, ok) =>
      if p.Starting? {
        if ok && s.cached.Some? { ReplyCached(s, r); } else { AdvanceKeeps(s, r, Missed); }
      }
    case Version(r, ok) =>
      if p.Missed? { VersionKeeps(s, r, ok); }
    case LoadPart(r) => LoadPartKeeps(s, r);
    case Watch(r, ok) =>
      if p.Loading? && |p.got.parts| >= Width(s) {
        if p.version.None? || !ok || s.ver != p.version.value { ReplyKeeps(s, r, p.got); }
        else { WatchKeeps(s, r); }
      }
    case ExecPut(r, ok) =>
      if p.Watching? {
        if ok && s.touch == p.touched { PutKeeps(s, r); } else { ReplyKeeps(s, r, p.full); }
      }
  }

  lemma ReplyCached<V>(s: Sys<V>, r: nat)
    requires Inv(s) && r in s.readers && s.cached.Some?
    ensures Inv(Reply(s, r, s.cached.value))
  {
    assert GoodReader(s, s.readers[r]);
    ReplyKeeps(s, r, s.cached.value);
  }

  lemma VersionKeeps<V>(s: Sys<V>, r: nat, ok: bool)
    requires Inv(s) && r in s.readers && s.readers[r].phase.Missed?
    ensures Inv(Advance(s, r, Loading(if ok then Some(s.ver) else None, Snap([], []))))
  {
    assert GoodReader(s, s.readers[r]);
    AdvanceKeeps(s, r, Loading(if ok then Some(s.ver) else None, Snap([], [])));
  }

  lemma WatchKeeps<V>(s: Sys<V>, r: nat)
    requires Inv(s) && r in s.readers && s.readers[r].phase.Loading? && s.readers[r].phase.version == Some(s.ver)
    requires |s.readers[r].phase.got.parts| >= Width(s)
    ensures Inv(Advance(s, r, Watching(s.ver, s.readers[r].phase.got, s.touch)))
  {
    assert GoodReader(s, s.readers[r]);
    AdvanceKeeps(s, r, Watching(s.ver, s.readers[r].phase.got, s.touch));
  }

  lemma BeginKeeps<V>(s: Sys<V>, r: nat)
    requires Inv(s)
    ensures Inv(Step(s, Begin(r)))
  {
    var n := Step(s, Begin(r));
    forall k <- n.readers ensures GoodReader(n, n.readers[k]) {
      if k in s.readers { assert GoodReader(s, s.readers[k]); }
    }
  }

  /** Every event keeps the invariant, as long as no version key expires under a loading reader. */
  lemma StepKeepsInv<V>(s: Sys<V>, e: Event<V>)
    requires Inv(s) && !Step(s, e).reset
    ensures Inv(Step(s, e))
  {
    if e.Commit? { if |e.state| == Width(s) { CommitKeeps(s, e.state); } }
    else if e.Invalidate? || e.ExpireValue? || e.ExpireVersion? { SharedKeeps(s, e); }
    else if e.Begin? { BeginKeeps(s, e.r); }
    else if e.Abandon? { AbandonKeeps(s, e.r); }
    else if e.r in s.readers { ReaderKeeps(s, e); }
  }

  // ---- the steps on Redis are the cache's operations ----

  function SlotOf<V>(s: Sys<V>): Slot<Snap<V>> {
    Slot(s.cached, s.ver)
  }

  lemma InvalidateIsBump<V>(s: Sys<V>, c: nat)
    requires s.hist != [] && 0 < c < |s.hist|
    ensures SlotOf(Step(s, Invalidate(c))) == Bump(SlotOf(s), 1)
  {
  }

  lemma ExpiryIsLapse<V>(s: Sys<V>)
    requires s.hist != []
    ensures SlotOf(Step(s, ExpireValue)) == Lapse(SlotOf(s), false)
    ensures SlotOf(Step(s, ExpireVersion)) == Lapse(SlotOf(s), true)
  {
  }

  /** WATCH, the comparison and EXEC together act like one atomic Put at the moment of EXEC. */
  lemma ExecIsPut<V>(s: Sys<V>, r: nat)
    requires Inv(s) && r in s.readers && s.readers[r].phase.Watching?
    ensures var p := s.readers[r].phase;
      SlotOf(Step(s, ExecPut(r, true))) == PutIf(SlotOf(s), p.seen, p.full)
  {
    assert GoodReader(s, s.readers[r]);
  }

  // ---- runs ----

  function Init<V>(state: seq<Option<V>>): Sys<V> {
    Sys([state], {}, None, 0, 0, map[], [], false)
  }

  lemma HistoryGrows<V>(s: Sys<V>, e: Event<V>)
    requires s.hist != []
    ensures s.hist <= Step(s, e).hist && (s.reset ==> Step(s, e).reset)
  {
  }

  ghost function Exec<V>(state: seq<Option<V>>, es: seq<Event<V>>): (s: Sys<V>)
    ensures s.hist != []
  {
    if es == [] then Init(state)
    else
      var before := Exec(state, es[..|es| - 1]);
      HistoryGrows(before, es[|es| - 1]);
      Step(before, es[|es| - 1])
  }

  lemma {:induction false} ExecInv<V>(state: seq<Option<V>>, es: seq<Event<V>>)
    requires !Exec(state, es).reset
    ensures Inv(Exec(state, es))
  {
    if es == [] {
    } else {
      var before, e := Exec(state, es[..|es| - 1]), es[|es| - 1];
      assert Exec(state, es) == Step(before, e);
      HistoryGrows(before, e);
      hide Inv, Step, Exec;
      ExecInv(state, es[..|es| - 1]);
      StepKeepsInv(before, e);
    }
  }

  /**
   * Freshness: each part a Load returns is what the database held after some commit n, and no write
   * whose Invalidate had completed before the Load began is newer than n, whether the Load hit the
   * cache or loaded, however readers and writers interleave.
   */
  lemma Freshness<V>(state: seq<Option<V>>, es: seq<Event<V>>, x: Return<V>, p: nat)
    requires !Exec(state, es).reset && x in Exec(state, es).returned
    requires p < |state|
    ensures var hist := Exec(state, es).hist;
      && |x.snap.parts| == |state|
      && exists n :: 0 <= n < |hist| && |hist[n]| == |state| && hist[n][p] == Some(x.snap.parts[p])
                     && forall c <- x.since :: c <= n
  {
    var s := Exec(state, es);
    FirstState(state, es);
    ExecInv(state, es);
    hide Exec;
    assert Whole(s, x.snap) && AtLeast(x.snap, x.since);
    assert s.hist[x.snap.stamps[p]][p] == Some(x.snap.parts[p]);
  }

  lemma {:induction false} FirstState<V>(state: seq<Option<V>>, es: seq<Event<V>>)
    ensures Exec(state, es).hist[0] == state
  {
    if es == [] {
    } else {
      FirstState(state, es[..|es| - 1]);
      HistoryGrows(Exec(state, es[..|es| - 1]), es[|es| - 1]);
      hide Step, Inv;
    }
  }

  lemma CurrentFromInv<V>(s: Sys<V>)
    requires Inv(s) && s.cached.Some?
    requires forall c: nat :: 0 < c < |s.hist| ==> c in s.finished
    ensures |s.cached.value.parts| == |Last(s)|
    ensures forall p :: 0 <= p < |Last(s)| ==> Last(s)[p] == Some(s.cached.value.parts[p])
  {
    var x, last := s.cached.value, |s.hist| - 1;
    forall p | 0 <= p < |Last(s)| ensures Last(s)[p] == Some(x.parts[p]) {
      assert x.stamps[p] < |s.hist|;
      if last > 0 { assert last in s.finished && last <= x.stamps[p]; }
    }
  }

  /**
   * Torn reads are harmless: once no committed write awaits its Invalidate, what is cached is the
   * joint database state, in all its parts.
   */
  lemma CachedIsCurrent<V>(state: seq<Option<V>>, es: seq<Event<V>>)
    requires !Exec(state, es).reset && Exec(state, es).cached.Some?
    requires forall c: nat :: 0 < c < |Exec(state, es).hist| ==> c in Exec(state, es).finished
    ensures var s := Exec(state, es);
      && |s.cached.value.parts| == |Last(s)|
      && forall p :: 0 <= p < |Last(s)| ==> Last(s)[p] == Some(s.cached.value.parts[p])
  {
    ExecInv(state, es);
    CurrentFromInv(Exec(state, es));
  }

  // ---- what the two theorems rest on ----

  lemma Push<V>(state: seq<Option<V>>, es: seq<Event<V>>, e: Event<V>)
    ensures Exec(state, es + [e]) == Step(Exec(state, es), e)
  {
    assert (es + [e])[..|es|] == es;
  }

  const OLD: seq<Option<int>> := [Some(1), Some(1)]
  const NEW: seq<Option<int>> := [Some(2), Some(2)]

  function Quiet(hist: seq<seq<Option<int>>>, finished: set<nat>, ver: int, touch: nat): Sys<int> {
    Sys(hist, finished, None, ver, touch, map[], [], false)
  }

  /** One reader misses, reads the version and loads the first part. */
  lemma LoadFirst(es: seq<Event<int>>, q: Sys<int>) returns (out: seq<Event<int>>)
    requires Exec(OLD, es) == q && q.hist != [] && q.hist[0] == Last(q) == OLD
    requires q.readers == map[] && q.cached.None?
    ensures Exec(OLD, out) == q.(
      readers := map[0 := Reader(q.finished, Loading(Some(q.ver), Snap([1], [|q.hist| - 1])))])
  {
    hide Inv, Exec;
    var finished, ver, n := q.finished, q.ver, |q.hist| - 1;
    Push(OLD, es, Begin(0));
    out := es + [Begin(0)];
    assert Exec(OLD, out) == q.(readers := map[0 := Reader(finished, Starting)]);
    Push(OLD, out, Get(0, true));
    out := out + [Get(0, true)];
    assert Exec(OLD, out) == q.(readers := map[0 := Reader(finished, Missed)]);
    Push(OLD, out, Version(0, true));
    out := out + [Version(0, true)];
    assert Exec(OLD, out) == q.(readers := map[0 := Reader(finished, Loading(Some(ver), Snap([], [])))]);
    Push(OLD, out, LoadPart(0));
    out := out + [LoadPart(0)];
    assert [] + [1] == [1] && [] + [n] == [n];
    assert Exec(OLD, out) == q.(readers := map[0 := Reader(finished, Loading(Some(ver), Snap([1], [n])))]);
  }

  /** The reader has both parts, and the version reads as it did: it puts them. */
  lemma PutBoth(es: seq<Event<int>>, s: Sys<int>) returns (out: seq<Event<int>>)
    requires Exec(OLD, es) == s && s.hist != [] && s.hist[0] == OLD && s.readers.Keys == {0}
    requires s.readers[0].phase.Loading? && s.readers[0].phase.version == Some(s.ver)
    requires |s.readers[0].phase.got.parts| == 2
    ensures Exec(OLD, out) == s.(
      cached := Some(s.readers[0].phase.got), readers := map[],
      returned := s.returned + [Return(s.readers[0].since, s.readers[0].phase.got)])
  {
    hide Inv, Exec;
    var r := s.readers[0];
    Push(OLD, es, Watch(0, true));
    out := es + [Watch(0, true)];
    assert Exec(OLD, out) == Advance(s, 0, Watching(s.ver, r.phase.got, s.touch));
    Push(OLD, out, ExecPut(0, true));
    out := out + [ExecPut(0, true)];
    assert Exec(OLD, out).readers == map[];
  }

  /** A load that straddles a write caches a mix that was never the database state, until the Invalidate. */
  lemma TornSnapshotIsCached() returns (es: seq<Event<int>>)
    ensures var s := Exec(OLD, es);
      && !s.reset && s.hist == [OLD, NEW]
      && s.cached.Some? && s.cached.value.parts == [1, 2]
  {
    hide Inv;
    es := LoadFirst([], Quiet([OLD], {}, 0, 0));
    hide Exec;
    var q := Quiet([OLD, NEW], {}, 0, 0);
    Push(OLD, es, Commit(NEW));
    es := es + [Commit(NEW)];
    assert Exec(OLD, es) == q.(readers := map[0 := Reader({}, Loading(Some(0), Snap([1], [0])))]);
    Push(OLD, es, LoadPart(0));
    es := es + [LoadPart(0)];
    assert [1] + [2] == [1, 2] && [0] + [1] == [0, 1];
    assert Exec(OLD, es) == q.(readers := map[0 := Reader({}, Loading(Some(0), Snap([1, 2], [0, 1])))]);
    es := PutBoth(es, q.(readers := map[0 := Reader({}, Loading(Some(0), Snap([1, 2], [0, 1])))]));
  }

  /**
   * Why the version key must not expire under a loading reader: the count restarts, one Invalidate
   * brings it back to what the reader saw, and a stale value is cached with nothing left to drop it.
   */
  lemma ResetCachesStale() returns (es: seq<Event<int>>)
    ensures var s := Exec(OLD, es);
      && s.reset && s.hist == [OLD, OLD, NEW]
      && s.finished == {1, 2}
      && s.cached.Some? && s.cached.value.parts == [1, 1]
  {
    hide Inv;
    Push(OLD, [], Commit(OLD));
    es := [] + [Commit(OLD)];
    Push(OLD, es, Invalidate(1));
    es := es + [Invalidate(1)];
    assert [OLD] + [OLD] == [OLD, OLD];
    es := LoadFirst(es, Quiet([OLD, OLD], {1}, 1, 1));
    hide Inv, Exec;
    Push(OLD, es, LoadPart(0));
    es := es + [LoadPart(0)];
    assert [1] + [1] == [1, 1];
    var got := Snap([1, 1], [1, 1]);
    var q := Quiet([OLD, OLD], {1}, 1, 1).(readers := map[0 := Reader({1}, Loading(Some(1), got))]);
    assert Exec(OLD, es) == q;
    Push(OLD, es, ExpireVersion);
    es := es + [ExpireVersion];
    assert HoldsVersion(q.readers[0]);
    assert Exec(OLD, es) == q.(ver := 0, touch := 2, reset := true);
    Push(OLD, es, Commit(NEW));
    es := es + [Commit(NEW)];
    assert Exec(OLD, es) == q.(hist := [OLD, OLD, NEW], ver := 0, touch := 2, reset := true);
    Push(OLD, es, Invalidate(2));
    es := es + [Invalidate(2)];
    q := q.(hist := [OLD, OLD, NEW], finished := {1, 2}, ver := 1, touch := 3, reset := true);
    assert Exec(OLD, es) == q;
    es := PutBoth(es, q);
  }
}
