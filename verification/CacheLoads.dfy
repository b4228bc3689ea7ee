/** A Load that nobody disturbs, from its first command to its last: what it returns, and what it leaves for the next. */
module CacheLoads {
  import opened Basics
  import opened VersionedCache
  import opened CacheRuns

  /** Every query of the load finds its row. */
  predicate Found<V>(state: seq<Option<V>>) {
    forall p :: 0 <= p < |state| ==> state[p].Some?
  }

  /** The current database state, as a load reads it. */
  function Now<V>(s: Sys<V>): Snap<V>
    requires s.hist != [] && Found(Last(s))
  {
    Snap(seq(|Last(s)|, p requires 0 <= p < |Last(s)| => Last(s)[p].value), seq(|Last(s)|, _ => |s.hist| - 1))
  }

  function Parts<V>(x: Snap<V>, n: nat): Snap<V>
    requires n <= |x.parts| && n <= |x.stamps|
  {
    Snap(x.parts[..n], x.stamps[..n])
  }

  /** The queries of a load, one for each part. */
  function Queries<V>(r: nat, n: nat): seq<Event<V>> {
    if n == 0 then [] else Queries(r, n - 1) + [LoadPart(r)]
  }

  ghost predicate LoadingParts<V>(s: Sys<V>, r: nat, since: set<nat>, n: nat)
    requires s.hist != [] && Found(Last(s))
  {
    n <= |Last(s)| && r in s.readers && s.readers[r] == Reader(since, Loading(Some(s.ver), Parts(Now(s), n)))
  }

  /** Two states that differ in one reader only. */
  ghost predicate ButFor<V>(s: Sys<V>, n: Sys<V>, r: nat) {
    n == s.(readers := n.readers) && n.readers - {r} == s.readers - {r}
  }

  lemma NextPart<V>(s: Sys<V>, r: nat, since: set<nat>, n: nat)
    requires s.hist != [] && |Last(s)| == Width(s) && Found(Last(s)) && n < Width(s) && LoadingParts(s, r, since, n)
    ensures var t := Step(s, LoadPart(r)); ButFor(s, t, r) && LoadingParts(t, r, since, n + 1)
  {
    assert Parts(Now(s), n).parts + [Last(s)[n].value] == Now(s).parts[..n + 1];
    assert Parts(Now(s), n).stamps + [|s.hist| - 1] == Now(s).stamps[..n + 1];
  }

  lemma PushPart<V>(state: seq<Option<V>>, es: seq<Event<V>>, r: nat, since: set<nat>, n: nat)
    requires var s := Exec(state, es);
      |Last(s)| == Width(s) && Found(Last(s)) && n < Width(s) && LoadingParts(s, r, since, n)
    ensures var s, t := Exec(state, es), Exec(state, es + [LoadPart(r)]);
      ButFor(s, t, r) && LoadingParts(t, r, since, n + 1)
  {
    Push(state, es, LoadPart(r));
    hide Exec, Step, LoadingParts;
    NextPart(Exec(state, es), r, since, n);
  }

  lemma SameButReaders<V>(a: Sys<V>, b: Sys<V>, c: Sys<V>, r: nat)
    requires ButFor(a, b, r) && ButFor(b, c, r)
    ensures ButFor(a, c, r)
  {
  }

  lemma SameHistory<V>(s: Sys<V>, t: Sys<V>, r: nat)
    requires ButFor(s, t, r)
    ensures t.hist == s.hist
  {
  }

  lemma MoreQueries<V>(es: seq<Event<V>>, r: nat, n: nat)
    requires n > 0
    ensures es + Queries(r, n) == es + Queries(r, n - 1) + [LoadPart(r)]
    ensures es + Queries(r, 0) == es
  {
    assert Queries<V>(r, n) == Queries(r, n - 1) + [LoadPart(r)];
    assert es + (Queries(r, n - 1) + [LoadPart(r)]) == es + Queries(r, n - 1) + [LoadPart(r)];
  }

  lemma {:induction false} LoadsAllParts<V>(state: seq<Option<V>>, es: seq<Event<V>>, r: nat, since: set<nat>, n: nat)
    requires var s := Exec(state, es);
      |Last(s)| == Width(s) && Found(Last(s)) && n <= Width(s) && LoadingParts(s, r, since, 0)
    ensures var s, t := Exec(state, es), Exec(state, es + Queries(r, n));
      ButFor(s, t, r) && t.hist == s.hist && LoadingParts(t, r, since, n)
  {
    hide Exec, LoadingParts;
    MoreQueries(es, r, Max(n, 1));
    if n > 0 {
      LoadsAllParts(state, es, r, since, n - 1);
      hide ButFor, Queries, Found;
      var s, t := Exec(state, es), Exec(state, es + Queries(r, n - 1));
      PushPart(state, es + Queries(r, n - 1), r, since, n - 1);
      var u := Exec(state, es + Queries(r, n));
      SameButReaders(s, t, u, r);
      SameHistory(s, u, r);
    }
  }

  /** A Load that finds nothing in the cache, up to its first query. */
  lemma Misses<V>(state: seq<Option<V>>, es: seq<Event<V>>, r: nat)
    requires var s := Exec(state, es); Found(Last(s)) && r !in s.readers && s.cached.None?
    ensures var s, t := Exec(state, es), Exec(state, es + [Begin(r)] + [Get(r, true)] + [Version(r, true)]);
      ButFor(s, t, r) && LoadingParts(t, r, s.finished, 0)
  {
    Push(state, es, Begin(r));
    Push(state, es + [Begin(r)], Get(r, true));
    Push(state, es + [Begin(r)] + [Get(r, true)], Version(r, true));
    hide Exec;
    assert Parts(Now(Exec(state, es)), 0) == Snap([], []);
  }

  lemma Stores<V>(state: seq<Option<V>>, es: seq<Event<V>>, r: nat, since: set<nat>)
    requires var s := Exec(state, es);
      |Last(s)| == Width(s) && Found(Last(s)) && LoadingParts(s, r, since, Width(s))
    ensures var s, t := Exec(state, es), Exec(state, es + [Watch(r, true)] + [ExecPut(r, true)]);
      && t == s.(cached := Some(Now(s)), readers := s.readers - {r}, returned := s.returned + [Return(since, Now(s))])
  {
    var s := Exec(state, es);
    Push(state, es, Watch(r, true));
    Push(state, es + [Watch(r, true)], ExecPut(r, true));
    hide Exec;
    assert Parts(Now(s), Width(s)) == Now(s);
    assert Advance(s, r, Watching(s.ver, Now(s), s.touch)).readers - {r} == s.readers - {r};
  }

  /** A whole Load on a miss. */
  function MissRun<V>(es: seq<Event<V>>, r: nat, n: nat): seq<Event<V>> {
    es + [Begin(r)] + [Get(r, true)] + [Version(r, true)] + Queries(r, n) + [Watch(r, true)] + [ExecPut(r, true)]
  }

  lemma StateWidth<V>(state: seq<Option<V>>, es: seq<Event<V>>)
    requires !Exec(state, es).reset
    ensures var s := Exec(state, es); |Last(s)| == Width(s) == |state|
  {
    FirstState(state, es);
    ExecInv(state, es);
    hide Exec;
  }

  /** A Load that misses, with all its queries done. */
  function LoadedRun<V>(es: seq<Event<V>>, r: nat, n: nat): seq<Event<V>> {
    es + [Begin(r)] + [Get(r, true)] + [Version(r, true)] + Queries(r, n)
  }

  lemma Loads<V>(state: seq<Option<V>>, es: seq<Event<V>>, r: nat)
    requires !Exec(state, es).reset
    requires var s := Exec(state, es); Found(Last(s)) && r !in s.readers && s.cached.None?
    ensures var s, t := Exec(state, es), Exec(state, LoadedRun(es, r, |state|));
      ButFor(s, t, r) && t.hist == s.hist && LoadingParts(t, r, s.finished, |state|)
  {
    var missed := es + [Begin(r)] + [Get(r, true)] + [Version(r, true)];
    var s, m, n := Exec(state, es), Exec(state, missed), |state|;
    StateWidth(state, es);
    Misses(state, es, r);
    SameHistory(s, m, r);
    SameReading(s, m);
    assert LoadedRun(es, r, n) == missed + Queries(r, n);
    hide *;
    LoadsAllParts(state, missed, r, s.finished, n);
    SameButReaders(s, m, Exec(state, missed + Queries(r, n)), r);
  }

  lemma SameReading<V>(s: Sys<V>, t: Sys<V>)
    requires s.hist == t.hist && s.hist != []
    ensures Last(s) == Last(t) && Width(s) == Width(t)
  {
  }

  lemma ReaderGone<V>(s: Sys<V>, t: Sys<V>, r: nat)
    requires ButFor(s, t, r) && r !in s.readers
    ensures t.(readers := t.readers - {r}) == s
  {
    assert s.readers - {r} == s.readers;
  }

  /** A Load that misses and that nobody disturbs returns the current database state, and leaves it in the cache. */
  lemma MissIsStored<V>(state: seq<Option<V>>, es: seq<Event<V>>, r: nat)
    requires !Exec(state, es).reset
    requires var s := Exec(state, es); Found(Last(s)) && r !in s.readers && s.cached.None?
    ensures var s, t := Exec(state, es), Exec(state, MissRun(es, r, |state|));
      t == s.(cached := Some(Now(s)), returned := s.returned + [Return(s.finished, Now(s))])
  {
    var s, loaded := Exec(state, es), LoadedRun(es, r, |state|);
    StateWidth(state, es);
    Loads(state, es, r);
    hide Exec, LoadingParts, Queries, Found, ButFor;
    Stores(state, loaded, r, s.finished);
    ReaderGone(s, Exec(state, loaded), r);
  }

  /** A Load that hits returns what is cached, at once, and changes nothing. */
  lemma HitIsServed<V>(state: seq<Option<V>>, es: seq<Event<V>>, r: nat)
    requires var s := Exec(state, es); r !in s.readers && s.cached.Some?
    ensures var s, t := Exec(state, es), Exec(state, es + [Begin(r)] + [Get(r, true)]);
      t == s.(returned := s.returned + [Return(s.finished, s.cached.value)])
  {
    var s := Exec(state, es);
    Push(state, es, Begin(r));
    Push(state, es + [Begin(r)], Get(r, true));
    hide Exec;
    assert s.readers[r := Reader(s.finished, Starting)] - {r} == s.readers;
  }

  /** Two Loads in a row: the second is served what the first left, without a query. */
  lemma SecondLoadHits<V>(state: seq<Option<V>>, es: seq<Event<V>>, r: nat)
    requires !Exec(state, es).reset
    requires var s := Exec(state, es); Found(Last(s)) && r !in s.readers && s.cached.None?
    ensures var s, t := Exec(state, es), Exec(state, MissRun(es, r, |state|) + [Begin(r)] + [Get(r, true)]);
      t.returned == s.returned + [Return(s.finished, Now(s))] + [Return(s.finished, Now(s))]
  {
    MissIsStored(state, es, r);
    HitIsServed(state, MissRun(es, r, |state|), r);
    hide Exec;
  }

  /** An Invalidate between a Load's WATCH and its EXEC keeps the result out of the cache; the Load returns it all the same. */
  lemma DisturbedPutIsDropped<V>(state: seq<Option<V>>, es: seq<Event<V>>, r: nat, c: nat, ok: bool)
    requires var s := Exec(state, es); r in s.readers && s.readers[r].phase.Watching? && 0 < c < |s.hist|
    requires !Exec(state, es).reset
    ensures var s, t := Exec(state, es), Exec(state, es + [Invalidate(c)] + [ExecPut(r, ok)]);
      && t.cached == None && r !in t.readers
      && t.returned == s.returned + [Return(s.readers[r].since, s.readers[r].phase.full)]
  {
    var s := Exec(state, es);
    ExecInv(state, es);
    assert GoodReader(s, s.readers[r]);
    Push(state, es, Invalidate(c));
    Push(state, es + [Invalidate(c)], ExecPut(r, ok));
    hide Exec;
  }

  /** Bumping twice is bumping by the sum: an id given twice to one Invalidate counts twice. */
  lemma BumpsAddUp<V>(s: Slot<V>, m: nat, n: nat)
    ensures Bump(Bump(s, m), n) == Bump(s, m + n)
    ensures n > 0 ==> Bump(s, n).value.None? && Bump(s, n).ver == s.ver + n
  {
  }
}
