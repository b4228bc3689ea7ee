/**
 * Message search over two sources (internal/search/search.go Service.Search and the two queries of
 * internal/database/chat.sql.go): fetch a few more than a page from each, drop suspended senders'
 * messages, sort, cut; the next page continues after the last hit.
 */
module MessageSearch {
  import opened Basics

  const EXTRA: nat := 5

  /** A matching message; NIL as sender: the account is gone. */
  datatype Hit = Hit(id: Id, chat: Id, sender: Id, at: Time)

  /** before and before_id */
  datatype Cursor = Cursor(at: Time, id: Id)

  /** The matches in each source, in query order; a source the query does not ask for has none. */
  datatype Db = Db(personal: seq<Hit>, group: seq<Hit>)

  /** ORDER BY created_at DESC, id DESC */
  predicate Newer(a: Hit, b: Hit) {
    a.at > b.at || (a.at == b.at && a.id > b.id)
  }

  /** (created_at, id) < (before, before_id) */
  predicate Below(h: Hit, c: Cursor) {
    h.at < c.at || (h.at == c.at && h.id < c.id)
  }

  predicate Shown(h: Hit, suspended: set<Id>) {
    h.sender == NIL || h.sender !in suspended
  }

  predicate Desc(hits: seq<Hit>) {
    forall i, j :: 0 <= i < j < |hits| ==> Newer(hits[i], hits[j])
  }

  /** Each source is in order, and no two messages share time and id. */
  ghost predicate Good(db: Db) {
    Desc(db.personal) && Desc(db.group) && Apart(db.personal, db.group)
  }

  ghost predicate Apart(a: seq<Hit>, b: seq<Hit>) {
    forall x <- a, y <- b :: Newer(x, y) || Newer(y, x)
  }

  function Take(hits: seq<Hit>, n: nat): (r: seq<Hit>)
    ensures r <= hits
  {
    if |hits| <= n then hits else hits[..n]
  }

  function Older(hits: seq<Hit>, c: Cursor): seq<Hit> {
    if hits == [] then []
    else (if Below(hits[0], c) then [hits[0]] else []) + Older(hits[1..], c)
  }

  function Visible(hits: seq<Hit>, suspended: set<Id>): seq<Hit> {
    if hits == [] then []
    else (if Shown(hits[0], suspended) then [hits[0]] else []) + Visible(hits[1..], suspended)
  }

  function Merge(a: seq<Hit>, b: seq<Hit>): seq<Hit>
    decreases |a| + |b|
  {
    if a == [] then b
    else if b == [] then a
    else if Newer(a[0], b[0]) then [a[0]] + Merge(a[1..], b)
    else [b[0]] + Merge(a, b[1..])
  }

  /** One query: the rows below the cursor, LIMIT lim. */
  function Fetch(rows: seq<Hit>, c: Cursor, lim: nat): seq<Hit> {
    Take(Older(rows, c), lim)
  }

  /** What a page should be: the next `limit` visible matches of both sources together. */
  function NextPage(db: Db, suspended: set<Id>, c: Cursor, limit: nat): seq<Hit> {
    Take(Visible(Older(Merge(db.personal, db.group), c), suspended), limit)
  }

  /** What Search returns. */
  function Search(db: Db, suspended: set<Id>, c: Cursor, limit: nat): seq<Hit> {
    Take(Merge(Visible(Fetch(db.personal, c, limit + EXTRA), suspended),
               Visible(Fetch(db.group, c, limit + EXTRA), suspended)), limit)
  }

  // ---- ordered lists ----

  lemma {:induction false} OlderExact(hits: seq<Hit>, c: Cursor)
    ensures forall x :: x in Older(hits, c) <==> x in hits && Below(x, c)
    ensures Desc(hits) ==> Desc(Older(hits, c))
  {
    if hits != [] {
      assert hits == [hits[0]] + hits[1..];
      OlderExact(hits[1..], c);
      if Desc(hits) { PushOlder(hits[0], Older(hits[1..], c), hits[1..]); }
    }
  }

  lemma {:induction false} VisibleExact(hits: seq<Hit>, suspended: set<Id>)
    ensures forall x :: x in Visible(hits, suspended) <==> x in hits && Shown(x, suspended)
    ensures Desc(hits) ==> Desc(Visible(hits, suspended))
  {
    if hits != [] {
      assert hits == [hits[0]] + hits[1..];
      VisibleExact(hits[1..], suspended);
      if Desc(hits) { PushOlder(hits[0], Visible(hits[1..], suspended), hits[1..]); }
    }
  }

  /** The newest of a list stays ahead of any ordered part of the rest. */
  lemma PushOlder(x: Hit, part: seq<Hit>, rest: seq<Hit>)
    requires Desc([x] + rest) && Desc(part) && forall y <- part :: y in rest
    ensures Desc([x] + part) && Desc(rest)
  {
    var all := [x] + rest;
    forall y <- rest ensures Newer(x, y) {
      var i :| 0 <= i < |rest| && rest[i] == y;
      assert all[0] == x && all[i + 1] == y;
    }
    forall i, j | 0 <= i < j < |rest| ensures Newer(rest[i], rest[j]) { assert all[i + 1] == rest[i] && all[j + 1] == rest[j]; }
    forall j | 0 <= j < |part| ensures Newer(x, part[j]) { assert part[j] in part; }
  }

  lemma {:induction false} MergeExact(a: seq<Hit>, b: seq<Hit>)
    ensures forall x :: x in Merge(a, b) <==> x in a || x in b
    ensures Desc(a) && Desc(b) && Apart(a, b) ==> Desc(Merge(a, b))
    decreases |a| + |b|
  {
    if a != [] && b != [] {
      assert a == [a[0]] + a[1..] && b == [b[0]] + b[1..];
      if Newer(a[0], b[0]) {
        MergeExact(a[1..], b);
        if Desc(a) && Desc(b) && Apart(a, b) { MergeAhead(a[0], a[1..], b, Merge(a[1..], b)); }
      } else {
        MergeExact(a, b[1..]);
        if Desc(a) && Desc(b) && Apart(a, b) { MergeAhead(b[0], b[1..], a, Merge(a, b[1..])); }
      }
    }
  }

  lemma MergeAhead(x: Hit, rest: seq<Hit>, other: seq<Hit>, merged: seq<Hit>)
    requires Desc([x] + rest) && Desc(other) && other != [] && Newer(x, other[0])
    requires (Desc(rest) ==> Desc(merged)) && forall y <- merged :: y in rest || y in other
    ensures Desc([x] + merged)
  {
    var all := [x] + rest;
    forall y <- rest ensures Newer(x, y) {
      var i :| 0 <= i < |rest| && rest[i] == y;
      assert all[0] == x && all[i + 1] == y;
    }
    forall i, j | 0 <= i < j < |rest| ensures Newer(rest[i], rest[j]) { assert all[i + 1] == rest[i] && all[j + 1] == rest[j]; }
    forall y <- other ensures Newer(x, y) {
      var i :| 0 <= i < |other| && other[i] == y;
    }
    forall j | 0 <= j < |merged| ensures Newer(x, merged[j]) { assert merged[j] in merged; }
  }

  /** An ordered list is determined by what is in it. */
  lemma {:induction false} OnlyOneOrder(a: seq<Hit>, b: seq<Hit>)
    requires Desc(a) && Desc(b) && forall x :: x in a <==> x in b
    ensures a == b
  {
    assert b != [] ==> b[0] in b;
    if a != [] {
      assert a[0] in a && b != [];
      assert a[0] == b[0];
      assert a == [a[0]] + a[1..] && b == [b[0]] + b[1..];
      SameRest(a, b);
      OnlyOneOrder(a[1..], b[1..]);
    }
  }

  lemma SameRest(a: seq<Hit>, b: seq<Hit>)
    requires Desc(a) && Desc(b) && a != [] && b != [] && a[0] == b[0] && forall x :: x in a <==> x in b
    ensures Desc(a[1..]) && Desc(b[1..]) && forall x :: x in a[1..] <==> x in b[1..]
  {
    forall x ensures x in a[1..] ==> x in b[1..] { if x in a[1..] { RestOf(a, b, x); } }
    forall x ensures x in b[1..] ==> x in a[1..] { if x in b[1..] { RestOf(b, a, x); } }
  }

  lemma RestOf(a: seq<Hit>, b: seq<Hit>, x: Hit)
    requires Desc(a) && a != [] && b != [] && a[0] == b[0] && x in a[1..] && x in b
    ensures x in b[1..]
  {
    var i :| 0 <= i < |a[1..]| && a[1..][i] == x;
    assert Newer(a[0], a[i + 1]);
    var j :| 0 <= j < |b| && b[j] == x;
    assert j > 0;
    assert b[1..][j - 1] == x;
  }

  // ---- a page is the next page ----

  lemma {:induction false} VisibleConcat(a: seq<Hit>, b: seq<Hit>, suspended: set<Id>)
    ensures Visible(a + b, suspended) == Visible(a, suspended) + Visible(b, suspended)
  {
    if a == [] {
      assert a + b == b;
    } else {
      assert (a + b)[1..] == a[1..] + b;
      VisibleConcat(a[1..], b, suspended);
      var head := if Shown(a[0], suspended) then [a[0]] else [];
      assert Visible(a + b, suspended) == head + Visible(a[1..] + b, suspended);
      assert Visible(a, suspended) == head + Visible(a[1..], suspended);
      hide Visible;
    }
  }

  /** How many of the rows are hidden. */
  function Hidden(hits: seq<Hit>, suspended: set<Id>): nat {
    if hits == [] then 0
    else (if Shown(hits[0], suspended) then 0 else 1) + Hidden(hits[1..], suspended)
  }

  lemma {:induction false} HiddenAndVisible(hits: seq<Hit>, suspended: set<Id>)
    ensures |Visible(hits, suspended)| + Hidden(hits, suspended) == |hits|
  {
    if hits != [] { HiddenAndVisible(hits[1..], suspended); }
  }

  /** The rows of a source that its query leaves behind. */
  function Beyond(rows: seq<Hit>, c: Cursor, limit: nat): seq<Hit> {
    Older(rows, c)[|Fetch(rows, c, limit + EXTRA)|..]
  }

  /** The five extra rows make up for the hidden ones, or nothing visible is left behind. */
  predicate Enough(rows: seq<Hit>, suspended: set<Id>, c: Cursor, limit: nat) {
    || Hidden(Fetch(rows, c, limit + EXTRA), suspended) <= EXTRA
    || Visible(Beyond(rows, c, limit), suspended) == []
  }

  /** With enough from a source, what its fetch shows is all of it, or at least a page. */
  lemma FetchSplits(rows: seq<Hit>, suspended: set<Id>, c: Cursor, limit: nat)
    ensures var shown, rest := Visible(Fetch(rows, c, limit + EXTRA), suspended), Visible(Beyond(rows, c, limit), suspended);
      && Visible(Older(rows, c), suspended) == shown + rest
      && (Enough(rows, suspended, c, limit) ==> rest == [] || |shown| >= limit)
      && (!Enough(rows, suspended, c, limit) ==> rest != [] && |shown| < limit)
  {
    var f, all := Fetch(rows, c, limit + EXTRA), Older(rows, c);
    assert all == f + all[|f|..];
    VisibleConcat(f, all[|f|..], suspended);
    HiddenAndVisible(f, suspended);
    if |all| <= limit + EXTRA { assert all[|f|..] == []; }
  }

  /** How many rows of an ordered list are newer than h. */
  function Ahead(rows: seq<Hit>, h: Hit): nat {
    if rows == [] then 0
    else (if Newer(rows[0], h) then 1 else 0) + Ahead(rows[1..], h)
  }

  /**
   * A source showed `shown` and left `rest` behind, and `others` is all the other source has: whatever was
   * left behind comes after at least n hits.
   */
  predicate ComesAfter(shown: seq<Hit>, rest: seq<Hit>, others: seq<Hit>, n: nat) {
    rest == [] || |shown| + Ahead(others, rest[0]) >= n
  }

  lemma {:induction false} NoneAhead(rows: seq<Hit>, h: Hit)
    requires Desc(rows) && (rows != [] ==> Newer(h, rows[0]))
    ensures Ahead(rows, h) == 0
  {
    if rows != [] {
      assert rows == [rows[0]] + rows[1..];
      PushOlder(rows[0], rows[1..], rows[1..]);
      if |rows| > 1 { assert Newer(rows[0], rows[1]); }
      NoneAhead(rows[1..], h);
    }
  }

  /** Popping the newest of all from `shown` on the one side is popping one that is ahead on the other. */
  lemma PopKeeps(a: seq<Hit>, x: seq<Hit>, b: seq<Hit>, y: seq<Hit>, n: nat)
    requires n > 0 && a != [] && b + y != [] && Newer(a[0], (b + y)[0]) && Desc(b + y)
    ensures ComesAfter(a, x, b + y, n) <==> ComesAfter(a[1..], x, b + y, n - 1)
    ensures ComesAfter(b, y, a + x, n) <==> ComesAfter(b, y, a[1..] + x, n - 1)
  {
    assert (a + x)[1..] == a[1..] + x;
    if y != [] {
      var k := |b|;
      assert (b + y)[k] == y[0];
      assert k > 0 ==> Newer((b + y)[0], (b + y)[k]);
      assert Newer(a[0], y[0]);
    }
  }

  lemma PopOrder(a: seq<Hit>, b: seq<Hit>)
    requires a != [] && Desc(a) && Apart(a, b)
    ensures Desc(a[1..]) && Apart(a[1..], b) && Apart(b, a[1..]) && Apart(b, a)
  {
    assert a == [a[0]] + a[1..];
    PushOlder(a[0], a[1..], a[1..]);
  }

  lemma MergeHead(a: seq<Hit>, b: seq<Hit>)
    requires a != [] && Desc(b) && (b != [] ==> Newer(a[0], b[0]))
    ensures Merge(a, b) == [a[0]] + Merge(a[1..], b)
    ensures Merge(b, a) == [a[0]] + Merge(b, a[1..])
  {
    if b == [] { assert a == [a[0]] + a[1..]; }
  }

  /** One source has nothing. */
  lemma TakeAlone(b: seq<Hit>, y: seq<Hit>, n: nat)
    ensures Take(b + y, n) == Take(b, n) <==> y == [] || |b| >= n
    ensures Ahead([], if y == [] then Hit(0, 0, 0, 0) else y[0]) == 0
    ensures Merge([], b + y) == b + y == Merge(b + y, []) && Merge([], b) == b == Merge(b, [])
  {
    if y == [] { assert b + y == b; }
    else if |b| < n { assert |Take(b + y, n)| > |b|; }
  }

  lemma TakeNext(x: Hit, rest: seq<Hit>, n: nat)
    requires n > 0
    ensures Take([x] + rest, n) == [x] + Take(rest, n - 1)
  {
  }

  /** Nothing shown on the side of the newest: the right first hit is missing. */
  lemma FirstIsMissing(x: seq<Hit>, b: seq<Hit>, y: seq<Hit>, n: nat)
    requires n > 0 && x != [] && Desc(b + y) && (b + y != [] ==> Newer(x[0], (b + y)[0]))
    ensures !ComesAfter([], x, b + y, n)
    ensures Take(Merge(x, b + y), n) != Take(Merge([], b), n)
    ensures Take(Merge(b + y, x), n) != Take(Merge(b, []), n)
  {
    NoneAhead(b + y, x[0]);
    MergeHead(x, b + y);
    TakeNext(x[0], Merge(x[1..], b + y), n);
    TakeNext(x[0], Merge(b + y, x[1..]), n);
    if b != [] {
      assert (b + y)[0] == b[0];
      assert Take(b, n)[0] == b[0];
    }
  }

  /** One step of the merge, with the newest hit shown on the left. */
  lemma MergeStep(a: seq<Hit>, x: seq<Hit>, b: seq<Hit>, y: seq<Hit>, n: nat)
    requires n > 0 && a != [] && b + y != [] && Newer(a[0], (b + y)[0]) && Desc(b + y)
    ensures Take(Merge(a + x, b + y), n) == Take(Merge(a, b), n)
            <==> Take(Merge(a[1..] + x, b + y), n - 1) == Take(Merge(a[1..], b), n - 1)
    ensures Take(Merge(b + y, a + x), n) == Take(Merge(b, a), n)
            <==> Take(Merge(b + y, a[1..] + x), n - 1) == Take(Merge(b, a[1..]), n - 1)
  {
    assert (a + x)[1..] == a[1..] + x && (a + x)[0] == a[0];
    assert b != [] ==> b[0] == (b + y)[0];
    MergeHead(a + x, b + y);
    forall i, j | 0 <= i < j < |b| ensures Newer(b[i], b[j]) { assert (b + y)[i] == b[i] && (b + y)[j] == b[j]; }
    MergeHead(a, b);
    TakeNext(a[0], Merge(a[1..] + x, b + y), n);
    TakeNext(a[0], Merge(a[1..], b), n);
    TakeNext(a[0], Merge(b + y, a[1..] + x), n);
    TakeNext(a[0], Merge(b, a[1..]), n);
    hide Take, Merge;
    SameHead(a[0], Take(Merge(a[1..] + x, b + y), n - 1), Take(Merge(a[1..], b), n - 1));
    SameHead(a[0], Take(Merge(b + y, a[1..] + x), n - 1), Take(Merge(b, a[1..]), n - 1));
  }

  lemma SameHead(h: Hit, s: seq<Hit>, t: seq<Hit>)
    ensures [h] + s == [h] + t <==> s == t
  {
    assert ([h] + s)[1..] == s && ([h] + t)[1..] == t;
  }

  /** The question MergeTake answers. */
  predicate SameStart(a: seq<Hit>, x: seq<Hit>, b: seq<Hit>, y: seq<Hit>, n: nat) {
    Take(Merge(a + x, b + y), n) == Take(Merge(a, b), n)
  }

  lemma NothingToMerge(a: seq<Hit>, x: seq<Hit>, b: seq<Hit>, y: seq<Hit>, n: nat)
    requires n == 0 || a + x == [] || b + y == []
    ensures SameStart(a, x, b, y, n) <==> ComesAfter(a, x, b + y, n) && ComesAfter(b, y, a + x, n)
  {
    if n > 0 {
      if a + x == [] {
        assert a == [] && x == [];
        TakeAlone(b, y, n);
      } else {
        assert b == [] && y == [];
        TakeAlone(a, x, n);
      }
    }
  }

  /** The newest of all is on the left, and was left behind, or is shown and can be popped. */
  lemma PopLeft(a: seq<Hit>, x: seq<Hit>, b: seq<Hit>, y: seq<Hit>, n: nat)
    requires Desc(a + x) && Desc(b + y) && Apart(a + x, b + y)
    requires n > 0 && a + x != [] && b + y != [] && Newer((a + x)[0], (b + y)[0])
    ensures a == [] ==> !ComesAfter(a, x, b + y, n) && !SameStart(a, x, b, y, n) && !SameStart(b, y, a, x, n)
    ensures a != [] ==>
      && Desc(a[1..] + x) && Apart(a[1..] + x, b + y) && Apart(b + y, a[1..] + x)
      && (ComesAfter(a, x, b + y, n) <==> ComesAfter(a[1..], x, b + y, n - 1))
      && (ComesAfter(b, y, a + x, n) <==> ComesAfter(b, y, a[1..] + x, n - 1))
      && (SameStart(a, x, b, y, n) <==> SameStart(a[1..], x, b, y, n - 1))
      && (SameStart(b, y, a, x, n) <==> SameStart(b, y, a[1..], x, n - 1))
  {
    if a == [] {
      assert a + x == x;
      FirstIsMissing(x, b, y, n);
    } else {
      assert (a + x)[1..] == a[1..] + x;
      PopOrder(a + x, b + y);
      PopKeeps(a, x, b, y, n);
      MergeStep(a, x, b, y, n);
    }
    hide Merge, Take, Desc, Apart, ComesAfter;
  }

  lemma OneIsNewer(a: seq<Hit>, b: seq<Hit>)
    requires Apart(a, b) && a != [] && b != []
    ensures Apart(b, a) && (Newer(a[0], b[0]) || Newer(b[0], a[0]))
  {
    assert a[0] in a && b[0] in b;
  }

  /**
   * Merging only what two sources show gives the first n of the whole merge if and only if what each
   * source left behind comes after n hits.
   */
  lemma {:induction false} MergeTake(a: seq<Hit>, x: seq<Hit>, b: seq<Hit>, y: seq<Hit>, n: nat)
    requires Desc(a + x) && Desc(b + y) && Apart(a + x, b + y)
    ensures SameStart(a, x, b, y, n) <==> ComesAfter(a, x, b + y, n) && ComesAfter(b, y, a + x, n)
    decreases n
  {
    hide *;
    if n == 0 || a + x == [] || b + y == [] {
      NothingToMerge(a, x, b, y, n);
    } else {
      OneIsNewer(a + x, b + y);
      if Newer((a + x)[0], (b + y)[0]) {
        PopLeft(a, x, b, y, n);
        if a != [] { MergeTake(a[1..], x, b, y, n - 1); }
      } else {
        PopLeft(b, y, a, x, n);
        if b != [] { MergeTake(a, x, b[1..], y, n - 1); }
      }
    }
  }

  /** Filtering the merged list is merging the filtered ones. */
  lemma FilterMerge(db: Db, suspended: set<Id>, c: Cursor)
    requires Good(db)
    ensures Visible(Older(Merge(db.personal, db.group), c), suspended)
            == Merge(Visible(Older(db.personal, c), suspended), Visible(Older(db.group, c), suspended))
    ensures Desc(Visible(Older(Merge(db.personal, db.group), c), suspended))
  {
    var all := Merge(db.personal, db.group);
    MergeExact(db.personal, db.group);
    OlderExact(all, c);
    VisibleExact(Older(all, c), suspended);
    OlderExact(db.personal, c);
    VisibleExact(Older(db.personal, c), suspended);
    OlderExact(db.group, c);
    VisibleExact(Older(db.group, c), suspended);
    var a, b := Visible(Older(db.personal, c), suspended), Visible(Older(db.group, c), suspended);
    hide Desc, Older, Visible, Merge;
    MergeExact(a, b);
    OnlyOneOrder(Visible(Older(all, c), suspended), Merge(a, b));
  }

  /** What a fetch shows, and the visible rows it leaves behind. */
  function ShownOf(rows: seq<Hit>, suspended: set<Id>, c: Cursor, limit: nat): seq<Hit> {
    Visible(Fetch(rows, c, limit + EXTRA), suspended)
  }

  function LeftOf(rows: seq<Hit>, suspended: set<Id>, c: Cursor, limit: nat): seq<Hit> {
    Visible(Beyond(rows, c, limit), suspended)
  }

  /** What either source left behind comes after the first n hits. */
  predicate Covers(db: Db, suspended: set<Id>, c: Cursor, limit: nat, n: nat) {
    var a, x := ShownOf(db.personal, suspended, c, limit), LeftOf(db.personal, suspended, c, limit);
    var b, y := ShownOf(db.group, suspended, c, limit), LeftOf(db.group, suspended, c, limit);
    ComesAfter(a, x, b + y, n) && ComesAfter(b, y, a + x, n)
  }

  /** All that is visible below the cursor, newest first. */
  function Rest(db: Db, suspended: set<Id>, c: Cursor): seq<Hit> {
    Visible(Older(Merge(db.personal, db.group), c), suspended)
  }

  /** The first n of what the fetches show are the first n there are, if and only if the fetches cover them. */
  lemma FirstOfMerge(db: Db, suspended: set<Id>, c: Cursor, limit: nat, n: nat)
    requires Good(db)
    ensures var shown := Merge(ShownOf(db.personal, suspended, c, limit), ShownOf(db.group, suspended, c, limit));
      Take(shown, n) == Take(Rest(db, suspended, c), n) <==> Covers(db, suspended, c, limit, n)
  {
    FilterMerge(db, suspended, c);
    FetchSplits(db.personal, suspended, c, limit);
    FetchSplits(db.group, suspended, c, limit);
    VisibleOrdered(db, suspended, c);
    hide Fetch, Beyond, Visible, Older, Merge, Take, Desc, Apart, ComesAfter;
    MergeTake(ShownOf(db.personal, suspended, c, limit), LeftOf(db.personal, suspended, c, limit),
              ShownOf(db.group, suspended, c, limit), LeftOf(db.group, suspended, c, limit), n);
  }

  lemma VisibleOrdered(db: Db, suspended: set<Id>, c: Cursor)
    requires Good(db)
    ensures var a, b := Visible(Older(db.personal, c), suspended), Visible(Older(db.group, c), suspended);
      Desc(a) && Desc(b) && Apart(a, b)
  {
    OlderExact(db.personal, c);
    OlderExact(db.group, c);
    VisibleExact(Older(db.personal, c), suspended);
    VisibleExact(Older(db.group, c), suspended);
  }

  /**
   * Search returns exactly the next `limit` visible matches if and only if what each source left behind
   * comes after `limit` hits of both.
   */
  lemma PageIsNextExactly(db: Db, suspended: set<Id>, c: Cursor, limit: nat)
    requires Good(db)
    ensures Search(db, suspended, c, limit) == NextPage(db, suspended, c, limit) <==> Covers(db, suspended, c, limit, limit)
  {
    FirstOfMerge(db, suspended, c, limit, limit);
    hide Covers, Fetch, Visible, Older, Merge, Take;
  }

  /** Five extra rows per source are enough when no fetch has more than five hidden ones. */
  lemma EnoughCovers(db: Db, suspended: set<Id>, c: Cursor, limit: nat)
    requires Enough(db.personal, suspended, c, limit) && Enough(db.group, suspended, c, limit)
    ensures Covers(db, suspended, c, limit, limit)
  {
    FetchSplits(db.personal, suspended, c, limit);
    FetchSplits(db.group, suspended, c, limit);
    hide Enough, Fetch, Beyond, Visible, Older, Ahead;
  }

  lemma PageIsNext(db: Db, suspended: set<Id>, c: Cursor, limit: nat)
    requires Good(db) && Enough(db.personal, suspended, c, limit) && Enough(db.group, suspended, c, limit)
    ensures Search(db, suspended, c, limit) == NextPage(db, suspended, c, limit)
  {
    EnoughCovers(db, suspended, c, limit);
    PageIsNextExactly(db, suspended, c, limit);
  }

  /** So it does when among the first limit + 5 rows of either source at most five are hidden. */
  lemma FiveAreMadeUpFor(db: Db, suspended: set<Id>, c: Cursor, limit: nat)
    requires Good(db)
    requires Hidden(Take(Older(db.personal, c), limit + 5), suspended) <= 5
    requires Hidden(Take(Older(db.group, c), limit + 5), suspended) <= 5
    ensures Search(db, suspended, c, limit) == NextPage(db, suspended, c, limit)
  {
    hide Older, Visible, Merge, Search, NextPage, Good, Hidden, Take;
    PageIsNext(db, suspended, c, limit);
  }

  /** h may be on a page after the cursor: it is strictly older, and its sender is gone or not suspended. */
  predicate Eligible(db: Db, suspended: set<Id>, c: Cursor, h: Hit) {
    && (h in db.personal || h in db.group)
    && (h.at < c.at || (h.at == c.at && h.id < c.id))
    && (h.sender == 0 || h.sender !in suspended)
  }

  /** What the next page is: newest first, nothing but eligible hits, and an eligible one is left out only behind a full page. */
  lemma WhatIsNext(db: Db, suspended: set<Id>, c: Cursor, limit: nat)
    requires Good(db)
    ensures var p := NextPage(db, suspended, c, limit);
      && |p| <= limit
      && (forall i, j :: 0 <= i < j < |p| ==> p[i].at > p[j].at || (p[i].at == p[j].at && p[i].id > p[j].id))
      && (forall x <- p :: Eligible(db, suspended, c, x))
      && (forall x :: Eligible(db, suspended, c, x) && x !in p ==>
            |p| == limit && forall y <- p :: y.at > x.at || (y.at == x.at && y.id > x.id))
  {
    var all, rest := Merge(db.personal, db.group), Rest(db, suspended, c);
    MergeExact(db.personal, db.group);
    OlderExact(all, c);
    VisibleExact(Older(all, c), suspended);
    assert forall x :: x in rest <==> Eligible(db, suspended, c, x);
    hide Merge, Older, Visible, Good, Eligible, Rest;
    var p := Take(rest, limit);
    forall x | x in rest && x !in p ensures |p| == limit && forall y <- p :: Newer(y, x) { BehindPage(rest, limit, x); }
    assert forall x <- p :: x in rest;
  }

  lemma BehindPage(rest: seq<Hit>, limit: nat, x: Hit)
    requires Desc(rest) && x in rest && x !in Take(rest, limit)
    ensures |Take(rest, limit)| == limit && forall y <- Take(rest, limit) :: Newer(y, x)
  {
    var p := Take(rest, limit);
    var i :| 0 <= i < |rest| && rest[i] == x;
    assert forall j :: 0 <= j < |p| ==> p[j] == rest[j] && p[j] in p;
    forall y <- p ensures Newer(y, x) {
      var j :| 0 <= j < |p| && p[j] == y;
      assert rest[j] == y;
    }
  }

  /** A search of one source returns the right page if and only if its fetch brought enough. */
  lemma OneSourceExactly(rows: seq<Hit>, suspended: set<Id>, c: Cursor, limit: nat)
    requires Desc(rows)
    ensures var db := Db(rows, []);
      Search(db, suspended, c, limit) == NextPage(db, suspended, c, limit) <==> Enough(rows, suspended, c, limit)
  {
    var db := Db(rows, []);
    PageIsNextExactly(db, suspended, c, limit);
    FetchSplits(rows, suspended, c, limit);
    OneSourceCovers(rows, suspended, c, limit, limit);
    hide Covers, Search, NextPage, Enough, Fetch, Beyond, Visible, Older;
  }

  lemma OneSourceCovers(rows: seq<Hit>, suspended: set<Id>, c: Cursor, limit: nat, n: nat)
    ensures Covers(Db(rows, []), suspended, c, limit, n)
            <==> LeftOf(rows, suspended, c, limit) == [] || |ShownOf(rows, suspended, c, limit)| >= n
  {
    var a, x := ShownOf(rows, suspended, c, limit), LeftOf(rows, suspended, c, limit);
    var b, y := ShownOf([], suspended, c, limit), LeftOf([], suspended, c, limit);
    assert b == [] && y == [] && b + y == [];
    hide ShownOf, LeftOf;
  }

  // ---- Search in place ----

  /** slices.DeleteFunc with the suspended senders. */
  method DeleteHidden(hits: seq<Hit>, suspended: set<Id>) returns (kept: seq<Hit>)
    ensures kept == Visible(hits, suspended)
  {
    kept := [];
    for i := 0 to |hits|
      invariant kept == Visible(hits[..i], suspended)
    {
      VisibleConcat(hits[..i], [hits[i]], suspended);
      assert hits[..i + 1] == hits[..i] + [hits[i]];
      if hits[i].sender == NIL || hits[i].sender !in suspended {
        kept := kept + [hits[i]];
      }
    }
    assert hits[..|hits|] == hits;
  }

  /** All different, as far as the order can tell. */
  predicate Ordered(hits: seq<Hit>) {
    forall i, j :: 0 <= i < j < |hits| ==> Newer(hits[i], hits[j]) || Newer(hits[j], hits[i])
  }

  /** slices.SortFunc by time, then id, newest first. */
  method Sort(hits: seq<Hit>) returns (sorted: seq<Hit>)
    requires Ordered(hits)
    ensures Desc(sorted) && forall x :: x in sorted <==> x in hits
  {
    sorted := [];
    for i := 0 to |hits|
      invariant Desc(sorted) && forall x :: x in sorted <==> x in hits[..i]
    {
      var h, k := hits[i], 0;
      while k < |sorted| && Newer(sorted[k], h)
        invariant k <= |sorted| && forall j :: 0 <= j < k ==> Newer(sorted[j], h)
      {
        k := k + 1;
      }
      if k < |sorted| {
        assert sorted[k] in hits[..i];
        var m :| 0 <= m < i && hits[m] == sorted[k];
      }
      sorted := InsertAt(sorted, k, h);
      assert hits[..i + 1] == hits[..i] + [h];
    }
    assert hits[..|hits|] == hits;
  }

  function InsertAt(list: seq<Hit>, k: nat, h: Hit): (r: seq<Hit>)
    requires k <= |list| && Desc(list)
    requires forall j :: 0 <= j < k ==> Newer(list[j], h)
    requires k < |list| ==> Newer(h, list[k])
    ensures Desc(r) && forall x :: x in r <==> x in list || x == h
  {
    list[..k] + [h] + list[k..]
  }

  /** Search, once its parameters are found valid. */
  method RunSearch(db: Db, suspended: set<Id>, c: Cursor, limit: nat) returns (page: seq<Hit>)
    requires Good(db)
    ensures page == Search(db, suspended, c, limit)
  {
    var lim := limit + EXTRA;
    var a, b := Fetch(db.personal, c, lim), Fetch(db.group, c, lim);
    var shown := DeleteHidden(a + b, suspended);
    VisibleConcat(a, b, suspended);
    SearchOrdered(db, suspended, c, lim);
    var hits := Sort(shown);
    MergeExact(Visible(a, suspended), Visible(b, suspended));
    OnlyOneOrder(hits, Merge(Visible(a, suspended), Visible(b, suspended)));
    if |hits| > limit {
      hits := hits[..limit];
    }
    page := hits;
  }

  lemma SearchOrdered(db: Db, suspended: set<Id>, c: Cursor, lim: nat)
    requires Good(db)
    ensures var a, b := Visible(Fetch(db.personal, c, lim), suspended), Visible(Fetch(db.group, c, lim), suspended);
      Desc(a) && Desc(b) && Apart(a, b) && Ordered(a + b)
  {
    OlderExact(db.personal, c);
    OlderExact(db.group, c);
    VisibleExact(Fetch(db.personal, c, lim), suspended);
    VisibleExact(Fetch(db.group, c, lim), suspended);
    var a, b := Visible(Fetch(db.personal, c, lim), suspended), Visible(Fetch(db.group, c, lim), suspended);
    forall x <- a, y <- b ensures Newer(x, y) || Newer(y, x) { assert x in db.personal && y in db.group; }
    hide Visible, Older;
    forall i, j | 0 <= i < |a| && 0 <= j < |b| ensures Newer(a[i], b[j]) || Newer(b[j], a[i]) { assert a[i] in a && b[j] in b; }
  }
}