/**
 * Following the cursor of message search (internal/search/search.go Service.Search and the next_before of
 * Handler.Search) through a database that does not change.
 */
module MessagePaging {
  import opened Basics
  import opened MessageSearch

  function CursorOf(page: seq<Hit>): Cursor
    requires page != []
  {
    Cursor(page[|page| - 1].at, page[|page| - 1].id)
  }

  /** The first n pages, each continued after its last hit; an empty page names no next one. */
  function Pages(db: Db, suspended: set<Id>, c: Cursor, limit: nat, n: nat): seq<Hit>
    decreases n
  {
    var page := Search(db, suspended, c, limit);
    if n == 0 || page == [] then []
    else page + Pages(db, suspended, CursorOf(page), limit, n - 1)
  }

  /** In an ordered list, what comes after the k-th is what lies below its cursor. */
  lemma TailIsBelow(v: seq<Hit>, k: nat)
    requires Desc(v) && 0 < k <= |v|
    ensures Desc(v[k..]) && forall x :: x in v[k..] <==> x in v && Below(x, CursorOf(v[..k]))
  {
    forall x ensures x in v[k..] <==> x in v && Below(x, CursorOf(v[..k])) {
      if x in v {
        var i :| 0 <= i < |v| && v[i] == x;
        if i >= k { assert v[k..][i - k] == x && Newer(v[k - 1], v[i]); }
        if i < k - 1 { assert Newer(v[i], v[k - 1]); }
      }
      if x in v[k..] {
        var j :| 0 <= j < |v[k..]| && v[k..][j] == x;
        assert Newer(v[k - 1], v[k + j]);
      }
    }
  }

  /** After the first k visible rows, what lies below the cursor is the rest of them. */
  lemma RestAfter(all: seq<Hit>, suspended: set<Id>, c: Cursor, k: nat)
    requires Desc(all) && 0 < k <= |Visible(Older(all, c), suspended)|
    ensures var v := Visible(Older(all, c), suspended);
      Visible(Older(all, CursorOf(v[..k])), suspended) == v[k..]
  {
    var v := Visible(Older(all, c), suspended);
    var next := CursorOf(v[..k]);
    OlderExact(all, c);
    VisibleExact(Older(all, c), suspended);
    OlderExact(all, next);
    VisibleExact(Older(all, next), suspended);
    hide Visible, Older, Desc;
    TailIsBelow(v, k);
    assert v[k - 1] in v;
    OnlyOneOrder(Visible(Older(all, next), suspended), v[k..]);
  }

  /** A page that its fetches cover is the start of what is left, and leaves the rest of it. */
  lemma GoodPage(db: Db, suspended: set<Id>, c: Cursor, limit: nat)
    requires Good(db)
    ensures var v, page := Rest(db, suspended, c), Search(db, suspended, c, limit);
      && (page <= v <==> Covers(db, suspended, c, limit, |page|))
      && (page != [] && page <= v ==> Rest(db, suspended, CursorOf(page)) == v[|page|..])
  {
    var v, page := Rest(db, suspended, c), Search(db, suspended, c, limit);
    FirstOfMerge(db, suspended, c, limit, |page|);
    MergeExact(db.personal, db.group);
    var shown := Merge(ShownOf(db.personal, suspended, c, limit), ShownOf(db.group, suspended, c, limit));
    assert page == Take(shown, limit) && page == Take(shown, |page|);
    assert |page| <= |v| ==> Take(v, |page|) == v[..|page|];
    hide Merge, Visible, Older, Fetch, Covers, Search;
    if page != [] && page <= v {
      assert v[..|page|] == page;
      RestAfter(Merge(db.personal, db.group), suspended, c, |page|);
    }
  }

  // ---- full pages ----

  /** At every cursor that n pages visit, the fetches cover a whole page. */
  ghost predicate CoversAlong(db: Db, suspended: set<Id>, c: Cursor, limit: nat, n: nat)
    decreases n
  {
    n > 0 ==>
      var page := Search(db, suspended, c, limit);
      && Covers(db, suspended, c, limit, limit)
      && (page != [] ==> CoversAlong(db, suspended, CursorOf(page), limit, n - 1))
  }

  /** At every cursor that n pages visit, no fetch has more than five hidden rows, or leaves nothing visible behind. */
  ghost predicate EnoughAlong(db: Db, suspended: set<Id>, c: Cursor, limit: nat, n: nat)
    decreases n
  {
    n > 0 ==>
      var page := Search(db, suspended, c, limit);
      && Enough(db.personal, suspended, c, limit) && Enough(db.group, suspended, c, limit)
      && (page != [] ==> EnoughAlong(db, suspended, CursorOf(page), limit, n - 1))
  }

  lemma RightPage(db: Db, suspended: set<Id>, c: Cursor, limit: nat)
    requires Good(db) && Search(db, suspended, c, limit) == Take(Rest(db, suspended, c), limit)
    ensures var v, page := Rest(db, suspended, c), Search(db, suspended, c, limit);
      page != [] ==> Rest(db, suspended, CursorOf(page)) == v[|page|..]
  {
    GoodPage(db, suspended, c, limit);
    hide Search, Rest, Covers;
  }

  /** n pages, counted as they should be: page by page. */
  lemma PagesStep(db: Db, suspended: set<Id>, c: Cursor, limit: nat, n: nat)
    requires Good(db) && n > 0 && Search(db, suspended, c, limit) == Take(Rest(db, suspended, c), limit)
    ensures var v, page := Rest(db, suspended, c), Search(db, suspended, c, limit);
      Pages(db, suspended, c, limit, n) == Take(v, FullPages(n, limit)) <==>
        page == [] ||
        Pages(db, suspended, CursorOf(page), limit, n - 1) == Take(Rest(db, suspended, CursorOf(page)), FullPages(n - 1, limit))
  {
    var v, page := Rest(db, suspended, c), Search(db, suspended, c, limit);
    RightPage(db, suspended, c, limit);
    Times(n, limit);
    TakeMore(v, limit, FullPages(n - 1, limit));
    hide Search, Rest;
    if page == [] {
      NoneTaken(v, n, limit);
    } else {
      var tail := Pages(db, suspended, CursorOf(page), limit, n - 1);
      assert Pages(db, suspended, c, limit, n) == page + tail;
      hide Pages, Take;
      SameFront(page, tail, Take(v[|page|..], FullPages(n - 1, limit)));
    }
  }

  lemma NoneTaken(v: seq<Hit>, n: nat, limit: nat)
    requires Take(v, limit) == []
    ensures Take(v, FullPages(n, limit)) == []
  {
    if limit == 0 { assert FullPages(n, limit) == 0; }
  }

  lemma SameFront(p: seq<Hit>, a: seq<Hit>, b: seq<Hit>)
    ensures p + a == p + b <==> a == b
  {
    assert (p + a)[|p|..] == a && (p + b)[|p|..] == b;
  }

  /** The hits of n full pages. */
  function FullPages(n: nat, limit: nat): nat {
    n * limit
  }

  lemma Times(n: nat, limit: nat)
    requires n > 0
    ensures FullPages(n, limit) == limit + FullPages(n - 1, limit)
  {
  }

  lemma TakeMore(v: seq<Hit>, a: nat, b: nat)
    ensures Take(v, a) + Take(v[|Take(v, a)|..], b) == Take(v, a + b)
  {
  }

  /** If the fetches cover every page on the way, n pages are the first n * limit visible matches. */
  lemma {:induction false} PagesAreFull(db: Db, suspended: set<Id>, c: Cursor, limit: nat, n: nat)
    requires Good(db) && CoversAlong(db, suspended, c, limit, n)
    ensures Pages(db, suspended, c, limit, n) == Take(Rest(db, suspended, c), FullPages(n, limit))
    decreases n
  {
    if n == 0 {
      assert FullPages(n, limit) == 0;
    } else {
      PageIsNextExactly(db, suspended, c, limit);
      assert Search(db, suspended, c, limit) == Take(Rest(db, suspended, c), limit);
      hide Search, Covers, Rest, Take, Pages, Good, NextPage;
      var page := Search(db, suspended, c, limit);
      if page != [] { PagesAreFull(db, suspended, CursorOf(page), limit, n - 1); }
      hide CoversAlong;
      PagesStep(db, suspended, c, limit, n);
    }
  }

  /** And only then: were some page on the way not covered, one of the first n totals would be wrong. */
  lemma {:induction false} FullOnlyIfCovered(db: Db, suspended: set<Id>, c: Cursor, limit: nat, n: nat)
    requires Good(db)
    requires forall m: nat :: m <= n ==> Pages(db, suspended, c, limit, m) == Take(Rest(db, suspended, c), FullPages(m, limit))
    ensures CoversAlong(db, suspended, c, limit, n)
    decreases n
  {
    if n > 0 {
      var page := Search(db, suspended, c, limit);
      OnePage(db, suspended, c, limit);
      PageIsNextExactly(db, suspended, c, limit);
      if page != [] {
        forall m: nat | m <= n - 1
          ensures Pages(db, suspended, CursorOf(page), limit, m) == Take(Rest(db, suspended, CursorOf(page)), FullPages(m, limit))
        {
          PagesStep(db, suspended, c, limit, m + 1);
          assert m + 1 <= n;
          hide Pages;
        }
        hide Pages, Search, Covers, Rest, Take;
        FullOnlyIfCovered(db, suspended, CursorOf(page), limit, n - 1);
      }
    }
  }

  lemma OnePage(db: Db, suspended: set<Id>, c: Cursor, limit: nat)
    ensures Pages(db, suspended, c, limit, 1) == Search(db, suspended, c, limit)
  {
    var page := Search(db, suspended, c, limit);
    if page != [] { assert Pages(db, suspended, CursorOf(page), limit, 0) == []; }
  }

  /**
   * Page by page, following the cursor gives the first m * limit visible matches for every m up to n, if
   * and only if the fetches cover every page on the way.
   */
  lemma PagesAreCompleteExactly(db: Db, suspended: set<Id>, c: Cursor, limit: nat, n: nat)
    requires Good(db)
    ensures (forall m: nat :: m <= n ==> Pages(db, suspended, c, limit, m) == Take(Rest(db, suspended, c), FullPages(m, limit)))
            <==> CoversAlong(db, suspended, c, limit, n)
  {
    hide *;
    if CoversAlong(db, suspended, c, limit, n) {
      forall m: nat | m <= n ensures Pages(db, suspended, c, limit, m) == Take(Rest(db, suspended, c), FullPages(m, limit)) {
        CoversFewer(db, suspended, c, limit, n, m);
        PagesAreFull(db, suspended, c, limit, m);
      }
    } else if forall m: nat :: m <= n ==> Pages(db, suspended, c, limit, m) == Take(Rest(db, suspended, c), FullPages(m, limit)) {
      FullOnlyIfCovered(db, suspended, c, limit, n);
    }
  }

  lemma {:induction false} CoversFewer(db: Db, suspended: set<Id>, c: Cursor, limit: nat, n: nat, m: nat)
    requires m <= n && CoversAlong(db, suspended, c, limit, n)
    ensures CoversAlong(db, suspended, c, limit, m)
    decreases n
  {
    if m > 0 {
      var page := Search(db, suspended, c, limit);
      if page != [] { CoversFewer(db, suspended, CursorOf(page), limit, n - 1, m - 1); }
      hide Search, Covers;
    }
  }

  /**
   * When no fetch on the way has more than five hidden rows, n pages are the first n * limit visible
   * matches, each once, none skipped.
   */
  lemma {:induction false} PagesAreComplete(db: Db, suspended: set<Id>, c: Cursor, limit: nat, n: nat)
    requires Good(db) && EnoughAlong(db, suspended, c, limit, n)
    ensures Pages(db, suspended, c, limit, n) == Take(Rest(db, suspended, c), FullPages(n, limit))
  {
    EnoughCoversAlong(db, suspended, c, limit, n);
    PagesAreFull(db, suspended, c, limit, n);
  }

  lemma {:induction false} EnoughCoversAlong(db: Db, suspended: set<Id>, c: Cursor, limit: nat, n: nat)
    requires EnoughAlong(db, suspended, c, limit, n)
    ensures CoversAlong(db, suspended, c, limit, n)
    decreases n
  {
    if n > 0 {
      EnoughCovers(db, suspended, c, limit);
      hide Search, Covers, Enough;
      var page := Search(db, suspended, c, limit);
      if page != [] { EnoughCoversAlong(db, suspended, CursorOf(page), limit, n - 1); }
    }
  }

  // ---- pages of any length, to the end ----

  /**
   * Nothing is lost on the way: each page, however short, is covered by its fetches, and an empty one
   * leaves nothing visible behind.
   */
  ghost predicate LosslessAlong(db: Db, suspended: set<Id>, c: Cursor, limit: nat, n: nat)
    decreases n
  {
    n > 0 ==>
      var page := Search(db, suspended, c, limit);
      if page == [] then LeftOf(db.personal, suspended, c, limit) == [] && LeftOf(db.group, suspended, c, limit) == []
      else
        && Covers(db, suspended, c, limit, |page|)
        && LosslessAlong(db, suspended, CursorOf(page), limit, n - 1)
  }

  lemma EmptyPage(db: Db, suspended: set<Id>, c: Cursor, limit: nat)
    requires Good(db) && limit > 0 && Search(db, suspended, c, limit) == []
    ensures Rest(db, suspended, c) == []
            <==> LeftOf(db.personal, suspended, c, limit) == [] && LeftOf(db.group, suspended, c, limit) == []
  {
    FilterMerge(db, suspended, c);
    FetchSplits(db.personal, suspended, c, limit);
    FetchSplits(db.group, suspended, c, limit);
    var a, b := ShownOf(db.personal, suspended, c, limit), ShownOf(db.group, suspended, c, limit);
    assert Merge(a, b) == [];
    MergeEmpty(a, b);
    MergeEmpty(a + LeftOf(db.personal, suspended, c, limit), b + LeftOf(db.group, suspended, c, limit));
    hide Visible, Older, Fetch, Beyond, Merge, Enough;
  }

  lemma MergeEmpty(a: seq<Hit>, b: seq<Hit>)
    ensures Merge(a, b) == [] <==> a == [] && b == []
  {
  }

  /** What one more page means for the walk. */
  lemma Unfold(db: Db, suspended: set<Id>, c: Cursor, limit: nat, n: nat)
    ensures var page := Search(db, suspended, c, limit);
      if n == 0 then Pages(db, suspended, c, limit, n) == [] && LosslessAlong(db, suspended, c, limit, n)
      else if page == [] then
        && Pages(db, suspended, c, limit, n) == []
        && (LosslessAlong(db, suspended, c, limit, n) <==>
              LeftOf(db.personal, suspended, c, limit) == [] && LeftOf(db.group, suspended, c, limit) == [])
      else
        && Pages(db, suspended, c, limit, n) == page + Pages(db, suspended, CursorOf(page), limit, n - 1)
        && (LosslessAlong(db, suspended, c, limit, n) <==>
              && Covers(db, suspended, c, limit, |page|)
              && LosslessAlong(db, suspended, CursorOf(page), limit, n - 1))
  {
    hide Search, Covers, LeftOf;
  }

  /** A list that starts with a page goes on with the rest of it. */
  lemma Front(page: seq<Hit>, tail: seq<Hit>, v: seq<Hit>)
    ensures page + tail == v ==> page <= v
    ensures page <= v ==> (page + tail == v <==> tail == v[|page|..]) && (tail <= v[|page|..] ==> page + tail <= v)
  {
    if page <= v {
      assert v == page + v[|page|..];
      SameFront(page, tail, v[|page|..]);
    }
  }

  /**
   * Following the cursor to the end shows every visible match exactly once, in order, if and only if
   * nothing is lost on the way.
   */
  lemma {:induction false} EverythingIsShown(db: Db, suspended: set<Id>, c: Cursor, limit: nat, n: nat)
    requires Good(db) && limit > 0 && n >= |Rest(db, suspended, c)|
    ensures Pages(db, suspended, c, limit, n) == Rest(db, suspended, c) <==> LosslessAlong(db, suspended, c, limit, n)
    decreases n
  {
    hide *;
    Unfold(db, suspended, c, limit, n);
    var v, page := Rest(db, suspended, c), Search(db, suspended, c, limit);
    if n > 0 && page == [] {
      EmptyPage(db, suspended, c, limit);
    } else if n > 0 {
      GoodPage(db, suspended, c, limit);
      Front(page, Pages(db, suspended, CursorOf(page), limit, n - 1), v);
      if page <= v { EverythingIsShown(db, suspended, CursorOf(page), limit, n - 1); }
    }
  }

  // ---- one source ----

  /** A search of one source never skips a match: its pages are always the start of what there is. */
  lemma {:induction false} OneSourceNeverSkips(rows: seq<Hit>, suspended: set<Id>, c: Cursor, limit: nat, n: nat)
    requires Desc(rows)
    ensures Pages(Db(rows, []), suspended, c, limit, n) <= Rest(Db(rows, []), suspended, c)
    decreases n
  {
    var db := Db(rows, []);
    assert Good(db);
    hide *;
    Unfold(db, suspended, c, limit, n);
    var v, page := Rest(db, suspended, c), Search(db, suspended, c, limit);
    if n > 0 && page != [] {
      OneSourcePage(rows, suspended, c, limit);
      GoodPage(db, suspended, c, limit);
      OneSourceNeverSkips(rows, suspended, CursorOf(page), limit, n - 1);
      Front(page, Pages(db, suspended, CursorOf(page), limit, n - 1), v);
    }
  }

  lemma OneSourcePage(rows: seq<Hit>, suspended: set<Id>, c: Cursor, limit: nat)
    ensures Covers(Db(rows, []), suspended, c, limit, |Search(Db(rows, []), suspended, c, limit)|)
    ensures Search(Db(rows, []), suspended, c, limit) == Take(ShownOf(rows, suspended, c, limit), limit)
  {
    OneSourceCovers(rows, suspended, c, limit, |Search(Db(rows, []), suspended, c, limit)|);
    var a := ShownOf(rows, suspended, c, limit);
    assert ShownOf([], suspended, c, limit) == [];
    assert Merge(a, []) == a;
    hide Covers, Fetch, Older;
  }

  /** The walk stands still: everything fetched is hidden, and something visible lies behind. */
  predicate Stuck(rows: seq<Hit>, suspended: set<Id>, c: Cursor, limit: nat) {
    ShownOf(rows, suspended, c, limit) == [] && LeftOf(rows, suspended, c, limit) != []
  }

  ghost predicate NeverStuck(rows: seq<Hit>, suspended: set<Id>, c: Cursor, limit: nat, n: nat)
    decreases n
  {
    n > 0 ==>
      var page := Search(Db(rows, []), suspended, c, limit);
      && !Stuck(rows, suspended, c, limit)
      && (page != [] ==> NeverStuck(rows, suspended, CursorOf(page), limit, n - 1))
  }

  lemma {:induction false} LosslessUnlessStuck(rows: seq<Hit>, suspended: set<Id>, c: Cursor, limit: nat, n: nat)
    requires limit > 0
    ensures LosslessAlong(Db(rows, []), suspended, c, limit, n) <==> NeverStuck(rows, suspended, c, limit, n)
    decreases n
  {
    if n > 0 {
      OneSourcePage(rows, suspended, c, limit);
      assert LeftOf([], suspended, c, limit) == [];
      var page := Search(Db(rows, []), suspended, c, limit);
      hide Search, Covers, ShownOf, LeftOf;
      if page != [] { LosslessUnlessStuck(rows, suspended, CursorOf(page), limit, n - 1); }
    }
  }

  /** It shows everything if and only if no fetch on the way is all hidden with something visible behind it. */
  lemma OneSourceStopsOnlyWhenStuck(rows: seq<Hit>, suspended: set<Id>, c: Cursor, limit: nat, n: nat)
    requires Desc(rows) && limit > 0 && n >= |Rest(Db(rows, []), suspended, c)|
    ensures Pages(Db(rows, []), suspended, c, limit, n) == Rest(Db(rows, []), suspended, c)
            <==> NeverStuck(rows, suspended, c, limit, n)
  {
    EverythingIsShown(Db(rows, []), suspended, c, limit, n);
    LosslessUnlessStuck(rows, suspended, c, limit, n);
  }

  // ---- what can go wrong ----

  lemma {:induction false} AllOlder(rows: seq<Hit>, c: Cursor)
    requires forall h <- rows :: Below(h, c)
    ensures Older(rows, c) == rows
  {
    if rows != [] {
      assert rows[0] in rows && rows == [rows[0]] + rows[1..];
      AllOlder(rows[1..], c);
    }
  }

  lemma {:induction false} NoneOlder(rows: seq<Hit>, c: Cursor)
    requires forall h <- rows :: !Below(h, c)
    ensures Older(rows, c) == []
  {
    if rows != [] {
      assert rows[0] in rows && rows == [rows[0]] + rows[1..];
      NoneOlder(rows[1..], c);
    }
  }

  lemma {:induction false} NoneVisible(rows: seq<Hit>, suspended: set<Id>)
    requires forall h <- rows :: !Shown(h, suspended)
    ensures Visible(rows, suspended) == []
  {
    if rows != [] {
      assert rows[0] in rows && rows == [rows[0]] + rows[1..];
      NoneVisible(rows[1..], suspended);
    }
  }

  lemma OneVisible(h: Hit, suspended: set<Id>)
    requires Shown(h, suspended)
    ensures Visible([h], suspended) == [h]
  {
    assert [h][1..] == [];
  }

  /** Six messages of the suspended sender 9. */
  function Spam(): (rows: seq<Hit>)
    ensures |rows| == 6 && Desc(rows)
    ensures forall h <- rows :: h.sender == 9 && 15 <= h.at <= 20
  {
    [Hit(26, 1, 9, 20), Hit(25, 1, 9, 19), Hit(24, 1, 9, 18), Hit(23, 1, 9, 17), Hit(22, 1, 9, 16), Hit(21, 1, 9, 15)]
  }

  const TOP: Cursor := Cursor(30, 0)

  /** What the fetch of Spam and one older message h brings, and leaves. */
  lemma SpamFirst(h: Hit, limit: nat)
    requires h.at < 15 && h.sender != 9 && limit <= 1
    ensures var rows := Spam() + [h];
      && Desc(rows) && Older(rows, TOP) == rows
      && (limit == 1 ==> ShownOf(rows, {9}, TOP, limit) == [] && LeftOf(rows, {9}, TOP, limit) == [h])
  {
    var rows := Spam() + [h];
    forall i | 0 <= i < 6 ensures Newer(Spam()[i], h) { assert Spam()[i] in Spam(); }
    AllOlder(rows, TOP);
    NoneVisible(Spam(), {9});
    OneVisible(h, {9});
    assert rows[..6] == Spam() && rows[6..] == [h];
    hide Spam, Older, Visible;
  }

  const NEWER_MATCH: Hit := Hit(2, 1, 7, 10)
  const OLDER_MATCH: Hit := Hit(1, 2, 7, 5)

  /** The newer match is hidden behind Spam in its source, the older one is alone in the other. */
  function LossyDb(): Db {
    Db(Spam() + [NEWER_MATCH], [OLDER_MATCH])
  }

  lemma LossyGood()
    ensures Good(LossyDb())
  {
    SpamFirst(NEWER_MATCH, 1);
    forall h <- LossyDb().personal ensures Newer(h, OLDER_MATCH) { assert h in Spam() || h == NEWER_MATCH; }
    hide Spam;
  }

  lemma OlderMatchIsShown()
    ensures var rows := [OLDER_MATCH];
      ShownOf(rows, {9}, TOP, 1) == rows && LeftOf(rows, {9}, TOP, 1) == [] && Visible(Older(rows, TOP), {9}) == rows
  {
    AllOlder([OLDER_MATCH], TOP);
    OneVisible(OLDER_MATCH, {9});
    assert Beyond([OLDER_MATCH], TOP, 1) == [];
  }

  lemma MatchesInOrder()
    ensures Merge([], [OLDER_MATCH]) == [OLDER_MATCH]
    ensures Merge([NEWER_MATCH], [OLDER_MATCH]) == [NEWER_MATCH, OLDER_MATCH]
  {
    assert [NEWER_MATCH][1..] == [];
  }

  lemma LossyFirstPage()
    ensures Search(LossyDb(), {9}, TOP, 1) == [OLDER_MATCH]
    ensures Rest(LossyDb(), {9}, TOP) == [NEWER_MATCH, OLDER_MATCH]
  {
    hide Spam, Fetch, Older, Visible, Merge, Good, Beyond;
    SpamFirst(NEWER_MATCH, 1);
    OlderMatchIsShown();
    MatchesInOrder();
    LossyGood();
    FilterMerge(LossyDb(), {9}, TOP);
    FetchSplits(LossyDb().personal, {9}, TOP, 1);
    assert Visible(Older(LossyDb().personal, TOP), {9}) == [NEWER_MATCH];
    FirstOf(OLDER_MATCH);
  }

  lemma FirstOf(h: Hit)
    ensures Take([h], 1) == [h]
  {
  }

  lemma LossyNextPage()
    ensures Search(LossyDb(), {9}, CursorOf([OLDER_MATCH]), 1) == []
  {
    var next := CursorOf([OLDER_MATCH]);
    forall h <- LossyDb().personal ensures !Below(h, next) { assert h in Spam() || h == NEWER_MATCH; }
    NoneOlder(LossyDb().personal, next);
    NoneOlder([OLDER_MATCH], next);
    hide Spam, Older;
  }

  /**
   * A full page that loses a match for good: with six hidden rows before it in its source, the newer match
   * is not fetched, the older one fills the page, and the cursor goes past both.
   */
  lemma LostForGood() returns (db: Db, lost: Hit)
    ensures Good(db) && |Search(db, {9}, TOP, 1)| == 1
    ensures lost in Rest(db, {9}, TOP) && forall n: nat :: lost !in Pages(db, {9}, TOP, 1, n)
  {
    db, lost := LossyDb(), NEWER_MATCH;
    LossyGood();
    LossyFirstPage();
    LossyNextPage();
    hide Search, LossyDb, Rest, Good;
    forall n: nat ensures lost !in Pages(db, {9}, TOP, 1, n) {
      if n > 0 { assert Pages(db, {9}, CursorOf([OLDER_MATCH]), 1, n - 1) == []; }
    }
  }

  /** A page of one source that is short although another match remains. */
  lemma ShortPage() returns (rows: seq<Hit>)
    ensures Desc(rows)
    ensures |Search(Db(rows, []), {9}, TOP, 1)| == 0 && |NextPage(Db(rows, []), {9}, TOP, 1)| == 1
  {
    hide Spam, Fetch, Older, Visible, Beyond, Search;
    rows := Spam() + [NEWER_MATCH];
    SpamFirst(NEWER_MATCH, 1);
    FetchSplits(rows, {9}, TOP, 1);
    OneSourceMerge(rows);
    OneSourcePage(rows, {9}, TOP, 1);
    assert Visible(Older(Merge(rows, []), TOP), {9}) == [NEWER_MATCH];
    FirstOf(NEWER_MATCH);
  }

  lemma OneSourceMerge(rows: seq<Hit>)
    ensures Merge(rows, []) == rows
  {
  }
}
