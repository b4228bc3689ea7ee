/**
 * LIKE patterns with escape '\' (PostgreSQL manual, section 9.7.1) and escapeLike of
 * internal/search/search.go and internal/groups/service.go.
 */
module LikePattern {
  const ESC: char := '\\'

  predicate IsSpecial(c: char) {
    c == '%' || c == '_' || c == ESC
  }

  /** `s LIKE p ESCAPE '\'`; a pattern that ends in the escape character is an error, here no match. */
  predicate Like(p: string, s: string)
    decreases |p|, |s|
  {
    if p == "" then s == ""
    else if p[0] == '%' then Like(p[1..], s) || (s != "" && Like(p, s[1..]))
    else if p[0] == '_' then s != "" && Like(p[1..], s[1..])
    else if p[0] == ESC then |p| >= 2 && s != "" && s[0] == p[1] && Like(p[2..], s[1..])
    else s != "" && s[0] == p[0] && Like(p[1..], s[1..])
  }

  /** No escape character without one to escape: the pattern is not an error. */
  predicate Complete(p: string) {
    if p == "" then true
    else if p[0] == ESC then |p| >= 2 && Complete(p[2..])
    else Complete(p[1..])
  }

  /** escapeLike: one pass, each special character gets a backslash. */
  function Escape(q: string): string {
    if q == "" then ""
    else if IsSpecial(q[0]) then [ESC, q[0]] + Escape(q[1..])
    else [q[0]] + Escape(q[1..])
  }

  predicate Contains(s: string, q: string) {
    exists k: nat :: k <= |s| && q <= s[k..]
  }

  /** An escaped text matches itself and nothing else, whatever pattern follows. */
  lemma {:induction false} EscapeIsLiteral(q: string, rest: string, s: string)
    ensures Like(Escape(q) + rest, s) <==> q <= s && Like(rest, s[|q|..])
  {
    if q == "" {
      assert Escape(q) + rest == rest && s[0..] == s;
    } else {
      var tail := Escape(q[1..]) + rest;
      if IsSpecial(q[0]) {
        assert Escape(q) + rest == [ESC, q[0]] + tail;
        assert ([ESC, q[0]] + tail)[2..] == tail;
      } else {
        assert Escape(q) + rest == [q[0]] + tail;
        assert ([q[0]] + tail)[1..] == tail;
      }
      if s != "" && s[0] == q[0] {
        EscapeIsLiteral(q[1..], rest, s[1..]);
        assert |q| <= |s| ==> s[1..][|q| - 1..] == s[|q|..];
        assert q == [q[0]] + q[1..] && s == [s[0]] + s[1..];
        assert q <= s <==> q[1..] <= s[1..];
      }
    }
  }

  lemma {:induction false} AnythingMatches(s: string)
    ensures Like("%", s)
  {
    if s == "" {
      assert "%"[1..] == "";
    } else {
      AnythingMatches(s[1..]);
    }
  }

  /** A leading % skips any number of characters. */
  lemma {:induction false} SkipSome(p: string, s: string)
    ensures Like("%" + p, s) <==> exists k: nat :: k <= |s| && Like(p, s[k..])
    decreases |s|
  {
    assert ("%" + p)[1..] == p && s[0..] == s;
    if s != "" {
      SkipSome(p, s[1..]);
      if k: nat :| k <= |s[1..]| && Like(p, s[1..][k..]) { assert s[1..][k..] == s[k + 1..]; }
      if k: nat :| k <= |s| && Like(p, s[k..]) {
        if k > 0 { assert s[1..][k - 1..] == s[k..]; }
      }
    }
  }

  /** Escaping preserves meaning: the search pattern made from q finds exactly the texts that contain q. */
  lemma EscapedMeansContains(q: string, s: string)
    ensures Like("%" + Escape(q) + "%", s) <==> Contains(s, q)
  {
    var p := Escape(q) + "%";
    assert "%" + Escape(q) + "%" == "%" + p;
    SkipSome(p, s);
    forall k: nat | k <= |s| ensures Like(p, s[k..]) <==> q <= s[k..] {
      EscapeIsLiteral(q, "%", s[k..]);
      if q <= s[k..] { AnythingMatches(s[k..][|q|..]); }
    }
  }

  /** The order of group search: names that start with q come first. */
  lemma EscapedMeansPrefix(q: string, s: string)
    ensures Like(Escape(q) + "%", s) <==> q <= s
  {
    EscapeIsLiteral(q, "%", s);
    if q <= s { AnythingMatches(s[|q|..]); }
  }

  /** And the pattern is never an error. */
  lemma {:induction false} EscapedIsComplete(q: string)
    ensures Complete(Escape(q) + "%") && Complete("%" + Escape(q) + "%")
  {
    var p := Escape(q) + "%";
    assert "%" + Escape(q) + "%" == "%" + p && ("%" + p)[1..] == p;
    if q == "" {
      assert p == "%" && "%"[1..] == "";
    } else {
      EscapedIsComplete(q[1..]);
      var tail := Escape(q[1..]) + "%";
      if IsSpecial(q[0]) { assert p == [ESC, q[0]] + tail && p[2..] == tail; }
      else { assert p == [q[0]] + tail && p[1..] == tail; }
    }
  }

  // ---- and without it ----

  predicate HasSpecial(q: string) {
    exists i :: 0 <= i < |q| && IsSpecial(q[i])
  }

  /** A text that q matches as a pattern (followed by %), no longer than q. */
  function Sample(q: string): string {
    if q == "" then ""
    else if q[0] == '%' then Sample(q[1..])
    else if q[0] == '_' then "x" + Sample(q[1..])
    else if q[0] == ESC then if |q| == 1 then "%" else [q[1]] + Sample(q[2..])
    else [q[0]] + Sample(q[1..])
  }

  lemma {:induction false} SampleMatches(q: string)
    ensures Like(q + "%", Sample(q))
  {
    var p, s := q + "%", Sample(q);
    if q == "" {
      AnythingMatches("");
      assert p == "%";
    } else if q[0] == ESC {
      if |q| == 1 {
        assert p[2..] == "" && s[1..] == "";
      } else {
        SampleMatches(q[2..]);
        assert p[2..] == q[2..] + "%" && s[1..] == Sample(q[2..]);
      }
    } else {
      SampleMatches(q[1..]);
      assert p[1..] == q[1..] + "%";
      if q[0] != '%' { assert s[1..] == Sample(q[1..]); }
    }
  }

  lemma {:induction false} SampleDiffers(q: string)
    ensures |Sample(q)| <= |q|
    ensures HasSpecial(q) ==> Sample(q) != q
  {
    if q != "" {
      if q[0] == ESC {
        if |q| > 1 { SampleDiffers(q[2..]); }
      } else {
        SampleDiffers(q[1..]);
        if !IsSpecial(q[0]) && HasSpecial(q) {
          var i :| 0 <= i < |q| && IsSpecial(q[i]);
          assert IsSpecial(q[1..][i - 1]);
          assert Sample(q)[1..] == Sample(q[1..]);
        }
      }
    }
  }

  lemma {:induction false} PlainIsItsOwnEscape(q: string)
    requires !HasSpecial(q)
    ensures Escape(q) == q
  {
    if q != "" {
      forall i | 0 <= i < |q[1..]| ensures !IsSpecial(q[1..][i]) { assert !IsSpecial(q[i + 1]); }
      PlainIsItsOwnEscape(q[1..]);
      assert !IsSpecial(q[0]);
    }
  }

  lemma OnlyItself(s: string, q: string)
    requires |s| <= |q| && Contains(s, q)
    ensures s == q
  {
    var k: nat :| k <= |s| && q <= s[k..];
  }

  /** Without escaping, a pattern means "contains q" exactly when q has no special character. */
  lemma EscapingIsNeeded(q: string)
    ensures !HasSpecial(q) <==> forall s :: Like("%" + q + "%", s) <==> Contains(s, q)
  {
    if HasSpecial(q) {
      var s := Sample(q);
      SampleMatches(q);
      SampleDiffers(q);
      SkipSome(q + "%", s);
      assert s[0..] == s && "%" + q + "%" == "%" + (q + "%");
      if Contains(s, q) { OnlyItself(s, q); }
    } else {
      PlainIsItsOwnEscape(q);
      forall s ensures Like("%" + q + "%", s) <==> Contains(s, q) { EscapedMeansContains(q, s); }
    }
  }
}
