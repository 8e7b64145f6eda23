/** The search filter of the recipe listing.

    The listing filters with `column.ilike('%' + q + '%')`, which the SQLite
    dialect renders as `lower(column) LIKE lower(pattern)`: ASCII letters are
    folded to lower case on both sides, then the pattern is matched with LIKE's
    two wildcards, `%` (any run of characters) and `_` (any one character). No
    escape character is declared, so a `%` or `_` inside `q` is a wildcard too. */
module Search {
  import opened Model

  /** SQLite's `lower()`: only the ASCII letters A-Z change. */
  function LowerChar(c: char): char
  {
    if 'A' <= c <= 'Z' then (c as int + 32) as char else c
  }

  /** `lower()` of a whole string, character by character. */
  function Lower(s: string): string
  {
    seq(|s|, i requires 0 <= i < |s| => LowerChar(s[i]))
  }

  /** `s LIKE p`, comparing characters exactly. */
  predicate Like(s: string, p: string)
    decreases |s| + |p|
  {
    if |p| == 0 then |s| == 0
    else if p[0] == '%' then Like(s, p[1..]) || (|s| > 0 && Like(s[1..], p))
    else |s| > 0 && (p[0] == '_' || p[0] == s[0]) && Like(s[1..], p[1..])
  }

  predicate WildcardFree(q: string)
  {
    forall i :: 0 <= i < |q| ==> q[i] != '%' && q[i] != '_'
  }

  /** Without wildcards a LIKE pattern matches exactly the string it spells. */
  lemma {:induction false} LikeExact(s: string, p: string)
    requires WildcardFree(p)
    ensures Like(s, p) <==> s == p
    decreases |p|
  {
    if |p| > 0 {
      assert WildcardFree(p[1..]);
      if |s| > 0 {
        LikeExact(s[1..], p[1..]);
        assert s == p <==> s[0] == p[0] && s[1..] == p[1..];
      }
    }
  }

  /** `q` occurs in `s` as a contiguous substring. */
  predicate Contains(s: string, q: string)
  {
    exists i :: 0 <= i <= |s| && q <= s[i..]
  }

  /** `text ILIKE '%q%'`. */
  predicate Ilike(text: string, q: string)
  {
    Like(Lower(text), Lower("%" + q + "%"))
  }

  /** The listing's filter: the title or the encoded ingredients text matches. */
  predicate RecipeMatches(r: Recipe, q: string)
  {
    Ilike(r.title, q) || Ilike(r.ingredients, q)
  }

  /** The recipes the filtered query returns, in table order. */
  function Matching(rs: seq<Recipe>, q: string): (r: seq<Recipe>)
    ensures |r| <= |rs|
    ensures forall k :: 0 <= k < |r| ==> r[k] in rs && RecipeMatches(r[k], q)
    ensures forall k :: 0 <= k < |rs| && RecipeMatches(rs[k], q) ==> rs[k] in r
  {
    if |rs| == 0 then []
    else if RecipeMatches(rs[0], q) then [rs[0]] + Matching(rs[1..], q)
    else Matching(rs[1..], q)
  }

  /** The filter keeps rows in table order: a matching subsequence of ascending
      ids is ascending. */
  predicate Ascending(rs: seq<Recipe>)
  {
    forall i, j :: 0 <= i < j < |rs| ==> rs[i].id < rs[j].id
  }

  lemma AscendingTail(rs: seq<Recipe>)
    requires Ascending(rs) && |rs| > 0
    ensures Ascending(rs[1..])
  {
  }

  lemma AscendingCons(r: Recipe, tail: seq<Recipe>)
    requires Ascending(tail)
    requires forall k :: 0 <= k < |tail| ==> r.id < tail[k].id
    ensures Ascending([r] + tail)
  {
  }

  lemma {:induction false} MatchingKeepsOrder(rs: seq<Recipe>, q: string)
    requires Ascending(rs)
    ensures Ascending(Matching(rs, q))
  {
    if |rs| > 0 {
      var tail := Matching(rs[1..], q);
      AscendingTail(rs);
      MatchingKeepsOrder(rs[1..], q);
      if RecipeMatches(rs[0], q) {
        forall k | 0 <= k < |tail|
          ensures rs[0].id < tail[k].id
        {
          var j :| 0 <= j < |rs[1..]| && rs[1..][j] == tail[k];
          assert rs[j + 1] == tail[k];
        }
        AscendingCons(rs[0], tail);
      }
    }
  }

  /** `%` matches every string. */
  lemma {:induction false} LikePercent(s: string)
    ensures Like(s, "%")
    decreases |s|
  {
    if |s| > 0 {
      LikePercent(s[1..]);
    }
  }

  /** A wildcard-free prefix followed by `%` matches exactly the strings that
      start with that prefix. */
  lemma {:induction false} LikePrefix(s: string, q: string)
    requires WildcardFree(q)
    ensures Like(s, q + "%") <==> q <= s
    decreases |q|
  {
    if |q| == 0 {
      assert q + "%" == "%";
      LikePercent(s);
    } else {
      var p := q + "%";
      assert p[0] == q[0];
      assert p[1..] == q[1..] + "%";
      assert WildcardFree(q[1..]);
      if |s| > 0 {
        LikePrefix(s[1..], q[1..]);
        assert q <= s <==> q[0] == s[0] && q[1..] <= s[1..];
      }
    }
  }

  /** A leading `%` lets the rest of the pattern match any suffix. */
  lemma {:induction false} LikeLeadingPercent(s: string, r: string)
    ensures Like(s, "%" + r) <==> exists i :: 0 <= i <= |s| && Like(s[i..], r)
    decreases |s|
  {
    var p := "%" + r;
    assert p[0] == '%' && p[1..] == r;
    if |s| == 0 {
      assert s[0..] == s;
    } else {
      LikeLeadingPercent(s[1..], r);
      if Like(s, p) {
        if Like(s, r) {
          assert s[0..] == s;
        } else {
          var i :| 0 <= i <= |s[1..]| && Like(s[1..][i..], r);
          assert s[1..][i..] == s[i + 1..];
        }
      }
      if exists i :: 0 <= i <= |s| && Like(s[i..], r) {
        var i :| 0 <= i <= |s| && Like(s[i..], r);
        if i == 0 {
          assert s[0..] == s;
        } else {
          assert s[1..][i - 1..] == s[i..];
        }
      }
    }
  }

  lemma LowerConcat(a: string, b: string)
    ensures Lower(a + b) == Lower(a) + Lower(b)
  {
  }

  lemma LowerWildcardFree(q: string)
    requires WildcardFree(q)
    ensures WildcardFree(Lower(q))
  {
  }

  /** For a query without wildcards, the `ilike` filter is exactly an
      ASCII-case-insensitive substring test. */
  lemma IlikeIsSubstring(text: string, q: string)
    requires WildcardFree(q)
    ensures Ilike(text, q) <==> Contains(Lower(text), Lower(q))
  {
    var t, lq := Lower(text), Lower(q);
    assert "%" + q + "%" == "%" + (q + "%");
    LowerConcat("%", q + "%");
    LowerConcat(q, "%");
    assert Lower("%") == "%";
    assert Lower("%" + q + "%") == "%" + (lq + "%");
    LowerWildcardFree(q);
    LikeLeadingPercent(t, lq + "%");
    if Ilike(text, q) {
      var i :| 0 <= i <= |t| && Like(t[i..], lq + "%");
      LikePrefix(t[i..], lq);
    }
    if Contains(t, lq) {
      var i :| 0 <= i <= |t| && lq <= t[i..];
      LikePrefix(t[i..], lq);
    }
  }

  /** An empty query matches every text, so an empty `q` lists every recipe. */
  lemma EmptyQueryMatchesAll(rs: seq<Recipe>)
    ensures Matching(rs, "") == rs
  {
    if |rs| > 0 {
      assert WildcardFree("");
      IlikeIsSubstring(rs[0].title, "");
      assert Lower(rs[0].title)[0..] == Lower(rs[0].title);
      EmptyQueryMatchesAll(rs[1..]);
    }
  }
}
