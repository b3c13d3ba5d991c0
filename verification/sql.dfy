/**
 * SQLite's `LIKE` operator as the metric search uses it: `%` matches any run
 * of characters, `_` matches exactly one, there is no escape character, and
 * ASCII letters compare without regard to case.
 */
module Sql {
  import opened Text

  predicate IsWildcard(c: char) { c == '%' || c == '_' }

  predicate NoWildcards(s: string) {
    forall i :: 0 <= i < |s| ==> !IsWildcard(s[i])
  }

  /** `s LIKE pattern`. */
  predicate Like(s: string, pattern: string)
    decreases |s| + |pattern|
  {
    if |pattern| == 0 then |s| == 0
    else if pattern[0] == '%' then
      Like(s, pattern[1..]) || (|s| > 0 && Like(s[1..], pattern))
    else
      |s| > 0
      && (pattern[0] == '_' || LowerChar(s[0]) == LowerChar(pattern[0]))
      && Like(s[1..], pattern[1..])
  }

  /** The pattern `%` matches every string. */
  lemma {:induction false} PercentMatchesAll(s: string)
    ensures Like(s, "%")
    decreases |s|
  {
    if |s| > 0 {
      PercentMatchesAll(s[1..]);
    }
  }

  /** A wildcard-free `q%` matches exactly the strings that start with `q`, ignoring case. */
  lemma {:induction false} LikePrefix(s: string, q: string)
    requires NoWildcards(q)
    ensures Like(s, q + "%") <==> StartsWith(Lower(s), Lower(q))
    decreases |q|
  {
    if |q| == 0 {
      assert q + "%" == "%";
      PercentMatchesAll(s);
    } else {
      assert (q + "%")[0] == q[0];
      assert (q + "%")[1..] == q[1..] + "%";
      assert NoWildcards(q[1..]);
      if |s| > 0 {
        LikePrefix(s[1..], q[1..]);
        LowerTail(s);
        LowerTail(q);
        assert Lower(s) == [Lower(s)[0]] + Lower(s)[1..];
        assert Lower(q) == [Lower(q)[0]] + Lower(q)[1..];
        if StartsWith(Lower(s), Lower(q)) {
          assert Lower(s)[0] == Lower(q)[0];
          assert Lower(s)[1..][..|Lower(q)| - 1] == Lower(q)[1..];
        }
        if LowerChar(s[0]) == LowerChar(q[0]) && StartsWith(Lower(s[1..]), Lower(q[1..])) {
          assert Lower(s)[..|Lower(q)|] == [Lower(s)[0]] + Lower(s)[1..][..|Lower(q)| - 1];
        }
      }
    }
  }

  /**
   * The search pattern `%q%` built from a query without wildcards matches
   * exactly the strings that contain the query, ignoring ASCII case.
   */
  lemma {:induction false} LikeIsContainsIgnoringCase(s: string, q: string)
    requires NoWildcards(q)
    ensures Like(s, "%" + q + "%") <==> ContainsIgnoringCase(s, q)
    decreases |s|
  {
    var p := "%" + q + "%";
    assert p[0] == '%';
    assert p[1..] == q + "%";
    LikePrefix(s, q);
    if |s| > 0 {
      LikeIsContainsIgnoringCase(s[1..], q);
      LowerTail(s);
    }
  }
}
