/**
 * Sequence operations the table queries are built from: a WHERE clause
 * (`Filter`), `ORDER BY ... DESC` over an insertion-ordered log (`Reverse`)
 * and `LIMIT` (`Take`).
 */
module Seqs {

  function Filter<T(!new)>(s: seq<T>, keep: T -> bool): (r: seq<T>)
    ensures |r| <= |s|
    ensures forall x :: x in r <==> x in s && keep(x)
  {
    if |s| == 0 then []
    else (if keep(s[0]) then [s[0]] else []) + Filter(s[1..], keep)
  }

  /** A WHERE clause distributes over appending rows. */
  lemma {:induction false} FilterAppend<T(!new)>(a: seq<T>, b: seq<T>, keep: T -> bool)
    ensures Filter(a + b, keep) == Filter(a, keep) + Filter(b, keep)
    decreases |a|
  {
    if |a| == 0 {
      assert a + b == b;
    } else {
      assert (a + b)[1..] == a[1..] + b;
      FilterAppend(a[1..], b, keep);
    }
  }

  /** A WHERE clause every row satisfies keeps them all. */
  lemma {:induction false} FilterAll<T(!new)>(s: seq<T>, keep: T -> bool)
    requires forall x :: x in s ==> keep(x)
    ensures Filter(s, keep) == s
    decreases |s|
  {
    if |s| > 0 {
      FilterAll(s[1..], keep);
    }
  }

  /** A WHERE clause no row satisfies keeps none. */
  lemma {:induction false} FilterNone<T(!new)>(s: seq<T>, keep: T -> bool)
    requires forall x :: x in s ==> !keep(x)
    ensures Filter(s, keep) == []
    decreases |s|
  {
    if |s| > 0 {
      FilterNone(s[1..], keep);
    }
  }

  /** A narrower WHERE clause applied after a wider one is the narrower clause alone. */
  lemma {:induction false} FilterOfFilter<T(!new)>(s: seq<T>, outer: T -> bool, inner: T -> bool)
    requires forall x :: x in s && inner(x) ==> outer(x)
    ensures Filter(Filter(s, outer), inner) == Filter(s, inner)
    decreases |s|
  {
    if |s| > 0 {
      FilterOfFilter(s[1..], outer, inner);
      var rest := Filter(s[1..], outer);
      if outer(s[0]) {
        assert Filter(s, outer) == [s[0]] + rest;
        assert ([s[0]] + rest)[1..] == rest;
        assert Filter([s[0]] + rest, inner) == (if inner(s[0]) then [s[0]] else []) + Filter(rest, inner);
        assert Filter(s, inner) == (if inner(s[0]) then [s[0]] else []) + Filter(s[1..], inner);
      } else {
        assert s[0] in s && !inner(s[0]);
        assert Filter(s, outer) == rest;
        assert Filter(s, inner) == Filter(s[1..], inner);
      }
    }
  }

  predicate Ascending<T(!new)>(s: seq<T>, key: T -> int) {
    forall i, j :: 0 <= i < j < |s| ==> key(s[i]) <= key(s[j])
  }

  predicate Descending<T(!new)>(s: seq<T>, key: T -> int) {
    forall i, j :: 0 <= i < j < |s| ==> key(s[i]) >= key(s[j])
  }

  /** A WHERE clause keeps the relative order of the rows it keeps. */
  lemma {:induction false} FilterAscending<T(!new)>(s: seq<T>, keep: T -> bool, key: T -> int)
    requires Ascending(s, key)
    ensures Ascending(Filter(s, keep), key)
    decreases |s|
  {
    if |s| > 0 {
      var rest := Filter(s[1..], keep);
      FilterAscending(s[1..], keep, key);
      forall x | x in rest
        ensures key(s[0]) <= key(x)
      {
        var k :| 0 <= k < |s[1..]| && s[1..][k] == x;
        assert s[k + 1] == x;
      }
    }
  }

  function Reverse<T(!new)>(s: seq<T>): (r: seq<T>)
    ensures |r| == |s|
    ensures forall i :: 0 <= i < |s| ==> r[i] == s[|s| - 1 - i]
    ensures forall x :: x in r <==> x in s
  {
    if |s| == 0 then [] else Reverse(s[1..]) + [s[0]]
  }

  /** Reading an insertion-ordered log backwards turns ascending keys into descending ones. */
  lemma ReverseDescending<T(!new)>(s: seq<T>, key: T -> int)
    requires Ascending(s, key)
    ensures Descending(Reverse(s), key)
  {
  }

  /** `ORDER BY <insertion order> DESC LIMIT n` over an insertion-ordered log. */
  function NewestFirst<T(!new)>(s: seq<T>, limit: int): (r: seq<T>)
    ensures |r| == if 0 <= limit < |s| then limit else |s|
    ensures forall i :: 0 <= i < |r| ==> r[i] == s[|s| - 1 - i]
    ensures forall x :: x in r ==> x in s
  {
    Take(Reverse(s), limit)
  }

  /** The rows a limit leaves out are the oldest: on ascending keys none is above a returned one. */
  lemma NewestFirstKeepsNewest<T(!new)>(s: seq<T>, limit: int, key: T -> int)
    requires Ascending(s, key)
    ensures forall k, i :: 0 <= k < |s| - |NewestFirst(s, limit)| && 0 <= i < |NewestFirst(s, limit)| ==>
      key(s[k]) <= key(NewestFirst(s, limit)[i])
  {
    var r := NewestFirst(s, limit);
    forall k, i | 0 <= k < |s| - |r| && 0 <= i < |r|
      ensures key(s[k]) <= key(r[i])
    {
      assert r[i] == s[|s| - 1 - i];
    }
  }

  /** On an ascending log the newest-first read is descending. */
  lemma NewestFirstDescending<T(!new)>(s: seq<T>, limit: int, key: T -> int)
    requires Ascending(s, key)
    ensures Descending(NewestFirst(s, limit), key)
  {
    var r := NewestFirst(s, limit);
    forall i, j | 0 <= i < j < |r|
      ensures key(r[i]) >= key(r[j])
    {
      assert r[i] == s[|s| - 1 - i] && r[j] == s[|s| - 1 - j];
    }
  }

  /** SQL `LIMIT n`: a negative limit means no limit. */
  function Take<T(!new)>(s: seq<T>, limit: int): (r: seq<T>)
    ensures limit < 0 ==> r == s
    ensures 0 <= limit ==> |r| == if limit < |s| then limit else |s|
    ensures r == s[..|r|]
    ensures forall x :: x in r ==> x in s
  {
    if limit < 0 || |s| <= limit then s else s[..limit]
  }
}
