/**
 * Operations on tables held as sequences of rows: the `where` filter, the
 * `findFirst` lookup and the `orderBy: { createdAt: "desc" }` ordering that the
 * route handlers ask of the database.
 */
module Seqs {
  import opened Common

  /** The negation of a `where` condition. */
  function Not<T>(cond: T -> bool): T -> bool { x => !cond(x) }

  /** The rows of `s` that satisfy `keep`, in table order. */
  function Filter<T(!new)>(s: seq<T>, keep: T -> bool): (r: seq<T>)
    ensures |r| <= |s|
    ensures forall x :: x in r <==> x in s && keep(x)
  {
    if s == [] then []
    else if keep(s[0]) then [s[0]] + Filter(s[1..], keep)
    else Filter(s[1..], keep)
  }

  /** The first row of `s` that satisfies `cond`, if there is one. */
  function FindFirst<T(!new)>(s: seq<T>, cond: T -> bool): (r: Option<T>)
    ensures r.None? <==> forall x :: x in s ==> !cond(x)
    ensures r.Some? ==> r.value in s && cond(r.value)
    ensures r.Some? ==> Filter(s, cond) != [] && r.value == Filter(s, cond)[0]
  {
    if s == [] then None
    else if cond(s[0]) then Some(s[0])
    else FindFirst(s[1..], cond)
  }

  /** Keys strictly increase along `s`: autoincrement ids in insertion order. */
  predicate Increasing<T(!new)>(s: seq<T>, key: T -> int) {
    forall i, j :: 0 <= i < j < |s| ==> key(s[i]) < key(s[j])
  }

  /** With increasing keys, a key picks out at most one row. */
  lemma IncreasingUnique<T(!new)>(s: seq<T>, key: T -> int, x: T, y: T)
    requires Increasing(s, key)
    requires x in s && y in s && key(x) == key(y)
    ensures x == y
  {
    var i :| 0 <= i < |s| && s[i] == x;
    var j :| 0 <= j < |s| && s[j] == y;
    assert !(i < j) && !(j < i);
  }

  /** Keys never increase along `s`: the order of `orderBy ... desc`. */
  predicate NewestFirst<T(!new)>(s: seq<T>, key: T -> int) {
    forall i, j :: 0 <= i < j < |s| ==> key(s[i]) >= key(s[j])
  }

  /** Places `x` in front of the first row of `s` whose key is not larger. */
  function InsertByKey<T(!new)>(x: T, s: seq<T>, key: T -> int): (r: seq<T>)
    ensures |r| == |s| + 1
    ensures multiset(r) == multiset(s) + multiset{x}
    ensures forall y :: y in r <==> y == x || y in s
  {
    if s == [] || key(s[0]) <= key(x) then [x] + s
    else
      assert s == [s[0]] + s[1..];
      [s[0]] + InsertByKey(x, s[1..], key)
  }

  /** A row whose key is at least every other key can go in front. */
  lemma PrependKeepsOrder<T(!new)>(x: T, s: seq<T>, key: T -> int)
    requires NewestFirst(s, key)
    requires forall y :: y in s ==> key(y) <= key(x)
    ensures NewestFirst([x] + s, key)
  {
    var r := [x] + s;
    forall i, j | 0 <= i < j < |r| ensures key(r[i]) >= key(r[j]) {
      assert r[j] == s[j - 1] && s[j - 1] in s;
      if i > 0 {
        assert r[i] == s[i - 1];
      }
    }
  }

  /** Inserting into a newest-first sequence keeps it newest first. */
  lemma {:induction false} InsertKeepsOrder<T(!new)>(x: T, s: seq<T>, key: T -> int)
    requires NewestFirst(s, key)
    ensures NewestFirst(InsertByKey(x, s, key), key)
  {
    if s == [] || key(s[0]) <= key(x) {
      forall y | y in s ensures key(y) <= key(x) {
        var j :| 0 <= j < |s| && s[j] == y;
        assert key(s[0]) >= key(s[j]);
      }
      PrependKeepsOrder(x, s, key);
    } else {
      var rest := InsertByKey(x, s[1..], key);
      InsertKeepsOrder(x, s[1..], key);
      forall y | y in rest ensures key(y) <= key(s[0]) {
        if y != x {
          var j :| 0 <= j < |s[1..]| && s[1..][j] == y;
          assert s[j + 1] == y;
        }
      }
      PrependKeepsOrder(s[0], rest, key);
    }
  }

  /** The rows of `s` ordered by descending key. */
  function SortNewestFirst<T(!new)>(s: seq<T>, key: T -> int): (r: seq<T>)
    ensures NewestFirst(r, key)
    ensures |r| == |s|
    ensures multiset(r) == multiset(s)
    ensures forall y :: y in r <==> y in s
  {
    if s == [] then []
    else
      assert s == [s[0]] + s[1..];
      var rest := SortNewestFirst(s[1..], key);
      InsertKeepsOrder(s[0], rest, key);
      InsertByKey(s[0], rest, key)
  }

  lemma {:induction false} FilterAppend<T(!new)>(a: seq<T>, b: seq<T>, keep: T -> bool)
    ensures Filter(a + b, keep) == Filter(a, keep) + Filter(b, keep)
  {
    if a == [] {
      assert a + b == b;
    } else {
      assert (a + b)[0] == a[0];
      assert (a + b)[1..] == a[1..] + b;
      FilterAppend(a[1..], b, keep);
      if keep(a[0]) {
        assert Filter(a + b, keep) == [a[0]] + Filter(a[1..] + b, keep);
      }
    }
  }

  lemma {:induction false} FilterAll<T(!new)>(s: seq<T>, keep: T -> bool)
    requires forall x :: x in s ==> keep(x)
    ensures Filter(s, keep) == s
  {
    if s != [] {
      FilterAll(s[1..], keep);
    }
  }

  lemma {:induction false} FilterNone<T(!new)>(s: seq<T>, keep: T -> bool)
    requires forall x :: x in s ==> !keep(x)
    ensures Filter(s, keep) == []
  {
    if s != [] {
      FilterNone(s[1..], keep);
    }
  }

  lemma {:induction false} FilterIncreasing<T(!new)>(s: seq<T>, keep: T -> bool, key: T -> int)
    requires Increasing(s, key)
    ensures Increasing(Filter(s, keep), key)
  {
    if s != [] {
      FilterIncreasing(s[1..], keep, key);
      var rest := Filter(s[1..], keep);
      forall y | y in rest ensures key(s[0]) < key(y) {
        var j :| 0 <= j < |s[1..]| && s[1..][j] == y;
        assert s[j + 1] == y;
      }
    }
  }

  lemma AppendIncreasing<T(!new)>(s: seq<T>, t: seq<T>, key: T -> int)
    requires Increasing(s, key) && Increasing(t, key)
    requires forall x, y :: x in s && y in t ==> key(x) < key(y)
    ensures Increasing(s + t, key)
  {
    forall i, j | 0 <= i < j < |s + t| ensures key((s + t)[i]) < key((s + t)[j]) {
      if j >= |s| && i < |s| {
        assert s[i] in s && t[j - |s|] in t;
      }
    }
  }

  /** Filtering first by a weaker condition does not change what a stronger one selects. */
  lemma {:induction false} FilterFilter<T(!new)>(s: seq<T>, outer: T -> bool, inner: T -> bool)
    requires forall x :: x in s && inner(x) ==> outer(x)
    ensures Filter(Filter(s, outer), inner) == Filter(s, inner)
  {
    if s != [] {
      FilterFilter(s[1..], outer, inner);
      if outer(s[0]) {
        assert Filter(s, outer) == [s[0]] + Filter(s[1..], outer);
        assert Filter(s, outer)[1..] == Filter(s[1..], outer);
      }
    }
  }

  /** In a table with increasing ids, removing the one row that `drop` selects shortens it by one. */
  lemma {:induction false} FilterOutOne<T(!new)>(s: seq<T>, drop: T -> bool, key: T -> int)
    requires Increasing(s, key)
    requires exists x :: x in s && drop(x)
    requires forall x, y :: x in s && y in s && drop(x) && drop(y) ==> x == y
    ensures |Filter(s, Not(drop))| == |s| - 1
  {
    assert s != [];
    if drop(s[0]) {
      forall x | x in s[1..] ensures Not(drop)(x) {
        var j :| 0 <= j < |s[1..]| && s[1..][j] == x;
        assert key(s[0]) < key(s[j + 1]);
      }
      FilterAll(s[1..], Not(drop));
    } else {
      var x :| x in s && drop(x);
      assert x in s[1..] by { assert x != s[0]; }
      FilterOutOne(s[1..], drop, key);
    }
  }

  /** The keys of the rows of `s`. */
  function KeysOf<T(==,!new), K(!new)>(s: seq<T>, key: T -> K): (r: set<K>)
    ensures forall x :: x in s ==> key(x) in r
    ensures forall k :: k in r ==> exists x :: x in s && key(x) == k
  {
    set x | x in s :: key(x)
  }

  /** A sequence whose rows have pairwise distinct keys has as many keys as rows. */
  lemma {:induction false} DistinctKeysCount<T(!new), K(!new)>(s: seq<T>, key: T -> K)
    requires forall i, j :: 0 <= i < j < |s| ==> key(s[i]) != key(s[j])
    ensures |KeysOf(s, key)| == |s|
  {
    if s != [] {
      DistinctKeysCount(s[1..], key);
      var rest := KeysOf(s[1..], key);
      forall k | k in KeysOf(s, key) ensures k in {key(s[0])} + rest {
        var x :| x in s && key(x) == k;
        var i :| 0 <= i < |s| && s[i] == x;
        if i > 0 { assert s[1..][i - 1] == x; }
      }
      forall x | x in s[1..] ensures x in s {
        var j :| 0 <= j < |s[1..]| && s[1..][j] == x;
        assert s[j + 1] == x;
      }
      assert KeysOf(s, key) == {key(s[0])} + rest;
      forall x | x in s[1..] ensures key(x) != key(s[0]) {
        var j :| 0 <= j < |s[1..]| && s[1..][j] == x;
        assert s[j + 1] == x;
      }
    }
  }
}
