/** A stable insertion sort by a total preorder. Python's `sorted(..., key=k)`
    and an SQL `ORDER BY` over rows kept in insertion order are both modelled
    with it: elements of equal rank keep their relative order. */
module Sorting {
  import opened Common


  /** `le` is total and transitive: a ranking in which ties are allowed. */
  ghost predicate TotalPreorder<T(!new)>(le: (T, T) -> bool) {
    && (forall a, b :: le(a, b) || le(b, a))
    && (forall a, b, c :: le(a, b) && le(b, c) ==> le(a, c))
  }

  predicate Sorted<T>(le: (T, T) -> bool, s: seq<T>) {
    forall i, j :: 0 <= i < j < |s| ==> le(s[i], s[j])
  }

  /** `a` and `b` have the same rank. */
  predicate Tied<T>(le: (T, T) -> bool, a: T, b: T) {
    le(a, b) && le(b, a)
  }

  /** Inserts `x` in front of the first element it ranks no later than. */
  function Insert<T>(le: (T, T) -> bool, x: T, s: seq<T>): (r: seq<T>)
    ensures multiset(r) == multiset(s) + multiset{x}
    ensures |r| == |s| + 1
  {
    if s == [] then [x]
    else if le(x, s[0]) then [x] + s
    else
      assert s == [s[0]] + s[1..];
      [s[0]] + Insert(le, x, s[1..])
  }

  function Sort<T>(le: (T, T) -> bool, s: seq<T>): (r: seq<T>)
    ensures multiset(r) == multiset(s)
    ensures |r| == |s|
  {
    if s == [] then []
    else
      assert s == [s[0]] + s[1..];
      Insert(le, s[0], Sort(le, s[1..]))
  }

  lemma {:induction false} InsertSorted<T(!new)>(le: (T, T) -> bool, x: T, s: seq<T>)
    requires TotalPreorder(le) && Sorted(le, s)
    ensures Sorted(le, Insert(le, x, s))
  {
    if s != [] && !le(x, s[0]) {
      InsertSorted(le, x, s[1..]);
      var t := Insert(le, x, s[1..]);
      forall j | 0 <= j < |t| ensures le(s[0], t[j]) {
        assert t[j] in multiset(t);
        if t[j] != x {
          assert t[j] in multiset(s[1..]);
          var k :| 0 <= k < |s[1..]| && s[1..][k] == t[j];
          assert s[k + 1] == t[j];
        }
      }
    }
  }

  /** The sort orders its output by `le` and keeps every element. */
  lemma {:induction false} SortSorted<T(!new)>(le: (T, T) -> bool, s: seq<T>)
    requires TotalPreorder(le)
    ensures Sorted(le, Sort(le, s))
  {
    if s != [] {
      SortSorted(le, s[1..]);
      InsertSorted(le, s[0], Sort(le, s[1..]));
    }
  }

  /** The elements of `s` ranked the same as `e`, in their order in `s`. */
  function SameRank<T>(le: (T, T) -> bool, e: T, s: seq<T>): seq<T>
  {
    if s == [] then []
    else (if Tied(le, e, s[0]) then [s[0]] else []) + SameRank(le, e, s[1..])
  }

  lemma {:induction false} SameRankCons<T>(le: (T, T) -> bool, e: T, x: T, s: seq<T>)
    ensures SameRank(le, e, [x] + s) == (if Tied(le, e, x) then [x] else []) + SameRank(le, e, s)
  {
    assert ([x] + s)[1..] == s;
  }

  lemma {:induction false} SameRankInsert<T(!new)>(le: (T, T) -> bool, e: T, x: T, s: seq<T>)
    requires TotalPreorder(le)
    ensures SameRank(le, e, Insert(le, x, s))
            == (if Tied(le, e, x) then [x] else []) + SameRank(le, e, s)
  {
    if s == [] {
      SameRankCons(le, e, x, []);
    } else if le(x, s[0]) {
      SameRankCons(le, e, x, s);
    } else {
      var t := Insert(le, x, s[1..]);
      assert Insert(le, x, s) == [s[0]] + t;
      SameRankInsert(le, e, x, s[1..]);
      SameRankCons(le, e, s[0], t);
      assert SameRank(le, e, s) == (if Tied(le, e, s[0]) then [s[0]] else []) + SameRank(le, e, s[1..]);
      if Tied(le, e, s[0]) {
        assert le(e, s[0]);
        assert !le(x, e);
      }
    }
  }

  /** Stability: the sort keeps the relative order of every group of tied
      elements. */
  lemma {:induction false} SortStable<T(!new)>(le: (T, T) -> bool, e: T, s: seq<T>)
    requires TotalPreorder(le)
    ensures SameRank(le, e, Sort(le, s)) == SameRank(le, e, s)
  {
    if s != [] {
      SortStable(le, e, s[1..]);
      SameRankInsert(le, e, s[0], Sort(le, s[1..]));
    }
  }

  /** `SortStable` for every rank at once. */
  lemma SortStableAll<T(!new)>(le: (T, T) -> bool, s: seq<T>)
    requires TotalPreorder(le)
    ensures forall e :: SameRank(le, e, Sort(le, s)) == SameRank(le, e, s)
  {
    forall e ensures SameRank(le, e, Sort(le, s)) == SameRank(le, e, s) {
      SortStable(le, e, s);
    }
  }

  /** A prefix of a sorted sequence is sorted. */
  lemma SortedPrefix<T>(le: (T, T) -> bool, s: seq<T>, n: nat)
    requires Sorted(le, s) && n <= |s|
    ensures Sorted(le, s[..n])
  {
  }

  /** `r` is what `ORDER BY le LIMIT limit` may return from `s` (a negative
      limit keeps every row): it is ordered, it comes from `s`, it is as
      long as the limit allows, and no element left out ranks ahead of one
      that was kept. */
  predicate IsTopK<T(==,!new)>(le: (T, T) -> bool, s: seq<T>, r: seq<T>, limit: int) {
    && Sorted(le, r)
    && multiset(r) <= multiset(s)
    && (0 <= limit ==> |r| == Min(limit, |s|))
    && (limit < 0 ==> multiset(r) == multiset(s))
    && (forall x, y :: x in multiset(s) - multiset(r) && y in r ==> le(y, x))
  }

  /** The first `limit` elements of the stable sort of `s`. */
  function TopK<T(==,!new)>(le: (T, T) -> bool, s: seq<T>, limit: int): (r: seq<T>)
    requires TotalPreorder(le)
    ensures IsTopK(le, s, r, limit)
  {
    SortSorted(le, s);
    var sorted := Sort(le, s);
    var k := if 0 <= limit && limit < |sorted| then limit else |sorted|;
    TopKPrefix(le, sorted, k);
    SqlLimit(sorted, limit)
  }

  /** `r` is what `sorted(s, key=...)[:limit]` may return: ordered, taken
      from `s`, as long as a non-negative limit allows, and no element left
      out ranks ahead of one kept. */
  predicate IsSortedSlice<T(==,!new)>(le: (T, T) -> bool, s: seq<T>, r: seq<T>, limit: int) {
    && Sorted(le, r)
    && multiset(r) <= multiset(s)
    && (0 <= limit ==> |r| == Min(limit, |s|))
    && (forall x, y :: x in multiset(s) - multiset(r) && y in r ==> le(y, x))
  }

  /** Python's `sorted(s, key=...)[:limit]`: the stable sort of `s`, cut by
      a Python slice (a negative limit drops items from the end). Whatever
      is cut ranks no higher than anything kept. */
  function SortedSlice<T(==,!new)>(le: (T, T) -> bool, s: seq<T>, limit: int): (r: seq<T>)
    requires TotalPreorder(le)
    ensures IsSortedSlice(le, s, r, limit)
  {
    SortSorted(le, s);
    var sorted := Sort(le, s);
    var r := SliceTo(sorted, limit);
    assert r == sorted[..|r|];
    TopKPrefix(le, sorted, |r|);
    r
  }

  lemma TopKPrefix<T>(le: (T, T) -> bool, s: seq<T>, k: nat)
    requires Sorted(le, s) && k <= |s|
    ensures Sorted(le, s[..k])
    ensures multiset(s[..k]) <= multiset(s)
    ensures forall x, y :: x in multiset(s) - multiset(s[..k]) && y in s[..k] ==> le(y, x)
  {
    assert s == s[..k] + s[k..];
    assert multiset(s) == multiset(s[..k]) + multiset(s[k..]);
    forall x, y | x in multiset(s) - multiset(s[..k]) && y in s[..k]
      ensures le(y, x)
    {
      assert x in multiset(s[k..]);
      assert x in s[k..];
      var j :| 0 <= j < |s[k..]| && s[k..][j] == x;
      var i :| 0 <= i < k && s[..k][i] == y;
      assert s[i] == y && s[k + j] == x;
    }
  }
}
