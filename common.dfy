/** Small value helpers shared by the engine modules: an Option type, the
    Python slice `s[:n]`, string prefix and substring tests, and joining. */
module Common {

  datatype Option<+T> = None | Some(value: T)

  /** Python's `s[:n]`: a non-negative `n` keeps at most `n` leading items,
      a negative `n` drops `-n` items from the end. */
  function SliceTo<T>(s: seq<T>, n: int): (r: seq<T>)
    ensures 0 <= n ==> |r| == if n < |s| then n else |s|
    ensures n < 0 ==> |r| == if |s| + n < 0 then 0 else |s| + n
    ensures forall i :: 0 <= i < |r| ==> r[i] == s[i]
  {
    if 0 <= n then (if n < |s| then s[..n] else s)
    else if |s| + n < 0 then [] else s[..|s| + n]
  }

  /** SQLite's `LIMIT n`: a negative limit means no limit at all. */
  function SqlLimit<T>(s: seq<T>, n: int): (r: seq<T>)
    ensures 0 <= n ==> |r| == if n < |s| then n else |s|
    ensures n < 0 ==> r == s
    ensures forall i :: 0 <= i < |r| ==> r[i] == s[i]
  {
    if 0 <= n && n < |s| then s[..n] else s
  }

  predicate IsPrefix<T(==)>(p: seq<T>, s: seq<T>) {
    |p| <= |s| && s[..|p|] == p
  }

  /** Python's `sub in s` on strings: `sub` occurs at some position of `s`. */
  predicate Contains<T(==)>(s: seq<T>, sub: seq<T>)
    decreases |s|
  {
    IsPrefix(sub, s) || (|s| > 0 && Contains(s[1..], sub))
  }

  /** `sub` occurs in `s` starting at index `i`. */
  predicate OccursAt<T(==)>(s: seq<T>, sub: seq<T>, i: int) {
    0 <= i && i + |sub| <= |s| && s[i..i + |sub|] == sub
  }

  /** `Contains` agrees with the existence of an occurrence. */
  lemma {:induction false} ContainsIff<T>(s: seq<T>, sub: seq<T>)
    ensures Contains(s, sub) <==> exists i :: OccursAt(s, sub, i)
    decreases |s|
  {
    if IsPrefix(sub, s) {
      assert OccursAt(s, sub, 0);
    }
    if |s| > 0 {
      ContainsIff(s[1..], sub);
      if Contains(s[1..], sub) {
        var i :| OccursAt(s[1..], sub, i);
        assert s[i + 1..i + 1 + |sub|] == s[1..][i..i + |sub|];
        assert OccursAt(s, sub, i + 1);
      }
      if exists i :: OccursAt(s, sub, i) {
        var i :| OccursAt(s, sub, i);
        if i > 0 {
          assert s[1..][i - 1..i - 1 + |sub|] == s[i..i + |sub|];
          assert OccursAt(s[1..], sub, i - 1);
        }
      }
    } else if exists i :: OccursAt(s, sub, i) {
      var i :| OccursAt(s, sub, i);
      assert |sub| == 0 && s[..0] == sub;
    }
  }

  /** Python's `sep.join(parts)`. */
  function Join(sep: string, parts: seq<string>): (r: string)
    ensures parts == [] ==> r == ""
    ensures |parts| == 1 ==> r == parts[0]
  {
    if parts == [] then ""
    else if |parts| == 1 then parts[0]
    else parts[0] + sep + Join(sep, parts[1..])
  }

  /** Concatenation of a sequence of strings (`''.join(parts)`). */
  function Concat(parts: seq<string>): (r: string)
  {
    if parts == [] then "" else parts[0] + Concat(parts[1..])
  }

  lemma {:induction false} ConcatSplit(a: seq<string>, b: seq<string>)
    ensures Concat(a + b) == Concat(a) + Concat(b)
  {
    if a != [] {
      assert (a + b)[1..] == a[1..] + b;
      ConcatSplit(a[1..], b);
    } else {
      assert a + b == b;
    }
  }

  /** `t.endswith(s)`. */
  predicate IsSuffix<T(==)>(s: seq<T>, t: seq<T>) {
    |s| <= |t| && t[|t| - |s|..] == s
  }

  /** A concatenation ends with its last part. */
  lemma ConcatEndsWithLast(parts: seq<string>)
    ensures parts != [] ==> IsSuffix(parts[|parts| - 1], Concat(parts))
  {
    if parts != [] {
      var last := parts[|parts| - 1];
      var front := parts[..|parts| - 1];
      assert parts == front + [last];
      assert Concat([last]) == last by {
        assert [last][1..] == [];
      }
      ConcatSplit(front, [last]);
      var whole := Concat(front) + last;
      assert whole[|whole| - |last|..] == last;
    }
  }

  /** The elements of `s` satisfying `p`, in their order in `s` (a list
      comprehension with a condition, or an SQL `WHERE`). */
  function Filter<T(!new)>(p: T -> bool, s: seq<T>): (r: seq<T>)
    ensures |r| <= |s|
    ensures forall x :: p(x) ==> multiset(r)[x] == multiset(s)[x]
    ensures forall x :: !p(x) ==> multiset(r)[x] == 0
    ensures forall x :: x in r <==> x in s && p(x)
  {
    if s == [] then []
    else
      assert s == [s[0]] + s[1..];
      (if p(s[0]) then [s[0]] else []) + Filter(p, s[1..])
  }

  /** Two filters by disjoint conditions together keep at most every
      element, and exactly every element when each satisfies one of them. */
  lemma {:induction false} FilterDisjoint<T(!new)>(p: T -> bool, q: T -> bool, s: seq<T>)
    requires forall x :: !(p(x) && q(x))
    ensures |Filter(p, s)| + |Filter(q, s)| <= |s|
    ensures (forall x :: x in s ==> p(x) || q(x)) ==> |Filter(p, s)| + |Filter(q, s)| == |s|
  {
    if s != [] {
      FilterDisjoint(p, q, s[1..]);
      assert |Filter(p, s)| == (if p(s[0]) then 1 else 0) + |Filter(p, s[1..])|;
      assert |Filter(q, s)| == (if q(s[0]) then 1 else 0) + |Filter(q, s[1..])|;
      assert s[0] in s && forall x :: x in s[1..] ==> x in s;
    }
  }

  /** `[f(x) for x in xs if keep(x)]`. */
  function FilterMap<A, B>(keep: A -> bool, f: A -> B, xs: seq<A>): (r: seq<B>)
    ensures |r| <= |xs|
  {
    if xs == [] then []
    else (if keep(xs[0]) then [f(xs[0])] else []) + FilterMap(keep, f, xs[1..])
  }

  /** The images are, in order, those of the elements `keep` accepts. */
  lemma {:induction false} FilterMapInOrder<A(!new), B>(keep: A -> bool, f: A -> B, xs: seq<A>)
    ensures |FilterMap(keep, f, xs)| == |Filter(keep, xs)|
    ensures forall i :: 0 <= i < |Filter(keep, xs)| ==> FilterMap(keep, f, xs)[i] == f(Filter(keep, xs)[i])
    decreases |xs|
  {
    if xs != [] {
      FilterMapInOrder(keep, f, xs[1..]);
      var rest := FilterMap(keep, f, xs[1..]);
      var keptRest := Filter(keep, xs[1..]);
      if keep(xs[0]) {
        assert FilterMap(keep, f, xs) == [f(xs[0])] + rest;
        assert Filter(keep, xs) == [xs[0]] + keptRest;
        ImagesCons(f, xs[0], rest, keptRest);
      } else {
        assert FilterMap(keep, f, xs) == [] + rest;
        assert Filter(keep, xs) == [] + keptRest;
        assert [] + rest == rest && [] + keptRest == keptRest;
      }
    }
  }

  lemma ImagesCons<A, B>(f: A -> B, x: A, ys: seq<B>, xs: seq<A>)
    requires |ys| == |xs| && forall i :: 0 <= i < |xs| ==> ys[i] == f(xs[i])
    ensures |[f(x)] + ys| == |[x] + xs|
    ensures forall i :: 0 <= i < |[x] + xs| ==> ([f(x)] + ys)[i] == f(([x] + xs)[i])
  {
    forall i | 0 <= i < |[x] + xs| ensures ([f(x)] + ys)[i] == f(([x] + xs)[i]) {
      if i > 0 {
        assert ([f(x)] + ys)[i] == ys[i - 1] && ([x] + xs)[i] == xs[i - 1];
      }
    }
  }

  /** The positions of `s` whose element satisfies `p`. */
  function IndicesWhere<T>(p: T -> bool, s: seq<T>): set<int> {
    set i | 0 <= i < |s| && p(s[i])
  }

  lemma {:induction false} FilterAppend<T(!new)>(p: T -> bool, a: seq<T>, b: seq<T>)
    ensures Filter(p, a + b) == Filter(p, a) + Filter(p, b)
    decreases |a|, 1
  {
    if a == [] {
      assert a + b == b;
      assert Filter(p, a) == [];
      assert [] + Filter(p, b) == Filter(p, b);
    } else {
      FilterAppendCons(p, a, b);
    }
  }

  lemma {:induction false} FilterAppendCons<T(!new)>(p: T -> bool, a: seq<T>, b: seq<T>)
    requires a != []
    ensures Filter(p, a + b) == Filter(p, a) + Filter(p, b)
    decreases |a|, 0
  {
    var h := if p(a[0]) then [a[0]] else [];
    var ab := a + b;
    assert ab[0] == a[0] && ab[1..] == a[1..] + b;
    FilterAppend(p, a[1..], b);
    SeqAssoc(h, Filter(p, a[1..]), Filter(p, b));
  }

  /** A filter keeps one element per position that satisfies it: its
      length is the size of `COUNT(*) ... WHERE p`. */
  lemma {:induction false} FilterCount<T(!new)>(p: T -> bool, s: seq<T>)
    ensures |Filter(p, s)| == |IndicesWhere(p, s)|
    decreases |s|
  {
    if s == [] {
      assert IndicesWhere(p, s) == {};
    } else {
      var init, last := s[..|s| - 1], s[|s| - 1];
      assert s == init + [last];
      FilterCount(p, init);
      FilterAppend(p, init, [last]);
      var kept := if p(last) then [last] else [];
      assert Filter(p, [last]) == kept by {
        assert [last][1..] == [] && Filter(p, []) == [];
      }
      assert |Filter(p, s)| == |Filter(p, init)| + |kept|;
      IndicesSnoc(p, init, last);
    }
  }

  lemma IndicesSnoc<T>(p: T -> bool, init: seq<T>, last: T)
    ensures |IndicesWhere(p, init + [last])| == |IndicesWhere(p, init)| + (if p(last) then 1 else 0)
  {
    IndicesSnocSet(p, init, last);
    assert |init| !in IndicesWhere(p, init);
  }

  lemma IndicesSnocSet<T>(p: T -> bool, init: seq<T>, last: T)
    ensures IndicesWhere(p, init + [last]) == IndicesWhere(p, init) + (if p(last) then {|init|} else {})
  {
    var s := init + [last];
    forall i | 0 <= i < |init|
      ensures s[i] == init[i]
    {
    }
  }

  lemma SeqAssoc<T>(a: seq<T>, b: seq<T>, c: seq<T>)
    ensures a + (b + c) == (a + b) + c
  {
  }

  function Min(a: int, b: int): int {
    if a < b then a else b
  }
}
