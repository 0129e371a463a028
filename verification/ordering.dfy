/**
  Sequence operations the portfolio code borrows from its libraries:
  `arrayMove` of @dnd-kit/sortable, `Array.prototype.findIndex`,
  `Array.prototype.filter` and the stable `Array.prototype.sort` with a
  numeric key comparator `(a, b) => key(a) - key(b)`.
*/
module Ordering {

  // ---------------------------------------------------------------------
  // arrayMove

  /** `arrayMove(s, from, to)`: a copy of `s` with the element at `from`
      taken out and inserted again at position `to`. */
  function ArrayMove<T>(s: seq<T>, from: nat, to: nat): (r: seq<T>)
    requires from < |s| && to < |s|
    ensures |r| == |s|
    ensures r[to] == s[from]
    ensures r[..to] + r[to + 1..] == s[..from] + s[from + 1..]
    ensures multiset(r) == multiset(s)
  {
    var rest := s[..from] + s[from + 1..];
    var r := rest[..to] + [s[from]] + rest[to..];
    assert r[..to] == rest[..to] && r[to + 1..] == rest[to..];
    assert rest[..to] + rest[to..] == rest;
    assert s == s[..from] + [s[from]] + s[from + 1..];
    assert multiset(r) == multiset(rest[..to] + rest[to..]) + multiset{s[from]};
    r
  }

  /** Where each element ends up after a move: the moved one at `to`, the
      ones in between shifted by one towards the gap, the rest in place. */
  lemma ArrayMoveAt<T>(s: seq<T>, from: nat, to: nat, k: nat)
    requires from < |s| && to < |s| && k < |s|
    ensures ArrayMove(s, from, to)[k] ==
      if k == to then s[from]
      else if from < to && from <= k < to then s[k + 1]
      else if to < from && to < k <= from then s[k - 1]
      else s[k]
  {
    var r := ArrayMove(s, from, to);
    var rest := s[..from] + s[from + 1..];
    if k < to {
      assert r[k] == (r[..to] + r[to + 1..])[k] == rest[k];
    } else if k > to {
      assert r[k] == (r[..to] + r[to + 1..])[k - 1] == rest[k - 1];
    }
  }

  // ---------------------------------------------------------------------
  // findIndex and filter

  /** `s.findIndex(p)`: the first index whose element satisfies `p`, or -1. */
  function FindIndex<T>(s: seq<T>, p: T -> bool): (r: int)
    ensures -1 <= r < |s|
    ensures 0 <= r ==> p(s[r]) && forall j :: 0 <= j < r ==> !p(s[j])
    ensures r == -1 ==> forall j :: 0 <= j < |s| ==> !p(s[j])
  {
    if s == [] then -1
    else if p(s[0]) then 0
    else
      var k := FindIndex(s[1..], p);
      if k == -1 then -1 else k + 1
  }

  /** `s.filter(p)`: the elements satisfying `p`, in their original order. */
  function Filter<T(!new)>(s: seq<T>, p: T -> bool): (r: seq<T>)
    ensures |r| <= |s|
    ensures forall x :: x in r <==> x in s && p(x)
    ensures multiset(r) <= multiset(s)
  {
    if s == [] then []
    else
      assert s == [s[0]] + s[1..];
      if p(s[0]) then [s[0]] + Filter(s[1..], p) else Filter(s[1..], p)
  }

  lemma {:induction false} FilterConcat<T(!new)>(a: seq<T>, b: seq<T>, p: T -> bool)
    ensures Filter(a + b, p) == Filter(a, p) + Filter(b, p)
  {
    if a != [] {
      var x, t := a[0], a[1..];
      var u := a + b;
      assert u[0] == x && u[1..] == t + b;
      FilterConcat(t, b, p);
      if p(x) {
        assert Filter(u, p) == [x] + Filter(t + b, p);
        assert Filter(a, p) == [x] + Filter(t, p);
        ConsAssoc(x, Filter(t, p), Filter(b, p));
      } else {
        assert Filter(u, p) == Filter(t + b, p);
        assert Filter(a, p) == Filter(t, p);
      }
    } else {
      assert a + b == b;
    }
  }

  lemma ConcatAssoc<T>(a: seq<T>, b: seq<T>, c: seq<T>)
    ensures a + b + c == a + (b + c)
  {
  }

  lemma ConsAssoc<T>(x: T, a: seq<T>, b: seq<T>)
    ensures [x] + (a + b) == ([x] + a) + b
  {
  }

  /** The indexes of `s` whose element satisfies `p`, in increasing order. */
  function Positions<T>(s: seq<T>, p: T -> bool): seq<nat> {
    if s == [] then []
    else
      var rest := Positions(s[..|s| - 1], p);
      if p(s[|s| - 1]) then rest + [|s| - 1] else rest
  }

  /** `Positions` lists every satisfying index once, in increasing order,
      and nothing else. */
  lemma {:induction false} PositionsExact<T>(s: seq<T>, p: T -> bool)
    ensures var r := Positions(s, p);
      && (forall k :: 0 <= k < |r| ==> r[k] < |s| && p(s[r[k]]))
      && (forall k, l :: 0 <= k < l < |r| ==> r[k] < r[l])
      && (forall j :: 0 <= j < |s| && p(s[j]) ==> j in r)
  {
    if s != [] {
      var b := s[..|s| - 1];
      PositionsExact(b, p);
      var r, rb := Positions(s, p), Positions(b, p);
      assert forall k :: 0 <= k < |rb| ==> rb[k] < |b| && s[rb[k]] == b[rb[k]];
      forall j | 0 <= j < |s| && p(s[j])
        ensures j in r
      {
        if j < |b| {
          assert b[j] == s[j];
        }
      }
    }
  }

  /** `r` lists the elements of `s` that satisfy `p`, in their order in `s`
      and each as often as there: its k-th element is the one at the k-th
      index that satisfies `p`. */
  ghost predicate Selects<T>(r: seq<T>, s: seq<T>, p: T -> bool) {
    var idx := Positions(s, p);
    |r| == |idx| && forall k :: 0 <= k < |r| ==> idx[k] < |s| && r[k] == s[idx[k]]
  }

  /** `filter` keeps exactly the satisfying elements, in order. */
  lemma {:induction false} FilterSelects<T(!new)>(s: seq<T>, p: T -> bool)
    ensures Selects(Filter(s, p), s, p)
  {
    if s != [] {
      var b, x := s[..|s| - 1], s[|s| - 1];
      SplitLast(s);
      FilterConcat(b, [x], p);
      assert Filter([x], p) == if p(x) then [x] else [] by {
        assert [x][1..] == [];
      }
      FilterSelects(b, p);
      var r, rb, idx, ib := Filter(s, p), Filter(b, p), Positions(s, p), Positions(b, p);
      forall k | 0 <= k < |rb|
        ensures idx[k] < |s| && r[k] == s[idx[k]]
      {
        assert r[k] == rb[k] == b[ib[k]];
        assert idx[k] == ib[k];
      }
    }
  }

  /** At most one sequence selects the satisfying elements of `s`. */
  lemma SelectsUnique<T>(r1: seq<T>, r2: seq<T>, s: seq<T>, p: T -> bool)
    requires Selects(r1, s, p) && Selects(r2, s, p)
    ensures r1 == r2
  {
  }

  /** `filter` keeps every satisfying element as often as it occurs and
      drops every other one. */
  lemma {:induction false} FilterCount<T(!new)>(s: seq<T>, p: T -> bool, x: T)
    ensures multiset(Filter(s, p))[x] == if p(x) then multiset(s)[x] else 0
  {
    if s != [] {
      var t := s[1..];
      FilterCount(t, p, x);
      assert s == [s[0]] + t;
      assert multiset(s) == multiset{s[0]} + multiset(t);
      if p(s[0]) {
        assert Filter(s, p) == [s[0]] + Filter(t, p);
        assert multiset(Filter(s, p)) == multiset{s[0]} + multiset(Filter(t, p));
      } else {
        assert Filter(s, p) == Filter(t, p);
      }
    }
  }

  /** Filtering keeps everything when every element passes. */
  lemma {:induction false} FilterAll<T(!new)>(s: seq<T>, p: T -> bool)
    requires forall i :: 0 <= i < |s| ==> p(s[i])
    ensures Filter(s, p) == s
  {
    if s != [] {
      FilterAll(s[1..], p);
    }
  }

  /** Filtering keeps nothing when no element passes. */
  lemma {:induction false} FilterNone<T(!new)>(s: seq<T>, p: T -> bool)
    requires forall i :: 0 <= i < |s| ==> !p(s[i])
    ensures Filter(s, p) == []
  {
    if s != [] {
      FilterNone(s[1..], p);
    }
  }

  /** An element the predicate rejects adds nothing when appended. */
  lemma FilterDropRejected<T(!new)>(a: seq<T>, p: T -> bool)
    requires a != [] && !p(a[|a| - 1])
    ensures Filter(a[..|a| - 1], p) == Filter(a, p)
  {
    SplitLast(a);
    FilterSnocRejected(a[..|a| - 1], a[|a| - 1], p);
  }

  lemma SplitAt<T>(a: seq<T>, n: nat)
    requires n <= |a|
    ensures a == a[..n] + a[n..]
  {
  }

  lemma SplitLast<T>(a: seq<T>)
    requires a != []
    ensures a == a[..|a| - 1] + [a[|a| - 1]]
  {
  }

  lemma FilterSnocRejected<T(!new)>(b: seq<T>, x: T, p: T -> bool)
    requires !p(x)
    ensures Filter(b + [x], p) == Filter(b, p)
  {
    FilterConcat(b, [x], p);
    assert Filter([x], p) == Filter([x][1..], p) == [];
  }

  /** Filtering by a predicate and by its negation splits the elements
      between the two results. */
  lemma {:induction false} FilterSplit<T(!new)>(s: seq<T>, p: T -> bool, q: T -> bool)
    requires forall x :: q(x) == !p(x)
    ensures multiset(Filter(s, p)) + multiset(Filter(s, q)) == multiset(s)
  {
    if s != [] {
      var x, t := s[0], s[1..];
      FilterSplit(t, p, q);
      assert s == [x] + t;
      FilterSplitStep(x, t, p, q);
    }
  }

  lemma FilterSplitStep<T(!new)>(x: T, t: seq<T>, p: T -> bool, q: T -> bool)
    requires q(x) == !p(x)
    ensures multiset(Filter([x] + t, p)) + multiset(Filter([x] + t, q))
         == multiset{x} + multiset(Filter(t, p)) + multiset(Filter(t, q))
  {
    var u := [x] + t;
    assert u[0] == x && u[1..] == t;
    if p(x) {
      assert Filter(u, p) == [x] + Filter(t, p) && Filter(u, q) == Filter(t, q);
    } else {
      assert Filter(u, p) == Filter(t, p) && Filter(u, q) == [x] + Filter(t, q);
    }
  }

  // ---------------------------------------------------------------------
  // Stable sort by an integer key

  predicate SortedBy<T>(s: seq<T>, key: T -> int) {
    forall i, j :: 0 <= i < j < |s| ==> key(s[i]) <= key(s[j])
  }

  /** The elements of `s` whose key is `k`, in their order in `s`. */
  function WithKey<T>(s: seq<T>, key: T -> int, k: int): seq<T> {
    if s == [] then []
    else (if key(s[0]) == k then [s[0]] else []) + WithKey(s[1..], key, k)
  }

  /** Inserts `x` before the first element whose key is not smaller. */
  function Insert<T>(x: T, s: seq<T>, key: T -> int): (r: seq<T>)
    ensures |r| == |s| + 1
    ensures multiset(r) == multiset(s) + multiset{x}
  {
    if s == [] then [x]
    else if key(x) <= key(s[0]) then [x] + s
    else
      assert s == [s[0]] + s[1..];
      [s[0]] + Insert(x, s[1..], key)
  }

  /** Inserting into a sorted sequence keeps it sorted; the result starts
      with `x` or with the old first element. */
  lemma {:induction false} InsertSorted<T>(x: T, s: seq<T>, key: T -> int)
    requires SortedBy(s, key)
    ensures SortedBy(Insert(x, s, key), key)
    ensures Insert(x, s, key)[0] == x || (s != [] && Insert(x, s, key)[0] == s[0])
  {
    if s == [] {
    } else if key(x) <= key(s[0]) {
      SortedCons(x, s, key);
    } else {
      var t := Insert(x, s[1..], key);
      InsertSorted(x, s[1..], key);
      assert key(s[0]) <= key(t[0]) by {
        if t[0] != x {
          assert t[0] == s[1];
        }
      }
      SortedCons(s[0], t, key);
    }
  }

  /** A sorted sequence stays sorted under a head whose key is not larger
      than the key of its first element. */
  lemma SortedCons<T>(y: T, t: seq<T>, key: T -> int)
    requires SortedBy(t, key) && (t != [] ==> key(y) <= key(t[0]))
    ensures SortedBy([y] + t, key)
  {
    var u := [y] + t;
    forall i, j | 0 <= i < j < |u| ensures key(u[i]) <= key(u[j]) {
      if i == 0 {
        assert u[j] == t[j - 1];
        assert key(t[0]) <= key(t[j - 1]);
      } else {
        assert u[i] == t[i - 1] && u[j] == t[j - 1];
      }
    }
  }

  /** A sorted sequence stays sorted under a last element whose key is not
      smaller than any key in it. */
  lemma SortedSnoc<T>(s: seq<T>, y: T, key: T -> int)
    requires SortedBy(s, key) && forall i :: 0 <= i < |s| ==> key(s[i]) <= key(y)
    ensures SortedBy(s + [y], key)
  {
    var u := s + [y];
    forall i, j | 0 <= i < j < |u| ensures key(u[i]) <= key(u[j]) {
      assert u[i] == s[i];
      if j < |s| {
        assert u[j] == s[j];
      }
    }
  }

  /** The array sorted by `key` the way the stable `Array.prototype.sort`
      sorts it with the comparator `(a, b) => key(a) - key(b)`. */
  function SortBy<T>(s: seq<T>, key: T -> int): (r: seq<T>)
    ensures |r| == |s|
    ensures SortedBy(r, key)
    ensures multiset(r) == multiset(s)
  {
    if s == [] then []
    else
      var t := SortBy(s[1..], key);
      InsertSorted(s[0], t, key);
      assert s == [s[0]] + s[1..];
      Insert(s[0], t, key)
  }

  /** `WithKey` looks at the head, then at the rest. */
  lemma WithKeyCons<T>(y: T, t: seq<T>, key: T -> int, k: int)
    ensures WithKey([y] + t, key, k) == (if key(y) == k then [y] else []) + WithKey(t, key, k)
  {
    var u := [y] + t;
    assert u[0] == y && u[1..] == t;
  }

  lemma {:induction false} WithKeyInsert<T>(x: T, s: seq<T>, key: T -> int, k: int)
    ensures WithKey(Insert(x, s, key), key, k) ==
      (if key(x) == k then [x] else []) + WithKey(s, key, k)
  {
    if s == [] {
      assert Insert(x, s, key) == [x] + [];
      WithKeyCons(x, [], key, k);
    } else if key(x) <= key(s[0]) {
      assert Insert(x, s, key) == [x] + s;
      WithKeyCons(x, s, key, k);
    } else {
      WithKeyInsert(x, s[1..], key, k);
      WithKeyInsertStep(x, s, key, k);
    }
  }

  lemma InsertPast<T>(x: T, s: seq<T>, key: T -> int)
    requires s != [] && key(s[0]) < key(x)
    ensures Insert(x, s, key) == [s[0]] + Insert(x, s[1..], key)
  {
  }

  /** The step of `WithKeyInsert` where `x` goes past the first element. */
  lemma WithKeyInsertStep<T>(x: T, s: seq<T>, key: T -> int, k: int)
    requires s != [] && key(s[0]) < key(x)
    requires WithKey(Insert(x, s[1..], key), key, k) ==
      (if key(x) == k then [x] else []) + WithKey(s[1..], key, k)
    ensures WithKey(Insert(x, s, key), key, k) ==
      (if key(x) == k then [x] else []) + WithKey(s, key, k)
  {
    var t := Insert(x, s[1..], key);
    InsertPast(x, s, key);
    WithKeyCons(s[0], t, key, k);
    ConcatSwap(if key(s[0]) == k then [s[0]] else [], if key(x) == k then [x] else [], WithKey(s[1..], key, k));
  }

  /** Two parts of which one is empty can be put in either order. */
  lemma ConcatSwap<T>(h: seq<T>, g: seq<T>, w: seq<T>)
    requires h == [] || g == []
    ensures h + (g + w) == g + (h + w)
  {
    if h == [] {
      assert h + (g + w) == g + w;
    } else {
      assert g + (h + w) == h + w;
    }
  }

  /** The sort is stable: among elements with equal keys the input order is
      kept. */
  lemma {:induction false} SortByStable<T>(s: seq<T>, key: T -> int, k: int)
    ensures WithKey(SortBy(s, key), key, k) == WithKey(s, key, k)
  {
    if s != [] {
      SortByStable(s[1..], key, k);
      WithKeyInsert(s[0], SortBy(s[1..], key), key, k);
    }
  }

  /** `s.map(f)`. */
  function MapSeq<T, U>(f: T -> U, s: seq<T>): (r: seq<U>)
    ensures |r| == |s|
    ensures forall i :: 0 <= i < |s| ==> r[i] == f(s[i])
  {
    if s == [] then [] else [f(s[0])] + MapSeq(f, s[1..])
  }

  lemma MapCons<T, U>(f: T -> U, y: T, t: seq<T>)
    ensures MapSeq(f, [y] + t) == [f(y)] + MapSeq(f, t)
  {
    var u := [y] + t;
    assert u[0] == y && u[1..] == t;
  }

  /** Mapping commutes with inserting when the map keeps the key. */
  lemma {:induction false} MapInsert<T, U>(f: T -> U, x: T, s: seq<T>, kt: T -> int, ku: U -> int)
    requires forall y :: ku(f(y)) == kt(y)
    ensures MapSeq(f, Insert(x, s, kt)) == Insert(f(x), MapSeq(f, s), ku)
  {
    if s == [] {
      assert Insert(x, s, kt) == [x] + [];
      MapCons(f, x, []);
    } else {
      var m := MapSeq(f, s);
      MapCons(f, s[0], s[1..]);
      assert s == [s[0]] + s[1..];
      assert m[0] == f(s[0]) && m[1..] == MapSeq(f, s[1..]);
      if kt(x) <= kt(s[0]) {
        assert Insert(x, s, kt) == [x] + s;
        MapCons(f, x, s);
      } else {
        MapInsert(f, x, s[1..], kt, ku);
        InsertPast(x, s, kt);
        MapCons(f, s[0], Insert(x, s[1..], kt));
        InsertPast(f(x), m, ku);
      }
    }
  }

  /** Sorting and then mapping is mapping and then sorting, when the map
      keeps the key: the mapped elements end up in the same order. */
  lemma {:induction false} MapSortBy<T, U>(f: T -> U, s: seq<T>, kt: T -> int, ku: U -> int)
    requires forall y :: ku(f(y)) == kt(y)
    ensures MapSeq(f, SortBy(s, kt)) == SortBy(MapSeq(f, s), ku)
  {
    if s != [] {
      var m := MapSeq(f, s);
      MapSortBy(f, s[1..], kt, ku);
      MapInsert(f, s[0], SortBy(s[1..], kt), kt, ku);
      MapCons(f, s[0], s[1..]);
      assert s == [s[0]] + s[1..];
      assert m[0] == f(s[0]) && m[1..] == MapSeq(f, s[1..]);
    }
  }

  /** An input already in key order is returned unchanged. */
  lemma {:induction false} SortBySorted<T>(s: seq<T>, key: T -> int)
    requires SortedBy(s, key)
    ensures SortBy(s, key) == s
  {
    if s != [] {
      SortBySorted(s[1..], key);
      assert SortBy(s, key) == Insert(s[0], s[1..], key);
      if s[1..] != [] {
        assert key(s[0]) <= key(s[1..][0]);
      }
    }
  }
}
