/**
 * Stream and query building blocks: filtering, ordering by a key, taking
 * the first row, and paging. A database ORDER BY leaves the order of ties
 * open; `SortBy` fixes one admissible order (a stable insertion sort).
 */
module Sequences {
  import opened Wrappers

  /** `stream().filter(p)` / a WHERE clause: the elements satisfying `p`, in order. */
  function Filter<T(==,!new)>(s: seq<T>, p: T -> bool): (r: seq<T>)
    ensures |r| <= |s|
    ensures forall x :: x in r <==> x in s && p(x)
    ensures forall i :: 0 <= i < |r| ==> p(r[i])
  {
    if s == [] then [] else (if p(s[0]) then [s[0]] else []) + Filter(s[1..], p)
  }

  /** Filters whose tests agree on every element of the list keep the same elements. */
  lemma {:induction false} FilterAgrees<T(!new)>(s: seq<T>, p: T -> bool, p': T -> bool)
    requires forall x :: x in s ==> p(x) == p'(x)
    ensures Filter(s, p) == Filter(s, p')
  {
    if s != [] {
      assert forall x :: x in s[1..] ==> x in s;
      FilterAgrees(s[1..], p, p');
    }
  }

  predicate SortedBy<T>(s: seq<T>, key: T -> int) {
    forall i, j :: 0 <= i < j < |s| ==> key(s[i]) <= key(s[j])
  }

  /** Filtering keeps the relative order of what it keeps: a relation between every earlier and later element survives. */
  lemma {:induction false} FilterKeepsOrder<T(!new)>(s: seq<T>, p: T -> bool, before: (T, T) -> bool)
    requires forall i, j :: 0 <= i < j < |s| ==> before(s[i], s[j])
    ensures forall i, j :: 0 <= i < j < |Filter(s, p)| ==> before(Filter(s, p)[i], Filter(s, p)[j])
  {
    if s != [] {
      FilterKeepsOrder(s[1..], p, before);
      var rest := Filter(s[1..], p);
      forall y | y in rest ensures before(s[0], y) {
        var j :| 0 <= j < |s[1..]| && s[1..][j] == y;
        assert s[j + 1] == y;
      }
      if p(s[0]) {
        var r := [s[0]] + rest;
        forall i, j | 0 <= i < j < |r| ensures before(r[i], r[j]) {
          if i > 0 {
            assert r[i] == rest[i - 1] && r[j] == rest[j - 1];
          } else {
            assert r[j] in rest;
          }
        }
      }
    }
  }

  /** Inserts `x` before the first element whose key is not smaller. */
  function Insert<T(==)>(x: T, s: seq<T>, key: T -> int): (r: seq<T>)
    requires SortedBy(s, key)
    ensures |r| == |s| + 1
    ensures r[0] == x || (|s| > 0 && r[0] == s[0])
    ensures SortedBy(r, key)
    ensures multiset(r) == multiset(s) + multiset{x}
  {
    if s == [] || key(x) <= key(s[0]) then [x] + s
    else
      var rest := Insert(x, s[1..], key);
      InsertBehindHead(x, s, key, rest);
      [s[0]] + rest
  }

  /** Putting the head back in front of the insertion into the tail keeps the order and the elements. */
  lemma InsertBehindHead<T>(x: T, s: seq<T>, key: T -> int, rest: seq<T>)
    requires SortedBy(s, key) && s != [] && key(s[0]) < key(x)
    requires |rest| == |s| && (rest[0] == x || (|s| > 1 && rest[0] == s[1]))
    requires SortedBy(rest, key) && multiset(rest) == multiset(s[1..]) + multiset{x}
    ensures SortedBy([s[0]] + rest, key)
    ensures multiset([s[0]] + rest) == multiset(s) + multiset{x}
  {
    assert s == [s[0]] + s[1..];
    assert key(s[0]) <= key(rest[0]);
  }

  /** ORDER BY key ascending. */
  function SortBy<T(==)>(s: seq<T>, key: T -> int): (r: seq<T>)
    ensures |r| == |s|
    ensures SortedBy(r, key)
    ensures multiset(r) == multiset(s)
  {
    if s == [] then []
    else
      assert s == [s[0]] + s[1..];
      Insert(s[0], SortBy(s[1..], key), key)
  }

  /** ORDER BY key descending. */
  function SortByDesc<T(==)>(s: seq<T>, key: T -> int): (r: seq<T>)
    ensures |r| == |s|
    ensures forall i, j :: 0 <= i < j < |r| ==> key(r[i]) >= key(r[j])
    ensures multiset(r) == multiset(s)
  {
    SortBy(s, x => -key(x))
  }

  /** `findFirst` / LIMIT 1. */
  function FirstOf<T>(s: seq<T>): (r: Option<T>)
    ensures r.None? <==> s == []
    ensures r.Some? ==> r.value == s[0]
  {
    if s == [] then None else Some(s[0])
  }

  /** The first row of an ascending order has the least key of all rows. */
  lemma FirstOfSortByIsLeast<T>(s: seq<T>, key: T -> int)
    ensures FirstOf(SortBy(s, key)).None? <==> s == []
    ensures FirstOf(SortBy(s, key)).Some? ==>
      var m := FirstOf(SortBy(s, key)).value;
      m in s && forall x :: x in s ==> key(m) <= key(x)
  {
    var r := SortBy(s, key);
    if r != [] {
      assert r[0] in multiset(r);
      forall x | x in s ensures key(r[0]) <= key(x) {
        assert x in multiset(r);
        var j :| 0 <= j < |r| && r[j] == x;
        if j > 0 { assert key(r[0]) <= key(r[j]); }
      }
    }
  }

  /** The first row of a descending order has the greatest key of all rows. */
  lemma FirstOfSortByDescIsGreatest<T>(s: seq<T>, key: T -> int)
    ensures FirstOf(SortByDesc(s, key)).None? <==> s == []
    ensures FirstOf(SortByDesc(s, key)).Some? ==>
      var m := FirstOf(SortByDesc(s, key)).value;
      m in s && forall x :: x in s ==> key(x) <= key(m)
  {
    var r := SortByDesc(s, key);
    if r != [] {
      assert r[0] in multiset(r);
      forall x | x in s ensures key(x) <= key(r[0]) {
        assert x in multiset(r);
        var j :| 0 <= j < |r| && r[j] == x;
        if j > 0 { assert key(r[0]) >= key(r[j]); }
      }
    }
  }

  function Min(a: int, b: int): int { if a <= b then a else b }

  /**
   * The page a `PageRequest.of(from / size, size)` reads: up to `size` rows
   * starting at row `(from / size) * size`.
   */
  function Page<T>(s: seq<T>, from: int, size: int): (r: seq<T>)
    requires from >= 0 && size > 0
    ensures |r| <= size
    ensures |r| == if PageStart(from, size) < |s| then Min(size, |s| - PageStart(from, size)) else 0
    ensures forall i :: 0 <= i < |r| ==> r[i] == s[PageStart(from, size) + i]
    ensures forall x :: x in r ==> x in s
  {
    var offset := PageStart(from, size);
    if offset < |s| then s[offset..Min(offset + size, |s|)] else []
  }

  /** The first row of page `from / size`. */
  function PageStart(from: int, size: int): (o: nat)
    requires from >= 0 && size > 0
    ensures o <= from < o + size
  {
    from / size * size
  }

  /** A page keeps the relative order of the list it is cut from: a relation between every earlier and later row survives. */
  lemma PageKeepsOrder<T>(s: seq<T>, from: int, size: int, before: (T, T) -> bool)
    requires from >= 0 && size > 0
    requires forall i, j :: 0 <= i < j < |s| ==> before(s[i], s[j])
    ensures forall i, j :: 0 <= i < j < |Page(s, from, size)| ==> before(Page(s, from, size)[i], Page(s, from, size)[j])
  {
    var r := Page(s, from, size);
    var offset := PageStart(from, size);
    forall i, j | 0 <= i < j < |r| ensures before(r[i], r[j]) {
      assert r[i] == s[offset + i] && r[j] == s[offset + j];
    }
  }

  /** `stream().map(f)`. */
  function Map<T, U>(s: seq<T>, f: T -> U): (r: seq<U>)
    ensures |r| == |s|
    ensures forall i :: 0 <= i < |s| ==> r[i] == f(s[i])
  {
    seq(|s|, i requires 0 <= i < |s| => f(s[i]))
  }
}
