/**
 * Ordering by a numeric key, descending. Both sorts the notes core performs
 * (word counts by value, notes by createdDate) are stable sorts by one key in
 * descending order; this module defines that sort once and proves that it
 * yields a non-increasing permutation of its input.
 */
module Sorting {

  /** Keys never increase along xs. */
  ghost predicate SortedDesc<T>(xs: seq<T>, key: T -> int)
  {
    forall i, j :: 0 <= i < j < |xs| ==> key(xs[i]) >= key(xs[j])
  }

  /** No element occurs twice. */
  predicate NoDup<T(==)>(xs: seq<T>)
  {
    forall i, j :: 0 <= i < j < |xs| ==> xs[i] != xs[j]
  }

  /** Inserts x before the first element whose key is not greater than x's. */
  function Insert<T>(x: T, xs: seq<T>, key: T -> int): (r: seq<T>)
    ensures multiset(r) == multiset(xs) + multiset{x}
  {
    if xs == [] || key(xs[0]) <= key(x) then [x] + xs
    else
      assert xs == [xs[0]] + xs[1..];
      [xs[0]] + Insert(x, xs[1..], key)
  }

  /**
   * Stable insertion sort, descending by key: an element that comes first in
   * xs stays ahead of later elements with an equal key.
   */
  function SortDesc<T>(xs: seq<T>, key: T -> int): (r: seq<T>)
    ensures multiset(r) == multiset(xs)
    ensures |r| == |xs|
  {
    if xs == [] then []
    else
      assert xs == [xs[0]] + xs[1..];
      Insert(xs[0], SortDesc(xs[1..], key), key)
  }

  /** Sum of f over the elements of xs. */
  function SumBy<T>(xs: seq<T>, f: T -> int): int
  {
    if xs == [] then 0 else f(xs[0]) + SumBy(xs[1..], f)
  }

  lemma SortedHead<T>(xs: seq<T>, key: T -> int)
    requires SortedDesc(xs, key) && xs != []
    ensures forall y :: y in xs ==> key(y) <= key(xs[0])
  {
    forall y | y in xs ensures key(y) <= key(xs[0]) {
      var j :| 0 <= j < |xs| && xs[j] == y;
      if j > 0 {
        assert key(xs[0]) >= key(xs[j]);
      }
    }
  }

  lemma {:induction false} InsertSorted<T>(x: T, xs: seq<T>, key: T -> int)
    requires SortedDesc(xs, key)
    ensures SortedDesc(Insert(x, xs, key), key)
  {
    if xs == [] || key(xs[0]) <= key(x) {
      var r := [x] + xs;
      if xs != [] {
        SortedHead(xs, key);
      }
      forall i, j | 0 <= i < j < |r| ensures key(r[i]) >= key(r[j]) {
        if i > 0 {
          assert r[i] == xs[i - 1] && r[j] == xs[j - 1];
        } else {
          assert r[j] in xs;
        }
      }
    } else {
      var tail := Insert(x, xs[1..], key);
      var r := [xs[0]] + tail;
      InsertSorted(x, xs[1..], key);
      SortedHead(xs, key);
      forall i, j | 0 <= i < j < |r| ensures key(r[i]) >= key(r[j]) {
        if i > 0 {
          assert r[i] == tail[i - 1] && r[j] == tail[j - 1];
        } else {
          assert r[j] in multiset(tail);
          assert r[j] == x || r[j] in multiset(xs[1..]);
          if r[j] != x {
            assert r[j] in xs[1..];
            assert r[j] in xs;
          }
        }
      }
    }
  }

  /** SortDesc orders its input by non-increasing key, and is a permutation of it. */
  lemma {:induction false} SortDescSorted<T>(xs: seq<T>, key: T -> int)
    ensures SortedDesc(SortDesc(xs, key), key)
    ensures multiset(SortDesc(xs, key)) == multiset(xs)
  {
    if xs != [] {
      SortDescSorted(xs[1..], key);
      InsertSorted(xs[0], SortDesc(xs[1..], key), key);
    }
  }

  lemma {:induction false} InsertNoDup<T>(x: T, xs: seq<T>, key: T -> int)
    requires NoDup(xs) && x !in xs
    ensures NoDup(Insert(x, xs, key))
  {
    if xs == [] || key(xs[0]) <= key(x) {
    } else {
      var tail := Insert(x, xs[1..], key);
      InsertNoDup(x, xs[1..], key);
      assert xs[0] !in multiset(xs[1..]);
      assert xs[0] !in multiset(tail);
      var r := [xs[0]] + tail;
      forall i, j | 0 <= i < j < |r| ensures r[i] != r[j] {
        if i > 0 {
          assert r[i] == tail[i - 1] && r[j] == tail[j - 1];
        } else {
          assert r[j] in tail;
        }
      }
    }
  }

  /** Sorting never duplicates an element: a list without repeats stays so. */
  lemma {:induction false} SortDescNoDup<T>(xs: seq<T>, key: T -> int)
    requires NoDup(xs)
    ensures NoDup(SortDesc(xs, key))
  {
    if xs != [] {
      assert NoDup(xs[1..]) by {
        forall i, j | 0 <= i < j < |xs[1..]| ensures xs[1..][i] != xs[1..][j] {
          assert xs[1..][i] == xs[i + 1] && xs[1..][j] == xs[j + 1];
        }
      }
      SortDescNoDup(xs[1..], key);
      assert xs[0] !in xs[1..];
      assert xs[0] !in multiset(SortDesc(xs[1..], key));
      InsertNoDup(xs[0], SortDesc(xs[1..], key), key);
    }
  }

  lemma {:induction false} SumByInsert<T>(x: T, xs: seq<T>, key: T -> int, f: T -> int)
    ensures SumBy(Insert(x, xs, key), f) == f(x) + SumBy(xs, f)
  {
    if xs == [] || key(xs[0]) <= key(x) {
      assert ([x] + xs)[1..] == xs;
    } else {
      SumByInsert(x, xs[1..], key, f);
      assert ([xs[0]] + Insert(x, xs[1..], key))[1..] == Insert(x, xs[1..], key);
    }
  }

  /** Reordering by SortDesc leaves any sum over the elements unchanged. */
  lemma {:induction false} SumBySortDesc<T>(xs: seq<T>, key: T -> int, f: T -> int)
    ensures SumBy(SortDesc(xs, key), f) == SumBy(xs, f)
  {
    if xs != [] {
      SumBySortDesc(xs[1..], key, f);
      SumByInsert(xs[0], SortDesc(xs[1..], key), key, f);
    }
  }

  lemma {:induction false} SumByAppend<T>(xs: seq<T>, x: T, f: T -> int)
    ensures SumBy(xs + [x], f) == SumBy(xs, f) + f(x)
  {
    if xs != [] {
      assert (xs + [x])[1..] == xs[1..] + [x];
      SumByAppend(xs[1..], x, f);
    }
  }
}
