/**
 Stable insertion sort by a comparator, the model of `Collections.sort`
 (a stable merge sort) used throughout the application.
 `le(a, b)` means "a may come before b", i.e. `compare(a, b) <= 0`.
 */
module Sorting {
  import opened Seqs

  /** Every pair of elements is comparable. */
  ghost predicate Total<T(!new)>(le: (T, T) -> bool) {
    forall a, b :: le(a, b) || le(b, a)
  }

  ghost predicate Transitive<T(!new)>(le: (T, T) -> bool) {
    forall a, b, c :: le(a, b) && le(b, c) ==> le(a, c)
  }

  /** Every element may come before every later one. */
  predicate SortedBy<T>(s: seq<T>, le: (T, T) -> bool) {
    forall i, j :: 0 <= i < j < |s| ==> le(s[i], s[j])
  }

  /** Every element may come before its successor. */
  predicate AdjacentSortedBy<T>(s: seq<T>, le: (T, T) -> bool) {
    forall i :: 0 < i < |s| ==> le(s[i - 1], s[i])
  }

  /**
   Inserts `x` before the first element it may precede; elements it passes
   are strictly smaller, so equal elements keep their relative order.
   */
  function Insert<T(!new)>(x: T, s: seq<T>, le: (T, T) -> bool): (r: seq<T>)
    ensures |r| == |s| + 1
    ensures multiset(r) == multiset(s) + multiset{x}
    ensures r[0] == x || (|s| > 0 && r[0] == s[0])
    ensures Total(le) && AdjacentSortedBy(s, le) ==> AdjacentSortedBy(r, le)
  {
    if |s| == 0 then [x]
    else if le(x, s[0]) then [x] + s
    else
      var rest := Insert(x, s[1..], le);
      InsertBehindHead(x, s, le, rest);
      [s[0]] + rest
  }

  /** The step of `Insert` that keeps the head and inserts `x` into the tail. */
  lemma {:induction false} InsertBehindHead<T(!new)>(x: T, s: seq<T>, le: (T, T) -> bool, rest: seq<T>)
    requires |s| > 0 && !le(x, s[0])
    requires |rest| == |s| && multiset(rest) == multiset(s[1..]) + multiset{x}
    requires rest[0] == x || (|s| > 1 && rest[0] == s[1])
    requires Total(le) && AdjacentSortedBy(s[1..], le) ==> AdjacentSortedBy(rest, le)
    ensures multiset([s[0]] + rest) == multiset(s) + multiset{x}
    ensures Total(le) && AdjacentSortedBy(s, le) ==> AdjacentSortedBy([s[0]] + rest, le)
  {
    assert s == [s[0]] + s[1..];
    assert multiset(s) == multiset{s[0]} + multiset(s[1..]);
    if Total(le) && AdjacentSortedBy(s, le) {
      // `x` may not precede `s[0]`, so `s[0]` may precede whichever of `x` and `s[1]` comes next.
      assert le(s[0], rest[0]);
      assert AdjacentSortedBy(s[1..], le);
    }
  }

  /** Sorts `s` by `le`, keeping equal elements in input order. */
  function Sort<T(!new)>(s: seq<T>, le: (T, T) -> bool): (r: seq<T>)
    ensures |r| == |s|
    ensures multiset(r) == multiset(s)
    ensures Total(le) ==> AdjacentSortedBy(r, le)
  {
    if |s| == 0 then []
    else
      assert s == [s[0]] + s[1..];
      Insert(s[0], Sort(s[1..], le), le)
  }

  /** Under a transitive comparator, neighbour order gives full order. */
  lemma {:induction false} AdjacentSortedIsSorted<T(!new)>(s: seq<T>, le: (T, T) -> bool)
    requires Transitive(le) && AdjacentSortedBy(s, le)
    ensures SortedBy(s, le)
  {
    forall i, j | 0 <= i < j < |s| ensures le(s[i], s[j]) {
      var k := i + 1;
      while k < j
        invariant i < k <= j
        invariant le(s[i], s[k])
      {
        assert le(s[k], s[k + 1]);
        k := k + 1;
      }
    }
  }

  /** The elements `le` cannot tell apart from `k`: both may come before the other. */
  function TiedWith<T>(le: (T, T) -> bool, k: T): T -> bool {
    (y: T) => le(k, y) && le(y, k)
  }

  /** Filtering a list with a given head. */
  lemma {:induction false} FilterCons<T(!new)>(x: T, s: seq<T>, p: T -> bool)
    ensures Filter([x] + s, p) == (if p(x) then [x] else []) + Filter(s, p)
  {
    FilterAppend([x], s, p);
    assert [x][..0] == [];
  }

  /** Any two ties of `k` may come before each other. */
  lemma {:induction false} TiesAreOrdered<T(!new)>(le: (T, T) -> bool, k: T, a: T, b: T)
    requires Transitive(le)
    ensures TiedWith(le, k)(a) && TiedWith(le, k)(b) ==> le(a, b)
  {
    assert le(a, k) && le(k, b) ==> le(a, b);
  }

  /** Filtering after `x` passes the head keeps or drops the head as filtering `s` does. */
  lemma {:induction false} FilterPastHead<T(!new)>(x: T, s: seq<T>, le: (T, T) -> bool, p: T -> bool)
    requires |s| > 0 && !le(x, s[0])
    ensures Filter(Insert(x, s, le), p) == (if p(s[0]) then [s[0]] else []) + Filter(Insert(x, s[1..], le), p)
  {
    assert Insert(x, s, le) == [s[0]] + Insert(x, s[1..], le);
    FilterCons(s[0], Insert(x, s[1..], le), p);
  }

  /** Two pieces of which one is empty may be swapped. */
  lemma {:induction false} SwapWithEmpty<T>(a: seq<T>, b: seq<T>, tail: seq<T>)
    requires a == [] || b == []
    ensures a + (b + tail) == b + (a + tail)
  {
    if a == [] {
      assert a + (b + tail) == b + tail && a + tail == tail;
    } else {
      assert b + (a + tail) == a + tail && b + tail == tail;
    }
  }

  /** `x` passes a head it may not precede and that is not in the same class. */
  lemma {:induction false} InsertPastHead<T(!new)>(x: T, s: seq<T>, le: (T, T) -> bool, p: T -> bool)
    requires |s| > 0 && !le(x, s[0]) && !(p(x) && p(s[0]))
    requires Filter(Insert(x, s[1..], le), p) == (if p(x) then [x] else []) + Filter(s[1..], p)
    ensures Filter(Insert(x, s, le), p) == (if p(x) then [x] else []) + Filter(s, p)
  {
    FilterPastHead(x, s, le, p);
    assert s == [s[0]] + s[1..];
    FilterCons(s[0], s[1..], p);
    // At most one of `x` and `s[0]` is kept, so their order does not matter.
    SwapWithEmpty(if p(s[0]) then [s[0]] else [], if p(x) then [x] else [], Filter(s[1..], p));
  }

  /** `x` is inserted in front of every element tied with it, and ties keep their order. */
  lemma {:induction false} InsertKeepsTies<T(!new)>(x: T, s: seq<T>, le: (T, T) -> bool, k: T)
    requires Transitive(le)
    ensures Filter(Insert(x, s, le), TiedWith(le, k))
            == (if TiedWith(le, k)(x) then [x] else []) + Filter(s, TiedWith(le, k))
  {
    var p := TiedWith(le, k);
    if |s| == 0 {
      FilterCons(x, s, p);
    } else if le(x, s[0]) {
      assert Insert(x, s, le) == [x] + s;
      FilterCons(x, s, p);
    } else {
      InsertKeepsTies(x, s[1..], le, k);
      // `x` may not come before `s[0]`, so they are not both ties of `k`.
      TiesAreOrdered(le, k, x, s[0]);
      InsertPastHead(x, s, le, p);
    }
  }

  /**
   Sorting is stable: the elements tied with any `k` appear in the result
   in the order they have in the input.
   */
  lemma {:induction false} SortKeepsTies<T(!new)>(s: seq<T>, le: (T, T) -> bool, k: T)
    requires Transitive(le)
    ensures Filter(Sort(s, le), TiedWith(le, k)) == Filter(s, TiedWith(le, k))
  {
    if |s| > 0 {
      SortKeepsTies(s[1..], le, k);
      InsertKeepsTies(s[0], Sort(s[1..], le), le, k);
      FilterCons(s[0], s[1..], TiedWith(le, k));
      assert s == [s[0]] + s[1..];
    }
  }

  /** Stability for every class of tied elements at once. */
  lemma {:induction false} SortIsStable<T(!new)>(s: seq<T>, le: (T, T) -> bool)
    requires Transitive(le)
    ensures forall k :: Filter(Sort(s, le), TiedWith(le, k)) == Filter(s, TiedWith(le, k))
  {
    forall k ensures Filter(Sort(s, le), TiedWith(le, k)) == Filter(s, TiedWith(le, k)) {
      SortKeepsTies(s, le, k);
    }
  }

  /** A total, transitive comparator sorts fully. */
  lemma {:induction false} SortIsSorted<T(!new)>(s: seq<T>, le: (T, T) -> bool)
    requires Total(le) && Transitive(le)
    ensures SortedBy(Sort(s, le), le)
  {
    AdjacentSortedIsSorted(Sort(s, le), le);
  }
}
