/**
 Order-preserving selection and counting over sequences: the shape of every
 "for each element, if it matches, add it to a new list" loop of the application.
 */
module Seqs {
  import opened Wrappers

  /** `r` is obtained from `s` by deleting elements, keeping the rest in order. */
  predicate IsSubseq<T(==)>(r: seq<T>, s: seq<T>)
    decreases |s|
  {
    if |r| == 0 then true
    else if |s| == 0 then false
    else (r[|r| - 1] == s[|s| - 1] && IsSubseq(r[..|r| - 1], s[..|s| - 1])) || IsSubseq(r, s[..|s| - 1])
  }

  lemma {:induction false} SubseqOfItself<T>(s: seq<T>)
    ensures IsSubseq(s, s)
  {
    if |s| > 0 {
      SubseqOfItself(s[..|s| - 1]);
    }
  }

  lemma {:induction false} SubseqElements<T>(r: seq<T>, s: seq<T>)
    requires IsSubseq(r, s)
    ensures forall x :: x in r ==> x in s
    ensures |r| <= |s|
    decreases |s|
  {
    if |r| > 0 {
      if r[|r| - 1] == s[|s| - 1] && IsSubseq(r[..|r| - 1], s[..|s| - 1]) {
        SubseqElements(r[..|r| - 1], s[..|s| - 1]);
        assert r == r[..|r| - 1] + [r[|r| - 1]];
        assert s == s[..|s| - 1] + [s[|s| - 1]];
      } else {
        SubseqElements(r, s[..|s| - 1]);
        assert s == s[..|s| - 1] + [s[|s| - 1]];
      }
    }
  }

  /** The elements of `s` satisfying `p`, in their original order. */
  function Filter<T(!new)>(s: seq<T>, p: T -> bool): (r: seq<T>)
    ensures IsSubseq(r, s)
    ensures forall i :: 0 <= i < |r| ==> p(r[i])
    ensures forall x {:trigger multiset(r)[x]} :: multiset(r)[x] == if p(x) then multiset(s)[x] else 0
  {
    if |s| == 0 then []
    else
      var init := s[..|s| - 1];
      var x := s[|s| - 1];
      assert s == init + [x];
      var r := Filter(init, p);
      if p(x) then
        assert (r + [x])[..|r|] == r;
        r + [x]
      else r
  }

  lemma {:induction false} FilterKeepsMatching<T(!new)>(s: seq<T>, p: T -> bool, x: T)
    requires x in s && p(x)
    ensures x in Filter(s, p)
  {
    assert multiset(s)[x] > 0;
    assert multiset(Filter(s, p))[x] > 0;
  }

  /** Filtering by two predicates that agree everywhere gives the same result. */
  lemma {:induction false} FilterSamePredicate<T(!new)>(s: seq<T>, p: T -> bool, q: T -> bool)
    requires forall x :: p(x) == q(x)
    ensures Filter(s, p) == Filter(s, q)
  {
    if |s| > 0 {
      FilterSamePredicate(s[..|s| - 1], p, q);
    }
  }

  /** A predicate every element satisfies filters nothing out. */
  lemma {:induction false} FilterAll<T(!new)>(s: seq<T>, p: T -> bool)
    requires forall i :: 0 <= i < |s| ==> p(s[i])
    ensures Filter(s, p) == s
  {
    if |s| > 0 {
      FilterAll(s[..|s| - 1], p);
      assert s == s[..|s| - 1] + [s[|s| - 1]];
    }
  }

  /** Filtering a concatenation filters each part. */
  lemma {:induction false} FilterAppend<T(!new)>(s: seq<T>, t: seq<T>, p: T -> bool)
    ensures Filter(s + t, p) == Filter(s, p) + Filter(t, p)
    decreases |t|
  {
    if |t| > 0 {
      var init, x := t[..|t| - 1], t[|t| - 1];
      assert (s + t)[..|s + t| - 1] == s + init;
      assert (s + t)[|s + t| - 1] == x;
      FilterAppend(s, init, p);
      assert Filter(t, p) == Filter(init, p) + (if p(x) then [x] else []);
      assert Filter(s + t, p) == Filter(s + init, p) + (if p(x) then [x] else []);
    } else {
      assert s + t == s;
    }
  }

  /** A predicate no element satisfies filters everything out. */
  lemma {:induction false} FilterNone<T(!new)>(s: seq<T>, p: T -> bool)
    requires forall i :: 0 <= i < |s| ==> !p(s[i])
    ensures Filter(s, p) == []
  {
    if |s| > 0 {
      FilterNone(s[..|s| - 1], p);
    }
  }

  /** Elements outside the filter at either end do not change the result. */
  lemma {:induction false} FilterIgnoresEnds<T(!new)>(pre: seq<T>, mid: seq<T>, post: seq<T>, p: T -> bool)
    requires forall i :: 0 <= i < |pre| ==> !p(pre[i])
    requires forall i :: 0 <= i < |post| ==> !p(post[i])
    ensures Filter(pre + mid + post, p) == Filter(mid, p)
  {
    FilterAppend(pre + mid, post, p);
    FilterAppend(pre, mid, p);
    FilterNone(pre, p);
    FilterNone(post, p);
  }

  /** A prefix of elements outside the filter does not change the result. */
  lemma {:induction false} FilterSkipsPrefix<T(!new)>(s: seq<T>, k: nat, p: T -> bool)
    requires k <= |s| && forall i :: 0 <= i < k ==> !p(s[i])
    ensures Filter(s, p) == Filter(s[k..], p)
  {
    var pre, post := s[..k], s[k..];
    assert Filter(pre, p) == [] by {
      forall i | 0 <= i < |pre|
        ensures !p(pre[i])
      {
        assert pre[i] == s[i];
      }
      FilterNone(pre, p);
    }
    assert Filter(s, p) == Filter(pre, p) + Filter(post, p) by {
      assert s == pre + post;
      FilterAppend(pre, post, p);
    }
  }

  /** Filtering by a stronger predicate after a weaker one is filtering by the stronger one. */
  lemma {:induction false} FilterFilter<T(!new)>(s: seq<T>, p: T -> bool, q: T -> bool)
    requires forall x :: q(x) ==> p(x)
    ensures Filter(Filter(s, p), q) == Filter(s, q)
  {
    if |s| > 0 {
      var init, x := s[..|s| - 1], s[|s| - 1];
      FilterFilter(init, p, q);
      if p(x) {
        FilterAppend(Filter(init, p), [x], q);
      }
    }
  }

  /** Appends `x` unless it is already present (`if (!list.contains(x)) list.add(x)`). */
  function AddAbsent<T(==,!new)>(s: seq<T>, x: T): (r: seq<T>)
    ensures x in r
    ensures forall y :: y in r <==> y in s || y == x
    ensures Distinct(s) ==> Distinct(r)
    ensures |r| == if x in s then |s| else |s| + 1
  {
    if x in s then s else s + [x]
  }

  /** The index of the first element satisfying `p`, if any (a "find first, then break" loop). */
  function FirstIndex<T>(s: seq<T>, p: T -> bool): (r: Option<nat>)
    ensures r.Some? ==> r.value < |s| && p(s[r.value]) && forall j :: 0 <= j < r.value ==> !p(s[j])
    ensures r.None? <==> forall j :: 0 <= j < |s| ==> !p(s[j])
  {
    if |s| == 0 then None
    else if p(s[0]) then Some(0)
    else
      match FirstIndex(s[1..], p)
      case None => None
      case Some(i) => Some(i + 1)
  }

  /** The number of elements of `s` satisfying `p`. */
  function Count<T>(s: seq<T>, p: T -> bool): (n: nat)
    ensures n <= |s|
  {
    if |s| == 0 then 0
    else Count(s[..|s| - 1], p) + (if p(s[|s| - 1]) then 1 else 0)
  }

  /** Extending a counted prefix by one element adds that element's count. */
  lemma {:induction false} CountPrefixStep<T>(s: seq<T>, i: nat, p: T -> bool)
    requires i < |s|
    ensures Count(s[..i + 1], p) == Count(s[..i], p) + (if p(s[i]) then 1 else 0)
  {
    assert s[..i + 1][..i] == s[..i];
  }

  lemma {:induction false} CountIsFilterLength<T(!new)>(s: seq<T>, p: T -> bool)
    ensures Count(s, p) == |Filter(s, p)|
  {
    if |s| > 0 {
      CountIsFilterLength(s[..|s| - 1], p);
    }
  }

  /** A weaker predicate counts at least as many elements. */
  lemma {:induction false} CountMonotone<T>(s: seq<T>, p: T -> bool, q: T -> bool)
    requires forall x :: p(x) ==> q(x)
    ensures Count(s, p) <= Count(s, q)
  {
    if |s| > 0 {
      CountMonotone(s[..|s| - 1], p, q);
    }
  }

  /** Nothing satisfying `p` counts zero. */
  lemma {:induction false} CountZero<T>(s: seq<T>, p: T -> bool)
    requires forall i :: 0 <= i < |s| ==> !p(s[i])
    ensures Count(s, p) == 0
  {
    if |s| > 0 {
      CountZero(s[..|s| - 1], p);
    }
  }

  /** An element satisfying `p` makes the count positive. */
  lemma {:induction false} CountPositive<T>(s: seq<T>, p: T -> bool, i: nat)
    requires i < |s| && p(s[i])
    ensures Count(s, p) > 0
  {
    if i < |s| - 1 {
      CountPositive(s[..|s| - 1], p, i);
    }
  }

  /** Reordering does not change a count. */
  lemma {:induction false} CountPermutation<T(!new)>(s: seq<T>, t: seq<T>, p: T -> bool)
    requires multiset(s) == multiset(t)
    ensures Count(s, p) == Count(t, p)
  {
    CountIsFilterLength(s, p);
    CountIsFilterLength(t, p);
    assert multiset(Filter(s, p)) == multiset(Filter(t, p));
    assert |Filter(s, p)| == |multiset(Filter(s, p))|;
    assert |Filter(t, p)| == |multiset(Filter(t, p))|;
  }

  /** Counting over a concatenation adds the counts of the parts. */
  lemma {:induction false} CountAppend<T>(s: seq<T>, t: seq<T>, p: T -> bool)
    ensures Count(s + t, p) == Count(s, p) + Count(t, p)
    decreases |t|
  {
    if |t| > 0 {
      assert (s + t)[..|s + t| - 1] == s + t[..|t| - 1];
      CountAppend(s, t[..|t| - 1], p);
    } else {
      assert s + t == s;
    }
  }

  /** The sum of `f` over the elements. */
  function SumOf<T>(s: seq<T>, f: T -> nat): nat {
    if |s| == 0 then 0 else SumOf(s[..|s| - 1], f) + f(s[|s| - 1])
  }

  lemma {:induction false} SumOfAppend<T>(s: seq<T>, t: seq<T>, f: T -> nat)
    ensures SumOf(s + t, f) == SumOf(s, f) + SumOf(t, f)
    decreases |t|
  {
    if |t| > 0 {
      assert (s + t)[..|s + t| - 1] == s + t[..|t| - 1];
      SumOfAppend(s, t[..|t| - 1], f);
    } else {
      assert s + t == s;
    }
  }

  /** Replacing one element changes the sum by the difference. */
  lemma {:induction false} SumOfUpdate<T>(s: seq<T>, i: nat, v: T, f: T -> nat)
    requires i < |s|
    ensures SumOf(s[i := v], f) == SumOf(s, f) - f(s[i]) + f(v)
  {
    assert s == s[..i] + [s[i]] + s[i + 1..];
    assert s[i := v] == s[..i] + [v] + s[i + 1..];
    SumOfAppend(s[..i] + [s[i]], s[i + 1..], f);
    SumOfAppend(s[..i] + [v], s[i + 1..], f);
    SumOfAppend(s[..i], [s[i]], f);
    SumOfAppend(s[..i], [v], f);
  }

  /** Reordering does not change a sum. */
  lemma {:induction false} SumOfPermutation<T>(s: seq<T>, t: seq<T>, f: T -> nat)
    requires multiset(s) == multiset(t)
    ensures SumOf(s, f) == SumOf(t, f)
    decreases |s|
  {
    if |s| > 0 {
      var init, x := s[..|s| - 1], s[|s| - 1];
      assert s == init + [x];
      assert x in multiset(t);
      var k :| 0 <= k < |t| && t[k] == x;
      var rest := t[..k] + t[k + 1..];
      assert t == t[..k] + [x] + t[k + 1..];
      calc {
        multiset(rest) + multiset{x};
        multiset(t[..k]) + multiset(t[k + 1..]) + multiset([x]);
        multiset(t[..k] + [x] + t[k + 1..]);
        multiset(s);
        multiset(init) + multiset{x};
      }
      assert forall y :: multiset(rest)[y] == multiset(init)[y] by {
        forall y ensures multiset(rest)[y] == multiset(init)[y] {
          assert (multiset(rest) + multiset{x})[y] == (multiset(init) + multiset{x})[y];
        }
      }
      assert multiset(rest) == multiset(init);
      SumOfPermutation(init, rest, f);
      SumOfAppend(t[..k] + [x], t[k + 1..], f);
      SumOfAppend(t[..k], [x], f);
      SumOfAppend(t[..k], t[k + 1..], f);
    } else {
      assert |t| == |multiset(t)| == 0;
    }
  }

  /** No element occurs twice. */
  predicate Distinct<T(==)>(s: seq<T>) {
    forall i, j :: 0 <= i < j < |s| ==> s[i] != s[j]
  }

  lemma {:induction false} DistinctIffSingleOccurrences<T>(s: seq<T>)
    ensures Distinct(s) <==> forall x :: multiset(s)[x] <= 1
  {
    if |s| > 0 {
      var init, y := s[..|s| - 1], s[|s| - 1];
      assert s == init + [y];
      DistinctIffSingleOccurrences(init);
      if Distinct(s) {
        assert y !in init;
        assert Distinct(init) by {
          forall i, j | 0 <= i < j < |init| ensures init[i] != init[j] {
            assert s[i] == init[i] && s[j] == init[j];
          }
        }
      }
      if forall x :: multiset(s)[x] <= 1 {
        assert forall x :: multiset(init)[x] <= 1 by {
          forall x ensures multiset(init)[x] <= 1 {
            assert multiset(s)[x] == multiset(init)[x] + multiset([y])[x];
          }
        }
        assert multiset(init)[y] == 0 by {
          assert multiset(s)[y] == multiset(init)[y] + 1;
        }
        forall i, j | 0 <= i < j < |s| ensures s[i] != s[j] {
          if j == |s| - 1 {
            assert s[i] == init[i];
            assert s[i] in init;
          } else {
            assert s[i] == init[i] && s[j] == init[j];
          }
        }
      }
    }
  }

  /** Reordering a sequence cannot create or remove duplicates. */
  lemma {:induction false} DistinctPermutation<T>(s: seq<T>, t: seq<T>)
    requires multiset(s) == multiset(t) && Distinct(s)
    ensures Distinct(t)
  {
    DistinctIffSingleOccurrences(s);
    DistinctIffSingleOccurrences(t);
  }
}
