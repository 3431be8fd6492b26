/**
 * Sequence tools shared by the data utilities: sums, counting, order-preserving
 * subsequences and the stable sort that `Array.prototype.sort` performs.
 */
module Seqs {

  /** Sum of a sequence of integers. */
  function Sum(xs: seq<int>): int {
    if |xs| == 0 then 0 else Sum(xs[..|xs| - 1]) + xs[|xs| - 1]
  }

  /** Summing a concatenation sums both parts. */
  lemma {:induction false} SumConcat(xs: seq<int>, ys: seq<int>)
    ensures Sum(xs + ys) == Sum(xs) + Sum(ys)
    decreases |ys|
  {
    if |ys| > 0 {
      assert (xs + ys)[..|xs + ys| - 1] == xs + ys[..|ys| - 1];
      SumConcat(xs, ys[..|ys| - 1]);
    } else {
      assert xs + ys == xs;
    }
  }

  /** Summing from the front gives the same total. */
  lemma SumFront(xs: seq<int>)
    requires |xs| > 0
    ensures Sum(xs) == xs[0] + Sum(xs[1..])
  {
    assert xs == [xs[0]] + xs[1..];
    SumConcat([xs[0]], xs[1..]);
  }

  /** `sub` is `xs` with some elements dropped and the rest kept in order. */
  predicate IsSubsequence<T(==)>(sub: seq<T>, xs: seq<T>)
    decreases |xs|
  {
    if |sub| == 0 then true
    else if |xs| == 0 then false
    else if sub[0] == xs[0] then IsSubsequence(sub[1..], xs[1..])
    else IsSubsequence(sub, xs[1..])
  }

  /** A subsequence of the tail is a subsequence of the whole. */
  lemma SubsequenceSkip<T>(sub: seq<T>, xs: seq<T>)
    requires |xs| > 0 && IsSubsequence(sub, xs[1..])
    ensures IsSubsequence(sub, xs)
    decreases |xs|, 0
  {
    if |sub| > 0 && sub[0] == xs[0] {
      SubsequenceTail(sub, xs[1..]);
    }
  }

  /** Dropping the first element of a subsequence keeps it a subsequence. */
  lemma {:induction false} SubsequenceTail<T>(sub: seq<T>, xs: seq<T>)
    requires |sub| > 0 && IsSubsequence(sub, xs)
    ensures IsSubsequence(sub[1..], xs)
    decreases |xs|, 1
  {
    if |xs| > 0 && sub[0] != xs[0] {
      SubsequenceTail(sub, xs[1..]);
      SubsequenceSkip(sub[1..], xs);
    } else if |xs| > 0 {
      SubsequenceSkip(sub[1..], xs);
    }
  }

  /** `ys` is ordered by non-decreasing `key`. */
  ghost predicate SortedBy<T>(ys: seq<T>, key: T -> real) {
    forall i, j :: 0 <= i < j < |ys| ==> key(ys[i]) <= key(ys[j])
  }

  /** Insert `x` before the first element whose key is not below its own. */
  function Insert<T>(x: T, ys: seq<T>, key: T -> real): (r: seq<T>)
    ensures |r| == |ys| + 1
  {
    if |ys| == 0 || key(x) <= key(ys[0]) then [x] + ys
    else [ys[0]] + Insert(x, ys[1..], key)
  }

  /**
   * A stable sort on a numeric key, ascending: elements with equal keys keep
   * their input order, as ECMAScript requires of `Array.prototype.sort`.
   */
  function SortBy<T>(xs: seq<T>, key: T -> real): (ys: seq<T>)
    ensures |ys| == |xs|
  {
    if |xs| == 0 then [] else Insert(xs[0], SortBy(xs[1..], key), key)
  }

  lemma {:induction false} InsertPermutes<T>(x: T, ys: seq<T>, key: T -> real)
    ensures multiset(Insert(x, ys, key)) == multiset(ys) + multiset{x}
    decreases |ys|
  {
    if |ys| > 0 && key(x) > key(ys[0]) {
      InsertPermutes(x, ys[1..], key);
      assert ys == [ys[0]] + ys[1..];
    }
  }

  /** Inserting above a lower bound of the sequence keeps that bound. */
  lemma {:induction false} InsertBounded<T>(x: T, ys: seq<T>, key: T -> real, b: real)
    requires b <= key(x) && forall k :: 0 <= k < |ys| ==> b <= key(ys[k])
    ensures forall k :: 0 <= k < |Insert(x, ys, key)| ==> b <= key(Insert(x, ys, key)[k])
    decreases |ys|
  {
    if |ys| > 0 && key(x) > key(ys[0]) {
      InsertBounded(x, ys[1..], key, b);
    }
  }

  lemma {:induction false} InsertSorted<T>(x: T, ys: seq<T>, key: T -> real)
    requires SortedBy(ys, key)
    ensures SortedBy(Insert(x, ys, key), key)
    decreases |ys|
  {
    if |ys| > 0 && key(x) > key(ys[0]) {
      var rest := Insert(x, ys[1..], key);
      assert SortedBy(ys[1..], key);
      InsertSorted(x, ys[1..], key);
      InsertBounded(x, ys[1..], key, key(ys[0]));
      var r := Insert(x, ys, key);
      assert r == [ys[0]] + rest;
      forall i, j | 0 <= i < j < |r| ensures key(r[i]) <= key(r[j]) {
        if i > 0 {
          assert r[i] == rest[i - 1] && r[j] == rest[j - 1];
        } else {
          assert r[j] == rest[j - 1];
        }
      }
    }
  }

  /** The sort returns a permutation of its input. */
  lemma {:induction false} SortByPermutes<T>(xs: seq<T>, key: T -> real)
    ensures multiset(SortBy(xs, key)) == multiset(xs)
    decreases |xs|
  {
    if |xs| > 0 {
      SortByPermutes(xs[1..], key);
      InsertPermutes(xs[0], SortBy(xs[1..], key), key);
      assert xs == [xs[0]] + xs[1..];
    }
  }

  /** The sort orders its result by the key. */
  lemma {:induction false} SortBySorted<T>(xs: seq<T>, key: T -> real)
    ensures SortedBy(SortBy(xs, key), key)
    decreases |xs|
  {
    if |xs| > 0 {
      SortBySorted(xs[1..], key);
      InsertSorted(xs[0], SortBy(xs[1..], key), key);
    }
  }

  /** The first element of the sorted sequence has the least key of the input. */
  lemma SortByFirstIsMin<T>(xs: seq<T>, key: T -> real)
    requires |xs| > 0
    ensures SortBy(xs, key)[0] in multiset(xs)
    ensures forall x :: x in multiset(xs) ==> key(SortBy(xs, key)[0]) <= key(x)
  {
    SortBySorted(xs, key);
    SortByPermutes(xs, key);
    var ys := SortBy(xs, key);
    assert ys[0] in multiset(ys);
    forall x | x in multiset(xs) ensures key(ys[0]) <= key(x) {
      assert x in multiset(ys);
      var m :| 0 <= m < |ys| && ys[m] == x;
      if m > 0 {
        assert key(ys[0]) <= key(ys[m]);
      }
    }
  }

  /** The last element of the sorted sequence has the greatest key of the input. */
  lemma SortByLastIsMax<T>(xs: seq<T>, key: T -> real)
    requires |xs| > 0
    ensures SortBy(xs, key)[|xs| - 1] in multiset(xs)
    ensures forall x :: x in multiset(xs) ==> key(x) <= key(SortBy(xs, key)[|xs| - 1])
  {
    SortBySorted(xs, key);
    SortByPermutes(xs, key);
    var ys := SortBy(xs, key);
    var n := |ys| - 1;
    assert ys[n] in multiset(ys);
    forall x | x in multiset(xs) ensures key(x) <= key(ys[n]) {
      assert x in multiset(ys);
      var m :| 0 <= m < |ys| && ys[m] == x;
      if m < n {
        assert key(ys[m]) <= key(ys[n]);
      }
    }
  }
}
