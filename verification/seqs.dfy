/** Sequence operations with the semantics of the source languages: an
    order-preserving filter (list comprehension / `Array.filter`), a stable
    sort by key (`list.sort(key=...)`, `Array.sort`), Python's `[:k]` slice
    and `int()` conversion, and sums, counts and means. */
module Seqs {

  // ---------------------------------------------------------------------
  // Filtering

  /** `[x for x in s if p(x)]`: the elements satisfying `p`, in order. */
  function Filter<T>(s: seq<T>, p: T -> bool): (r: seq<T>)
    ensures |r| <= |s|
    ensures forall i :: 0 <= i < |r| ==> p(r[i]) && r[i] in s
    ensures multiset(r) <= multiset(s)
    decreases |s|
  {
    if |s| == 0 then []
    else
      var rest := Filter(s[1..], p);
      assert s == [s[0]] + s[1..];
      if p(s[0]) then [s[0]] + rest else rest
  }

  /** Every element that passes is kept. */
  lemma FilterKeeps<T>(s: seq<T>, p: T -> bool, i: int)
    requires 0 <= i < |s| && p(s[i])
    ensures s[i] in Filter(s, p)
  {
    FilterMultiplicity(s, p, s[i]);
    assert s[i] in multiset(s);
  }

  /** Whatever is drawn from a filter's result passes the filter. */
  lemma DrawnFromFilter<T>(r: seq<T>, s: seq<T>, p: T -> bool)
    requires multiset(r) <= multiset(Filter(s, p))
    ensures forall i :: 0 <= i < |r| ==> p(r[i])
  {
    forall i | 0 <= i < |r| ensures p(r[i]) {
      assert r[i] in multiset(r);
      assert r[i] in Filter(s, p);
    }
  }

  /** One step of the filter: the head is kept exactly when it passes. */
  lemma FilterCons<T>(x: T, s: seq<T>, p: T -> bool)
    ensures Filter([x] + s, p) == if p(x) then [x] + Filter(s, p) else Filter(s, p)
  {
    assert ([x] + s)[1..] == s;
  }

  /** Filtering distributes over concatenation, so the filter keeps the
      input's order. */
  lemma {:induction false} FilterConcat<T>(a: seq<T>, b: seq<T>, p: T -> bool)
    ensures Filter(a + b, p) == Filter(a, p) + Filter(b, p)
    decreases |a|
  {
    if |a| == 0 {
      assert a + b == b;
    } else {
      assert (a + b)[1..] == a[1..] + b;
      FilterConcat(a[1..], b, p);
    }
  }

  /** Each element kept is kept with its full multiplicity. */
  lemma {:induction false} FilterMultiplicity<T>(s: seq<T>, p: T -> bool, x: T)
    ensures multiset(Filter(s, p))[x] == if p(x) then multiset(s)[x] else 0
    decreases |s|
  {
    if |s| > 0 {
      assert s == [s[0]] + s[1..];
      FilterMultiplicity(s[1..], p, x);
    }
  }

  /** A relation holds between every element and each later one. */
  ghost predicate PairwiseBy<T>(s: seq<T>, rel: (T, T) -> bool) {
    forall i, j :: 0 <= i < j < |s| ==> rel(s[i], s[j])
  }

  /** Filtering keeps the relative order of the kept elements, so a relation
      that held between every earlier and later element still holds. */
  lemma {:induction false} FilterPairwise<T>(s: seq<T>, p: T -> bool, rel: (T, T) -> bool)
    requires PairwiseBy(s, rel)
    ensures PairwiseBy(Filter(s, p), rel)
    decreases |s|
  {
    if |s| > 0 {
      var tail := s[1..];
      PairwiseTail(s, rel);
      FilterPairwise(tail, p, rel);
      var rest := Filter(tail, p);
      if p(s[0]) {
        assert Filter(s, p) == [s[0]] + rest;
        forall j | 0 <= j < |rest| ensures rel(s[0], rest[j]) {
          assert rest[j] in tail;
          var k :| 0 <= k < |tail| && tail[k] == rest[j];
          assert s[k + 1] == rest[j];
        }
        PairwiseCons(s[0], rest, rel);
      } else {
        assert Filter(s, p) == rest;
      }
    }
  }

  lemma PairwiseTail<T>(s: seq<T>, rel: (T, T) -> bool)
    requires |s| > 0 && PairwiseBy(s, rel)
    ensures PairwiseBy(s[1..], rel)
  {
    var tail := s[1..];
    forall i, j | 0 <= i < j < |tail| ensures rel(tail[i], tail[j]) {
      assert tail[i] == s[i + 1] && tail[j] == s[j + 1];
    }
  }

  lemma PairwiseCons<T>(x: T, s: seq<T>, rel: (T, T) -> bool)
    requires PairwiseBy(s, rel)
    requires forall j :: 0 <= j < |s| ==> rel(x, s[j])
    ensures PairwiseBy([x] + s, rel)
  {
    var r := [x] + s;
    forall i, j | 0 <= i < j < |r| ensures rel(r[i], r[j]) {
      assert r[j] == s[j - 1];
      if i > 0 {
        assert r[i] == s[i - 1];
      }
    }
  }

  /** Filtering with a predicate that every element satisfies changes nothing. */
  lemma {:induction false} FilterAll<T>(s: seq<T>, p: T -> bool)
    requires forall i :: 0 <= i < |s| ==> p(s[i])
    ensures Filter(s, p) == s
    decreases |s|
  {
    if |s| > 0 {
      assert s == [s[0]] + s[1..];
      FilterAll(s[1..], p);
    }
  }

  // ---------------------------------------------------------------------
  // Sorting

  /** `s` is in ascending order of `key`. */
  ghost predicate SortedBy<T>(s: seq<T>, key: T -> real) {
    forall i, j :: 0 <= i < j < |s| ==> key(s[i]) <= key(s[j])
  }

  /** Inserts `x` in front of the first element whose key is not smaller. */
  function InsertBy<T>(x: T, s: seq<T>, key: T -> real): (r: seq<T>)
    requires SortedBy(s, key)
    ensures SortedBy(r, key)
    ensures multiset(r) == multiset(s) + multiset{x}
    ensures |r| == |s| + 1
    decreases |s|
  {
    if |s| == 0 then [x]
    else if key(x) <= key(s[0]) then [x] + s
    else
      var rest := InsertBy(x, s[1..], key);
      assert s == [s[0]] + s[1..];
      InsertStep(x, s, key, rest);
      [s[0]] + rest
  }

  /** The head of a sorted sequence stays in front when a larger element is
      inserted into its tail. */
  lemma InsertStep<T>(x: T, s: seq<T>, key: T -> real, rest: seq<T>)
    requires SortedBy(s, key) && |s| > 0 && key(s[0]) < key(x)
    requires SortedBy(rest, key)
    requires multiset(rest) == multiset(s[1..]) + multiset{x}
    ensures SortedBy([s[0]] + rest, key)
  {
    forall j | 0 <= j < |rest| ensures key(s[0]) <= key(rest[j]) {
      assert rest[j] in multiset(rest);
      if rest[j] != x {
        assert rest[j] in multiset(s[1..]);
        var k :| 0 <= k < |s[1..]| && s[1..][k] == rest[j];
        assert s[k + 1] == rest[j];
      }
    }
    var t := [s[0]] + rest;
    forall i, j | 0 <= i < j < |t| ensures key(t[i]) <= key(t[j]) {
      if i > 0 {
        assert t[i] == rest[i - 1] && t[j] == rest[j - 1];
      } else {
        assert t[j] == rest[j - 1];
      }
    }
  }

  /** Stable insertion sort: ascending by `key`; elements with equal keys
      keep their input order (as Python's `list.sort` and ECMAScript's
      `Array.prototype.sort` do). */
  function SortBy<T>(s: seq<T>, key: T -> real): (r: seq<T>)
    ensures SortedBy(r, key)
    ensures multiset(r) == multiset(s)
    ensures |r| == |s|
    decreases |s|
  {
    if |s| == 0 then []
    else
      assert s == [s[0]] + s[1..];
      InsertBy(s[0], SortBy(s[1..], key), key)
  }

  /** Sorting a sequence that is already in order changes nothing. */
  lemma {:induction false} SortBySorted<T>(s: seq<T>, key: T -> real)
    requires SortedBy(s, key)
    ensures SortBy(s, key) == s
    decreases |s|
  {
    if |s| > 0 {
      assert SortedBy(s[1..], key);
      SortBySorted(s[1..], key);
      assert s == [s[0]] + s[1..];
    }
  }

  /** An element of a sorted prefix is never above an element of the rest. */
  lemma SortedSplit<T>(s: seq<T>, key: T -> real, n: int, x: T, y: T)
    requires SortedBy(s, key)
    requires 0 <= n <= |s|
    requires x in s[..n] && y in s[n..]
    ensures key(x) <= key(y)
  {
    var i :| 0 <= i < n && s[..n][i] == x;
    var j :| 0 <= j < |s| - n && s[n..][j] == y;
    assert s[i] == x && s[n + j] == y;
  }

  // ---------------------------------------------------------------------
  // Python conversions

  /** Python `int(x)` on a float: truncation towards zero. */
  function TruncToInt(x: real): (n: int)
    ensures x >= 0.0 ==> n as real <= x < n as real + 1.0
    ensures x < 0.0 ==> n as real - 1.0 < x <= n as real
  {
    if x >= 0.0 then x.Floor else -((-x).Floor)
  }

  /** The end index Python uses for `s[:k]` on a sequence of length `len`:
      a negative `k` counts from the end, and the result is clamped to
      0..len. */
  function PySliceEnd(len: nat, k: int): (e: nat)
    ensures e <= len
    ensures 0 <= k <= len ==> e == k
    ensures k > len ==> e == len
    ensures k < 0 ==> e == if len + k > 0 then len + k else 0
  {
    if k >= 0 then (if k < len then k else len)
    else if len + k > 0 then len + k else 0
  }

  /** Python `s[:k]`. */
  function PySliceTo<T>(s: seq<T>, k: int): (r: seq<T>)
    ensures |r| == PySliceEnd(|s|, k)
    ensures r == s[..|r|]
  {
    s[..PySliceEnd(|s|, k)]
  }

  // ---------------------------------------------------------------------
  // Sums, counts and means

  /** `sum(f(x) for x in s)`, accumulated left to right. */
  function SumBy<T>(s: seq<T>, f: T -> real): real
    decreases |s|
  {
    if |s| == 0 then 0.0 else f(s[0]) + SumBy(s[1..], f)
  }

  /** `sum(1 for x in s if p(x))`. */
  function CountBy<T>(s: seq<T>, p: T -> bool): (n: nat)
    ensures n <= |s|
    ensures n == |Filter(s, p)|
    decreases |s|
  {
    if |s| == 0 then 0 else (if p(s[0]) then 1 else 0) + CountBy(s[1..], p)
  }

  /** The arithmetic mean `sum(...) / len(...)` of a non-empty sequence. */
  function MeanBy<T>(s: seq<T>, f: T -> real): real
    requires |s| > 0
  {
    SumBy(s, f) / (|s| as real)
  }

  lemma {:induction false} SumConcat<T>(a: seq<T>, b: seq<T>, f: T -> real)
    ensures SumBy(a + b, f) == SumBy(a, f) + SumBy(b, f)
    decreases |a|
  {
    if |a| == 0 {
      assert a + b == b;
    } else {
      assert (a + b)[1..] == a[1..] + b;
      SumConcat(a[1..], b, f);
    }
  }

  /** Some element is at most the mean: the minimum never exceeds it. */
  lemma {:induction false} SumLowerBound<T>(s: seq<T>, f: T -> real, lo: real)
    requires forall i :: 0 <= i < |s| ==> lo <= f(s[i])
    ensures lo * (|s| as real) <= SumBy(s, f)
    decreases |s|
  {
    if |s| > 0 {
      SumLowerBound(s[1..], f, lo);
    }
  }
}
