/** The price-ranked selection shared by the scheduler and the rate client:
    sort by price, keep a Python-sliced prefix, and remember what was left
    out. */
module Selection {
  import opened Seqs
  import opened Rates

  /** `sorted(s, key=lambda x: x['value_inc_vat'])` */
  function ByPrice(s: seq<Rate>): (r: seq<Rate>)
    ensures SortedBy(r, PriceOf) && multiset(r) == multiset(s) && |r| == |s|
  {
    SortBy(s, PriceOf)
  }

  /** `sorted(s, key=lambda x: x['valid_from'])` */
  function ByStart(s: seq<Rate>): (r: seq<Rate>)
    ensures SortedBy(r, StartOf) && multiset(r) == multiset(s) && |r| == |s|
  {
    SortBy(s, StartOf)
  }

  /** What `Cheapest(s, k)` leaves out: the dearer end of the price order. */
  function Passed(s: seq<Rate>, k: int): seq<Rate> {
    ByPrice(s)[PySliceEnd(|s|, k)..]
  }

  /** `sorted(s, key=price)[:k]`: the `k` cheapest rates (with Python's
      reading of a negative `k`), cheapest first. `CheapestSplit` adds that
      together with `Passed` they make up `s` and that no rate left out is
      cheaper than one taken. */
  function Cheapest(s: seq<Rate>, k: int): (r: seq<Rate>)
    ensures |r| == PySliceEnd(|s|, k)
    ensures multiset(r) <= multiset(s)
  {
    var sorted := ByPrice(s);
    var n := PySliceEnd(|s|, k);
    PrefixSplit(sorted, n);
    sorted[..n]
  }

  /** The selection is a price-ordered prefix: what it leaves out is the
      rest of the input and is nowhere cheaper. */
  lemma CheapestSplit(s: seq<Rate>, k: int)
    ensures SortedBy(Cheapest(s, k), PriceOf)
    ensures multiset(Cheapest(s, k)) + multiset(Passed(s, k)) == multiset(s)
    ensures forall i, j :: 0 <= i < |Cheapest(s, k)| && 0 <= j < |Passed(s, k)| ==>
      Cheapest(s, k)[i].price <= Passed(s, k)[j].price
  {
    PrefixSplit(ByPrice(s), PySliceEnd(|s|, k));
  }

  /** Cutting a price-sorted sequence splits it into a sorted prefix and a
      suffix that is nowhere cheaper. */
  lemma PrefixSplit(sorted: seq<Rate>, n: nat)
    requires SortedBy(sorted, PriceOf) && n <= |sorted|
    ensures SortedBy(sorted[..n], PriceOf)
    ensures multiset(sorted[..n]) + multiset(sorted[n..]) == multiset(sorted)
    ensures forall i, j :: 0 <= i < n && 0 <= j < |sorted| - n ==> sorted[..n][i].price <= sorted[n..][j].price
  {
    assert sorted == sorted[..n] + sorted[n..];
    forall i, j | 0 <= i < n && 0 <= j < |sorted| - n ensures sorted[..n][i].price <= sorted[n..][j].price {
      assert sorted[..n][i] == sorted[i] && sorted[n..][j] == sorted[n + j];
      assert PriceOf(sorted[i]) <= PriceOf(sorted[n + j]);
    }
  }

  /** Every rate taken is a rate of the input. */
  lemma CheapestFromInput(s: seq<Rate>, k: int, i: int)
    requires 0 <= i < |Cheapest(s, k)|
    ensures Cheapest(s, k)[i] in s
  {
    var r := Cheapest(s, k);
    assert r[i] in multiset(r);
  }

  /** A rate left out of `Cheapest(s, k)` (at least one of its occurrences)
      is no cheaper than any rate taken. */
  lemma LeftOutIsDearer(s: seq<Rate>, k: int, x: Rate, y: Rate)
    requires multiset(Cheapest(s, k))[x] < multiset(s)[x]
    requires y in Cheapest(s, k)
    ensures y.price <= x.price
  {
    CheapestSplit(s, k);
    var passed := Passed(s, k);
    assert x in multiset(passed);
    var j :| 0 <= j < |passed| && passed[j] == x;
    var i :| 0 <= i < |Cheapest(s, k)| && Cheapest(s, k)[i] == y;
  }
}
