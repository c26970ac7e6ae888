/** The stake-weighted median of price reports. */
module Median {
  import opened Options
  import opened Bytes
  import opened Sorting

  datatype Report = Report(price: u32, stake: u64)

  const stakeOf: Report -> nat := (r: Report) => r.stake
  const priceOf: Report -> int := (r: Report) => r.price

  function Below(p: int): Report -> nat {
    (r: Report) => if r.price < p then r.stake else 0
  }

  function UpTo(p: int): Report -> nat {
    (r: Report) => if r.price <= p then r.stake else 0
  }

  function Threshold(total: nat): nat {
    (total + 1) / 2
  }

  /** The price at which the cumulative stake reaches half the total: less than half of the
      stake is below it, and at least half is not above it. */
  ghost predicate IsMedian(reports: seq<Report>, p: int) {
    && (exists i :: 0 <= i < |reports| && reports[i].price == p)
    && 2 * Total(reports, Below(p)) < Total(reports, stakeOf) <= 2 * Total(reports, UpTo(p))
  }

  /** In a sorted list the stake before position `i` bounds the stake below its price. */
  lemma BelowBound(s: seq<Report>, p: int, i: nat)
    requires Ascending(s, priceOf) && i < |s| && s[i].price == p
    ensures Total(s, Below(p)) <= Total(s[..i], stakeOf)
  {
    var head, tail := s[..i], s[i..];
    assert s == head + tail;
    forall k | 0 <= k < |tail| ensures Below(p)(tail[k]) == 0 {
      if k > 0 { assert priceOf(s[i]) <= priceOf(s[i + k]); }
    }
    hide Total, Ascending;
    TotalSplit(head, tail, Below(p));
    TotalMonotone(head, Below(p), stakeOf);
    NoWeight(tail, Below(p));
  }

  lemma UpToBound(s: seq<Report>, p: int, i: nat)
    requires Ascending(s, priceOf) && i < |s| && s[i].price == p
    ensures Total(s[..i + 1], stakeOf) <= Total(s, UpTo(p))
  {
    var first, rest := s[..i + 1], s[i + 1..];
    assert s == first + rest;
    forall k | 0 <= k < |first| ensures stakeOf(first[k]) <= UpTo(p)(first[k]) {
      if k < i { assert priceOf(s[k]) <= priceOf(s[i]); }
    }
    hide Total, Ascending;
    TotalSplit(first, rest, UpTo(p));
    TotalMonotone(first, stakeOf, UpTo(p));
  }

  lemma {:induction false} NoWeight(s: seq<Report>, w: Report -> nat)
    requires forall i :: 0 <= i < |s| ==> w(s[i]) == 0
    ensures Total(s, w) == 0
  {
    if |s| > 0 { NoWeight(s[..|s| - 1], w); }
  }

  lemma MedianOfSorted(reports: seq<Report>, sorted: seq<Report>, p: int)
    requires multiset(reports) == multiset(sorted) && IsMedian(sorted, p)
    ensures IsMedian(reports, p)
  {
    TotalPermuted(reports, sorted, Below(p));
    TotalPermuted(reports, sorted, UpTo(p));
    TotalPermuted(reports, sorted, stakeOf);
    var i :| 0 <= i < |sorted| && sorted[i].price == p;
    assert sorted[i] in multiset(reports);
  }

  /** Sorts, walks the cumulative stake, and never falls off the end. */
  method StakeWeightedMedian(reports: seq<Report>) returns (r: Option<u32>)
    ensures r.None? <==> Total(reports, stakeOf) == 0
    ensures r.Some? ==> IsMedian(reports, r.value)
  {
    hide Total, SortBy, Ascending, UpTo, Below;
    var total := 0;
    TotalOfNone(reports);
    for i := 0 to |reports|
      invariant total == Total(reports[..i], stakeOf)
    {
      TotalStep(reports, i, stakeOf);
      total := total + reports[i].stake;
    }
    assert reports[..|reports|] == reports;
    if total == 0 { return None; }
    var sorted := SortBy(reports, priceOf);
    SortAscends(reports, priceOf);
    TotalPermuted(reports, sorted, stakeOf);
    var threshold := Threshold(total);
    var acc := 0;
    TotalOfNone(sorted);
    assert sorted[..|sorted|] == sorted;
    for i := 0 to |sorted|
      invariant acc == Total(sorted[..i], stakeOf) < threshold
    {
      TotalStep(sorted, i, stakeOf);
      acc := acc + sorted[i].stake;
      if acc >= threshold {
        MedianFound(reports, sorted, i);
        return Some(sorted[i].price);
      }
    }
    assert false;
  }

  lemma TotalOfNone(s: seq<Report>)
    ensures Total(s[..0], stakeOf) == 0
  {
  }

  lemma MedianFound(reports: seq<Report>, sorted: seq<Report>, i: nat)
    requires multiset(reports) == multiset(sorted) && Ascending(sorted, priceOf) && i < |sorted|
    requires Total(sorted[..i], stakeOf) < Threshold(Total(sorted, stakeOf)) <= Total(sorted[..i + 1], stakeOf)
    ensures IsMedian(reports, sorted[i].price)
  {
    hide Total, Ascending, UpTo, Below;
    BelowBound(sorted, sorted[i].price, i);
    UpToBound(sorted, sorted[i].price, i);
    MedianOfSorted(reports, sorted, sorted[i].price);
  }

  /** There is one median at most. */
  lemma MedianUnique(reports: seq<Report>, p: int, q: int)
    requires IsMedian(reports, p) && IsMedian(reports, q)
    ensures p == q
  {
    if p < q {
      TotalMonotone(reports, UpTo(p), Below(q));
    } else if q < p {
      TotalMonotone(reports, UpTo(q), Below(p));
    }
  }

  /** The median does not depend on the order of the reports. */
  lemma MedianPermuted(a: seq<Report>, b: seq<Report>, p: int, q: int)
    requires multiset(a) == multiset(b) && IsMedian(a, p) && IsMedian(b, q)
    ensures p == q
  {
    MedianOfSorted(a, b, q);
    MedianUnique(a, p, q);
  }

  /** Robustness: any part of the reports that holds more than half the stake brackets
      the median between its least and its greatest price. */
  lemma MajorityBrackets(reports: seq<Report>, part: seq<Report>, rest: seq<Report>, p: int)
    requires multiset(reports) == multiset(part + rest) && IsMedian(reports, p)
    requires 2 * Total(part, stakeOf) > Total(reports, stakeOf)
    ensures exists i :: 0 <= i < |part| && part[i].price <= p
    ensures exists i :: 0 <= i < |part| && p <= part[i].price
  {
    hide Total;
    TotalPermuted(reports, part + rest, stakeOf);
    TotalPermuted(reports, part + rest, Below(p));
    TotalPermuted(reports, part + rest, UpTo(p));
    TotalSplit(part, rest, stakeOf);
    TotalSplit(part, rest, Below(p));
    TotalSplit(part, rest, UpTo(p));
    if forall i :: 0 <= i < |part| ==> part[i].price > p {
      NoWeight(part, UpTo(p));
      TotalMonotone(rest, UpTo(p), stakeOf);
    }
    if forall i :: 0 <= i < |part| ==> part[i].price < p {
      TotalMonotone(part, stakeOf, Below(p));
    }
  }
}
