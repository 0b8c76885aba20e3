// The percentile of a list of latencies.

module Percentile {
  import opened Sorting
  import opened Rounding

  predicate AtMost(x: real, y: real) {
    x <= y
  }

  /** The rounded index, before it is clamped into the list. */
  function RawIndex(n: int, percentile: int): int {
    HalfEven(percentile * (n - 1), 100)
  }

  /** `_percentile`. */
  function Percentile(values: seq<real>, percentile: int): (r: real)
    ensures values == [] ==> r == 0.0
  {
    if values == [] then 0.0
    else
      var ordered := SortBy(values, AtMost);
      SortedSize(values);
      var last := |ordered| - 1;
      var index := RawIndex(|ordered|, percentile);
      var clamped := if index > last then last else if index < 0 then 0 else index;
      ordered[clamped]
  }

  lemma SortedSize(values: seq<real>)
    ensures |SortBy(values, AtMost)| == |values|
  {
    SortByPermutes(values, AtMost);
  }

  /** For a percentage the index is in the list without the clamp: one nearest to p% of the way, the even one of two. */
  lemma IndexInRange(n: int, percentile: int)
    requires n > 0 && 0 <= percentile <= 100
    ensures 0 <= RawIndex(n, percentile) < n
    ensures -50 <= 100 * RawIndex(n, percentile) - percentile * (n - 1) <= 50
    ensures 100 * RawIndex(n, percentile) - percentile * (n - 1) in {-50, 50} ==> RawIndex(n, percentile) % 2 == 0
    ensures RawIndex(n, 0) == 0 && RawIndex(n, 100) == n - 1
  {
    HalfEvenExact(0, 100);
    HalfEvenExact(n - 1, 100);
    IndexMonotone(n, 0, percentile);
    IndexMonotone(n, percentile, 100);
    HalfEvenNearest(percentile * (n - 1), 100);
  }

  lemma IndexMonotone(n: int, p: int, q: int)
    requires n > 0 && p <= q
    ensures RawIndex(n, p) <= RawIndex(n, q)
  {
    TimesMonotone(p, q, n - 1);
    HalfEvenMonotone(p * (n - 1), q * (n - 1), 100);
  }

  lemma TimesMonotone(p: int, q: int, m: int)
    requires p <= q && m >= 0
    ensures p * m <= q * m
  {
    if m > 0 {
      LeMul(m, p, q);
    }
  }

  /** It is the order statistic: whatever way the values are put in order, it stands at the index. */
  lemma PercentileIsOrderStatistic(values: seq<real>, percentile: int, ordered: seq<real>)
    requires values != [] && 0 <= percentile <= 100
    requires Sorted(ordered, AtMost) && multiset(ordered) == multiset(values)
    ensures |ordered| == |values| && 0 <= RawIndex(|values|, percentile) < |values|
    ensures Percentile(values, percentile) == ordered[RawIndex(|values|, percentile)]
  {
    SortByPermutes(values, AtMost);
    SortBySorted(values, AtMost);
    SortedUnique(SortBy(values, AtMost), ordered, AtMost);
    IndexInRange(|values|, percentile);
  }

  /** It is one of the values, none of which lies outside the 0th and the 100th percentile. */
  lemma PercentileIsMember(values: seq<real>, percentile: int, v: real)
    requires 0 <= percentile <= 100 && v in values
    ensures Percentile(values, percentile) in values
    ensures Percentile(values, 0) <= v <= Percentile(values, 100)
  {
    var ordered := SortBy(values, AtMost);
    SortByPermutes(values, AtMost);
    SortBySorted(values, AtMost);
    SameMembers(ordered, values);
    PercentileIsOrderStatistic(values, percentile, ordered);
    PercentileIsOrderStatistic(values, 0, ordered);
    PercentileIsOrderStatistic(values, 100, ordered);
    IndexInRange(|values|, percentile);
    var k :| 0 <= k < |ordered| && ordered[k] == v;
    assert AtMost(ordered[k], ordered[k]);
  }

  /** A higher percentage never gives a lower value; beyond 0 and 100 the clamp keeps this true. */
  lemma PercentileMonotone(values: seq<real>, p: int, q: int)
    requires p <= q
    ensures Percentile(values, p) <= Percentile(values, q)
  {
    if values != [] {
      SortByPermutes(values, AtMost);
      SortBySorted(values, AtMost);
      IndexMonotone(|values|, p, q);
    }
  }

  /** The order of the values does not matter. */
  lemma PercentileIgnoresOrder(a: seq<real>, b: seq<real>, percentile: int)
    requires multiset(a) == multiset(b)
    ensures Percentile(a, percentile) == Percentile(b, percentile)
  {
    SortByPermutes(a, AtMost);
    SortBySorted(a, AtMost);
    SortByPermutes(b, AtMost);
    SortBySorted(b, AtMost);
    SameMembers(a, b);
    SortedUnique(SortBy(a, AtMost), SortBy(b, AtMost), AtMost);
  }
}
