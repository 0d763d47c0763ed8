/** The send-latency histogram: one counter per bound, incremented for the first bound that covers a value,
    and rendered as running totals. */
module Histogram {
  import opened Common

  /** How many of the observed values lie in (lo, hi]. */
  function CountIn(values: seq<nat>, lo: int, hi: int): (n: nat)
    ensures n <= |values|
  {
    if values == [] then 0
    else CountIn(values[..|values| - 1], lo, hi) + if lo < values[|values| - 1] <= hi then 1 else 0
  }

  function CountAtMost(values: seq<nat>, bound: int): (n: nat)
    ensures n <= |values|
  {
    CountIn(values, -1, bound)
  }

  function Sum(values: seq<nat>): nat {
    if values == [] then 0 else Sum(values[..|values| - 1]) + values[|values| - 1]
  }

  /** The bound below bucket i; the first bucket is open towards zero. */
  function Below(bounds: seq<nat>, i: nat): int
    requires i < |bounds|
  {
    if i == 0 then -1 else bounds[i - 1]
  }

  lemma {:induction false} CountSplits(values: seq<nat>, lo: int, mid: int, hi: int)
    requires lo <= mid <= hi
    ensures CountIn(values, lo, hi) == CountIn(values, lo, mid) + CountIn(values, mid, hi)
  {
    if values != [] {
      CountSplits(values[..|values| - 1], lo, mid, hi);
    }
  }

  lemma CountsSnoc(values: seq<nat>, v: nat)
    ensures forall lo, hi :: CountIn(values + [v], lo, hi) == CountIn(values, lo, hi) + if lo < v <= hi then 1 else 0
    ensures Sum(values + [v]) == Sum(values) + v
  {
    assert (values + [v])[..|values|] == values;
  }

  class ChatMetrics {
    const histBuckets: seq<nat> := [5, 10, 20, 50, 100, 200, 500, 1000]
    var histBucketCounts: seq<nat>
    var histSum: nat
    var histCount: nat
    ghost var observed: seq<nat>

    /** Each counter holds the number of observed values above the bound before it and within its own. */
    ghost predicate Valid()
      reads this
    {
      && |histBucketCounts| == |histBuckets|
      && (forall i | 0 <= i < |histBuckets| :: histBucketCounts[i] == CountIn(observed, Below(histBuckets, i), histBuckets[i]))
      && histCount == |observed|
      && histSum == Sum(observed) % TWO_POW_64
    }

    constructor ()
      ensures Valid() && observed == []
    {
      histBucketCounts, histSum, histCount, observed := seq(8, _ => 0), 0, 0, [];
    }

    /** The loop: the first bucket whose bound covers the value is incremented, if there is one. */
    method CountInBucket(valueMs: nat)
      modifies this`histBucketCounts
      requires |histBucketCounts| == |histBuckets|
      ensures |histBucketCounts| == |histBuckets|
      ensures forall k | 0 <= k < |histBuckets| :: histBucketCounts[k] == old(histBucketCounts)[k]
                + if Below(histBuckets, k) < valueMs <= histBuckets[k] then 1 else 0
    {
      var i := 0;
      while i < |histBuckets|
        invariant 0 <= i <= |histBuckets| && histBucketCounts == old(histBucketCounts)
        invariant forall k | 0 <= k < i :: valueMs > histBuckets[k]
      {
        if valueMs <= histBuckets[i] {
          histBucketCounts := histBucketCounts[i := histBucketCounts[i] + 1];
          break;
        }
        i := i + 1;
      }
    }

    method ObserveMsgSendLatencyMs(valueMs: nat)
      requires Valid()
      modifies this
      ensures Valid() && observed == old(observed) + [valueMs]
    {
      CountInBucket(valueMs);
      CountsSnoc(observed, valueMs);
      observed := observed + [valueMs];
      histSum := (histSum + valueMs) % TWO_POW_64;
      histCount := histCount + 1;
    }

    /** The histogram lines: for each bound the number of observed values not above it, whatever was
        observed and in whatever order; then the +Inf count, the number of observations, and the sum as a
        64-bit counter. The counts never decrease and never exceed the +Inf count. */
    method RenderHistogram() returns (cumulative: seq<nat>, inf: nat, sum: nat)
      requires Valid()
      ensures histBuckets == [5, 10, 20, 50, 100, 200, 500, 1000] && |cumulative| == |histBuckets|
      ensures forall i | 0 <= i < |cumulative| :: cumulative[i] == CountAtMost(observed, histBuckets[i])
      ensures forall i, j | 0 <= i <= j < |cumulative| :: cumulative[i] <= cumulative[j] <= inf
      ensures inf == |observed| && sum == Sum(observed) % TWO_POW_64
    {
      cumulative := [];
      var total := 0;
      var i := 0;
      while i < |histBuckets|
        invariant 0 <= i <= |histBuckets| && |cumulative| == i
        invariant total == if i == 0 then 0 else CountAtMost(observed, histBuckets[i - 1])
        invariant forall k | 0 <= k < i :: cumulative[k] == CountAtMost(observed, histBuckets[k])
        invariant forall k | 0 <= k < i :: cumulative[k] <= total
        invariant forall k, l | 0 <= k <= l < i :: cumulative[k] <= cumulative[l]
      {
        CountSplits(observed, -1, Below(histBuckets, i), histBuckets[i]);
        EmptyRange(observed);
        total := total + histBucketCounts[i];
        cumulative := cumulative + [total];
        i := i + 1;
      }
      inf, sum := histCount, histSum;
    }
  }

  lemma EmptyRange(values: seq<nat>)
    ensures CountIn(values, -1, -1) == 0
  {
  }
}
