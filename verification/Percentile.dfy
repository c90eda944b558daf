/**
 `percentile_from_buckets` of crates/neomacs-diagnostics/src/metrics.rs against
 the nearest-rank percentile of the samples behind the histogram. Arithmetic on
 the quantile is exact.
 */
module Percentile {

  const U64_MAX: nat := 0xFFFF_FFFF_FFFF_FFFF

  /** The sum of the first `k` buckets. */
  function Cumulative(buckets: seq<nat>, k: nat): nat
    requires k <= |buckets|
  {
    if k == 0 then 0 else Cumulative(buckets, k - 1) + buckets[k - 1]
  }

  function Total(buckets: seq<nat>): nat { Cumulative(buckets, |buckets|) }

  function Ceil(x: real): int { -((-x).Floor) }

  /** `((total as f64) * q).ceil() as u64`, a saturating cast. */
  function Target(total: nat, q: real): nat { AsU64(Ceil(total as real * q)) }

  function AsU64(c: int): nat { if c < 0 then 0 else if c > U64_MAX then U64_MAX else c }

  function Get(bounds: seq<nat>, i: int): nat { if 0 <= i < |bounds| then bounds[i] else 0 }

  /** What is reported for bucket `i`: its bound, or "at least" the bound before
      it when it is unbounded. */
  function Reported(bounds: seq<nat>, i: nat): nat
  {
    if Get(bounds, i) != U64_MAX then Get(bounds, i)
    else if Get(bounds, i - 1) != U64_MAX then Get(bounds, i - 1) else 0
  }

  /** Bucket `i` is the first whose running sum reaches the target. */
  predicate Selected(buckets: seq<nat>, target: nat, i: nat)
  {
    i < |buckets| && Cumulative(buckets, i + 1) >= target
    && forall k :: 1 <= k <= i ==> Cumulative(buckets, k) < target
  }

  /** `r` is what is reported for the bucket the target selects, or 0 when the
      samples never reach it. */
  ghost predicate Reports(buckets: seq<nat>, bounds: seq<nat>, target: nat, r: nat)
  {
    if target <= Total(buckets) then exists i :: Selected(buckets, target, i) && r == Reported(bounds, i) else r == 0
  }

  /** The scan for the first bucket that reaches the target. */
  method Scan(buckets: seq<nat>, bounds: seq<nat>, target: nat) returns (r: nat)
    requires buckets != []
    ensures Reports(buckets, bounds, target, r)
  {
    var cum := 0;
    for i := 0 to |buckets|
      invariant cum == Cumulative(buckets, i)
      invariant forall k :: 1 <= k <= i ==> Cumulative(buckets, k) < target
    {
      cum := cum + buckets[i];
      if cum >= target {
        CumulativeMonotone(buckets, i + 1, |buckets|);
        assert Selected(buckets, target, i);
        return Reported(bounds, i);
      }
    }
    return 0;
  }

  /** `percentile_from_buckets`. */
  method PercentileFromBuckets(buckets: seq<nat>, bounds: seq<nat>, q: real) returns (r: nat)
    ensures if Total(buckets) == 0 then r == 0 else Reports(buckets, bounds, Target(Total(buckets), q), r)
  {
    var total := 0;
    for i := 0 to |buckets|
      invariant total == Cumulative(buckets, i)
    {
      total := total + buckets[i];
    }
    if total == 0 { return 0; }
    r := Scan(buckets, bounds, Target(total, q));
  }

  lemma {:induction false} CumulativeMonotone(buckets: seq<nat>, j: nat, k: nat)
    requires j <= k <= |buckets|
    ensures Cumulative(buckets, j) <= Cumulative(buckets, k)
  {
    if j < k { CumulativeMonotone(buckets, j, k - 1); }
  }

  // ------------------------------------------------------------- the quantile

  lemma {:induction false} CeilAtMost(x: real, n: int)
    ensures Ceil(x) <= n <==> x <= n as real
  {
  }

  lemma {:induction false} ScaledAtMost(t: real, q: real, x: real)
    requires t > 0.0 && x == t * q
    ensures x <= t <==> q <= 1.0
  {
    if q <= 1.0 { assert t * q <= t * 1.0; } else { assert t * q > t * 1.0; }
  }

  /** With samples, the scan falls through to 0 exactly for quantiles above 1,
      unless the count saturates the cast. */
  lemma {:induction false} ScanReturnsExactlyUpToOne(total: nat, q: real)
    requires 0 < total <= U64_MAX
    ensures Target(total, q) <= total <==> q <= 1.0 || total == U64_MAX
  {
    var x := total as real * q;
    ScaledAtMost(total as real, q, x);
    ScaledTarget(total, q, x);
  }

  lemma {:induction false} ScaledTarget(total: nat, q: real, x: real)
    requires 0 < total <= U64_MAX
    requires x <= total as real <==> q <= 1.0
    ensures AsU64(Ceil(x)) <= total <==> q <= 1.0 || total == U64_MAX
  {
    CeilAtMost(x, total);
  }

  lemma {:induction false} TargetMonotone(total: nat, q: real, p: real)
    requires q <= p
    ensures Target(total, q) <= Target(total, p)
  {
    assert total as real * q <= total as real * p;
  }

  lemma {:induction false} TargetPositive(total: nat, q: real)
    requires 0 < total && 0.0 < q
    ensures Target(total, q) >= 1
  {
    assert total as real * q > 0.0;
  }

  // --------------------------------------------------------------- histograms

  ghost predicate Increasing(bounds: seq<nat>)
  {
    forall i, j :: 0 <= i < j < |bounds| ==> bounds[i] < bounds[j]
  }

  predicate InBucket(bounds: seq<nat>, i: nat, x: nat)
    requires i < |bounds|
  {
    x <= bounds[i] && (i > 0 ==> bounds[i - 1] < x)
  }

  function CountIn(samples: seq<nat>, bounds: seq<nat>, i: nat): nat
    requires i < |bounds|
  {
    if samples == [] then 0
    else CountIn(samples[..|samples| - 1], bounds, i)
         + (if InBucket(bounds, i, samples[|samples| - 1]) then 1 else 0)
  }

  function CountUpTo(samples: seq<nat>, b: nat): nat
  {
    if samples == [] then 0
    else CountUpTo(samples[..|samples| - 1], b) + (if samples[|samples| - 1] <= b then 1 else 0)
  }

  ghost predicate SortedSamples(samples: seq<nat>)
  {
    forall i, j :: 0 <= i < j < |samples| ==> samples[i] <= samples[j]
  }

  /** `buckets` is the histogram of the sorted `samples`. */
  ghost predicate Histogram(samples: seq<nat>, buckets: seq<nat>, bounds: seq<nat>)
  {
    && |buckets| == |bounds| >= 1 && Increasing(bounds) && SortedSamples(samples)
    && (forall k :: 0 <= k < |samples| ==> samples[k] <= bounds[|bounds| - 1])
    && (forall i :: 0 <= i < |bounds| ==> buckets[i] == CountIn(samples, bounds, i))
  }

  lemma {:induction false} CountStep(samples: seq<nat>, bounds: seq<nat>, i: nat)
    requires Increasing(bounds) && i < |bounds|
    ensures CountUpTo(samples, bounds[i])
         == (if i == 0 then 0 else CountUpTo(samples, bounds[i - 1])) + CountIn(samples, bounds, i)
  {
    if samples != [] { CountStep(samples[..|samples| - 1], bounds, i); }
  }

  lemma {:induction false} CumulativeCounts(samples: seq<nat>, buckets: seq<nat>, bounds: seq<nat>, k: nat)
    requires Histogram(samples, buckets, bounds) && k < |bounds|
    ensures Cumulative(buckets, k + 1) == CountUpTo(samples, bounds[k])
  {
    CountStep(samples, bounds, k);
    if k > 0 { CumulativeCounts(samples, buckets, bounds, k - 1); }
  }

  /** In sorted order, the samples up to `b` are the first so many. */
  lemma {:induction false} CountSplits(samples: seq<nat>, b: nat, j: nat)
    requires SortedSamples(samples) && j < |samples|
    ensures CountUpTo(samples, b) <= |samples|
    ensures samples[j] <= b <==> j < CountUpTo(samples, b)
  {
    var init, last := samples[..|samples| - 1], samples[|samples| - 1];
    if j < |init| {
      CountSplits(init, b, j);
      if last <= b { CountAll(samples, b); }
    } else {
      if init != [] { CountSplits(init, b, |init| - 1); }
      if last <= b { CountAll(samples, b); }
    }
  }

  lemma {:induction false} CountAll(samples: seq<nat>, b: nat)
    requires forall k :: 0 <= k < |samples| ==> samples[k] <= b
    ensures CountUpTo(samples, b) == |samples|
  {
    if samples != [] { CountAll(samples[..|samples| - 1], b); }
  }

  lemma {:induction false} TotalIsCount(samples: seq<nat>, buckets: seq<nat>, bounds: seq<nat>)
    requires Histogram(samples, buckets, bounds)
    ensures Total(buckets) == |samples|
  {
    CumulativeCounts(samples, buckets, bounds, |bounds| - 1);
    CountAll(samples, bounds[|bounds| - 1]);
  }

  /** The selected bucket holds the nearest-rank element of the sorted samples:
      the one at position ceil(n * q), counting from one. */
  lemma {:induction false} SelectsNearestRank(samples: seq<nat>, buckets: seq<nat>, bounds: seq<nat>, q: real, i: nat)
    requires Histogram(samples, buckets, bounds) && 0 < |samples| <= U64_MAX && 0.0 < q <= 1.0
    requires Selected(buckets, Target(|samples|, q), i)
    ensures var rank := Target(|samples|, q);
      rank == Ceil(|samples| as real * q) && 1 <= rank <= |samples| && InBucket(bounds, i, samples[rank - 1])
  {
    var rank := Target(|samples|, q);
    TotalIsCount(samples, buckets, bounds);
    ScanReturnsExactlyUpToOne(|samples|, q);
    TargetPositive(|samples|, q);
    CumulativeCounts(samples, buckets, bounds, i);
    CountSplits(samples, bounds[i], rank - 1);
    if i > 0 {
      CumulativeCounts(samples, buckets, bounds, i - 1);
      assert Cumulative(buckets, i) < rank;
      CountSplits(samples, bounds[i - 1], rank - 1);
    }
  }

  /** A quantile of zero or less selects the first bucket, whatever it holds. */
  lemma {:induction false} NonPositiveQuantile(buckets: seq<nat>, q: real, i: nat)
    requires q <= 0.0 && Selected(buckets, Target(Total(buckets), q), i)
    ensures i == 0
  {
    assert i > 0 ==> Cumulative(buckets, 1) < Target(Total(buckets), q);
    assert Total(buckets) as real * q <= 0.0;
    CeilAtMost(Total(buckets) as real * q, 0);
  }

  /** The reported value never goes down as the quantile goes up. */
  lemma {:induction false} ReportedMonotone(buckets: seq<nat>, bounds: seq<nat>, q: real, p: real, i: nat, j: nat)
    requires |buckets| == |bounds| && Increasing(bounds) && q <= p
    requires Selected(buckets, Target(Total(buckets), q), i) && Selected(buckets, Target(Total(buckets), p), j)
    ensures i <= j && Reported(bounds, i) <= Reported(bounds, j)
  {
    assert j < i ==> Cumulative(buckets, j + 1) < Target(Total(buckets), q);
    TargetMonotone(Total(buckets), q, p);
  }

  /** What is reported brackets the nearest-rank sample: it is the bound of the sample's
      own bucket, or for the unbounded last bucket the bound below, which the sample
      exceeds; 0 where there is no bound below. */
  lemma {:induction false} ReportedBrackets(samples: seq<nat>, buckets: seq<nat>, bounds: seq<nat>, q: real, i: nat)
    requires Histogram(samples, buckets, bounds) && 0 < |samples| <= U64_MAX && 0.0 < q <= 1.0
    requires Selected(buckets, Target(|samples|, q), i) && bounds[|bounds| - 1] == U64_MAX
    ensures 1 <= Ceil(|samples| as real * q) <= |samples|
    ensures var x, r := samples[Ceil(|samples| as real * q) - 1], Reported(bounds, i);
      if i < |bounds| - 1 then x <= r && r == bounds[i] && (i > 0 ==> bounds[i - 1] < x)
      else if i > 0 then r < x && r == bounds[i - 1] else r == 0
  {
    SelectsNearestRank(samples, buckets, bounds, q, i);
    assert i < |bounds| - 1 ==> bounds[i] < bounds[|bounds| - 1];
    assert i > 0 ==> bounds[i - 1] < bounds[i];
  }

  /** A bucket without a bound, or without a finite one below it, reports 0. */
  lemma {:induction false} ReportedWithoutBound(bounds: seq<nat>, i: nat)
    ensures i >= |bounds| ==> Reported(bounds, i) == 0
    ensures i < |bounds| && bounds[i] == U64_MAX && (i == 0 || bounds[i - 1] == U64_MAX) ==> Reported(bounds, i) == 0
  {
  }
}
