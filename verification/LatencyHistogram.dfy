/** The histogram as the source writes it, each call running on its own. */
module LatencyHistogram {
  import opened Wrappers
  import opened Bits
  import opened Sums
  import opened Latency

  class LatencyHistogram {
    var buckets: array<nat>
    var count: nat
    var sum: nat
    var min: nat
    var max: nat

    /** Everything recorded since creation or the last reset. */
    ghost var samples: seq<nat>

    ghost predicate Valid()
      reads this, buckets
    {
      && buckets.Length == NUM_BUCKETS
      && (forall b :: 0 <= b < NUM_BUCKETS ==> buckets[b] == CountIn(samples, b))
      && count == |samples|
      && sum == Total(samples) % WORD_MODULUS
      && min == MinOf(samples)
      && max == MaxOf(samples)
    }

    constructor ()
      ensures Valid() && fresh(buckets) && samples == []
    {
      buckets := new nat[NUM_BUCKETS](_ => 0);
      count, sum, min, max := 0, 0, U64_MAX, 0;
      samples := [];
    }

    /**
     * Records a sample. The two exchange loops may fail spuriously, and do so as often as the
     * caller says.
     */
    method Record(latencyNs: u64, spuriousMin: nat, spuriousMax: nat)
      requires Valid()
      modifies this, buckets
      ensures Valid() && buckets == old(buckets)
      ensures samples == old(samples) + [latencyNs]
    {
      ghost var after := samples + [latencyNs];
      assert after[..|samples|] == samples;
      var bucket := BucketFor(latencyNs);
      buckets[bucket] := buckets[bucket] + 1;
      count := count + 1;
      ModAdd(Total(samples), latencyNs, WORD_MODULUS);
      sum := (sum + latencyNs) % WORD_MODULUS;

      var failures := spuriousMin;
      var current := min;
      while latencyNs < current
        invariant current == min
        invariant min == MinOf(samples) || (min == latencyNs && latencyNs < MinOf(samples))
        decreases failures, current
      {
        if failures > 0 {
          failures := failures - 1;
          current := min;
        } else {
          min := latencyNs;
          break;
        }
      }

      failures := spuriousMax;
      current := max;
      while latencyNs > current
        invariant current == max == MaxOf(samples)
        decreases failures
      {
        if failures > 0 {
          failures := failures - 1;
          current := max;
        } else {
          max := latencyNs;
          break;
        }
      }
      samples := after;
    }

    method MinValue() returns (r: Option<nat>)
      requires Valid()
      ensures r == if MinOf(samples) == U64_MAX then None else Some(MinOf(samples))
    {
      r := if min == U64_MAX then None else Some(min);
    }

    method MaxValue() returns (r: Option<nat>)
      requires Valid()
      ensures r == if samples == [] then None else Some(MaxOf(samples))
    {
      r := if max == 0 && count == 0 then None else Some(max);
    }

    /** Scans the buckets; the loop always returns before it runs out of them. */
    method Percentile(p: real) returns (r: nat)
      requires Valid() && 0.0 <= p <= 1.0
      ensures r == Latency.Percentile(samples, p)
      ensures samples == [] || p == 0.0 ==> r == 0
      ensures p > 0.0 ==> forall v :: IsQuantile(samples, p, v) ==> r == Representative(v)
    {
      PercentileMeans(samples, p);
      if count == 0 {
        return 0;
      }
      var target := Target(count, p);
      var cumulative := 0;
      r := LatencyForBucket(NUM_BUCKETS - 1);  // the value behind the loop, never reached
      for i := 0 to NUM_BUCKETS
        invariant cumulative == if i == 0 then 0 else CountUpTo(samples, i - 1)
        invariant i == NUM_BUCKETS ==> cumulative < target
        invariant i < NUM_BUCKETS ==> FirstBucket(samples, target, 0) == FirstBucket(samples, target, i)
      {
        CountUpToStep(samples, i);
        cumulative := cumulative + buckets[i];
        if cumulative >= target {
          return LatencyForBucket(i);
        }
      }
      CountUpToAll(samples, NUM_BUCKETS - 1);
      assert false;
    }

    method Reset()
      requires Valid()
      modifies this, buckets
      ensures Valid() && buckets == old(buckets) && samples == []
    {
      for b := 0 to buckets.Length
        invariant buckets == old(buckets)
        invariant forall j :: 0 <= j < b ==> buckets[j] == 0
      {
        buckets[b] := 0;
      }
      count, sum, min, max := 0, 0, U64_MAX, 0;
      samples := [];
    }
  }
}
