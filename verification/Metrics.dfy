/**
 Server metrics (hkv-server/src/metrics.rs): the bucketed latency histogram against the samples it
 has seen. Its maximum under interleaving is in MaxRegister.dfy, the request counters are in
 RequestCounters.dfy.
 */
module Metrics {
  import opened Base

  // ---------------------------------------------------------------------------------------
  // Samples.

  function CountLe(h: seq<nat>, x: nat): nat {
    if h == [] then 0 else (if h[0] <= x then 1 else 0) + CountLe(h[1..], x)
  }

  function CountLt(h: seq<nat>, x: nat): nat {
    if h == [] then 0 else (if h[0] < x then 1 else 0) + CountLt(h[1..], x)
  }

  function MaxOf(h: seq<nat>): nat {
    if h == [] then 0 else if h[|h| - 1] > MaxOf(h[..|h| - 1]) then h[|h| - 1] else MaxOf(h[..|h| - 1])
  }

  function SumOf(h: seq<nat>): nat {
    if h == [] then 0 else SumOf(h[..|h| - 1]) + h[|h| - 1]
  }

  // The sum is that of the samples, in whatever order.
  lemma {:induction false} SumOfIsSum(h: seq<nat>)
    ensures SumOf(h) == SumBy((x: nat) => x, h)
  {
    if h != [] {
      SumOfIsSum(h[..|h| - 1]);
      assert h[..|h| - 1] + [h[|h| - 1]] == h;
      SumBySnoc((x: nat) => x, h[..|h| - 1], h[|h| - 1]);
    }
  }

  // `x` is the r-th smallest sample.
  predicate IsRank(h: seq<nat>, r: nat, x: nat) {
    x in h && CountLt(h, x) < r <= CountLe(h, x)
  }

  lemma {:induction false} CountsOrdered(h: seq<nat>, x: nat, y: nat)
    requires x < y
    ensures CountLe(h, x) <= CountLt(h, y) <= CountLe(h, y) <= |h|
  {
    if h != [] {
      CountsOrdered(h[1..], x, y);
    }
  }

  lemma {:induction false} MaxBounds(h: seq<nat>, x: nat)
    requires x in h
    ensures x <= MaxOf(h)
  {
    if x != h[|h| - 1] {
      var k :| 0 <= k < |h| && h[k] == x;
      assert h[..|h| - 1][k] == x;
      MaxBounds(h[..|h| - 1], x);
    }
  }

  lemma {:induction false} MaxIsSample(h: seq<nat>)
    requires h != []
    ensures MaxOf(h) in h
  {
    if |h| > 1 && MaxOf(h) != h[|h| - 1] {
      MaxIsSample(h[..|h| - 1]);
    } else {
      assert |h| == 1 ==> h[..0] == [];
    }
  }

  lemma {:induction false} AllCounted(h: seq<nat>, x: nat)
    requires forall i :: 0 <= i < |h| ==> h[i] <= x
    ensures CountLe(h, x) == |h|
  {
    if h != [] {
      AllCounted(h[1..], x);
    }
  }

  lemma {:induction false} NoneBetween(h: seq<nat>, y: nat, x: nat)
    requires y < x && forall i :: 0 <= i < |h| ==> h[i] <= y || h[i] >= x
    ensures CountLt(h, x) == CountLe(h, y)
  {
    if h != [] {
      NoneBetween(h[1..], y, x);
    }
  }

  lemma {:induction false} BelowExists(h: seq<nat>, x: nat) returns (y: nat)
    requires CountLt(h, x) > 0
    ensures y in h && y < x && forall i :: 0 <= i < |h| ==> h[i] <= y || h[i] >= x
  {
    if CountLt(h[1..], x) == 0 {
      y := h[0];
      NoneBelow(h[1..], x);
    } else {
      y := BelowExists(h[1..], x);
      if y < h[0] < x {
        y := h[0];
      }
    }
  }

  lemma {:induction false} NoneBelow(h: seq<nat>, x: nat)
    requires CountLt(h, x) == 0
    ensures forall i :: 0 <= i < |h| ==> h[i] >= x
  {
    if h != [] {
      NoneBelow(h[1..], x);
    }
  }

  lemma {:induction false} RankFrom(h: seq<nat>, r: nat, x: nat) returns (y: nat)
    requires x in h && 1 <= r <= CountLe(h, x)
    ensures IsRank(h, r, y)
    decreases x
  {
    if CountLt(h, x) < r {
      y := x;
    } else {
      var z := BelowExists(h, x);
      NoneBetween(h, z, x);
      y := RankFrom(h, r, z);
    }
  }

  // Every rank from one to the number of samples is taken by some sample.
  lemma RankExists(h: seq<nat>, r: nat) returns (x: nat)
    requires 1 <= r <= |h|
    ensures IsRank(h, r, x)
  {
    MaxIsSample(h);
    forall i | 0 <= i < |h| ensures h[i] <= MaxOf(h) {
      MaxBounds(h, h[i]);
    }
    AllCounted(h, MaxOf(h));
    x := RankFrom(h, r, MaxOf(h));
  }

  // ---------------------------------------------------------------------------------------
  // Buckets.

  predicate Ascending(bounds: seq<nat>) {
    forall i, j :: 0 <= i < j < |bounds| ==> bounds[i] <= bounds[j]
  }

  // The first bucket whose bound admits `v`, from index `i` on; the last one is for overflow.
  function BucketFrom(bounds: seq<nat>, v: nat, i: nat): (r: nat)
    requires i <= |bounds|
    ensures i <= r <= |bounds|
    ensures r < |bounds| ==> v <= bounds[r]
    ensures forall j :: i <= j < r ==> v > bounds[j]
    decreases |bounds| - i
  {
    if i == |bounds| || v <= bounds[i] then i else BucketFrom(bounds, v, i + 1)
  }

  function CountIn(h: seq<nat>, bounds: seq<nat>, i: nat): nat {
    if h == [] then 0
    else CountIn(h[..|h| - 1], bounds, i) + (if BucketFrom(bounds, h[|h| - 1], 0) == i then 1 else 0)
  }

  // Samples in buckets up to and including `i`.
  function CountUpTo(h: seq<nat>, bounds: seq<nat>, i: nat): nat {
    if h == [] then 0
    else (if BucketFrom(bounds, h[0], 0) <= i then 1 else 0) + CountUpTo(h[1..], bounds, i)
  }

  lemma {:induction false} CountUpToSnoc(h: seq<nat>, v: nat, bounds: seq<nat>, i: nat)
    ensures CountUpTo(h + [v], bounds, i) == CountUpTo(h, bounds, i) + (if BucketFrom(bounds, v, 0) <= i then 1 else 0)
  {
    if h == [] {
      assert (h + [v])[1..] == [];
    } else {
      assert (h + [v])[1..] == h[1..] + [v];
      CountUpToSnoc(h[1..], v, bounds, i);
    }
  }

  // Adding a bucket to those below it.
  lemma {:induction false} CountUpToNext(h: seq<nat>, bounds: seq<nat>, i: nat)
    ensures CountUpTo(h, bounds, i) == (if i == 0 then 0 else CountUpTo(h, bounds, i - 1)) + CountIn(h, bounds, i)
  {
    if h != [] {
      var front, v := h[..|h| - 1], h[|h| - 1];
      assert front + [v] == h;
      CountUpToNext(front, bounds, i);
      CountUpToSnoc(front, v, bounds, i);
      if i > 0 {
        CountUpToSnoc(front, v, bounds, i - 1);
      }
    }
  }

  lemma {:induction false} CountUpToAll(h: seq<nat>, bounds: seq<nat>)
    ensures CountUpTo(h, bounds, |bounds|) == |h|
  {
    if h != [] {
      CountUpToAll(h[1..], bounds);
    }
  }

  // With ascending bounds the buckets up to `i` hold exactly the samples up to its bound.
  lemma {:induction false} CountUpToIsCountLe(h: seq<nat>, bounds: seq<nat>, i: nat)
    requires Ascending(bounds) && i < |bounds|
    ensures CountUpTo(h, bounds, i) == CountLe(h, bounds[i])
  {
    if h != [] {
      var b := BucketFrom(bounds, h[0], 0);
      assert b <= i <==> h[0] <= bounds[i];
      CountUpToIsCountLe(h[1..], bounds, i);
    }
  }

  // ---------------------------------------------------------------------------------------
  // Percentiles.

  // The bucket that reaches the target rank.
  function RankBucket(h: seq<nat>, bounds: seq<nat>, target: nat, i: nat): (r: nat)
    requires i <= |bounds| + 1
    ensures i <= r <= |bounds| + 1
    ensures r <= |bounds| ==> CountUpTo(h, bounds, r) >= target
    ensures forall j :: i <= j < r ==> CountUpTo(h, bounds, j) < target
    decreases |bounds| + 1 - i
  {
    if i == |bounds| + 1 || CountUpTo(h, bounds, i) >= target then i else RankBucket(h, bounds, target, i + 1)
  }

  function Percentile(h: seq<nat>, bounds: seq<nat>, rank: nat): nat {
    var b := RankBucket(h, bounds, rank, 0);
    if b < |bounds| then bounds[b] else MaxOf(h)
  }

  // The bucket that reaches the rank is the one of the r-th smallest sample.
  lemma RankBucketBrackets(h: seq<nat>, bounds: seq<nat>, rank: nat, x: nat)
    requires Ascending(bounds) && 1 <= rank <= |h| && IsRank(h, rank, x)
    ensures var b := RankBucket(h, bounds, rank, 0);
            b <= |bounds| && (b < |bounds| ==> x <= bounds[b]) && (b > 0 ==> x > bounds[b - 1])
  {
    var b := RankBucket(h, bounds, rank, 0);
    CountUpToAll(h, bounds);
    if b < |bounds| {
      CountUpToIsCountLe(h, bounds, b);
      if x > bounds[b] {
        CountsOrdered(h, bounds[b], x);
      }
    }
    if b > 0 {
      CountUpToIsCountLe(h, bounds, b - 1);
      if x < bounds[b - 1] {
        CountsOrdered(h, x, bounds[b - 1]);
      }
    }
  }

  // The answer brackets the true order statistic: it is the least bound that the r-th smallest sample
  // does not exceed, or the maximum if that sample exceeds them all.
  lemma PercentileBrackets(h: seq<nat>, bounds: seq<nat>, rank: nat, x: nat)
    requires Ascending(bounds) && 1 <= rank <= |h| && IsRank(h, rank, x)
    ensures var p := Percentile(h, bounds, rank);
            && x <= p
            && (forall i :: 0 <= i < |bounds| && bounds[i] < p ==> bounds[i] < x)
            && (p in bounds || (p == MaxOf(h) && forall i :: 0 <= i < |bounds| ==> bounds[i] < x))
  {
    var b := RankBucket(h, bounds, rank, 0);
    RankBucketBrackets(h, bounds, rank, x);
    MaxBounds(h, x);
    forall i | 0 <= i < |bounds| && i < b ensures bounds[i] < x {
      assert i < b - 1 ==> bounds[i] <= bounds[b - 1];
    }
    forall i | b <= i < |bounds| ensures bounds[i] >= bounds[b] {
    }
  }

  // So it is determined by the samples and the bounds alone.
  lemma PercentileIsLeastBound(h: seq<nat>, bounds: seq<nat>, rank: nat, x: nat)
    requires Ascending(bounds) && 1 <= rank <= |h| && IsRank(h, rank, x)
    ensures forall i :: 0 <= i < |bounds| && x <= bounds[i] ==> Percentile(h, bounds, rank) <= bounds[i]
    ensures (exists i :: 0 <= i < |bounds| && x <= bounds[i]) ==> Percentile(h, bounds, rank) in bounds
    ensures (forall i :: 0 <= i < |bounds| ==> bounds[i] < x) ==> Percentile(h, bounds, rank) == MaxOf(h)
  {
    PercentileBrackets(h, bounds, rank, x);
    var p := Percentile(h, bounds, rank);
    if forall i :: 0 <= i < |bounds| ==> bounds[i] < x {
      assert p !in bounds;
    }
  }

  // A higher rank never gets a lower answer.
  lemma PercentileMonotone(h: seq<nat>, bounds: seq<nat>, r: nat, r': nat)
    requires Ascending(bounds) && 1 <= r <= r' <= |h|
    ensures Percentile(h, bounds, r) <= Percentile(h, bounds, r')
  {
    var b, b' := RankBucket(h, bounds, r, 0), RankBucket(h, bounds, r', 0);
    var x := RankExists(h, r');
    RankBucketBrackets(h, bounds, r', x);
    MaxBounds(h, x);
    assert b <= b';
  }

  // ---------------------------------------------------------------------------------------
  // The histogram.

  class LatencyHistogram {
    const bounds: seq<nat>
    const buckets: array<nat>
    var sumUs: nat
    var samples: nat
    var maxUs: nat
    ghost var history: seq<nat>

    // The counters are what the samples recorded so far make them. The sum wraps like a u64.
    ghost predicate Valid()
      reads this, buckets
    {
      && buckets.Length == |bounds| + 1
      && (forall i :: 0 <= i < buckets.Length ==> buckets[i] == CountIn(history, bounds, i))
      && samples == |history|
      && sumUs == SumOf(history) % WORD
      && maxUs == MaxOf(history)
    }

    constructor (bounds: seq<nat>)
      ensures Valid() && fresh(buckets) && this.bounds == bounds && history == []
    {
      this.bounds := bounds;
      buckets := new nat[|bounds| + 1](_ => 0);
      sumUs := 0;
      samples := 0;
      maxUs := 0;
      history := [];
    }

    // record, without interleaving. `latency` is in microseconds and is cut to 64 bits.
    method Record(latency: nat)
      requires Valid()
      modifies this, buckets
      ensures Valid() && history == old(history) + [latency % WORD]
    {
      var micros := latency % WORD;
      ghost var h := history + [micros];
      assert h[..|h| - 1] == history;
      samples := samples + 1;
      SumWraps(SumOf(history), micros);
      sumUs := (sumUs + micros) % WORD;
      if micros > maxUs {
        maxUs := micros;
      }
      var bucketIdx := |bounds|;
      var i := 0;
      while i < |bounds|
        invariant 0 <= i <= |bounds|
        invariant bucketIdx == |bounds|
        invariant BucketFrom(bounds, micros, 0) == BucketFrom(bounds, micros, i)
      {
        if micros <= bounds[i] {
          bucketIdx := i;
          break;
        }
        i := i + 1;
      }
      assert bucketIdx == BucketFrom(bounds, micros, 0);
      buckets[bucketIdx] := buckets[bucketIdx] + 1;
      history := h;
    }

    // snapshot, with no update in flight.
    method TakeSnapshot() returns (s: LatencySnapshot)
      requires Valid()
      ensures s.bounds == bounds && Depicts(s, history)
    {
      s := LatencySnapshot(bounds, buckets[..], samples, sumUs, maxUs);
    }
  }

  datatype LatencySnapshot = LatencySnapshot(bounds: seq<nat>, buckets: seq<nat>, samples: nat, sumUs: nat, maxUs: nat)

  // The snapshot is that of a histogram that has recorded exactly the samples `h`.
  ghost predicate Depicts(s: LatencySnapshot, h: seq<nat>) {
    && |s.buckets| == |s.bounds| + 1
    && (forall i :: 0 <= i < |s.buckets| ==> s.buckets[i] == CountIn(h, s.bounds, i))
    && s.samples == |h|
    && s.sumUs == SumOf(h) % WORD
    && s.maxUs == MaxOf(h)
  }

  lemma NextCumulative(s: LatencySnapshot, h: seq<nat>, idx: nat, target: nat)
    requires Depicts(s, h) && idx < |s.buckets| && target <= USIZE_MAX
    ensures var below := if idx == 0 then 0 else CountUpTo(h, s.bounds, idx - 1);
            var sum := Min(Min(below, USIZE_MAX) + s.buckets[idx], USIZE_MAX);
            && sum == Min(CountUpTo(h, s.bounds, idx), USIZE_MAX)
            && (sum >= target <==> CountUpTo(h, s.bounds, idx) >= target)
  {
    CountUpToNext(h, s.bounds, idx);
    SaturatedSum(if idx == 0 then 0 else CountUpTo(h, s.bounds, idx - 1), s.buckets[idx], USIZE_MAX);
  }

  // percentile_us, for an integer rank: the answer is the percentile of the samples.
  method PercentileUs(s: LatencySnapshot, rank: nat, ghost h: seq<nat>) returns (r: Option<nat>)
    requires Depicts(s, h) && rank <= USIZE_MAX
    ensures r == if s.samples == 0 then None else Some(Percentile(h, s.bounds, if rank == 0 then 1 else rank))
  {
    if s.samples == 0 {
      return None;
    }
    var target := if rank == 0 then 1 else rank;
    var cumulative := 0;
    for idx := 0 to |s.buckets|
      invariant cumulative == Min(if idx == 0 then 0 else CountUpTo(h, s.bounds, idx - 1), USIZE_MAX)
      invariant RankBucket(h, s.bounds, target, 0) == RankBucket(h, s.bounds, target, idx)
    {
      NextCumulative(s, h, idx, target);
      cumulative := Min(cumulative + s.buckets[idx], USIZE_MAX);
      if cumulative >= target {
        return Some(if idx < |s.bounds| then s.bounds[idx] else s.maxUs);
      }
    }
    r := Some(s.maxUs);
  }

  lemma SaturatedSum(a: nat, b: nat, max: nat)
    ensures Min(Min(a, max) + b, max) == Min(a + b, max)
  {
  }

  lemma SumWraps(a: nat, b: nat)
    ensures (a % WORD + b) % WORD == (a + b) % WORD
  {
  }

  function SumBuckets(buckets: seq<nat>): nat {
    if buckets == [] then 0 else SumBuckets(buckets[..|buckets| - 1]) + buckets[|buckets| - 1]
  }

  lemma {:induction false} BucketsPrefixSum(h: seq<nat>, bounds: seq<nat>, buckets: seq<nat>)
    requires forall i :: 0 <= i < |buckets| ==> buckets[i] == CountIn(h, bounds, i)
    ensures SumBuckets(buckets) == if buckets == [] then 0 else CountUpTo(h, bounds, |buckets| - 1)
  {
    if buckets != [] {
      BucketsPrefixSum(h, bounds, buckets[..|buckets| - 1]);
      CountUpToNext(h, bounds, |buckets| - 1);
    }
  }

  // Bucket counts add up to the number of samples.
  lemma BucketsSumToSamples(s: LatencySnapshot, h: seq<nat>)
    requires Depicts(s, h)
    ensures SumBuckets(s.buckets) == s.samples
  {
    BucketsPrefixSum(h, s.bounds, s.buckets);
    CountUpToAll(h, s.bounds);
  }
}
