/** The watermark optimiser: range totals from running totals, the score, the exhaustive search. */
module Watermark {
  import opened Common
  import opened Cdf

  datatype Latency = Latency(cache: nat, disk: nat, rdma: nat)

  /** A distribution as get_and_sort_freq leaves it: non-empty, distinct keys, running totals in the map. */
  ghost predicate WellFormed(cdf: CdfType) {
    && cdf.entries != []
    && Total(Strip(cdf.entries)) < U64
    && |cdf.entries| < U64
    && forall i {:trigger cdf.entries[i]} :: 0 <= i < |cdf.entries| ==>
         cdf.entries[i].kv.key in cdf.sums && cdf.sums[cdf.entries[i].kv.key].0 == Total(Strip(cdf.entries)[..i + 1])
  }

  /** The running total stored for the key at position i. */
  function RunningTotal(cdf: CdfType, i: nat): (r: nat)
    requires WellFormed(cdf) && i < |cdf.entries|
  {
    cdf.sums[cdf.entries[i].kv.key].0
  }

  function Clamp(cdf: CdfType, i: nat): (r: nat)
    requires WellFormed(cdf)
    ensures r < |cdf.entries|
  {
    if i >= |cdf.entries| then |cdf.entries| - 1 else i
  }

  /** get_sum_freq_till_index, in uint64_t arithmetic. */
  function SumFreqTillIndex(cdf: CdfType, start: nat, end: nat): (r: nat)
    requires WellFormed(cdf)
  {
    Wrap(RunningTotal(cdf, Clamp(cdf, end)) - RunningTotal(cdf, Clamp(cdf, start)))
  }

  /** calculate_performance; every operation is on uint64_t. */
  function Performance(cdf: CdfType, local: nat, remote: nat, ns: Latency): (r: nat)
    requires WellFormed(cdf)
    ensures r < U64
  {
    var localAccesses := SumFreqTillIndex(cdf, 0, local);
    var remoteAccesses := SumFreqTillIndex(cdf, local, Wrap(local + remote));
    var diskAccesses := SumFreqTillIndex(cdf, Wrap(remote + local), |cdf.entries|);
    Quotient(WrappedLatency(localAccesses, remoteAccesses, diskAccesses, ns))
  }

  /** The score of a latency: the largest word divided by it. */
  function Quotient(latency: nat): (r: nat)
    ensures r < U64
  {
    QuotientFits(latency);
    if latency != 0 then (U64 - 1) / latency else 0
  }

  lemma QuotientFits(latency: nat)
    ensures latency != 0 ==> (U64 - 1) / latency < U64
  {
    if latency != 0 { DivAtLeast(U64, U64 - 1, latency); MulMonotone(1, latency, U64); }
  }

  function WrappedLatency(local: nat, remote: nat, disk: nat, ns: Latency): (r: nat) {
    var localLatency := Wrap(local * ns.cache);
    var remoteLatency := Wrap(Wrap(Wrap(2 * remote) / 3 * ns.rdma) + Wrap(remote / 3 * ns.cache));
    var diskLatency := Wrap(disk * ns.disk);
    Wrap(Wrap(localLatency + remoteLatency) + diskLatency)
  }

  // ---------------------------------------------------------------- range totals

  /** The plain loop of the reference form: the total of positions start..end-1. */
  method SumLoop(kvs: seq<KeyFreq>, start: nat, end: nat) returns (sum: nat)
    requires end <= |kvs|
    ensures start <= end ==> sum == Total(kvs[start..end])
    ensures start > end ==> sum == 0
  {
    sum := 0;
    var i := start;
    while i < end
      invariant start <= end ==> start <= i <= end && sum == Total(kvs[start..i])
      invariant start > end ==> sum == 0
    {
      assert kvs[start..i + 1][..i - start] == kvs[start..i];
      sum := sum + kvs[i].freq;
      i := i + 1;
    }
  }

  lemma WrapSmall(x: nat)
    requires x < U64
    ensures Wrap(x) == x
  {
  }

  lemma {:induction false} ModShift(x: int, k: int)
    ensures Wrap(x + U64 * k) == Wrap(x)
    decreases if k < 0 then -k else k
  {
    if k > 0 { ModShift(x, k - 1); } else if k < 0 { ModShift(x, k + 1); }
  }

  lemma RunningTotalIsPrefix(cdf: CdfType, i: nat)
    requires WellFormed(cdf) && i < |cdf.entries|
    ensures RunningTotal(cdf, i) == Total(Strip(cdf.entries)[..i + 1]) <= Total(Strip(cdf.entries)) < U64
  {
    var kvs := Strip(cdf.entries);
    PrefixMonotone(kvs, i + 1, |kvs|);
    assert kvs[..|kvs|] == kvs;
    assert cdf.entries[i].kv.key in cdf.sums;
  }

  lemma MiddleTotal(kvs: seq<KeyFreq>, x: nat, y: nat)
    requires x <= y <= |kvs|
    ensures Total(kvs[..x]) + Total(kvs[x..y]) == Total(kvs[..y])
  {
    OverConcat(kvs[..x], kvs[x..y], 0);
    assert kvs[..x] + kvs[x..y] == kvs[..y];
  }

  lemma ClampOrder(cdf: CdfType, start: nat, end: nat)
    requires WellFormed(cdf) && start <= end
    ensures Clamp(cdf, start) <= Clamp(cdf, end) < |cdf.entries|
  {
  }

  /** The positions after the clamped start, up to and including the clamped end. */
  ghost function Between(cdf: CdfType, start: nat, end: nat): (r: seq<KeyFreq>)
    requires WellFormed(cdf) && start <= end
  {
    ClampOrder(cdf, start, end);
    Strip(cdf.entries)[Clamp(cdf, start) + 1..Clamp(cdf, end) + 1]
  }

  lemma RunningTotalsDiffer(cdf: CdfType, s: nat, e: nat)
    requires WellFormed(cdf) && s <= e < |cdf.entries|
    ensures RunningTotal(cdf, s) + Total(Strip(cdf.entries)[s + 1..e + 1]) == RunningTotal(cdf, e) < U64
  {
    RunningTotalIsPrefix(cdf, s);
    RunningTotalIsPrefix(cdf, e);
    hide WellFormed, RunningTotal, Total, Strip;
    MiddleTotal(Strip(cdf.entries), s + 1, e + 1);
  }

  lemma BetweenDiffers(cdf: CdfType, start: nat, end: nat)
    requires WellFormed(cdf) && start <= end
    ensures Clamp(cdf, start) < |cdf.entries| && Clamp(cdf, end) < |cdf.entries|
    ensures RunningTotal(cdf, Clamp(cdf, start)) + Total(Between(cdf, start, end))
            == RunningTotal(cdf, Clamp(cdf, end)) < U64
  {
    hide WellFormed, RunningTotal, Total, Strip, Clamp;
    ClampOrder(cdf, start, end);
    RunningTotalsDiffer(cdf, Clamp(cdf, start), Clamp(cdf, end));
  }

  /**
   * For start <= end the difference of the two clamped running totals never underflows, and is the
   * plain sum of the positions after the clamped start, up to and including the clamped end.
   */
  lemma RangeTotalIsLoopSum(cdf: CdfType, start: nat, end: nat)
    requires WellFormed(cdf) && start <= end
    ensures RunningTotal(cdf, Clamp(cdf, start)) <= RunningTotal(cdf, Clamp(cdf, end))
    ensures SumFreqTillIndex(cdf, start, end)
            == RunningTotal(cdf, Clamp(cdf, end)) - RunningTotal(cdf, Clamp(cdf, start))
    ensures SumFreqTillIndex(cdf, start, end) == Total(Between(cdf, start, end))
  {
    ClampOrder(cdf, start, end);
    BetweenDiffers(cdf, start, end);
    hide WellFormed, RunningTotal, Total, Strip, Wrap, Clamp, Between;
    WrapSmall(Total(Between(cdf, start, end)));
  }

  /**
   * The total from start to end counts the positions after start up to and including end; positions past
   * the last count as the last.
   */
  lemma RangeTotalIsPlainSum(cdf: CdfType, start: nat, end: nat)
    requires WellFormed(cdf) && start <= end
    ensures var kvs := Strip(cdf.entries);
            SumFreqTillIndex(cdf, start, end) ==
              if start >= |kvs| then 0
              else if end >= |kvs| then Total(kvs[start + 1..])
              else Total(kvs[start + 1..end + 1])
  {
    RangeTotalIsLoopSum(cdf, start, end);
    var kvs := Strip(cdf.entries);
    if start >= |kvs| {
      assert Between(cdf, start, end) == [];
    } else if end >= |kvs| {
      assert Between(cdf, start, end) == kvs[start + 1..];
    } else {
      assert Between(cdf, start, end) == kvs[start + 1..end + 1];
    }
    hide SumFreqTillIndex, WellFormed;
  }

  /** Adjacent ranges add up. */
  lemma RangeTotalsAdd(cdf: CdfType, a: nat, b: nat, c: nat)
    requires WellFormed(cdf) && a <= b <= c
    ensures SumFreqTillIndex(cdf, a, b) + SumFreqTillIndex(cdf, b, c) == SumFreqTillIndex(cdf, a, c)
  {
    hide WellFormed, SumFreqTillIndex, RunningTotal, Clamp;
    RangeTotalIsLoopSum(cdf, a, b);
    RangeTotalIsLoopSum(cdf, b, c);
    RangeTotalIsLoopSum(cdf, a, c);
  }

  /** The three shares of any split add up to the total frequency less that of position 0. */
  lemma SharesAddUp(cdf: CdfType, local: nat, remote: nat)
    requires WellFormed(cdf) && local + remote < U64
    ensures SumFreqTillIndex(cdf, 0, local) + SumFreqTillIndex(cdf, local, Wrap(local + remote))
            + SumFreqTillIndex(cdf, Wrap(remote + local), |cdf.entries|)
            == Total(Strip(cdf.entries)) - cdf.entries[0].kv.freq
  {
    hide SumFreqTillIndex, WellFormed, Wrap, Total, Strip;
    var n, m := |cdf.entries|, local + remote;
    WrapSmall(m);
    assert remote + local == m;
    RangeTotalsAdd(cdf, 0, local, m);
    if m <= n {
      RangeTotalsAdd(cdf, 0, m, n);
    } else {
      ClampedRange(cdf, m);
    }
    WholeRange(cdf);
  }

  lemma WholeRange(cdf: CdfType)
    requires WellFormed(cdf)
    ensures cdf.entries != []
    ensures SumFreqTillIndex(cdf, 0, |cdf.entries|) == Total(Strip(cdf.entries)) - cdf.entries[0].kv.freq
  {
    var kvs := Strip(cdf.entries);
    RangeTotalIsLoopSum(cdf, 0, |kvs|);
    OverSplit(kvs, 1, 0);
    assert Between(cdf, 0, |kvs|) == kvs[1..];
    assert kvs[..1][..0] == [];
  }

  lemma ClampedRange(cdf: CdfType, m: nat)
    requires WellFormed(cdf) && m >= |cdf.entries|
    ensures SumFreqTillIndex(cdf, m, |cdf.entries|) == 0
    ensures SumFreqTillIndex(cdf, 0, m) == SumFreqTillIndex(cdf, 0, |cdf.entries|)
  {
  }

  // ---------------------------------------------------------------- the score without wrap-around

  lemma NonNegative(a: nat, b: nat)
    ensures 0 <= a * b
  {
  }

  lemma ProductsAreNats(l: nat, r: nat, d: nat, ns: Latency)
    ensures 0 <= l * ns.cache && 0 <= 2 * r / 3 * ns.rdma && 0 <= r / 3 * ns.cache && 0 <= d * ns.disk
  {
    NonNegative(l, ns.cache);
    NonNegative(2 * r / 3, ns.rdma);
    NonNegative(r / 3, ns.cache);
    NonNegative(d, ns.disk);
  }

  /** The latency the score divides by, over the integers. */
  function ExactLatency(cdf: CdfType, local: nat, remote: nat, ns: Latency): (r: nat)
    requires WellFormed(cdf)
  {
    LatencyOf(SumFreqTillIndex(cdf, 0, local), SumFreqTillIndex(cdf, local, local + remote),
              SumFreqTillIndex(cdf, local + remote, |cdf.entries|), ns)
  }

  function LatencyOf(local: nat, remote: nat, disk: nat, ns: Latency): (r: nat) {
    ProductsAreNats(local, remote, disk, ns);
    local * ns.cache + (2 * remote / 3 * ns.rdma + remote / 3 * ns.cache) + disk * ns.disk
  }

  /**
   * Each local access costs a cache access and each disk access a disk access; of every three remote
   * accesses two cost an RDMA read and one a cache access, and the last one or two are rounded down.
   */
  lemma EachShareHasItsRate(local: nat, remote: nat, disk: nat, ns: Latency)
    ensures LatencyOf(0, 0, 0, ns) == LatencyOf(0, 1, 0, ns) == 0 && LatencyOf(0, 2, 0, ns) == ns.rdma
    ensures LatencyOf(local + 1, remote, disk, ns) == LatencyOf(local, remote, disk, ns) + ns.cache
    ensures LatencyOf(local, remote + 3, disk, ns) == LatencyOf(local, remote, disk, ns) + 2 * ns.rdma + ns.cache
    ensures LatencyOf(local, remote, disk + 1, ns) == LatencyOf(local, remote, disk, ns) + ns.disk
  {
    assert 2 * (remote + 3) / 3 == 2 * remote / 3 + 2 && (remote + 3) / 3 == remote / 3 + 1;
    OneMoreTimes(local, 1, ns.cache);
    OneMoreTimes(disk, 1, ns.disk);
    OneMoreTimes(2 * remote / 3, 2, ns.rdma);
    OneMoreTimes(remote / 3, 1, ns.cache);
  }

  lemma OneMoreTimes(count: nat, more: nat, rate: nat)
    ensures (count + more) * rate == count * rate + more * rate
  {
  }

  /** A bound checkable before the search: the whole load at the dearest rate still fits in 64 bits. */
  ghost predicate Fits(cdf: CdfType, ns: Latency) {
    Total(Strip(cdf.entries)) * Dearest(ns) < U64
  }

  /** The dearest rate, and at least 2 so that doubling the remote share cannot wrap either. */
  function Dearest(ns: Latency): (r: nat) { Max(2, Max(ns.cache, Max(ns.rdma, ns.disk))) }

  lemma ThirdsBelow(r: nat, x: nat, y: nat, m: nat)
    requires x <= m && y <= m
    ensures 2 * r / 3 * x + r / 3 * y <= r * m
  {
    MulMonotone(x, m, 2 * r / 3);
    MulMonotone(y, m, r / 3);
    assert 2 * r / 3 * m + r / 3 * m == (2 * r / 3 + r / 3) * m;
    MulMonotone(2 * r / 3 + r / 3, r, m);
  }

  /** The load at any rates up to m stays below the whole load at rate m. */
  lemma LatencyBound(l: nat, r: nat, d: nat, t: nat, ns: Latency)
    requires l + r + d <= t
    ensures LatencyOf(l, r, d, ns) <= t * Dearest(ns) && 2 * r <= t * Dearest(ns)
  {
    var m := Dearest(ns);
    MulMonotone(ns.cache, m, l);
    MulMonotone(ns.disk, m, d);
    ThirdsBelow(r, ns.rdma, ns.cache, m);
    MulMonotone(l + r + d, t, m);
    assert (l + r + d) * m == l * m + r * m + d * m;
    MulMonotone(2, m, r);
    MulMonotone(0, m, l);
    MulMonotone(0, m, d);
  }

  lemma NoWrap(a: nat, b: nat, c: nat, d: nat)
    requires a + b + c + d < U64
    ensures Wrap(a) == a && Wrap(b) == b && Wrap(c) == c && Wrap(d) == d
    ensures Wrap(b + c) == b + c && Wrap(a + (b + c)) == a + (b + c) && Wrap(a + (b + c) + d) == a + (b + c) + d
  {
  }

  lemma WrappedIsExact(l: nat, r: nat, d: nat, ns: Latency)
    requires LatencyOf(l, r, d, ns) < U64 && 2 * r < U64
    ensures WrappedLatency(l, r, d, ns) == LatencyOf(l, r, d, ns)
  {
    ProductsAreNats(l, r, d, ns);
    WrapSmall(2 * r);
    NoWrap(l * ns.cache, 2 * r / 3 * ns.rdma, r / 3 * ns.cache, d * ns.disk);
  }

  lemma SharesBelow(cdf: CdfType, local: nat, remote: nat)
    requires WellFormed(cdf) && local + remote < U64
    ensures SumFreqTillIndex(cdf, 0, local) + SumFreqTillIndex(cdf, local, local + remote)
            + SumFreqTillIndex(cdf, local + remote, |cdf.entries|) <= Total(Strip(cdf.entries))
  {
    hide SumFreqTillIndex, WellFormed, Wrap, Total, Strip;
    SharesAddUp(cdf, local, remote);
    WrapSmall(local + remote);
    assert remote + local == local + remote;
    EntriesFit(cdf);
  }

  lemma LatencyFits(cdf: CdfType, local: nat, remote: nat, ns: Latency)
    requires WellFormed(cdf) && Fits(cdf, ns) && local + remote < U64
    ensures ExactLatency(cdf, local, remote, ns) < U64 && 2 * SumFreqTillIndex(cdf, local, local + remote) < U64
  {
    hide SumFreqTillIndex, WellFormed, Wrap, Total, LatencyOf, Dearest, Strip;
    SharesBelow(cdf, local, remote);
    LatencyBound(SumFreqTillIndex(cdf, 0, local), SumFreqTillIndex(cdf, local, local + remote),
                 SumFreqTillIndex(cdf, local + remote, |cdf.entries|), Total(Strip(cdf.entries)), ns);
  }

  /** When the load fits, no operation wraps: the score is the integer quotient by the exact latency. */
  lemma PerformanceIsExact(cdf: CdfType, local: nat, remote: nat, ns: Latency)
    requires WellFormed(cdf) && Fits(cdf, ns) && local + remote < U64
    ensures ExactLatency(cdf, local, remote, ns) < U64
    ensures Performance(cdf, local, remote, ns) ==
              if ExactLatency(cdf, local, remote, ns) == 0 then 0
              else (U64 - 1) / ExactLatency(cdf, local, remote, ns)
  {
    hide SumFreqTillIndex, WellFormed, Wrap, Total, Fits, WrappedLatency, LatencyOf, Strip;
    LatencyFits(cdf, local, remote, ns);
    WrapSmall(local + remote);
    assert remote + local == local + remote;
    WrappedIsExact(SumFreqTillIndex(cdf, 0, local), SumFreqTillIndex(cdf, local, local + remote),
                   SumFreqTillIndex(cdf, local + remote, |cdf.entries|), ns);
  }

  lemma EntriesFit(cdf: CdfType)
    requires WellFormed(cdf)
    ensures 0 < |cdf.entries| < U64 && |Strip(cdf.entries)| == |cdf.entries|
  {
  }

  lemma ScoreFromShares(cdf: CdfType, local: nat, remote: nat, ns: Latency)
    requires WellFormed(cdf) && Fits(cdf, ns) && local + remote < |cdf.entries|
    ensures var kvs := Strip(cdf.entries);
            Performance(cdf, local, remote, ns)
            == Quotient(LatencyOf(Total(kvs[1..local + 1]), Total(kvs[local + 1..local + remote + 1]),
                                  Total(kvs[local + remote + 1..]), ns))
  {
    hide SumFreqTillIndex, WellFormed, Fits, Performance, Total, Strip, LatencyOf;
    EntriesFit(cdf);
    PerformanceIsExact(cdf, local, remote, ns);
    RangeTotalIsPlainSum(cdf, 0, local);
    RangeTotalIsPlainSum(cdf, local, local + remote);
    RangeTotalIsPlainSum(cdf, local + remote, |cdf.entries|);
  }

  /**
   * The score of a split, from the frequencies alone: the positions after the first up to `local` are local
   * accesses, the next `remote` are remote, the rest are on disk, and the first position counts nowhere.
   */
  lemma ScoreFromFrequencies(cdf: CdfType, local: nat, remote: nat, ns: Latency)
    requires WellFormed(cdf) && Fits(cdf, ns) && local + remote < |cdf.entries|
    ensures var kvs := Strip(cdf.entries);
            var l, r := Total(kvs[1..local + 1]), Total(kvs[local + 1..local + remote + 1]);
            var d := Total(kvs[local + remote + 1..]);
            var latency := l * ns.cache + (2 * r / 3 * ns.rdma + r / 3 * ns.cache) + d * ns.disk;
            Performance(cdf, local, remote, ns) == if latency == 0 then 0 else (U64 - 1) / latency
  {
    hide SumFreqTillIndex, WellFormed, Fits, Performance, Total, Strip;
    ScoreFromShares(cdf, local, remote, ns);
  }

  /** Rounding a k-fold count down to a third, at some rate, loses less than two counts' worth. */
  lemma ThirdRounding(count: nat, rate: nat)
    ensures 3 * (count / 3 * rate) <= count * rate <= 3 * (count / 3 * rate) + 2 * rate
  {
    var q := count / 3;
    MulMonotone(3 * q, count, rate);
    MulMonotone(count, 3 * q + 2, rate);
    assert 3 * q * rate == 3 * (q * rate);
    assert (3 * q + 2) * rate == 3 * q * rate + 2 * rate;
  }

  /** The floors make the remote cost smaller than two thirds RDMA plus one third cache, by a bounded amount. */
  lemma RemoteCostRounding(x: nat, ns: Latency)
    ensures var floored := 2 * x / 3 * ns.rdma + x / 3 * ns.cache;
            3 * floored <= 2 * x * ns.rdma + x * ns.cache <= 3 * floored + 2 * (ns.rdma + ns.cache)
  {
    ThirdRounding(2 * x, ns.rdma);
    ThirdRounding(x, ns.cache);
  }

  // ---------------------------------------------------------------- exhaustive search

  /** The watermarks and cut-offs handed to the cache; an absent cut-off is the word of all ones. */
  datatype Choice = Choice(local: nat, remote: nat, performance: nat, accessRate: nat, bucket: nat, cutoffKey: nat)

  /** The cut-offs are those of the entry at the local watermark, or all ones when it is 0. */
  function ChoiceAt(cdf: CdfType, local: nat, remote: nat, performance: nat): (c: Choice)
    requires local < |cdf.entries|
  {
    if local == 0 then Choice(local, remote, performance, U64 - 1, U64 - 1, U64 - 1)
    else Choice(local, remote, performance,
                cdf.entries[local].kv.freq, cdf.entries[local].bucket, cdf.entries[local].kv.key)
  }

  /** The largest split the search may try. */
  function LastCandidate(cdf: CdfType, cacheSize: nat): (r: nat)
    requires cdf.entries != []
  {
    Min(|cdf.entries| - 1, cacheSize / 3)
  }

  function Score(cdf: CdfType, cacheSize: nat, ns: Latency, local: nat): (r: nat)
    requires WellFormed(cdf) && 3 * local <= cacheSize
  {
    Performance(cdf, local, cacheSize - 3 * local, ns)
  }

  /** itr_through_all_the_perf_values_to_find_optimal: the smallest split of maximal performance. */
  method FindOptimal(cdf: CdfType, cacheSize: nat, ns: Latency) returns (best: Choice)
    requires WellFormed(cdf) && cacheSize < U64
    ensures 0 <= best.local <= LastCandidate(cdf, cacheSize) && best.remote + 3 * best.local == cacheSize
    ensures best.performance == Score(cdf, cacheSize, ns, best.local) || (best.performance == 0 && best.local == 0)
    ensures forall l :: 0 <= l <= LastCandidate(cdf, cacheSize) ==> Score(cdf, cacheSize, ns, l) <= best.performance
    ensures forall l :: 0 <= l < best.local ==> Score(cdf, cacheSize, ns, l) < best.performance
    ensures best.local == 0 ==> best.accessRate == best.bucket == best.cutoffKey == U64 - 1
    ensures best.local > 0 ==>
              && best.accessRate == cdf.entries[best.local].kv.freq
              && best.bucket == cdf.entries[best.local].bucket
              && best.cutoffKey == cdf.entries[best.local].kv.key
  {
    hide Performance, WellFormed;
    NotEmpty(cdf);
    var perf := (local: nat, remote: nat) => Performance(cdf, local, remote, ns);
    var local, remote, performance := SearchBudgetLine(|cdf.entries|, cacheSize, perf);
    best := ChoiceAt(cdf, local, remote, performance);
  }

  lemma NotEmpty(cdf: CdfType)
    requires WellFormed(cdf)
    ensures cdf.entries != []
  {
  }

  /** The search itself, over any way of scoring a split of `size` keys. */
  method SearchBudgetLine(size: nat, cacheSize: nat, perf: (nat, nat) -> nat)
    returns (bestLocal: nat, bestRemote: nat, bestPerformance: nat)
    requires 0 < size && cacheSize < U64
    ensures bestLocal < size && bestRemote + 3 * bestLocal == cacheSize
    ensures bestPerformance == perf(bestLocal, bestRemote) || (bestPerformance == 0 && bestLocal == 0)
    ensures forall l :: 0 <= l < size && 3 * l <= cacheSize ==> perf(l, cacheSize - 3 * l) <= bestPerformance
    ensures forall l :: 0 <= l < bestLocal ==> perf(l, cacheSize - 3 * l) < bestPerformance
  {
    bestPerformance, bestLocal, bestRemote := 0, 0, cacheSize;
    var i := 0;
    while i < size
      invariant 0 <= i <= size && i <= cacheSize / 3 + 1
      invariant bestLocal < size && bestRemote + 3 * bestLocal == cacheSize
      invariant bestPerformance == perf(bestLocal, bestRemote) || (bestPerformance == 0 && bestLocal == 0)
      invariant forall l :: 0 <= l < i && 3 * l <= cacheSize ==> perf(l, cacheSize - 3 * l) <= bestPerformance
      invariant forall l :: 0 <= l < bestLocal ==> perf(l, cacheSize - 3 * l) < bestPerformance
    {
      var local := i;
      var remote := Wrap(cacheSize - Wrap(3 * local));
      // The source also breaks on remote < 0, which no unsigned value satisfies.
      if local > cacheSize / 3 {
        break;
      }
      WrapSmall(3 * local);
      WrapSmall(cacheSize - 3 * local);
      var performance := perf(local, remote);
      if performance > bestPerformance {
        bestPerformance, bestLocal, bestRemote := performance, local, remote;
      }
      i := i + 1;
    }
  }

  /** The chosen latency times p is at most the other's times p + 1, where p is the chosen score. */
  ghost predicate NearMinimal(cdf: CdfType, cacheSize: nat, ns: Latency, chosen: nat, other: nat)
    requires WellFormed(cdf) && 3 * chosen <= cacheSize && 3 * other <= cacheSize
  {
    var p := Score(cdf, cacheSize, ns, chosen);
    ExactLatency(cdf, chosen, cacheSize - 3 * chosen, ns) * p
      <= ExactLatency(cdf, other, cacheSize - 3 * other, ns) * (p + 1)
  }

  lemma QuotientIsNear(a: nat, b: nat, p: nat)
    requires p == if a == 0 then 0 else (U64 - 1) / a
    requires b > 0 ==> (U64 - 1) / b <= p
    requires a < U64
    ensures b > 0 ==> a * p < b * (p + 1)
    ensures a * p <= b * (p + 1) <==> b > 0 || a == 0
  {
    if a > 0 {
      DivAtLeast(p, U64 - 1, a);
      DivAtLeast(1, U64 - 1, a);
      assert p * a == a * p;
      MulMonotone(1, p, a);
    }
    if b > 0 {
      DivBelow(p + 1, U64 - 1, b);
      assert (p + 1) * b == b * (p + 1);
    }
  }

  /**
   * Rounding the quotient can hide a better split only by a hair, with one exception: a split of latency 0
   * is scored 0.  Against any split the search scored no higher, its choice is near minimal if and only if
   * that split's latency is not 0, or its own is.
   */
  lemma ChosenLatencyIsNearMinimal(cdf: CdfType, cacheSize: nat, ns: Latency, chosen: nat, other: nat)
    requires WellFormed(cdf) && Fits(cdf, ns) && cacheSize < U64
    requires 3 * chosen <= cacheSize && 3 * other <= cacheSize
    requires Score(cdf, cacheSize, ns, other) <= Score(cdf, cacheSize, ns, chosen)
    ensures NearMinimal(cdf, cacheSize, ns, chosen, other)
            <==> ExactLatency(cdf, other, cacheSize - 3 * other, ns) > 0
                 || ExactLatency(cdf, chosen, cacheSize - 3 * chosen, ns) == 0
  {
    hide Performance, ExactLatency, WellFormed, Fits;
    PerformanceIsExact(cdf, chosen, cacheSize - 3 * chosen, ns);
    PerformanceIsExact(cdf, other, cacheSize - 3 * other, ns);
    QuotientIsNear(ExactLatency(cdf, chosen, cacheSize - 3 * chosen, ns),
                   ExactLatency(cdf, other, cacheSize - 3 * other, ns), Score(cdf, cacheSize, ns, chosen));
  }

  /** A split of latency 0 loses to every split that has a latency. */
  lemma ZeroLatencyIsPassedOver(cdf: CdfType, cacheSize: nat, ns: Latency, zero: nat, other: nat)
    requires WellFormed(cdf) && Fits(cdf, ns) && cacheSize < U64
    requires 3 * zero <= cacheSize && 3 * other <= cacheSize
    requires ExactLatency(cdf, zero, cacheSize - 3 * zero, ns) == 0
    requires ExactLatency(cdf, other, cacheSize - 3 * other, ns) > 0
    ensures Score(cdf, cacheSize, ns, zero) < Score(cdf, cacheSize, ns, other)
  {
    hide Performance, ExactLatency, WellFormed, Fits;
    PerformanceIsExact(cdf, zero, cacheSize - 3 * zero, ns);
    PerformanceIsExact(cdf, other, cacheSize - 3 * other, ns);
    DivAtLeast(1, U64 - 1, ExactLatency(cdf, other, cacheSize - 3 * other, ns));
  }
}
