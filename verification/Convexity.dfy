/** The reference form of the optimiser: linear costs over keys sorted by frequency. */
module Convexity {
  import opened Common
  import opened Sorting
  import opened Cdf
  import opened Watermark

  predicate ByFreqOnly(a: KeyFreq, b: KeyFreq) { a.freq >= b.freq }

  /** sort_keys_by_frequency: how often each key occurs, most frequent first. */
  method SortKeysByFrequency(keys: seq<nat>) returns (ranked: seq<KeyFreq>)
    ensures FreqDescending(ranked) && Distinct(ranked)
    ensures forall kv :: kv in ranked ==> kv.freq == multiset(keys)[kv.key] > 0
    ensures Keys(ranked) == set k | k in keys
  {
    var frequency: map<nat, nat> := map[];
    for i := 0 to |keys|
      invariant frequency.Keys == set k | k in keys[..i]
      invariant forall k :: k in frequency ==> frequency[k] == multiset(keys[..i])[k]
    {
      assert keys[..i + 1] == keys[..i] + [keys[i]];
      var k := keys[i];
      frequency := frequency[k := (if k in frequency then frequency[k] else 0) + 1];
    }
    assert keys[..|keys|] == keys;
    var pairs: seq<KeyFreq>, left := [], frequency.Keys;
    while left != {}
      invariant left <= frequency.Keys
      invariant Distinct(pairs) && Keys(pairs) == frequency.Keys - left
      invariant forall kv :: kv in pairs ==> kv.key in frequency && kv.freq == frequency[kv.key]
      decreases left
    {
      var k :| k in left;
      assert forall i :: 0 <= i < |pairs| ==> pairs[i].key in Keys(pairs);
      ghost var was := pairs;
      pairs := pairs + [KeyFreq(frequency[k], k)];
      assert Keys(pairs) == Keys(was) + {k} by { AddKey(was, pairs[|was|]); }
      left := left - {k};
    }
    ranked := SortBy(pairs, ByFreqOnly);
    SortedByFreq(pairs);
  }

  lemma SortedByFreq(pairs: seq<KeyFreq>)
    requires Distinct(pairs)
    ensures var ranked := SortBy(pairs, ByFreqOnly);
            FreqDescending(ranked) && Distinct(ranked) && Keys(ranked) == Keys(pairs)
            && forall kv :: kv in ranked ==> kv in pairs
  {
    var ranked := SortBy(pairs, ByFreqOnly);
    SortByCorrect(pairs, ByFreqOnly);
    PermutedKeys(pairs, ranked);
    forall i, j | 0 <= i < j < |ranked| ensures ranked[i].freq >= ranked[j].freq {
      assert ByFreqOnly(ranked[i], ranked[j]);
    }
    forall kv | kv in ranked ensures kv in pairs {
      assert kv in multiset(ranked);
    }
  }

  /** The latency of a split: the first keys at cache cost, the next at RDMA cost, the rest at disk cost. */
  function LinearLatency(kvs: seq<KeyFreq>, local: nat, remote: nat, ns: Latency): (r: nat)
    requires local + remote <= |kvs|
  {
    Total(kvs[..local]) * ns.cache + Total(kvs[local..local + remote]) * ns.rdma
    + Total(kvs[local + remote..]) * ns.disk
  }

  /** calculate_performance of the reference form; the source divides by the latency unguarded. */
  method CalculatePerformance(kvs: seq<KeyFreq>, local: nat, remote: nat, ns: Latency) returns (performance: nat)
    requires local + remote <= |kvs| && 0 < LinearLatency(kvs, local, remote, ns) < U64
    ensures performance * LinearLatency(kvs, local, remote, ns) <= U64 - 1
    ensures U64 - 1 < (performance + 1) * LinearLatency(kvs, local, remote, ns)
  {
    var localAccesses := SumLoop(kvs, 0, local);
    var remoteAccesses := SumLoop(kvs, local, local + remote);
    var diskAccesses := SumLoop(kvs, local + remote, |kvs|);
    assert kvs[0..local] == kvs[..local] && kvs[local + remote..|kvs|] == kvs[local + remote..];
    ghost var latency := LinearLatency(kvs, local, remote, ns);
    performance := (U64 - 1) / (localAccesses * ns.cache + remoteAccesses * ns.rdma + diskAccesses * ns.disk);
    DivAtLeast(performance, U64 - 1, latency);
    DivBelow(performance + 1, U64 - 1, latency);
  }

  /** The latency along the budget line remote == cacheSize - 3 * local. */
  function Along(kvs: seq<KeyFreq>, cacheSize: nat, ns: Latency, local: nat): (r: nat)
    requires 3 * local <= cacheSize <= |kvs|
  {
    LinearLatency(kvs, local, cacheSize - 3 * local, ns)
  }

  /** One more local key: what its accesses save, against what the two displaced remote keys cost. */
  function Slope(kvs: seq<KeyFreq>, cacheSize: nat, ns: Latency, local: nat): (r: int)
    requires 3 * (local + 1) <= cacheSize <= |kvs|
  {
    (ns.disk - ns.rdma) * (kvs[cacheSize - 2 * local - 1].freq + kvs[cacheSize - 2 * local - 2].freq)
    - (ns.rdma - ns.cache) * kvs[local].freq
  }

  lemma TakeOne(kvs: seq<KeyFreq>, i: nat, j: nat)
    requires i < j <= |kvs|
    ensures Total(kvs[i..j]) == Total(kvs[i..j - 1]) + kvs[j - 1].freq
    ensures Total(kvs[i..j]) == kvs[i].freq + Total(kvs[i + 1..j])
  {
    MiddleTotal(kvs, i, j);
    MiddleTotal(kvs, i, j - 1);
    MiddleTotal(kvs, i + 1, j);
    PrefixStep(kvs, i);
    PrefixStep(kvs, j - 1);
  }

  /** The shares at local and at local + 1, in terms of what both have in common. */
  lemma Shares(kvs: seq<KeyFreq>, local: nat, m: nat)
    requires local + 3 <= m <= |kvs|
    ensures Total(kvs[..local + 1]) == Total(kvs[..local]) + kvs[local].freq
    ensures Total(kvs[local..m]) == kvs[local].freq + Total(kvs[local + 1..m - 2]) + kvs[m - 1].freq + kvs[m - 2].freq
    ensures Total(kvs[m - 2..]) == Total(kvs[m..]) + kvs[m - 1].freq + kvs[m - 2].freq
  {
    hide Total;
    PrefixStep(kvs, local);
    TakeOne(kvs, local, m);
    TakeOne(kvs, local + 1, m);
    TakeOne(kvs, local + 1, m - 1);
    var n := |kvs|;
    TakeOne(kvs, m - 1, n);
    TakeOne(kvs, m - 2, n);
    assert kvs[m - 2..n] == kvs[m - 2..] && kvs[m - 1..n] == kvs[m - 1..] && kvs[m..n] == kvs[m..];
  }

  lemma SlopeIsDifference(kvs: seq<KeyFreq>, cacheSize: nat, ns: Latency, local: nat)
    requires 3 * (local + 1) <= cacheSize <= |kvs|
    ensures Along(kvs, cacheSize, ns, local + 1) - Along(kvs, cacheSize, ns, local) == Slope(kvs, cacheSize, ns, local)
  {
    hide Total;
    var m := cacheSize - 2 * local;
    Shares(kvs, local, m);
    var a, b, d := Total(kvs[..local]), Total(kvs[local + 1..m - 2]), Total(kvs[m..]);
    var f, g := kvs[local].freq, kvs[m - 1].freq + kvs[m - 2].freq;
    Distribute(a, b, d, f, g, ns);
  }

  lemma Distribute(a: nat, b: nat, d: nat, f: nat, g: nat, ns: Latency)
    ensures ((a + f) * ns.cache + b * ns.rdma + (d + g) * ns.disk)
              - (a * ns.cache + (f + b + g) * ns.rdma + d * ns.disk)
              == (ns.disk - ns.rdma) * g - (ns.rdma - ns.cache) * f
  {
  }

  /** The latency is convex along the budget line. */
  lemma SlopesAscend(kvs: seq<KeyFreq>, cacheSize: nat, ns: Latency, local: nat)
    requires FreqDescending(kvs) && ns.cache <= ns.rdma <= ns.disk
    requires 3 * (local + 2) <= cacheSize <= |kvs|
    ensures Slope(kvs, cacheSize, ns, local) <= Slope(kvs, cacheSize, ns, local + 1)
  {
    var m := cacheSize - 2 * local;
    MulMonotone(kvs[m - 1].freq + kvs[m - 2].freq, kvs[m - 3].freq + kvs[m - 4].freq, ns.disk - ns.rdma);
    MulMonotone(kvs[local + 1].freq, kvs[local].freq, ns.rdma - ns.cache);
  }

  /** Two steps down or up the line, as differences. */
  lemma TwoSlopes(kvs: seq<KeyFreq>, cacheSize: nat, ns: Latency, l: nat)
    requires FreqDescending(kvs) && ns.cache <= ns.rdma <= ns.disk
    requires 3 * (l + 2) <= cacheSize <= |kvs|
    ensures Along(kvs, cacheSize, ns, l + 1) - Along(kvs, cacheSize, ns, l)
            <= Along(kvs, cacheSize, ns, l + 2) - Along(kvs, cacheSize, ns, l + 1)
  {
    hide Along, Slope, FreqDescending;
    SlopeIsDifference(kvs, cacheSize, ns, l);
    SlopeIsDifference(kvs, cacheSize, ns, l + 1);
    SlopesAscend(kvs, cacheSize, ns, l);
  }

  lemma {:induction false} RisesAfter(kvs: seq<KeyFreq>, cacheSize: nat, ns: Latency, l: nat, m: nat)
    requires FreqDescending(kvs) && ns.cache <= ns.rdma <= ns.disk
    requires l < m && 3 * m <= cacheSize <= |kvs|
    requires Along(kvs, cacheSize, ns, l) <= Along(kvs, cacheSize, ns, l + 1)
    ensures Along(kvs, cacheSize, ns, l) <= Along(kvs, cacheSize, ns, m)
    decreases m - l
  {
    hide Along, FreqDescending;
    if l + 1 < m {
      TwoSlopes(kvs, cacheSize, ns, l);
      RisesAfter(kvs, cacheSize, ns, l + 1, m);
    }
  }

  lemma {:induction false} FallsBefore(kvs: seq<KeyFreq>, cacheSize: nat, ns: Latency, l: nat, m: nat)
    requires FreqDescending(kvs) && ns.cache <= ns.rdma <= ns.disk
    requires m < l && 3 * l <= cacheSize <= |kvs|
    requires Along(kvs, cacheSize, ns, l) <= Along(kvs, cacheSize, ns, l - 1)
    ensures Along(kvs, cacheSize, ns, l) <= Along(kvs, cacheSize, ns, m)
    decreases l - m
  {
    hide Along, FreqDescending;
    if m < l - 1 {
      TwoSlopes(kvs, cacheSize, ns, l - 2);
      FallsBefore(kvs, cacheSize, ns, l - 1, m);
    }
  }

  /** A split that neither neighbour beats is a global optimum, so climbing cannot get trapped. */
  lemma LocalOptimumIsGlobal(kvs: seq<KeyFreq>, cacheSize: nat, ns: Latency, l: nat, m: nat)
    requires FreqDescending(kvs) && ns.cache <= ns.rdma <= ns.disk
    requires 3 * l <= cacheSize <= |kvs| && 3 * m <= cacheSize
    requires l > 0 ==> Along(kvs, cacheSize, ns, l) <= Along(kvs, cacheSize, ns, l - 1)
    requires 3 * (l + 1) <= cacheSize ==> Along(kvs, cacheSize, ns, l) <= Along(kvs, cacheSize, ns, l + 1)
    ensures Along(kvs, cacheSize, ns, l) <= Along(kvs, cacheSize, ns, m)
  {
    if l < m {
      RisesAfter(kvs, cacheSize, ns, l, m);
    } else if m < l {
      FallsBefore(kvs, cacheSize, ns, l, m);
    }
  }

  // ---------------------------------------------------------------- the same for the rounded score

  /** What calculate_performance makes of a latency. */
  function Quotient(latency: nat): (r: nat)
    requires latency > 0
  {
    (U64 - 1) / latency
  }

  /** No smaller latency has the same score. */
  predicate Sharp(latency: nat) {
    latency > 1 ==> Quotient(latency - 1) > Quotient(latency)
  }

  lemma QuotientFalls(a: nat, b: nat)
    requires 0 < a <= b
    ensures Quotient(b) <= Quotient(a)
  {
    DivAtLeast(Quotient(b), U64 - 1, b);
    MulMonotone(a, b, Quotient(b));
    DivAtLeast(Quotient(b), U64 - 1, a);
  }

  /** Latencies up to 2^32 are all told apart by their scores. */
  lemma SmallIsSharp(latency: nat)
    requires latency <= 0x1_0000_0000
    ensures Sharp(latency)
  {
    if latency > 1 {
      var a, q := latency - 1, Quotient(latency);
      DivAtLeast(q, U64 - 1, latency);
      assert q * latency == q * a + q;
      if q >= a {
        DivAtLeast(q + 1, U64 - 1, a);
        assert (q + 1) * a == q * a + a;
      } else {
        // The quotient is at least the latency, less one, as the latency is at most 2^32.
        MulMonotone(latency, 0x1_0000_0000, a);
        MulMonotone(a, 0xFFFF_FFFF, 0x1_0000_0000);
        DivAtLeast(a, U64 - 1, latency);
        assert a * latency == latency * a;
      }
    }
  }

  /** A step that scores no better is no faster, if the score of the start is sharp. */
  lemma NoBetterScore(latency: nat, other: nat)
    requires latency > 0 && other > 0 && Sharp(latency) && Quotient(other) <= Quotient(latency)
    ensures latency <= other
  {
    if other < latency { QuotientFalls(other, latency - 1); }
  }

  /**
   * So a split whose neighbours score no higher scores highest on the whole budget line, provided its own
   * score is sharp; for latencies up to 2^32 it always is.
   */
  lemma ScoreOptimumIsGlobal(kvs: seq<KeyFreq>, cacheSize: nat, ns: Latency, l: nat, m: nat)
    requires FreqDescending(kvs) && ns.cache <= ns.rdma <= ns.disk
    requires 3 * l <= cacheSize <= |kvs| && 3 * m <= cacheSize
    requires forall k: nat :: 3 * k <= cacheSize ==> Along(kvs, cacheSize, ns, k) > 0
    requires Sharp(Along(kvs, cacheSize, ns, l))
    requires l > 0 ==> Quotient(Along(kvs, cacheSize, ns, l - 1)) <= Quotient(Along(kvs, cacheSize, ns, l))
    requires 3 * (l + 1) <= cacheSize ==>
               Quotient(Along(kvs, cacheSize, ns, l + 1)) <= Quotient(Along(kvs, cacheSize, ns, l))
    ensures Quotient(Along(kvs, cacheSize, ns, m)) <= Quotient(Along(kvs, cacheSize, ns, l))
  {
    hide Along, Quotient, Sharp, FreqDescending;
    var here := Along(kvs, cacheSize, ns, l);
    if l > 0 { NoBetterScore(here, Along(kvs, cacheSize, ns, l - 1)); }
    if 3 * (l + 1) <= cacheSize { NoBetterScore(here, Along(kvs, cacheSize, ns, l + 1)); }
    LocalOptimumIsGlobal(kvs, cacheSize, ns, l, m);
    QuotientFalls(here, Along(kvs, cacheSize, ns, m));
  }

  /** Six keys, each asked for once. */
  function SixKeys(): (kvs: seq<KeyFreq>) {
    [KeyFreq(1, 1), KeyFreq(1, 2), KeyFreq(1, 3), KeyFreq(1, 4), KeyFreq(1, 5), KeyFreq(1, 6)]
  }

  lemma SixTotal()
    ensures Total(SixKeys()) == 6
  {
    var kvs := SixKeys();
    PrefixStep(kvs, 0);
    PrefixStep(kvs, 1);
    PrefixStep(kvs, 2);
    PrefixStep(kvs, 3);
    PrefixStep(kvs, 4);
    PrefixStep(kvs, 5);
    assert kvs[..0] == [] && kvs[..6] == kvs;
  }

  lemma SixSlopes(ns: Latency)
    requires ns == Latency(8589934590, 8589934603, 8589934602)
    ensures Slope(SixKeys(), 6, ns, 0) == Slope(SixKeys(), 6, ns, 1) == -10
  {
  }

  lemma PlateauLatencies(ns: Latency)
    requires ns == Latency(8589934590, 8589934603, 8589934602)
    ensures Along(SixKeys(), 6, ns, 0) == 51539607612
    ensures Along(SixKeys(), 6, ns, 1) == 51539607602 && Along(SixKeys(), 6, ns, 2) == 51539607592
  {
    var kvs := SixKeys();
    SixTotal();
    assert kvs[..0] == [] && kvs[0..6] == kvs && kvs[6..] == [];
    hide Total;
    assert Total([]) == 0 by { NoTotal(); }
    assert Along(kvs, 6, ns, 0) == 6 * ns.rdma;
    SixSlopes(ns);
    hide Along, Slope;
    SlopeIsDifference(kvs, 6, ns, 0);
    SlopeIsDifference(kvs, 6, ns, 1);
  }

  lemma NoTotal()
    ensures Total([]) == 0
  {
  }

  /** Without a sharp score a plateau can hide the better split two steps on. */
  lemma PlateauTraps()
    ensures var kvs, ns := SixKeys(), Latency(8589934590, 8589934603, 8589934602);
            && FreqDescending(kvs) && ns.cache <= ns.rdma <= ns.disk
            && Along(kvs, 6, ns, 0) == 51539607612 && Along(kvs, 6, ns, 1) == 51539607602
            && Along(kvs, 6, ns, 2) == 51539607592
            && Quotient(51539607612) == Quotient(51539607602) < Quotient(51539607592)
  {
    var kvs, ns := SixKeys(), Latency(8589934590, 8589934603, 8589934602);
    PlateauLatencies(ns);
  }
}
