/**
 * The bucketed frequency distribution built by get_and_sort_freq.  A key is its numeric id;
 * the decimal text the program keeps matters only for the order of equally frequent keys.
 */
module Cdf {
  import opened Common
  import opened Sorting
  import Decimal

  datatype KeyFreq = KeyFreq(freq: nat, key: nat)

  datatype Entry = Entry(kv: KeyFreq, bucket: nat)

  /** `sums` maps a key to its inclusive running total and its bucket. */
  datatype CdfType = CdfType(entries: seq<Entry>, sums: map<nat, (nat, nat)>)

  /** std::greater on (frequency, key text). */
  predicate ByFreqDesc(a: KeyFreq, b: KeyFreq) {
    a.freq > b.freq || (a.freq == b.freq && Decimal.TextLeq(Decimal.ToText(b.key), Decimal.ToText(a.key)))
  }

  predicate ByKeyDesc(a: KeyFreq, b: KeyFreq) { a.key >= b.key }

  /** The sum of what each frequency has in excess of `t`. */
  function Over(s: seq<KeyFreq>, t: nat): (r: nat) {
    if s == [] then 0 else Over(s[..|s| - 1], t) + Max(s[|s| - 1].freq - t, 0)
  }

  function Total(s: seq<KeyFreq>): (r: nat) { Over(s, 0) }

  function Keys(s: seq<KeyFreq>): (r: set<nat>) { set i | 0 <= i < |s| :: s[i].key }

  predicate Distinct(s: seq<KeyFreq>) {
    forall i, j :: 0 <= i < j < |s| ==> s[i].key != s[j].key
  }

  // ---------------------------------------------------------------- specification

  /** Zero-frequency entries for the keys lo..n that are not present, in ascending order. */
  function Missing(present: set<nat>, lo: nat, n: nat): (r: seq<KeyFreq>)
    decreases n + 1 - lo
  {
    if lo > n then []
    else (if lo in present then [] else [KeyFreq(0, lo)]) + Missing(present, lo + 1, n)
  }

  function Ranked(keyFreq: seq<KeyFreq>, totalKeys: nat): (r: seq<KeyFreq>) {
    SortBy(keyFreq, ByFreqDesc) + Missing(Keys(keyFreq), 1, totalKeys)
  }

  /** The percentile of position i: its inclusive running total, in percent, rounded down. */
  function Pct(all: seq<KeyFreq>, i: nat): (p: nat)
    requires i < |all| && Total(all) > 0
  {
    Total(all[..i + 1]) * 100 / Total(all)
  }

  /** The first position at or after i whose percentile is at least b. */
  function CutFrom(all: seq<KeyFreq>, b: nat, i: nat): (c: nat)
    requires i <= |all| && Total(all) > 0
    ensures i <= c <= |all|
    decreases |all| - i
  {
    if i == |all| || Pct(all, i) >= b then i else CutFrom(all, b, i + 1)
  }

  function Cut(all: seq<KeyFreq>, b: nat): (c: nat)
    requires Total(all) > 0
    ensures c <= |all|
  {
    CutFrom(all, b, 0)
  }

  function Tag(s: seq<KeyFreq>, b: nat): (r: seq<Entry>)
    ensures |r| == |s|
  {
    seq(|s|, i requires 0 <= i < |s| => Entry(s[i], b))
  }

  function Strip(es: seq<Entry>): (r: seq<KeyFreq>)
    ensures |r| == |es|
  {
    seq(|es|, i requires 0 <= i < |es| => es[i].kv)
  }

  /** The keys of bucket b in ranking order: those from Cut(b) up to Cut(b + 1). */
  function Slice(all: seq<KeyFreq>, b: nat): (r: seq<KeyFreq>)
    requires Total(all) > 0
  {
    if Cut(all, b) <= Cut(all, b + 1) then all[Cut(all, b)..Cut(all, b + 1)] else []
  }

  /** The buckets below b, one after the other, each with its ids descending. */
  function Grouped(all: seq<KeyFreq>, b: nat): (r: seq<Entry>)
    requires Total(all) > 0
  {
    if b == 0 then [] else Grouped(all, b - 1) + Tag(SortBy(Slice(all, b - 1), ByKeyDesc), b - 1)
  }

  function Sums(es: seq<Entry>): (m: map<nat, (nat, nat)>) {
    if es == [] then map[]
    else
      var last := es[|es| - 1];
      Sums(es[..|es| - 1])[last.kv.key := (Total(Strip(es)), last.bucket)]
  }

  function CdfOf(all: seq<KeyFreq>): (c: CdfType)
    requires Total(all) > 0
  {
    CdfType(Grouped(all, 101), Sums(Grouped(all, 101)))
  }

  /** What the program needs of its input: a frequency per key, keys in 1..totalKeys, no overflow. */
  predicate GoodInput(keyFreq: seq<KeyFreq>, totalKeys: nat) {
    && Distinct(keyFreq)
    && (forall i :: 0 <= i < |keyFreq| ==> 1 <= keyFreq[i].key <= totalKeys)
    && 0 < Total(keyFreq)
    && Total(keyFreq) * 100 < U64
  }

  // ---------------------------------------------------------------- sums

  lemma {:induction false} OverConcat(a: seq<KeyFreq>, b: seq<KeyFreq>, t: nat)
    ensures Over(a + b, t) == Over(a, t) + Over(b, t)
  {
    if b == [] {
      assert a + b == a;
    } else {
      OverConcat(a, b[..|b| - 1], t);
      assert (a + b)[..|a + b| - 1] == a + b[..|b| - 1];
    }
  }

  lemma OverSplit(s: seq<KeyFreq>, i: nat, t: nat)
    requires i <= |s|
    ensures Over(s, t) == Over(s[..i], t) + Over(s[i..], t)
  {
    OverConcat(s[..i], s[i..], t);
    assert s == s[..i] + s[i..];
  }

  lemma OverRemove(s: seq<KeyFreq>, i: nat, t: nat)
    requires i < |s|
    ensures Over(s, t) == Over(RemoveAt(s, i), t) + Max(s[i].freq - t, 0)
  {
    var head, tail := s[..i], s[i + 1..];
    assert s == head + [s[i]] + tail && (head + [s[i]])[..i] == head;
    OverConcat(head + [s[i]], tail, t);
    OverConcat(head, tail, t);
  }

  lemma {:induction false} OverPermutation(a: seq<KeyFreq>, b: seq<KeyFreq>, t: nat)
    requires multiset(a) == multiset(b)
    ensures Over(a, t) == Over(b, t)
    decreases |a|
  {
    if a == [] {
      assert |multiset(b)| == 0;
    } else {
      hide Over;
      var n := |a| - 1;
      var x := a[n];
      assert x in multiset(b);
      var i :| 0 <= i < |b| && b[i] == x;
      RemoveAtMultiset(a, n);
      RemoveAtMultiset(b, i);
      assert multiset(RemoveAt(a, n)) == multiset(a) - multiset{x};
      assert multiset(RemoveAt(b, i)) == multiset(b) - multiset{x};
      OverPermutation(RemoveAt(a, n), RemoveAt(b, i), t);
      OverRemove(a, n, t);
      OverRemove(b, i, t);
    }
  }

  lemma PrefixStep(s: seq<KeyFreq>, i: nat)
    requires i < |s|
    ensures Total(s[..i + 1]) == Total(s[..i]) + s[i].freq
  {
    assert s[..i + 1][..i] == s[..i];
  }

  lemma PrefixMonotone(s: seq<KeyFreq>, i: nat, j: nat)
    requires i <= j <= |s|
    ensures Total(s[..i]) <= Total(s[..j])
  {
    OverSplit(s[..j], i, 0);
    assert s[..j][..i] == s[..i];
  }

  /** Entries no larger than t add nothing beyond t; entries no smaller add exactly their excess. */
  lemma {:induction false} OverThreshold(s: seq<KeyFreq>, t: nat)
    ensures Total(s) <= Over(s, t) + |s| * t
    ensures (forall i :: 0 <= i < |s| ==> s[i].freq >= t) ==> Total(s) == Over(s, t) + |s| * t
    ensures (forall i :: 0 <= i < |s| ==> s[i].freq <= t) ==> Over(s, t) == 0
  {
    if s != [] {
      var r := s[..|s| - 1];
      OverThreshold(r, t);
      DropLast(s);
      assert |s| * t == |r| * t + t;
      if forall i :: 0 <= i < |s| ==> s[i].freq >= t {
        assert forall i :: 0 <= i < |r| ==> r[i] == s[i];
      }
      if forall i :: 0 <= i < |s| ==> s[i].freq <= t {
        assert forall i :: 0 <= i < |r| ==> r[i] == s[i];
      }
    }
  }

  predicate FreqDescending(s: seq<KeyFreq>) {
    forall i, j :: 0 <= i < j < |s| ==> s[i].freq >= s[j].freq
  }

  /** No reordering of a list sorted by frequency has a larger prefix sum. */
  lemma SortedPrefixIsLargest(a: seq<KeyFreq>, b: seq<KeyFreq>, k: nat)
    requires FreqDescending(a) && multiset(a) == multiset(b) && |a| == |b| && k <= |a|
    ensures Total(b[..k]) <= Total(a[..k])
  {
    if k == |a| {
      OverPermutation(a, b, 0);
      assert a[..k] == a && b[..k] == b;
    } else {
      var t := a[k].freq;
      OverThreshold(b[..k], t);
      OverThreshold(a[..k], t);
      OverThreshold(a[k..], t);
      OverSplit(a, k, t);
      OverSplit(b, k, t);
      OverPermutation(a, b, t);
    }
  }

  // ---------------------------------------------------------------- cuts

  lemma PctMonotone(all: seq<KeyFreq>, i: nat, j: nat)
    requires Total(all) > 0 && i <= j < |all|
    ensures Pct(all, i) <= Pct(all, j) <= 100
  {
    PrefixMonotone(all, i + 1, j + 1);
    PrefixMonotone(all, j + 1, |all|);
    assert all[..|all|] == all;
    DivMonotone(Total(all[..i + 1]) * 100, Total(all[..j + 1]) * 100, Total(all));
    PctAtMost100(Total(all[..j + 1]), Total(all));
  }

  lemma PctAtMost100(part: nat, total: nat)
    requires part <= total && total > 0
    ensures part * 100 / total <= 100
  {
    if part * 100 / total > 100 { DivAtLeast(101, part * 100, total); assert false; }
  }

  lemma {:induction false} CutFromMeaning(all: seq<KeyFreq>, b: nat, i: nat)
    requires i <= |all| && Total(all) > 0
    ensures forall j :: i <= j < CutFrom(all, b, i) ==> Pct(all, j) < b
    ensures CutFrom(all, b, i) < |all| ==> Pct(all, CutFrom(all, b, i)) >= b
    decreases |all| - i
  {
    if !(i == |all| || Pct(all, i) >= b) { CutFromMeaning(all, b, i + 1); }
  }

  /** Position j lies before Cut(b) exactly when its percentile is below b. */
  lemma CutMeaning(all: seq<KeyFreq>, b: nat)
    requires Total(all) > 0
    ensures forall j: nat :: j < |all| ==> (j < Cut(all, b) <==> Pct(all, j) < b)
    ensures b > 100 ==> Cut(all, b) == |all|
    ensures b == 0 ==> Cut(all, b) == 0
    ensures Cut(all, b) <= Cut(all, b + 1)
  {
    CutFromMeaning(all, b, 0);
    CutFromMeaning(all, b + 1, 0);
    var c := Cut(all, b);
    forall j: nat | c <= j < |all| ensures Pct(all, j) >= b { PctMonotone(all, c, j); }
    if b > 100 && c < |all| { PctMonotone(all, c, c); }
  }

  // ---------------------------------------------------------------- the procedure

  lemma Comparators()
    ensures TotalPreorder(ByFreqDesc) && TotalPreorder(ByKeyDesc)
  {
    forall a: KeyFreq, b: KeyFreq ensures ByFreqDesc(a, b) || ByFreqDesc(b, a) {
      Decimal.TextLeqTotal(Decimal.ToText(a.key), Decimal.ToText(b.key));
    }
    forall a: KeyFreq, b: KeyFreq, c: KeyFreq | ByFreqDesc(a, b) && ByFreqDesc(b, c) ensures ByFreqDesc(a, c) {
      if a.freq == b.freq && b.freq == c.freq {
        Decimal.TextLeqTransitive(Decimal.ToText(c.key), Decimal.ToText(b.key), Decimal.ToText(a.key));
      }
    }
  }

  lemma AddKey(s: seq<KeyFreq>, kv: KeyFreq)
    ensures Keys(s + [kv]) == Keys(s) + {kv.key}
  {
    var t := s + [kv];
    assert t[|s|].key == kv.key;
    forall x | x in Keys(s) ensures x in Keys(t) {
      var i :| 0 <= i < |s| && s[i].key == x;
      assert t[i].key == x;
    }
  }

  lemma {:induction false} KeysCount(s: seq<KeyFreq>)
    requires Distinct(s)
    ensures |Keys(s)| == |s|
  {
    if s != [] {
      var n := |s| - 1;
      KeysCount(s[..n]);
      DropLast(s);
      AddKey(s[..n], s[n]);
      hide Keys;
      KeysAreOf(s[..n], s[n].key);
    }
  }

  lemma KeysAreOf(s: seq<KeyFreq>, x: nat)
    ensures x in Keys(s) <==> exists i :: 0 <= i < |s| && s[i].key == x
  {
  }

  lemma PermutedKeys(a: seq<KeyFreq>, b: seq<KeyFreq>)
    requires multiset(a) == multiset(b)
    ensures Keys(a) == Keys(b)
    ensures Distinct(a) ==> Distinct(b)
  {
    forall x | x in Keys(a) ensures x in Keys(b) { KeyTransfers(a, b, x); }
    forall x | x in Keys(b) ensures x in Keys(a) { KeyTransfers(b, a, x); }
    assert Keys(a) == Keys(b);
    if Distinct(a) && !Distinct(b) {
      assert |multiset(a)| == |multiset(b)|;
      KeysCount(a);
      var i, j :| 0 <= i < j < |b| && b[i].key == b[j].key;
      DuplicateKey(b, i, j);
      assert false;
    }
  }

  lemma KeyTransfers(a: seq<KeyFreq>, b: seq<KeyFreq>, x: nat)
    requires multiset(a) == multiset(b) && x in Keys(a)
    ensures x in Keys(b)
  {
    var i :| 0 <= i < |a| && a[i].key == x;
    assert a[i] in multiset(b);
  }

  lemma {:induction false} KeysAtMost(s: seq<KeyFreq>)
    ensures |Keys(s)| <= |s|
  {
    if s != [] {
      var n := |s| - 1;
      KeysAtMost(s[..n]);
      DropLast(s);
      AddKey(s[..n], s[n]);
    }
  }

  lemma DuplicateKey(s: seq<KeyFreq>, i: nat, j: nat)
    requires i < j < |s| && s[i].key == s[j].key
    ensures |Keys(s)| < |s|
  {
    var r := RemoveAt(s, j);
    KeysAtMost(r);
    forall x | x in Keys(s) ensures x in Keys(r) {
      var k :| 0 <= k < |s| && s[k].key == x;
      if k < j { assert r[k].key == x; }
      else if k == j { assert r[i].key == x; }
      else { assert r[k - 1].key == x; }
    }
    SubsetCardinality(Keys(s), Keys(r));
  }

  /** Marks the keys seen, then appends the unmarked ones with frequency zero. */
  method AppendMissing(sorted: seq<KeyFreq>, totalKeys: nat) returns (all: seq<KeyFreq>)
    requires forall i :: 0 <= i < |sorted| ==> 1 <= sorted[i].key <= totalKeys
    ensures all == sorted + Missing(Keys(sorted), 1, totalKeys)
  {
    var keyMap := new bool[totalKeys + 1];
    for i := 1 to totalKeys + 1
      invariant forall k :: 1 <= k < i ==> !keyMap[k]
    {
      keyMap[i] := false;
    }
    for i := 0 to |sorted|
      invariant forall k :: 1 <= k <= totalKeys ==> (keyMap[k] <==> k in Keys(sorted[..i]))
    {
      AddKey(sorted[..i], sorted[i]);
      assert sorted[..i + 1] == sorted[..i] + [sorted[i]];
      keyMap[sorted[i].key] := true;
    }
    assert sorted[..|sorted|] == sorted;
    all := sorted;
    assert sorted + Missing(Keys(sorted), 1, totalKeys) == all + Missing(Keys(sorted), 1, totalKeys);
    for i := 1 to totalKeys + 1
      invariant forall k :: 1 <= k <= totalKeys ==> (keyMap[k] <==> k in Keys(sorted))
      invariant sorted + Missing(Keys(sorted), 1, totalKeys) == all + Missing(Keys(sorted), i, totalKeys)
    {
      ghost var rest := Missing(Keys(sorted), i + 1, totalKeys);
      if !keyMap[i] {
        assert all + ([KeyFreq(0, i)] + rest) == (all + [KeyFreq(0, i)]) + rest;
        all := all + [KeyFreq(0, i)];
      } else {
        assert [] + rest == rest;
      }
    }
    assert all + [] == all;
  }

  method BuildBuckets(all: seq<KeyFreq>) returns (buckets: map<nat, seq<KeyFreq>>)
    requires Total(all) > 0
    ensures forall b :: b in buckets <==> Slice(all, b) != []
    ensures forall b :: b in buckets ==> buckets[b] == Slice(all, b)
  {
    hide Total, Part, Slice;
    PartStart(all);
    var total := 0;
    for i := 0 to |all|
      invariant total == Total(all[..i])
    {
      PrefixStep(all, i);
      total := total + all[i].freq;
    }
    assert all[..|all|] == all;
    buckets := map[];
    var cumulative := 0;
    for i := 0 to |all|
      invariant cumulative == Total(all[..i])
      invariant forall b :: b in buckets <==> Part(all, b, i) != []
      invariant forall b :: b in buckets ==> buckets[b] == Part(all, b, i)
    {
      PrefixStep(all, i);
      cumulative := cumulative + all[i].freq;
      var p := cumulative * 100 / total;
      forall b: nat ensures Part(all, b, i + 1) == if b == p then Part(all, b, i) + [all[i]] else Part(all, b, i) {
        PartStep(all, b, i);
      }
      buckets := buckets[p := (if p in buckets then buckets[p] else []) + [all[i]]];
    }
    PartEnd(all);
  }

  lemma PartStart(all: seq<KeyFreq>)
    requires Total(all) > 0
    ensures Total(all[..0]) == 0
    ensures forall b: nat :: Part(all, b, 0) == []
  {
  }

  lemma PartEnd(all: seq<KeyFreq>)
    requires Total(all) > 0
    ensures forall b: nat :: Part(all, b, |all|) == Slice(all, b)
  {
  }

  /** Bucket b's share of the first i positions. */
  ghost function Part(all: seq<KeyFreq>, b: nat, i: nat): (r: seq<KeyFreq>)
    requires Total(all) > 0 && i <= |all|
  {
    var lo, hi := Min(Cut(all, b), i), Min(Cut(all, b + 1), i);
    if lo <= hi then all[lo..hi] else []
  }

  lemma PartStep(all: seq<KeyFreq>, b: nat, i: nat)
    requires Total(all) > 0 && i < |all|
    ensures Part(all, b, i + 1) == if b == Pct(all, i) then Part(all, b, i) + [all[i]] else Part(all, b, i)
  {
    CutMeaning(all, b);
    CutMeaning(all, b + 1);
    assert i < Cut(all, b) <==> Pct(all, i) < b;
    assert i < Cut(all, b + 1) <==> Pct(all, i) < b + 1;
    hide Cut, Pct, Total;
    var lo, hi := Cut(all, b), Cut(all, b + 1);
    if b < Pct(all, i) {
      assert Min(hi, i + 1) == Min(hi, i) == hi && Min(lo, i + 1) == Min(lo, i);
    } else if b == Pct(all, i) {
      assert Part(all, b, i) == all[lo..i] && Part(all, b, i + 1) == all[lo..i + 1];
    } else {
      assert Part(all, b, i) == [] && Part(all, b, i + 1) == [];
    }
  }

  lemma TagStep(s: seq<KeyFreq>, i: nat, b: nat)
    requires i < |s|
    ensures Tag(s[..i + 1], b) == Tag(s[..i], b) + [Entry(s[i], b)]
  {
  }

  lemma StripStep(es: seq<Entry>, e: Entry)
    ensures Strip(es + [e]) == Strip(es) + [e.kv]
  {
  }

  /** One more entry adds its frequency to the running total and its key to the map. */
  lemma EntryStep(es: seq<Entry>, e: Entry)
    ensures Total(Strip(es + [e])) == Total(Strip(es)) + e.kv.freq
    ensures Sums(es + [e]) == Sums(es)[e.kv.key := (Total(Strip(es)) + e.kv.freq, e.bucket)]
  {
    StripStep(es, e);
    var kvs := Strip(es) + [e.kv];
    assert kvs[..|kvs| - 1] == Strip(es);
    assert (es + [e])[..|es + [e]| - 1] == es;
  }

  /** Appends one bucket, its ids already descending, and records the running totals. */
  method EmitBucket(before: CdfType, cumulativeBefore: nat, bucketKeys: seq<KeyFreq>, b: nat)
    returns (cdf: CdfType, cumulative: nat)
    requires before.sums == Sums(before.entries) && cumulativeBefore == Total(Strip(before.entries))
    ensures cdf.entries == before.entries + Tag(bucketKeys, b)
    ensures cdf.sums == Sums(cdf.entries) && cumulative == Total(Strip(cdf.entries))
  {
    hide Tag, Strip, Sums, Total;
    var entries, sums := before.entries, before.sums;
    cumulative := cumulativeBefore;
    assert Tag([], b) == [];
    for i := 0 to |bucketKeys|
      invariant entries == before.entries + Tag(bucketKeys[..i], b)
      invariant sums == Sums(entries)
      invariant cumulative == Total(Strip(entries))
    {
      var kv := bucketKeys[i];
      TagStep(bucketKeys, i, b);
      EntryStep(entries, Entry(kv, b));
      assert before.entries + (Tag(bucketKeys[..i], b) + [Entry(kv, b)])
          == (before.entries + Tag(bucketKeys[..i], b)) + [Entry(kv, b)];
      entries := entries + [Entry(kv, b)];
      cumulative := cumulative + kv.freq;
      sums := sums[kv.key := (cumulative, b)];
    }
    assert bucketKeys[..|bucketKeys|] == bucketKeys;
    cdf := CdfType(entries, sums);
  }

  method EmitBuckets(all: seq<KeyFreq>, buckets: map<nat, seq<KeyFreq>>) returns (cdf: CdfType)
    requires Total(all) > 0
    requires forall b :: b in buckets <==> Slice(all, b) != []
    requires forall b :: b in buckets ==> buckets[b] == Slice(all, b)
    ensures cdf == CdfOf(all)
  {
    cdf := CdfType([], map[]);
    var cumulative := 0;
    for b := 0 to 101
      invariant cdf.entries == Grouped(all, b)
      invariant cdf.sums == Sums(cdf.entries)
      invariant cumulative == Total(Strip(cdf.entries))
    {
      if b in buckets {
        cdf, cumulative := EmitBucket(cdf, cumulative, SortBy(buckets[b], ByKeyDesc), b);
      } else {
        assert SortBy(Slice(all, b), ByKeyDesc) == [];
        assert cdf.entries + Tag([], b) == cdf.entries;
      }
    }
  }

  /** get_and_sort_freq. */
  method GetAndSortFreq(keyFreq: seq<KeyFreq>, totalKeys: nat) returns (cdf: CdfType)
    requires GoodInput(keyFreq, totalKeys)
    ensures Total(Ranked(keyFreq, totalKeys)) > 0
    ensures cdf == CdfOf(Ranked(keyFreq, totalKeys))
  {
    var sorted := SortBy(keyFreq, ByFreqDesc);
    var kept := if |sorted| > totalKeys then sorted[..totalKeys] else sorted;
    Comparators();
    SortByCorrect(keyFreq, ByFreqDesc);
    AtMostTotalKeys(keyFreq, totalKeys);
    PermutedKeys(keyFreq, sorted);
    forall i | 0 <= i < |sorted| ensures 1 <= sorted[i].key <= totalKeys {
      assert sorted[i].key in Keys(sorted);
    }
    var all := AppendMissing(kept, totalKeys);
    OverPermutation(keyFreq, sorted, 0);
    OverConcat(sorted, Missing(Keys(keyFreq), 1, totalKeys), 0);
    var buckets := BuildBuckets(all);
    cdf := EmitBuckets(all, buckets);
  }

  /** Distinct keys in 1..totalKeys are at most totalKeys many, so the resize drops nothing. */
  lemma AtMostTotalKeys(keyFreq: seq<KeyFreq>, totalKeys: nat)
    requires GoodInput(keyFreq, totalKeys)
    ensures |keyFreq| <= totalKeys
  {
    KeysCount(keyFreq);
    SubsetCardinality(Keys(keyFreq), Range(1, totalKeys + 1));
  }
}
