/** What the bucketed distribution promises, for every input get_and_sort_freq accepts. */
module CdfProperties {
  import opened Common
  import opened Sorting
  import opened Cdf
  import Decimal
  import Watermark

  /** The entry list the procedure returns. */
  ghost function Output(all: seq<KeyFreq>): (es: seq<Entry>)
    requires Total(all) > 0
  {
    CdfOf(all).entries
  }

  ghost predicate BucketEnd(es: seq<Entry>, i: nat)
    requires i < |es|
  {
    i + 1 == |es| || es[i].bucket < es[i + 1].bucket
  }

  // ---------------------------------------------------------------- the ranking

  lemma KeysConcat(a: seq<KeyFreq>, b: seq<KeyFreq>)
    ensures Keys(a + b) == Keys(a) + Keys(b)
  {
    var s := a + b;
    forall x | x in Keys(a) + Keys(b) ensures x in Keys(s) {
      if x in Keys(a) {
        var i :| 0 <= i < |a| && a[i].key == x;
        assert s[i].key == x;
      } else {
        var i :| 0 <= i < |b| && b[i].key == x;
        assert s[|a| + i].key == x;
      }
    }
  }

  lemma {:induction false} MissingEntries(present: set<nat>, lo: nat, n: nat)
    ensures forall i :: 0 <= i < |Missing(present, lo, n)| ==>
              Missing(present, lo, n)[i].freq == 0 && lo <= Missing(present, lo, n)[i].key <= n
    decreases n + 1 - lo
  {
    if lo <= n { MissingEntries(present, lo + 1, n); }
  }

  lemma {:induction false} MissingDistinct(present: set<nat>, lo: nat, n: nat)
    ensures Distinct(Missing(present, lo, n))
    decreases n + 1 - lo
  {
    if lo <= n {
      MissingDistinct(present, lo + 1, n);
      MissingEntries(present, lo + 1, n);
    }
  }

  lemma {:induction false} MissingKeys(present: set<nat>, lo: nat, n: nat)
    ensures forall k :: k in Keys(Missing(present, lo, n)) <==> lo <= k <= n && k !in present
    decreases n + 1 - lo
  {
    if lo <= n {
      MissingKeys(present, lo + 1, n);
      var first: seq<KeyFreq> := if lo in present then [] else [KeyFreq(0, lo)];
      KeysConcat(first, Missing(present, lo + 1, n));
      assert Keys(first) == (if lo in present then {} else {lo}) by {
        if lo !in present { assert first[0].key == lo; }
      }
      hide Keys;
    }
  }

  lemma ConcatDescends(a: seq<KeyFreq>, b: seq<KeyFreq>)
    requires FreqDescending(a) && Distinct(a) && Distinct(b) && Keys(a) !! Keys(b)
    requires forall i :: 0 <= i < |b| ==> b[i].freq == 0
    ensures FreqDescending(a + b) && Distinct(a + b)
  {
    var s := a + b;
    forall i, j | 0 <= i < j < |s| ensures s[i].freq >= s[j].freq && s[i].key != s[j].key {
      if i < |a| <= j {
        assert a[i].key in Keys(a);
        assert b[j - |a|].key in Keys(b);
      }
    }
  }

  lemma SortedIsDescending(keyFreq: seq<KeyFreq>)
    requires Distinct(keyFreq)
    ensures FreqDescending(SortBy(keyFreq, ByFreqDesc)) && Distinct(SortBy(keyFreq, ByFreqDesc))
    ensures multiset(SortBy(keyFreq, ByFreqDesc)) == multiset(keyFreq)
    ensures Keys(SortBy(keyFreq, ByFreqDesc)) == Keys(keyFreq)
  {
    var sorted := SortBy(keyFreq, ByFreqDesc);
    Comparators();
    SortByCorrect(keyFreq, ByFreqDesc);
    PermutedKeys(keyFreq, sorted);
    forall i, j | 0 <= i < j < |sorted| ensures sorted[i].freq >= sorted[j].freq {
      assert ByFreqDesc(sorted[i], sorted[j]);
    }
  }

  lemma RankedKeys(keyFreq: seq<KeyFreq>, totalKeys: nat)
    requires GoodInput(keyFreq, totalKeys)
    ensures Keys(Ranked(keyFreq, totalKeys)) == Range(1, totalKeys + 1)
    ensures FreqDescending(Ranked(keyFreq, totalKeys)) && Distinct(Ranked(keyFreq, totalKeys))
  {
    hide SortBy, Total;
    var missing := Missing(Keys(keyFreq), 1, totalKeys);
    SortedIsDescending(keyFreq);
    MissingEntries(Keys(keyFreq), 1, totalKeys);
    MissingDistinct(Keys(keyFreq), 1, totalKeys);
    MissingKeys(Keys(keyFreq), 1, totalKeys);
    hide Missing;
    KeysConcat(SortBy(keyFreq, ByFreqDesc), missing);
    ConcatDescends(SortBy(keyFreq, ByFreqDesc), missing);
  }

  lemma RankedTotal(keyFreq: seq<KeyFreq>, totalKeys: nat)
    requires GoodInput(keyFreq, totalKeys)
    ensures Total(Ranked(keyFreq, totalKeys)) == Total(keyFreq)
  {
    hide SortBy;
    SortedIsDescending(keyFreq);
    OverPermutation(keyFreq, SortBy(keyFreq, ByFreqDesc), 0);
    var missing := Missing(Keys(keyFreq), 1, totalKeys);
    OverConcat(SortBy(keyFreq, ByFreqDesc), missing, 0);
    MissingEntries(Keys(keyFreq), 1, totalKeys);
    OverThreshold(missing, 0);
  }

  /** The ranking lists every key 1..totalKeys once, most frequent first. */
  lemma RankedIsComplete(keyFreq: seq<KeyFreq>, totalKeys: nat)
    requires GoodInput(keyFreq, totalKeys)
    ensures FreqDescending(Ranked(keyFreq, totalKeys)) && Distinct(Ranked(keyFreq, totalKeys))
    ensures Keys(Ranked(keyFreq, totalKeys)) == Range(1, totalKeys + 1)
    ensures |Ranked(keyFreq, totalKeys)| == totalKeys
    ensures Total(Ranked(keyFreq, totalKeys)) == Total(keyFreq)
  {
    hide Ranked, Total;
    RankedKeys(keyFreq, totalKeys);
    RankedTotal(keyFreq, totalKeys);
    KeysCount(Ranked(keyFreq, totalKeys));
  }

  // ---------------------------------------------------------------- layout of the output

  lemma CutStep(all: seq<KeyFreq>, b: nat)
    requires Total(all) > 0
    ensures Cut(all, b) <= Cut(all, b + 1)
    ensures b == 0 ==> Cut(all, b) == 0
    ensures b > 100 ==> Cut(all, b) == |all|
    ensures all[..Cut(all, b + 1)] == all[..Cut(all, b)] + Slice(all, b)
  {
    CutMeaning(all, b);
  }

  /** Position i lies between the cuts of its own percentile. */
  lemma PctBracket(all: seq<KeyFreq>, i: nat)
    requires Total(all) > 0 && i < |all|
    ensures Pct(all, i) <= 100
    ensures Cut(all, Pct(all, i)) <= i < Cut(all, Pct(all, i) + 1)
  {
    PctMonotone(all, i, i);
    CutMeaning(all, Pct(all, i));
    CutMeaning(all, Pct(all, i) + 1);
  }

  lemma SortedSlice(all: seq<KeyFreq>, b: nat) returns (part: seq<KeyFreq>)
    requires Total(all) > 0
    ensures part == SortBy(Slice(all, b), ByKeyDesc)
    ensures |part| == |Slice(all, b)| && multiset(part) == multiset(Slice(all, b)) && Sorted(part, ByKeyDesc)
    ensures Strip(Tag(part, b)) == part
  {
    Comparators();
    SortByCorrect(Slice(all, b), ByKeyDesc);
    part := SortBy(Slice(all, b), ByKeyDesc);
  }

  lemma AppendTagged(before: seq<Entry>, part: seq<KeyFreq>, b: nat, head: seq<KeyFreq>, slice: seq<KeyFreq>)
    requires multiset(Strip(before)) == multiset(head) && |before| == |head|
    requires multiset(part) == multiset(slice) && |part| == |slice|
    ensures multiset(Strip(before + Tag(part, b))) == multiset(head + slice)
    ensures |before + Tag(part, b)| == |head + slice|
  {
    assert Strip(before + Tag(part, b)) == Strip(before) + part;
  }

  lemma GroupedStep(all: seq<KeyFreq>, b: nat)
    requires Total(all) > 0
    requires |Grouped(all, b)| == Cut(all, b)
    requires multiset(Strip(Grouped(all, b))) == multiset(all[..Cut(all, b)])
    ensures |Grouped(all, b + 1)| == Cut(all, b + 1)
    ensures multiset(Strip(Grouped(all, b + 1))) == multiset(all[..Cut(all, b + 1)])
  {
    hide Cut, Strip, Slice, Tag;
    CutStep(all, b);
    var part := SortedSlice(all, b);
    AppendTagged(Grouped(all, b), part, b, all[..Cut(all, b)], Slice(all, b));
  }

  lemma GroupedBase(all: seq<KeyFreq>)
    requires Total(all) > 0
    ensures Grouped(all, 0) == [] && Cut(all, 0) == 0
    ensures multiset(Strip(Grouped(all, 0))) == multiset(all[..Cut(all, 0)])
  {
    hide Total, Pct;
    CutStep(all, 0);
    assert all[..0] == [];
  }

  lemma {:induction false} GroupedLayout(all: seq<KeyFreq>, b: nat)
    requires Total(all) > 0
    ensures |Grouped(all, b)| == Cut(all, b)
    ensures multiset(Strip(Grouped(all, b))) == multiset(all[..Cut(all, b)])
  {
    hide Cut, Strip, Grouped, Total;
    if b == 0 {
      GroupedBase(all);
    } else {
      GroupedLayout(all, b - 1);
      GroupedStep(all, b - 1);
    }
  }

  lemma GroupedExtends(all: seq<KeyFreq>, b: nat)
    requires Total(all) > 0
    ensures Grouped(all, b) <= Grouped(all, b + 1)
  {
    hide Slice, SortBy, Tag, Total;
  }

  lemma PrefixTransitive(a: seq<Entry>, b: seq<Entry>, c: seq<Entry>)
    requires a <= b && b <= c
    ensures a <= c
  {
  }

  lemma {:induction false} GroupedGrows(all: seq<KeyFreq>, b: nat, c: nat)
    requires Total(all) > 0 && b <= c
    ensures Grouped(all, b) <= Grouped(all, c)
    decreases c
  {
    hide Grouped, Total;
    if b < c {
      GroupedGrows(all, b, c - 1);
      GroupedExtends(all, c - 1);
      PrefixTransitive(Grouped(all, b), Grouped(all, c - 1), Grouped(all, c));
    }
  }

  /** The output keeps the ranking's keys; its first Cut(b) entries are the ranking's first Cut(b). */
  lemma OutputBlocks(all: seq<KeyFreq>, b: nat)
    requires Total(all) > 0 && b <= 101
    ensures |Output(all)| == |all| && Cut(all, b) <= |all|
    ensures multiset(Strip(Output(all))[..Cut(all, b)]) == multiset(all[..Cut(all, b)])
  {
    GroupedLayout(all, 101);
    GroupedLayout(all, b);
    GroupedGrows(all, b, 101);
    CutStep(all, 101);
    assert Strip(Output(all))[..Cut(all, b)] == Strip(Grouped(all, b));
  }

  /** Bucket b's keys sit between its two cuts, in its sorted order. */
  lemma EntryInBucket(all: seq<KeyFreq>, b: nat, i: nat)
    requires Total(all) > 0 && b <= 100 && Cut(all, b) <= i < Cut(all, b + 1)
    ensures |Output(all)| == |all| && Cut(all, b + 1) <= |all|
    ensures i - Cut(all, b) < |SortBy(Slice(all, b), ByKeyDesc)|
    ensures Output(all)[i] == Entry(SortBy(Slice(all, b), ByKeyDesc)[i - Cut(all, b)], b)
  {
    hide Cut, Slice, Strip, SortBy, Total;
    OutputBlocks(all, 101);
    GroupedLayout(all, b);
    GroupedLayout(all, b + 1);
    GroupedGrows(all, b + 1, 101);
    assert Grouped(all, b + 1) == Grouped(all, b) + Tag(SortBy(Slice(all, b), ByKeyDesc), b);
    assert Output(all)[i] == Grouped(all, b + 1)[i];
  }

  /** Position i carries the percentile of the i-th ranked key, and one of that bucket's keys. */
  lemma EntryAt(all: seq<KeyFreq>, i: nat)
    requires Total(all) > 0 && i < |all|
    ensures |Output(all)| == |all| && Pct(all, i) <= 100
    ensures Output(all)[i].bucket == Pct(all, i)
    ensures Cut(all, Pct(all, i)) <= i < Cut(all, Pct(all, i) + 1)
    ensures var part := SortBy(Slice(all, Pct(all, i)), ByKeyDesc);
            i - Cut(all, Pct(all, i)) < |part| && Output(all)[i].kv == part[i - Cut(all, Pct(all, i))]
  {
    hide Cut, Slice, SortBy, Pct, Total;
    PctBracket(all, i);
    EntryInBucket(all, Pct(all, i), i);
  }

  lemma BlockEnds(all: seq<KeyFreq>, i: nat)
    requires Total(all) > 0 && i < |all| == |Output(all)|
    ensures BucketEnd(Output(all), i) <==> i + 1 == Cut(all, Pct(all, i) + 1)
    ensures i + 1 < |all| ==> Output(all)[i].bucket <= Output(all)[i + 1].bucket
  {
    hide Total, Cut, Pct, Output, Slice, SortBy;
    EntryAt(all, i);
    CutAtMost(all, Pct(all, i) + 1);
    if i + 1 < |all| {
      EntryAt(all, i + 1);
      PctMonotone(all, i, i + 1);
      if Pct(all, i) < Pct(all, i + 1) { CutsAscend(all, Pct(all, i) + 1, Pct(all, i + 1)); }
    }
  }

  lemma CutAtMost(all: seq<KeyFreq>, b: nat)
    requires Total(all) > 0
    ensures Cut(all, b) <= |all|
  {
  }

  // ---------------------------------------------------------------- main results

  /** Every key 1..totalKeys appears exactly once in the output. */
  lemma EveryKeyOnce(keyFreq: seq<KeyFreq>, totalKeys: nat)
    requires GoodInput(keyFreq, totalKeys) && Total(Ranked(keyFreq, totalKeys)) > 0
    ensures var es := Output(Ranked(keyFreq, totalKeys));
            |es| == totalKeys && Distinct(Strip(es)) && Keys(Strip(es)) == Range(1, totalKeys + 1)
    ensures multiset(keyFreq) <= multiset(Strip(Output(Ranked(keyFreq, totalKeys))))
  {
    var all := Ranked(keyFreq, totalKeys);
    RankedIsComplete(keyFreq, totalKeys);
    OutputBlocks(all, 101);
    CutMeaning(all, 101);
    var kvs := Strip(Output(all));
    assert kvs[..|all|] == kvs && all[..|all|] == all;
    PermutedKeys(all, kvs);
    Comparators();
    SortByCorrect(keyFreq, ByFreqDesc);
  }

  /** Bucket ids never decrease, and the last one is 100. */
  lemma BucketsAscendTo100(all: seq<KeyFreq>)
    requires Total(all) > 0
    ensures forall i, j :: 0 <= i < j < |Output(all)| ==> Output(all)[i].bucket <= Output(all)[j].bucket
    ensures Output(all) != [] && Output(all)[|Output(all)| - 1].bucket == 100
  {
    OutputBlocks(all, 101);
    var n := |all|;
    forall i, j | 0 <= i < j < n ensures Output(all)[i].bucket <= Output(all)[j].bucket {
      EntryAt(all, i);
      EntryAt(all, j);
      PctMonotone(all, i, j);
    }
    EntryAt(all, n - 1);
    assert all[..n] == all;
    DivAtLeast(100, Total(all) * 100, Total(all));
    PctMonotone(all, n - 1, n - 1);
  }

  lemma SliceMember(all: seq<KeyFreq>, i: nat) returns (r: nat)
    requires Total(all) > 0 && i < |all| == |Output(all)|
    ensures r < |all| && Output(all)[i].kv == all[r]
    ensures Cut(all, Output(all)[i].bucket) <= r < Cut(all, Output(all)[i].bucket + 1)
  {
    hide Total, Cut, Pct, Output, SortBy, Slice;
    EntryAt(all, i);
    SliceIsRange(all, Output(all)[i].bucket);
    var b, x := Output(all)[i].bucket, Output(all)[i].kv;
    var part := SortedSlice(all, b);
    assert x in multiset(part);
    var k := IndexIn(Slice(all, b), x);
    r := Cut(all, b) + k;
  }

  lemma SliceIsRange(all: seq<KeyFreq>, b: nat)
    requires Total(all) > 0
    ensures Cut(all, b) <= Cut(all, b + 1) <= |all|
    ensures Slice(all, b) == all[Cut(all, b)..Cut(all, b + 1)]
  {
    CutStep(all, b);
  }

  lemma IndexIn(s: seq<KeyFreq>, x: KeyFreq) returns (k: nat)
    requires x in multiset(s)
    ensures k < |s| && s[k] == x
  {
    k :| 0 <= k < |s| && s[k] == x;
  }

  /** A key in an earlier bucket is at least as frequent; inside a bucket the ids strictly descend. */
  lemma BucketOrder(all: seq<KeyFreq>, i: nat, j: nat)
    requires Total(all) > 0 && FreqDescending(all) && Distinct(all)
    requires i < j < |Output(all)| == |all|
    ensures Output(all)[i].bucket < Output(all)[j].bucket ==> Output(all)[i].kv.freq >= Output(all)[j].kv.freq
    ensures Output(all)[i].bucket == Output(all)[j].bucket ==> Output(all)[i].kv.key > Output(all)[j].kv.key
  {
    var es := Output(all);
    if es[i].bucket < es[j].bucket {
      var r := SliceMember(all, i);
      var q := SliceMember(all, j);
      CutsAscend(all, es[i].bucket + 1, es[j].bucket);
    } else if es[i].bucket == es[j].bucket {
      EntryAt(all, i);
      EntryAt(all, j);
      Comparators();
      SortByCorrect(Slice(all, es[i].bucket), ByKeyDesc);
      OutputBlocks(all, 101);
      CutMeaning(all, 101);
      assert Strip(es)[..|all|] == Strip(es) && all[..|all|] == all;
      PermutedKeys(all, Strip(es));
      assert Strip(es)[i].key != Strip(es)[j].key;
    }
  }

  lemma {:induction false} CutsAscend(all: seq<KeyFreq>, b: nat, c: nat)
    requires Total(all) > 0 && b <= c
    ensures Cut(all, b) <= Cut(all, c)
    decreases c
  {
    if b < c {
      CutsAscend(all, b, c - 1);
      CutMeaning(all, c - 1);
    }
  }

  /**
   * The cut-off taken from position `local` splits the keys there: exactly the keys before it are in an
   * earlier bucket, or in its bucket with a larger id.
   */
  lemma CutOffSplitsTheKeys(all: seq<KeyFreq>, local: nat, i: nat)
    requires Total(all) > 0 && FreqDescending(all) && Distinct(all)
    requires local < |all| == |Output(all)| && i < |all|
    ensures var cutOff, e := Output(all)[local], Output(all)[i];
            e.bucket < cutOff.bucket || (e.bucket == cutOff.bucket && e.kv.key > cutOff.kv.key) <==> i < local
  {
    hide Total, Output, FreqDescending, Distinct;
    BucketsAscendTo100(all);
    if i < local {
      BucketOrder(all, i, local);
    } else if local < i {
      BucketOrder(all, local, i);
    }
  }

  // ---------------------------------------------------------------- equally frequent keys, and absent ones

  /** One text before another, by the first character in which they differ, or as a proper prefix. */
  ghost predicate TextBefore(a: string, b: string) {
    exists i: nat :: DiffersAt(a, b, i)
  }

  ghost predicate DiffersAt(a: string, b: string, i: nat) {
    && i <= |a| && i < |b| && a[..i] == b[..i]
    && (i == |a| || a[i] < b[i])
  }

  lemma {:induction false} LeqIsBeforeOrSame(a: string, b: string)
    requires Decimal.TextLeq(a, b)
    ensures a == b || TextBefore(a, b)
  {
    if a == [] {
      if b != [] { assert DiffersAt(a, b, 0); }
    } else if a[0] != b[0] {
      assert DiffersAt(a, b, 0);
    } else {
      LeqIsBeforeOrSame(a[1..], b[1..]);
      if a[1..] == b[1..] {
        assert a == [a[0]] + a[1..] && b == [b[0]] + b[1..];
      } else {
        var i: nat :| DiffersAt(a[1..], b[1..], i);
        assert a[..i + 1] == [a[0]] + a[1..][..i] && b[..i + 1] == [b[0]] + b[1..][..i];
        assert DiffersAt(a, b, i + 1);
      }
    }
  }

  /** Different keys have different texts. */
  lemma SameTextSameKey(x: nat, y: nat)
    requires Decimal.ToText(x) == Decimal.ToText(y)
    ensures x == y
  {
    Decimal.ReadsBack(x);
    Decimal.ReadsBack(y);
  }

  /** In the ranking the given keys come first, equally frequent ones by descending text. */
  lemma RankingBreaksTies(keyFreq: seq<KeyFreq>, totalKeys: nat, p: nat, q: nat)
    requires GoodInput(keyFreq, totalKeys) && p < q < |Ranked(keyFreq, totalKeys)|
    ensures var all := Ranked(keyFreq, totalKeys);
            all[q].key in Keys(keyFreq) ==>
              all[p].key in Keys(keyFreq)
              && (all[p].freq == all[q].freq ==> TextBefore(Decimal.ToText(all[q].key), Decimal.ToText(all[p].key)))
  {
    hide Total, Decimal.ToText, Decimal.TextLeq, TextBefore;
    var ranked, missing := SortBy(keyFreq, ByFreqDesc), Missing(Keys(keyFreq), 1, totalKeys);
    var all := ranked + missing;
    assert all == Ranked(keyFreq, totalKeys);
    RankedKeys(keyFreq, totalKeys);
    SortedIsDescending(keyFreq);
    MissingKeys(Keys(keyFreq), 1, totalKeys);
    Comparators();
    SortByCorrect(keyFreq, ByFreqDesc);
    if all[q].key in Keys(keyFreq) {
      assert forall m :: 0 <= m < |missing| ==> missing[m].key in Keys(missing);
      assert q < |ranked|;
      assert ranked[p].key in Keys(ranked);
      if all[p].freq == all[q].freq {
        assert ByFreqDesc(ranked[p], ranked[q]);
        LeqIsBeforeOrSame(Decimal.ToText(all[q].key), Decimal.ToText(all[p].key));
        if Decimal.ToText(all[q].key) == Decimal.ToText(all[p].key) { SameTextSameKey(all[q].key, all[p].key); }
      }
    }
  }

  /**
   * In the result itself: of two given keys with the same frequency the one in the earlier bucket has the
   * larger text, and no absent key is in an earlier bucket than a given one.
   */
  lemma TiesAndAbsentees(keyFreq: seq<KeyFreq>, totalKeys: nat, i: nat, j: nat)
    requires GoodInput(keyFreq, totalKeys) && Total(Ranked(keyFreq, totalKeys)) > 0
    requires i < |Output(Ranked(keyFreq, totalKeys))| && j < |Output(Ranked(keyFreq, totalKeys))|
    ensures var a, b := Output(Ranked(keyFreq, totalKeys))[i], Output(Ranked(keyFreq, totalKeys))[j];
            a.bucket < b.bucket && b.kv.key in Keys(keyFreq) ==>
              a.kv.key in Keys(keyFreq)
              && (a.kv.freq == b.kv.freq ==> TextBefore(Decimal.ToText(b.kv.key), Decimal.ToText(a.kv.key)))
  {
    hide Total, Output, Ranked, Cut, TextBefore, Decimal.ToText;
    var all := Ranked(keyFreq, totalKeys);
    var a, b := Output(all)[i], Output(all)[j];
    if a.bucket < b.bucket && b.kv.key in Keys(keyFreq) {
      OutputBlocks(all, 101);
      var p := SliceMember(all, i);
      var q := SliceMember(all, j);
      CutsAscend(all, a.bucket + 1, b.bucket);
      RankingBreaksTies(keyFreq, totalKeys, p, q);
    }
  }

  /** The map holds each key's inclusive running total and its bucket. */
  lemma {:induction false} SumsHoldRunningTotals(es: seq<Entry>, i: nat)
    requires Distinct(Strip(es)) && i < |es|
    ensures es[i].kv.key in Sums(es)
    ensures Sums(es)[es[i].kv.key] == (Total(Strip(es)[..i + 1]), es[i].bucket)
  {
    var n := |es| - 1;
    assert Strip(es[..n]) == Strip(es)[..n];
    if i < n {
      assert forall x, y :: 0 <= x < y < n ==> Strip(es)[x].key != Strip(es)[y].key;
      SumsHoldRunningTotals(es[..n], i);
      assert Strip(es)[..n][..i + 1] == Strip(es)[..i + 1];
      assert Strip(es)[i].key != Strip(es)[n].key;
    } else {
      assert Strip(es)[..n + 1] == Strip(es);
    }
  }

  lemma SamePrefixTotal(a: seq<KeyFreq>, b: seq<KeyFreq>, k: nat)
    requires k <= |a| && k <= |b| && multiset(a[..k]) == multiset(b[..k])
    ensures Total(a[..k]) == Total(b[..k])
  {
    OverPermutation(a[..k], b[..k], 0);
  }

  /** Reordering inside buckets never raises a running total, and restores it at every bucket end. */
  lemma PrefixesNeverExceedRanking(all: seq<KeyFreq>, k: nat)
    requires Total(all) > 0 && FreqDescending(all) && k <= |all|
    ensures |Output(all)| == |all|
    ensures Total(Strip(Output(all))[..k]) <= Total(all[..k])
    ensures k > 0 && BucketEnd(Output(all), k - 1) ==> Total(Strip(Output(all))[..k]) == Total(all[..k])
  {
    hide Total, Cut, Pct, Output, Slice, SortBy, Strip;
    OutputBlocks(all, 101);
    CutStep(all, 101);
    var kvs := Strip(Output(all));
    assert kvs[..|all|] == kvs && all[..|all|] == all;
    SortedPrefixIsLargest(all, kvs, k);
    if k > 0 && BucketEnd(Output(all), k - 1) {
      EntryAt(all, k - 1);
      BlockEnds(all, k - 1);
      OutputBlocks(all, Pct(all, k - 1) + 1);
      SamePrefixTotal(all, kvs, k);
    }
  }

  /** In the output, bucket b's own running totals stay between those of the ranking at its two cuts. */
  lemma OutputTotalsBetweenCuts(all: seq<KeyFreq>, b: nat, k: nat)
    requires Total(all) > 0 && b <= 100 && Cut(all, b) <= k <= Cut(all, b + 1)
    ensures |Output(all)| == |all|
    ensures Total(all[..Cut(all, b)]) <= Total(Strip(Output(all))[..k]) <= Total(all[..Cut(all, b + 1)])
    ensures k == Cut(all, b + 1) ==> Total(Strip(Output(all))[..k]) == Total(all[..k])
  {
    var kvs, lo, hi := Strip(Output(all)), Cut(all, b), Cut(all, b + 1);
    OutputBlocks(all, b);
    OutputBlocks(all, b + 1);
    OverPermutation(all[..lo], kvs[..lo], 0);
    OverPermutation(all[..hi], kvs[..hi], 0);
    PrefixMonotone(kvs, lo, k);
    PrefixMonotone(kvs, k, hi);
  }

  /** The true percentile of output position i, after the reordering. */
  ghost function TruePct(all: seq<KeyFreq>, i: nat): nat
    requires Total(all) > 0 && i < |Output(all)|
  {
    Total(Strip(Output(all))[..i + 1]) * 100 / Total(all)
  }

  lemma PctAt(all: seq<KeyFreq>, i: nat, b: nat)
    requires Total(all) > 0 && i < |all| && Cut(all, b) <= i < Cut(all, b + 1)
    ensures Pct(all, i) == b
  {
    CutMeaning(all, b);
    CutMeaning(all, b + 1);
  }

  /**
   * The bucket label stays honest after the reordering: the true percentile of an output position
   * lies between the previous bucket and its own, and equals its own at the bucket's end.
   */
  lemma BucketLabelsAreHonest(all: seq<KeyFreq>, i: nat)
    requires Total(all) > 0 && i < |all|
    ensures |Output(all)| == |all|
    ensures TruePct(all, i) <= Output(all)[i].bucket
    ensures BucketEnd(Output(all), i) ==> TruePct(all, i) == Output(all)[i].bucket
    ensures forall j :: 0 <= j < i && Output(all)[j].bucket < Output(all)[i].bucket ==>
              Output(all)[j].bucket <= TruePct(all, i)
  {
    hide Cut, Output, Strip, Total, Slice, SortBy, Pct;
    EntryAt(all, i);
    BlockEnds(all, i);
    var b := Pct(all, i);
    OutputTotalsBetweenCuts(all, b, i + 1);
    PctAt(all, Cut(all, b + 1) - 1, b);
    LabelAbove(all, i, Cut(all, b + 1));
    forall j | 0 <= j < i && Output(all)[j].bucket < b ensures Output(all)[j].bucket <= TruePct(all, i) {
      EntryAt(all, j);
      assert j < Cut(all, b) by { if Cut(all, b) <= j { PctAt(all, j, b); } }
      PrefixMonotone(all, j + 1, Cut(all, b));
      LabelBelow(all, i, j);
    }
  }

  lemma LabelAbove(all: seq<KeyFreq>, i: nat, hi: nat)
    requires Total(all) > 0 && i < |Output(all)| && 0 < hi <= |all|
    requires Total(Strip(Output(all))[..i + 1]) <= Total(all[..hi])
    ensures TruePct(all, i) <= Pct(all, hi - 1)
    ensures Total(Strip(Output(all))[..i + 1]) == Total(all[..hi]) ==> TruePct(all, i) == Pct(all, hi - 1)
  {
    hide Total, Output, Strip;
    DivMonotone(Total(Strip(Output(all))[..i + 1]) * 100, Total(all[..hi]) * 100, Total(all));
  }

  lemma LabelBelow(all: seq<KeyFreq>, i: nat, j: nat)
    requires Total(all) > 0 && i < |Output(all)| && j < |all|
    requires Total(all[..j + 1]) <= Total(Strip(Output(all))[..i + 1])
    ensures Pct(all, j) <= TruePct(all, i)
  {
    hide Total, Output, Strip;
    DivMonotone(Total(all[..j + 1]) * 100, Total(Strip(Output(all))[..i + 1]) * 100, Total(all));
  }

  lemma SameTotal(a: seq<KeyFreq>, b: seq<KeyFreq>)
    requires |a| == |b| && multiset(a[..|a|]) == multiset(b[..|a|])
    ensures Total(a) == Total(b)
  {
    assert a[..|a|] == a && b[..|a|] == b;
    OverPermutation(a, b, 0);
  }

  lemma MapServes(es: seq<Entry>)
    requires Distinct(Strip(es)) && es != [] && Total(Strip(es)) < U64 && |es| < U64
    ensures Watermark.WellFormed(CdfType(es, Sums(es)))
  {
    hide Total, Strip, Sums;
    forall i {:trigger es[i]} | 0 <= i < |es|
      ensures es[i].kv.key in Sums(es) && Sums(es)[es[i].kv.key].0 == Total(Strip(es)[..i + 1])
    {
      SumsHoldRunningTotals(es, i);
    }
  }

  /** What get_and_sort_freq builds is exactly what the optimiser's lookups need. */
  lemma BuiltCdfServesTheOptimiser(keyFreq: seq<KeyFreq>, totalKeys: nat)
    requires GoodInput(keyFreq, totalKeys) && totalKeys < U64 && Total(Ranked(keyFreq, totalKeys)) > 0
    ensures Watermark.WellFormed(CdfOf(Ranked(keyFreq, totalKeys)))
    ensures Total(Strip(CdfOf(Ranked(keyFreq, totalKeys)).entries)) == Total(keyFreq)
  {
    var all := Ranked(keyFreq, totalKeys);
    hide Total, Ranked, Cut, Strip, Sums, Grouped;
    RankedIsComplete(keyFreq, totalKeys);
    EveryKeyOnce(keyFreq, totalKeys);
    BucketsAscendTo100(all);
    OutputBlocks(all, 101);
    CutStep(all, 101);
    SameTotal(all, Strip(Output(all)));
    MapServes(Output(all));
  }
}
