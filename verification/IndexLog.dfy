/**
 * Batched replication of the key index: a circular log written by appends, shipped whole whenever slot
 * 0 is written, and drained slot by slot on the peer.  The results about what peers end up with are
 * for logs that are each drained once before the next arrives; the wait before shipping looks only at
 * a peer's slot 0 and does not establish that.
 */
module IndexLog {
  import opened Common
  import opened IndexReplication

  datatype LogEntry = LogEntry(key: nat, index: Index, filled: bool)

  /** What one append carries. */
  datatype Entry = Entry(key: nat, index: Index)

  /** The key of a slot never written. */
  const NO_KEY: nat := U64 - 1

  const EMPTY: LogEntry := LogEntry(NO_KEY, Invalid, false)

  function Filled(e: Entry): (l: LogEntry) { LogEntry(e.key, e.index, true) }

  // ---------------------------------------------------------------- specification

  /** The log's slots after the given appends, numbered from 0. */
  function LogAfter(es: seq<Entry>, max: nat): (log: seq<LogEntry>)
    requires max > 0
    ensures |log| == max
  {
    if es == [] then seq(max, _ => EMPTY)
    else LogAfter(es[..|es| - 1], max)[(|es| - 1) % max := Filled(es[|es| - 1])]
  }

  /** The copy after the first n slots of a log have been applied, slot 0 first. */
  function ApplyLog(copy: seq<Index>, log: seq<LogEntry>, n: nat): (r: seq<Index>)
    requires n <= |log|
    ensures |r| == |copy|
  {
    if n == 0 then copy
    else
      var before := ApplyLog(copy, log, n - 1);
      var e := log[n - 1];
      if e.filled && e.key != NO_KEY && e.key < |copy| then before[e.key := e.index] else before
  }

  function Cleared(log: seq<LogEntry>): (r: seq<LogEntry>)
    ensures |r| == |log| && forall i :: 0 <= i < |log| ==> r[i] == log[i].(filled := false)
  {
    seq(|log|, i requires 0 <= i < |log| => log[i].(filled := false))
  }

  /** The copy after applying entries in the order they were appended. */
  function Fold(copy: seq<Index>, es: seq<Entry>): (r: seq<Index>)
    ensures |r| == |copy|
  {
    if es == [] then copy
    else
      var before := Fold(copy, es[..|es| - 1]);
      var e := es[|es| - 1];
      if e.key < |copy| then before[e.key := e.index] else before
  }

  predicate NoneFilled(round: seq<LogEntry>) {
    forall p :: 0 <= p < |round| ==> !round[p].filled
  }

  // ---------------------------------------------------------------- the log object

  class CacheIndexLogs {
    const max: nat
    /** The own log: `max` slots, and one more that readiness probes land in. */
    const log: array<LogEntry>
    var logIndex: nat

    ghost predicate Valid()
      reads this
    {
      0 < max && log.Length == max + 1
    }

    /** The slots appends write, as opposed to the probe slot. */
    ghost function Slots(): (r: seq<LogEntry>)
      requires Valid()
      reads this, log
    {
      log[..max]
    }

    constructor (size: nat)
      requires size > 0
      ensures Valid() && max == size && logIndex == 0 && fresh(log)
      ensures Slots() == LogAfter([], size) && NoneFilled(Slots())
    {
      max := size;
      log := new LogEntry[size + 1](_ => EMPTY);
      logIndex := 0;
      new;
      assert log[..max] == seq(size, _ => EMPTY);
    }

    /** One readiness round: each peer's slot 0 is read into the probe slot and counted if unfilled. */
    method ReadyRound(round: seq<LogEntry>) returns (ready: bool)
      requires Valid()
      modifies log
      ensures Slots() == old(Slots())
      ensures ready <==> NoneFilled(round)
    {
      var machinesReady, p := 0, 0;
      while p < |round|
        invariant 0 <= p <= |round| && machinesReady <= p
        invariant log[..max] == old(log[..max])
        invariant machinesReady == p <==> NoneFilled(round[..p])
      {
        log[max] := round[p];
        if !log[max].filled {
          machinesReady := machinesReady + 1;
        }
        assert forall q :: 0 <= q < p ==> round[..p + 1][q] == round[..p][q];
        assert round[..p + 1][p] == round[p];
        p := p + 1;
      }
      assert round[..|round|] == round;
      ready := machinesReady == |round|;
    }

    /**
     * append_entry.  `rounds` is what successive readiness rounds read from the peers' slot 0; a round
     * in which none is filled ends the wait.  The result is the log shipped, or None where this append
     * does not write slot 0 or the rounds run out first.
     */
    method AppendEntry(e: Entry, rounds: seq<seq<LogEntry>>, ghost es: seq<Entry>)
      returns (shipped: Option<seq<LogEntry>>)
      requires Valid() && logIndex == |es| && Slots() == LogAfter(es, max)
      modifies this, log
      ensures Valid() && logIndex == |es + [e]| && Slots() == LogAfter(es + [e], max)
      ensures shipped.Some? <==> |es| % max == 0 && exists r :: 0 <= r < |rounds| && NoneFilled(rounds[r])
      ensures shipped.Some? ==> |shipped.value| == max + 1 && shipped.value[..max] == LogAfter(es + [e], max)
    {
      shipped := None;
      var current := logIndex % max;
      logIndex := logIndex + 1;
      log[current] := Filled(e);
      assert (es + [e])[..|es|] == es;
      assert log[..max] == LogAfter(es + [e], max);
      if current == 0 {
        var r := 0;
        while r < |rounds| && shipped.None?
          invariant 0 <= r <= |rounds| && logIndex == |es| + 1
          invariant log[..max] == LogAfter(es + [e], max)
          invariant shipped.Some? ==> |shipped.value| == max + 1 && shipped.value[..max] == LogAfter(es + [e], max)
          invariant shipped.Some? <==> exists q :: 0 <= q < r && NoneFilled(rounds[q])
        {
          var ready := ReadyRound(rounds[r]);
          if ready {
            log[max] := log[max].(filled := true);
            shipped := Some(log[..]);
            assert log[..][..max] == log[..max];
          }
          r := r + 1;
        }
      }
    }
  }

  /** One pass of the background worker over a received log. */
  method Drain(log: array<LogEntry>, copy: array<Index>)
    requires log.Length > 0
    requires forall j :: 0 <= j < log.Length - 1 && log[j].filled && log[j].key != NO_KEY ==> log[j].key < copy.Length
    modifies log, copy
    ensures copy[..] == ApplyLog(old(copy[..]), old(log[..]), log.Length - 1)
    ensures log[..] == Cleared(old(log[..]))
  {
    var max := log.Length - 1;
    var j := 0;
    while j < max
      invariant 0 <= j <= max
      invariant forall i :: 0 <= i < log.Length ==>
                  log[i] == if i < j then old(log[i]).(filled := false) else old(log[i])
      invariant copy[..] == ApplyLog(old(copy[..]), old(log[..]), j)
    {
      if log[j].filled {
        var key, index := log[j].key, log[j].index;
        log[j] := log[j].(filled := false);
        if key != NO_KEY {
          copy[key] := index;
        }
      }
      j := j + 1;
    }
    log[max] := log[max].(filled := false);
  }

  /** A second pass over the same log changes nothing. */
  lemma {:induction false} SecondDrainIsIdle(copy: seq<Index>, log: seq<LogEntry>, n: nat)
    requires n <= |log|
    ensures ApplyLog(copy, Cleared(log), n) == copy
    ensures Cleared(Cleared(log)) == Cleared(log)
  {
    if n > 0 { SecondDrainIsIdle(copy, log, n - 1); }
  }

  // ---------------------------------------------------------------- what each flush carries

  lemma {:induction false} ModOf(q: nat, max: nat, r: nat)
    requires r < max
    ensures (q * max + r) % max == r && (q * max + r) / max == q
  {
    DivAtLeast(q, q * max + r, max);
    DivAtLeast(q + 1, q * max + r, max);
    assert (q + 1) * max == q * max + max;
    var d := (q * max + r) / max;
    assert d == q;
    assert (q * max + r) == d * max + (q * max + r) % max;
  }

  /** After q * max + r appends, slots below r hold this lap's entries and the others the last lap's. */
  lemma {:induction false} SlotsAfter(es: seq<Entry>, max: nat, q: nat, r: nat)
    requires 0 < max && r < max && |es| == q * max + r
    ensures forall j :: 0 <= j < r ==> q * max + j < |es| && LogAfter(es, max)[j] == Filled(es[q * max + j])
    ensures q == 0 ==> forall j :: r <= j < max ==> LogAfter(es, max)[j] == EMPTY
    ensures q > 0 ==> forall j :: r <= j < max ==>
              0 <= (q - 1) * max + j < |es| && LogAfter(es, max)[j] == Filled(es[(q - 1) * max + j])
    decreases |es|
  {
    if r > 0 {
      SlotsAfter(es[..|es| - 1], max, q, r - 1);
      ModOf(q, max, r - 1);
      LapIndex(q, max);
    } else if q > 0 {
      LapIndex(q, max);
      SlotsAfter(es[..|es| - 1], max, q - 1, max - 1);
      ModOf(q - 1, max, max - 1);
    }
  }

  lemma LapIndex(q: nat, max: nat)
    ensures q > 0 ==> q * max == (q - 1) * max + max && (q - 1) * max >= 0
  {
  }

  /** The log that append number m * max ships. */
  function Flush(es: seq<Entry>, max: nat, m: nat): (log: seq<LogEntry>)
    requires 0 < max && m * max < |es|
  {
    LogAfter(es[..m * max + 1], max)
  }

  /** Flush m's entries besides the newest, in append order: numbers (m - 1) * max + 1 .. m * max - 1. */
  function Batch(es: seq<Entry>, max: nat, m: nat): (b: seq<Entry>)
    requires 0 < max && 0 < m && m * max < |es|
    ensures |b| == max - 1
  {
    LapIndex(m, max);
    es[(m - 1) * max + 1..m * max]
  }

  /** Flush m >= 1 carries exactly entries (m - 1) * max + 1 .. m * max, the newest of them in slot 0. */
  lemma FlushCarries(es: seq<Entry>, max: nat, m: nat)
    requires 0 < max && 0 < m && m * max < |es|
    ensures Flush(es, max, m)[0] == Filled(es[m * max])
    ensures forall j :: 1 <= j < max ==> Flush(es, max, m)[j] == Filled(Batch(es, max, m)[j - 1])
  {
    LapIndex(m, max);
    var sent := es[..m * max + 1];
    ModOf(m, max, 0);
    var earlier := es[..m * max];
    assert sent[..m * max] == earlier;
    SlotsAfter(earlier, max, m, 0);
    assert Flush(es, max, m) == LogAfter(earlier, max)[0 := Filled(es[m * max])];
    forall j | 1 <= j < max ensures Flush(es, max, m)[j] == Filled(Batch(es, max, m)[j - 1]) {
      assert LogAfter(earlier, max)[j] == Filled(earlier[(m - 1) * max + j]);
    }
  }

  lemma FirstFlushCarries(es: seq<Entry>, max: nat)
    requires 0 < max && 0 < |es|
    ensures Flush(es, max, 0)[0] == Filled(es[0])
    ensures forall j :: 1 <= j < max ==> Flush(es, max, 0)[j] == EMPTY
  {
    assert es[..0 * max + 1] == [es[0]];
    assert [es[0]][..0] == [];
    ModOf(0, max, 0);
    assert Flush(es, max, 0) == LogAfter([], max)[0 := Filled(es[0])];
  }

  /** The number of the entry in slot j of flush m, if the slot is filled. */
  function Source(max: nat, m: nat, j: nat): (i: Option<nat>)
    requires j < max
  {
    if m == 0 then (if j == 0 then Some(0) else None)
    else if j == 0 then Some(m * max)
    else
      LapIndex(m, max);
      Some((m - 1) * max + j)
  }

  /** Every slot of every shipped log holds the entry with that number, and is empty where there is none. */
  lemma FlushSource(es: seq<Entry>, max: nat, m: nat, j: nat)
    requires 0 < max && m * max < |es| && j < max
    ensures match Source(max, m, j)
            case None => Flush(es, max, m)[j] == LogEntry(NO_KEY, Invalid, false)
            case Some(i) => i <= m * max < |es| && Flush(es, max, m)[j] == Filled(es[i])
  {
    LapIndex(m, max);
    if m == 0 {
      FirstFlushCarries(es, max);
    } else {
      FlushCarries(es, max, m);
    }
  }

  /** Entry i has gone out, in slot j of flush m. */
  ghost predicate Ships(es: seq<Entry>, max: nat, m: nat, j: nat, i: nat)
    requires 0 < max && i < |es|
  {
    j < max && m * max < |es| && Source(max, m, j) == Some(i) && Flush(es, max, m)[j] == Filled(es[i])
  }

  ghost predicate Shipped(es: seq<Entry>, max: nat, i: nat)
    requires 0 < max && i < |es|
  {
    exists m: nat, j: nat :: Ships(es, max, m, j, i)
  }

  /** The flush and the slot that entry i belongs in. */
  lemma PlaceOf(max: nat, i: nat) returns (m: nat, j: nat)
    requires 0 < max
    ensures j < max && Source(max, m, j) == Some(i) && i <= m * max < i + max
  {
    if i == 0 {
      m, j := 0, 0;
    } else {
      m := (i - 1) / max + 1;
      DivAtLeast(m - 1, i - 1, max);
      DivAtLeast(m, i - 1, max);
      LapIndex(m, max);
      j := if i == m * max then 0 else i - (m - 1) * max;
    }
  }

  lemma SourceBounds(max: nat, m: nat, j: nat, i: nat)
    requires j < max && Source(max, m, j) == Some(i)
    ensures i <= m * max < i + max
    ensures m > 0 ==> (m - 1) * max < i
  {
    LapIndex(m, max);
  }

  /** No entry is in two slots of the shipped logs. */
  lemma EachEntrySentOnce(es: seq<Entry>, max: nat, i: nat, m: nat, j: nat, m': nat, j': nat)
    requires 0 < max && i < |es| && Ships(es, max, m, j, i) && Ships(es, max, m', j', i)
    ensures m == m' && j == j'
  {
    SourceBounds(max, m, j, i);
    SourceBounds(max, m', j', i);
    if m < m' { MulMonotone(m, m' - 1, max); }
    if m' < m { MulMonotone(m', m - 1, max); }
  }

  /** The entry count at the last flush so far, less one. */
  function LastSent(max: nat, appended: nat): (i: nat)
    requires 0 < max && 0 < appended
    ensures i < appended <= i + max
  {
    var m := (appended - 1) / max;
    DivAtLeast(m, appended - 1, max);
    DivAtLeast(m + 1, appended - 1, max);
    assert (m + 1) * max == m * max + max;
    m * max
  }

  /** An entry has gone out if and only if a flush has come at or after it. */
  lemma ShippedExactlyUpToLastFlush(es: seq<Entry>, max: nat, i: nat)
    requires 0 < max && i < |es|
    ensures Shipped(es, max, i) <==> i <= LastSent(max, |es|)
  {
    var q := (|es| - 1) / max;
    if Shipped(es, max, i) {
      var m: nat, j: nat :| Ships(es, max, m, j, i);
      SourceBounds(max, m, j, i);
      DivAtLeast(m, |es| - 1, max);
      MulMonotone(m, q, max);
    }
    if i <= LastSent(max, |es|) {
      var m, j := PlaceOf(max, i);
      if m > q {
        MulMonotone(q + 1, m, max);
        SourceBounds(max, m, j, i);
        MulMonotone(q, m - 1, max);
        assert false;
      }
      MulMonotone(m, q, max);
      FlushSource(es, max, m, j);
      assert Ships(es, max, m, j, i);
    }
  }

  /** At any time at most max - 1 entries have not gone out in any log. */
  lemma AtMostMaxUnsent(es: seq<Entry>, max: nat)
    requires 0 < max
    ensures |set i | 0 <= i < |es| && !Shipped(es, max, i)| <= max - 1
  {
    var unsent := set i | 0 <= i < |es| && !Shipped(es, max, i);
    if es == [] {
      assert unsent == {};
    } else {
      var last := LastSent(max, |es|);
      forall i | i in unsent ensures i in Range(last + 1, |es|) { ShippedExactlyUpToLastFlush(es, max, i); }
      SubsetCardinality(unsent, Range(last + 1, |es|));
    }
  }

  // ---------------------------------------------------------------- what the peers end up with

  /** The last entry for a key. */
  function LastIn(es: seq<Entry>, key: nat): (r: Option<Index>) {
    if es == [] then None
    else if es[|es| - 1].key == key then Some(es[|es| - 1].index)
    else LastIn(es[..|es| - 1], key)
  }

  lemma {:induction false} FoldAt(copy: seq<Index>, es: seq<Entry>, key: nat)
    requires key < |copy|
    ensures Fold(copy, es)[key] == match LastIn(es, key) case None => copy[key] case Some(v) => v
  {
    if es != [] { FoldAt(copy, es[..|es| - 1], key); }
  }

  lemma {:induction false} LastInConcat(a: seq<Entry>, b: seq<Entry>, key: nat)
    ensures LastIn(a + b, key) == if LastIn(b, key).Some? then LastIn(b, key) else LastIn(a, key)
  {
    if b == [] {
      assert a + b == a;
    } else {
      LastInConcat(a, b[..|b| - 1], key);
      assert (a + b)[..|a + b| - 1] == a + b[..|b| - 1];
    }
  }

  predicate KeysInRange(es: seq<Entry>, keys: nat) {
    keys <= NO_KEY && forall i :: 0 <= i < |es| ==> es[i].key < keys
  }

  /** Draining a flush applies its newest entry first, then the others in append order. */
  lemma {:induction false} DrainOrder(copy: seq<Index>, es: seq<Entry>, max: nat, m: nat, n: nat)
    requires 0 < max && 0 < m && m * max < |es| && KeysInRange(es, |copy|) && n < max
    ensures ApplyLog(copy, Flush(es, max, m), n + 1) == Fold(copy, [es[m * max]] + Batch(es, max, m)[..n])
  {
    FlushCarries(es, max, m);
    LapIndex(m, max);
    var order := [es[m * max]] + Batch(es, max, m)[..n];
    if n == 0 {
      assert order[..0] == [] && ApplyLog(copy, Flush(es, max, m), 0) == copy;
    } else {
      DrainOrder(copy, es, max, m, n - 1);
      assert order[..|order| - 1] == [es[m * max]] + Batch(es, max, m)[..n - 1];
    }
  }

  /** A peer's copy after flushes 0..m have each been drained once, in order. */
  function Drained(copy: seq<Index>, es: seq<Entry>, max: nat, m: nat): (r: seq<Index>)
    requires 0 < max && m * max < |es|
    ensures |r| == |copy|
  {
    if m == 0 then ApplyLog(copy, Flush(es, max, 0), max)
    else
      LapIndex(m, max);
      ApplyLog(Drained(copy, es, max, m - 1), Flush(es, max, m), max)
  }

  /** The newest entry of flush m is overtaken by an older, different one for the same key in its batch. */
  predicate Overtaken(es: seq<Entry>, max: nat, m: nat, key: nat)
    requires 0 < max && 0 < m && m * max < |es|
  {
    var newest := es[m * max];
    newest.key == key && LastIn(Batch(es, max, m), key).Some? && LastIn(Batch(es, max, m), key) != Some(newest.index)
  }

  /** The key occurs among the entries flush m carries. */
  predicate InFlush(es: seq<Entry>, max: nat, m: nat, key: nat)
    requires 0 < max && 0 < m && m * max < |es|
  {
    es[m * max].key == key || LastIn(Batch(es, max, m), key).Some?
  }

  /** In the last flush up to m that mentions the key, its newest entry is not overtaken. */
  predicate Current(es: seq<Entry>, max: nat, m: nat, key: nat)
    requires 0 < max && m * max < |es|
  {
    if m == 0 then true
    else
      LapIndex(m, max);
      if InFlush(es, max, m, key) then !Overtaken(es, max, m, key) else Current(es, max, m - 1, key)
  }

  lemma FirstDrain(copy: seq<Index>, es: seq<Entry>, max: nat)
    requires 0 < max && 0 < |es| && KeysInRange(es, |copy|)
    ensures Drained(copy, es, max, 0) == Fold(copy, es[..1])
  {
    FirstFlushCarries(es, max);
    OnlySlotZero(copy, Flush(es, max, 0), max);
    assert es[..1][..0] == [];
  }

  lemma {:induction false} OnlySlotZero(copy: seq<Index>, log: seq<LogEntry>, n: nat)
    requires 1 <= n <= |log| && forall j :: 1 <= j < n ==> log[j] == EMPTY
    ensures ApplyLog(copy, log, n) == ApplyLog(copy, log, 1)
  {
    if n > 1 { OnlySlotZero(copy, log, n - 1); }
  }

  lemma LastInOne(e: Entry, key: nat)
    ensures LastIn([e], key) == if e.key == key then Some(e.index) else None
  {
    assert [e][..0] == [];
  }

  /** What draining flush m does at a key: an older entry of the batch wins over the newest. */
  lemma DrainedAt(before: seq<Index>, es: seq<Entry>, max: nat, m: nat, key: nat)
    requires 0 < max && 0 < m && m * max < |es| && KeysInRange(es, |before|) && key < |before|
    ensures ApplyLog(before, Flush(es, max, m), max)[key] ==
              match LastIn(Batch(es, max, m), key)
              case Some(v) => v
              case None => if es[m * max].key == key then es[m * max].index else before[key]
  {
    hide ApplyLog, Flush, Fold, LastIn;
    var newest, batch := es[m * max], Batch(es, max, m);
    DrainOrder(before, es, max, m, max - 1);
    assert batch[..max - 1] == batch;
    FoldAt(before, [newest] + batch, key);
    LastInConcat([newest], batch, key);
    LastInOne(newest, key);
  }

  /** What appending flush m's entries does at a key: the newest wins. */
  lemma AppendedAt(copy: seq<Index>, es: seq<Entry>, max: nat, m: nat, key: nat)
    requires 0 < max && 0 < m && m * max < |es| && key < |copy|
    ensures 0 <= (m - 1) * max < m * max
    ensures Fold(copy, es[..m * max + 1])[key] ==
              if es[m * max].key == key then es[m * max].index
              else match LastIn(Batch(es, max, m), key)
                   case Some(v) => v
                   case None => Fold(copy, es[..(m - 1) * max + 1])[key]
  {
    hide Fold, LastIn;
    LapIndex(m, max);
    var newest, batch, head := es[m * max], Batch(es, max, m), es[..(m - 1) * max + 1];
    assert es[..m * max + 1] == head + (batch + [newest]);
    FoldAt(copy, head + (batch + [newest]), key);
    FoldAt(copy, head, key);
    LastInConcat(head, batch + [newest], key);
    LastInConcat(batch, [newest], key);
    LastInOne(newest, key);
  }

  /**
   * After flush m, a peer's copy has the last entry appended for a key if and only if, in the last flush
   * that mentions the key, its newest entry was not overtaken: the key was not slot 0's, or did not recur
   * in that batch, or recurred with the same entry.
   */
  lemma {:induction false} CopyIsCurrentExactlyWhen(copy: seq<Index>, es: seq<Entry>, max: nat, m: nat, key: nat)
    requires 0 < max && m * max < |es| && KeysInRange(es, |copy|) && key < |copy|
    ensures Drained(copy, es, max, m)[key] == Fold(copy, es[..m * max + 1])[key] <==> Current(es, max, m, key)
  {
    if m == 0 {
      FirstDrain(copy, es, max);
      assert es[..0 * max + 1] == es[..1];
    } else {
      hide ApplyLog, Flush, Fold, LastIn, Batch;
      LapIndex(m, max);
      CopyIsCurrentExactlyWhen(copy, es, max, m - 1, key);
      DrainedAt(Drained(copy, es, max, m - 1), es, max, m, key);
      AppendedAt(copy, es, max, m, key);
    }
  }

  /** Where no batch repeats its slot-0 key, every drained copy equals the last entry per key. */
  lemma NoRepeatsMeansEqual(copy: seq<Index>, es: seq<Entry>, max: nat, m: nat)
    requires 0 < max && m * max < |es| && KeysInRange(es, |copy|)
    requires forall i :: 1 <= i <= m && i * max < |es| ==> LastIn(Batch(es, max, i), es[i * max].key).None?
    ensures Drained(copy, es, max, m) == Fold(copy, es[..m * max + 1])
  {
    forall key | 0 <= key < |copy|
      ensures Drained(copy, es, max, m)[key] == Fold(copy, es[..m * max + 1])[key]
    {
      NoRepeatsMeansCurrent(es, max, m, key);
      CopyIsCurrentExactlyWhen(copy, es, max, m, key);
    }
  }

  lemma {:induction false} NoRepeatsMeansCurrent(es: seq<Entry>, max: nat, m: nat, key: nat)
    requires 0 < max && m * max < |es|
    requires forall i :: 1 <= i <= m && i * max < |es| ==> LastIn(Batch(es, max, i), es[i * max].key).None?
    ensures Current(es, max, m, key)
  {
    if m > 0 {
      LapIndex(m, max);
      NoRepeatsMeansCurrent(es, max, m - 1, key);
    }
  }

  /** A concrete loss: with two slots, key 1 moves to slot 4 and then slot 5, and the peer keeps slot 4. */
  lemma NewestCanBeLost()
    ensures var es := [Entry(0, At(3)), Entry(1, At(4)), Entry(1, At(5))];
            && Fold([Invalid, Invalid], es)[1] == At(5)
            && Drained([Invalid, Invalid], es, 2, 1)[1] == At(4)
  {
    var es := [Entry(0, At(3)), Entry(1, At(4)), Entry(1, At(5))];
    var copy := [Invalid, Invalid];
    FoldAt(copy, es, 1);
    var before := Drained(copy, es, 2, 0);
    DrainOrder(before, es, 2, 1, 1);
    assert Batch(es, 2, 1) == [Entry(1, At(4))];
    FoldAt(before, [es[2]] + Batch(es, 2, 1)[..1], 1);
    assert ([es[2]] + Batch(es, 2, 1)[..1])[1] == Entry(1, At(4));
  }
}
