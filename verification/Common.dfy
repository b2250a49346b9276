/** Shared vocabulary: options, machine words, and a few facts about sequences. */
module Common {

  datatype Option<+T> = None | Some(value: T)

  /** One more than the largest uint64_t. */
  const U64: nat := 0x1_0000_0000_0000_0000

  /** The value a C++ uint64_t computation leaves behind. */
  function Wrap(x: int): (r: nat) { x % U64 }

  function Min(a: int, b: int): int { if a <= b then a else b }

  function Max(a: int, b: int): int { if a >= b then a else b }

  function RemoveAt<T>(s: seq<T>, i: nat): (r: seq<T>)
    requires i < |s|
  {
    s[..i] + s[i + 1..]
  }

  lemma RemoveAtMultiset<T>(s: seq<T>, i: nat)
    requires i < |s|
    ensures multiset(s) == multiset(RemoveAt(s, i)) + multiset{s[i]}
  {
    assert s == s[..i] + [s[i]] + s[i + 1..];
  }

  lemma DropLast<T>(s: seq<T>)
    requires s != []
    ensures s == s[..|s| - 1] + [s[|s| - 1]]
  {
  }

  lemma SubsetCardinality<T>(a: set<T>, b: set<T>)
    requires a <= b
    ensures |a| <= |b|
    ensures |a| == |b| ==> a == b
  {
    assert b == a + (b - a);
    assert |b| == |a| + |b - a|;
  }

  /** The set lo..hi-1. */
  function Range(lo: nat, hi: nat): (r: set<nat>)
    requires lo <= hi
    ensures |r| == hi - lo
    ensures forall x: nat :: x in r <==> lo <= x < hi
    decreases hi - lo
  {
    if lo == hi then {} else {lo} + Range(lo + 1, hi)
  }

  lemma MulMonotone(a: int, b: int, c: nat)
    requires a <= b
    ensures a * c <= b * c
  {
  }

  lemma DivBelow(q: int, a: nat, d: nat)
    requires d > 0 && a / d < q
    ensures a < q * d
  {
    MulMonotone(a / d + 1, q, d);
    assert (a / d + 1) * d == (a / d) * d + d;
  }

  /** q <= a / d exactly when q * d <= a. */
  lemma DivAtLeast(q: int, a: nat, d: nat)
    requires d > 0
    ensures q <= a / d <==> q * d <= a
  {
    if q <= a / d {
      MulMonotone(q, a / d, d);
    } else {
      DivBelow(q, a, d);
    }
  }

  lemma DivMonotone(a: nat, b: nat, d: nat)
    requires a <= b && d > 0
    ensures a / d <= b / d
  {
    DivAtLeast(a / d, a, d);
    DivAtLeast(a / d, b, d);
  }
}
