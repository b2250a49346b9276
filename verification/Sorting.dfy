/** std::sort, specified by what it returns: a permutation in the comparator's order. */
module Sorting {

  ghost predicate TotalPreorder<T(!new)>(leq: (T, T) -> bool) {
    && (forall a, b :: leq(a, b) || leq(b, a))
    && (forall a, b, c :: leq(a, b) && leq(b, c) ==> leq(a, c))
  }

  ghost predicate Sorted<T>(s: seq<T>, leq: (T, T) -> bool) {
    forall i, j :: 0 <= i < j < |s| ==> leq(s[i], s[j])
  }

  function Insert<T>(x: T, s: seq<T>, leq: (T, T) -> bool): (r: seq<T>) {
    if s == [] then [x]
    else if leq(x, s[0]) then [x] + s
    else [s[0]] + Insert(x, s[1..], leq)
  }

  function SortBy<T>(s: seq<T>, leq: (T, T) -> bool): (r: seq<T>) {
    if s == [] then [] else Insert(s[0], SortBy(s[1..], leq), leq)
  }

  lemma {:induction false} InsertCorrect<T(!new)>(x: T, s: seq<T>, leq: (T, T) -> bool)
    requires TotalPreorder(leq) && Sorted(s, leq)
    ensures multiset(Insert(x, s, leq)) == multiset{x} + multiset(s)
    ensures Sorted(Insert(x, s, leq), leq)
  {
    if s == [] {
    } else if leq(x, s[0]) {
      assert forall i :: 0 <= i < |s| ==> leq(s[0], s[i]) || i == 0;
    } else {
      InsertCorrect(x, s[1..], leq);
      assert s == [s[0]] + s[1..];
      var t := Insert(x, s[1..], leq);
      forall i | 0 <= i < |t| ensures leq(s[0], t[i]) {
        assert t[i] in multiset(t);
        assert t[i] in multiset{x} + multiset(s[1..]);
        assert t[i] == x || t[i] in s[1..];
      }
    }
  }

  lemma {:induction false} SortByCorrect<T(!new)>(s: seq<T>, leq: (T, T) -> bool)
    requires TotalPreorder(leq)
    ensures multiset(SortBy(s, leq)) == multiset(s)
    ensures |SortBy(s, leq)| == |s|
    ensures Sorted(SortBy(s, leq), leq)
  {
    if s != [] {
      SortByCorrect(s[1..], leq);
      InsertCorrect(s[0], SortBy(s[1..], leq), leq);
      assert s == [s[0]] + s[1..];
    }
    assert |multiset(SortBy(s, leq))| == |SortBy(s, leq)|;
  }
}
