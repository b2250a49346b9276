/** The greedy allocator over a priority queue: always draw from the node with the most free places. */
module GreedyHeap {
  import opened Common

  datatype Node = Node(free: nat, index: nat)

  /** What a draw leaves of a node: one place fewer in uint64_t arithmetic, and gone at zero. */
  function Rest(n: Node): (r: seq<Node>) {
    if Wrap(n.free - 1) > 0 then [Node(Wrap(n.free - 1), n.index)] else []
  }

  /** The queue after drawing from position i. */
  function After(pq: seq<Node>, i: nat): (r: seq<Node>)
    requires i < |pq|
  {
    RemoveAt(pq, i) + Rest(pq[i])
  }

  predicate IsTop(pq: seq<Node>, i: nat) {
    i < |pq| && forall j :: 0 <= j < |pq| ==> pq[j].free <= pq[i].free
  }

  // ---------------------------------------------------------------- how many draws succeed

  /** The draws a node is good for: its count, or a whole wrapped word where it was added with none. */
  function Weight(n: Node): (w: nat)
    ensures w >= 1
  {
    if n.free == 0 then U64 else n.free
  }

  function Load(pq: seq<Node>): (r: nat) {
    if pq == [] then 0 else Load(pq[..|pq| - 1]) + Weight(pq[|pq| - 1])
  }

  function LoadOf(pq: seq<Node>, index: nat): (r: nat) {
    if pq == [] then 0
    else LoadOf(pq[..|pq| - 1], index) + (if pq[|pq| - 1].index == index then Weight(pq[|pq| - 1]) else 0)
  }

  function SumOfCounts(pq: seq<Node>): (r: nat) {
    if pq == [] then 0 else SumOfCounts(pq[..|pq| - 1]) + pq[|pq| - 1].free
  }

  lemma {:induction false} LoadConcat(a: seq<Node>, b: seq<Node>, index: nat)
    ensures Load(a + b) == Load(a) + Load(b) && LoadOf(a + b, index) == LoadOf(a, index) + LoadOf(b, index)
  {
    if b == [] {
      assert a + b == a;
    } else {
      LoadConcat(a, b[..|b| - 1], index);
      assert (a + b)[..|a + b| - 1] == a + b[..|b| - 1];
    }
  }

  lemma LoadOne(n: Node, index: nat)
    ensures Load([n]) == Weight(n) && LoadOf([n], index) == if n.index == index then Weight(n) else 0
  {
    assert [n][..0] == [];
  }

  lemma WrapPredecessor(x: nat)
    requires 0 < x < U64
    ensures Wrap(x - 1) == x - 1
  {
  }

  /** What is left of a node is worth one draw less. */
  lemma RestIsOneLess(n: Node, index: nat)
    requires n.free < U64
    ensures Load(Rest(n)) == Weight(n) - 1
    ensures LoadOf(Rest(n), index) == if n.index == index then Weight(n) - 1 else 0
    ensures forall j :: 0 <= j < |Rest(n)| ==> Rest(n)[j].free < U64
  {
    if n.free == 0 {
      assert Wrap(-1) == U64 - 1;
    } else {
      WrapPredecessor(n.free);
    }
    if Rest(n) != [] { LoadOne(Rest(n)[0], index); }
  }

  /** A draw uses up exactly one of the drawn index's places. */
  lemma DrawUsesOne(pq: seq<Node>, i: nat, index: nat)
    requires i < |pq| && forall j :: 0 <= j < |pq| ==> pq[j].free < U64
    ensures Load(After(pq, i)) == Load(pq) - 1
    ensures LoadOf(After(pq, i), index) == LoadOf(pq, index) - (if pq[i].index == index then 1 else 0)
    ensures forall j :: 0 <= j < |After(pq, i)| ==> After(pq, i)[j].free < U64
  {
    hide Load, LoadOf, Rest, Weight;
    LoadConcat(pq[..i], [pq[i]], index);
    LoadConcat(pq[..i] + [pq[i]], pq[i + 1..], index);
    assert pq == pq[..i] + [pq[i]] + pq[i + 1..];
    LoadConcat(pq[..i], pq[i + 1..], index);
    LoadConcat(RemoveAt(pq, i), Rest(pq[i]), index);
    LoadOne(pq[i], index);
    RestIsOneLess(pq[i], index);
  }

  // ---------------------------------------------------------------- the heap object

  /** However adding and drawing have been mixed, what was added is still to be drawn or has been, once. */
  ghost predicate Kept(pq: seq<Node>, added: seq<Node>, drawn: seq<nat>) {
    && (forall j :: 0 <= j < |pq| ==> pq[j].free < U64)
    && Load(pq) + |drawn| == Load(added)
    && forall index :: LoadOf(pq, index) + multiset(drawn)[index] == LoadOf(added, index)
  }

  lemma KeptByAdd(pq: seq<Node>, added: seq<Node>, drawn: seq<nat>, n: Node)
    requires Kept(pq, added, drawn) && n.free < U64
    ensures Kept(pq + [n], added + [n], drawn)
  {
    hide Load, LoadOf;
    LoadConcat(pq, [n], n.index);
    LoadConcat(added, [n], n.index);
    forall x ensures LoadOf(pq + [n], x) + multiset(drawn)[x] == LoadOf(added + [n], x) {
      LoadConcat(pq, [n], x);
      LoadConcat(added, [n], x);
    }
  }

  lemma KeptByDraw(pq: seq<Node>, added: seq<Node>, drawn: seq<nat>, i: nat)
    requires Kept(pq, added, drawn) && i < |pq|
    ensures Kept(After(pq, i), added, drawn + [pq[i].index])
  {
    hide Load, LoadOf, After;
    DrawUsesOne(pq, i, pq[i].index);
    forall x ensures LoadOf(After(pq, i), x) + multiset(drawn + [pq[i].index])[x] == LoadOf(added, x) {
      DrawUsesOne(pq, i, x);
    }
  }

  class MaxHeap {
    /** The queue's nodes; which of several equal maxima is on top is left open. */
    var pq: seq<Node>

    /** Every node added so far, and every index returned, oldest first. */
    ghost var added: seq<Node>
    ghost var drawn: seq<nat>

    ghost predicate Valid()
      reads this
    {
      Kept(pq, added, drawn)
    }

    constructor ()
      ensures Valid() && pq == [] && added == [] && drawn == []
    {
      pq, added, drawn := [], [], [];
    }

    method Add(free: nat, index: nat)
      requires Valid() && free < U64
      modifies this
      ensures Valid() && added == old(added) + [Node(free, index)] && drawn == old(drawn)
      ensures pq == old(pq) + [Node(free, index)]
    {
      var n := Node(free, index);
      KeptByAdd(pq, added, drawn, n);
      hide Kept;
      pq := pq + [n];
      added := added + [n];
    }

    /** getNode: None where the program throws, else the index of a fullest node, which loses a place. */
    method GetNode() returns (index: Option<nat>)
      requires Valid()
      modifies this
      ensures Valid() && added == old(added)
      ensures drawn == if index.None? then old(drawn) else old(drawn) + [index.value]
      ensures index.None? <==> old(pq) == []
      ensures index.None? ==> pq == []
      ensures index.Some? ==>
                exists i: nat :: IsTop(old(pq), i) && index.value == old(pq)[i].index && pq == After(old(pq), i)
    {
      if pq == [] {
        return None;
      }
      hide Kept, Wrap;
      var top := 0;
      var k := 1;
      while k < |pq|
        invariant 1 <= k <= |pq| && top < k
        invariant forall j :: 0 <= j < k ==> pq[j].free <= pq[top].free
      {
        if pq[top].free < pq[k].free {
          top := k;
        }
        k := k + 1;
      }
      var maxNode := pq[top];
      pq := RemoveAt(pq, top);
      if Wrap(maxNode.free - 1) > 0 {
        pq := pq + [Node(Wrap(maxNode.free - 1), maxNode.index)];
      }
      assert IsTop(old(pq), top) && pq == After(old(pq), top);
      index := Some(maxNode.index);
      drawn := drawn + [maxNode.index];
      KeptByDraw(old(pq), added, old(drawn), top);
    }
  }

  // ---------------------------------------------------------------- runs of draws

  /** A run of draws: the queue before and after each, and the positions drawn from. */
  ghost predicate Draws(states: seq<seq<Node>>, tops: seq<nat>) {
    && |states| == |tops| + 1
    && (forall j :: 0 <= j < |states[0]| ==> states[0][j].free < U64)
    && forall k :: 0 <= k < |tops| ==> IsTop(states[k], tops[k]) && states[k + 1] == After(states[k], tops[k])
  }

  /** How often an index was returned by the first k draws. */
  ghost function Returned(states: seq<seq<Node>>, tops: seq<nat>, index: nat, k: nat): nat
    requires Draws(states, tops) && k <= |tops|
  {
    if k == 0 then 0
    else Returned(states, tops, index, k - 1) + (if states[k - 1][tops[k - 1]].index == index then 1 else 0)
  }

  lemma {:induction false} DrawsUseLoad(states: seq<seq<Node>>, tops: seq<nat>, index: nat, k: nat)
    requires Draws(states, tops) && k <= |tops|
    ensures Load(states[k]) + k == Load(states[0])
    ensures LoadOf(states[k], index) + Returned(states, tops, index, k) == LoadOf(states[0], index)
    ensures forall j :: 0 <= j < |states[k]| ==> states[k][j].free < U64
  {
    if k > 0 {
      DrawsUseLoad(states, tops, index, k - 1);
      DrawUsesOne(states[k - 1], tops[k - 1], index);
      assert states[k - 1 + 1] == After(states[k - 1], tops[k - 1]);
    }
  }

  lemma {:induction false} EmptyHasNoLoad(pq: seq<Node>)
    ensures Load(pq) == 0 <==> pq == []
  {
  }

  /**
   * The queue empties after exactly Load draws, whatever ties are broken how, and by then each index has
   * been returned exactly as often as its share of the load.
   */
  lemma ExactlyTheLoadIsDrawn(states: seq<seq<Node>>, tops: seq<nat>, index: nat)
    requires Draws(states, tops)
    ensures |tops| <= Load(states[0])
    ensures states[|tops|] == [] <==> |tops| == Load(states[0])
    ensures states[|tops|] == [] ==> Returned(states, tops, index, |tops|) == LoadOf(states[0], index)
  {
    DrawsUseLoad(states, tops, index, |tops|);
    EmptyHasNoLoad(states[|tops|]);
  }

  /** The load is the sum of the added counts if and only if none of them was zero. */
  lemma {:induction false} LoadIsSumExactlyWhenPositive(pq: seq<Node>)
    ensures SumOfCounts(pq) <= Load(pq)
    ensures Load(pq) == SumOfCounts(pq) <==> forall i :: 0 <= i < |pq| ==> pq[i].free >= 1
  {
    if pq != [] {
      var r := pq[..|pq| - 1];
      LoadIsSumExactlyWhenPositive(r);
      if forall i :: 0 <= i < |pq| ==> pq[i].free >= 1 {
        assert forall i :: 0 <= i < |r| ==> r[i] == pq[i];
      } else if pq[|pq| - 1].free >= 1 {
        var i :| 0 <= i < |pq| && pq[i].free < 1;
        assert r[i].free < 1;
      }
    }
  }

  /** A node added with no free places is drawn once and then stands for 2^64 - 1 more draws. */
  lemma ZeroCountWraps(index: nat)
    ensures After([Node(0, index)], 0) == [Node(U64 - 1, index)] && Load([Node(0, index)]) == U64
  {
    LoadOne(Node(0, index), index);
    assert RemoveAt([Node(0, index)], 0) == [];
    assert Wrap(-1) == U64 - 1;
  }

  // ---------------------------------------------------------------- fairness

  /** The i-th node's contribution to the queue. */
  function Own(left: nat, added: Node): (r: seq<Node>) { if left > 0 then [Node(left, added.index)] else [] }

  /** The nodes with places left, where `left[i]` is what remains of the i-th added node. */
  function Alive(left: seq<nat>, added: seq<Node>): (r: seq<Node>)
    requires |left| == |added|
  {
    if left == [] then []
    else
      var n := |left| - 1;
      Alive(left[..n], added[..n]) + Own(left[n], added[n])
  }

  /** Every node drawn from still has at least one place fewer than the fullest. */
  ghost predicate Fair(left: seq<nat>, added: seq<Node>)
    requires |left| == |added|
  {
    forall i, j :: 0 <= i < |left| && 0 <= j < |left| && left[i] < added[i].free ==> left[i] + 1 >= left[j]
  }

  lemma {:induction false} AliveMember(left: seq<nat>, added: seq<Node>, x: Node) returns (i: nat)
    requires |left| == |added| && x in Alive(left, added)
    ensures i < |left| && left[i] == x.free > 0 && added[i].index == x.index
  {
    var n := |left| - 1;
    if left[n] > 0 && x == Node(left[n], added[n].index) {
      i := n;
    } else {
      i := AliveMember(left[..n], added[..n], x);
    }
  }

  lemma {:induction false} AliveHas(left: seq<nat>, added: seq<Node>, i: nat)
    requires |left| == |added| && i < |left| && left[i] > 0
    ensures Node(left[i], added[i].index) in Alive(left, added)
  {
    var n := |left| - 1;
    if i < n { AliveHas(left[..n], added[..n], i); }
  }

  lemma ConcatCount(a: seq<Node>, b: seq<Node>, y: Node)
    ensures multiset(a + b)[y] == multiset(a)[y] + multiset(b)[y]
  {
  }

  /** Changing what is left of one node changes the queue by that node's contribution. */
  lemma {:induction false} AliveUpdate(left: seq<nat>, added: seq<Node>, i: nat, x: nat, y: Node)
    requires |left| == |added| && i < |left|
    ensures multiset(Alive(left[i := x], added))[y] + multiset(Own(left[i], added[i]))[y]
            == multiset(Alive(left, added))[y] + multiset(Own(x, added[i]))[y]
  {
    var n := |left| - 1;
    hide Own, Alive;
    var after := left[i := x];
    AliveLast(left, added, y);
    AliveLast(after, added, y);
    if i < n {
      AliveUpdate(left[..n], added[..n], i, x, y);
      assert after[..n] == left[..n][i := x];
    } else {
      assert after[..n] == left[..n];
    }
  }

  lemma AliveLast(left: seq<nat>, added: seq<Node>, y: Node)
    requires |left| == |added| && left != []
    ensures var n := |left| - 1;
            multiset(Alive(left, added))[y]
            == multiset(Alive(left[..n], added[..n]))[y] + multiset(Own(left[n], added[n]))[y]
  {
    hide Own;
    var n := |left| - 1;
    ConcatCount(Alive(left[..n], added[..n]), Own(left[n], added[n]), y);
  }

  /** The queue holds exactly what remains of the added nodes. */
  ghost predicate Represents(left: seq<nat>, added: seq<Node>, pq: seq<Node>)
    requires |left| == |added|
  {
    forall y: Node :: multiset(pq)[y] == multiset(Alive(left, added))[y]
  }

  lemma AfterCount(pq: seq<Node>, top: nat, y: Node)
    requires top < |pq|
    ensures multiset(After(pq, top))[y] + multiset([pq[top]])[y] == multiset(pq)[y] + multiset(Rest(pq[top]))[y]
  {
    hide Rest;
    ConcatCount(RemoveAt(pq, top), Rest(pq[top]), y);
    RemoveAtMultiset(pq, top);
  }

  lemma DrawnCount(left: seq<nat>, added: seq<Node>, pq: seq<Node>, top: nat, i: nat, y: Node)
    requires |left| == |added| && top < |pq| && i < |left|
    requires multiset(pq)[y] == multiset(Alive(left, added))[y]
    requires 0 < left[i] < U64 && pq[top] == Node(left[i], added[i].index)
    ensures multiset(After(pq, top))[y] == multiset(Alive(left[i := left[i] - 1], added))[y]
  {
    WrapPredecessor(left[i]);
    assert Rest(pq[top]) == Own(left[i] - 1, added[i]) && [pq[top]] == Own(left[i], added[i]);
    hide Alive, Own, Rest, After, Wrap;
    AliveUpdate(left, added, i, left[i] - 1, y);
    AfterCount(pq, top, y);
  }

  lemma DrawUpdates(left: seq<nat>, added: seq<Node>, pq: seq<Node>, top: nat, i: nat)
    requires |left| == |added| && Represents(left, added, pq) && top < |pq| && i < |left|
    requires 0 < left[i] < U64 && pq[top] == Node(left[i], added[i].index)
    ensures Represents(left[i := left[i] - 1], added, After(pq, top))
  {
    hide Alive, Own, Rest, After, Wrap;
    forall y: Node
      ensures multiset(After(pq, top))[y] == multiset(Alive(left[i := left[i] - 1], added))[y]
    {
      DrawnCount(left, added, pq, top, i, y);
    }
  }

  /** A draw from the queue is a draw from one of the fullest remaining nodes. */
  lemma DrawIsFair(left: seq<nat>, added: seq<Node>, pq: seq<Node>, top: nat) returns (after: seq<nat>)
    requires |left| == |added| && Represents(left, added, pq) && IsTop(pq, top) && Fair(left, added)
    requires forall i :: 0 <= i < |left| ==> left[i] <= added[i].free < U64
    ensures |after| == |added| && Represents(after, added, After(pq, top)) && Fair(after, added)
    ensures forall i :: 0 <= i < |after| ==> after[i] <= added[i].free
  {
    hide Alive;
    assert multiset(pq)[pq[top]] > 0;
    var i := AliveMember(left, added, pq[top]);
    forall j | 0 <= j < |left| && left[j] > 0 ensures left[j] <= left[i] {
      AliveHas(left, added, j);
      assert multiset(pq)[Node(left[j], added[j].index)] > 0;
    }
    after := left[i := left[i] - 1];
    DrawUpdates(left, added, pq, top, i);
    DrawIsFromFullest(left, added, i);
  }

  lemma DrawIsFromFullest(left: seq<nat>, added: seq<Node>, i: nat)
    requires |left| == |added| && i < |left| && left[i] > 0 && Fair(left, added)
    requires forall j :: 0 <= j < |left| && left[j] > 0 ==> left[j] <= left[i]
    requires forall j :: 0 <= j < |left| ==> left[j] <= added[j].free
    ensures Fair(left[i := left[i] - 1], added)
    ensures forall j :: 0 <= j < |left| ==> left[i := left[i] - 1][j] <= added[j].free
  {
    var after := left[i := left[i] - 1];
    forall k, j | 0 <= k < |after| && 0 <= j < |after| && after[k] < added[k].free ensures after[k] + 1 >= after[j] {
      if k != i {
        assert left[k] + 1 >= left[j];
      } else if left[j] > 0 {
        assert left[j] <= left[i];
      }
    }
  }

  lemma AliveUnfold(left: seq<nat>, added: seq<Node>)
    requires |left| == |added| && left != []
    ensures var n := |left| - 1; Alive(left, added) == Alive(left[..n], added[..n]) + Own(left[n], added[n])
  {
  }

  lemma {:induction false} AllAlive(left: seq<nat>, added: seq<Node>)
    requires |left| == |added| && forall i :: 0 <= i < |left| ==> left[i] == added[i].free > 0
    ensures Alive(left, added) == added
  {
    if left == [] {
      assert added == [];
    } else {
      var n := |left| - 1;
      assert Own(left[n], added[n]) == [added[n]];
      hide Alive, Own;
      AliveUnfold(left, added);
      AllAlive(left[..n], added[..n]);
      assert added == added[..n] + [added[n]];
    }
  }

  /**
   * With all counts at least 1, after any number of draws the queue is what remains of the added nodes,
   * and every node drawn from has at least one place fewer than the current maximum.
   */
  lemma {:induction false} DrawsAreFair(states: seq<seq<Node>>, tops: seq<nat>, k: nat) returns (left: seq<nat>)
    requires Draws(states, tops) && k <= |tops| && forall i :: 0 <= i < |states[0]| ==> states[0][i].free >= 1
    ensures |left| == |states[0]| && Represents(left, states[0], states[k]) && Fair(left, states[0])
    ensures forall i :: 0 <= i < |left| ==> left[i] <= states[0][i].free
  {
    if k == 0 {
      left := seq(|states[0]|, i requires 0 <= i < |states[0]| => states[0][i].free);
      AllAlive(left, states[0]);
    } else {
      var before := DrawsAreFair(states, tops, k - 1);
      left := DrawIsFair(before, states[0], states[k - 1], tops[k - 1]);
      assert states[k - 1 + 1] == After(states[k - 1], tops[k - 1]);
    }
  }
}
