/**
 * Whether the barrier can panic when leaders hear nothing but sync messages.  With two machines it cannot,
 * even if GETs discard some; with three or more a fast peer's message for the second barrier can be taken
 * for a slow peer's message for the first.
 */
module BarrierPanic {
  import opened Common
  import opened ClientBarrier

  predicate Orderly(step: Step) { !step.PollNoise? }

  ghost predicate OrderlyFollows(s: State, s': State) {
    exists step :: Orderly(step) && Next(s, step) == Some(s')
  }

  ghost predicate OrderlyRun(tr: seq<State>) {
    && Run(tr)
    && forall i :: 0 <= i < |tr| - 1 ==> OrderlyFollows(tr[i], tr[i + 1])
  }

  /** Some orderly run ends here. */
  ghost predicate Reaches(s: State) {
    exists tr :: OrderlyRun(tr) && tr[|tr| - 1] == s
  }

  ghost predicate Panicked(s: State) {
    exists m :: 0 <= m < |s.machines| && s.machines[m].panicked
  }

  // ---------------------------------------------------------------- one or two machines

  /** A leader has heard a peer at every poll. */
  ghost predicate HearsAlways(k: Machine) {
    k.threads != [] && (k.threads[0].Syncing? ==> |k.sync.heard| == k.sync.polls)
  }

  lemma StepHears(k: Machine, peers: set<nat>, step: Step, k': Machine)
    requires HearsAlways(k) && Orderly(step) && Local(k, peers, step) == Some(k')
    ensures HearsAlways(k')
  {
  }

  lemma FewPeersSuffice(k: Machine, peers: set<nat>, step: Step, k': Machine)
    requires HearsAlways(k) && SyncInv(k, peers) && |peers| <= 1 && !k.panicked && Local(k, peers, step) == Some(k')
    ensures !k'.panicked
  {
    if step.EndSync? {
      SubsetCardinality(k.sync.acks, peers);
      if |k.sync.heard| > 0 {
        var x :| x in k.sync.heard;
        assert x in k.sync.acks;
      }
    }
  }

  lemma StepTouchesOne(s: State, step: Step, s': State)
    requires Next(s, step) == Some(s')
    ensures step.m < |s.machines| == |s'.machines| && !s.machines[step.m].panicked && s.machines[step.m].threads != []
    ensures Local(s.machines[step.m], Peers(|s.machines|, step.m), step) == Some(s'.machines[step.m])
    ensures s'.machines == s.machines[step.m := s'.machines[step.m]]
  {
    hide Local, Peers;
  }

  lemma FewStep(s: State, step: Step, s': State, m: nat)
    requires Inv(s) && m < |s.machines| <= 2 && Orderly(step) && Next(s, step) == Some(s')
    requires HearsAlways(s.machines[m]) && !s.machines[m].panicked
    ensures m < |s'.machines| && HearsAlways(s'.machines[m]) && !s'.machines[m].panicked
  {
    hide Local, SyncInv, MachineInv, LinkInv, Next, HearsAlways, Orderly;
    StepTouchesOne(s, step, s');
    if step.m == m {
      var peers := Peers(|s.machines|, m);
      StepHears(s.machines[m], peers, step, s'.machines[m]);
      assert s.machines[m].threads != [];
      FewPeersSuffice(s.machines[m], peers, step, s'.machines[m]);
    }
  }

  lemma StepTo(tr: seq<State>, i: nat) returns (step: Step)
    requires OrderlyRun(tr) && 0 < i < |tr|
    ensures Orderly(step) && Next(tr[i - 1], step) == Some(tr[i])
  {
    hide Next;
    assert OrderlyFollows(tr[i - 1], tr[i - 1 + 1]);
    step :| Orderly(step) && Next(tr[i - 1], step) == Some(tr[i]);
  }

  lemma StartHears(s: State, m: nat)
    requires Initial(s) && m < |s.machines|
    ensures HearsAlways(s.machines[m]) && !s.machines[m].panicked
  {
  }

  lemma {:induction false} FewMachinesNeverPanic(tr: seq<State>, i: nat, m: nat)
    requires OrderlyRun(tr) && i < |tr| && m < |tr[i].machines| <= 2
    ensures HearsAlways(tr[i].machines[m]) && !tr[i].machines[m].panicked
  {
    hide Next, HearsAlways, Inv, Initial, OrderlyFollows, Follows;
    if i > 0 {
      var step := StepTo(tr, i);
      StepTouchesOne(tr[i - 1], step, tr[i]);
      FewMachinesNeverPanic(tr, i - 1, m);
      RunInv(tr, i - 1);
      FewStep(tr[i - 1], step, tr[i], m);
    } else {
      StartHears(tr[0], m);
    }
  }

  // ---------------------------------------------------------------- building a run

  lemma ReachesMore(s: State, step: Step, s': State)
    requires Reaches(s) && Orderly(step) && Next(s, step) == Some(s')
    ensures Reaches(s')
  {
    var tr :| OrderlyRun(tr) && tr[|tr| - 1] == s;
    var more := tr + [s'];
    forall i | 0 <= i < |more| - 1 ensures Follows(more[i], more[i + 1]) && OrderlyFollows(more[i], more[i + 1]) {
      if i < |tr| - 1 {
        assert more[i] == tr[i] && more[i + 1] == tr[i + 1];
        assert Follows(tr[i], tr[i + 1]) && OrderlyFollows(tr[i], tr[i + 1]);
      }
    }
    assert OrderlyRun(more) && more[|more| - 1] == s';
  }

  /** Every pair of machines has its two message counts. */
  ghost predicate Linked(s: State) {
    forall a: nat, b: nat :: a < |s.machines| && b < |s.machines| ==> (a, b) in s.sent && (a, b) in s.taken
  }

  function Put(s: State, m: nat, k: Machine): (r: State)
    requires m < |s.machines|
  {
    s.(machines := s.machines[m := k])
  }

  /** A step that touches no message. */
  lemma Move(s: State, step: Step, k: Machine)
    requires Reaches(s) && step.m < |s.machines| && s.machines[step.m].threads != [] && !s.machines[step.m].panicked
    requires step.Count? || step.PassCounter? || step.BeginSync? || step.EndSync? || step.PassFlag?
    requires Local(s.machines[step.m], Peers(|s.machines|, step.m), step) == Some(k)
    ensures Reaches(Put(s, step.m, k))
  {
    hide Local;
    ReachesMore(s, step, Put(s, step.m, k));
  }

  const FRESH: Sync := Sync({}, 0, {}, multiset{})

  /** A machine with one client thread. */
  function Solo(p: Phase, ready: nat, done: nat, open: bool, sync: Sync): (k: Machine) {
    Machine([p], ready, done, open, false, sync, false)
  }

  lemma SoloMoves(peers: set<nat>, m: nat, sync: Sync)
    ensures Local(Solo(NotReady, 0, 0, false, sync), peers, Count(m, 0)) == Some(Solo(Counted(1), 1, 0, false, sync))
    ensures Local(Solo(Counted(1), 1, 0, false, sync), peers, PassCounter(m, 0))
            == Some(Solo(AtGate(1), 1, 0, false, sync))
    ensures Local(Solo(AtGate(1), 1, 0, false, sync), peers, BeginSync(m)) == Some(Solo(Syncing(1), 1, 0, false, FRESH))
  {
    assert forall p: Phase, q: Phase :: [p][0 := q] == [q];
  }

  lemma SoloWorks(peers: set<nat>, m: nat, sync: Sync)
    requires sync.sentTo == peers && sync.polls == |peers| == |sync.acks|
    ensures Local(Solo(Syncing(1), 1, 0, false, sync), peers, EndSync(m)) == Some(Solo(Released(1), 1, 0, true, sync))
    ensures Local(Solo(Released(1), 1, 0, true, sync), peers, PassFlag(m, 0)) == Some(Solo(Working, 1, 0, true, sync))
    ensures Local(Solo(Working, 1, 0, true, sync), peers, Count(m, 0)) == Some(Solo(Counted(2), 1, 1, true, sync))
    ensures Local(Solo(Counted(2), 1, 1, true, sync), peers, PassCounter(m, 0))
            == Some(Solo(AtGate(2), 1, 1, true, sync))
    ensures Local(Solo(AtGate(2), 1, 1, true, sync), peers, BeginSync(m)) == Some(Solo(Syncing(2), 1, 1, true, FRESH))
  {
    assert forall p: Phase, q: Phase :: [p][0 := q] == [q];
  }

  lemma PutTwice(s: State, m: nat, k: Machine, k': Machine)
    requires m < |s.machines|
    ensures Put(Put(s, m, k), m, k') == Put(s, m, k')
  {
  }

  /** A fresh machine's leader gets into its first sync. */
  lemma Enter(s: State, m: nat)
    requires Reaches(s) && m < |s.machines| && s.machines[m] == Solo(NotReady, 0, 0, false, FRESH)
    ensures Reaches(Put(s, m, Solo(Syncing(1), 1, 0, false, FRESH)))
  {
    SoloMoves(Peers(|s.machines|, m), m, FRESH);
    hide Local, Reaches, Peers;
    var k1, k2 := Solo(Counted(1), 1, 0, false, FRESH), Solo(AtGate(1), 1, 0, false, FRESH);
    var k3 := Solo(Syncing(1), 1, 0, false, FRESH);
    Move(s, Count(m, 0), k1);
    Move(Put(s, m, k1), PassCounter(m, 0), k2);
    PutTwice(s, m, k1, k2);
    Move(Put(s, m, k2), BeginSync(m), k3);
    PutTwice(s, m, k2, k3);
  }

  /** A leader that has heard everybody gets to the workload. */
  lemma ReachWorkload(s: State, m: nat, sync: Sync)
    requires Reaches(s) && m < |s.machines| && s.machines[m] == Solo(Syncing(1), 1, 0, false, sync)
    requires sync.sentTo == Peers(|s.machines|, m) && sync.polls == |Peers(|s.machines|, m)| == |sync.acks|
    ensures Reaches(Put(s, m, Solo(Working, 1, 0, true, sync)))
  {
    SoloWorks(Peers(|s.machines|, m), m, sync);
    hide Local, Reaches, Peers;
    var k1, k2 := Solo(Released(1), 1, 0, true, sync), Solo(Working, 1, 0, true, sync);
    Move(s, EndSync(m), k1);
    Move(Put(s, m, k1), PassFlag(m, 0), k2);
    PutTwice(s, m, k1, k2);
  }

  /** And from there into its second sync. */
  lemma Work(s: State, m: nat, sync: Sync)
    requires Reaches(s) && m < |s.machines| && s.machines[m] == Solo(Syncing(1), 1, 0, false, sync)
    requires sync.sentTo == Peers(|s.machines|, m) && sync.polls == |Peers(|s.machines|, m)| == |sync.acks|
    ensures Reaches(Put(s, m, Solo(Syncing(2), 1, 1, true, FRESH)))
  {
    ReachWorkload(s, m, sync);
    SoloWorks(Peers(|s.machines|, m), m, sync);
    hide Local, Reaches, Peers;
    var k2, k3 := Solo(Working, 1, 0, true, sync), Solo(Counted(2), 1, 1, true, sync);
    var k4, k5 := Solo(AtGate(2), 1, 1, true, sync), Solo(Syncing(2), 1, 1, true, FRESH);
    Move(Put(s, m, k2), Count(m, 0), k3);
    PutTwice(s, m, k2, k3);
    Move(Put(s, m, k3), PassCounter(m, 0), k4);
    PutTwice(s, m, k3, k4);
    Move(Put(s, m, k4), BeginSync(m), k5);
    PutTwice(s, m, k4, k5);
  }

  // ---------------------------------------------------------------- messages

  lemma SendLocal(k: Machine, peers: set<nat>, m: nat, p: nat)
    requires k.threads != [] && k.threads[0].Syncing? && p in peers - k.sync.sentTo
    ensures Local(k, peers, Send(m, p)) == Some(k.(sync := k.sync.(sentTo := k.sync.sentTo + {p})))
  {
  }

  lemma SendOne(s: State, m: nat, p: nat) returns (s': State)
    requires Reaches(s) && Linked(s) && m < |s.machines| && p < |s.machines| && p != m
    requires s.machines[m].threads != [] && s.machines[m].threads[0].Syncing? && !s.machines[m].panicked
    requires p !in s.machines[m].sync.sentTo
    ensures Reaches(s') && Linked(s') && s'.taken == s.taken
    ensures var k := s.machines[m];
            s'.machines == s.machines[m := k.(sync := k.sync.(sentTo := k.sync.sentTo + {p}))]
    ensures forall a: nat, b: nat :: a < |s.machines| && b < |s.machines| ==>
              s'.sent[(a, b)] == s.sent[(a, b)] + (if a == m && b == p then 1 else 0)
  {
    hide Local, Peers, Reaches;
    var k := s.machines[m];
    var k' := k.(sync := k.sync.(sentTo := k.sync.sentTo + {p}));
    ArePeers(|s.machines|, m, p);
    SendLocal(k, Peers(|s.machines|, m), m, p);
    s' := State(s.machines[m := k'], s.sent[(m, p) := s.sent[(m, p)] + 1], s.taken);
    ReachesMore(s, Send(m, p), s');
  }

  lemma NextPeer(m: nat, k: nat)
    ensures k !in Range(0, k)
    ensures Range(0, k + 1) - {m} == if k == m then Range(0, k) - {m} else (Range(0, k) - {m}) + {k}
  {
  }

  /** A leader sends to all peers from k on. */
  lemma {:induction false} SendRest(s: State, m: nat, k: nat) returns (s': State)
    requires Reaches(s) && Linked(s) && m < |s.machines| && k <= |s.machines|
    requires s.machines[m].threads != [] && s.machines[m].threads[0].Syncing? && !s.machines[m].panicked
    requires s.machines[m].sync.sentTo == Range(0, k) - {m}
    ensures Reaches(s') && Linked(s') && s'.taken == s.taken
    ensures var x := s.machines[m];
            s'.machines == s.machines[m := x.(sync := x.sync.(sentTo := Peers(|s.machines|, m)))]
    ensures forall a: nat, b: nat :: a < |s.machines| && b < |s.machines| ==>
              s'.sent[(a, b)] == s.sent[(a, b)] + (if a == m && b != m && b >= k then 1 else 0)
    decreases |s.machines| - k
  {
    NextPeer(m, k);
    hide Reaches, Range;
    if k == |s.machines| {
      s' := s;
      assert s.machines[m := s.machines[m]] == s.machines;
    } else if k == m {
      s' := SendRest(s, m, k + 1);
    } else {
      hide Peers;
      var t := SendOne(s, m, k);
      s' := SendRest(t, m, k + 1);
      var x := s.machines[m];
      var y := x.(sync := x.sync.(sentTo := Peers(|s.machines|, m)));
      assert t.machines[m := y] == s.machines[m := y];
    }
  }

  function Elems(ps: seq<nat>): (r: set<nat>) { if ps == [] then {} else {ps[0]} + Elems(ps[1..]) }

  function Hear(sync: Sync, ps: seq<nat>): (r: Sync) {
    Sync(sync.sentTo, sync.polls + |ps|, sync.acks + Elems(ps), sync.heard + multiset(ps))
  }

  lemma PollLocal(k: Machine, peers: set<nat>, m: nat, p: nat)
    requires k.threads != [] && k.threads[0].Syncing? && k.sync.sentTo == peers && k.sync.polls < |peers| && p in peers
    ensures Local(k, peers, PollSync(m, p)) == Some(k.(sync := Hear(k.sync, [p])))
  {
    assert Elems([p]) == {p} by { assert [p][1..] == []; }
    hide Elems;
  }

  lemma PollOne(s: State, m: nat, p: nat) returns (s': State)
    requires Reaches(s) && Linked(s) && m < |s.machines| && p < |s.machines| && p != m
    requires s.machines[m].threads != [] && s.machines[m].threads[0].Syncing? && !s.machines[m].panicked
    requires s.machines[m].sync.sentTo == Peers(|s.machines|, m) && s.machines[m].sync.polls < |Peers(|s.machines|, m)|
    requires s.taken[(p, m)] < s.sent[(p, m)]
    ensures Reaches(s') && Linked(s') && s'.sent == s.sent
    ensures var k := s.machines[m];
            s'.machines == s.machines[m := k.(sync := Hear(k.sync, [p]))]
    ensures forall a: nat, b: nat :: a < |s.machines| && b < |s.machines| ==>
              s'.taken[(a, b)] == s.taken[(a, b)] + (if a == p && b == m then 1 else 0)
  {
    hide Local, Peers, Hear, Reaches;
    var k := s.machines[m];
    var k' := k.(sync := Hear(k.sync, [p]));
    ArePeers(|s.machines|, m, p);
    PollLocal(k, Peers(|s.machines|, m), m, p);
    s' := State(s.machines[m := k'], s.sent, s.taken[(p, m) := s.taken[(p, m)] + 1]);
    ReachesMore(s, PollSync(m, p), s');
  }

  lemma HearMore(sync: Sync, ps: seq<nat>)
    requires ps != []
    ensures Hear(Hear(sync, [ps[0]]), ps[1..]) == Hear(sync, ps)
  {
    assert Elems([ps[0]]) == {ps[0]} by { assert [ps[0]][1..] == []; }
    assert ps == [ps[0]] + ps[1..];
    assert multiset(ps) == multiset([ps[0]]) + multiset(ps[1..]);
  }

  /** A leader polls messages from the given peers, in that order. */
  lemma {:induction false} PollMany(s: State, m: nat, ps: seq<nat>) returns (s': State)
    requires Reaches(s) && Linked(s) && m < |s.machines|
    requires s.machines[m].threads != [] && s.machines[m].threads[0].Syncing? && !s.machines[m].panicked
    requires s.machines[m].sync.sentTo == Peers(|s.machines|, m)
    requires s.machines[m].sync.polls + |ps| <= |Peers(|s.machines|, m)|
    requires forall i :: 0 <= i < |ps| ==> ps[i] < |s.machines| && ps[i] != m
    requires forall p: nat :: p < |s.machines| ==> s.taken[(p, m)] + multiset(ps)[p] <= s.sent[(p, m)]
    ensures Reaches(s') && Linked(s') && s'.sent == s.sent
    ensures var k := s.machines[m];
            s'.machines == s.machines[m := k.(sync := Hear(k.sync, ps))]
    ensures forall a: nat, b: nat :: a < |s.machines| && b < |s.machines| ==>
              s'.taken[(a, b)] == s.taken[(a, b)] + (if b == m then multiset(ps)[a] else 0)
    decreases |ps|
  {
    hide Reaches, Peers, Hear, Solo;
    var k := s.machines[m];
    if ps == [] {
      s' := s;
      assert Hear(k.sync, ps) == k.sync by { HearNothing(k.sync); }
      assert s.machines[m := k] == s.machines;
    } else {
      assert ps == [ps[0]] + ps[1..];
      assert multiset(ps) == multiset{ps[0]} + multiset(ps[1..]);
      var t := PollOne(s, m, ps[0]);
      HearKeeps(k.sync, ps[0]);
      s' := PollMany(t, m, ps[1..]);
      HearMore(k.sync, ps);
      assert t.machines[m := k.(sync := Hear(k.sync, ps))] == s.machines[m := k.(sync := Hear(k.sync, ps))];
    }
  }

  lemma HearNothing(sync: Sync)
    ensures Hear(sync, []) == sync
  {
  }

  lemma HearKeeps(sync: Sync, p: nat)
    ensures Hear(sync, [p]).sentTo == sync.sentTo && Hear(sync, [p]).polls == sync.polls + 1
  {
  }

  // ---------------------------------------------------------------- three or more machines

  /** Machines 0..j-1 are in their first sync and have sent to all; the others have not begun. */
  ghost predicate Entered(s: State, n: nat, j: nat) {
    && |s.machines| == n && j <= n && Linked(s)
    && (forall m :: 0 <= m < j ==> s.machines[m] == Solo(Syncing(1), 1, 0, false, Sync(Peers(n, m), 0, {}, multiset{})))
    && (forall m :: j <= m < n ==> s.machines[m] == Solo(NotReady, 0, 0, false, FRESH))
    && (forall a: nat, b: nat :: a < n && b < n ==>
          s.taken[(a, b)] == 0 && s.sent[(a, b)] == if a < j && a != b then 1 else 0)
  }

  function Start(n: nat): (s: State) {
    var none := map a: nat, b: nat | a < n && b < n :: (a, b) := 0;
    State(seq(n, _ => Solo(NotReady, 0, 0, false, FRESH)), none, none)
  }

  lemma StartReached(n: nat)
    ensures Reaches(Start(n)) && Entered(Start(n), n, 0)
  {
    var tr := [Start(n)];
    assert Initial(tr[0]);
    assert OrderlyRun(tr) && tr[|tr| - 1] == Start(n);
  }

  lemma EnterOneMore(s: State, n: nat, j: nat) returns (s': State)
    requires Reaches(s) && Entered(s, n, j) && j < n
    ensures Reaches(s') && Entered(s', n, j + 1)
  {
    hide Reaches, Peers;
    Enter(s, j);
    var t := Put(s, j, Solo(Syncing(1), 1, 0, false, FRESH));
    assert Range(0, 0) - {j} == {};
    s' := SendRest(t, j, 0);
  }

  lemma {:induction false} AllEnter(n: nat, j: nat) returns (s: State)
    requires j <= n
    ensures Reaches(s) && Entered(s, n, j)
  {
    hide Reaches, Entered;
    if j == 0 {
      StartReached(n);
      s := Start(n);
    } else {
      var t := AllEnter(n, j - 1);
      s := EnterOneMore(t, n, j - 1);
    }
  }

  /** The numbers lo..hi-1 without m, in order. */
  function Others(lo: nat, hi: nat, m: nat): (r: seq<nat>)
    requires lo <= hi
    decreases hi - lo
  {
    if lo == hi then [] else (if lo == m then [] else [lo]) + Others(lo + 1, hi, m)
  }

  lemma OthersUnfold(lo: nat, hi: nat, m: nat)
    requires lo <= hi
    ensures Others(lo, hi, m) ==
              if lo == hi then [] else if lo == m then Others(lo + 1, hi, m) else [lo] + Others(lo + 1, hi, m)
  {
  }

  lemma {:induction false} OthersElems(lo: nat, hi: nat, m: nat)
    requires lo <= hi
    ensures Elems(Others(lo, hi, m)) == Range(lo, hi) - {m}
    decreases hi - lo
  {
    hide Others, Elems;
    OthersUnfold(lo, hi, m);
    if lo < hi {
      OthersElems(lo + 1, hi, m);
      ElemsFirst(lo, Others(lo + 1, hi, m));
      RangeFirst(lo, hi);
      hide Range;
    } else {
      ElemsNone();
    }
  }

  lemma ElemsNone()
    ensures Elems([]) == {}
  {
  }

  lemma ElemsFirst(p: nat, rest: seq<nat>)
    ensures Elems([p] + rest) == {p} + Elems(rest)
  {
    assert ([p] + rest)[1..] == rest;
  }

  lemma RangeFirst(lo: nat, hi: nat)
    requires lo < hi
    ensures Range(lo, hi) == {lo} + Range(lo + 1, hi) && lo !in Range(lo + 1, hi)
  {
  }

  lemma CountFirst(p: nat, rest: seq<nat>, x: nat)
    ensures multiset([p] + rest)[x] == multiset(rest)[x] + (if p == x then 1 else 0)
  {
  }

  lemma {:induction false} OthersOnce(lo: nat, hi: nat, m: nat, x: nat)
    requires lo <= hi
    ensures multiset(Others(lo, hi, m))[x] == if lo <= x < hi && x != m then 1 else 0
    decreases hi - lo
  {
    hide Others;
    OthersUnfold(lo, hi, m);
    if lo < hi {
      OthersOnce(lo + 1, hi, m, x);
      CountFirst(lo, Others(lo + 1, hi, m), x);
    }
  }

  lemma {:induction false} OthersBounds(lo: nat, hi: nat, m: nat)
    requires lo <= hi
    ensures forall i :: 0 <= i < |Others(lo, hi, m)| ==> lo <= Others(lo, hi, m)[i] < hi && Others(lo, hi, m)[i] != m
    ensures |Others(lo, hi, m)| == hi - lo - (if lo <= m < hi then 1 else 0)
    decreases hi - lo
  {
    if lo < hi { OthersBounds(lo + 1, hi, m); }
  }

  lemma HeardAll(n: nat, m: nat)
    requires m < n && Elems(Others(0, n, m)) == Range(0, n) - {m} && |Others(0, n, m)| == n - 1
    ensures var sync := Hear(Sync(Peers(n, m), 0, {}, multiset{}), Others(0, n, m));
            sync.sentTo == Peers(n, m) && sync.polls == |Peers(n, m)| == |sync.acks|
  {
    assert {} + Elems(Others(0, n, m)) == Peers(n, m);
  }

  /** Machine 0 has sent to all and heard nobody; `extra` more messages than one wait for it from machine 1. */
  ghost predicate ZeroWaits(s: State, n: nat, extra: nat) {
    && n >= 2 && Linked(s) && |s.machines| == n
    && s.machines[0] == Solo(Syncing(1), 1, 0, false, Sync(Peers(n, 0), 0, {}, multiset{}))
    && forall a: nat :: a < n ==>
         s.taken[(a, 0)] == 0 && s.sent[(a, 0)] == if a == 0 then 0 else if a == 1 then 1 + extra else 1
  }

  lemma PeerCount(n: nat, m: nat)
    requires m < n
    ensures |Peers(n, m)| == n - 1
  {
  }

  lemma EverybodyWaits(s: State, n: nat)
    requires n >= 2 && Entered(s, n, n)
    ensures ZeroWaits(s, n, 0)
    ensures s.machines[1] == Solo(Syncing(1), 1, 0, false, Sync(Peers(n, 1), 0, {}, multiset{}))
    ensures forall a: nat :: a < n ==> s.taken[(a, 1)] == 0 && s.sent[(a, 1)] == if a == 1 then 0 else 1
  {
    hide Peers;
  }

  /** Machine 1 has heard everybody. */
  lemma OneHears(n: nat) returns (s: State)
    requires n >= 2
    ensures Reaches(s) && ZeroWaits(s, n, 0)
    ensures s.machines[1] == Solo(Syncing(1), 1, 0, false, Hear(Sync(Peers(n, 1), 0, {}, multiset{}), Others(0, n, 1)))
  {
    hide Reaches, Peers, Others, Hear, Entered;
    var s0 := AllEnter(n, n);
    EverybodyWaits(s0, n);
    OthersBounds(0, n, 1);
    forall p: nat | p < n ensures s0.taken[(p, 1)] + multiset(Others(0, n, 1))[p] <= s0.sent[(p, 1)] {
      OthersOnce(0, n, 1, p);
    }
    PeerCount(n, 1);
    s := PollMany(s0, 1, Others(0, n, 1));
  }

  /** It works, and sends machine 0 the message of its second sync. */
  lemma FastPeer(n: nat) returns (s: State)
    requires n >= 2
    ensures Reaches(s) && ZeroWaits(s, n, 1)
  {
    var s1 := OneHears(n);
    OthersBounds(0, n, 1);
    OthersElems(0, n, 1);
    HeardAll(n, 1);
    hide Reaches, Peers, Others, Hear, Elems, Range, Local;
    Work(s1, 1, s1.machines[1].sync);
    var s2 := Put(s1, 1, Solo(Syncing(2), 1, 1, true, FRESH));
    s := SendOne(s2, 1, 0);
  }

  lemma WhomZeroHears(n: nat)
    requires n >= 3
    ensures var ps := [1] + Others(1, n - 1, 0); |ps| == n - 1 && forall i :: 0 <= i < |ps| ==> ps[i] < n && ps[i] != 0
  {
    OthersBounds(1, n - 1, 0);
  }

  lemma HowOftenZeroHears(n: nat, p: nat)
    requires n >= 3
    ensures multiset([1] + Others(1, n - 1, 0))[p] <= if p == 0 then 0 else if p == 1 then 2 else 1
  {
    hide Others;
    OthersOnce(1, n - 1, 0, p);
    CountFirst(1, Others(1, n - 1, 0), p);
  }

  /** Machine 0 takes both messages of machine 1 and misses the last machine. */
  lemma ZeroMisses(n: nat) returns (s: State)
    requires n >= 3
    ensures Reaches(s) && |s.machines| == n
    ensures s.machines[0] ==
              Solo(Syncing(1), 1, 0, false, Hear(Sync(Peers(n, 0), 0, {}, multiset{}), [1] + Others(1, n - 1, 0)))
  {
    hide Reaches, Peers, Others, Hear;
    var s0 := FastPeer(n);
    PeerCount(n, 0);
    WhomZeroHears(n);
    forall p: nat | p < n ensures s0.taken[(p, 0)] + multiset([1] + Others(1, n - 1, 0))[p] <= s0.sent[(p, 0)] {
      HowOftenZeroHears(n, p);
    }
    s := PollMany(s0, 0, [1] + Others(1, n - 1, 0));
  }

  lemma MissesOne(n: nat, rest: seq<nat>)
    requires n >= 3 && Elems(rest) == Range(1, n - 1) - {0} && |rest| == n - 2
    ensures var sync := Hear(Sync(Peers(n, 0), 0, {}, multiset{}), [1] + rest);
            sync.sentTo == Peers(n, 0) && sync.polls == |Peers(n, 0)| != |sync.acks|
  {
    assert ([1] + rest)[1..] == rest;
    assert {} + Elems([1] + rest) == Range(1, n - 1);
  }

  lemma EndsBadly(k: Machine, peers: set<nat>)
    requires k.threads == [Syncing(1)] && k.sync.sentTo == peers && k.sync.polls == |peers| != |k.sync.acks|
    ensures Local(k, peers, EndSync(0)) == Some(k.(panicked := true))
  {
  }

  lemma ThreeMachinesCanPanic(n: nat) returns (s: State)
    requires n >= 3
    ensures Reaches(s) && |s.machines| == n && Panicked(s)
  {
    var s1 := ZeroMisses(n);
    OthersBounds(1, n - 1, 0);
    OthersElems(1, n - 1, 0);
    MissesOne(n, Others(1, n - 1, 0));
    hide Reaches, Peers, Elems, Range, Others, Hear;
    var k := s1.machines[0].(panicked := true);
    EndsBadly(s1.machines[0], Peers(n, 0));
    hide Local, Solo;
    s := Put(s1, 0, k);
    Move(s1, EndSync(0), k);
    assert s.machines[0].panicked;
  }

  /** On sync messages alone the barrier of n machines can panic if and only if n is at least 3. */
  lemma PanicReachableExactlyWhen(n: nat)
    ensures (exists s :: Reaches(s) && |s.machines| == n && Panicked(s)) <==> n >= 3
  {
    if n >= 3 {
      var s := ThreeMachinesCanPanic(n);
    } else {
      forall s | Reaches(s) && |s.machines| == n ensures !Panicked(s) { FewNeverPanicked(s); }
    }
  }

  lemma FewNeverPanicked(s: State)
    requires Reaches(s) && |s.machines| <= 2
    ensures !Panicked(s)
  {
    var tr :| OrderlyRun(tr) && tr[|tr| - 1] == s;
    hide OrderlyRun, HearsAlways;
    forall m | 0 <= m < |s.machines| ensures !s.machines[m].panicked { FewMachinesNeverPanic(tr, |tr| - 1, m); }
  }
}
