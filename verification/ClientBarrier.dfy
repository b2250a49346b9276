/**
 * The two-level start and end barrier of the clients: per machine an atomic counter and a flag, across
 * machines one sync message from every leader to every other.  Any number of machines and threads, any
 * interleaving.  Only sync messages are counted on a link; anything else a leader receives is noise.
 */
module ClientBarrier {
  import opened Common

  /** Where a client thread stands.  `round` 1 is the barrier before the workload, 2 the one after. */
  datatype Phase =
    | NotReady
    | Counted(round: nat)    // has incremented the counter, spins on it
    | AtGate(round: nat)     // the counter is full: the leader syncs, the others wait for the flag
    | Syncing(round: nat)    // the leader, inside sync_with_other_clients
    | Released(round: nat)   // the leader, after setting the flag
    | Working
    | Finished

  /** The locals of sync_with_other_clients, and which machines this sync has heard, with repetitions. */
  datatype Sync = Sync(sentTo: set<nat>, polls: nat, acks: set<nat>, heard: multiset<nat>)

  datatype Machine = Machine(threads: seq<Phase>, ready: nat, done: nat, workloadReady: bool, workloadDone: bool,
                             sync: Sync, panicked: bool)

  /** `sent` and `taken` count the sync messages from one machine to another, posted and consumed. */
  datatype State = State(machines: seq<Machine>, sent: map<(nat, nat), nat>, taken: map<(nat, nat), nat>)

  datatype Step =
    | Count(m: nat, t: nat)
    | PassCounter(m: nat, t: nat)
    | BeginSync(m: nat)
    | Send(m: nat, p: nat)
    | PollSync(m: nat, p: nat)
    | PollNoise(m: nat)
    | EndSync(m: nat)
    | PassFlag(m: nat, t: nat)
    | DiscardInGet(m: nat, p: nat)

  function Rank(p: Phase): (r: nat) {
    match p
    case NotReady => 0
    case Counted(k) => if k == 1 then 1 else 6
    case AtGate(k) => if k == 1 then 2 else 7
    case Syncing(k) => if k == 1 then 3 else 8
    case Released(k) => if k == 1 then 4 else 9
    case Working => 5
    case Finished => 10
  }

  predicate Shaped(p: Phase) {
    match p
    case NotReady => true
    case Working => true
    case Finished => true
    case _ => p.round == 1 || p.round == 2
  }

  /** The other machines among n. */
  function Peers(n: nat, m: nat): (r: set<nat>)
    requires m < n
    ensures |r| == n - 1
  {
    var all := Range(0, n);
    assert all == (all - {m}) + {m};
    all - {m}
  }

  function SetThread(k: Machine, t: nat, p: Phase): (r: Machine)
    requires t < |k.threads|
  {
    k.(threads := k.threads[t := p])
  }

  /** What a step does on its own machine, or None where it is not enabled there. */
  function Local(k: Machine, peers: set<nat>, step: Step): (r: Option<Machine>)
    requires k.threads != []
  {
    var leader := k.threads[0];
    match step
    case Count(_, t) =>
      if t >= |k.threads| then None
      else if k.threads[t].NotReady? then Some(SetThread(k, t, Counted(1)).(ready := k.ready + 1))
      else if k.threads[t].Working? then Some(SetThread(k, t, Counted(2)).(done := k.done + 1))
      else None
    case PassCounter(_, t) =>
      if t < |k.threads| && k.threads[t].Counted?
         && (if k.threads[t].round == 1 then k.ready else k.done) >= |k.threads| then
        Some(SetThread(k, t, AtGate(k.threads[t].round)))
      else None
    case BeginSync(_) =>
      if leader.AtGate? then Some(SetThread(k, 0, Syncing(leader.round)).(sync := Sync({}, 0, {}, multiset{})))
      else None
    case Send(_, p) =>
      if leader.Syncing? && p in peers - k.sync.sentTo then
        Some(k.(sync := k.sync.(sentTo := k.sync.sentTo + {p})))
      else None
    case PollSync(_, p) =>
      if leader.Syncing? && k.sync.sentTo == peers && k.sync.polls < |peers| && p in peers then
        Some(k.(sync := k.sync.(polls := k.sync.polls + 1, acks := k.sync.acks + {p},
                                heard := k.sync.heard + multiset{p})))
      else None
    case PollNoise(_) =>
      if leader.Syncing? && k.sync.sentTo == peers && k.sync.polls < |peers| then
        Some(k.(sync := k.sync.(polls := k.sync.polls + 1)))
      else None
    case EndSync(_) =>
      if leader.Syncing? && k.sync.sentTo == peers && k.sync.polls == |peers| then
        if |k.sync.acks| != |peers| then Some(k.(panicked := true))
        else if leader.round == 1 then Some(SetThread(k, 0, Released(1)).(workloadReady := true))
        else Some(SetThread(k, 0, Released(2)).(workloadDone := true))
      else None
    case PassFlag(_, t) =>
      if t < |k.threads| && (k.threads[t].Released? || (k.threads[t].AtGate? && t != 0)) then
        if k.threads[t].round == 1 then
          if k.workloadReady then Some(SetThread(k, t, Working)) else None
        else
          if k.workloadDone then Some(SetThread(k, t, Finished)) else None
      else None
    case DiscardInGet(_, p) =>
      if leader.Working? && p in peers then Some(k) else None
  }

  predicate Sends(step: Step, p: nat) { step.Send? && step.p == p }

  predicate Takes(step: Step, p: nat) { (step.PollSync? || step.DiscardInGet?) && step.p == p }

  /** The state after a step, or None where the step is not enabled. */
  function Next(s: State, step: Step): (r: Option<State>) {
    var m := step.m;
    if m >= |s.machines| || s.machines[m].threads == [] || s.machines[m].panicked then None else
    match Local(s.machines[m], Peers(|s.machines|, m), step)
    case None => None
    case Some(k) =>
      var machines := s.machines[m := k];
      if step.Send? then
        if (m, step.p) in s.sent then
          Some(State(machines, s.sent[(m, step.p) := s.sent[(m, step.p)] + 1], s.taken))
        else None
      else if step.PollSync? || step.DiscardInGet? then
        var link := (step.p, m);
        if link in s.sent && link in s.taken && s.taken[link] < s.sent[link] then
          Some(State(machines, s.sent, s.taken[link := s.taken[link] + 1]))
        else None
      else Some(State(machines, s.sent, s.taken))
  }

  ghost predicate Initial(s: State) {
    && (forall m :: 0 <= m < |s.machines| ==>
          && |s.machines[m].threads| >= 1
          && (forall t :: 0 <= t < |s.machines[m].threads| ==> s.machines[m].threads[t].NotReady?)
          && s.machines[m].ready == 0 && s.machines[m].done == 0
          && !s.machines[m].workloadReady && !s.machines[m].workloadDone && !s.machines[m].panicked)
    && (forall m: nat, p: nat :: m < |s.machines| && p < |s.machines| ==>
          && (m, p) in s.sent && s.sent[(m, p)] == 0
          && (m, p) in s.taken && s.taken[(m, p)] == 0)
  }

  ghost predicate Follows(s: State, s': State) {
    exists step :: Next(s, step) == Some(s')
  }

  ghost predicate Run(tr: seq<State>) {
    && tr != [] && Initial(tr[0])
    && forall i :: 0 <= i < |tr| - 1 ==> Follows(tr[i], tr[i + 1])
  }

  // ---------------------------------------------------------------- counting threads

  /** How many threads have got at least as far as rank r. */
  function Reached(ts: seq<Phase>, r: nat): (n: nat)
    ensures n <= |ts|
  {
    if ts == [] then 0 else Reached(ts[..|ts| - 1], r) + (if Rank(ts[|ts| - 1]) >= r then 1 else 0)
  }

  lemma {:induction false} ReachedUpdate(ts: seq<Phase>, i: nat, p: Phase, r: nat)
    requires i < |ts|
    ensures Reached(ts[i := p], r) + (if Rank(ts[i]) >= r then 1 else 0)
            == Reached(ts, r) + (if Rank(p) >= r then 1 else 0)
  {
    var n := |ts| - 1;
    if i < n {
      ReachedUpdate(ts[..n], i, p, r);
      assert ts[i := p][..n] == ts[..n][i := p];
    } else {
      assert ts[i := p][..n] == ts[..n];
    }
  }

  lemma {:induction false} ReachedByAll(ts: seq<Phase>, r: nat, t: nat)
    requires Reached(ts, r) >= |ts| && t < |ts|
    ensures Rank(ts[t]) >= r
  {
    var n := |ts| - 1;
    if t < n { ReachedByAll(ts[..n], r, t); }
  }

  lemma {:induction false} ReachedByNone(ts: seq<Phase>, r: nat)
    requires forall t :: 0 <= t < |ts| ==> Rank(ts[t]) < r
    ensures Reached(ts, r) == 0
  {
    if ts != [] { ReachedByNone(ts[..|ts| - 1], r); }
  }

  // ---------------------------------------------------------------- the invariant

  /** What a thread's progress implies of its machine; only thread 0 leads. */
  predicate ThreadInv(k: Machine, t: nat)
    requires t < |k.threads|
  {
    var p := k.threads[t];
    && Shaped(p)
    && (t > 0 ==> !p.Syncing? && !p.Released?)
    && (Rank(p) >= 2 ==> k.ready >= |k.threads|)
    && (Rank(p) >= 7 ==> k.done >= |k.threads|)
    && (Rank(p) >= 4 ==> k.workloadReady)
    && (Rank(p) >= 9 ==> k.workloadDone)
  }

  ghost predicate MachineInv(k: Machine) {
    && |k.threads| >= 1
    && (forall t :: 0 <= t < |k.threads| ==> ThreadInv(k, t))
    && k.ready == Reached(k.threads, 1) && k.done == Reached(k.threads, 6)
    && (k.workloadReady ==> Rank(k.threads[0]) >= 4)
    && (k.workloadDone ==> Rank(k.threads[0]) >= 9)
  }

  /** How many sync messages a leader has sent to p by now. */
  function SentBy(k: Machine, p: nat): (n: nat)
    requires |k.threads| >= 1
  {
    var r := Rank(k.threads[0]);
    (if r >= 4 || (r == 3 && p in k.sync.sentTo) then 1 else 0)
    + (if r >= 9 || (r == 8 && p in k.sync.sentTo) then 1 else 0)
  }

  /** How many a leader must have consumed from p by now: one per completed round, one per ack. */
  function AckedFrom(k: Machine, p: nat): (n: nat)
    requires |k.threads| >= 1
  {
    var r := Rank(k.threads[0]);
    (if r >= 4 || (r == 3 && p in k.sync.acks) then 1 else 0)
    + (if r >= 9 || (r == 8 && p in k.sync.acks) then 1 else 0)
  }

  ghost predicate LinkInv(s: State, m: nat, p: nat)
    requires m < |s.machines| && p < |s.machines| && |s.machines[m].threads| >= 1 && |s.machines[p].threads| >= 1
  {
    && (p, m) in s.sent && (p, m) in s.taken
    && (m != p ==> AckedFrom(s.machines[m], p) <= s.taken[(p, m)] <= s.sent[(p, m)] == SentBy(s.machines[p], m))
  }

  ghost predicate SyncInv(k: Machine, peers: set<nat>)
    requires |k.threads| >= 1
  {
    k.threads[0].Syncing? ==>
      && k.sync.acks <= peers && k.sync.sentTo <= peers
      && (forall x :: x in k.sync.acks <==> x in k.sync.heard)
      && |k.sync.heard| <= k.sync.polls
  }

  ghost predicate Inv(s: State) {
    && (forall m :: 0 <= m < |s.machines| ==> MachineInv(s.machines[m]))
    && (forall m :: 0 <= m < |s.machines| ==> SyncInv(s.machines[m], Peers(|s.machines|, m)))
    && (forall m: nat, p: nat :: m < |s.machines| && p < |s.machines| ==> LinkInv(s, m, p))
  }

  lemma InitialInv(s: State)
    requires Initial(s)
    ensures Inv(s)
  {
    forall m | 0 <= m < |s.machines| ensures MachineInv(s.machines[m]) {
      FreshMachine(s.machines[m]);
    }
    hide MachineInv;
  }

  lemma FreshMachine(k: Machine)
    requires |k.threads| >= 1 && (forall t :: 0 <= t < |k.threads| ==> k.threads[t].NotReady?)
    requires k.ready == 0 && k.done == 0 && !k.workloadReady && !k.workloadDone
    ensures MachineInv(k)
  {
    ReachedByNone(k.threads, 1);
    ReachedByNone(k.threads, 6);
  }

  /** The thread a step moves. */
  function Moved(step: Step): (t: nat) {
    if step.Count? || step.PassCounter? || step.PassFlag? then step.t else 0
  }

  lemma OnlyOneMoves(k: Machine, peers: set<nat>, step: Step, k': Machine)
    requires k.threads != [] && Local(k, peers, step) == Some(k')
    ensures |k'.threads| == |k.threads| && Moved(step) < |k.threads|
    ensures k'.threads == k.threads[Moved(step) := k'.threads[Moved(step)]]
  {
  }

  /** A counter goes up exactly when the moved thread's rank passes its threshold. */
  lemma CounterMoves(k: Machine, peers: set<nat>, step: Step, k': Machine)
    requires k.threads != [] && Local(k, peers, step) == Some(k')
    requires Moved(step) < |k.threads| == |k'.threads| && Shaped(k.threads[Moved(step)])
    ensures var before, after := Rank(k.threads[Moved(step)]), Rank(k'.threads[Moved(step)]);
            && k'.ready == k.ready + (if before < 1 <= after then 1 else 0)
            && k'.done == k.done + (if before < 6 <= after then 1 else 0)
            && before <= after
  {
  }

  /** Moving one thread keeps the two counters in step with the ranks. */
  lemma CountersStep(k: Machine, peers: set<nat>, step: Step, k': Machine)
    requires k.threads != [] && (Moved(step) < |k.threads| ==> Shaped(k.threads[Moved(step)]))
    requires k.ready == Reached(k.threads, 1) && k.done == Reached(k.threads, 6)
    requires Local(k, peers, step) == Some(k')
    ensures |k'.threads| == |k.threads| && Moved(step) < |k.threads|
    ensures k'.threads == k.threads[Moved(step) := k'.threads[Moved(step)]]
    ensures k'.ready == Reached(k'.threads, 1) && k'.done == Reached(k'.threads, 6)
    ensures k'.ready >= k.ready && k'.done >= k.done
  {
    hide Reached, Local, Rank;
    OnlyOneMoves(k, peers, step, k');
    CounterMoves(k, peers, step, k');
    var t := Moved(step);
    ReachedUpdate(k.threads, t, k'.threads[t], 1);
    ReachedUpdate(k.threads, t, k'.threads[t], 6);
  }

  /** The moved thread keeps its own part of the invariant. */
  lemma MovedThreadStep(k: Machine, peers: set<nat>, step: Step, k': Machine)
    requires MachineInv(k) && Local(k, peers, step) == Some(k') && Moved(step) < |k'.threads|
    requires k'.ready >= k.ready && k'.done >= k.done && |k'.threads| == |k.threads|
    ensures ThreadInv(k', Moved(step))
  {
    hide Reached;
    assert ThreadInv(k, Moved(step));
  }

  lemma FlagsStep(k: Machine, peers: set<nat>, step: Step, k': Machine)
    requires MachineInv(k) && Local(k, peers, step) == Some(k')
    ensures k'.threads != []
    ensures k.workloadReady ==> k'.workloadReady
    ensures k.workloadDone ==> k'.workloadDone
    ensures (k'.workloadReady ==> Rank(k'.threads[0]) >= 4) && (k'.workloadDone ==> Rank(k'.threads[0]) >= 9)
  {
    hide Reached;
    assert ThreadInv(k, 0);
  }

  /** A step keeps its machine's own invariant. */
  lemma MachineStep(k: Machine, peers: set<nat>, step: Step, k': Machine)
    requires MachineInv(k) && SyncInv(k, peers) && Local(k, peers, step) == Some(k')
    ensures MachineInv(k') && SyncInv(k', peers)
  {
    var t := Moved(step);
    assert t < |k.threads| ==> ThreadInv(k, t);
    CountersStep(k, peers, step, k');
    MovedThreadStep(k, peers, step, k');
    FlagsStep(k, peers, step, k');
    SyncStep(k, peers, step, k');
    hide Local, Reached, Rank;
    forall u | 0 <= u < |k'.threads| ensures ThreadInv(k', u) {
      if u != t { assert ThreadInv(k, u) && k'.threads[u] == k.threads[u]; }
    }
  }

  /** The steps of a sync itself. */
  predicate InSync(step: Step) { step.BeginSync? || step.Send? || step.PollSync? || step.PollNoise? }

  lemma OthersLeaveSync(k: Machine, peers: set<nat>, step: Step, k': Machine)
    requires k.threads != [] && Local(k, peers, step) == Some(k') && !InSync(step)
    ensures |k'.threads| >= 1 && k'.sync == k.sync && (k'.threads[0].Syncing? ==> k.threads[0].Syncing?)
  {
  }

  lemma SendStep(k: Machine, peers: set<nat>, step: Step, k': Machine)
    requires k.threads != [] && SyncInv(k, peers) && Local(k, peers, step) == Some(k')
    requires step.BeginSync? || step.Send?
    ensures |k'.threads| >= 1 && SyncInv(k', peers)
  {
  }

  lemma PollStep(k: Machine, peers: set<nat>, step: Step, k': Machine)
    requires k.threads != [] && SyncInv(k, peers) && Local(k, peers, step) == Some(k')
    requires step.PollSync? || step.PollNoise?
    ensures |k'.threads| >= 1 && SyncInv(k', peers)
  {
  }

  lemma SyncStep(k: Machine, peers: set<nat>, step: Step, k': Machine)
    requires k.threads != [] && SyncInv(k, peers) && Local(k, peers, step) == Some(k')
    ensures |k'.threads| >= 1 && SyncInv(k', peers)
  {
    hide Local;
    if step.BeginSync? || step.Send? {
      SendStep(k, peers, step, k');
    } else if InSync(step) {
      PollStep(k, peers, step, k');
    } else {
      OthersLeaveSync(k, peers, step, k');
    }
  }

  /** A leader's sends and acks move exactly with the messages it posts and consumes. */
  lemma LedgerStep(k: Machine, peers: set<nat>, step: Step, k': Machine, p: nat)
    requires MachineInv(k) && SyncInv(k, peers) && Local(k, peers, step) == Some(k') && p in peers && !k.panicked
    ensures |k'.threads| == |k.threads|
    ensures SentBy(k', p) == SentBy(k, p) + (if Sends(step, p) then 1 else 0)
    ensures AckedFrom(k', p) <= AckedFrom(k, p) + (if Takes(step, p) then 1 else 0)
  {
    hide Reached;
    assert ThreadInv(k, 0) && (Moved(step) < |k.threads| ==> ThreadInv(k, Moved(step)));
    if step.EndSync? && !k'.panicked {
      SubsetCardinality(k.sync.acks, peers);
    }
  }

  lemma ArePeers(n: nat, m: nat, p: nat)
    requires m < n && p < n && m != p
    ensures p in Peers(n, m)
  {
  }

  lemma LinkStep(s: State, step: Step, s': State, m: nat, p: nat)
    requires Inv(s) && Next(s, step) == Some(s')
    requires m < |s.machines| && p < |s.machines|
    ensures |s'.machines| == |s.machines| && |s'.machines[m].threads| >= 1 && |s'.machines[p].threads| >= 1
    ensures LinkInv(s', m, p)
  {
    hide Local, SentBy, AckedFrom, ThreadInv, Reached, Rank, Peers;
    var q := step.m;
    assert LinkInv(s, m, p);
    assert MachineInv(s.machines[q]) && SyncInv(s.machines[q], Peers(|s.machines|, q));
    MachineStep(s.machines[q], Peers(|s.machines|, q), step, s'.machines[q]);
    if m != p {
      ArePeers(|s.machines|, m, p);
      ArePeers(|s.machines|, p, m);
      if q == m { LedgerStep(s.machines[m], Peers(|s.machines|, m), step, s'.machines[m], p); }
      if q == p { LedgerStep(s.machines[p], Peers(|s.machines|, p), step, s'.machines[p], m); }
    }
  }

  lemma StepInv(s: State, step: Step, s': State)
    requires Inv(s) && Next(s, step) == Some(s')
    ensures Inv(s')
  {
    hide Local, LinkInv, ThreadInv, Reached, Rank, Peers;
    var q := step.m;
    MachineStep(s.machines[q], Peers(|s.machines|, q), step, s'.machines[q]);
    forall m | 0 <= m < |s'.machines|
      ensures MachineInv(s'.machines[m]) && SyncInv(s'.machines[m], Peers(|s'.machines|, m))
    {
      assert MachineInv(s.machines[m]) && SyncInv(s.machines[m], Peers(|s.machines|, m));
    }
    forall m: nat, p: nat | m < |s'.machines| && p < |s'.machines| ensures LinkInv(s', m, p) {
      LinkStep(s, step, s', m, p);
    }
  }

  lemma {:induction false} RunInv(tr: seq<State>, k: nat)
    requires Run(tr) && k < |tr|
    ensures Inv(tr[k])
  {
    if k == 0 {
      InitialInv(tr[0]);
    } else {
      RunInv(tr, k - 1);
      assert Follows(tr[k - 1], tr[k - 1 + 1]);
      var step :| Next(tr[k - 1], step) == Some(tr[k]);
      StepInv(tr[k - 1], step, tr[k]);
    }
  }

  // ---------------------------------------------------------------- main results

  lemma ReachedEverywhere(s: State, m: nat, p: nat, t: nat, u: nat, r: nat)
    requires Inv(s) && m < |s.machines| && p < |s.machines|
    requires t < |s.machines[m].threads| && u < |s.machines[p].threads|
    requires (r == 1 && Rank(s.machines[m].threads[t]) >= 5) || (r == 6 && Rank(s.machines[m].threads[t]) >= 10)
    ensures Rank(s.machines[p].threads[u]) >= r
  {
    assert MachineInv(s.machines[m]) && MachineInv(s.machines[p]) && LinkInv(s, m, p);
    assert ThreadInv(s.machines[m], t) && ThreadInv(s.machines[p], 0) && ThreadInv(s.machines[m], 0);
    var leader := s.machines[p].threads[0];
    assert Rank(leader) >= r + 1;
    ReachedByAll(s.machines[p].threads, r, u);
  }

  /** No thread is in the workload, or past it, before every thread of every machine is ready. */
  lemma NobodyWorksBeforeAllReady(tr: seq<State>, k: nat, m: nat, t: nat, p: nat, u: nat)
    requires Run(tr) && k < |tr| && m < |tr[k].machines| && p < |tr[k].machines|
    requires t < |tr[k].machines[m].threads| && u < |tr[k].machines[p].threads|
    requires Rank(tr[k].machines[m].threads[t]) >= Rank(Working)
    ensures !tr[k].machines[p].threads[u].NotReady?
  {
    RunInv(tr, k);
    ReachedEverywhere(tr[k], m, p, t, u, 1);
  }

  /** No thread passes the final barrier before every thread of every machine has finished its work. */
  lemma NobodyLeavesBeforeAllDone(tr: seq<State>, k: nat, m: nat, t: nat, p: nat, u: nat)
    requires Run(tr) && k < |tr| && m < |tr[k].machines| && p < |tr[k].machines|
    requires t < |tr[k].machines[m].threads| && u < |tr[k].machines[p].threads|
    requires tr[k].machines[m].threads[t].Finished?
    ensures Rank(tr[k].machines[p].threads[u]) >= Rank(Counted(2))
  {
    RunInv(tr, k);
    ReachedEverywhere(tr[k], m, p, t, u, 6);
  }

  /** A leader past a round has consumed that round's message from every peer, and every peer has sent it. */
  lemma RoundNeedsEveryPeer(tr: seq<State>, k: nat, m: nat, p: nat)
    requires Run(tr) && k < |tr| && m < |tr[k].machines| && p < |tr[k].machines| && m != p
    ensures |tr[k].machines[m].threads| >= 1
    ensures Rank(tr[k].machines[m].threads[0]) >= 4 ==> (p, m) in tr[k].taken && 1 <= tr[k].taken[(p, m)]
    ensures Rank(tr[k].machines[m].threads[0]) >= 9 ==> (p, m) in tr[k].taken && 2 == tr[k].taken[(p, m)]
  {
    RunInv(tr, k);
    assert MachineInv(tr[k].machines[m]) && MachineInv(tr[k].machines[p]) && LinkInv(tr[k], m, p);
  }

  /**
   * A sync message is consumed only by a leader that has sent its own to every peer in this sync and still
   * has polls left, or, by mistake, by a GET of the workload.
   */
  lemma WhoConsumes(s: State, step: Step, s': State, m: nat, p: nat)
    requires Next(s, step) == Some(s') && (p, m) in s.taken && (p, m) in s'.taken
    requires s'.taken[(p, m)] != s.taken[(p, m)]
    ensures step.m == m < |s.machines| && s.machines[m].threads != [] && !s.machines[m].panicked
    ensures var k := s.machines[m];
            || (step.PollSync? && k.threads[0].Syncing? && k.sync.sentTo == Peers(|s.machines|, m)
                && k.sync.polls < |Peers(|s.machines|, m)|)
            || (step.DiscardInGet? && k.threads[0].Working?)
    ensures s'.taken[(p, m)] == s.taken[(p, m)] + 1 && s'.sent == s.sent
  {
  }

  /** As many messages as peers at most: every peer was heard exactly when each was heard once. */
  lemma HeardOnce(acks: set<nat>, heard: multiset<nat>, peers: set<nat>)
    requires acks <= peers && (forall x :: x in acks <==> x in heard) && |heard| <= |peers|
    ensures |acks| == |peers| <==> heard == multiset(peers)
  {
    assert |multiset(peers)| == |peers|;
    SubsetCardinality(acks, peers);
    if acks == peers {
      assert multiset(peers) <= heard;
      assert heard == multiset(peers) + (heard - multiset(peers));
      assert |heard - multiset(peers)| == 0;
    }
    if heard == multiset(peers) {
      assert forall x :: x in acks <==> x in peers;
      assert acks == peers;
    }
  }

  /**
   * In every run, a sync that ends does so without panic if and only if, during that round, it consumed
   * exactly one sync message from each peer.
   */
  lemma SyncEndsWellExactlyWhenHeardOnce(tr: seq<State>, k: nat, step: Step, s': State)
    requires Run(tr) && k < |tr| && step.EndSync? && Next(tr[k], step) == Some(s')
    ensures step.m < |tr[k].machines| == |s'.machines|
    ensures !s'.machines[step.m].panicked <==>
              tr[k].machines[step.m].sync.heard == multiset(Peers(|tr[k].machines|, step.m))
  {
    RunInv(tr, k);
    var m := step.m;
    assert MachineInv(tr[k].machines[m]) && SyncInv(tr[k].machines[m], Peers(|tr[k].machines|, m));
    hide MachineInv, LinkInv;
    HeardOnce(tr[k].machines[m].sync.acks, tr[k].machines[m].sync.heard, Peers(|tr[k].machines|, m));
  }

  // ---------------------------------------------------------------- one sync, message by message

  /** What a leader's poll may return: a sync request naming its sender, or any other message. */
  datatype Message = SyncRequest(index: nat) | Other

  function Senders(ms: seq<Message>): (r: multiset<nat>) {
    if ms == [] then multiset{}
    else Senders(ms[..|ms| - 1])
         + (if ms[|ms| - 1].SyncRequest? then multiset{ms[|ms| - 1].index} else multiset{})
  }

  function Acks(ms: seq<Message>): (r: set<nat>) {
    if ms == [] then {}
    else Acks(ms[..|ms| - 1]) + (if ms[|ms| - 1].SyncRequest? then {ms[|ms| - 1].index} else {})
  }

  lemma {:induction false} AcksAgainstSenders(ms: seq<Message>)
    ensures forall x :: x in Acks(ms) <==> x in Senders(ms)
    ensures |Acks(ms)| <= |Senders(ms)| <= |ms|
  {
    if ms != [] { AcksAgainstSenders(ms[..|ms| - 1]); }
  }

  lemma {:induction false} AckHasSource(ms: seq<Message>, x: nat)
    requires x in Acks(ms)
    ensures exists i :: 0 <= i < |ms| && ms[i] == SyncRequest(x)
  {
    var n := |ms| - 1;
    if x in Acks(ms[..n]) {
      AckHasSource(ms[..n], x);
      var i :| 0 <= i < n && ms[..n][i] == SyncRequest(x);
      assert ms[i] == SyncRequest(x);
    } else {
      assert ms[n] == SyncRequest(x);
    }
  }

  lemma NoAcks()
    ensures Acks([]) == {}
  {
  }

  lemma AcksLast(ms: seq<Message>, i: nat)
    requires i < |ms|
    ensures Acks(ms[..i + 1]) == Acks(ms[..i]) + (if ms[i].SyncRequest? then {ms[i].index} else {})
  {
    assert ms[..i + 1][..i] == ms[..i];
  }

  /** Hearing as many distinct senders as there are peers means hearing each peer once. */
  lemma RoundVerdict(peers: set<nat>, received: seq<Message>)
    requires |received| == |peers|
    requires forall i :: 0 <= i < |received| && received[i].SyncRequest? ==> received[i].index in peers
    ensures |Acks(received)| == |peers| <==> Senders(received) == multiset(peers)
  {
    AcksAgainstSenders(received);
    hide Acks, Senders;
    forall x | x in Acks(received) ensures x in peers { AckHasSource(received, x); }
    HeardOnce(Acks(received), Senders(received), peers);
  }

  /**
   * The receiving half of sync_with_other_clients: one poll per peer, then the count of distinct
   * senders is compared.  It ends without panic exactly when every poll was a sync request and each
   * peer was heard exactly once.
   */
  method ReceiveRound(peers: set<nat>, received: seq<Message>) returns (ok: bool)
    requires |received| == |peers|
    requires forall i :: 0 <= i < |received| && received[i].SyncRequest? ==> received[i].index in peers
    ensures ok <==> Senders(received) == multiset(peers)
  {
    hide Acks, Senders;
    assert Acks([]) == {} by { NoAcks(); }
    assert received[..0] == [];
    var requestAcks: set<nat> := {};
    var i := 0;
    while i < |peers|
      invariant 0 <= i <= |peers|
      invariant requestAcks == Acks(received[..i])
    {
      AcksLast(received, i);
      if received[i].SyncRequest? {
        requestAcks := requestAcks + {received[i].index};
      }
      i := i + 1;
    }
    assert received[..|peers|] == received;
    ok := |requestAcks| == |peers|;
    RoundVerdict(peers, received);
  }
}
