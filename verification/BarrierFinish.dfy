/**
 * When the barrier can still be completed: every thread of every machine can reach the end if and only if
 * every sync message consumed so far has been counted for its sender, and no poll has been wasted.
 */
module BarrierFinish {
  import opened Common
  import opened ClientBarrier
  import opened BarrierPanic

  /** The machine runs, and each poll of the present sync has heard another peer. */
  ghost predicate Sound(k: Machine) {
    k.threads != [] && !k.panicked && (k.threads[0].Syncing? ==> k.sync.polls <= |k.sync.acks|)
  }

  /** Every message the leader of m has consumed from p is one it has counted. */
  ghost predicate NothingLost(s: State, m: nat, p: nat)
    requires m < |s.machines| && s.machines[m].threads != []
  {
    (p, m) in s.taken && s.taken[(p, m)] == AckedFrom(s.machines[m], p)
  }

  ghost predicate Clean(s: State) {
    && (forall m :: 0 <= m < |s.machines| ==> Sound(s.machines[m]))
    && (forall m: nat, p: nat :: m < |s.machines| && p < |s.machines| && m != p ==> NothingLost(s, m, p))
  }

  ghost predicate AllFinished(k: Machine) {
    forall t :: 0 <= t < |k.threads| ==> k.threads[t].Finished?
  }

  ghost predicate Done(s: State) {
    forall m :: 0 <= m < |s.machines| ==> AllFinished(s.machines[m])
  }

  /** The state after a list of steps, if each is enabled in its turn. */
  function After(s: State, steps: seq<Step>): (r: Option<State>)
    decreases steps
  {
    if steps == [] then Some(s)
    else
      match Next(s, steps[0])
      case None => None
      case Some(t) => After(t, steps[1..])
  }

  ghost predicate CanFinish(s: State) {
    exists steps :: After(s, steps).Some? && Done(After(s, steps).value)
  }

  // ---------------------------------------------------------------- what is lost stays lost

  /** A leader that has wasted a poll of its sync, or panicked in it. */
  ghost predicate Spoiled(k: Machine) {
    k.threads != [] && k.threads[0].Syncing? && (k.panicked || k.sync.polls > |k.sync.acks|)
  }

  lemma SpoiledStays(k: Machine, peers: set<nat>, step: Step, k': Machine)
    requires Spoiled(k) && !k.panicked && Local(k, peers, step) == Some(k')
    ensures Spoiled(k')
  {
  }

  /** What the leader of m has consumed from p without counting it. */
  ghost predicate Lost(s: State, m: nat, p: nat) {
    && m < |s.machines| && p < |s.machines| && m != p && s.machines[m].threads != []
    && (p, m) in s.taken && s.taken[(p, m)] > AckedFrom(s.machines[m], p)
  }

  lemma LostStays(s: State, step: Step, s': State, m: nat, p: nat)
    requires Inv(s) && Lost(s, m, p) && Next(s, step) == Some(s')
    ensures Lost(s', m, p)
  {
    hide Local, AckedFrom, SentBy, MachineInv, SyncInv, LinkInv;
    StepTouchesOne(s, step, s');
    TakenBy(s, step, s', m, p);
    if step.m == m {
      ArePeers(|s.machines|, m, p);
      assert MachineInv(s.machines[m]) && SyncInv(s.machines[m], Peers(|s.machines|, m));
      LedgerStep(s.machines[m], Peers(|s.machines|, m), step, s'.machines[m], p);
    }
  }

  lemma TakenBy(s: State, step: Step, s': State, m: nat, p: nat)
    requires Next(s, step) == Some(s') && (p, m) in s.taken
    ensures (p, m) in s'.taken
    ensures s'.taken[(p, m)] == s.taken[(p, m)] + (if step.m == m && Takes(step, p) then 1 else 0)
  {
    hide Local, Peers;
  }

  /** Something has gone wrong for good on this machine or on this link. */
  ghost predicate Ruined(s: State, m: nat, p: nat) {
    Lost(s, m, p) || (m < |s.machines| && Spoiled(s.machines[m]))
  }

  lemma RuinedStays(s: State, step: Step, s': State, m: nat, p: nat)
    requires Inv(s) && Ruined(s, m, p) && Next(s, step) == Some(s')
    ensures Ruined(s', m, p)
  {
    hide Local, Lost, Spoiled, Inv, Next;
    StepTouchesOne(s, step, s');
    if Lost(s, m, p) {
      LostStays(s, step, s', m, p);
    } else if step.m == m {
      SpoiledStays(s.machines[m], Peers(|s.machines|, m), step, s'.machines[m]);
    }
  }

  lemma {:induction false} RuinedForEver(s: State, steps: seq<Step>, m: nat, p: nat)
    requires Inv(s) && Ruined(s, m, p) && After(s, steps).Some?
    ensures Inv(After(s, steps).value) && Ruined(After(s, steps).value, m, p)
    decreases steps
  {
    hide Next, Inv, Ruined;
    if steps != [] {
      var t := Next(s, steps[0]).value;
      StepInv(s, steps[0], t);
      RuinedStays(s, steps[0], t, m, p);
      RuinedForEver(t, steps[1..], m, p);
    }
  }

  lemma DoneIsNotRuined(s: State, m: nat, p: nat)
    requires Inv(s) && Done(s)
    ensures !Ruined(s, m, p)
  {
    if m < |s.machines| {
      assert MachineInv(s.machines[m]) && AllFinished(s.machines[m]);
      if p < |s.machines| && m != p {
        assert MachineInv(s.machines[p]) && AllFinished(s.machines[p]) && LinkInv(s, m, p);
      }
    }
  }

  /** A machine that has panicked is inside a sync. */
  ghost predicate PanicsInSync(s: State) {
    forall m :: 0 <= m < |s.machines| && s.machines[m].panicked ==> Spoiled(s.machines[m])
  }

  lemma PanicIsInSync(k: Machine, peers: set<nat>, step: Step, k': Machine)
    requires k.threads != [] && !k.panicked && Local(k, peers, step) == Some(k')
    ensures k'.panicked ==> Spoiled(k')
  {
  }

  lemma {:induction false} RunPanicsInSync(tr: seq<State>, i: nat)
    requires Run(tr) && i < |tr|
    ensures PanicsInSync(tr[i])
  {
    hide Next, Spoiled, Local, Peers;
    if i > 0 {
      RunPanicsInSync(tr, i - 1);
      assert Follows(tr[i - 1], tr[i - 1 + 1]);
      var step :| Next(tr[i - 1], step) == Some(tr[i]);
      StepTouchesOne(tr[i - 1], step, tr[i]);
      PanicIsInSync(tr[i - 1].machines[step.m], Peers(|tr[i - 1].machines|, step.m), step, tr[i].machines[step.m]);
    }
  }

  lemma UnsoundIsSpoiled(k: Machine)
    requires |k.threads| >= 1 && !Sound(k) && (k.panicked ==> Spoiled(k))
    ensures Spoiled(k)
  {
  }

  lemma UncountedIsLost(s: State, m: nat, p: nat)
    requires Inv(s) && m < |s.machines| && p < |s.machines| && m != p
    ensures s.machines[m].threads != [] && (NothingLost(s, m, p) || Lost(s, m, p))
  {
    assert MachineInv(s.machines[m]) && MachineInv(s.machines[p]) && LinkInv(s, m, p);
  }

  lemma NotCleanMeansRuined(s: State) returns (m: nat, p: nat)
    requires Inv(s) && PanicsInSync(s) && !Clean(s)
    ensures Ruined(s, m, p)
  {
    forall m: nat, p: nat | m < |s.machines| && p < |s.machines| && m != p
      ensures s.machines[m].threads != [] && (NothingLost(s, m, p) || Lost(s, m, p))
    {
      UncountedIsLost(s, m, p);
    }
    assert forall m :: 0 <= m < |s.machines| ==> MachineInv(s.machines[m]);
    hide Inv, Sound, NothingLost, Lost, Spoiled;
    if i :| 0 <= i < |s.machines| && !Sound(s.machines[i]) {
      UnsoundIsSpoiled(s.machines[i]);
      m, p := i, i;
    } else {
      var i: nat, j: nat :| i < |s.machines| && j < |s.machines| && i != j && !NothingLost(s, i, j);
      m, p := i, j;
    }
  }

  // ---------------------------------------------------------------- a clean state can always go on

  lemma {:induction false} FindBelow(ts: seq<Phase>, r: nat) returns (t: nat)
    requires Reached(ts, r) < |ts|
    ensures t < |ts| && Rank(ts[t]) < r
  {
    var n := |ts| - 1;
    if Rank(ts[n]) < r {
      t := n;
    } else {
      t := FindBelow(ts[..n], r);
    }
  }

  /** A machine's own steps; the others consume messages. */
  predicate OwnStep(step: Step) {
    step.Count? || step.PassCounter? || step.BeginSync? || step.Send? || step.EndSync? || step.PassFlag?
  }

  /** Nothing is left to do but to hear from a peer. */
  ghost predicate Listening(k: Machine, peers: set<nat>) {
    k.threads != [] && k.threads[0].Syncing? && k.sync.sentTo == peers && k.sync.polls < |peers|
  }

  /** A thread of lower rank can move, or the counter is full. */
  lemma CounterWork(k: Machine, peers: set<nat>, m: nat) returns (step: Step)
    requires MachineInv(k) && k.threads[0].Counted?
    ensures OwnStep(step) && step.m == m && Local(k, peers, step).Some?
  {
    assert ThreadInv(k, 0);
    if k.threads[0].round == 1 {
      if k.ready >= |k.threads| {
        step := PassCounter(m, 0);
      } else {
        var t := FindBelow(k.threads, 1);
        assert ThreadInv(k, t);
        step := Count(m, t);
      }
    } else if k.done >= |k.threads| {
      step := PassCounter(m, 0);
    } else {
      var t := FindBelow(k.threads, 6);
      assert ThreadInv(k, t) && t != 0;
      hide Reached;
      step := if k.threads[t].Counted? then PassCounter(m, t)
              else if k.threads[t].AtGate? then PassFlag(m, t)
              else Count(m, t);
    }
  }

  lemma Missing<T>(a: set<T>, b: set<T>) returns (x: T)
    requires a <= b && a != b
    ensures x in b - a
  {
    assert !(b <= a);
    x :| x in b && x !in a;
  }

  lemma SyncWork(k: Machine, peers: set<nat>, m: nat) returns (step: Step)
    requires MachineInv(k) && SyncInv(k, peers) && Sound(k) && k.threads[0].Syncing? && !Listening(k, peers)
    ensures OwnStep(step) && step.m == m && Local(k, peers, step).Some?
  {
    hide Reached, MachineInv;
    if k.sync.sentTo != peers {
      var p := Missing(k.sync.sentTo, peers);
      step := Send(m, p);
    } else {
      SubsetCardinality(k.sync.acks, peers);
      step := EndSync(m);
    }
  }

  /** Past the final barrier the leader leaves nobody behind who cannot follow. */
  lemma LastWork(k: Machine, peers: set<nat>, m: nat) returns (step: Step)
    requires MachineInv(k) && k.threads[0].Finished? && !AllFinished(k)
    ensures OwnStep(step) && step.m == m && Local(k, peers, step).Some?
  {
    var t :| 0 <= t < |k.threads| && !k.threads[t].Finished?;
    assert ThreadInv(k, 0) && ThreadInv(k, t);
    ReachedByAll(k.threads, 6, t);
    hide Reached;
    step := if k.threads[t].Counted? then PassCounter(m, t) else PassFlag(m, t);
  }

  /** A machine that has not finished has a step of its own, unless it is listening. */
  lemma OwnWork(k: Machine, peers: set<nat>, m: nat) returns (step: Step)
    requires MachineInv(k) && SyncInv(k, peers) && Sound(k) && !AllFinished(k) && !Listening(k, peers)
    ensures OwnStep(step) && step.m == m && Local(k, peers, step).Some?
  {
    assert ThreadInv(k, 0);
    match k.threads[0] {
      case Counted(_) => step := CounterWork(k, peers, m);
      case Syncing(_) => step := SyncWork(k, peers, m);
      case Finished => step := LastWork(k, peers, m);
      case AtGate(_) => step := BeginSync(m);
      case Released(_) => step := PassFlag(m, 0);
      case _ => step := Count(m, 0);
    }
  }

  // ---------------------------------------------------------------- and gets there

  /** The ranks the threads have yet to climb. */
  function Climb(ts: seq<Phase>): (n: nat) {
    if ts == [] then 0 else Climb(ts[..|ts| - 1]) + (10 - Rank(ts[|ts| - 1]))
  }

  lemma {:induction false} ClimbUpdate(ts: seq<Phase>, i: nat, p: Phase)
    requires i < |ts|
    ensures Climb(ts[i := p]) + Rank(p) == Climb(ts) + Rank(ts[i])
  {
    hide Rank;
    var n := |ts| - 1;
    if i < n {
      ClimbUpdate(ts[..n], i, p);
      assert ts[i := p][..n] == ts[..n][i := p];
    } else {
      assert ts[i := p][..n] == ts[..n];
    }
  }

  /** The sends and polls a leader has ahead of it, with d peers. */
  function Messages(k: Machine, d: nat): (n: int)
    requires k.threads != []
  {
    var r := Rank(k.threads[0]);
    if r <= 2 then 4 * d
    else if r == 3 then 4 * d - |k.sync.sentTo| - k.sync.polls
    else if r <= 7 then 2 * d
    else if r == 8 then 2 * d - |k.sync.sentTo| - k.sync.polls
    else 0
  }

  /** Everything a machine has ahead of it. */
  function Ahead(k: Machine, d: nat): (n: nat)
    requires k.threads != []
  {
    Max(0, Climb(k.threads) + Messages(k, d))
  }

  lemma BoundedMessages(k: Machine, peers: set<nat>)
    requires MachineInv(k) && SyncInv(k, peers) && Sound(k)
    ensures Messages(k, |peers|) >= 0
  {
    hide Reached;
    if k.threads[0].Syncing? {
      SubsetCardinality(k.sync.acks, peers);
      SubsetCardinality(k.sync.sentTo, peers);
    }
  }

  /** What a step brings: ranks climbed, and messages no longer ahead. */
  function Gain(k: Machine, k': Machine, t: nat, d: nat): (g: int)
    requires t < |k.threads| == |k'.threads|
  {
    Rank(k'.threads[t]) - Rank(k.threads[t]) + Messages(k, d) - Messages(k', d)
  }

  lemma ThreadStepCounts(k: Machine, peers: set<nat>, step: Step, k': Machine)
    requires |k.threads| >= 1 && Sound(k) && Local(k, peers, step) == Some(k')
    requires step.Count? || step.PassCounter? || step.PassFlag?
    requires forall t :: 0 <= t < |k.threads| ==> ThreadInv(k, t)
    ensures step.t < |k.threads| == |k'.threads| && Sound(k') && Gain(k, k', step.t, |peers|) > 0
    ensures forall p :: p in peers ==> AckedFrom(k', p) == AckedFrom(k, p)
  {
    assert step.t < |k.threads| && ThreadInv(k, step.t);
  }

  lemma SyncStepCounts(k: Machine, peers: set<nat>, step: Step, k': Machine)
    requires |k.threads| >= 1 && Sound(k) && SyncInv(k, peers) && Local(k, peers, step) == Some(k')
    requires step.BeginSync? || step.Send? || step.EndSync?
    requires ThreadInv(k, 0)
    ensures |k.threads| == |k'.threads| && Sound(k') && Gain(k, k', 0, |peers|) > 0
    ensures forall p :: p in peers ==> AckedFrom(k', p) == AckedFrom(k, p)
  {
    if step.EndSync? { SubsetCardinality(k.sync.acks, peers); }
  }

  /** An own step keeps a machine sound, counts no message it has not taken, and leaves less ahead. */
  lemma OwnStepCounts(k: Machine, peers: set<nat>, step: Step, k': Machine)
    requires MachineInv(k) && SyncInv(k, peers) && Sound(k) && OwnStep(step) && Local(k, peers, step) == Some(k')
    ensures k'.threads != [] && Sound(k')
    ensures Climb(k'.threads) + Messages(k', |peers|) < Climb(k.threads) + Messages(k, |peers|)
    ensures forall p :: p in peers ==> AckedFrom(k', p) == AckedFrom(k, p)
  {
    hide Reached, Local, ThreadInv, Sound, SyncInv, AckedFrom, Messages, Rank, Climb;
    OnlyOneMoves(k, peers, step, k');
    ClimbUpdate(k.threads, Moved(step), k'.threads[Moved(step)]);
    if step.BeginSync? || step.Send? || step.EndSync? {
      SyncStepCounts(k, peers, step, k');
    } else {
      ThreadStepCounts(k, peers, step, k');
    }
  }

  /** So does hearing a peer not yet heard in this sync. */
  lemma PollCounts(k: Machine, peers: set<nat>, m: nat, p: nat, k': Machine)
    requires |k.threads| >= 1 && Sound(k) && SyncInv(k, peers) && ThreadInv(k, 0)
    requires Local(k, peers, PollSync(m, p)) == Some(k') && p !in k.sync.acks
    ensures k'.threads == k.threads && Sound(k') && Messages(k', |peers|) < Messages(k, |peers|)
    ensures forall q :: q in peers ==> AckedFrom(k', q) == AckedFrom(k, q) + (if q == p then 1 else 0)
  {
  }

  function TotalAhead(machines: seq<Machine>, d: nat): (n: nat)
    requires forall m :: 0 <= m < |machines| ==> machines[m].threads != []
  {
    if machines == [] then 0 else TotalAhead(machines[..|machines| - 1], d) + Ahead(machines[|machines| - 1], d)
  }

  lemma {:induction false} TotalUpdate(machines: seq<Machine>, i: nat, k: Machine, d: nat)
    requires forall m :: 0 <= m < |machines| ==> machines[m].threads != []
    requires i < |machines| && k.threads != []
    ensures TotalAhead(machines[i := k], d) + Ahead(machines[i], d) == TotalAhead(machines, d) + Ahead(k, d)
  {
    hide Ahead;
    var n, after := |machines| - 1, machines[i := k];
    if i < n {
      TotalUpdate(machines[..n], i, k, d);
      assert after[..n] == machines[..n][i := k];
    } else {
      assert after[..n] == machines[..n];
    }
  }

  ghost predicate Good(s: State) { Inv(s) && Clean(s) }

  lemma GoodMachine(s: State, m: nat)
    requires Good(s) && m < |s.machines|
    ensures var k, peers := s.machines[m], Peers(|s.machines|, m);
            MachineInv(k) && SyncInv(k, peers) && Sound(k) && ThreadInv(k, 0) && |peers| == |s.machines| - 1
  {
    assert MachineInv(s.machines[m]) && SyncInv(s.machines[m], Peers(|s.machines|, m));
  }

  /** A step that keeps its machine sound and its books straight keeps the state clean. */
  lemma StepKeepsClean(s: State, step: Step, s': State)
    requires Good(s) && Next(s, step) == Some(s') && step.m < |s.machines| == |s'.machines|
    requires s'.machines == s.machines[step.m := s'.machines[step.m]] && Sound(s'.machines[step.m])
    requires forall p :: p in Peers(|s.machines|, step.m) ==>
               AckedFrom(s'.machines[step.m], p) == AckedFrom(s.machines[step.m], p) + (if Takes(step, p) then 1 else 0)
    ensures Clean(s')
  {
    hide Local, AckedFrom, Inv, Next, Peers;
    var q := step.m;
    forall m: nat, p: nat | m < |s'.machines| && p < |s'.machines| && m != p ensures NothingLost(s', m, p) {
      assert NothingLost(s, m, p);
      TakenBy(s, step, s', m, p);
      ArePeers(|s.machines|, m, p);
    }
  }

  /** How many peers each leader has. */
  function Fellows(s: State): (d: nat) { Max(0, |s.machines| - 1) }

  /** One step of the schedule. */
  ghost predicate Advances(s: State, s': State) {
    && Good(s') && |s'.machines| == |s.machines|
    && (forall m :: 0 <= m < |s.machines| ==> s.machines[m].threads != [] && s'.machines[m].threads != [])
    && TotalAhead(s'.machines, Fellows(s)) < TotalAhead(s.machines, Fellows(s))
  }

  lemma OwnStepIsEnabled(s: State, step: Step)
    requires Inv(s) && OwnStep(step) && step.m < |s.machines| && Sound(s.machines[step.m])
    requires Local(s.machines[step.m], Peers(|s.machines|, step.m), step).Some?
    ensures Next(s, step).Some?
  {
    if step.Send? {
      assert step.p < |s.machines| by { SentToPeer(s.machines[step.m], Peers(|s.machines|, step.m), step); }
      assert LinkInv(s, step.p, step.m);
    }
    hide Local;
  }

  lemma SentToPeer(k: Machine, peers: set<nat>, step: Step)
    requires k.threads != [] && step.Send? && Local(k, peers, step).Some?
    ensures step.p in peers
  {
  }

  lemma Descends(s: State, step: Step, s': State)
    requires Good(s) && Next(s, step) == Some(s') && Clean(s') && step.m < |s.machines| == |s'.machines|
    requires s'.machines == s.machines[step.m := s'.machines[step.m]]
    requires var d, k, k' := |s.machines| - 1, s.machines[step.m], s'.machines[step.m];
             k.threads != [] && k'.threads != []
             && Climb(k'.threads) + Messages(k', d) < Climb(k.threads) + Messages(k, d)
    ensures Advances(s, s')
  {
    hide Local, Messages, Climb, TotalAhead, Next, MachineInv, LinkInv, SyncInv, NothingLost;
    var d := |s.machines| - 1;
    StepInv(s, step, s');
    GoodMachine(s', step.m);
    BoundedMessages(s'.machines[step.m], Peers(|s.machines|, step.m));
    TotalUpdate(s.machines, step.m, s'.machines[step.m], d);
  }

  lemma AdvanceOwn(s: State, m: nat) returns (step: Step, s': State)
    requires Good(s) && m < |s.machines|
    requires !AllFinished(s.machines[m]) && !Listening(s.machines[m], Peers(|s.machines|, m))
    ensures Next(s, step) == Some(s') && Advances(s, s')
  {
    hide Local, MachineInv, LinkInv, SyncInv, Sound, Clean, AllFinished, Listening, Advances, Messages, AckedFrom, Next;
    var k, peers := s.machines[m], Peers(|s.machines|, m);
    GoodMachine(s, m);
    step := OwnWork(k, peers, m);
    OwnStepIsEnabled(s, step);
    s' := Next(s, step).value;
    StepTouchesOne(s, step, s');
    OwnStepCounts(k, peers, step, s'.machines[m]);
    StepKeepsClean(s, step, s');
    Descends(s, step, s');
  }

  // ---------------------------------------------------------------- a listening leader hears somebody

  /** Leaders in the first sync come before leaders in the second. */
  ghost predicate Earliest(s: State, m: nat) {
    && m < |s.machines| && Listening(s.machines[m], Peers(|s.machines|, m))
    && (s.machines[m].threads[0].round == 1
        || forall p :: 0 <= p < |s.machines| ==> s.machines[p].threads != [] && s.machines[p].threads[0] != Syncing(1))
  }

  /** Whom an earliest leader can hear: any peer it has not heard has already sent. */
  lemma SomebodyHasSent(s: State, m: nat, p: nat)
    requires Good(s) && Earliest(s, m) && p in Peers(|s.machines|, m) && p !in s.machines[m].sync.acks
    requires AllFinished(s.machines[p]) || Listening(s.machines[p], Peers(|s.machines|, p))
    ensures (p, m) in s.sent && (p, m) in s.taken && s.taken[(p, m)] < s.sent[(p, m)]
  {
    GoodMachine(s, m);
    GoodMachine(s, p);
    ArePeers(|s.machines|, p, m);
    assert LinkInv(s, m, p) && NothingLost(s, m, p);
    hide MachineInv, SyncInv;
  }

  lemma Unheard(k: Machine, peers: set<nat>) returns (p: nat)
    requires Listening(k, peers) && SyncInv(k, peers)
    ensures p in peers - k.sync.acks
  {
    AcksBounded(k.sync.acks, k.sync.heard);
    p := Missing(k.sync.acks, peers);
  }

  lemma {:induction false} AcksBounded(acks: set<nat>, heard: multiset<nat>)
    requires forall x :: x in acks ==> x in heard
    ensures |acks| <= |heard|
  {
    assert multiset(acks) <= heard;
    assert heard == multiset(acks) + (heard - multiset(acks));
    assert |multiset(acks)| == |acks|;
  }

  lemma PollIsEnabled(k: Machine, peers: set<nat>, m: nat, p: nat)
    requires Listening(k, peers) && p in peers
    ensures Local(k, peers, PollSync(m, p)).Some?
  {
  }

  lemma AdvancePoll(s: State, m: nat) returns (step: Step, s': State)
    requires Good(s) && Earliest(s, m)
    requires forall p :: 0 <= p < |s.machines| ==>
               AllFinished(s.machines[p]) || Listening(s.machines[p], Peers(|s.machines|, p))
    ensures Next(s, step) == Some(s') && Advances(s, s')
  {
    var k, peers := s.machines[m], Peers(|s.machines|, m);
    GoodMachine(s, m);
    var p := Unheard(k, peers);
    SomebodyHasSent(s, m, p);
    PollIsEnabled(k, peers, m, p);
    step := PollSync(m, p);
    hide Local, MachineInv, LinkInv, SyncInv, Sound, Clean, AllFinished, Listening, Advances, Messages, AckedFrom;
    hide Climb, Peers;
    s' := Next(s, step).value;
    StepTouchesOne(s, step, s');
    PollCounts(k, peers, m, p, s'.machines[m]);
    StepKeepsClean(s, step, s');
    Descends(s, step, s');
  }

  lemma GoodThreads(s: State)
    requires Good(s)
    ensures forall m :: 0 <= m < |s.machines| ==> s.machines[m].threads != []
  {
  }

  lemma SyncingIsNotFinished(k: Machine)
    requires k.threads != [] && k.threads[0].Syncing?
    ensures !AllFinished(k)
  {
  }

  /** Every machine has finished or is listening. */
  ghost predicate AllListening(s: State) {
    forall m :: 0 <= m < |s.machines| ==>
      s.machines[m].threads != []
      && (AllFinished(s.machines[m]) || Listening(s.machines[m], Peers(|s.machines|, m)))
  }

  lemma FindEarliest(s: State) returns (m: nat)
    requires AllListening(s) && !Done(s)
    ensures Earliest(s, m)
  {
    hide AllFinished, Peers;
    if e :| 0 <= e < |s.machines| && s.machines[e].threads[0] == Syncing(1) {
      SyncingIsNotFinished(s.machines[e]);
      m := e;
    } else {
      m :| 0 <= m < |s.machines| && !AllFinished(s.machines[m]);
    }
  }

  /** While not everybody has finished, some step keeps the state clean and brings the end closer. */
  lemma Advance(s: State) returns (step: Step, s': State)
    requires Good(s) && !Done(s)
    ensures Next(s, step) == Some(s') && Advances(s, s')
  {
    GoodThreads(s);
    hide Good, Next, Advances, AllFinished, Listening, Earliest, Peers;
    if m :| 0 <= m < |s.machines| && !AllFinished(s.machines[m]) && !Listening(s.machines[m], Peers(|s.machines|, m)) {
      step, s' := AdvanceOwn(s, m);
    } else {
      assert AllListening(s);
      var m := FindEarliest(s);
      step, s' := AdvancePoll(s, m);
    }
  }

  lemma AdvancesMeans(s: State, s': State)
    requires Advances(s, s')
    ensures Good(s') && |s'.machines| == |s.machines|
    ensures forall m :: 0 <= m < |s.machines| ==> s.machines[m].threads != [] && s'.machines[m].threads != []
    ensures TotalAhead(s'.machines, Fellows(s)) < TotalAhead(s.machines, Fellows(s))
  {
  }

  /** What a state has ahead of it. */
  ghost function Distance(s: State): (n: nat)
    requires Good(s)
  {
    GoodThreads(s);
    TotalAhead(s.machines, Fellows(s))
  }

  lemma {:induction false} Finish(s: State) returns (steps: seq<Step>)
    requires Good(s)
    ensures After(s, steps).Some? && Done(After(s, steps).value)
    decreases Distance(s)
  {
    hide Good, Next, Advances, Done, TotalAhead;
    if Done(s) {
      steps := [];
    } else {
      var step, t := Advance(s);
      AdvancesMeans(s, t);
      var rest := Finish(t);
      steps := [step] + rest;
      assert steps[1..] == rest;
    }
  }

  /**
   * In every run, every thread of every machine can still come to the end if and only if no leader has
   * consumed a message it did not count, wasted a poll, or panicked.
   */
  lemma CanFinishExactlyWhenClean(tr: seq<State>, i: nat)
    requires Run(tr) && i < |tr|
    ensures CanFinish(tr[i]) <==> Clean(tr[i])
  {
    RunInv(tr, i);
    RunPanicsInSync(tr, i);
    hide Inv, Done, After, Clean, Run, PanicsInSync, Ruined;
    if Clean(tr[i]) {
      var steps := Finish(tr[i]);
    } else {
      var m, p := NotCleanMeansRuined(tr[i]);
      forall steps | After(tr[i], steps).Some? ensures !Done(After(tr[i], steps).value) {
        RuinedForEver(tr[i], steps, m, p);
        if Done(After(tr[i], steps).value) { DoneIsNotRuined(After(tr[i], steps).value, m, p); }
      }
    }
  }

  // ---------------------------------------------------------------- a discarded message

  /** Machine 0 gets to the workload with the second message of machine 1 waiting for it. */
  lemma ZeroWorks(n: nat) returns (s: State)
    requires n >= 2
    ensures Reaches(s) && Linked(s) && |s.machines| == n && s.machines[0].threads == [Working]
    ensures !s.machines[0].panicked
    ensures s.taken[(1, 0)] == 1 && s.sent[(1, 0)] == 2
  {
    hide Reaches, Peers, Others, Hear, Elems, Range, Local;
    var s0 := FastPeer(n);
    PeerCount(n, 0);
    OthersBounds(0, n, 0);
    OthersElems(0, n, 0);
    HeardAll(n, 0);
    forall p: nat | p < n ensures s0.taken[(p, 0)] + multiset(Others(0, n, 0))[p] <= s0.sent[(p, 0)] {
      OthersOnce(0, n, 0, p);
    }
    var s1 := PollMany(s0, 0, Others(0, n, 0));
    OthersOnce(0, n, 0, 1);
    ReachWorkload(s1, 0, s1.machines[0].sync);
    s := Put(s1, 0, Solo(Working, 1, 0, true, s1.machines[0].sync));
  }

  lemma DiscardLocal(k: Machine, peers: set<nat>, p: nat)
    requires k.threads == [Working] && p in peers
    ensures Local(k, peers, DiscardInGet(0, p)) == Some(k)
  {
  }

  /** For any number of machines: a GET discards a peer's message, and the barrier can no longer be completed. */
  lemma DiscardedMessageIsStuck(n: nat) returns (s: State)
    requires n >= 2
    ensures Reaches(s) && |s.machines| == n && s.machines[0].threads == [Working] && !s.machines[0].panicked
    ensures !CanFinish(s)
  {
    var s0 := ZeroWorks(n);
    ArePeers(n, 0, 1);
    DiscardLocal(s0.machines[0], Peers(n, 0), 1);
    hide Local, Peers, CanFinish, OrderlyRun;
    s := State(s0.machines, s0.sent, s0.taken[(1, 0) := 2]);
    assert s0.machines[0 := s0.machines[0]] == s0.machines;
    ReachesMore(s0, DiscardInGet(0, 1), s);
    assert !NothingLost(s, 0, 1);
    var tr :| OrderlyRun(tr) && tr[|tr| - 1] == s;
    assert Run(tr) by { OrderlyIsRun(tr); }
    CanFinishExactlyWhenClean(tr, |tr| - 1);
  }

  lemma OrderlyIsRun(tr: seq<State>)
    requires OrderlyRun(tr)
    ensures Run(tr)
  {
  }

  // ---------------------------------------------------------------- a wasted poll

  lemma RunMore(tr: seq<State>, step: Step, s': State)
    requires Run(tr) && Next(tr[|tr| - 1], step) == Some(s')
    ensures Run(tr + [s'])
  {
    var more := tr + [s'];
    forall i | 0 <= i < |more| - 1 ensures Follows(more[i], more[i + 1]) {
      if i < |tr| - 1 { assert Follows(tr[i], tr[i + 1]); }
    }
  }

  lemma NoiseLocal(k: Machine, peers: set<nat>)
    requires k.threads == [Syncing(1)] && k.sync.sentTo == peers && k.sync.polls < |peers|
    ensures Local(k, peers, PollNoise(0)) == Some(k.(sync := k.sync.(polls := k.sync.polls + 1)))
  {
  }

  /** For any number of machines: a leader polls anything but a sync message, and its sync cannot end well. */
  lemma WastedPollIsStuck(n: nat) returns (tr: seq<State>)
    requires n >= 2
    ensures Run(tr) && |tr[|tr| - 1].machines| == n && !CanFinish(tr[|tr| - 1])
  {
    var s0 := AllEnter(n, n);
    PeerCount(n, 0);
    var k := s0.machines[0];
    NoiseLocal(k, Peers(n, 0));
    hide Local, Peers, CanFinish, OrderlyRun;
    var k' := k.(sync := k.sync.(polls := 1));
    var s1 := Put(s0, 0, k');
    assert Next(s0, PollNoise(0)) == Some(s1);
    var tr0 :| OrderlyRun(tr0) && tr0[|tr0| - 1] == s0;
    OrderlyIsRun(tr0);
    RunMore(tr0, PollNoise(0), s1);
    tr := tr0 + [s1];
    assert !Sound(s1.machines[0]);
    CanFinishExactlyWhenClean(tr, |tr| - 1);
  }
}
