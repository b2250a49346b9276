/**
 * The buffer and request-token pools behind asynchronous slot reads, under any interleaving of any
 * number of threads.  A step is one queue operation of RDMADataWithQueue::read or execute_pending, or
 * the adapter finishing a posted read.  Queues are bags: a step names the element it takes.
 */
module TokenPool {
  import opened Common

  /** A posted read: the buffer it fills, the token it completes, and the caller's operation. */
  datatype Read = Read(buffer: nat, token: nat, op: nat)

  datatype Phase =
    | Idle
    | HasBuffer(buffer: nat, op: nat)   // in read, before get_request_token
    | Posted(read: Read)                // in read, before the pending queue
    | Draining(read: Read)              // in execute_pending, before the callback
    | CalledBack(read: Read)            // in execute_pending, before free_request_token
    | TokenFreed(buffer: nat)           // in execute_pending, before the buffer goes back

  /** `memory` is what each buffer holds: the data last read into it, named by its operation. */
  datatype State = State(
    freeBuffers: seq<nat>, freeTokens: seq<nat>, pending: seq<Read>, threads: seq<Phase>,
    memory: map<nat, nat>, completed: set<nat>, delivered: seq<(nat, nat)>, panicked: bool)

  datatype Step =
    | TakeBuffer(t: nat, i: nat, op: nat)
    | TakeToken(t: nat, i: nat)
    | Enqueue(t: nat)
    | Finish(k: nat)
    | Dequeue(t: nat, i: nat)
    | Callback(t: nat)
    | FreeToken(t: nat)
    | FreeBuffer(t: nat)

  /** Every place that may hold a read: the threads, then the pending queue. */
  function Places(s: State): (r: seq<Phase>) { s.threads + Waiting(s.pending) }

  function Waiting(pending: seq<Read>): (r: seq<Phase>)
    ensures |r| == |pending| && forall i :: 0 <= i < |r| ==> r[i] == Posted(pending[i])
  {
    if pending == [] then [] else Waiting(pending[..|pending| - 1]) + [Posted(pending[|pending| - 1])]
  }

  predicate InFlight(p: Phase) { p.Posted? || p.Draining? }

  /** The state after a step, or None where the step is not enabled. */
  function Next(s: State, step: Step): (r: Option<State>) {
    if s.panicked then None else
    match step
    case TakeBuffer(t, i, op) =>
      if t < |s.threads| && s.threads[t].Idle? && i < |s.freeBuffers| then
        var b := s.freeBuffers[i];
        Some(s.(freeBuffers := RemoveAt(s.freeBuffers, i), threads := s.threads[t := HasBuffer(b, op)]))
      else None
    case TakeToken(t, i) =>
      if t < |s.threads| && s.threads[t].HasBuffer? then
        if s.freeTokens == [] then Some(s.(panicked := true))
        else if i < |s.freeTokens| then
          var k := s.freeTokens[i];
          Some(s.(freeTokens := RemoveAt(s.freeTokens, i), completed := s.completed - {k},
                  threads := s.threads[t := Posted(Read(s.threads[t].buffer, k, s.threads[t].op))]))
        else None
      else None
    case Enqueue(t) =>
      if t < |s.threads| && s.threads[t].Posted? then
        Some(s.(pending := s.pending + [s.threads[t].read], threads := s.threads[t := Idle]))
      else None
    case Finish(k) =>
      if k < |Places(s)| && InFlight(Places(s)[k]) then
        var r := Places(s)[k].read;
        Some(s.(memory := s.memory[r.buffer := r.op], completed := s.completed + {r.token}))
      else None
    case Dequeue(t, i) =>
      if t < |s.threads| && s.threads[t].Idle? && i < |s.pending| then
        Some(s.(pending := RemoveAt(s.pending, i), threads := s.threads[t := Draining(s.pending[i])]))
      else None
    case Callback(t) =>
      if t < |s.threads| && s.threads[t].Draining? && s.threads[t].read.token in s.completed
         && s.threads[t].read.buffer in s.memory then
        var r := s.threads[t].read;
        Some(s.(delivered := s.delivered + [(r.op, s.memory[r.buffer])], threads := s.threads[t := CalledBack(r)]))
      else None
    case FreeToken(t) =>
      if t < |s.threads| && s.threads[t].CalledBack? then
        Some(s.(freeTokens := s.freeTokens + [s.threads[t].read.token],
                threads := s.threads[t := TokenFreed(s.threads[t].read.buffer)]))
      else None
    case FreeBuffer(t) =>
      if t < |s.threads| && s.threads[t].TokenFreed? then
        Some(s.(freeBuffers := s.freeBuffers + [s.threads[t].buffer], threads := s.threads[t := Idle]))
      else None
  }

  function UpTo(n: nat): (r: seq<nat>)
    ensures |r| == n && forall i :: 0 <= i < n ==> r[i] == i
  {
    if n == 0 then [] else UpTo(n - 1) + [n - 1]
  }

  function Start(buffers: nat, tokens: nat, threads: nat): (s: State) {
    State(UpTo(buffers), UpTo(tokens), [], seq(threads, _ => Idle), map[], {}, [], false)
  }

  /** A run: every state follows from the one before by some step. */
  ghost predicate Run(tr: seq<State>, buffers: nat, tokens: nat, threads: nat) {
    && tr != [] && tr[0] == Start(buffers, tokens, threads)
    && forall i :: 0 <= i < |tr| - 1 ==> Follows(tr[i], tr[i + 1])
  }

  ghost predicate Follows(s: State, s': State) {
    exists step :: Next(s, step) == Some(s')
  }

  // ---------------------------------------------------------------- who holds what

  predicate HoldsBuffer(p: Phase, x: nat) {
    match p
    case HasBuffer(b, _) => b == x
    case TokenFreed(b) => b == x
    case Posted(r) => r.buffer == x
    case Draining(r) => r.buffer == x
    case CalledBack(r) => r.buffer == x
    case Idle => false
  }

  predicate HoldsToken(p: Phase, x: nat) {
    match p
    case Posted(r) => r.token == x
    case Draining(r) => r.token == x
    case CalledBack(r) => r.token == x
    case _ => false
  }

  function One(b: bool): (r: nat) { if b then 1 else 0 }

  function BufferIs(x: nat): (w: Phase -> nat) { p => One(HoldsBuffer(p, x)) }

  function TokenIs(x: nat): (w: Phase -> nat) { p => One(HoldsToken(p, x)) }

  function AnyBuffer(): (w: Phase -> nat) { (p: Phase) => One(!p.Idle?) }

  function AnyToken(): (w: Phase -> nat) { (p: Phase) => One(p.Posted? || p.Draining? || p.CalledBack?) }

  /** How many places count under w. */
  function Held(ps: seq<Phase>, w: Phase -> nat): (r: nat) {
    if ps == [] then 0 else Held(ps[..|ps| - 1], w) + w(ps[|ps| - 1])
  }

  lemma {:induction false} HeldConcat(a: seq<Phase>, b: seq<Phase>, w: Phase -> nat)
    ensures Held(a + b, w) == Held(a, w) + Held(b, w)
  {
    if b == [] {
      assert a + b == a;
    } else {
      HeldConcat(a, b[..|b| - 1], w);
      assert (a + b)[..|a + b| - 1] == a + b[..|b| - 1];
    }
  }

  lemma HeldSplit(ps: seq<Phase>, i: nat, w: Phase -> nat)
    requires i < |ps|
    ensures Held(ps, w) == Held(ps[..i], w) + w(ps[i]) + Held(ps[i + 1..], w)
  {
    HeldConcat(ps[..i] + [ps[i]], ps[i + 1..], w);
    assert ps == ps[..i] + [ps[i]] + ps[i + 1..];
    assert (ps[..i] + [ps[i]])[..i] == ps[..i];
  }

  lemma HeldUpdate(ps: seq<Phase>, i: nat, p: Phase, w: Phase -> nat)
    requires i < |ps|
    ensures Held(ps[i := p], w) + w(ps[i]) == Held(ps, w) + w(p)
  {
    HeldSplit(ps, i, w);
    HeldSplit(ps[i := p], i, w);
    assert ps[i := p][..i] == ps[..i] && ps[i := p][i + 1..] == ps[i + 1..];
  }

  lemma HeldTwo(ps: seq<Phase>, i: nat, j: nat, w: Phase -> nat)
    requires i < |ps| && j < |ps| && i != j
    ensures w(ps[i]) + w(ps[j]) <= Held(ps, w)
  {
    if i < j {
      HeldSplit(ps, i, w);
      HeldSplit(ps[i + 1..], j - i - 1, w);
    } else {
      HeldTwo(ps, j, i, w);
    }
  }

  lemma HeldOne(ps: seq<Phase>, i: nat, w: Phase -> nat)
    requires i < |ps|
    ensures w(ps[i]) <= Held(ps, w)
  {
    HeldSplit(ps, i, w);
  }

  /** A token is held only where a buffer is; a thread between the two makes the difference. */
  lemma {:induction false} TokensNeedBuffers(ps: seq<Phase>)
    ensures Held(ps, AnyToken()) <= Held(ps, AnyBuffer())
    ensures (exists i :: 0 <= i < |ps| && ps[i].HasBuffer?) ==> Held(ps, AnyToken()) < Held(ps, AnyBuffer())
  {
    if ps != [] {
      var r := ps[..|ps| - 1];
      TokensNeedBuffers(r);
      if i :| 0 <= i < |ps| && ps[i].HasBuffer? && i < |r| {
        assert r[i].HasBuffer?;
      }
    }
  }

  // ---------------------------------------------------------------- the invariant

  /** Buffers and tokens are conserved: each is free or held, once. */
  ghost predicate Conserved(s: State, buffers: nat, tokens: nat) {
    && (forall x: nat :: BufferCount(s, x) == One(x < buffers))
    && (forall x: nat :: TokenCount(s, x) == One(x < tokens))
    && |s.freeBuffers| + Held(Places(s), AnyBuffer()) == buffers
    && |s.freeTokens| + Held(Places(s), AnyToken()) == tokens
  }

  ghost function BufferCount(s: State, x: nat): nat { multiset(s.freeBuffers)[x] + Held(Places(s), BufferIs(x)) }

  ghost function TokenCount(s: State, x: nat): nat { multiset(s.freeTokens)[x] + Held(Places(s), TokenIs(x)) }

  /** A completed read's buffer holds that read's own data. */
  ghost predicate DataIsOwn(s: State) {
    forall k :: 0 <= k < |Places(s)| && InFlight(Places(s)[k]) && Places(s)[k].read.token in s.completed ==>
      Places(s)[k].read.buffer in s.memory && s.memory[Places(s)[k].read.buffer] == Places(s)[k].read.op
  }

  ghost predicate DeliveredOwn(s: State) {
    forall i :: 0 <= i < |s.delivered| ==> s.delivered[i].1 == s.delivered[i].0
  }

  ghost predicate Inv(s: State, buffers: nat, tokens: nat) {
    Conserved(s, buffers, tokens) && DataIsOwn(s) && DeliveredOwn(s)
  }

  /** Two places never hold the same buffer or token. */
  lemma PlacesAreDisjoint(s: State, buffers: nat, tokens: nat, i: nat, j: nat, x: nat)
    requires Conserved(s, buffers, tokens) && i < |Places(s)| && j < |Places(s)| && i != j
    ensures !(HoldsBuffer(Places(s)[i], x) && HoldsBuffer(Places(s)[j], x))
    ensures !(HoldsToken(Places(s)[i], x) && HoldsToken(Places(s)[j], x))
  {
    HeldTwo(Places(s), i, j, BufferIs(x));
    HeldTwo(Places(s), i, j, TokenIs(x));
    assert BufferCount(s, x) <= 1 && TokenCount(s, x) <= 1;
  }

  lemma FreeIsNotHeld(s: State, buffers: nat, tokens: nat, b: nat, k: nat)
    requires Conserved(s, buffers, tokens) && b in s.freeBuffers && k < |Places(s)|
    ensures !HoldsBuffer(Places(s)[k], b)
  {
    HeldOne(Places(s), k, BufferIs(b));
    assert multiset(s.freeBuffers)[b] >= 1;
    assert BufferCount(s, b) <= 1;
  }

  /** Where the places of a thread step differ: at the thread alone. */
  lemma ThreadStepPlaces(s: State, step: Step, s': State)
    requires Next(s, step) == Some(s') && !s'.panicked && !step.Enqueue? && !step.Dequeue? && !step.Finish?
    ensures step.t < |s.threads| && Places(s') == Places(s)[step.t := s'.threads[step.t]]
    ensures Places(s)[step.t] == s.threads[step.t]
  {
    hide Waiting;
  }

  /** Queueing a read, or taking one from the queue, moves it between places. */
  lemma MoveStepPlaces(s: State, step: Step, s': State)
    requires Next(s, step) == Some(s') && (step.Enqueue? || step.Dequeue?)
    ensures step.t < |s.threads| <= |Places(s)|
    ensures step.Enqueue? ==> s.threads[step.t].Posted? && Places(s') == Places(s)[step.t := Idle] + [s.threads[step.t]]
    ensures step.Dequeue? ==>
              var i := |s.threads| + step.i;
              && step.i < |s.pending| && i < |Places(s)|
              && Places(s)[i] == Posted(s.pending[step.i]) && Places(s)[step.t] == Idle
              && Places(s') == RemoveAt(Places(s), i)[step.t := Draining(s.pending[step.i])]
  {
    hide Waiting;
  }

  ghost predicate SameWhenQueued(w: Phase -> nat) {
    w(Idle) == 0 && forall r: Read :: w(Posted(r)) == w(Draining(r))
  }

  lemma MoveKeepsHeld(s: State, step: Step, s': State, w: Phase -> nat)
    requires Next(s, step) == Some(s') && (step.Enqueue? || step.Dequeue?) && SameWhenQueued(w)
    ensures Held(Places(s'), w) == Held(Places(s), w)
  {
    MoveStepPlaces(s, step, s');
    hide Next, Places;
    var ps := Places(s);
    if step.Enqueue? {
      HeldUpdate(ps, step.t, Idle, w);
      var q := ps[step.t := Idle] + [s.threads[step.t]];
      assert q[..|q| - 1] == ps[step.t := Idle];
    } else {
      var i := |s.threads| + step.i;
      HeldSplit(ps, i, w);
      HeldConcat(ps[..i], ps[i + 1..], w);
      HeldUpdate(RemoveAt(ps, i), step.t, Draining(s.pending[step.i]), w);
      assert RemoveAt(ps, i)[step.t] == Idle;
    }
  }

  lemma MoveKeepsPools(s: State, step: Step, s': State)
    requires Next(s, step) == Some(s') && (step.Enqueue? || step.Dequeue?)
    ensures s'.freeBuffers == s.freeBuffers && s'.freeTokens == s.freeTokens
  {
  }

  lemma QueuedTheSame(x: nat)
    ensures SameWhenQueued(BufferIs(x)) && SameWhenQueued(TokenIs(x))
  {
  }

  lemma MoveKeepsCounts(s: State, step: Step, s': State, x: nat)
    requires Next(s, step) == Some(s') && (step.Enqueue? || step.Dequeue?)
    ensures BufferCount(s', x) == BufferCount(s, x) && TokenCount(s', x) == TokenCount(s, x)
  {
    MoveKeepsPools(s, step, s');
    QueuedTheSame(x);
    hide Next, Places, SameWhenQueued, BufferIs, TokenIs;
    MoveKeepsHeld(s, step, s', BufferIs(x));
    MoveKeepsHeld(s, step, s', TokenIs(x));
  }

  lemma ConservedByMove(s: State, step: Step, s': State, buffers: nat, tokens: nat)
    requires Conserved(s, buffers, tokens) && Next(s, step) == Some(s') && (step.Enqueue? || step.Dequeue?)
    ensures Conserved(s', buffers, tokens)
  {
    MoveKeepsHeld(s, step, s', AnyBuffer());
    MoveKeepsHeld(s, step, s', AnyToken());
    MoveKeepsPools(s, step, s');
    hide Next, Places, BufferCount, TokenCount;
    forall x: nat ensures BufferCount(s', x) == BufferCount(s, x) && TokenCount(s', x) == TokenCount(s, x) {
      MoveKeepsCounts(s, step, s', x);
    }
  }

  lemma FreeCount(q: seq<nat>, i: nat, x: nat)
    requires i < |q|
    ensures multiset(RemoveAt(q, i))[x] + One(q[i] == x) == multiset(q)[x]
  {
    RemoveAtMultiset(q, i);
  }

  predicate ThreadStep(s: State, step: Step, s': State) {
    Next(s, step) == Some(s') && !s'.panicked && !step.Enqueue? && !step.Dequeue? && !step.Finish?
  }

  /** A thread step moves a buffer between the free queue and the thread, or leaves both alone. */
  lemma FreeBufferStep(s: State, step: Step, s': State, x: nat)
    requires ThreadStep(s, step, s')
    ensures step.t < |s.threads| == |s'.threads|
    ensures multiset(s'.freeBuffers)[x] + One(HoldsBuffer(s'.threads[step.t], x))
            == multiset(s.freeBuffers)[x] + One(HoldsBuffer(s.threads[step.t], x))
  {
    hide Places;
    if step.TakeBuffer? { FreeCount(s.freeBuffers, step.i, x); }
    if step.FreeBuffer? { OneMore(s.freeBuffers, s.threads[step.t].buffer, x); }
  }

  /** Likewise for tokens. */
  lemma FreeTokenStep(s: State, step: Step, s': State, x: nat)
    requires ThreadStep(s, step, s')
    ensures step.t < |s.threads| == |s'.threads|
    ensures multiset(s'.freeTokens)[x] + One(HoldsToken(s'.threads[step.t], x))
            == multiset(s.freeTokens)[x] + One(HoldsToken(s.threads[step.t], x))
  {
    hide Places;
    if step.TakeToken? { FreeCount(s.freeTokens, step.i, x); }
    if step.FreeToken? { OneMore(s.freeTokens, s.threads[step.t].read.token, x); }
  }

  lemma BufferCountKept(s: State, step: Step, s': State, x: nat)
    requires ThreadStep(s, step, s')
    ensures BufferCount(s', x) == BufferCount(s, x)
  {
    ThreadStepPlaces(s, step, s');
    FreeBufferStep(s, step, s', x);
    hide Places, Next, HoldsBuffer, One;
    HeldUpdate(Places(s), step.t, s'.threads[step.t], BufferIs(x));
  }

  lemma TokenCountKept(s: State, step: Step, s': State, x: nat)
    requires ThreadStep(s, step, s')
    ensures TokenCount(s', x) == TokenCount(s, x)
  {
    ThreadStepPlaces(s, step, s');
    FreeTokenStep(s, step, s', x);
    hide Places, Next, HoldsToken, One;
    HeldUpdate(Places(s), step.t, s'.threads[step.t], TokenIs(x));
  }

  lemma TotalsKept(s: State, step: Step, s': State)
    requires ThreadStep(s, step, s')
    ensures |s'.freeBuffers| + Held(Places(s'), AnyBuffer()) == |s.freeBuffers| + Held(Places(s), AnyBuffer())
    ensures |s'.freeTokens| + Held(Places(s'), AnyToken()) == |s.freeTokens| + Held(Places(s), AnyToken())
  {
    ThreadStepPlaces(s, step, s');
    hide Places;
    HeldUpdate(Places(s), step.t, s'.threads[step.t], AnyBuffer());
    HeldUpdate(Places(s), step.t, s'.threads[step.t], AnyToken());
  }

  lemma ConservedByThreadStep(s: State, step: Step, s': State, buffers: nat, tokens: nat)
    requires Conserved(s, buffers, tokens) && ThreadStep(s, step, s')
    ensures Conserved(s', buffers, tokens)
  {
    hide Next, BufferCount, TokenCount;
    TotalsKept(s, step, s');
    forall x: nat ensures BufferCount(s', x) == BufferCount(s, x) && TokenCount(s', x) == TokenCount(s, x) {
      BufferCountKept(s, step, s', x);
      TokenCountKept(s, step, s', x);
    }
  }

  lemma ConservedByStep(s: State, step: Step, s': State, buffers: nat, tokens: nat)
    requires Conserved(s, buffers, tokens) && Next(s, step) == Some(s')
    ensures Conserved(s', buffers, tokens)
  {
    if step.Enqueue? || step.Dequeue? {
      ConservedByMove(s, step, s', buffers, tokens);
    } else if step.Finish? || s'.panicked {
      assert Places(s') == Places(s);
      assert forall x: nat :: BufferCount(s', x) == BufferCount(s, x) && TokenCount(s', x) == TokenCount(s, x);
    } else {
      ConservedByThreadStep(s, step, s', buffers, tokens);
    }
  }

  lemma EnqueuedRead(ps: seq<Phase>, t: nat, k: nat) returns (j: nat)
    requires t < |ps| && k <= |ps| && InFlight((ps[t := Idle] + [ps[t]])[k])
    ensures j < |ps| && ps[j] == (ps[t := Idle] + [ps[t]])[k]
  {
    j := if k == |ps| then t else k;
  }

  lemma DequeuedRead(ps: seq<Phase>, t: nat, i: nat, r: Read, k: nat) returns (j: nat)
    requires t < i < |ps| && ps[i] == Posted(r) && k < |ps| - 1 && InFlight(RemoveAt(ps, i)[t := Draining(r)][k])
    ensures j < |ps| && InFlight(ps[j]) && ps[j].read == RemoveAt(ps, i)[t := Draining(r)][k].read
  {
    j := if k == t then i else if k < i then k else k + 1;
  }

  lemma MoveKeepsMemory(s: State, step: Step, s': State)
    requires Next(s, step) == Some(s') && (step.Enqueue? || step.Dequeue?)
    ensures s'.memory == s.memory && s'.completed == s.completed
  {
  }

  lemma DataIsOwnByMove(s: State, step: Step, s': State)
    requires DataIsOwn(s) && Next(s, step) == Some(s') && (step.Enqueue? || step.Dequeue?)
    ensures DataIsOwn(s')
  {
    MoveStepPlaces(s, step, s');
    MoveKeepsMemory(s, step, s');
    hide Waiting, Places, Next;
    var ps, qs := Places(s), Places(s');
    forall k | 0 <= k < |qs| && InFlight(qs[k])
      ensures exists j :: 0 <= j < |ps| && InFlight(ps[j]) && ps[j].read == qs[k].read
    {
      if step.Enqueue? {
        var j := EnqueuedRead(ps, step.t, k);
      } else {
        var j := DequeuedRead(ps, step.t, |s.threads| + step.i, s.pending[step.i], k);
      }
    }
  }

  lemma DataIsOwnByFinish(s: State, step: Step, s': State, buffers: nat, tokens: nat)
    requires Inv(s, buffers, tokens) && Next(s, step) == Some(s') && step.Finish?
    ensures DataIsOwn(s')
  {
    var ps := Places(s);
    assert Places(s') == ps;
    forall k | 0 <= k < |ps| && InFlight(ps[k]) && ps[k].read.token in s'.completed
      ensures ps[k].read.buffer in s'.memory && s'.memory[ps[k].read.buffer] == ps[k].read.op
    {
      if k != step.k {
        PlacesAreDisjoint(s, buffers, tokens, k, step.k, ps[k].read.token);
        PlacesAreDisjoint(s, buffers, tokens, k, step.k, ps[k].read.buffer);
      }
    }
  }

  lemma DataIsOwnByStep(s: State, step: Step, s': State, buffers: nat, tokens: nat)
    requires Inv(s, buffers, tokens) && Next(s, step) == Some(s')
    ensures DataIsOwn(s')
  {
    if step.Enqueue? || step.Dequeue? {
      DataIsOwnByMove(s, step, s');
    } else if step.Finish? {
      DataIsOwnByFinish(s, step, s', buffers, tokens);
    } else if s'.panicked {
      assert Places(s') == Places(s);
    } else {
      ThreadStepPlaces(s, step, s');
      var ps := Places(s);
      forall k | 0 <= k < |ps| && k != step.t && InFlight(ps[k]) && ps[k].read.token in s'.completed
        ensures ps[k].read.buffer in s'.memory && s'.memory[ps[k].read.buffer] == ps[k].read.op
      {
      }
    }
  }

  lemma DeliveredOwnByStep(s: State, step: Step, s': State, buffers: nat, tokens: nat)
    requires Inv(s, buffers, tokens) && Next(s, step) == Some(s')
    ensures DeliveredOwn(s')
  {
    if step.Callback? {
      assert Places(s)[step.t] == s.threads[step.t];
    }
  }

  lemma {:induction false} HeldNothing(ps: seq<Phase>, w: Phase -> nat)
    requires w(Idle) == 0 && forall i :: 0 <= i < |ps| ==> ps[i].Idle?
    ensures Held(ps, w) == 0
  {
    if ps != [] { HeldNothing(ps[..|ps| - 1], w); }
  }

  lemma OneMore(q: seq<nat>, last: nat, x: nat)
    ensures multiset(q + [last])[x] == multiset(q)[x] + One(x == last)
  {
  }

  lemma OneBelow(n: nat, x: nat)
    requires n > 0
    ensures One(x < n) == One(x < n - 1) + One(x == n - 1)
  {
  }

  lemma {:induction false} UpToOnce(n: nat, x: nat)
    ensures multiset(UpTo(n))[x] == One(x < n)
  {
    if n > 0 {
      UpToOnce(n - 1, x);
      hide One;
      OneMore(UpTo(n - 1), n - 1, x);
      OneBelow(n, x);
    }
  }

  lemma StartCounts(buffers: nat, tokens: nat, threads: nat, x: nat)
    ensures var s := Start(buffers, tokens, threads);
            BufferCount(s, x) == One(x < buffers) && TokenCount(s, x) == One(x < tokens)
  {
    var s := Start(buffers, tokens, threads);
    assert Places(s) == s.threads;
    HeldNothing(s.threads, BufferIs(x));
    HeldNothing(s.threads, TokenIs(x));
    UpToOnce(buffers, x);
    UpToOnce(tokens, x);
  }

  lemma StartInv(buffers: nat, tokens: nat, threads: nat)
    ensures Inv(Start(buffers, tokens, threads), buffers, tokens)
  {
    var s := Start(buffers, tokens, threads);
    assert Places(s) == s.threads;
    HeldNothing(s.threads, AnyBuffer());
    HeldNothing(s.threads, AnyToken());
    hide BufferCount, TokenCount, One;
    forall x: nat ensures BufferCount(s, x) == One(x < buffers) && TokenCount(s, x) == One(x < tokens) {
      StartCounts(buffers, tokens, threads, x);
    }
  }

  lemma {:induction false} RunInv(tr: seq<State>, buffers: nat, tokens: nat, threads: nat, k: nat)
    requires Run(tr, buffers, tokens, threads) && k < |tr|
    ensures Inv(tr[k], buffers, tokens)
  {
    if k == 0 {
      StartInv(buffers, tokens, threads);
    } else {
      RunInv(tr, buffers, tokens, threads, k - 1);
      assert Follows(tr[k - 1], tr[k - 1 + 1]);
      var step :| Next(tr[k - 1], step) == Some(tr[k]);
      ConservedByStep(tr[k - 1], step, tr[k], buffers, tokens);
      DataIsOwnByStep(tr[k - 1], step, tr[k], buffers, tokens);
      DeliveredOwnByStep(tr[k - 1], step, tr[k], buffers, tokens);
    }
  }

  // ---------------------------------------------------------------- main results

  /** Held tokens never exceed held buffers, and the buffers in use never exceed the pool. */
  lemma TokensWithinBuffers(tr: seq<State>, buffers: nat, tokens: nat, threads: nat, k: nat)
    requires Run(tr, buffers, tokens, threads) && k < |tr|
    ensures Held(Places(tr[k]), AnyToken()) <= Held(Places(tr[k]), AnyBuffer()) <= buffers
    ensures |tr[k].freeTokens| == tokens - Held(Places(tr[k]), AnyToken())
  {
    RunInv(tr, buffers, tokens, threads, k);
    TokensNeedBuffers(Places(tr[k]));
  }

  /** With at least as many tokens as buffers, no interleaving runs out of tokens. */
  lemma {:induction false} NeverOutOfTokens(tr: seq<State>, buffers: nat, tokens: nat, threads: nat, k: nat)
    requires Run(tr, buffers, tokens, threads) && k < |tr| && buffers <= tokens
    ensures !tr[k].panicked
  {
    if k > 0 {
      NeverOutOfTokens(tr, buffers, tokens, threads, k - 1);
      var s := tr[k - 1];
      assert Follows(tr[k - 1], tr[k - 1 + 1]);
      var step :| Next(s, step) == Some(tr[k]);
      if step.TakeToken? {
        TokensWithinBuffers(tr, buffers, tokens, threads, k - 1);
        assert Places(s)[step.t].HasBuffer?;
        TokensNeedBuffers(Places(s));
      }
    }
  }

  /** No queued read's buffer is free, and no two queued reads share a buffer or a token. */
  lemma BuffersAreExclusive(tr: seq<State>, buffers: nat, tokens: nat, threads: nat, k: nat, i: nat)
    requires Run(tr, buffers, tokens, threads) && k < |tr| && i < |tr[k].pending|
    ensures tr[k].pending[i].buffer !in tr[k].freeBuffers
    ensures forall j :: 0 <= j < |tr[k].pending| && j != i ==>
              tr[k].pending[i].buffer != tr[k].pending[j].buffer && tr[k].pending[i].token != tr[k].pending[j].token
  {
    RunInv(tr, buffers, tokens, threads, k);
    var s, n := tr[k], |tr[k].threads|;
    assert Places(s)[n + i] == Posted(s.pending[i]);
    if s.pending[i].buffer in s.freeBuffers {
      FreeIsNotHeld(s, buffers, tokens, s.pending[i].buffer, n + i);
    }
    forall j | 0 <= j < |s.pending| && j != i
      ensures s.pending[i].buffer != s.pending[j].buffer && s.pending[i].token != s.pending[j].token
    {
      assert Places(s)[n + j] == Posted(s.pending[j]);
      PlacesAreDisjoint(s, buffers, tokens, n + i, n + j, s.pending[i].buffer);
      PlacesAreDisjoint(s, buffers, tokens, n + i, n + j, s.pending[i].token);
    }
  }

  /** Every callback is handed the data of its own read, never that of a buffer's earlier use. */
  lemma CallbacksSeeTheirOwnRead(tr: seq<State>, buffers: nat, tokens: nat, threads: nat, k: nat)
    requires Run(tr, buffers, tokens, threads) && k < |tr|
    ensures forall i :: 0 <= i < |tr[k].delivered| ==> tr[k].delivered[i].1 == tr[k].delivered[i].0
  {
    RunInv(tr, buffers, tokens, threads, k);
  }

  // ---------------------------------------------------------------- each read is called back once

  /** A run with the steps it took. */
  ghost predicate SteppedRun(tr: seq<State>, steps: seq<Step>, buffers: nat, tokens: nat, threads: nat) {
    && |tr| == |steps| + 1 && tr[0] == Start(buffers, tokens, threads)
    && forall i :: 0 <= i < |steps| ==> Next(tr[i], steps[i]) == Some(tr[i + 1])
  }

  /** The operations whose reads a list of steps has begun. */
  function Begun(steps: seq<Step>): (ops: seq<nat>) {
    if steps == [] then []
    else Begun(steps[..|steps| - 1]) + (if steps[|steps| - 1].TakeBuffer? then [steps[|steps| - 1].op] else [])
  }

  /** The operations that have had their callback. */
  function CalledBackOps(delivered: seq<(nat, nat)>): (ops: seq<nat>)
    ensures |ops| == |delivered| && forall i :: 0 <= i < |ops| ==> ops[i] == delivered[i].0
  {
    seq(|delivered|, i requires 0 <= i < |delivered| => delivered[i].0)
  }

  /** A read for the operation is under way and its callback has not run. */
  predicate AwaitsCallback(p: Phase, x: nat) {
    match p
    case HasBuffer(_, op) => op == x
    case Posted(r) => r.op == x
    case Draining(r) => r.op == x
    case _ => false
  }

  function Awaiting(x: nat): (w: Phase -> nat) { p => One(AwaitsCallback(p, x)) }

  /** What a step does to the thread it moves and to what has been delivered. */
  lemma ThreadStepOps(s: State, step: Step, s': State, x: nat)
    requires ThreadStep(s, step, s')
    ensures step.t < |s.threads| == |s'.threads|
    ensures One(AwaitsCallback(s'.threads[step.t], x)) + multiset(CalledBackOps(s'.delivered))[x]
            == One(AwaitsCallback(s.threads[step.t], x)) + multiset(CalledBackOps(s.delivered))[x]
               + One(step.TakeBuffer? && step.op == x)
  {
    hide Places;
    if step.Callback? {
      var r := s.threads[step.t].read;
      assert CalledBackOps(s'.delivered) == CalledBackOps(s.delivered) + [r.op];
      OneMore(CalledBackOps(s.delivered), r.op, x);
    }
  }

  lemma StepOps(s: State, step: Step, s': State, x: nat)
    requires Next(s, step) == Some(s')
    ensures Held(Places(s'), Awaiting(x)) + multiset(CalledBackOps(s'.delivered))[x]
            == Held(Places(s), Awaiting(x)) + multiset(CalledBackOps(s.delivered))[x]
               + One(step.TakeBuffer? && step.op == x)
  {
    if step.Enqueue? || step.Dequeue? {
      assert SameWhenQueued(Awaiting(x));
      MoveKeepsHeld(s, step, s', Awaiting(x));
    } else if step.Finish? || s'.panicked {
      assert Places(s') == Places(s);
    } else {
      ThreadStepPlaces(s, step, s');
      ThreadStepOps(s, step, s', x);
      hide Places, Next, AwaitsCallback, One, CalledBackOps;
      HeldUpdate(Places(s), step.t, s'.threads[step.t], Awaiting(x));
    }
  }

  /**
   * In every run, for every operation: the reads begun for it are those still awaiting their callback, in
   * whichever thread or in the pending queue, and those called back, each counted once.
   */
  lemma {:induction false} EachReadIsCalledBackOnce(tr: seq<State>, steps: seq<Step>, buffers: nat, tokens: nat,
                                                    threads: nat, k: nat, x: nat)
    requires SteppedRun(tr, steps, buffers, tokens, threads) && k <= |steps|
    ensures Held(Places(tr[k]), Awaiting(x)) + multiset(CalledBackOps(tr[k].delivered))[x]
            == multiset(Begun(steps[..k]))[x]
  {
    hide Next, Awaiting, CalledBackOps, One, Places;
    if k == 0 {
      StartOps(buffers, tokens, threads, x);
    } else {
      EachReadIsCalledBackOnce(tr, steps, buffers, tokens, threads, k - 1, x);
      assert Next(tr[k - 1], steps[k - 1]) == Some(tr[k - 1 + 1]);
      StepOps(tr[k - 1], steps[k - 1], tr[k], x);
      BegunStep(steps, k - 1, x);
    }
  }

  lemma StartOps(buffers: nat, tokens: nat, threads: nat, x: nat)
    ensures var s := Start(buffers, tokens, threads);
            Held(Places(s), Awaiting(x)) == 0 && multiset(CalledBackOps(s.delivered))[x] == 0
  {
    var s := Start(buffers, tokens, threads);
    assert Places(s) == s.threads;
    HeldNothing(s.threads, Awaiting(x));
    assert CalledBackOps([]) == [];
  }

  lemma BegunStep(steps: seq<Step>, k: nat, x: nat)
    requires k < |steps|
    ensures multiset(Begun(steps[..k + 1]))[x]
            == multiset(Begun(steps[..k]))[x] + One(steps[k].TakeBuffer? && steps[k].op == x)
  {
    assert steps[..k + 1][..k] == steps[..k];
    if steps[k].TakeBuffer? { OneMore(Begun(steps[..k]), steps[k].op, x); }
  }

  /** Once all threads are idle and nothing is pending, every read begun has had exactly one callback. */
  lemma QuietMeansCalledBack(tr: seq<State>, steps: seq<Step>, buffers: nat, tokens: nat, threads: nat)
    requires SteppedRun(tr, steps, buffers, tokens, threads)
    requires tr[|steps|].pending == [] && forall t :: 0 <= t < |tr[|steps|].threads| ==> tr[|steps|].threads[t].Idle?
    ensures multiset(CalledBackOps(tr[|steps|].delivered)) == multiset(Begun(steps))
  {
    var s := tr[|steps|];
    assert Places(s) == s.threads && steps[..|steps|] == steps;
    hide CalledBackOps, Begun, SteppedRun;
    forall x ensures multiset(CalledBackOps(s.delivered))[x] == multiset(Begun(steps))[x] {
      EachReadIsCalledBackOnce(tr, steps, buffers, tokens, threads, |steps|, x);
      HeldNothing(s.threads, Awaiting(x));
    }
  }

  // ---------------------------------------------------------------- every read can be called back

  /** The state after a list of steps, if each is enabled in its turn. */
  function After(s: State, steps: seq<Step>): (r: Option<State>)
    decreases steps
  {
    if steps == [] then Some(s)
    else
      match Next(s, steps[0])
      case None => None
      case Some(t) => After(t, steps[1..])
  }

  /** The steps a thread's read has ahead of it; a queued one has four. */
  function Ahead(p: Phase): (n: nat) {
    match p
    case Idle => 0
    case TokenFreed(_) => 1
    case CalledBack(_) => 2
    case Draining(_) => 3
    case Posted(_) => 5
    case HasBuffer(_, _) => 6
  }

  function Remaining(s: State): (n: nat) { Held(s.threads, Ahead) + 4 * |s.pending| }

  predicate Quiet(s: State) {
    s.pending == [] && forall t :: 0 <= t < |s.threads| ==> s.threads[t].Idle?
  }

  /** What has been begun is called back or still under way; nobody waits for a token that is not there. */
  ghost predicate Live(s: State, buffers: nat, tokens: nat) {
    Inv(s, buffers, tokens) && !s.panicked && buffers <= tokens && s.threads != []
  }

  lemma StepLive(s: State, step: Step, s': State, buffers: nat, tokens: nat)
    requires Live(s, buffers, tokens) && Next(s, step) == Some(s')
    ensures Live(s', buffers, tokens)
  {
    ConservedByStep(s, step, s', buffers, tokens);
    DataIsOwnByStep(s, step, s', buffers, tokens);
    DeliveredOwnByStep(s, step, s', buffers, tokens);
    TokenIsThere(s, step, buffers, tokens);
    NextThreads(s, step, s');
  }

  lemma NextThreads(s: State, step: Step, s': State)
    requires Next(s, step) == Some(s')
    ensures |s'.threads| == |s.threads|
    ensures s'.panicked ==>
              step.TakeToken? && s.freeTokens == [] && step.t < |s.threads| && s.threads[step.t].HasBuffer?
  {
  }

  lemma TokenIsThere(s: State, step: Step, buffers: nat, tokens: nat)
    requires Inv(s, buffers, tokens) && buffers <= tokens
    ensures forall t :: 0 <= t < |s.threads| && s.threads[t].HasBuffer? ==> s.freeTokens != []
  {
    forall t | 0 <= t < |s.threads| && s.threads[t].HasBuffer? ensures s.freeTokens != [] {
      assert Places(s)[t].HasBuffer?;
      TokensNeedBuffers(Places(s));
    }
  }

  /** What a busy thread does next; an idle one takes a queued read. */
  function Move(s: State, t: nat): (step: Step)
    requires t < |s.threads|
  {
    match s.threads[t]
    case HasBuffer(_, _) => TakeToken(t, 0)
    case Posted(_) => Enqueue(t)
    case Draining(_) => Callback(t)
    case CalledBack(_) => FreeToken(t)
    case TokenFreed(_) => FreeBuffer(t)
    case Idle => Dequeue(t, 0)
  }

  /** A thread that drains a read may first have to let the adapter finish it. */
  lemma FinishFirst(s: State, t: nat, buffers: nat, tokens: nat) returns (s': State)
    requires Live(s, buffers, tokens) && t < |s.threads| && s.threads[t].Draining?
    ensures Next(s, Finish(t)) == Some(s') && Live(s', buffers, tokens)
    ensures s'.threads == s.threads && s'.pending == s.pending
    ensures s.threads[t].read.token in s'.completed && s.threads[t].read.buffer in s'.memory
  {
    assert Places(s)[t] == s.threads[t];
    s' := Next(s, Finish(t)).value;
    StepLive(s, Finish(t), s', buffers, tokens);
  }

  /** A move takes its thread one phase on, and a read off the queue only to drain it. */
  lemma MoveAdvances(s: State, t: nat)
    requires !s.panicked && t < |s.threads| && (s.threads[t].Idle? ==> s.pending != [])
    requires s.threads[t].HasBuffer? ==> s.freeTokens != []
    requires s.threads[t].Draining? ==> s.threads[t].read.token in s.completed && s.threads[t].read.buffer in s.memory
    ensures var after := Next(s, Move(s, t));
            && after.Some? && |after.value.threads| == |s.threads|
            && after.value.threads == s.threads[t := after.value.threads[t]]
            && Ahead(after.value.threads[t]) + 4 * |after.value.pending| < Ahead(s.threads[t]) + 4 * |s.pending|
  {
    hide Places;
  }

  lemma MoveCounts(s: State, t: nat, buffers: nat, tokens: nat) returns (s': State)
    requires Live(s, buffers, tokens) && t < |s.threads| && (s.threads[t].Idle? ==> s.pending != [])
    requires s.threads[t].Draining? ==> s.threads[t].read.token in s.completed && s.threads[t].read.buffer in s.memory
    ensures Next(s, Move(s, t)) == Some(s') && Live(s', buffers, tokens) && Remaining(s') < Remaining(s)
  {
    TokenIsThere(s, Move(s, t), buffers, tokens);
    hide Live, Held, Inv, Places;
    MoveAdvances(s, t);
    s' := Next(s, Move(s, t)).value;
    hide Next, Move;
    StepLive(s, Move(s, t), s', buffers, tokens);
    HeldUpdate(s.threads, t, s'.threads[t], Ahead);
  }

  /** Without beginning another read, everything under way can be called back. */
  lemma {:induction false} DrainAll(s: State, buffers: nat, tokens: nat) returns (steps: seq<Step>)
    requires Live(s, buffers, tokens)
    ensures After(s, steps).Some? && Quiet(After(s, steps).value)
    ensures forall i :: 0 <= i < |steps| ==> !steps[i].TakeBuffer?
    decreases Remaining(s)
  {
    assert s.threads != [];
    if t :| 0 <= t < |s.threads| && (!s.threads[t].Idle? || s.pending != []) {
      hide Live, Next, Remaining;
      var s0, first := s, [];
      if s.threads[t].Draining? {
        s0 := FinishFirst(s, t, buffers, tokens);
        first := [Finish(t)];
        SameRemaining(s, s0);
      }
      var s1 := MoveCounts(s0, t, buffers, tokens);
      var rest := DrainAll(s1, buffers, tokens);
      steps := first + ([Move(s0, t)] + rest);
      AfterOne(s0, Move(s0, t), s1, rest);
      if s.threads[t].Draining? {
        AfterOne(s, Finish(t), s0, [Move(s0, t)] + rest);
      } else {
        assert steps == [Move(s0, t)] + rest;
      }
    } else {
      steps := [];
      assert Quiet(s) by {
        assert s.threads[0].Idle? && s.pending == [];
      }
    }
  }

  lemma SameRemaining(s: State, s': State)
    requires s'.threads == s.threads && s'.pending == s.pending
    ensures Remaining(s') == Remaining(s)
  {
  }

  lemma AfterOne(s: State, step: Step, t: State, rest: seq<Step>)
    requires Next(s, step) == Some(t)
    ensures After(s, [step] + rest) == After(t, rest)
  {
    assert ([step] + rest)[1..] == rest;
  }

  /**
   * From every state of every run, with at least one thread and no fewer tokens than buffers, the threads
   * and the adapter can bring every read under way to its callback, beginning no other.
   */
  lemma EveryReadCanBeCalledBack(tr: seq<State>, buffers: nat, tokens: nat, threads: nat, k: nat)
    returns (steps: seq<Step>)
    requires Run(tr, buffers, tokens, threads) && k < |tr| && buffers <= tokens && threads > 0
    ensures After(tr[k], steps).Some? && Quiet(After(tr[k], steps).value)
    ensures forall i :: 0 <= i < |steps| ==> !steps[i].TakeBuffer?
  {
    RunInv(tr, buffers, tokens, threads, k);
    NeverOutOfTokens(tr, buffers, tokens, threads, k);
    RunThreads(tr, buffers, tokens, threads, k);
    steps := DrainAll(tr[k], buffers, tokens);
  }

  lemma {:induction false} RunThreads(tr: seq<State>, buffers: nat, tokens: nat, threads: nat, k: nat)
    requires Run(tr, buffers, tokens, threads) && k < |tr|
    ensures |tr[k].threads| == threads
  {
    hide Next;
    if k > 0 {
      RunThreads(tr, buffers, tokens, threads, k - 1);
      assert Follows(tr[k - 1], tr[k - 1 + 1]);
      var step :| Next(tr[k - 1], step) == Some(tr[k]);
      NextThreads(tr[k - 1], step, tr[k]);
    }
  }

  // ---------------------------------------------------------------- the panic

  /** One more read by thread 0: take a buffer, take a token, queue it. */
  lemma {:induction false} PostReads(buffers: nat, tokens: nat, threads: nat, m: nat) returns (tr: seq<State>)
    requires threads > 0 && m <= tokens && m <= buffers
    ensures Run(tr, buffers, tokens, threads)
    ensures var s := tr[|tr| - 1];
            !s.panicked && |s.threads| == threads && s.threads[0].Idle?
            && |s.freeTokens| == tokens - m && |s.freeBuffers| == buffers - m
  {
    if m == 0 {
      tr := [Start(buffers, tokens, threads)];
    } else {
      var before := PostReads(buffers, tokens, threads, m - 1);
      var s0 := before[|before| - 1];
      var s1 := Next(s0, TakeBuffer(0, 0, m)).value;
      var s2 := Next(s1, TakeToken(0, 0)).value;
      var s3 := Next(s2, Enqueue(0)).value;
      tr := Extend(Extend(Extend(before, TakeBuffer(0, 0, m), buffers, tokens, threads),
                          TakeToken(0, 0), buffers, tokens, threads), Enqueue(0), buffers, tokens, threads);
    }
  }

  ghost function Extend(tr: seq<State>, step: Step, buffers: nat, tokens: nat, threads: nat): (r: seq<State>)
    requires Run(tr, buffers, tokens, threads) && Next(tr[|tr| - 1], step).Some?
    ensures Run(r, buffers, tokens, threads) && r[|r| - 1] == Next(tr[|tr| - 1], step).value
  {
    var r := tr + [Next(tr[|tr| - 1], step).value];
    assert forall i :: 0 <= i < |r| - 1 ==> Follows(r[i], r[i + 1]) by {
      forall i | 0 <= i < |r| - 1 ensures Follows(r[i], r[i + 1]) {
        if i < |tr| - 1 {
          assert Follows(tr[i], tr[i + 1]);
        }
      }
    }
    r
  }

  /** The bound is exact: with fewer tokens than buffers a single thread already reaches the panic. */
  lemma FewerTokensCanPanic(buffers: nat, tokens: nat, threads: nat) returns (tr: seq<State>)
    requires threads > 0 && tokens < buffers
    ensures Run(tr, buffers, tokens, threads) && tr[|tr| - 1].panicked
  {
    var before := PostReads(buffers, tokens, threads, tokens);
    var buffered := Extend(before, TakeBuffer(0, 0, 0), buffers, tokens, threads);
    tr := Extend(buffered, TakeToken(0, 0), buffers, tokens, threads);
  }

  /** The panic is reachable if and only if there are fewer tokens than buffers. */
  lemma OutOfTokensExactlyWhenFewer(buffers: nat, tokens: nat, threads: nat)
    requires threads > 0
    ensures (exists tr: seq<State> :: Run(tr, buffers, tokens, threads) && tr[|tr| - 1].panicked) <==> tokens < buffers
  {
    if tokens < buffers {
      var tr := FewerTokensCanPanic(buffers, tokens, threads);
    } else {
      forall tr: seq<State> | Run(tr, buffers, tokens, threads) ensures !tr[|tr| - 1].panicked {
        NeverOutOfTokens(tr, buffers, tokens, threads, |tr| - 1);
      }
    }
  }

  /** FreeRequestTokenQueueSize and CacheIndexValueQueueSize. */
  const FREE_REQUEST_TOKENS: nat := 50000
  const READ_BUFFERS: nat := 50000

  /** With the program's own pool sizes, "out of tokens" is unreachable for slot reads. */
  lemma SlotReadsNeverOutOfTokens(tr: seq<State>, threads: nat, k: nat)
    requires Run(tr, READ_BUFFERS, FREE_REQUEST_TOKENS, threads) && k < |tr|
    ensures !tr[k].panicked
  {
    NeverOutOfTokens(tr, READ_BUFFERS, FREE_REQUEST_TOKENS, threads, k);
  }
}
