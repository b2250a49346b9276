/**
 * Whether every GET of the read path is answered in the end: how far the waiting requests of a server are
 * from an answer, that any schedule of completions and sends closes that distance, and the one
 * configuration in which it cannot.
 */
module ReadProgress {
  import opened Common
  import opened ReadPath
  import IndexReplication

  // ---------------------------------------------------------------- sizes

  /** n entries, each a slot number below m or invalid. */
  ghost predicate SizedRow(row: seq<IndexReplication.Index>, n: nat, m: nat) {
    && |row| == n
    && forall k :: 0 <= k < n && row[k].At? ==> row[k].slot < m
  }

  predicate SizedSlot(slot: Slot, n: nat) { slot.Holding? ==> slot.key < n }

  /** A read of one of the servers' slots, for a key of the database. */
  predicate SizedRead(r: Read, db: map<nat, Value>, servers: nat, n: nat, m: nat) {
    && r.request.key < n && r.request.key in db && r.peer < servers && r.slot < m
    && (r.landed.Some? ==> SizedSlot(r.landed.value, n))
  }

  ghost predicate SizedServer(s: Server, servers: nat, n: nat, m: nat) {
    && |s.indexes| == servers && |s.slots| == m
    && (forall j :: 0 <= j < |s.indexes| ==> SizedRow(s.indexes[j], n, m))
    && (forall j :: 0 <= j < |s.slots| ==> SizedSlot(s.slots[j], n))
    && (forall j :: 0 <= j < |s.slotReads| ==> SizedRead(s.slotReads[j], s.db, servers, n, m))
    && (forall j :: 0 <= j < |s.diskReads| ==> s.diskReads[j].request.key in s.db)
  }

  /** Keys asked for are in the server's database and in range; rows that arrive have the program's size. */
  ghost predicate SizedAction(a: Action, s: Server, n: nat, m: nat) {
    match a
    case Get(request, _, _) => request.key in s.db && request.key < n
    case Land(_, seen) => SizedSlot(seen, n)
    case IndexArrives(_, row) => SizedRow(row, n, m)
    case _ => true
  }

  lemma OfferSized(s: Server, me: nat, key: nat, value: Value, eff: Effect, servers: nat, n: nat, m: nat)
    requires me < servers && SizedServer(s, servers, n, m)
    ensures SizedServer(Offer(s, me, key, value, eff), servers, n, m)
  {
  }

  lemma FetchSized(cfg: Config, s: Server, me: nat, r: Request, add: bool, eff: Effect, servers: nat, n: nat, m: nat)
    requires me < servers && SizedServer(s, servers, n, m) && r.key in s.db
    ensures FetchFromDisk(cfg, s, me, r, add, eff).Some?
    ensures SizedServer(FetchFromDisk(cfg, s, me, r, add, eff).value, servers, n, m)
  {
    hide Offer;
    OfferSized(s, me, r.key, s.db[r.key], eff, servers, n, m);
  }

  lemma GetSized(cfg: Config, s: Server, me: nat, r: Request, junk: Value, eff: Effect, servers: nat, n: nat, m: nat)
    requires me < servers && SizedServer(s, servers, n, m) && r.key in s.db && r.key < n
    ensures HandleGet(cfg, s, me, r, junk, eff).Some?
    ensures SizedServer(HandleGet(cfg, s, me, r, junk, eff).value, servers, n, m)
  {
    hide FetchFromDisk;
    var missed := s.(received := s.received + [r], misses := s.misses + 1);
    var answered := if cfg.rdma && !cfg.rdmaAsync then missed.(sent := missed.sent + [Reply(r, junk)]) else missed;
    FetchSized(cfg, answered.(localDisk := answered.localDisk + 1), me, r, true, eff, servers, n, m);
  }

  /** The callback of a read runs to its end, unless it is told to forward a pair it does not have. */
  lemma ReadSized(cfg: Config, s: Server, me: nat, i: nat, eff: Effect, f: Option<Forward>, servers: nat, n: nat,
                  m: nat)
    requires me < servers && SizedServer(s, servers, n, m) && i < |s.slotReads| && s.slotReads[i].landed.Some?
    ensures f.None? ==> HandleRead(cfg, s, me, i, eff, f).Some?
    ensures HandleRead(cfg, s, me, i, eff, f).Some? ==>
              SizedServer(HandleRead(cfg, s, me, i, eff, f).value, servers, n, m)
  {
    hide FetchFromDisk, Offer;
    var read, rest := s.slotReads[i], s.(slotReads := RemoveAt(s.slotReads, i));
    var slot := read.landed.value;
    assert SizedRead(read, s.db, servers, n, m);
    assert SizedServer(rest, servers, n, m);
    if Hit(read) {
      OfferSized(rest, me, slot.key, slot.value, eff, servers, n, m);
    } else {
      var counted := rest.(remoteDisk := rest.remoteDisk + 1);
      FetchSized(cfg, counted, me, read.request, false, eff, servers, n, m);
      if slot.Holding? {
        var indexes := IndexReplication.AfterLocalUpdate(s.indexes, me, read.request.key, slot.key);
        var updated := counted.(indexes := indexes);
        assert SizedServer(updated, servers, n, m);
        FetchSized(cfg, updated, me, read.request, false, eff, servers, n, m);
      }
    }
  }

  lemma DiskSized(cfg: Config, s: Server, me: nat, i: nat, eff: Effect, servers: nat, n: nat, m: nat)
    requires me < servers && SizedServer(s, servers, n, m) && i < |s.diskReads|
    ensures HandleDisk(cfg, s, me, i, eff).Some?
    ensures SizedServer(HandleDisk(cfg, s, me, i, eff).value, servers, n, m)
  {
    hide Offer;
    var d, rest := s.diskReads[i], s.(diskReads := RemoveAt(s.diskReads, i));
    assert SizedServer(rest, servers, n, m);
    OfferSized(rest, me, d.request.key, s.db[d.request.key], eff, servers, n, m);
  }

  lemma ActSized(cfg: Config, s: Server, me: nat, a: Action, servers: nat, n: nat, m: nat)
    requires me < servers && SizedServer(s, servers, n, m) && SizedAction(a, s, n, m) && Act(cfg, s, me, a).Some?
    ensures SizedServer(Act(cfg, s, me, a).value, servers, n, m)
  {
    hide HandleGet, HandleRead, HandleDisk, Offer;
    match a {
      case Put(key, value, eff) => OfferSized(s, me, key, value, eff, servers, n, m);
      case Get(request, junk, eff) => GetSized(cfg, s, me, request, junk, eff, servers, n, m);
      case RdmaDone(i, eff, f) => ReadSized(cfg, s, me, i, eff, f, servers, n, m);
      case DiskDone(i, eff) => DiskSized(cfg, s, me, i, eff, servers, n, m);
      case ReceiveForward(f, eff) => OfferSized(s, me, f.key, f.value, eff, servers, n, m);
      case _ =>
    }
  }

  ghost predicate Sized(s: State, n: nat, m: nat) {
    forall i :: 0 <= i < |s.servers| ==> SizedServer(s.servers[i], |s.servers|, n, m)
  }

  ghost predicate SizedStep(s: State, step: Step, n: nat, m: nat) {
    step.server < |s.servers| ==> SizedAction(step.action, s.servers[step.server], n, m)
  }

  lemma StepSized(cfg: Config, s: State, step: Step, s': State, n: nat, m: nat)
    requires Sized(s, n, m) && SizedStep(s, step, n, m) && Next(cfg, s, step) == Some(s')
    ensures Sized(s', n, m)
  {
    hide Act, Next, SizedServer, SizedAction;
    StepIsLocal(cfg, s, step, s');
    ActSized(cfg, s.servers[step.server], step.server, step.action, |s.servers|, n, m);
  }

  ghost predicate SizedFollows(cfg: Config, s: State, s': State, n: nat, m: nat) {
    exists step :: Next(cfg, s, step) == Some(s') && SizedStep(s, step, n, m)
  }

  /** A run over n keys and stores of m slots that asks only for keys of the databases. */
  ghost predicate SizedRun(cfg: Config, tr: seq<State>, n: nat, m: nat) {
    && Run(cfg, tr) && Sized(tr[0], n, m)
    && forall i :: 0 <= i < |tr| - 1 ==> SizedFollows(cfg, tr[i], tr[i + 1], n, m)
  }

  // ---------------------------------------------------------------- work left

  /** The steps a server's waiting requests still have ahead of them, at most. */
  function Work(s: Server): (w: nat) {
    WorkOfReads(s.slotReads) + 2 * |s.diskReads| + |s.rdmaReplies| + |s.diskReplies|
  }

  function WorkOfReads(q: seq<Read>): (w: nat) {
    if q == [] then 0 else WorkOfReads(q[..|q| - 1]) + (if q[|q| - 1].landed.Some? then 3 else 4)
  }

  lemma {:induction false} WorkWithout(q: seq<Read>, i: nat)
    requires i < |q|
    ensures WorkOfReads(q) == WorkOfReads(RemoveAt(q, i)) + (if q[i].landed.Some? then 3 else 4)
  {
    var n := |q| - 1;
    if i < n {
      WorkWithout(q[..n], i);
      assert RemoveAt(q, i)[..n - 1] == RemoveAt(q[..n], i);
    } else {
      assert RemoveAt(q, i) == q[..n];
    }
  }

  lemma LandingIsWork(q: seq<Read>, i: nat, seen: Slot)
    requires i < |q| && q[i].landed.None?
    ensures WorkOfReads(q[i := q[i].(landed := Some(seen))]) < WorkOfReads(q)
  {
    var after := q[i := q[i].(landed := Some(seen))];
    WorkWithout(q, i);
    WorkWithout(after, i);
    assert RemoveAt(after, i) == RemoveAt(q, i);
  }

  /** What brings a waiting request closer to its answer: the adapter, the disk, the sending loop. */
  predicate Progress(a: Action) { a.Land? || a.RdmaDone? || a.DiskDone? || a.SendRdma? || a.SendDisk? }

  lemma FetchWork(cfg: Config, s: Server, me: nat, r: Request, add: bool, eff: Effect)
    requires me < |s.indexes| && FetchFromDisk(cfg, s, me, r, add, eff).Some?
    ensures Work(FetchFromDisk(cfg, s, me, r, add, eff).value) <= Work(s) + 2
  {
    hide Offer, WorkOfReads;
    if !cfg.diskAsync { OfferBooks(s, me, r.key, s.db[r.key], eff); }
  }

  lemma ReadWork(cfg: Config, s: Server, me: nat, i: nat, eff: Effect, f: Option<Forward>)
    requires me < |s.indexes| && i < |s.slotReads| && s.slotReads[i].landed.Some?
    requires HandleRead(cfg, s, me, i, eff, f).Some?
    ensures Work(HandleRead(cfg, s, me, i, eff, f).value) < Work(s)
  {
    hide FetchFromDisk, Offer, WorkOfReads;
    WorkWithout(s.slotReads, i);
    var read, rest := s.slotReads[i], s.(slotReads := RemoveAt(s.slotReads, i));
    var slot, counted := read.landed.value, rest.(remoteDisk := rest.remoteDisk + 1);
    if Hit(read) {
      OfferBooks(rest, me, slot.key, slot.value, eff);
    } else if slot.Empty? {
      FetchWork(cfg, counted, me, read.request, false, eff);
    } else {
      FetchWork(cfg, counted.(indexes := IndexReplication.AfterLocalUpdate(s.indexes, me, read.request.key, slot.key)),
                me, read.request, false, eff);
    }
  }

  lemma DiskWork(cfg: Config, s: Server, me: nat, i: nat, eff: Effect)
    requires me < |s.indexes| && i < |s.diskReads| && HandleDisk(cfg, s, me, i, eff).Some?
    ensures Work(HandleDisk(cfg, s, me, i, eff).value) < Work(s)
  {
    hide Offer, WorkOfReads;
    var d := s.diskReads[i];
    OfferBooks(s.(diskReads := RemoveAt(s.diskReads, i)), me, d.request.key, s.db[d.request.key], eff);
  }

  /** A step other than a GET never adds work, and a step of progress takes some away. */
  lemma ActWork(cfg: Config, s: Server, me: nat, a: Action)
    requires me < |s.indexes| && !a.Get? && Act(cfg, s, me, a).Some?
    ensures Work(Act(cfg, s, me, a).value) + (if Progress(a) then 1 else 0) <= Work(s)
    ensures Act(cfg, s, me, a).value.received == s.received
  {
    hide HandleGet, HandleRead, HandleDisk, Offer, WorkOfReads, Hit;
    match a {
      case Land(i, seen) => LandingIsWork(s.slotReads, i, seen);
      case RdmaDone(i, eff, f) =>
        ReadWork(cfg, s, me, i, eff, f);
        KeyCheckRoutes(cfg, s, me, i, eff, f);
      case DiskDone(i, eff) =>
        DiskWork(cfg, s, me, i, eff);
        DiskReceives(cfg, s, me, i, eff);
      case SendRdma =>
      case SendDisk =>
      case _ => OtherBooks(cfg, s, me, a);
    }
  }

  lemma DiskReceives(cfg: Config, s: Server, me: nat, i: nat, eff: Effect)
    requires me < |s.indexes| && i < |s.diskReads| && HandleDisk(cfg, s, me, i, eff).Some?
    ensures HandleDisk(cfg, s, me, i, eff).value.received == s.received
  {
  }

  function TotalWork(servers: seq<Server>): (w: nat) {
    if servers == [] then 0 else TotalWork(servers[..|servers| - 1]) + Work(servers[|servers| - 1])
  }

  lemma {:induction false} TotalWorkAfter(servers: seq<Server>, i: nat, t: Server)
    requires i < |servers|
    ensures TotalWork(servers[i := t]) + Work(servers[i]) == TotalWork(servers) + Work(t)
  {
    hide Work;
    var n, after := |servers| - 1, servers[i := t];
    if i < n {
      TotalWorkAfter(servers[..n], i, t);
      assert after[..n] == servers[..n][i := t];
    } else {
      assert after[..n] == servers[..n];
    }
  }

  // ---------------------------------------------------------------- schedules

  /** The state after a list of steps, if each is enabled in its turn. */
  function After(cfg: Config, s: State, steps: seq<Step>): (r: Option<State>)
    decreases steps
  {
    if steps == [] then Some(s)
    else
      match Next(cfg, s, steps[0])
      case None => None
      case Some(t) => After(cfg, t, steps[1..])
  }

  predicate AllProgress(steps: seq<Step>) { forall i :: 0 <= i < |steps| ==> Progress(steps[i].action) }

  predicate Waiting(s: Server) {
    s.slotReads != [] || s.diskReads != [] || s.rdmaReplies != [] || s.diskReplies != []
  }

  predicate DiskIdle(s: Server) { s.diskReads == [] && s.diskReplies == [] }

  /** What holds in every reachable state of an asynchronous configuration. */
  ghost predicate Good(cfg: Config, s: State, n: nat, m: nat) {
    && Sized(s, n, m) && AllBalanced(s)
    && (!cfg.diskAsync ==> forall i :: 0 <= i < |s.servers| ==> DiskIdle(s.servers[i]))
  }

  lemma ActKeepsDiskIdle(cfg: Config, s: Server, me: nat, a: Action)
    requires me < |s.indexes| && !cfg.diskAsync && DiskIdle(s) && Act(cfg, s, me, a).Some?
    ensures DiskIdle(Act(cfg, s, me, a).value)
  {
    hide Offer;
    match a {
      case Put(key, value, eff) => OfferBooks(s, me, key, value, eff);
      case ReceiveForward(f, eff) => OfferBooks(s, me, f.key, f.value, eff);
      case Get(request, junk, eff) => GetLeavesDisk(cfg, s, me, request, junk, eff);
      case RdmaDone(i, eff, f) => ReadLeavesDisk(cfg, s, me, i, eff, f);
      case _ =>
    }
  }

  lemma GetLeavesDisk(cfg: Config, s: Server, me: nat, request: Request, junk: Value, eff: Effect)
    requires me < |s.indexes| && HandleGet(cfg, s, me, request, junk, eff).Some?
    ensures HandleGet(cfg, s, me, request, junk, eff).value.diskReplies == s.diskReplies
    ensures !cfg.diskAsync ==> HandleGet(cfg, s, me, request, junk, eff).value.diskReads == s.diskReads
  {
  }

  lemma ReadLeavesDisk(cfg: Config, s: Server, me: nat, i: nat, eff: Effect, f: Option<Forward>)
    requires me < |s.indexes| && i < |s.slotReads| && s.slotReads[i].landed.Some?
    requires HandleRead(cfg, s, me, i, eff, f).Some?
    ensures HandleRead(cfg, s, me, i, eff, f).value.diskReplies == s.diskReplies
    ensures !cfg.diskAsync ==> HandleRead(cfg, s, me, i, eff, f).value.diskReads == s.diskReads
  {
  }

  lemma StepGood(cfg: Config, s: State, step: Step, s': State, n: nat, m: nat)
    requires Asynchronous(cfg) && Good(cfg, s, n, m) && SizedStep(s, step, n, m) && Next(cfg, s, step) == Some(s')
    ensures Good(cfg, s', n, m)
  {
    hide Act, Next, Sized, SizedStep, Balanced, MissesAddUp, DiskIdle;
    StepSized(cfg, s, step, s', n, m);
    StepBalances(cfg, s, step, s');
    StepIsLocal(cfg, s, step, s');
    if !cfg.diskAsync { ActKeepsDiskIdle(cfg, s.servers[step.server], step.server, step.action); }
  }

  lemma {:induction false} RunGood(cfg: Config, tr: seq<State>, n: nat, m: nat, k: nat)
    requires SizedRun(cfg, tr, n, m) && Asynchronous(cfg) && k < |tr|
    ensures Good(cfg, tr[k], n, m)
  {
    hide Next, Sized, SizedStep;
    if k > 0 {
      RunGood(cfg, tr, n, m, k - 1);
      assert SizedFollows(cfg, tr[k - 1], tr[k - 1 + 1], n, m);
      var step :| Next(cfg, tr[k - 1], step) == Some(tr[k]) && SizedStep(tr[k - 1], step, n, m);
      StepGood(cfg, tr[k - 1], step, tr[k], n, m);
    } else {
      RunBalances(cfg, tr, 0);
    }
  }

  /** A step of progress asks for nothing new; what it reads from a peer's slot has the right size. */
  lemma ProgressIsSized(cfg: Config, s: State, step: Step, s': State, n: nat, m: nat)
    requires Sized(s, n, m) && Progress(step.action) && Next(cfg, s, step) == Some(s')
    ensures SizedStep(s, step, n, m)
  {
    hide Act;
    if step.action.Land? {
      assert Act(cfg, s.servers[step.server], step.server, step.action).Some?;
      LandSees(cfg, s, step, s', n, m);
    }
  }

  lemma LandSees(cfg: Config, s: State, step: Step, s': State, n: nat, m: nat)
    requires Sized(s, n, m) && step.action.Land? && Next(cfg, s, step) == Some(s')
    ensures SizedSlot(step.action.seen, n)
  {
    hide HandleGet, HandleRead, HandleDisk, Offer;
    var read := s.servers[step.server].slotReads[step.action.i];
    assert SizedServer(s.servers[read.peer], |s.servers|, n, m);
  }

  ghost predicate SameRequests(s: State, t: State) {
    |t.servers| == |s.servers| && forall i :: 0 <= i < |s.servers| ==> t.servers[i].received == s.servers[i].received
  }

  lemma GoodParts(cfg: Config, s: State, n: nat, m: nat)
    requires Good(cfg, s, n, m)
    ensures Sized(s, n, m) && AllBalanced(s)
    ensures !cfg.diskAsync ==> forall i :: 0 <= i < |s.servers| ==> DiskIdle(s.servers[i])
  {
  }

  lemma StepCounts(cfg: Config, s: State, step: Step, s': State, n: nat, m: nat)
    requires Asynchronous(cfg) && Good(cfg, s, n, m) && !step.action.Get? && SizedStep(s, step, n, m)
    requires Next(cfg, s, step) == Some(s')
    ensures Good(cfg, s', n, m) && SameRequests(s, s')
    ensures TotalWork(s'.servers) + (if Progress(step.action) then 1 else 0) <= TotalWork(s.servers)
  {
    hide Act, Next, Good, SizedStep, Work, TotalWork, Progress;
    StepGood(cfg, s, step, s', n, m);
    StepIsLocal(cfg, s, step, s');
    var me, before := step.server, s.servers[step.server];
    ActWork(cfg, before, me, step.action);
    TotalWorkAfter(s.servers, me, Act(cfg, before, me, step.action).value);
  }

  /** The steps are free of GETs, and rows that arrive have the program's size. */
  ghost predicate GetFree(cfg: Config, s: State, steps: seq<Step>, n: nat, m: nat)
    decreases steps
  {
    steps == [] ||
    (!steps[0].action.Get? && SizedStep(s, steps[0], n, m)
     && (Next(cfg, s, steps[0]).Some? ==> GetFree(cfg, Next(cfg, s, steps[0]).value, steps[1..], n, m)))
  }

  function ProgressIn(steps: seq<Step>): (k: nat) {
    if steps == [] then 0 else (if Progress(steps[0].action) then 1 else 0) + ProgressIn(steps[1..])
  }

  /** Whatever else happens in between, no more steps of progress can be taken than there is work. */
  lemma {:induction false} ScheduleIsBounded(cfg: Config, s: State, steps: seq<Step>, n: nat, m: nat)
    requires Asynchronous(cfg) && Good(cfg, s, n, m) && GetFree(cfg, s, steps, n, m) && After(cfg, s, steps).Some?
    ensures var t := After(cfg, s, steps).value;
            Good(cfg, t, n, m) && SameRequests(s, t) && ProgressIn(steps) + TotalWork(t.servers) <= TotalWork(s.servers)
    decreases steps
  {
    hide Next, Good, TotalWork, SizedStep, Progress;
    if steps != [] {
      var t := Next(cfg, s, steps[0]).value;
      StepCounts(cfg, s, steps[0], t, n, m);
      ScheduleIsBounded(cfg, t, steps[1..], n, m);
    }
  }

  /** What the head of a server's queues can do next. */
  function Head(s: State, i: nat): (a: Action)
    requires i < |s.servers|
  {
    var me := s.servers[i];
    if me.rdmaReplies != [] then SendRdma
    else if me.diskReplies != [] then SendDisk
    else if me.diskReads != [] then DiskDone(0, NOTHING)
    else if me.slotReads != [] && me.slotReads[0].landed.Some? then RdmaDone(0, NOTHING, None)
    else if me.slotReads != [] && me.slotReads[0].peer < |s.servers|
            && me.slotReads[0].slot < |s.servers[me.slotReads[0].peer].slots| then
      Action.Land(0, s.servers[me.slotReads[0].peer].slots[me.slotReads[0].slot])
    else SendForward
  }

  lemma HeadActs(cfg: Config, s: State, i: nat, n: nat, m: nat)
    requires Good(cfg, s, n, m) && i < |s.servers| && Waiting(s.servers[i]) && (cfg.diskAsync ==> cfg.blockDbAsync)
    ensures i < |s.servers[i].indexes| && Progress(Head(s, i)) && Act(cfg, s.servers[i], i, Head(s, i)).Some?
  {
    hide HandleGet, HandleRead, HandleDisk, Balanced, MissesAddUp;
    var me := s.servers[i];
    assert SizedServer(me, |s.servers|, n, m);
    if me.slotReads != [] {
      assert SizedRead(me.slotReads[0], me.db, |s.servers|, n, m);
      assert SizedServer(s.servers[me.slotReads[0].peer], |s.servers|, n, m);
    }
    match Head(s, i) {
      case DiskDone(_, _) => DiskSized(cfg, me, i, 0, NOTHING, |s.servers|, n, m);
      case RdmaDone(_, _, _) => ReadSized(cfg, me, i, 0, NOTHING, None, |s.servers|, n, m);
      case SendDisk => assert DiskIdle(me) || cfg.diskAsync;
      case _ =>
    }
  }

  lemma HeadIsNext(cfg: Config, s: State, i: nat)
    requires i < |s.servers| && i < |s.servers[i].indexes| && Progress(Head(s, i))
    requires Act(cfg, s.servers[i], i, Head(s, i)).Some?
    ensures Next(cfg, s, Step(i, Head(s, i))).Some?
  {
    hide Act;
  }

  /** While a server has anything waiting, it has an enabled step of progress, if disk replies are polled. */
  lemma WaitingAlwaysProgresses(cfg: Config, s: State, i: nat, n: nat, m: nat) returns (step: Step)
    requires Good(cfg, s, n, m) && i < |s.servers| && Waiting(s.servers[i]) && (cfg.diskAsync ==> cfg.blockDbAsync)
    ensures Progress(step.action) && Next(cfg, s, step).Some?
  {
    HeadActs(cfg, s, i, n, m);
    hide Next, Act, Good, Head, Waiting;
    HeadIsNext(cfg, s, i);
    step := Step(i, Head(s, i));
  }

  /** Nothing waits anywhere, and each GET received has had exactly one reply. */
  ghost predicate Answered(s: State) {
    forall i :: 0 <= i < |s.servers| ==>
      !Waiting(s.servers[i]) && multiset(s.servers[i].received) == RequestsOf(s.servers[i].sent)
  }

  /** No step of progress is enabled. */
  ghost predicate Exhausted(cfg: Config, s: State) {
    forall step: Step :: Progress(step.action) ==> Next(cfg, s, step).None?
  }

  lemma ExhaustedMeansAnswered(cfg: Config, s: State, n: nat, m: nat)
    requires Good(cfg, s, n, m) && (cfg.diskAsync ==> cfg.blockDbAsync) && Exhausted(cfg, s)
    ensures Answered(s)
  {
    hide Next, Act;
    forall i | 0 <= i < |s.servers|
      ensures !Waiting(s.servers[i]) && multiset(s.servers[i].received) == RequestsOf(s.servers[i].sent)
    {
      if Waiting(s.servers[i]) {
        var step := WaitingAlwaysProgresses(cfg, s, i, n, m);
        assert false;
      }
      assert Balanced(s.servers[i]);
    }
  }

  /**
   * From any reachable state, however completions and sends are mixed with puts, forwards, evictions and
   * index changes: only finitely many of them can be taken, and when none is left to take every GET received
   * has been answered exactly once.
   */
  lemma EveryScheduleAnswers(cfg: Config, tr: seq<State>, n: nat, m: nat, k: nat, steps: seq<Step>)
    requires SizedRun(cfg, tr, n, m) && Asynchronous(cfg) && (cfg.diskAsync ==> cfg.blockDbAsync)
    requires k < |tr| && GetFree(cfg, tr[k], steps, n, m) && After(cfg, tr[k], steps).Some?
    ensures var t := After(cfg, tr[k], steps).value;
            && ProgressIn(steps) <= TotalWork(tr[k].servers) && SameRequests(tr[k], t)
            && (Exhausted(cfg, t) ==> Answered(t))
  {
    hide SizedRun, Good, Answered, Exhausted;
    RunGood(cfg, tr, n, m, k);
    ScheduleIsBounded(cfg, tr[k], steps, n, m);
    var t := After(cfg, tr[k], steps).value;
    if Exhausted(cfg, t) { ExhaustedMeansAnswered(cfg, t, n, m); }
  }

  /** Completions and sends alone can answer everything. */
  ghost predicate CanAnswer(cfg: Config, s: State) {
    exists steps :: AllProgress(steps) && After(cfg, s, steps).Some? && Answered(After(cfg, s, steps).value)
  }

  lemma {:induction false} ScheduleExists(cfg: Config, s: State, n: nat, m: nat) returns (steps: seq<Step>)
    requires Asynchronous(cfg) && Good(cfg, s, n, m) && (cfg.diskAsync ==> cfg.blockDbAsync)
    ensures AllProgress(steps) && After(cfg, s, steps).Some? && Answered(After(cfg, s, steps).value)
    decreases TotalWork(s.servers)
  {
    hide Next, Good, Answered;
    if step: Step :| Progress(step.action) && Next(cfg, s, step).Some? {
      var t := Next(cfg, s, step).value;
      assert Sized(s, n, m) by { GoodParts(cfg, s, n, m); }
      ProgressIsSized(cfg, s, step, t, n, m);
      StepCounts(cfg, s, step, t, n, m);
      var rest := ScheduleExists(cfg, t, n, m);
      steps := [step] + rest;
      assert steps[1..] == rest;
    } else {
      ExhaustedMeansAnswered(cfg, s, n, m);
      steps := [];
    }
  }

  // ---------------------------------------------------------------- unpolled disk replies

  lemma ActKeepsDiskReplies(cfg: Config, s: Server, me: nat, a: Action)
    requires me < |s.indexes| && !cfg.blockDbAsync && Act(cfg, s, me, a).Some?
    ensures s.diskReplies <= Act(cfg, s, me, a).value.diskReplies
  {
    hide HandleGet, HandleRead, HandleDisk, FetchFromDisk, Offer;
    match a {
      case Get(request, junk, eff) => GetLeavesDisk(cfg, s, me, request, junk, eff);
      case RdmaDone(i, eff, f) => ReadLeavesDisk(cfg, s, me, i, eff, f);
      case DiskDone(i, eff) => DiskAddsReply(cfg, s, me, i, eff);
      case Put(key, value, eff) => OfferBooks(s, me, key, value, eff);
      case ReceiveForward(f, eff) => OfferBooks(s, me, f.key, f.value, eff);
      case _ =>
    }
  }

  lemma DiskAddsReply(cfg: Config, s: Server, me: nat, i: nat, eff: Effect)
    requires me < |s.indexes| && i < |s.diskReads| && HandleDisk(cfg, s, me, i, eff).Some?
    ensures s.diskReplies <= HandleDisk(cfg, s, me, i, eff).value.diskReplies
  {
  }

  /** Where the disk's reply queue is not polled, what is in it stays in it, whatever happens next. */
  lemma {:induction false} UnpolledDiskRepliesStay(cfg: Config, s: State, steps: seq<Step>, i: nat)
    requires !cfg.blockDbAsync && i < |s.servers| && After(cfg, s, steps).Some?
    ensures var t := After(cfg, s, steps).value;
            |t.servers| == |s.servers| && s.servers[i].diskReplies <= t.servers[i].diskReplies
    decreases steps
  {
    hide Next, Act;
    if steps != [] {
      var t := Next(cfg, s, steps[0]).value;
      StepIsLocal(cfg, s, steps[0], t);
      ActKeepsDiskReplies(cfg, s.servers[steps[0].server], steps[0].server, steps[0].action);
      UnpolledDiskRepliesStay(cfg, t, steps[1..], i);
    }
  }

  /** The lone server once its GET has been queued for the disk. */
  function LoneAsked(r: Request): (s: Server) {
    Lone().(received := [r], misses := 1, localDisk := 1, diskReads := [DiskRead(r, true)])
  }

  lemma LoneAsks(cfg: Config, r: Request)
    requires Asynchronous(cfg) && cfg.diskAsync && r.key == 1
    ensures HandleGet(cfg, Lone(), 0, r, "?", NOTHING) == Some(LoneAsked(r))
  {
    var s := Lone();
    assert FirstPeer(s.indexes, 0, 1, 0) == FirstPeer(s.indexes, 0, 1, 1) == None;
    assert s.received + [r] == [r] && s.diskReads + [DiskRead(r, true)] == [DiskRead(r, true)];
  }

  lemma LoneReadsDisk(cfg: Config, r: Request)
    requires r.key == 1
    ensures var t := HandleDisk(cfg, LoneAsked(r), 0, 0, NOTHING); t.Some? && t.value.diskReplies == [Reply(r, "a")]
  {
    hide Offer;
    var s := LoneAsked(r);
    OfferBooks(s.(diskReads := RemoveAt(s.diskReads, 0)), 0, 1, "a", NOTHING);
  }

  lemma LoneStarts()
    ensures Initial(LoneState(Lone())) && Sized(LoneState(Lone()), 2, 0)
  {
  }

  lemma LoneRun(cfg: Config, r: Request, stuck: Server)
    requires Asynchronous(cfg) && cfg.diskAsync && r.key == 1
    requires HandleDisk(cfg, LoneAsked(r), 0, 0, NOTHING) == Some(stuck)
    ensures SizedRun(cfg, [LoneState(Lone()), LoneState(LoneAsked(r)), LoneState(stuck)], 2, 0)
  {
    LoneAsks(cfg, r);
    LoneStarts();
    var s0, s1, s2 := LoneState(Lone()), LoneState(LoneAsked(r)), LoneState(stuck);
    var get, read := Get(r, "?", NOTHING), DiskDone(0, NOTHING);
    assert SizedStep(s0, Step(0, get), 2, 0) && SizedStep(s1, Step(0, read), 2, 0);
    hide HandleGet, HandleDisk, Offer, Next, SizedStep, Initial, Sized;
    assert Act(cfg, Lone(), 0, get) == Some(LoneAsked(r)) && Act(cfg, LoneAsked(r), 0, read) == Some(stuck);
    hide Act, Lone, LoneAsked, LoneState;
    LoneStep(cfg, Lone(), get, LoneAsked(r));
    LoneStep(cfg, LoneAsked(r), read, stuck);
    assert SizedFollows(cfg, s0, s1, 2, 0) && SizedFollows(cfg, s1, s2, 2, 0);
    assert Follows(cfg, s0, s1) && Follows(cfg, s1, s2);
  }

  lemma QueuedMeansNotAnswered(cfg: Config, s: State, i: nat, steps: seq<Step>)
    requires !cfg.blockDbAsync && i < |s.servers| && s.servers[i].diskReplies != [] && After(cfg, s, steps).Some?
    ensures !Answered(After(cfg, s, steps).value)
  {
    UnpolledDiskRepliesStay(cfg, s, steps, i);
    hide After;
    assert Waiting(After(cfg, s, steps).value.servers[i]);
  }

  /** One GET and its disk read: the reply is queued, and no continuation of any kind ever sends it. */
  lemma UnpolledReplyIsStuck(cfg: Config) returns (tr: seq<State>)
    requires Asynchronous(cfg) && cfg.diskAsync && !cfg.blockDbAsync
    ensures SizedRun(cfg, tr, 2, 0) && |tr| == 3 && |tr[2].servers| == 1 && tr[2].servers[0].diskReplies != []
    ensures forall steps :: After(cfg, tr[2], steps).Some? ==> !Answered(After(cfg, tr[2], steps).value)
  {
    var r := Request(0, 0, 1);
    LoneReadsDisk(cfg, r);
    hide HandleDisk, After, SizedRun, Answered;
    var stuck := HandleDisk(cfg, LoneAsked(r), 0, 0, NOTHING).value;
    tr := [LoneState(Lone()), LoneState(LoneAsked(r)), LoneState(stuck)];
    LoneRun(cfg, r, stuck);
    forall steps | After(cfg, tr[2], steps).Some? ensures !Answered(After(cfg, tr[2], steps).value) {
      QueuedMeansNotAnswered(cfg, tr[2], 0, steps);
    }
  }

  /**
   * In every run, everything received can still be answered by completions and sends alone, if and only if
   * disk replies, where they are queued, are polled.
   */
  lemma AnswerableExactlyWhenPolled(cfg: Config)
    requires Asynchronous(cfg)
    ensures (forall tr: seq<State>, n: nat, m: nat, k: nat ::
               SizedRun(cfg, tr, n, m) && k < |tr| ==> CanAnswer(cfg, tr[k]))
            <==> (cfg.diskAsync ==> cfg.blockDbAsync)
  {
    if cfg.diskAsync ==> cfg.blockDbAsync {
      forall tr: seq<State>, n: nat, m: nat, k: nat | SizedRun(cfg, tr, n, m) && k < |tr|
        ensures CanAnswer(cfg, tr[k])
      {
        RunGood(cfg, tr, n, m, k);
        var steps := ScheduleExists(cfg, tr[k], n, m);
      }
    } else {
      var tr := UnpolledReplyIsStuck(cfg);
      hide SizedRun, After, Answered;
      assert SizedRun(cfg, tr, 2, 0) && !CanAnswer(cfg, tr[2]);
    }
  }
}
