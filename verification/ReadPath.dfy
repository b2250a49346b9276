/**
 * The distributed read path: servers that answer a GET from their cache, from a peer's slot found
 * through a possibly stale index copy, or from disk, with replies passing through asynchronous queues.
 * Every step is one queue operation, message or cache event on one server.  What the cache decides
 * (which slot, what to evict, whether to admit) is a parameter of the step; index copies may change to
 * anything at any time, which covers single writes, shipped logs and every staleness.
 */
module ReadPath {
  import opened Common
  import opened IndexReplication

  type Value = string

  datatype Policy = Static | NChance | AccessRate

  /** `rdma` is one-sided RDMA with cache indexing; the other flags are the program's own. */
  datatype Config = Config(rdma: bool, rdmaAsync: bool, diskAsync: bool, blockDbAsync: bool, pollute: bool,
                           policy: Policy, keyMin: nat, keyMax: nat)

  datatype Request = Request(client: nat, port: nat, key: nat)

  datatype Slot = Empty | Holding(key: nat, value: Value)

  /** A posted slot read, and what the adapter has read once it is done. */
  datatype Read = Read(request: Request, peer: nat, slot: nat, landed: Option<Slot>)

  datatype DiskRead = DiskRead(request: Request, addToCache: bool)

  /** A reply, queued or sent, with the request it answers. */
  datatype Reply = Reply(request: Request, value: Value)

  /** A singleton put on its way to another server. */
  datatype Forward = Forward(target: nat, key: nat, value: Value)

  datatype Server = Server(
    cache: map<nat, Value>, slots: seq<Slot>, indexes: seq<seq<Index>>, db: map<nat, Value>,
    slotReads: seq<Read>, diskReads: seq<DiskRead>,
    rdmaReplies: seq<Reply>, diskReplies: seq<Reply>, forwards: seq<Forward>,
    received: seq<Request>, sent: seq<Reply>,
    misses: nat, localDisk: nat, remoteDisk: nat, rdmaHits: nat)

  /** What the cache does with an offered pair: the slot it takes, if admitted, and the keys it evicts. */
  datatype Effect = Effect(slot: Option<nat>, evicted: set<nat>, toDb: bool)

  const NOTHING: Effect := Effect(None, {}, false)

  datatype Action =
    | Put(key: nat, value: Value, eff: Effect)
    | Get(request: Request, junk: Value, eff: Effect)
    | Land(i: nat, seen: Slot)
    | RdmaDone(i: nat, eff: Effect, victim: Option<Forward>)
    | DiskDone(i: nat, eff: Effect)
    | SendRdma
    | SendDisk
    | SendForward
    | ReceiveForward(message: Forward, eff: Effect)
    | Delete(key: nat)
    | Evict(keys: set<nat>)
    | IndexArrives(peer: nat, row: seq<Index>)

  // ---------------------------------------------------------------- one server

  function DropKeys(row: seq<Index>, keys: set<nat>): (r: seq<Index>)
    ensures |r| == |row|
  {
    seq(|row|, k requires 0 <= k < |row| => if k in keys then Invalid else row[k])
  }

  /** The cache loses keys; their slots keep their bytes. */
  function Lose(s: Server, me: nat, keys: set<nat>): (r: Server)
    requires me < |s.indexes|
  {
    s.(cache := s.cache - keys, indexes := s.indexes[me := DropKeys(s.indexes[me], keys)])
  }

  /** The cache is offered a pair. */
  function Offer(s: Server, me: nat, key: nat, value: Value, eff: Effect): (r: Server)
    requires me < |s.indexes|
  {
    var kept :=
      if eff.slot.Some? && eff.slot.value < |s.slots| && key < |s.indexes[me]| then
        s.(cache := s.cache[key := value], slots := s.slots[eff.slot.value := Holding(key, value)],
           indexes := s.indexes[me := s.indexes[me][key := At(eff.slot.value)]])
      else s;
    var evicted := Lose(kept, me, eff.evicted);
    if eff.toDb then evicted.(db := evicted.db[key := value]) else evicted
  }

  /** The first peer, from i on, whose index copy lists the key. */
  function FirstPeer(indexes: seq<seq<Index>>, me: nat, key: nat, i: nat): (r: Option<nat>)
    ensures r.Some? ==>
              i <= r.value < |indexes| && r.value != me && key < |indexes[r.value]| && indexes[r.value][key].At?
    decreases |indexes| - i
  {
    if i >= |indexes| then None
    else if i != me && key < |indexes[i]| && indexes[i][key].At? then Some(i)
    else FirstPeer(indexes, me, key, i + 1)
  }

  /** read_callback's search: the lowest-numbered peer that may hold the key. */
  method FindPeer(indexes: seq<seq<Index>>, me: nat, key: nat) returns (found: Option<nat>)
    requires forall i :: 0 <= i < |indexes| ==> key < |indexes[i]|
    ensures found == FirstPeer(indexes, me, key, 0)
    ensures found.None? ==> forall i :: 0 <= i < |indexes| && i != me ==> indexes[i][key].Invalid?
    ensures found.Some? ==> forall i :: 0 <= i < found.value && i != me ==> indexes[i][key].Invalid?
  {
    found := None;
    var i := 0;
    while i < |indexes|
      invariant 0 <= i <= |indexes|
      invariant FirstPeer(indexes, me, key, 0) == FirstPeer(indexes, me, key, i)
      invariant forall j :: 0 <= j < i && j != me ==> indexes[j][key].Invalid?
    {
      if i != me && indexes[i][key].At? {
        return Some(i);
      }
      i := i + 1;
    }
  }

  /** fetch_from_disk: queued when asynchronous, else answered at once; None where the program would panic. */
  function FetchFromDisk(cfg: Config, s: Server, me: nat, request: Request, addToCache: bool, eff: Effect)
    : (r: Option<Server>)
    requires me < |s.indexes|
  {
    if cfg.diskAsync then Some(s.(diskReads := s.diskReads + [DiskRead(request, addToCache)]))
    else if request.key !in s.db then None
    else
      var value := s.db[request.key];
      var kept := if cfg.pollute && addToCache then Offer(s, me, request.key, value, eff) else s;
      Some(kept.(sent := kept.sent + [Reply(request, value)]))
  }

  function HandleGet(cfg: Config, s: Server, me: nat, request: Request, junk: Value, eff: Effect): (r: Option<Server>)
    requires me < |s.indexes|
  {
    var asked := s.(received := s.received + [request]);
    if request.key in s.cache then
      Some(asked.(sent := s.sent + [Reply(request, s.cache[request.key])]))
    else
      var missed := asked.(misses := s.misses + 1);
      var peer := if cfg.rdma then FirstPeer(s.indexes, me, request.key, 0) else None;
      // Without asynchronous RDMA the handler also answers from a buffer nothing has been read into.
      var answered :=
        if cfg.rdma && !cfg.rdmaAsync then missed.(sent := missed.sent + [Reply(request, junk)]) else missed;
      if peer.Some? then
        var at := s.indexes[peer.value][request.key].slot;
        Some(answered.(slotReads := answered.slotReads + [Read(request, peer.value, at, None)]))
      else
        FetchFromDisk(cfg, answered.(localDisk := answered.localDisk + 1), me, request, true, eff)
  }

  /** A forwarded pair goes to the next server; it was cached here, or is the pair just refused. */
  predicate MayForward(s: Server, me: nat, slot: Slot, f: Forward)
    requires me < |s.indexes|
  {
    && f.target == (me + 1) % |s.indexes|
    && ((f.key in s.cache && s.cache[f.key] == f.value) || slot == Holding(f.key, f.value))
  }

  /** The callback of a slot read: the key check decides between the value read and the disk. */
  function HandleRead(cfg: Config, s: Server, me: nat, i: nat, eff: Effect, forward: Option<Forward>)
    : (r: Option<Server>)
    requires me < |s.indexes| && i < |s.slotReads| && s.slotReads[i].landed.Some?
  {
    var read := s.slotReads[i];
    var rest := s.(slotReads := RemoveAt(s.slotReads, i));
    var slot := read.landed.value;
    if slot.Holding? && slot.key == read.request.key then
      var kept := if cfg.policy.Static? then rest else Offer(rest, me, slot.key, slot.value, eff);
      // put_nchance hands back what it evicted; that pair is forwarded.
      var victim := cfg.policy.NChance? && forward.Some?;
      if victim && !MayForward(s, me, slot, forward.value) then None
      else
        Some(kept.(forwards := if victim then kept.forwards + [forward.value] else kept.forwards,
                   rdmaReplies := kept.rdmaReplies + [Reply(read.request, slot.value)],
                   rdmaHits := kept.rdmaHits + 1))
    else
      var counted := rest.(remoteDisk := rest.remoteDisk + 1);
      if slot.Empty? then FetchFromDisk(cfg, counted, me, read.request, false, eff)
      else if read.request.key < |s.indexes[me]| && forall j :: 0 <= j < |s.indexes| ==> slot.key < |s.indexes[j]| then
        FetchFromDisk(cfg, counted.(indexes := AfterLocalUpdate(s.indexes, me, read.request.key, slot.key)),
                      me, read.request, false, eff)
      else None
  }

  function HandleDisk(cfg: Config, s: Server, me: nat, i: nat, eff: Effect): (r: Option<Server>)
    requires me < |s.indexes| && i < |s.diskReads|
  {
    var d := s.diskReads[i];
    if d.request.key !in s.db then None
    else
      var value := s.db[d.request.key];
      var rest := s.(diskReads := RemoveAt(s.diskReads, i));
      var kept :=
        if d.addToCache && (cfg.pollute || cfg.keyMin <= d.request.key < cfg.keyMax)
        then Offer(rest, me, d.request.key, value, eff) else rest;
      Some(kept.(diskReplies := kept.diskReplies + [Reply(d.request, value)]))
  }

  /** What an action does on its server, or None where it is not enabled. */
  function Act(cfg: Config, s: Server, me: nat, a: Action): (r: Option<Server>)
    requires me < |s.indexes|
  {
    match a
    case Put(key, value, eff) => Some(Offer(s, me, key, value, eff))
    case Get(request, junk, eff) => HandleGet(cfg, s, me, request, junk, eff)
    case Land(i, seen) =>
      if i < |s.slotReads| && s.slotReads[i].landed.None? then
        Some(s.(slotReads := s.slotReads[i := s.slotReads[i].(landed := Some(seen))]))
      else None
    case RdmaDone(i, eff, forward) =>
      if i < |s.slotReads| && s.slotReads[i].landed.Some? then HandleRead(cfg, s, me, i, eff, forward) else None
    case DiskDone(i, eff) =>
      if i < |s.diskReads| then HandleDisk(cfg, s, me, i, eff) else None
    case SendRdma =>
      if s.rdmaReplies != [] then
        Some(s.(rdmaReplies := s.rdmaReplies[1..], sent := s.sent + [s.rdmaReplies[0]]))
      else None
    case SendDisk =>
      if cfg.blockDbAsync && s.diskReplies != [] then
        Some(s.(diskReplies := s.diskReplies[1..], sent := s.sent + [s.diskReplies[0]]))
      else None
    case SendForward =>
      if s.forwards != [] then Some(s.(forwards := s.forwards[1..])) else None
    case ReceiveForward(forward, eff) => Some(Offer(s, me, forward.key, forward.value, eff))
    case Delete(key) => Some(Lose(s, me, {key}))
    case Evict(keys) => Some(Lose(s, me, keys))
    case IndexArrives(peer, row) =>
      if peer < |s.indexes| && peer != me then Some(s.(indexes := s.indexes[peer := row])) else None
  }

  // ---------------------------------------------------------------- all servers

  /** `net` holds singleton puts in transit; `stored` every (key, value) ever put or initially present. */
  datatype State = State(servers: seq<Server>, net: multiset<Forward>, stored: set<(nat, Value)>)

  datatype Step = Step(server: nat, action: Action)

  function Next(cfg: Config, s: State, step: Step): (r: Option<State>) {
    var me, a := step.server, step.action;
    if me >= |s.servers| || me >= |s.servers[me].indexes| then None else
    match Act(cfg, s.servers[me], me, a)
    case None => None
    case Some(after) =>
      var servers := s.servers[me := after];
      match a
      case Put(key, value, _) => Some(State(servers, s.net, s.stored + {(key, value)}))
      case Land(i, seen) =>
        // The adapter sees whatever the peer's slot holds at this moment.
        var read := s.servers[me].slotReads[i];
        if read.peer < |s.servers| && read.slot < |s.servers[read.peer].slots|
           && s.servers[read.peer].slots[read.slot] == seen then
          Some(State(servers, s.net, s.stored))
        else None
      case SendForward => Some(State(servers, s.net + multiset{s.servers[me].forwards[0]}, s.stored))
      case ReceiveForward(forward, _) =>
        if forward in s.net && forward.target == me then Some(State(servers, s.net - multiset{forward}, s.stored))
        else None
      case _ => Some(State(servers, s.net, s.stored))
  }

  ghost predicate Initial(s: State) {
    && s.net == multiset{}
    && forall i :: 0 <= i < |s.servers| ==> Fresh(s.servers[i]) && ServerSafe(s.servers[i], s.stored)
  }

  ghost predicate Fresh(s: Server) {
    && s.slotReads == [] && s.diskReads == [] && s.rdmaReplies == [] && s.diskReplies == [] && s.forwards == []
    && s.received == [] && s.sent == []
    && s.misses == 0 && s.localDisk == 0 && s.remoteDisk == 0 && s.rdmaHits == 0
  }

  ghost predicate Follows(cfg: Config, s: State, s': State) {
    exists step :: Next(cfg, s, step) == Some(s')
  }

  ghost predicate Run(cfg: Config, tr: seq<State>) {
    && tr != [] && Initial(tr[0])
    && forall i :: 0 <= i < |tr| - 1 ==> Follows(cfg, tr[i], tr[i + 1])
  }

  /** The configuration under which a miss is answered only by its read or its disk fetch. */
  predicate Asynchronous(cfg: Config) { cfg.rdma ==> cfg.rdmaAsync }

  // ---------------------------------------------------------------- safety: only stored values

  ghost predicate PairsSafe(m: map<nat, Value>, stored: set<(nat, Value)>) {
    forall k :: k in m ==> (k, m[k]) in stored
  }

  predicate SlotSafe(slot: Slot, stored: set<(nat, Value)>) {
    slot.Holding? ==> (slot.key, slot.value) in stored
  }

  ghost predicate SlotsSafe(slots: seq<Slot>, stored: set<(nat, Value)>) {
    forall i :: 0 <= i < |slots| ==> SlotSafe(slots[i], stored)
  }

  ghost predicate ReadsSafe(slotReads: seq<Read>, stored: set<(nat, Value)>) {
    forall i :: 0 <= i < |slotReads| && slotReads[i].landed.Some? ==> SlotSafe(slotReads[i].landed.value, stored)
  }

  ghost predicate RepliesSafe(q: seq<Reply>, stored: set<(nat, Value)>) {
    forall i :: 0 <= i < |q| ==> (q[i].request.key, q[i].value) in stored
  }

  ghost predicate ForwardsSafe(q: seq<Forward>, stored: set<(nat, Value)>) {
    forall i :: 0 <= i < |q| ==> (q[i].key, q[i].value) in stored
  }

  ghost predicate ServerSafe(s: Server, stored: set<(nat, Value)>) {
    && PairsSafe(s.cache, stored) && PairsSafe(s.db, stored) && SlotsSafe(s.slots, stored)
    && ReadsSafe(s.slotReads, stored) && RepliesSafe(s.rdmaReplies, stored) && RepliesSafe(s.diskReplies, stored)
    && RepliesSafe(s.sent, stored) && ForwardsSafe(s.forwards, stored)
  }

  ghost predicate NetSafe(net: multiset<Forward>, stored: set<(nat, Value)>) {
    forall f :: f in net ==> (f.key, f.value) in stored
  }

  ghost predicate Safe(s: State) {
    && NetSafe(s.net, s.stored)
    && forall i :: 0 <= i < |s.servers| ==> ServerSafe(s.servers[i], s.stored)
  }

  /** The values an action brings in are ones already stored. */
  ghost predicate ActionSafe(a: Action, stored: set<(nat, Value)>) {
    match a
    case Put(key, value, _) => (key, value) in stored
    case Land(_, seen) => SlotSafe(seen, stored)
    case ReceiveForward(f, _) => (f.key, f.value) in stored
    case _ => true
  }

  lemma OfferSafe(s: Server, me: nat, key: nat, value: Value, eff: Effect, stored: set<(nat, Value)>)
    requires me < |s.indexes| && ServerSafe(s, stored) && (key, value) in stored
    ensures ServerSafe(Offer(s, me, key, value, eff), stored)
  {
  }

  lemma FetchSafe(cfg: Config, s: Server, me: nat, request: Request, add: bool, eff: Effect, stored: set<(nat, Value)>)
    requires me < |s.indexes| && ServerSafe(s, stored)
    ensures FetchFromDisk(cfg, s, me, request, add, eff).Some? ==>
              ServerSafe(FetchFromDisk(cfg, s, me, request, add, eff).value, stored)
  {
    hide Offer;
    if !cfg.diskAsync && request.key in s.db {
      OfferSafe(s, me, request.key, s.db[request.key], eff, stored);
    }
  }

  lemma GetSafe(cfg: Config, s: Server, me: nat, request: Request, junk: Value, eff: Effect, stored: set<(nat, Value)>)
    requires me < |s.indexes| && ServerSafe(s, stored) && Asynchronous(cfg)
    ensures HandleGet(cfg, s, me, request, junk, eff).Some? ==>
              ServerSafe(HandleGet(cfg, s, me, request, junk, eff).value, stored)
  {
    hide FetchFromDisk;
    var missed := s.(received := s.received + [request], misses := s.misses + 1, localDisk := s.localDisk + 1);
    FetchSafe(cfg, missed, me, request, true, eff, stored);
  }

  lemma ReadSafe(cfg: Config, s: Server, me: nat, i: nat, eff: Effect, forward: Option<Forward>,
                 stored: set<(nat, Value)>)
    requires me < |s.indexes| && i < |s.slotReads| && s.slotReads[i].landed.Some? && ServerSafe(s, stored)
    ensures HandleRead(cfg, s, me, i, eff, forward).Some? ==>
              ServerSafe(HandleRead(cfg, s, me, i, eff, forward).value, stored)
  {
    hide FetchFromDisk, Offer;
    var read, rest := s.slotReads[i], s.(slotReads := RemoveAt(s.slotReads, i));
    var slot := read.landed.value;
    assert ServerSafe(rest, stored);
    if slot.Holding? && slot.key == read.request.key {
      OfferSafe(rest, me, slot.key, slot.value, eff, stored);
    } else {
      var counted := rest.(remoteDisk := rest.remoteDisk + 1);
      FetchSafe(cfg, counted, me, read.request, false, eff, stored);
      if slot.Holding? && read.request.key < |s.indexes[me]|
         && forall j :: 0 <= j < |s.indexes| ==> slot.key < |s.indexes[j]| {
        FetchSafe(cfg, counted.(indexes := AfterLocalUpdate(s.indexes, me, read.request.key, slot.key)),
                  me, read.request, false, eff, stored);
      }
    }
  }

  lemma DiskSafe(cfg: Config, s: Server, me: nat, i: nat, eff: Effect, stored: set<(nat, Value)>)
    requires me < |s.indexes| && i < |s.diskReads| && ServerSafe(s, stored)
    ensures HandleDisk(cfg, s, me, i, eff).Some? ==> ServerSafe(HandleDisk(cfg, s, me, i, eff).value, stored)
  {
    hide Offer;
    var rest := s.(diskReads := RemoveAt(s.diskReads, i));
    if s.diskReads[i].request.key in s.db {
      OfferSafe(rest, me, s.diskReads[i].request.key, s.db[s.diskReads[i].request.key], eff, stored);
    }
  }

  lemma ActSafe(cfg: Config, s: Server, me: nat, a: Action, stored: set<(nat, Value)>)
    requires me < |s.indexes| && ServerSafe(s, stored) && Asynchronous(cfg) && ActionSafe(a, stored)
    ensures Act(cfg, s, me, a).Some? ==> ServerSafe(Act(cfg, s, me, a).value, stored)
  {
    hide HandleGet, HandleRead, HandleDisk, Offer;
    match a
    case Put(key, value, eff) => OfferSafe(s, me, key, value, eff, stored);
    case Get(request, junk, eff) => GetSafe(cfg, s, me, request, junk, eff, stored);
    case RdmaDone(i, eff, forward) =>
      if i < |s.slotReads| && s.slotReads[i].landed.Some? { ReadSafe(cfg, s, me, i, eff, forward, stored); }
    case DiskDone(i, eff) => if i < |s.diskReads| { DiskSafe(cfg, s, me, i, eff, stored); }
    case ReceiveForward(f, eff) => OfferSafe(s, me, f.key, f.value, eff, stored);
    case _ =>
  }

  lemma SafeGrows(s: Server, stored: set<(nat, Value)>, more: set<(nat, Value)>)
    requires ServerSafe(s, stored) && stored <= more
    ensures ServerSafe(s, more)
  {
  }

  lemma StepSafe(cfg: Config, s: State, step: Step, s': State)
    requires Safe(s) && Asynchronous(cfg) && Next(cfg, s, step) == Some(s')
    ensures Safe(s')
  {
    hide Act, ServerSafe;
    var me, a := step.server, step.action;
    var more := s'.stored;
    forall i | 0 <= i < |s.servers| ensures ServerSafe(s.servers[i], more) { SafeGrows(s.servers[i], s.stored, more); }
    InputsSafe(cfg, s, step, s');
    ActSafe(cfg, s.servers[me], me, a, more);
    if a.SendForward? { ForwardSafe(cfg, s, me); }
  }

  /** What reaches a server from outside it is safe: a new pair, a peer's slot, a message in transit. */
  lemma InputsSafe(cfg: Config, s: State, step: Step, s': State)
    requires Safe(s) && Next(cfg, s, step) == Some(s')
    ensures ActionSafe(step.action, s'.stored)
  {
    hide HandleGet, HandleRead, HandleDisk, Offer;
    if step.action.Land? {
      var read := s.servers[step.server].slotReads[step.action.i];
      assert ServerSafe(s.servers[read.peer], s.stored);
      assert SlotSafe(s.servers[read.peer].slots[read.slot], s.stored);
    }
  }

  lemma ForwardSafe(cfg: Config, s: State, me: nat)
    requires Safe(s) && me < |s.servers| && me < |s.servers[me].indexes|
    ensures Act(cfg, s.servers[me], me, SendForward).Some? ==>
              && s.servers[me].forwards != []
              && (s.servers[me].forwards[0].key, s.servers[me].forwards[0].value) in s.stored
  {
  }

  lemma {:induction false} RunSafe(cfg: Config, tr: seq<State>, k: nat)
    requires Run(cfg, tr) && Asynchronous(cfg) && k < |tr|
    ensures Safe(tr[k])
  {
    if k > 0 {
      RunSafe(cfg, tr, k - 1);
      assert Follows(cfg, tr[k - 1], tr[k - 1 + 1]);
      var step :| Next(cfg, tr[k - 1], step) == Some(tr[k]);
      StepSafe(cfg, tr[k - 1], step, tr[k]);
    }
  }

  /** Every reply to a GET of a key carries a value stored for that key, whatever the index copies held. */
  lemma RepliesAreStoredValues(cfg: Config, tr: seq<State>, k: nat, i: nat, j: nat)
    requires Run(cfg, tr) && Asynchronous(cfg) && k < |tr| && i < |tr[k].servers| && j < |tr[k].servers[i].sent|
    ensures var reply := tr[k].servers[i].sent[j]; (reply.request.key, reply.value) in tr[k].stored
  {
    RunSafe(cfg, tr, k);
    assert ServerSafe(tr[k].servers[i], tr[k].stored);
  }

  // ---------------------------------------------------------------- without puts: only database values

  ghost predicate FollowsWithoutPut(cfg: Config, s: State, s': State) {
    exists step :: Next(cfg, s, step) == Some(s') && !step.action.Put?
  }

  ghost predicate RunWithoutPuts(cfg: Config, tr: seq<State>) {
    && Run(cfg, tr)
    && forall i :: 0 <= i < |tr| - 1 ==> FollowsWithoutPut(cfg, tr[i], tr[i + 1])
  }

  lemma {:induction false} StoredIsFixed(cfg: Config, tr: seq<State>, k: nat)
    requires RunWithoutPuts(cfg, tr) && k < |tr|
    ensures tr[k].stored == tr[0].stored
  {
    hide Act, Run;
    if k > 0 {
      StoredIsFixed(cfg, tr, k - 1);
      assert FollowsWithoutPut(cfg, tr[k - 1], tr[k - 1 + 1]);
    }
  }

  /** If everything initially present is the database's, a run without puts answers from the database. */
  lemma WithoutPutsRepliesAreTheDatabase(cfg: Config, tr: seq<State>, db: map<nat, Value>, k: nat, i: nat, j: nat)
    requires RunWithoutPuts(cfg, tr) && Asynchronous(cfg)
    requires forall key: nat, v: Value :: (key, v) in tr[0].stored ==> key in db && db[key] == v
    requires k < |tr| && i < |tr[k].servers| && j < |tr[k].servers[i].sent|
    ensures var reply := tr[k].servers[i].sent[j]; reply.request.key in db && reply.value == db[reply.request.key]
  {
    RepliesAreStoredValues(cfg, tr, k, i, j);
    StoredIsFixed(cfg, tr, k);
  }

  // ---------------------------------------------------------------- every GET gets one reply

  /** The requests behind the elements of a queue. */
  function Asked<T>(q: seq<T>, f: T -> Request): (r: multiset<Request>) {
    if q == [] then multiset{} else Asked(q[..|q| - 1], f) + multiset{f(q[|q| - 1])}
  }

  function ReadRequest(r: Read): Request { r.request }

  function DiskRequest(d: DiskRead): Request { d.request }

  function ReplyRequest(r: Reply): Request { r.request }

  function RequestsOfReads(q: seq<Read>): (r: multiset<Request>) { Asked(q, ReadRequest) }

  function RequestsOfDisk(q: seq<DiskRead>): (r: multiset<Request>) { Asked(q, DiskRequest) }

  function RequestsOf(q: seq<Reply>): (r: multiset<Request>) { Asked(q, ReplyRequest) }

  /** Requests received, against those answered, being read, on disk, or in a reply queue. */
  ghost predicate Balanced(s: Server) {
    multiset(s.received) == RequestsOf(s.sent) + RequestsOfReads(s.slotReads) + RequestsOfDisk(s.diskReads)
                            + RequestsOf(s.rdmaReplies) + RequestsOf(s.diskReplies)
  }

  /** Cache misses, against where they were or are still to be served from. */
  ghost predicate MissesAddUp(s: Server) {
    s.misses == s.localDisk + s.remoteDisk + s.rdmaHits + |s.slotReads|
  }

  lemma {:induction false} AskedConcatAt<T>(a: seq<T>, b: seq<T>, f: T -> Request, x: Request)
    ensures Asked(a + b, f)[x] == Asked(a, f)[x] + Asked(b, f)[x]
  {
    hide Asked;
    if b == [] {
      assert a + b == a;
      AskedNone(f);
    } else {
      var n := |b| - 1;
      AskedConcatAt(a, b[..n], f, x);
      AskedLast(b, f, x);
      AskedLast(a + b, f, x);
      assert (a + b)[..|a + b| - 1] == a + b[..n];
    }
  }

  lemma AskedNone<T>(f: T -> Request)
    ensures Asked([], f) == multiset{}
  {
  }

  lemma AskedLast<T>(q: seq<T>, f: T -> Request, x: Request)
    requires q != []
    ensures Asked(q, f)[x] == Asked(q[..|q| - 1], f)[x] + (if f(q[|q| - 1]) == x then 1 else 0)
  {
  }

  lemma AskedConcat<T>(a: seq<T>, b: seq<T>, f: T -> Request)
    ensures Asked(a + b, f) == Asked(a, f) + Asked(b, f)
  {
    hide Asked;
    forall x ensures Asked(a + b, f)[x] == (Asked(a, f) + Asked(b, f))[x] { AskedConcatAt(a, b, f, x); }
  }

  lemma AskedOne<T>(x: T, f: T -> Request)
    ensures Asked([x], f) == multiset{f(x)}
  {
    assert [x][..0] == [];
  }

  lemma AskedSplit<T>(q: seq<T>, i: nat, f: T -> Request)
    requires i < |q|
    ensures Asked(q, f) == Asked(q[..i], f) + multiset{f(q[i])} + Asked(q[i + 1..], f)
  {
    hide Asked;
    assert q == q[..i] + ([q[i]] + q[i + 1..]);
    AskedConcat(q[..i], [q[i]] + q[i + 1..], f);
    AskedConcat([q[i]], q[i + 1..], f);
    AskedOne(q[i], f);
  }

  lemma AppendReply(q: seq<Reply>, x: Reply)
    ensures RequestsOf(q + [x]) == RequestsOf(q) + multiset{x.request}
  {
    AskedConcat(q, [x], ReplyRequest);
    AskedOne(x, ReplyRequest);
  }

  lemma AppendRead(q: seq<Read>, x: Read)
    ensures RequestsOfReads(q + [x]) == RequestsOfReads(q) + multiset{x.request}
  {
    AskedConcat(q, [x], ReadRequest);
    AskedOne(x, ReadRequest);
  }

  lemma AppendDisk(q: seq<DiskRead>, x: DiskRead)
    ensures RequestsOfDisk(q + [x]) == RequestsOfDisk(q) + multiset{x.request}
  {
    AskedConcat(q, [x], DiskRequest);
    AskedOne(x, DiskRequest);
  }

  lemma AskedRemove<T>(q: seq<T>, i: nat, f: T -> Request)
    requires i < |q|
    ensures Asked(q, f) == Asked(RemoveAt(q, i), f) + multiset{f(q[i])}
  {
    hide Asked;
    AskedSplit(q, i, f);
    AskedConcat(q[..i], q[i + 1..], f);
  }

  lemma RemoveReply(q: seq<Reply>)
    requires q != []
    ensures RequestsOf(q) == multiset{q[0].request} + RequestsOf(q[1..])
  {
    AskedRemove(q, 0, ReplyRequest);
    assert RemoveAt(q, 0) == q[1..];
  }

  lemma RemoveRead(q: seq<Read>, i: nat)
    requires i < |q|
    ensures RequestsOfReads(q) == RequestsOfReads(RemoveAt(q, i)) + multiset{q[i].request}
  {
    AskedRemove(q, i, ReadRequest);
  }

  lemma RemoveDisk(q: seq<DiskRead>, i: nat)
    requires i < |q|
    ensures RequestsOfDisk(q) == RequestsOfDisk(RemoveAt(q, i)) + multiset{q[i].request}
  {
    AskedRemove(q, i, DiskRequest);
  }

  lemma LandRead(q: seq<Read>, i: nat, seen: Slot)
    requires i < |q|
    ensures RequestsOfReads(q[i := q[i].(landed := Some(seen))]) == RequestsOfReads(q)
  {
    hide Asked;
    var after := q[i := q[i].(landed := Some(seen))];
    AskedSplit(q, i, ReadRequest);
    AskedSplit(after, i, ReadRequest);
    assert after[..i] == q[..i] && after[i + 1..] == q[i + 1..];
  }

  /** Everything a reply or a queue has accounted for. */
  ghost function Accounted(s: Server): multiset<Request> {
    RequestsOf(s.sent) + RequestsOfReads(s.slotReads) + RequestsOfDisk(s.diskReads)
    + RequestsOf(s.rdmaReplies) + RequestsOf(s.diskReplies)
  }

  /** Nothing but the bookkeeping of requests: what the cache does leaves these alone. */
  ghost predicate SameBooks(s: Server, t: Server) {
    && t.received == s.received && t.sent == s.sent && t.slotReads == s.slotReads && t.diskReads == s.diskReads
    && t.rdmaReplies == s.rdmaReplies && t.diskReplies == s.diskReplies
    && t.misses == s.misses && t.localDisk == s.localDisk && t.remoteDisk == s.remoteDisk && t.rdmaHits == s.rdmaHits
  }

  lemma OfferBooks(s: Server, me: nat, key: nat, value: Value, eff: Effect)
    requires me < |s.indexes|
    ensures SameBooks(s, Offer(s, me, key, value, eff))
  {
  }

  /** The request, or nothing. */
  function Once(there: bool, request: Request): (r: multiset<Request>) {
    if there then multiset{request} else multiset{}
  }

  /** A disk fetch puts its request in the disk queue or answers it, by the flag. */
  lemma FetchRoutes(cfg: Config, s: Server, me: nat, request: Request, add: bool, eff: Effect)
    requires me < |s.indexes| && FetchFromDisk(cfg, s, me, request, add, eff).Some?
    ensures var t := FetchFromDisk(cfg, s, me, request, add, eff).value;
            && RequestsOfDisk(t.diskReads) == RequestsOfDisk(s.diskReads) + Once(cfg.diskAsync, request)
            && RequestsOf(t.sent) == RequestsOf(s.sent) + Once(!cfg.diskAsync, request)
            && SameBooks(s, t.(diskReads := s.diskReads, sent := s.sent))
    ensures !cfg.diskAsync ==>
              && request.key in s.db
              && FetchFromDisk(cfg, s, me, request, add, eff).value.sent == s.sent + [Reply(request, s.db[request.key])]
  {
    hide Offer, RequestsOf, RequestsOfReads, RequestsOfDisk;
    if cfg.diskAsync {
      AppendDisk(s.diskReads, DiskRead(request, add));
    } else {
      AppendReply(s.sent, Reply(request, s.db[request.key]));
      OfferBooks(s, me, request.key, s.db[request.key], eff);
    }
  }

  /** So it accounts for its request once, at once or later. */
  lemma FetchAccounts(cfg: Config, s: Server, me: nat, request: Request, add: bool, eff: Effect)
    requires me < |s.indexes| && FetchFromDisk(cfg, s, me, request, add, eff).Some?
    ensures Accounted(FetchFromDisk(cfg, s, me, request, add, eff).value) == Accounted(s) + multiset{request}
  {
    hide FetchFromDisk, RequestsOf, RequestsOfReads, RequestsOfDisk;
    FetchRoutes(cfg, s, me, request, add, eff);
  }

  /** A GET accounts for its request once, and for its miss if it is one. */
  lemma GetAccounts(cfg: Config, s: Server, me: nat, request: Request, junk: Value, eff: Effect)
    requires me < |s.indexes| && Asynchronous(cfg) && HandleGet(cfg, s, me, request, junk, eff).Some?
    ensures var t := HandleGet(cfg, s, me, request, junk, eff).value;
            && Accounted(t) == Accounted(s) + multiset{request} && t.received == s.received + [request]
            && t.misses - t.localDisk - |t.slotReads| == s.misses - s.localDisk - |s.slotReads|
            && t.remoteDisk == s.remoteDisk && t.rdmaHits == s.rdmaHits
  {
    hide FetchFromDisk, RequestsOf, RequestsOfReads, RequestsOfDisk, FirstPeer;
    if request.key in s.cache {
      AppendReply(s.sent, Reply(request, s.cache[request.key]));
    } else {
      var peer := if cfg.rdma then FirstPeer(s.indexes, me, request.key, 0) else None;
      if peer.Some? {
        AppendRead(s.slotReads, Read(request, peer.value, s.indexes[peer.value][request.key].slot, None));
      } else {
        var missed := s.(received := s.received + [request], misses := s.misses + 1, localDisk := s.localDisk + 1);
        FetchRoutes(cfg, missed, me, request, true, eff);
        FetchAccounts(cfg, missed, me, request, true, eff);
      }
    }
  }

  lemma GetBalances(cfg: Config, s: Server, me: nat, request: Request, junk: Value, eff: Effect)
    requires me < |s.indexes| && Asynchronous(cfg) && HandleGet(cfg, s, me, request, junk, eff).Some?
    requires Balanced(s) && MissesAddUp(s)
    ensures var t := HandleGet(cfg, s, me, request, junk, eff).value; Balanced(t) && MissesAddUp(t)
  {
    GetAccounts(cfg, s, me, request, junk, eff);
    hide HandleGet, RequestsOf, RequestsOfReads, RequestsOfDisk;
    assert multiset(s.received + [request]) == multiset(s.received) + multiset{request};
  }

  /** Whether a slot read found what its request asked for. */
  predicate Hit(r: Read) { r.landed.Some? && r.landed.value.Holding? && r.landed.value.key == r.request.key }

  /** Where a read's callback has put its request: out of the reads, into one of three queues, counted once. */
  ghost predicate Routed(cfg: Config, s: Server, read: Read, t: Server) {
    var r, hit := read.request, Hit(read);
    && RequestsOfReads(s.slotReads) == RequestsOfReads(t.slotReads) + multiset{r} && |s.slotReads| == |t.slotReads| + 1
    && RequestsOf(t.rdmaReplies) == RequestsOf(s.rdmaReplies) + Once(hit, r)
    && RequestsOfDisk(t.diskReads) == RequestsOfDisk(s.diskReads) + Once(!hit && cfg.diskAsync, r)
    && RequestsOf(t.sent) == RequestsOf(s.sent) + Once(!hit && !cfg.diskAsync, r)
    && t.diskReplies == s.diskReplies && t.received == s.received && t.misses == s.misses && t.localDisk == s.localDisk
    && t.rdmaHits == s.rdmaHits + (if hit then 1 else 0) && t.remoteDisk == s.remoteDisk + (if hit then 0 else 1)
  }

  lemma HitRoutes(cfg: Config, s: Server, me: nat, i: nat, eff: Effect, victim: Option<Forward>)
    requires me < |s.indexes| && i < |s.slotReads| && Hit(s.slotReads[i])
    requires HandleRead(cfg, s, me, i, eff, victim).Some?
    ensures Routed(cfg, s, s.slotReads[i], HandleRead(cfg, s, me, i, eff, victim).value)
    ensures HandleRead(cfg, s, me, i, eff, victim).value.rdmaReplies
            == s.rdmaReplies + [Reply(s.slotReads[i].request, s.slotReads[i].landed.value.value)]
  {
    hide Offer, RequestsOf, RequestsOfReads, RequestsOfDisk;
    var read, rest := s.slotReads[i], s.(slotReads := RemoveAt(s.slotReads, i));
    RemoveRead(s.slotReads, i);
    AppendReply(s.rdmaReplies, Reply(read.request, read.landed.value.value));
    OfferBooks(rest, me, read.landed.value.key, read.landed.value.value, eff);
  }

  lemma MissRoutes(cfg: Config, s: Server, me: nat, i: nat, eff: Effect, victim: Option<Forward>)
    requires me < |s.indexes| && i < |s.slotReads| && s.slotReads[i].landed.Some? && !Hit(s.slotReads[i])
    requires HandleRead(cfg, s, me, i, eff, victim).Some?
    ensures Routed(cfg, s, s.slotReads[i], HandleRead(cfg, s, me, i, eff, victim).value)
    ensures var r := s.slotReads[i].request;
            !cfg.diskAsync ==>
              r.key in s.db && HandleRead(cfg, s, me, i, eff, victim).value.sent == s.sent + [Reply(r, s.db[r.key])]
  {
    hide FetchFromDisk, RequestsOf, RequestsOfReads, RequestsOfDisk;
    var read, slot := s.slotReads[i], s.slotReads[i].landed.value;
    var counted := s.(slotReads := RemoveAt(s.slotReads, i), remoteDisk := s.remoteDisk + 1);
    RemoveRead(s.slotReads, i);
    var updated := if slot.Empty? then counted
                   else counted.(indexes := AfterLocalUpdate(s.indexes, me, read.request.key, slot.key));
    FetchRoutes(cfg, updated, me, read.request, false, eff);
  }

  /**
   * The key check decides where a request goes: with the key found it is answered with the value read;
   * otherwise it joins the disk queue, or is answered from the database, and from nowhere else.
   */
  lemma KeyCheckRoutes(cfg: Config, s: Server, me: nat, i: nat, eff: Effect, victim: Option<Forward>)
    requires me < |s.indexes| && i < |s.slotReads| && s.slotReads[i].landed.Some?
    requires HandleRead(cfg, s, me, i, eff, victim).Some?
    ensures var t := HandleRead(cfg, s, me, i, eff, victim).value;
            var read := s.slotReads[i]; var r := read.request;
            && Routed(cfg, s, read, t)
            && (Hit(read) ==> t.rdmaReplies == s.rdmaReplies + [Reply(r, read.landed.value.value)])
            && (!Hit(read) && !cfg.diskAsync ==> r.key in s.db && t.sent == s.sent + [Reply(r, s.db[r.key])])
  {
    hide HandleRead, Routed;
    if Hit(s.slotReads[i]) {
      HitRoutes(cfg, s, me, i, eff, victim);
    } else {
      MissRoutes(cfg, s, me, i, eff, victim);
    }
  }

  lemma ReadBalances(cfg: Config, s: Server, me: nat, i: nat, eff: Effect, victim: Option<Forward>)
    requires me < |s.indexes| && i < |s.slotReads| && s.slotReads[i].landed.Some?
    requires HandleRead(cfg, s, me, i, eff, victim).Some? && Balanced(s) && MissesAddUp(s)
    ensures var t := HandleRead(cfg, s, me, i, eff, victim).value; Balanced(t) && MissesAddUp(t)
  {
    hide HandleRead, RequestsOf, RequestsOfReads, RequestsOfDisk, Hit;
    KeyCheckRoutes(cfg, s, me, i, eff, victim);
  }

  lemma DiskBalances(cfg: Config, s: Server, me: nat, i: nat, eff: Effect)
    requires me < |s.indexes| && i < |s.diskReads| && HandleDisk(cfg, s, me, i, eff).Some?
    requires Balanced(s) && MissesAddUp(s)
    ensures var t := HandleDisk(cfg, s, me, i, eff).value; Balanced(t) && MissesAddUp(t)
  {
    hide RequestsOf, RequestsOfReads, RequestsOfDisk, Offer;
    var d := s.diskReads[i];
    OfferBooks(s.(diskReads := RemoveAt(s.diskReads, i)), me, d.request.key, s.db[d.request.key], eff);
    RemoveDisk(s.diskReads, i);
    AppendReply(s.diskReplies, Reply(d.request, s.db[d.request.key]));
  }

  lemma SameBooksBalance(s: Server, t: Server)
    requires SameBooks(s, t) && Balanced(s) && MissesAddUp(s)
    ensures Balanced(t) && MissesAddUp(t)
  {
  }

  lemma SendBalances(cfg: Config, s: Server, me: nat, a: Action)
    requires me < |s.indexes| && (a.SendRdma? || a.SendDisk?) && Act(cfg, s, me, a).Some? && Balanced(s)
    requires MissesAddUp(s)
    ensures Balanced(Act(cfg, s, me, a).value) && MissesAddUp(Act(cfg, s, me, a).value)
  {
    hide RequestsOf, RequestsOfReads, RequestsOfDisk, HandleGet, HandleRead, HandleDisk, Offer;
    var q := if a.SendRdma? then s.rdmaReplies else s.diskReplies;
    RemoveReply(q);
    AppendReply(s.sent, q[0]);
  }

  lemma LandBalances(s: Server, i: nat, seen: Slot)
    requires i < |s.slotReads| && Balanced(s) && MissesAddUp(s)
    ensures var t := s.(slotReads := s.slotReads[i := s.slotReads[i].(landed := Some(seen))]);
            Balanced(t) && MissesAddUp(t)
  {
    hide RequestsOf, RequestsOfReads, RequestsOfDisk;
    LandRead(s.slotReads, i, seen);
  }

  lemma OtherBooks(cfg: Config, s: Server, me: nat, a: Action)
    requires me < |s.indexes| && Act(cfg, s, me, a).Some?
    requires !a.Get? && !a.Land? && !a.RdmaDone? && !a.DiskDone? && !a.SendRdma? && !a.SendDisk?
    ensures SameBooks(s, Act(cfg, s, me, a).value)
  {
    hide HandleGet, HandleRead, HandleDisk;
  }

  lemma ActBalances(cfg: Config, s: Server, me: nat, a: Action)
    requires me < |s.indexes| && Asynchronous(cfg) && Act(cfg, s, me, a).Some? && Balanced(s) && MissesAddUp(s)
    ensures Balanced(Act(cfg, s, me, a).value) && MissesAddUp(Act(cfg, s, me, a).value)
  {
    hide HandleGet, HandleRead, HandleDisk, Offer, Lose, Balanced, MissesAddUp;
    match a
    case Get(request, junk, eff) => GetBalances(cfg, s, me, request, junk, eff);
    case Land(i, seen) => LandBalances(s, i, seen);
    case RdmaDone(i, eff, victim) => ReadBalances(cfg, s, me, i, eff, victim);
    case DiskDone(i, eff) => DiskBalances(cfg, s, me, i, eff);
    case SendRdma => SendBalances(cfg, s, me, a);
    case SendDisk => SendBalances(cfg, s, me, a);
    case _ =>
      OtherBooks(cfg, s, me, a);
      SameBooksBalance(s, Act(cfg, s, me, a).value);
  }

  lemma FreshBalances(s: Server)
    requires Fresh(s)
    ensures Balanced(s) && MissesAddUp(s)
  {
  }

  /** A step changes one server, by one action. */
  lemma StepIsLocal(cfg: Config, s: State, step: Step, s': State)
    requires Next(cfg, s, step) == Some(s')
    ensures step.server < |s.servers| && step.server < |s.servers[step.server].indexes|
    ensures Act(cfg, s.servers[step.server], step.server, step.action).Some?
    ensures s'.servers ==
              s.servers[step.server := Act(cfg, s.servers[step.server], step.server, step.action).value]
  {
    hide Act;
  }

  ghost predicate AllBalanced(s: State) {
    forall i :: 0 <= i < |s.servers| ==> Balanced(s.servers[i]) && MissesAddUp(s.servers[i])
  }

  lemma StepBalances(cfg: Config, s: State, step: Step, s': State)
    requires Asynchronous(cfg) && Next(cfg, s, step) == Some(s') && AllBalanced(s)
    ensures AllBalanced(s')
  {
    hide Act, Balanced, MissesAddUp, Next;
    StepIsLocal(cfg, s, step, s');
    ActBalances(cfg, s.servers[step.server], step.server, step.action);
  }

  lemma {:induction false} RunBalances(cfg: Config, tr: seq<State>, k: nat)
    requires Run(cfg, tr) && Asynchronous(cfg) && k < |tr|
    ensures AllBalanced(tr[k])
  {
    if k > 0 {
      RunBalances(cfg, tr, k - 1);
      assert Follows(cfg, tr[k - 1], tr[k - 1 + 1]);
      var step :| Next(cfg, tr[k - 1], step) == Some(tr[k]);
      StepBalances(cfg, tr[k - 1], step, tr[k]);
    } else {
      forall i | 0 <= i < |tr[0].servers| ensures Balanced(tr[0].servers[i]) && MissesAddUp(tr[0].servers[i]) {
        FreshBalances(tr[0].servers[i]);
      }
    }
  }

  /** In every reachable state each received GET is answered, or waiting in exactly one place, once. */
  lemma EachGetIsAccountedForOnce(cfg: Config, tr: seq<State>, k: nat, i: nat)
    requires Run(cfg, tr) && Asynchronous(cfg) && k < |tr| && i < |tr[k].servers|
    ensures var s := tr[k].servers[i];
            && multiset(s.received) == RequestsOf(s.sent) + RequestsOfReads(s.slotReads) + RequestsOfDisk(s.diskReads)
                                       + RequestsOf(s.rdmaReplies) + RequestsOf(s.diskReplies)
            && s.misses == s.localDisk + s.remoteDisk + s.rdmaHits + |s.slotReads|
  {
    RunBalances(cfg, tr, k);
  }

  /** Once nothing is waiting, every GET received has had exactly one reply. */
  lemma QuietMeansAnswered(cfg: Config, tr: seq<State>, k: nat, i: nat)
    requires Run(cfg, tr) && Asynchronous(cfg) && k < |tr| && i < |tr[k].servers|
    requires var s := tr[k].servers[i];
             s.slotReads == [] && s.diskReads == [] && s.rdmaReplies == [] && s.diskReplies == []
    ensures multiset(tr[k].servers[i].received) == RequestsOf(tr[k].servers[i].sent)
  {
    RunBalances(cfg, tr, k);
  }

  // ---------------------------------------------------------------- synchronous RDMA breaks both

  /** One server that has key 1 on disk with value "a" and nothing else. */
  function Lone(): (s: Server) {
    Server(map[], [], [[Invalid, Invalid]], map[1 := "a"], [], [], [], [], [], [], [], 0, 0, 0, 0)
  }

  /** The lone server after the premature answer, before its disk fetch. */
  function LoneMissed(request: Request): (s: Server) {
    Lone().(received := [request], misses := 1, sent := [Reply(request, "?")], localDisk := 1)
  }

  lemma LoneMissedBooks(request: Request)
    ensures Accounted(LoneMissed(request)) == multiset{request}
  {
    AskedOne(Reply(request, "?"), ReplyRequest);
  }

  lemma LoneGet(cfg: Config, request: Request)
    requires !Asynchronous(cfg) && request.key == 1
    ensures HandleGet(cfg, Lone(), 0, request, "?", NOTHING)
            == FetchFromDisk(cfg, LoneMissed(request), 0, request, true, NOTHING)
    ensures FetchFromDisk(cfg, LoneMissed(request), 0, request, true, NOTHING).Some?
  {
    hide Offer;
    var s := Lone();
    assert FirstPeer(s.indexes, 0, 1, 0) == FirstPeer(s.indexes, 0, 1, 1) == None;
    assert s.received + [request] == [request] && s.sent + [Reply(request, "?")] == [Reply(request, "?")];
  }

  lemma FetchOnlyAppends(cfg: Config, s: Server, me: nat, request: Request, add: bool, eff: Effect)
    requires me < |s.indexes| && FetchFromDisk(cfg, s, me, request, add, eff).Some?
    ensures s.sent <= FetchFromDisk(cfg, s, me, request, add, eff).value.sent
  {
  }

  /** A GET for key 1 is first answered from the unread buffer, and its disk fetch still counts it again. */
  lemma LoneGetAnswersTwice(cfg: Config, request: Request)
    requires !Asynchronous(cfg) && request.key == 1
    ensures var t := HandleGet(cfg, Lone(), 0, request, "?", NOTHING);
            t.Some? && t.value.sent != [] && t.value.sent[0] == Reply(request, "?") && !Balanced(t.value)
  {
    LoneGet(cfg, request);
    LoneMissedBooks(request);
    FetchAccounts(cfg, LoneMissed(request), 0, request, true, NOTHING);
    FetchOnlyAppends(cfg, LoneMissed(request), 0, request, true, NOTHING);
    hide HandleGet, FetchFromDisk, RequestsOf, RequestsOfReads, RequestsOfDisk;
    var t := HandleGet(cfg, Lone(), 0, request, "?", NOTHING).value;
    assert Accounted(t)[request] == 2;
    assert t.received == [request] && multiset(t.received)[request] == 1;
  }

  /** The cluster of that one server, whose pair is all that has been stored. */
  function LoneState(s: Server): (r: State) { State([s], multiset{}, {(1, "a")}) }

  lemma LoneStep(cfg: Config, s: Server, a: Action, t: Server)
    requires |s.indexes| > 0 && Act(cfg, s, 0, a) == Some(t) && (a.Get? || a.DiskDone?)
    ensures Next(cfg, LoneState(s), Step(0, a)) == Some(LoneState(t))
  {
    hide Act;
    assert [s][0 := t] == [t];
  }

  /** So one step already replies with a value nobody stored, and replies once too often. */
  lemma SynchronousRdmaAnswersTwice(cfg: Config) returns (tr: seq<State>)
    requires !Asynchronous(cfg)
    ensures Run(cfg, tr) && |tr| == 2 && |tr[1].servers| == 1
    ensures !Balanced(tr[1].servers[0]) && !RepliesSafe(tr[1].servers[0].sent, tr[1].stored)
  {
    var request := Request(0, 0, 1);
    LoneGetAnswersTwice(cfg, request);
    LoneIsInitial();
    var get := Get(request, "?", NOTHING);
    hide HandleGet, HandleRead, HandleDisk, FetchFromDisk, Offer, Lose, Balanced, Next, Initial;
    var t := HandleGet(cfg, Lone(), 0, request, "?", NOTHING).value;
    assert Act(cfg, Lone(), 0, get) == Some(t);
    LoneStep(cfg, Lone(), get, t);
    tr := [LoneState(Lone()), LoneState(t)];
    assert Follows(cfg, tr[0], tr[1]);
  }

  lemma LoneIsInitial()
    ensures Initial(LoneState(Lone()))
  {
  }

  /** All runs reply with stored values and account for each GET once, if and only if reads are asynchronous. */
  lemma CorrectExactlyWhenAsynchronous(cfg: Config)
    ensures (forall tr: seq<State>, k: nat, i: nat :: Run(cfg, tr) && k < |tr| && i < |tr[k].servers| ==>
               Balanced(tr[k].servers[i]) && RepliesSafe(tr[k].servers[i].sent, tr[k].stored))
            <==> Asynchronous(cfg)
  {
    if Asynchronous(cfg) {
      forall tr: seq<State>, k: nat, i: nat | Run(cfg, tr) && k < |tr| && i < |tr[k].servers|
        ensures Balanced(tr[k].servers[i]) && RepliesSafe(tr[k].servers[i].sent, tr[k].stored)
      {
        RunBalances(cfg, tr, k);
        RunSafe(cfg, tr, k);
        assert ServerSafe(tr[k].servers[i], tr[k].stored);
      }
    } else {
      var tr := SynchronousRdmaAnswersTwice(cfg);
      hide Balanced, RepliesSafe, Run;
      assert !Balanced(tr[1].servers[0]);
    }
  }
}
