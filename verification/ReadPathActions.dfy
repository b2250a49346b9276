/**
 * What each action of the read path does, field by field: where a GET goes, what a read's or a disk read's
 * completion leaves behind, what an offered pair does to cache, slots and index, and that forwards are
 * neither lost nor doubled.
 */
module ReadPathActions {
  import opened Common
  import opened ReadPath
  import IndexReplication

  // ---------------------------------------------------------------- where a GET goes

  /** The copy of server p's index lists the key. */
  predicate Lists(s: Server, p: nat, key: nat) {
    p < |s.indexes| && key < |s.indexes[p]| && s.indexes[p][key].At?
  }

  /** The lowest-numbered other server whose index copy lists the key. */
  ghost predicate Source(s: Server, me: nat, key: nat, p: nat) {
    p != me && Lists(s, p, key) && forall q :: 0 <= q < p && q != me ==> !Lists(s, q, key)
  }

  lemma {:induction false} FirstPeerIsSource(s: Server, me: nat, key: nat, i: nat)
    requires forall q :: 0 <= q < i && q != me ==> !Lists(s, q, key)
    ensures match FirstPeer(s.indexes, me, key, i)
            case Some(p) => Source(s, me, key, p)
            case None => forall q: nat :: q != me ==> !Lists(s, q, key)
    decreases |s.indexes| - i
  {
    if i < |s.indexes| && !(i != me && Lists(s, i, key)) { FirstPeerIsSource(s, me, key, i + 1); }
  }

  /** The reply that goes out from an unread buffer when reads are synchronous. */
  function Early(cfg: Config, request: Request, junk: Value): (r: seq<Reply>) {
    if cfg.rdma && !cfg.rdmaAsync then [Reply(request, junk)] else []
  }

  /** A cached key is answered from the cache, and nothing else happens. */
  lemma CachedGet(cfg: Config, s: Server, me: nat, request: Request, junk: Value, eff: Effect)
    requires me < |s.indexes| && request.key in s.cache
    ensures Act(cfg, s, me, Get(request, junk, eff))
            == Some(s.(received := s.received + [request], sent := s.sent + [Reply(request, s.cache[request.key])]))
  {
  }

  /** A miss that an index copy can place is read from the first such peer, at the slot listed; not from disk. */
  lemma MissReadsTheSource(cfg: Config, s: Server, me: nat, request: Request, junk: Value, eff: Effect, p: nat)
    requires me < |s.indexes| && request.key !in s.cache && cfg.rdma && Source(s, me, request.key, p)
    ensures Act(cfg, s, me, Get(request, junk, eff))
            == Some(s.(received := s.received + [request], misses := s.misses + 1,
                       sent := s.sent + Early(cfg, request, junk),
                       slotReads := s.slotReads + [Read(request, p, s.indexes[p][request.key].slot, None)]))
  {
    FirstPeerIsSource(s, me, request.key, 0);
    assert s.sent + [] == s.sent;
  }

  /** A miss that no index copy can place, or without one-sided RDMA, goes to the local disk. */
  lemma MissGoesToDisk(cfg: Config, s: Server, me: nat, request: Request, junk: Value, eff: Effect)
    requires me < |s.indexes| && request.key !in s.cache
    requires cfg.rdma ==> forall p: nat :: !Source(s, me, request.key, p)
    ensures var after := Act(cfg, s, me, Get(request, junk, eff));
            var missed := s.(received := s.received + [request], misses := s.misses + 1, localDisk := s.localDisk + 1,
                             sent := s.sent + Early(cfg, request, junk));
            if cfg.diskAsync then
              after == Some(missed.(diskReads := s.diskReads + [DiskRead(request, true)]))
            else if request.key !in s.db then after == None
            else
              && after.Some?
              && after.value.sent == missed.sent + [Reply(request, s.db[request.key])]
              && if cfg.pollute then
                   Stored(missed, me, request.key, s.db[request.key], eff, after.value.(sent := missed.sent))
                 else after.value == missed.(sent := after.value.sent)
  {
    FirstPeerIsSource(s, me, request.key, 0);
    hide FirstPeer, Stored, Offer;
    assert s.sent + [] == s.sent;
    var missed := s.(received := s.received + [request], misses := s.misses + 1, localDisk := s.localDisk + 1,
                     sent := s.sent + Early(cfg, request, junk));
    FetchStores(cfg, missed, me, request, true, eff);
  }

  // ---------------------------------------------------------------- what an offered pair leaves behind

  /** The pair is admitted: the cache gives it a slot, and the index has an entry for it. */
  predicate Admitted(s: Server, me: nat, key: nat, eff: Effect)
    requires me < |s.indexes|
  {
    eff.slot.Some? && eff.slot.value < |s.slots| && key < |s.indexes[me]|
  }

  /** From s to t a pair has been offered: an admitted one is in the cache, in its slot and in the own index. */
  ghost predicate Stored(s: Server, me: nat, key: nat, value: Value, eff: Effect, t: Server)
    requires me < |s.indexes|
  {
    var admitted := Admitted(s, me, key, eff);
    && SameBooks(s, t) && t.forwards == s.forwards
    && (forall k :: k in t.cache <==> k !in eff.evicted && (k in s.cache || (admitted && k == key)))
    && (forall k :: k in t.cache ==> t.cache[k] == if admitted && k == key then value else s.cache[k])
    && |t.slots| == |s.slots|
    && (forall j :: 0 <= j < |s.slots| ==>
          t.slots[j] == if admitted && j == eff.slot.value then Holding(key, value) else s.slots[j])
    && |t.indexes| == |s.indexes|
    && (forall p :: 0 <= p < |s.indexes| && p != me ==> t.indexes[p] == s.indexes[p])
    && |t.indexes[me]| == |s.indexes[me]|
    && (forall k :: 0 <= k < |s.indexes[me]| ==>
          t.indexes[me][k] == if k in eff.evicted then IndexReplication.Invalid
                              else if admitted && k == key then IndexReplication.At(eff.slot.value)
                              else s.indexes[me][k])
    && t.db.Keys == s.db.Keys + (if eff.toDb then {key} else {})
    && (forall k :: k in t.db ==> t.db[k] == if eff.toDb && k == key then value else s.db[k])
  }

  lemma OfferStores(s: Server, me: nat, key: nat, value: Value, eff: Effect)
    requires me < |s.indexes|
    ensures Stored(s, me, key, value, eff, Offer(s, me, key, value, eff))
  {
  }

  /** Put requests and forwarded pairs are offered to the cache, and change nothing else. */
  lemma PutStores(cfg: Config, s: Server, me: nat, key: nat, value: Value, eff: Effect, f: Forward)
    requires me < |s.indexes|
    ensures var t := Act(cfg, s, me, Put(key, value, eff)); t.Some? && Stored(s, me, key, value, eff, t.value)
    ensures var t := Act(cfg, s, me, ReceiveForward(f, eff)); t.Some? && Stored(s, me, f.key, f.value, eff, t.value)
  {
    OfferStores(s, me, key, value, eff);
    OfferStores(s, me, f.key, f.value, eff);
    hide Stored, Offer;
  }

  /** Deleting or evicting keys takes them, and no others, out of the cache and the own index. */
  lemma LosesExactly(cfg: Config, s: Server, me: nat, keys: set<nat>, key: nat)
    requires me < |s.indexes|
    ensures Act(cfg, s, me, Delete(key)) == Act(cfg, s, me, Evict({key}))
    ensures var t := Act(cfg, s, me, Evict(keys));
            && t.Some? && t.value == s.(cache := t.value.cache, indexes := t.value.indexes)
            && (forall k :: k in t.value.cache <==> k in s.cache && k !in keys)
            && (forall k :: k in t.value.cache ==> t.value.cache[k] == s.cache[k])
            && |t.value.indexes| == |s.indexes| && |t.value.indexes[me]| == |s.indexes[me]|
            && (forall p :: 0 <= p < |s.indexes| && p != me ==> t.value.indexes[p] == s.indexes[p])
            && forall k :: 0 <= k < |s.indexes[me]| ==>
                 t.value.indexes[me][k] == if k in keys then IndexReplication.Invalid else s.indexes[me][k]
  {
  }

  // ---------------------------------------------------------------- completions

  lemma FetchStores(cfg: Config, s: Server, me: nat, request: Request, add: bool, eff: Effect)
    requires me < |s.indexes|
    ensures var after := FetchFromDisk(cfg, s, me, request, add, eff);
            if cfg.diskAsync then after == Some(s.(diskReads := s.diskReads + [DiskRead(request, add)]))
            else if request.key !in s.db then after == None
            else
              && after.Some? && after.value.sent == s.sent + [Reply(request, s.db[request.key])]
              && if cfg.pollute && add then
                   Stored(s, me, request.key, s.db[request.key], eff, after.value.(sent := s.sent))
                 else after.value == s.(sent := after.value.sent)
  {
    hide Offer;
    if !cfg.diskAsync && request.key in s.db {
      OfferStores(s, me, request.key, s.db[request.key], eff);
      OfferBooks(s, me, request.key, s.db[request.key], eff);
    }
  }

  /**
   * A read that found its key queues the value read.  The pair is offered to the cache unless the policy is
   * static; a victim is forwarded under N-chance only.
   */
  lemma HitQueuesTheValue(cfg: Config, s: Server, me: nat, i: nat, eff: Effect, victim: Option<Forward>)
    requires me < |s.indexes| && i < |s.slotReads| && Hit(s.slotReads[i])
    requires Act(cfg, s, me, RdmaDone(i, eff, victim)).Some?
    ensures var t, read := Act(cfg, s, me, RdmaDone(i, eff, victim)).value, s.slotReads[i];
            var value := read.landed.value.value;
            var rest := s.(slotReads := RemoveAt(s.slotReads, i));
            var before := t.(rdmaReplies := s.rdmaReplies, rdmaHits := s.rdmaHits, forwards := s.forwards);
            && t.rdmaReplies == s.rdmaReplies + [Reply(read.request, value)] && t.rdmaHits == s.rdmaHits + 1
            && t.forwards == s.forwards + (if cfg.policy.NChance? && victim.Some? then [victim.value] else [])
            && if cfg.policy.Static? then before == rest
               else Stored(rest, me, read.request.key, value, eff, before)
  {
    var read, rest := s.slotReads[i], s.(slotReads := RemoveAt(s.slotReads, i));
    OfferStores(rest, me, read.request.key, read.landed.value.value, eff);
    OfferBooks(rest, me, read.request.key, read.landed.value.value, eff);
    hide Offer, MayForward;
    assert s.forwards + [] == s.forwards;
  }

  /** A forwarded pair goes to the next server round the ring, and is one this server held or was offered. */
  lemma VictimGoesToTheNextServer(cfg: Config, s: Server, me: nat, i: nat, eff: Effect, f: Forward)
    requires me < |s.indexes| && i < |s.slotReads| && Hit(s.slotReads[i]) && cfg.policy.NChance?
    ensures Act(cfg, s, me, RdmaDone(i, eff, Some(f))).Some? ==>
              f.target == (me + 1) % |s.indexes|
              && ((f.key in s.cache && s.cache[f.key] == f.value)
                  || (f.key == s.slotReads[i].request.key && f.value == s.slotReads[i].landed.value.value))
  {
    hide Offer;
  }

  /**
   * A read that found an empty slot or another key is counted and fetched from the disk as a fresh request;
   * a key found puts the own entry for the key asked for into every other row.
   */
  lemma MissFetchesAgain(cfg: Config, s: Server, me: nat, i: nat, eff: Effect, victim: Option<Forward>)
    requires me < |s.indexes| && i < |s.slotReads| && s.slotReads[i].landed.Some? && !Hit(s.slotReads[i])
    requires Act(cfg, s, me, RdmaDone(i, eff, victim)).Some?
    ensures var t, read := Act(cfg, s, me, RdmaDone(i, eff, victim)).value, s.slotReads[i];
            var slot := read.landed.value;
            && t == s.(slotReads := RemoveAt(s.slotReads, i), remoteDisk := s.remoteDisk + 1, indexes := t.indexes,
                       diskReads := t.diskReads, sent := t.sent)
            && (if cfg.diskAsync then t.diskReads == s.diskReads + [DiskRead(read.request, false)] && t.sent == s.sent
                else read.request.key in s.db && t.diskReads == s.diskReads
                     && t.sent == s.sent + [Reply(read.request, s.db[read.request.key])])
            && |t.indexes| == |s.indexes|
            && forall p :: 0 <= p < |s.indexes| ==>
                 if p == me || slot.Empty? then t.indexes[p] == s.indexes[p]
                 else slot.key < |s.indexes[p]| && read.request.key < |s.indexes[me]|
                      && t.indexes[p] == s.indexes[p][slot.key := s.indexes[me][read.request.key]]
  {
    hide FetchFromDisk;
    var read, slot := s.slotReads[i], s.slotReads[i].landed.value;
    var counted := s.(slotReads := RemoveAt(s.slotReads, i), remoteDisk := s.remoteDisk + 1);
    var updated :=
      if slot.Empty? then counted
      else counted.(indexes := IndexReplication.AfterLocalUpdate(s.indexes, me, read.request.key, slot.key));
    FetchStores(cfg, updated, me, read.request, false, eff);
  }

  /** A finished disk read queues the database's value; the pair is offered where the rules admit it. */
  lemma DiskDoneQueuesTheValue(cfg: Config, s: Server, me: nat, i: nat, eff: Effect)
    requires me < |s.indexes|
    ensures var after := Act(cfg, s, me, DiskDone(i, eff));
            if i >= |s.diskReads| || s.diskReads[i].request.key !in s.db then after == None
            else
              var d := s.diskReads[i];
              var value := s.db[d.request.key];
              var rest := s.(diskReads := RemoveAt(s.diskReads, i));
              && after.Some? && after.value.diskReplies == s.diskReplies + [Reply(d.request, value)]
              && if d.addToCache && (cfg.pollute || cfg.keyMin <= d.request.key < cfg.keyMax) then
                   Stored(rest, me, d.request.key, value, eff, after.value.(diskReplies := s.diskReplies))
                 else after.value == rest.(diskReplies := after.value.diskReplies)
  {
    hide Offer;
    if i < |s.diskReads| && s.diskReads[i].request.key in s.db {
      var d, rest := s.diskReads[i], s.(diskReads := RemoveAt(s.diskReads, i));
      OfferStores(rest, me, d.request.key, s.db[d.request.key], eff);
      OfferBooks(rest, me, d.request.key, s.db[d.request.key], eff);
    }
  }

  // ---------------------------------------------------------------- between servers

  /** A read lands with what the peer's slot holds at that moment, and lands once. */
  lemma LandsThePeersSlot(cfg: Config, s: State, me: nat, i: nat, seen: Slot, s': State)
    requires Next(cfg, s, Step(me, Action.Land(i, seen))) == Some(s')
    ensures me < |s.servers| && i < |s.servers[me].slotReads|
    ensures var server, read := s.servers[me], s.servers[me].slotReads[i];
            && read.landed.None? && read.peer < |s.servers| && read.slot < |s.servers[read.peer].slots|
            && s.servers[read.peer].slots[read.slot] == seen
            && var after := server.(slotReads := server.slotReads[i := read.(landed := Some(seen))]);
               s' == s.(servers := s.servers[me := after])
  {
  }

  /** A peer's index copy may become any row at any time; the own row only changes with the cache. */
  lemma CopiesArrive(cfg: Config, s: Server, me: nat, peer: nat, row: seq<IndexReplication.Index>)
    requires me < |s.indexes|
    ensures var after := Act(cfg, s, me, IndexArrives(peer, row));
            if peer >= |s.indexes| || peer == me then after == None
            else
              && after.Some? && after.value == s.(indexes := after.value.indexes)
              && |after.value.indexes| == |s.indexes|
              && forall p :: 0 <= p < |s.indexes| ==> after.value.indexes[p] == if p == peer then row else s.indexes[p]
  {
  }

  /** What a step brings into being as a forward, and what it takes in. */
  ghost function Created(cfg: Config, s: Server, a: Action): (r: multiset<Forward>) {
    if a.RdmaDone? && cfg.policy.NChance? && a.victim.Some? && a.i < |s.slotReads| && Hit(s.slotReads[a.i])
    then multiset{a.victim.value} else multiset{}
  }

  ghost function TakenIn(a: Action): (r: multiset<Forward>) {
    if a.ReceiveForward? then multiset{a.message} else multiset{}
  }

  lemma ActForwards(cfg: Config, s: Server, me: nat, a: Action)
    requires me < |s.indexes| && Act(cfg, s, me, a).Some? && !a.SendForward?
    ensures multiset(Act(cfg, s, me, a).value.forwards) == multiset(s.forwards) + Created(cfg, s, a)
  {
    hide Offer, FetchFromDisk, Hit, HandleGet, HandleRead, HandleDisk;
    match a {
      case Get(request, junk, eff) => GetForwards(cfg, s, me, request, junk, eff);
      case RdmaDone(i, eff, victim) =>
        if Hit(s.slotReads[i]) {
          HitQueuesTheValue(cfg, s, me, i, eff, victim);
        } else {
          MissFetchesAgain(cfg, s, me, i, eff, victim);
        }
      case DiskDone(i, eff) =>
        hide Stored;
        DiskForwards(cfg, s, me, i, eff);
      case Put(key, value, eff) => OfferStores(s, me, key, value, eff);
      case ReceiveForward(f, eff) => OfferStores(s, me, f.key, f.value, eff);
      case _ =>
    }
  }

  lemma GetForwards(cfg: Config, s: Server, me: nat, request: Request, junk: Value, eff: Effect)
    requires me < |s.indexes| && HandleGet(cfg, s, me, request, junk, eff).Some?
    ensures HandleGet(cfg, s, me, request, junk, eff).value.forwards == s.forwards
  {
  }

  lemma DiskForwards(cfg: Config, s: Server, me: nat, i: nat, eff: Effect)
    requires me < |s.indexes| && i < |s.diskReads| && HandleDisk(cfg, s, me, i, eff).Some?
    ensures HandleDisk(cfg, s, me, i, eff).value.forwards == s.forwards
  {
  }

  /** What a step moves from the server's queue into the net. */
  ghost function MovedOut(s: Server, a: Action): (r: multiset<Forward>) {
    if a.SendForward? && s.forwards != [] then multiset{s.forwards[0]} else multiset{}
  }

  lemma NetChanges(cfg: Config, s: State, step: Step, s': State)
    requires Next(cfg, s, step) == Some(s') && step.server < |s.servers|
    ensures s'.net + TakenIn(step.action) == s.net + MovedOut(s.servers[step.server], step.action)
    ensures step.action.ReceiveForward? ==> step.action.message.target == step.server
  {
    hide HandleGet, HandleRead, HandleDisk, Offer;
  }

  lemma QueueChanges(cfg: Config, s: Server, me: nat, a: Action)
    requires me < |s.indexes| && Act(cfg, s, me, a).Some?
    ensures multiset(Act(cfg, s, me, a).value.forwards) + MovedOut(s, a) == multiset(s.forwards) + Created(cfg, s, a)
  {
    if a.SendForward? {
      assert s.forwards == [s.forwards[0]] + s.forwards[1..];
    } else {
      hide Act, Created;
      ActForwards(cfg, s, me, a);
    }
  }

  lemma Balance(queue: multiset<Forward>, queue': multiset<Forward>, net: multiset<Forward>, net': multiset<Forward>,
                created: multiset<Forward>, moved: multiset<Forward>, taken: multiset<Forward>)
    requires queue' + moved == queue + created && net' + taken == net + moved
    ensures queue' + net' + taken == queue + net + created
  {
    forall f ensures (queue' + net' + taken)[f] == (queue + net + created)[f] {
      assert (queue' + moved)[f] == (queue + created)[f] && (net' + taken)[f] == (net + moved)[f];
    }
  }

  /** No step loses or doubles a forward: queued and in transit change by what is created and taken in. */
  lemma ForwardsAreConserved(cfg: Config, s: State, step: Step, s': State)
    requires Next(cfg, s, step) == Some(s')
    ensures step.server < |s.servers| == |s'.servers|
    ensures forall i :: 0 <= i < |s.servers| && i != step.server ==> s'.servers[i] == s.servers[i]
    ensures multiset(s'.servers[step.server].forwards) + s'.net + TakenIn(step.action)
            == multiset(s.servers[step.server].forwards) + s.net + Created(cfg, s.servers[step.server], step.action)
    ensures step.action.ReceiveForward? ==> step.action.message.target == step.server
  {
    hide Act, Next, Created, TakenIn, MovedOut;
    StepIsLocal(cfg, s, step, s');
    NetChanges(cfg, s, step, s');
    var server, a := s.servers[step.server], step.action;
    QueueChanges(cfg, server, step.server, a);
    Balance(multiset(server.forwards), multiset(s'.servers[step.server].forwards), s.net, s'.net,
            Created(cfg, server, a), MovedOut(server, a), TakenIn(a));
  }
}
