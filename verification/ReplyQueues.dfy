/** The server object's outgoing queues: filled by callbacks, emptied by execute_pending_operations. */
module ReplyQueues {
  import opened Common
  import ReadPath

  /** A queued reply: destination, whether its response type is OK, and the value. */
  datatype Response = Response(index: nat, port: nat, ok: bool, value: string)

  datatype SingletonPut = SingletonPut(index: nat, port: nat, key: string, value: string, singleton: bool,
                                       forwardCount: nat)

  datatype Deletion = Deletion(index: nat, port: nat, key: string)

  /** What goes out on the wire, with its destination. */
  datatype Packet =
    | GetResponse(index: nat, port: nat, value: string)
    | SingletonPutRequest(request: SingletonPut)
    | DeleteRequest(request': Deletion)

  function Responses(q: seq<Response>): (r: seq<Packet>)
    ensures |r| == |q|
  {
    seq(|q|, i requires 0 <= i < |q| => GetResponse(q[i].index, q[i].port, q[i].value))
  }

  function Forwards(q: seq<SingletonPut>): (r: seq<Packet>) {
    seq(|q|, i requires 0 <= i < |q| => SingletonPutRequest(q[i]))
  }

  function Deletions(q: seq<Deletion>): (r: seq<Packet>) {
    seq(|q|, i requires 0 <= i < |q| => DeleteRequest(q[i]))
  }

  predicate AllOk(q: seq<Response>) { forall i :: 0 <= i < |q| ==> q[i].ok }

  /** The packets that queues with these contents stand for. */
  function Packets(rdma: seq<Response>, disk: seq<Response>, puts: seq<SingletonPut>, deletions: seq<Deletion>)
    : (r: multiset<Packet>)
  {
    multiset(Responses(rdma)) + multiset(Responses(disk)) + multiset(Forwards(puts)) + multiset(Deletions(deletions))
  }

  ghost predicate Suffix<T>(q: seq<T>, all: seq<T>) {
    |q| <= |all| && all[|all| - |q|..] == q
  }

  lemma SuffixAppend<T>(q: seq<T>, all: seq<T>, x: T)
    requires Suffix(q, all)
    ensures Suffix(q + [x], all + [x])
  {
  }

  lemma NothingQueued(rdma: seq<Response>, disk: seq<Response>, puts: seq<SingletonPut>, dels: seq<Deletion>)
    ensures Suffix([], rdma) && Suffix([], disk) && Suffix([], puts) && Suffix([], dels)
  {
  }

  lemma PacketsWithRdma(rdma: seq<Response>, disk: seq<Response>, puts: seq<SingletonPut>, dels: seq<Deletion>,
                        r: Response)
    ensures Packets(rdma + [r], disk, puts, dels)
            == Packets(rdma, disk, puts, dels) + multiset{GetResponse(r.index, r.port, r.value)}
  {
    assert Responses(rdma + [r]) == Responses(rdma) + [GetResponse(r.index, r.port, r.value)];
    hide Responses, Forwards, Deletions;
  }

  lemma PacketsWithDisk(rdma: seq<Response>, disk: seq<Response>, puts: seq<SingletonPut>, dels: seq<Deletion>,
                        r: Response)
    ensures Packets(rdma, disk + [r], puts, dels)
            == Packets(rdma, disk, puts, dels) + multiset{GetResponse(r.index, r.port, r.value)}
  {
    assert Responses(disk + [r]) == Responses(disk) + [GetResponse(r.index, r.port, r.value)];
    hide Responses, Forwards, Deletions;
  }

  lemma PacketsWithPut(rdma: seq<Response>, disk: seq<Response>, puts: seq<SingletonPut>, dels: seq<Deletion>,
                       r: SingletonPut)
    ensures Packets(rdma, disk, puts + [r], dels) == Packets(rdma, disk, puts, dels) + multiset{SingletonPutRequest(r)}
  {
    assert Forwards(puts + [r]) == Forwards(puts) + [SingletonPutRequest(r)];
    hide Responses, Forwards, Deletions;
  }

  lemma PacketsWithDeletion(rdma: seq<Response>, disk: seq<Response>, puts: seq<SingletonPut>, dels: seq<Deletion>,
                            r: Deletion)
    ensures Packets(rdma, disk, puts, dels + [r]) == Packets(rdma, disk, puts, dels) + multiset{DeleteRequest(r)}
  {
    assert Deletions(dels + [r]) == Deletions(dels) + [DeleteRequest(r)];
    hide Responses, Forwards, Deletions;
  }

  /** Everything asked for is out or in one of the queues, once. */
  ghost predicate Accounted(out: seq<Packet>, rdma: seq<Response>, disk: seq<Response>, puts: seq<SingletonPut>,
                            dels: seq<Deletion>, asked: multiset<Packet>)
  {
    multiset(out) + Packets(rdma, disk, puts, dels) == asked
  }

  /** Everything asked for is out, once, except these replies. */
  ghost predicate AllSentBut(kept: seq<Response>, out: seq<Packet>, asked: multiset<Packet>) {
    multiset(out) + multiset(Responses(kept)) == asked
  }

  /** What one round of the loop sends, in its order. */
  function Round(async: bool, rdma: seq<Response>, disk: seq<Response>, puts: seq<SingletonPut>, dels: seq<Deletion>)
    : (r: seq<Packet>)
  {
    Responses(rdma) + (if async then Responses(disk) else []) + Forwards(puts) + Deletions(dels)
  }

  /** A round takes out of the queues what it sends, and leaves only disk replies that are not polled. */
  lemma RoundAccounts(out: seq<Packet>, async: bool, rdma: seq<Response>, disk: seq<Response>, puts: seq<SingletonPut>,
                      dels: seq<Deletion>, asked: multiset<Packet>)
    requires Accounted(out, rdma, disk, puts, dels, asked)
    ensures var after := out + Round(async, rdma, disk, puts, dels);
            && Accounted(after, [], if async then [] else disk, [], [], asked)
            && AllSentBut(if async then [] else disk, after, asked)
  {
    assert Responses([]) == [] && Forwards([]) == [] && Deletions([]) == [];
    hide Responses, Forwards, Deletions;
  }

  lemma RoundDone(after: seq<Packet>, out: seq<Packet>, async: bool, rdma: seq<Response>, disk: seq<Response>,
                  puts: seq<SingletonPut>, dels: seq<Deletion>, asked: multiset<Packet>)
    requires Accounted(out, rdma, disk, puts, dels, asked)
    requires after == (if async then out + Responses(rdma) + Responses(disk) else out + Responses(rdma))
                      + Forwards(puts) + Deletions(dels)
    ensures after == out + Round(async, rdma, disk, puts, dels)
    ensures Accounted(after, [], if async then [] else disk, [], [], asked)
    ensures AllSentBut(if async then [] else disk, after, asked)
  {
    hide Accounted, Responses, Forwards, Deletions;
    assert after == out + Round(async, rdma, disk, puts, dels);
    RoundAccounts(out, async, rdma, disk, puts, dels, asked);
  }

  class Server {
    /** block_db.async: whether the disk's reply queue is polled. */
    const async: bool
    var rdmaReplies: seq<Response>
    var diskReplies: seq<Response>
    var singletonPuts: seq<SingletonPut>
    var deletions: seq<Deletion>
    var remoteRdmaCacheHits: nat
    var asyncDiskRequests: nat
    /** Everything sent so far, oldest first. */
    var outbox: seq<Packet>
    /** Everything ever appended to each queue. */
    ghost var rdmaAsked: seq<Response>
    ghost var diskAsked: seq<Response>
    ghost var putsAsked: seq<SingletonPut>
    ghost var deletesAsked: seq<Deletion>

    /** Everything ever appended. */
    ghost function Asked(): multiset<Packet>
      reads this
    {
      Packets(rdmaAsked, diskAsked, putsAsked, deletesAsked)
    }

    /**
     * Whatever has been appended is sent or still queued, once; the queues hold the latest, in order; the
     * statistics count all of it; and a disk reply leaves only where its queue is polled.
     */
    ghost predicate Valid()
      reads this
    {
      && Accounted(outbox, rdmaReplies, diskReplies, singletonPuts, deletions, Asked())
      && Suffix(rdmaReplies, rdmaAsked) && Suffix(diskReplies, diskAsked)
      && Suffix(singletonPuts, putsAsked) && Suffix(deletions, deletesAsked)
      && remoteRdmaCacheHits == |rdmaAsked| && asyncDiskRequests == |diskAsked|
      && (!async ==> diskReplies == diskAsked)
    }

    constructor (async: bool)
      ensures Valid() && this.async == async && outbox == [] && Asked() == multiset{}
    {
      this.async := async;
      rdmaReplies, diskReplies, singletonPuts, deletions := [], [], [], [];
      remoteRdmaCacheHits, asyncDiskRequests, outbox := 0, 0, [];
      rdmaAsked, diskAsked, putsAsked, deletesAsked := [], [], [], [];
    }

    method AppendToRdmaGetResponseQueue(r: Response)
      requires Valid()
      modifies this`rdmaReplies, this`remoteRdmaCacheHits, this`rdmaAsked
      ensures Valid() && rdmaAsked == old(rdmaAsked) + [r]
      ensures rdmaReplies == old(rdmaReplies) + [r] && remoteRdmaCacheHits == old(remoteRdmaCacheHits) + 1
    {
      hide Packets, Suffix;
      PacketsWithRdma(rdmaReplies, diskReplies, singletonPuts, deletions, r);
      PacketsWithRdma(rdmaAsked, diskAsked, putsAsked, deletesAsked, r);
      SuffixAppend(rdmaReplies, rdmaAsked, r);
      rdmaReplies := rdmaReplies + [r];
      remoteRdmaCacheHits := remoteRdmaCacheHits + 1;
      rdmaAsked := rdmaAsked + [r];
    }

    method AppendToBlockCacheRequestQueue(r: Response)
      requires Valid()
      modifies this`diskReplies, this`asyncDiskRequests, this`diskAsked
      ensures Valid() && diskAsked == old(diskAsked) + [r]
      ensures diskReplies == old(diskReplies) + [r] && asyncDiskRequests == old(asyncDiskRequests) + 1
    {
      hide Packets, Suffix;
      PacketsWithDisk(rdmaReplies, diskReplies, singletonPuts, deletions, r);
      PacketsWithDisk(rdmaAsked, diskAsked, putsAsked, deletesAsked, r);
      SuffixAppend(diskReplies, diskAsked, r);
      diskReplies := diskReplies + [r];
      asyncDiskRequests := asyncDiskRequests + 1;
      diskAsked := diskAsked + [r];
    }

    method AppendSingletonPutRequest(r: SingletonPut)
      requires Valid()
      modifies this`singletonPuts, this`putsAsked
      ensures Valid() && putsAsked == old(putsAsked) + [r] && singletonPuts == old(singletonPuts) + [r]
    {
      hide Packets, Suffix;
      PacketsWithPut(rdmaReplies, diskReplies, singletonPuts, deletions, r);
      PacketsWithPut(rdmaAsked, diskAsked, putsAsked, deletesAsked, r);
      SuffixAppend(singletonPuts, putsAsked, r);
      singletonPuts := singletonPuts + [r];
      putsAsked := putsAsked + [r];
    }

    method AppendDeleteRequest(r: Deletion)
      requires Valid()
      modifies this`deletions, this`deletesAsked
      ensures Valid() && deletesAsked == old(deletesAsked) + [r] && deletions == old(deletions) + [r]
    {
      hide Packets, Suffix;
      PacketsWithDeletion(rdmaReplies, diskReplies, singletonPuts, deletions, r);
      PacketsWithDeletion(rdmaAsked, diskAsked, putsAsked, deletesAsked, r);
      SuffixAppend(deletions, deletesAsked, r);
      deletions := deletions + [r];
      deletesAsked := deletesAsked + [r];
    }

    /** Sends a queue of replies in order; a response that is not OK panics. */
    method SendResponses(q: seq<Response>) returns (panicked: bool)
      modifies this`outbox
      ensures panicked <==> !AllOk(q)
      ensures old(outbox) <= outbox
      ensures !panicked ==> outbox == old(outbox) + Responses(q)
    {
      var i := 0;
      while i < |q|
        invariant 0 <= i <= |q| && AllOk(q[..i])
        invariant outbox == old(outbox) + Responses(q[..i])
      {
        if !q[i].ok {
          return true;
        }
        assert Responses(q[..i + 1]) == Responses(q[..i]) + [GetResponse(q[i].index, q[i].port, q[i].value)];
        assert q[..i + 1] == q[..i] + [q[i]];
        outbox := outbox + [GetResponse(q[i].index, q[i].port, q[i].value)];
        i := i + 1;
      }
      assert q[..|q|] == q;
      panicked := false;
    }

    method SendSingletonPuts()
      modifies this`singletonPuts, this`outbox
      ensures singletonPuts == [] && outbox == old(outbox) + Forwards(old(singletonPuts))
    {
      ghost var puts := singletonPuts;
      while singletonPuts != []
        invariant |singletonPuts| <= |puts| && singletonPuts == puts[|puts| - |singletonPuts|..]
        invariant outbox == old(outbox) + Forwards(puts[..|puts| - |singletonPuts|])
        decreases |singletonPuts|
      {
        ghost var k := |puts| - |singletonPuts|;
        assert Forwards(puts[..k + 1]) == Forwards(puts[..k]) + [SingletonPutRequest(puts[k])];
        outbox := outbox + [SingletonPutRequest(singletonPuts[0])];
        singletonPuts := singletonPuts[1..];
      }
      assert puts[..|puts|] == puts;
    }

    method SendDeletions()
      modifies this`deletions, this`outbox
      ensures deletions == [] && outbox == old(outbox) + Deletions(old(deletions))
    {
      ghost var dels := deletions;
      while deletions != []
        invariant |deletions| <= |dels| && deletions == dels[|dels| - |deletions|..]
        invariant outbox == old(outbox) + Deletions(dels[..|dels| - |deletions|])
        decreases |deletions|
      {
        ghost var k := |dels| - |deletions|;
        assert Deletions(dels[..k + 1]) == Deletions(dels[..k]) + [DeleteRequest(dels[k])];
        outbox := outbox + [DeleteRequest(deletions[0])];
        deletions := deletions[1..];
      }
      assert dels[..|dels|] == dels;
    }

    /**
     * execute_pending_operations: empties the queues in a fixed order, each first in, first out.  It
     * panics exactly when a polled reply is not OK; otherwise everything ever appended has now been sent
     * exactly once, except disk replies where their queue is not polled: none of those has.
     */
    method ExecutePendingOperations() returns (panicked: bool)
      requires Valid()
      modifies this`rdmaReplies, this`diskReplies, this`singletonPuts, this`deletions, this`outbox
      ensures panicked <==> !AllOk(old(rdmaReplies)) || (async && !AllOk(old(diskReplies)))
      ensures !panicked ==> rdmaReplies == [] && singletonPuts == [] && deletions == []
      ensures !panicked ==> diskReplies == if async then [] else old(diskReplies)
      ensures !panicked ==>
                outbox == old(outbox)
                          + Round(async, old(rdmaReplies), old(diskReplies), old(singletonPuts), old(deletions))
      ensures !panicked ==> Valid()
      ensures !panicked ==> AllSentBut(if async then [] else diskAsked, outbox, Asked())
    {
      hide Packets, Responses, Forwards, Deletions, Suffix, AllOk, Accounted, Round, AllSentBut;
      var q := rdmaReplies;
      rdmaReplies := [];
      panicked := SendResponses(q);
      if panicked {
        return;
      }
      if async {
        q := diskReplies;
        diskReplies := [];
        panicked := SendResponses(q);
        if panicked {
          return;
        }
      }
      SendSingletonPuts();
      SendDeletions();
      RoundDone(outbox, old(outbox), async, old(rdmaReplies), old(diskReplies), old(singletonPuts), old(deletions),
                Asked());
      NothingQueued(rdmaAsked, diskAsked, putsAsked, deletesAsked);
    }
  }

  // ---------------------------------------------------------------- the queues of the read path

  /** A reply of the read path as the server object queues it. */
  function Wire(q: seq<ReadPath.Reply>): (r: seq<Response>)
    ensures |r| == |q| && AllOk(r)
  {
    seq(|q|, i requires 0 <= i < |q| => Response(q[i].request.client, q[i].request.port, true, q[i].value))
  }

  /** The read path's sends in the order of the loop: RDMA replies to the last, then polled disk replies. */
  function SendAll(cfg: ReadPath.Config, s: ReadPath.Server, me: nat): (r: ReadPath.Server)
    requires me < |s.indexes|
    decreases |s.rdmaReplies| + |s.diskReplies|
  {
    if s.rdmaReplies != [] then SendAll(cfg, ReadPath.Act(cfg, s, me, ReadPath.SendRdma).value, me)
    else if cfg.blockDbAsync && s.diskReplies != [] then
      SendAll(cfg, ReadPath.Act(cfg, s, me, ReadPath.SendDisk).value, me)
    else s
  }

  lemma SendOnce(cfg: ReadPath.Config, s: ReadPath.Server, me: nat)
    requires me < |s.indexes|
    ensures s.rdmaReplies != [] ==>
              ReadPath.Act(cfg, s, me, ReadPath.SendRdma)
              == Some(s.(rdmaReplies := s.rdmaReplies[1..], sent := s.sent + [s.rdmaReplies[0]]))
    ensures cfg.blockDbAsync && s.diskReplies != [] ==>
              ReadPath.Act(cfg, s, me, ReadPath.SendDisk)
              == Some(s.(diskReplies := s.diskReplies[1..], sent := s.sent + [s.diskReplies[0]]))
  {
  }

  lemma HeadMoves<T>(sent: seq<T>, q: seq<T>, rest: seq<T>)
    ensures q != [] ==> sent + [q[0]] + q[1..] + rest == sent + q + rest
    ensures q == [] ==> sent + q + rest == sent + rest
    ensures sent + [] + q == sent + q == sent + q + [] && sent + [] == sent
    ensures q != [] ==> sent + [q[0]] + [] + q[1..] == sent + [] + q
  {
  }

  lemma {:induction false} SendAllEmpties(cfg: ReadPath.Config, s: ReadPath.Server, me: nat)
    requires me < |s.indexes|
    ensures SendAll(cfg, s, me) ==
              s.(sent := s.sent + s.rdmaReplies + (if cfg.blockDbAsync then s.diskReplies else []),
                 rdmaReplies := [], diskReplies := if cfg.blockDbAsync then [] else s.diskReplies)
    decreases |s.rdmaReplies| + |s.diskReplies|
  {
    SendOnce(cfg, s, me);
    hide ReadPath.Act;
    var polled: seq<ReadPath.Reply> := if cfg.blockDbAsync then s.diskReplies else [];
    if s.rdmaReplies != [] {
      SendAllEmpties(cfg, ReadPath.Act(cfg, s, me, ReadPath.SendRdma).value, me);
      HeadMoves(s.sent, s.rdmaReplies, polled);
    } else if polled != [] {
      SendAllEmpties(cfg, ReadPath.Act(cfg, s, me, ReadPath.SendDisk).value, me);
      HeadMoves(s.sent, polled, []);
    } else {
      HeadMoves(s.sent, [], []);
    }
  }

  lemma WireConcat(a: seq<ReadPath.Reply>, b: seq<ReadPath.Reply>)
    ensures Responses(Wire(a + b)) == Responses(Wire(a)) + Responses(Wire(b))
  {
  }

  /**
   * Those sends put on the wire, reply for reply, what ExecutePendingOperations sends of the same queues,
   * and leave the same queues behind.
   */
  lemma SendsMatchTheLoop(cfg: ReadPath.Config, s: ReadPath.Server, me: nat)
    requires me < |s.indexes|
    ensures var t := SendAll(cfg, s, me);
            && Responses(Wire(t.sent))
               == Responses(Wire(s.sent)) + Round(cfg.blockDbAsync, Wire(s.rdmaReplies), Wire(s.diskReplies), [], [])
            && t.rdmaReplies == [] && t.diskReplies == if cfg.blockDbAsync then [] else s.diskReplies
  {
    SendAllEmpties(cfg, s, me);
    assert Forwards([]) == [] && Deletions([]) == [];
    hide SendAll, Responses, Wire, Forwards, Deletions;
    WireConcat(s.sent, s.rdmaReplies);
    if cfg.blockDbAsync {
      WireConcat(s.sent + s.rdmaReplies, s.diskReplies);
    } else {
      assert s.sent + s.rdmaReplies + [] == s.sent + s.rdmaReplies;
    }
  }

  /** Each reply goes on the wire to the client and port that asked, with its value. */
  lemma RepliesGoToTheirClients(q: seq<ReadPath.Reply>, i: nat)
    requires i < |q|
    ensures Responses(Wire(q))[i] == GetResponse(q[i].request.client, q[i].request.port, q[i].value)
  {
  }
}
