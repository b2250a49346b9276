/**
 * The key index each server keeps, the copies it keeps of its peers' indexes, and the single one-sided
 * writes that replicate it when no logs are used.  An entry is a slot number or invalid.
 */
module IndexReplication {
  import opened Common

  datatype Index = Invalid | At(slot: nat)

  /** A write posted for a key; the adapter reads the owner's entry some time after the post. */
  datatype Write = Posted(key: nat) | Captured(key: nat, entry: Index)

  // ---------------------------------------------------------------- specification

  /** `link` for every peer other than `me`, extended by a write for `key`. */
  function PostToAll(links: seq<seq<Write>>, me: nat, key: nat): (r: seq<seq<Write>>)
    ensures |r| == |links|
    ensures forall i :: 0 <= i < |r| ==> r[i] == if i == me then links[i] else links[i] + [Posted(key)]
  {
    seq(|links|, i requires 0 <= i < |links| => if i == me then links[i] else links[i] + [Posted(key)])
  }

  /** The same for the servers before position i only. */
  function PostBelow(links: seq<seq<Write>>, me: nat, key: nat, i: nat): (r: seq<seq<Write>>)
    ensures |r| == |links|
    ensures forall j :: 0 <= j < |r| ==> r[j] == if j < i && j != me then links[j] + [Posted(key)] else links[j]
  {
    seq(|links|, j requires 0 <= j < |links| => if j < i && j != me then links[j] + [Posted(key)] else links[j])
  }

  /** Every copy but the own row gets, at the key found, the own entry for the key expected. */
  function AfterLocalUpdate(indexes: seq<seq<Index>>, me: nat, expected: nat, found: nat): (r: seq<seq<Index>>)
    requires me < |indexes| && expected < |indexes[me]|
    requires forall i :: 0 <= i < |indexes| ==> found < |indexes[i]|
    ensures |r| == |indexes| && forall i :: 0 <= i < |r| ==>
              r[i] == if i == me then indexes[i] else indexes[i][found := indexes[me][expected]]
  {
    seq(|indexes|, i requires 0 <= i < |indexes| =>
      if i == me then indexes[i] else indexes[i][found := indexes[me][expected]])
  }

  // ---------------------------------------------------------------- the index object

  /** FreeRequestTokenQueueSize. */
  const TOKENS: nat := 50000

  class CacheIndexes {
    const machineIndex: nat
    /** rdma_cache_indexes: row i is server i's index; this server's own row is the original. */
    var indexes: seq<seq<Index>>
    /** The writes posted to each peer, oldest first. */
    var links: seq<seq<Write>>
    /** The object's own pool of request tokens, and the writes that hold one. */
    var freeTokens: nat
    var pendingWrites: nat

    ghost predicate Valid(keys: nat)
      reads this
    {
      && machineIndex < |indexes| == |links| && freeTokens + pendingWrites == TOKENS
      && forall i :: 0 <= i < |indexes| ==> |indexes[i]| == keys
    }

    constructor (servers: nat, me: nat, keys: nat)
      requires me < servers
      ensures Valid(keys) && machineIndex == me && |indexes| == servers && freeTokens == TOKENS
      ensures forall i :: 0 <= i < servers ==> links[i] == [] && forall k :: 0 <= k < keys ==> indexes[i][k] == Invalid
    {
      machineIndex := me;
      indexes := seq(servers, _ => seq(keys, _ => Invalid));
      links := seq(servers, _ => []);
      freeTokens, pendingWrites := TOKENS, 0;
    }

    /** How many peers are among servers 0..i-1. */
    ghost function PeersBelow(i: nat): (n: nat) { if machineIndex < i then i - 1 else i }

    /** Where a loop that posts to one peer after another finds the token pool empty. */
    ghost function Stop(tokens: nat): (i: nat) { if tokens < machineIndex then tokens else tokens + 1 }

    /** RDMAData::write: one token, or a panic where there is none. */
    method Post(i: nat, key: nat, ghost keys: nat) returns (panicked: bool)
      requires Valid(keys) && i < |links|
      modifies this`links, this`freeTokens, this`pendingWrites
      ensures Valid(keys) && (panicked <==> old(freeTokens) == 0)
      ensures links == if panicked then old(links) else old(links)[i := old(links)[i] + [Posted(key)]]
      ensures !panicked ==> freeTokens == old(freeTokens) - 1
      ensures panicked ==> freeTokens == 0
    {
      if freeTokens == 0 {
        return true;
      }
      freeTokens, pendingWrites := freeTokens - 1, pendingWrites + 1;
      links := links[i := links[i] + [Posted(key)]];
      panicked := false;
    }

    /** write_remote; it panics where the own entry turns out to be invalid, or the tokens run out. */
    method WriteRemote(key: nat, ghost keys: nat) returns (panicked: bool)
      requires Valid(keys) && key < keys
      modifies this`links, this`freeTokens, this`pendingWrites
      ensures Valid(keys)
      ensures panicked <==> |indexes| > 1 && (indexes[machineIndex][key] == Invalid || old(freeTokens) < |indexes| - 1)
      ensures !panicked ==>
                links == PostToAll(old(links), machineIndex, key) && freeTokens == old(freeTokens) - (|indexes| - 1)
      ensures panicked ==>
                links == PostBelow(old(links), machineIndex, key,
                                   if indexes[machineIndex][key] == Invalid then 0 else Stop(old(freeTokens)))
    {
      var i := 0;
      while i < |indexes|
        invariant 0 <= i <= |indexes| && Valid(keys)
        invariant links == PostBelow(old(links), machineIndex, key, i)
        invariant freeTokens == old(freeTokens) - PeersBelow(i)
        invariant PeersBelow(i) > 0 ==> indexes[machineIndex][key] != Invalid
      {
        if i != machineIndex {
          if indexes[machineIndex][key] == Invalid {
            return true;
          }
          panicked := Post(i, key, keys);
          if panicked {
            return;
          }
        }
        i := i + 1;
      }
      panicked := false;
    }

    /** dealloc_remote: the own entry is cleared inside the loop, so only where there is a peer. */
    method DeallocRemote(key: nat, ghost keys: nat) returns (panicked: bool)
      requires Valid(keys) && key < keys
      modifies this
      ensures Valid(keys)
      ensures indexes == if |old(indexes)| > 1
                         then old(indexes)[machineIndex := old(indexes)[machineIndex][key := Invalid]] else old(indexes)
      ensures panicked <==> old(freeTokens) < |indexes| - 1
      ensures !panicked ==>
                links == PostToAll(old(links), machineIndex, key) && freeTokens == old(freeTokens) - (|indexes| - 1)
      ensures panicked ==> links == PostBelow(old(links), machineIndex, key, Stop(old(freeTokens)))
    {
      ghost var cleared := indexes[machineIndex := indexes[machineIndex][key := Invalid]];
      assert cleared[machineIndex][key := Invalid] == cleared[machineIndex];
      assert cleared[machineIndex := cleared[machineIndex]] == cleared;
      var i := 0;
      while i < |indexes|
        invariant 0 <= i <= |indexes| && |indexes| == |old(indexes)| && Valid(keys)
        invariant indexes == if PeersBelow(i) > 0 then cleared else old(indexes)
        invariant links == PostBelow(old(links), machineIndex, key, i)
        invariant freeTokens == old(freeTokens) - PeersBelow(i)
      {
        if i != machineIndex {
          indexes := indexes[machineIndex := indexes[machineIndex][key := Invalid]];
          assert indexes == cleared;
          panicked := Post(i, key, keys);
          if panicked {
            return;
          }
        }
        i := i + 1;
      }
      panicked := false;
    }

    /** execute_pending: waits for every pending write and gives its token back. */
    method ExecutePending(ghost keys: nat)
      requires Valid(keys)
      modifies this`freeTokens, this`pendingWrites
      ensures Valid(keys) && freeTokens == TOKENS
    {
      while pendingWrites > 0
        invariant Valid(keys)
      {
        freeTokens, pendingWrites := freeTokens + 1, pendingWrites - 1;
      }
    }

    /**
     * update_local_key: after a read for `expected` found `found`, every peer copy gets, at the key
     * found, this server's own entry for the key expected.
     */
    method UpdateLocalKey(expected: nat, found: Option<nat>, ghost keys: nat)
      requires Valid(keys) && expected < keys && (found.Some? ==> found.value < keys)
      modifies this`indexes
      ensures Valid(keys)
      ensures indexes == if found.None? then old(indexes)
                         else AfterLocalUpdate(old(indexes), machineIndex, expected, found.value)
    {
      if found.None? {
        return;
      }
      var i := 0;
      while i < |indexes|
        invariant 0 <= i <= |indexes| == |old(indexes)|
        invariant forall j :: 0 <= j < |indexes| ==>
                    indexes[j] == if j < i && j != machineIndex
                                  then old(indexes)[j][found.value := old(indexes)[machineIndex][expected]]
                                  else old(indexes)[j]
      {
        if i != machineIndex {
          indexes := indexes[i := indexes[i][found.value := indexes[machineIndex][expected]]];
        }
        i := i + 1;
      }
    }
  }

  // ---------------------------------------------------------------- one owner and its copies

  /** A run of write_remote, or of dealloc_remote, for a key: servers 0..next-1 are behind it. */
  datatype Callback = Callback(key: nat, dealloc: bool, next: nat)

  /** An owner's index, every server's copy of it, the writes under way to each, and all callbacks started. */
  datatype Replica = Replica(owner: nat, own: seq<Index>, copies: seq<seq<Index>>, links: seq<seq<Write>>,
                             callbacks: seq<Callback>)

  datatype Step =
    | Store(key: nat, slot: nat)                     // insertion sets the entry and starts write_remote
    | Evict(key: nat)                                // the eviction callback starts dealloc_remote
    | Advance(c: nat)                                // a callback does one iteration of its loop
    | Capture(p: nat, i: nat)                        // the adapter reads the owner's entry for a posted write
    | Land(p: nat)                                   // the oldest write on a link reaches the peer's copy
    | LocalUpdate(p: nat, found: nat, entry: Index)  // update_local_key on peer p, whose own entry is `entry`

  /** One iteration; None where there is none left, or write_remote would panic. */
  function Iterate(s: Replica, c: nat): (r: Option<Replica>)
    requires c < |s.callbacks|
  {
    var cb := s.callbacks[c];
    var moved := s.(callbacks := s.callbacks[c := cb.(next := cb.next + 1)]);
    if cb.next >= |s.links| || cb.key >= |s.own| then None
    else if cb.next == s.owner then Some(moved)
    else if !cb.dealloc && s.own[cb.key].Invalid? then None
    else
      Some(moved.(own := if cb.dealloc then s.own[cb.key := Invalid] else s.own,
                  links := s.links[cb.next := s.links[cb.next] + [Posted(cb.key)]]))
  }

  function Next(s: Replica, step: Step): (r: Option<Replica>) {
    match step
    case Store(key, slot) =>
      if key < |s.own| then
        Some(s.(own := s.own[key := At(slot)], callbacks := s.callbacks + [Callback(key, false, 0)]))
      else None
    case Evict(key) =>
      if key < |s.own| then Some(s.(callbacks := s.callbacks + [Callback(key, true, 0)])) else None
    case Advance(c) => if c < |s.callbacks| then Iterate(s, c) else None
    case Capture(p, i) =>
      if p < |s.links| && i < |s.links[p]| && s.links[p][i].Posted? && s.links[p][i].key < |s.own| then
        var key := s.links[p][i].key;
        Some(s.(links := s.links[p := s.links[p][i := Captured(key, s.own[key])]]))
      else None
    case Land(p) =>
      if p < |s.links| && p < |s.copies| && s.links[p] != [] && s.links[p][0].Captured?
         && s.links[p][0].key < |s.copies[p]| then
        var w := s.links[p][0];
        Some(s.(copies := s.copies[p := s.copies[p][w.key := w.entry]], links := s.links[p := s.links[p][1..]]))
      else None
    case LocalUpdate(p, found, entry) =>
      if p < |s.copies| && p != s.owner && found < |s.copies[p]| then
        Some(s.(copies := s.copies[p := s.copies[p][found := entry]]))
      else None
  }

  ghost predicate Shaped(s: Replica) {
    && s.owner < |s.copies| == |s.links|
    && forall p :: 0 <= p < |s.copies| ==> |s.copies[p]| == |s.own|
  }

  ghost predicate Initial(s: Replica) {
    && Shaped(s) && s.callbacks == []
    && forall p :: 0 <= p < |s.copies| ==> s.links[p] == [] && s.copies[p] == s.own
  }

  /** A run and the steps it took. */
  ghost predicate Run(tr: seq<Replica>, steps: seq<Step>) {
    && |tr| == |steps| + 1 && Initial(tr[0])
    && forall i :: 0 <= i < |steps| ==> Next(tr[i], steps[i]) == Some(tr[i + 1])
  }

  lemma StepKeepsShape(s: Replica, step: Step, s': Replica)
    requires Shaped(s) && Next(s, step) == Some(s')
    ensures Shaped(s') && s'.owner == s.owner && |s'.own| == |s.own| && |s'.copies| == |s.copies|
  {
  }

  // ---------------------------------------------------------------- callbacks and the index object

  /** The links once a callback at position i has finished. */
  function PostFrom(links: seq<seq<Write>>, me: nat, key: nat, i: nat): (r: seq<seq<Write>>) {
    seq(|links|, j requires 0 <= j < |links| => if j == me || j < i then links[j] else links[j] + [Posted(key)])
  }

  /** A callback left to itself until its loop ends; None where it would panic. */
  function Finish(s: Replica, c: nat): (r: Option<Replica>)
    requires c < |s.callbacks|
    decreases |s.links| - s.callbacks[c].next
  {
    if s.callbacks[c].next >= |s.links| then Some(s)
    else
      match Iterate(s, c)
      case None => None
      case Some(t) => Finish(t, c)
  }

  /** Whether a peer is left from position i on. */
  predicate PeerLeft(s: Replica, i: nat) { i < |s.links| && !(i == |s.links| - 1 == s.owner) }

  lemma {:induction false} FinishPosts(s: Replica, c: nat)
    requires Shaped(s) && c < |s.callbacks| && s.callbacks[c].key < |s.own|
    requires s.callbacks[c].dealloc || s.own[s.callbacks[c].key].At? || !PeerLeft(s, s.callbacks[c].next)
    ensures var cb := s.callbacks[c];
            && Finish(s, c).Some?
            && Finish(s, c).value.links == PostFrom(s.links, s.owner, cb.key, cb.next)
            && Finish(s, c).value.own
               == (if cb.dealloc && PeerLeft(s, cb.next) then s.own[cb.key := Invalid] else s.own)
    decreases |s.links| - s.callbacks[c].next
  {
    var cb := s.callbacks[c];
    if cb.next >= |s.links| {
      assert PostFrom(s.links, s.owner, cb.key, cb.next) == s.links;
    } else {
      var t := Iterate(s, c).value;
      FinishPosts(t, c);
      assert PostFrom(t.links, s.owner, cb.key, cb.next + 1) == PostFrom(s.links, s.owner, cb.key, cb.next);
      if cb.next != s.owner {
        assert s.own[cb.key := Invalid][cb.key := Invalid] == s.own[cb.key := Invalid];
      }
    }
  }

  lemma {:induction false} FinishPanics(s: Replica, c: nat)
    requires Shaped(s) && c < |s.callbacks| && s.callbacks[c].key < |s.own|
    requires !s.callbacks[c].dealloc && s.own[s.callbacks[c].key].Invalid? && PeerLeft(s, s.callbacks[c].next)
    ensures Finish(s, c).None?
    decreases |s.links| - s.callbacks[c].next
  {
    if s.callbacks[c].next == s.owner { FinishPanics(Iterate(s, c).value, c); }
  }

  /** Undisturbed, a callback does what write_remote and dealloc_remote do in one call, panics included. */
  lemma UndisturbedCallback(s: Replica, c: nat)
    requires Shaped(s) && c < |s.callbacks| && s.callbacks[c].key < |s.own| && s.callbacks[c].next == 0
    ensures var cb := s.callbacks[c];
            && (Finish(s, c).None? <==> !cb.dealloc && s.own[cb.key].Invalid? && |s.links| > 1)
            && (Finish(s, c).Some? ==>
                  && Finish(s, c).value.links == PostToAll(s.links, s.owner, cb.key)
                  && Finish(s, c).value.own == if cb.dealloc && |s.links| > 1 then s.own[cb.key := Invalid] else s.own)
  {
    var cb := s.callbacks[c];
    assert PeerLeft(s, 0) <==> |s.links| > 1;
    assert PostFrom(s.links, s.owner, cb.key, 0) == PostToAll(s.links, s.owner, cb.key);
    if !cb.dealloc && s.own[cb.key].Invalid? && |s.links| > 1 {
      FinishPanics(s, c);
    } else {
      FinishPosts(s, c);
    }
  }

  // ---------------------------------------------------------------- what a link will leave behind

  /** The last write for a key on a link. */
  function LastWrite(link: seq<Write>, key: nat): (r: Option<Write>)
    ensures r.Some? ==> r.value.key == key
  {
    if link == [] then None
    else if link[|link| - 1].key == key then Some(link[|link| - 1])
    else LastWrite(link[..|link| - 1], key)
  }

  /** A copy's entry once everything on its link has landed, if the owner's index stays as it is. */
  function Settled(s: Replica, p: nat, k: nat): (r: Index)
    requires Shaped(s) && p < |s.copies| && k < |s.own|
  {
    match LastWrite(s.links[p], k)
    case None => s.copies[p][k]
    case Some(Posted(_)) => s.own[k]
    case Some(Captured(_, entry)) => entry
  }

  /** A callback for the key has yet to come by the peer. */
  ghost predicate Owes(s: Replica, p: nat, k: nat) {
    exists c :: 0 <= c < |s.callbacks| && s.callbacks[c].key == k && s.callbacks[c].next <= p
  }

  /** The copy's entry will end up wrong and no callback is left to mend it. */
  ghost predicate Damaged(s: Replica, p: nat, k: nat)
    requires Shaped(s) && p < |s.copies| && k < |s.own|
  {
    p != s.owner && Settled(s, p, k) != s.own[k] && !Owes(s, p, k)
  }

  lemma LastWriteAppend(link: seq<Write>, w: Write, k: nat)
    ensures LastWrite(link + [w], k) == if w.key == k then Some(w) else LastWrite(link, k)
  {
    assert (link + [w])[..|link|] == link;
  }

  lemma {:induction false} LastWriteCapture(link: seq<Write>, i: nat, entry: Index, k: nat)
    requires i < |link| && link[i].Posted?
    ensures var after := LastWrite(link[i := Captured(link[i].key, entry)], k);
            after == LastWrite(link, k)
            || (link[i].key == k && LastWrite(link, k) == Some(Posted(k)) && after == Some(Captured(k, entry)))
  {
    var n, after := |link| - 1, link[i := Captured(link[i].key, entry)];
    if i < n {
      LastWriteCapture(link[..n], i, entry, k);
      assert after[..n] == link[..n][i := Captured(link[i].key, entry)];
    } else {
      assert after[..n] == link[..n];
    }
  }

  lemma {:induction false} LastWriteDrop(link: seq<Write>, k: nat)
    requires link != []
    ensures LastWrite(link, k) == if LastWrite(link[1..], k).Some? then LastWrite(link[1..], k)
                                  else if link[0].key == k then Some(link[0]) else None
  {
    var n := |link| - 1;
    if n == 0 {
      assert link[..0] == [] && link[1..] == [];
    } else {
      LastWriteDrop(link[..n], k);
      assert link[1..][..n - 1] == link[..n][1..];
    }
  }

  // ---------------------------------------------------------------- damage, step by step

  /**
   * How a step changes the damage at a peer and key.  Storing or evicting the key mends it, and so does
   * a callback when it comes by.  It is done by a local update that writes another entry than the owner's
   * where no write is under way, and by an eviction that clears a valid entry after a valid one was captured.
   */
  ghost predicate DamageRule(s: Replica, step: Step, before: bool, p: nat, k: nat)
    requires Shaped(s) && p < |s.copies| && p != s.owner && k < |s.own| && Next(s, step).Some?
  {
    match step
    case Store(key, _) => before && key != k
    case Evict(key) => before && key != k
    case Advance(c) =>
      var cb := s.callbacks[c];
      if cb.key != k || cb.next == s.owner then before
      else if cb.next == p then false
      else if cb.dealloc && s.own[k].At? then
        !Owes(s, p, k) && LastWrite(s.links[p], k) != Some(Posted(k)) && Settled(s, p, k).At?
      else before
    case LocalUpdate(q, found, entry) =>
      if q == p && found == k && LastWrite(s.links[p], k).None? && !Owes(s, p, k) then entry != s.own[k] else before
    case _ => before
  }

  lemma StartDamage(s: Replica, step: Step, s': Replica, p: nat, k: nat)
    requires Shaped(s) && Shaped(s') && p < |s.copies| && p != s.owner && k < |s.own| && Next(s, step) == Some(s')
    requires step.Store? || step.Evict?
    ensures Damaged(s', p, k) <==> Damaged(s, p, k) && step.key != k
  {
    var n := |s.callbacks|;
    assert s'.callbacks[n].key == step.key && s'.callbacks[n].next == 0;
    assert forall c :: 0 <= c < n ==> s'.callbacks[c] == s.callbacks[c];
    if step.key == k { assert Owes(s', p, k); } else { assert Owes(s', p, k) <==> Owes(s, p, k); }
  }

  /** A callback that moves on owes one peer less. */
  lemma AdvanceOwes(s: Replica, c: nat, p: nat, k: nat)
    requires c < |s.callbacks| && p != s.owner && Iterate(s, c).Some?
    ensures !(s.callbacks[c].key == k && s.callbacks[c].next == p) ==>
              (Owes(Iterate(s, c).value, p, k) <==> Owes(s, p, k))
  {
    var cb, s' := s.callbacks[c], Iterate(s, c).value;
    if !(cb.key == k && cb.next == p) {
      if Owes(s, p, k) {
        var d :| 0 <= d < |s.callbacks| && s.callbacks[d].key == k && s.callbacks[d].next <= p;
        assert s'.callbacks[d].key == k && s'.callbacks[d].next <= p;
      }
      if Owes(s', p, k) {
        var d :| 0 <= d < |s'.callbacks| && s'.callbacks[d].key == k && s'.callbacks[d].next <= p;
        assert s.callbacks[d].key == k && s.callbacks[d].next <= p;
      }
    }
  }

  lemma AdvanceDamage(s: Replica, c: nat, s': Replica, p: nat, k: nat)
    requires Shaped(s) && Shaped(s') && p < |s.copies| && p != s.owner && k < |s.own| && Next(s, Advance(c)) == Some(s')
    ensures Damaged(s', p, k) <==> DamageRule(s, Advance(c), Damaged(s, p, k), p, k)
  {
    hide Owes;
    AdvanceOwes(s, c, p, k);
    var cb := s.callbacks[c];
    LastWriteAppend(s.links[p], Posted(cb.key), k);
  }

  lemma LinkDamage(s: Replica, step: Step, s': Replica, p: nat, k: nat)
    requires Shaped(s) && Shaped(s') && p < |s.copies| && k < |s.own| && Next(s, step) == Some(s')
    requires step.Capture? || step.Land?
    ensures Damaged(s', p, k) <==> Damaged(s, p, k)
  {
    assert Owes(s', p, k) <==> Owes(s, p, k);
    hide Owes;
    if step.p == p {
      if step.Capture? {
        LastWriteCapture(s.links[p], step.i, s.own[s.links[p][step.i].key], k);
      } else {
        LastWriteDrop(s.links[p], k);
      }
    }
  }

  /** Exactly what the rule says happens to the damage at a peer and key. */
  lemma StepDamage(s: Replica, step: Step, s': Replica, p: nat, k: nat)
    requires Shaped(s) && Shaped(s') && p < |s.copies| && p != s.owner && k < |s.own| && Next(s, step) == Some(s')
    ensures Damaged(s', p, k) <==> DamageRule(s, step, Damaged(s, p, k), p, k)
  {
    hide Next, LastWrite;
    match step {
      case Store(_, _) => StartDamage(s, step, s', p, k);
      case Evict(_) => StartDamage(s, step, s', p, k);
      case Advance(c) => AdvanceDamage(s, c, s', p, k);
      case Capture(_, _) => LinkDamage(s, step, s', p, k);
      case Land(_) => LinkDamage(s, step, s', p, k);
      case LocalUpdate(_, _, _) => LocalDamage(s, step, s', p, k);
    }
  }

  /** A local update takes effect exactly where no write is under way for the key found. */
  lemma LocalDamage(s: Replica, step: Step, s': Replica, p: nat, k: nat)
    requires Shaped(s) && Shaped(s') && p < |s.copies| && p != s.owner && k < |s.own| && Next(s, step) == Some(s')
    requires step.LocalUpdate?
    ensures Damaged(s', p, k) <==> DamageRule(s, step, Damaged(s, p, k), p, k)
    ensures step.p == p && step.found == k && Settled(s, p, k) == s.own[k] ==>
              (Settled(s', p, k) == s'.own[k] <==> LastWrite(s.links[p], k).Some? || step.entry == s.own[k])
  {
    assert Owes(s', p, k) <==> Owes(s, p, k);
    hide Owes, LastWrite;
  }

  // ---------------------------------------------------------------- damage over whole runs

  ghost predicate Spot(s: Replica, p: nat, k: nat) {
    p < |s.copies| && p != s.owner && k < |s.own|
  }

  lemma {:induction false} RunKeepsShape(tr: seq<Replica>, steps: seq<Step>, i: nat)
    requires Run(tr, steps) && i < |tr|
    ensures Shaped(tr[i]) && tr[i].owner == tr[0].owner && |tr[i].own| == |tr[0].own|
    ensures |tr[i].copies| == |tr[0].copies|
  {
    if i > 0 {
      RunKeepsShape(tr, steps, i - 1);
      StepKeepsShape(tr[i - 1], steps[i - 1], tr[i - 1 + 1]);
    }
  }

  /** The damage a run's steps have done, by the rule, up to state i. */
  ghost predicate Marked(tr: seq<Replica>, steps: seq<Step>, i: nat, p: nat, k: nat)
    requires Run(tr, steps) && i < |tr| && Spot(tr[0], p, k)
  {
    i > 0 && (RunKeepsShape(tr, steps, i - 1); assert Next(tr[i - 1], steps[i - 1]) == Some(tr[i - 1 + 1]);
              DamageRule(tr[i - 1], steps[i - 1], Marked(tr, steps, i - 1, p, k), p, k))
  }

  /**
   * In every state of every run, with callbacks interleaved in any way: a peer's entry will be the owner's,
   * or a callback is still to bring it, except exactly where the rule has marked damage.
   */
  lemma {:induction false} CopiesConvergeExactlyUnlessMarked(tr: seq<Replica>, steps: seq<Step>, i: nat, p: nat, k: nat)
    requires Run(tr, steps) && i < |tr| && Spot(tr[0], p, k)
    ensures Shaped(tr[i]) && Spot(tr[i], p, k)
    ensures Settled(tr[i], p, k) == tr[i].own[k] || Owes(tr[i], p, k) <==> !Marked(tr, steps, i, p, k)
  {
    hide Next, DamageRule, Settled, Owes;
    RunKeepsShape(tr, steps, i);
    if i > 0 {
      RunKeepsShape(tr, steps, i - 1);
      CopiesConvergeExactlyUnlessMarked(tr, steps, i - 1, p, k);
      assert Next(tr[i - 1], steps[i - 1]) == Some(tr[i - 1 + 1]);
      StepDamage(tr[i - 1], steps[i - 1], tr[i], p, k);
    } else {
      assert LastWrite(tr[0].links[p], k).None?;
      InitiallySettled(tr[0], p, k);
    }
  }

  lemma InitiallySettled(s: Replica, p: nat, k: nat)
    requires Initial(s) && Spot(s, p, k)
    ensures Settled(s, p, k) == s.own[k]
  {
  }

  /** With nothing on its link and no callback to come, a peer's entry is the owner's exactly if not marked. */
  lemma DrainedEqualsExactlyUnlessMarked(tr: seq<Replica>, steps: seq<Step>, i: nat, p: nat, k: nat)
    requires Run(tr, steps) && i < |tr| && Spot(tr[0], p, k)
    requires p < |tr[i].links| && tr[i].links[p] == [] && !Owes(tr[i], p, k)
    ensures p < |tr[i].copies| && k < |tr[i].copies[p]| && k < |tr[i].own|
    ensures tr[i].copies[p][k] == tr[i].own[k] <==> !Marked(tr, steps, i, p, k)
  {
    hide Marked, Owes;
    CopiesConvergeExactlyUnlessMarked(tr, steps, i, p, k);
    assert LastWrite(tr[i].links[p], k).None?;
  }
}
