/**
 * Which interleavings of stores, evictions and local updates let every index copy converge: the exact
 * condition on a single store, and on all runs of n servers.
 */
module IndexConvergence {
  import opened Common
  import opened IndexReplication

  // ---------------------------------------------------------------- when a store is dangerous

  /** The first peer a callback comes to. */
  function First(s: Replica): (p: nat) { if s.owner == 0 then 1 else 0 }

  predicate Evicts(cb: Callback, k: nat) { cb.dealloc && cb.key == k }

  /** An eviction of the key has been to a peer and is yet to come by another. */
  ghost predicate Midway(s: Replica, k: nat) {
    exists c :: 0 <= c < |s.callbacks| && Evicts(s.callbacks[c], k) && First(s) < s.callbacks[c].next
                && PeerLeft(s, s.callbacks[c].next)
  }

  /** An eviction of the key has been to no peer. */
  ghost predicate Pending(s: Replica, k: nat) {
    exists c :: 0 <= c < |s.callbacks| && Evicts(s.callbacks[c], k) && s.callbacks[c].next <= First(s)
  }

  /** An eviction of the key is midway, and no other one is still to come by all peers. */
  ghost predicate Danger(s: Replica, k: nat) {
    Midway(s, k) && !Pending(s, k)
  }

  /** Every peer's entry is on its way to being the owner's. */
  ghost predicate Converging(s: Replica) {
    && Shaped(s)
    && forall p, k :: Spot(s, p, k) ==> !Damaged(s, p, k)
  }

  /** No valid entry is in danger. */
  ghost predicate Calm(s: Replica) {
    forall k :: 0 <= k < |s.own| && s.own[k].At? ==> !Danger(s, k)
  }

  /** A step of a program that may have local updates, and stores of keys in danger. */
  ghost predicate Allowed(s: Replica, step: Step, local: bool, dangerous: bool) {
    && (step.LocalUpdate? ==> local)
    && (step.Store? ==> dangerous || !Danger(s, step.key))
  }

  lemma StartKeepsDanger(s: Replica, step: Step, s': Replica, k: nat)
    requires Next(s, step) == Some(s') && (step.Store? || step.Evict?)
    ensures Midway(s', k) ==> Midway(s, k)
    ensures Pending(s, k) ==> Pending(s', k)
    ensures step.Evict? && step.key == k ==> Pending(s', k)
  {
    var n := |s.callbacks|;
    assert forall c :: 0 <= c < n ==> s'.callbacks[c] == s.callbacks[c];
    assert s'.callbacks[n].next == 0;
  }

  /** A callback that moves on without clearing the key's entry leaves the danger as it is. */
  lemma AdvanceKeepsDanger(s: Replica, c: nat, s': Replica, k: nat)
    requires Shaped(s) && Next(s, Advance(c)) == Some(s')
    requires !Evicts(s.callbacks[c], k) || s.callbacks[c].next == s.owner
    ensures Midway(s', k) ==> Midway(s, k)
    ensures Pending(s, k) ==> Pending(s', k)
  {
    var cb := s.callbacks[c];
    if Midway(s', k) {
      var d :| 0 <= d < |s'.callbacks| && Evicts(s'.callbacks[d], k) && First(s') < s'.callbacks[d].next
               && PeerLeft(s', s'.callbacks[d].next);
      assert Evicts(s.callbacks[d], k) && First(s) < s.callbacks[d].next && PeerLeft(s, s.callbacks[d].next);
    }
    if Pending(s, k) {
      var d :| 0 <= d < |s.callbacks| && Evicts(s.callbacks[d], k) && s.callbacks[d].next <= First(s);
      assert Evicts(s'.callbacks[d], k) && s'.callbacks[d].next <= First(s');
    }
  }

  lemma StepCalm(s: Replica, step: Step, s': Replica)
    requires Shaped(s) && Calm(s) && Next(s, step) == Some(s') && Allowed(s, step, false, false)
    ensures Calm(s')
  {
    StepKeepsShape(s, step, s');
    forall k | 0 <= k < |s'.own| && s'.own[k].At? ensures !Danger(s', k) {
      hide Midway, Pending;
      if step.Store? || step.Evict? {
        StartKeepsDanger(s, step, s', k);
      } else if step.Advance? {
        AdvanceKeepsDanger(s, step.c, s', k);
      } else {
        SameCallbacksSameDanger(s, s', k);
      }
    }
  }

  lemma SameCallbacksSameDanger(s: Replica, s': Replica, k: nat)
    requires s'.callbacks == s.callbacks && s'.owner == s.owner && |s'.links| == |s.links|
    ensures Midway(s', k) <==> Midway(s, k)
    ensures Pending(s', k) <==> Pending(s, k)
  {
  }

  /** A callback that clears a valid entry leaves behind one, itself or another, that every other peer is owed. */
  lemma ClearingOwes(s: Replica, c: nat, p: nat, k: nat)
    requires Calm(s) && c < |s.callbacks| && Spot(s, p, k) && Evicts(s.callbacks[c], k) && s.own[k].At?
    requires s.callbacks[c].next < |s.links| && s.callbacks[c].next != s.owner && s.callbacks[c].next != p
    ensures Owes(s, p, k)
  {
    var cb := s.callbacks[c];
    if First(s) < cb.next {
      assert PeerLeft(s, cb.next);
      assert Midway(s, k);
      assert Pending(s, k);
    }
  }

  lemma StepConverges(s: Replica, step: Step, s': Replica)
    requires Converging(s) && Calm(s) && Next(s, step) == Some(s') && Allowed(s, step, false, false)
    ensures Converging(s')
  {
    StepKeepsShape(s, step, s');
    forall p: nat, k: nat | Spot(s', p, k) ensures !Damaged(s', p, k) {
      hide Damaged, Calm, Owes, Danger;
      assert Spot(s, p, k);
      StepDamage(s, step, s', p, k);
      if step.Advance? {
        var cb := s.callbacks[step.c];
        if Evicts(cb, k) && s.own[k].At? && cb.next != s.owner && cb.next != p { ClearingOwes(s, step.c, p, k); }
      }
    }
  }

  // ---------------------------------------------------------------- the exact condition on one store

  /** The state after a list of steps, if each is enabled in its turn. */
  function After(s: Replica, steps: seq<Step>): (r: Option<Replica>)
    decreases steps
  {
    if steps == [] then Some(s)
    else
      match Next(s, steps[0])
      case None => None
      case Some(t) => After(t, steps[1..])
  }

  lemma {:induction false} AfterConcat(s: Replica, a: seq<Step>, b: seq<Step>)
    requires After(s, a).Some?
    ensures After(s, a + b) == After(After(s, a).value, b)
    decreases a
  {
    hide Next;
    if a == [] {
      assert a + b == b;
    } else {
      assert (a + b)[1..] == a[1..] + b;
      AfterConcat(Next(s, a[0]).value, a[1..], b);
    }
  }

  /** Steps that finish what has been started, and start nothing. */
  predicate Settling(step: Step) { step.Advance? || step.Capture? || step.Land? }

  predicate AllSettling(steps: seq<Step>) { forall i :: 0 <= i < |steps| ==> Settling(steps[i]) }

  lemma {:induction false} SettlingConverges(s: Replica, steps: seq<Step>)
    requires Converging(s) && Calm(s) && AllSettling(steps) && After(s, steps).Some?
    ensures Converging(After(s, steps).value)
    decreases steps
  {
    hide Next, Converging, Calm;
    if steps != [] {
      var t := Next(s, steps[0]).value;
      assert Settling(steps[0]);
      assert Shaped(s) by { ConvergingIsShaped(s); }
      StepCalm(s, steps[0], t);
      StepConverges(s, steps[0], t);
      assert forall i :: 0 <= i < |steps[1..]| ==> steps[1..][i] == steps[i + 1];
      SettlingConverges(t, steps[1..]);
    }
  }

  lemma ConvergingIsShaped(s: Replica)
    requires Converging(s)
    ensures Shaped(s)
  {
  }

  /** A write callback can be moved past the first peer, where its write is then the last. */
  lemma {:induction false} PushOne(s: Replica, k: nat, c: nat) returns (steps: seq<Step>, t: Replica)
    requires Shaped(s) && |s.links| >= 2 && k < |s.own| && s.own[k].At?
    requires c < |s.callbacks| && s.callbacks[c].key == k && !s.callbacks[c].dealloc
    ensures AllSettling(steps) && After(s, steps) == Some(t) && Shaped(t)
    ensures t == s.(links := t.links, callbacks := t.callbacks) && |t.links| == |s.links|
    ensures var next := s.callbacks[c].next;
            t.callbacks == s.callbacks[c := Callback(k, false, if next <= First(s) then First(s) + 1 else next)]
    ensures s.callbacks[c].next <= First(s) ==> t.links[First(s)] == s.links[First(s)] + [Posted(k)]
    decreases First(s) + 1 - s.callbacks[c].next
  {
    var cb := s.callbacks[c];
    if cb.next > First(s) {
      steps, t := [], s;
      assert s.callbacks[c := cb] == s.callbacks;
    } else {
      var u := Iterate(s, c).value;
      if cb.next == First(s) {
        steps, t := [Advance(c)], u;
        assert After(s, steps) == After(u, steps[1..]) == Some(u);
      } else {
        var rest;
        rest, t := PushOne(u, k, c);
        steps := [Advance(c)] + rest;
        assert steps[1..] == rest;
      }
    }
  }

  /** All write callbacks of a key among the first i have passed the first peer. */
  ghost predicate Pushed(s: Replica, k: nat, i: nat) {
    forall c :: 0 <= c < |s.callbacks| && c < i && s.callbacks[c].key == k && !s.callbacks[c].dealloc ==>
      s.callbacks[c].next > First(s)
  }

  /** The evictions stand where they stood, and no callback has been added. */
  ghost predicate SameEvictions(s: Replica, t: Replica) {
    && |t.callbacks| == |s.callbacks|
    && forall c :: 0 <= c < |s.callbacks| ==>
         t.callbacks[c].key == s.callbacks[c].key && t.callbacks[c].dealloc == s.callbacks[c].dealloc
         && (s.callbacks[c].dealloc ==> t.callbacks[c] == s.callbacks[c])
  }

  lemma {:induction false} PushAll(s: Replica, k: nat, i: nat) returns (steps: seq<Step>, t: Replica)
    requires Shaped(s) && |s.links| >= 2 && k < |s.own| && s.own[k].At? && i <= |s.callbacks|
    ensures AllSettling(steps) && After(s, steps) == Some(t) && Shaped(t)
    ensures t == s.(links := t.links, callbacks := t.callbacks) && |t.links| == |s.links|
    ensures SameEvictions(s, t) && Pushed(t, k, i)
    ensures forall c :: i <= c < |s.callbacks| ==> t.callbacks[c] == s.callbacks[c]
  {
    hide Next;
    if i == 0 {
      steps, t := [], s;
      assert After(s, []) == Some(s);
    } else {
      hide After;
      var before, u := PushAll(s, k, i - 1);
      var cb := u.callbacks[i - 1];
      if cb.key == k && !cb.dealloc {
        var more;
        more, t := PushOne(u, k, i - 1);
        steps := before + more;
        AfterConcat(s, before, more);
      } else {
        steps, t := before, u;
      }
    }
  }

  /** An eviction that is midway can be moved on to clear the entry, posting beyond the first peer only. */
  lemma {:induction false} Clear(s: Replica, k: nat, c: nat) returns (steps: seq<Step>, t: Replica)
    requires Shaped(s) && k < |s.own| && c < |s.callbacks| && Evicts(s.callbacks[c], k)
    requires First(s) < s.callbacks[c].next && PeerLeft(s, s.callbacks[c].next)
    ensures AllSettling(steps) && After(s, steps) == Some(t) && Shaped(t)
    ensures t == s.(own := s.own[k := Invalid], links := t.links, callbacks := t.callbacks)
    ensures First(s) < |s.links| == |t.links| && t.links[First(s)] == s.links[First(s)]
    ensures |t.callbacks| == |s.callbacks| && forall d :: 0 <= d < |s.callbacks| ==>
              t.callbacks[d].key == s.callbacks[d].key && t.callbacks[d].next >= s.callbacks[d].next
    decreases |s.links| - s.callbacks[c].next
  {
    var u := Iterate(s, c).value;
    if s.callbacks[c].next == s.owner {
      var rest;
      rest, t := Clear(u, k, c);
      steps := [Advance(c)] + rest;
      assert steps[1..] == rest;
    } else {
      steps, t := [Advance(c)], u;
      assert After(s, steps) == After(u, steps[1..]) == Some(u);
    }
  }

  lemma EndsPosted(link: seq<Write>, k: nat, entry: Index)
    ensures var n := |link|; LastWrite((link + [Posted(k)])[n := Captured(k, entry)], k) == Some(Captured(k, entry))
  {
    var n, before := |link|, link + [Posted(k)];
    assert before[n := Captured(k, entry)] == link + [Captured(k, entry)];
    LastWriteAppend(link, Captured(k, entry), k);
  }

  /** The adapter reads the owner's entry for the write just posted to the first peer. */
  lemma CaptureLast(s: Replica, k: nat, link: seq<Write>) returns (step: Step, t: Replica)
    requires Shaped(s) && |s.links| >= 2 && k < |s.own| && s.links[First(s)] == link + [Posted(k)]
    ensures Settling(step) && Next(s, step) == Some(t) && Shaped(t)
    ensures t == s.(links := t.links) && |t.links| == |s.links|
    ensures LastWrite(t.links[First(s)], k) == Some(Captured(k, s.own[k]))
  {
    var f, n := First(s), |link|;
    EndsPosted(link, k, s.own[k]);
    step := Capture(f, n);
    t := s.(links := s.links[f := s.links[f][n := Captured(k, s.own[k])]]);
  }

  lemma ClearedIsDamaged(s: Replica, k: nat, entry: Index)
    requires Shaped(s) && |s.links| >= 2 && k < |s.own| && s.own[k].Invalid? && entry.At?
    requires LastWrite(s.links[First(s)], k) == Some(Captured(k, entry))
    requires forall c :: 0 <= c < |s.callbacks| && s.callbacks[c].key == k ==> s.callbacks[c].next > First(s)
    ensures Spot(s, First(s), k) && Damaged(s, First(s), k)
  {
  }

  /** After PushAll no callback of a key in danger is still to come by the first peer. */
  lemma NobodyBehind(s: Replica, t: Replica, k: nat)
    requires !Pending(s, k) && SameEvictions(s, t) && t.owner == s.owner && Pushed(t, k, |t.callbacks|)
    ensures forall c :: 0 <= c < |t.callbacks| && t.callbacks[c].key == k ==> t.callbacks[c].next > First(t)
  {
    forall c | 0 <= c < |t.callbacks| && t.callbacks[c].key == k ensures t.callbacks[c].next > First(t) {
      if s.callbacks[c].dealloc { assert Evicts(s.callbacks[c], k); }
    }
  }

  /** A store of a key in danger can be followed by settling steps that leave the first peer wrong for good. */
  lemma DangerousStore(s: Replica, k: nat, slot: nat) returns (steps: seq<Step>, t: Replica)
    requires Shaped(s) && k < |s.own| && Danger(s, k)
    ensures AllSettling(steps) && After(s, [Store(k, slot)] + steps) == Some(t)
    ensures Shaped(t) && Spot(t, First(t), k) && Damaged(t, First(t), k) && |t.copies| == |s.copies|
  {
    var c :| 0 <= c < |s.callbacks| && Evicts(s.callbacks[c], k) && First(s) < s.callbacks[c].next
             && PeerLeft(s, s.callbacks[c].next);
    var n, s0 := |s.callbacks|, Next(s, Store(k, slot)).value;
    assert !Pending(s0, k) by { assert forall d :: 0 <= d < n ==> s0.callbacks[d] == s.callbacks[d]; }
    hide Next, Damaged, Pending, Danger, Midway, After;
    var a, s1 := PushAll(s0, k, n);
    var b, s2 := PushOne(s1, k, n);
    StillPushed(s0, s1, s2, k, n);
    NobodyBehind(s0, s2, k);
    var step, s3 := CaptureLast(s2, k, s1.links[First(s)]);
    var d, s4 := Clear(s3, k, c);
    ClearedIsDamaged(s4, k, At(slot));
    t := s4;
    steps := a + b + [step] + d;
    Chain(s, Store(k, slot), s0, a, s1, b, s2, step, s3, d, s4);
  }

  lemma StillPushed(s0: Replica, s1: Replica, s2: Replica, k: nat, n: nat)
    requires |s0.callbacks| == n + 1 && SameEvictions(s0, s1) && Pushed(s1, k, n) && s1.owner == s0.owner == s2.owner
    requires s1.callbacks[n].key == k && !s1.callbacks[n].dealloc
    requires var next := s1.callbacks[n].next;
             s2.callbacks == s1.callbacks[n := Callback(k, false, if next <= First(s1) then First(s1) + 1 else next)]
    ensures SameEvictions(s0, s2) && Pushed(s2, k, n + 1)
  {
  }

  lemma Chain(s: Replica, first: Step, s0: Replica, a: seq<Step>, s1: Replica, b: seq<Step>, s2: Replica, step: Step,
              s3: Replica, d: seq<Step>, s4: Replica)
    requires Next(s, first) == Some(s0) && After(s0, a) == Some(s1) && After(s1, b) == Some(s2)
    requires Next(s2, step) == Some(s3) && After(s3, d) == Some(s4)
    ensures After(s, [first] + (a + b + [step] + d)) == Some(s4)
  {
    hide Next;
    AfterStep(s, first, s0, a + b + [step] + d);
    AfterStep(s2, step, s3, d);
    hide After;
    AfterConcat(s0, a, b);
    AfterConcat(s0, a + b, [step] + d);
    assert a + b + [step] + d == (a + b) + ([step] + d);
  }

  lemma AfterStep(s: Replica, step: Step, t: Replica, rest: seq<Step>)
    requires Next(s, step) == Some(t)
    ensures After(s, [step] + rest) == After(t, rest)
  {
    assert ([step] + rest)[1..] == rest;
  }

  /**
   * Storing a key where all is well is harmless, whatever order the rest settles in, if and only if the key
   * is not in danger: no eviction of it is midway between peers, or another is still to come by all of them.
   */
  lemma StoreIsHarmlessExactlyWhen(s: Replica, k: nat, slot: nat)
    requires Converging(s) && Calm(s) && k < |s.own|
    ensures (forall steps :: AllSettling(steps) && After(s, [Store(k, slot)] + steps).Some? ==>
               Converging(After(s, [Store(k, slot)] + steps).value))
            <==> !Danger(s, k)
  {
    if Danger(s, k) {
      var steps, t := DangerousStore(s, k, slot);
      hide After, Damaged;
      assert !Converging(t);
    } else {
      var s0 := Next(s, Store(k, slot)).value;
      assert Next(s, Store(k, slot)) == Some(s0);
      hide Next, Converging, Calm, Danger;
      assert Shaped(s) by { ConvergingIsShaped(s); }
      StepCalm(s, Store(k, slot), s0);
      StepConverges(s, Store(k, slot), s0);
      forall steps | AllSettling(steps) && After(s, [Store(k, slot)] + steps).Some?
        ensures Converging(After(s, [Store(k, slot)] + steps).value)
      {
        AfterStep(s, Store(k, slot), s0, steps);
        SettlingConverges(s0, steps);
      }
    }
  }

  // ---------------------------------------------------------------- what the peers learn

  /** The owner's entry for a key, while what has been started settles: kept, unless an eviction clears it. */
  ghost predicate Keeps(s: Replica, k: nat, slot: nat) {
    && k < |s.own| && s.own[k] == At(slot)
    && forall c :: 0 <= c < |s.callbacks| && Evicts(s.callbacks[c], k) ==> !PeerLeft(s, s.callbacks[c].next)
  }

  lemma StepKeeps(s: Replica, step: Step, s': Replica, k: nat, slot: nat)
    requires Shaped(s) && Keeps(s, k, slot) && Settling(step) && Next(s, step) == Some(s')
    ensures Keeps(s', k, slot)
  {
    StepKeepsShape(s, step, s');
    if step.Advance? {
      forall c | 0 <= c < |s'.callbacks| && Evicts(s'.callbacks[c], k) ensures !PeerLeft(s', s'.callbacks[c].next) {
        assert Evicts(s.callbacks[c], k) && !PeerLeft(s, s.callbacks[c].next);
      }
    }
  }

  /** The eviction started last has cleared the entry, or has not come to a peer. */
  ghost predicate Clears(s: Replica, k: nat, c: nat) {
    && k < |s.own| && c < |s.callbacks| && Evicts(s.callbacks[c], k)
    && (s.own[k].Invalid? || s.callbacks[c].next <= First(s))
  }

  lemma StepClears(s: Replica, step: Step, s': Replica, k: nat, c: nat)
    requires Shaped(s) && Clears(s, k, c) && Settling(step) && Next(s, step) == Some(s')
    ensures Clears(s', k, c)
  {
    StepKeepsShape(s, step, s');
  }

  lemma {:induction false} SettlingKeeps(s: Replica, steps: seq<Step>, k: nat, slot: nat, c: nat)
    requires Shaped(s) && AllSettling(steps) && After(s, steps).Some?
    ensures Shaped(After(s, steps).value)
    ensures Keeps(s, k, slot) ==> Keeps(After(s, steps).value, k, slot)
    ensures Clears(s, k, c) ==> Clears(After(s, steps).value, k, c)
    decreases steps
  {
    hide Next, Keeps, Clears;
    if steps != [] {
      var t := Next(s, steps[0]).value;
      assert Settling(steps[0]);
      StepKeepsShape(s, steps[0], t);
      if Keeps(s, k, slot) { StepKeeps(s, steps[0], t, k, slot); }
      if Clears(s, k, c) { StepClears(s, steps[0], t, k, c); }
      assert forall i :: 0 <= i < |steps[1..]| ==> steps[1..][i] == steps[i + 1];
      SettlingKeeps(t, steps[1..], k, slot, c);
    }
  }

  /** A drained peer that nothing is owed to has the owner's entry. */
  lemma DrainedHasOwn(s: Replica, p: nat, k: nat)
    requires Converging(s) && Spot(s, p, k) && s.links[p] == [] && !Owes(s, p, k)
    ensures s.copies[p][k] == s.own[k]
  {
    assert !Damaged(s, p, k);
    assert LastWrite(s.links[p], k).None?;
  }

  /** What is stored is what the peers end up with: the slot stored, if no eviction of the key is under way. */
  lemma StoreIsLearned(s: Replica, k: nat, slot: nat, steps: seq<Step>, t: Replica, p: nat)
    requires Converging(s) && Calm(s) && k < |s.own|
    requires forall c :: 0 <= c < |s.callbacks| && Evicts(s.callbacks[c], k) ==> !PeerLeft(s, s.callbacks[c].next)
    requires AllSettling(steps) && After(s, [Store(k, slot)] + steps) == Some(t)
    requires Spot(t, p, k) && p < |t.links| && t.links[p] == [] && !Owes(t, p, k)
    ensures p < |t.copies| && k < |t.copies[p]| && t.copies[p][k] == At(slot)
  {
    var s0 := Next(s, Store(k, slot)).value;
    assert Keeps(s0, k, slot) by { assert forall c :: 0 <= c < |s.callbacks| ==> s0.callbacks[c] == s.callbacks[c]; }
    assert !Danger(s, k);
    hide Next, Converging, Calm, Keeps, Danger, Owes;
    ConvergingIsShaped(s);
    assert Next(s, Store(k, slot)) == Some(s0) by { StartIsEnabled(s, k, slot); }
    AfterStep(s, Store(k, slot), s0, steps);
    StepCalm(s, Store(k, slot), s0);
    StepConverges(s, Store(k, slot), s0);
    ConvergingIsShaped(s0);
    SettlingConverges(s0, steps);
    SettlingKeeps(s0, steps, k, slot, 0);
    DrainedHasOwn(t, p, k);
    KeepsMeans(t, k, slot);
  }

  lemma StartIsEnabled(s: Replica, k: nat, slot: nat)
    requires k < |s.own|
    ensures Next(s, Store(k, slot)).Some? && Next(s, Evict(k)).Some?
  {
  }

  lemma KeepsMeans(s: Replica, k: nat, slot: nat)
    requires Keeps(s, k, slot)
    ensures k < |s.own| && s.own[k] == At(slot)
  {
  }

  /** After an eviction has settled the peers hold nothing for the key. */
  lemma EvictionIsLearned(s: Replica, k: nat, steps: seq<Step>, t: Replica, p: nat)
    requires Converging(s) && Calm(s) && k < |s.own|
    requires AllSettling(steps) && After(s, [Evict(k)] + steps) == Some(t)
    requires Spot(t, p, k) && p < |t.links| && t.links[p] == [] && !Owes(t, p, k)
    ensures p < |t.copies| && k < |t.copies[p]| && t.copies[p][k] == Invalid
  {
    var n, s0 := |s.callbacks|, Next(s, Evict(k)).value;
    assert Clears(s0, k, n);
    hide Next, Converging, Calm, Clears;
    ConvergingIsShaped(s);
    assert Next(s, Evict(k)) == Some(s0) by { StartIsEnabled(s, k, 0); }
    AfterStep(s, Evict(k), s0, steps);
    StepCalm(s, Evict(k), s0);
    StepConverges(s, Evict(k), s0);
    ConvergingIsShaped(s0);
    SettlingConverges(s0, steps);
    SettlingKeeps(s0, steps, k, 0, n);
    DrainedHasOwn(t, p, k);
    ClearsMeans(t, k, n, p);
  }

  lemma ClearsMeans(s: Replica, k: nat, c: nat, p: nat)
    requires Clears(s, k, c) && Spot(s, p, k) && !Owes(s, p, k)
    ensures k < |s.own| && s.own[k].Invalid?
  {
  }

  // ---------------------------------------------------------------- which runs converge

  ghost predicate AllowedRun(tr: seq<Replica>, steps: seq<Step>, local: bool, dangerous: bool) {
    && Run(tr, steps)
    && forall i :: 0 <= i < |steps| ==> Allowed(tr[i], steps[i], local, dangerous)
  }

  predicate OfServers(tr: seq<Replica>, n: nat) { tr != [] && |tr[0].copies| == n }

  lemma InitiallyConverging(s: Replica)
    requires Initial(s)
    ensures Converging(s) && Calm(s)
  {
  }

  lemma {:induction false} HarmlessRunsConverge(tr: seq<Replica>, steps: seq<Step>, i: nat)
    requires AllowedRun(tr, steps, false, false) && i < |tr|
    ensures Converging(tr[i]) && Calm(tr[i])
  {
    hide Next, Damaged, Initial, Calm, Converging, Allowed;
    if i > 0 {
      HarmlessRunsConverge(tr, steps, i - 1);
      assert Next(tr[i - 1], steps[i - 1]) == Some(tr[i - 1 + 1]);
      assert Shaped(tr[i - 1]) by { ConvergingIsShaped(tr[i - 1]); }
      StepCalm(tr[i - 1], steps[i - 1], tr[i]);
      StepConverges(tr[i - 1], steps[i - 1], tr[i]);
    } else {
      InitiallyConverging(tr[0]);
    }
  }

  /** With one peer at most, no eviction is ever between two. */
  lemma OnePeerNoDanger(s: Replica, k: nat)
    requires Shaped(s) && |s.copies| <= 2
    ensures !Danger(s, k)
  {
  }

  lemma FewServersConverge(tr: seq<Replica>, steps: seq<Step>, local: bool, dangerous: bool, i: nat)
    requires AllowedRun(tr, steps, local, dangerous) && i < |tr| && |tr[0].copies| <= 2
    requires |tr[0].copies| <= 1 || !local
    ensures Converging(tr[i])
  {
    forall j | 0 <= j < |steps| ensures Allowed(tr[j], steps[j], false, false) {
      RunKeepsShape(tr, steps, j);
      assert Next(tr[j], steps[j]) == Some(tr[j + 1]) && Allowed(tr[j], steps[j], local, dangerous);
      if steps[j].Store? { OnePeerNoDanger(tr[j], steps[j].key); }
    }
    HarmlessRunsConverge(tr, steps, i);
  }

  // ---------------------------------------------------------------- runs that do not converge

  /** n servers and one key nobody holds. */
  function Cluster(n: nat, owner: nat): (s: Replica) {
    Replica(owner, [Invalid], seq(n, _ => [Invalid]), seq(n, _ => []), [])
  }

  lemma ClusterIsInitial(n: nat, owner: nat)
    requires owner < n
    ensures Initial(Cluster(n, owner))
  {
  }

  /** A peer whose own entry for another key is valid puts it at the key found, which the owner does not hold. */
  lemma LocalUpdateDiverges(n: nat) returns (tr: seq<Replica>, steps: seq<Step>)
    requires n >= 2
    ensures AllowedRun(tr, steps, true, false) && |tr| == 2 && |tr[0].copies| == n
    ensures Shaped(tr[1]) && tr[1].callbacks == [] && (forall p :: 0 <= p < n ==> tr[1].links[p] == [])
    ensures Spot(tr[1], 1, 0) && tr[1].copies[1][0] == At(7) && tr[1].own[0] == Invalid && Damaged(tr[1], 1, 0)
  {
    var s, step := Cluster(n, 0), LocalUpdate(1, 0, At(7));
    ClusterIsInitial(n, 0);
    var t := Next(s, step).value;
    assert LastWrite([], 0).None?;
    steps, tr := [step], [s, t];
  }

  /** The states a list of steps goes through. */
  lemma {:induction false} Extend(tr: seq<Replica>, steps: seq<Step>, more: seq<Step>) returns (tr': seq<Replica>)
    requires Run(tr, steps) && After(tr[|tr| - 1], more).Some?
    ensures Run(tr', steps + more) && tr' != [] && tr'[0] == tr[0] && tr'[|tr'| - 1] == After(tr[|tr| - 1], more).value
    decreases more
  {
    hide Next;
    if more == [] {
      tr' := tr;
      assert steps + more == steps;
    } else {
      var t := Next(tr[|tr| - 1], more[0]).value;
      assert Run(tr + [t], steps + [more[0]]);
      tr' := Extend(tr + [t], steps + [more[0]], more[1..]);
      assert steps + [more[0]] + more[1..] == steps + more;
    }
  }

  /** The last server's eviction has been to server 0 only. */
  lemma MidwayEviction(n: nat) returns (s: Replica)
    requires n >= 3
    ensures After(Cluster(n, n - 1), [Evict(0), Advance(0)]) == Some(s)
    ensures Shaped(s) && |s.own| == 1 && |s.copies| == n && Danger(s, 0)
  {
    var c := Cluster(n, n - 1);
    var a := Next(c, Evict(0)).value;
    s := Iterate(a, 0).value;
    assert [Evict(0), Advance(0)][1..] == [Advance(0)] && [Advance(0)][1..] == [];
    assert After(a, [Advance(0)]) == After(s, []) == Some(s);
    assert s.callbacks == [Callback(0, true, 1)];
    assert Evicts(s.callbacks[0], 0) && First(s) < s.callbacks[0].next && PeerLeft(s, s.callbacks[0].next);
  }

  lemma OneState(s: Replica)
    requires Initial(s)
    ensures Run([s], [])
  {
  }

  lemma NoLocalUpdates(more: seq<Step>)
    requires AllSettling(more)
    ensures var steps := [Evict(0), Advance(0)] + ([Store(0, 7)] + more);
            forall i :: 0 <= i < |steps| ==> !steps[i].LocalUpdate?
  {
    assert forall i :: 0 <= i < |more| ==> Settling(more[i]);
  }

  lemma WithoutLocalUpdates(tr: seq<Replica>, steps: seq<Step>)
    requires Run(tr, steps) && forall i :: 0 <= i < |steps| ==> !steps[i].LocalUpdate?
    ensures AllowedRun(tr, steps, false, true)
  {
    hide Run;
  }

  /** A store during that eviction, posted and read before the eviction clears the entry again. */
  lemma DangerousStoreDiverges(n: nat) returns (tr: seq<Replica>, steps: seq<Step>)
    requires n >= 3
    ensures AllowedRun(tr, steps, false, true) && OfServers(tr, n)
    ensures var t := tr[|tr| - 1]; Shaped(t) && Spot(t, First(t), 0) && Damaged(t, First(t), 0)
  {
    hide After, Damaged, Danger, Next, Run, Allowed, Spot, Initial, AllSettling;
    var c, start := Cluster(n, n - 1), [Evict(0), Advance(0)];
    var s := MidwayEviction(n);
    var more, t := DangerousStore(s, 0, 7);
    steps := start + ([Store(0, 7)] + more);
    AfterConcat(c, start, [Store(0, 7)] + more);
    ClusterIsInitial(n, n - 1);
    OneState(c);
    tr := Extend([c], [], steps);
    assert [] + steps == steps;
    NoLocalUpdates(more);
    WithoutLocalUpdates(tr, steps);
  }

  lemma MoreAllowed(tr: seq<Replica>, steps: seq<Step>, local: bool, dangerous: bool, local': bool, dangerous': bool)
    requires AllowedRun(tr, steps, local, dangerous) && (local ==> local') && (dangerous ==> dangerous')
    ensures AllowedRun(tr, steps, local', dangerous')
  {
    assert forall i :: 0 <= i < |steps| ==> Allowed(tr[i], steps[i], local, dangerous);
  }

  lemma DamagedMeansNotConverging(s: Replica, p: nat, k: nat)
    requires Shaped(s) && Spot(s, p, k) && Damaged(s, p, k)
    ensures !Converging(s)
  {
  }

  /**
   * Every copy is on its way to the owner's index in every state of every run of n servers, if and only if
   * there are no local updates, or no peers, and no stores of keys in danger, or one peer at most.
   */
  lemma ConvergesExactlyWhen(n: nat, local: bool, dangerous: bool)
    ensures (forall tr, steps, i: nat ::
               AllowedRun(tr, steps, local, dangerous) && OfServers(tr, n) && i < |tr| ==> Converging(tr[i]))
            <==> (n <= 1 || !local) && (n <= 2 || !dangerous)
  {
    hide Run, Converging, Allowed;
    if (n <= 1 || !local) && (n <= 2 || !dangerous) {
      forall tr, steps, i: nat | AllowedRun(tr, steps, local, dangerous) && OfServers(tr, n) && i < |tr|
        ensures Converging(tr[i])
      {
        if n <= 2 { FewServersConverge(tr, steps, local, dangerous, i); } else { HarmlessRunsConverge(tr, steps, i); }
      }
    } else if n >= 2 && local {
      var tr, steps := LocalUpdateDiverges(n);
      MoreAllowed(tr, steps, true, false, local, dangerous);
      DamagedMeansNotConverging(tr[1], 1, 0);
    } else {
      var tr, steps := DangerousStoreDiverges(n);
      MoreAllowed(tr, steps, false, true, local, dangerous);
      DamagedMeansNotConverging(tr[|tr| - 1], First(tr[|tr| - 1]), 0);
    }
  }
}
