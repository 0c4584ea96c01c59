/**
 When a peer may be freed (src/if_wg.c:467-492, src/if_wg.c:1780-1788, src/wg_noise.c:478-496,
 src/wg_noise.c:749-765): a packet on a serial queue has a reference to its keypair, a keypair
 has one to its remote until the epoch frees it, and the peer goes when the remote does. A packet
 is written as the keypair that it refers to.
 */
module PeerLifetime {
  datatype Keypair = Keypair(
    refcnt: nat,
    slotted: bool,     // in r_next, r_current or r_previous
    holders: nat)      // references that functions hold while they run

  datatype State = State(
    enabled: bool,              // noise_remote_free has not been called
    refcnt: nat,                // r_refcnt
    holders: nat,               // references to the remote that functions hold while they run
    keypairs: map<nat, Keypair>,  // until noise_keypair_smr_free
    txq: seq<nat>,              // p_encrypt_serial
    rxq: seq<nat>,              // p_decrypt_serial
    loose: multiset<nat>,       // packets on no serial queue
    destroyed: bool)            // wg_peer_free_deferred has run

  const INIT: State := State(true, 1, 0, map[], [], [], multiset{}, false)

  datatype Step =
    | AcquireRemote               // noise_remote_ref and the lookups, which refuse a zero count
    | PutRemote
    | FreeRemote                  // the last statement of noise_remote_free
    | BeginSession(k: nat)
    | DropSlot(k: nat)            // noise_keypair_drop
    | AcquireKeypair(k: nat)      // noise_keypair_lookup, noise_keypair_current
    | PutKeypair(k: nat)
    | Attach(k: nat)              // a packet gets a reference of its own
    | Enqueue(k: nat, outward: bool)
    | Dequeue(outward: bool)
    | FreePacket(k: nat)
    | EpochKeypair(k: nat)        // noise_keypair_smr_free
    | EpochRemote                 // noise_remote_smr_free, which calls wg_peer_free_deferred

  predicate Enabled(s: State, step: Step) {
    match step
    case AcquireRemote => s.refcnt > 0
    case PutRemote => s.holders > 0
    case FreeRemote => s.enabled
    case BeginSession(k) => k !in s.keypairs && s.holders > 0
    case DropSlot(k) => k in s.keypairs && s.keypairs[k].slotted
    case AcquireKeypair(k) => k in s.keypairs && s.keypairs[k].refcnt > 0
    case PutKeypair(k) => k in s.keypairs && s.keypairs[k].holders > 0
    case Attach(k) => k in s.keypairs && s.keypairs[k].holders > 0
    case Enqueue(k, _) => k in s.loose
    case Dequeue(outward) => (if outward then s.txq else s.rxq) != []
    case FreePacket(k) => k in s.loose
    case EpochKeypair(k) => k in s.keypairs && s.keypairs[k].refcnt == 0
    case EpochRemote => s.refcnt == 0 && !s.destroyed
  }

  function Minus(n: nat): nat {
    if n == 0 then 0 else n - 1
  }

  function Apply(s: State, step: Step): State
    requires Enabled(s, step)
  {
    match step
    case AcquireRemote => s.(refcnt := s.refcnt + 1, holders := s.holders + 1)
    case PutRemote => s.(refcnt := Minus(s.refcnt), holders := s.holders - 1)
    case FreeRemote => s.(refcnt := Minus(s.refcnt), enabled := false)
    case BeginSession(k) => s.(keypairs := s.keypairs[k := Keypair(1, true, 0)], refcnt := s.refcnt + 1)
    case DropSlot(k) => s.(keypairs := s.keypairs[k := Put(s.keypairs[k].(slotted := false))])
    case AcquireKeypair(k) =>
      var kp := s.keypairs[k];
      s.(keypairs := s.keypairs[k := kp.(refcnt := kp.refcnt + 1, holders := kp.holders + 1)])
    case PutKeypair(k) => s.(keypairs := s.keypairs[k := Put(s.keypairs[k].(holders := s.keypairs[k].holders - 1))])
    case Attach(k) =>
      s.(keypairs := s.keypairs[k := s.keypairs[k].(refcnt := s.keypairs[k].refcnt + 1)], loose := s.loose + multiset{k})
    case Enqueue(k, outward) =>
      var s' := s.(loose := s.loose - multiset{k});
      if outward then s'.(txq := s.txq + [k]) else s'.(rxq := s.rxq + [k])
    case Dequeue(outward) =>
      if outward then s.(txq := s.txq[1..], loose := s.loose + multiset{s.txq[0]})
      else s.(rxq := s.rxq[1..], loose := s.loose + multiset{s.rxq[0]})
    case FreePacket(k) =>
      var s' := s.(loose := s.loose - multiset{k});
      if k in s.keypairs then s'.(keypairs := s.keypairs[k := Put(s.keypairs[k])]) else s'
    case EpochKeypair(k) => s.(keypairs := s.keypairs - {k}, refcnt := Minus(s.refcnt))
    case EpochRemote => s.(destroyed := true)
  }

  function Put(kp: Keypair): Keypair {
    kp.(refcnt := Minus(kp.refcnt))
  }

  // Packets that refer to keypair k, wherever they are
  function Packets(s: State, k: nat): nat {
    multiset(s.txq)[k] + multiset(s.rxq)[k] + s.loose[k]
  }

  ghost predicate KeypairOk(s: State, k: nat) {
    if k !in s.keypairs then Packets(s, k) == 0
    else
      var kp := s.keypairs[k];
      kp.refcnt == (if kp.slotted then 1 else 0) + kp.holders + Packets(s, k)
  }

  ghost predicate Inv(s: State) {
    && s.refcnt == (if s.enabled then 1 else 0) + s.holders + |s.keypairs|
    && (forall k :: KeypairOk(s, k))
    && (s.destroyed ==> s.refcnt == 0)
  }

  // Steps on the remote's own count
  lemma RemoteStepKeeps(s: State, step: Step)
    requires Inv(s) && Enabled(s, step)
    requires step.AcquireRemote? || step.PutRemote? || step.FreeRemote? || step.EpochRemote?
    ensures Inv(Apply(s, step))
  {
    var s' := Apply(s, step);
    forall k
      ensures KeypairOk(s', k)
    {
      assert KeypairOk(s, k);
    }
  }

  lemma BeginSessionKeeps(s: State, k: nat)
    requires Inv(s) && Enabled(s, BeginSession(k))
    ensures Inv(Apply(s, BeginSession(k)))
  {
    var s' := Apply(s, BeginSession(k));
    forall j
      ensures KeypairOk(s', j)
    {
      assert KeypairOk(s, j);
    }
  }

  lemma EpochKeypairKeeps(s: State, k: nat)
    requires Inv(s) && Enabled(s, EpochKeypair(k))
    ensures Inv(Apply(s, EpochKeypair(k)))
  {
    var s' := Apply(s, EpochKeypair(k));
    assert s.keypairs.Keys == s'.keypairs.Keys + {k};
    assert |s.keypairs| == |s'.keypairs| + 1 by {
      assert |s.keypairs| == |s.keypairs.Keys| && |s'.keypairs| == |s'.keypairs.Keys|;
    }
    forall j
      ensures KeypairOk(s', j)
    {
      assert KeypairOk(s, j);
    }
  }

  // Steps on one keypair's count
  lemma KeypairStepKeeps(s: State, step: Step)
    requires Inv(s) && Enabled(s, step)
    requires step.DropSlot? || step.AcquireKeypair? || step.PutKeypair? || step.Attach?
    ensures Inv(Apply(s, step))
  {
    var s' := Apply(s, step);
    SameSize(s.keypairs, s'.keypairs);
    forall j
      ensures KeypairOk(s', j)
    {
      assert KeypairOk(s, j);
    }
  }

  lemma SameSize(a: map<nat, Keypair>, b: map<nat, Keypair>)
    requires a.Keys == b.Keys
    ensures |a| == |b|
  {
    assert |a| == |a.Keys| && |b| == |b.Keys|;
  }

  // Moving a packet between a queue and its owner does not change how many there are.
  lemma MoveKeeps(s: State, s': State)
    requires Inv(s) && s' == s.(txq := s'.txq, rxq := s'.rxq, loose := s'.loose)
    requires forall k :: Packets(s', k) == Packets(s, k)
    ensures Inv(s')
  {
    hide Packets;
    forall j
      ensures KeypairOk(s', j)
    {
      assert KeypairOk(s, j);
    }
  }

  lemma EnqueueKeeps(s: State, k: nat, outward: bool)
    requires Inv(s) && Enabled(s, Enqueue(k, outward))
    ensures Inv(Apply(s, Enqueue(k, outward)))
  {
    MoveKeeps(s, Apply(s, Enqueue(k, outward)));
  }

  lemma DequeueKeeps(s: State, outward: bool)
    requires Inv(s) && Enabled(s, Dequeue(outward))
    ensures Inv(Apply(s, Dequeue(outward)))
  {
    HeadCounts(if outward then s.txq else s.rxq);
    var s' := Apply(s, Dequeue(outward));
    assert forall k :: Packets(s', k) == Packets(s, k) by {
      hide Inv;
    }
    MoveKeeps(s, s');
  }

  lemma HeadCounts(q: seq<nat>)
    requires q != []
    ensures multiset(q) == multiset(q[1..]) + multiset{q[0]}
  {
    assert q == [q[0]] + q[1..];
  }

  lemma FreePacketKeeps(s: State, k: nat)
    requires Inv(s) && Enabled(s, FreePacket(k))
    ensures Inv(Apply(s, FreePacket(k)))
  {
    var s' := Apply(s, FreePacket(k));
    SameSize(s.keypairs, s'.keypairs);
    assert forall j :: Packets(s', j) == Packets(s, j) - (if j == k then 1 else 0) by {
      hide Inv;
    }
    assert KeypairOk(s, k) && Packets(s, k) > 0;
    forall j
      ensures KeypairOk(s', j)
    {
      assert KeypairOk(s, j);
      hide Packets;
    }
  }

  function Exec(s: State, steps: seq<Step>): State
    decreases |steps|
  {
    hide Apply, Enabled;
    if steps == [] then s
    else Exec(if Enabled(s, steps[0]) then Apply(s, steps[0]) else s, steps[1..])
  }

  lemma StepKeeps(s: State, step: Step)
    requires Inv(s) && Enabled(s, step)
    ensures Inv(Apply(s, step))
  {
    hide Inv, Apply, Enabled;
    match step
    case BeginSession(k) => BeginSessionKeeps(s, k);
    case EpochKeypair(k) => EpochKeypairKeeps(s, k);
    case DropSlot(_) => KeypairStepKeeps(s, step);
    case AcquireKeypair(_) => KeypairStepKeeps(s, step);
    case PutKeypair(_) => KeypairStepKeeps(s, step);
    case Attach(_) => KeypairStepKeeps(s, step);
    case Enqueue(k, outward) => EnqueueKeeps(s, k, outward);
    case Dequeue(outward) => DequeueKeeps(s, outward);
    case FreePacket(k) => FreePacketKeeps(s, k);
    case _ => RemoteStepKeeps(s, step);
  }

  lemma {:induction false} ExecKeeps(s: State, steps: seq<Step>)
    requires Inv(s)
    ensures Inv(Exec(s, steps))
    decreases |steps|
  {
    hide Inv, Apply, Enabled;
    if steps != [] {
      if Enabled(s, steps[0]) {
        StepKeeps(s, steps[0]);
      }
      ExecKeeps(if Enabled(s, steps[0]) then Apply(s, steps[0]) else s, steps[1..]);
    }
  }

  lemma Counted(s: State)
    ensures s.txq != [] ==> Packets(s, s.txq[0]) > 0
    ensures s.rxq != [] ==> Packets(s, s.rxq[0]) > 0
    ensures forall k :: k in s.loose ==> Packets(s, k) > 0
  {}

  // No reference to the remote, no packet anywhere.
  lemma NothingLeft(s: State)
    requires Inv(s) && s.refcnt == 0
    ensures s.keypairs == map[] && s.txq == [] && s.rxq == [] && s.loose == multiset{}
  {
    Counted(s);
    assert s.keypairs == map[];
    forall k
      ensures Packets(s, k) == 0
    {
      assert KeypairOk(s, k);
    }
  }

  // In every schedule, both serial queues are empty when the peer's destructor runs, and still
  // are whatever happens after.
  lemma EmptyAtDestruction(before: seq<Step>, after: seq<Step>)
    requires Enabled(Exec(INIT, before), EpochRemote)
    ensures var s := Exec(INIT, before);
            && s.txq == [] && s.rxq == []
            && var t := Exec(Apply(s, EpochRemote), after);
            t.txq == [] && t.rxq == [] && t.destroyed
  {
    hide Exec, Apply;
    assert forall k :: KeypairOk(INIT, k);
    ExecKeeps(INIT, before);
    var s := Exec(INIT, before);
    NothingLeft(s);
    StepKeeps(s, EpochRemote);
    var t := Apply(s, EpochRemote);
    assert t.destroyed by {
      Destroys(s);
    }
    ExecKeeps(t, after);
    StaysDestroyed(t, after);
    NothingLeft(Exec(t, after));
  }

  lemma Destroys(s: State)
    requires Enabled(s, EpochRemote)
    ensures Apply(s, EpochRemote).destroyed
  {}

  lemma {:induction false} StaysDestroyed(s: State, steps: seq<Step>)
    requires s.destroyed
    ensures Exec(s, steps).destroyed
    decreases |steps|
  {
    if steps != [] {
      StaysDestroyed(if Enabled(s, steps[0]) then Apply(s, steps[0]) else s, steps[1..]);
    }
  }

  // Nothing leaks: whatever happened before, giving references back is enough to get to the
  // destructor.

  predicate GivesBack(step: Step) {
    !step.AcquireRemote? && !step.BeginSession? && !step.AcquireKeypair? && !step.Attach? && !step.Enqueue?
  }

  ghost predicate AllGiveBack(steps: seq<Step>) {
    forall step :: step in steps ==> GivesBack(step)
  }

  lemma {:induction false} ExecAppend(s: State, a: seq<Step>, b: seq<Step>)
    ensures Exec(s, a + b) == Exec(Exec(s, a), b)
    decreases |a|
  {
    hide Apply, Enabled;
    if a == [] {
      assert a + b == b;
    } else {
      assert (a + b)[1..] == a[1..] + b;
      ExecAppend(if Enabled(s, a[0]) then Apply(s, a[0]) else s, a[1..], b);
    }
  }

  lemma ExecOne(s: State, step: Step, rest: seq<Step>)
    requires Enabled(s, step)
    ensures Exec(s, [step] + rest) == Exec(Apply(s, step), rest)
  {
    assert ([step] + rest)[1..] == rest;
  }

  lemma ExecNone(s: State)
    ensures Exec(s, []) == s
  {}

  ghost predicate Quiet(s: State) {
    Inv(s) && s.txq == [] && s.rxq == [] && s.loose == multiset{}
  }

  // Packets leave the queues and are freed.
  lemma {:induction false} NoPackets(s: State) returns (more: seq<Step>)
    requires Inv(s)
    ensures AllGiveBack(more) && Quiet(Exec(s, more))
    decreases 2 * |s.txq| + 2 * |s.rxq| + |s.loose|
  {
    if s.txq == [] && s.rxq == [] && s.loose == multiset{} {
      more := [];
      ExecNone(s);
    } else {
      var step;
      if s.txq != [] {
        step := Dequeue(true);
      } else if s.rxq != [] {
        step := Dequeue(false);
      } else {
        var k :| k in s.loose;
        step := FreePacket(k);
      }
      StepKeeps(s, step);
      var rest := NoPackets(Apply(s, step));
      ExecOne(s, step, rest);
      hide Apply, Enabled, Inv;
      more := [step] + rest;
    }
  }

  // With no packets about, the next step towards freeing a keypair
  lemma KeypairStep(s: State, k: nat) returns (step: Step)
    requires Quiet(s) && k in s.keypairs
    ensures Enabled(s, step) && GivesBack(step) && Quiet(Apply(s, step))
    ensures var s' := Apply(s, step);
            if s.keypairs[k].holders == 0 && !s.keypairs[k].slotted then s'.keypairs == s.keypairs - {k}
            else
              && k in s'.keypairs && s'.keypairs - {k} == s.keypairs - {k}
              && (if s.keypairs[k].holders > 0 then s'.keypairs[k].holders < s.keypairs[k].holders
                  else s'.keypairs[k].holders == 0 && !s'.keypairs[k].slotted)
  {
    assert KeypairOk(s, k);
    var kp := s.keypairs[k];
    step := if kp.holders > 0 then PutKeypair(k) else if kp.slotted then DropSlot(k) else EpochKeypair(k);
    StepKeeps(s, step);
    hide Inv;
    assert (s.keypairs[k := kp]) - {k} == s.keypairs - {k};
  }

  // Its holders return it, it is dropped from its slot, and the epoch frees it.
  lemma {:induction false} WithoutKeypair(s: State, k: nat) returns (more: seq<Step>)
    requires Quiet(s) && k in s.keypairs
    ensures AllGiveBack(more) && Quiet(Exec(s, more)) && Exec(s, more).keypairs == s.keypairs - {k}
    decreases s.keypairs[k].holders, s.keypairs[k].slotted
  {
    var step := KeypairStep(s, k);
    hide Quiet, GivesBack, Enabled, Apply;
    var rest := [];
    ExecNone(Apply(s, step));
    if s.keypairs[k].holders > 0 || s.keypairs[k].slotted {
      rest := WithoutKeypair(Apply(s, step), k);
    }
    ExecOne(s, step, rest);
    more := [step] + rest;
  }

  lemma {:induction false} NoKeypairs(s: State) returns (more: seq<Step>)
    requires Quiet(s)
    ensures var t := Exec(s, more);
            AllGiveBack(more) && Inv(t) && t.keypairs == map[]
    decreases |s.keypairs|
  {
    if s.keypairs == map[] {
      more := [];
      ExecNone(s);
    } else {
      var k :| k in s.keypairs;
      var first := WithoutKeypair(s, k);
      var t := Exec(s, first);
      assert |t.keypairs| < |s.keypairs| by {
        assert t.keypairs.Keys == s.keypairs.Keys - {k};
        assert |s.keypairs| == |s.keypairs.Keys| && |t.keypairs| == |t.keypairs.Keys|;
      }
      hide Inv, Exec;
      var rest := NoKeypairs(t);
      ExecAppend(s, first, rest);
      more := first + rest;
    }
  }

  // Then the holders of the remote return it, noise_remote_free gives up the last reference, and
  // the epoch runs the destructor.
  lemma {:induction false} NoRemote(s: State) returns (more: seq<Step>)
    requires Inv(s) && s.keypairs == map[]
    ensures AllGiveBack(more) && Exec(s, more).destroyed
    decreases s.holders, s.enabled, s.refcnt, !s.destroyed
  {
    if s.destroyed {
      more := [];
      ExecNone(s);
    } else {
      var step := if s.holders > 0 then PutRemote else if s.enabled then FreeRemote else EpochRemote;
      StepKeeps(s, step);
      var rest := NoRemote(Apply(s, step));
      ExecOne(s, step, rest);
      hide Apply, Enabled, Inv;
      more := [step] + rest;
    }
  }

  lemma CanBeFreed(before: seq<Step>) returns (more: seq<Step>)
    ensures AllGiveBack(more) && Exec(Exec(INIT, before), more).destroyed
  {
    hide Exec, Inv;
    assert Inv(INIT) by {
      InitOk();
    }
    ExecKeeps(INIT, before);
    var s := Exec(INIT, before);
    var packets := NoPackets(s);
    var t := Exec(s, packets);
    var keypairs := NoKeypairs(t);
    var u := Exec(t, keypairs);
    var remote := NoRemote(u);
    ExecAppend(s, packets, keypairs + remote);
    ExecAppend(t, keypairs, remote);
    more := packets + (keypairs + remote);
  }

  lemma InitOk()
    ensures Inv(INIT)
  {
    assert forall k :: KeypairOk(INIT, k);
  }
}
