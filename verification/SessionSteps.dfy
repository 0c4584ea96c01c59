/**
 What each step of Sessions means to one remote, to one keypair and to the callers, without the
 index table and the counts, and what follows for a whole run: which keypair noise_keypair_current
 returns and which keypairs noise_keypair_lookup finds.
 */
module SessionSteps {
  import opened Wrappers
  import opened Machine
  import opened ReplayWindow
  import opened Sessions

  // A packet that was decrypted, whose nonce passes, under the keypair that is next
  predicate Promotes(s: Net, op: Op, r: nat)
    requires r in s.remotes
  {
    && op.DeliverPacket? && op.k in s.keypairs && s.remotes[r].next == Some(op.k)
    && op.decrypted && Acceptable(s.keypairs[op.k].accepted, op.nonce)
  }

  function RemoteAfter(s: Net, op: Op, r: nat): Remote
    requires r in s.remotes
  {
    hide Promotes;
    var rem := s.remotes[r];
    match op
    case DeliverPacket(k, _, _) =>
      if Promotes(s, op, r) then rem.(next := None, current := Some(k), previous := rem.current) else rem
    case NewRemote(_) => rem
    case LookupKeypair(_) => rem
    case CurrentKeypair(_, _) => rem
    case RefKeypair(_) => rem
    case PutKeypair(_) => rem
    case _ =>
      if op.r != r then rem
      else
        match op
        case Initiate(_, index) => rem.(state := Initiator, localIndex := index)
        case ConsumeInitiation(_, index, remoteIndex) =>
          rem.(state := Responder, localIndex := index, remoteIndex := remoteIndex)
        case LearnRemoteIndex(_, remoteIndex) => rem.(remoteIndex := remoteIndex)
        case Begin(_, k) =>
          if rem.state.Initiator? then rem.(state := Dead, next := None, current := Some(k), previous := Kept(rem))
          else rem.(state := Dead, next := Some(k), previous := None)
        case ClearKeypairs(_) => rem.(next := None, current := None, previous := None)
        case _ => rem.(state := Dead)
  }

  // The keypairs a step stops: expired by noise_keypair_current, or by an expiry of the remote
  predicate Stops(s: Net, op: Op, j: nat) {
    match op
    case ExpireCurrent(r) => r in s.remotes && (s.remotes[r].next == Some(j) || s.remotes[r].current == Some(j))
    case CurrentKeypair(r, expired) => r in s.remotes && expired && s.remotes[r].current == Some(j)
    case _ => false
  }

  // A keypair without its count
  function Uncounted(kp: Keypair): Keypair {
    kp.(refcnt := 0)
  }

  function KeypairAfter(s: Net, op: Op, j: nat): Keypair
    requires Enabled(s, op) && (j in s.keypairs || (op.Begin? && op.k == j))
  {
    hide Stops, After;
    if op.Begin? && op.k == j then
      var rem := s.remotes[op.r];
      Keypair(op.r, rem.state.Initiator?, true, rem.localIndex, rem.remoteIndex, 0, {})
    else
      var kp := s.keypairs[j];
      Uncounted(kp).(canSend := kp.canSend && !Stops(s, op, j),
                     accepted := if op.DeliverPacket? && op.k == j && op.decrypted then After(kp.accepted, op.nonce) else kp.accepted)
  }

  // The references callers have
  function HoldersAfter(s: Net, op: Op): multiset<nat>
    requires Enabled(s, op)
  {
    match op
    case LookupKeypair(index) => s.holders + Of(Lookup(s, index))
    case CurrentKeypair(r, expired) => s.holders + Of(Current(s, r, expired))
    case RefKeypair(k) => s.holders + multiset{k}
    case PutKeypair(k) => s.holders - multiset{k}
    case _ => s.holders
  }

  function Of(k: Option<nat>): multiset<nat> {
    if k.None? then multiset{} else multiset{k.value}
  }

  // Everything but the table and the counts
  predicate Frame(s: Net, s': Net) {
    && s'.remotes == s.remotes && s'.holders == s.holders && s'.keypairs.Keys == s.keypairs.Keys
    && forall j :: j in s.keypairs ==> Uncounted(s'.keypairs[j]) == Uncounted(s.keypairs[j])
  }

  lemma DropFrame(s: Net, slot: Option<nat>)
    ensures Frame(s, Drop(s, slot))
  {}

  lemma RotateFrame(s: Net, r: nat, k: nat)
    requires r in s.remotes && k in s.keypairs
    ensures var s' := Rotate(s, r, k);
            && s'.holders == s.holders && s'.keypairs.Keys == s.keypairs.Keys
            && (forall j :: j in s.keypairs ==> Uncounted(s'.keypairs[j]) == Uncounted(s.keypairs[j]))
            && var rem := s.remotes[r];
            s'.remotes == s.remotes[r :=
              if !s.keypairs[k].initiator then rem.(next := Some(k), previous := None)
              else rem.(next := None, current := Some(k), previous := if rem.next.Some? then rem.next else rem.current)]
  {
    hide Drop, Uncounted;
    var rem := s.remotes[r];
    if !s.keypairs[k].initiator {
      var s1 := SetSlots(s, r, Some(k), rem.current, None);
      DropFrame(s1, rem.next);
      DropFrame(Drop(s1, rem.next), rem.previous);
    } else if rem.next.Some? {
      var s1 := SetSlots(s, r, None, Some(k), rem.next);
      DropFrame(s1, rem.current);
      DropFrame(Drop(s1, rem.current), rem.previous);
    } else {
      DropFrame(SetSlots(s, r, None, Some(k), rem.current), rem.previous);
    }
  }

  ghost predicate RemotesStep(s: Net, op: Op, s': Net) {
    && s'.remotes.Keys == s.remotes.Keys + (if op.NewRemote? then {op.r} else {})
    && (op.NewRemote? ==> s'.remotes[op.r] == Remote(Dead, 0, 0, None, None, None))
    && (forall r :: r in s.remotes ==> s'.remotes[r] == RemoteAfter(s, op, r))
  }

  ghost predicate KeypairsStep(s: Net, op: Op, s': Net)
    requires Enabled(s, op)
  {
    && s'.keypairs.Keys == s.keypairs.Keys + (if op.Begin? then {op.k} else {})
    && forall j :: j in s'.keypairs ==> Uncounted(s'.keypairs[j]) == KeypairAfter(s, op, j)
  }

  ghost predicate Effect(s: Net, op: Op, s': Net)
    requires Enabled(s, op)
  {
    RemotesStep(s, op, s') && KeypairsStep(s, op, s') && s'.holders == HoldersAfter(s, op)
  }

  lemma BeginRemotes(s: Net, r: nat, k: nat)
    requires Enabled(s, Begin(r, k))
    ensures RemotesStep(s, Begin(r, k), BeginSession(s, r, k))
  {
    var kp := Keypair(r, s.remotes[r].state.Initiator?, true, 0, 0, 1, {});
    RotateFrame(s.(keypairs := s.keypairs[k := kp]), r, k);
    hide Rotate, Uncounted;
  }

  lemma BeginKeypairs(s: Net, r: nat, k: nat)
    requires Enabled(s, Begin(r, k))
    ensures KeypairsStep(s, Begin(r, k), BeginSession(s, r, k))
    ensures BeginSession(s, r, k).holders == s.holders
  {
    var kp := Keypair(r, s.remotes[r].state.Initiator?, true, 0, 0, 1, {});
    var s1 := s.(keypairs := s.keypairs[k := kp]);
    RotateFrame(s1, r, k);
    var s', t := BeginSession(s, r, k), Rotate(s1, r, k);
    hide Rotate;
    forall j | j in s'.keypairs
      ensures Uncounted(s'.keypairs[j]) == KeypairAfter(s, Begin(r, k), j)
    {
      assert Uncounted(t.keypairs[j]) == Uncounted(s1.keypairs[j]);
    }
  }

  lemma ClearEffect(s: Net, r: nat)
    requires r in s.remotes
    ensures Effect(s, ClearKeypairs(r), KeypairsClear(s, r))
  {
    hide Drop;
    var rem := s.remotes[r];
    var s1 := SetSlots(s, r, None, None, None);
    DropFrame(s1, rem.next);
    DropFrame(Drop(s1, rem.next), rem.current);
    DropFrame(Drop(Drop(s1, rem.next), rem.current), rem.previous);
  }

  lemma ReceivedWithFrame(s: Net, k: nat)
    requires k in s.keypairs && s.keypairs[k].remote in s.remotes
    ensures var s' := ReceivedWith(s, k);
            && s'.holders == s.holders && s'.keypairs.Keys == s.keypairs.Keys
            && (forall j :: j in s.keypairs ==> Uncounted(s'.keypairs[j]) == Uncounted(s.keypairs[j]))
            && var r := s.keypairs[k].remote;
            var rem := s.remotes[r];
            s'.remotes == if rem.next == Some(k) then s.remotes[r := rem.(next := None, current := Some(k), previous := rem.current)]
                          else s.remotes
  {
    hide Drop, Uncounted;
    var r := s.keypairs[k].remote;
    var rem := s.remotes[r];
    DropFrame(SetSlots(s, r, None, Some(k), rem.current), rem.previous);
  }

  lemma DeliverRemotes(s: Net, k: nat, nonce: u64, decrypted: bool)
    requires Inv(s) && Enabled(s, DeliverPacket(k, nonce, decrypted))
    ensures RemotesStep(s, DeliverPacket(k, nonce, decrypted), Deliver(s, k, nonce, decrypted))
  {
    HolderKnown(s, k);
    var kp := s.keypairs[k];
    ReceivedWithFrame(s.(keypairs := s.keypairs[k := kp.(accepted := After(kp.accepted, nonce))]), k);
    NextElsewhere(s, k);
    hide Inv, ReceivedWith, Acceptable, After, Uncounted;
  }

  lemma DeliverKeypairs(s: Net, k: nat, nonce: u64, decrypted: bool)
    requires Inv(s) && Enabled(s, DeliverPacket(k, nonce, decrypted))
    ensures KeypairsStep(s, DeliverPacket(k, nonce, decrypted), Deliver(s, k, nonce, decrypted))
    ensures Deliver(s, k, nonce, decrypted).holders == s.holders
  {
    HolderKnown(s, k);
    DeliverFrame(s, k, nonce, decrypted);
    hide Inv, Deliver, Acceptable, After;
  }

  lemma DeliverFrame(s: Net, k: nat, nonce: u64, decrypted: bool)
    requires k in s.keypairs && s.keypairs[k].remote in s.remotes
    ensures var s' := Deliver(s, k, nonce, decrypted);
            && s'.keypairs.Keys == s.keypairs.Keys && s'.holders == s.holders
            && forall j :: j in s.keypairs ==> Uncounted(s'.keypairs[j]) == Noted(s, k, nonce, decrypted, j)
  {
    if decrypted && Acceptable(s.keypairs[k].accepted, nonce) {
      DeliverGood(s, k, nonce);
      hide Deliver;
    } else {
      hide Acceptable;
      assert Deliver(s, k, nonce, decrypted) == s;
    }
  }

  function Noted(s: Net, k: nat, nonce: u64, decrypted: bool, j: nat): Keypair
    requires j in s.keypairs
  {
    hide After;
    var kp := s.keypairs[j];
    Uncounted(kp).(accepted := if j == k && decrypted then After(kp.accepted, nonce) else kp.accepted)
  }

  lemma DeliverGood(s: Net, k: nat, nonce: u64)
    requires k in s.keypairs && s.keypairs[k].remote in s.remotes && Acceptable(s.keypairs[k].accepted, nonce)
    ensures var s' := Deliver(s, k, nonce, true);
            && s'.keypairs.Keys == s.keypairs.Keys && s'.holders == s.holders
            && forall j :: j in s.keypairs ==> Uncounted(s'.keypairs[j]) == Noted(s, k, nonce, true, j)
  {
    hide ReceivedWith, Acceptable, After;
    var kp := s.keypairs[k];
    ReceivedWithFrame(s.(keypairs := s.keypairs[k := kp.(accepted := After(kp.accepted, nonce))]), k);
  }

  lemma HolderKnown(s: Net, k: nat)
    requires Inv(s) && k in s.holders
    ensures k in s.keypairs && s.keypairs[k].remote in s.remotes
  {
    hide SlotsOk, TableOk;
  }

  lemma NextElsewhere(s: Net, k: nat)
    requires SlotsOk(s, {}) && k in s.keypairs
    ensures forall q :: q in s.remotes && s.remotes[q].next == Some(k) ==> s.keypairs[k].remote == q
  {
    forall q | q in s.remotes && s.remotes[q].next == Some(k)
      ensures s.keypairs[k].remote == q
    {
      assert RemoteOk(s.keypairs, {}, q, s.remotes[q]);
    }
  }

  lemma StopFrame(s: Net, slot: Option<nat>)
    ensures var s' := StopSending(s, slot);
            && s'.remotes == s.remotes && s'.holders == s.holders && s'.keypairs.Keys == s.keypairs.Keys
            && forall j :: j in s.keypairs ==> s'.keypairs[j] == s.keypairs[j].(canSend := s.keypairs[j].canSend && slot != Some(j))
  {}

  lemma ExpireFrame(s: Net, r: nat)
    requires r in s.remotes
    ensures var s' := Expire(s, r);
            && s'.remotes == s.remotes[r := s.remotes[r].(state := Dead)] && s'.holders == s.holders
            && s'.keypairs.Keys == s.keypairs.Keys
            && forall j :: j in s.keypairs ==>
                 s'.keypairs[j] == s.keypairs[j].(canSend := s.keypairs[j].canSend && s.remotes[r].next != Some(j) && s.remotes[r].current != Some(j))
  {
    var s1 := IndexRemove(s, r);
    StopFrame(s1, s.remotes[r].next);
    StopFrame(StopSending(s1, s.remotes[r].next), s.remotes[r].current);
    hide StopSending;
  }

  lemma ExpireEffect(s: Net, r: nat)
    requires r in s.remotes
    ensures Effect(s, ExpireCurrent(r), Expire(s, r))
  {
    ExpireFrame(s, r);
    hide Expire;
  }

  lemma AcquireFrame(s: Net, k: Option<nat>)
    requires k.Some? ==> k.value in s.keypairs
    ensures var s' := Acquire(s, k);
            && s'.remotes == s.remotes && s'.holders == s.holders + Of(k) && s'.keypairs.Keys == s.keypairs.Keys
            && forall j :: j in s.keypairs ==> Uncounted(s'.keypairs[j]) == Uncounted(s.keypairs[j])
  {}

  lemma CurrentEffect(s: Net, r: nat, expired: bool)
    requires r in s.remotes
    ensures Effect(s, CurrentKeypair(r, expired), CurrentStep(s, r, expired))
  {
    StopFrame(s, s.remotes[r].current);
    AcquireFrame(s, Current(s, r, false));
    hide StopSending, Acquire;
    if !expired {
      hide Current;
    }
  }

  lemma AcquireEffect(s: Net, op: Op, k: Option<nat>)
    requires op.RefKeypair? || op.LookupKeypair?
    requires Enabled(s, op) && k == (if op.RefKeypair? then Some(op.k) else Lookup(s, op.index))
    requires k.Some? ==> k.value in s.keypairs
    ensures Effect(s, op, Acquire(s, k))
  {
    AcquireFrame(s, k);
    hide Acquire, Lookup;
  }

  lemma PutFrame(s: Net, k: nat)
    ensures var s' := Put(s, k);
            && s'.remotes == s.remotes && s'.holders == s.holders && s'.keypairs.Keys == s.keypairs.Keys
            && forall j :: j in s.keypairs ==> Uncounted(s'.keypairs[j]) == Uncounted(s.keypairs[j])
  {}

  lemma ReleaseEffect(s: Net, k: nat)
    requires Enabled(s, PutKeypair(k))
    ensures Effect(s, PutKeypair(k), Release(s, k))
  {
    PutFrame(s.(holders := s.holders - multiset{k}), k);
    hide Put;
  }

  lemma SameKeypairs(s: Net, op: Op, s': Net)
    requires Enabled(s, op) && s'.keypairs == s.keypairs
    requires !op.Begin? && !op.ExpireCurrent? && !op.CurrentKeypair? && !op.DeliverPacket?
    ensures KeypairsStep(s, op, s')
  {
    hide Enabled;
  }

  lemma InsertEffect(s: Net, op: Op)
    requires op.Initiate? || op.ConsumeInitiation? || op.LearnRemoteIndex? || op.ClearHandshake? || op.NewRemote?
    requires Enabled(s, op)
    ensures Effect(s, op, Apply(s, op))
  {
    if op.r in s.remotes {
      assert IndexRemove(s, op.r).remotes == s.remotes[op.r := s.remotes[op.r].(state := Dead)];
    }
    hide IndexRemove, KeypairsStep;
    SameKeypairs(s, op, Apply(s, op));
  }

  // Every step does to every remote, to every keypair and to the references of callers what is
  // said of it there, and nothing else.
  lemma StepEffect(s: Net, op: Op)
    requires Inv(s) && Enabled(s, op)
    ensures Effect(s, op, Apply(s, op))
  {
    hide RemotesStep, KeypairsStep, Inv;
    match op
    case Begin(r, k) =>
      BeginRemotes(s, r, k);
      BeginKeypairs(s, r, k);
    case ClearKeypairs(r) => ClearEffect(s, r);
    case ExpireCurrent(r) => ExpireEffect(s, r);
    case CurrentKeypair(r, expired) => CurrentEffect(s, r, expired);
    case DeliverPacket(k, nonce, decrypted) =>
      DeliverRemotes(s, k, nonce, decrypted);
      DeliverKeypairs(s, k, nonce, decrypted);
    case LookupKeypair(index) =>
      LookupHeld(s, index);
      AcquireEffect(s, op, Lookup(s, index));
    case RefKeypair(k) =>
      assert k in s.keypairs by {
        HolderKnown(s, k);
      }
      AcquireEffect(s, op, Some(k));
    case PutKeypair(k) => ReleaseEffect(s, k);
    case _ => InsertEffect(s, op);
  }

  // Which keypair noise_keypair_current returns after a step, while it has not expired
  function Sender(s: Net, op: Op, r: nat): Option<nat>
    requires Enabled(s, op) && r in s.remotes
  {
    if op.Begin? && op.r == r && s.remotes[r].state.Initiator? then Some(op.k)
    else if op == ClearKeypairs(r) || op == ExpireCurrent(r) || op == CurrentKeypair(r, true) then None
    else if Promotes(s, op, r) then (if s.keypairs[op.k].canSend then Some(op.k) else None)
    else Current(s, r, false)
  }

  // In every run, what may be sent with changes in exactly these ways: the initiator sends with a
  // new session at once, the responder from the first good packet on; expiry and clearing end
  // sending; nothing else changes it, and no step of another remote does.
  lemma CurrentAfter(ops: seq<Op>, op: Op, r: nat)
    requires Enabled(Exec(EMPTY, ops), op)
    ensures var s := Exec(EMPTY, ops);
            var s' := Apply(s, op);
            r in s.remotes ==> r in s'.remotes && Current(s', r, false) == Sender(s, op, r) && Current(s', r, true) == None
  {
    Reachable(ops);
    var s := Exec(EMPTY, ops);
    StepEffect(s, op);
    if r in s.remotes {
      CurrentFrom(s, op, Apply(s, op), r);
    }
    hide Exec, Apply, Enabled, Sender, Current, Inv, Effect;
  }

  lemma CurrentFrom(s: Net, op: Op, s': Net, r: nat)
    requires Inv(s) && Enabled(s, op) && Effect(s, op, s') && r in s.remotes
    ensures Current(s', r, false) == Sender(s, op, r)
  {
    SenderIs(s, op, r);
    var slot := RemoteAfter(s, op, r).current;
    if slot.Some? {
      RightStep(s, op, s', r, slot.value);
    }
    hide Inv, RemoteAfter, KeypairsStep, Right, Enabled, Sender;
  }

  // Whether the keypair that is current after the step may send
  predicate Right(s: Net, op: Op, r: nat, k: nat) {
    if op.Begin? && op.k == k then true
    else k in s.keypairs && s.keypairs[k].canSend && op != ExpireCurrent(r) && op != CurrentKeypair(r, true)
  }

  lemma SenderIs(s: Net, op: Op, r: nat)
    requires Inv(s) && Enabled(s, op) && r in s.remotes
    ensures var slot := RemoteAfter(s, op, r).current;
            Sender(s, op, r) == if slot.Some? && Right(s, op, r, slot.value) then slot else None
  {
    CurrentSlot(s, op, r);
    var current := s.remotes[r].current;
    assert current.Some? ==> current.value in s.keypairs by {
      hide TableOk, RefsOk, Held;
      assert RemoteOk(s.keypairs, {}, r, s.remotes[r]);
    }
    hide Inv, RemoteAfter, Acceptable;
  }

  lemma RightStep(s: Net, op: Op, s': Net, r: nat, k: nat)
    requires Inv(s) && Enabled(s, op) && KeypairsStep(s, op, s') && r in s.remotes && RemoteAfter(s, op, r).current == Some(k)
    ensures k in s'.keypairs && s'.keypairs[k].canSend == Right(s, op, r, k)
  {
    SlotKeypair(s, op, r, k);
    RightAfter(s, op, r, k);
    hide Inv, RemoteAfter, KeypairAfter, Enabled;
    assert s'.keypairs[k].canSend == Uncounted(s'.keypairs[k]).canSend;
  }

  lemma CurrentSlot(s: Net, op: Op, r: nat)
    requires r in s.remotes
    ensures RemoteAfter(s, op, r).current ==
            if op.Begin? && op.r == r && s.remotes[r].state.Initiator? then Some(op.k)
            else if op == ClearKeypairs(r) then None
            else if Promotes(s, op, r) then Some(op.k)
            else s.remotes[r].current
  {
    hide Acceptable;
  }

  lemma SlotKeypair(s: Net, op: Op, r: nat, k: nat)
    requires SlotsOk(s, {}) && Enabled(s, op) && r in s.remotes && RemoteAfter(s, op, r).current == Some(k)
    ensures (op.Begin? && op.k == k) || (k in s.keypairs && s.keypairs[k].remote == r)
  {
    assert RemoteOk(s.keypairs, {}, r, s.remotes[r]);
    hide SlotsOk, Enabled;
  }

  // The keypair that is current after the step has the right to send as Sender says.
  lemma RightAfter(s: Net, op: Op, r: nat, k: nat)
    requires SlotsOk(s, {}) && Enabled(s, op) && r in s.remotes && RemoteAfter(s, op, r).current == Some(k)
    requires (op.Begin? && op.k == k) || (k in s.keypairs && s.keypairs[k].remote == r)
    ensures KeypairAfter(s, op, k).canSend ==
            if op.Begin? && op.k == k then true else s.keypairs[k].canSend && op != ExpireCurrent(r) && op != CurrentKeypair(r, true)
  {
    hide After;
    if op.ExpireCurrent? || op.CurrentKeypair? {
      assert RemoteOk(s.keypairs, {}, op.r, s.remotes[op.r]);
      hide SlotsOk, Enabled;
    } else {
      hide SlotsOk, Enabled, RemoteAfter;
    }
  }

  // Which keypairs noise_keypair_lookup finds under their index after a step
  predicate Finds(s: Net, op: Op, j: nat)
    requires Enabled(s, op) && (j in s.keypairs || (op.Begin? && op.k == j))
  {
    if op.Begin? && (op.k == j || op.r == s.keypairs[j].remote) then j == op.k || Kept(s.remotes[op.r]) == Some(j)
    else if op == ClearKeypairs(s.keypairs[j].remote) then false
    else if s.keypairs[j].remote in s.remotes && Promotes(s, op, s.keypairs[j].remote) then
      j == op.k || s.remotes[s.keypairs[j].remote].current == Some(j)
    else Lookup(s, s.keypairs[j].localIndex) == Some(j)
  }

  // In every run, what may be received with changes in exactly these ways: a new session leaves
  // itself and one older keypair of the remote, the first good packet leaves its keypair and the
  // one that was current, clearing leaves none; nothing else changes it.
  lemma FoundAfter(ops: seq<Op>, op: Op, j: nat)
    requires Enabled(Exec(EMPTY, ops), op)
    ensures var s := Exec(EMPTY, ops);
            var s' := Apply(s, op);
            j in s'.keypairs ==>
              && (j in s.keypairs || (op.Begin? && op.k == j))
              && (Lookup(s', s'.keypairs[j].localIndex) == Some(j) <==> Finds(s, op, j))
  {
    Reachable(ops);
    var s := Exec(EMPTY, ops);
    var s' := Apply(s, op);
    StepEffect(s, op);
    ApplyKeeps(s, op);
    if j in s'.keypairs {
      FoundFrom(s, op, s', j);
    }
    hide Exec, Apply, Enabled, Finds, Lookup, Inv, Effect;
  }

  lemma FoundFrom(s: Net, op: Op, s': Net, j: nat)
    requires Inv(s) && Inv(s') && Enabled(s, op) && Effect(s, op, s') && j in s'.keypairs
    ensures j in s.keypairs || (op.Begin? && op.k == j)
    ensures Lookup(s', s'.keypairs[j].localIndex) == Some(j) <==> Finds(s, op, j)
  {
    FoundIfHeld(s', j);
    RemoteKept(s, op, s', j);
    if j in s.keypairs {
      FoundIfHeld(s, j);
      SlotAfter(s, op, s.keypairs[j].remote, j);
    } else {
      SlotAfter(s, op, op.r, j);
    }
    hide Inv, KeypairsStep, RemoteAfter, Promotes, Lookup, Enabled;
  }

  lemma RemoteKept(s: Net, op: Op, s': Net, j: nat)
    requires Enabled(s, op) && KeypairsStep(s, op, s') && j in s'.keypairs
    ensures j in s.keypairs || (op.Begin? && op.k == j)
    ensures s'.keypairs[j].remote == if j in s.keypairs then s.keypairs[j].remote else op.r
  {
    assert s'.keypairs[j].remote == Uncounted(s'.keypairs[j]).remote;
    hide Stops, After;
  }

  lemma SlotAfter(s: Net, op: Op, r: nat, j: nat)
    requires r in s.remotes
    ensures InSlot(RemoteAfter(s, op, r), j) <==>
            if op.Begin? && op.r == r then j == op.k || Kept(s.remotes[r]) == Some(j)
            else if op == ClearKeypairs(r) then false
            else if Promotes(s, op, r) then j == op.k || s.remotes[r].current == Some(j)
            else InSlot(s.remotes[r], j)
  {
    hide Acceptable;
  }
}
