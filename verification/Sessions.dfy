/**
 Remotes, keypairs and the index table as values: what each function of src/wg_noise.c:377-784
 does to them, and what every run keeps. Each public function is one atomic step.
 */
module Sessions {
  import opened Wrappers
  import opened Machine
  import opened ReplayWindow

  datatype Handshake = Dead | Initiator | Responder

  datatype Remote = Remote(
    state: Handshake,
    localIndex: u32,
    remoteIndex: u32,
    next: Option<nat>,
    current: Option<nat>,
    previous: Option<nat>)

  datatype Keypair = Keypair(
    remote: nat,
    initiator: bool,
    canSend: bool,
    localIndex: u32,
    remoteIndex: u32,
    refcnt: nat,
    accepted: set<int>)     // nonces that passed the replay check

  // What a node of the index table belongs to
  datatype Owner = RemoteOwner(r: nat) | KeypairOwner(k: nat)

  datatype Net = Net(
    remotes: map<nat, Remote>,
    keypairs: map<nat, Keypair>,   // released ones too
    live: map<u32, Owner>,         // the index table
    holders: multiset<nat>,        // references to keypairs outside the slots
    releases: multiset<nat>)       // keypairs handed to the epoch for freeing

  const EMPTY: Net := Net(map[], map[], map[], multiset{}, multiset{})

  // The functions of the source. A keypair that is not there, or has no reference left, is left
  // alone; the invariant shows that this never happens.

  // noise_keypair_put
  function Put(s: Net, k: nat): (t: Net)
    ensures t.remotes == s.remotes && t.keypairs.Keys == s.keypairs.Keys
  {
    if k !in s.keypairs || s.keypairs[k].refcnt == 0 then s
    else
      var kp := s.keypairs[k];
      s.(keypairs := s.keypairs[k := kp.(refcnt := kp.refcnt - 1)],
         releases := if kp.refcnt == 1 then s.releases + multiset{k} else s.releases)
  }

  // noise_keypair_drop
  function Drop(s: Net, slot: Option<nat>): (t: Net)
    ensures t.remotes == s.remotes && t.keypairs.Keys == s.keypairs.Keys
  {
    hide Put;
    if slot.None? || slot.value !in s.keypairs then s
    else Put(s.(live := s.live - {s.keypairs[slot.value].localIndex}), slot.value)
  }

  function SetSlots(s: Net, r: nat, next: Option<nat>, current: Option<nat>, previous: Option<nat>): Net
    requires r in s.remotes
  {
    s.(remotes := s.remotes[r := s.remotes[r].(next := next, current := current, previous := previous)])
  }

  // The node of keypair k takes the place of the node of its remote, whose handshake is over.
  function TakeIndex(s: Net, r: nat, k: nat): Net
    requires r in s.remotes && k in s.keypairs
  {
    var rem := s.remotes[r];
    s.(keypairs := s.keypairs[k := s.keypairs[k].(localIndex := rem.localIndex, remoteIndex := rem.remoteIndex)],
       live := s.live[rem.localIndex := KeypairOwner(k)],
       remotes := s.remotes[r := rem.(state := Dead)])
  }

  // noise_add_new_keypair, first half: the slots
  function Rotate(s: Net, r: nat, k: nat): (t: Net)
    requires r in s.remotes && k in s.keypairs
    ensures t.remotes.Keys == s.remotes.Keys && t.keypairs.Keys == s.keypairs.Keys
  {
    hide Drop;
    var rem := s.remotes[r];
    if s.keypairs[k].initiator then
      if rem.next.Some? then
        Drop(Drop(SetSlots(s, r, None, Some(k), rem.next), rem.current), rem.previous)
      else
        Drop(SetSlots(s, r, None, Some(k), rem.current), rem.previous)
    else
      Drop(Drop(SetSlots(s, r, Some(k), rem.current, None), rem.next), rem.previous)
  }

  // noise_begin_session, with its noise_add_new_keypair
  function BeginSession(s: Net, r: nat, k: nat): Net
    requires r in s.remotes
  {
    hide Rotate;
    var kp := Keypair(r, s.remotes[r].state.Initiator?, true, 0, 0, 1, {});
    var s' := Rotate(s.(keypairs := s.keypairs[k := kp]), r, k);
    TakeIndex(s', r, k)
  }

  // noise_remote_alloc
  function AddRemote(s: Net, r: nat): Net {
    s.(remotes := s.remotes[r := Remote(Dead, 0, 0, None, None, None)])
  }

  // The index the other side chose
  function SetRemoteIndex(s: Net, r: nat, remoteIndex: u32): Net
    requires r in s.remotes
  {
    s.(remotes := s.remotes[r := s.remotes[r].(remoteIndex := remoteIndex)])
  }

  // noise_remote_index_remove
  function IndexRemove(s: Net, r: nat): (t: Net)
    requires r in s.remotes
    ensures t.remotes.Keys == s.remotes.Keys && t.keypairs == s.keypairs && t.remotes[r].state.Dead?
  {
    var rem := s.remotes[r];
    if rem.state.Dead? then s
    else s.(remotes := s.remotes[r := rem.(state := Dead)], live := s.live - {rem.localIndex})
  }

  // noise_remote_index_insert with the index that was drawn, and the state set after it
  function IndexInsert(s: Net, r: nat, index: u32, state: Handshake, remoteIndex: u32): Net
    requires r in s.remotes
  {
    var s' := IndexRemove(s, r);
    s'.(remotes := s'.remotes[r := s'.remotes[r].(state := state, localIndex := index, remoteIndex := remoteIndex)],
        live := s'.live[index := RemoteOwner(r)])
  }

  // noise_remote_keypairs_clear
  function KeypairsClear(s: Net, r: nat): Net
    requires r in s.remotes
  {
    var rem := s.remotes[r];
    Drop(Drop(Drop(SetSlots(s, r, None, None, None), rem.next), rem.current), rem.previous)
  }

  // noise_keypair_lookup
  function Lookup(s: Net, index: u32): Option<nat> {
    if index in s.live && s.live[index].KeypairOwner? then Some(s.live[index].k) else None
  }

  // What noise_keypair_current returns
  function Current(s: Net, r: nat, expired: bool): Option<nat>
    requires r in s.remotes
  {
    var k := s.remotes[r].current;
    if k.Some? && k.value in s.keypairs && s.keypairs[k.value].canSend && !expired then k else None
  }

  // A reference handed to a caller
  function Acquire(s: Net, k: Option<nat>): Net {
    if k.None? || k.value !in s.keypairs then s
    else
      var kp := s.keypairs[k.value];
      s.(keypairs := s.keypairs[k.value := kp.(refcnt := kp.refcnt + 1)], holders := s.holders + multiset{k.value})
  }

  // noise_keypair_current: a keypair past its time stops sending, any other is handed out
  function CurrentStep(s: Net, r: nat, expired: bool): Net
    requires r in s.remotes
  {
    if expired then StopSending(s, s.remotes[r].current) else Acquire(s, Current(s, r, false))
  }

  // A reference given back by a caller
  function Release(s: Net, k: nat): Net {
    Put(s.(holders := s.holders - multiset{k}), k)
  }

  // noise_keypair_received_with
  function ReceivedWith(s: Net, k: nat): Net
    requires k in s.keypairs
  {
    var r := s.keypairs[k].remote;
    if r !in s.remotes || s.remotes[r].next != Some(k) then s
    else
      var rem := s.remotes[r];
      Drop(SetSlots(s, r, None, Some(k), rem.current), rem.previous)
  }

  // The part of wg_deliver_in that concerns the keypair: only a packet that was decrypted and
  // whose nonce passes is reported to noise_keypair_received_with.
  function Deliver(s: Net, k: nat, nonce: u64, decrypted: bool): Net {
    if k !in s.keypairs || !decrypted || !Acceptable(s.keypairs[k].accepted, nonce) then s
    else
      var kp := s.keypairs[k];
      ReceivedWith(s.(keypairs := s.keypairs[k := kp.(accepted := After(kp.accepted, nonce))]), k)
  }

  // The keypair of a slot may no longer send.
  function StopSending(s: Net, slot: Option<nat>): Net {
    if slot.None? || slot.value !in s.keypairs then s
    else s.(keypairs := s.keypairs[slot.value := s.keypairs[slot.value].(canSend := false)])
  }

  // noise_remote_expire_current
  function Expire(s: Net, r: nat): Net
    requires r in s.remotes
  {
    StopSending(StopSending(IndexRemove(s, r), s.remotes[r].next), s.remotes[r].current)
  }

  // What holds in every reachable state. While an operation is under way, `pending` keypairs have
  // left their slot and are about to be dropped, and `raw` ones have no index yet.

  predicate InSlot(rem: Remote, k: nat) {
    rem.next == Some(k) || rem.current == Some(k) || rem.previous == Some(k)
  }

  predicate Held(s: Net, pending: set<nat>, k: nat) {
    && k in s.keypairs && s.keypairs[k].remote in s.remotes
    && (InSlot(s.remotes[s.keypairs[k].remote], k) || k in pending)
  }

  predicate Fits(keypairs: map<nat, Keypair>, pending: set<nat>, r: nat, slot: Option<nat>) {
    slot.Some? ==> slot.value in keypairs && keypairs[slot.value].remote == r && slot.value !in pending
  }

  // Slots hold distinct keypairs of their own remote; r_next only keypairs made as responder;
  // r_current only keypairs made as initiator or proved to work.
  predicate RemoteOk(keypairs: map<nat, Keypair>, pending: set<nat>, r: nat, rem: Remote) {
    && Fits(keypairs, pending, r, rem.next) && Fits(keypairs, pending, r, rem.current)
    && Fits(keypairs, pending, r, rem.previous)
    && (rem.next.Some? ==> rem.next != rem.current && rem.next != rem.previous && !keypairs[rem.next.value].initiator)
    && (rem.current.Some? ==>
          && rem.current != rem.previous
          && (keypairs[rem.current.value].initiator || keypairs[rem.current.value].accepted != {}))
  }

  ghost predicate SlotsOk(s: Net, pending: set<nat>) {
    forall r :: r in s.remotes ==> RemoteOk(s.keypairs, pending, r, s.remotes[r])
  }

  // A keypair is in the index table exactly when it is in a slot, under its own index; a remote
  // exactly while its handshake is not dead.
  ghost predicate TableOk(s: Net, pending: set<nat>, raw: set<nat>) {
    && (forall x :: x in s.live ==> OwnerOk(s, pending, raw, x, s.live[x]))
    && (forall k :: Held(s, pending, k) && k !in raw ==>
          s.keypairs[k].localIndex in s.live && s.live[s.keypairs[k].localIndex] == KeypairOwner(k))
    && (forall r :: r in s.remotes && !s.remotes[r].state.Dead? ==>
          s.remotes[r].localIndex in s.live && s.live[s.remotes[r].localIndex] == RemoteOwner(r))
  }

  predicate OwnerOk(s: Net, pending: set<nat>, raw: set<nat>, x: u32, owner: Owner) {
    match owner
    case RemoteOwner(r) => r in s.remotes && !s.remotes[r].state.Dead? && s.remotes[r].localIndex == x
    case KeypairOwner(k) => Held(s, pending, k) && k !in raw && s.keypairs[k].localIndex == x
  }

  // The count is the slot reference plus the holders; zero exactly when released, once.
  ghost predicate RefsOk(s: Net, pending: set<nat>) {
    && (forall k :: k in s.keypairs ==>
          && s.keypairs[k].remote in s.remotes
          && s.keypairs[k].refcnt == (if Held(s, pending, k) then 1 else 0) + s.holders[k]
          && s.releases[k] == (if s.keypairs[k].refcnt == 0 then 1 else 0))
    && (forall k :: k !in s.keypairs ==> s.holders[k] == 0 && s.releases[k] == 0)
  }

  ghost predicate Between(s: Net, pending: set<nat>, raw: set<nat>) {
    SlotsOk(s, pending) && TableOk(s, pending, raw) && RefsOk(s, pending) && pending <= s.keypairs.Keys
  }

  ghost predicate Inv(s: Net) {
    Between(s, {}, {})
  }

  // Dropping a pending keypair takes it out of the table and gives up its slot reference.
  lemma DropPending(s: Net, pending: set<nat>, raw: set<nat>, k: nat)
    requires Between(s, pending, raw) && k in pending && k !in raw
    ensures Between(Drop(s, Some(k)), pending - {k}, raw)
  {
    hide SlotsOk, TableOk, RefsOk, Drop;
    PendingHeld(s, pending, k);
    DropShape(s, k);
    HeldAfterDrop(s, pending, k);
    DropSlots(s, pending, k);
    DropTable(s, pending, raw, k);
    DropRefs(s, pending, k);
  }

  lemma PendingHeld(s: Net, pending: set<nat>, k: nat)
    requires RefsOk(s, pending) && k in pending && k in s.keypairs
    ensures Held(s, pending, k)
  {}

  lemma DropShape(s: Net, k: nat)
    requires k in s.keypairs
    ensures var s' := Drop(s, Some(k));
            && s'.remotes == s.remotes && s'.holders == s.holders && s'.keypairs.Keys == s.keypairs.Keys
            && s'.live == s.live - {s.keypairs[k].localIndex}
            && s'.keypairs[k] == s.keypairs[k].(refcnt := s'.keypairs[k].refcnt)
            && forall j :: j in s.keypairs && j != k ==> s'.keypairs[j] == s.keypairs[j]
  {}

  lemma HeldAfterDrop(s: Net, pending: set<nat>, k: nat)
    requires SlotsOk(s, pending) && k in pending && k in s.keypairs
    ensures forall j :: Held(Drop(s, Some(k)), pending - {k}, j) <==> Held(s, pending, j) && j != k
  {
    hide Drop;
    DropShape(s, k);
  }

  lemma DropSlots(s: Net, pending: set<nat>, k: nat)
    requires SlotsOk(s, pending) && k in pending && k in s.keypairs
    ensures SlotsOk(Drop(s, Some(k)), pending - {k})
  {
    hide Drop, Held;
    DropShape(s, k);
  }

  lemma DropTable(s: Net, pending: set<nat>, raw: set<nat>, k: nat)
    requires TableOk(s, pending, raw) && k in s.keypairs && k !in raw && Held(s, pending, k)
    requires forall j :: Held(Drop(s, Some(k)), pending - {k}, j) <==> Held(s, pending, j) && j != k
    ensures TableOk(Drop(s, Some(k)), pending - {k}, raw)
  {
    hide Drop;
    DropShape(s, k);
    var s' := Drop(s, Some(k));
    forall x | x in s'.live
      ensures OwnerOk(s', pending - {k}, raw, x, s'.live[x])
    {
      assert OwnerOk(s, pending, raw, x, s.live[x]);
    }
  }

  lemma DropRefs(s: Net, pending: set<nat>, k: nat)
    requires RefsOk(s, pending) && k in s.keypairs && Held(s, pending, k)
    requires forall j :: Held(Drop(s, Some(k)), pending - {k}, j) <==> Held(s, pending, j) && j != k
    ensures RefsOk(Drop(s, Some(k)), pending - {k})
  {
    hide Held;
  }

  // Moving keypairs between slots and the pending set changes nothing else.
  lemma Reslot(s: Net, pending: set<nat>, pending': set<nat>, raw: set<nat>, r: nat,
               next: Option<nat>, current: Option<nat>, previous: Option<nat>)
    requires Between(s, pending, raw) && r in s.remotes
    requires RemoteOk(s.keypairs, pending', r, Remote(Dead, 0, 0, next, current, previous))
    requires forall k :: k in pending + pending' ==> k in s.keypairs && s.keypairs[k].remote == r
    requires forall k :: InSlot(s.remotes[r], k) || k in pending <==>
                         InSlot(Remote(Dead, 0, 0, next, current, previous), k) || k in pending'
    ensures Between(SetSlots(s, r, next, current, previous), pending', raw)
  {
    hide SlotsOk, TableOk, RefsOk;
    var s' := SetSlots(s, r, next, current, previous);
    forall k
      ensures Held(s', pending', k) <==> Held(s, pending, k)
    {
      if k in s.keypairs && s.keypairs[k].remote == r {
        assert InSlot(s'.remotes[r], k) <==> InSlot(Remote(Dead, 0, 0, next, current, previous), k);
      }
    }
    ResetSlots(s, pending, pending', r, next, current, previous);
    SameTable(s, s', pending, pending', raw);
    SameRefs(s, s', pending, pending');
  }

  lemma ResetSlots(s: Net, pending: set<nat>, pending': set<nat>, r: nat,
                   next: Option<nat>, current: Option<nat>, previous: Option<nat>)
    requires SlotsOk(s, pending) && r in s.remotes
    requires RemoteOk(s.keypairs, pending', r, Remote(Dead, 0, 0, next, current, previous))
    requires forall k :: k in pending' ==> k in s.keypairs && s.keypairs[k].remote == r
    ensures SlotsOk(SetSlots(s, r, next, current, previous), pending')
  {
    var s' := SetSlots(s, r, next, current, previous);
    forall q | q in s'.remotes
      ensures RemoteOk(s'.keypairs, pending', q, s'.remotes[q])
    {
      assert RemoteOk(s.keypairs, pending, q, s.remotes[q]);
    }
  }

  lemma SameRefs(s: Net, s': Net, pending: set<nat>, pending': set<nat>)
    requires RefsOk(s, pending) && s'.holders == s.holders && s'.releases == s.releases
    requires s'.remotes.Keys == s.remotes.Keys && s'.keypairs.Keys == s.keypairs.Keys
    requires forall k :: k in s.keypairs ==> s'.keypairs[k].remote == s.keypairs[k].remote && s'.keypairs[k].refcnt == s.keypairs[k].refcnt
    requires forall k :: Held(s', pending', k) <==> Held(s, pending, k)
    ensures RefsOk(s', pending')
  {
    hide Held;
  }

  lemma SameSlots(s: Net, s': Net, pending: set<nat>)
    requires SlotsOk(s, pending) && s'.remotes.Keys == s.remotes.Keys && s'.keypairs.Keys == s.keypairs.Keys
    requires forall r :: r in s.remotes ==> SlotsEqual(s.remotes[r], s'.remotes[r])
    requires forall k :: k in s.keypairs ==> SameRole(s.keypairs[k], s'.keypairs[k])
    ensures SlotsOk(s', pending)
    ensures forall k :: Held(s', pending, k) <==> Held(s, pending, k)
  {
    forall r | r in s.remotes
      ensures RemoteOk(s'.keypairs, pending, r, s'.remotes[r])
    {
      assert RemoteOk(s.keypairs, pending, r, s.remotes[r]);
    }
  }

  predicate SlotsEqual(a: Remote, b: Remote) {
    a.next == b.next && a.current == b.current && a.previous == b.previous
  }

  predicate SameRole(a: Keypair, b: Keypair) {
    a.remote == b.remote && a.initiator == b.initiator && (a.accepted != {} ==> b.accepted != {})
  }

  lemma SameTable(s: Net, s': Net, pending: set<nat>, pending': set<nat>, raw: set<nat>)
    requires TableOk(s, pending, raw) && s'.keypairs == s.keypairs && s'.live == s.live
    requires s'.remotes.Keys == s.remotes.Keys
    requires forall r :: r in s.remotes ==> s'.remotes[r].state == s.remotes[r].state && s'.remotes[r].localIndex == s.remotes[r].localIndex
    requires forall k :: Held(s', pending', k) <==> Held(s, pending, k)
    ensures TableOk(s', pending', raw)
  {
    hide Held;
    forall x | x in s'.live
      ensures OwnerOk(s', pending', raw, x, s'.live[x])
    {
      assert OwnerOk(s, pending, raw, x, s.live[x]);
    }
  }

  // A new keypair: nobody knows it yet, and it has the reference its slot will own.
  lemma NewKeypair(s: Net, r: nat, k: nat, kp: Keypair)
    requires Inv(s) && r in s.remotes && k !in s.keypairs && kp.remote == r && kp.refcnt == 1
    ensures Between(s.(keypairs := s.keypairs[k := kp]), {k}, {k})
  {
    hide TableOk, RefsOk;
    var s' := s.(keypairs := s.keypairs[k := kp]);
    assert forall j :: Held(s', {k}, j) <==> Held(s, {}, j) || j == k;
    NewTable(s, s', k);
    NewRefs(s, s', k);
  }

  lemma NewTable(s: Net, s': Net, k: nat)
    requires TableOk(s, {}, {}) && k !in s.keypairs && s'.remotes == s.remotes && s'.live == s.live
    requires k in s'.keypairs && s'.keypairs == s.keypairs[k := s'.keypairs[k]]
    requires forall j :: Held(s', {k}, j) <==> Held(s, {}, j) || j == k
    ensures TableOk(s', {k}, {k})
  {
    forall x | x in s'.live
      ensures OwnerOk(s', {k}, {k}, x, s'.live[x])
    {
      assert OwnerOk(s, {}, {}, x, s.live[x]);
    }
  }

  lemma NewRefs(s: Net, s': Net, k: nat)
    requires RefsOk(s, {}) && k !in s.keypairs && k in s'.keypairs && s'.keypairs == s.keypairs[k := s'.keypairs[k]]
    requires s'.remotes == s.remotes && s'.holders == s.holders && s'.releases == s.releases
    requires s'.keypairs[k].refcnt == 1 && s'.keypairs[k].remote in s.remotes
    requires forall j :: Held(s', {k}, j) <==> Held(s, {}, j) || j == k
    ensures RefsOk(s', {k})
  {
    assert !Held(s, {}, k);
    hide Held;
  }

  // The last keypair without an index gets the one of its remote's handshake.
  lemma TakeIndexKeeps(s: Net, r: nat, k: nat)
    requires Between(s, {}, {k}) && r in s.remotes && !s.remotes[r].state.Dead? && InSlot(s.remotes[r], k)
    ensures k in s.keypairs && Inv(TakeIndex(s, r, k))
  {
    assert RemoteOk(s.keypairs, {}, r, s.remotes[r]);
    hide SlotsOk, TableOk, RefsOk;
    var s' := TakeIndex(s, r, k);
    SameSlots(s, s', {});
    SameRefs(s, s', {}, {});
    TakeIndexTable(s, r, k);
  }

  lemma TakeIndexTable(s: Net, r: nat, k: nat)
    requires TableOk(s, {}, {k}) && r in s.remotes && k in s.keypairs && Held(s, {}, k) && !s.remotes[r].state.Dead?
    requires forall j :: Held(TakeIndex(s, r, k), {}, j) <==> Held(s, {}, j)
    ensures TableOk(TakeIndex(s, r, k), {}, {})
  {
    var s' := TakeIndex(s, r, k);
    forall x | x in s'.live
      ensures OwnerOk(s', {}, {}, x, s'.live[x])
    {
      if x in s.live {
        assert OwnerOk(s, {}, {k}, x, s.live[x]);
      }
    }
  }

  function SetOf(slot: Option<nat>): set<nat> {
    if slot.None? then {} else {slot.value}
  }

  lemma DropSlot(s: Net, pending: set<nat>, raw: set<nat>, slot: Option<nat>)
    requires Between(s, pending, raw) && SetOf(slot) <= pending && SetOf(slot) !! raw
    ensures Between(Drop(s, slot), pending - SetOf(slot), raw)
  {
    hide SlotsOk, TableOk, RefsOk;
    if slot.Some? {
      DropPending(s, pending, raw, slot.value);
    } else {
      assert pending - {} == pending;
    }
  }

  // Two keypairs that have left their slots, dropped one after the other
  lemma DropBoth(s: Net, raw: set<nat>, a: Option<nat>, b: Option<nat>)
    requires Between(s, SetOf(a) + SetOf(b), raw) && SetOf(a) !! SetOf(b) && raw !! SetOf(a) + SetOf(b)
    ensures Between(Drop(s, a), SetOf(b), raw)
    ensures Between(Drop(Drop(s, a), b), {}, raw)
  {
    hide SlotsOk, TableOk, RefsOk, Drop;
    assert SetOf(a) + SetOf(b) - SetOf(a) == SetOf(b) && SetOf(b) - SetOf(b) == {};
    DropSlot(s, SetOf(a) + SetOf(b), raw, a);
    DropSlot(Drop(s, a), SetOf(b), raw, b);
  }

  // The three ways in which noise_add_new_keypair moves the slots, and what leaves them

  lemma MoveOverNextSlots(keypairs: map<nat, Keypair>, r: nat, rem: Remote, k: nat)
    requires RemoteOk(keypairs, {k}, r, rem) && k in keypairs && keypairs[k].remote == r && keypairs[k].initiator && rem.next.Some?
    ensures RemoteOk(keypairs, SetOf(rem.current) + SetOf(rem.previous), r, Remote(Dead, 0, 0, None, Some(k), rem.next))
    ensures forall j :: j in {k} + (SetOf(rem.current) + SetOf(rem.previous)) ==> j in keypairs && keypairs[j].remote == r
    ensures forall j :: InSlot(rem, j) || j in {k} <==> InSlot(Remote(Dead, 0, 0, None, Some(k), rem.next), j) || j in SetOf(rem.current) + SetOf(rem.previous)
    ensures SetOf(rem.current) !! SetOf(rem.previous) && {k} !! SetOf(rem.current) + SetOf(rem.previous)
  {}

  lemma MoveOverNext(s: Net, r: nat, k: nat)
    requires Between(s, {k}, {k}) && r in s.remotes && s.keypairs[k].remote == r
    requires s.keypairs[k].initiator && s.remotes[r].next.Some?
    ensures var rem := s.remotes[r];
            && SetOf(rem.current) !! SetOf(rem.previous) && {k} !! SetOf(rem.current) + SetOf(rem.previous)
            && Between(SetSlots(s, r, None, Some(k), rem.next), SetOf(rem.current) + SetOf(rem.previous), {k})
  {
    var rem := s.remotes[r];
    assert RemoteOk(s.keypairs, {k}, r, rem);
    MoveOverNextSlots(s.keypairs, r, rem, k);
    hide SlotsOk, TableOk, RefsOk, SetSlots, RemoteOk, InSlot, SetOf;
    Reslot(s, {k}, SetOf(rem.current) + SetOf(rem.previous), {k}, r, None, Some(k), rem.next);
  }

  lemma MoveOverCurrentSlots(keypairs: map<nat, Keypair>, r: nat, rem: Remote, k: nat)
    requires RemoteOk(keypairs, {k}, r, rem) && k in keypairs && keypairs[k].remote == r && keypairs[k].initiator && rem.next.None?
    ensures RemoteOk(keypairs, SetOf(rem.previous), r, Remote(Dead, 0, 0, None, Some(k), rem.current))
    ensures forall j :: j in {k} + (SetOf(rem.previous)) ==> j in keypairs && keypairs[j].remote == r
    ensures forall j :: InSlot(rem, j) || j in {k} <==> InSlot(Remote(Dead, 0, 0, None, Some(k), rem.current), j) || j in SetOf(rem.previous)
    ensures {k} !! SetOf(rem.previous)
  {}

  lemma MoveOverCurrent(s: Net, r: nat, k: nat)
    requires Between(s, {k}, {k}) && r in s.remotes && s.keypairs[k].remote == r
    requires s.keypairs[k].initiator && s.remotes[r].next.None?
    ensures var rem := s.remotes[r];
            && {k} !! SetOf(rem.previous)
            && Between(SetSlots(s, r, None, Some(k), rem.current), SetOf(rem.previous), {k})
  {
    var rem := s.remotes[r];
    assert RemoteOk(s.keypairs, {k}, r, rem);
    MoveOverCurrentSlots(s.keypairs, r, rem, k);
    hide SlotsOk, TableOk, RefsOk, SetSlots, RemoteOk, InSlot, SetOf;
    Reslot(s, {k}, SetOf(rem.previous), {k}, r, None, Some(k), rem.current);
  }

  lemma MoveIntoNextSlots(keypairs: map<nat, Keypair>, r: nat, rem: Remote, k: nat)
    requires RemoteOk(keypairs, {k}, r, rem) && k in keypairs && keypairs[k].remote == r && !keypairs[k].initiator
    ensures RemoteOk(keypairs, SetOf(rem.next) + SetOf(rem.previous), r, Remote(Dead, 0, 0, Some(k), rem.current, None))
    ensures forall j :: j in {k} + (SetOf(rem.next) + SetOf(rem.previous)) ==> j in keypairs && keypairs[j].remote == r
    ensures forall j :: InSlot(rem, j) || j in {k} <==> InSlot(Remote(Dead, 0, 0, Some(k), rem.current, None), j) || j in SetOf(rem.next) + SetOf(rem.previous)
    ensures SetOf(rem.next) !! SetOf(rem.previous) && {k} !! SetOf(rem.next) + SetOf(rem.previous)
  {}

  lemma MoveIntoNext(s: Net, r: nat, k: nat)
    requires Between(s, {k}, {k}) && r in s.remotes && s.keypairs[k].remote == r && !s.keypairs[k].initiator
    ensures var rem := s.remotes[r];
            && SetOf(rem.next) !! SetOf(rem.previous) && {k} !! SetOf(rem.next) + SetOf(rem.previous)
            && Between(SetSlots(s, r, Some(k), rem.current, None), SetOf(rem.next) + SetOf(rem.previous), {k})
  {
    var rem := s.remotes[r];
    assert RemoteOk(s.keypairs, {k}, r, rem);
    MoveIntoNextSlots(s.keypairs, r, rem, k);
    hide SlotsOk, TableOk, RefsOk, SetSlots, RemoteOk, InSlot, SetOf;
    Reslot(s, {k}, SetOf(rem.next) + SetOf(rem.previous), {k}, r, Some(k), rem.current, None);
  }

  lemma RotateKeeps(s: Net, r: nat, k: nat)
    requires Between(s, {k}, {k}) && r in s.remotes && s.keypairs[k].remote == r
    ensures Between(Rotate(s, r, k), {}, {k})
  {
    hide SlotsOk, TableOk, RefsOk, Drop, SetSlots;
    var rem := s.remotes[r];
    if !s.keypairs[k].initiator {
      MoveIntoNext(s, r, k);
      DropBoth(SetSlots(s, r, Some(k), rem.current, None), {k}, rem.next, rem.previous);
    } else if rem.next.Some? {
      MoveOverNext(s, r, k);
      DropBoth(SetSlots(s, r, None, Some(k), rem.next), {k}, rem.current, rem.previous);
    } else {
      MoveOverCurrent(s, r, k);
      DropSlot(SetSlots(s, r, None, Some(k), rem.current), SetOf(rem.previous), {k}, rem.previous);
      assert SetOf(rem.previous) - SetOf(rem.previous) == {};
    }
  }

  lemma RotateSlots(s: Net, r: nat, k: nat)
    requires r in s.remotes && k in s.keypairs
    ensures InSlot(Rotate(s, r, k).remotes[r], k)
    ensures Rotate(s, r, k).remotes[r].state == s.remotes[r].state
  {
    hide Drop;
  }

  lemma BeginSessionKeeps(s: Net, r: nat, k: nat)
    requires Inv(s) && r in s.remotes && !s.remotes[r].state.Dead? && k !in s.keypairs
    ensures Inv(BeginSession(s, r, k))
  {
    hide SlotsOk, TableOk, RefsOk, Rotate, TakeIndex;
    var kp := Keypair(r, s.remotes[r].state.Initiator?, true, 0, 0, 1, {});
    var s' := s.(keypairs := s.keypairs[k := kp]);
    NewKeypair(s, r, k, kp);
    RotateKeeps(s', r, k);
    RotateSlots(s', r, k);
    TakeIndexKeeps(Rotate(s', r, k), r, k);
  }

  lemma EmptySlotsSlots(keypairs: map<nat, Keypair>, r: nat, rem: Remote)
    requires RemoteOk(keypairs, {}, r, rem)
    ensures RemoteOk(keypairs, SetOf(rem.next) + SetOf(rem.current) + SetOf(rem.previous), r, Remote(Dead, 0, 0, None, None, None))
    ensures forall j :: j in {} + (SetOf(rem.next) + SetOf(rem.current) + SetOf(rem.previous)) ==> j in keypairs && keypairs[j].remote == r
    ensures forall j :: InSlot(rem, j) || j in {} <==>
                        InSlot(Remote(Dead, 0, 0, None, None, None), j) || j in SetOf(rem.next) + SetOf(rem.current) + SetOf(rem.previous)
    ensures SetOf(rem.next) !! SetOf(rem.current) !! SetOf(rem.previous)
  {}

  lemma EmptySlots(s: Net, r: nat)
    requires Inv(s) && r in s.remotes
    ensures var rem := s.remotes[r];
            && SetOf(rem.next) !! SetOf(rem.current) !! SetOf(rem.previous)
            && Between(SetSlots(s, r, None, None, None), SetOf(rem.next) + SetOf(rem.current) + SetOf(rem.previous), {})
  {
    var rem := s.remotes[r];
    assert RemoteOk(s.keypairs, {}, r, rem);
    EmptySlotsSlots(s.keypairs, r, rem);
    hide SlotsOk, TableOk, RefsOk, SetSlots, RemoteOk, InSlot, SetOf;
    Reslot(s, {}, SetOf(rem.next) + SetOf(rem.current) + SetOf(rem.previous), {}, r, None, None, None);
  }

  lemma KeypairsClearKeeps(s: Net, r: nat)
    requires Inv(s) && r in s.remotes
    ensures Inv(KeypairsClear(s, r))
  {
    hide SlotsOk, TableOk, RefsOk, Drop, SetSlots;
    var rem := s.remotes[r];
    EmptySlots(s, r);
    var s' := SetSlots(s, r, None, None, None);
    DropSlot(s', SetOf(rem.next) + SetOf(rem.current) + SetOf(rem.previous), {}, rem.next);
    assert SetOf(rem.next) + SetOf(rem.current) + SetOf(rem.previous) - SetOf(rem.next) == SetOf(rem.current) + SetOf(rem.previous);
    DropBoth(Drop(s', rem.next), {}, rem.current, rem.previous);
  }

  lemma Promote(s: Net, k: nat)
    requires Inv(s) && k in s.keypairs && s.keypairs[k].accepted != {}
    requires s.keypairs[k].remote in s.remotes && s.remotes[s.keypairs[k].remote].next == Some(k)
    ensures var r := s.keypairs[k].remote;
            Between(SetSlots(s, r, None, Some(k), s.remotes[r].current), SetOf(s.remotes[r].previous), {})
  {
    var r := s.keypairs[k].remote;
    var rem := s.remotes[r];
    assert RemoteOk(s.keypairs, {}, r, rem);
    hide SlotsOk, TableOk, RefsOk, SetSlots;
    Reslot(s, {}, SetOf(rem.previous), {}, r, None, Some(k), rem.current);
  }

  lemma ReceivedWithKeeps(s: Net, k: nat)
    requires Inv(s) && k in s.keypairs && s.keypairs[k].accepted != {}
    ensures Inv(ReceivedWith(s, k))
  {
    hide SlotsOk, TableOk, RefsOk, Drop, SetSlots;
    var r := s.keypairs[k].remote;
    if r in s.remotes && s.remotes[r].next == Some(k) {
      var rem := s.remotes[r];
      Promote(s, k);
      DropSlot(SetSlots(s, r, None, Some(k), rem.current), SetOf(rem.previous), {}, rem.previous);
      assert SetOf(rem.previous) - SetOf(rem.previous) == {};
    }
  }

  lemma IndexRemoveKeeps(s: Net, r: nat)
    requires Inv(s) && r in s.remotes
    ensures Inv(IndexRemove(s, r))
  {
    hide SlotsOk, TableOk, RefsOk;
    var s' := IndexRemove(s, r);
    SameSlots(s, s', {});
    SameRefs(s, s', {}, {});
    RemovedTable(s, r);
  }

  lemma SetRemoteIndexKeeps(s: Net, r: nat, remoteIndex: u32)
    requires Inv(s) && r in s.remotes
    ensures Inv(SetRemoteIndex(s, r, remoteIndex))
  {
    hide SlotsOk, TableOk, RefsOk;
    var s' := SetRemoteIndex(s, r, remoteIndex);
    SameSlots(s, s', {});
    SameRefs(s, s', {}, {});
    SameTable(s, s', {}, {}, {});
  }

  // What noise_remote_index_insert leaves in the remote and in the table
  lemma IndexInsertShape(s: Net, r: nat, index: u32, state: Handshake, remoteIndex: u32)
    requires r in s.remotes
    ensures var s' := IndexInsert(s, r, index, state, remoteIndex);
            && s'.remotes.Keys == s.remotes.Keys && s'.keypairs == s.keypairs
            && s'.remotes[r].state == state && s'.remotes[r].localIndex == index && s'.remotes[r].remoteIndex == remoteIndex
            && index in s'.live && s'.live[index] == RemoteOwner(r)
  {}

  // What noise_begin_session leaves in the new keypair and in the table
  lemma BeginSessionShape(s: Net, r: nat, k: nat)
    requires r in s.remotes
    ensures var s' := BeginSession(s, r, k);
            && s'.remotes.Keys == s.remotes.Keys && s'.keypairs.Keys == s.keypairs.Keys + {k}
            && s'.keypairs[k].localIndex == s.remotes[r].localIndex && s'.keypairs[k].remoteIndex == s.remotes[r].remoteIndex
            && Lookup(s', s.remotes[r].localIndex) == Some(k)
  {
    hide Drop;
  }

  lemma RemovedTable(s: Net, r: nat)
    requires TableOk(s, {}, {}) && r in s.remotes
    requires forall k :: Held(IndexRemove(s, r), {}, k) <==> Held(s, {}, k)
    ensures TableOk(IndexRemove(s, r), {}, {})
  {
    var s' := IndexRemove(s, r);
    forall x | x in s'.live
      ensures OwnerOk(s', {}, {}, x, s'.live[x])
    {
      assert OwnerOk(s, {}, {}, x, s.live[x]);
    }
    assert forall k :: Held(s, {}, k) ==> s.live[s.keypairs[k].localIndex] == KeypairOwner(k);
  }

  lemma IndexInsertKeeps(s: Net, r: nat, index: u32, state: Handshake, remoteIndex: u32)
    requires Inv(s) && r in s.remotes && !state.Dead? && index !in IndexRemove(s, r).live
    ensures Inv(IndexInsert(s, r, index, state, remoteIndex))
  {
    IndexRemoveKeeps(s, r);
    hide SlotsOk, TableOk, RefsOk, IndexRemove, Held;
    var s' := IndexRemove(s, r);
    var t := IndexInsert(s, r, index, state, remoteIndex);
    SameSlots(s', t, {});
    SameRefs(s', t, {}, {});
    InsertedTable(s', t, r, index);
  }

  lemma InsertedTable(s: Net, t: Net, r: nat, index: u32)
    requires TableOk(s, {}, {}) && r in s.remotes && s.remotes[r].state.Dead? && index !in s.live
    requires t.live == s.live[index := RemoteOwner(r)] && t.keypairs == s.keypairs
    requires r in t.remotes && t.remotes == s.remotes[r := t.remotes[r]] && !t.remotes[r].state.Dead? && t.remotes[r].localIndex == index
    requires forall k :: Held(t, {}, k) <==> Held(s, {}, k)
    ensures TableOk(t, {}, {})
  {
    forall x | x in t.live
      ensures OwnerOk(t, {}, {}, x, t.live[x])
    {
      if x != index {
        assert OwnerOk(s, {}, {}, x, s.live[x]);
      }
    }
  }

  lemma AcquireKeeps(s: Net, k: Option<nat>)
    requires Inv(s) && (k.Some? ==> Held(s, {}, k.value) || k.value in s.holders)
    ensures Inv(Acquire(s, k))
  {
    hide SlotsOk, TableOk, RefsOk;
    var s' := Acquire(s, k);
    SameSlots(s, s', {});
    FieldsTable(s, s');
    AcquireRefs(s, k);
  }

  // Only fields that the table does not speak of have changed.
  lemma FieldsTable(s: Net, s': Net)
    requires TableOk(s, {}, {}) && s'.remotes == s.remotes && s'.live == s.live && s'.keypairs.Keys == s.keypairs.Keys
    requires forall k :: k in s.keypairs ==> s'.keypairs[k].localIndex == s.keypairs[k].localIndex
    requires forall k :: Held(s', {}, k) <==> Held(s, {}, k)
    ensures TableOk(s', {}, {})
  {
    forall x | x in s'.live
      ensures OwnerOk(s', {}, {}, x, s'.live[x])
    {
      assert OwnerOk(s, {}, {}, x, s.live[x]);
    }
  }

  // refcount_acquire_if_not_zero never fails on a keypair that is in the table or has a holder.
  lemma AcquireRefs(s: Net, k: Option<nat>)
    requires RefsOk(s, {})
    requires k.Some? ==> Held(s, {}, k.value) || k.value in s.holders
    requires forall j :: Held(Acquire(s, k), {}, j) <==> Held(s, {}, j)
    ensures RefsOk(Acquire(s, k), {})
  {
    hide Held;
  }

  lemma ReleaseKeeps(s: Net, k: nat)
    requires Inv(s) && k in s.holders
    ensures Inv(Release(s, k))
  {
    hide SlotsOk, TableOk, RefsOk;
    var s' := Release(s, k);
    SameSlots(s, s', {});
    FieldsTable(s, s');
    ReleaseRefs(s, k);
  }

  lemma ReleaseRefs(s: Net, k: nat)
    requires RefsOk(s, {}) && k in s.holders
    requires forall j :: Held(Release(s, k), {}, j) <==> Held(s, {}, j)
    ensures RefsOk(Release(s, k), {})
  {
    hide Held, Release;
    ReleaseShape(s, k);
  }

  lemma ReleaseShape(s: Net, k: nat)
    requires k in s.keypairs && s.keypairs[k].refcnt > 0 && k in s.holders
    ensures var s' := Release(s, k);
            var left := s.keypairs[k].refcnt - 1;
            && s'.remotes == s.remotes && s'.keypairs == s.keypairs[k := s.keypairs[k].(refcnt := left)]
            && s'.holders[k] == s.holders[k] - 1
            && s'.releases[k] == s.releases[k] + (if left == 0 then 1 else 0)
            && (forall j :: j != k ==> s'.holders[j] == s.holders[j])
            && (forall j :: j != k ==> s'.releases[j] == s.releases[j])
  {}

  lemma NoteNonceKeeps(s: Net, k: nat, nonce: u64)
    requires Inv(s) && k in s.keypairs
    ensures Inv(s.(keypairs := s.keypairs[k := s.keypairs[k].(accepted := After(s.keypairs[k].accepted, nonce))]))
  {
    hide SlotsOk, TableOk, RefsOk, Acceptable;
    var kp := s.keypairs[k];
    var s' := s.(keypairs := s.keypairs[k := kp.(accepted := After(kp.accepted, nonce))]);
    SameSlots(s, s', {});
    FieldsTable(s, s');
    SameRefs(s, s', {}, {});
  }

  lemma DeliverKeeps(s: Net, k: nat, nonce: u64, decrypted: bool)
    requires Inv(s)
    ensures Inv(Deliver(s, k, nonce, decrypted))
  {
    hide SlotsOk, TableOk, RefsOk, Acceptable, ReceivedWith;
    if k in s.keypairs && decrypted && Acceptable(s.keypairs[k].accepted, nonce) {
      var kp := s.keypairs[k];
      var s' := s.(keypairs := s.keypairs[k := kp.(accepted := After(kp.accepted, nonce))]);
      assert nonce in s'.keypairs[k].accepted;
      NoteNonceKeeps(s, k, nonce);
      ReceivedWithKeeps(s', k);
    }
  }

  lemma StopSendingKeeps(s: Net, slot: Option<nat>)
    requires Inv(s)
    ensures Inv(StopSending(s, slot))
  {
    hide SlotsOk, TableOk, RefsOk;
    var s' := StopSending(s, slot);
    SameSlots(s, s', {});
    FieldsTable(s, s');
    SameRefs(s, s', {}, {});
  }

  // Runs

  datatype Op =
    | NewRemote(r: nat)
    | Initiate(r: nat, index: u32)
    | ConsumeInitiation(r: nat, index: u32, remoteIndex: u32)
    | LearnRemoteIndex(r: nat, remoteIndex: u32)
    | Begin(r: nat, k: nat)
    | ClearHandshake(r: nat)
    | ClearKeypairs(r: nat)
    | ExpireCurrent(r: nat)
    | LookupKeypair(index: u32)
    | CurrentKeypair(r: nat, expired: bool)
    | RefKeypair(k: nat)
    | PutKeypair(k: nat)
    | DeliverPacket(k: nat, nonce: u64, decrypted: bool)

  // What the callers in the source make sure of before they call
  predicate Enabled(s: Net, op: Op) {
    match op
    case NewRemote(r) => r !in s.remotes
    case Initiate(r, index) => r in s.remotes && index !in IndexRemove(s, r).live
    case ConsumeInitiation(r, index, _) => r in s.remotes && index !in IndexRemove(s, r).live
    case LearnRemoteIndex(r, _) => r in s.remotes
    case Begin(r, k) => r in s.remotes && !s.remotes[r].state.Dead? && k !in s.keypairs
    case ClearHandshake(r) => r in s.remotes
    case ClearKeypairs(r) => r in s.remotes
    case ExpireCurrent(r) => r in s.remotes
    case LookupKeypair(_) => true
    case CurrentKeypair(r, _) => r in s.remotes
    case RefKeypair(k) => k in s.holders
    case PutKeypair(k) => k in s.holders
    case DeliverPacket(k, _, _) => k in s.holders
  }

  function Apply(s: Net, op: Op): Net
    requires Enabled(s, op)
  {
    hide BeginSession, KeypairsClear, Deliver;
    match op
    case NewRemote(r) => AddRemote(s, r)
    case Initiate(r, index) => IndexInsert(s, r, index, Initiator, s.remotes[r].remoteIndex)
    case ConsumeInitiation(r, index, remoteIndex) => IndexInsert(s, r, index, Responder, remoteIndex)
    case LearnRemoteIndex(r, remoteIndex) => SetRemoteIndex(s, r, remoteIndex)
    case Begin(r, k) => BeginSession(s, r, k)
    case ClearHandshake(r) => IndexRemove(s, r)
    case ClearKeypairs(r) => KeypairsClear(s, r)
    case ExpireCurrent(r) => Expire(s, r)
    case LookupKeypair(index) => Acquire(s, Lookup(s, index))
    case CurrentKeypair(r, expired) => CurrentStep(s, r, expired)
    case RefKeypair(k) => Acquire(s, Some(k))
    case PutKeypair(k) => Release(s, k)
    case DeliverPacket(k, nonce, decrypted) => Deliver(s, k, nonce, decrypted)
  }

  lemma ApplyKeeps(s: Net, op: Op)
    requires Inv(s) && Enabled(s, op)
    ensures Inv(Apply(s, op))
  {
    hide SlotsOk, TableOk, RefsOk, BeginSession, KeypairsClear, Deliver, IndexRemove, IndexInsert, Acquire, Release, StopSending;
    match op
    case NewRemote(r) => AddRemoteKeeps(s, r);
    case Initiate(r, index) => IndexInsertKeeps(s, r, index, Initiator, s.remotes[r].remoteIndex);
    case ConsumeInitiation(r, index, remoteIndex) => IndexInsertKeeps(s, r, index, Responder, remoteIndex);
    case LearnRemoteIndex(r, remoteIndex) => SetRemoteIndexKeeps(s, r, remoteIndex);
    case Begin(r, k) => BeginSessionKeeps(s, r, k);
    case ClearHandshake(r) => IndexRemoveKeeps(s, r);
    case ClearKeypairs(r) => KeypairsClearKeeps(s, r);
    case ExpireCurrent(r) =>
      IndexRemoveKeeps(s, r);
      StopSendingKeeps(IndexRemove(s, r), s.remotes[r].next);
      StopSendingKeeps(StopSending(IndexRemove(s, r), s.remotes[r].next), s.remotes[r].current);
    case LookupKeypair(index) =>
      LookupHeld(s, index);
      AcquireKeeps(s, Lookup(s, index));
    case CurrentKeypair(r, expired) =>
      CurrentHeld(s, r, false);
      AcquireKeeps(s, Current(s, r, false));
      StopSendingKeeps(s, s.remotes[r].current);
    case RefKeypair(k) => AcquireKeeps(s, Some(k));
    case PutKeypair(k) => ReleaseKeeps(s, k);
    case DeliverPacket(k, nonce, decrypted) => DeliverKeeps(s, k, nonce, decrypted);
  }

  lemma AddRemoteKeeps(s: Net, r: nat)
    requires Inv(s) && r !in s.remotes
    ensures Inv(AddRemote(s, r))
  {
    var s' := AddRemote(s, r);
    hide SlotsOk, TableOk, RefsOk;
    AddedHeld(s, s', r);
    AddedTable(s, s', r);
  }

  lemma AddedHeld(s: Net, s': Net, r: nat)
    requires SlotsOk(s, {}) && RefsOk(s, {}) && r !in s.remotes && s' == s.(remotes := s'.remotes)
    requires s'.remotes == s.remotes[r := Remote(Dead, 0, 0, None, None, None)]
    ensures forall k :: Held(s', {}, k) <==> Held(s, {}, k)
    ensures SlotsOk(s', {}) && RefsOk(s', {})
  {
    forall k
      ensures Held(s', {}, k) <==> Held(s, {}, k)
    {
      hide SlotsOk;
    }
    AddedSlots(s, s', r);
    hide SlotsOk, Held;
  }

  lemma AddedSlots(s: Net, s': Net, r: nat)
    requires SlotsOk(s, {}) && s' == s.(remotes := s.remotes[r := Remote(Dead, 0, 0, None, None, None)])
    ensures SlotsOk(s', {})
  {}

  lemma AddedTable(s: Net, s': Net, r: nat)
    requires TableOk(s, {}, {}) && r !in s.remotes && s'.keypairs == s.keypairs && s'.live == s.live
    requires r in s'.remotes && s'.remotes == s.remotes[r := s'.remotes[r]] && s'.remotes[r].state.Dead?
    requires forall k :: Held(s', {}, k) <==> Held(s, {}, k)
    ensures TableOk(s', {}, {})
  {
    forall x | x in s'.live
      ensures OwnerOk(s', {}, {}, x, s'.live[x])
    {
      assert OwnerOk(s, {}, {}, x, s.live[x]);
    }
  }

  lemma LookupHeld(s: Net, index: u32)
    requires Inv(s)
    ensures Lookup(s, index).Some? ==> Held(s, {}, Lookup(s, index).value)
  {
    hide RefsOk, SlotsOk, Held;
    if Lookup(s, index).Some? {
      assert OwnerOk(s, {}, {}, index, s.live[index]);
    }
  }

  lemma CurrentHeld(s: Net, r: nat, expired: bool)
    requires Inv(s) && r in s.remotes
    ensures Current(s, r, expired).Some? ==> Held(s, {}, Current(s, r, expired).value)
  {
    hide RefsOk, TableOk;
    assert RemoteOk(s.keypairs, {}, r, s.remotes[r]);
  }

  // An operation whose caller may not call it is skipped.
  function Exec(s: Net, ops: seq<Op>): Net
    decreases |ops|
  {
    hide Apply, Enabled;
    if ops == [] then s
    else Exec(if Enabled(s, ops[0]) then Apply(s, ops[0]) else s, ops[1..])
  }

  lemma {:induction false} ExecKeeps(s: Net, ops: seq<Op>)
    requires Inv(s)
    ensures Inv(Exec(s, ops))
    decreases |ops|
  {
    hide Inv, Apply, Enabled;
    if ops != [] {
      if Enabled(s, ops[0]) {
        ApplyKeeps(s, ops[0]);
      }
      ExecKeeps(if Enabled(s, ops[0]) then Apply(s, ops[0]) else s, ops[1..]);
    }
  }

  lemma Reachable(ops: seq<Op>)
    ensures Inv(Exec(EMPTY, ops))
  {
    assert Inv(EMPTY);
    ExecKeeps(EMPTY, ops);
  }

  // What a reader wants to know of every reachable state

  // A keypair is released at most once in any run, and only when no slot and no caller has it.
  lemma ReleasedOnce(ops: seq<Op>, k: nat)
    ensures var s := Exec(EMPTY, ops);
            && s.releases[k] <= 1
            && (k in s.releases ==> k !in s.holders && !Held(s, {}, k))
            && (k in s.keypairs && k !in s.releases ==> k in s.holders || Held(s, {}, k))
  {
    hide Exec, SlotsOk, TableOk, Held;
    Reachable(ops);
  }

  // Of all remotes in handshake and all keypairs in slots, no two have the same local index.
  lemma IndexUnique(ops: seq<Op>, k: nat, j: nat)
    ensures var s := Exec(EMPTY, ops);
            && (Held(s, {}, k) && Held(s, {}, j) && s.keypairs[k].localIndex == s.keypairs[j].localIndex ==> k == j)
            && (Held(s, {}, k) && j in s.remotes && !s.remotes[j].state.Dead? ==> s.keypairs[k].localIndex != s.remotes[j].localIndex)
            && (k in s.remotes && j in s.remotes && !s.remotes[k].state.Dead? && !s.remotes[j].state.Dead? && s.remotes[k].localIndex == s.remotes[j].localIndex ==> k == j)
            && (Held(s, {}, k) ==> Lookup(s, s.keypairs[k].localIndex) == Some(k))
  {
    hide Exec, SlotsOk, RefsOk;
    Reachable(ops);
  }

  // A keypair made as responder is handed out for sending only after a nonce under it passed the
  // replay check.
  lemma ResponderWaits(ops: seq<Op>, r: nat, expired: bool)
    ensures var s := Exec(EMPTY, ops);
            r in s.remotes && Current(s, r, expired).Some? ==>
              var kp := s.keypairs[Current(s, r, expired).value];
              kp.remote == r && kp.canSend && (kp.initiator || kp.accepted != {})
  {
    hide Exec, TableOk, RefsOk;
    Reachable(ops);
    var s := Exec(EMPTY, ops);
    if r in s.remotes {
      assert RemoteOk(s.keypairs, {}, r, s.remotes[r]);
    }
  }

  // Which keypair a new session leaves in use beside its own: for the initiator the newest there
  // was, for the responder the one it sends with
  function Kept(rem: Remote): Option<nat> {
    if rem.state.Initiator? && rem.next.Some? then rem.next else rem.current
  }

  lemma SessionSlots(s: Net, r: nat, k: nat)
    requires r in s.remotes
    ensures var rem := BeginSession(s, r, k).remotes[r];
            if s.remotes[r].state.Initiator?
            then rem.next == None && rem.current == Some(k) && rem.previous == Kept(s.remotes[r])
            else rem.next == Some(k) && rem.current == Kept(s.remotes[r]) && rem.previous == None
  {
    hide Drop;
  }

  lemma NewMaySend(s: Net, r: nat, k: nat)
    requires r in s.remotes
    ensures k in BeginSession(s, r, k).keypairs && BeginSession(s, r, k).keypairs[k].canSend
  {
    hide Drop;
    var rem := s.remotes[r];
    var initiator := rem.state.Initiator?;
    var s1 := s.(keypairs := s.keypairs[k := Keypair(r, initiator, true, 0, 0, 1, {})]);
    if initiator && rem.next == None {
      DropQuieter(SetSlots(s1, r, None, Some(k), rem.current), rem.previous);
    } else {
      var first := if initiator then rem.current else rem.next;
      var s2 := if initiator then SetSlots(s1, r, None, Some(k), rem.next) else SetSlots(s1, r, Some(k), rem.current, None);
      DropQuieter(s2, first);
      DropQuieter(Drop(s2, first), rem.previous);
    }
  }

  // Sessions overlap. After a session begins, exactly two keypairs of the remote can be found: the
  // new one, and the newest before it for the initiator or the current one for the responder. The
  // initiator sends with the new one at once, the responder goes on with the one it had.
  lemma SessionsOverlap(ops: seq<Op>, r: nat, k: nat, j: nat)
    requires Enabled(Exec(EMPTY, ops), Begin(r, k))
    ensures var s := Exec(EMPTY, ops);
            var s' := Apply(s, Begin(r, k));
            && (j in s'.keypairs && s'.keypairs[j].remote == r ==>
                  (Lookup(s', s'.keypairs[j].localIndex) == Some(j) <==> j == k || Kept(s.remotes[r]) == Some(j)))
            && s'.remotes[r].current == (if s.remotes[r].state.Initiator? then Some(k) else s.remotes[r].current)
            && (s.remotes[r].state.Initiator? ==> Current(s', r, false) == Some(k))
  {
    hide Exec, BeginSession, SlotsOk, RefsOk;
    Reachable(ops);
    var s := Exec(EMPTY, ops);
    BeginSessionKeeps(s, r, k);
    NewMaySend(s, r, k);
    SessionSlots(s, r, k);
    if j in Apply(s, Begin(r, k)).keypairs {
      FoundIfHeld(Apply(s, Begin(r, k)), j);
    }
  }

  // Lookup under its own index finds a keypair exactly while it is in a slot.
  lemma FoundIfHeld(s: Net, j: nat)
    requires Inv(s) && j in s.keypairs
    ensures s.keypairs[j].remote in s.remotes
    ensures Lookup(s, s.keypairs[j].localIndex) == Some(j) <==> InSlot(s.remotes[s.keypairs[j].remote], j)
  {
    hide SlotsOk;
    if s.keypairs[j].localIndex in s.live {
      assert OwnerOk(s, {}, {}, s.keypairs[j].localIndex, s.live[s.keypairs[j].localIndex]);
    }
    assert Held(s, {}, j) <==> InSlot(s.remotes[s.keypairs[j].remote], j);
  }

  // The first good packet under the responder's new keypair makes it current; the one before stays
  // findable, everything older is gone. Any other packet moves nothing.
  lemma FirstPacketPromotes(ops: seq<Op>, k: nat, nonce: u64, decrypted: bool)
    requires Enabled(Exec(EMPTY, ops), DeliverPacket(k, nonce, decrypted))
    ensures var s := Exec(EMPTY, ops);
            && k in s.keypairs && s.keypairs[k].remote in s.remotes
            && Apply(s, DeliverPacket(k, nonce, decrypted)).remotes.Keys == s.remotes.Keys
            && var r := s.keypairs[k].remote;
            var rem, rem' := s.remotes[r], Apply(s, DeliverPacket(k, nonce, decrypted)).remotes[r];
            if decrypted && Acceptable(s.keypairs[k].accepted, nonce) && rem.next == Some(k)
            then rem'.current == Some(k) && rem'.previous == rem.current && rem'.next == None
            else rem' == rem
  {
    hide Exec, SlotsOk, TableOk, Drop, Acceptable;
    Reachable(ops);
  }

  // No keypair of this remote may send, nor would one that could be promoted.
  predicate Silent(s: Net, r: nat) {
    && r in s.remotes
    && Mute(s, s.remotes[r].next) && Mute(s, s.remotes[r].current)
  }

  predicate Mute(s: Net, slot: Option<nat>) {
    slot.Some? ==> slot.value in s.keypairs && !s.keypairs[slot.value].canSend
  }

  // Keypairs keep their right to send, or lose it; the slots of r are as they were.
  predicate Quieter(s: Net, s': Net, r: nat) {
    && r in s.remotes && r in s'.remotes
    && s'.remotes[r].next == s.remotes[r].next && s'.remotes[r].current == s.remotes[r].current
    && forall k :: k in s.keypairs ==> k in s'.keypairs && (s'.keypairs[k].canSend ==> s.keypairs[k].canSend)
  }

  lemma DropQuieter(s: Net, slot: Option<nat>)
    ensures var s' := Drop(s, slot);
            forall k :: k in s.keypairs ==> k in s'.keypairs && s'.keypairs[k].canSend == s.keypairs[k].canSend
  {}

  lemma ReceivedWithSilent(s: Net, k: nat, r: nat)
    requires Silent(s, r) && k in s.keypairs
    ensures Silent(ReceivedWith(s, k), r)
  {
    hide Drop;
    var q := s.keypairs[k].remote;
    if q in s.remotes && s.remotes[q].next == Some(k) {
      DropQuieter(SetSlots(s, q, None, Some(k), s.remotes[q].current), s.remotes[q].previous);
    }
  }

  lemma DeliverSilent(s: Net, k: nat, nonce: u64, decrypted: bool, r: nat)
    requires Silent(s, r)
    ensures Silent(Deliver(s, k, nonce, decrypted), r)
  {
    hide ReceivedWith, Acceptable, After;
    if k in s.keypairs && decrypted && Acceptable(s.keypairs[k].accepted, nonce) {
      var kp := s.keypairs[k];
      ReceivedWithSilent(s.(keypairs := s.keypairs[k := kp.(accepted := After(kp.accepted, nonce))]), k, r);
    }
  }

  lemma KeypairsClearSilent(s: Net, q: nat, r: nat)
    requires Silent(s, r) && q in s.remotes
    ensures Silent(KeypairsClear(s, q), r)
  {
    hide Drop;
    var rem := s.remotes[q];
    var s1 := SetSlots(s, q, None, None, None);
    DropQuieter(s1, rem.next);
    DropQuieter(Drop(s1, rem.next), rem.current);
    DropQuieter(Drop(Drop(s1, rem.next), rem.current), rem.previous);
  }

  // A session of another remote
  lemma BeginSilent(s: Net, q: nat, k: nat, r: nat)
    requires Silent(s, r) && q in s.remotes && q != r && k !in s.keypairs
    ensures Silent(BeginSession(s, q, k), r)
  {
    var kp := Keypair(q, s.remotes[q].state.Initiator?, true, 0, 0, 1, {});
    var s1 := s.(keypairs := s.keypairs[k := kp]);
    RotateQuieter(s1, q, k, r);
  }

  lemma RotateQuieter(s: Net, q: nat, k: nat, r: nat)
    requires q in s.remotes && r in s.remotes && q != r && k in s.keypairs
    ensures Quieter(s, Rotate(s, q, k), r)
  {
    hide Drop;
    var rem := s.remotes[q];
    if !s.keypairs[k].initiator {
      var s1 := SetSlots(s, q, Some(k), rem.current, None);
      DropQuieter(s1, rem.next);
      DropQuieter(Drop(s1, rem.next), rem.previous);
    } else if rem.next.Some? {
      var s1 := SetSlots(s, q, None, Some(k), rem.next);
      DropQuieter(s1, rem.current);
      DropQuieter(Drop(s1, rem.current), rem.previous);
    } else {
      DropQuieter(SetSlots(s, q, None, Some(k), rem.current), rem.previous);
    }
  }

  lemma QuieterSilent(s: Net, s': Net, r: nat)
    requires Silent(s, r) && Quieter(s, s', r)
    ensures Silent(s', r)
  {}

  lemma IndexRemoveQuieter(s: Net, q: nat, r: nat)
    requires q in s.remotes && r in s.remotes
    ensures Quieter(s, IndexRemove(s, q), r)
  {}

  lemma IndexInsertQuieter(s: Net, q: nat, index: u32, state: Handshake, remoteIndex: u32, r: nat)
    requires q in s.remotes && r in s.remotes
    ensures Quieter(s, IndexInsert(s, q, index, state, remoteIndex), r)
  {
    IndexRemoveQuieter(s, q, r);
    hide IndexRemove;
  }

  lemma AcquireQuieter(s: Net, k: Option<nat>, r: nat)
    requires r in s.remotes
    ensures Quieter(s, Acquire(s, k), r)
  {}

  lemma StopSendingQuieter(s: Net, slot: Option<nat>, r: nat)
    requires r in s.remotes
    ensures Quieter(s, StopSending(s, slot), r)
  {}

  lemma ReleaseQuieter(s: Net, k: nat, r: nat)
    requires r in s.remotes
    ensures Quieter(s, Release(s, k), r)
  {}

  lemma ExpireQuieter(s: Net, q: nat, r: nat)
    requires q in s.remotes && r in s.remotes
    ensures Quieter(s, Expire(s, q), r)
  {
    hide IndexRemove, StopSending;
    var s1 := IndexRemove(s, q);
    var s2 := StopSending(s1, s.remotes[q].next);
    IndexRemoveQuieter(s, q, r);
    StopSendingQuieter(s1, s.remotes[q].next, r);
    StopSendingQuieter(s2, s.remotes[q].current, r);
  }

  // Every other operation leaves the slots of r alone.
  lemma OthersQuieter(s: Net, op: Op, r: nat)
    requires r in s.remotes && Enabled(s, op) && !op.Begin? && !op.ClearKeypairs? && !op.DeliverPacket?
    ensures Quieter(s, Apply(s, op), r)
  {
    hide IndexRemove, IndexInsert, Acquire, Release, StopSending, Expire, Lookup, Current;
    match op
    case NewRemote(_) =>
    case Initiate(q, index) => IndexInsertQuieter(s, q, index, Initiator, s.remotes[q].remoteIndex, r);
    case ConsumeInitiation(q, index, remoteIndex) => IndexInsertQuieter(s, q, index, Responder, remoteIndex, r);
    case LearnRemoteIndex(_, _) =>
    case ClearHandshake(q) => IndexRemoveQuieter(s, q, r);
    case ExpireCurrent(q) => ExpireQuieter(s, q, r);
    case LookupKeypair(index) => AcquireQuieter(s, Lookup(s, index), r);
    case CurrentKeypair(q, _) =>
      AcquireQuieter(s, Current(s, q, false), r);
      StopSendingQuieter(s, s.remotes[q].current, r);
    case RefKeypair(k) => AcquireQuieter(s, Some(k), r);
    case PutKeypair(k) => ReleaseQuieter(s, k, r);
  }

  lemma StaysSilent(s: Net, op: Op, r: nat)
    requires Silent(s, r) && Enabled(s, op) && !(op.Begin? && op.r == r)
    ensures Silent(Apply(s, op), r)
  {
    hide BeginSession, KeypairsClear, Deliver, IndexRemove, IndexInsert, Acquire, Release, StopSending, Expire, Quieter;
    match op
    case Begin(q, k) => BeginSilent(s, q, k, r);
    case ClearKeypairs(q) => KeypairsClearSilent(s, q, r);
    case DeliverPacket(k, nonce, decrypted) => DeliverSilent(s, k, nonce, decrypted, r);
    case _ =>
      OthersQuieter(s, op, r);
      QuieterSilent(s, Apply(s, op), r);
  }

  lemma {:induction false} ExecSilent(s: Net, ops: seq<Op>, r: nat)
    requires Silent(s, r) && forall i :: 0 <= i < |ops| ==> !(ops[i].Begin? && ops[i].r == r)
    ensures Silent(Exec(s, ops), r)
    decreases |ops|
  {
    hide Silent, Apply, Enabled;
    if ops != [] {
      if Enabled(s, ops[0]) {
        StaysSilent(s, ops[0], r);
      }
      ExecSilent(if Enabled(s, ops[0]) then Apply(s, ops[0]) else s, ops[1..], r);
    }
  }

  // After noise_remote_expire_current, whatever happens, nothing is handed out for sending to this
  // remote until a new session begins with it.
  lemma ExpireStops(before: seq<Op>, r: nat, later: seq<Op>, expired: bool)
    requires Enabled(Exec(EMPTY, before), ExpireCurrent(r))
    requires forall i :: 0 <= i < |later| ==> !(later[i].Begin? && later[i].r == r)
    ensures var s := Exec(Apply(Exec(EMPTY, before), ExpireCurrent(r)), later);
            r in s.remotes && Current(s, r, expired) == None
  {
    hide Exec, TableOk, RefsOk, Expire;
    Reachable(before);
    var s := Exec(EMPTY, before);
    assert RemoteOk(s.keypairs, {}, r, s.remotes[r]);
    hide SlotsOk, RemoteOk;
    ExpireSilent(s, r);
    ExecSilent(Expire(s, r), later, r);
  }

  lemma ExpireSilent(s: Net, r: nat)
    requires r in s.remotes && RemoteOk(s.keypairs, {}, r, s.remotes[r])
    ensures Silent(Expire(s, r), r)
  {
    hide IndexRemove;
    IndexRemoveQuieter(s, r, r);
  }
}
