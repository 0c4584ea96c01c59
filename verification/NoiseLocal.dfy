/**
 The mutable noise state (src/wg_noise.c:377-784): remotes, keypairs and the index table, each
 method proved to take the step that Sessions gives for it.
 */
module NoiseLocal {
  import opened Wrappers
  import opened Machine
  import opened ReplayWindow
  import opened Sessions
  import opened IndexTable

  class Local {
    const table: Table
    var remotes: map<nat, Remote>
    var keypairs: map<nat, Keypair>

    ghost var holders: multiset<nat>
    ghost var releases: multiset<nat>

    ghost function View(): (s: Net)
      reads this, table
    {
      Net(remotes, keypairs, table.live, holders, releases)
    }

    ghost predicate Valid()
      reads this, table, table.buckets
    {
      table.Valid() && Inv(View())
    }

    constructor ()
      ensures Valid() && fresh(table) && fresh(table.buckets)
      ensures View() == EMPTY
    {
      table := new Table();
      remotes, keypairs := map[], map[];
      holders, releases := multiset{}, multiset{};
    }

    // noise_remote_alloc; `r` is the new allocation
    method RemoteAlloc(r: nat)
      requires Valid() && r !in remotes
      modifies this`remotes
      ensures Valid()
      ensures View() == AddRemote(old(View()), r)
    {
      AddRemoteKeeps(View(), r);
      remotes := remotes[r := Remote(Dead, 0, 0, None, None, None)];
    }

    // noise_keypair_put: the keypair is handed to the epoch when the last reference goes
    method RefRelease(k: nat)
      requires k in keypairs && keypairs[k].refcnt > 0
      modifies this`keypairs, this`releases
      ensures View() == Put(old(View()), k)
    {
      var kp := keypairs[k];
      keypairs := keypairs[k := kp.(refcnt := kp.refcnt - 1)];
      if kp.refcnt == 1 {
        releases := releases + multiset{k};
      }
    }

    // noise_keypair_drop of a keypair that has just left its slot
    method KeypairDrop(slot: Option<nat>, ghost pending: set<nat>, ghost raw: set<nat>)
      requires table.Valid() && Between(View(), pending, raw) && SetOf(slot) <= pending && SetOf(slot) !! raw
      modifies this`keypairs, this`releases, table, table.buckets
      ensures table.Valid() && View() == Drop(old(View()), slot)
      ensures Between(View(), pending - SetOf(slot), raw)
    {
      hide Table.Valid, SlotsOk, TableOk, RefsOk;
      DropSlot(View(), pending, raw, slot);
      if slot.None? {
        return;
      }
      var k := slot.value;
      PendingReferenced(View(), pending, raw, k);
      table.Remove(keypairs[k].localIndex);
      RefRelease(k);
    }

    // The slot stores of one operation under r_keypair_mtx
    method StoreSlots(r: nat, next: Option<nat>, current: Option<nat>, previous: Option<nat>)
      requires r in remotes
      modifies this`remotes
      ensures View() == SetSlots(old(View()), r, next, current, previous)
    {
      remotes := remotes[r := remotes[r].(next := next, current := current, previous := previous)];
    }

    // noise_add_new_keypair, under r_keypair_mtx
    method RotateIn(r: nat, k: nat)
      requires table.Valid() && Between(View(), {k}, {k}) && r in remotes && keypairs[k].remote == r
      modifies this`remotes, this`keypairs, this`releases, table, table.buckets
      ensures table.Valid() && View() == Rotate(old(View()), r, k)
    {
      hide Table.Valid, SlotsOk, TableOk, RefsOk, Drop, SetSlots;
      var rem := remotes[r];
      if keypairs[k].initiator {
        if rem.next.Some? {
          MoveOverNext(View(), r, k);
          StoreSlots(r, None, Some(k), rem.next);
          DropBoth(View(), {k}, rem.current, rem.previous);
          KeypairDrop(rem.current, SetOf(rem.current) + SetOf(rem.previous), {k});
        } else {
          MoveOverCurrent(View(), r, k);
          StoreSlots(r, None, Some(k), rem.current);
        }
      } else {
        MoveIntoNext(View(), r, k);
        StoreSlots(r, Some(k), rem.current, None);
        DropBoth(View(), {k}, rem.next, rem.previous);
        KeypairDrop(rem.next, SetOf(rem.next) + SetOf(rem.previous), {k});
      }
      KeypairDrop(rem.previous, SetOf(rem.previous), {k});
    }

    // noise_add_new_keypair, under l_index_mtx
    method InsertIndex(r: nat, k: nat)
      requires table.Valid() && r in remotes && k in keypairs && remotes[r].localIndex in table.live
      modifies this`remotes, this`keypairs, table, table.buckets
      ensures table.Valid() && View() == TakeIndex(old(View()), r, k)
    {
      hide Table.Valid;
      var rem := remotes[r];
      keypairs := keypairs[k := keypairs[k].(localIndex := rem.localIndex, remoteIndex := rem.remoteIndex)];
      table.Supplant(rem.localIndex, KeypairOwner(k));
      remotes := remotes[r := rem.(state := Dead)];
    }

    method SetRemoteIndex(r: nat, remoteIndex: u32)
      requires Valid() && r in remotes
      modifies this`remotes
      ensures Valid()
      ensures View() == Sessions.SetRemoteIndex(old(View()), r, remoteIndex)
    {
      SetRemoteIndexKeeps(View(), r, remoteIndex);
      remotes := remotes[r := remotes[r].(remoteIndex := remoteIndex)];
    }

    // noise_begin_session; `k` is the new allocation
    method BeginSession(r: nat, k: nat)
      requires Valid() && r in remotes && !remotes[r].state.Dead? && k !in keypairs
      modifies this, table, table.buckets
      ensures Valid()
      ensures View() == Sessions.BeginSession(old(View()), r, k)
    {
      hide Table.Valid, SlotsOk, TableOk, RefsOk, Rotate, TakeIndex;
      BeginSessionKeeps(View(), r, k);
      var kp := Keypair(r, remotes[r].state.Initiator?, true, 0, 0, 1, {});
      NewKeypair(View(), r, k, kp);
      keypairs := keypairs[k := kp];
      RotateKeeps(View(), r, k);
      RotateSlots(View(), r, k);
      RotateIn(r, k);
      StillIndexed(View(), r, {k});
      InsertIndex(r, k);
    }

    // noise_remote_index_remove
    method IndexRemove(r: nat) returns (removed: bool)
      requires Valid() && r in remotes
      modifies this`remotes, table, table.buckets
      ensures Valid()
      ensures View() == Sessions.IndexRemove(old(View()), r) && removed == !old(remotes[r].state.Dead?)
    {
      IndexRemoveKeeps(View(), r);
      hide Table.Valid, SlotsOk, TableOk, RefsOk;
      removed := !remotes[r].state.Dead?;
      if removed {
        StillIndexed(View(), r, {});
        var index := remotes[r].localIndex;
        remotes := remotes[r := remotes[r].(state := Dead)];
        table.Remove(index);
      }
    }

    // noise_remote_index_insert, and the state its two callers set after it
    method IndexInsert(r: nat, state: Handshake, remoteIndex: u32, draws: seq<u32>) returns (index: u32)
      requires Valid() && r in remotes && !state.Dead?
      requires exists d :: d in draws && d !in Sessions.IndexRemove(View(), r).live
      modifies this`remotes, table, table.buckets
      ensures Valid()
      ensures index in draws && index !in Sessions.IndexRemove(old(View()), r).live
      ensures View() == Sessions.IndexInsert(old(View()), r, index, state, remoteIndex)
    {
      hide Table.Valid, SlotsOk, TableOk, RefsOk;
      ghost var s := View();
      var _ := IndexRemove(r);
      index := table.Draw(draws);
      IndexInsertKeeps(s, r, index, state, remoteIndex);
      table.Insert(index, RemoteOwner(r));
      remotes := remotes[r := remotes[r].(state := state, localIndex := index, remoteIndex := remoteIndex)];
    }

    // noise_remote_keypairs_clear
    method KeypairsClear(r: nat)
      requires Valid() && r in remotes
      modifies this, table, table.buckets
      ensures Valid()
      ensures View() == Sessions.KeypairsClear(old(View()), r)
    {
      hide Table.Valid, SlotsOk, TableOk, RefsOk, Drop, SetSlots;
      var rem := remotes[r];
      KeypairsClearKeeps(View(), r);
      EmptySlots(View(), r);
      StoreSlots(r, None, None, None);
      KeypairDrop(rem.next, SetOf(rem.next) + SetOf(rem.current) + SetOf(rem.previous), {});
      assert SetOf(rem.next) + SetOf(rem.current) + SetOf(rem.previous) - SetOf(rem.next) == SetOf(rem.current) + SetOf(rem.previous);
      DropBoth(View(), {}, rem.current, rem.previous);
      KeypairDrop(rem.current, SetOf(rem.current) + SetOf(rem.previous), {});
      KeypairDrop(rem.previous, SetOf(rem.previous), {});
    }

    // noise_keypair_received_with; true stands for ECONNRESET
    method ReceivedWith(k: nat) returns (promoted: bool)
      requires Valid() && k in keypairs && keypairs[k].accepted != {}
      modifies this, table, table.buckets
      ensures Valid()
      ensures View() == Sessions.ReceivedWith(old(View()), k)
      ensures promoted <==> old(keypairs[k].remote in remotes && remotes[keypairs[k].remote].next == Some(k))
    {
      hide Table.Valid, SlotsOk, TableOk, RefsOk, Drop, SetSlots;
      var r := keypairs[k].remote;
      ReceivedWithKeeps(View(), k);
      if r !in remotes || remotes[r].next != Some(k) {
        return false;
      }
      var rem := remotes[r];
      Promote(View(), k);
      StoreSlots(r, None, Some(k), rem.current);
      KeypairDrop(rem.previous, SetOf(rem.previous), {});
      promoted := true;
    }

    // The part of wg_deliver_in that concerns the keypair of a packet
    method Deliver(k: nat, nonce: u64, decrypted: bool) returns (promoted: bool)
      requires Valid() && k in holders
      modifies this, table, table.buckets
      ensures Valid()
      ensures View() == Sessions.Deliver(old(View()), k, nonce, decrypted)
      ensures promoted <==> old(k in keypairs && decrypted && Acceptable(keypairs[k].accepted, nonce) &&
                                keypairs[k].remote in remotes && remotes[keypairs[k].remote].next == Some(k))
    {
      HolderReferenced(View(), k);
      hide Table.Valid, SlotsOk, TableOk, RefsOk, Acceptable, Sessions.ReceivedWith;
      if !decrypted || !Acceptable(keypairs[k].accepted, nonce) {
        return false;
      }
      NoteNonceKeeps(View(), k, nonce);
      keypairs := keypairs[k := keypairs[k].(accepted := After(keypairs[k].accepted, nonce))];
      assert nonce in keypairs[k].accepted;
      promoted := ReceivedWith(k);
    }

    // noise_remote_index_lookup: what an index stands for
    method Find(index: u32) returns (found: Option<Owner>)
      requires Valid()
      ensures found == if index in table.live then Some(table.live[index]) else None
      ensures found.Some? && found.value.RemoteOwner? ==> found.value.r in remotes && !remotes[found.value.r].state.Dead?
    {
      hide Table.Valid, SlotsOk, RefsOk;
      found := table.Find(index);
      if found.Some? {
        assert OwnerOk(View(), {}, {}, index, table.live[index]);
      }
    }

    // noise_keypair_lookup: walks the bucket and takes a reference
    method KeypairLookup(index: u32) returns (found: Option<nat>)
      requires Valid()
      modifies this`keypairs, this`holders
      ensures Valid()
      ensures found == Lookup(old(View()), index) && View() == Acquire(old(View()), found)
    {
      hide Table.Valid, SlotsOk, TableOk, RefsOk;
      LookupHeld(View(), index);
      AcquireKeeps(View(), Lookup(View(), index));
      var owner := table.Find(index);
      if owner == None || owner.value.RemoteOwner? {
        return None;
      }
      found := Some(owner.value.k);
      RefAcquire(owner.value.k);
    }

    method RefAcquire(k: nat)
      requires k in keypairs
      modifies this`keypairs, this`holders
      ensures View() == Acquire(old(View()), Some(k))
    {
      keypairs := keypairs[k := keypairs[k].(refcnt := keypairs[k].refcnt + 1)];
      holders := holders + multiset{k};
    }

    // noise_keypair_current; `expired` says whether REJECT_AFTER_TIME has passed since its birth
    method KeypairCurrent(r: nat, expired: bool) returns (found: Option<nat>)
      requires Valid() && r in remotes
      modifies this`keypairs, this`holders
      ensures Valid()
      ensures found == Current(old(View()), r, expired) && View() == CurrentStep(old(View()), r, expired)
    {
      hide Table.Valid, SlotsOk, TableOk, RefsOk;
      CurrentHeld(View(), r, false);
      AcquireKeeps(View(), Current(View(), r, false));
      StopSendingKeeps(View(), remotes[r].current);
      var kp := remotes[r].current;
      found := None;
      if kp.Some? && kp.value in keypairs && keypairs[kp.value].canSend {
        if expired {
          keypairs := keypairs[kp.value := keypairs[kp.value].(canSend := false)];
        } else {
          RefAcquire(kp.value);
          found := kp;
        }
      } else if kp.Some? && kp.value in keypairs {
        assert keypairs[kp.value := keypairs[kp.value].(canSend := false)] == keypairs;
      }
    }

    // noise_keypair_ref by a caller that holds a reference
    method KeypairRef(k: nat)
      requires Valid() && k in holders
      modifies this`keypairs, this`holders
      ensures Valid()
      ensures View() == Acquire(old(View()), Some(k))
    {
      HolderReferenced(View(), k);
      AcquireKeeps(View(), Some(k));
      hide Table.Valid, SlotsOk, TableOk, RefsOk;
      RefAcquire(k);
    }

    // noise_remote_expire_current
    method ExpireCurrent(r: nat)
      requires Valid() && r in remotes
      modifies this`remotes, this`keypairs, table, table.buckets
      ensures Valid()
      ensures View() == Expire(old(View()), r)
    {
      hide Table.Valid, SlotsOk, TableOk, RefsOk, Sessions.IndexRemove, Sessions.StopSending;
      var next, current := remotes[r].next, remotes[r].current;
      var _ := IndexRemove(r);
      StopSending(next);
      StopSending(current);
    }

    // kp_can_send of the keypair in a slot is cleared.
    method StopSending(slot: Option<nat>)
      requires Valid()
      modifies this`keypairs
      ensures Valid()
      ensures View() == Sessions.StopSending(old(View()), slot)
    {
      hide Table.Valid, SlotsOk, TableOk, RefsOk;
      StopSendingKeeps(View(), slot);
      if slot.Some? && slot.value in keypairs {
        keypairs := keypairs[slot.value := keypairs[slot.value].(canSend := false)];
      }
    }

    // noise_keypair_put by a caller that holds a reference
    method KeypairPut(k: nat)
      requires Valid() && k in holders
      modifies this`keypairs, this`holders, this`releases
      ensures Valid()
      ensures View() == Release(old(View()), k)
    {
      HolderReferenced(View(), k);
      ReleaseKeeps(View(), k);
      hide Table.Valid, SlotsOk, TableOk, RefsOk;
      holders := holders - multiset{k};
      RefRelease(k);
    }
  }

  lemma HolderReferenced(s: Net, k: nat)
    requires Inv(s) && k in s.holders
    ensures k in s.keypairs && s.keypairs[k].refcnt > 0
  {}

  lemma StillIndexed(s: Net, r: nat, raw: set<nat>)
    requires Between(s, {}, raw) && r in s.remotes && !s.remotes[r].state.Dead?
    ensures s.remotes[r].localIndex in s.live
  {}

  // A keypair about to be dropped still has its slot reference and its node.
  lemma PendingReferenced(s: Net, pending: set<nat>, raw: set<nat>, k: nat)
    requires Between(s, pending, raw) && k in pending && k !in raw
    ensures k in s.keypairs && s.keypairs[k].refcnt > 0
    ensures s.keypairs[k].localIndex in s.live
  {
    PendingHeld(s, pending, k);
  }
}
