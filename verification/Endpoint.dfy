/**
 One side of the handshake with its state: the four message functions of
 src/wg_noise.c:942-1191 on top of the index table and the keypair slots, and two sides put
 together.
 */
module Endpoint {
  import opened Wrappers
  import opened Machine
  import opened Bytes
  import opened Sessions
  import opened NoiseLocal
  import H = Handshake

  // memcmp(a, b) > 0 on two timestamps
  predicate Later(a: seq<byte>, b: seq<byte>)
    requires |a| == |b|
    decreases |a|
  {
    a != [] && (a[0] > b[0] || (a[0] == b[0] && Later(a[1..], b[1..])))
  }

  // The number that the bytes are, the first byte counting most
  function Be(s: seq<byte>): nat {
    if s == [] then 0 else s[0] * Pow256(|s| - 1) + Be(s[1..])
  }

  lemma {:induction false} BeBound(s: seq<byte>)
    ensures Be(s) < Pow256(|s|)
  {
    if s != [] {
      BeBound(s[1..]);
      HighDigit(0x100, s[0], Pow256(|s| - 1), 0, Be(s[1..]));
    }
  }

  // A timestamp is later exactly if it is the greater number.
  lemma {:induction false} LaterIsGreater(a: seq<byte>, b: seq<byte>)
    requires |a| == |b|
    ensures Later(a, b) <==> Be(a) > Be(b)
    decreases |a|
  {
    if a != [] {
      LaterIsGreater(a[1..], b[1..]);
      BeBound(a[1..]);
      BeBound(b[1..]);
      HighDigit(a[0], b[0], Pow256(|a| - 1), Be(a[1..]), Be(b[1..]));
    }
  }

  lemma HighDigit(a: nat, b: nat, m: nat, low: nat, low': nat)
    requires low < m && low' < m
    ensures a > b ==> a * m + low > b * m + low'
    ensures a < b ==> a * m + low < b * m + low'
  {
    if a > b {
      ProductGrows(a - b, m);
      Distributes(a, b, m);
    } else if a < b {
      ProductGrows(b - a, m);
      Distributes(b, a, m);
    }
  }

  lemma Distributes(a: nat, b: nat, m: nat)
    ensures (a - b) * m == a * m - b * m
  {}

  // The handshake fields of struct noise_remote
  datatype Record = Record(peer: H.Peer, hs: H.State, timestamp: H.Timestamp)

  // A remote just configured
  function Fresh(peer: H.Peer): Record {
    Record(peer, H.State(H.NULL, H.NULL, H.NULL), H.Blake2s.Zeros(12))
  }

  class Endpoint {
    const local: Local
    var identity: Option<H.Identity>
    var records: map<nat, Record>
    var byKey: map<H.Key, nat>        // l_remote_hash
    var keys: map<nat, H.Keys>        // kp_send and kp_recv of each keypair

    ghost predicate Valid()
      reads this, local, local.table, local.table.buckets
    {
      local.Valid() && Known(local.remotes.Keys)
    }

    ghost predicate Known(remotes: set<nat>)
      reads this
    {
      && (forall r :: r in remotes ==> r in records)
      && (forall p :: p in byKey ==> byKey[p] in remotes && byKey[p] in records && records[byKey[p]].peer.public == p)
    }

    constructor ()
      ensures Valid() && fresh(local) && fresh(local.table) && fresh(local.table.buckets)
      ensures identity == None && local.View() == EMPTY
    {
      local := new Local();
      identity := None;
      records, byKey, keys := map[], map[], map[];
    }

    // noise_remote_alloc and noise_remote_enable
    method AddPeer(r: nat, peer: H.Peer)
      requires Valid() && r !in local.remotes && peer.public !in byKey
      modifies this`records, this`byKey, local`remotes
      ensures Valid()
      ensures records == old(records)[r := Fresh(peer)]
      ensures byKey == old(byKey)[peer.public := r]
      ensures local.View() == AddRemote(old(local.View()), r)
    {
      hide Local.Valid;
      local.RemoteAlloc(r);
      records := records[r := Fresh(peer)];
      byKey := byKey[peer.public := r];
    }

    // The message of noise_create_initiation. The handshake state is written as it goes, also
    // when a shared secret turns out null and there is no message.
    method WriteInitiation(id: H.Identity, r: nat, e: H.Key, now: H.Timestamp) returns (m: Option<H.Initiation>)
      requires r in records
      modifies this`records
      ensures r in records && records == old(records)[r := old(records[r]).(hs := records[r].hs)]
      ensures H.CreateInitiation(id, records[r].peer, e, now) == if m.Some? then Some(H.Sent(records[r].hs, m.value)) else None
    {
      hide H.Public, H.ParamInit, H.MixEphemeral, H.MixShared, H.Encrypt, H.MixSealed, H.Dh;
      var peer := records[r].peer;
      var hs := H.ParamInit(peer.public).(e := e);
      var ue := H.Public(e);
      if ue == H.NULL {
        StoreState(r, hs);
        return None;
      }
      hs := H.MixEphemeral(hs, ue);
      var k := H.MixShared(hs, H.Dh(e, peer.public));
      if k.None? {
        StoreState(r, hs);
        return None;
      }
      var es := H.Encrypt(k.value, id.public);
      hs := H.MixSealed(k.value.hs, es);
      k := H.MixShared(hs, peer.ss);
      if k.None? {
        StoreState(r, hs);
        return None;
      }
      var ets := H.Encrypt(k.value, now);
      StoreState(r, H.MixSealed(k.value.hs, ets));
      m := Some(H.Initiation(ue, es, ets));
    }

    method StoreState(r: nat, hs: H.State)
      requires r in records
      modifies this`records
      ensures r in records && records == old(records)[r := old(records[r]).(hs := hs)]
    {
      records := records[r := records[r].(hs := hs)];
    }

    // noise_create_initiation. `e` and `now` are the generated secret and the time, `expired` says
    // whether REKEY_TIMEOUT has passed since the last one.
    method CreateInitiation(r: nat, e: H.Key, now: H.Timestamp, expired: bool, draws: seq<u32>)
      returns (m: Option<H.Initiation>, index: u32)
      requires Valid() && r in local.remotes
      requires exists d :: d in draws && d !in IndexRemove(local.View(), r).live
      modifies this`records, local`remotes, local.table, local.table.buckets
      ensures Valid()
      ensures r in records && records == old(records)[r := old(records[r]).(hs := records[r].hs)]
      ensures m.None? ==> local.View() == old(local.View())
      ensures !(identity.Some? && expired) ==> records == old(records)
      ensures m.Some? <==> identity.Some? && expired && H.CreateInitiation(identity.value, records[r].peer, e, now).Some?
      ensures m.Some? ==>
                && H.CreateInitiation(identity.value, records[r].peer, e, now) == Some(H.Sent(records[r].hs, m.value))
                && index in draws && index !in IndexRemove(old(local.View()), r).live
                && local.View() == IndexInsert(old(local.View()), r, index, Initiator, old(local.remotes[r].remoteIndex))
    {
      hide H.CreateInitiation, Local.Valid, IndexInsert, IndexRemove;
      ghost var s := local.View();
      m, index := None, 0;
      if identity.Some? && expired {
        m := WriteInitiation(identity.value, r, e, now);
        if m.Some? {
          index := local.IndexInsert(r, Initiator, local.remotes[r].remoteIndex, draws);
          IndexInsertShape(s, r, index, Initiator, s.remotes[r].remoteIndex);
        }
      }
    }

    // noise_consume_initiation. `calm` says whether REJECT_INTERVAL has passed since the last one
    // from this peer, `theirs` is the index in the message.
    method ConsumeInitiation(msg: H.Initiation, theirs: u32, calm: bool, draws: seq<u32>)
      returns (found: Option<nat>, index: u32)
      requires Valid() && exists d :: d in draws && d !in local.table.live
      modifies this`records, local`remotes, local.table, local.table.buckets
      ensures Valid()
      ensures found.None? ==> local.View() == old(local.View())
      ensures found == Accepted(old(Received(msg)), byKey, old(records), calm)
      ensures records == Noted(old(Received(msg)), byKey, old(records), calm)
      ensures found.Some? ==>
                var r := found.value;
                && r in old(local.remotes) && index in draws && index !in IndexRemove(old(local.View()), r).live
                && local.View() == IndexInsert(old(local.View()), r, index, Responder, theirs)
    {
      hide H.ConsumeInitiation, Local.Valid, Later, Accepted, Noted, IndexInsert, IndexRemove;
      index := 0;
      ghost var received, s := Received(msg), local.View();
      AcceptedKnown(received, byKey, records, calm);
      found := Consider(msg, calm);
      if found.Some? {
        RemovalFrees(s, found.value);
        index := local.IndexInsert(found.value, Responder, theirs, draws);
        IndexInsertShape(s, found.value, index, Responder, theirs);
        hide Known;
      }
    }

    // The message itself, then the replay check and the flood check
    method Consider(msg: H.Initiation, calm: bool) returns (found: Option<nat>)
      requires Known(local.remotes.Keys)
      modifies this`records
      ensures Known(local.remotes.Keys)
      ensures found == Accepted(old(Received(msg)), byKey, old(records), calm)
      ensures records == Noted(old(Received(msg)), byKey, old(records), calm)
    {
      hide H.ConsumeInitiation, Later;
      if identity.None? {
        return None;
      }
      var received := H.ConsumeInitiation(identity.value, Secrets(byKey, records), msg);
      if received.None? || received.value.sender !in byKey {
        return None;
      }
      var r := byKey[received.value.sender];
      if !Later(received.value.timestamp, records[r].timestamp) {
        return None;
      }
      records := records[r := records[r].(timestamp := received.value.timestamp)];
      if !calm {
        return None;
      }
      StoreState(r, received.value.hs);
      found := Some(r);
    }

    // The message of noise_create_response
    method WriteResponse(r: nat, e: H.Key) returns (m: Option<H.Response>)
      requires r in records
      modifies this`records
      ensures r in records && records == old(records)[r := old(records[r]).(hs := records[r].hs)]
      ensures H.CreateResponse(old(records[r].hs), records[r].peer, e) == if m.Some? then Some(H.Sent(records[r].hs, m.value)) else None
    {
      hide H.Public, H.MixEphemeral, H.MixShared, H.MixPsk, H.Encrypt, H.MixSealed, H.Dh;
      var peer, hs := records[r].peer, records[r].hs;
      var ue := H.Public(e);
      if ue == H.NULL {
        return None;
      }
      var k := H.MixShared(H.MixEphemeral(hs, ue), H.Dh(e, hs.e));
      if k.None? {
        StoreState(r, H.MixEphemeral(hs, ue));
        return None;
      }
      hs := k.value.hs;
      k := H.MixShared(hs, H.Dh(e, peer.public));
      if k.None? {
        StoreState(r, hs);
        return None;
      }
      var l := H.MixPsk(k.value.hs, peer.psk);
      var en := H.Encrypt(l, []);
      StoreState(r, H.MixSealed(l.hs, en));
      m := Some(H.Response(ue, en));
    }

    // noise_begin_session: the keys, the keypair and its place, and the handshake state wiped
    method Begin(r: nat, k: nat)
      requires Valid() && r in local.remotes && !local.remotes[r].state.Dead? && k !in local.keypairs
      modifies this`records, this`keys, local, local.table, local.table.buckets
      ensures Valid()
      ensures keys == old(keys)[k := H.SessionKeys(old(records[r].hs), old(local.remotes[r].state.Initiator?))]
      ensures local.View() == BeginSession(old(local.View()), r, k)
      ensures r in records && records == old(records)[r := old(records[r]).(hs := H.State(H.NULL, H.NULL, H.NULL))]
    {
      hide H.SessionKeys, Local.Valid, BeginSession;
      keys := keys[k := H.SessionKeys(records[r].hs, local.remotes[r].state.Initiator?)];
      BeginSessionShape(local.View(), r, k);
      local.BeginSession(r, k);
      StoreState(r, H.State(H.NULL, H.NULL, H.NULL));
    }

    // noise_create_response; `k` is the new allocation
    method CreateResponse(r: nat, e: H.Key, k: nat) returns (m: Option<H.Response>, ours: u32, theirs: u32)
      requires Valid() && r in local.remotes && k !in local.keypairs
      modifies this`records, this`keys, local, local.table, local.table.buckets
      ensures Valid()
      ensures r in records && records == old(records)[r := old(records[r]).(hs := records[r].hs)]
      ensures m.None? ==> local.View() == old(local.View()) && keys == old(keys)
      ensures !old(local.remotes[r]).state.Responder? ==> records == old(records)
      ensures m.Some? ==> records[r].hs == H.State(H.NULL, H.NULL, H.NULL)
      ensures m.Some? <==>
              old(local.remotes[r]).state.Responder? && H.CreateResponse(old(records[r]).hs, old(records[r]).peer, e).Some?
      ensures m.Some? ==>
                var sent := H.CreateResponse(old(records[r]).hs, old(records[r]).peer, e).value;
                && m.value == sent.msg && keys == old(keys)[k := H.SessionKeys(sent.hs, false)]
                && local.View() == BeginSession(old(local.View()), r, k)
                && ours == old(local.remotes[r]).localIndex && theirs == old(local.remotes[r]).remoteIndex
    {
      hide H.CreateResponse, H.SessionKeys, Local.Valid, BeginSession;
      m, ours, theirs := None, 0, 0;
      if local.remotes[r].state.Responder? {
        m := WriteResponse(r, e);
        if m.Some? {
          ours, theirs := local.remotes[r].localIndex, local.remotes[r].remoteIndex;
          Begin(r, k);
        }
      }
    }

    // noise_consume_response: `theirs` and `ours` are the two indices in the message
    method ConsumeResponse(msg: H.Response, theirs: u32, ours: u32, k: nat) returns (found: Option<nat>, ghost done: H.State)
      requires Valid() && k !in local.keypairs
      modifies this`records, this`keys, local, local.table, local.table.buckets
      ensures Valid()
      ensures found.None? ==> local.View() == old(local.View()) && keys == old(keys) && records == old(records)
      ensures found == old(Awaiting(msg, ours))
      ensures found.Some? ==>
                var r := found.value;
                && r in old(local.remotes) && old(Finished(r, msg)) == Some(done)
                && r in old(records) && records == old(records)[r := old(records)[r].(hs := H.State(H.NULL, H.NULL, H.NULL))]
                && keys == old(keys)[k := H.SessionKeys(done, true)]
                && local.View() == BeginSession(SetRemoteIndex(old(local.View()), r, theirs), r, k)
    {
      hide H.ConsumeResponse, H.SessionKeys, Local.Valid, BeginSession;
      found, done := None, H.State(H.NULL, H.NULL, H.NULL);
      var owner := local.Find(ours);
      if owner.None? || owner.value.KeypairOwner? || identity.None? {
        return;
      }
      var r := owner.value.r;
      if !local.remotes[r].state.Initiator? {
        return;
      }
      var hs := H.ConsumeResponse(identity.value, records[r].hs, records[r].peer.psk, msg);
      if hs.None? {
        return;
      }
      done := hs.value;
      StoreState(r, hs.value);
      local.SetRemoteIndex(r, theirs);
      Begin(r, k);
      found := Some(r);
    }

    ghost function Finished(r: nat, msg: H.Response): Option<H.State>
      reads this
    {
      FinishedBy(identity, records, r, msg)
    }

    ghost function Awaiting(msg: H.Response, ours: u32): Option<nat>
      reads this, local, local.table
    {
      AwaitedBy(identity, records, local.View(), msg, ours)
    }

    ghost function Received(msg: H.Initiation): Option<H.Received>
      reads this
    {
      if identity.None? then None
      else H.ConsumeInitiation(identity.value, Secrets(byKey, records), msg)
    }
  }

  // The handshake state that a response would complete for remote r
  function FinishedBy(id: Option<H.Identity>, records: map<nat, Record>, r: nat, msg: H.Response): Option<H.State> {
    if id.None? || r !in records then None
    else H.ConsumeResponse(id.value, records[r].hs, records[r].peer.psk, msg)
  }

  // The remote that waits for this response under this index
  function AwaitedBy(id: Option<H.Identity>, records: map<nat, Record>, net: Net, msg: H.Response, ours: u32): Option<nat> {
    if ours !in net.live || net.live[ours].KeypairOwner? then None
    else
      var r := net.live[ours].r;
      if r in net.remotes && net.remotes[r].state.Initiator? && FinishedBy(id, records, r, msg).Some? then Some(r) else None
  }

  // r_ss of the remote with this public key
  function Secrets(byKey: map<H.Key, nat>, records: map<nat, Record>): H.Key -> Option<H.Key> {
    (p: H.Key) => if p in byKey && byKey[p] in records then Some(records[byKey[p]].peer.ss) else None
  }

  // Which remote an initiation is accepted from: its timestamp is new and it does not come too soon.
  function Accepted(received: Option<H.Received>, byKey: map<H.Key, nat>, records: map<nat, Record>, calm: bool): Option<nat> {
    if received.None? || received.value.sender !in byKey || byKey[received.value.sender] !in records then None
    else
      var r := byKey[received.value.sender];
      if calm && Later(received.value.timestamp, records[r].timestamp) then Some(r) else None
  }

  // The records after an initiation. A timestamp that is later is noted even if the initiation
  // comes too soon.
  function Noted(received: Option<H.Received>, byKey: map<H.Key, nat>, records: map<nat, Record>, calm: bool): map<nat, Record> {
    if received.None? || received.value.sender !in byKey || byKey[received.value.sender] !in records then records
    else
      var r, got := byKey[received.value.sender], received.value;
      if !Later(got.timestamp, records[r].timestamp) then records
      else if calm then records[r := records[r].(hs := got.hs, timestamp := got.timestamp)]
      else records[r := records[r].(timestamp := got.timestamp)]
  }

  lemma RemovalFrees(s: Net, r: nat)
    requires r in s.remotes
    ensures forall x :: x in IndexRemove(s, r).live ==> x in s.live
  {}

  lemma AcceptedKnown(received: Option<H.Received>, byKey: map<H.Key, nat>, records: map<nat, Record>, calm: bool)
    ensures Accepted(received, byKey, records, calm).Some? ==>
              received.Some? && received.value.sender in byKey && Accepted(received, byKey, records, calm).value == byKey[received.value.sender]
  {}

  // The remote that a response is for waits as initiator under the index the response names.
  lemma AwaitedExactly(id: Option<H.Identity>, records: map<nat, Record>, net: Net, msg: H.Response, ours: u32, r: nat)
    requires Inv(net)
    ensures AwaitedBy(id, records, net, msg, ours) == Some(r) <==>
            && r in net.remotes && net.remotes[r].state.Initiator? && net.remotes[r].localIndex == ours
            && FinishedBy(id, records, r, msg).Some?
  {
    hide FinishedBy, SlotsOk, RefsOk, Held;
    if ours in net.live {
      assert OwnerOk(net, {}, {}, ours, net.live[ours]);
    }
  }

  // An initiation is accepted exactly from a known sender whose last timestamp is a smaller number,
  // and not too soon.
  lemma AcceptedExactly(got: H.Received, byKey: map<H.Key, nat>, records: map<nat, Record>, calm: bool, r: nat)
    ensures Accepted(Some(got), byKey, records, calm) == Some(r) <==>
            && got.sender in byKey && byKey[got.sender] == r && r in records
            && calm && Be(got.timestamp) > Be(records[r].timestamp)
  {
    if r in records {
      LaterIsGreater(got.timestamp, records[r].timestamp);
    }
    hide Later, Be;
  }

  // Of a remote just configured, every timestamp but zero is accepted.
  lemma FirstAccepted(got: H.Received, byKey: map<H.Key, nat>, records: map<nat, Record>, peer: H.Peer)
    requires got.sender in byKey && byKey[got.sender] in records && records[byKey[got.sender]] == Fresh(peer)
    ensures Accepted(Some(got), byKey, records, true) == Some(byKey[got.sender]) <==> exists i :: 0 <= i < 12 && got.timestamp[i] != 0
  {
    BeZero(Fresh(peer).timestamp);
    BeZero(got.timestamp);
    AcceptedExactly(got, byKey, records, true, byKey[got.sender]);
    hide Accepted, Be;
  }

  lemma {:induction false} BeZero(s: seq<byte>)
    ensures Be(s) == 0 <==> forall i :: 0 <= i < |s| ==> s[i] == 0
  {
    if s != [] {
      BeZero(s[1..]);
      assert s[0] * Pow256(|s| - 1) >= s[0];
      assert forall i :: 0 < i < |s| ==> s[i] == s[1..][i - 1];
    }
  }

  // What happens to an initiation from a known sender
  lemma FromKnown(got: H.Received, byKey: map<H.Key, nat>, records: map<nat, Record>, calm: bool)
    requires got.sender in byKey && byKey[got.sender] in records
    ensures var r := byKey[got.sender];
            var later := Later(got.timestamp, records[r].timestamp);
            var noted := Noted(Some(got), byKey, records, calm);
            && Accepted(Some(got), byKey, records, calm) == (if calm && later then Some(r) else None)
            && r in noted && noted == records[r := noted[r]] && noted[r].peer == records[r].peer
            && noted[r].timestamp == Latest(records[r].timestamp, got.timestamp)
            && noted[r].hs == (if calm && later then got.hs else records[r].hs)
  {
    hide Later;
  }

  // Two sides

  datatype Outcome = NoInitiation | Refused | NoResponse | Agreed

  // Each side is configured with the other's public key, the shared static secret that
  // noise_precompute_ss computes, and the same preshared key.
  ghost predicate Paired(a: Endpoint, b: Endpoint, ra: nat, rb: nat)
    reads a, a.local, b
  {
    && a.identity.Some? && b.identity.Some? && ra in a.local.remotes && ra in a.records && rb in b.records
    && Configured(a.identity.value, b.identity.value, a.records[ra].peer, b.records[rb].peer)
    && a.identity.value.public in b.byKey && b.byKey[a.identity.value.public] == rb
  }

  predicate Configured(ia: H.Identity, ib: H.Identity, pa: H.Peer, pb: H.Peer) {
    && ia.public == H.Public(ia.private) && ib.public == H.Public(ib.private)
    && pa.public == ib.public && pb.public == ia.public && pa.psk == pb.psk
    && pa.ss == H.Dh(ia.private, ib.public) && pb.ss == H.Dh(ib.private, ia.public)
  }

  // The Diffie-Hellman exchanges of the handshake agree.
  ghost predicate Agreeable(a: Endpoint, b: Endpoint, ea: H.Key, eb: H.Key)
    reads a, b
  {
    && a.identity.Some? && b.identity.Some?
    && H.Commutes(a.identity.value.private, b.identity.value.private)
    && H.Commutes(ea, b.identity.value.private)
    && H.Commutes(ea, eb)
    && H.Commutes(a.identity.value.private, eb)
  }

  // What a finished handshake is for: each side sends under the key the other receives under, to
  // the index under which the other finds its keypair.
  ghost predicate Connected(a: Endpoint, b: Endpoint, ka: nat, kb: nat)
    reads a, a.local, a.local.table, b, b.local, b.local.table
  {
    && ka in a.keys && kb in b.keys && ka in a.local.keypairs && kb in b.local.keypairs
    && a.keys[ka].send == b.keys[kb].recv && a.keys[ka].recv == b.keys[kb].send
    && Lookup(b.local.View(), a.local.keypairs[ka].remoteIndex) == Some(kb)
    && Lookup(a.local.View(), b.local.keypairs[kb].remoteIndex) == Some(ka)
    && a.local.keypairs[ka].remoteIndex == b.local.keypairs[kb].localIndex
    && b.local.keypairs[kb].remoteIndex == a.local.keypairs[ka].localIndex
  }

  // The two sides of one chaining key
  lemma KeysAgree(hs: H.State, e: H.Key)
    ensures var initiator, responder := H.SessionKeys(hs.(e := e), true), H.SessionKeys(hs, false);
            initiator.send == responder.recv && initiator.recv == responder.send
  {
    hide H.Kdf1, H.Kdf2;
  }

  ghost predicate Apart(a: Endpoint, b: Endpoint)
    reads a, a.local, b, b.local
  {
    {a, a.local, a.local.table, a.local.table.buckets} !! {b, b.local, b.local.table, b.local.table.buckets}
  }

  // Between the two messages: both sides have the same chaining key and hash, the initiator waits
  // under its index, and the responder knows that index.
  ghost predicate Halfway(a: Endpoint, b: Endpoint, ra: nat, rb: nat, ea: H.Key)
    reads a, a.local, a.local.table, b, b.local
  {
    && ra in a.local.remotes && rb in b.local.remotes && ra in a.records && rb in b.records
    && var ha, hb, sa, sb := a.records[ra].hs, b.records[rb].hs, a.local.remotes[ra], b.local.remotes[rb];
    && ha.e == ea && hb == ha.(e := H.Public(ea))
    && sa.state.Initiator? && sb.state.Responder? && sb.remoteIndex == sa.localIndex
    && sa.localIndex in a.local.table.live && a.local.table.live[sa.localIndex] == RemoteOwner(ra)
  }

  function Latest(a: H.Timestamp, b: H.Timestamp): H.Timestamp {
    if Later(b, a) then b else a
  }

  method Initiation(a: Endpoint, b: Endpoint, ra: nat, rb: nat, ea: H.Key, now: H.Timestamp, calm: bool,
                    drawsA: seq<u32>, drawsB: seq<u32>)
    returns (outcome: Outcome)
    requires a.Valid() && b.Valid() && Paired(a, b, ra, rb) && H.Commutes(ea, b.identity.value.private)
    requires H.Commutes(a.identity.value.private, b.identity.value.private) && Apart(a, b)
    requires exists d :: d in drawsA && d !in IndexRemove(a.local.View(), ra).live
    requires exists d :: d in drawsB && d !in b.local.table.live
    modifies a`records, a.local`remotes, a.local.table, a.local.table.buckets
    modifies b`records, b.local`remotes, b.local.table, b.local.table.buckets
    ensures a.Valid() && b.Valid()
    ensures outcome.NoInitiation? <==> old(H.CreateInitiation(a.identity.value, a.records[ra].peer, ea, now)).None?
    ensures outcome.Refused? <==> !outcome.NoInitiation? && !(calm && Later(now, old(b.records[rb].timestamp)))
    ensures a.records - {ra} == old(a.records) - {ra} && b.records - {rb} == old(b.records) - {rb}
    ensures !outcome.NoResponse? && Paired(a, b, ra, rb) && b.records[rb].peer == old(b.records[rb].peer)
    ensures b.records[rb].timestamp == if outcome.NoInitiation? then old(b.records[rb].timestamp)
                                       else Latest(old(b.records[rb].timestamp), now)
    ensures outcome.Agreed? ==>
              && Halfway(a, b, ra, rb, ea)
              && b.records[rb].hs == old(H.CreateInitiation(a.identity.value, a.records[ra].peer, ea, now)).value.hs.(e := H.Public(ea))
  {
    hide H.CreateInitiation, H.ConsumeInitiation, H.Public, H.Dh, Later, IndexInsert, Endpoint.Valid, Accepted, Noted;
    ghost var sa, sb := a.local.View(), b.local.View();
    var m, i := a.CreateInitiation(ra, ea, now, true, drawsA);
    if m.None? {
      return NoInitiation;
    }
    IndexInsertShape(sa, ra, i, Initiator, sa.remotes[ra].remoteIndex);
    assert a.records[ra].peer.public == b.identity.value.public && a.records[ra].peer.ss == b.records[rb].peer.ss;
    H.InitiationAgrees(a.identity.value, b.identity.value, a.records[ra].peer, Secrets(b.byKey, b.records), ea, now);
    FromKnown(H.Received(a.records[ra].hs.(e := H.Public(ea)), a.identity.value.public, now), b.byKey, b.records, calm);
    hide Configured;
    var found, j := b.ConsumeInitiation(m.value, i, calm, drawsB);
    if found.None? {
      return Refused;
    }
    IndexInsertShape(sb, rb, j, Responder, i);
    outcome := Agreed;
  }

  method Response(a: Endpoint, b: Endpoint, ra: nat, rb: nat, ea: H.Key, eb: H.Key, ka: nat, kb: nat)
    returns (outcome: Outcome)
    requires a.Valid() && b.Valid() && Paired(a, b, ra, rb) && Apart(a, b) && Halfway(a, b, ra, rb, ea)
    requires H.Commutes(ea, eb) && H.Commutes(a.identity.value.private, eb)
    requires ka !in a.local.keypairs && kb !in b.local.keypairs
    modifies a`records, a`keys, a.local, a.local.table, a.local.table.buckets
    modifies b`records, b`keys, b.local, b.local.table, b.local.table.buckets
    ensures a.Valid() && b.Valid()
    ensures outcome in {NoResponse, Agreed}
    ensures outcome.NoResponse? <==> old(H.CreateResponse(b.records[rb].hs, b.records[rb].peer, eb)).None?
    ensures outcome.Agreed? ==> Connected(a, b, ka, kb)
    ensures a.records - {ra} == old(a.records) - {ra} && b.records - {rb} == old(b.records) - {rb}
    ensures Paired(a, b, ra, rb) && b.records[rb].timestamp == old(b.records[rb].timestamp)
  {
    hide H.CreateResponse, H.ConsumeResponse, H.SessionKeys, H.Public, H.Dh, BeginSession, Endpoint.Valid, Connected;
    ghost var sa, sb, hs, peer := a.local.View(), b.local.View(), a.records[ra].hs, b.records[rb].peer;
    H.ResponseAgrees(a.identity.value, hs, peer, ea, eb);
    assert a.records[ra].peer.psk == peer.psk;
    hide Configured, Halfway;
    var m, ours, theirs := b.CreateResponse(rb, eb, kb);
    if m.None? {
      return NoResponse;
    }
    ghost var done := H.CreateResponse(hs.(e := H.Public(ea)), peer, eb).value.hs;
    var found, _ := a.ConsumeResponse(m.value, ours, theirs, ka);
    Connect(a, b, ka, kb, sa, sb, ra, rb, done, ea);
    outcome := Agreed;
  }

  // Both sides have begun their session.
  lemma Connect(a: Endpoint, b: Endpoint, ka: nat, kb: nat, sa: Net, sb: Net, ra: nat, rb: nat, hs: H.State, e: H.Key)
    requires ra in sa.remotes && rb in sb.remotes && sb.remotes[rb].remoteIndex == sa.remotes[ra].localIndex
    requires b.local.View() == BeginSession(sb, rb, kb)
    requires a.local.View() == BeginSession(SetRemoteIndex(sa, ra, sb.remotes[rb].localIndex), ra, ka)
    requires ka in a.keys && kb in b.keys
    requires a.keys[ka] == H.SessionKeys(hs.(e := e), true) && b.keys[kb] == H.SessionKeys(hs, false)
    ensures Connected(a, b, ka, kb)
    ensures a.local.remotes.Keys == sa.remotes.Keys
  {
    hide H.SessionKeys, BeginSession;
    BeginSessionShape(sb, rb, kb);
    BeginSessionShape(SetRemoteIndex(sa, ra, sb.remotes[rb].localIndex), ra, ka);
    KeysAgree(hs, e);
  }

  // An undisturbed handshake stops only where a message cannot be made or the initiation is too
  // old or too soon; no message that was made is refused for any other reason.
  method Exchange(a: Endpoint, b: Endpoint, ra: nat, rb: nat, ea: H.Key, eb: H.Key, now: H.Timestamp, calm: bool,
                  ka: nat, kb: nat, drawsA: seq<u32>, drawsB: seq<u32>)
    returns (outcome: Outcome)
    requires a.Valid() && b.Valid() && Paired(a, b, ra, rb) && Agreeable(a, b, ea, eb)
    requires Apart(a, b)
    requires ka !in a.local.keypairs && kb !in b.local.keypairs
    requires exists d :: d in drawsA && d !in IndexRemove(a.local.View(), ra).live
    requires exists d :: d in drawsB && d !in b.local.table.live
    modifies a`records, a`keys, a.local, a.local.table, a.local.table.buckets
    modifies b`records, b`keys, b.local, b.local.table, b.local.table.buckets
    ensures a.Valid() && b.Valid()
    ensures outcome.Agreed? ==> Connected(a, b, ka, kb)
    ensures outcome.NoInitiation? <==> old(H.CreateInitiation(a.identity.value, a.records[ra].peer, ea, now)).None?
    ensures outcome.Refused? <==> !outcome.NoInitiation? && !(calm && Later(now, old(b.records[rb].timestamp)))
    ensures outcome.NoResponse? <==>
              && !outcome.NoInitiation? && !outcome.Refused?
              && var hs := old(H.CreateInitiation(a.identity.value, a.records[ra].peer, ea, now)).value.hs;
              H.CreateResponse(hs.(e := H.Public(ea)), old(b.records[rb].peer), eb).None?
    ensures a.records - {ra} == old(a.records) - {ra} && b.records - {rb} == old(b.records) - {rb}
    ensures Paired(a, b, ra, rb)
    ensures b.records[rb].timestamp == if outcome.NoInitiation? then old(b.records[rb].timestamp)
                                       else Latest(old(b.records[rb].timestamp), now)
  {
    hide H.CreateInitiation, H.CreateResponse, H.Public, H.Dh, Later, Endpoint.Valid, IndexRemove, Halfway, Connected;
    outcome := Initiation(a, b, ra, rb, ea, now, calm, drawsA, drawsB);
    if outcome.Agreed? {
      outcome := Response(a, b, ra, rb, ea, eb, ka, kb);
    }
  }

  // No initiation twice

  lemma {:induction false} LaterTransitive(a: seq<byte>, b: seq<byte>, c: seq<byte>)
    requires |a| == |b| == |c| && Later(a, b) && Later(b, c)
    ensures Later(a, c)
    decreases |a|
  {
    if a[0] == b[0] == c[0] {
      LaterTransitive(a[1..], b[1..], c[1..]);
    }
  }

  lemma {:induction false} NotLaterThanItself(a: seq<byte>)
    ensures !Later(a, a)
    decreases |a|
  {
    if a != [] {
      NotLaterThanItself(a[1..]);
    }
  }

  predicate AtLeast(a: H.Timestamp, b: H.Timestamp) {
    a == b || Later(a, b)
  }

  // Peers stay as they are configured and their timestamps only grow.
  ghost predicate Grown(was: map<nat, Record>, now: map<nat, Record>) {
    forall r :: r in was ==> r in now && now[r].peer == was[r].peer && AtLeast(now[r].timestamp, was[r].timestamp)
  }

  // The timestamp of this initiation has been noted.
  ghost predicate Used(id: H.Identity, byKey: map<H.Key, nat>, records: map<nat, Record>, msg: H.Initiation) {
    var got := H.ConsumeInitiation(id, Secrets(byKey, records), msg);
    && got.Some? && got.value.sender in byKey && byKey[got.value.sender] in records
    && AtLeast(records[byKey[got.value.sender]].timestamp, got.value.timestamp)
  }

  lemma NotLater(a: H.Timestamp, b: H.Timestamp)
    requires AtLeast(b, a)
    ensures !Later(a, b)
  {
    if Later(a, b) && a != b {
      LaterTransitive(a, b, a);
    }
    NotLaterThanItself(a);
  }

  lemma UsedIsRefused(id: H.Identity, byKey: map<H.Key, nat>, records: map<nat, Record>, msg: H.Initiation, calm: bool)
    requires Used(id, byKey, records, msg)
    ensures Accepted(H.ConsumeInitiation(id, Secrets(byKey, records), msg), byKey, records, calm) == None
  {
    hide H.ConsumeInitiation, Later;
    var got := H.ConsumeInitiation(id, Secrets(byKey, records), msg).value;
    NotLater(got.timestamp, records[byKey[got.sender]].timestamp);
  }

  lemma StaysUsed(id: H.Identity, byKey: map<H.Key, nat>, records: map<nat, Record>,
                  byKey': map<H.Key, nat>, records': map<nat, Record>, msg: H.Initiation)
    requires Used(id, byKey, records, msg) && Grown(records, records')
    requires forall p :: p in byKey ==> p in byKey' && byKey'[p] == byKey[p]
    ensures Used(id, byKey', records', msg)
  {
    hide H.ConsumeInitiation, Later;
    var got := H.ConsumeInitiation(id, Secrets(byKey, records), msg).value;
    H.OnlySenderMatters(id, Secrets(byKey, records), Secrets(byKey', records'), msg, got);
    var r := byKey[got.sender];
    if records'[r].timestamp != records[r].timestamp && records[r].timestamp != got.timestamp {
      LaterTransitive(records'[r].timestamp, records[r].timestamp, got.timestamp);
    }
  }

  // Whatever becomes of an initiation, timestamps only grow; if it is accepted it is used.
  lemma NotedGrows(id: H.Identity, byKey: map<H.Key, nat>, records: map<nat, Record>, msg: H.Initiation, calm: bool)
    ensures var got := H.ConsumeInitiation(id, Secrets(byKey, records), msg);
            var noted := Noted(got, byKey, records, calm);
            && Grown(records, noted)
            && (Accepted(got, byKey, records, calm).Some? ==> Used(id, byKey, noted, msg))
  {
    hide H.ConsumeInitiation, Later;
    var got := H.ConsumeInitiation(id, Secrets(byKey, records), msg);
    var noted := Noted(got, byKey, records, calm);
    if Accepted(got, byKey, records, calm).Some? {
      H.OnlySenderMatters(id, Secrets(byKey, records), Secrets(byKey, noted), msg, got.value);
    }
  }

  // Everything that may happen to one side while its peers stay configured
  datatype Op =
    | AddPeer(r: nat, peer: H.Peer)
    | Initiate(r: nat, e: H.Key, now: H.Timestamp, expired: bool, draws: seq<u32>)
    | ReceiveInitiation(msg: H.Initiation, theirs: u32, calm: bool, draws: seq<u32>)
    | Respond(r: nat, e: H.Key, k: nat)
    | ReceiveResponse(response: H.Response, theirs: u32, ours: u32, k: nat)

  // The state of one side
  datatype Snapshot = Snapshot(byKey: map<H.Key, nat>, records: map<nat, Record>, keys: map<nat, H.Keys>, net: Net)

  ghost function Snap(b: Endpoint): Snapshot
    reads b, b.local, b.local.table
  {
    Snapshot(b.byKey, b.records, b.keys, b.local.View())
  }

  predicate Free(net: Net, draws: seq<u32>) {
    exists d :: d in draws && d !in net.live
  }

  // Remote r has entered the table under a drawn index that was free.
  predicate Entered(net: Net, net': Net, r: nat, state: Handshake, remoteIndex: u32, draws: seq<u32>) {
    && r in net.remotes && r in net'.remotes
    && var index := net'.remotes[r].localIndex;
    && index in draws && index !in IndexRemove(net, r).live
    && net' == IndexInsert(net, r, index, state, remoteIndex)
  }

  // What each operation does to the state. One that its caller could not call is skipped.

  predicate Adds(s: Snapshot, r: nat, peer: H.Peer, t: Snapshot) {
    if r in s.net.remotes || r in s.records || peer.public in s.byKey then t == s
    else t == s.(byKey := s.byKey[peer.public := r], records := s.records[r := Fresh(peer)], net := AddRemote(s.net, r))
  }

  predicate Initiates(id: H.Identity, s: Snapshot, r: nat, e: H.Key, now: H.Timestamp, expired: bool, draws: seq<u32>, t: Snapshot) {
    if r !in s.net.remotes || r !in s.records || !Free(s.net, draws) || !expired then t == s
    else
      var sent := H.CreateInitiation(id, s.records[r].peer, e, now);
      && r in t.records && t == s.(records := s.records[r := s.records[r].(hs := t.records[r].hs)], net := t.net)
      && if sent.None? then t.net == s.net
         else t.records[r].hs == sent.value.hs && Entered(s.net, t.net, r, Initiator, s.net.remotes[r].remoteIndex, draws)
  }

  ghost function Opened(id: H.Identity, s: Snapshot, msg: H.Initiation): Option<H.Received> {
    H.ConsumeInitiation(id, Secrets(s.byKey, s.records), msg)
  }

  ghost predicate Receives(id: H.Identity, s: Snapshot, msg: H.Initiation, theirs: u32, calm: bool, draws: seq<u32>, t: Snapshot) {
    if !Free(s.net, draws) then t == s
    else
      var from := Accepted(Opened(id, s, msg), s.byKey, s.records, calm);
      && t == s.(records := Noted(Opened(id, s, msg), s.byKey, s.records, calm), net := t.net)
      && if from.None? then t.net == s.net else Entered(s.net, t.net, from.value, Responder, theirs, draws)
  }

  predicate Responds(s: Snapshot, r: nat, e: H.Key, k: nat, t: Snapshot) {
    if r !in s.net.remotes || r !in s.records || k in s.net.keypairs || !s.net.remotes[r].state.Responder? then t == s
    else
      match H.CreateResponse(s.records[r].hs, s.records[r].peer, e)
      case None => r in t.records && t == s.(records := s.records[r := s.records[r].(hs := t.records[r].hs)])
      case Some(sent) =>
        t == s.(records := s.records[r := s.records[r].(hs := H.State(H.NULL, H.NULL, H.NULL))],
                keys := s.keys[k := H.SessionKeys(sent.hs, false)], net := BeginSession(s.net, r, k))
  }

  predicate Completes(id: H.Identity, s: Snapshot, response: H.Response, theirs: u32, ours: u32, k: nat, t: Snapshot) {
    var waiting := AwaitedBy(Some(id), s.records, s.net, response, ours);
    if k in s.net.keypairs || waiting.None? then t == s
    else
      var r := waiting.value;
      t == s.(records := s.records[r := s.records[r].(hs := H.State(H.NULL, H.NULL, H.NULL))],
              keys := s.keys[k := H.SessionKeys(FinishedBy(Some(id), s.records, r, response).value, true)],
              net := BeginSession(SetRemoteIndex(s.net, r, theirs), r, k))
  }

  ghost predicate Next(id: H.Identity, s: Snapshot, op: Op, t: Snapshot) {
    match op
    case AddPeer(r, peer) => Adds(s, r, peer, t)
    case Initiate(r, e, now, expired, draws) => Initiates(id, s, r, e, now, expired, draws, t)
    case ReceiveInitiation(msg, theirs, calm, draws) => Receives(id, s, msg, theirs, calm, draws, t)
    case Respond(r, e, k) => Responds(s, r, e, k, t)
    case ReceiveResponse(response, theirs, ours, k) => Completes(id, s, response, theirs, ours, k, t)
  }

  // The operation is an initiation and is accepted.
  ghost predicate Accepts(id: H.Identity, s: Snapshot, op: Op) {
    && op.ReceiveInitiation? && Free(s.net, op.draws)
    && Accepted(Opened(id, s, op.msg), s.byKey, s.records, op.calm).Some?
  }

  // A run: the states before, between and after the operations
  ghost predicate Trace(id: H.Identity, ops: seq<Op>, trace: seq<Snapshot>) {
    && |trace| == |ops| + 1
    && forall n :: 0 <= n < |ops| ==> Next(id, trace[n], ops[n], trace[n + 1])
  }

  lemma Unchanged(records: map<nat, Record>)
    ensures Grown(records, records)
  {}

  lemma OnlyState(was: map<nat, Record>, r: nat, hs: H.State)
    requires r in was
    ensures Grown(was, was[r := was[r].(hs := hs)])
  {}

  lemma OneMore(was: map<nat, Record>, r: nat, record: Record)
    requires r !in was
    ensures Grown(was, was[r := record])
  {}

  lemma NextGrows(id: H.Identity, s: Snapshot, op: Op, t: Snapshot)
    requires Next(id, s, op, t)
    ensures Grown(s.records, t.records)
    ensures forall p :: p in s.byKey ==> p in t.byKey && t.byKey[p] == s.byKey[p]
    ensures Accepts(id, s, op) ==> Used(id, t.byKey, t.records, op.msg)
  {
    hide H.CreateInitiation, H.ConsumeInitiation, H.CreateResponse, H.ConsumeResponse, Free, Entered, BeginSession, Later;
    hide Used, Grown, Noted, Accepted, Secrets;
    Unchanged(s.records);
    match op
    case AddPeer(r, peer) =>
      if r !in s.records {
        OneMore(s.records, r, Fresh(peer));
      }
    case Initiate(r, e, now, expired, draws) =>
      if r in s.records && r in t.records {
        OnlyState(s.records, r, t.records[r].hs);
      }
    case ReceiveInitiation(msg, theirs, calm, draws) =>
      NotedGrows(id, s.byKey, s.records, msg, calm);
    case Respond(r, e, k) =>
      if r in s.records {
        OnlyState(s.records, r, H.State(H.NULL, H.NULL, H.NULL));
        if r in t.records {
          OnlyState(s.records, r, t.records[r].hs);
        }
      }
    case ReceiveResponse(response, theirs, ours, k) =>
      var waiting := AwaitedBy(Some(id), s.records, s.net, response, ours);
      if waiting.Some? {
        OnlyState(s.records, waiting.value, H.State(H.NULL, H.NULL, H.NULL));
      }
  }

  lemma OnlyInitiations(id: H.Identity, s: Snapshot, op: Op)
    requires Accepts(id, s, op)
    ensures op.ReceiveInitiation?
  {}

  // Once accepted, an initiation stays used to the end of the run.
  lemma {:induction false} UsedLater(id: H.Identity, ops: seq<Op>, trace: seq<Snapshot>, i: nat, j: nat)
    requires Trace(id, ops, trace) && i < j <= |ops| && Accepts(id, trace[i], ops[i])
    ensures Used(id, trace[j].byKey, trace[j].records, ops[i].msg)
    decreases j
  {
    hide Next, Accepts, Used, Grown;
    OnlyInitiations(id, trace[i], ops[i]);
    NextGrows(id, trace[j - 1], ops[j - 1], trace[j]);
    if i < j - 1 {
      UsedLater(id, ops, trace, i, j - 1);
      StaysUsed(id, trace[j - 1].byKey, trace[j - 1].records, trace[j].byKey, trace[j].records, ops[i].msg);
    }
  }

  // In every run, two initiations that are accepted are different messages.
  lemma NoInitiationTwice(id: H.Identity, ops: seq<Op>, trace: seq<Snapshot>, i: nat, j: nat)
    requires Trace(id, ops, trace) && i < j < |ops|
    requires Accepts(id, trace[i], ops[i]) && Accepts(id, trace[j], ops[j])
    ensures ops[i].msg != ops[j].msg
  {
    hide Next, Used;
    UsedLater(id, ops, trace, i, j);
    if Used(id, trace[j].byKey, trace[j].records, ops[j].msg) {
      UsedIsRefused(id, trace[j].byKey, trace[j].records, ops[j].msg, ops[j].calm);
    }
  }

  method AnyFree(local: Local, draws: seq<u32>) returns (any: bool)
    requires local.Valid()
    ensures any <==> Free(local.View(), draws)
  {
    hide Local.Valid;
    for i := 0 to |draws|
      invariant forall j :: 0 <= j < i ==> draws[j] in local.table.live
    {
      var found := local.Find(draws[i]);
      if found.None? {
        assert draws[i] in draws;
        return true;
      }
    }
    return false;
  }

  lemma InRecords(b: Endpoint, r: nat)
    requires b.Valid() && r in b.local.remotes
    ensures r in b.records
  {}

  method DoAdd(b: Endpoint, r: nat, peer: H.Peer)
    requires b.Valid()
    modifies b`records, b`byKey, b.local`remotes
    ensures b.Valid() && Adds(old(Snap(b)), r, peer, Snap(b))
  {
    hide Local.Valid;
    if r !in b.local.remotes && r !in b.records && peer.public !in b.byKey {
      b.AddPeer(r, peer);
    }
  }

  method DoInitiate(b: Endpoint, r: nat, e: H.Key, now: H.Timestamp, expired: bool, draws: seq<u32>)
    requires b.Valid() && b.identity.Some?
    modifies b`records, b.local, b.local.table, b.local.table.buckets
    ensures b.Valid() && Initiates(b.identity.value, old(Snap(b)), r, e, now, expired, draws, Snap(b))
  {
    hide H.CreateInitiation, IndexInsert, IndexRemove, Endpoint.Known;
    ghost var net := b.local.View();
    var any := AnyFree(b.local, draws);
    if r in b.local.remotes && any {
      RemovalFrees(net, r);
      InRecords(b, r);
      var m, index := b.CreateInitiation(r, e, now, expired, draws);
      if m.Some? {
        IndexInsertShape(net, r, index, Initiator, net.remotes[r].remoteIndex);
      }
    }
  }

  method DoReceive(b: Endpoint, msg: H.Initiation, theirs: u32, calm: bool, draws: seq<u32>) returns (ok: bool)
    requires b.Valid() && b.identity.Some?
    modifies b`records, b.local, b.local.table, b.local.table.buckets
    ensures b.Valid() && Receives(b.identity.value, old(Snap(b)), msg, theirs, calm, draws, Snap(b))
    ensures ok <==> Accepts(b.identity.value, old(Snap(b)), ReceiveInitiation(msg, theirs, calm, draws))
  {
    hide H.ConsumeInitiation, Noted, Accepted, Secrets, IndexInsert, IndexRemove, Endpoint.Known;
    ghost var net := b.local.View();
    var any := AnyFree(b.local, draws);
    ok := false;
    if any {
      var found, index := b.ConsumeInitiation(msg, theirs, calm, draws);
      ok := found.Some?;
      if ok {
        IndexInsertShape(net, found.value, index, Responder, theirs);
      }
    }
  }

  method DoRespond(b: Endpoint, r: nat, e: H.Key, k: nat)
    requires b.Valid()
    modifies b`records, b`keys, b.local, b.local.table, b.local.table.buckets
    ensures b.Valid() && Responds(old(Snap(b)), r, e, k, Snap(b))
  {
    hide H.CreateResponse, H.SessionKeys, BeginSession, Endpoint.Known;
    if r in b.local.remotes && k !in b.local.keypairs {
      InRecords(b, r);
      var _, _, _ := b.CreateResponse(r, e, k);
    }
  }

  method DoComplete(b: Endpoint, response: H.Response, theirs: u32, ours: u32, k: nat)
    requires b.Valid() && b.identity.Some?
    modifies b`records, b`keys, b.local, b.local.table, b.local.table.buckets
    ensures b.Valid() && Completes(b.identity.value, old(Snap(b)), response, theirs, ours, k, Snap(b))
  {
    hide H.ConsumeResponse, H.SessionKeys, BeginSession, Endpoint.Known;
    if k !in b.local.keypairs {
      var _, _ := b.ConsumeResponse(response, theirs, ours, k);
    }
  }

  method Perform(b: Endpoint, op: Op) returns (ok: bool)
    requires b.Valid() && b.identity.Some?
    modifies b`records, b`byKey, b`keys, b.local, b.local.table, b.local.table.buckets
    ensures b.Valid() && Next(b.identity.value, old(Snap(b)), op, Snap(b))
    ensures ok <==> Accepts(b.identity.value, old(Snap(b)), op)
  {
    hide Adds, Initiates, Receives, Responds, Completes, Snap, Endpoint.Valid;
    ok := false;
    match op
    case AddPeer(r, peer) => DoAdd(b, r, peer);
    case Initiate(r, e, now, expired, draws) => DoInitiate(b, r, e, now, expired, draws);
    case ReceiveInitiation(msg, theirs, calm, draws) => ok := DoReceive(b, msg, theirs, calm, draws);
    case Respond(r, e, k) => DoRespond(b, r, e, k);
    case ReceiveResponse(response, theirs, ours, k) => DoComplete(b, response, theirs, ours, k);
  }

  // Every run of the operations on one side is a run of the steps above, each verdict is exactly
  // whether an initiation was accepted, and none is accepted twice.
  method Operate(b: Endpoint, ops: seq<Op>) returns (verdicts: seq<bool>, ghost trace: seq<Snapshot>)
    requires b.Valid() && b.identity.Some?
    modifies b`records, b`byKey, b`keys, b.local, b.local.table, b.local.table.buckets
    ensures b.Valid() && Trace(b.identity.value, ops, trace)
    ensures trace[0] == old(Snap(b)) && trace[|ops|] == Snap(b)
    ensures |verdicts| == |ops|
    ensures forall n :: 0 <= n < |ops| ==> (verdicts[n] <==> Accepts(b.identity.value, trace[n], ops[n]))
    ensures forall i, j :: 0 <= i < j < |ops| && verdicts[i] && verdicts[j] ==>
              ops[i].ReceiveInitiation? && ops[j].ReceiveInitiation? && ops[i].msg != ops[j].msg
  {
    hide Next, Accepts, Snap, Endpoint.Valid;
    verdicts, trace := [], [Snap(b)];
    for n := 0 to |ops|
      invariant b.Valid() && |trace| == n + 1 && |verdicts| == n
      invariant trace[0] == old(Snap(b)) && trace[n] == Snap(b)
      invariant forall i :: 0 <= i < n ==> Next(b.identity.value, trace[i], ops[i], trace[i + 1])
      invariant forall i :: 0 <= i < n ==> (verdicts[i] <==> Accepts(b.identity.value, trace[i], ops[i]))
    {
      var ok := Perform(b, ops[n]);
      verdicts, trace := verdicts + [ok], trace + [Snap(b)];
    }
    forall i, j | 0 <= i < j < |ops| && verdicts[i] && verdicts[j]
      ensures ops[i].ReceiveInitiation? && ops[j].ReceiveInitiation? && ops[i].msg != ops[j].msg
    {
      OnlyInitiations(b.identity.value, trace[i], ops[i]);
      OnlyInitiations(b.identity.value, trace[j], ops[j]);
      NoInitiationTwice(b.identity.value, ops, trace, i, j);
    }
  }
}
