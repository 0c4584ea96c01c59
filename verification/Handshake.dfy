/**
 The Noise_IKpsk2 handshake (src/wg_noise.c:942-1345) over the verified primitives. Random
 secrets and the time are parameters. That X25519 commutes is group theory and is a hypothesis
 of the results here.
 */
module Handshake {
  import opened Wrappers
  import opened Machine
  import opened Bytes
  import Aead
  import Blake2s
  import R = Rfc7748

  type Key = s: seq<byte> | |s| == 32 witness Blake2s.Zeros(32)

  // NOISE_TIMESTAMP_LEN, and the message fields with their tags
  type Timestamp = s: seq<byte> | |s| == 12 witness Blake2s.Zeros(12)
  type SealedKey = s: seq<byte> | |s| == 48 witness Blake2s.Zeros(48)
  type SealedTimestamp = s: seq<byte> | |s| == 28 witness Blake2s.Zeros(28)
  type SealedNothing = s: seq<byte> | |s| == 16 witness Blake2s.Zeros(16)

  // The primitives at the sizes the handshake uses them with

  function Hash(data: seq<byte>): Key {
    hide Blake2s.Digest;
    Blake2s.Digest(32, [], data)
  }

  function Hmac(key: Key, data: seq<byte>): Key {
    hide Blake2s.Hmac;
    Blake2s.Hmac(key, data)
  }

  function Dh(private: Key, public: Key): Key {
    hide R.X25519;
    DhLength(private, public);
    R.X25519(private, public)
  }

  lemma DhLength(private: Key, public: Key)
    ensures |R.X25519(private, public)| == 32
  {
    hide R.Loop, R.ScalarBits, R.DecodeScalar, R.DecodeU, R.FMul, R.FPow;
  }

  const BASE: Key := [9] + Blake2s.Zeros(31)

  const NULL: Key := Blake2s.Zeros(32)

  function Public(private: Key): Key {
    Dh(private, BASE)
  }

  // The base point of section 4.1 of RFC 7748 has the coordinate 9.
  lemma BaseIsNine()
    ensures Le(BASE) == 9
  {
    var zeros := BASE[1..];
    assert zeros == Blake2s.Zeros(31);
    LeZeros(zeros);
  }

  // noise_kdf: up to three keys
  function Kdf1(ck: Key, x: seq<byte>): Key {
    Hmac(Hmac(ck, x), [1])
  }

  function Kdf2(ck: Key, x: seq<byte>): Key {
    Hmac(Hmac(ck, x), Kdf1(ck, x) + [2])
  }

  function Kdf3(ck: Key, x: seq<byte>): Key {
    Hmac(Hmac(ck, x), Kdf2(ck, x) + [3])
  }

  // noise_kdf itself: one 33-byte buffer is input and output of every step.
  method DeriveKeys(ck: Key, x: seq<byte>) returns (a: Key, b: Key, c: Key)
    ensures a == Kdf1(ck, x) && b == Kdf2(ck, x) && c == Kdf3(ck, x)
  {
    hide Blake2s.Hmac;
    var out := new byte[33](_ => 0);
    var sec := FullHmac(ck, x);
    out[0] := 1;
    assert out[..1] == [1];
    a := FullHmac(sec, out[..1]);
    b := Expand(out, sec, a, 2);
    c := Expand(out, sec, b, 3);
  }

  // Key i + 1 from key i: the buffer holds the last key and then a counter.
  method Expand(out: array<byte>, sec: Key, last: Key, i: byte) returns (next: Key)
    requires out.Length == 33
    modifies out
    ensures next == Hmac(sec, last + [i])
  {
    hide Hmac;
    forall j | 0 <= j < 32 {
      out[j] := last[j];
    }
    out[32] := i;
    assert out[..] == last + [i];
    next := FullHmac(sec, out[..]);
  }

  method FullHmac(key: Key, data: seq<byte>) returns (mac: Key)
    ensures mac == Hmac(key, data)
  {
    hide Blake2s.Hmac;
    var h := Blake2s.ComputeHmac(key, data, 32);
    assert h == Blake2s.Hmac(key, data);
    mac := h;
  }

  // struct noise_handshake
  datatype State = State(e: Key, hash: Key, ck: Key)

  // noise_mix_hash
  function MixHash(hash: Key, data: seq<byte>): Key {
    Hash(hash + data)
  }

  // noise_param_init
  function ParamInit(s: Key): State {
    var ck := Hash(Ascii("Noise_IKpsk2_25519_ChaChaPoly_BLAKE2s"));
    State(NULL, MixHash(Hash(ck + Ascii("WireGuard v1 zx2c4 Jason@zx2c4.com")), s), ck)
  }

  // noise_msg_ephemeral
  function MixEphemeral(hs: State, ue: Key): State {
    hs.(hash := MixHash(hs.hash, ue), ck := Kdf1(hs.ck, ue))
  }

  datatype Keyed = Keyed(hs: State, key: Key)

  // noise_mix_ss, and noise_mix_dh once the shared secret is computed: the null point is refused
  function MixShared(hs: State, shared: Key): Option<Keyed> {
    if shared == NULL then None
    else Some(Keyed(hs.(ck := Kdf1(hs.ck, shared)), Kdf2(hs.ck, shared)))
  }

  // noise_mix_psk
  function MixPsk(hs: State, psk: Key): Keyed {
    Keyed(hs.(ck := Kdf1(hs.ck, psk), hash := MixHash(hs.hash, Kdf2(hs.ck, psk))), Kdf3(hs.ck, psk))
  }

  // noise_msg_encrypt
  function Encrypt(k: Keyed, text: seq<byte>): (sealed: seq<byte>)
    ensures |sealed| == |text| + 16
  {
    hide Aead.Seal;
    Aead.Seal(k.key, 0, k.hs.hash, text)
  }

  lemma OpenLength(k: Keyed, sealed: seq<byte>)
    ensures var r := Aead.Open(k.key, 0, k.hs.hash, sealed);
            r.Opened? ==> |r.msg| == |sealed| - 16
  {
    hide Aead.Cipher, Aead.AuthTag;
  }

  // noise_msg_decrypt
  function Decrypt(k: Keyed, sealed: seq<byte>): (text: Option<seq<byte>>)
    ensures text.Some? ==> |text.value| == |sealed| - 16
  {
    hide Aead.Open;
    OpenLength(k, sealed);
    match Aead.Open(k.key, 0, k.hs.hash, sealed)
    case Rejected => None
    case Opened(text) => Some(text)
  }

  function MixSealed(hs: State, sealed: seq<byte>): State {
    hs.(hash := MixHash(hs.hash, sealed))
  }

  lemma DecryptEncrypt(k: Keyed, text: seq<byte>)
    ensures Decrypt(k, Encrypt(k, text)) == Some(text)
  {
    hide Aead.Open, Aead.Seal;
    Aead.OpenSeal(k.key, 0, k.hs.hash, text);
  }

  // The four messages

  // What one side knows: its own key pair, and of the other its public key, the shared static
  // secret computed beforehand and the preshared key
  datatype Identity = Identity(private: Key, public: Key)
  datatype Peer = Peer(public: Key, ss: Key, psk: Key)

  datatype Initiation = Initiation(ue: Key, es: SealedKey, ets: SealedTimestamp)
  datatype Response = Response(ue: Key, en: SealedNothing)

  datatype Sent<M> = Sent(hs: State, msg: M)
  datatype Received = Received(hs: State, sender: Key, timestamp: Timestamp)

  // noise_create_initiation, with the secret that was generated and the time
  function CreateInitiation(id: Identity, peer: Peer, e: Key, now: Timestamp): Option<Sent<Initiation>> {
    hide Public, ParamInit, MixEphemeral, MixShared, Encrypt, MixSealed, Dh;
    var ue := Public(e);
    if ue == NULL then None
    else
      var hs := MixEphemeral(ParamInit(peer.public).(e := e), ue);
      match MixShared(hs, Dh(e, peer.public))
      case None => None
      case Some(k) =>
        var es := Encrypt(k, id.public);
        match MixShared(MixSealed(k.hs, es), peer.ss)
        case None => None
        case Some(k) =>
          var ets := Encrypt(k, now);
          Some(Sent(MixSealed(k.hs, ets), Initiation(ue, es, ets)))
  }

  // noise_consume_initiation: first the static key of the sender
  function OpenSender(id: Identity, msg: Initiation): Option<(State, Key)> {
    hide ParamInit, MixEphemeral, MixShared, Decrypt, MixSealed, Dh;
    var hs := MixEphemeral(ParamInit(id.public), msg.ue);
    match MixShared(hs, Dh(id.private, msg.ue))
    case None => None
    case Some(k) =>
      match Decrypt(k, msg.es)
      case None => None
      case Some(text) =>
        var public: Key := text;
        Some((MixSealed(k.hs, msg.es), public))
  }

  // ... then its timestamp, under the static secret shared with it
  function OpenTimestamp(hs: State, ss: Key, msg: Initiation): Option<(State, Timestamp)> {
    hide MixShared, Decrypt, MixSealed;
    match MixShared(hs, ss)
    case None => None
    case Some(k) =>
      match Decrypt(k, msg.ets)
      case None => None
      case Some(text) =>
        var timestamp: Timestamp := text;
        Some((MixSealed(k.hs, msg.ets).(e := msg.ue), timestamp))
  }

  // Up to the replay and flood checks. `ssOf` gives the shared static secret of a configured peer.
  function ConsumeInitiation(id: Identity, ssOf: Key -> Option<Key>, msg: Initiation): Option<Received> {
    hide OpenSender, OpenTimestamp;
    match OpenSender(id, msg)
    case None => None
    case Some((hs, public)) =>
      match ssOf(public)
      case None => None
      case Some(ss) =>
        match OpenTimestamp(hs, ss, msg)
        case None => None
        case Some((hs, timestamp)) => Some(Received(hs, public, timestamp))
  }

  // Of the configured peers, only the sender matters.
  lemma OnlySenderMatters(id: Identity, f: Key -> Option<Key>, g: Key -> Option<Key>, msg: Initiation, got: Received)
    requires ConsumeInitiation(id, f, msg) == Some(got) && g(got.sender) == f(got.sender)
    ensures ConsumeInitiation(id, g, msg) == Some(got)
  {
    hide OpenSender, OpenTimestamp;
  }

  // noise_create_response, with the secret that was generated
  function CreateResponse(hs: State, peer: Peer, e: Key): Option<Sent<Response>> {
    var ue := Public(e);
    if ue == NULL then None
    else
      match MixShared(MixEphemeral(hs, ue), Dh(e, hs.e))
      case None => None
      case Some(k) =>
        match MixShared(k.hs, Dh(e, peer.public))
        case None => None
        case Some(k) =>
          var k := MixPsk(k.hs, peer.psk);
          var en := Encrypt(k, []);
          Some(Sent(MixSealed(k.hs, en), Response(ue, en)))
  }

  // noise_consume_response
  function ConsumeResponse(id: Identity, hs: State, psk: Key, msg: Response): Option<State> {
    match MixShared(MixEphemeral(hs, msg.ue), Dh(hs.e, msg.ue))
    case None => None
    case Some(k) =>
      match MixShared(k.hs, Dh(id.private, msg.ue))
      case None => None
      case Some(k) =>
        var k := MixPsk(k.hs, psk);
        match Decrypt(k, msg.en)
        case None => None
        case Some(_) => Some(MixSealed(k.hs, msg.en))
  }

  datatype Keys = Keys(send: Key, recv: Key)

  // The keys of noise_begin_session
  function SessionKeys(hs: State, initiator: bool): Keys {
    if initiator then Keys(Kdf1(hs.ck, []), Kdf2(hs.ck, [])) else Keys(Kdf2(hs.ck, []), Kdf1(hs.ck, []))
  }

  // Agreement

  predicate Commutes(x: Key, y: Key) {
    Dh(x, Public(y)) == Dh(y, Public(x))
  }

  // Whenever an initiation could be made, the responder accepts it, learns who sent it and when,
  // and has the same chaining key and hash.
  lemma InitiationAgrees(a: Identity, b: Identity, peer: Peer, ssOf: Key -> Option<Key>, e: Key, now: Timestamp)
    requires a.public == Public(a.private) && b.public == Public(b.private)
    requires peer.public == b.public && ssOf(a.public) == Some(peer.ss)
    requires Commutes(e, b.private)
    ensures var sent := CreateInitiation(a, peer, e, now);
            sent.Some? ==>
              var hs := sent.value.hs;
              ConsumeInitiation(b, ssOf, sent.value.msg) == Some(Received(hs.(e := Public(e)), a.public, now)) && hs.e == e
  {
    hide Hash, Hmac, Dh, Kdf1, Kdf2, ParamInit, MixHash, Encrypt, Decrypt;
    var sent := CreateInitiation(a, peer, e, now);
    if sent.Some? {
      var ue := Public(e);
      var hs := MixEphemeral(ParamInit(b.public).(e := e), ue);
      var k := MixShared(hs, Dh(e, b.public)).value;
      var k' := MixShared(MixEphemeral(ParamInit(b.public), ue), Dh(b.private, ue)).value;
      assert k' == Keyed(k.hs.(e := ParamInit(b.public).e), k.key);
      SameCipher(k, k', a.public);
      DecryptEncrypt(k', a.public);
      var es := sent.value.msg.es;
      assert OpenSender(b, sent.value.msg) == Some((MixSealed(k'.hs, es), a.public));
      var l := MixShared(MixSealed(k.hs, es), peer.ss).value;
      var l' := MixShared(MixSealed(k'.hs, es), peer.ss).value;
      SameCipher(l, l', now);
      DecryptEncrypt(l', now);
    }
  }

  // Whenever a response could be made, the initiator accepts it and has the same chaining key.
  lemma ResponseAgrees(a: Identity, hs: State, peer: Peer, e: Key, e': Key)
    requires a.public == Public(a.private) && hs.e == e && peer.public == a.public
    requires Commutes(e, e') && Commutes(a.private, e')
    ensures var sent := CreateResponse(hs.(e := Public(e)), peer, e');
            sent.Some? ==>
              ConsumeResponse(a, hs, peer.psk, sent.value.msg) == Some(sent.value.hs.(e := e))
  {
    hide Hash, Hmac, Dh, Kdf1, Kdf2, Kdf3, MixHash, Encrypt, Decrypt;
    var sent := CreateResponse(hs.(e := Public(e)), peer, e');
    if sent.Some? {
      var ue := Public(e');
      var k := MixShared(MixEphemeral(hs.(e := Public(e)), ue), Dh(e', Public(e))).value;
      var k' := MixShared(MixEphemeral(hs, ue), Dh(e, ue)).value;
      assert k' == Keyed(k.hs.(e := e), k.key);
      var l := MixPsk(MixShared(k.hs, Dh(e', a.public)).value.hs, peer.psk);
      var l' := MixPsk(MixShared(k'.hs, Dh(a.private, ue)).value.hs, peer.psk);
      SameCipher(l, l', []);
      DecryptEncrypt(l', []);
    }
  }

  // The secret in the state plays no part in the messages.
  lemma SameCipher(k: Keyed, k': Keyed, text: seq<byte>)
    requires k.key == k'.key && k.hs.hash == k'.hs.hash
    ensures Encrypt(k, text) == Encrypt(k', text)
  {}
}
