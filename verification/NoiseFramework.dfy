/**
 The Noise Protocol Framework, revision 34, for handshakes with a preshared key: the symmetric
 state of its section 5.2, and the tokens of its sections 5.3 and 9 run one after the other.
 The handshake of the code is the pattern IKpsk2 run by these rules.
 */
module NoiseFramework {
  import opened Wrappers
  import opened Machine
  import opened Bytes
  import Aead
  import Blake2s
  import Handshake

  type Key = Handshake.Key

  // Section 4.3: HKDF with n outputs, each under the one before it
  function Outputs(temp: Key, n: nat): (out: seq<Key>)
    requires n <= 3
    ensures |out| == n
  {
    hide Handshake.Hmac;
    if n == 0 then []
    else
      var out := Outputs(temp, n - 1);
      out + [Handshake.Hmac(temp, (if n == 1 then [] else out[n - 2]) + [n])]
  }

  function Hkdf(ck: Key, input: seq<byte>, n: nat): (out: seq<Key>)
    requires n <= 3
    ensures |out| == n
  {
    Outputs(Handshake.Hmac(ck, input), n)
  }

  // Section 5.2: the cipher key, which is absent at first, and its counter, the chaining key and
  // the hash of the transcript
  datatype Symmetric = Symmetric(k: Option<Key>, n: u64, ck: Key, h: Key)

  function MixHash(sym: Symmetric, data: seq<byte>): Symmetric {
    sym.(h := Handshake.Hash(sym.h + data))
  }

  function MixKey(sym: Symmetric, input: seq<byte>): Symmetric {
    var out := Hkdf(sym.ck, input, 2);
    sym.(ck := out[0], k := Some(out[1]), n := 0)
  }

  function MixKeyAndHash(sym: Symmetric, input: seq<byte>): Symmetric {
    var out := Hkdf(sym.ck, input, 3);
    MixHash(sym.(ck := out[0]), out[1]).(k := Some(out[2]), n := 0)
  }

  function Sealed(sym: Symmetric, text: seq<byte>): seq<byte> {
    hide Aead.Seal;
    if sym.k == None then text else Aead.Seal(sym.k.value, sym.n, sym.h, text)
  }

  // EncryptAndHash and DecryptAndHash leave this behind
  function AfterCipher(sym: Symmetric, sealed: seq<byte>): Symmetric {
    MixHash(sym, sealed).(n := if sym.k == None then sym.n else (sym.n + 1) % 0x1_0000_0000_0000_0000)
  }

  function Unsealed(sym: Symmetric, sealed: seq<byte>): Option<seq<byte>> {
    hide Aead.Open;
    if sym.k == None then Some(sealed)
    else
      match Aead.Open(sym.k.value, sym.n, sym.h, sealed)
      case Rejected => None
      case Opened(text) => Some(text)
  }

  // Section 5.3: a name longer than a hash is hashed; then the prologue and the static key of the
  // responder, which is known beforehand
  function Initialize(name: string, prologue: string, responder: Key): Symmetric
    requires |name| > 32
  {
    var h := Handshake.Hash(Ascii(name));
    MixHash(MixHash(Symmetric(None, 0, h, h), Ascii(prologue)), responder)
  }

  // The opening of WireGuard
  function Begin(responder: Key): Symmetric {
    Initialize("Noise_IKpsk2_25519_ChaChaPoly_BLAKE2s", "WireGuard v1 zx2c4 Jason@zx2c4.com", responder)
  }

  // Both keys of transport data, the initiator's first
  function Split(sym: Symmetric): (Key, Key) {
    var out := Hkdf(sym.ck, [], 2);
    (out[0], out[1])
  }

  // Sections 7.1 and 9
  datatype Token = E | S | EE | ES | SE | SS | Psk

  // IKpsk2: -> e, es, s, ss   <- e, ee, se, psk
  const FIRST: seq<Token> := [E, ES, S, SS]
  const SECOND: seq<Token> := [E, EE, SE, Psk]

  // What one side holds. Its product of the two static keys is computed beforehand.
  datatype Party = Party(
    initiator: bool, private: Key, public: Key, ephemeral: Key, rs: Key, re: Key, ss: Key, psk: Key)

  // The Diffie-Hellman product a token stands for
  function Product(p: Party, t: Token): Key
    requires t != E && t != S && t != Psk
  {
    match t
    case EE => Handshake.Dh(p.ephemeral, p.re)
    case ES => if p.initiator then Handshake.Dh(p.ephemeral, p.rs) else Handshake.Dh(p.private, p.re)
    case SE => if p.initiator then Handshake.Dh(p.private, p.re) else Handshake.Dh(p.ephemeral, p.rs)
    case _ => p.ss
  }

  // Products and the preshared key. The null product is refused.
  function Mix(p: Party, t: Token, sym: Symmetric): Option<Symmetric>
    requires t != E && t != S
  {
    hide Product, MixKey, MixKeyAndHash;
    if t == Psk then Some(MixKeyAndHash(sym, p.psk))
    else if Product(p, t) == Handshake.NULL then None
    else Some(MixKey(sym, Product(p, t)))
  }

  // A message that is being written: its fields so far
  datatype Writing = Writing(sym: Symmetric, fields: seq<seq<byte>>)

  function EncryptAndHash(w: Writing, text: seq<byte>): Writing {
    var c := Sealed(w.sym, text);
    Writing(AfterCipher(w.sym, c), w.fields + [c])
  }

  function WriteToken(p: Party, t: Token, w: Writing): Option<Writing> {
    hide MixKey, MixHash, Mix, EncryptAndHash;
    match t
    case E =>
      var ue := Handshake.Public(p.ephemeral);
      if ue == Handshake.NULL then None
      else Some(Writing(MixKey(MixHash(w.sym, ue), ue), w.fields + [ue]))
    case S => Some(EncryptAndHash(w, p.public))
    case _ =>
      match Mix(p, t, w.sym)
      case None => None
      case Some(sym) => Some(w.(sym := sym))
  }

  function Then(p: Party, t: Token, w: Option<Writing>): Option<Writing> {
    hide WriteToken;
    if w == None then None else WriteToken(p, t, w.value)
  }

  // WriteMessage: token by token and then the payload, unless one of them was refused
  function Write(p: Party, tokens: seq<Token>, payload: seq<byte>, w: Option<Writing>): Option<Writing> {
    hide Then, EncryptAndHash;
    if tokens != [] then Write(p, tokens[1..], payload, Then(p, tokens[0], w))
    else if w == None then None
    else Some(EncryptAndHash(w.value, payload))
  }

  // A message that is being read: the fields that are left, and what is known of the other side.
  // `ssOf` gives the product of the static keys for the remotes that are known.
  datatype Reading = Reading(sym: Symmetric, fields: seq<seq<byte>>, party: Party)

  function DecryptAndHash(r: Reading): Option<(Reading, seq<byte>)> {
    if r.fields == [] then None
    else
      match Unsealed(r.sym, r.fields[0])
      case None => None
      case Some(text) => Some((r.(sym := AfterCipher(r.sym, r.fields[0]), fields := r.fields[1..]), text))
  }

  function ReadToken(ssOf: Key -> Option<Key>, t: Token, r: Reading): Option<Reading> {
    hide MixKey, MixHash, Mix, DecryptAndHash;
    if t == E then
      if r.fields == [] || |r.fields[0]| != 32 then None
      else
        var re: Key := r.fields[0];
        Some(Reading(MixKey(MixHash(r.sym, re), re), r.fields[1..], r.party.(re := re)))
    else if t == S then
      match DecryptAndHash(r)
      case None => None
      case Some((r, text)) =>
        if |text| != 32 then None
        else
          var rs: Key := text;
          match ssOf(rs)
          case None => None
          case Some(ss) => Some(r.(party := r.party.(rs := rs, ss := ss)))
    else
      match Mix(r.party, t, r.sym)
      case None => None
      case Some(sym) => Some(r.(sym := sym))
  }

  function ThenRead(ssOf: Key -> Option<Key>, t: Token, r: Option<Reading>): Option<Reading> {
    hide ReadToken;
    if r == None then None else ReadToken(ssOf, t, r.value)
  }

  // ReadMessage, with the payload
  function Read(ssOf: Key -> Option<Key>, tokens: seq<Token>, r: Option<Reading>): Option<(Reading, seq<byte>)> {
    hide ThenRead, DecryptAndHash;
    if tokens != [] then Read(ssOf, tokens[1..], ThenRead(ssOf, tokens[0], r))
    else if r == None then None
    else DecryptAndHash(r.value)
  }

  // The code against the framework

  lemma {:induction false} KdfIsHkdf(ck: Key, x: seq<byte>)
    ensures Hkdf(ck, x, 1) == [Handshake.Kdf1(ck, x)]
    ensures Hkdf(ck, x, 2) == [Handshake.Kdf1(ck, x), Handshake.Kdf2(ck, x)]
    ensures Hkdf(ck, x, 3) == [Handshake.Kdf1(ck, x), Handshake.Kdf2(ck, x), Handshake.Kdf3(ck, x)]
  {
    hide Handshake.Hmac;
    var temp := Handshake.Hmac(ck, x);
    assert [] + [1] == [1];
    assert Outputs(temp, 1) == [Handshake.Kdf1(ck, x)];
    assert Outputs(temp, 2) == [Handshake.Kdf1(ck, x), Handshake.Kdf2(ck, x)];
  }

  // The state of the code is the symmetric state without its cipher.
  predicate Same(hs: Handshake.State, sym: Symmetric) {
    hs.ck == sym.ck && hs.hash == sym.h
  }

  predicate SameKeyed(k: Handshake.Keyed, sym: Symmetric) {
    Same(k.hs, sym) && sym.k == Some(k.key) && sym.n == 0
  }

  lemma ParamInitIsBegin(s: Key)
    ensures Same(Handshake.ParamInit(s), Begin(s))
  {
    hide Handshake.Hash;
  }

  lemma MixKeyIs(hs: Handshake.State, sym: Symmetric, x: Key)
    requires Same(hs, sym)
    ensures SameKeyed(Handshake.Keyed(hs.(ck := Handshake.Kdf1(hs.ck, x)), Handshake.Kdf2(hs.ck, x)), MixKey(sym, x))
  {
    hide Handshake.Kdf1, Handshake.Kdf2, Hkdf;
    KdfIsHkdf(hs.ck, x);
  }

  lemma MixEphemeralIs(hs: Handshake.State, sym: Symmetric, ue: Key)
    requires Same(hs, sym)
    ensures Same(Handshake.MixEphemeral(hs, ue), MixKey(MixHash(sym, ue), ue))
    ensures Handshake.MixEphemeral(hs, ue).e == hs.e
  {
    hide Handshake.Hash, Handshake.Kdf1, Handshake.Kdf2, MixKey;
    MixKeyIs(Handshake.MixSealed(hs, ue), MixHash(sym, ue), ue);
  }

  lemma MixSharedIs(hs: Handshake.State, sym: Symmetric, shared: Key)
    requires Same(hs, sym)
    ensures match Handshake.MixShared(hs, shared)
            case None => shared == Handshake.NULL
            case Some(k) => shared != Handshake.NULL && SameKeyed(k, MixKey(sym, shared)) && k.hs.e == hs.e
  {
    hide Handshake.Kdf1, Handshake.Kdf2, MixKey, Same, SameKeyed;
    MixKeyIs(hs, sym, shared);
  }

  lemma MixPskIs(hs: Handshake.State, sym: Symmetric, psk: Key)
    requires Same(hs, sym)
    ensures SameKeyed(Handshake.MixPsk(hs, psk), MixKeyAndHash(sym, psk))
    ensures Handshake.MixPsk(hs, psk).hs.e == hs.e
  {
    hide Handshake.Hash, Handshake.Kdf1, Handshake.Kdf2, Handshake.Kdf3, Hkdf;
    KdfIsHkdf(hs.ck, psk);
  }

  lemma SealIs(k: Handshake.Keyed, sym: Symmetric, text: seq<byte>)
    requires SameKeyed(k, sym)
    ensures Sealed(sym, text) == Handshake.Encrypt(k, text)
    ensures Same(Handshake.MixSealed(k.hs, Handshake.Encrypt(k, text)), AfterCipher(sym, Sealed(sym, text)))
    ensures Handshake.MixSealed(k.hs, Handshake.Encrypt(k, text)).e == k.hs.e
  {
    hide Handshake.Hash, Aead.Seal;
  }

  lemma UnsealIs(k: Handshake.Keyed, sym: Symmetric, sealed: seq<byte>)
    requires SameKeyed(k, sym)
    ensures Unsealed(sym, sealed) == Handshake.Decrypt(k, sealed)
    ensures Same(Handshake.MixSealed(k.hs, sealed), AfterCipher(sym, sealed))
    ensures Handshake.MixSealed(k.hs, sealed).e == k.hs.e
  {
    hide Handshake.Hash, Aead.Open;
  }

  // The four messages

  // One message made by the rules of the framework, and the same by the code
  predicate SameSent<M>(fields: M -> seq<seq<byte>>, e: Key, w: Option<Writing>, sent: Option<Handshake.Sent<M>>) {
    match sent
    case None => w == None
    case Some(sent) =>
      w.Some? && Same(sent.hs, w.value.sym) && w.value.fields == fields(sent.msg) && sent.hs.e == e
  }

  // ... and one message read
  predicate SameReceived(read: Option<(Reading, seq<byte>)>, got: Option<Handshake.Received>) {
    match got
    case None => read == None
    case Some(got) =>
      && read.Some?
      && Same(got.hs, read.value.0.sym)
      && got.hs.e == read.value.0.party.re
      && got.sender == read.value.0.party.rs
      && got.timestamp == read.value.1
  }

  predicate SameFinished(read: Option<(Reading, seq<byte>)>, e: Key, got: Option<Handshake.State>) {
    match got
    case None => read == None
    case Some(hs) => read.Some? && Same(hs, read.value.0.sym) && hs.e == e
  }

  function InitiationFields(m: Handshake.Initiation): seq<seq<byte>> {
    [m.ue, m.es, m.ets]
  }

  function ResponseFields(m: Handshake.Response): seq<seq<byte>> {
    [m.ue, m.en]
  }

  // Messages of four tokens
  lemma {:induction false} WriteFour(p: Party, a: Token, b: Token, c: Token, d: Token, payload: seq<byte>, w: Option<Writing>)
    ensures Write(p, [a, b, c, d], payload, w) ==
            Write(p, [], payload, Then(p, d, Then(p, c, Then(p, b, Then(p, a, w)))))
  {
    hide Then, EncryptAndHash;
    assert [a, b, c, d][1..] == [b, c, d] && [b, c, d][1..] == [c, d] && [c, d][1..] == [d] && [d][1..] == [];
    var w1 := Then(p, a, w);
    var w2 := Then(p, b, w1);
    var w3 := Then(p, c, w2);
    assert Write(p, [a, b, c, d], payload, w) == Write(p, [b, c, d], payload, w1);
    assert Write(p, [b, c, d], payload, w1) == Write(p, [c, d], payload, w2);
    assert Write(p, [c, d], payload, w2) == Write(p, [d], payload, w3);
  }

  lemma {:induction false} ReadFour(ssOf: Key -> Option<Key>, a: Token, b: Token, c: Token, d: Token, r: Option<Reading>)
    ensures Read(ssOf, [a, b, c, d], r) ==
            Read(ssOf, [], ThenRead(ssOf, d, ThenRead(ssOf, c, ThenRead(ssOf, b, ThenRead(ssOf, a, r)))))
  {
    hide ThenRead, DecryptAndHash;
    assert [a, b, c, d][1..] == [b, c, d] && [b, c, d][1..] == [c, d] && [c, d][1..] == [d] && [d][1..] == [];
    var r1 := ThenRead(ssOf, a, r);
    var r2 := ThenRead(ssOf, b, r1);
    var r3 := ThenRead(ssOf, c, r2);
    assert Read(ssOf, [a, b, c, d], r) == Read(ssOf, [b, c, d], r1);
    assert Read(ssOf, [b, c, d], r1) == Read(ssOf, [c, d], r2);
    assert Read(ssOf, [c, d], r2) == Read(ssOf, [d], r3);
  }

  lemma CreateInitiationIs(id: Handshake.Identity, peer: Handshake.Peer, p: Party, now: Handshake.Timestamp)
    requires p.initiator && p.public == id.public && p.rs == peer.public && p.ss == peer.ss
    ensures SameSent(InitiationFields, p.ephemeral, Write(p, FIRST, now, Some(Writing(Begin(peer.public), []))), Handshake.CreateInitiation(id, peer, p.ephemeral, now))
  {
    hide Handshake.ParamInit, Handshake.Public, Handshake.MixEphemeral, Handshake.MixShared, Handshake.Encrypt, Handshake.MixSealed, Handshake.Dh;
    hide Begin, Sealed, AfterCipher, MixKey, MixHash;
    var ue := Handshake.Public(p.ephemeral);
    var s := Begin(peer.public);
    WriteFour(p, E, ES, S, SS, now, Some(Writing(s, [])));
    ParamInitIsBegin(peer.public);
    var hs := Handshake.ParamInit(peer.public).(e := p.ephemeral);
    MixEphemeralIs(hs, s, ue);
    var hs1, s1 := Handshake.MixEphemeral(hs, ue), MixKey(MixHash(s, ue), ue);
    var es := Handshake.Dh(p.ephemeral, peer.public);
    MixSharedIs(hs1, s1, es);
    if ue != Handshake.NULL && es != Handshake.NULL {
      var k, s2 := Handshake.MixShared(hs1, es).value, MixKey(s1, es);
      SealIs(k, s2, id.public);
      var c := Handshake.Encrypt(k, id.public);
      var hs2, s3 := Handshake.MixSealed(k.hs, c), AfterCipher(s2, c);
      MixSharedIs(hs2, s3, peer.ss);
      if peer.ss != Handshake.NULL {
        SealIs(Handshake.MixShared(hs2, peer.ss).value, MixKey(s3, peer.ss), now);
      }
    }
  }

  lemma CreateResponseIs(hs: Handshake.State, peer: Handshake.Peer, p: Party, sym: Symmetric)
    requires Same(hs, sym)
    requires !p.initiator && p.rs == peer.public && p.re == hs.e && p.psk == peer.psk
    ensures SameSent(ResponseFields, hs.e, Write(p, SECOND, [], Some(Writing(sym, []))), Handshake.CreateResponse(hs, peer, p.ephemeral))
  {
    hide Handshake.Public, Handshake.MixEphemeral, Handshake.MixShared, Handshake.MixPsk, Handshake.Encrypt, Handshake.MixSealed, Handshake.Dh;
    hide Sealed, AfterCipher, MixKey, MixHash, MixKeyAndHash;
    WriteFour(p, E, EE, SE, Psk, [], Some(Writing(sym, [])));
    var ue := Handshake.Public(p.ephemeral);
    MixEphemeralIs(hs, sym, ue);
    var hs1, s1 := Handshake.MixEphemeral(hs, ue), MixKey(MixHash(sym, ue), ue);
    var ee := Handshake.Dh(p.ephemeral, hs.e);
    MixSharedIs(hs1, s1, ee);
    if ue != Handshake.NULL && ee != Handshake.NULL {
      var k2, s2 := Handshake.MixShared(hs1, ee).value, MixKey(s1, ee);
      var se := Handshake.Dh(p.ephemeral, peer.public);
      MixSharedIs(k2.hs, s2, se);
      if se != Handshake.NULL {
        var k3, s3 := Handshake.MixShared(k2.hs, se).value, MixKey(s2, se);
        MixPskIs(k3.hs, s3, p.psk);
        SealIs(Handshake.MixPsk(k3.hs, p.psk), MixKeyAndHash(s3, p.psk), []);
      }
    }
  }

  lemma ConsumeInitiationIs(id: Handshake.Identity, ssOf: Key -> Option<Key>, msg: Handshake.Initiation, p: Party)
    requires !p.initiator && p.private == id.private
    ensures SameReceived(Read(ssOf, FIRST, Some(Reading(Begin(id.public), InitiationFields(msg), p))),
                         Handshake.ConsumeInitiation(id, ssOf, msg))
  {
    hide Handshake.ParamInit, Handshake.MixEphemeral, Handshake.MixShared, Handshake.Decrypt, Handshake.MixSealed, Handshake.Dh;
    hide Begin, Unsealed, AfterCipher, MixKey, MixHash;
    var ue, s, fields := msg.ue, Begin(id.public), InitiationFields(msg);
    ReadFour(ssOf, E, ES, S, SS, Some(Reading(s, fields, p)));
    ParamInitIsBegin(id.public);
    var hs := Handshake.ParamInit(id.public);
    MixEphemeralIs(hs, s, ue);
    var hs1, s1 := Handshake.MixEphemeral(hs, ue), MixKey(MixHash(s, ue), ue);
    var es := Handshake.Dh(p.private, ue);
    MixSharedIs(hs1, s1, es);
    assert fields[1..][1..] == fields[2..];
    if es != Handshake.NULL {
      var k2, s2 := Handshake.MixShared(hs1, es).value, MixKey(s1, es);
      UnsealIs(k2, s2, msg.es);
      var hs3, s3 := Handshake.MixSealed(k2.hs, msg.es), AfterCipher(s2, msg.es);
      var public := Handshake.Decrypt(k2, msg.es);
      if public.Some? && ssOf(public.value).Some? {
        var ss := ssOf(public.value).value;
        MixSharedIs(hs3, s3, ss);
        if ss != Handshake.NULL {
          UnsealIs(Handshake.MixShared(hs3, ss).value, MixKey(s3, ss), msg.ets);
        }
      }
    }
  }

  lemma ConsumeResponseIs(id: Handshake.Identity, hs: Handshake.State, psk: Key, msg: Handshake.Response, p: Party, ssOf: Key -> Option<Key>, sym: Symmetric)
    requires Same(hs, sym)
    requires p.initiator && p.private == id.private && p.ephemeral == hs.e && p.psk == psk
    ensures SameFinished(Read(ssOf, SECOND, Some(Reading(sym, ResponseFields(msg), p))), hs.e,
                         Handshake.ConsumeResponse(id, hs, psk, msg))
  {
    hide Handshake.MixEphemeral, Handshake.MixShared, Handshake.MixPsk, Handshake.Decrypt, Handshake.MixSealed, Handshake.Dh;
    hide Unsealed, AfterCipher, MixKey, MixHash, MixKeyAndHash;
    var ue, fields := msg.ue, ResponseFields(msg);
    ReadFour(ssOf, E, EE, SE, Psk, Some(Reading(sym, fields, p)));
    MixEphemeralIs(hs, sym, ue);
    var hs1, s1 := Handshake.MixEphemeral(hs, ue), MixKey(MixHash(sym, ue), ue);
    var ee := Handshake.Dh(hs.e, ue);
    MixSharedIs(hs1, s1, ee);
    if ee != Handshake.NULL {
      var k2, s2 := Handshake.MixShared(hs1, ee).value, MixKey(s1, ee);
      var se := Handshake.Dh(p.private, ue);
      MixSharedIs(k2.hs, s2, se);
      if se != Handshake.NULL {
        var k3, s3 := Handshake.MixShared(k2.hs, se).value, MixKey(s2, se);
        MixPskIs(k3.hs, s3, psk);
        UnsealIs(Handshake.MixPsk(k3.hs, psk), MixKeyAndHash(s3, psk), msg.en);
      }
    }
  }

  // The initiator sends with the first key of Split and receives with the second, the responder
  // the other way round.
  lemma SessionKeysAreSplit(hs: Handshake.State, sym: Symmetric)
    requires Same(hs, sym)
    ensures var (first, second) := Split(sym);
            && Handshake.SessionKeys(hs, true) == Handshake.Keys(first, second)
            && Handshake.SessionKeys(hs, false) == Handshake.Keys(second, first)
  {
    hide Handshake.Kdf1, Handshake.Kdf2, Hkdf;
    KdfIsHkdf(hs.ck, []);
  }
}
