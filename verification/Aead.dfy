/**
 ChaCha20-Poly1305 on flat buffers (src/crypto.c:507-588), section 2.8 of RFC 8439.
 */
module Aead {
  import opened Machine
  import opened Bytes
  import opened ChaCha20
  import Poly1305

  // The specification over byte strings

  function PolyKey(key: seq<byte>, nonce: u64): (k: seq<byte>)
    requires |key| == 32
    ensures |k| == 32
  {
    hide KeyBlock;
    KeyBlock(InitState(key, nonce))[..32]
  }

  // Zeros up to the next multiple of 16
  function Pad(n: nat): (p: seq<byte>)
    ensures |p| == (16 - n) % 16 && (n + |p|) % 16 == 0
    ensures forall i :: 0 <= i < |p| ==> p[i] == 0
  {
    seq((16 - n) % 16, _ => 0)
  }

  function MacInput(ad: seq<byte>, ct: seq<byte>): seq<byte> {
    ad + Pad(|ad|) + ct + Pad(|ct|) + LeBytes(|ad|, 8) + LeBytes(|ct|, 8)
  }

  function AuthTag(key: seq<byte>, nonce: u64, ad: seq<byte>, ct: seq<byte>): (t: seq<byte>)
    requires |key| == 32
    ensures |t| == 16
  {
    Poly1305.Tag(PolyKey(key, nonce), MacInput(ad, ct))
  }

  // The message cipher, from block 1 on
  function Cipher(key: seq<byte>, nonce: u64, msg: seq<byte>): (ct: seq<byte>)
    requires |key| == 32
    ensures |ct| == |msg|
  {
    XorStream(Advance(InitState(key, nonce), 1), 0, msg)
  }

  function Seal(key: seq<byte>, nonce: u64, ad: seq<byte>, msg: seq<byte>): (ct: seq<byte>)
    requires |key| == 32
    ensures |ct| == |msg| + 16
  {
    hide Cipher, AuthTag;
    var ct := Cipher(key, nonce, msg);
    ct + AuthTag(key, nonce, ad, ct)
  }

  datatype Opened = Rejected | Opened(msg: seq<byte>)

  function Open(key: seq<byte>, nonce: u64, ad: seq<byte>, sealed: seq<byte>): (r: Opened)
    requires |key| == 32
  {
    hide Cipher, AuthTag;
    if |sealed| < 16 then Rejected
    else
      var n := |sealed| - 16;
      if sealed[n..] == AuthTag(key, nonce, ad, sealed[..n]) then Opened(Cipher(key, nonce, sealed[..n]))
      else Rejected
  }

  // Opening what was sealed gives the message back, and only sealed texts open.
  lemma OpenSeal(key: seq<byte>, nonce: u64, ad: seq<byte>, msg: seq<byte>)
    requires |key| == 32
    ensures Open(key, nonce, ad, Seal(key, nonce, ad, msg)) == Opened(msg)
  {
    hide AuthTag, InitState, Advance, XorStream;
    var sealed := Seal(key, nonce, ad, msg);
    assert sealed[..|msg|] == Cipher(key, nonce, msg);
    XorStreamTwice(Advance(InitState(key, nonce), 1), 0, msg);
  }

  lemma OpenOnlySealed(key: seq<byte>, nonce: u64, ad: seq<byte>, sealed: seq<byte>)
    requires |key| == 32
    ensures Open(key, nonce, ad, sealed).Opened? <==>
            exists msg :: sealed == Seal(key, nonce, ad, msg)
    ensures Open(key, nonce, ad, sealed).Opened? ==> sealed == Seal(key, nonce, ad, Open(key, nonce, ad, sealed).msg)
  {
    hide AuthTag, InitState, Advance, XorStream;
    if Open(key, nonce, ad, sealed).Opened? {
      var n := |sealed| - 16;
      XorStreamTwice(Advance(InitState(key, nonce), 1), 0, sealed[..n]);
      assert sealed == sealed[..n] + sealed[n..];
      assert sealed == Seal(key, nonce, ad, Open(key, nonce, ad, sealed).msg);
    }
    forall msg | sealed == Seal(key, nonce, ad, msg)
      ensures Open(key, nonce, ad, sealed).Opened?
    {
      OpenSeal(key, nonce, ad, msg);
    }
  }

  // The state that the one-time key of the authenticator is made from, and that of block i of the
  // message
  function StateOf(key: seq<byte>, nonce: u64, i: Block): State
    requires |key| == 32
  {
    match i
    case Authenticator => InitState(key, nonce)
    case Message(i) => Advance(Advance(InitState(key, nonce), 1), i)
  }

  datatype Block = Authenticator | Message(i: nat)

  // No state is used twice: not under another key or nonce, and not within a message that the
  // 32-bit length admits.
  lemma StatesApart(key: seq<byte>, nonce: u64, i: Block, key': seq<byte>, nonce': u64, j: Block)
    requires |key| == |key'| == 32
    requires forall b :: b in {i, j} && b.Message? ==> 64 * b.i < TWO32
    ensures StateOf(key, nonce, i) == StateOf(key', nonce', j) <==> key == key' && nonce == nonce' && i == j
  {
    hide InitState, Advance;
    var m, n := if i.Message? then i.i + 1 else 0, if j.Message? then j.i + 1 else 0;
    forall st: State
      ensures Advance(st, 0) == st
    {
      AdvanceNone(st);
    }
    if i.Message? {
      AdvanceTwice(InitState(key, nonce), 1, i.i);
    }
    if j.Message? {
      AdvanceTwice(InitState(key', nonce'), 1, j.i);
    }
    if StateOf(key, nonce, i) == StateOf(key', nonce', j) {
      StatesDiffer(key, nonce, m, key', nonce', n);
    }
  }

  // chacha20 takes its length as a 32-bit number, so only the first |msg| mod 2^32 bytes of the
  // destination are written; `prior` is what the destination held before.
  function Written(key: seq<byte>, nonce: u64, msg: seq<byte>, prior: seq<byte>): (ct: seq<byte>)
    requires |key| == 32 && |prior| == |msg|
    ensures |ct| == |msg|
  {
    hide Cipher;
    var n := |msg| % 0x1_0000_0000;
    Cipher(key, nonce, msg[..n]) + prior[n..]
  }

  // Every byte is enciphered, whatever the destination held, exactly for messages below 2^32 bytes.
  lemma WrittenIsCipher(key: seq<byte>, nonce: u64, msg: seq<byte>)
    requires |key| == 32
    ensures (forall prior :: |prior| == |msg| ==> Written(key, nonce, msg, prior) == Cipher(key, nonce, msg)) <==>
            |msg| < 0x1_0000_0000
  {
    hide Cipher;
    var n, ct := |msg| % 0x1_0000_0000, Cipher(key, nonce, msg);
    if |msg| < 0x1_0000_0000 {
      assert msg[..n] == msg;
    } else {
      var other: byte := if ct[n] == 0 then 1 else 0;
      var prior := ct[n := other];
      assert Written(key, nonce, msg, prior)[n] == prior[n] != ct[n];
    }
  }

  // The Poly1305 calls of both directions: associated data, ciphertext, and the two lengths
  method Authenticate(polyKey: seq<byte>, ad: seq<byte>, ct: seq<byte>) returns (mac: seq<byte>)
    requires |polyKey| == 32
    ensures mac == Poly1305.Tag(polyKey, MacInput(ad, ct))
  {
    hide Poly1305.Tag, Poly1305.Context.Valid, LeBytes;
    var poly := new Poly1305.Context(polyKey);
    poly.Update(ad);
    poly.Update(Pad(|ad|));
    poly.Update(ct);
    poly.Update(Pad(|ct|));
    poly.Update(LeBytes(|ad|, 8) + LeBytes(|ct|, 8));
    assert poly.absorbed == MacInput(ad, ct);
    mac := poly.Final();
  }

  // The first 32 bytes of block 0, made by enciphering zeros in place
  method BlockZero(cc: Context, key: seq<byte>, nonce: u64) returns (polyKey: seq<byte>)
    requires |key| == 32 && cc.state == InitState(key, nonce)
    modifies cc
    ensures polyKey == PolyKey(key, nonce)
    ensures cc.state == Advance(InitState(key, nonce), 1)
  {
    hide KeyBlock, InitState, Xor8, Advance;
    var b := new byte[32](_ => 0);
    ghost var st := cc.state;
    cc.Crypt(b, b, 32);
    polyKey := b[..];
    AdvanceNone(st);
    forall i | 0 <= i < 32
      ensures polyKey[i] == KeyBlock(st)[i]
    {
      KeyByteInBlock(st, 0, i);
      XorFromZero(KeyBlock(st)[i]);
    }
  }

  lemma XorFromZero(b: byte)
    ensures Xor8(0, b) == b
  {
    XorCommutes(0, b);
    XorZero(b);
  }

  // chacha20poly1305_encrypt; `dst` may be `src`
  method Encrypt(dst: array<byte>, src: array<byte>, srcLen: u64, ad: seq<byte>, nonce: u64, key: seq<byte>)
    requires |key| == 32 && srcLen <= src.Length && srcLen + 16 <= dst.Length
    modifies dst
    ensures dst[..srcLen] == Written(key, nonce, old(src[..srcLen]), old(dst[..srcLen]))
    ensures dst[srcLen..srcLen + 16] == AuthTag(key, nonce, ad, dst[..srcLen])
    ensures forall i :: srcLen + 16 <= i < dst.Length ==> dst[i] == old(dst[i])
    ensures srcLen < 0x1_0000_0000 ==>
              dst[..srcLen + 16] == Seal(key, nonce, ad, old(src[..srcLen]))
  {
    hide InitState, Advance, XorStream, PolyKey, Poly1305.Tag, MacInput;
    var cc := new Context(key, nonce);
    var polyKey := BlockZero(cc, key, nonce);
    var n: u32 := srcLen % 0x1_0000_0000;
    ghost var msg, prior := src[..srcLen], dst[..srcLen];
    cc.Crypt(dst, src, n);
    assert dst[..srcLen] == Written(key, nonce, msg, prior) by {
      assert msg[..n] == old(src[..n]);
    }
    var mac := Authenticate(polyKey, ad, dst[..srcLen]);
    ghost var ct := dst[..srcLen];
    assert mac == AuthTag(key, nonce, ad, ct);
    hide AuthTag, Written;
    PutTag(dst, srcLen, mac);
    if srcLen < 0x1_0000_0000 {
      ShortWritten(key, nonce, msg, prior);
      hide Cipher;
    }
  }

  method PutTag(dst: array<byte>, at: nat, mac: seq<byte>)
    requires |mac| == 16 && at + 16 <= dst.Length
    modifies dst
    ensures dst[..at] == old(dst[..at]) && dst[at..at + 16] == mac
    ensures dst[..at + 16] == old(dst[..at]) + mac
    ensures forall i :: at + 16 <= i < dst.Length ==> dst[i] == old(dst[i])
  {
    for i := 0 to 16
      invariant forall j :: 0 <= j < dst.Length && !(at <= j < at + i) ==> dst[j] == old(dst[j])
      invariant forall j :: 0 <= j < i ==> dst[at + j] == mac[j]
    {
      dst[at + i] := mac[i];
    }
    assert dst[at..at + 16] == mac;
  }

  lemma ShortWritten(key: seq<byte>, nonce: u64, msg: seq<byte>, prior: seq<byte>)
    requires |key| == 32 && |prior| == |msg| < 0x1_0000_0000
    ensures Written(key, nonce, msg, prior) == Cipher(key, nonce, msg)
  {
    hide Cipher;
    assert msg[..|msg|] == msg;
  }

  // chacha20poly1305_decrypt; `dst` may be `src`
  method Decrypt(dst: array<byte>, src: array<byte>, srcLen: u64, ad: seq<byte>, nonce: u64, key: seq<byte>)
    returns (ok: bool)
    requires |key| == 32 && srcLen <= src.Length && srcLen <= dst.Length + 16
    modifies dst
    ensures ok ==> srcLen >= 16
    ensures ok <==> Open(key, nonce, ad, old(src[..srcLen])).Opened?
    ensures ok ==> dst[..] == Written(key, nonce, old(src[..srcLen - 16]), old(dst[..srcLen - 16])) + old(dst[srcLen - 16..])
    ensures ok && srcLen - 16 < 0x1_0000_0000 ==>
              Open(key, nonce, ad, old(src[..srcLen])) == Opened(dst[..srcLen - 16])
    ensures !ok ==> dst[..] == old(dst[..])
  {
    hide InitState, Advance, XorStream, PolyKey, Poly1305.Tag, MacInput;
    if srcLen < 16 {
      return false;
    }
    var cc := new Context(key, nonce);
    var polyKey := BlockZero(cc, key, nonce);
    var dstLen := srcLen - 16;
    ghost var sealed, ct, prior := src[..srcLen], src[..dstLen], dst[..dstLen];
    assert sealed[..dstLen] == ct && sealed[dstLen..] == src[dstLen..srcLen];
    var mac := Authenticate(polyKey, ad, src[..dstLen]);
    ok := mac == src[dstLen..srcLen];
    if ok {
      var n: u32 := dstLen % 0x1_0000_0000;
      cc.Crypt(dst, src, n);
      assert dst[..dstLen] == Written(key, nonce, ct, prior) by {
        assert ct[..n] == old(src[..n]);
      }
      if dstLen < 0x1_0000_0000 {
        assert ct[..n] == ct;
      }
    }
  }

  // Encrypting and decrypting in the same buffer gives every message below 2^32 bytes back; in
  // between the buffer holds the sealed text.
  method RoundTripInPlace(buf: array<byte>, len: u32, ad: seq<byte>, nonce: u64, key: seq<byte>)
    returns (ok: bool, ghost sealed: seq<byte>)
    requires |key| == 32 && len + 16 <= buf.Length
    modifies buf
    ensures sealed == Seal(key, nonce, ad, old(buf[..len]))
    ensures ok && Open(key, nonce, ad, sealed) == Opened(buf[..len])
    ensures buf[..len] == old(buf[..len])
  {
    hide Seal, Open, Written, AuthTag;
    OpenSeal(key, nonce, ad, buf[..len]);
    Encrypt(buf, buf, len, ad, nonce, key);
    sealed := buf[..len + 16];
    ok := Decrypt(buf, buf, len + 16, ad, nonce, key);
  }
}
