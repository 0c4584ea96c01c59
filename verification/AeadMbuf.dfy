/**
 ChaCha20-Poly1305 over a chain of mbufs (src/crypto.c:590-680), proved equal to the flat
 form for every way of cutting a packet into pieces.
 */
module AeadMbuf {
  import opened Machine
  import opened Bytes
  import opened ChaCha20
  import opened Aead
  import Poly1305

  // The bytes m_data[..m_len] of one mbuf. Trimming and appending change the length.
  class Mbuf {
    var data: seq<byte>

    constructor (data: seq<byte>)
      ensures this.data == data
    {
      this.data := data;
    }
  }

  datatype Errno = Zero | EMSGSIZE | ENOMEM | EBADMSG

  ghost predicate Distinct(chain: seq<Mbuf>) {
    forall i, j :: 0 <= i < j < |chain| ==> chain[i] != chain[j]
  }

  ghost function Pieces(chain: seq<Mbuf>): (p: seq<seq<byte>>)
    reads chain
    ensures |p| == |chain|
  {
    seq(|chain|, i requires 0 <= i < |chain| reads chain => chain[i].data)
  }

  // The packet: all pieces in order
  ghost function Contents(chain: seq<Mbuf>): seq<byte>
    reads chain
  {
    Flatten(Pieces(chain))
  }

  // How far the key stream from state st has been used: pos bytes, of which the last block has
  // `leftover` bytes still unused in `stream`.
  ghost predicate Position(state: State, stream: seq<byte>, leftover: nat, st: State, pos: nat) {
    && leftover < 64 && (pos + leftover) % 64 == 0
    && state == Advance(st, (pos + leftover) / 64)
    && (leftover > 0 ==> stream == KeyBlock(Advance(st, pos / 64)))
  }

  function XorBytes(a: seq<byte>, b: seq<byte>): (c: seq<byte>)
    requires |a| <= |b|
    ensures |c| == |a|
  {
    hide Xor8;
    seq(|a|, i requires 0 <= i < |a| => Xor8(a[i], b[i]))
  }

  // The part of the current block from byte `from` on
  lemma BlockPart(st: State, k: nat, from: nat, part: seq<byte>, stream: seq<byte>)
    requires |stream| == 64 && from + |part| <= 64 && stream == KeyBlock(Advance(st, k))
    ensures XorBytes(part, stream[from..]) == XorStream(st, 64 * k + from, part)
  {
    hide KeyBlock, KeyByte, Advance, Xor8;
    forall i | 0 <= i < |part|
      ensures stream[from..][i] == KeyByte(st, 64 * k + from + i)
    {
      KeyByteInBlock(st, k, from + i);
    }
  }

  // One mbuf of the loop: finish the block left over, whole blocks, start a new block.
  method CryptPiece(cc: Context, buf: seq<byte>, stream: seq<byte>, leftover: nat, ghost st: State, ghost pos: nat)
    returns (out: seq<byte>, stream': seq<byte>, leftover': nat)
    requires |stream| == 64 && Position(cc.state, stream, leftover, st, pos)
    modifies cc
    ensures out == XorStream(st, pos, buf)
    ensures |stream'| == 64 && Position(cc.state, stream', leftover', st, pos + |buf|)
  {
    hide KeyBlock, Advance, XorStream, Position;
    out, stream', leftover' := UseLeftover(cc.state, buf, stream, leftover, st, pos);
    while |buf| - |out| >= 64
      invariant |out| <= |buf| && out == XorStream(st, pos, buf[..|out|])
      invariant |stream'| == 64 && Position(cc.state, stream', leftover', st, pos + |out|)
      invariant |out| < |buf| ==> leftover' == 0
    {
      AtBoundary(cc.state, stream', st, pos + |out|);
      stream', out := FreshBlock(cc, buf, out, 64, st, pos);
    }
    var len := |buf| - |out|;
    if len > 0 {
      AtBoundary(cc.state, stream', st, pos + |out|);
      stream', out := FreshBlock(cc, buf, out, len, st, pos);
      leftover' := 64 - len;
    }
    assert buf[..|buf|] == buf;
  }

  method UseLeftover(state: State, buf: seq<byte>, stream: seq<byte>, leftover: nat, ghost st: State, ghost pos: nat)
    returns (out: seq<byte>, stream': seq<byte>, leftover': nat)
    requires |stream| == 64 && Position(state, stream, leftover, st, pos)
    ensures |out| <= |buf| && out == XorStream(st, pos, buf[..|out|])
    ensures |stream'| == 64 && Position(state, stream', leftover', st, pos + |out|)
    ensures |out| < |buf| ==> leftover' == 0
  {
    hide KeyBlock, Advance, XorStream;
    stream' := stream;
    if leftover != 0 {
      var l := if |buf| < leftover then |buf| else leftover;
      out := XorBytes(buf[..l], stream[64 - leftover..]);
      leftover' := leftover - l;
      InsideBlock(pos, leftover, l);
      BlockPart(st, pos / 64, 64 - leftover, buf[..l], stream);
    } else {
      out, leftover' := [], 0;
      assert buf[..0] == [] && out == XorStream(st, pos, []);
    }
  }

  lemma AtBoundary(state: State, stream: seq<byte>, st: State, pos: nat)
    requires Position(state, stream, 0, st, pos)
    ensures pos % 64 == 0 && state == Advance(st, pos / 64)
  {
    hide KeyBlock, Advance;
  }

  // Arithmetic of a position inside a block
  lemma InsideBlock(pos: nat, leftover: nat, l: nat)
    requires 0 < leftover < 64 && (pos + leftover) % 64 == 0 && l <= leftover
    ensures 64 * (pos / 64) + (64 - leftover) == pos
    ensures l < leftover ==> (pos + l) / 64 == pos / 64
  {}

  // Take the next block for the next n bytes of the piece.
  method FreshBlock(cc: Context, buf: seq<byte>, out: seq<byte>, n: nat, ghost st: State, ghost pos: nat)
    returns (stream: seq<byte>, out': seq<byte>)
    requires 0 < n <= 64 && |out| + n <= |buf|
    requires out == XorStream(st, pos, buf[..|out|])
    requires (pos + |out|) % 64 == 0 && cc.state == Advance(st, (pos + |out|) / 64)
    modifies cc
    ensures |stream| == 64 && |out'| == |out| + n && out' == XorStream(st, pos, buf[..|out'|])
    ensures Position(cc.state, stream, if n == 64 then 0 else 64 - n, st, pos + |out'|)
  {
    hide KeyBlock, Advance, XorStream;
    ghost var k := (pos + |out|) / 64;
    stream := cc.Block();
    AdvanceTwice(st, k, 1);
    var part := buf[|out|..|out| + n];
    out' := out + XorBytes(part, stream);
    assert stream[0..] == stream;
    BlockPart(st, k, 0, part, stream);
    XorStreamAppend(st, pos, buf[..|out|], part);
    assert buf[..|out| + n] == buf[..|out|] + part;
  }

  // What encrypting a chain leaves, and when it reports success
  ghost predicate Sealed(key: seq<byte>, nonce: u64, packet: seq<byte>, now: seq<byte>, room: nat, ret: Errno)
    requires |key| == 32
  {
    hide Seal;
    var sealed := Seal(key, nonce, [], packet);
    if room >= 16 then ret == Zero && now == sealed
    else ret == ENOMEM && now == sealed[..|packet| + room]
  }

  // What decrypting a chain leaves. The tag is dropped and the rest deciphered even when the
  // packet is refused.
  ghost predicate Unsealed(key: seq<byte>, nonce: u64, packet: seq<byte>, now: seq<byte>, ret: Errno)
    requires |key| == 32
  {
    hide Cipher, Open;
    if |packet| < 16 then ret == EMSGSIZE && now == packet
    else
      && now == Cipher(key, nonce, packet[..|packet| - 16])
      && (ret == Zero <==> Open(key, nonce, [], packet) == Opened(now))
      && (ret == EBADMSG <==> Open(key, nonce, [], packet) == Rejected)
  }

  lemma {:induction false} FlattenSnoc(pieces: seq<seq<byte>>, last: seq<byte>)
    ensures Flatten(pieces + [last]) == Flatten(pieces) + last
  {
    if pieces == [] {
      assert pieces + [last] == [last] && [last][1..] == [];
      assert [] + last == last && last + [] == last;
    } else {
      FlattenSnoc(pieces[1..], last);
      assert (pieces + [last])[1..] == pieces[1..] + [last];
      assert pieces[0] + (Flatten(pieces[1..]) + last) == pieces[0] + Flatten(pieces[1..]) + last;
    }
  }

  lemma FlattenNext(pieces: seq<seq<byte>>, i: nat)
    requires i < |pieces|
    ensures Flatten(pieces[..i + 1]) == Flatten(pieces[..i]) + pieces[i]
  {
    assert pieces[..i + 1] == pieces[..i] + [pieces[i]];
    FlattenSnoc(pieces[..i], pieces[i]);
  }

  // The walk over the chain. The tag covers the ciphertext: what is written when encrypting,
  // what was read when decrypting.
  method CryptChain(chain: seq<Mbuf>, cc: Context, poly: Poly1305.Context, encrypt: bool)
    requires Distinct(chain) && poly.Valid() && poly.absorbed == []
    modifies chain, cc, poly, poly.data
    ensures poly.Valid()
    ensures Contents(chain) == XorStream(old(cc.state), 0, old(Contents(chain)))
    ensures poly.absorbed == if encrypt then Contents(chain) else old(Contents(chain))
  {
    hide KeyBlock, Advance, XorStream, Position, Poly1305.Context.Valid, Flatten;
    ghost var st, was := cc.state, Pieces(chain);
    var stream: seq<byte> := seq(64, _ => 0);
    var leftover: nat := 0;
    ghost var pos := 0;
    Start(st, stream);
    ghost var now: seq<seq<byte>> := [];
    assert was[..0] == [];
    for i := 0 to |chain|
      invariant poly.Valid()
      invariant pos == |Flatten(was[..i])| && |now| == i
      invariant |stream| == 64 && Position(cc.state, stream, leftover, st, pos)
      invariant forall j :: 0 <= j < |chain| ==> chain[j].data == if j < i then now[j] else was[j]
      invariant Flatten(now) == XorStream(st, 0, Flatten(was[..i]))
      invariant poly.absorbed == if encrypt then Flatten(now) else Flatten(was[..i])
    {
      var m := chain[i];
      if !encrypt {
        poly.Update(m.data);
      }
      FlattenNext(was, i);
      XorStreamAppend(st, 0, Flatten(was[..i]), m.data);
      m.data, stream, leftover := CryptPiece(cc, m.data, stream, leftover, st, pos);
      pos := pos + |m.data|;
      FlattenSnoc(now, m.data);
      now := now + [m.data];
      if encrypt {
        poly.Update(m.data);
      }
    }
    assert was[..|chain|] == was && now == Pieces(chain);
  }

  lemma Start(st: State, stream: seq<byte>)
    ensures Position(st, stream, 0, st, |Flatten([])|)
    ensures Flatten([]) == XorStream(st, 0, Flatten([])) == []
  {
    hide KeyBlock, Advance;
    AdvanceNone(st);
  }

  lemma ContentsLast(chain: seq<Mbuf>)
    requires chain != []
    ensures Contents(chain) == Contents(chain[..|chain| - 1]) + chain[|chain| - 1].data
  {
    var k := |chain| - 1;
    assert Pieces(chain) == Pieces(chain[..k]) + [chain[k].data];
    FlattenSnoc(Pieces(chain[..k]), chain[k].data);
  }

  lemma EmptyChain(chain: seq<Mbuf>)
    ensures chain == [] ==> Contents(chain) == []
  {}

  // m_adj with a negative length: drop the last n bytes of the packet
  method TrimTail(chain: seq<Mbuf>, n: nat)
    requires Distinct(chain) && n <= |Contents(chain)|
    modifies chain
    ensures Contents(chain) == old(Contents(chain))[..|old(Contents(chain))| - n]
    decreases |chain|
  {
    hide Contents;
    if chain == [] {
      EmptyChain(chain);
      return;
    }
    var k := |chain| - 1;
    var last := chain[k];
    ContentsLast(chain);
    var l := if |last.data| < n then |last.data| else n;
    assert last !in chain[..k];
    last.data := last.data[..|last.data| - l];
    TrimTail(chain[..k], n - l);
    ContentsLast(chain);
  }

  // m_copydata of the last n bytes
  method CopyTail(chain: seq<Mbuf>, n: nat) returns (tail: seq<byte>)
    requires n <= |Contents(chain)|
    ensures tail == Contents(chain)[|Contents(chain)| - n..]
    decreases |chain|
  {
    hide Contents;
    if n == 0 || chain == [] {
      EmptyChain(chain);
      return [];
    }
    var k := |chain| - 1;
    var last := chain[k].data;
    ContentsLast(chain);
    if n <= |last| {
      return last[|last| - n..];
    }
    tail := CopyTail(chain[..k], n - |last|);
    tail := tail + last;
  }

  // m_append as far as there is room for it
  method Append(chain: seq<Mbuf>, bytes: seq<byte>, room: nat) returns (ok: bool)
    requires chain != [] && Distinct(chain)
    modifies chain
    ensures ok <==> room >= |bytes|
    ensures Contents(chain) == old(Contents(chain)) + if ok then bytes else bytes[..room]
  {
    hide Contents;
    var k := |chain| - 1;
    var last := chain[k];
    ContentsLast(chain);
    ok := room >= |bytes|;
    assert last !in chain[..k];
    last.data := last.data + if ok then bytes else bytes[..room];
    ContentsLast(chain);
  }

  // The tag of a whole packet without associated data, from what the walk has absorbed
  method FinishTag(poly: Poly1305.Context, ghost ct: seq<byte>, len: nat) returns (mac: seq<byte>)
    requires poly.Valid() && poly.absorbed == ct && |ct| == len
    modifies poly, poly.data
    ensures mac == Poly1305.Tag(poly.key, MacInput([], ct))
  {
    hide Poly1305.Tag, Poly1305.Context.Valid, LeBytes;
    poly.Update(Pad(len));
    poly.Update(LeBytes(0, 8) + LeBytes(len, 8));
    assert poly.absorbed == MacInput([], ct) by {
      assert Pad(0) == [];
    }
    mac := poly.Final();
  }

  lemma SealOf(key: seq<byte>, nonce: u64, msg: seq<byte>, ct: seq<byte>, mac: seq<byte>)
    requires |key| == 32 && ct == XorStream(Advance(InitState(key, nonce), 1), 0, msg)
    requires mac == Poly1305.Tag(PolyKey(key, nonce), MacInput([], ct))
    ensures |mac| == 16 && Seal(key, nonce, [], msg) == ct + mac
  {
    hide InitState, Advance, XorStream, PolyKey, Poly1305.Tag, MacInput;
    assert mac == AuthTag(key, nonce, [], ct);
  }

  lemma OpenOf(key: seq<byte>, nonce: u64, packet: seq<byte>, out: seq<byte>, mac: seq<byte>)
    requires |key| == 32 && |packet| >= 16
    requires out == XorStream(Advance(InitState(key, nonce), 1), 0, packet[..|packet| - 16])
    requires mac == Poly1305.Tag(PolyKey(key, nonce), MacInput([], packet[..|packet| - 16]))
    ensures out == Cipher(key, nonce, packet[..|packet| - 16])
    ensures Open(key, nonce, [], packet) == if packet[|packet| - 16..] == mac then Opened(out) else Rejected
  {
    hide InitState, Advance, XorStream, PolyKey, Poly1305.Tag, MacInput;
  }

  // chacha20poly1305_crypt_mbuf. `pktLen` is the length in the packet header, `room`
  // how many bytes m_append finds space for.
  method CryptMbuf(chain: seq<Mbuf>, nonce: u64, key: seq<byte>, encrypt: bool,
                   pktLen: nat, room: nat)
    returns (ret: Errno)
    requires |key| == 32 && chain != [] && Distinct(chain) && pktLen == |Contents(chain)|
    modifies chain
    ensures encrypt ==> Sealed(key, nonce, old(Contents(chain)), Contents(chain), room, ret)
    ensures !encrypt ==> Unsealed(key, nonce, old(Contents(chain)), Contents(chain), ret)
  {
    hide Contents, Seal, Open, Cipher, AuthTag, PolyKey, InitState, Advance, XorStream, Poly1305.Tag, MacInput;
    ghost var packet := Contents(chain);
    var len := pktLen;
    var received: seq<byte> := [];
    if !encrypt {
      if len < 16 {
        return EMSGSIZE;
      }
      received := CopyTail(chain, 16);
      TrimTail(chain, 16);
      len := len - 16;
    }
    var mac := CryptAndTag(chain, nonce, key, encrypt, len);
    if encrypt {
      SealOf(key, nonce, packet, Contents(chain), mac);
      var ok := Append(chain, mac, room);
      ret := if ok then Zero else ENOMEM;
    } else {
      OpenOf(key, nonce, packet, Contents(chain), mac);
      ret := if mac == received then Zero else EBADMSG;
    }
  }

  // The key, the walk and the tag, in either direction
  method CryptAndTag(chain: seq<Mbuf>, nonce: u64, key: seq<byte>, encrypt: bool, len: nat) returns (mac: seq<byte>)
    requires |key| == 32 && Distinct(chain) && len == |Contents(chain)|
    modifies chain
    ensures Contents(chain) == XorStream(Advance(InitState(key, nonce), 1), 0, old(Contents(chain)))
    ensures mac == Poly1305.Tag(PolyKey(key, nonce), MacInput([], if encrypt then Contents(chain) else old(Contents(chain))))
  {
    hide Contents, PolyKey, InitState, Advance, XorStream, Poly1305.Tag, Poly1305.Context.Valid, MacInput;
    ghost var text := Contents(chain);
    var cc := new Context(key, nonce);
    var polyKey := BlockZero(cc, key, nonce);
    var poly := new Poly1305.Context(polyKey);
    CryptChain(chain, cc, poly, encrypt);
    mac := FinishTag(poly, if encrypt then Contents(chain) else text, len);
  }
}
