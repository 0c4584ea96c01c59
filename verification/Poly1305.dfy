/**
 The Poly1305 context (src/crypto.c:237-248, src/crypto.c:441-504): blocks are absorbed as
 they fill up, the last partial block when the tag is computed.
 */
module Poly1305 {
  import opened Arith
  import opened Machine
  import opened Bytes
  import opened Poly1305Limbs

  // Section 2.5 of RFC 8439, over integers.

  function Block(acc: nat, r: nat, n: nat): nat {
    (acc + n) * r % P1305
  }

  // Each block of up to 16 bytes is read with one more byte 1 at its end.
  function Acc(acc: nat, r: nat, msg: seq<byte>): nat
    decreases |msg|
  {
    if msg == [] then acc
    else if |msg| < 16 then Block(acc, r, Le(msg) + Pow256(|msg|))
    else Acc(Block(acc, r, Le(msg[..16]) + TWO128), r, msg[16..])
  }

  function Tag(key: seq<byte>, msg: seq<byte>): (mac: seq<byte>)
    requires |key| == 32
  {
    LeBytes((Acc(0, Le(ClampBytes(key[..16])), msg) + Le(key[16..])) % TWO128, 16)
  }

  // Absorbing whole blocks first and the rest later is absorbing everything.
  lemma {:induction false} AccAppend(acc: nat, r: nat, a: seq<byte>, b: seq<byte>)
    requires |a| % 16 == 0
    ensures Acc(acc, r, a + b) == Acc(Acc(acc, r, a), r, b)
    decreases |a|
  {
    if a == [] {
      assert a + b == b;
    } else {
      assert (a + b)[..16] == a[..16] && (a + b)[16..] == a[16..] + b;
      AccAppend(Block(acc, r, Le(a[..16]) + TWO128), r, a[16..], b);
    }
  }

  // The accumulator that the limbs stand for.
  ghost function Elem(h: Limbs): nat {
    Value(h) % P1305
  }

  method MulLimbs(t: Limbs, r: Limbs) returns (h: Limbs)
    requires Clamped(r)
    requires t.h0 < 0x8000000 && t.h1 < 0x8000040 && t.h2 < 0x8000000 && t.h3 < 0x8000000 && t.h4 < 0x6000000
    ensures Carried(h)
    ensures Elem(h) == Elem(t) * Elem(r) % P1305
  {
    h := MulReduce(t, r);
    ModMul(Value(t), Value(r), P1305);
  }

  method AddLimbs(h: Limbs, input: seq<byte>, padbit: u32) returns (t: Limbs)
    requires Carried(h) && |input| == 16 && padbit <= 1
    ensures Elem(t) == (Elem(h) + Read(input, padbit)) % P1305
    ensures t.h0 < 0x8000000 && t.h1 < 0x8000040 && t.h2 < 0x8000000 && t.h3 < 0x8000000 && t.h4 < 0x6000000
  {
    hide Value, Le;
    t := AddBlock(h, input, padbit);
    SumElem(t, h, Read(input, padbit));
  }

  lemma SumElem(t: Limbs, h: Limbs, n: nat)
    requires Value(t) == Value(h) + n
    ensures Elem(t) == (Elem(h) + n) % P1305
  {
    hide Value;
    SumElement(Value(t), Value(h), n, P1305);
  }

  // The number that a 16-byte buffer is read as
  ghost function Read(input: seq<byte>, padbit: u32): nat {
    Le(input) + if padbit == 1 then TWO128 else 0
  }

  lemma SumElement(t: int, h: nat, n: nat, m: nat)
    requires t == h + n && m > 0
    ensures t % m == (h % m + n) % m
  {
    DivMod(h, m);
    ModShift(h % m + n, t, h / m, m);
  }

  // One block on the limbs
  method LimbBlock(h: Limbs, r: Limbs, input: seq<byte>, padbit: u32) returns (h': Limbs)
    requires Carried(h) && Clamped(r) && |input| == 16 && padbit <= 1
    ensures Carried(h')
    ensures Elem(h') == Block(Elem(h), Elem(r), Read(input, padbit))
  {
    var t := AddLimbs(h, input, padbit);
    h' := MulLimbs(t, r);
    BlockOf(Elem(h'), Elem(t), Elem(h), Elem(r), Read(input, padbit));
  }

  lemma BlockOf(v: nat, t: nat, acc: nat, r: nat, n: nat)
    requires t == (acc + n) % P1305 && v == t * r % P1305
    ensures v == Block(acc, r, n)
  {
    ReduceFirst(acc + n, r, P1305);
  }

  lemma ReduceFirst(a: nat, r: nat, m: nat)
    requires m > 0
    ensures (a % m) * r % m == a * r % m
  {
    DivMod(a, m);
    Spread(a % m, a, a / m, r, m);
    ModShift((a % m) * r, a * r, a / m * r, m);
  }

  lemma Spread(a: int, b: int, q: int, r: int, m: int)
    requires a == b - m * q
    ensures a * r == b * r - m * (q * r)
  {}

  method EmitElem(h: Limbs, nonce: seq<u32>) returns (mac: seq<byte>)
    requires Carried(h) && |nonce| == 4
    ensures |mac| == 16
    ensures Le(mac) == (Elem(h) + Words4(nonce[0], nonce[1], nonce[2], nonce[3])) % TWO128
  {
    mac := Emit(h, nonce[0], nonce[1], nonce[2], nonce[3]);
  }

  // poly1305_blocks_core with padbit 1, over the whole blocks of the input
  method BlocksCore(h: Limbs, r: Limbs, input: seq<byte>) returns (h': Limbs)
    requires Carried(h) && Clamped(r) && |input| % 16 == 0
    ensures Carried(h')
    ensures Elem(h') == Acc(Elem(h), Elem(r), input)
  {
    h' := h;
    assert input[0..] == input;
    for k := 0 to |input| / 16
      invariant Carried(h')
      invariant Acc(Elem(h'), Elem(r), input[16 * k..]) == Acc(Elem(h), Elem(r), input)
    {
      h' := NextBlock(h', r, input, 16 * k);
    }
  }

  method NextBlock(h: Limbs, r: Limbs, input: seq<byte>, i: nat) returns (h': Limbs)
    requires Carried(h) && Clamped(r) && i + 16 <= |input|
    ensures Carried(h')
    ensures Acc(Elem(h'), Elem(r), input[i + 16..]) == Acc(Elem(h), Elem(r), input[i..])
  {
    h' := LimbBlock(h, r, input[i..i + 16], 1);
    AccStep(Elem(h), Elem(h'), Elem(r), input, i);
  }

  lemma AccStep(acc: nat, next: nat, r: nat, input: seq<byte>, i: nat)
    requires i + 16 <= |input| && next == Block(acc, r, Read(input[i..i + 16], 1))
    ensures Acc(next, r, input[i + 16..]) == Acc(acc, r, input[i..])
  {
    var rest := input[i..];
    assert rest[..16] == input[i..i + 16] && rest[16..] == input[i + 16..];
  }

  class Context {
    var h: Limbs
    var r: Limbs
    var nonce: seq<u32>
    const data: array<byte>
    var num: nat

    ghost const key: seq<byte>
    ghost var absorbed: seq<byte>

    ghost predicate Valid()
      reads this, data
    {
      Consistent() && num < 16
    }

    ghost predicate Keyed()
      reads this
    {
      && |key| == 32
      && Clamped(r) && Elem(r) == Le(ClampBytes(key[..16]))
      && |nonce| == 4 && Words4(nonce[0], nonce[1], nonce[2], nonce[3]) == Le(key[16..])
    }

    // `data` holds the bytes not yet absorbed into `h`.
    ghost predicate Consistent()
      reads this, data
    {
      && Keyed()
      && data.Length == 16
      && num <= 16 && num <= |absorbed|
      && (|absorbed| - num) % 16 == 0
      && data[..num] == absorbed[|absorbed| - num..]
      && Carried(h) && Elem(h) == Acc(0, Elem(r), absorbed[..|absorbed| - num])
    }

    // poly1305_init
    constructor (key: seq<byte>)
      requires |key| == 32
      ensures Valid() && fresh(data)
      ensures this.key == key && absorbed == []
    {
      hide Acc, Elem, Le, Words4, Carried, Clamped, ClampBytes, Value;
      var limbs := InitR(key[..16]);
      InitElem(limbs, key[..16]);
      var words := NonceWords(key);
      var zero := SmallLimbs(0);
      AccNone(0, Elem(limbs), []);
      this.key := key;
      r := limbs;
      h := zero;
      nonce := words;
      data := new byte[16];
      num := 0;
      absorbed := [];
      new;
      assert Keyed();
      assert absorbed[..0] == [] && absorbed[0..] == [] && data[..0] == [];
    }

    method Update(input: seq<byte>)
      requires Valid()
      modifies this, data
      ensures Valid()
      ensures absorbed == old(absorbed) + input
    {
      hide Consistent;
      var rest := input;
      if num > 0 {
        var rem := 16 - num;
        if |input| < rem {
          Fill(input);
          return;
        }
        Fill(input[..rem]);
        Flush();
        rest := input[rem..];
      }
      var rem := |rest| % 16;
      var len := |rest| - rem;
      if len >= 16 {
        Whole(rest[..len]);
      }
      Fill(rest[len..]);
    }

    // memcpy into the buffer
    method Fill(part: seq<byte>)
      requires Consistent() && num + |part| <= 16
      modifies this`num, this`absorbed, data
      ensures Consistent()
      ensures num == old(num) + |part| && absorbed == old(absorbed) + part
    {
      hide Acc, Elem, Le, Words4, Carried, Clamped, ClampBytes;
      forall i | 0 <= i < |part| {
        data[num + i] := part[i];
      }
      assert data[..num] == old(data[..num]);
      assert data[..num + |part|] == data[..num] + part;
      ghost var body := absorbed[..|absorbed| - num];
      num := num + |part|;
      absorbed := absorbed + part;
      assert absorbed[..|absorbed| - num] == body;
    }

    // Absorb the full buffer
    method Flush()
      requires Consistent() && num == 16
      modifies this`h, this`num
      ensures Consistent()
      ensures num == 0
    {
      hide Acc, Elem, Le, Words4, Carried, Clamped, ClampBytes;
      var block := data[..];
      assert block == absorbed[|absorbed| - 16..];
      assert absorbed == absorbed[..|absorbed| - 16] + block;
      AccAppend(0, Elem(r), absorbed[..|absorbed| - 16], block);
      h := BlocksCore(h, r, block);
      num := 0;
      assert absorbed[..|absorbed|] == absorbed;
    }

    // Absorb whole blocks straight from the input
    method Whole(blocks: seq<byte>)
      requires Consistent() && num == 0 && |blocks| % 16 == 0
      modifies this`h, this`absorbed
      ensures Consistent()
      ensures absorbed == old(absorbed) + blocks
    {
      hide Acc, Elem, Le, Words4, Carried, Clamped, ClampBytes;
      assert absorbed[..|absorbed|] == absorbed;
      AccAppend(0, Elem(r), absorbed, blocks);
      h := BlocksCore(h, r, blocks);
      absorbed := absorbed + blocks;
      assert absorbed[..|absorbed|] == absorbed;
    }

    // poly1305_final: a partial block is padded with 1 and zeros and carries no 2^128
    method Final() returns (mac: seq<byte>)
      requires Valid()
      modifies this, data
      ensures mac == Tag(key, old(absorbed))
    {
      hide Acc, Elem, Le, Words4, Carried, Clamped, ClampBytes, Block, Read;
      ghost var body, tail := absorbed[..|absorbed| - num], data[..num];
      assert absorbed == body + tail;
      AccAppend(0, Elem(r), body, tail);
      ghost var last := Acc(Elem(h), Elem(r), tail);
      if num > 0 {
        data[num] := 1;
        forall i | num < i < 16 {
          data[i] := 0;
        }
        var block := data[..];
        assert block[..num] == tail;
        PaddedBlock(block, tail);
        AccLast(Elem(h), Elem(r), tail);
        h := LimbBlock(h, r, block, 0);
      } else {
        AccNone(Elem(h), Elem(r), tail);
      }
      mac := EmitElem(h, nonce);
      TagOf(mac, key, absorbed, Elem(h), Words4(nonce[0], nonce[1], nonce[2], nonce[3]));
    }
  }

  lemma AccLast(acc: nat, r: nat, tail: seq<byte>)
    requires 0 < |tail| < 16
    ensures Acc(acc, r, tail) == Block(acc, r, Le(tail) + Pow256(|tail|))
  {}

  lemma AccNone(acc: nat, r: nat, tail: seq<byte>)
    requires tail == []
    ensures Acc(acc, r, tail) == acc
  {}

  lemma TagOf(mac: seq<byte>, key: seq<byte>, msg: seq<byte>, acc: nat, s: nat)
    requires |key| == 32 && |mac| == 16
    requires acc == Acc(0, Le(ClampBytes(key[..16])), msg) && s == Le(key[16..])
    requires Le(mac) == (acc + s) % TWO128
    ensures mac == Tag(key, msg)
  {
    LeBytesOfLe(mac);
  }

  lemma PaddedBlock(block: seq<byte>, tail: seq<byte>)
    requires |block| == 16 && 0 < |tail| < 16 && block[..|tail|] == tail && block[|tail|] == 1
    requires forall i :: |tail| < i < 16 ==> block[i] == 0
    ensures Read(block, 0) == Le(tail) + Pow256(|tail|)
  {
    var end := block[|tail|..];
    assert block == tail + end;
    LeAppend(tail, end);
    LeOneZeros(end);
  }

  lemma LeOneZeros(s: seq<byte>)
    requires s != [] && s[0] == 1 && forall i :: 0 < i < |s| ==> s[i] == 0
    ensures Le(s) == 1
  {
    LeZeros(s[1..]);
  }

  lemma InitElem(r: Limbs, key: seq<byte>)
    requires |key| == 16 && Clamped(r) && Value(r) == Le(ClampBytes(key))
    ensures Elem(r) == Le(ClampBytes(key))
  {}

  method SmallLimbs(n: u32) returns (h: Limbs)
    requires n <= 1
    ensures Carried(h) && Elem(h) == n
  {
    h := Limbs(n, 0, 0, 0, 0);
    SmallElem(h, n);
  }

  lemma SmallElem(h: Limbs, n: nat)
    requires Value(h) == n < P1305
    ensures Elem(h) == n
  {}

  method NonceWords(key: seq<byte>) returns (nonce: seq<u32>)
    requires |key| == 32
    ensures |nonce| == 4
    ensures Words4(nonce[0], nonce[1], nonce[2], nonce[3]) == Le(key[16..])
  {
    nonce := [Le32(key, 16), Le32(key, 20), Le32(key, 24), Le32(key, 28)];
    LeWords(key, 16);
    assert key[32..] == [];
  }

  // However a message is cut into chunks, the tag is that of the whole message.
  method MacChunks(key: seq<byte>, chunks: seq<seq<byte>>) returns (mac: seq<byte>)
    requires |key| == 32
    ensures mac == Tag(key, Flatten(chunks))
  {
    hide Tag, Context.Valid;
    var ctx := new Context(key);
    assert chunks[0..] == chunks;
    for i := 0 to |chunks|
      invariant ctx.Valid() && fresh(ctx) && fresh(ctx.data) && ctx.key == key
      invariant ctx.absorbed + Flatten(chunks[i..]) == Flatten(chunks)
    {
      assert chunks[i..][1..] == chunks[i + 1..];
      ctx.Update(chunks[i]);
    }
    assert chunks[|chunks|..] == [] && ctx.absorbed + [] == ctx.absorbed;
    mac := ctx.Final();
  }
}
