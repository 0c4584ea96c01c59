/**
 BLAKE2s (src/crypto.c:717-925): buffered hashing that always holds the last block back, against
 section 3.3 of RFC 7693, and HMAC over it.
 */
module Blake2s {
  import opened Arith
  import opened Machine
  import opened Bytes
  import opened Matrix

  type Words8 = s: seq<u32> | |s| == 8 witness [0, 0, 0, 0, 0, 0, 0, 0]
  type Nibble = x: int | 0 <= x < 16

  const IV: Words8 := [0x6A09E667, 0xBB67AE85, 0x3C6EF372, 0xA54FF53A,
                       0x510E527F, 0x9B05688C, 0x1F83D9AB, 0x5BE0CD19]

  function Sigma(r: nat): (s: seq<Nibble>)
    requires r < 10
    ensures |s| == 16
  {
    match r
    case 0 => [0, 1, 2, 3, 4, 5, 6, 7, 8, 9, 10, 11, 12, 13, 14, 15]
    case 1 => [14, 10, 4, 8, 9, 15, 13, 6, 1, 12, 0, 2, 11, 7, 5, 3]
    case 2 => [11, 8, 12, 0, 5, 2, 15, 13, 10, 14, 3, 6, 7, 1, 9, 4]
    case 3 => [7, 9, 3, 1, 13, 12, 11, 14, 2, 6, 5, 10, 4, 0, 15, 8]
    case 4 => [9, 0, 5, 7, 2, 4, 10, 15, 14, 1, 11, 12, 6, 8, 3, 13]
    case 5 => [2, 12, 6, 10, 0, 11, 8, 3, 4, 13, 7, 5, 15, 14, 1, 9]
    case 6 => [12, 5, 1, 15, 14, 13, 4, 10, 0, 7, 6, 3, 9, 2, 8, 11]
    case 7 => [13, 11, 7, 14, 12, 1, 3, 9, 5, 0, 15, 4, 8, 6, 2, 10]
    case 8 => [6, 15, 14, 9, 11, 3, 0, 8, 12, 2, 13, 7, 1, 4, 10, 5]
    case _ => [10, 2, 8, 4, 7, 6, 1, 5, 15, 11, 9, 14, 3, 12, 13, 0]
  }

  // Every row of the table names all 16 message words, so each of them once.
  lemma SigmaPermutes(r: nat, n: Nibble)
    requires r < 10
    ensures n in Sigma(r)
  {
  }

  // The initial value: the first 32 bits behind the point of the square roots of the first eight
  // primes, whose integral parts are `n`
  lemma InitialValue(i: nat)
    requires i < 8
    ensures var p, n := [2, 3, 5, 7, 11, 13, 17, 19][i], [1, 1, 2, 2, 3, 3, 4, 4][i];
            var w := TWO32 * n + IV[i];
            n * n <= p < (n + 1) * (n + 1) && w * w <= p * TWO64 < (w + 1) * (w + 1)
  {
  }

  // The mixing function G of section 3.1 of RFC 7693; a rotation right by k is one left by 32 - k.
  function Mix(q: Four, x: u32, y: u32): Four {
    hide Rol32, Xor32;
    var a1 := (q.a + q.b + x) % TWO32;
    var d1 := Rol32(Xor32(q.d, a1), 0x1_0000, 0x1_0000);
    var c1 := (q.c + d1) % TWO32;
    var b1 := Rol32(Xor32(q.b, c1), 0x10_0000, 0x1000);
    var a2 := (a1 + b1 + y) % TWO32;
    var d2 := Rol32(Xor32(d1, a2), 0x100_0000, 0x100);
    var c2 := (c1 + d2) % TWO32;
    Four(a2, Rol32(Xor32(b1, c2), 0x200_0000, 0x80), c2, d2)
  }

  // Section 3.2: G on every column, then on every diagonal, with the message words two by two
  function ColumnRound(v: Words16, m: Words16, s: seq<Nibble>): Words16
    requires |s| == 16
  {
    hide Mix;
    FromColumns(Mix(Column(v, 0), m[s[0]], m[s[1]]), Mix(Column(v, 1), m[s[2]], m[s[3]]),
                Mix(Column(v, 2), m[s[4]], m[s[5]]), Mix(Column(v, 3), m[s[6]], m[s[7]]))
  }

  function DiagonalRound(v: Words16, m: Words16, s: seq<Nibble>): Words16
    requires |s| == 16
  {
    hide Mix;
    FromDiagonals(Mix(Diagonal(v, 0), m[s[8]], m[s[9]]), Mix(Diagonal(v, 1), m[s[10]], m[s[11]]),
                  Mix(Diagonal(v, 2), m[s[12]], m[s[13]]), Mix(Diagonal(v, 3), m[s[14]], m[s[15]]))
  }

  function Round(v: Words16, m: Words16, s: seq<Nibble>): Words16
    requires |s| == 16
  {
    hide ColumnRound, DiagonalRound;
    DiagonalRound(ColumnRound(v, m, s), m, s)
  }

  function Rounds(v: Words16, m: Words16, r: nat): Words16
    requires r <= 10
    decreases |v|, 10 - r
  {
    hide Round, Sigma;
    if r == 10 then v else Rounds(Round(v, m, Sigma(r)), m, r + 1)
  }

  // The 16 words of a block
  function BlockWords(block: seq<byte>): Words16
    requires |block| == 64
  {
    hide Le32;
    seq(16, i requires 0 <= i < 16 => Le32(block, 4 * i))
  }

  lemma BlockOfWords(block: seq<byte>)
    requires |block| == 64
    ensures Serialize(BlockWords(block)) == block
  {
    hide Le32, PutLe32;
    forall i | 0 <= i < 16
      ensures block[4 * i..4 * i + 4] == PutLe32(BlockWords(block)[i])
    {
      PutOfLe32(block, 4 * i);
    }
    SerializeIs(BlockWords(block), block);
  }

  // The specification over byte strings

  // The compression function of section 3.2 of RFC 7693. The counter t is twice the word size
  // wide: 64 bits. The last block inverts a word.
  function F(h: Words8, block: seq<byte>, t: nat, last: bool): Words8
    requires |block| == 64
  {
    hide Rounds, BlockWords, Xor32;
    var v := h + IV[..4] + [Xor32(IV[4], t % TWO32), Xor32(IV[5], t / TWO32 % TWO32),
                            if last then 0xffff_ffff - IV[6] else IV[6], IV[7]];
    var w := Rounds(v, BlockWords(block), 0);
    seq(8, i requires 0 <= i < 8 => Xor32(Xor32(h[i], w[i]), w[i + 8]))
  }

  function Zeros(n: nat): (z: seq<byte>)
    ensures |z| == n
  {
    seq(n, _ => 0)
  }

  // All of msg, with `count` bytes already compressed. Only the last block, which may be full, is
  // padded and flagged.
  function Absorb(h: Words8, msg: seq<byte>, count: nat): Words8
    decreases |msg|
  {
    hide F;
    if |msg| <= 64 then F(h, msg + Zeros(64 - |msg|), count + |msg|, true)
    else Absorb(F(h, msg[..64], count + 64, false), msg[64..], count + 64)
  }

  function Initial(keylen: nat, outlen: nat): Words8
    requires keylen < 0x100 && outlen < 0x100
  {
    IV[0 := Xor32(IV[0], 0x101_0000 + 0x100 * keylen + outlen)]
  }

  function KeyBlock(key: seq<byte>): seq<byte>
    requires |key| <= 64
  {
    if key == [] then [] else key + Zeros(64 - |key|)
  }

  function Digest(outlen: nat, key: seq<byte>, msg: seq<byte>): (d: seq<byte>)
    requires outlen <= 32 && |key| <= 64
    ensures |d| == outlen
  {
    hide Absorb, Initial, KeyBlock;
    Serialize(Absorb(Initial(|key|, outlen), KeyBlock(key) + msg, 0))[..outlen]
  }

  // A run of whole blocks that each move the counter on by inc
  function Passes(h: Words8, blocks: seq<byte>, count: nat, inc: nat, last: bool): Words8
    decreases |blocks|
  {
    hide F;
    if |blocks| < 64 then h else Passes(F(h, blocks[..64], count + inc, last), blocks[64..], count + inc, inc, last)
  }

  // Whole blocks, none of which is the last
  function Chain(h: Words8, blocks: seq<byte>, count: nat): Words8 {
    Passes(h, blocks, count, 64, false)
  }

  lemma {:induction false} ChainThenLast(h: Words8, a: seq<byte>, b: seq<byte>, count: nat)
    requires |a| % 64 == 0 && (b == [] ==> a == [])
    ensures Absorb(h, a + b, count) == Absorb(Chain(h, a, count), b, count + |a|)
    decreases |a|
  {
    hide F;
    if a == [] {
      assert a + b == b;
    } else {
      assert (a + b)[..64] == a[..64] && (a + b)[64..] == a[64..] + b;
      ChainThenLast(F(h, a[..64], count + 64, false), a[64..], b, count + 64);
    }
  }

  lemma {:induction false} ChainAppend(h: Words8, a: seq<byte>, b: seq<byte>, count: nat)
    requires |a| % 64 == 0
    ensures Chain(h, a + b, count) == Chain(Chain(h, a, count), b, count + |a|)
    decreases |a|
  {
    hide F;
    if a == [] {
      assert a + b == b;
    } else {
      assert (a + b)[..64] == a[..64] && (a + b)[64..] == a[64..] + b;
      ChainAppend(F(h, a[..64], count + 64, false), a[64..], b, count + 64);
    }
  }

  // The two counter words at a count of bytes
  ghost predicate Counts(t0: u32, t1: u32, count: nat) {
    t0 == count % TWO32 && t1 == count / TWO32 % TWO32
  }

  // blake2s_increment_counter carries into the second word.
  method IncrementCounter(t0: u32, t1: u32, inc: u32, ghost count: nat) returns (t0': u32, t1': u32)
    requires Counts(t0, t1, count)
    ensures Counts(t0', t1', count + inc)
  {
    t0' := (t0 + inc) % TWO32;
    t1' := (t1 + if t0' < inc then 1 else 0) % TWO32;
    CarryIntoHigh(count, count % TWO32, count / TWO32, inc);
  }

  lemma CarryIntoHigh(count: nat, low: nat, high: nat, inc: u32)
    requires low < TWO32 && count == low + TWO32 * high
    ensures (count + inc) % TWO32 == (low + inc) % TWO32
    ensures (count + inc) / TWO32 % TWO32 == (high % TWO32 + if (low + inc) % TWO32 < inc then 1 else 0) % TWO32
  {
    if low + inc < TWO32 {
      DivUnique(count + inc, TWO32, high, low + inc);
      assert high % TWO32 < TWO32;
    } else {
      DivUnique(count + inc, TWO32, high + 1, low + inc - TWO32);
      NextModulo(high);
    }
  }

  lemma NextModulo(high: nat)
    ensures (high + 1) % TWO32 == (high % TWO32 + 1) % TWO32
  {}

  // The two counter words together are the count mod 2^64.
  lemma CounterValue(t0: u32, t1: u32, count: nat)
    ensures Counts(t0, t1, count) <==> t0 + TWO32 * t1 == count % TWO64
  {
    var low, high := count % TWO32, count / TWO32;
    LowTwoWords(count, low, high % TWO32, high / TWO32);
    SameDigits(t0, t1, low, high % TWO32);
  }

  lemma LowTwoWords(count: nat, low: nat, mid: nat, high: nat)
    requires low < TWO32 && mid < TWO32 && count == low + TWO32 * (mid + TWO32 * high)
    ensures count % TWO64 == low + TWO32 * mid
  {
    DivUnique(count, TWO64, high, low + TWO32 * mid);
  }

  lemma SameDigits(a: nat, b: nat, c: nat, d: nat)
    requires a < TWO32 && c < TWO32
    ensures a + TWO32 * b == c + TWO32 * d <==> a == c && b == d
  {}

  // struct blake2s_state, with the bytes hashed so far
  class State {
    var h: Words8
    var t0: u32
    var t1: u32
    var f0: u32
    const buf: array<byte>
    var buflen: nat
    const outlen: nat

    ghost const start: Words8
    ghost var absorbed: seq<byte>

    // How many bytes have been compressed
    ghost function Done(): int
      reads this
    {
      |absorbed| - buflen
    }

    // Everything but the bytes in `buf` has been compressed.
    ghost predicate Held()
      reads this, buf
    {
      && buf.Length == 64 && buflen <= 64 && buflen <= |absorbed| && outlen <= 32
      && Done() % 64 == 0 && f0 == 0
      && Counts(t0, t1, Done())
      && buf[..buflen] == absorbed[Done()..]
      && h == Chain(start, absorbed[..Done()], 0)
    }

    // A block is held back as soon as there is one.
    ghost predicate Valid()
      reads this, buf
    {
      Held() && (absorbed != [] ==> buflen > 0)
    }

    // blake2s_init_param, with the parameter word 0x01010000 | keylen << 8 | outlen
    constructor Init(keylen: nat, outlen: nat)
      requires keylen <= 64 && outlen <= 32
      ensures Valid() && fresh(buf)
      ensures start == Initial(keylen, outlen) && absorbed == [] && this.outlen == outlen
    {
      hide Xor32, Chain;
      var param := Or(Or(0x101_0000, 0x100 * keylen), outlen);
      ParamWord(keylen, outlen);
      h := IV[0 := Xor32(IV[0], param)];
      start := IV[0 := Xor32(IV[0], param)];
      t0, t1, f0 := 0, 0, 0;
      buf := new byte[64](_ => 0);
      buflen := 0;
      this.outlen := outlen;
      absorbed := [];
      new;
      ChainNone(start, absorbed[..0]);
      assert buf[..0] == absorbed[0..];
    }

    method Update(input: seq<byte>)
      requires Valid()
      modifies this, buf
      ensures Valid()
      ensures absorbed == old(absorbed) + input
    {
      hide Held;
      BufferRange();
      var fill := 64 - buflen;
      if input == [] {
        return;
      }
      var rest := input;
      if |rest| > fill {
        Fill(rest[..fill]);
        Flush();
        rest := rest[fill..];
      }
      if |rest| > 64 {
        var nblocks := (|rest| + 63) / 64;
        Whole(rest[..64 * (nblocks - 1)]);
        rest := rest[64 * (nblocks - 1)..];
      }
      Fill(rest);
    }

    lemma BufferRange()
      requires Held()
      ensures buflen <= 64
    {}

    // memcpy into the buffer
    method Fill(part: seq<byte>)
      requires Held() && buflen + |part| <= 64
      modifies this`buflen, this`absorbed, buf
      ensures Held()
      ensures buflen == old(buflen) + |part| && absorbed == old(absorbed) + part
    {
      hide Passes, Counts;
      forall i | 0 <= i < |part| {
        buf[buflen + i] := part[i];
      }
      assert buf[..buflen] == old(buf[..buflen]);
      assert buf[..buflen + |part|] == buf[..buflen] + part;
      ghost var body := absorbed[..Done()];
      buflen := buflen + |part|;
      absorbed := absorbed + part;
      assert absorbed[..Done()] == body;
    }

    // Compress the full buffer
    method Flush()
      requires Held() && buflen == 64
      modifies this`h, this`t0, this`t1, this`buflen
      ensures Held()
      ensures buflen == 0
    {
      hide Passes, Counts;
      var block := buf[..];
      ghost var body := absorbed[..Done()];
      assert block == absorbed[Done()..] && absorbed == body + block;
      ChainAppend(start, body, block, 0);
      h, t0, t1 := Compress(h, t0, t1, f0, block, 64, Done());
      buflen := 0;
      assert absorbed[..|absorbed|] == absorbed;
    }

    // Compress whole blocks straight from the input
    method Whole(blocks: seq<byte>)
      requires Held() && buflen == 0 && |blocks| % 64 == 0
      modifies this`h, this`t0, this`t1, this`absorbed
      ensures Held()
      ensures absorbed == old(absorbed) + blocks
    {
      hide Passes, Counts;
      assert absorbed[..|absorbed|] == absorbed;
      ChainAppend(start, absorbed, blocks, 0);
      h, t0, t1 := Compress(h, t0, t1, f0, blocks, 64, Done());
      absorbed := absorbed + blocks;
      assert absorbed[..|absorbed|] == absorbed;
    }

    method Final() returns (out: seq<byte>)
      requires Valid()
      modifies this, buf
      ensures out == Serialize(Absorb(start, old(absorbed), 0))[..outlen]
    {
      hide Passes, Absorb, F, Counts;
      ghost var done := Done();
      ghost var body, tail := absorbed[..done], absorbed[done..];
      assert absorbed == body + tail;
      ChainThenLast(start, body, tail, 0);
      f0 := 0xffff_ffff;
      forall i | buflen <= i < 64 {
        buf[i] := 0;
      }
      var block := buf[..];
      assert block == tail + Zeros(64 - |tail|);
      LastPass(h, block, tail, done);
      h, t0, t1 := Compress(h, t0, t1, f0, block, buflen, done);
      out := Serialize(h)[..outlen];
    }
  }

  lemma LastPass(h: Words8, block: seq<byte>, tail: seq<byte>, count: nat)
    requires |tail| <= 64 && block == tail + Zeros(64 - |tail|)
    ensures Passes(h, block, count, |tail|, true) == Absorb(h, tail, count)
  {
    hide F;
    assert block[..64] == block && block[64..] == [];
  }

  // blake2s_compress: every block moves the counter on by inc first
  method Compress(h: Words8, t0: u32, t1: u32, f0: u32, blocks: seq<byte>, inc: u32, ghost count: nat)
    returns (h': Words8, t0': u32, t1': u32)
    requires Counts(t0, t1, count)
    requires |blocks| % 64 == 0 && f0 in {0, 0xffff_ffff}
    ensures h' == Passes(h, blocks, count, inc, f0 != 0)
    ensures inc == 64 ==> Counts(t0', t1', count + |blocks|)
  {
    hide F;
    h', t0', t1' := h, t0, t1;
    ghost var c := count;
    assert blocks[0..] == blocks;
    for k := 0 to |blocks| / 64
      invariant c >= 0 && (inc == 64 ==> c == count + 64 * k)
      invariant Counts(t0', t1', c)
      invariant Passes(h', blocks[64 * k..], c, inc, f0 != 0) == Passes(h, blocks, count, inc, f0 != 0)
    {
      t0', t1' := IncrementCounter(t0', t1', inc, c);
      var rest := blocks[64 * k..];
      assert rest[64..] == blocks[64 * (k + 1)..];
      h' := CompressBlock(h', rest[..64], t0', t1', f0, c + inc);
      c := c + inc;
    }
  }

  // One turn of the loop of blake2s_compress: the message words and the work vector are copied,
  // mixed where they are and folded into the state.
  method CompressBlock(h: Words8, block: seq<byte>, t0: u32, t1: u32, f0: u32, ghost t: nat) returns (h': Words8)
    requires |block| == 64 && f0 in {0, 0xffff_ffff} && Counts(t0, t1, t)
    ensures h' == F(h, block, t, f0 != 0)
  {
    hide Rounds, Xor32, Le32;
    var m := new u32[16](i requires 0 <= i < 16 => Le32(block, 4 * i));
    assert m[..] == BlockWords(block);
    hide BlockWords;
    var v := new u32[16](i requires 0 <= i < 16 =>
      [h[0], h[1], h[2], h[3], h[4], h[5], h[6], h[7], IV[0], IV[1], IV[2], IV[3],
       Xor32(IV[4], t0), Xor32(IV[5], t1), Xor32(IV[6], f0), Xor32(IV[7], 0)][i]);
    FlagWords(f0);
    assert v[..] == h + IV[..4] + [Xor32(IV[4], t % TWO32), Xor32(IV[5], t / TWO32 % TWO32),
                                   if f0 != 0 then 0xffff_ffff - IV[6] else IV[6], IV[7]];
    TenRounds(v, m);
    h' := h;
    for i := 0 to 8
      invariant forall j :: 0 <= j < i ==> h'[j] == Xor32(h[j], Xor32(v[j], v[j + 8]))
      invariant forall j :: i <= j < 8 ==> h'[j] == h[j]
    {
      h' := h'[i := Xor32(h'[i], Xor32(v[i], v[i + 8]))];
    }
    forall j | 0 <= j < 8
      ensures h'[j] == Xor32(Xor32(h[j], v[j]), v[j + 8])
    {
      Xor32Associates(h[j], v[j], v[j + 8]);
    }
    assert h' == F(h, block, t, f0 != 0);
  }

  lemma FlagWords(f0: u32)
    requires f0 in {0, 0xffff_ffff}
    ensures Xor32(IV[6], f0) == if f0 != 0 then 0xffff_ffff - IV[6] else IV[6]
    ensures Xor32(IV[7], 0) == IV[7]
  {
    XorZero(IV[6]);
    XorZero(IV[7]);
    Pow2Values();
    XorOnes(IV[6], 32);
  }

  lemma Xor32Associates(a: u32, b: u32, c: u32)
    ensures Xor32(a, Xor32(b, c)) == Xor32(Xor32(a, b), c)
  {
    XorAssociates(a, b, c);
  }

  // G(r, i, a, b, c, d): the words are updated one after the other where they are.
  method MixInPlace(v: array<u32>, m: array<u32>, r: nat, i: nat, a: nat, b: nat, c: nat, d: nat)
    requires v.Length == 16 && m.Length == 16 && v != m && r < 10 && i < 8
    requires a < 16 && b < 16 && c < 16 && d < 16
    requires a != b && a != c && a != d && b != c && b != d && c != d
    modifies v
    ensures v[..] == Put(old(v[..]), a, b, c, d,
                         Mix(old(Four(v[a], v[b], v[c], v[d])), m[Sigma(r)[2 * i]], m[Sigma(r)[2 * i + 1]]))
  {
    hide Rol32, Xor32, Sigma;
    v[a] := (v[a] + v[b] + m[Sigma(r)[2 * i]]) % TWO32;
    v[d] := Rol32(Xor32(v[d], v[a]), 0x1_0000, 0x1_0000);
    v[c] := (v[c] + v[d]) % TWO32;
    v[b] := Rol32(Xor32(v[b], v[c]), 0x10_0000, 0x1000);
    v[a] := (v[a] + v[b] + m[Sigma(r)[2 * i + 1]]) % TWO32;
    v[d] := Rol32(Xor32(v[d], v[a]), 0x100_0000, 0x100);
    v[c] := (v[c] + v[d]) % TWO32;
    v[b] := Rol32(Xor32(v[b], v[c]), 0x200_0000, 0x80);
  }

  // ROUND(r)
  method RoundInPlace(v: array<u32>, m: array<u32>, r: nat)
    requires v.Length == 16 && m.Length == 16 && v != m && r < 10
    modifies v
    ensures v[..] == Round(old(v[..]), m[..], Sigma(r))
  {
    hide ColumnRound, DiagonalRound;
    ColumnsInPlace(v, m, r);
    DiagonalsInPlace(v, m, r);
  }

  method ColumnsInPlace(v: array<u32>, m: array<u32>, r: nat)
    requires v.Length == 16 && m.Length == 16 && v != m && r < 10
    modifies v
    ensures v[..] == ColumnRound(old(v[..]), m[..], Sigma(r))
  {
    hide Mix, Put, ColumnRound, Sigma;
    ghost var was := v[..];
    MixInPlace(v, m, r, 0, 0, 4, 8, 12);
    ghost var v1 := v[..];
    MixInPlace(v, m, r, 1, 1, 5, 9, 13);
    ghost var v2 := v[..];
    MixInPlace(v, m, r, 2, 2, 6, 10, 14);
    ghost var v3 := v[..];
    MixInPlace(v, m, r, 3, 3, 7, 11, 15);
    ColumnsApart(was, v1, v2, v3, m[..], Sigma(r));
  }

  method DiagonalsInPlace(v: array<u32>, m: array<u32>, r: nat)
    requires v.Length == 16 && m.Length == 16 && v != m && r < 10
    modifies v
    ensures v[..] == DiagonalRound(old(v[..]), m[..], Sigma(r))
  {
    hide Mix, Put, DiagonalRound, Sigma;
    ghost var was := v[..];
    MixInPlace(v, m, r, 4, 0, 5, 10, 15);
    ghost var v1 := v[..];
    MixInPlace(v, m, r, 5, 1, 6, 11, 12);
    ghost var v2 := v[..];
    MixInPlace(v, m, r, 6, 2, 7, 8, 13);
    ghost var v3 := v[..];
    MixInPlace(v, m, r, 7, 3, 4, 9, 14);
    DiagonalsApart(was, v1, v2, v3, m[..], Sigma(r));
  }

  lemma ColumnsApart(v: Words16, v1: Words16, v2: Words16, v3: Words16, m: Words16, s: seq<Nibble>)
    requires |s| == 16
    requires v1 == Put(v, 0, 4, 8, 12, Mix(Four(v[0], v[4], v[8], v[12]), m[s[0]], m[s[1]]))
    requires v2 == Put(v1, 1, 5, 9, 13, Mix(Four(v1[1], v1[5], v1[9], v1[13]), m[s[2]], m[s[3]]))
    requires v3 == Put(v2, 2, 6, 10, 14, Mix(Four(v2[2], v2[6], v2[10], v2[14]), m[s[4]], m[s[5]]))
    ensures Put(v3, 3, 7, 11, 15, Mix(Four(v3[3], v3[7], v3[11], v3[15]), m[s[6]], m[s[7]])) == ColumnRound(v, m, s)
  {
    hide Mix;
  }

  lemma DiagonalsApart(v: Words16, v1: Words16, v2: Words16, v3: Words16, m: Words16, s: seq<Nibble>)
    requires |s| == 16
    requires v1 == Put(v, 0, 5, 10, 15, Mix(Four(v[0], v[5], v[10], v[15]), m[s[8]], m[s[9]]))
    requires v2 == Put(v1, 1, 6, 11, 12, Mix(Four(v1[1], v1[6], v1[11], v1[12]), m[s[10]], m[s[11]]))
    requires v3 == Put(v2, 2, 7, 8, 13, Mix(Four(v2[2], v2[7], v2[8], v2[13]), m[s[12]], m[s[13]]))
    ensures Put(v3, 3, 4, 9, 14, Mix(Four(v3[3], v3[4], v3[9], v3[14]), m[s[14]], m[s[15]])) == DiagonalRound(v, m, s)
  {
    hide Mix;
  }

  method TenRounds(v: array<u32>, m: array<u32>)
    requires v.Length == 16 && m.Length == 16 && v != m
    modifies v
    ensures v[..] == Rounds(old(v[..]), m[..], 0)
  {
    hide Round, Sigma;
    for r := 0 to 10
      invariant Rounds(v[..], m[..], r) == Rounds(old(v[..]), m[..], 0)
    {
      RoundInPlace(v, m, r);
    }
  }

  lemma ChainNone(h: Words8, none: seq<byte>)
    requires none == []
    ensures Chain(h, none, 0) == h
  {}

  // The three fields of the parameter word do not overlap.
  lemma ParamWord(keylen: nat, outlen: nat)
    requires keylen < 0x100 && outlen < 0x100
    ensures Or(Or(0x101_0000, 0x100 * keylen), outlen) == 0x101_0000 + 0x100 * keylen + outlen
  {
    assert Pow2(8) == 0x100;
    OrSplit(0x101_0000, 0, 0x1_0100, keylen, 8);
    OrCommutes(0x1_0100, keylen);
    OrDisjoint(keylen, 0x101, 8);
    var high := 0x100 * (keylen + 0x1_0100);
    OrCommutes(high, outlen);
    OrDisjoint(outlen, keylen + 0x1_0100, 8);
  }

  // blake2s_init or blake2s_init_key
  method Start(outlen: nat, key: seq<byte>) returns (st: State)
    requires outlen <= 32 && |key| <= 64
    ensures fresh(st) && fresh(st.buf) && st.Valid() && st.outlen == outlen
    ensures st.start == Initial(|key|, outlen) && st.absorbed == KeyBlock(key)
  {
    hide State.Held, Initial;
    st := new State.Init(|key|, outlen);
    if |key| > 0 {
      st.Update(key + Zeros(64 - |key|));
    }
  }

  // However a message is cut into chunks, the digest is that of the whole message.
  method HashChunks(outlen: nat, key: seq<byte>, chunks: seq<seq<byte>>) returns (out: seq<byte>)
    requires outlen <= 32 && |key| <= 64
    ensures out == Digest(outlen, key, Flatten(chunks))
  {
    hide State.Valid, KeyBlock, Initial, Absorb, Serialize;
    var st := Start(outlen, key);
    assert chunks[0..] == chunks;
    for i := 0 to |chunks|
      invariant st.Valid() && fresh(st) && fresh(st.buf) && st.start == Initial(|key|, outlen) && st.outlen == outlen
      invariant st.absorbed + Flatten(chunks[i..]) == KeyBlock(key) + Flatten(chunks)
    {
      assert chunks[i..][1..] == chunks[i + 1..];
      st.Update(chunks[i]);
    }
    assert chunks[|chunks|..] == [] && st.absorbed + [] == st.absorbed;
    out := st.Final();
  }

  // HMAC, RFC 2104

  function Masked(k: seq<byte>, c: byte): (m: seq<byte>)
    ensures |m| == |k|
  {
    hide Xor8;
    seq(|k|, i requires 0 <= i < |k| => Xor8(k[i], c))
  }

  function PaddedKey(key: seq<byte>): (k: seq<byte>)
    ensures |k| == 64
  {
    hide Digest;
    if |key| > 64 then Digest(32, [], key) + Zeros(32) else key + Zeros(64 - |key|)
  }

  function Hmac(key: seq<byte>, msg: seq<byte>): (mac: seq<byte>)
    ensures |mac| == 32
  {
    hide Digest, Masked, PaddedKey;
    var k := PaddedKey(key);
    Digest(32, [], Masked(k, 0x5c) + Digest(32, [], Masked(k, 0x36) + msg))
  }

  method MaskInPlace(key: array<byte>, c: byte)
    modifies key
    ensures key[..] == Masked(old(key[..]), c)
  {
    hide Xor8;
    for i := 0 to key.Length
      invariant forall j :: 0 <= j < i ==> key[j] == Xor8(old(key[j]), c)
      invariant forall j :: i <= j < key.Length ==> key[j] == old(key[j])
    {
      key[i] := Xor8(key[i], c);
    }
  }

  // The inner mask is turned into the outer one by xor with both.
  lemma MaskTwice(k: seq<byte>, a: byte, b: byte)
    ensures Masked(Masked(k, a), Xor8(b, a)) == Masked(k, b)
  {
    forall i | 0 <= i < |k|
      ensures Xor8(Xor8(k[i], a), Xor8(b, a)) == Xor8(k[i], b)
    {
      XorAssociates(k[i], a, Xor(b, a));
      XorCommutes(b, a);
      XorSwaps(a, b);
    }
  }

  // blake2s_hmac
  method ComputeHmac(key: seq<byte>, msg: seq<byte>, outlen: nat) returns (out: seq<byte>)
    requires outlen <= 32
    ensures out == Hmac(key, msg)[..outlen]
  {
    hide Digest, Masked, Xor8;
    var xKey := new byte[64](_ => 0);
    var head := key;
    if |key| > 64 {
      head := HashChunks(32, [], [key]);
      assert Flatten([key]) == key;
    }
    forall i | 0 <= i < |head| {
      xKey[i] := head[i];
    }
    ghost var k := PaddedKey(key);
    assert xKey[..] == k;
    MaskInPlace(xKey, 0x36);
    var inner := HashChunks(32, [], [xKey[..], msg]);
    FlattenPair(xKey[..], msg);
    MaskInPlace(xKey, Xor8(0x5c, 0x36));
    MaskTwice(k, 0x36, 0x5c);
    var outer := HashChunks(32, [], [xKey[..], inner]);
    FlattenPair(xKey[..], inner);
    out := outer[..outlen];
  }

  lemma FlattenPair(a: seq<byte>, b: seq<byte>)
    ensures Flatten([a, b]) == a + b
  {
    var pair, single := [a, b], [b];
    assert pair[1..] == single && single[1..] == [];
    assert Flatten(single) == b + [] == b;
  }
}
