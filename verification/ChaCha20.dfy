/**
 The ChaCha20 block function and stream (src/crypto.c:70-201): section 2.3 of RFC 8439 with a
 64-bit nonce in the last two state words.
 */
module ChaCha20 {
  import opened Arith
  import opened Machine
  import opened Bytes
  import opened Matrix

  type State = Words16

  // The quarter round of section 2.1 of RFC 8439, on four words
  function Quarter(q: Four): Four {
    hide Rol32, Xor32;
    var a1 := (q.a + q.b) % TWO32;
    var d1 := Rol32(Xor32(q.d, a1), 0x1_0000, 0x1_0000);
    var c1 := (q.c + d1) % TWO32;
    var b1 := Rol32(Xor32(q.b, c1), 0x1000, 0x10_0000);
    var a2 := (a1 + b1) % TWO32;
    var d2 := Rol32(Xor32(d1, a2), 0x100, 0x100_0000);
    var c2 := (c1 + d2) % TWO32;
    Four(a2, Rol32(Xor32(b1, c2), 0x80, 0x200_0000), c2, d2)
  }

  // Section 2.3: the quarter round on every column, then on every diagonal
  function ColumnRound(x: State): State {
    hide Quarter;
    FromColumns(Quarter(Column(x, 0)), Quarter(Column(x, 1)), Quarter(Column(x, 2)), Quarter(Column(x, 3)))
  }

  function DiagonalRound(x: State): State {
    hide Quarter;
    FromDiagonals(Quarter(Diagonal(x, 0)), Quarter(Diagonal(x, 1)), Quarter(Diagonal(x, 2)), Quarter(Diagonal(x, 3)))
  }

  function DoubleRound(x: State): State {
    hide ColumnRound, DiagonalRound;
    DiagonalRound(ColumnRound(x))
  }

  function DoubleRounds(x: State, n: nat): State
    decreases |x|, n
  {
    hide DoubleRound;
    if n == 0 then x else DoubleRounds(DoubleRound(x), n - 1)
  }

  // The 64 key stream bytes of one block
  function KeyBlock(st: State): (k: seq<byte>)
    ensures |k| == 64
  {
    hide DoubleRounds, PutLe32;
    Serialize(Sum(DoubleRounds(st, 10), st))
  }

  function Sum(x: State, st: State): (s: State)
    ensures forall i :: 0 <= i < 16 ==> s[i] == (x[i] + st[i]) % TWO32
  {
    seq(16, i requires 0 <= i < 16 => (x[i] + st[i]) % TWO32)
  }

  // The state with its block counter, word 12, moved on by n blocks. The counter is 32 bits
  // wide and wraps without a carry into word 13.
  function Advance(st: State, n: nat): State {
    st[12 := (st[12] + n) % TWO32]
  }

  // chacha20_init
  function InitState(key: seq<byte>, nonce: u64): State
    requires |key| == 32
  {
    [0x61707865, 0x3320646e, 0x79622d32, 0x6b206574,
     Le32(key, 0), Le32(key, 4), Le32(key, 8), Le32(key, 12),
     Le32(key, 16), Le32(key, 20), Le32(key, 24), Le32(key, 28),
     0, 0, nonce % 0x1_0000_0000, nonce / 0x1_0000_0000]
  }

  const ZEROS: seq<byte> := [0, 0, 0, 0, 0, 0, 0, 0]

  function Layout(key: seq<byte>, nonce: u64): (s: seq<byte>)
    requires |key| == 32
    ensures |s| == 64
  {
    hide Ascii, LeBytes;
    Ascii("expand 32-byte k") + key + ZEROS + LeBytes(nonce, 8)
  }

  // The state laid out in bytes: the constant of section 2.3 of RFC 8439, the key, a counter of 8
  // bytes and the nonce
  lemma InitLayout(key: seq<byte>, nonce: u64)
    requires |key| == 32
    ensures Serialize(InitState(key, nonce)) ==
            Ascii("expand 32-byte k") + key + [0, 0, 0, 0, 0, 0, 0, 0] + LeBytes(nonce, 8)
  {
    hide PutLe32, InitState, Ascii, LeBytes;
    assert ZEROS == [0, 0, 0, 0, 0, 0, 0, 0];
    assert Layout(key, nonce) == Ascii("expand 32-byte k") + key + [0, 0, 0, 0, 0, 0, 0, 0] + LeBytes(nonce, 8);
    hide Layout;
    forall i | 0 <= i < 16
      ensures Layout(key, nonce)[4 * i..4 * i + 4] == PutLe32(InitState(key, nonce)[i])
    {
      LayoutWord(key, nonce, i);
    }
    SerializeIs(InitState(key, nonce), Layout(key, nonce));
  }

  lemma LayoutWord(key: seq<byte>, nonce: u64, i: nat)
    requires |key| == 32 && i < 16
    ensures Layout(key, nonce)[4 * i..4 * i + 4] == PutLe32(InitState(key, nonce)[i])
  {
    hide PutLe32, Ascii, LeBytes, Le32;
    var c, n := Ascii("expand 32-byte k"), LeBytes(nonce, 8);
    if i < 4 {
      ConstantBytes(i);
      Piece([], c, key + ZEROS + n, Layout(key, nonce), 4 * i);
    } else if i < 12 {
      PutOfLe32(key, 4 * (i - 4));
      Piece(c, key, ZEROS + n, Layout(key, nonce), 4 * (i - 4));
    } else {
      TailWord(nonce, i);
      Piece(c + key, ZEROS + n, [], Layout(key, nonce), 4 * (i - 12));
    }
  }

  lemma TailWord(nonce: u64, i: nat)
    requires 12 <= i < 16
    ensures (ZEROS + LeBytes(nonce, 8))[4 * (i - 12)..4 * (i - 12) + 4] ==
            PutLe32([0, 0, nonce % 0x1_0000_0000, nonce / 0x1_0000_0000][i - 12])
  {
    LeBytes8(nonce);
    hide LeBytes;
  }

  lemma Piece(a: seq<byte>, m: seq<byte>, b: seq<byte>, layout: seq<byte>, o: nat)
    requires layout == a + m + b && o + 4 <= |m|
    ensures layout[|a| + o..|a| + o + 4] == m[o..o + 4]
  {}

  lemma ConstantBytes(i: nat)
    requires i < 4
    ensures Ascii("expand 32-byte k")[4 * i..4 * i + 4] == PutLe32([0x61707865, 0x3320646e, 0x79622d32, 0x6b206574][i])
  {
    ConstantIs();
    ConstantPuts();
    hide Ascii, PutLe32;
  }

  lemma ConstantPuts()
    ensures PutLe32(0x61707865) == [0x65, 0x78, 0x70, 0x61] && PutLe32(0x3320646e) == [0x6e, 0x64, 0x20, 0x33]
    ensures PutLe32(0x79622d32) == [0x32, 0x2d, 0x62, 0x79] && PutLe32(0x6b206574) == [0x74, 0x65, 0x20, 0x6b]
  {
    hide PutLe32;
    PutOfBytes(0x65, 0x78, 0x70, 0x61, 0x61707865);
    PutOfBytes(0x6e, 0x64, 0x20, 0x33, 0x3320646e);
    PutOfBytes(0x32, 0x2d, 0x62, 0x79, 0x79622d32);
    PutOfBytes(0x74, 0x65, 0x20, 0x6b, 0x6b206574);
  }

  lemma ConstantIs()
    ensures Ascii("expand 32-byte k") ==
            [0x65, 0x78, 0x70, 0x61, 0x6e, 0x64, 0x20, 0x33, 0x32, 0x2d, 0x62, 0x79, 0x74, 0x65, 0x20, 0x6b]
  {}

  // Every key, nonce and block number, modulo the width of the counter, has a state of its own.
  lemma StatesDiffer(key: seq<byte>, nonce: u64, i: nat, key': seq<byte>, nonce': u64, i': nat)
    requires |key| == |key'| == 32
    requires Advance(InitState(key, nonce), i) == Advance(InitState(key', nonce'), i')
    ensures key == key' && nonce == nonce' && i % TWO32 == i' % TWO32
  {
    var st, st' := InitState(key, nonce), InitState(key', nonce');
    assert st[12] == 0 && st'[12] == 0;
    assert Advance(st, i)[12] == Advance(st', i')[12];
    forall j | 0 <= j < 16 && j != 12
      ensures st[j] == st'[j]
    {
      assert Advance(st, i)[j] == Advance(st', i')[j];
    }
    assert st == st';
    InitLayout(key, nonce);
    InitLayout(key', nonce');
    hide InitState, Serialize, LeBytes;
    var c, zeros := Ascii("expand 32-byte k"), [0, 0, 0, 0, 0, 0, 0, 0];
    SameParts(c + key, zeros, LeBytes(nonce, 8), c + key', LeBytes(nonce', 8));
    SameTail(c, key, key');
    EightBytes(nonce);
    EightBytes(nonce');
  }

  lemma SameParts(a: seq<byte>, z: seq<byte>, b: seq<byte>, a': seq<byte>, b': seq<byte>)
    requires |a| == |a'| && a + z + b == a' + z + b'
    ensures a == a' && b == b'
  {
    assert a == (a + z + b)[..|a|] && a' == (a' + z + b')[..|a|];
    assert b == (a + z + b)[|a| + |z|..] && b' == (a' + z + b')[|a| + |z|..];
  }

  lemma SameTail(c: seq<byte>, a: seq<byte>, a': seq<byte>)
    requires c + a == c + a'
    ensures a == a'
  {
    assert a == (c + a)[|c|..] && a' == (c + a')[|c|..];
  }

  lemma EightBytes(n: u64)
    ensures Le(LeBytes(n, 8)) == n
  {
    assert Pow256(8) == TWO64;
    LeOfLeBytes(n, 8);
  }

  // Byte i of the key stream that starts at state st
  function KeyByte(st: State, i: nat): byte {
    hide KeyBlock;
    KeyBlock(Advance(st, i / 64))[i % 64]
  }

  // buf combined with the key stream from byte pos on
  function XorStream(st: State, pos: nat, buf: seq<byte>): (r: seq<byte>)
    ensures |r| == |buf|
  {
    hide KeyByte, Xor8;
    seq(|buf|, i requires 0 <= i < |buf| => Xor8(buf[i], KeyByte(st, pos + i)))
  }

  lemma AdvanceTwice(st: State, a: nat, b: nat)
    ensures Advance(Advance(st, a), b) == Advance(st, a + b)
  {
    SumElement(st[12] + a, b);
  }

  lemma SumElement(a: nat, b: nat)
    ensures (a % TWO32 + b) % TWO32 == (a + b) % TWO32
  {
    DivMod(a, TWO32);
    ModShift(a % TWO32 + b, a + b, a / TWO32, TWO32);
  }

  lemma KeyByteInBlock(st: State, k: nat, i: nat)
    requires i < 64
    ensures KeyByte(st, 64 * k + i) == KeyBlock(Advance(st, k))[i]
  {
    hide KeyBlock;
    DivUnique(64 * k + i, 64, k, i);
  }

  lemma XorTwice(a: byte, b: byte)
    ensures Xor8(Xor8(a, b), b) == a
  {
    XorSwaps(b, a);
    XorCommutes(Xor(a, b), b);
    XorCommutes(a, b);
  }

  // Applying the same key stream twice gives the text back.
  lemma XorStreamTwice(st: State, pos: nat, buf: seq<byte>)
    ensures XorStream(st, pos, XorStream(st, pos, buf)) == buf
  {
    hide KeyByte, Xor8;
    var once := XorStream(st, pos, buf);
    forall i | 0 <= i < |buf|
      ensures XorStream(st, pos, once)[i] == buf[i]
    {
      XorTwice(buf[i], KeyByte(st, pos + i));
    }
  }

  // A stream over two pieces continues where the first piece ended.
  lemma XorStreamAppend(st: State, pos: nat, a: seq<byte>, b: seq<byte>)
    ensures XorStream(st, pos, a + b) == XorStream(st, pos, a) + XorStream(st, pos + |a|, b)
  {
    hide KeyByte, Xor8;
    var whole, parts := XorStream(st, pos, a + b), XorStream(st, pos, a) + XorStream(st, pos + |a|, b);
    forall i | 0 <= i < |a + b|
      ensures whole[i] == parts[i]
    {
      if i >= |a| {
        assert pos + |a| + (i - |a|) == pos + i;
      }
    }
  }

  class Context {
    var state: State

    constructor (key: seq<byte>, nonce: u64)
      requires |key| == 32
      ensures state == InitState(key, nonce)
    {
      state := InitState(key, nonce);
    }

    // chacha20_block
    method Block() returns (stream: seq<byte>)
      modifies this
      ensures stream == KeyBlock(old(state))
      ensures state == Advance(old(state), 1)
    {
      hide DoubleRounds, PutLe32, Serialize;
      var x := new u32[16](i requires 0 <= i < 16 reads this => state[i]);
      assert x[..] == state;
      TwentyRounds(x, 10);
      ghost var mixed := x[..];
      for i := 0 to 16
        invariant forall j :: 0 <= j < i ==> x[j] == (mixed[j] + state[j]) % TWO32
        invariant forall j :: i <= j < 16 ==> x[j] == mixed[j]
        invariant state == old(state)
      {
        x[i] := (x[i] + state[i]) % TWO32;
      }
      assert x[..] == Sum(mixed, state);
      stream := Serialize(x[..]);
      state := state[12 := (state[12] + 1) % TWO32];
    }

    // chacha20: `out` may be the same buffer as `input`
    method Crypt(out: array<byte>, input: array<byte>, len: u32)
      requires len <= out.Length && len <= input.Length
      modifies this, out
      ensures out[..len] == XorStream(old(state), 0, old(input[..len]))
      ensures forall i :: len <= i < out.Length ==> out[i] == old(out[i])
      ensures state == Advance(old(state), (len + 63) / 64)
    {
      hide KeyBlock, KeyByte, Xor8, Advance;
      ghost var st := state;
      AdvanceNone(st);
      var done := 0;
      while len - done >= 64
        invariant 0 <= done <= len && done % 64 == 0
        invariant state == Advance(st, done / 64)
        invariant forall i :: 0 <= i < done ==> out[i] == Xor8(old(input[i]), KeyByte(st, i))
        invariant forall i :: done <= i < out.Length ==> out[i] == old(out[i])
        invariant forall i :: done <= i < input.Length ==> input[i] == old(input[i])
      {
        var stream := Block();
        AdvanceTwice(st, done / 64, 1);
        forall j | done <= j < done + 64
          ensures stream[j - done] == KeyByte(st, j)
        {
          KeyByteInBlock(st, done / 64, j - done);
        }
        XorCopy(out, input, done, stream, 64);
        assert (done + 64) / 64 == done / 64 + 1;
        done := done + 64;
      }
      if len > done {
        var stream := Block();
        AdvanceTwice(st, done / 64, 1);
        forall j | done <= j < len
          ensures stream[j - done] == KeyByte(st, j)
        {
          KeyByteInBlock(st, done / 64, j - done);
        }
        XorCopy(out, input, done, stream, len - done);
        assert (len + 63) / 64 == done / 64 + 1;
      } else {
        assert (len + 63) / 64 == done / 64;
      }
    }
  }

  // QUARTER_ROUND: the words are updated one after the other where they are.
  method QuarterInPlace(x: array<u32>, a: nat, b: nat, c: nat, d: nat)
    requires x.Length == 16 && a < 16 && b < 16 && c < 16 && d < 16
    requires a != b && a != c && a != d && b != c && b != d && c != d
    modifies x
    ensures x[..] == Put(old(x[..]), a, b, c, d, Quarter(old(Four(x[a], x[b], x[c], x[d]))))
  {
    hide Rol32, Xor32;
    x[a] := (x[a] + x[b]) % TWO32;
    x[d] := Rol32(Xor32(x[d], x[a]), 0x1_0000, 0x1_0000);
    x[c] := (x[c] + x[d]) % TWO32;
    x[b] := Rol32(Xor32(x[b], x[c]), 0x1000, 0x10_0000);
    x[a] := (x[a] + x[b]) % TWO32;
    x[d] := Rol32(Xor32(x[d], x[a]), 0x100, 0x100_0000);
    x[c] := (x[c] + x[d]) % TWO32;
    x[b] := Rol32(Xor32(x[b], x[c]), 0x80, 0x200_0000);
  }

  // DOUBLE_ROUND: the columns, then the diagonals
  method DoubleRoundInPlace(x: array<u32>)
    requires x.Length == 16
    modifies x
    ensures x[..] == DoubleRound(old(x[..]))
  {
    ColumnsInPlace(x);
    DiagonalsInPlace(x);
  }

  method ColumnsInPlace(x: array<u32>)
    requires x.Length == 16
    modifies x
    ensures x[..] == ColumnRound(old(x[..]))
  {
    hide Quarter;
    QuarterInPlace(x, 0, 4, 8, 12);
    QuarterInPlace(x, 1, 5, 9, 13);
    QuarterInPlace(x, 2, 6, 10, 14);
    QuarterInPlace(x, 3, 7, 11, 15);
  }

  method DiagonalsInPlace(x: array<u32>)
    requires x.Length == 16
    modifies x
    ensures x[..] == DiagonalRound(old(x[..]))
  {
    hide Quarter, Put, DiagonalRound;
    ghost var was := x[..];
    QuarterInPlace(x, 0, 5, 10, 15);
    ghost var x1 := x[..];
    QuarterInPlace(x, 1, 6, 11, 12);
    ghost var x2 := x[..];
    QuarterInPlace(x, 2, 7, 8, 13);
    ghost var x3 := x[..];
    QuarterInPlace(x, 3, 4, 9, 14);
    DiagonalsApart(was, x1, x2, x3);
  }

  lemma DiagonalsApart(x: State, x1: State, x2: State, x3: State)
    requires x1 == Put(x, 0, 5, 10, 15, Quarter(Four(x[0], x[5], x[10], x[15])))
    requires x2 == Put(x1, 1, 6, 11, 12, Quarter(Four(x1[1], x1[6], x1[11], x1[12])))
    requires x3 == Put(x2, 2, 7, 8, 13, Quarter(Four(x2[2], x2[7], x2[8], x2[13])))
    ensures Put(x3, 3, 4, 9, 14, Quarter(Four(x3[3], x3[4], x3[9], x3[14]))) == DiagonalRound(x)
  {
    hide Quarter;
  }

  // TWENTY_ROUNDS for n = 10
  method TwentyRounds(x: array<u32>, n: nat)
    requires x.Length == 16
    modifies x
    ensures x[..] == DoubleRounds(old(x[..]), n)
  {
    hide DoubleRound;
    for i := 0 to n
      invariant DoubleRounds(x[..], n - i) == DoubleRounds(old(x[..]), n)
    {
      DoubleRoundInPlace(x);
    }
  }

  lemma AdvanceNone(st: State)
    ensures Advance(st, 0) == st
  {}

  // xor_cpy from offset `at` on
  method XorCopy(out: array<byte>, input: array<byte>, at: nat, stream: seq<byte>, n: nat)
    requires at + n <= out.Length && at + n <= input.Length && n <= |stream|
    modifies out
    ensures forall j :: at <= j < at + n ==> out[j] == Xor8(old(input[j]), stream[j - at])
    ensures forall j :: 0 <= j < out.Length && !(at <= j < at + n) ==> out[j] == old(out[j])
  {
    hide Xor8;
    for k := 0 to n
      invariant forall j :: at <= j < at + k ==> out[j] == Xor8(old(input[j]), stream[j - at])
      invariant forall j :: 0 <= j < out.Length && !(at <= j < at + k) ==> out[j] == old(out[j])
      invariant forall j :: 0 <= j < input.Length && !(at <= j < at + k) ==> input[j] == old(input[j])
    {
      out[at + k] := Xor8(input[at + k], stream[k]);
    }
  }
}
