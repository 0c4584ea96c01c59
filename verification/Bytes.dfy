/** Little-endian encodings of natural numbers as byte sequences. */
module Bytes {
  import opened Arith
  import opened Machine

  function Le(s: seq<byte>): (n: nat) {
    if s == [] then 0 else s[0] + 0x100 * Le(s[1..])
  }

  function LeBytes(n: nat, len: nat): (s: seq<byte>)
    ensures |s| == len
  {
    if len == 0 then [] else [n % 0x100] + LeBytes(n / 0x100, len - 1)
  }

  function Word(b0: int, b1: int, b2: int, b3: int): int {
    b0 + 0x100 * b1 + 0x1_0000 * b2 + 0x100_0000 * b3
  }

  // The chunks one after the other
  function Flatten(chunks: seq<seq<byte>>): seq<byte> {
    if chunks == [] then [] else chunks[0] + Flatten(chunks[1..])
  }

  function Ascii(s: string): (b: seq<byte>)
    ensures |b| == |s|
  {
    seq(|s|, i requires 0 <= i < |s| => (s[i] as int) % 0x100)
  }

  // get_unaligned_le32
  function Le32(s: seq<byte>, o: nat): (n: u32)
    requires o + 4 <= |s|
  {
    Word(s[o], s[o + 1], s[o + 2], s[o + 3])
  }

  // put_unaligned_le32
  function PutLe32(n: u32): (s: seq<byte>)
    ensures |s| == 4
  {
    [n % 0x100, n / 0x100 % 0x100, n / 0x1_0000 % 0x100, n / 0x100_0000]
  }

  // cpu_to_le32_array
  function Serialize(words: seq<u32>): (s: seq<byte>)
    ensures |s| == 4 * |words|
  {
    hide PutLe32;
    if words == [] then [] else PutLe32(words[0]) + Serialize(words[1..])
  }

  // 256^n
  function Pow256(n: nat): (r: nat)
    ensures r >= 1
  {
    if n == 0 then 1 else 0x100 * Pow256(n - 1)
  }

  lemma {:induction false} LeBound(s: seq<byte>)
    ensures Le(s) < Pow256(|s|)
  {
    if s != [] {
      LeBound(s[1..]);
    }
  }

  lemma {:induction false} LeInjective(s: seq<byte>, t: seq<byte>)
    requires |s| == |t| && Le(s) == Le(t)
    ensures s == t
  {
    if s != [] {
      LeInjective(s[1..], t[1..]);
      assert s == [s[0]] + s[1..] && t == [t[0]] + t[1..];
    }
  }

  lemma {:induction false} LeOfLeBytes(n: nat, len: nat)
    requires n < Pow256(len)
    ensures Le(LeBytes(n, len)) == n
  {
    if len > 0 {
      LeOfLeBytes(n / 0x100, len - 1);
      assert LeBytes(n, len)[1..] == LeBytes(n / 0x100, len - 1);
    }
  }

  lemma LeBytesOfLe(s: seq<byte>)
    ensures LeBytes(Le(s), |s|) == s
  {
    LeBound(s);
    LeOfLeBytes(Le(s), |s|);
    LeInjective(LeBytes(Le(s), |s|), s);
  }

  lemma LeWord(s: seq<byte>, o: nat)
    requires o + 4 <= |s|
    ensures Le(s[o..]) == Le32(s, o) + 0x1_0000_0000 * Le(s[o + 4..])
  {
    LeByte(s, o);
    LeByte(s, o + 1);
    LeByte(s, o + 2);
    LeByte(s, o + 3);
  }

  lemma LeByte(s: seq<byte>, o: nat)
    requires o < |s|
    ensures Le(s[o..]) == s[o] + 0x100 * Le(s[o + 1..])
  {
    assert s[o..][1..] == s[o + 1..];
  }

  lemma LeWords(s: seq<byte>, o: nat)
    requires o + 16 <= |s|
    ensures Le(s[o..]) == Le32(s, o) + 0x1_00000000 * Le32(s, o + 4) +
                          0x1_00000000_00000000 * Le32(s, o + 8) +
                          0x1_00000000_00000000_00000000 * Le32(s, o + 12) +
                          0x1_00000000_00000000_00000000_00000000 * Le(s[o + 16..])
  {
    LeWord(s, o);
    LeWord(s, o + 4);
    LeWord(s, o + 8);
    LeWord(s, o + 12);
  }

  lemma {:induction false} LeZeros(s: seq<byte>)
    requires forall i :: 0 <= i < |s| ==> s[i] == 0
    ensures Le(s) == 0
  {
    if s != [] {
      LeZeros(s[1..]);
    }
  }

  lemma {:induction false} LeAppend(s: seq<byte>, t: seq<byte>)
    ensures Le(s + t) == Le(s) + Pow256(|s|) * Le(t)
  {
    if s == [] {
      assert s + t == t;
    } else {
      LeAppend(s[1..], t);
      assert (s + t)[1..] == s[1..] + t;
      assert (s + t)[0] == s[0];
      assert 0x100 * (Pow256(|s| - 1) * Le(t)) == Pow256(|s|) * Le(t);
    }
  }

  lemma LeAppendAt(s: seq<byte>, t: seq<byte>, m: nat)
    requires m == Pow256(|s|)
    ensures Le(s + t) == Le(s) + m * Le(t)
  {
    LeAppend(s, t);
  }

  lemma Pow256Values()
    ensures Pow256(16) == 0x1_00000000_00000000_00000000_00000000
    ensures Pow256(30) == 0x1_000000000000_000000000000_000000000000_000000000000_000000000000
  {
    assert Pow256(10) == 0x1_0000000000_0000000000;
    assert Pow256(20) == 0x1_0000000000_0000000000_0000000000_0000000000;
  }

  ghost function Bytes16(b0: int, b1: int, b2: int, b3: int, b4: int, b5: int, b6: int, b7: int,
                         b8: int, b9: int, b10: int, b11: int, b12: int, b13: int, b14: int, b15: int): int
  {
    b0 + 0x100 * b1 + 0x10000 * b2 + 0x1000000 * b3 +
    0x100000000 * b4 + 0x10000000000 * b5 + 0x1000000000000 * b6 + 0x100000000000000 * b7 +
    0x10000000000000000 * b8 + 0x1000000000000000000 * b9 + 0x100000000000000000000 * b10 + 0x10000000000000000000000 * b11 +
    0x1000000000000000000000000 * b12 + 0x100000000000000000000000000 * b13 + 0x10000000000000000000000000000 * b14 + 0x1000000000000000000000000000000 * b15
  }

  lemma LeOf16(s: seq<byte>)
    requires |s| == 16
    ensures Le(s) == Bytes16(s[0], s[1], s[2], s[3], s[4], s[5], s[6], s[7],
                             s[8], s[9], s[10], s[11], s[12], s[13], s[14], s[15])
  {
    LeWords(s, 0);
    assert s[0..] == s && s[16..] == [];
  }

  // Four words in little-endian order
  lemma LeOfPuts(w0: u32, w1: u32, w2: u32, w3: u32)
    ensures Le(PutLe32(w0) + PutLe32(w1) + PutLe32(w2) + PutLe32(w3)) ==
            w0 + 0x1_00000000 * w1 + 0x1_00000000_00000000 * w2 + 0x1_00000000_00000000_00000000 * w3
  {
    var s := PutLe32(w0) + PutLe32(w1) + PutLe32(w2) + PutLe32(w3);
    Le32OfPut(w0, s, 0);
    Le32OfPut(w1, s, 4);
    Le32OfPut(w2, s, 8);
    Le32OfPut(w3, s, 12);
    hide PutLe32, Le32;
    LeWords(s, 0);
    assert s[0..] == s && s[16..] == [];
  }

  lemma Le32OfPut(w: u32, s: seq<byte>, o: nat)
    requires o + 4 <= |s| && s[o..o + 4] == PutLe32(w)
    ensures Le32(s, o) == w
  {
    WordOfPut(w);
    var p := PutLe32(w);
    assert s[o] == s[o..o + 4][0] && s[o + 1] == s[o..o + 4][1] && s[o + 2] == s[o..o + 4][2] && s[o + 3] == s[o..o + 4][3];
  }

  lemma WordOfPut(w: u32)
    ensures Word(w % 0x100, w / 0x100 % 0x100, w / 0x1_0000 % 0x100, w / 0x100_0000) == w
  {
    DivDiv(w, 0x100, 0x100);
    DivDiv(w, 0x1_0000, 0x100);
    FourDigits(w, w / 0x100, w / 0x1_0000, w / 0x100_0000);
  }

  lemma FourDigits(w: nat, q1: nat, q2: nat, q3: nat)
    requires q1 == w / 0x100 && q2 == q1 / 0x100 && q3 == q2 / 0x100
    ensures Word(w % 0x100, q1 % 0x100, q2 % 0x100, q3) == w
  {
    DivMod(w, 0x100);
    DivMod(q1, 0x100);
    DivMod(q2, 0x100);
  }

  // Word i of a serialized array
  lemma {:induction false} SerializeAt(words: seq<u32>, i: nat)
    requires i < |words|
    ensures Serialize(words)[4 * i..4 * i + 4] == PutLe32(words[i])
  {
    hide PutLe32;
    var rest := Serialize(words[1..]);
    assert Serialize(words) == PutLe32(words[0]) + rest;
    if i > 0 {
      SerializeAt(words[1..], i - 1);
      assert Serialize(words)[4 * i..4 * i + 4] == rest[4 * (i - 1)..4 * (i - 1) + 4];
    }
  }

  // Writing a word that was read gives its bytes.
  lemma PutOfLe32(s: seq<byte>, o: nat)
    requires o + 4 <= |s|
    ensures PutLe32(Le32(s, o)) == s[o..o + 4]
  {
    var w := Le32(s, o);
    var p := PutLe32(w);
    WordOfPut(w);
    SameBytes(s[o], s[o + 1], s[o + 2], s[o + 3], p[0], p[1], p[2], p[3]);
  }

  lemma SameBytes(a: byte, b: byte, c: byte, d: byte, e: byte, f: byte, g: byte, h: byte)
    requires Word(a, b, c, d) == Word(e, f, g, h)
    ensures a == e && b == f && c == g && d == h
  {}

  lemma PutOfBytes(a: byte, b: byte, c: byte, d: byte, w: u32)
    requires Word(a, b, c, d) == w
    ensures PutLe32(w) == [a, b, c, d]
  {
    var p := PutLe32(w);
    WordOfPut(w);
    SameBytes(a, b, c, d, p[0], p[1], p[2], p[3]);
  }

  lemma PutIsLeBytes(w: u32)
    ensures PutLe32(w) == LeBytes(w, 4)
  {
    var t := LeBytes(w, 4);
    assert Pow256(4) == 0x1_0000_0000;
    LeOfLeBytes(w, 4);
    LeWord(t, 0);
    assert t[0..] == t && t[4..] == [];
    PutOfLe32(t, 0);
    assert t[0..4] == t;
  }

  // A string of bytes is the serialized array if each of its words is.
  lemma {:induction false} SerializeIs(words: seq<u32>, s: seq<byte>)
    requires |s| == 4 * |words|
    requires forall i :: 0 <= i < |words| ==> s[4 * i..4 * i + 4] == PutLe32(words[i])
    ensures Serialize(words) == s
  {
    hide PutLe32;
    if words != [] {
      var rest := s[4..];
      assert s[4 * 0..4 * 0 + 4] == PutLe32(words[0]);
      forall i | 0 <= i < |words| - 1
        ensures rest[4 * i..4 * i + 4] == PutLe32(words[1..][i])
      {
        assert rest[4 * i..4 * i + 4] == s[4 * (i + 1)..4 * (i + 1) + 4];
      }
      SerializeIs(words[1..], rest);
      assert s == s[..4] + rest;
    }
  }

  // A 64-bit number as two words
  lemma LeBytes8(n: u64)
    ensures PutLe32(n % 0x1_0000_0000) + PutLe32(n / 0x1_0000_0000) == LeBytes(n, 8)
  {
    var lo, hi := n % 0x1_0000_0000, n / 0x1_0000_0000;
    var s := PutLe32(lo) + PutLe32(hi);
    Le32OfPut(lo, s, 0);
    Le32OfPut(hi, s, 4);
    hide PutLe32, Le32;
    LeWord(s, 0);
    LeWord(s, 4);
    assert s[0..] == s && s[8..] == [];
    LeBytesOfLe(s);
  }
}
