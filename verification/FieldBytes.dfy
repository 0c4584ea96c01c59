/**
 Conversion between 32-byte strings and field elements (src/crypto.c:954-975,
 src/crypto.c:982-1085, src/crypto.c:1087-1123). Packing with `|` is stated with the bitwise
 `Or`; that it loses nothing is part of what is proved.
 */
module FieldBytes {
  import opened Arith
  import opened Machine
  import opened Bytes
  import opened Field25519

  // Limbs strictly below 2^26 and 2^25.
  ghost predicate Canonical(f: Fe) {
    && f.v0 < 0x4000000 && f.v2 < 0x4000000 && f.v4 < 0x4000000 && f.v6 < 0x4000000 && f.v8 < 0x4000000
    && f.v1 < 0x2000000 && f.v3 < 0x2000000 && f.v5 < 0x2000000 && f.v7 < 0x2000000 && f.v9 < 0x2000000
  }

  const TWO255: int := 0x80000000_00000000_00000000_00000000_00000000_00000000_00000000_00000000

  // low | high << k, where m = 2^k
  method Pack(low: nat, high: nat, k: nat, m: nat) returns (r: nat)
    requires m == Pow2(k) && low < m
    ensures r == low + m * high
  {
    r := Or(low, m * high);
    OrDisjoint(low, high, k);
  }

  // fe_frombytes: the top bit of the input is ignored.
  method FeFromBytes(s: seq<byte>) returns (h: Fe)
    requires |s| == 32
    ensures Canonical(h) && Tight(h)
    ensures Val(h) == Le(s) % TWO255
  {
    var a0, a1, a2, a3 := Le32(s, 0), Le32(s, 4), Le32(s, 8), Le32(s, 12);
    var a4, a5, a6, a7 := Le32(s, 16), Le32(s, 20), Le32(s, 24), Le32(s, 28);
    h := LimbsOfWords(a0, a1, a2, a3, a4, a5, a6, a7);
    assert Le(s) == Words(a0, a1, a2, a3, a4, a5, a6, a7) by {
      LeWords(s, 0);
      LeWords(s, 16);
      assert s[0..] == s && s[32..] == [];
    }
    DivUnique(Le(s), TWO255, a7 / 0x8000_0000, Val(h));
  }

  method LimbsOfWords(a0: u32, a1: u32, a2: u32, a3: u32, a4: u32, a5: u32, a6: u32, a7: u32) returns (h: Fe)
    ensures Canonical(h) && Tight(h) && 0 <= Val(h) < TWO255
    ensures Words(a0, a1, a2, a3, a4, a5, a6, a7) == Val(h) + TWO255 * (a7 / 0x8000_0000)
  {
    var h1 := Pack(a0 / 0x4000000, a1 % 0x80000, 6, 0x40);
    var h2 := Pack(a1 / 0x80000, a2 % 0x2000, 13, 0x2000);
    var h3 := Pack(a2 / 0x2000, a3 % 0x40, 19, 0x80000);
    var h6 := Pack(a4 / 0x2000000, a5 % 0x80000, 7, 0x80);
    var h7 := Pack(a5 / 0x80000, a6 % 0x1000, 13, 0x2000);
    var h8 := Pack(a6 / 0x1000, a7 % 0x40, 20, 0x100000);
    h := Fe(a0 % 0x4000000, h1, h2, h3, a3 / 0x40, a4 % 0x2000000, h6, h7, h8, a7 / 0x40 % 0x2000000);
    Expand(h);
    Regroup32(a0, a1, a2, a3, a4, a5, a6, a7);
  }

  ghost function Words(a0: int, a1: int, a2: int, a3: int, a4: int, a5: int, a6: int, a7: int): int {
    a0 + 0x1_00000000 * a1 + 0x1_00000000_00000000 * a2 + 0x1_00000000_00000000_00000000 * a3 +
    0x1_00000000_00000000_00000000_00000000 *
    (a4 + 0x1_00000000 * a5 + 0x1_00000000_00000000 * a6 + 0x1_00000000_00000000_00000000 * a7)
  }

  // Eight 32-bit words cut at the limb boundaries.
  lemma Regroup32(a0: u32, a1: u32, a2: u32, a3: u32, a4: u32, a5: u32, a6: u32, a7: u32)
    ensures Words(a0, a1, a2, a3, a4, a5, a6, a7) ==
            Radix(a0 % 0x4000000, a0 / 0x4000000 + 0x40 * (a1 % 0x80000),
                  a1 / 0x80000 + 0x2000 * (a2 % 0x2000), a2 / 0x2000 + 0x80000 * (a3 % 0x40),
                  a3 / 0x40, a4 % 0x2000000, a4 / 0x2000000 + 0x80 * (a5 % 0x80000),
                  a5 / 0x80000 + 0x2000 * (a6 % 0x1000), a6 / 0x1000 + 0x100000 * (a7 % 0x40),
                  a7 / 0x40 % 0x2000000) + TWO255 * (a7 / 0x8000_0000)
  {
    assert a7 / 0x40 == a7 / 0x40 % 0x2000000 + 0x2000000 * (a7 / 0x8000_0000);
  }

  // subborrow_u25 and subborrow_u26, where m is 2^25 or 2^26
  method SubBorrow(c: u32, a: u32, b: u32, m: int) returns (low: u32, borrow: u32)
    requires m == 0x2000000 || m == 0x4000000
    requires c <= 1 && -m <= a - b - c < m
    ensures low < m && borrow <= 1
    ensures low - m * borrow == a - b - c
  {
    var x: u32 := (a - b - c) % TWO32;
    low := x % m;
    borrow := x / 0x8000_0000;
    if m == 0x2000000 {
      WrapAround(a - b - c, x, 0x2000000, 0x80);
    } else {
      WrapAround(a - b - c, x, 0x4000000, 0x40);
    }
  }

  // A difference that wraps around 2^32 = m n keeps its low bits, and its top bit is the borrow.
  lemma WrapAround(d: int, x: u32, m: int, n: int)
    requires x == d % TWO32 && 0 < m <= 0x4000000 && m * n == TWO32 && -m <= d < m
    ensures d >= 0 ==> x % m == d && x / 0x8000_0000 == 0
    ensures d < 0 ==> x % m == d + m && x / 0x8000_0000 == 1
  {
    if d >= 0 {
      DivUnique(d, m, 0, d);
    } else {
      assert x == d + TWO32 && m * (n - 1) == TWO32 - m;
      DivUnique(x, m, n - 1, d + m);
      DivUnique(x, 0x8000_0000, 1, x - 0x8000_0000);
    }
  }

  // addcarryx_u25 and addcarryx_u26, where m is 2^25 or 2^26
  method AddCarry(c: u32, a: u32, b: u32, m: int) returns (low: u32, carry: u32)
    requires m == 0x2000000 || m == 0x4000000
    requires c <= 1 && a < m && b < m
    ensures low < m && carry <= 1
    ensures low + m * carry == a + b + c
  {
    var x: u32 := a + b + c;
    low := x % m;
    carry := x / m % 2;
  }

  // cmovznz32: z when t is zero, nz otherwise, selected with an all-ones or all-zeros mask
  method CMov(t: u32, z: u32, nz: u32) returns (r: u32)
    ensures r == if t != 0 then nz else z
  {
    var mask: u32 := if t != 0 then 0xffff_ffff else 0;
    AllOnes(nz);
    AllOnes(z);
    OrZero(z);
    OrCommutesWithZero(nz);
    r := Or(And(mask, nz), And(0xffff_ffff - mask, z));
  }

  method Masked(mask: u32, c: u32) returns (r: u32)
    requires mask == 0 || mask == 0xffff_ffff
    ensures r == if mask == 0 then 0 else c
  {
    AllOnes(c);
    r := And(mask, c);
  }

  // fe_freeze: subtract p, then add p back under a mask if that borrowed.
  method FeFreeze(f: Fe) returns (h: Fe)
    requires Tight(f)
    ensures Canonical(h)
    ensures Val(h) == Val(f) % P
  {
    var s, borrow := SubtractP(f);
    ghost var carry;
    h, carry := AddBack(s, borrow);
    CanonicalBound(s);
    CanonicalBound(h);
    TightBound(f);
    DivUnique(Val(f), P, 1 - borrow, Val(h));
  }

  method SubtractP(f: Fe) returns (s: Fe, borrow: u32)
    requires Tight(f)
    ensures Canonical(s) && borrow <= 1
    ensures Val(s) == Val(f) - P + (if borrow == 1 then TWO255 else 0)
  {
    var s0, b0 := SubBorrow(0, f.v0, 0x3ffffed, 0x4000000);
    var s1, b1 := SubBorrow(b0, f.v1, 0x1ffffff, 0x2000000);
    var s2, b2 := SubBorrow(b1, f.v2, 0x3ffffff, 0x4000000);
    var s3, b3 := SubBorrow(b2, f.v3, 0x1ffffff, 0x2000000);
    var s4, b4 := SubBorrow(b3, f.v4, 0x3ffffff, 0x4000000);
    var s5, b5 := SubBorrow(b4, f.v5, 0x1ffffff, 0x2000000);
    var s6, b6 := SubBorrow(b5, f.v6, 0x3ffffff, 0x4000000);
    var s7, b7 := SubBorrow(b6, f.v7, 0x1ffffff, 0x2000000);
    var s8, b8 := SubBorrow(b7, f.v8, 0x3ffffff, 0x4000000);
    var s9, b9 := SubBorrow(b8, f.v9, 0x1ffffff, 0x2000000);
    s, borrow := Fe(s0, s1, s2, s3, s4, s5, s6, s7, s8, s9), b9;
    Expand(f);
    Expand(s);
  }

  method AddBack(s: Fe, borrow: u32) returns (h: Fe, ghost carry: int)
    requires Canonical(s) && borrow <= 1
    ensures Canonical(h) && 0 <= carry <= 1
    ensures Val(h) == Val(s) + (if borrow == 1 then P else 0) - (if carry == 1 then TWO255 else 0)
  {
    var mask := CMov(borrow, 0, 0xffff_ffff);
    var p0 := Masked(mask, 0x3ffffed);
    var p25 := Masked(mask, 0x1ffffff);
    var p26 := Masked(mask, 0x3ffffff);
    var h0, c0 := AddCarry(0, s.v0, p0, 0x4000000);
    var h1, c1 := AddCarry(c0, s.v1, p25, 0x2000000);
    var h2, c2 := AddCarry(c1, s.v2, p26, 0x4000000);
    var h3, c3 := AddCarry(c2, s.v3, p25, 0x2000000);
    var h4, c4 := AddCarry(c3, s.v4, p26, 0x4000000);
    var h5, c5 := AddCarry(c4, s.v5, p25, 0x2000000);
    var h6, c6 := AddCarry(c5, s.v6, p26, 0x4000000);
    var h7, c7 := AddCarry(c6, s.v7, p25, 0x2000000);
    var h8, c8 := AddCarry(c7, s.v8, p26, 0x4000000);
    var h9, c9 := AddCarry(c8, s.v9, p25, 0x2000000);
    h, carry := Fe(h0, h1, h2, h3, h4, h5, h6, h7, h8, h9), c9;
    Expand(s);
    Expand(h);
  }

  lemma CanonicalBound(f: Fe)
    requires Canonical(f)
    ensures 0 <= Val(f) < TWO255
  {
    Expand(f);
  }

  lemma TightBound(f: Fe)
    requires Tight(f)
    ensures 0 <= Val(f) < 2 * P
  {
    Expand(f);
  }

  // fe_tobytes
  method FeToBytes(f: Fe) returns (s: seq<byte>)
    requires Tight(f)
    ensures |s| == 32
    ensures Le(s) == Val(f) % P
    ensures s == LeBytes(Val(f) % P, 32)
  {
    var h := FeFreeze(f);
    Expand(h);
    var low := LowBytes(h.v0, h.v1, h.v2, h.v3, h.v4);
    var high := HighBytes(h.v5, h.v6, h.v7, h.v8, h.v9);
    s := low + high;
    Pow256Values();
    LeAppendAt(low, high, 0x1_00000000_00000000_00000000_00000000);
    LeBytesOfLe(s);
  }

  // Bytes 0 to 15, from the first five limbs
  method LowBytes(h0: u32, h1: u32, h2: u32, h3: u32, h4: u32) returns (s: seq<byte>)
    requires h0 < 0x4000000 && h1 < 0x2000000 && h2 < 0x4000000 && h3 < 0x2000000 && h4 < 0x4000000
    ensures |s| == 16
    ensures Le(s) == h0 + 0x4000000 * h1 + 0x8000000000000 * h2 + 0x20000000000000000000 * h3 +
                     0x40000000000000000000000000 * h4
  {
    var b0, b1, b2, u0 := Slice(h0, 0x100, 0x1_0000, 0x100_0000, 4);
    var t1, b4, b5, u1 := Slice(h1, 0x40, 0x4000, 0x400000, 0x8);
    var t2, b7, b8, u2 := Slice(h2, 0x20, 0x2000, 0x200000, 0x20);
    var t3, b10, b11, u3 := Slice(h3, 0x8, 0x800, 0x80000, 0x40);
    var t4, b13, b14, b15 := Slice(h4, 0x4, 0x400, 0x40000, 0x100);
    var b3 := PackByte(u0, h1, 2, 4, 0x40);
    var b6 := PackByte(u1, h2, 3, 8, 0x20);
    var b9 := PackByte(u2, h3, 5, 32, 0x8);
    var b12 := PackByte(u3, h4, 6, 64, 0x4);
    s := SixteenBytes(b0, b1, b2, b3, b4, b5, b6, b7, b8, b9, b10, b11, b12, b13, b14, b15);
    AssembleLow(b0, b1, b2, b3, b4, b5, b6, b7, b8, b9, b10, b11, b12, b13, b14, b15,
                h0, h1, h2, h3, h4, t1, t2, t3, t4, u0, u1, u2, u3);
  }

  // Bytes 16 to 31, from the last five limbs
  method HighBytes(h5: u32, h6: u32, h7: u32, h8: u32, h9: u32) returns (s: seq<byte>)
    requires h5 < 0x2000000 && h6 < 0x4000000 && h7 < 0x2000000 && h8 < 0x4000000 && h9 < 0x2000000
    ensures |s| == 16
    ensures Le(s) == h5 + 0x2000000 * h6 + 0x8000000000000 * h7 + 0x10000000000000000000 * h8 +
                     0x40000000000000000000000000 * h9
  {
    var b0, b1, b2, u0 := Slice(h5, 0x100, 0x1_0000, 0x100_0000, 2);
    var t1, b4, b5, u1 := Slice(h6, 0x80, 0x8000, 0x800000, 0x8);
    var t2, b7, b8, u2 := Slice(h7, 0x20, 0x2000, 0x200000, 0x10);
    var t3, b10, b11, u3 := Slice(h8, 0x10, 0x1000, 0x100000, 0x40);
    var t4, b13, b14, b15 := Slice(h9, 0x4, 0x400, 0x40000, 0x100);
    var b3 := PackByte(u0, h6, 1, 2, 0x80);
    var b6 := PackByte(u1, h7, 3, 8, 0x20);
    var b9 := PackByte(u2, h8, 4, 16, 0x10);
    var b12 := PackByte(u3, h9, 6, 64, 0x4);
    s := SixteenBytes(b0, b1, b2, b3, b4, b5, b6, b7, b8, b9, b10, b11, b12, b13, b14, b15);
    AssembleHigh(b0, b1, b2, b3, b4, b5, b6, b7, b8, b9, b10, b11, b12, b13, b14, b15,
                 h5, h6, h7, h8, h9, t1, t2, t3, t4, u0, u1, u2, u3);
  }

  // (uint8_t)(low | high << k), where m = 2^k and n = 2^(8 - k)
  method PackByte(low: nat, high: nat, k: nat, m: nat, n: nat) returns (b: byte)
    requires m == Pow2(k) && low < m && m * n == 0x100
    ensures b == low + m * (high % n)
  {
    var x := Pack(low, high, k, m);
    b := x % 0x100;
    DivMod(high, n);
    Shares(low, high / n, high % n, m, n, x);
  }

  lemma Shares(low: nat, q: nat, r: nat, m: nat, n: nat, x: nat)
    requires low < m && r < n && m * n == 0x100 && x == low + m * (n * q + r)
    ensures x % 0x100 == low + m * r
  {
    assert m * (n * q + r) == (m * n) * q + m * r;
    assert m * r <= m * (n - 1);
    assert m * (n - 1) == m * n - m;
    DivUnique(x, 0x100, q, low + m * r);
  }

  // The low part of a limb, its two whole bytes, and the part above them.
  method Slice(h: u32, k: nat, k1: nat, k2: nat, limit: nat) returns (t: nat, b: byte, b': byte, u: nat)
    requires k > 0 && k1 == 0x100 * k && k2 == 0x1_0000 * k && 0 <= h / k2 < limit
    ensures h == t + k * b + k1 * b' + k2 * u
    ensures t == h % k && u < limit
  {
    t := h % k;
    b := h / k % 0x100;
    b' := h / k1 % 0x100;
    u := h / k2;
    Cut(h, k, k1, k2);
  }

  // A limb is the sum of the pieces that go into successive bytes.
  lemma Cut(h: nat, k: nat, k1: nat, k2: nat)
    requires k > 0 && k1 == 0x100 * k && k2 == 0x1_0000 * k
    ensures h == h % k + k * (h / k % 0x100) + k1 * (h / k1 % 0x100) + k2 * (h / k2)
  {
    var q := h / k;
    DivDiv(h, k, 0x100);
    DivDiv(h, k, 0x1_0000);
    Spread(h, k, q, h % k, q % 0x100, q / 0x100 % 0x100, q / 0x1_0000);
  }

  lemma Spread(h: int, k: int, q: int, r: int, a: int, b: int, c: int)
    requires h == k * q + r && q == a + 0x100 * b + 0x1_0000 * c
    ensures h == r + k * a + (0x100 * k) * b + (0x1_0000 * k) * c
  {}

  // t_i and u_i are the parts of limb i that share a byte with the limb below and above.
  lemma AssembleLow(b0: int, b1: int, b2: int, b3: int, b4: int, b5: int, b6: int, b7: int,
                    b8: int, b9: int, b10: int, b11: int, b12: int, b13: int, b14: int, b15: int,
                    h0: int, h1: int, h2: int, h3: int, h4: int, t1: int, t2: int, t3: int, t4: int,
                    u0: int, u1: int, u2: int, u3: int)
    requires h0 == b0 + 0x100 * b1 + 0x1_0000 * b2 + 0x100_0000 * u0 && b3 == u0 + 4 * t1
    requires h1 == t1 + 0x40 * b4 + 0x4000 * b5 + 0x400000 * u1 && b6 == u1 + 8 * t2
    requires h2 == t2 + 0x20 * b7 + 0x2000 * b8 + 0x200000 * u2 && b9 == u2 + 32 * t3
    requires h3 == t3 + 0x8 * b10 + 0x800 * b11 + 0x80000 * u3 && b12 == u3 + 64 * t4
    requires h4 == t4 + 0x4 * b13 + 0x400 * b14 + 0x40000 * b15
    ensures Bytes16(b0, b1, b2, b3, b4, b5, b6, b7, b8, b9, b10, b11, b12, b13, b14, b15) ==
            h0 + 0x4000000 * h1 + 0x8000000000000 * h2 + 0x20000000000000000000 * h3 + 0x40000000000000000000000000 * h4
  {}

  // t_i and u_i are the parts of limb i that share a byte with the limb below and above.
  lemma AssembleHigh(b0: int, b1: int, b2: int, b3: int, b4: int, b5: int, b6: int, b7: int,
                     b8: int, b9: int, b10: int, b11: int, b12: int, b13: int, b14: int, b15: int,
                     h5: int, h6: int, h7: int, h8: int, h9: int, t1: int, t2: int, t3: int, t4: int,
                     u0: int, u1: int, u2: int, u3: int)
    requires h5 == b0 + 0x100 * b1 + 0x1_0000 * b2 + 0x100_0000 * u0 && b3 == u0 + 2 * t1
    requires h6 == t1 + 0x80 * b4 + 0x8000 * b5 + 0x800000 * u1 && b6 == u1 + 8 * t2
    requires h7 == t2 + 0x20 * b7 + 0x2000 * b8 + 0x200000 * u2 && b9 == u2 + 16 * t3
    requires h8 == t3 + 0x10 * b10 + 0x1000 * b11 + 0x100000 * u3 && b12 == u3 + 64 * t4
    requires h9 == t4 + 0x4 * b13 + 0x400 * b14 + 0x40000 * b15
    ensures Bytes16(b0, b1, b2, b3, b4, b5, b6, b7, b8, b9, b10, b11, b12, b13, b14, b15) ==
            h5 + 0x2000000 * h6 + 0x8000000000000 * h7 + 0x10000000000000000000 * h8 + 0x40000000000000000000000000 * h9
  {}

  method SixteenBytes(b0: byte, b1: byte, b2: byte, b3: byte, b4: byte, b5: byte, b6: byte, b7: byte,
                      b8: byte, b9: byte, b10: byte, b11: byte, b12: byte, b13: byte, b14: byte, b15: byte)
    returns (s: seq<byte>)
    ensures |s| == 16
    ensures Le(s) == Bytes16(b0, b1, b2, b3, b4, b5, b6, b7, b8, b9, b10, b11, b12, b13, b14, b15)
  {
    s := [b0, b1, b2, b3, b4, b5, b6, b7, b8, b9, b10, b11, b12, b13, b14, b15];
    LeOf16(s);
  }

  // Decoding and encoding again reduces the input modulo 2^255 and then modulo p.
  method Reencode(s: seq<byte>) returns (t: seq<byte>)
    requires |s| == 32
    ensures t == LeBytes(Le(s) % TWO255 % P, 32)
  {
    hide Val, Tight, Canonical, Le, LeBytes;
    var h := FeFromBytes(s);
    t := FeToBytes(h);
  }

  // Encoding and decoding again gives the least representative of the same element.
  method Redecode(f: Fe) returns (h: Fe)
    requires Tight(f)
    ensures Tight(h) && Val(h) == Val(f) % P
  {
    hide Val, Tight, Canonical, Le, LeBytes;
    var s := FeToBytes(f);
    h := FeFromBytes(s);
    SmallRemainder(Val(f));
  }

  lemma SmallRemainder(v: int)
    ensures v % P % TWO255 == v % P
  {}
}
