/**
 The arithmetic of Poly1305 on five 26-bit limbs (src/crypto.c:250-439). Values bound to
 `u32` and `u64` variables are proved to be in range, so no intermediate wraps.
 */
module Poly1305Limbs {
  import opened Arith
  import opened Machine
  import opened Bytes

  // 2^130 - 5
  const P1305: int := 0x3_ffffffff_ffffffff_ffffffff_fffffffb
  const TWO128: int := 0x1_00000000_00000000_00000000_00000000

  // h = h0 + 2^26 h1 + 2^52 h2 + 2^78 h3 + 2^104 h4
  datatype Limbs = Limbs(h0: u32, h1: u32, h2: u32, h3: u32, h4: u32)

  ghost function Radix26(x0: int, x1: int, x2: int, x3: int, x4: int): int {
    x0 + 0x4000000 * x1 + 0x10000000000000 * x2 + 0x40000000000000000000 * x3 + 0x100000000000000000000000000 * x4
  }

  ghost function Value(h: Limbs): nat {
    Radix26(h.h0, h.h1, h.h2, h.h3, h.h4)
  }

  // The accumulator between blocks: only limb 1 may exceed 26 bits, by less than 64.
  ghost predicate Carried(h: Limbs) {
    h.h0 < 0x4000000 && h.h1 < 0x4000040 && h.h2 < 0x4000000 && h.h3 < 0x4000000 && h.h4 < 0x4000000
  }

  // The masks that poly1305_init_core applies to the limbs of r.
  ghost predicate Clamped(r: Limbs) {
    r.h0 <= 0x3ffffff && r.h1 <= 0x3ffff03 && r.h2 <= 0x3ffc0ff && r.h3 <= 0x3f03fff && r.h4 <= 0x00fffff
  }

  // h += m, where the 16 bytes m carry an extra bit 2^128 when padbit is 1
  method AddBlock(h: Limbs, input: seq<byte>, padbit: u32) returns (t: Limbs)
    requires Carried(h) && |input| == 16 && padbit <= 1
    ensures Value(t) == Value(h) + Le(input) + (if padbit == 1 then TWO128 else 0)
    ensures t.h0 < 0x8000000 && t.h1 < 0x8000040 && t.h2 < 0x8000000 && t.h3 < 0x8000000 && t.h4 < 0x6000000
  {
    var m0: u32 := Le32(input, 0) % 0x4000000;
    var m1: u32 := Le32(input, 3) / 4 % 0x4000000;
    var m2: u32 := Le32(input, 6) / 0x10 % 0x4000000;
    var m3: u32 := Le32(input, 9) / 0x40 % 0x4000000;
    var m4: u32 := Le32(input, 12) / 0x100;
    BlockLimbs(input);
    var top := WithHighBit(m4, padbit);
    t := Limbs(h.h0 + m0, h.h1 + m1, h.h2 + m2, h.h3 + m3, h.h4 + top);
  }

  // (le32 >> 8) | hibit, where hibit = padbit << 24
  method WithHighBit(m4: u32, padbit: u32) returns (top: u32)
    requires m4 < 0x1000000 && padbit <= 1
    ensures top == m4 + 0x1000000 * padbit
  {
    assert Pow2(12) == 0x1000;
    assert Pow2(24) == 0x1000000;
    OrDisjoint(m4, padbit, 24);
    top := Or(m4, 0x1000000 * padbit);
  }

  // h = t * r, partially reduced; s_i is 5 r_i and stands for 2^130 r_i modulo p
  method MulReduce(t: Limbs, r: Limbs) returns (h: Limbs)
    requires Clamped(r)
    requires t.h0 < 0x8000000 && t.h1 < 0x8000040 && t.h2 < 0x8000000 && t.h3 < 0x8000000 && t.h4 < 0x6000000
    ensures Carried(h)
    ensures Value(h) % P1305 == Value(t) * Value(r) % P1305
  {
    var d0, d1, d2, d3, d4 := Columns(t, r);
    h := CarryColumns(d0, d1, d2, d3, d4);
    ProductValue5(t, r);
    ModShift(Radix26(d0, d1, d2, d3, d4), Value(t) * Value(r), HighColumns(t, r), P1305);
  }

  method Columns(t: Limbs, r: Limbs) returns (d0: u64, d1: u64, d2: u64, d3: u64, d4: u64)
    requires Clamped(r)
    requires t.h0 < 0x8000000 && t.h1 < 0x8000040 && t.h2 < 0x8000000 && t.h3 < 0x8000000 && t.h4 < 0x6000000
    ensures d0 < COLUMN5_MAX && d1 < COLUMN5_MAX && d2 < COLUMN5_MAX && d3 < COLUMN5_MAX
    ensures d4 < 0x7c_0000_0000_0000
    ensures Radix26(d0, d1, d2, d3, d4) == LowColumns(t, r) + 5 * HighColumns(t, r)
  {
    var s1: u32, s2: u32, s3: u32, s4: u32 := 5 * r.h1, 5 * r.h2, 5 * r.h3, 5 * r.h4;
    Regroup(5, r.h4, t.h1);
    Regroup(5, r.h3, t.h2);
    Regroup(5, r.h4, t.h2);
    Regroup(5, r.h2, t.h3);
    Regroup(5, r.h3, t.h3);
    Regroup(5, r.h4, t.h3);
    Regroup(5, r.h1, t.h4);
    Regroup(5, r.h2, t.h4);
    Regroup(5, r.h3, t.h4);
    Regroup(5, r.h4, t.h4);
    ProductBound(t.h0, r.h0, 0x8000000, 0x3ffffff);
    ProductBound(t.h0, r.h1, 0x8000000, 0x3ffff03);
    ProductBound(t.h0, r.h2, 0x8000000, 0x3ffc0ff);
    ProductBound(t.h0, r.h3, 0x8000000, 0x3f03fff);
    ProductBound(t.h0, r.h4, 0x8000000, 0xfffff);
    ProductBound(t.h1, r.h0, 0x8000040, 0x3ffffff);
    ProductBound(t.h1, r.h1, 0x8000040, 0x3ffff03);
    ProductBound(t.h1, r.h2, 0x8000040, 0x3ffc0ff);
    ProductBound(t.h1, r.h3, 0x8000040, 0x3f03fff);
    ProductBound(t.h1, r.h4, 0x8000040, 0xfffff);
    ProductBound(t.h2, r.h0, 0x8000000, 0x3ffffff);
    ProductBound(t.h2, r.h1, 0x8000000, 0x3ffff03);
    ProductBound(t.h2, r.h2, 0x8000000, 0x3ffc0ff);
    ProductBound(t.h2, r.h3, 0x8000000, 0x3f03fff);
    ProductBound(t.h2, r.h4, 0x8000000, 0xfffff);
    ProductBound(t.h3, r.h0, 0x8000000, 0x3ffffff);
    ProductBound(t.h3, r.h1, 0x8000000, 0x3ffff03);
    ProductBound(t.h3, r.h2, 0x8000000, 0x3ffc0ff);
    ProductBound(t.h3, r.h3, 0x8000000, 0x3f03fff);
    ProductBound(t.h3, r.h4, 0x8000000, 0xfffff);
    ProductBound(t.h4, r.h0, 0x6000000, 0x3ffffff);
    ProductBound(t.h4, r.h1, 0x6000000, 0x3ffff03);
    ProductBound(t.h4, r.h2, 0x6000000, 0x3ffc0ff);
    ProductBound(t.h4, r.h3, 0x6000000, 0x3f03fff);
    ProductBound(t.h4, r.h4, 0x6000000, 0xfffff);
    d0 := t.h0 * r.h0 + t.h1 * s4 + t.h2 * s3 + t.h3 * s2 + t.h4 * s1;
    d1 := t.h0 * r.h1 + t.h1 * r.h0 + t.h2 * s4 + t.h3 * s3 + t.h4 * s2;
    d2 := t.h0 * r.h2 + t.h1 * r.h1 + t.h2 * r.h0 + t.h3 * s4 + t.h4 * s3;
    d3 := t.h0 * r.h3 + t.h1 * r.h2 + t.h2 * r.h1 + t.h3 * r.h0 + t.h4 * s4;
    d4 := t.h0 * r.h4 + t.h1 * r.h3 + t.h2 * r.h2 + t.h3 * r.h1 + t.h4 * r.h0;
  }

  const COLUMN5_MAX: int := 0x300_0000_0000_0000

  // Columns 0 to 4 of the product, and columns 5 to 8 weighted as columns 0 to 3.
  ghost function LowColumns(t: Limbs, r: Limbs): int {
    Radix26(t.h0 * r.h0,
            t.h0 * r.h1 + t.h1 * r.h0,
            t.h0 * r.h2 + t.h1 * r.h1 + t.h2 * r.h0,
            t.h0 * r.h3 + t.h1 * r.h2 + t.h2 * r.h1 + t.h3 * r.h0,
            t.h0 * r.h4 + t.h1 * r.h3 + t.h2 * r.h2 + t.h3 * r.h1 + t.h4 * r.h0)
  }

  ghost function HighColumns(t: Limbs, r: Limbs): int {
    Radix26(t.h1 * r.h4 + t.h2 * r.h3 + t.h3 * r.h2 + t.h4 * r.h1,
            t.h2 * r.h4 + t.h3 * r.h3 + t.h4 * r.h2,
            t.h3 * r.h4 + t.h4 * r.h3,
            t.h4 * r.h4, 0)
  }

  lemma ProductValue5(t: Limbs, r: Limbs)
    ensures Value(t) * Value(r) == LowColumns(t, r) + 5 * HighColumns(t, r) + P1305 * HighColumns(t, r)
  {
    Product5(t, r);
  }

  lemma Product5(t: Limbs, r: Limbs)
    ensures Value(t) * Value(r) ==
            LowColumns(t, r) + 0x4_00000000_00000000_00000000_00000000 * HighColumns(t, r)
  {
    Distribute5(t, Value(r));
    Scale5(t.h0, r);
    Scale5(t.h1, r);
    Scale5(t.h2, r);
    Scale5(t.h3, r);
    Scale5(t.h4, r);
  }

  lemma Distribute5(t: Limbs, y: int)
    ensures Value(t) * y == Radix26(t.h0 * y, t.h1 * y, t.h2 * y, t.h3 * y, t.h4 * y)
  {}

  lemma Scale5(c: int, r: Limbs)
    ensures c * Value(r) == Radix26(c * r.h0, c * r.h1, c * r.h2, c * r.h3, c * r.h4)
  {}

  // The carries of poly1305_blocks_core, the last one folded back as 5
  method CarryColumns(d0: u64, d1: u64, d2: u64, d3: u64, d4: u64) returns (h: Limbs)
    requires d0 < COLUMN5_MAX && d1 < COLUMN5_MAX && d2 < COLUMN5_MAX && d3 < COLUMN5_MAX
    requires d4 < 0x7c_0000_0000_0000
    ensures Carried(h)
    ensures Value(h) % P1305 == Radix26(d0, d1, d2, d3, d4) % P1305
  {
    var c: u32 := d0 / 0x4000000;
    var h0: u32 := d0 % 0x4000000;
    var e1: u64 := d1 + c;
    c := e1 / 0x4000000;
    var h1: u32 := e1 % 0x4000000;
    var e2: u64 := d2 + c;
    c := e2 / 0x4000000;
    var h2: u32 := e2 % 0x4000000;
    var e3: u64 := d3 + c;
    c := e3 / 0x4000000;
    var h3: u32 := e3 % 0x4000000;
    var e4: u64 := d4 + c;
    var top: u32 := e4 / 0x4000000;
    var h4: u32 := e4 % 0x4000000;
    var f0: u32 := h0 + top * 5;
    c := f0 / 0x4000000;
    h := Limbs(f0 % 0x4000000, h1 + c, h2, h3, h4);
    assert Value(h) == Radix26(d0, d1, d2, d3, d4) - 0x3_ffffffff_ffffffff_ffffffff_fffffffb * top;
    ModShift(Value(h), Radix26(d0, d1, d2, d3, d4), top, P1305);
  }

  // Sixteen bytes cut into limbs of 26 bits.
  lemma BlockLimbs(m: seq<byte>)
    requires |m| == 16
    ensures Le(m) == Radix26(Le32(m, 0) % 0x4000000, Le32(m, 3) / 4 % 0x4000000, Le32(m, 6) / 0x10 % 0x4000000,
                             Le32(m, 9) / 0x40 % 0x4000000, Le32(m, 12) / 0x100)
  {
    hide Le, Word, Radix26, Bytes16;
    LeOf16(m);
    var l3, u3 := Share(m[3], 4);
    var l6, u6 := Share(m[6], 0x10);
    var l9, u9 := Share(m[9], 0x40);
    Limb0(m[0], m[1], m[2], l3, u3);
    Limb1(u3, m[4], m[5], l6, u6, l3);
    Limb2(u6, m[7], m[8], l9, u9, l6);
    Limb3(u9, m[10], m[11], m[12], l9);
    Limb4(m[12], m[13], m[14], m[15]);
    Assemble(m[0], m[1], m[2], m[3], m[4], m[5], m[6], m[7], m[8], m[9], m[10], m[11], m[12], m[13], m[14], m[15],
             l3, u3, l6, u6, l9, u9);
  }

  // A byte that is shared between two limbs.
  lemma Share(b: byte, k: int) returns (low: int, high: int)
    requires k == 4 || k == 0x10 || k == 0x40
    ensures b == low + k * high && 0 <= low < k && 0 <= high
  {
    low, high := b % k, b / k;
  }

  lemma ShareExact(b: byte, k: int) returns (low: int, high: int)
    requires k == 4 || k == 0x10 || k == 0x40
    ensures b == low + k * high && 0 <= low < k && 0 <= high
    ensures low == b % k && high == b / k
  {
    low, high := b % k, b / k;
  }

  lemma Limb0(b0: int, b1: int, b2: int, l3: int, u3: int)
    requires 0 <= b0 < 0x100 && 0 <= b1 < 0x100 && 0 <= b2 < 0x100 && 0 <= l3 < 4
    ensures Word(b0, b1, b2, l3 + 4 * u3) % 0x4000000 == Word(b0, b1, b2, l3)
  {}

  lemma Limb1(u3: int, b4: int, b5: int, l6: int, u6: int, l3: int)
    requires 0 <= l3 < 4 && 0 <= u3 < 0x40 && 0 <= b4 < 0x100 && 0 <= b5 < 0x100 && 0 <= l6 < 0x10 && 0 <= u6
    ensures Word(l3 + 4 * u3, b4, b5, l6 + 0x10 * u6) / 4 % 0x4000000 ==
            u3 + 0x40 * b4 + 0x4000 * b5 + 0x40_0000 * l6
  {
    assert Word(l3 + 4 * u3, b4, b5, l6 + 0x10 * u6) / 4 ==
           u3 + 0x40 * b4 + 0x4000 * b5 + 0x40_0000 * (l6 + 0x10 * u6);
  }

  lemma Limb2(u6: int, b7: int, b8: int, l9: int, u9: int, l6: int)
    requires 0 <= l6 < 0x10 && 0 <= u6 < 0x10 && 0 <= b7 < 0x100 && 0 <= b8 < 0x100 && 0 <= l9 < 0x40 && 0 <= u9
    ensures Word(l6 + 0x10 * u6, b7, b8, l9 + 0x40 * u9) / 0x10 % 0x4000000 ==
            u6 + 0x10 * b7 + 0x1000 * b8 + 0x10_0000 * l9
  {
    assert Word(l6 + 0x10 * u6, b7, b8, l9 + 0x40 * u9) / 0x10 ==
           u6 + 0x10 * b7 + 0x1000 * b8 + 0x10_0000 * (l9 + 0x40 * u9);
  }

  lemma Limb3(u9: int, b10: int, b11: int, b12: int, l9: int)
    requires 0 <= l9 < 0x40 && 0 <= u9 < 4 && 0 <= b10 < 0x100 && 0 <= b11 < 0x100 && 0 <= b12 < 0x100
    ensures Word(l9 + 0x40 * u9, b10, b11, b12) / 0x40 % 0x4000000 == u9 + 4 * b10 + 0x400 * b11 + 0x4_0000 * b12
  {
    assert Word(l9 + 0x40 * u9, b10, b11, b12) / 0x40 == u9 + 4 * b10 + 0x400 * b11 + 0x4_0000 * b12;
  }

  lemma Limb4(b12: int, b13: int, b14: int, b15: int)
    requires 0 <= b12 < 0x100
    ensures Word(b12, b13, b14, b15) / 0x100 == Word(b13, b14, b15, 0)
  {}

  lemma Assemble(b0: int, b1: int, b2: int, b3: int, b4: int, b5: int, b6: int, b7: int,
                 b8: int, b9: int, b10: int, b11: int, b12: int, b13: int, b14: int, b15: int,
                 l3: int, u3: int, l6: int, u6: int, l9: int, u9: int)
    requires b3 == l3 + 4 * u3 && b6 == l6 + 0x10 * u6 && b9 == l9 + 0x40 * u9
    ensures Bytes16(b0, b1, b2, b3, b4, b5, b6, b7, b8, b9, b10, b11, b12, b13, b14, b15) ==
            Radix26(Word(b0, b1, b2, l3), u3 + 0x40 * b4 + 0x4000 * b5 + 0x40_0000 * l6,
                    u6 + 0x10 * b7 + 0x1000 * b8 + 0x10_0000 * l9,
                    u9 + 4 * b10 + 0x400 * b11 + 0x4_0000 * b12, Word(b13, b14, b15, 0))
  {}

  // The clamping of section 2.5 of RFC 8439: the top four bits of bytes 3, 7, 11 and 15 and the
  // bottom two bits of bytes 4, 8 and 12 are cleared.
  function ClampBytes(k: seq<byte>): (c: seq<byte>)
    requires |k| == 16
    ensures |c| == 16
  {
    [k[0], k[1], k[2], k[3] % 0x10, k[4] / 4 * 4, k[5], k[6], k[7] % 0x10,
     k[8] / 4 * 4, k[9], k[10], k[11] % 0x10, k[12] / 4 * 4, k[13], k[14], k[15] % 0x10]
  }

  // poly1305_init_core masks each 26-bit limb of the key.
  method InitR(key: seq<byte>) returns (r: Limbs)
    requires |key| == 16
    ensures Clamped(r)
    ensures Value(r) == Le(ClampBytes(key))
  {
    Pow2Values();
    ghost var l3, v3, w3 := Split3(key[3]);
    ghost var z4, h4 := ShareExact(key[4], 4);
    ghost var l6, u6 := Share(key[6], 0x10);
    ghost var l7, w7 := ShareExact(key[7], 0x10);
    ghost var z8, h8 := ShareExact(key[8], 4);
    ghost var l9, u9 := Share(key[9], 0x40);
    ghost var l11, w11 := ShareExact(key[11], 0x10);
    ghost var z12, h12 := ShareExact(key[12], 4);
    ghost var l15, w15 := ShareExact(key[15], 0x10);
    var b0, b1, b2, b5, b10, b13, b14 := key[0], key[1], key[2], key[5], key[10], key[13], key[14];
    var r0 := MaskLimb(Le32(key, 0), 0x3ffffff, 26, 0x4000000, 32, 0x1_0000_0000, 0, 1,
                       Word(b0, b1, b2, l3), v3 + 4 * w3, 0, 0);
    var r1 := MaskLimb(Le32(key, 3) / 4, 0x3ffff03, 2, 4, 8, 0x100, 18, 0x40000,
                       v3, w3 + 0x10 * z4, h4 + 0x40 * b5 + 0x4000 * l6, u6);
    var r2 := MaskLimb(Le32(key, 6) / 0x10, 0x3ffc0ff, 8, 0x100, 14, 0x4000, 12, 0x1000,
                       u6 + 0x10 * l7, w7 + 0x10 * z8, h8 + 0x40 * l9, u9);
    var r3 := MaskLimb(Le32(key, 9) / 0x40, 0x3f03fff, 14, 0x4000, 20, 0x100000, 6, 0x40,
                       u9 + 4 * b10 + 0x400 * l11, w11 + 0x10 * z12, h12, 0);
    var r4 := MaskLimb(Le32(key, 12) / 0x100, 0x00fffff, 20, 0x100000, 24, 0x1000000, 0, 1,
                       Word(b13, b14, l15, 0), w15, 0, 0);
    r := Limbs(r0, r1, r2, r3, r4);
    AssembleClamped(b0, b1, b2, b5, b10, b13, b14, l3, v3, h4, l6, u6, l7, h8, l9, u9, l11, h12, l15);
    LeOf16(ClampBytes(key));
  }

  // x & mask, where mask is a ones, then zeros up to bit b, then n ones, and x is cut accordingly
  method MaskLimb(x: nat, mask: nat, ghost a: nat, ghost ma: nat, ghost b: nat, ghost mb: nat, ghost n: nat,
                  ghost mn: nat, ghost low: nat, ghost middle: nat, ghost high: nat, ghost rest: nat)
    returns (r: nat)
    requires ma == Pow2(a) && mb == Pow2(b) && mn == Pow2(n) && mask == ma - 1 + mb * (mn - 1)
    requires low < ma <= mb && low + ma * middle < mb && high < mn
    requires x == low + ma * middle + mb * (high + mn * rest)
    ensures r == low + mb * high
  {
    r := And(x, mask);
    AndSplit(x, low + ma * middle, high + mn * rest, mask, ma - 1, mn - 1, b);
    AndMaskOf(low + ma * middle, low, middle, a);
    AndMaskOf(high + mn * rest, high, rest, n);
  }

  // Byte 3 is two bits of limb 0, two bits of limb 1 and four cleared bits.
  lemma Split3(b: byte) returns (low: nat, middle: nat, high: nat)
    ensures b == low + 4 * middle + 0x10 * high && low < 4 && middle < 4
    ensures b % 0x10 == low + 4 * middle
  {
    low, middle, high := b % 4, b / 4 % 4, b / 0x10;
  }

  lemma AssembleClamped(b0: int, b1: int, b2: int, b5: int, b10: int, b13: int, b14: int, l3: int, v3: int, h4: int,
                        l6: int, u6: int, l7: int, h8: int, l9: int, u9: int, l11: int, h12: int, l15: int)
    ensures Radix26(Word(b0, b1, b2, l3), v3 + 0x100 * (h4 + 0x40 * b5 + 0x4000 * l6),
                    u6 + 0x10 * l7 + 0x4000 * (h8 + 0x40 * l9),
                    u9 + 4 * b10 + 0x400 * l11 + 0x100000 * h12, Word(b13, b14, l15, 0)) ==
            Bytes16(b0, b1, b2, l3 + 4 * v3, h4 * 4, b5, l6 + 0x10 * u6, l7,
                    h8 * 4, l9 + 0x40 * u9, b10, l11, h12 * 4, b13, b14, l15)
  {}

  // poly1305_emit_core: full carry, reduction below p, then addition of the nonce modulo 2^128
  method Emit(h: Limbs, n0: u32, n1: u32, n2: u32, n3: u32) returns (mac: seq<byte>)
    requires Carried(h)
    ensures |mac| == 16
    ensures Le(mac) == (Value(h) % P1305 + Words4(n0, n1, n2, n3)) % TWO128
  {
    hide Value, Words4, Canonical26, Carried, Le;
    var full := FullCarry(h);
    var g := Reduce(full);
    var w0, w1, w2, w3 := PackWords(g);
    mac := AddNonce(w0, w1, w2, w3, n0, n1, n2, n3);
    DropTop(Value(g), Words4(w0, w1, w2, w3), Words4(n0, n1, n2, n3), g.h4 / 0x1000000);
  }

  lemma DropTop(v: int, w: int, n: int, top: int)
    requires w == v - 0x1_00000000_00000000_00000000_00000000 * top
    ensures (w + n) % TWO128 == (v + n) % TWO128
  {
    ModShift(w + n, v + n, top, TWO128);
  }

  ghost function Words4(w0: int, w1: int, w2: int, w3: int): int {
    w0 + 0x1_00000000 * w1 + 0x1_00000000_00000000 * w2 + 0x1_00000000_00000000_00000000 * w3
  }

  ghost predicate Canonical26(h: Limbs) {
    h.h0 < 0x4000000 && h.h1 < 0x4000000 && h.h2 < 0x4000000 && h.h3 < 0x4000000 && h.h4 < 0x4000000
  }

  // One pass is enough: a carry out of limb 4 leaves limb 1 below 64.
  method FullCarry(h: Limbs) returns (g: Limbs)
    requires Carried(h)
    ensures Canonical26(g)
    ensures Value(g) % P1305 == Value(h) % P1305
  {
    var c: u32 := h.h1 / 0x4000000;
    var h1: u32 := h.h1 % 0x4000000;
    var e2: u32 := h.h2 + c;
    c := e2 / 0x4000000;
    var h2: u32 := e2 % 0x4000000;
    var e3: u32 := h.h3 + c;
    c := e3 / 0x4000000;
    var h3: u32 := e3 % 0x4000000;
    var e4: u32 := h.h4 + c;
    var top: u32 := e4 / 0x4000000;
    var h4: u32 := e4 % 0x4000000;
    var e0: u32 := h.h0 + top * 5;
    c := e0 / 0x4000000;
    g := Limbs(e0 % 0x4000000, h1 + c, h2, h3, h4);
    assert Value(g) == Value(h) - 0x3_ffffffff_ffffffff_ffffffff_fffffffb * top;
    ModShift(Value(g), Value(h), top, P1305);
  }

  // Compute h - p and keep it unless it is negative, selecting with a mask.
  method Reduce(h: Limbs) returns (r: Limbs)
    requires Canonical26(h)
    ensures Canonical26(r)
    ensures Value(r) == Value(h) % P1305
  {
    var g0, c0 := CarryLimb(h.h0, 5);
    var g1, c1 := CarryLimb(h.h1, c0);
    var g2, c2 := CarryLimb(h.h2, c1);
    var g3, c3 := CarryLimb(h.h3, c2);
    var g4, mask := TopMask(h.h4, c3);
    ghost var excess := Radix26(g0, g1, g2, g3, h.h4 + c3);
    assert excess == Value(h) + 5;
    var r0 := Select(mask, h.h0, g0);
    var r1 := Select(mask, h.h1, g1);
    var r2 := Select(mask, h.h2, g2);
    var r3 := Select(mask, h.h3, g3);
    var r4 := Select(mask, h.h4, g4);
    r := Limbs(r0, r1, r2, r3, r4);
    DivUnique(Value(h), P1305, if mask == 0 then 0 else 1, Value(r));
  }

  method CarryLimb(h: u32, c: u32) returns (low: u32, carry: u32)
    requires h < 0x4000000 && c <= 5
    ensures low < 0x4000000 && carry <= 1 && low + 0x4000000 * carry == h + c
  {
    var e: u32 := h + c;
    low, carry := e % 0x4000000, e / 0x4000000;
  }

  // g4 is h4 + c - 2^26 with wrap-around; the mask is all ones exactly when that is not negative.
  method TopMask(h4: u32, c: u32) returns (g4: u32, mask: u32)
    requires h4 < 0x4000000 && c <= 1
    ensures if h4 + c == 0x4000000 then g4 == 0 && mask == 0xffff_ffff else mask == 0
  {
    g4 := (h4 + c - 0x4000000) % 0x1_0000_0000;
    mask := (g4 / 0x8000_0000 - 1) % 0x1_0000_0000;
  }

  // (h & ~mask) | (g & mask)
  method Select(mask: u32, h: u32, g: u32) returns (r: u32)
    requires mask == 0 || mask == 0xffff_ffff
    ensures r == if mask == 0 then h else g
  {
    AllOnes(h);
    AllOnes(g);
    AndCommutes(h, 0xffff_ffff);
    AndCommutes(g, 0xffff_ffff);
    AndZero(h);
    AndZero(g);
    OrZero(g);
    OrCommutesWithZero(h);
    r := Or(And(h, 0xffff_ffff - mask), And(g, mask));
  }

  // h % 2^128 as four words
  method PackWords(h: Limbs) returns (w0: u32, w1: u32, w2: u32, w3: u32)
    requires Canonical26(h)
    ensures Words4(w0, w1, w2, w3) == Value(h) - 0x1_00000000_00000000_00000000_00000000 * (h.h4 / 0x1000000)
  {
    Pow2Values();
    w0 := PackWord(h.h0, h.h1, 26, 0x4000000, 0x40);
    w1 := PackWord(h.h1 / 0x40, h.h2, 20, 0x100000, 0x1000);
    w2 := PackWord(h.h2 / 0x1000, h.h3, 14, 0x4000, 0x40000);
    w3 := PackWord(h.h3 / 0x40000, h.h4, 8, 0x100, 0x1000000);
  }

  // (low | high << k) & 0xffffffff on 32-bit words, where m = 2^k and n = 2^(32 - k)
  method PackWord(low: u32, high: u32, k: nat, m: nat, n: nat) returns (w: u32)
    requires m == Pow2(k) && low < m && m * n == 0x1_0000_0000
    ensures w == low + m * (high % n)
  {
    var x, r := ShiftLeft(high, m, n);
    OrDisjoint(low, r, k);
    w := Or(low, x);
  }

  // high << k truncated to 32 bits
  method ShiftLeft(high: u32, m: nat, n: nat) returns (x: u32, ghost r: nat)
    requires m * n == 0x1_0000_0000
    ensures r == high % n && x == m * r && x + m <= 0x1_0000_0000
  {
    x := m * high % 0x1_0000_0000;
    r := high % n;
    DivMod(high, n);
    HighPart(high / n, r, m, n, m * high);
  }

  lemma HighPart(q: nat, r: nat, m: nat, n: nat, x: nat)
    requires r < n && m * n == 0x1_0000_0000 && x == m * (r + n * q)
    ensures x % 0x1_0000_0000 == m * r <= 0x1_0000_0000 - m
  {
    assert m * (r + n * q) == (m * n) * q + m * r;
    assert m * r <= m * (n - 1) == m * n - m;
    assert m > 0;
    DivUnique(x, 0x1_0000_0000, q, m * r);
  }

  method AddNonce(w0: u32, w1: u32, w2: u32, w3: u32, n0: u32, n1: u32, n2: u32, n3: u32) returns (mac: seq<byte>)
    ensures |mac| == 16
    ensures Le(mac) == (Words4(w0, w1, w2, w3) + Words4(n0, n1, n2, n3)) % TWO128
  {
    var h0, c0 := AddWord(w0, n0, 0);
    var h1, c1 := AddWord(w1, n1, c0);
    var h2, c2 := AddWord(w2, n2, c1);
    var h3, c3 := AddWord(w3, n3, c2);
    CarryOut(Words4(w0, w1, w2, w3) + Words4(n0, n1, n2, n3), h0, h1, h2, h3, c3);
    mac := PutWords(h0, h1, h2, h3);
  }

  method AddWord(w: u32, n: u32, c: u32) returns (h: u32, carry: u32)
    requires c <= 1
    ensures carry <= 1 && h + 0x1_0000_0000 * carry == w + n + c
  {
    var f: u64 := w + n + c;
    h, carry := f % 0x1_0000_0000, f / 0x1_0000_0000;
  }

  lemma CarryOut(sum: int, h0: u32, h1: u32, h2: u32, h3: u32, carry: int)
    requires sum == Words4(h0, h1, h2, h3) + 0x1_00000000_00000000_00000000_00000000 * carry
    ensures Words4(h0, h1, h2, h3) == sum % TWO128
  {
    DivUnique(sum, TWO128, carry, Words4(h0, h1, h2, h3));
  }

  method PutWords(w0: u32, w1: u32, w2: u32, w3: u32) returns (mac: seq<byte>)
    ensures |mac| == 16
    ensures Le(mac) == Words4(w0, w1, w2, w3)
  {
    mac := PutLe32(w0) + PutLe32(w1) + PutLe32(w2) + PutLe32(w3);
    LeOfPuts(w0, w1, w2, w3);
  }
}
