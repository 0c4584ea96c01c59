/**
 Arithmetic in the field of integers modulo 2^255 - 19 on ten limbs of alternately 26 and
 25 bits (src/crypto.c:941-952, src/crypto.c:1149-1467, src/crypto.c:1554-1667).

 Every C intermediate is a `u32` or `u64` variable, so verification of these methods is
 also the proof that no intermediate wraps. All terms of a C sum are non-negative, hence a
 sum that is in range has all its partial sums in range.
 */
module Field25519 {
  import opened Arith
  import opened Machine

  // 2^255 - 19
  const P: int := 0x7fffffff_ffffffff_ffffffff_ffffffff_ffffffff_ffffffff_ffffffff_ffffffed

  // The ten 32-bit words of a C `fe` or `fe_loose`.
  datatype Fe = Fe(v0: u32, v1: u32, v2: u32, v3: u32, v4: u32, v5: u32, v6: u32, v7: u32, v8: u32, v9: u32)

  // Ten 64-bit column sums, before carrying.
  datatype Wide = Wide(c0: u64, c1: u64, c2: u64, c3: u64, c4: u64, c5: u64, c6: u64, c7: u64, c8: u64,
                       c9: u64)

  // The products of one limb with the ten limbs of the other operand.
  datatype Row = Row(p0: int, p1: int, p2: int, p3: int, p4: int, p5: int, p6: int, p7: int, p8: int, p9: int)

  // The weight of limb i is 2^ceil(25.5 i).
  ghost function Radix(x0: int, x1: int, x2: int, x3: int, x4: int, x5: int, x6: int, x7: int, x8: int,
                       x9: int): int
  {
    x0 + 0x4000000 * x1 + 0x8000000000000 * x2 + 0x20000000000000000000 * x3 +
    0x40000000000000000000000000 * x4 + 0x100000000000000000000000000000000 * x5 +
    0x200000000000000000000000000000000000000 * x6 +
    0x800000000000000000000000000000000000000000000 * x7 +
    0x1000000000000000000000000000000000000000000000000000 * x8 +
    0x4000000000000000000000000000000000000000000000000000000000 * x9
  }

  // The value of a limb vector: limbs of 26 and 25 bits in turn, least significant first.
  ghost function Val(f: Fe): int {
    Mixed26([f.v0, f.v1, f.v2, f.v3, f.v4, f.v5, f.v6, f.v7, f.v8, f.v9])
  }

  ghost function Mixed26(s: seq<int>): int {
    if s == [] then 0 else s[0] + 0x4000000 * Mixed25(s[1..])
  }

  ghost function Mixed25(s: seq<int>): int {
    if s == [] then 0 else s[0] + 0x2000000 * Mixed26(s[1..])
  }

  // Val written out as one sum
  lemma Expand(f: Fe)
    ensures Val(f) == Radix(f.v0, f.v1, f.v2, f.v3, f.v4, f.v5, f.v6, f.v7, f.v8, f.v9)
  {
    hide Mixed26, Mixed25;
    var s: seq<int> := [f.v0, f.v1, f.v2, f.v3, f.v4, f.v5, f.v6, f.v7, f.v8, f.v9];
    Tail26(s, 0);
    Tail25(s, 1);
    Tail26(s, 2);
    Tail25(s, 3);
    Tail26(s, 4);
    Tail25(s, 5);
    Tail26(s, 6);
    Tail25(s, 7);
    Tail26(s, 8);
    Tail25(s, 9);
    MixedNone(s[10..]);
    assert s[0..] == s;
    hide Radix;
    Nested(f, Mixed26(s[0..]), Mixed25(s[1..]), Mixed26(s[2..]), Mixed25(s[3..]), Mixed26(s[4..]), Mixed25(s[5..]),
           Mixed26(s[6..]), Mixed25(s[7..]), Mixed26(s[8..]), Mixed25(s[9..]));
  }

  lemma Nested(f: Fe, m0: int, m1: int, m2: int, m3: int, m4: int, m5: int, m6: int, m7: int, m8: int, m9: int)
    requires m0 == f.v0 + 0x4000000 * m1 && m1 == f.v1 + 0x2000000 * m2 && m2 == f.v2 + 0x4000000 * m3
    requires m3 == f.v3 + 0x2000000 * m4 && m4 == f.v4 + 0x4000000 * m5 && m5 == f.v5 + 0x2000000 * m6
    requires m6 == f.v6 + 0x4000000 * m7 && m7 == f.v7 + 0x2000000 * m8 && m8 == f.v8 + 0x4000000 * m9 && m9 == f.v9
    ensures m0 == Radix(f.v0, f.v1, f.v2, f.v3, f.v4, f.v5, f.v6, f.v7, f.v8, f.v9)
  {}

  lemma MixedNone(s: seq<int>)
    requires s == []
    ensures Mixed26(s) == 0
  {}

  lemma Tail26(s: seq<int>, i: nat)
    requires i < |s|
    ensures Mixed26(s[i..]) == s[i] + 0x4000000 * Mixed25(s[i + 1..])
  {
    assert s[i..][1..] == s[i + 1..];
  }

  lemma Tail25(s: seq<int>, i: nat)
    requires i < |s|
    ensures Mixed25(s[i..]) == s[i] + 0x2000000 * Mixed26(s[i + 1..])
  {
    assert s[i..][1..] == s[i + 1..];
  }

  ghost function WideVal(c: Wide): int {
    Radix(c.c0, c.c1, c.c2, c.c3, c.c4, c.c5, c.c6, c.c7, c.c8, c.c9)
  }

  ghost function RowVal(r: Row): int {
    Radix(r.p0, r.p1, r.p2, r.p3, r.p4, r.p5, r.p6, r.p7, r.p8, r.p9)
  }

  // Limbs of an `fe`: at most 1.125 * 2^26 and 1.125 * 2^25.
  ghost predicate Tight(f: Fe) {
    && f.v0 <= 0x4800000 && f.v2 <= 0x4800000 && f.v4 <= 0x4800000 && f.v6 <= 0x4800000 && f.v8 <= 0x4800000
    && f.v1 <= 0x2400000 && f.v3 <= 0x2400000 && f.v5 <= 0x2400000 && f.v7 <= 0x2400000 && f.v9 <= 0x2400000
  }

  // Limbs of an `fe_loose`: at most 3.375 * 2^26 and 3.375 * 2^25.
  ghost predicate Loose(f: Fe) {
    && f.v0 <= 0xd800000 && f.v2 <= 0xd800000 && f.v4 <= 0xd800000 && f.v6 <= 0xd800000 && f.v8 <= 0xd800000
    && f.v1 <= 0x6c00000 && f.v3 <= 0x6c00000 && f.v5 <= 0x6c00000 && f.v7 <= 0x6c00000 && f.v9 <= 0x6c00000
  }

  // Column sums that leave room for an incoming carry in 64 bits.
  ghost predicate Carriable(c: Wide) {
    && c.c0 <= COLUMN_MAX && c.c1 <= COLUMN_MAX && c.c2 <= COLUMN_MAX && c.c3 <= COLUMN_MAX && c.c4 <= COLUMN_MAX
    && c.c5 <= COLUMN_MAX && c.c6 <= COLUMN_MAX && c.c7 <= COLUMN_MAX && c.c8 <= COLUMN_MAX && c.c9 <= COLUMN_MAX
  }

  const COLUMN_MAX: int := 0x6000_0000_0000_0000

  // h = f + g
  method FeAdd(f: Fe, g: Fe) returns (h: Fe)
    requires Tight(f) && Tight(g)
    ensures Loose(h) && Val(h) == Val(f) + Val(g)
  {
    Expand(f);
    Expand(g);
    h := Fe(f.v0 + g.v0, f.v1 + g.v1, f.v2 + g.v2, f.v3 + g.v3, f.v4 + g.v4, f.v5 + g.v5, f.v6 + g.v6,
            f.v7 + g.v7, f.v8 + g.v8, f.v9 + g.v9);
    Expand(h);
  }

  // h = f - g, biased by 2p so that no limb underflows
  method FeSub(f: Fe, g: Fe) returns (h: Fe)
    requires Tight(f) && Tight(g)
    ensures Loose(h) && Val(h) == Val(f) - Val(g) + 2 * P
  {
    var b0: u32 := 0x7ffffda + f.v0;
    var b1: u32 := 0x3fffffe + f.v1;
    var b2: u32 := 0x7fffffe + f.v2;
    var b3: u32 := 0x3fffffe + f.v3;
    var b4: u32 := 0x7fffffe + f.v4;
    var b5: u32 := 0x3fffffe + f.v5;
    var b6: u32 := 0x7fffffe + f.v6;
    var b7: u32 := 0x3fffffe + f.v7;
    var b8: u32 := 0x7fffffe + f.v8;
    var b9: u32 := 0x3fffffe + f.v9;
    Expand(f);
    Expand(g);
    h := Fe(b0 - g.v0, b1 - g.v1, b2 - g.v2, b3 - g.v3, b4 - g.v4, b5 - g.v5, b6 - g.v6, b7 - g.v7,
            b8 - g.v8, b9 - g.v9);
    Expand(h);
  }

  // The carry chain that ends fe_mul_impl, fe_sqr_impl and fe_mul_121666_impl: one pass over
  // the ten columns, the carry out of the top folded back as 19, and two more carries.
  method CarryChain(c: Wide) returns (r: Fe, ghost top: int)
    requires Carriable(c)
    ensures Tight(r)
    ensures Val(r) == WideVal(c) - P * top
  {
    var t0: u64 := c.c0;
    var l0: u32 := t0 % 0x4000000;
    var t1: u64 := t0 / 0x4000000 + c.c1;
    var l1: u32 := t1 % 0x2000000;
    var t2: u64 := t1 / 0x2000000 + c.c2;
    var l2: u32 := t2 % 0x4000000;
    var t3: u64 := t2 / 0x4000000 + c.c3;
    var l3: u32 := t3 % 0x2000000;
    var t4: u64 := t3 / 0x2000000 + c.c4;
    var l4: u32 := t4 % 0x4000000;
    var t5: u64 := t4 / 0x4000000 + c.c5;
    var l5: u32 := t5 % 0x2000000;
    var t6: u64 := t5 / 0x2000000 + c.c6;
    var l6: u32 := t6 % 0x4000000;
    var t7: u64 := t6 / 0x4000000 + c.c7;
    var l7: u32 := t7 % 0x2000000;
    var t8: u64 := t7 / 0x2000000 + c.c8;
    var l8: u32 := t8 % 0x4000000;
    var t9: u64 := t8 / 0x4000000 + c.c9;
    var l9: u32 := t9 % 0x2000000;
    var carryOut: u64 := t9 / 0x2000000;
    var wrapped: u64 := l0 + 0x13 * carryOut;
    var carry: u32 := wrapped / 0x4000000;
    var second: u32 := carry + l1;
    r := Fe(wrapped % 0x4000000, second % 0x2000000, second / 0x2000000 + l2, l3, l4, l5, l6, l7, l8, l9);

    top := carryOut;
    Expand(r);
    assert WideVal(c) == Radix(l0, l1, l2, l3, l4, l5, l6, l7, l8, l9 + 0x2000000 * top);
    assert Val(r) == WideVal(c) - 0x7fffffff_ffffffff_ffffffff_ffffffff_ffffffff_ffffffff_ffffffff_ffffffed * top;
  }

  // h = f * g
  method FeMul(f: Fe, g: Fe) returns (h: Fe)
    requires Loose(f) && Loose(g)
    ensures Tight(h)
    ensures Val(h) % P == Val(f) * Val(g) % P
  {
    var c := MulColumns(f, g);
    ghost var top;
    h, top := CarryChain(c);
    ProductValue(f, g);
    SameRemainder(Val(h), WideVal(c), Val(f) * Val(g), top, High(AllColumns(f, g)));
  }

  lemma SameRemainder(r: int, w: int, v: int, top: int, high: int)
    requires r == w - P * top && w == v - P * high
    ensures r % P == v % P
  {
    ModShift(r, w, top, P);
    ModShift(w, v, high, P);
  }

  // The column sums of fe_mul_impl. Columns c10..c18, of weight 2^255 and above, are folded
  // back with the factor 19 = 16 + 2 + 1.
  method MulColumns(f: Fe, g: Fe) returns (c: Wide)
    requires Loose(f) && Loose(g)
    ensures Carriable(c)
    ensures WideVal(c) == Low(AllColumns(f, g)) + 19 * High(AllColumns(f, g))
  {
    ProductBounds(f, g);
    var b1x2: u32 := 2 * g.v1;
    var b9x2: u32 := 2 * g.v9;
    Regroup(2, g.v1, f.v1);
    Regroup(2, g.v9, f.v9);
    var c0: u64 := f.v0 * g.v0;
    var c1: u64 := f.v0 * g.v1 + f.v1 * g.v0;
    var c2: u64 := f.v0 * g.v2 + b1x2 * f.v1 + f.v2 * g.v0;
    var c3: u64 := f.v0 * g.v3 + f.v1 * g.v2 + f.v2 * g.v1 + f.v3 * g.v0;
    var c4: u64 := f.v0 * g.v4 + 2 * (f.v1 * g.v3) + f.v2 * g.v2 + 2 * (f.v3 * g.v1) + f.v4 * g.v0;
    var c5: u64 := f.v0 * g.v5 + f.v1 * g.v4 + f.v2 * g.v3 + f.v3 * g.v2 + f.v4 * g.v1 + f.v5 * g.v0;
    var c6: u64 := f.v0 * g.v6 + 2 * (f.v1 * g.v5) + f.v2 * g.v4 + 2 * (f.v3 * g.v3) + f.v4 * g.v2 +
      2 * (f.v5 * g.v1) + f.v6 * g.v0;
    var c7: u64 := f.v0 * g.v7 + f.v1 * g.v6 + f.v2 * g.v5 + f.v3 * g.v4 + f.v4 * g.v3 + f.v5 * g.v2 +
      f.v6 * g.v1 + f.v7 * g.v0;
    var c8: u64 := f.v0 * g.v8 + 2 * (f.v1 * g.v7) + f.v2 * g.v6 + 2 * (f.v3 * g.v5) + f.v4 * g.v4 +
      2 * (f.v5 * g.v3) + f.v6 * g.v2 + 2 * (f.v7 * g.v1) + f.v8 * g.v0;
    var c9: u64 := f.v0 * g.v9 + f.v1 * g.v8 + f.v2 * g.v7 + f.v3 * g.v6 + f.v4 * g.v5 + f.v5 * g.v4 +
      f.v6 * g.v3 + f.v7 * g.v2 + f.v8 * g.v1 + f.v9 * g.v0;
    var c10: u64 := 2 * (f.v1 * g.v9) + f.v2 * g.v8 + 2 * (f.v3 * g.v7) + f.v4 * g.v6 + 2 * (f.v5 * g.v5) +
      f.v6 * g.v4 + 2 * (f.v7 * g.v3) + f.v8 * g.v2 + 2 * (f.v9 * g.v1);
    var c11: u64 := f.v2 * g.v9 + f.v3 * g.v8 + f.v4 * g.v7 + f.v5 * g.v6 + f.v6 * g.v5 + f.v7 * g.v4 +
      f.v8 * g.v3 + f.v9 * g.v2;
    var c12: u64 := 2 * (f.v3 * g.v9) + f.v4 * g.v8 + 2 * (f.v5 * g.v7) + f.v6 * g.v6 + 2 * (f.v7 * g.v5) +
      f.v8 * g.v4 + 2 * (f.v9 * g.v3);
    var c13: u64 := f.v4 * g.v9 + f.v5 * g.v8 + f.v6 * g.v7 + f.v7 * g.v6 + f.v8 * g.v5 + f.v9 * g.v4;
    var c14: u64 := 2 * (f.v5 * g.v9) + f.v6 * g.v8 + 2 * (f.v7 * g.v7) + f.v8 * g.v6 + 2 * (f.v9 * g.v5);
    var c15: u64 := f.v6 * g.v9 + f.v7 * g.v8 + f.v8 * g.v7 + f.v9 * g.v6;
    var c16: u64 := 2 * (f.v7 * g.v9) + f.v8 * g.v8 + 2 * (f.v9 * g.v7);
    var c17: u64 := f.v8 * g.v9 + f.v9 * g.v8;
    var c18: u64 := b9x2 * f.v9;
    var d0: u64 := c0 + 16 * c10 + 2 * c10 + c10;
    var d1: u64 := c1 + 16 * c11 + 2 * c11 + c11;
    var d2: u64 := c2 + 16 * c12 + 2 * c12 + c12;
    var d3: u64 := c3 + 16 * c13 + 2 * c13 + c13;
    var d4: u64 := c4 + 16 * c14 + 2 * c14 + c14;
    var d5: u64 := c5 + 16 * c15 + 2 * c15 + c15;
    var d6: u64 := c6 + 16 * c16 + 2 * c16 + c16;
    var d7: u64 := c7 + 16 * c17 + 2 * c17 + c17;
    var d8: u64 := c8 + 16 * c18 + 2 * c18 + c18;
    c := Wide(d0, d1, d2, d3, d4, d5, d6, d7, d8, c9);

    ghost var columns := Columns(c0, c1, c2, c3, c4, c5, c6, c7, c8, c9, c10, c11, c12, c13, c14, c15, c16, c17, c18);
    assert columns == AllColumns(f, g);
    FoldValue(columns, c);
  }

  // h = f * f
  method FeSqr(f: Fe) returns (h: Fe)
    requires Loose(f)
    ensures Tight(h)
    ensures Val(h) % P == Val(f) * Val(f) % P
  {
    var c := SqrColumns(f);
    ghost var top;
    h, top := CarryChain(c);
    ProductValue(f, f);
    SameRemainder(Val(h), WideVal(c), Val(f) * Val(f), top, High(AllColumns(f, f)));
  }

  // The column sums of fe_sqr_impl, where each product of two different limbs is computed once.
  method SqrColumns(f: Fe) returns (c: Wide)
    requires Loose(f)
    ensures Carriable(c)
    ensures WideVal(c) == Low(AllColumns(f, f)) + 19 * High(AllColumns(f, f))
  {
    ProductBounds(f, f);
    var a0x2: u32 := 2 * f.v0;
    var a1x4: u32 := 4 * f.v1;
    var a1x2: u32 := 2 * f.v1;
    var a5x2: u32 := 2 * f.v5;
    var a7x4: u32 := 4 * f.v7;
    var a8x2: u32 := 2 * f.v8;
    var a9x2: u32 := 2 * f.v9;
    Regroup(2, f.v0, f.v1);
    Regroup(2, f.v0, f.v4);
    Regroup(4, f.v1, f.v3);
    Regroup(2, f.v1, f.v5);
    Regroup(2, f.v5, f.v9);
    Regroup(4, f.v7, f.v9);
    Regroup(2, f.v8, f.v9);
    Regroup(2, f.v9, f.v9);
    var c0: u64 := f.v0 * f.v0;
    var c1: u64 := a0x2 * f.v1;
    var c2: u64 := 2 * (f.v1 * f.v1 + f.v0 * f.v2);
    var c3: u64 := 2 * (f.v1 * f.v2 + f.v0 * f.v3);
    var c4: u64 := f.v2 * f.v2 + a1x4 * f.v3 + a0x2 * f.v4;
    var c5: u64 := 2 * (f.v2 * f.v3 + f.v1 * f.v4 + f.v0 * f.v5);
    var c6: u64 := 2 * (f.v3 * f.v3 + f.v2 * f.v4 + f.v0 * f.v6 + a1x2 * f.v5);
    var c7: u64 := 2 * (f.v3 * f.v4 + f.v2 * f.v5 + f.v1 * f.v6 + f.v0 * f.v7);
    var c8: u64 := f.v4 * f.v4 + (2 * (f.v2 * f.v6 + f.v0 * f.v8 + (2 * (f.v1 * f.v7 + f.v3 * f.v5))));
    var c9: u64 := 2 * (f.v4 * f.v5 + f.v3 * f.v6 + f.v2 * f.v7 + f.v1 * f.v8 + f.v0 * f.v9);
    var c10: u64 := 2 * (f.v5 * f.v5 + f.v4 * f.v6 + f.v2 * f.v8 + (2 * (f.v3 * f.v7 + f.v1 * f.v9)));
    var c11: u64 := 2 * (f.v5 * f.v6 + f.v4 * f.v7 + f.v3 * f.v8 + f.v2 * f.v9);
    var c12: u64 := f.v6 * f.v6 + (2 * (f.v4 * f.v8 + (2 * (f.v5 * f.v7 + f.v3 * f.v9))));
    var c13: u64 := 2 * (f.v6 * f.v7 + f.v5 * f.v8 + f.v4 * f.v9);
    var c14: u64 := 2 * (f.v7 * f.v7 + f.v6 * f.v8 + a5x2 * f.v9);
    var c15: u64 := 2 * (f.v7 * f.v8 + f.v6 * f.v9);
    var c16: u64 := f.v8 * f.v8 + a7x4 * f.v9;
    var c17: u64 := a8x2 * f.v9;
    var c18: u64 := a9x2 * f.v9;
    var d0: u64 := c0 + 16 * c10 + 2 * c10 + c10;
    var d1: u64 := c1 + 16 * c11 + 2 * c11 + c11;
    var d2: u64 := c2 + 16 * c12 + 2 * c12 + c12;
    var d3: u64 := c3 + 16 * c13 + 2 * c13 + c13;
    var d4: u64 := c4 + 16 * c14 + 2 * c14 + c14;
    var d5: u64 := c5 + 16 * c15 + 2 * c15 + c15;
    var d6: u64 := c6 + 16 * c16 + 2 * c16 + c16;
    var d7: u64 := c7 + 16 * c17 + 2 * c17 + c17;
    var d8: u64 := c8 + 16 * c18 + 2 * c18 + c18;
    c := Wide(d0, d1, d2, d3, d4, d5, d6, d7, d8, c9);

    ghost var columns := Columns(c0, c1, c2, c3, c4, c5, c6, c7, c8, c9, c10, c11, c12, c13, c14, c15, c16, c17, c18);
    assert columns == AllColumns(f, f);
    FoldValue(columns, c);
  }

  // h = 121666 * f: the multiplication with the other operand fixed
  method FeMul121666(f: Fe) returns (h: Fe)
    requires Loose(f)
    ensures Tight(h)
    ensures Val(h) % P == 121666 * Val(f) % P
  {
    var g := Fe(121666, 0, 0, 0, 0, 0, 0, 0, 0, 0);
    Expand(g);
    h := FeMul(f, g);
  }

  // The product of two field elements as an integer, low and high half of the columns

  datatype Products = Products(r0: Row, r1: Row, r2: Row, r3: Row, r4: Row, r5: Row, r6: Row, r7: Row, r8: Row, r9: Row)

  ghost function Scale(c: u32, g: Fe): Row {
    Row(c * g.v0, c * g.v1, c * g.v2, c * g.v3, c * g.v4, c * g.v5, c * g.v6, c * g.v7, c * g.v8, c * g.v9)
  }

  ghost function AllProducts(f: Fe, g: Fe): Products {
    Products(Scale(f.v0, g), Scale(f.v1, g), Scale(f.v2, g), Scale(f.v3, g), Scale(f.v4, g), Scale(f.v5, g),
             Scale(f.v6, g), Scale(f.v7, g), Scale(f.v8, g), Scale(f.v9, g))
  }

  // The nineteen columns of a product; columns 10 to 18 weigh 2^255 times columns 0 to 8.
  datatype Columns = Columns(c0: int, c1: int, c2: int, c3: int, c4: int, c5: int, c6: int, c7: int,
                             c8: int, c9: int, c10: int, c11: int, c12: int, c13: int, c14: int, c15: int,
                             c16: int, c17: int, c18: int)

  ghost function Low(c: Columns): int {
    Radix(c.c0, c.c1, c.c2, c.c3, c.c4, c.c5, c.c6, c.c7, c.c8, c.c9)
  }

  ghost function High(c: Columns): int {
    Radix(c.c10, c.c11, c.c12, c.c13, c.c14, c.c15, c.c16, c.c17, c.c18, 0)
  }

  ghost function Add(a: Columns, b: Columns): Columns {
    Columns(a.c0 + b.c0, a.c1 + b.c1, a.c2 + b.c2, a.c3 + b.c3, a.c4 + b.c4, a.c5 + b.c5, a.c6 + b.c6,
            a.c7 + b.c7, a.c8 + b.c8, a.c9 + b.c9, a.c10 + b.c10, a.c11 + b.c11, a.c12 + b.c12,
            a.c13 + b.c13, a.c14 + b.c14, a.c15 + b.c15, a.c16 + b.c16, a.c17 + b.c17, a.c18 + b.c18)
  }

  // What the even limbs of the first operand contribute to each column.
  ghost function EvenRows(m: Products): Columns {
    Columns(
      m.r0.p0,
      m.r0.p1,
      m.r0.p2 + m.r2.p0,
      m.r0.p3 + m.r2.p1,
      m.r0.p4 + m.r2.p2 + m.r4.p0,
      m.r0.p5 + m.r2.p3 + m.r4.p1,
      m.r0.p6 + m.r2.p4 + m.r4.p2 + m.r6.p0,
      m.r0.p7 + m.r2.p5 + m.r4.p3 + m.r6.p1,
      m.r0.p8 + m.r2.p6 + m.r4.p4 + m.r6.p2 + m.r8.p0,
      m.r0.p9 + m.r2.p7 + m.r4.p5 + m.r6.p3 + m.r8.p1,
      m.r2.p8 + m.r4.p6 + m.r6.p4 + m.r8.p2,
      m.r2.p9 + m.r4.p7 + m.r6.p5 + m.r8.p3,
      m.r4.p8 + m.r6.p6 + m.r8.p4,
      m.r4.p9 + m.r6.p7 + m.r8.p5,
      m.r6.p8 + m.r8.p6,
      m.r6.p9 + m.r8.p7,
      m.r8.p8,
      m.r8.p9,
      0)
  }

  // What the odd limbs contribute. Two odd limbs meet one bit above their column, hence the factor 2.
  ghost function OddRows(m: Products): Columns {
    Columns(
      0,
      m.r1.p0,
      2 * m.r1.p1,
      m.r1.p2 + m.r3.p0,
      2 * m.r1.p3 + 2 * m.r3.p1,
      m.r1.p4 + m.r3.p2 + m.r5.p0,
      2 * m.r1.p5 + 2 * m.r3.p3 + 2 * m.r5.p1,
      m.r1.p6 + m.r3.p4 + m.r5.p2 + m.r7.p0,
      2 * m.r1.p7 + 2 * m.r3.p5 + 2 * m.r5.p3 + 2 * m.r7.p1,
      m.r1.p8 + m.r3.p6 + m.r5.p4 + m.r7.p2 + m.r9.p0,
      2 * m.r1.p9 + 2 * m.r3.p7 + 2 * m.r5.p5 + 2 * m.r7.p3 + 2 * m.r9.p1,
      m.r3.p8 + m.r5.p6 + m.r7.p4 + m.r9.p2,
      2 * m.r3.p9 + 2 * m.r5.p7 + 2 * m.r7.p5 + 2 * m.r9.p3,
      m.r5.p8 + m.r7.p6 + m.r9.p4,
      2 * m.r5.p9 + 2 * m.r7.p7 + 2 * m.r9.p5,
      m.r7.p8 + m.r9.p6,
      2 * m.r7.p9 + 2 * m.r9.p7,
      m.r9.p8,
      2 * m.r9.p9)
  }

  ghost function AllColumns(f: Fe, g: Fe): Columns {
    Add(EvenRows(AllProducts(f, g)), OddRows(AllProducts(f, g)))
  }

  lemma ProductValue(f: Fe, g: Fe)
    ensures Val(f) * Val(g) == Low(AllColumns(f, g)) + 19 * High(AllColumns(f, g)) + P * High(AllColumns(f, g))
  {
    var m := AllProducts(f, g);
    Distribute(f, Val(g));
    ScaleValue(f.v0, g);
    ScaleValue(f.v1, g);
    ScaleValue(f.v2, g);
    ScaleValue(f.v3, g);
    ScaleValue(f.v4, g);
    ScaleValue(f.v5, g);
    ScaleValue(f.v6, g);
    ScaleValue(f.v7, g);
    ScaleValue(f.v8, g);
    ScaleValue(f.v9, g);
    EvenValue(m);
    OddValue(m);
    AddValue(EvenRows(m), OddRows(m));
  }

  lemma EvenValue(m: Products)
    ensures
      RowVal(m.r0) + 0x8000000000000 * RowVal(m.r2) + 0x40000000000000000000000000 * RowVal(m.r4) +
      0x200000000000000000000000000000000000000 * RowVal(m.r6) +
      0x1000000000000000000000000000000000000000000000000000 * RowVal(m.r8) ==
      Low(EvenRows(m)) + 0x80000000_00000000_00000000_00000000_00000000_00000000_00000000_00000000 * High(EvenRows(m))
  {}

  lemma OddValue(m: Products)
    ensures
      0x4000000 * RowVal(m.r1) + 0x20000000000000000000 * RowVal(m.r3) +
      0x100000000000000000000000000000000 * RowVal(m.r5) +
      0x800000000000000000000000000000000000000000000 * RowVal(m.r7) +
      0x4000000000000000000000000000000000000000000000000000000000 * RowVal(m.r9) ==
      Low(OddRows(m)) + 0x80000000_00000000_00000000_00000000_00000000_00000000_00000000_00000000 * High(OddRows(m))
  {}

  lemma AddValue(a: Columns, b: Columns)
    ensures Low(Add(a, b)) == Low(a) + Low(b) && High(Add(a, b)) == High(a) + High(b)
  {}

  // Folding the high columns onto the low ones multiplies them by 19.
  lemma FoldValue(c: Columns, w: Wide)
    requires
      && w.c0 == c.c0 + 19 * c.c10 && w.c1 == c.c1 + 19 * c.c11 && w.c2 == c.c2 + 19 * c.c12 && w.c3 == c.c3 + 19 * c.c13 && w.c4 == c.c4 + 19 * c.c14
      && w.c5 == c.c5 + 19 * c.c15 && w.c6 == c.c6 + 19 * c.c16 && w.c7 == c.c7 + 19 * c.c17 && w.c8 == c.c8 + 19 * c.c18 && w.c9 == c.c9
    ensures WideVal(w) == Low(c) + 19 * High(c)
  {}

  lemma Distribute(f: Fe, y: int)
    ensures Val(f) * y ==
      f.v0 * y + 0x4000000 * (f.v1 * y) + 0x8000000000000 * (f.v2 * y) +
      0x20000000000000000000 * (f.v3 * y) + 0x40000000000000000000000000 * (f.v4 * y) +
      0x100000000000000000000000000000000 * (f.v5 * y) +
      0x200000000000000000000000000000000000000 * (f.v6 * y) +
      0x800000000000000000000000000000000000000000000 * (f.v7 * y) +
      0x1000000000000000000000000000000000000000000000000000 * (f.v8 * y) +
      0x4000000000000000000000000000000000000000000000000000000000 * (f.v9 * y)
  {
    Expand(f);
  }

  lemma ScaleValue(c: u32, g: Fe)
    ensures RowVal(Scale(c, g)) == c * Val(g)
  {
    Expand(g);
  }

  ghost predicate RowBound(r: Row, even: int, odd: int) {
    && 0 <= r.p0 <= even && 0 <= r.p2 <= even && 0 <= r.p4 <= even && 0 <= r.p6 <= even && 0 <= r.p8 <= even
    && 0 <= r.p1 <= odd && 0 <= r.p3 <= odd && 0 <= r.p5 <= odd && 0 <= r.p7 <= odd && 0 <= r.p9 <= odd
  }

  lemma ProductBounds(f: Fe, g: Fe)
    requires Loose(f) && Loose(g)
    ensures RowBound(Scale(f.v0, g), 0xb6400000000000, 0x5b200000000000)
    ensures RowBound(Scale(f.v1, g), 0x5b200000000000, 0x2d900000000000)
    ensures RowBound(Scale(f.v2, g), 0xb6400000000000, 0x5b200000000000)
    ensures RowBound(Scale(f.v3, g), 0x5b200000000000, 0x2d900000000000)
    ensures RowBound(Scale(f.v4, g), 0xb6400000000000, 0x5b200000000000)
    ensures RowBound(Scale(f.v5, g), 0x5b200000000000, 0x2d900000000000)
    ensures RowBound(Scale(f.v6, g), 0xb6400000000000, 0x5b200000000000)
    ensures RowBound(Scale(f.v7, g), 0x5b200000000000, 0x2d900000000000)
    ensures RowBound(Scale(f.v8, g), 0xb6400000000000, 0x5b200000000000)
    ensures RowBound(Scale(f.v9, g), 0x5b200000000000, 0x2d900000000000)
  {
    ScaleBound(f.v0, g, 0xd800000);
    ScaleBound(f.v1, g, 0x6c00000);
    ScaleBound(f.v2, g, 0xd800000);
    ScaleBound(f.v3, g, 0x6c00000);
    ScaleBound(f.v4, g, 0xd800000);
    ScaleBound(f.v5, g, 0x6c00000);
    ScaleBound(f.v6, g, 0xd800000);
    ScaleBound(f.v7, g, 0x6c00000);
    ScaleBound(f.v8, g, 0xd800000);
    ScaleBound(f.v9, g, 0x6c00000);
  }

  lemma ScaleBound(c: u32, g: Fe, m: int)
    requires Loose(g) && c <= m
    ensures RowBound(Scale(c, g), m * 0xd800000, m * 0x6c00000)
  {
    ProductBound(c, g.v0, m, 0xd800000);
    ProductBound(c, g.v1, m, 0x6c00000);
    ProductBound(c, g.v2, m, 0xd800000);
    ProductBound(c, g.v3, m, 0x6c00000);
    ProductBound(c, g.v4, m, 0xd800000);
    ProductBound(c, g.v5, m, 0x6c00000);
    ProductBound(c, g.v6, m, 0xd800000);
    ProductBound(c, g.v7, m, 0x6c00000);
    ProductBound(c, g.v8, m, 0xd800000);
    ProductBound(c, g.v9, m, 0x6c00000);
  }
}
