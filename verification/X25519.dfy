/**
 curve25519 (src/crypto.c:1479-1551, src/crypto.c:1676-1786): the Montgomery ladder on limbs, its conditional swaps
 and the inversion, proved equal to the reference in `Rfc7748`.
 */
module X25519 {
  import opened Arith
  import opened Machine
  import opened Bytes
  import opened Field25519
  import opened FieldBytes
  import R = Rfc7748

  // The field element that a limb vector stands for.
  ghost function El(f: Fe): R.Elem {
    Val(f) % P
  }

  ghost function Abs(x2: Fe, z2: Fe, x3: Fe, z3: Fe): R.Ladder {
    R.Ladder(El(x2), El(z2), El(x3), El(z3))
  }

  // The field operations on elements; fe is tight, fe_loose is loose.

  method Add(f: Fe, g: Fe) returns (h: Fe)
    requires Tight(f) && Tight(g)
    ensures Loose(h) && El(h) == R.FAdd(El(f), El(g))
  {
    h := FeAdd(f, g);
    AddElements(Val(h), Val(f), Val(g));
  }

  method Sub(f: Fe, g: Fe) returns (h: Fe)
    requires Tight(f) && Tight(g)
    ensures Loose(h) && El(h) == R.FSub(El(f), El(g))
  {
    h := FeSub(f, g);
    SubElements(Val(h), Val(f), Val(g));
  }

  method Mul(f: Fe, g: Fe) returns (h: Fe)
    requires Loose(f) && Loose(g)
    ensures Tight(h) && El(h) == R.FMul(El(f), El(g))
  {
    h := FeMul(f, g);
    ModMul(Val(f), Val(g), P);
  }

  method Sqr(f: Fe) returns (h: Fe)
    requires Loose(f)
    ensures Tight(h) && El(h) == R.FMul(El(f), El(f))
  {
    h := FeSqr(f);
    ModMul(Val(f), Val(f), P);
  }

  method Mul121666(f: Fe) returns (h: Fe)
    requires Loose(f)
    ensures Tight(h) && El(h) == R.FMul(121666, El(f))
  {
    h := FeMul121666(f);
    ModMul(121666, Val(f), P);
  }

  lemma AddElements(v: int, a: int, b: int)
    requires v == a + b
    ensures R.FAdd(a % P, b % P) == v % P
  {
    ModAdd(a, b, P);
  }

  lemma SubElements(v: int, a: int, b: int)
    requires v == a - b + 2 * P
    ensures R.FSub(a % P, b % P) == v % P
  {
    ModShift(v, a - b, -2, P);
    ModSub(a, b, P);
  }

  // One ladder step. The code adds 121666 (AA - BB) to BB where the RFC adds 121665 (AA - BB) to AA.
  method LadderStep(x1: Fe, x2in: Fe, z2in: Fe, x3in: Fe, z3in: Fe) returns (x2: Fe, z2: Fe, x3: Fe, z3: Fe)
    requires Tight(x1) && Tight(x2in) && Tight(z2in) && Tight(x3in) && Tight(z3in)
    ensures Tight(x2) && Tight(z2) && Tight(x3) && Tight(z3)
    ensures Abs(x2, z2, x3, z3) == R.Step(El(x1), Abs(x2in, z2in, x3in, z3in))
  {
    var tmp0l := Sub(x3in, z3in);
    var tmp1l := Sub(x2in, z2in);
    var x2l := Add(x2in, z2in);
    var z2l := Add(x3in, z3in);
    z3 := Mul(tmp0l, x2l);
    z2 := Mul(z2l, tmp1l);
    var tmp0 := Sqr(tmp1l);
    var tmp1 := Sqr(x2l);
    var x3l := Add(z3, z2);
    z2l := Sub(z3, z2);
    x2 := Mul(tmp1, tmp0);
    tmp1l := Sub(tmp1, tmp0);
    z2 := Sqr(z2l);
    z3 := Mul121666(tmp1l);
    x3 := Sqr(x3l);
    tmp0l := Add(tmp0, z3);
    SameCoefficient(El(tmp1), El(tmp0));
    z3 := Mul(x1, z2);
    z2 := Mul(tmp1l, tmp0l);
  }

  // BB + 121666 (AA - BB) = AA + 121665 (AA - BB)
  lemma SameCoefficient(aa: R.Elem, bb: R.Elem)
    ensures R.FAdd(bb, R.FMul(121666, R.FSub(aa, bb))) == R.FAdd(aa, R.FMul(R.A24, R.FSub(aa, bb)))
  {
    ShiftCoefficient(aa, bb, 121665, P);
  }

  lemma ShiftCoefficient(aa: int, bb: int, c: int, m: int)
    requires m > 0 && 0 <= aa < m && 0 <= bb < m
    ensures (bb + (c + 1) * ((aa - bb) % m) % m) % m == (aa + c * ((aa - bb) % m) % m) % m
  {
    var e, k := (aa - bb) % m, (aa - bb) / m;
    ModAdd(bb, (c + 1) * e, m);
    ModAdd(aa, c * e, m);
    DivUnique(aa, m, 0, aa);
    DivUnique(bb, m, 0, bb);
    ModShift(bb + (c + 1) * e, aa + c * e, k, m);
  }

  // e * 2^n
  function Doubled(e: nat, n: nat): nat {
    if n == 0 then e else 2 * Doubled(e, n - 1)
  }

  // f^(2^n) by n squarings, where f = x^e
  method SqrN(f: Fe, n: nat, ghost x: R.Elem, ghost e: nat) returns (h: Fe)
    requires n >= 1 && Loose(f) && El(f) == R.FPow(x, e)
    ensures Tight(h) && El(h) == R.FPow(x, Doubled(e, n))
  {
    DoubleExponent(x, e, 0);
    h := Sqr(f);
    var i := 1;
    while i < n
      invariant 1 <= i <= n
      invariant Tight(h) && El(h) == R.FPow(x, Doubled(e, i))
    {
      DoubleExponent(x, e, i);
      h := Sqr(h);
      i := i + 1;
    }
  }

  lemma DoubleExponent(x: R.Elem, e: nat, i: nat)
    ensures R.FMul(R.FPow(x, Doubled(e, i)), R.FPow(x, Doubled(e, i))) == R.FPow(x, Doubled(e, i + 1))
  {
    PowSum(x, Doubled(e, i), Doubled(e, i));
  }

  method MulPow(f: Fe, g: Fe, ghost x: R.Elem, ghost a: nat, ghost b: nat) returns (h: Fe)
    requires Loose(f) && Loose(g) && El(f) == R.FPow(x, a) && El(g) == R.FPow(x, b)
    ensures Tight(h) && El(h) == R.FPow(x, a + b)
  {
    h := Mul(f, g);
    PowSum(x, a, b);
  }

  // x^(2^k - 1), whose exponent is k ones in binary
  ghost function Ones(x: R.Elem, k: nat): R.Elem {
    R.FPow(x, Pow2(k) - 1)
  }

  // f^(2^n) * g appends the n ones of g's exponent to the k ones of f's.
  method AppendOnes(f: Fe, g: Fe, n: nat, ghost x: R.Elem, ghost k: nat) returns (h: Fe)
    requires n >= 1 && Tight(f) && Tight(g)
    requires El(f) == Ones(x, k) && El(g) == Ones(x, n)
    ensures Tight(h) && El(h) == Ones(x, k + n)
  {
    h := SqrN(f, n, x, Pow2(k) - 1);
    OnesExponent(x, k, n);
    h := Mul(h, g);
  }

  lemma OnesExponent(x: R.Elem, k: nat, n: nat)
    ensures R.FMul(R.FPow(x, Doubled(Pow2(k) - 1, n)), Ones(x, n)) == Ones(x, k + n)
  {
    DoubledOnes(k, n);
    PowSum(x, Doubled(Pow2(k) - 1, n), Pow2(n) - 1);
  }

  lemma {:induction false} DoubledOnes(k: nat, n: nat)
    ensures Doubled(Pow2(k) - 1, n) == Pow2(k + n) - Pow2(n)
  {
    if n > 0 {
      DoubledOnes(k, n - 1);
    }
  }

  lemma {:induction false} PowSum(x: R.Elem, a: nat, b: nat)
    ensures R.FMul(R.FPow(x, a), R.FPow(x, b)) == R.FPow(x, a + b)
  {
    var y := R.FPow(x, b);
    if a == 0 {
      MulOne(y);
    } else {
      PowSum(x, a - 1, b);
      MulAssociates(x, R.FPow(x, a - 1), y);
    }
  }

  lemma MulOne(y: R.Elem)
    ensures R.FMul(1, y) == y
  {}

  lemma MulAssociates(a: R.Elem, b: R.Elem, c: R.Elem)
    ensures R.FMul(R.FMul(a, b), c) == R.FMul(a, R.FMul(b, c))
  {
    ModAssociates(a, b, c, P);
  }

  lemma ModAssociates(a: int, b: int, c: int, m: int)
    requires m > 0
    ensures ((a * b % m) * c) % m == (a * (b * c % m)) % m
  {
    var q, r, s, t := a * b / m, a * b % m, b * c / m, b * c % m;
    Scaled(a * b, r, q, c, m);
    Scaled(b * c, t, s, a, m);
    assert (a * b) * c == a * (b * c);
    assert m * (q * c) - m * (s * a) == m * (q * c - s * a);
    ModShift(r * c, t * a, q * c - s * a, m);
  }

  lemma Scaled(x: int, r: int, q: int, c: int, m: int)
    requires x == m * q + r
    ensures r * c == x * c - m * (q * c)
  {}

  // fe_loose_invert: an addition chain for the exponent p - 2 = 2^255 - 21
  method Invert(z: Fe) returns (out: Fe)
    requires Loose(z)
    ensures Tight(out)
    ensures El(out) == R.FPow(El(z), P - 2)
  {
    var t0, t1 := InvertStart(z);
    t1 := InvertMiddle(t1, El(z));
    out := InvertEnd(t1, t0, El(z), 250);
  }

  // The powers 11 and 31 = 2^5 - 1
  method InvertStart(z: Fe) returns (t0: Fe, t1: Fe)
    requires Loose(z)
    ensures Tight(t0) && El(t0) == R.FPow(El(z), 11)
    ensures Tight(t1) && El(t1) == Ones(El(z), 5)
  {
    ghost var x := El(z);
    assert R.FPow(x, 1) == x;
    t0 := SqrN(z, 1, x, 1);
    t1 := SqrN(t0, 2, x, 2);
    t1 := MulPow(z, t1, x, 1, 8);
    t0 := MulPow(t0, t1, x, 2, 9);
    var t2 := SqrN(t0, 1, x, 11);
    t1 := MulPow(t1, t2, x, 9, 22);
  }

  method InvertMiddle(t: Fe, ghost x: R.Elem) returns (t1: Fe)
    requires Tight(t) && El(t) == Ones(x, 5)
    ensures Tight(t1) && El(t1) == Ones(x, 250)
  {
    t1 := AppendOnes(t, t, 5, x, 5);
    var t2 := AppendOnes(t1, t1, 10, x, 10);
    t2 := AppendOnes(t2, t2, 20, x, 20);
    t1 := AppendOnes(t2, t1, 10, x, 40);
    t2 := AppendOnes(t1, t1, 50, x, 50);
    t2 := AppendOnes(t2, t2, 100, x, 100);
    t1 := AppendOnes(t2, t1, 50, x, 200);
  }

  // 2^5 (2^250 - 1) + 11 = 2^255 - 21 = p - 2
  method InvertEnd(t1: Fe, t0: Fe, ghost x: R.Elem, ghost k: nat) returns (out: Fe)
    requires k == 250
    requires Tight(t1) && El(t1) == Ones(x, k)
    requires Tight(t0) && El(t0) == R.FPow(x, 11)
    ensures Tight(out) && El(out) == R.FPow(x, P - 2)
  {
    out := SqrN(t1, 5, x, Pow2(k) - 1);
    out := MulPow(out, t0, x, Doubled(Pow2(k) - 1, 5), 11);
    DoubledOnes(k, 5);
    Pow2Of255(k + 5);
  }

  lemma Pow2Of255(n: nat)
    requires n == 255
    ensures Pow2(n) == TWO255
  {
    var k := 15;
    assert Pow2(k) == 0x8000;
    Pow2Sum(k, k);
    Pow2Sum(k + k, k + k);
    Pow2Sum(4 * k, 4 * k);
    Pow2Sum(8 * k, 8 * k);
    Pow2Sum(16 * k, k);
  }

  lemma {:induction false} Pow2Sum(a: nat, b: nat)
    ensures Pow2(a + b) == Pow2(a) * Pow2(b)
  {
    if b > 0 {
      Pow2Sum(a, b - 1);
    }
  }

  function Limbs(f: Fe): (s: seq<u32>)
    ensures |s| == 10
  {
    [f.v0, f.v1, f.v2, f.v3, f.v4, f.v5, f.v6, f.v7, f.v8, f.v9]
  }

  function OfLimbs(s: seq<u32>): Fe
    requires |s| == 10
  {
    Fe(s[0], s[1], s[2], s[3], s[4], s[5], s[6], s[7], s[8], s[9])
  }

  // fe_cswap: exchange f and g when b is 1, by masked exclusive or on each limb
  method CondSwap(f: Fe, g: Fe, b: u32) returns (f': Fe, g': Fe)
    requires b <= 1
    ensures f' == (if b == 1 then g else f) && g' == (if b == 1 then f else g)
  {
    var mask: u32 := (0 - b) % TWO32;
    var u, v := Limbs(f), Limbs(g);
    for i := 0 to 10
      invariant |u| == |v| == 10
      invariant forall j :: 0 <= j < i ==> u[j] == (if b == 1 then Limbs(g) else Limbs(f))[j]
      invariant forall j :: 0 <= j < i ==> v[j] == (if b == 1 then Limbs(f) else Limbs(g))[j]
      invariant forall j :: i <= j < 10 ==> u[j] == Limbs(f)[j] && v[j] == Limbs(g)[j]
    {
      var a, c := MaskedSwap(u[i], v[i], mask);
      u, v := u[i := a], v[i := c];
    }
    f', g' := OfLimbs(u), OfLimbs(v);
  }

  method MaskedSwap(a: u32, c: u32, mask: u32) returns (a': u32, c': u32)
    requires mask == 0 || mask == 0xffff_ffff
    ensures a' == (if mask == 0 then a else c) && c' == (if mask == 0 then c else a)
  {
    var x := And(mask, Xor(a, c));
    Pow2Values();
    XorBound(a, c, 32);
    AllOnes(Xor(a, c));
    XorSwaps(a, c);
    XorZero(a);
    XorZero(c);
    a' := Xor(a, x);
    c' := Xor(c, x);
  }

  // curve25519_clamp_secret
  method Clamp(s: seq<byte>) returns (e: seq<byte>)
    requires |s| == 32
    ensures |e| == 32 && Le(e) == R.DecodeScalar(s)
  {
    ClampLow(s[0]);
    ClampHigh(s[31]);
    e := s[0 := And(s[0], 248)];
    e := e[31 := Or(And(e[31], 127), 64)];
    assert e[1..31] == s[1..31];
    LeEnds(s);
    LeEnds(e);
    ClampValue(Le(s), s[0], s[31], Le(s[1..31]));
  }

  lemma ClampLow(low: byte)
    ensures And(low, 248) == low - low % 8
  {
    ClearLow(low, low % 8, low / 8);
  }

  lemma ClearLow(x: nat, r: nat, q: nat)
    requires x == r + 8 * q && r < 8 && q < 32
    ensures And(x, 248) == 8 * q
  {
    AndSplit(x, r, q, 248, 0, 31, 3);
    AndZero(r);
    AndMaskOf(q, q, 0, 5);
  }

  lemma ClampHigh(high: byte)
    ensures And(high, 127) == high % 128
    ensures Or(high % 128, 64) == high % 64 + 64
  {
    AndMaskOf(high, high % 128, high / 128, 7);
    TopBits(high);
    SetTopBit(high % 128, high % 64, high % 128 / 64);
  }

  lemma TopBits(high: byte)
    ensures high % 128 == high % 64 + 64 * (high % 128 / 64)
  {}

  lemma SetTopBit(x: nat, r: nat, q: nat)
    requires x == r + 64 * q && r < 64 && q <= 1
    ensures Or(x, 64) == r + 64
  {
    OrSplit(x, r, q, 1, 6);
    OrStep(q, 1);
  }

  lemma LeEnds(e: seq<byte>)
    requires |e| == 32
    ensures Le(e) == Ends(e[0], Le(e[1..31]), e[31])
    ensures Le(e[1..31]) < 0x1_000000000000_000000000000_000000000000_000000000000_000000000000
  {
    var middle, last := e[1..31], e[31..];
    assert e[1..] == middle + last && last[1..] == [];
    LeBound(middle);
    Pow256Values();
    LeAppendAt(middle, last, 0x1_000000000000_000000000000_000000000000_000000000000_000000000000);
  }

  ghost function Ends(low: int, middle: int, high: int): int {
    low + 0x100 * middle + 0x100000000000000_000000000000_000000000000_000000000000_000000000000 * high
  }

  lemma ClampValue(n: nat, low: byte, high: byte, middle: nat)
    requires n == Ends(low, middle, high)
    requires middle < 0x1_000000000000_000000000000_000000000000_000000000000_000000000000
    ensures n % R.TWO254 - n % R.TWO254 % 8 + R.TWO254 == Ends(low - low % 8, middle, high % 64 + 64)
  {
    var m := Ends(low, middle, high % 64);
    DivUnique(n, R.TWO254, high / 64, m);
    DivUnique(m, 8, m / 8, low % 8);
  }

  // Bit 8 i + j of the encoded number is bit j of byte i.
  lemma {:induction false} LeBit(e: seq<byte>, i: nat, j: nat)
    requires i < |e| && j < 8
    ensures Bit(Le(e), 8 * i + j) <==> Bit(e[i], j)
  {
    if i == 0 {
      LowBit(e[0], Le(e[1..]), j);
    } else {
      LeBit(e[1..], i - 1, j);
      HighBit(e[0], Le(e[1..]), 8 * (i - 1) + j);
    }
  }

  lemma HighBit(low: byte, rest: nat, k: nat)
    ensures Bit(low + 0x100 * rest, k + 8) <==> Bit(rest, k)
  {
    Pow2Sum(k, 8);
    assert Pow2(8) == 0x100;
    DivDiv(low + 0x100 * rest, 0x100, Pow2(k));
  }

  lemma LowBit(low: byte, rest: nat, k: nat)
    requires k < 8
    ensures Bit(low + 0x100 * rest, k) <==> Bit(low, k)
  {
    var m, h := Pow2(k), Pow2(7 - k);
    assert m * (2 * h) == 0x100 by {
      Pow2Sum(k, 8 - k);
      assert Pow2(8) == 0x100;
    }
    ShiftIn(low, rest, m, h);
  }

  lemma ShiftIn(low: nat, rest: nat, m: nat, h: nat)
    requires m > 0 && m * (2 * h) == 0x100
    ensures (low + 0x100 * rest) / m == low / m + 2 * (h * rest)
  {
    assert 0x100 * rest == m * (2 * (h * rest));
    DivUnique(low + 0x100 * rest, m, low / m + 2 * (h * rest), low % m);
  }

  method Swap(swap: u32, x2in: Fe, z2in: Fe, x3in: Fe, z3in: Fe) returns (x2: Fe, z2: Fe, x3: Fe, z3: Fe)
    requires swap <= 1 && Tight(x2in) && Tight(z2in) && Tight(x3in) && Tight(z3in)
    ensures Tight(x2) && Tight(z2) && Tight(x3) && Tight(z3)
    ensures Abs(x2, z2, x3, z3) == R.CSwap(swap == 1, Abs(x2in, z2in, x3in, z3in))
  {
    x2, x3 := CondSwap(x2in, x3in, swap);
    z2, z3 := CondSwap(z2in, z3in, swap);
  }

  // One iteration: the loop that remains has the same result as the loop before it.
  method Iterate(x1: Fe, x2in: Fe, z2in: Fe, x3in: Fe, z3in: Fe, swap: u32, b: u32, ghost bits: seq<bool>, ghost i: nat)
    returns (x2: Fe, z2: Fe, x3: Fe, z3: Fe)
    requires Tight(x1) && Tight(x2in) && Tight(z2in) && Tight(x3in) && Tight(z3in)
    requires swap <= 1 && b <= 1 && i < |bits| && (b == 1 <==> bits[i])
    ensures Tight(x2) && Tight(z2) && Tight(x3) && Tight(z3)
    ensures R.Loop(El(x1), bits[i + 1..], Abs(x2, z2, x3, z3), b == 1) ==
            R.Loop(El(x1), bits[i..], Abs(x2in, z2in, x3in, z3in), swap == 1)
  {
    UnfoldLoop(El(x1), bits, i, Abs(x2in, z2in, x3in, z3in), swap == 1);
    x2, z2, x3, z3 := Swap(if swap != b then 1 else 0, x2in, z2in, x3in, z3in);
    x2, z2, x3, z3 := LadderStep(x1, x2, z2, x3, z3);
  }

  // 1 & (e[pos / 8] >> (pos & 7))
  method ScalarBit(e: seq<byte>, pos: nat) returns (b: u32)
    requires |e| == 32 && pos <= 254
    ensures b <= 1 && (b == 1 <==> R.ScalarBits(Le(e))[254 - pos])
  {
    b := e[pos / 8] / Pow2(pos % 8) % 2;
    LeBit(e, pos / 8, pos % 8);
  }

  // The 255 iterations and the last swap
  method RunLadder(x1: Fe, e: seq<byte>) returns (x2: Fe, z2: Fe)
    requires Tight(x1) && |e| == 32
    ensures Tight(x2) && Tight(z2)
    ensures var s := R.Loop(El(x1), R.ScalarBits(Le(e)), R.Ladder(1, 0, El(x1), 1), false);
            El(x2) == s.x2 && El(z2) == s.z2
  {
    var x3, z3;
    x2, z2, x3, z3 := Start(x1);
    var swap: u32 := 0;
    ghost var bits, u := R.ScalarBits(Le(e)), El(x1);
    ghost var answer := R.Loop(u, bits, R.Ladder(1, 0, u, 1), false);
    assert bits[0..] == bits;

    var pos := 254;
    while pos >= 0
      invariant -1 <= pos <= 254
      invariant swap <= 1
      invariant Tight(x2) && Tight(z2) && Tight(x3) && Tight(z3)
      invariant R.Loop(u, bits[254 - pos..], Abs(x2, z2, x3, z3), swap == 1) == answer
    {
      var b := ScalarBit(e, pos);
      x2, z2, x3, z3 := Iterate(x1, x2, z2, x3, z3, swap, b, bits, 254 - pos);
      swap := b;
      pos := pos - 1;
    }
    x2, z2, x3, z3 := Swap(swap, x2, z2, x3, z3);
  }

  lemma UnfoldLoop(x1: R.Elem, bits: seq<bool>, i: nat, s: R.Ladder, swap: bool)
    requires i < |bits|
    ensures R.Loop(x1, bits[i..], s, swap) ==
            R.Loop(x1, bits[i + 1..], R.Step(x1, R.CSwap(swap != bits[i], s)), bits[i])
  {
    assert bits[i..][1..] == bits[i + 1..];
  }

  // The points at infinity and P, with z coordinates 0 and 1
  method Start(x1: Fe) returns (x2: Fe, z2: Fe, x3: Fe, z3: Fe)
    requires Tight(x1)
    ensures Tight(x2) && Tight(z2) && Tight(x3) && Tight(z3)
    ensures Abs(x2, z2, x3, z3) == R.Ladder(1, 0, El(x1), 1)
  {
    x2 := Small(1);
    z2 := Small(0);
    x3, z3 := x1, x2;
  }

  // fe_0 and fe_1
  method Small(n: u32) returns (f: Fe)
    requires n <= 1
    ensures Tight(f)
    ensures El(f) == n
  {
    f := Fe(n, 0, 0, 0, 0, 0, 0, 0, 0, 0);
    Expand(f);
  }

  // The result is all zeros exactly when `ok` is false.
  method Curve25519(scalar: seq<byte>, point: seq<byte>) returns (out: seq<byte>, ok: bool)
    requires |scalar| == 32 && |point| == 32
    ensures out == R.X25519(scalar, point)
    ensures ok <==> out != LeBytes(0, 32)
  {
    var e := Clamp(scalar);
    var x1 := FeFromBytes(point);
    var x2, z2 := RunLadder(x1, e);
    z2 := Invert(z2);
    x2 := Mul(x2, z2);
    out := FeToBytes(x2);
    ok := out != LeBytes(0, 32);
  }
}
