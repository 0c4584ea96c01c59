/**
 Fixed-width integers and bitwise operators, written over mathematical integers.

 A subset type such as `u32` makes the verifier check that every value bound to it is in
 range, so a C intermediate stored in a `u32` or `u64` variable is proved not to wrap.
 Where the C code relies on wrap-around, the reduction modulo a power of two is explicit.
 */
module Machine {
  import opened Arith

  type byte = x: int | 0 <= x < 0x100
  type u32 = x: int | 0 <= x < 0x1_0000_0000
  type u64 = x: int | 0 <= x < 0x1_0000_0000_0000_0000

  const TWO32: int := 0x1_0000_0000
  const TWO64: int := 0x1_0000_0000_0000_0000

  function Pow2(k: nat): (r: nat)
    ensures r >= 1
  {
    if k == 0 then 1 else 2 * Pow2(k - 1)
  }

  // Bit `k` of `a`.
  predicate Bit(a: nat, k: nat) {
    a / Pow2(k) % 2 == 1
  }

  function And(a: nat, b: nat): nat {
    if a == 0 || b == 0 then 0
    else 2 * And(a / 2, b / 2) + (if a % 2 == 1 && b % 2 == 1 then 1 else 0)
  }

  function Or(a: nat, b: nat): nat {
    if a == 0 && b == 0 then 0
    else 2 * Or(a / 2, b / 2) + (if a % 2 == 1 || b % 2 == 1 then 1 else 0)
  }

  function Xor(a: nat, b: nat): nat {
    if a == 0 && b == 0 then 0
    else 2 * Xor(a / 2, b / 2) + (if a % 2 != b % 2 then 1 else 0)
  }

  // Conjunction acts separately on the low k bits (a, c) and on the rest (b, d).
  lemma {:induction false} AndSplit(x: nat, a: nat, b: nat, y: nat, c: nat, d: nat, k: nat)
    requires a < Pow2(k) && c < Pow2(k)
    requires x == a + Pow2(k) * b && y == c + Pow2(k) * d
    ensures And(x, y) == And(a, c) + Pow2(k) * And(b, d)
    decreases k
  {
    if k == 0 {
      assert And(a, c) == 0;
    } else {
      var m := Pow2(k - 1);
      Associate(m, b);
      Associate(m, d);
      AndSplit(x / 2, a / 2, b, y / 2, c / 2, d, k - 1);
      Associate(m, And(b, d));
      AndStep(x, y);
      AndStep(a, c);
    }
  }

  // Disjunction with a multiple of 2^k leaves the low k bits (a) alone.
  lemma {:induction false} OrSplit(x: nat, a: nat, b: nat, d: nat, k: nat)
    requires a < Pow2(k) && x == a + Pow2(k) * b
    ensures Or(x, Pow2(k) * d) == a + Pow2(k) * Or(b, d)
    decreases k
  {
    if k > 0 {
      var m := Pow2(k - 1);
      Associate(m, b);
      Associate(m, d);
      OrSplit(x / 2, a / 2, b, d, k - 1);
      Associate(m, Or(b, d));
      OrStep(x, Pow2(k) * d);
    }
  }

  lemma OrStep(a: nat, b: nat)
    ensures Or(a, b) == 2 * Or(a / 2, b / 2) + (if a % 2 == 1 || b % 2 == 1 then 1 else 0)
  {}

  lemma OrDisjoint(a: nat, b: nat, k: nat)
    requires a < Pow2(k)
    ensures Or(a, Pow2(k) * b) == a + Pow2(k) * b
  {
    OrSplit(a, a, 0, b, k);
    OrZero(b);
  }

  lemma {:induction false} OrZero(b: nat)
    ensures Or(0, b) == b
  {
    if b > 0 {
      OrZero(b / 2);
    }
  }

  // A mask of k ones keeps exactly the low k bits.
  lemma AndMask(a: nat, k: nat)
    ensures And(a, Pow2(k) - 1) == a % Pow2(k)
    ensures And(Pow2(k) - 1, a) == a % Pow2(k)
  {
    DivMod(a, Pow2(k));
    AndMaskOf(a, a % Pow2(k), a / Pow2(k), k);
  }

  lemma AndMaskOf(a: nat, r: nat, q: nat, k: nat)
    requires r < Pow2(k) && a == r + Pow2(k) * q
    ensures And(a, Pow2(k) - 1) == And(Pow2(k) - 1, a) == r
  {
    var m := Pow2(k);
    AndSplit(a, r, q, m - 1, m - 1, 0, k);
    AndZero(q);
    AndOnes(r, k);
    AndCommutes(a, m - 1);
  }

  lemma {:induction false} AndOnes(r: nat, k: nat)
    requires r < Pow2(k)
    ensures And(r, Pow2(k) - 1) == r
    decreases k
  {
    if k > 0 {
      AndOnes(r / 2, k - 1);
      AndStep(r, Pow2(k) - 1);
    }
  }

  lemma AndZero(a: nat)
    ensures And(a, 0) == 0
  {}

  lemma AndOne(a: nat)
    ensures And(a, 1) == a % 2
  {
    AndStep(a, 1);
    AndZero(a / 2);
  }

  lemma {:induction false} AndCommutes(a: nat, b: nat)
    ensures And(a, b) == And(b, a)
  {
    if a != 0 && b != 0 {
      AndCommutes(a / 2, b / 2);
    }
  }

  lemma {:induction false} OrCommutes(a: nat, b: nat)
    ensures Or(a, b) == Or(b, a)
  {
    if a != 0 || b != 0 {
      OrCommutes(a / 2, b / 2);
    }
  }

  lemma {:induction false} XorSwaps(a: nat, b: nat)
    ensures Xor(a, Xor(a, b)) == b && Xor(b, Xor(a, b)) == a
  {
    if a != 0 || b != 0 {
      XorSwaps(a / 2, b / 2);
    }
  }

  lemma {:induction false} XorZero(a: nat)
    ensures Xor(a, 0) == a
  {
    if a > 0 {
      XorZero(a / 2);
    }
  }

  lemma {:induction false} XorCommutes(a: nat, b: nat)
    ensures Xor(a, b) == Xor(b, a)
  {
    if a != 0 || b != 0 {
      XorCommutes(a / 2, b / 2);
    }
  }

  lemma {:induction false} XorAssociates(a: nat, b: nat, c: nat)
    ensures Xor(Xor(a, b), c) == Xor(a, Xor(b, c))
  {
    if a != 0 || b != 0 || c != 0 {
      XorAssociates(a / 2, b / 2, c / 2);
    }
  }

  lemma {:induction false} XorBound(a: nat, b: nat, k: nat)
    requires a < Pow2(k) && b < Pow2(k)
    ensures Xor(a, b) < Pow2(k)
    decreases k
  {
    if k > 0 {
      XorBound(a / 2, b / 2, k - 1);
    }
  }

  lemma AndPow2(w: nat, k: nat)
    ensures And(w, Pow2(k)) == if Bit(w, k) then Pow2(k) else 0
  {
    DivMod(w, Pow2(k));
    AndPow2Of(w, w % Pow2(k), w / Pow2(k), k);
  }

  lemma AndPow2Of(w: nat, r: nat, q: nat, k: nat)
    requires r < Pow2(k) && w == r + Pow2(k) * q
    ensures And(w, Pow2(k)) == if q % 2 == 1 then Pow2(k) else 0
  {
    AndSplit(w, r, q, Pow2(k), 0, 1, k);
    AndZero(r);
    AndOne(q);
  }

  // Setting bit k changes bit k and no other.
  lemma {:induction false} OrPow2(w: nat, k: nat, j: nat)
    ensures Bit(Or(w, Pow2(k)), j) <==> j == k || Bit(w, j)
    decreases k
  {
    hide Or, Pow2, Bit;
    if k == 0 {
      SetLowBit(w);
      if j == 0 {
        LowBit(w);
        LowBit(Or(w, Pow2(0)));
      } else {
        HalveBit(w, j);
        HalveBit(Or(w, Pow2(0)), j);
      }
    } else {
      SetHighBit(w, k);
      if j == 0 {
        LowBit(w);
        LowBit(Or(w, Pow2(k)));
      } else {
        OrPow2(w / 2, k - 1, j - 1);
        HalveBit(w, j);
        HalveBit(Or(w, Pow2(k)), j);
      }
    }
  }

  lemma LowBit(w: nat)
    ensures Bit(w, 0) <==> w % 2 == 1
  {}

  lemma SetLowBit(w: nat)
    ensures Or(w, Pow2(0)) == 2 * (w / 2) + 1
  {
    OrStep(w, 1);
    OrCommutesWithZero(w / 2);
  }

  lemma SetHighBit(w: nat, k: nat)
    requires k > 0
    ensures Or(w, Pow2(k)) == 2 * Or(w / 2, Pow2(k - 1)) + w % 2
  {
    OrStep(w, Pow2(k));
  }

  lemma {:induction false} OrBound(a: nat, b: nat, k: nat)
    requires a < Pow2(k) && b < Pow2(k)
    ensures Or(a, b) < Pow2(k)
    decreases k
  {
    if k > 0 {
      OrBound(a / 2, b / 2, k - 1);
    }
  }

  lemma Pow2Monotone(j: nat, k: nat)
    requires j <= k
    ensures Pow2(j) <= Pow2(k)
  {}

  lemma Pow2Values()
    ensures Pow2(12) == 0x1000 && Pow2(14) == 0x4000 && Pow2(18) == 0x4_0000 && Pow2(20) == 0x10_0000
    ensures Pow2(24) == 0x100_0000 && Pow2(26) == 0x400_0000 && Pow2(32) == 0x1_0000_0000
  {
    assert Pow2(12) == 0x1000;
    assert Pow2(24) == 0x100_0000;
  }

  lemma AndStep(a: nat, b: nat)
    ensures And(a, b) == 2 * And(a / 2, b / 2) + (if a % 2 == 1 && b % 2 == 1 then 1 else 0)
  {}

  lemma {:induction false} OrCommutesWithZero(a: nat)
    ensures Or(a, 0) == a
  {
    if a > 0 {
      OrCommutesWithZero(a / 2);
    }
  }

  lemma HalveBit(w: nat, k: nat)
    requires k > 0
    ensures Bit(w, k) <==> Bit(w / 2, k - 1)
  {
    DivDouble(w, Pow2(k - 1));
  }

  lemma AllOnes(c: u32)
    ensures And(0xffff_ffff, c) == c && And(0, c) == 0
  {
    hide And, Pow2;
    Pow2Values();
    OnesOf(c, 32, 0x1_0000_0000);
    AndCommutes(0, c);
    AndZero(c);
  }

  // A mask m - 1 of k ones, where m is 2^k
  lemma OnesOf(c: nat, k: nat, m: nat)
    requires m == Pow2(k) && c < m
    ensures And(m - 1, c) == c
  {
    AndOnes(c, k);
    AndCommutes(c, m - 1);
  }

  function Xor32(a: u32, b: u32): u32 {
    Pow2Values();
    XorBound(a, b, 32);
    Xor(a, b)
  }

  function Xor8(a: byte, b: byte): byte {
    assert Pow2(8) == 0x100;
    XorBound(a, b, 8);
    Xor(a, b)
  }

  // rol32 by k bits, where m = 2^k and n = 2^(32 - k)
  function Rol32(w: u32, m: nat, n: nat): u32
    requires n > 0 && m * n == 0x1_0000_0000
  {
    Pow2Values();
    QuotientBound(w, n);
    OrBound(w * m % 0x1_0000_0000, w / n, 32);
    Or(w * m % 0x1_0000_0000, w / n)
  }

  lemma QuotientBound(w: nat, n: nat)
    requires n > 0
    ensures 0 <= w / n <= w
  {
    DivMod(w, n);
    ProductGrows(n, w / n);
  }

  lemma ProductGrows(n: nat, q: nat)
    requires n > 0
    ensures n * q >= q
  {
    assert (n - 1) * q >= 0;
  }

  // The operators, bit by bit

  lemma {:induction false} AndBit(a: nat, b: nat, k: nat)
    ensures Bit(And(a, b), k) <==> Bit(a, k) && Bit(b, k)
    decreases k
  {
    hide And, Pow2, Bit;
    AndStep(a, b);
    BitOfStep(a, b, And(a, b), And(a / 2, b / 2), k);
    if k > 0 {
      AndBit(a / 2, b / 2, k - 1);
    }
  }

  lemma {:induction false} OrBit(a: nat, b: nat, k: nat)
    ensures Bit(Or(a, b), k) <==> Bit(a, k) || Bit(b, k)
    decreases k
  {
    hide Or, Pow2, Bit;
    OrStep(a, b);
    BitOfStep(a, b, Or(a, b), Or(a / 2, b / 2), k);
    if k > 0 {
      OrBit(a / 2, b / 2, k - 1);
    }
  }

  lemma {:induction false} XorBit(a: nat, b: nat, k: nat)
    ensures Bit(Xor(a, b), k) <==> Bit(a, k) != Bit(b, k)
    decreases k
  {
    hide Xor, Pow2, Bit;
    XorStep(a, b);
    BitOfStep(a, b, Xor(a, b), Xor(a / 2, b / 2), k);
    if k > 0 {
      XorBit(a / 2, b / 2, k - 1);
    }
  }

  // Bit 0 is the last binary digit, and bit k is bit k - 1 of the half.
  lemma BitOfStep(a: nat, b: nat, c: nat, half: nat, k: nat)
    requires 2 * half <= c <= 2 * half + 1
    ensures k == 0 ==> (Bit(a, k) <==> a % 2 == 1) && (Bit(b, k) <==> b % 2 == 1) && (Bit(c, k) <==> c == 2 * half + 1)
    ensures k > 0 ==> (Bit(a, k) <==> Bit(a / 2, k - 1)) && (Bit(b, k) <==> Bit(b / 2, k - 1)) && (Bit(c, k) <==> Bit(half, k - 1))
  {
    hide Pow2, Bit;
    if k == 0 {
      LowBit(a);
      LowBit(b);
      LowBit(c);
    } else {
      assert c / 2 == half;
      HalveBit(a, k);
      HalveBit(b, k);
      HalveBit(c, k);
    }
  }

  lemma XorStep(a: nat, b: nat)
    ensures Xor(a, b) == 2 * Xor(a / 2, b / 2) + (if a % 2 != b % 2 then 1 else 0)
  {}

  // Xor with ones everywhere inverts the word.
  lemma {:induction false} XorOnes(a: nat, k: nat)
    requires a < Pow2(k)
    ensures Xor(a, Pow2(k) - 1) == Pow2(k) - 1 - a
    decreases k
  {
    if k > 0 {
      XorStep(a, Pow2(k) - 1);
      XorOnes(a / 2, k - 1);
    }
  }

  // Rotation: the high part of the word, above n = 2^(32 - k), comes down below the low part.
  lemma RolRotates(w: u32, k: nat, m: nat, n: nat)
    requires m == Pow2(k) && n > 0 && m * n == 0x1_0000_0000
    ensures Rol32(w, m, n) == w % n * m + w / n
  {
    var q, r := w / n, w % n;
    DivMod(w, n);
    LeftPart(w, q, r, m, n);
    OrCommutes(r * m, q);
    OrDisjoint(q, r, k);
  }

  lemma LeftPart(w: u32, q: nat, r: nat, m: nat, n: nat)
    requires w == r + n * q && r < n && m * n == 0x1_0000_0000 && m > 0
    ensures w * m % 0x1_0000_0000 == r * m && q < m
  {
    ScaledParts(w, q, r, m, n);
    BelowProduct(r, n, m);
    DivUnique(w * m, 0x1_0000_0000, q, r * m);
    if q >= m {
      ProductMonotone(n, m, q);
      assert false;
    }
  }

  lemma ScaledParts(w: nat, q: nat, r: nat, m: nat, n: nat)
    requires w == r + n * q && m * n == 0x1_0000_0000
    ensures w * m == 0x1_0000_0000 * q + r * m
  {
    assert (r + n * q) * m == r * m + (m * n) * q;
  }

  lemma BelowProduct(r: nat, n: nat, m: nat)
    requires r < n && m > 0
    ensures r * m < m * n
  {
    ProductMonotone(m, r + 1, n);
    assert (r + 1) * m == r * m + m;
  }

  lemma ProductMonotone(n: nat, m: nat, q: nat)
    requires m <= q
    ensures n * q >= m * n
  {
    assert n * (q - m) >= 0;
  }
}
