/** Facts about integer products, quotients and remainders. */
module Arith {
  lemma DivMod(a: nat, m: nat)
    requires m > 0
    ensures a == a % m + m * (a / m)
    ensures 0 <= a % m < m && 0 <= a / m
  {}

  lemma DivUnique(a: int, m: int, q: int, r: int)
    requires m > 0 && 0 <= r < m && a == m * q + r
    ensures a / m == q && a % m == r
  {
    var d := q - a / m;
    assert d >= 1 ==> m * d >= m;
    assert d <= -1 ==> m * d <= -m;
    assert m * d == a % m - r;
  }

  lemma DivDouble(a: nat, m: nat)
    requires m > 0
    ensures a / (2 * m) == a / 2 / m
  {
    var q, r := a / 2 / m, a / 2 % m;
    assert a == 2 * (q * m + r) + a % 2;
    assert a == (2 * m) * q + (2 * r + a % 2);
    DivUnique(a, 2 * m, q, 2 * r + a % 2);
  }

  lemma Associate(m: int, n: int)
    ensures (2 * m) * n == 2 * (m * n)
  {}

  // Two integers that differ by a multiple of m have the same remainder.
  lemma ModShift(a: int, b: int, k: int, m: int)
    requires m > 0 && a == b - m * k
    ensures a % m == b % m
  {
    assert b == m * (a / m + k) + a % m;
    DivUnique(b, m, a / m + k, a % m);
  }

  lemma ModAdd(a: int, b: int, m: int)
    requires m > 0
    ensures (a + b) % m == (a % m + b % m) % m
  {
    assert a % m + b % m == a + b - m * (a / m + b / m);
    ModShift(a % m + b % m, a + b, a / m + b / m, m);
  }

  lemma ModSub(a: int, b: int, m: int)
    requires m > 0
    ensures (a - b) % m == (a % m - b % m) % m
  {
    assert a % m - b % m == a - b - m * (a / m - b / m);
    ModShift(a % m - b % m, a - b, a / m - b / m, m);
  }

  lemma ModMul(a: int, b: int, m: int)
    requires m > 0
    ensures (a * b) % m == ((a % m) * (b % m)) % m
  {
    var q, r, s, t := a / m, a % m, b / m, b % m;
    assert a == m * q + r && b == m * s + t;
    assert a * b == r * t + m * (q * b + r * s) by {
      assert (m * q + r) * b == m * (q * b) + r * b;
      assert r * b == r * (m * s + t) == m * (r * s) + r * t;
    }
    ModShift(r * t, a * b, q * b + r * s, m);
  }

  lemma ProductBound(a: int, b: int, m: int, n: int)
    requires 0 <= a <= m && 0 <= b <= n
    ensures 0 <= a * b <= m * n
  {}

  lemma Regroup(k: int, a: int, b: int)
    ensures (k * a) * b == k * (a * b) == k * (b * a)
  {}

  lemma DivDiv(a: nat, m: nat, n: nat)
    requires m > 0 && n > 0
    ensures a / (n * m) == a / m / n
  {
    var q, r := a / m / n, a / m % n;
    assert a == m * (n * q + r) + a % m;
    assert m * (n * q + r) == (n * m) * q + m * r;
    assert m * r <= m * (n - 1);
    DivUnique(a, n * m, q, m * r + a % m);
  }
}
