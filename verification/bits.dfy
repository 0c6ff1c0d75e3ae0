/** Bitwise operations of unsigned machine words on natural numbers, and how they relate to
    division and remainder. */
module Bits {

  function Pow2(k: nat): (p: nat)
    ensures p >= 1
  {
    if k == 0 then 1 else 2 * Pow2(k - 1)
  }

  function And(a: nat, b: nat): nat {
    if a == 0 then 0 else 2 * And(a / 2, b / 2) + (if a % 2 == 1 && b % 2 == 1 then 1 else 0)
  }

  function Or(a: nat, b: nat): nat
    decreases a + b
  {
    if a == 0 then b
    else if b == 0 then a
    else 2 * Or(a / 2, b / 2) + (if a % 2 == 1 || b % 2 == 1 then 1 else 0)
  }

  lemma QuotientNat(a: nat, m: nat)
    requires m > 0
    ensures 0 <= a / m
  {}

  function Shr(a: nat, k: nat): nat {
    QuotientNat(a, Pow2(k));
    a / Pow2(k)
  }

  /** Left shift in a word of w bits: what leaves at the top is lost. */
  function Shl(a: nat, k: nat, w: nat): nat {
    a * Pow2(k) % Pow2(w)
  }

  /** Bit k of a. */
  predicate Bit(a: nat, k: nat) {
    a / Pow2(k) % 2 == 1
  }

  /** Clearing in a the bits of b. */
  function AndNot(a: nat, b: nat): nat {
    if a == 0 then 0 else 2 * AndNot(a / 2, b / 2) + (if a % 2 == 1 && b % 2 == 0 then 1 else 0)
  }

  lemma {:induction false} Pow2Add(j: nat, k: nat)
    ensures Pow2(j + k) == Pow2(j) * Pow2(k)
  {
    if j > 0 {
      Pow2Add(j - 1, k);
      assert Pow2(j + k) == 2 * Pow2(j - 1 + k) == 2 * (Pow2(j - 1) * Pow2(k)) == Pow2(j) * Pow2(k);
    }
  }

  lemma MulAtLeast(x: int, m: int)
    requires x >= 1 && m >= 0
    ensures x * m >= m
  {}

  lemma Distribute(x: int, y: int, m: int)
    ensures (x - y) * m == x * m - y * m
  {}

  lemma Pow2Values()
    ensures Pow2(12) == 0x1000 && Pow2(16) == 0x1_0000
    ensures Pow2(32) == 0x1_0000_0000 && Pow2(64) == 0x1_0000_0000_0000_0000
  {
    assert Pow2(12) == 0x1000 && Pow2(16) == 0x1_0000;
    Pow2Add(16, 16);
    Pow2Add(32, 32);
  }

  lemma DivMod(a: int, m: int, q: int, r: int)
    requires m > 0 && 0 <= r < m && a == q * m + r
    ensures a / m == q && a % m == r
  {
    var q', r' := a / m, a % m;
    assert a == m * q' + r';
    assert m * q' == q' * m;
    Distribute(q, q', m);
    Distribute(q', q, m);
    if q > q' { MulAtLeast(q - q', m); }
    if q' > q { MulAtLeast(q' - q, m); }
  }

  lemma DivDiv(a: nat, m: nat, n: nat)
    requires m > 0 && n > 0
    ensures m * n > 0 && a / (m * n) == a / m / n
    ensures a % (m * n) == a % m + m * (a / m % n)
  {
    var x, y := a / m, a % m;
    var q, z := x / n, x % n;
    assert m * n > 0 by { MulAtLeast(m, n); }
    calc {
      a;
      m * x + y;
      { assert x == n * q + z; }
      m * (n * q + z) + y;
      { Distribute3(m, n, q, z); }
      q * (m * n) + (m * z + y);
    }
    assert m * z + y < m * n by {
      Distribute(n, z, m);
      MulAtLeast(n - z, m);
      assert n * m == m * n && z * m == m * z;
    }
    assert m * z >= 0;
    DivMod(a, m * n, q, m * z + y);
  }

  lemma Distribute3(m: int, n: int, q: int, z: int)
    ensures m * (n * q + z) == q * (m * n) + m * z
  {
    assert m * (n * q + z) == m * (n * q) + m * z;
    assert m * (n * q) == (m * n) * q;
  }

  /** Masking with 2^k - 1 is the remainder by 2^k. */
  lemma {:induction false} AndMask(a: nat, k: nat)
    ensures And(a, Pow2(k) - 1) == a % Pow2(k)
  {
    if a == 0 {
      DivMod(0, Pow2(k), 0, 0);
    } else if k == 0 {
      DivMod(a, 1, a, 0);
      AndZero(a);
    } else {
      var m := Pow2(k - 1);
      AndMask(a / 2, k - 1);
      AndStep(a, m, a / 2 % m);
    }
  }

  lemma AndStep(a: nat, m: nat, low: nat)
    requires m >= 1 && a > 0 && low == a / 2 % m && And(a / 2, m - 1) == low
    ensures And(a, 2 * m - 1) == a % (2 * m)
  {
    MaskHalf(m);
    assert And(a, 2 * m - 1) == 2 * low + a % 2;
    hide *;
    DivDiv(a, 2, m);
  }

  lemma AndNotStep(a: nat, m: nat, low: nat)
    requires m >= 1 && a > 0 && low == a / 2 % m && AndNot(a / 2, m - 1) == a / 2 - low
    ensures AndNot(a, 2 * m - 1) == a - a % (2 * m)
  {
    MaskHalf(m);
    assert AndNot(a, 2 * m - 1) == 2 * (a / 2 - low);
    hide *;
    DivDiv(a, 2, m);
  }

  lemma MaskHalf(m: nat)
    requires m >= 1
    ensures (2 * m - 1) / 2 == m - 1 && (2 * m - 1) % 2 == 1
  {}

  lemma {:induction false} AndZero(a: nat)
    ensures And(a, 0) == 0 && AndNot(a, 0) == a
  {
    if a != 0 { AndZero(a / 2); }
  }

  /** Clearing the low k bits rounds down to a multiple of 2^k. */
  lemma {:induction false} AndNotMask(a: nat, k: nat)
    ensures AndNot(a, Pow2(k) - 1) == a - a % Pow2(k)
  {
    if a == 0 {
      DivMod(0, Pow2(k), 0, 0);
    } else if k == 0 {
      DivMod(a, 1, a, 0);
      AndZero(a);
    } else {
      var m := Pow2(k - 1);
      AndNotMask(a / 2, k - 1);
      AndNotStep(a, m, a / 2 % m);
    }
  }

  /** A bit of a that is not in b stays, bit by bit. */
  lemma {:induction false} AndNotBit(a: nat, b: nat, k: nat)
    ensures Bit(AndNot(a, b), k) <==> Bit(a, k) && !Bit(b, k)
  {
    var r := AndNot(a, b);
    if a == 0 {
      DivMod(0, Pow2(k), 0, 0);
    } else if k == 0 {
      DivMod(a, 1, a, 0);
      DivMod(b, 1, b, 0);
      DivMod(r, 1, r, 0);
    } else {
      AndNotBit(a / 2, b / 2, k - 1);
      assert r / 2 == AndNot(a / 2, b / 2);
      DivDiv(a, 2, Pow2(k - 1));
      DivDiv(b, 2, Pow2(k - 1));
      DivDiv(r, 2, Pow2(k - 1));
    }
  }

  /** OR of numbers without common bits is their sum. */
  lemma {:induction false} OrDisjoint(a: nat, b: nat, k: nat)
    requires a % Pow2(k) == 0 && b < Pow2(k)
    ensures Or(a, b) == a + b
    decreases a + b
  {
    if a != 0 && b != 0 {
      var m := Pow2(k - 1);
      DivDiv(a, 2, m);
      assert a % 2 == 0 && a / 2 % m == 0 by {
        assert a % 2 + 2 * (a / 2 % m) == 0;
      }
      OrDisjoint(a / 2, b / 2, k - 1);
    }
  }

  /** OR with its own low bits changes nothing. */
  lemma {:induction false} OrLowBits(a: nat, k: nat)
    ensures Or(a, a % Pow2(k)) == a
  {
    if a == 0 {
      DivMod(0, Pow2(k), 0, 0);
    } else if k == 0 {
      DivMod(a, 1, a, 0);
    } else {
      var m := Pow2(k - 1);
      OrLowBits(a / 2, k - 1);
      OrStep(a, m, a / 2 % m);
    }
  }

  lemma OrStep(a: nat, m: nat, low: nat)
    requires m >= 1 && a > 0 && low == a / 2 % m && Or(a / 2, low) == a / 2
    ensures Or(a, a % (2 * m)) == a
  {
    DivDiv(a, 2, m);
    assert a == 2 * (a / 2) + a % 2;
    assert a % (2 * m) == a % 2 + 2 * low;
  }

  /** Clearing bits makes a number no larger. */
  lemma {:induction false} AndNotAtMost(a: nat, b: nat)
    ensures AndNot(a, b) <= a
  {
    if a != 0 { AndNotAtMost(a / 2, b / 2); }
  }

  lemma {:induction false} OrCommutes(a: nat, b: nat)
    ensures Or(a, b) == Or(b, a)
    decreases a + b
  {
    if a != 0 && b != 0 { OrCommutes(a / 2, b / 2); }
  }
}
