/** SoftFloat routines on binary formats: rounding to an integral value and conversions to and from 32-bit
    integers, against the exact values of the numbers (sections 3.4, 4.3, 5.8 and 5.9 of IEEE 754-2008). */
module SoftFloat {
  import opened Bits

  /** A binary format: fraction bits, the largest exponent field, and the bias. */
  datatype Format = Format(p: nat, top: nat, bias: nat)

  const F32 := Format(23, 0xff, 0x7f)
  const F64 := Format(52, 0x7ff, 0x3ff)

  predicate Usable(f: Format) {
    f.p >= 1 && f.bias >= 2 && f.bias + f.p + 1 < f.top && f.top % 2 == 1 && f.bias % 2 == 1
  }

  /** The weight of the sign bit. */
  function SignBit(f: Format): nat { (f.top + 1) * Pow2(f.p) }

  predicate IsFloat(f: Format, a: nat) { a < 2 * SignBit(f) }
  predicate Sign(f: Format, a: nat) { a >= SignBit(f) }
  function Body(f: Format, a: nat): nat { if a >= SignBit(f) then a - SignBit(f) else a }
  function Exp(f: Format, a: nat): nat { QuotientNat(Body(f, a), Pow2(f.p)); Body(f, a) / Pow2(f.p) }
  function Frac(f: Format, a: nat): nat { Body(f, a) % Pow2(f.p) }
  function Pack(f: Format, sign: bool, exp: nat, frac: nat): nat {
    (if sign then SignBit(f) else 0) + exp * Pow2(f.p) + frac
  }

  predicate IsNaN(f: Format, a: nat) { Exp(f, a) == f.top && Frac(f, a) != 0 }
  predicate Finite(f: Format, a: nat) { IsFloat(f, a) && Exp(f, a) < f.top }

  /** The magnitude of a finite number, in units of the least subnormal number; and 1.0 in the same units. */
  function Significand(f: Format, a: nat): nat { Frac(f, a) + if Exp(f, a) == 0 then 0 else Pow2(f.p) }
  function Mag(f: Format, a: nat): nat { Significand(f, a) * Pow2(if Exp(f, a) == 0 then 0 else Exp(f, a) - 1) }
  function One(f: Format): nat
    requires f.bias + f.p >= 1
  {
    Pow2(f.bias + f.p - 1)
  }

  datatype Mode = NearEven | MinMag | Min | Max | NearMaxMag

  /** Whether a quotient q with a remainder r of a division by m is rounded away from zero. */
  predicate RoundsUp(mode: Mode, sign: bool, q: nat, r: nat, m: nat) {
    match mode
    case NearEven => 2 * r > m || (2 * r == m && q % 2 == 1)
    case MinMag => false
    case Min => sign && r > 0
    case Max => !sign && r > 0
    case NearMaxMag => 2 * r >= m
  }

  /** n / one, rounded to an integer. */
  function Rounded(mode: Mode, sign: bool, n: nat, one: nat): nat
    requires one > 0
  {
    QuotientNat(n, one);
    n / one + if RoundsUp(mode, sign, n / one, n % one, one) then 1 else 0
  }

  // ---------------------------------------------------------------- fields

  lemma PackFields(f: Format, sign: bool, exp: nat, frac: nat)
    requires exp <= f.top && frac < Pow2(f.p)
    ensures var a := Pack(f, sign, exp, frac);
            && IsFloat(f, a) && Sign(f, a) == sign && Body(f, a) == exp * Pow2(f.p) + frac
            && Exp(f, a) == exp && Frac(f, a) == frac
  {
    var p := Pow2(f.p);
    Distribute(f.top + 1, exp, p);
    MulAtLeast(f.top + 1 - exp, p);
    NonNeg(exp, p);
    DivMod(exp * p + frac, p, exp, frac);
  }

  lemma NonNeg(x: int, y: int)
    requires x >= 0 && y >= 0
    ensures x * y >= 0
  {}

  /** A number is its fields. */
  lemma FieldsPack(f: Format, a: nat)
    requires IsFloat(f, a)
    ensures Exp(f, a) <= f.top && Frac(f, a) < Pow2(f.p)
    ensures a == Pack(f, Sign(f, a), Exp(f, a), Frac(f, a)) && Body(f, a) == Exp(f, a) * Pow2(f.p) + Frac(f, a)
  {
    var b, p := Body(f, a), Pow2(f.p);
    assert b < (f.top + 1) * p;
    hide *;
    QuotientBound(b, p, f.top + 1);
  }

  lemma QuotientBound(b: nat, p: nat, n: nat)
    requires p > 0 && b < n * p
    ensures b / p < n && b == b / p * p + b % p
  {
    var q := b / p;
    assert b == p * q + b % p;
    if q >= n {
      Distribute(q, n, p);
      NonNeg(q - n, p);
    }
  }

  /** A finite number is determined by its sign and its magnitude. */
  lemma MagDetermines(f: Format, a: nat, b: nat)
    requires Finite(f, a) && Finite(f, b) && Sign(f, a) == Sign(f, b) && Mag(f, a) == Mag(f, b)
    ensures a == b
  {
    FieldsPack(f, a);
    FieldsPack(f, b);
    var ea, eb, sa, sb, p := Exp(f, a), Exp(f, b), Significand(f, a), Significand(f, b), Pow2(f.p);
    if ea < eb {
      MagBelow(f, a, b);
    } else if eb < ea {
      MagBelow(f, b, a);
    } else {
      var k := Pow2(if ea == 0 then 0 else ea - 1);
      assert sa * k == sb * k;
      hide *;
      Cancel(sa, sb, k);
    }
  }

  lemma Cancel(x: int, y: int, k: int)
    requires k > 0 && x * k == y * k
    ensures x == y
  {
    if x > y { MulAtLeast(x - y, k); Distribute(x, y, k); }
    if y > x { MulAtLeast(y - x, k); Distribute(y, x, k); }
  }

  lemma MagBelow(f: Format, a: nat, b: nat)
    requires IsFloat(f, a) && IsFloat(f, b) && Exp(f, a) < Exp(f, b)
    ensures Mag(f, a) < Mag(f, b)
  {
    FieldsPack(f, a);
    FieldsPack(f, b);
    var ea, eb, p := Exp(f, a), Exp(f, b), Pow2(f.p);
    var x, y := if ea == 0 then 0 else ea - 1, eb - 1;
    Pow2Add(y - x, x);
    var sa, sb, k, j := Significand(f, a), Significand(f, b), Pow2(x), Pow2(y - x);
    if ea > 0 { assert j == 2 * Pow2(y - x - 1); }
    assert ea == 0 || j >= 2;
    assert sb >= p && (ea == 0 ==> sa < p) && sa < 2 * p;
    hide *;
    Bigger(sa, sb, p, j, k);
  }

  lemma Bigger(sa: nat, sb: nat, p: nat, j: nat, k: nat)
    requires k > 0 && j >= 1 && sb >= p && (sa < p || (j >= 2 && sa < 2 * p))
    ensures sa * k < sb * (j * k)
  {
    assert sb * j >= p * j by { Distribute(sb, p, j); NonNeg(sb - p, j); }
    assert p * j >= p by { MulAtLeast(j, p); }
    assert j >= 2 ==> p * j >= 2 * p by { if j >= 2 { Distribute(j, 2, p); NonNeg(j - 2, p); } }
    assert sa < sb * j;
    assert sb * (j * k) == (sb * j) * k;
    Distribute(sb * j, sa, k);
    MulAtLeast(sb * j - sa, k);
  }

  // ---------------------------------------------------------------- rounding to an integral value

  /** A magnitude below 1.0: where it lies relative to one half. */
  ghost predicate BelowOneAt(n: nat, one: nat, last: bool, zero: bool, c: nat) {
    && n < one && one % 2 == 0 && (2 * n >= one <==> last) && (2 * n == one <==> last && c == 0)
    && (n == 0 <==> zero && c == 0)
  }

  lemma BelowOne(f: Format, a: nat)
    requires Usable(f) && IsFloat(f, a) && Exp(f, a) <= f.bias - 1
    ensures BelowOneAt(Mag(f, a), One(f), Exp(f, a) == f.bias - 1, Exp(f, a) == 0, Frac(f, a))
    ensures Mag(f, a) / One(f) == 0 && Mag(f, a) % One(f) == Mag(f, a)
  {
    FieldsPack(f, a);
    var e, c, p := Exp(f, a), Frac(f, a), Pow2(f.p);
    HalfOne(f);
    if e == f.bias - 1 {
      AtHalf(c, p, Pow2(f.bias - 2));
    } else {
      var x := if e == 0 then 0 else e - 1;
      Pow2Add(f.bias - 2 - x, x);
      assert e > 0 ==> Pow2(f.bias - 2 - x) == 2 * Pow2(f.bias - 2 - x - 1);
      UnderHalf(c, p, Pow2(f.bias - 2 - x), Pow2(x), e == 0);
    }
    var n, one := Mag(f, a), One(f);
    hide *;
    SmallQuotient(n, one);
  }

  lemma SmallQuotient(n: nat, m: nat)
    requires n < m
    ensures n / m == 0 && n % m == n
  {}

  lemma HalfOne(f: Format)
    requires Usable(f)
    ensures One(f) == 2 * (Pow2(f.p) * Pow2(f.bias - 2))
  {
    Pow2Add(f.p, f.bias - 2);
  }

  lemma AtHalf(c: nat, p: nat, h: nat)
    requires c < p && h > 0
    ensures BelowOneAt((c + p) * h, 2 * (p * h), true, false, c)
  {
    Distribute(c + p, p, h);
    NonNeg(c, h);
    Distribute(2 * p, c + p, h);
    MulAtLeast(p - c, h);
    if c > 0 { MulAtLeast(c, h); }
    MulAtLeast(p, h);
  }

  lemma UnderHalf(c: nat, p: nat, j: nat, k: nat, zero: bool)
    requires c < p && k > 0 && j >= 1 && (zero || j >= 2)
    ensures BelowOneAt((c + if zero then 0 else p) * k, 2 * (p * (j * k)), false, zero, c)
  {
    var sig := c + if zero then 0 else p;
    MulAtLeast(j, p);
    if j >= 2 { Distribute(j, 2, p); NonNeg(j - 2, p); }
    assert sig < j * p;
    AssociateSwapped(p, j, k);
    Distribute(j * p, sig, k);
    MulAtLeast(j * p - sig, k);
    if sig > 0 { MulAtLeast(sig, k); }
  }

  lemma AssociateSwapped(p: nat, j: nat, k: nat)
    ensures p * (j * k) == j * p * k
  {}

  /** A magnitude with no fraction bits below 1.0 is integral. */
  lemma AboveFraction(f: Format, a: nat)
    requires Usable(f) && IsFloat(f, a) && Exp(f, a) >= f.bias + f.p
    ensures Mag(f, a) % One(f) == 0 && Mag(f, a) == Mag(f, a) / One(f) * One(f)
  {
    var x := Exp(f, a) - f.bias - f.p;
    Pow2Add(x, f.bias + f.p - 1);
    assert Mag(f, a) == Significand(f, a) * (Pow2(x) * One(f)) && One(f) > 0;
    var n, sig, j, one := Mag(f, a), Significand(f, a), Pow2(x), One(f);
    hide *;
    Associate(sig, j, one);
    NonNeg(sig, j);
    DivMod(n, one, sig * j, 0);
  }

  /** Rounding does not depend on the scale. */
  lemma RoundedScaled(mode: Mode, sign: bool, n: nat, m: nat, k: nat)
    requires m > 0 && k > 0
    ensures m * k > 0 && Rounded(mode, sign, n * k, m * k) == Rounded(mode, sign, n, m)
    ensures n * k % (m * k) == n % m * k && (n * k % (m * k) == 0 <==> n % m == 0)
  {
    var q, r := n / m, n % m;
    assert n == m * q + r;
    MulAtLeast(m, k);
    Scaled(n, m, q, r, k);
    DivMod(n * k, m * k, q, r * k);
    ScaledOrder(r, m, k);
  }

  lemma Scaled(n: nat, m: nat, q: nat, r: nat, k: nat)
    requires n == m * q + r && r < m && k > 0
    ensures n * k == q * (m * k) + r * k && 0 <= r * k < m * k
  {
    assert (m * q) * k == q * (m * k);
    Distribute(m, r, k);
    MulAtLeast(m - r, k);
    NonNeg(r, k);
  }

  lemma ScaledOrder(r: nat, m: nat, k: nat)
    requires k > 0
    ensures (2 * (r * k) > m * k <==> 2 * r > m) && (2 * (r * k) == m * k <==> 2 * r == m)
    ensures (r * k > 0 <==> r > 0) && (r * k == 0 <==> r == 0)
  {
    assert 2 * (r * k) == (2 * r) * k;
    if 2 * r > m { Distribute(2 * r, m, k); MulAtLeast(2 * r - m, k); }
    if 2 * r < m { Distribute(m, 2 * r, k); MulAtLeast(m - 2 * r, k); }
    if r > 0 { MulAtLeast(r, k); }
  }

  /** Clearing one bit. */
  lemma {:induction false} AndNotBit(a: nat, k: nat)
    ensures AndNot(a, Pow2(k)) == if Bit(a, k) then a - Pow2(k) else a
    ensures Bit(a, k) ==> a >= Pow2(k)
  {
    if a == 0 {
      DivMod(0, Pow2(k), 0, 0);
    } else if k == 0 {
      AndZero(a / 2);
      DivMod(a, 1, a, 0);
    } else {
      AndNotBit(a / 2, k - 1);
      BitHalf(a, k);
      assert Pow2(k) % 2 == 0 && Pow2(k) / 2 == Pow2(k - 1);
    }
  }

  lemma BitHalf(a: nat, k: nat)
    requires k > 0
    ensures Bit(a, k) == Bit(a / 2, k - 1)
  {
    DivDiv(a, 2, Pow2(k - 1));
  }

  /** A number with m bits below 1.0 is an even multiple of 2^m and its significand. */
  lemma EvenBase(f: Format, a: nat, m: nat) returns (k: nat)
    requires Usable(f) && IsFloat(f, a) && f.bias <= Exp(f, a) && 1 <= m == f.bias + f.p - Exp(f, a)
    ensures a == k * Pow2(m) + Significand(f, a) && k % 2 == 0
    ensures k * Pow2(m) == (if Sign(f, a) then SignBit(f) else 0) + (Exp(f, a) - 1) * Pow2(f.p)
  {
    hide *;
    BaseParts(f, a);
    var h := EvenParts(f, a, m);
    var g := if Sign(f, a) then f.top + 1 else 0;
    SumProduct(g, Exp(f, a), Pow2(f.p));
    k := EvenMultiple(g + (Exp(f, a) - 1), Pow2(f.p - m), h, Pow2(m), Pow2(f.p));
  }

  lemma EvenParts(f: Format, a: nat, m: nat) returns (h: nat)
    requires Usable(f) && f.bias <= Exp(f, a) && 1 <= m == f.bias + f.p - Exp(f, a)
    ensures m <= f.p && Pow2(f.p) == Pow2(f.p - m) * Pow2(m)
    ensures var x := (if Sign(f, a) then f.top + 1 else 0) + (Exp(f, a) - 1);
            (x % 2 == 0 && Pow2(f.p - m) == 1) || Pow2(f.p - m) == 2 * h
  {
    hide Exp, Sign;
    Pow2Add(f.p - m, m);
    h := Halved(f.p - m);
  }

  lemma Halved(d: nat) returns (h: nat)
    ensures if d == 0 then Pow2(d) == 1 else Pow2(d) == 2 * h
  {
    h := if d == 0 then 0 else Pow2(d - 1);
  }

  lemma EvenMultiple(x: nat, n: nat, h: nat, q: nat, p: nat) returns (k: nat)
    requires p == n * q && ((x % 2 == 0 && n == 1) || n == 2 * h)
    ensures k * q == x * p && k % 2 == 0
  {
    k := x * n;
    EvenProduct(x, n, h);
    AssociateAs(x, n, q, p);
  }

  lemma BaseParts(f: Format, a: nat)
    requires Usable(f) && IsFloat(f, a) && f.bias <= Exp(f, a)
    ensures var g := if Sign(f, a) then f.top + 1 else 0; var p := Pow2(f.p);
            && a == g * p + (Exp(f, a) - 1) * p + Significand(f, a)
            && (if Sign(f, a) then SignBit(f) else 0) == g * p && Exp(f, a) >= 1
  {
    FieldsPack(f, a);
    var e, p := Exp(f, a), Pow2(f.p);
    Distribute(e, 1, p);
  }

  lemma SumProduct(g: nat, e: nat, p: nat)
    requires e >= 1
    ensures (g + (e - 1)) * p == g * p + (e - 1) * p && (e - 1) * p + p == e * p
  {}

  lemma EvenProduct(x: nat, n: nat, h: nat)
    requires (x % 2 == 0 && n == 1) || n == 2 * h
    ensures x * n % 2 == 0
  {
    if n == 2 * h { assert x * n == 2 * (x * h); }
  }

  lemma AssociateAs(x: nat, n: nat, m: nat, p: nat)
    requires p == n * m
    ensures x * n * m == x * p
  {}

  /** Rounding down to a multiple. */
  lemma FloorAt(v: nat, t: nat, m: nat, x: nat)
    requires m > 0 && v == t * m + x && x < 2 * m
    ensures v - v % m == (if x < m then t else t + 1) * m && (v % m == 0 <==> x == 0 || x == m)
  {
    if x < m { DivMod(v, m, t, x); } else { DivMod(v, m, t + 1, x - m); }
  }

  /** What the bit operations of the source do to a number with m bits below 1.0. */
  function RoundedBits(mode: Mode, sign: bool, a: nat, m: nat): nat
    requires m >= 1
  {
    var last := Pow2(m);
    var v := match mode
      case NearMaxMag => a + last / 2
      case NearEven => (var w := a + last / 2; if And(w, last - 1) == 0 then AndNot(w, last) else w)
      case MinMag => a
      case Min => if sign then a + (last - 1) else a
      case Max => if !sign then a + (last - 1) else a;
    AndNot(v, last - 1)
  }

  /** Clearing the low m bits. */
  lemma LowCleared(v: nat, t: nat, m: nat, x: nat)
    requires v == t * Pow2(m) + x && x < 2 * Pow2(m)
    ensures AndNot(v, Pow2(m) - 1) == (if x < Pow2(m) then t else t + 1) * Pow2(m)
    ensures And(v, Pow2(m) - 1) == 0 <==> x == 0 || x == Pow2(m)
  {
    AndMask(v, m);
    AndNotMask(v, m);
    FloorAt(v, t, Pow2(m), x);
  }

  /** The two multiples of 2^m next to a number, and what the bit operations make of it. */
  ghost predicate Alternatives(a: nat, m: nat, t: nat, r: nat, half: nat, x: nat, y: nat) {
    && Pow2(m) == 2 * half && r < 2 * half && a == x + r && y == x + 2 * half
    && AndNot(a, Pow2(m) - 1) == x && AndNot(a + half, Pow2(m) - 1) == (if r < half then x else y)
    && AndNot(a + (Pow2(m) - 1), Pow2(m) - 1) == (if r == 0 then x else y)
    && (And(a + half, Pow2(m) - 1) == 0 <==> r == half)
    && (r == half ==> AndNot(AndNot(a + half, Pow2(m)), Pow2(m) - 1) == if t % 2 == 0 then x else y)
  }

  lemma Neighbours(a: nat, m: nat, t: nat, r: nat)
    requires m >= 1 && a == t * Pow2(m) + r && r < Pow2(m)
    ensures Alternatives(a, m, t, r, Pow2(m - 1), t * Pow2(m), (t + 1) * Pow2(m))
  {
    var last, half := Pow2(m), Pow2(m - 1);
    assert last == 2 * half && (t + 1) * last == t * last + last;
    hide And, AndNot, Pow2;
    LowCleared(a, t, m, r);
    LowCleared(a + half, t, m, r + half);
    LowCleared(a + (last - 1), t, m, r + (last - 1));
    if r == half { TieToEven(a + half, t, m); }
  }

  lemma RoundedBitsRight(mode: Mode, sign: bool, a: nat, m: nat, k: nat, sig: nat)
    requires m >= 1 && k % 2 == 0 && a == k * Pow2(m) + sig
    ensures RoundedBits(mode, sign, a, m) == (k + Rounded(mode, sign, sig, Pow2(m))) * Pow2(m)
    ensures RoundedBits(mode, sign, a, m) == a <==> sig % Pow2(m) == 0
  {
    hide Alternatives, And, AndNot, Pow2, RoundedBits, RoundsUp;
    QuotientNat(sig, Pow2(m));
    var q, r := sig / Pow2(m), sig % Pow2(m);
    SigParts(k, q, r, Pow2(m), sig);
    Neighbours(a, m, k + q, r);
    Chosen(mode, sign, a, m, q, k + q, r, Pow2(m - 1), (k + q) * Pow2(m), (k + q + 1) * Pow2(m));
  }

  lemma Chosen(mode: Mode, sign: bool, a: nat, m: nat, q: nat, t: nat, r: nat, half: nat, x: nat, y: nat)
    requires m >= 1 && t % 2 == q % 2 && Alternatives(a, m, t, r, half, x, y)
    ensures RoundedBits(mode, sign, a, m) == if RoundsUp(mode, sign, q, r, Pow2(m)) then y else x
    ensures RoundedBits(mode, sign, a, m) == a <==> r == 0
  {
    hide And, AndNot, Pow2;
  }

  lemma SigParts(k: nat, q: nat, r: nat, last: nat, sig: nat)
    requires last > 0 && q == sig / last && r == sig % last
    ensures k * last + sig == (k + q) * last + r && (k + q + 1) * last == (k + q) * last + last
  {
    assert sig == last * q + r && last * q == q * last;
    assert (k + q) * last == k * last + q * last;
  }

  /** On a tie the last bit is cleared, which leaves an even multiple. */
  lemma TieToEven(v: nat, t: nat, m: nat)
    requires v == (t + 1) * Pow2(m)
    ensures AndNot(AndNot(v, Pow2(m)), Pow2(m) - 1) == if t % 2 == 0 then t * Pow2(m) else (t + 1) * Pow2(m)
  {
    var last := Pow2(m);
    AndNotBit(v, m);
    DivMod(v, last, t + 1, 0);
    var s := if t % 2 == 0 then t else t + 1;
    assert AndNot(v, last) == s * last;
    AndNotMask(s * last, m);
    DivMod(s * last, last, s, 0);
  }

  /** The rounded number, with a carry from the fraction into the exponent if there is one. */
  lemma MidResult(f: Format, a: nat, m: nat, k: nat, n: nat, z: nat)
    requires Usable(f) && IsFloat(f, a) && f.bias <= Exp(f, a) && 1 <= m == f.bias + f.p - Exp(f, a)
    requires k * Pow2(m) == (if Sign(f, a) then SignBit(f) else 0) + (Exp(f, a) - 1) * Pow2(f.p)
    requires Significand(f, a) / Pow2(m) <= n <= Significand(f, a) / Pow2(m) + 1
    requires n == Significand(f, a) / Pow2(m) + 1 ==> Significand(f, a) % Pow2(m) > 0
    requires z == (k + n) * Pow2(m)
    ensures Finite(f, z) && Sign(f, z) == Sign(f, a) && Mag(f, z) == n * One(f)
  {
    FieldsPack(f, a);
    var e, p, q, d := Exp(f, a), Pow2(f.p), Pow2(m), Pow2(f.p - m);
    Pow2Add(f.p - m, m);
    Pow2Add(m, e - 1);
    var sig, c, g := Significand(f, a), n * q, if Sign(f, a) then SignBit(f) else 0;
    assert p <= sig < 2 * p && One(f) == q * Pow2(e - 1);
    hide Pow2, One, Significand, Exp, Frac, Sign, SignBit;
    RoundedRange(sig, p, d, q, n);
    Associate(n, q, Pow2(e - 1));
    SplitProduct(k, n, q);
    if c < 2 * p {
      WithoutCarry(f, Sign(f, a), e, c);
    } else {
      WithCarry(f, Sign(f, a), e);
    }
  }

  lemma SplitProduct(k: nat, n: nat, q: nat)
    ensures (k + n) * q == k * q + n * q
  {}

  lemma WithoutCarry(f: Format, sign: bool, e: nat, c: nat)
    requires Usable(f) && 1 <= e < f.top && Pow2(f.p) <= c < 2 * Pow2(f.p)
    ensures var z := (if sign then SignBit(f) else 0) + (e - 1) * Pow2(f.p) + c;
            Finite(f, z) && Sign(f, z) == sign && Mag(f, z) == c * Pow2(e - 1) && Exp(f, z) == e
  {
    var p := Pow2(f.p);
    PackFields(f, sign, e, c - p);
    assert (e - 1) * p + p == e * p;
  }

  lemma WithCarry(f: Format, sign: bool, e: nat)
    requires Usable(f) && 1 <= e && e + 1 < f.top
    ensures var c := 2 * Pow2(f.p); var z := (if sign then SignBit(f) else 0) + (e - 1) * Pow2(f.p) + c;
            Finite(f, z) && Sign(f, z) == sign && Mag(f, z) == c * Pow2(e - 1)
  {
    var p, h := Pow2(f.p), Pow2(e - 1);
    PackFields(f, sign, e + 1, 0);
    assert Pow2(e) == 2 * h;
    Distribute(e + 1, 2, p);
    Associate(p, 2, h);
  }

  lemma Associate(n: nat, q: nat, h: nat)
    ensures n * (q * h) == n * q * h
  {}

  lemma RoundedRange(sig: nat, p: nat, d: nat, q: nat, n: nat)
    requires q > 0 && p == d * q && p <= sig < 2 * p
    requires sig / q <= n <= sig / q + 1 && (n == sig / q + 1 ==> sig % q > 0)
    ensures p <= n * q <= 2 * p
  {
    var b := sig / q;
    assert sig == q * b + sig % q && q * b == b * q;
    assert 2 * d * q == 2 * p;
    OrderOfProducts(d, b + 1, q);
    OrderOfProducts(b, 2 * d, q);
    Distribute(b + 1, 1, q);
    OrderKept(d, n, q);
    OrderKept(n, 2 * d, q);
  }

  lemma OrderOfProducts(x: int, y: int, q: int)
    requires q > 0 && x * q < y * q
    ensures x < y
  {
    Distribute(x, y, q);
    if x >= y { NonNeg(x - y, q); }
  }

  lemma OrderKept(x: int, y: int, q: int)
    requires q >= 0
    ensures x <= y ==> x * q <= y * q
  {
    Distribute(y, x, q);
    if x <= y { NonNeg(y - x, q); }
  }

  /** Whether a number below 1.0, at least one half if `half`, goes up to 1.0. */
  predicate SmallUp(mode: Mode, sign: bool, half: bool, frac: nat) {
    match mode
    case NearEven => frac != 0 && half
    case MinMag => false
    case Min => sign
    case Max => !sign
    case NearMaxMag => half
  }

  lemma SmallRight(f: Format, a: nat, mode: Mode)
    requires Usable(f) && IsFloat(f, a) && Exp(f, a) <= f.bias - 1 && Body(f, a) != 0
    ensures var up := SmallUp(mode, Sign(f, a), Exp(f, a) == f.bias - 1, Frac(f, a));
            IntegralOf(f, a, mode, Pack(f, Sign(f, a), if up then f.bias else 0, 0))
    ensures Mag(f, a) % One(f) != 0
  {
    BelowOne(f, a);
    BodyZero(f, a);
    SmallResults(f, Sign(f, a));
    hide *;
    var up := SmallUp(mode, Sign(f, a), Exp(f, a) == f.bias - 1, Frac(f, a));
    SameUp(mode, Sign(f, a), Mag(f, a), One(f), Exp(f, a) == f.bias - 1, Exp(f, a) == 0, Frac(f, a));
    SmallIntegral(f, a, mode, Pack(f, Sign(f, a), if up then f.bias else 0, 0), up);
  }

  lemma BodyZero(f: Format, a: nat)
    requires Usable(f) && IsFloat(f, a)
    ensures Body(f, a) == 0 <==> Exp(f, a) == 0 && Frac(f, a) == 0
    ensures f.bias >= 2
  {
    FieldsPack(f, a);
    NonNeg(Exp(f, a), Pow2(f.p));
    if Exp(f, a) > 0 { MulAtLeast(Exp(f, a), Pow2(f.p)); }
  }

  lemma SameUp(mode: Mode, sign: bool, n: nat, one: nat, half: bool, zero: bool, frac: nat)
    requires BelowOneAt(n, one, half, zero, frac) && !(zero && frac == 0)
    ensures RoundsUp(mode, sign, 0, n, one) == SmallUp(mode, sign, half, frac) && n != 0
  {}

  lemma SmallIntegral(f: Format, a: nat, mode: Mode, z: nat, up: bool)
    requires f.bias + f.p >= 1 && Finite(f, z) && Sign(f, z) == Sign(f, a) && Mag(f, z) == if up then One(f) else 0
    requires Mag(f, a) / One(f) == 0 && RoundsUp(mode, Sign(f, a), 0, Mag(f, a) % One(f), One(f)) == up
    ensures IntegralOf(f, a, mode, z)
  {
    hide Mag, One, Sign, Finite, RoundsUp;
  }

  lemma SmallZero(f: Format, a: nat, mode: Mode)
    requires Usable(f) && IsFloat(f, a) && Body(f, a) == 0
    ensures Exp(f, a) == 0 && IntegralOf(f, a, mode, a) && Mag(f, a) % One(f) == 0
  {
    DivMod(0, Pow2(f.p), 0, 0);
    assert Mag(f, a) == 0;
    DivMod(0, One(f), 0, 0);
  }

  lemma LargeRight(f: Format, a: nat, mode: Mode)
    requires Usable(f) && IsFloat(f, a) && f.bias + f.p <= Exp(f, a) < f.top
    ensures IntegralOf(f, a, mode, a) && Mag(f, a) % One(f) == 0
  {
    AboveFraction(f, a);
  }

  lemma MidRight(f: Format, a: nat, mode: Mode, m: nat)
    requires Usable(f) && IsFloat(f, a) && f.bias <= Exp(f, a) && 1 <= m == f.bias + f.p - Exp(f, a)
    ensures IntegralOf(f, a, mode, RoundedBits(mode, Sign(f, a), a, m))
    ensures RoundedBits(mode, Sign(f, a), a, m) != a <==> Mag(f, a) % One(f) != 0
  {
    var sign, sig, e := Sign(f, a), Significand(f, a), Exp(f, a);
    var k := EvenBase(f, a, m);
    RoundedBitsRight(mode, sign, a, m, k, sig);
    RoundedScaled(mode, sign, sig, Pow2(m), Pow2(e - 1));
    Pow2Add(m, e - 1);
    assert One(f) == Pow2(m) * Pow2(e - 1) && Mag(f, a) == sig * Pow2(e - 1);
    UpMeansRest(mode, sign, sig, Pow2(m));
    hide *;
    MidResult(f, a, m, k, Rounded(mode, sign, sig, Pow2(m)), RoundedBits(mode, sign, a, m));
    IntegralIs(f, a, mode, RoundedBits(mode, sign, a, m));
  }

  lemma IntegralIs(f: Format, a: nat, mode: Mode, z: nat)
    requires f.bias + f.p >= 1 && Finite(f, z) && Sign(f, z) == Sign(f, a)
    requires Mag(f, z) == Rounded(mode, Sign(f, a), Mag(f, a), One(f)) * One(f)
    ensures IntegralOf(f, a, mode, z)
  {}

  lemma UpMeansRest(mode: Mode, sign: bool, n: nat, m: nat)
    requires m > 0
    ensures n / m <= Rounded(mode, sign, n, m) <= n / m + 1
    ensures Rounded(mode, sign, n, m) == n / m + 1 ==> n % m > 0
  {}

  /** z is the integral value that a rounds to, with the sign of a. */
  ghost predicate IntegralOf(f: Format, a: nat, mode: Mode, z: nat)
    requires f.bias + f.p >= 1
  {
    Finite(f, z) && Sign(f, z) == Sign(f, a) && Mag(f, z) == Rounded(mode, Sign(f, a), Mag(f, a), One(f)) * One(f)
  }

  /** Zero and one. */
  lemma SmallResults(f: Format, sign: bool)
    requires Usable(f)
    ensures var z, o := Pack(f, sign, 0, 0), Pack(f, sign, f.bias, 0);
            && Finite(f, z) && Sign(f, z) == sign && Mag(f, z) == 0
            && Finite(f, o) && Sign(f, o) == sign && Mag(f, o) == One(f)
  {
    PackFields(f, sign, 0, 0);
    PackFields(f, sign, f.bias, 0);
    Pow2Add(f.p, f.bias - 1);
  }

  // ---------------------------------------------------------------- conversions to and from 32-bit integers

  const POS_OVERFLOW: int := 0x7fff_ffff
  const NEG_OVERFLOW: int := -0x8000_0000

  function Signed(sign: bool, v: nat): int {
    if sign then -(v as int) else v
  }

  /** The integer part of a finite number, with its sign. */
  function Truncated(f: Format, a: nat): int
    requires f.bias + f.p >= 1
  {
    QuotientNat(Mag(f, a), One(f));
    Signed(Sign(f, a), Mag(f, a) / One(f))
  }

  /** The numbers whose integer part is a 32-bit integer. */
  predicate FitsI32(f: Format, a: nat)
    requires f.bias + f.p >= 1
  {
    Exp(f, a) < f.top && NEG_OVERFLOW <= Truncated(f, a) <= POS_OVERFLOW
  }

  /** What a number is converted to if its value does not fit. */
  function Saturated(nan: bool, sign: bool): int {
    if nan then POS_OVERFLOW else if sign then NEG_OVERFLOW else POS_OVERFLOW
  }

  function ToI32(f: Format, a: nat): int
    requires f.bias + f.p >= 1
  {
    if FitsI32(f, a) then Truncated(f, a) else Saturated(IsNaN(f, a), Sign(f, a))
  }

  predicate Inexact(f: Format, a: nat, exact: bool)
    requires f.bias + f.p >= 1
  {
    FitsI32(f, a) && exact && Mag(f, a) % One(f) != 0
  }

  ghost predicate Converted(f: Format, a: nat, exact: bool, r: int, invalid: bool, inexact: bool)
    requires f.bias + f.p >= 1
  {
    r == ToI32(f, a) && invalid == !FitsI32(f, a) && inexact == Inexact(f, a, exact)
  }

  /** The integer part as the source computes it, by shifting the significand. */
  lemma TruncatedBy(f: Format, a: nat, c: nat, s: nat)
    requires f.bias + f.p >= 1 && Exp(f, a) >= 1 && s + Exp(f, a) == f.bias + f.p + c
    ensures var n, m := Significand(f, a) * Pow2(c), Pow2(s);
            Mag(f, a) / One(f) == n / m && (Mag(f, a) % One(f) == 0 <==> n % m == 0)
  {
    hide *;
    ScaledParts(f, a, c, s);
    var sig, mag, one, m, k, j := Significand(f, a), Mag(f, a), One(f), Pow2(s), Pow2(c), Pow2(Exp(f, a) - 1);
    SwapProduct(sig, j, k);
    SameQuotient(mag, one, k);
    SameQuotient(sig * k, m, j);
  }

  lemma ScaledParts(f: Format, a: nat, c: nat, s: nat)
    requires f.bias + f.p >= 1 && Exp(f, a) >= 1 && s + Exp(f, a) == f.bias + f.p + c
    ensures One(f) * Pow2(c) == Pow2(s) * Pow2(Exp(f, a) - 1)
    ensures Mag(f, a) == Significand(f, a) * Pow2(Exp(f, a) - 1) && One(f) > 0
  {
    Pow2Add(s, Exp(f, a) - 1);
    Pow2Add(f.bias + f.p - 1, c);
  }

  lemma SwapProduct(x: nat, y: nat, z: nat)
    ensures x * y * z == x * z * y
  {}

  lemma SameQuotient(n: nat, m: nat, k: nat)
    requires m > 0 && k > 0
    ensures m * k > 0 && n * k / (m * k) == n / m && (n * k % (m * k) == 0 <==> n % m == 0)
  {
    var q, r := n / m, n % m;
    assert n == m * q + r;
    MulAtLeast(m, k);
    Scaled(n, m, q, r, k);
    DivMod(n * k, m * k, q, r * k);
    ScaledOrder(r, m, k);
  }

  lemma Powers()
    ensures Pow2(0) == 1 && Pow2(1) == 2 && Pow2(8) == 0x100 && Pow2(21) == 0x20_0000
    ensures Pow2(22) == 0x40_0000 && Pow2(23) == 0x80_0000
    ensures Pow2(31) == 0x8000_0000 && Pow2(52) == 0x10_0000_0000_0000
  {
    Pow2Values();
    assert Pow2(8) == 0x100;
    Pow2Add(8, 8);
    Pow2Add(16, 5);
    assert Pow2(5) == 32;
    assert Pow2(22) == 2 * Pow2(21) && Pow2(23) == 2 * Pow2(22);
    Pow2Add(8, 23);
    Pow2Add(31, 21);
  }

  lemma ConvertedZero(f: Format, a: nat, exact: bool)
    requires Usable(f) && IsFloat(f, a) && Exp(f, a) <= f.bias - 1
    ensures Converted(f, a, exact, 0, false, exact && (Exp(f, a) != 0 || Frac(f, a) != 0))
  {
    BelowOne(f, a);
    hide Mag, One, Exp, Frac, Sign;
  }

  lemma F64Small(a: nat, exact: bool)
    requires IsFloat(F64, a) && Exp(F64, a) <= 0x3fe
    ensures Converted(F64, a, exact, 0, false, exact && (Exp(F64, a) != 0 || Frac(F64, a) != 0))
  {
    hide Converted, IsFloat, Exp, Frac;
    ConvertedZero(F64, a, exact);
  }

  lemma F64Large(a: nat, exact: bool)
    requires IsFloat(F64, a) && 0x41e <= Exp(F64, a)
    ensures var exp, sig, sign := Exp(F64, a), Frac(F64, a), Sign(F64, a);
            if sign && exp == 0x41e && sig < 0x20_0000 then
              Converted(F64, a, exact, -0x8000_0000, false, exact && sig != 0)
            else Converted(F64, a, exact, Saturated(exp == 0x7ff && sig != 0, sign), true, false)
  {
    hide Pow2, Mag, One, Frac, Exp, Sign, IsFloat, Significand, Body, Pack, Converted;
    Powers();
    FieldsPack(F64, a);
    SignificandParts(F64, a);
    var e, sig := Exp(F64, a), Significand(F64, a);
    TruncatedBy(F64, a, e - 0x41e, 21);
    PowerAbove(e - 0x41e);
    TopQuotient(sig, Frac(F64, a), Pow2(e - 0x41e));
    ConvertedTop(F64, a, exact, sig * Pow2(e - 0x41e) / 0x20_0000);
  }

  lemma PowerAbove(c: nat)
    ensures Pow2(c) >= 1 && (c > 0 ==> Pow2(c) >= 2)
  {}

  lemma TopQuotient(sig: nat, frac: nat, c: nat)
    requires sig == 0x10_0000_0000_0000 + frac && frac < 0x10_0000_0000_0000 && c >= 1
    ensures sig * c / 0x20_0000 >= 0x8000_0000
    ensures c >= 2 ==> sig * c / 0x20_0000 > 0x8000_0000
    ensures c == 1 ==> (sig * c / 0x20_0000 == 0x8000_0000 <==> frac < 0x20_0000)
    ensures c == 1 && frac < 0x20_0000 ==> (sig * c % 0x20_0000 == 0 <==> frac == 0)
  {
    Distribute(c, 1, sig);
    NonNeg(c - 1, sig);
    if c >= 2 { Distribute(c, 2, sig); NonNeg(c - 2, sig); }
  }

  lemma F64Middle(a: nat, exact: bool)
    requires IsFloat(F64, a) && 0x3ff <= Exp(F64, a) < 0x41e
    ensures var s, sig := 0x433 - Exp(F64, a), Frac(F64, a) + 0x10_0000_0000_0000;
            var absZ := Shr(sig, s);
            Converted(F64, a, exact, Signed(Sign(F64, a), absZ), false, exact && absZ * Pow2(s) != sig)
  {
    hide Exp, Frac, Mag, One, Pow2, Significand, Sign, IsFloat, Shr, Converted, Body, SignBit, ToI32, FitsI32, Inexact;
    SignificandParts(F64, a);
    Powers();
    var s, sig := 0x433 - Exp(F64, a), Frac(F64, a) + 0x10_0000_0000_0000;
    TruncatedBy(F64, a, 0, s);
    Pow2Add(s - 22, 22);
    SmallEnough(sig, Pow2(s), Pow2(s - 22));
    ShrIs(sig, s);
    TimesOne(sig, Pow2(0));
    ConvertedMiddle(F64, a, exact, Shr(sig, s), Shr(sig, s) * Pow2(s) != sig);
  }

  lemma ShrIs(v: nat, k: nat)
    ensures Shr(v, k) == v / Pow2(k)
  {}

  lemma TimesOne(v: nat, p: nat)
    requires p == 1
    ensures v * p == v
  {}

  lemma SignificandParts(f: Format, a: nat)
    requires IsFloat(f, a) && Exp(f, a) >= 1
    ensures Frac(f, a) < Pow2(f.p) && Significand(f, a) == Frac(f, a) + Pow2(f.p)
  {
    FieldsPack(f, a);
  }

  /** A number whose integer part q fits. */
  lemma ConvertedMiddle(f: Format, a: nat, exact: bool, q: nat, lost: bool)
    requires f.bias + f.p >= 1 && Exp(f, a) < f.top && Mag(f, a) / One(f) == q < 0x8000_0000
    requires (lost <==> Mag(f, a) % One(f) != 0)
    ensures Converted(f, a, exact, Signed(Sign(f, a), q), false, exact && lost)
  {
    hide Mag, One, Exp, Sign;
  }

  lemma SmallEnough(sig: nat, m: nat, k: nat)
    requires sig < 0x20_0000_0000_0000 && k >= 1 && m == k * 0x40_0000
    ensures sig / m < 0x8000_0000 && (sig / m * m == sig <==> sig % m == 0)
  {
    assert sig == m * (sig / m) + sig % m;
    MulAtLeast(k, 0x40_0000);
    var q := sig / m;
    if q >= 0x8000_0000 {
      Distribute(q, 0x8000_0000, m);
      NonNeg(q - 0x8000_0000, m);
    }
  }

  lemma F32Small(a: nat, exact: bool)
    requires IsFloat(F32, a) && Exp(F32, a) <= 0x7e
    ensures Converted(F32, a, exact, 0, false, exact && (Exp(F32, a) != 0 || Frac(F32, a) != 0))
  {
    hide Converted, IsFloat, Exp, Frac;
    ConvertedZero(F32, a, exact);
  }

  lemma F32Large(a: nat, exact: bool)
    requires IsFloat(F32, a) && 0x9e <= Exp(F32, a)
    ensures var exp, sig, sign := Exp(F32, a), Frac(F32, a), Sign(F32, a);
            if a == Pack(F32, true, 0x9e, 0) then Converted(F32, a, exact, -0x8000_0000, false, false)
            else Converted(F32, a, exact, Saturated(exp == 0xff && sig != 0, sign), true, false)
  {
    hide Pow2, Mag, One, Frac, Exp, Sign, IsFloat, Significand, Body, Pack, Converted;
    Powers();
    TopPacked(a);
    FieldsPack(F32, a);
    SignificandParts(F32, a);
    var e, sig := Exp(F32, a), Significand(F32, a);
    TruncatedBy(F32, a, e - 0x96, 0);
    Pow2Add(e - 0x9e, 8);
    PowerAbove(e - 0x9e);
    var q := sig * Pow2(e - 0x96);
    TopProduct(sig, Frac(F32, a), Pow2(e - 0x9e), Pow2(e - 0x96));
    ConvertedTop(F32, a, exact, q);
  }

  /** The least integer, as a single. */
  lemma TopPacked(a: nat)
    requires IsFloat(F32, a)
    ensures a == Pack(F32, true, 0x9e, 0) <==> Sign(F32, a) && Exp(F32, a) == 0x9e && Frac(F32, a) == 0
  {
    Powers();
    FieldsPack(F32, a);
    PackFields(F32, true, 0x9e, 0);
    hide Pow2, Exp, Frac, Sign, SignBit;
  }

  /** A number whose integer part q is at least 2^31. */
  lemma ConvertedTop(f: Format, a: nat, exact: bool, q: nat)
    requires f.bias + f.p >= 1 && (Exp(f, a) < f.top ==> Mag(f, a) / One(f) == q >= 0x8000_0000) && Exp(f, a) <= f.top
    ensures if Exp(f, a) < f.top && Sign(f, a) && q == 0x8000_0000 then
              Converted(f, a, exact, -0x8000_0000, false, exact && Mag(f, a) % One(f) != 0)
            else Converted(f, a, exact, Saturated(Exp(f, a) == f.top && Frac(f, a) != 0, Sign(f, a)), true, false)
  {
    hide Mag, One, Exp, Sign, Frac;
  }

  lemma TopProduct(sig: nat, frac: nat, b: nat, c: nat)
    requires sig == 0x80_0000 + frac && frac < 0x80_0000 && b >= 1 && c == b * 0x100
    ensures sig * c / 1 == sig * c >= 0x8000_0000 && sig * c % 1 == 0
    ensures sig * c == 0x8000_0000 <==> b == 1 && frac == 0
  {
    Distribute(b, 1, sig);
    NonNeg(b - 1, sig);
    assert sig * c == 0x100 * (b * sig);
    if b >= 2 { Distribute(b, 2, sig); NonNeg(b - 2, sig); }
  }

  lemma F32Middle(a: nat, exact: bool)
    requires IsFloat(F32, a) && 0x7f <= Exp(F32, a) < 0x9e
    ensures var s, sig := 0x9e - Exp(F32, a), (Frac(F32, a) + 0x80_0000) * 0x100;
            var absZ := Shr(sig, s);
            Converted(F32, a, exact, Signed(Sign(F32, a), absZ), false, exact && absZ * Pow2(s) != sig)
  {
    hide Exp, Frac, Mag, One, Pow2, Significand, Sign, IsFloat, Shr, Converted, Body, SignBit, ToI32, FitsI32, Inexact;
    SignificandParts(F32, a);
    Powers();
    var s, sig := 0x9e - Exp(F32, a), (Frac(F32, a) + 0x80_0000) * 0x100;
    TruncatedBy(F32, a, 8, s);
    Pow2Add(s - 1, 1);
    SmallEnough32(sig, Pow2(s), Pow2(s - 1));
    ShrIs(sig, s);
    ConvertedMiddle(F32, a, exact, Shr(sig, s), Shr(sig, s) * Pow2(s) != sig);
  }

  lemma SmallEnough32(sig: nat, m: nat, k: nat)
    requires sig < 0x1_0000_0000 && k >= 1 && m == k * 2
    ensures sig / m < 0x8000_0000 && (sig / m * m == sig <==> sig % m == 0)
  {
    assert sig == m * (sig / m) + sig % m;
    var q := sig / m;
    if q >= 0x8000_0000 {
      Distribute(q, 0x8000_0000, m);
      NonNeg(q - 0x8000_0000, m);
    }
  }

  /** The exception flags. */
  class Flags {
    var inexact: bool
    var invalid: bool

    constructor ()
      ensures !inexact && !invalid
    {
      inexact, invalid := false, false;
    }

    /** f32_roundToInt and f64_roundToInt. An OR of disjoint fields is a sum. */
    method RoundToInt(f: Format, uiA: nat, mode: Mode, exact: bool) returns (uiZ: nat)
      requires Usable(f) && IsFloat(f, uiA) && !IsNaN(f, uiA)
      modifies this
      ensures Exp(f, uiA) == f.top ==> uiZ == uiA && inexact == old(inexact)
      ensures Exp(f, uiA) < f.top ==> IntegralOf(f, uiA, mode, uiZ)
      ensures Exp(f, uiA) < f.top ==> inexact == (old(inexact) || (exact && Mag(f, uiA) % One(f) != 0))
      ensures invalid == old(invalid)
    {
      FieldsPack(f, uiA);
      var exp := Exp(f, uiA);
      if exp <= f.bias - 1 {
        uiZ := RoundSmall(f, uiA, mode, exact);
      } else if f.bias + f.p <= exp {
        if exp < f.top { LargeRight(f, uiA, mode); }
        uiZ := uiA;
      } else {
        uiZ := RoundMiddle(f, uiA, mode, exact);
      }
    }

    /** A number below 1.0. */
    method RoundSmall(f: Format, uiA: nat, mode: Mode, exact: bool) returns (uiZ: nat)
      requires Usable(f) && IsFloat(f, uiA) && Exp(f, uiA) <= f.bias - 1
      modifies this
      ensures IntegralOf(f, uiA, mode, uiZ) && inexact == (old(inexact) || (exact && Mag(f, uiA) % One(f) != 0))
      ensures invalid == old(invalid)
    {
      if Body(f, uiA) == 0 {
        SmallZero(f, uiA, mode);
        return uiA;
      }
      SmallRight(f, uiA, mode);
      hide IntegralOf, Mag, Exp, Frac, Body, Pow2, SignBit;
      if exact { inexact := true; }
      uiZ := if Sign(f, uiA) then SignBit(f) else 0;
      match mode {
        case NearEven =>
          if Frac(f, uiA) != 0 && Exp(f, uiA) == f.bias - 1 { uiZ := uiZ + Pack(f, false, f.bias, 0); }
        case NearMaxMag =>
          if Exp(f, uiA) == f.bias - 1 { uiZ := uiZ + Pack(f, false, f.bias, 0); }
        case Min =>
          if uiZ != 0 { uiZ := Pack(f, true, f.bias, 0); }
        case Max =>
          if uiZ == 0 { uiZ := Pack(f, false, f.bias, 0); }
        case MinMag =>
      }
    }

    /** A number with some bits below 1.0. */
    method RoundMiddle(f: Format, uiA: nat, mode: Mode, exact: bool) returns (uiZ: nat)
      requires Usable(f) && IsFloat(f, uiA) && f.bias <= Exp(f, uiA) < f.bias + f.p
      modifies this
      ensures IntegralOf(f, uiA, mode, uiZ) && inexact == (old(inexact) || (exact && Mag(f, uiA) % One(f) != 0))
      ensures invalid == old(invalid)
    {
      var m := f.bias + f.p - Exp(f, uiA);
      MidRight(f, uiA, mode, m);
      hide IntegralOf, Mag, Exp, Sign, And, AndNot;
      uiZ := uiA;
      var lastBitMask := Pow2(m);
      var roundBitsMask := lastBitMask - 1;
      if mode == NearMaxMag {
        uiZ := uiZ + lastBitMask / 2;
      } else if mode == NearEven {
        uiZ := uiZ + lastBitMask / 2;
        if And(uiZ, roundBitsMask) == 0 { uiZ := AndNot(uiZ, lastBitMask); }
      } else if mode != MinMag {
        if Sign(f, uiZ) != (mode == Max) { uiZ := uiZ + roundBitsMask; }
      }
      uiZ := AndNot(uiZ, roundBitsMask);
      if exact && uiZ != uiA { inexact := true; }
    }

    /** f64_to_i32_r_minMag. */
    method F64ToI32(uiA: nat, exact: bool) returns (r: int)
      requires IsFloat(F64, uiA)
      modifies this
      ensures r == ToI32(F64, uiA) && invalid == (old(invalid) || !FitsI32(F64, uiA))
      ensures inexact == (old(inexact) || Inexact(F64, uiA, exact))
    {
      hide Exp, Frac, Sign, IsFloat, ToI32, FitsI32, Inexact, Pow2, Shr;
      var exp: int, sig: nat := Exp(F64, uiA), Frac(F64, uiA);
      var shiftDist := 0x433 - exp;
      if 53 <= shiftDist {
        F64Small(uiA, exact);
        if exact && (exp != 0 || sig != 0) { inexact := true; }
        return 0;
      }
      var sign := Sign(F64, uiA);
      if shiftDist < 22 {
        F64Large(uiA, exact);
        if sign && exp == 0x41e && sig < 0x20_0000 {
          if exact && sig != 0 { inexact := true; }
          return -0x7fff_ffff - 1;
        }
        invalid := true;
        return if exp == 0x7ff && sig != 0 then POS_OVERFLOW else if sign then NEG_OVERFLOW else POS_OVERFLOW;
      }
      F64Middle(uiA, exact);
      sig := sig + 0x10_0000_0000_0000;
      var absZ := Shr(sig, shiftDist);
      if exact && absZ * Pow2(shiftDist) != sig { inexact := true; }
      r := Signed(sign, absZ);
    }

    /** f32_to_i32_r_minMag. */
    method F32ToI32(uiA: nat, exact: bool) returns (r: int)
      requires IsFloat(F32, uiA)
      modifies this
      ensures r == ToI32(F32, uiA) && invalid == (old(invalid) || !FitsI32(F32, uiA))
      ensures inexact == (old(inexact) || Inexact(F32, uiA, exact))
    {
      hide Exp, Frac, Sign, IsFloat, ToI32, FitsI32, Inexact, Pow2, Shr, Pack;
      var exp: int, sig: nat := Exp(F32, uiA), Frac(F32, uiA);
      var shiftDist := 0x9e - exp;
      if 32 <= shiftDist {
        F32Small(uiA, exact);
        if exact && (exp != 0 || sig != 0) { inexact := true; }
        return 0;
      }
      var sign := Sign(F32, uiA);
      if shiftDist <= 0 {
        F32Large(uiA, exact);
        if uiA == Pack(F32, true, 0x9e, 0) { return -0x7fff_ffff - 1; }
        invalid := true;
        return if exp == 0xff && sig != 0 then POS_OVERFLOW else if sign then NEG_OVERFLOW else POS_OVERFLOW;
      }
      F32Middle(uiA, exact);
      sig := (sig + 0x80_0000) * 0x100;
      var absZ := Shr(sig, shiftDist);
      if exact && absZ * Pow2(shiftDist) != sig { inexact := true; }
      r := Signed(sign, absZ);
    }
  }

  /** Rounding toward zero first makes no difference to a conversion, except that it is then exact. */
  lemma ConversionAgrees(f: Format, a: nat, z: nat, exact: bool)
    requires Usable(f) && Exp(f, a) < f.top && IntegralOf(f, a, MinMag, z)
    ensures Truncated(f, z) == Truncated(f, a) && FitsI32(f, z) == FitsI32(f, a) && !Inexact(f, z, exact)
    ensures FitsI32(f, a) ==> ToI32(f, z) == ToI32(f, a)
  {
    QuotientNat(Mag(f, a), One(f));
    var q, one := Mag(f, a) / One(f), One(f);
    assert Rounded(MinMag, Sign(f, a), Mag(f, a), One(f)) == q;
    hide Mag, One, Exp, Sign, Rounded;
    DivMod(q * one, one, q, 0);
  }

  /** Leading zeros of a byte, as the source tabulates them. */
  function LeadingZeros8(b: nat): nat
    requires b < 256
  {
    if b == 0 then 8 else if b < 2 then 7 else if b < 4 then 6 else if b < 8 then 5 else if b < 16 then 4
    else if b < 32 then 3 else if b < 64 then 2 else if b < 128 then 1 else 0
  }

  /** softfloat_countLeadingZeros32. */
  method CountLeadingZeros32(a0: nat) returns (count: nat)
    requires a0 < 0x1_0000_0000
    ensures a0 == 0 ==> count == 32
    ensures a0 > 0 ==> count <= 31 && Pow2(31 - count) <= a0 < Pow2(32 - count)
  {
    var a := a0;
    count := 0;
    if a < 0x1_0000 {
      count := 16;
      a := a * 0x1_0000;
    }
    if a < 0x100_0000 {
      count := count + 8;
      a := a * 0x100;
    }
    BytePowers();
    assert a == a0 * Pow2(count);
    hide Pow2;
    ZerosSoFar(a0, a, count);
    count := count + LeadingZeros8(a / 0x100_0000);
  }

  /** What is left to count when the number has been moved up by whole bytes. */
  lemma ZerosSoFar(a0: nat, a: nat, c: nat)
    requires a0 < 0x1_0000_0000 && a < 0x1_0000_0000 && c <= 24 && a == a0 * Pow2(c)
    requires (a0 == 0 && c == 24) || a >= 0x100_0000
    ensures var n := c + LeadingZeros8(a / 0x100_0000);
            if a0 == 0 then n == 32 else n <= 31 && Pow2(31 - n) <= a0 < Pow2(32 - n)
  {
    if a0 > 0 {
      var k := LeadingZeros8(a / 0x100_0000);
      hide *;
      TopByte(a);
      Pow2Add(31 - k - c, c);
      Pow2Add(32 - k - c, c);
      MovedBack(a0, Pow2(31 - k - c), Pow2(32 - k - c), Pow2(c));
    }
  }

  lemma MovedBack(x: int, lo: int, hi: int, q: int)
    requires q > 0 && lo * q <= x * q < hi * q
    ensures lo <= x < hi
  {
    OrderOfProducts(x, hi, q);
    Distribute(x + 1, x, q);
    OrderOfProducts(lo, x + 1, q);
  }

  lemma TopByte(a: nat)
    requires 0x100_0000 <= a < 0x1_0000_0000
    ensures var k := LeadingZeros8(a / 0x100_0000); k <= 7 && Pow2(31 - k) <= a < Pow2(32 - k)
  {
    BytePowers();
    hide Pow2;
  }

  lemma BytePowers()
    ensures Pow2(0) == 1 && Pow2(8) == 0x100 && Pow2(16) == 0x1_0000 && Pow2(24) == 0x100_0000 && Pow2(25) == 0x200_0000
    ensures Pow2(26) == 0x400_0000 && Pow2(27) == 0x800_0000 && Pow2(28) == 0x1000_0000 && Pow2(29) == 0x2000_0000
    ensures Pow2(30) == 0x4000_0000 && Pow2(31) == 0x8000_0000 && Pow2(32) == 0x1_0000_0000
  {
    Pow2Values();
    assert Pow2(8) == 0x100;
    Pow2Add(16, 8);
    TwicePowers();
  }

  lemma TwicePowers()
    ensures forall k: nat :: Pow2(k + 1) == 2 * Pow2(k)
  {}

  /** z is exactly the integer a. */
  ghost predicate IsInteger(f: Format, z: nat, a: int)
    requires f.bias + f.p >= 1
  {
    Finite(f, z) && Mag(f, z) == (if a < 0 then -a else a) * One(f) && (Sign(f, z) <==> a < 0)
  }

  /** i32_to_f64. The significand's leading bit adds one to the exponent field. */
  method I32ToF64(a: int) returns (uiZ: nat)
    requires -0x8000_0000 <= a < 0x8000_0000
    ensures IsInteger(F64, uiZ, a)
  {
    if a == 0 {
      IntegerZero(F64);
      return 0;
    }
    hide Pow2, Pack, IsInteger, ShiftedLeft;
    var sign := a < 0;
    var absA: nat := if sign then -a else a;
    BytePowers();
    var shiftCount := CountLeadingZeros32(absA);
    shiftCount := shiftCount + 21;
    IntegerPacked(F64, absA, sign, shiftCount);
    uiZ := Pack(F64, sign, 0x432 - shiftCount, ShiftedLeft(absA, shiftCount));
  }

  function ShiftedLeft(n: nat, k: nat): nat {
    NonNeg(n, Pow2(k));
    n * Pow2(k)
  }

  lemma IntegerZero(f: Format)
    requires Usable(f)
    ensures IsInteger(f, 0, 0)
  {
    PackFields(f, false, 0, 0);
  }

  lemma IntegerPacked(f: Format, n: nat, sign: bool, shift: nat)
    requires f == F64 && 21 <= shift <= 52 && Pow2(52 - shift) <= n < Pow2(53 - shift)
    ensures IsInteger(f, Pack(f, sign, 0x432 - shift, ShiftedLeft(n, shift)), Signed(sign, n))
  {
    hide Pow2, ShiftedLeft, Pack, IsInteger, Finite, Sign, Mag, SignBit, Exp;
    PackedRange(n, shift, 52);
    PackedValue(n, shift, 0x432);
    WithoutCarry(f, sign, 0x433 - shift, ShiftedLeft(n, shift));
    PackedIs(f, sign, 0x432 - shift, ShiftedLeft(n, shift));
    IntegerIs(f, Pack(f, sign, 0x432 - shift, ShiftedLeft(n, shift)), sign, n);
  }

  lemma PackedIs(f: Format, sign: bool, e: nat, c: nat)
    ensures Pack(f, sign, e, c) == (if sign then SignBit(f) else 0) + e * Pow2(f.p) + c
  {}

  lemma IntegerIs(f: Format, z: nat, sign: bool, n: nat)
    requires f.bias + f.p >= 1 && n > 0 && Finite(f, z) && Sign(f, z) == sign && Mag(f, z) == n * Pow2(f.bias + f.p - 1)
    ensures IsInteger(f, z, Signed(sign, n))
  {
    hide Mag, Sign, Finite, Pow2;
  }

  lemma PackedRange(n: nat, shift: nat, p: nat)
    requires shift <= p && Pow2(p - shift) <= n < Pow2(p + 1 - shift)
    ensures n > 0 && Pow2(p) <= ShiftedLeft(n, shift) < 2 * Pow2(p)
  {
    Pow2Add(p - shift, shift);
    Pow2Add(p + 1 - shift, shift);
    assert Pow2(p + 1) == 2 * Pow2(p);
    var lo, hi, q := Pow2(p - shift), Pow2(p + 1 - shift), Pow2(shift);
    hide Pow2;
    OrderKept(lo, n, q);
    OrderKept(n + 1, hi, q);
    Distribute(n + 1, 1, q);
  }

  lemma PackedValue(n: nat, shift: nat, e: nat)
    requires shift <= e
    ensures ShiftedLeft(n, shift) * Pow2(e - shift) == n * Pow2(e)
  {
    Pow2Add(shift, e - shift);
    var x, y := Pow2(shift), Pow2(e - shift);
    hide Pow2;
    Associate(n, x, y);
  }

  /** A converted integer converts back to itself, without any exception. */
  lemma IntegerRoundTrip(f: Format, z: nat, a: int, exact: bool)
    requires Usable(f) && IsInteger(f, z, a) && NEG_OVERFLOW <= a <= POS_OVERFLOW
    ensures FitsI32(f, z) && ToI32(f, z) == a && !Inexact(f, z, exact)
  {
    var n, one := if a < 0 then -a else a, One(f);
    hide One, Mag, Exp, Sign;
    DivMod(n * one, one, n, 0);
  }

  // ---------------------------------------------------------------- the quotient of f32_div

  /** The significand that f32_div passes to rounding, and whether it lowers the exponent by one. Wherever the
      result is rounded, at a multiple of 128, the exact quotient and the significand decide alike. */
  method QuotientOf(sigA: nat, sigB: nat) returns (sigZ: nat, lower: bool, ghost num: nat)
    requires 0x80_0000 <= sigA < 0x100_0000 && 0x80_0000 <= sigB < 0x100_0000
    ensures lower == (sigA < sigB) && num == sigA * (if sigA < sigB then 0x8000_0000 else 0x4000_0000)
    ensures 0x4000_0000 <= sigZ < 0x8000_0000 && SameDecisions(sigZ, num, sigB)
  {
    lower := sigA < sigB;
    var sig64A := if sigA < sigB then sigA * 0x8000_0000 else sigA * 0x4000_0000;
    num := sig64A;
    sigZ := sig64A / sigB;
    QuotientRange(sigA, sigB, sig64A);
    Sticky(sig64A / sigB, sig64A, sigB);
    if sigZ % 64 == 0 && sigB * sigZ != sig64A { sigZ := sigZ + 1; }
  }

  lemma QuotientRange(a: nat, b: nat, num: nat)
    requires 0x80_0000 <= a < 0x100_0000 && 0x80_0000 <= b < 0x100_0000
    requires num == a * (if a < b then 0x8000_0000 else 0x4000_0000)
    ensures 0x4000_0000 <= num / b < 0x7fff_ffff
  {
    var q := num / b;
    assert num == b * q + num % b;
    if q < 0x4000_0000 { OrderKept(q, 0x3fff_ffff, b); }
    if q >= 0x7fff_ffff { OrderKept(0x7fff_ffff, q, b); }
  }

  /** z decides as num / den does, for every rounding of both to a multiple of 128. */
  ghost predicate SameDecisions(z: nat, num: nat, den: nat)
    requires den > 0
  {
    forall i: nat, mode: Mode, sign: bool :: i > 0 ==> den * i > 0 && SameRounding(z, num, den, i, mode, sign)
  }

  predicate SameRounding(z: nat, num: nat, den: nat, i: nat, mode: Mode, sign: bool)
    requires i > 0 && den * i > 0
  {
    && Rounded(mode, sign, z, 128 * i) == Rounded(mode, sign, num, 128 * (den * i))
    && (z % (128 * i) == 0 <==> num % (128 * (den * i)) == 0)
  }

  lemma Sticky(n: nat, num: nat, den: nat)
    requires den > 0 && n == num / den
    ensures SameDecisions(if n % 64 == 0 && den * n != num then n + 1 else n, num, den)
  {
    var r := num % den;
    assert num == den * n + r;
    var z := if n % 64 == 0 && den * n != num then n + 1 else n;
    forall i: nat, mode: Mode, sign: bool | i > 0 ensures den * i > 0 && SameRounding(z, num, den, i, mode, sign) {
      MulAtLeast(i, den);
      StickyAt(n, r, num, den, z, i, mode, sign);
    }
  }

  lemma StickyAt(n: nat, r: nat, num: nat, den: nat, z: nat, i: nat, mode: Mode, sign: bool)
    requires i > 0 && den > 0 && r < den && num == den * n + r && den * i > 0
    requires z == if n % 64 == 0 && r != 0 then n + 1 else n
    ensures SameRounding(z, num, den, i, mode, sign)
  {
    var q, low := n / (128 * i), n % (128 * i);
    QuotientNat(n, 128 * i);
    NonNeg(low, den);
    var ld: nat := low * den;
    ExactParts(n, q, low, r, num, den, i, ld);
    RoundedParts(n, q, low, z, r, den, i, ld);
    hide *;
    RoundedBy(mode, sign, z, 128 * i, q, low + (z - n), num, 128 * (den * i), ld + r);
  }

  /** The exact quotient by 128i. */
  lemma ExactParts(n: nat, q: nat, low: nat, r: nat, num: nat, den: nat, i: nat, ld: nat)
    requires i > 0 && den * i > 0 && r < den && num == den * n + r
    requires q == n / (128 * i) && low == n % (128 * i) && ld == low * den
    ensures num / (128 * (den * i)) == q && num % (128 * (den * i)) == ld + r
  {
    DivisionParts(n, 128 * i);
    StickyParts(q, low, r, num, den, i, n);
    DivMod(num, 128 * (den * i), q, ld + r);
  }

  lemma DivisionParts(n: nat, m: nat)
    requires m > 0
    ensures n == m * (n / m) + n % m && n % m < m
  {}

  /** The significand by 128i, and how both remainders lie. */
  lemma RoundedParts(n: nat, q: nat, low: nat, z: nat, r: nat, den: nat, i: nat, ld: nat)
    requires i > 0 && r < den && q == n / (128 * i) && low == n % (128 * i) && ld == low * den
    requires z == if n % 64 == 0 && r != 0 then n + 1 else n
    ensures var low' := low + (z - n); var big := 128 * (den * i);
            && z / (128 * i) == q && z % (128 * i) == low'
            && (2 * low' > 128 * i <==> 2 * (ld + r) > big) && (2 * low' == 128 * i <==> 2 * (ld + r) == big)
            && (low' == 0 <==> ld + r == 0)
  {
    DivisionParts(n, 128 * i);
    LowOrder(low, r, den, 64 * i);
    SixtyFour(n, q, low, i);
    NonNeg(den, 64 * i);
    var low', dh: nat := low + (z - n), den * (64 * i);
    StickyCompare(low, low', ld, r, 64 * i, dh, n % 64 == 0);
    assert 128 * (den * i) == 2 * dh;
    assert z == q * (128 * i) + low';
    DivMod(z, 128 * i, q, low');
  }

  lemma StickyCompare(low: nat, low': nat, ld: nat, r: nat, h: nat, dh: nat, sticky: bool)
    requires low < 2 * h && sticky == (low % 64 == 0) && low' == low + (if sticky && r != 0 then 1 else 0)
    requires (low < h ==> ld + r < dh) && (low == h ==> ld == dh)
    requires (low > h ==> ld > dh) && (ld + r == 0 <==> low == 0 && r == 0)
    requires h % 64 == 0 && (sticky ==> low + 64 <= 2 * h && (low < h ==> low + 64 <= h))
    ensures low' < 2 * h && (2 * low' > 2 * h <==> 2 * (ld + r) > 2 * dh)
    ensures (2 * low' == 2 * h <==> 2 * (ld + r) == 2 * dh)
    ensures low' == 0 <==> ld + r == 0
  {}

  /** Two divisions with the same quotient, whose remainders lie alike. */
  lemma RoundedBy(mode: Mode, sign: bool, z: nat, m: nat, q: nat, low: nat, num: nat, big: nat, rest: nat)
    requires m > 0 && big > 0 && z / m == q == num / big && z % m == low && num % big == rest
    requires (2 * low > m <==> 2 * rest > big) && (2 * low == m <==> 2 * rest == big) && (low == 0 <==> rest == 0)
    ensures Rounded(mode, sign, z, m) == Rounded(mode, sign, num, big)
  {}

  lemma StickyParts(q: nat, low: nat, r: nat, num: nat, den: nat, i: nat, n: nat)
    requires i > 0 && r < den && num == den * n + r && n == 128 * i * q + low && low < 128 * i
    ensures num == q * (128 * (den * i)) + (low * den + r) && 0 <= low * den + r < 128 * (den * i)
  {
    var m := 128 * i;
    assert den * (m * q + low) == q * (m * den) + low * den by {
      assert den * (m * q + low) == den * (m * q) + den * low;
      assert den * (m * q) == q * (m * den);
    }
    assert m * den == 128 * (den * i);
    OrderKept(low + 1, m, den);
    Distribute(low + 1, 1, den);
    NonNeg(low, den);
  }

  lemma LowOrder(low: nat, r: nat, den: nat, h: nat)
    requires r < den
    ensures (low < h ==> low * den + r < den * h)
    ensures (low == h ==> low * den == den * h) && (low > h ==> low * den > den * h)
    ensures (low * den + r == 0 <==> low == 0 && r == 0)
  {
    assert den * h == h * den;
    Distribute(low + 1, 1, den);
    OrderKept(low + 1, h, den);
    Distribute(h + 1, 1, den);
    OrderKept(h + 1, low, den);
    if low > 0 { MulAtLeast(low, den); }
  }

  lemma SixtyFour(n: nat, q: nat, low: nat, i: nat)
    requires i > 0 && n == 128 * i * q + low && low < 128 * i
    ensures n % 64 == low % 64
    ensures low % 64 == 0 ==> low + 64 <= 128 * i && (low < 64 * i ==> low + 64 <= 64 * i)
  {
    var w := 2 * (i * q);
    assert n == 64 * w + low by { assert 128 * i * q == 64 * w; }
  }
}
