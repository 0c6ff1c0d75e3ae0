/** What a hardware trigger compares (trigger_match and cto in processor.h), against the match types of section 5.2.9 of
    RISC-V External Debug Support 0.13.2. */
module Triggers {
  import opened Bits
  import opened Walk

  datatype Match = Equal | Napot | AtLeast | Below | MaskLow | MaskHigh | Unassigned

  /** The number of ones below the lowest zero. */
  function TrailingOnes(v: nat): nat {
    if v % 2 == 0 then 0 else 1 + TrailingOnes(v / 2)
  }

  /** cto. */
  method CountTrailingOnes(v: nat) returns (n: nat)
    ensures !Bit(v, n) && forall i | 0 <= i < n :: Bit(v, i)
    ensures n == TrailingOnes(v)
  {
    n := 0;
    var w := v;
    while w % 2 == 1
      invariant TrailingOnes(v) == n + TrailingOnes(w)
      decreases w
    {
      w := w / 2;
      n := n + 1;
    }
    OnesBelowZero(v);
  }

  lemma {:induction false} OnesBelowZero(v: nat)
    ensures !Bit(v, TrailingOnes(v)) && forall i | 0 <= i < TrailingOnes(v) :: Bit(v, i)
  {
    LowestBit(v);
    if v % 2 == 1 {
      OnesBelowZero(v / 2);
      var n := TrailingOnes(v);
      HigherBit(v, n);
      forall i | 0 <= i < n ensures Bit(v, i) {
        if i > 0 { HigherBit(v, i); }
      }
    }
  }

  lemma LowestBit(v: nat)
    ensures Bit(v, 0) <==> v % 2 == 1
  {
    assert Pow2(0) == 1;
  }

  lemma HigherBit(v: nat, i: nat)
    requires i > 0
    ensures Bit(v, i) <==> Bit(v / 2, i - 1)
  {
    DivDiv(v, 2, Pow2(i - 1));
  }

  /** What is compared: the address or the datum, cut to 32 bits on a 32-bit processor. */
  function Seen(xlen: nat, select: bool, addr: nat, data: nat): nat {
    var value := if select then data else addr;
    if xlen == 32 then value % 0x1_0000_0000 else value
  }

  /** The comparison. The mask of a range is built in an int, so a range must not have more than 2^30 values. */
  predicate Compares(how: Match, xlen: nat, tdata2: nat, value: nat)
    requires how == Napot ==> TrailingOnes(tdata2) <= 30
  {
    match how
    case Equal => value == tdata2
    case Napot =>
      var low := Pow2(TrailingOnes(tdata2)) - 1;
      AndNot(value, low) == AndNot(tdata2, low)
    case AtLeast => value >= tdata2
    case Below => value < tdata2
    case MaskLow => And(value, Shr(tdata2, xlen / 2)) == And(tdata2, Shr(tdata2, xlen / 2))
    case MaskHigh => And(Shr(value, xlen / 2), Shr(tdata2, xlen / 2)) == And(tdata2, Shr(tdata2, xlen / 2))
    case Unassigned => true
  }

  function FiresOn(how: Match, xlen: nat, select: bool, tdata2: nat): (nat, nat) -> bool
    requires how == Napot ==> TrailingOnes(tdata2) <= 30
  {
    (addr: nat, data: nat) => Compares(how, xlen, tdata2, Seen(xlen, select, addr, data))
  }

  // ---------------------------------------------------------------- ranges

  /** The values of which all but the low k bits are those of v. */
  predicate InRange(value: nat, v: nat, k: nat) {
    value / Pow2(k) == v / Pow2(k)
  }

  lemma RangeIs(value: nat, v: nat, k: nat)
    ensures InRange(value, v, k) <==> v - v % Pow2(k) <= value < v - v % Pow2(k) + Pow2(k)
  {
    var m := Pow2(k);
    hide Pow2;
    var q, p := v / m, value / m;
    assert v == m * q + v % m && value == m * p + value % m;
    if m * q <= value < m * q + m {
      assert value == q * m + (value - m * q);
      DivMod(value, m, q, value - m * q);
    }
  }

  /** The module compares all bits from the lowest zero of tdata2 up. */
  lemma NapotMeans(xlen: nat, tdata2: nat, value: nat)
    requires TrailingOnes(tdata2) <= 30
    ensures Compares(Napot, xlen, tdata2, value) <==> InRange(value, tdata2, TrailingOnes(tdata2))
  {
    var k := TrailingOnes(tdata2);
    AndNotMask(value, k);
    AndNotMask(tdata2, k);
    RangeIs(value, tdata2, k);
    RangeIs(value, value, k);
    RangeIs(tdata2, value, k);
    hide AndNot, TrailingOnes, Pow2, InRange;
    SameBase(value, tdata2, k);
  }

  lemma SameBase(a: nat, b: nat, k: nat)
    ensures a - a % Pow2(k) == b - b % Pow2(k) <==> InRange(a, b, k)
  {
    var m := Pow2(k);
    hide Pow2;
    assert a == m * (a / m) + a % m && b == m * (b / m) + b % m;
    if m * (a / m) == m * (b / m) {
      DivMod(m * (a / m), m, a / m, 0);
      DivMod(m * (b / m), m, b / m, 0);
    }
  }

  /** The specification compares the bits above the lowest zero only. So the module fires on the lower half of the range
      that the debugger asked for, and on nothing of the upper half. */
  lemma NapotLowerHalf(xlen: nat, tdata2: nat, value: nat)
    requires TrailingOnes(tdata2) <= 30
    ensures var k := TrailingOnes(tdata2);
      Compares(Napot, xlen, tdata2, value) <==> InRange(value, tdata2, k + 1) && !Bit(value, k)
  {
    var k := TrailingOnes(tdata2);
    NapotMeans(xlen, tdata2, value);
    OnesBelowZero(tdata2);
    Pow2Add(k, 1);
    assert Pow2(1) == 2;
    DivDiv(value, Pow2(k), 2);
    DivDiv(tdata2, Pow2(k), 2);
    hide Compares, TrailingOnes, Pow2;
    HalvesAgree(value / Pow2(k), tdata2 / Pow2(k));
  }

  lemma HalvesAgree(x: int, y: int)
    requires y % 2 == 0
    ensures x == y <==> x / 2 == y / 2 && x % 2 == 0
  {}

  /** A range of 16 addresses from 0 on: address 8 is in it, and does not fire. */
  lemma UpperHalfMissed()
    ensures TrailingOnes(7) == 3 && InRange(8, 7, 4) && !Compares(Napot, 64, 7, 8)
  {
    assert TrailingOnes(7) == 1 + TrailingOnes(3) && TrailingOnes(3) == 1 + TrailingOnes(1) && TrailingOnes(1) == 1;
    assert Pow2(3) == 8 && Pow2(4) == 16;
    NapotMeans(64, 7, 8);
    hide Compares;
  }

  // ---------------------------------------------------------------- masks

  /** Masked numbers agree exactly if they agree in every bit of the mask. */
  lemma {:induction false} MaskedBits(a: nat, b: nat, m: nat)
    ensures And(a, m) == And(b, m) <==> forall i: nat | Bit(m, i) :: Bit(a, i) == Bit(b, i)
    decreases m
  {
    if m == 0 {
      AndZero(a);
      AndZero(b);
      forall i: nat ensures !Bit(m, i) { DivMod(0, Pow2(i), 0, 0); }
    } else {
      MaskedBits(a / 2, b / 2, m / 2);
      AndSplits(a, m);
      AndSplits(b, m);
      LowestBit(a);
      LowestBit(b);
      LowestBit(m);
      forall i: nat
        ensures Bit(a, i + 1) == Bit(a / 2, i) && Bit(b, i + 1) == Bit(b / 2, i) && Bit(m, i + 1) == Bit(m / 2, i)
      {
        HigherBit(a, i + 1);
        HigherBit(b, i + 1);
        HigherBit(m, i + 1);
      }
      hide And, Bit;
      if forall i: nat | Bit(m, i) :: Bit(a, i) == Bit(b, i) {
        forall i: nat | Bit(m / 2, i) ensures Bit(a / 2, i) == Bit(b / 2, i) { assert Bit(m, i + 1); }
      }
      if And(a, m) == And(b, m) {
        forall i: nat | Bit(m, i) ensures Bit(a, i) == Bit(b, i) {
          if i > 0 { assert Bit(m / 2, i - 1); }
        }
      }
    }
  }

  lemma AndSplits(a: nat, m: nat)
    ensures And(a, m) / 2 == And(a / 2, m / 2) && And(a, m) % 2 == (if a % 2 == 1 && m % 2 == 1 then 1 else 0)
    ensures And(a, m) == 2 * And(a / 2, m / 2) + And(a, m) % 2
  {}

  /** The upper half of tdata2 says which bits of its lower half count, and they are compared with the lower half of the
      value, or with its upper half. */
  lemma MasksMean(xlen: nat, tdata2: reg, value: reg)
    requires xlen == 32 || xlen == 64
    ensures var h := xlen / 2;
      && (Compares(MaskLow, xlen, tdata2, value) <==>
          forall i: nat | Bit(tdata2, h + i) :: Bit(value, i) == Bit(tdata2, i))
      && (Compares(MaskHigh, xlen, tdata2, value) <==>
          forall i: nat | Bit(tdata2, h + i) :: Bit(value, h + i) == Bit(tdata2, i))
  {
    hide Bit, And, Shr, Pow2, TrailingOnes;
    var h := xlen / 2;
    var mask := Shr(tdata2, h);
    MaskedBits(value, tdata2, mask);
    MaskedBits(Shr(value, h), tdata2, mask);
    forall i: nat ensures Bit(tdata2, h + i) == Bit(mask, i) && Bit(value, h + i) == Bit(Shr(value, h), i) {
      BitAbove(tdata2, h, i);
      BitAbove(value, h, i);
    }
  }

  lemma BitAbove(v: nat, h: nat, i: nat)
    ensures Bit(v, h + i) == Bit(Shr(v, h), i)
  {
    QuotientNat(v, Pow2(h));
    Pow2Add(h, i);
    DivDiv(v, Pow2(h), Pow2(i));
  }
}
