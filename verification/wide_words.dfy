/** Multi-word arithmetic: SoftFloat's n-word addition, complement-addition and negation, least word first,
    and the 128-bit products of SoftFloat and of the multiply-high instructions. */
module WideWords {
  import opened Bits

  const B: nat := 0x1_0000_0000
  const W: nat := 0x1_0000_0000_0000_0000
  type word = x: nat | x < B
  type dword = x: nat | x < W

  /** The number that words make, least first. */
  function Number(s: seq<word>): (v: nat)
    ensures v < Pow2(32 * |s|)
  {
    if s == [] then 0 else Pow2Word(|s|); s[0] + B * Number(s[1..])
  }

  lemma Pow2Word(n: nat)
    requires n > 0
    ensures Pow2(32 * n) == B * Pow2(32 * (n - 1))
  {
    Pow2Values();
    Pow2Add(32, 32 * (n - 1));
  }

  lemma {:induction false} NumberSnoc(s: seq<word>, x: word)
    ensures Number(s + [x]) == Number(s) + x * Pow2(32 * |s|)
  {
    if s == [] {
      assert Pow2(0) == 1 && [x][1..] == [] && [] + [x] == [x];
    } else {
      hide Number, Pow2;
      NumberSnoc(s[1..], x);
      NumberCons(s);
      NumberCons(s + [x]);
      assert (s + [x])[1..] == s[1..] + [x];
      Pow2Word(|s|);
      Shift(Number(s[1..]), x, Pow2(32 * (|s| - 1)));
    }
  }

  lemma NumberCons(s: seq<word>)
    requires s != []
    ensures Number(s) == s[0] + B * Number(s[1..])
  {}

  lemma Shift(r: nat, x: nat, p: nat)
    ensures B * (r + x * p) == B * r + x * (B * p)
  {}

  function Bit01(b: bool): nat {
    if b then 1 else 0
  }

  /** Adding one word: the carry out is seen by comparing the sum with an operand. */
  lemma WordSum(a: word, b: word, c: bool)
    ensures var z := (a + b + Bit01(c)) % B;
            a + b + Bit01(c) == z + B * Bit01(if c then z <= a else z < a)
  {}

  /** One more word of an addition. */
  lemma SumStep(x: nat, y: nat, z: nat, c: nat, c': nat, p: nat, a: nat, b: nat, w: nat, carry: nat)
    requires x + y + carry == z + c * p && a + b + c == w + B * c'
    ensures (x + a * p) + (y + b * p) + carry == (z + w * p) + c' * (B * p)
  {
    assert a * p + b * p + c * p == (a + b + c) * p;
    assert (w + B * c') * p == w * p + c' * (B * p);
  }

  lemma Prefixes(a: seq<word>, i: nat)
    requires i < |a|
    ensures Number(a[..i + 1]) == Number(a[..i]) + a[i] * Pow2(32 * i) && Pow2(32 * (i + 1)) == B * Pow2(32 * i)
  {
    assert a[..i + 1] == a[..i] + [a[i]];
    NumberSnoc(a[..i], a[i]);
    Pow2Word(i + 1);
  }

  function SumWord(a: word, b: word, c: bool): word {
    (a + b + Bit01(c)) % B
  }

  /** The carry out of a sum w, seen by comparing it with an operand. */
  predicate CarryOf(a: word, w: word, c: bool) {
    if c then w <= a else w < a
  }

  lemma FirstStep()
    ensures Pow2(32 * 0) == 1 && Number([]) == 0
  {}

  /** One more word of x + y + carry. */
  lemma SumMore(x: seq<word>, y: seq<word>, z: seq<word>, i: nat, carry: bool, c: bool, w: word, c': bool)
    requires i < |x| && i < |y| && |z| == i
    requires Number(x[..i]) + Number(y[..i]) + Bit01(carry) == Number(z) + Bit01(c) * Pow2(32 * i)
    requires w == SumWord(x[i], y[i], c) && c' == CarryOf(x[i], w, c)
    ensures Number(x[..i + 1]) + Number(y[..i + 1]) + Bit01(carry) == Number(z + [w]) + Bit01(c') * Pow2(32 * (i + 1))
  {
    hide Number, Pow2;
    Prefixes(x, i);
    Prefixes(y, i);
    NumberSnoc(z, w);
    WordSum(x[i], y[i], c);
    SumStep(Number(x[..i]), Number(y[..i]), Number(z), Bit01(c), Bit01(c'), Pow2(32 * i), x[i], y[i], w, Bit01(carry));
  }

  /** One word of a sum: it is written, and the carry is passed on. */
  method SumAt(i: nat, wordA: word, wordB: word, c: bool, z: array<word>, ghost x: seq<word>, ghost y: seq<word>,
      ghost carry: bool)
    returns (c': bool)
    requires i < z.Length && i < |x| && i < |y| && wordA == x[i] && wordB == y[i]
    requires Number(x[..i]) + Number(y[..i]) + Bit01(carry) == Number(z[..i]) + Bit01(c) * Pow2(32 * i)
    modifies z
    ensures forall k :: 0 <= k < z.Length && k != i ==> z[k] == old(z[k])
    ensures Number(x[..i + 1]) + Number(y[..i + 1]) + Bit01(carry) == Number(z[..i + 1])
        + Bit01(c') * Pow2(32 * (i + 1))
  {
    hide *;
    ghost var done := z[..i];
    var wordZ := SumWord(wordA, wordB, c);
    z[i] := wordZ;
    c' := CarryOf(wordA, wordZ, c);
    assert z[..i + 1] == done + [wordZ];
    SumMore(x, y, done, i, carry, c, wordZ, c');
  }

  /** softfloat_addCarryM. The result may be written over an operand. */
  method AddCarryM(n: nat, a: array<word>, b: array<word>, carry: bool, z: array<word>) returns (out: bool)
    requires 0 < n <= a.Length && n <= b.Length && n <= z.Length
    modifies z
    ensures Number(old(a[..n])) + Number(old(b[..n])) + Bit01(carry) == Number(z[..n]) + Bit01(out) * Pow2(32 * n)
    ensures z[n..] == old(z[n..])
  {
    hide *;
    ghost var x, y, rest := a[..n], b[..n], z[n..];
    out := carry;
    var i := 0;
    FirstStep();
    while true
      invariant i < n && (forall k :: i <= k < n ==> a[k] == x[k]) && (forall k :: i <= k < n ==> b[k] == y[k])
      invariant (forall k :: n <= k < z.Length ==> z[k] == rest[k - n])
      invariant Number(x[..i]) + Number(y[..i]) + Bit01(carry) == Number(z[..i]) + Bit01(out) * Pow2(32 * i)
      decreases n - i
    {
      out := SumAt(i, a[i], b[i], out, z, x, y, carry);
      if i == n - 1 { break; }
      i := i + 1;
    }
    assert x[..n] == x && y[..n] == y;
  }

  /** The words of a number, complemented. */
  function Complement(s: seq<word>): (r: seq<word>)
    ensures |r| == |s| && forall i :: 0 <= i < |s| ==> r[i] == B - 1 - s[i]
  {
    seq(|s|, i requires 0 <= i < |s| => B - 1 - s[i])
  }

  lemma {:induction false} ComplementNumber(s: seq<word>)
    ensures Number(s) + Number(Complement(s)) == Pow2(32 * |s|) - 1
  {
    if s == [] {
      assert Pow2(0) == 1;
    } else {
      assert Complement(s)[1..] == Complement(s[1..]);
      ComplementNumber(s[1..]);
      Pow2Word(|s|);
    }
  }

  /** softfloat_addComplCarryM: addition of the complement; with a carry in, subtraction. */
  method AddComplCarryM(n: nat, a: array<word>, b: array<word>, carry: bool, z: array<word>) returns (out: bool)
    requires 0 < n <= a.Length && n <= b.Length && n <= z.Length
    modifies z
    ensures Number(old(a[..n])) + (Pow2(32 * n) - 1 - Number(old(b[..n]))) + Bit01(carry) == Number(z[..n])
        + Bit01(out) * Pow2(32 * n)
    ensures z[n..] == old(z[n..])
  {
    hide *;
    ghost var x, y, rest := a[..n], Complement(b[..n]), z[n..];
    ComplementNumber(b[..n]);
    out := carry;
    var i := 0;
    FirstStep();
    while true
      invariant i < n && (forall k :: i <= k < n ==> a[k] == x[k]) && (forall k :: i <= k < n ==> y[k] == B - 1 - b[k])
      invariant (forall k :: n <= k < z.Length ==> z[k] == rest[k - n])
      invariant Number(x[..i]) + Number(y[..i]) + Bit01(carry) == Number(z[..i]) + Bit01(out) * Pow2(32 * i)
      decreases n - i
    {
      out := SumAt(i, a[i], B - 1 - b[i], out, z, x, y, carry);
      if i == n - 1 { break; }
      i := i + 1;
    }
    assert x[..n] == x && y[..n] == y;
  }

  /** One word of a negation. */
  method NegAt(i: nat, z: array<word>, carry: bool, ghost x: seq<word>) returns (w: word)
    requires i < z.Length && i < |x| && z[i] == x[i] && carry == (Number(x[..i]) == 0)
    requires Number(z[..i]) == if carry then 0 else Pow2(32 * i) - Number(x[..i])
    modifies z
    ensures forall k :: 0 <= k < z.Length && k != i ==> z[k] == old(z[k])
    ensures (Number(x[..i + 1]) == 0) == (carry && w == 0)
    ensures Number(z[..i + 1]) == if carry && w == 0 then 0 else Pow2(32 * (i + 1)) - Number(x[..i + 1])
  {
    hide Number, Pow2;
    ghost var done := z[..i];
    w := (B - 1 - z[i] + Bit01(carry)) % B;
    z[i] := w;
    assert z[..i + 1] == done + [w];
    NegMore(x, done, i, carry, w);
  }

  /** softfloat_negXM: two's complement negation in place. */
  method NegXM(n: nat, z: array<word>)
    requires 0 < n <= z.Length
    modifies z
    ensures Number(z[..n]) == if Number(old(z[..n])) == 0 then 0 else Pow2(32 * n) - Number(old(z[..n]))
    ensures z[n..] == old(z[n..])
  {
    hide *;
    ghost var x, rest := z[..n], z[n..];
    var carry, i := true, 0;
    FirstStep();
    while true
      invariant i < n && (forall k :: i <= k < n ==> z[k] == x[k])
      invariant (forall k :: n <= k < z.Length ==> z[k] == rest[k - n])
      invariant carry == (Number(x[..i]) == 0)
      invariant Number(z[..i]) == if carry then 0 else Pow2(32 * i) - Number(x[..i])
      decreases n - i
    {
      var w := NegAt(i, z, carry, x);
      if i == n - 1 { break; }
      i := i + 1;
      if w != 0 { carry := false; }
    }
    assert x[..n] == x;
  }

  lemma NegMore(x: seq<word>, z: seq<word>, i: nat, carry: bool, w: word)
    requires i < |x| && |z| == i && carry == (Number(x[..i]) == 0)
    requires Number(z) == if carry then 0 else Pow2(32 * i) - Number(x[..i])
    requires w == (B - 1 - x[i] + Bit01(carry)) % B
    ensures var zero := Number(x[..i + 1]) == 0;
            && zero == (carry && w == 0)
            && Number(z + [w]) == if zero then 0 else Pow2(32 * (i + 1)) - Number(x[..i + 1])
  {
    hide Number, Pow2;
    Prefixes(x, i);
    NumberSnoc(z, w);
    var p := Pow2(32 * i);
    assert carry ==> (w == 0 <==> x[i] == 0) && (x[i] != 0 ==> w == B - x[i]);
    assert !carry ==> w == B - 1 - x[i];
    hide *;
    ProductParts(x[i], p);
  }

  lemma ProductParts(a: word, p: nat)
    requires p > 0
    ensures a * p == 0 <==> a == 0
    ensures (B - a) * p == B * p - a * p && (B - 1 - a) * p == B * p - p - a * p
  {}

  lemma SubtractionsAgree(a: nat, b: nat, p: nat, z: nat, c: bool, neg: nat, z': nat, c': bool)
    requires a < p && b < p && z < p && z' < p
    requires a + (p - 1 - b) + Bit01(true) == z + Bit01(c) * p
    requires neg == (if b == 0 then 0 else p - b) && a + neg + Bit01(false) == z' + Bit01(c') * p
    ensures z == z' == (if a >= b then a - b else a - b + p) && c == (a >= b) && (b != 0 ==> c == c')
  {
    assert Bit01(c) * p == (if c then p else 0) && Bit01(c') * p == (if c' then p else 0);
  }

  /** Words of one length make different numbers. */
  lemma {:induction false} NumberInjective(s: seq<word>, t: seq<word>)
    requires |s| == |t| && Number(s) == Number(t)
    ensures s == t
  {
    if s != [] {
      var x, y := Number(s[1..]), Number(t[1..]);
      assert s[0] + B * x == t[0] + B * y;
      assert s[0] == t[0] && x == y;
      NumberInjective(s[1..], t[1..]);
      assert s == [s[0]] + s[1..] && t == [t[0]] + t[1..];
    }
  }

  /** Adding the complement with a carry in, and negating and then adding, give the same words: those of the
      difference modulo 2^(32n). The carry out of the first says that nothing was borrowed, as does that of the
      second unless nothing is subtracted. */
  method SubtractBothWays(n: nat, a: array<word>, b: array<word>, z: array<word>, w: array<word>)
      returns (c: bool, c': bool)
    requires 0 < n <= a.Length && n <= b.Length && n <= z.Length && n <= w.Length
    requires z !in {a, b, w} && w !in {a, b}
    modifies z, w
    ensures z[..n] == w[..n]
    ensures var x, y := Number(a[..n]), Number(b[..n]);
            && Number(z[..n]) == (if x >= y then x - y else x - y + Pow2(32 * n))
            && c == (x >= y) && (y != 0 ==> c' == c)
  {
    hide Number, Pow2;
    ghost var s, t := a[..n], b[..n];
    c := AddComplCarryM(n, a, b, true, z);
    ghost var u := z[..n];
    forall i | 0 <= i < n { w[i] := b[i]; }
    assert w[..n] == t;
    NegXM(n, w);
    ghost var neg := w[..n];
    assert a[..n] == s;
    c' := AddCarryM(n, a, w, false, w);
    assert a[..n] == s && b[..n] == t && z[..n] == u && |w[..n]| == n;
    SubtractionsAgree(Number(s), Number(t), Pow2(32 * n), Number(u), c, Number(neg), Number(w[..n]), c');
    NumberInjective(u, w[..n]);
  }

  // ---------------------------------------------------------------- products

  function Lo(v: nat): word { v % B }
  function Hi(v: nat): nat { v / B }

  /** The product of two doublewords from the products of their halves. */
  lemma Halves(a: dword, b: dword, p00: nat, p01: nat, p10: nat, p11: nat)
    requires p00 == Lo(a) * Lo(b) && p01 == Lo(a) * Hi(b) && p10 == Hi(a) * Lo(b) && p11 == Hi(a) * Hi(b)
    ensures a * b == p00 + B * (p01 + p10) + W * p11
    ensures p00 <= (B - 1) * (B - 1) && p01 <= (B - 1) * (B - 1) && p10 <= (B - 1) * (B - 1) && p11 <= (B - 1) * (B - 1)
  {
    var x, y, u, v := Lo(a), Hi(a), Lo(b), Hi(b);
    assert a == x + B * y && b == u + B * v && y < B && v < B;
    hide *;
    Expand(x, y, u, v);
    Product(x, u);
    Product(x, v);
    Product(y, u);
    Product(y, v);
  }

  lemma Expand(x: nat, y: nat, u: nat, v: nat)
    ensures (x + B * y) * (u + B * v) == x * u + B * (x * v + y * u) + W * (y * v)
  {}

  lemma Product(x: nat, y: nat)
    requires x < B && y < B
    ensures 0 <= x * y <= (B - 1) * (B - 1)
  {
    Distribute(B - 1, x, y);
    NonNegative(B - 1 - x, y);
    NonNegative(x, y);
  }

  lemma NonNegative(p: int, q: int)
    requires p >= 0 && q >= 0
    ensures p * q >= 0
  {}

  /** The carries of a product: h is its high half. */
  lemma HighHalf(p00: nat, p01: nat, p10: nat, p11: nat, t1: nat, t2: nat, h: nat)
    requires p00 <= (B - 1) * (B - 1) && p01 <= (B - 1) * (B - 1)
    requires p10 <= (B - 1) * (B - 1) && p11 <= (B - 1) * (B - 1)
    requires t1 == p10 + p00 / B && t2 == p01 + t1 % B && h == p11 + t1 / B + t2 / B
    ensures t1 < W && t2 < W && h < W
    ensures (p00 + B * (p01 + p10) + W * p11) / W == h
  {
    var rest := p00 % B + B * (t2 % B);
    assert p00 + B * (p01 + p10) + W * p11 == W * h + rest && rest < W;
  }

  lemma MulhuSteps(a: dword, b: dword, t1: nat, t2: nat, h: nat)
    requires t1 == Hi(a) * Lo(b) + Hi(Lo(a) * Lo(b)) && t2 == Lo(a) * Hi(b) + Lo(t1)
    requires h == Hi(a) * Hi(b) + Lo(Hi(t1)) + Hi(t2)
    ensures t1 < W && t2 < W && h < W && h == a * b / W
  {
    var p00, p01, p10, p11 := Lo(a) * Lo(b), Lo(a) * Hi(b), Hi(a) * Lo(b), Hi(a) * Hi(b);
    Halves(a, b, p00, p01, p10, p11);
    var ab := a * b;
    assert t1 == p10 + p00 / B && t2 == p01 + t1 % B;
    HighHalf(p00, p01, p10, p11, t1, t2, p11 + t1 / B + t2 / B);
    assert Hi(t1) == Lo(Hi(t1)) by { assert t1 / B < B; }
  }

  /** mulhu: the high half of the unsigned product. No step leaves its word. */
  method Mulhu(a: dword, b: dword) returns (r: dword)
    ensures r == a * b / W
  {
    hide Lo, Hi;
    var a0, a1, b0, b1 := Lo(a), Hi(a), Lo(b), Hi(b);
    ghost var t1 := Hi(a) * Lo(b) + Hi(Lo(a) * Lo(b));
    ghost var t2 := Lo(a) * Hi(b) + Lo(t1);
    MulhuSteps(a, b, t1, t2, Hi(a) * Hi(b) + Lo(Hi(t1)) + Hi(t2));
    var t := (a1 * b0 + Hi(a0 * b0)) % W;
    assert t == t1;
    var y1, y2 := Lo(t), Lo(Hi(t));
    t := (a0 * b1 + y1) % W;
    assert t == t2;
    y1 := Lo(t);
    t := (a1 * b1 + y2 + Hi(t)) % W;
    y2 := Lo(t);
    var y3 := Lo(Hi(t));
    r := y3 * B + y2;
    HalvesJoin(t);
  }

  lemma HalvesJoin(t: dword)
    ensures Lo(Hi(t)) * B + Lo(t) == t
  {}

  /** softfloat_mul64To128: both halves of the product, with the carries seen by comparisons. */
  method Mul64To128(a: dword, b: dword) returns (v64: dword, v0: dword)
    ensures v64 * W + v0 == a * b
    ensures v64 == a * b / W && v0 == a * b % W
  {
    hide Lo, Hi, Or, Times, Wrap64;
    var a32, a0, b32, b0 := Hi(a), Lo(a), Hi(b), Lo(b);
    ghost var p00, p01, p10, p11 := Times(Lo(a), Lo(b)), Times(Lo(a), Hi(b)), Times(Hi(a), Lo(b)), Times(Hi(a), Hi(b));
    Mul64Steps(a, b, p00, p01, p10, p11);
    v0 := Times(a0, b0);
    var mid1 := Times(a32, b0);
    var mid := Wrap64(mid1 + Times(a0, b32));
    v64 := Times(a32, b32);
    NoWrap(v64 + Or(if mid < mid1 then B else 0, Hi(mid)));
    v64 := Wrap64(v64 + Or(if mid < mid1 then B else 0, Hi(mid)));
    mid := Lo(mid) * B;
    v0 := Wrap64(v0 + mid);
    NoWrap(v64 + if v0 < mid then 1 else 0);
    v64 := Wrap64(v64 + if v0 < mid then 1 else 0);
    QuotientOf(a * b, v64, v0);
  }

  function Wrap64(v: nat): dword { v % W }

  lemma NoWrap(v: nat)
    requires v < W
    ensures Wrap64(v) == v
  {}

  function Times(x: nat, y: nat): nat { NonNegative(x, y); x * y }

  lemma QuotientOf(v: nat, q: nat, r: nat)
    requires v == q * W + r && r < W
    ensures q == v / W && r == v % W
  {}

  /** The sum of the two middle products may leave its doubleword by one bit. */
  lemma Mul64Steps(a: dword, b: dword, p00: nat, p01: nat, p10: nat, p11: nat)
    requires p00 == Times(Lo(a), Lo(b)) && p01 == Times(Lo(a), Hi(b))
    requires p10 == Times(Hi(a), Lo(b)) && p11 == Times(Hi(a), Hi(b))
    ensures var mid := Wrap64(p10 + p01); var c := mid < p10; var low := Lo(mid) * B; var v0 := Wrap64(p00 + low);
            var high := p11 + Or(if c then B else 0, Hi(mid));
            && p00 < W && p10 < W && p11 < W && low < W && high < W
            && high + (if v0 < low then 1 else 0) < W
            && (high + if v0 < low then 1 else 0) * W + v0 == a * b
  {
    Halves(a, b, p00, p01, p10, p11);
    var mid := Wrap64(p10 + p01);
    OrCarry(mid < p10, Hi(mid), mid);
    var ab := a * b;
    hide *;
    MidSum(p00, p01, p10, p11, ab);
  }

  lemma OrCarry(c: bool, h: nat, mid: dword)
    requires h == Hi(mid)
    ensures Or(if c then B else 0, h) == (if c then B else 0) + h
  {
    Pow2Values();
    OrDisjoint(if c then B else 0, h, 32);
  }

  lemma MidSum(p00: nat, p01: nat, p10: nat, p11: nat, ab: nat)
    requires p00 <= (B - 1) * (B - 1) && p01 <= (B - 1) * (B - 1)
    requires p10 <= (B - 1) * (B - 1) && p11 <= (B - 1) * (B - 1)
    requires ab == p00 + B * (p01 + p10) + W * p11
    ensures var mid := Wrap64(p10 + p01); var c := mid < p10; var low := Lo(mid) * B; var v0 := Wrap64(p00 + low);
            var high := p11 + (if c then B else 0) + Hi(mid);
            && low < W && high < W && high + (if v0 < low then 1 else 0) < W
            && (high + if v0 < low then 1 else 0) * W + v0 == ab
  {}

  // ---------------------------------------------------------------- signed products

  type int64 = x: int | -0x8000_0000_0000_0000 <= x < 0x8000_0000_0000_0000

  function ToUnsigned(v: int): dword { v % W }
  function ToSigned(v: dword): int64 { if v < 0x8000_0000_0000_0000 then v else v - W }

  function Abs(v: int): nat { if v < 0 then -v else v }

  /** Negation as a 64-bit machine does it: the least integer stays as it is. */
  function Negated(v: int): int64 { ToSigned(ToUnsigned(-v)) }

  /** The magnitude that the source passes on: -a wraps around for the least integer, to the right bits. */
  lemma Magnitude(a: int64)
    ensures ToUnsigned(if a < 0 then Negated(a) else a) == Abs(a)
  {}

  /** The high half of a negated product, from that of the product. */
  lemma NegatedHigh(p: int, res: dword)
    requires 0 <= p <= 0x8000_0000_0000_0000 * W && res == p / W
    ensures ToSigned(ToUnsigned(W - 1 - (res as int) + if (-p) % W == 0 then 1 else 0)) == (-p) / W
    ensures p <= 0x8000_0000_0000_0000 * (W / 2) ==> ToSigned(res) == p / W
  {}

  lemma SignedProduct(a: int, b: int)
    ensures a * b == if (a < 0) != (b < 0) then -(Abs(a) * Abs(b)) else Abs(a) * Abs(b)
  {}

  lemma ProductBound(x: nat, y: nat, m: nat, n: nat)
    requires x <= m && y <= n
    ensures 0 <= x * y <= m * n
  {
    Distribute(m, x, y);
    NonNegative(m - x, y);
    Distribute(n, y, m);
    NonNegative(n - y, m);
    NonNegative(x, y);
  }

  /** mulh: the floor of the signed product by 2^64, for the least integer too. */
  method Mulh(a: int64, b: int64) returns (r: int64)
    ensures r == a * b / W
  {
    var negate := (a < 0) != (b < 0);
    Magnitude(a);
    Magnitude(b);
    SignedProduct(a, b);
    ProductBound(Abs(a), Abs(b), 0x8000_0000_0000_0000, 0x8000_0000_0000_0000);
    ghost var p: int := Abs(a) * Abs(b);
    var res := Mulhu(ToUnsigned(if a < 0 then Negated(a) else a), ToUnsigned(if b < 0 then Negated(b) else b));
    NegatedHigh(p, res);
    var zero := ToUnsigned(a * b) == 0;
    r := if negate then ToSigned(ToUnsigned(W - 1 - (res as int) + if zero then 1 else 0)) else ToSigned(res);
  }

  /** mulhsu: the floor of the mixed product by 2^64. */
  method Mulhsu(a: int64, b: dword) returns (r: int64)
    ensures r == a * b / W
  {
    var negate := a < 0;
    Magnitude(a);
    SignedProduct(a, b);
    ProductBound(Abs(a), b, 0x8000_0000_0000_0000, W);
    ghost var p: int := Abs(a) * b;
    var res := Mulhu(ToUnsigned(if a < 0 then Negated(a) else a), b);
    NegatedHigh(p, res);
    var zero := ToUnsigned(a * b) == 0;
    r := if negate then ToSigned(ToUnsigned(W - 1 - (res as int) + if zero then 1 else 0)) else ToSigned(res);
  }
}
