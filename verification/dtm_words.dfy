/** Little-endian values of bytes and of 32-bit words. */
module Words {
  import opened Bits
  import opened FlatMemory

  type word = x: nat | x < 0x1_0000_0000

  function Value(b: seq<byte>): nat {
    if b == [] then 0 else b[0] + 256 * Value(b[1..])
  }

  function BytesOf(v: nat, n: nat): (b: seq<byte>)
    ensures |b| == n
  {
    if n == 0 then [] else [v % 256] + BytesOf(v / 256, n - 1)
  }

  /** Storing the value of some bytes stores those bytes. */
  lemma {:induction false} BytesOfValue(b: seq<byte>)
    ensures BytesOf(Value(b), |b|) == b && Value(b) < Pow2(8 * |b|)
  {
    if b != [] {
      BytesOfValue(b[1..]);
      assert Value(b) % 256 == b[0] && Value(b) / 256 == Value(b[1..]);
      Pow2Eight(|b|);
    }
  }

  /** And the bytes of a value that fits give it back. */
  lemma {:induction false} ValueOfBytes(v: nat, n: nat)
    requires v < Pow2(8 * n)
    ensures Value(BytesOf(v, n)) == v
  {
    if n > 0 {
      Pow2Eight(n);
      ValueOfBytes(v / 256, n - 1);
      assert BytesOf(v, n)[1..] == BytesOf(v / 256, n - 1);
    }
  }

  lemma Pow2Eight(n: nat)
    requires n > 0
    ensures Pow2(8 * n) == 256 * Pow2(8 * (n - 1))
  {
    Pow2Add(8, 8 * (n - 1));
    assert Pow2(8) == 256;
  }

  lemma {:induction false} ValueConcat(a: seq<byte>, b: seq<byte>)
    ensures Value(a + b) == Value(a) + Pow2(8 * |a|) * Value(b)
  {
    if a == [] {
      assert a + b == b;
    } else {
      ValueConcat(a[1..], b);
      Pow2Eight(|a|);
      assert (a + b)[1..] == a[1..] + b;
    }
  }

  /** The value held in the data registers that an XLEN-bit transfer uses. */
  function DataValue(data: seq<word>, xlen: nat): nat
    requires |data| >= xlen / 32 && (xlen == 32 || xlen == 64)
  {
    var low: nat, high: nat := data[0], if xlen == 64 then data[1] else 0;
    low + 0x1_0000_0000 * high
  }

  function Low(v: nat): word { v % 0x1_0000_0000 }
  function High(v: nat): word { v / 0x1_0000_0000 % 0x1_0000_0000 }

  /** data with the words of a value in its first XLEN / 32 registers. */
  function WithValue(data: seq<word>, v: nat, xlen: nat): (d: seq<word>)
    requires |data| >= xlen / 32 && (xlen == 32 || xlen == 64)
    ensures |d| == |data|
  {
    if xlen == 64 then data[0 := Low(v)][1 := High(v)] else data[0 := Low(v)]
  }

  function Modulus(xlen: nat): nat { if xlen == 64 then 0x1_0000_0000_0000_0000 else 0x1_0000_0000 }

  /** The XLEN-bit words of a length. */
  function WordsIn(len: nat, xlen: nat): nat
    requires xlen == 32 || xlen == 64
  {
    len / (xlen / 8)
  }

  /** Arithmetic of an XLEN-bit hart. */
  function Wrap(v: int, xlen: nat): (r: nat)
    ensures r < Modulus(xlen)
  {
    v % Modulus(xlen)
  }

  lemma ValueKept(data: seq<word>, v: nat, xlen: nat)
    requires |data| >= xlen / 32 && (xlen == 32 || xlen == 64) && v < Modulus(xlen)
    ensures DataValue(WithValue(data, v, xlen), xlen) == v
  {}

  /** The bytes of the data registers, as memcpy sees them. */
  function DataBytes(data: seq<word>, xlen: nat): (b: seq<byte>)
    requires |data| >= xlen / 32 && (xlen == 32 || xlen == 64)
    ensures |b| == xlen / 8
  {
    if xlen == 64 then BytesOf(data[0], 4) + BytesOf(data[1], 4) else BytesOf(data[0], 4)
  }

  lemma DataBytesValue(data: seq<word>, xlen: nat)
    requires |data| >= xlen / 32 && (xlen == 32 || xlen == 64)
    ensures Value(DataBytes(data, xlen)) == DataValue(data, xlen) < Modulus(xlen)
    ensures DataBytes(data, xlen) == BytesOf(DataValue(data, xlen), xlen / 8)
  {
    Pow2Values();
    ValueOfBytes(data[0], 4);
    if xlen == 64 {
      ValueOfBytes(data[1], 4);
      ValueConcat(BytesOf(data[0], 4), BytesOf(data[1], 4));
    }
    BytesOfValue(DataBytes(data, xlen));
  }
}
