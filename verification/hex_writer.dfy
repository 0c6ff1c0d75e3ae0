/** htif_hexwriter_t: a memory kept as a map of lines, as a backend of the chunk interface. */
module HexWriter {
  import opened Bits
  import opened FlatMemory

  type Lines = map<nat, seq<byte>>

  /** The bytes that a map of lines stands for: lines that were never touched are zero. */
  ghost function Bytes(lines: Lines, width: nat, depth: nat): (b: seq<byte>)
    requires width > 0 && Sized(lines, width)
    ensures |b| == width * depth
  {
    seq(width * depth, i requires 0 <= i < width * depth => ByteAt(lines, width, i))
  }

  ghost predicate Sized(lines: Lines, width: nat) {
    forall l :: l in lines ==> |lines[l]| == width
  }

  function ByteAt(lines: Lines, width: nat, i: nat): byte
    requires width > 0 && Sized(lines, width)
  {
    QuotientNat(i, width);
    if i / width in lines then lines[i / width][i % width] else 0
  }

  lemma LinePlace(i: int, l: nat, width: nat)
    requires width > 0
    ensures l * width <= i < l * width + width <==> i >= 0 && i / width == l
    ensures i / width == l ==> i % width == i - l * width
  {
    if l * width <= i < l * width + width { DivMod(i, width, l, i - l * width); }
    assert i == width * (i / width) + i % width;
  }

  /** The first access of a line creates it, with zeros. */
  lemma Created(lines: Lines, width: nat, depth: nat, l: nat)
    requires width > 0 && Sized(lines, width) && l !in lines
    ensures Sized(lines[l := Zeros(width)], width)
    ensures Bytes(lines[l := Zeros(width)], width, depth) == Bytes(lines, width, depth)
  {
    var a, b := Bytes(lines[l := Zeros(width)], width, depth), Bytes(lines, width, depth);
    forall i | 0 <= i < width * depth ensures a[i] == b[i] {
      LinePlace(i, i / width, width);
    }
  }

  /** Replacing a line stores its bytes. */
  lemma Replaced(lines: Lines, width: nat, depth: nat, l: nat, line: seq<byte>)
    requires width > 0 && Sized(lines, width) && |line| == width && l * width + width <= width * depth
    ensures Sized(lines[l := line], width)
    ensures Bytes(lines[l := line], width, depth) == Stored(Bytes(lines, width, depth), l * width, line)
  {
    var a, b := Bytes(lines[l := line], width, depth), Stored(Bytes(lines, width, depth), l * width, line);
    forall i | 0 <= i < width * depth ensures a[i] == b[i] {
      LinePlace(i, l, width);
    }
  }

  lemma LineFetched(lines: Lines, width: nat, depth: nat, l: nat)
    requires width > 0 && Sized(lines, width) && l in lines && l * width + width <= width * depth
    ensures Fetch(Bytes(lines, width, depth), l * width, width) == lines[l]
  {
    var a := Fetch(Bytes(lines, width, depth), l * width, width);
    forall k | 0 <= k < width ensures a[k] == lines[l][k] {
      LinePlace(l * width + k, l, width);
    }
  }

  /** A line written over and over. */
  function Repeated(line: seq<byte>, n: nat): (r: seq<byte>)
    requires |line| > 0
    ensures |r| == n
  {
    seq(n, k requires 0 <= k < n => line[k % |line|])
  }

  lemma RepeatedMore(line: seq<byte>, n: nat)
    requires |line| > 0 && Aligned(n, |line|)
    ensures Repeated(line, n) + line == Repeated(line, n + |line|)
  {
    var w := |line|;
    var l, r := Repeated(line, n) + line, Repeated(line, n + w);
    assert n == w * (n / w) == n / w * w;
    forall k | 0 <= k < n + w ensures l[k] == r[k] {
      if k >= n { DivMod(k, w, n / w, k - n); }
    }
  }

  /** What a write of n bytes stores, given their first line. */
  function StoredOver(m: seq<byte>, o: nat, line: seq<byte>, n: nat): (r: seq<byte>)
    requires |line| > 0 && o + n <= |m|
    ensures |r| == |m|
  {
    Stored(m, o, Repeated(line, n))
  }

  lemma RepeatStep(m: seq<byte>, o: nat, line: seq<byte>, n: nat)
    requires |line| > 0 && Aligned(n, |line|) && o + n + |line| <= |m|
    ensures Stored(if n == 0 then m else StoredOver(m, o, line, n), o + n, line) == StoredOver(m, o, line, n + |line|)
  {
    RepeatedMore(line, n);
    StoredTwice(m, o, Repeated(line, n), line);
    EmptyStored(m, o);
    assert n == 0 ==> Repeated(line, n) == [];
  }

  /** A write stores its data exactly when the data repeats its first line. */
  lemma RepeatedIff(data: seq<byte>, width: nat)
    requires 0 < width <= |data|
    ensures Repeated(data[..width], |data|) == data <==> forall k :: 0 <= k < |data| ==> data[k] == data[k % width]
  {
    var r := Repeated(data[..width], |data|);
    forall k | 0 <= k < |data| ensures r[k] == data[k % width] {}
  }

  /** What WriteChunk leaves is what the chunk interface asks for exactly when the data repeats its first
      line. */
  lemma WriteExactIff(m: seq<byte>, o: nat, data: seq<byte>, width: nat)
    requires 0 < width <= |data| && o + |data| <= |m|
    ensures StoredOver(m, o, data[..width], |data|) == Stored(m, o, data)
       <==> forall k :: 0 <= k < |data| ==> data[k] == data[k % width]
  {
    RepeatedIff(data, width);
    var r := Repeated(data[..width], |data|);
    FetchStored(m, o, r, o, |r|);
    FetchStored(m, o, data, o, |data|);
  }

  /** The lengths that memif_t asks for, at most chunk_max_size = width, are one line: those are exact. */
  lemma OneLineIsExact(m: seq<byte>, o: nat, data: seq<byte>, width: nat)
    requires 0 < |data| <= width && Aligned(|data|, width) && o + |data| <= |m|
    ensures |data| == width && StoredOver(m, o, data[..width], |data|) == Stored(m, o, data)
  {
    if |data| < width { DivMod(|data|, width, 0, |data|); }
    assert data[..width] == data;
    WriteExactIff(m, o, data, width);
    forall k | 0 <= k < |data| ensures data[k] == data[k % width] { DivMod(k, width, 0, k); }
  }

  /** Two different lines written by one call are not stored. */
  lemma TwoLinesAreNot()
    ensures StoredOver([0, 0], 0, [1, 2][..1], 2) != Stored([0, 0], 0, [1, 2])
  {
    WriteExactIff([0, 0], 0, [1, 2], 1);
    assert [1, 2][1 % 1] == 1;
  }

  class Hexwriter {
    const base: nat
    const width: nat
    const depth: nat
    var mem: Lines

    ghost predicate Valid()
      reads this
    {
      width > 0 && Sized(mem, width)
    }

    ghost function Flat(): (b: seq<byte>)
      requires Valid()
      reads this
      ensures |b| == width * depth
    {
      Bytes(mem, width, depth)
    }

    constructor (base: nat, width: nat, depth: nat)
      requires width > 0
      ensures Valid() && Flat() == Zeros(width * depth)
      ensures this.base == base && this.width == width && this.depth == depth
    {
      this.base, this.width, this.depth, mem := base, width, depth, map[];
    }

    /** What the chunk operations assert, and the alignment that they rely on. */
    ghost predicate Chunk(addr: nat, len: nat)
      reads this
    {
      width > 0 && base <= addr < base + width * depth && addr + len <= base + width * depth
      && Aligned(addr - base, width) && Aligned(len, width)
    }

    /** Makes sure that a line is there. */
    method Touch(l: nat)
      requires Valid()
      modifies this
      ensures Valid() && l in mem && Flat() == old(Flat())
    {
      if l !in mem {
        Created(mem, width, depth, l);
        mem := mem[l := Zeros(width)];
      }
    }

    method CopyLine(l: nat, dst: array<byte>, d: nat)
      requires Valid() && l in mem && d + width <= dst.Length
      modifies dst
      ensures dst[..] == Stored(old(dst[..]), d, mem[l])
    {
      for j := 0 to width
        invariant forall k :: 0 <= k < dst.Length ==> dst[k] == if d <= k < d + j then mem[l][k - d] else old(dst[k])
      {
        dst[d + j] := mem[l][j];
      }
    }

    method FillLine(l: nat, src: array<byte>, at: nat)
      requires Valid() && l in mem && at + width <= src.Length
      modifies this
      ensures mem == old(mem)[l := src[at..at + width]]
    {
      for j := 0 to width
        invariant l in mem && mem == old(mem)[l := mem[l]] && |mem[l]| == width
        invariant forall k :: 0 <= k < j ==> mem[l][k] == src[at + k]
      {
        mem := mem[l := mem[l][j := src[at + j]]];
      }
      assert mem[l] == src[at..at + width];
    }

    /** Reads are exact, for every aligned stretch. */
    method ReadChunk(addr: nat, len: nat, dst: array<byte>, at: nat)
      requires Valid() && Chunk(addr, len) && at + len <= dst.Length
      modifies this, dst
      ensures Valid() && Flat() == old(Flat())
      ensures dst[..] == Stored(old(dst[..]), at, Fetch(Flat(), addr - base, len))
    {
      hide Aligned, Stored, Fetch, Bytes, Sized;
      var taddr: nat, left: nat, d: nat := addr - base, len, at;
      ghost var was, m, done: nat := dst[..], Flat(), 0;
      EmptyStored(was, at);
      EmptyFetch(m, addr - base);
      while left != 0
        invariant done + left == len && taddr == addr - base + done && d == at + done
        invariant Aligned(taddr, width) && Aligned(left, width)
        invariant Valid() && Flat() == m && dst[..] == Stored(was, at, Fetch(m, addr - base, done))
        decreases left
      {
        NextLine(taddr, left, width);
        Touch(taddr / width);
        LineFetched(mem, width, depth, taddr / width);
        CopyLine(taddr / width, dst, d);
        StoredTwice(was, at, Fetch(m, addr - base, done), Fetch(m, taddr, width));
        FetchTwice(m, addr - base, done, width);
        left, taddr, d, done := left - width, taddr + width, d + width, done + width;
      }
    }

    /** Writes its first line over and over, since the loop does not advance the source. */
    method WriteChunk(addr: nat, len: nat, src: array<byte>, at: nat)
      requires Valid() && Chunk(addr, len) && at + len <= src.Length && (len > 0 ==> at + width <= src.Length)
      modifies this
      ensures Valid()
      ensures Flat() == if len == 0 then old(Flat())
                        else StoredOver(old(Flat()), addr - base, src[at..at + width], len)
    {
      hide Aligned, Stored, StoredOver, Bytes, Sized;
      var taddr: nat, left: nat := addr - base, len;
      ghost var m, done: nat := Flat(), 0;
      AlignedZero(width);
      while left != 0
        invariant done + left == len && taddr == addr - base + done
        invariant Aligned(taddr, width) && Aligned(left, width) && Aligned(done, width)
        invariant Valid() && Flat() == if done == 0 then m else StoredOver(m, addr - base, src[at..at + width], done)
        decreases left
      {
        NextLine(taddr, left, width);
        ghost var line := src[at..at + width];
        Touch(taddr / width);
        Replaced(mem, width, depth, taddr / width, line);
        FillLine(taddr / width, src, at);
        RepeatStep(m, addr - base, line, done);
        AlignedSum(done, width, width);
        left, taddr, done := left - width, taddr + width, done + width;
      }
    }
  }

  lemma NextLine(taddr: nat, left: nat, width: nat)
    requires width > 0 && Aligned(taddr, width) && Aligned(left, width) && left > 0
    ensures taddr / width * width == taddr && 0 <= taddr / width && width <= left
    ensures Aligned(taddr + width, width) && Aligned(left - width, width) && Aligned(width, width)
  {
    LinePlace(taddr, taddr / width, width);
    DivMod(width, width, 1, 0);
    AlignedSum(taddr, width, width);
    AlignedSum(width, left - width, width);
  }
}
