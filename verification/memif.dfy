/** Flat byte memory: the meaning that every memory interface below is held to. */
module FlatMemory {
  import Bits

  type byte = x: nat | x < 256

  /** m with the bytes put at offset o. */
  function Stored(m: seq<byte>, o: nat, bytes: seq<byte>): (r: seq<byte>)
    requires o + |bytes| <= |m|
    ensures |r| == |m|
  {
    m[..o] + bytes + m[o + |bytes|..]
  }

  function Fetch(m: seq<byte>, o: nat, len: nat): (r: seq<byte>)
    requires o + len <= |m|
    ensures |r| == len
  {
    m[o..o + len]
  }

  function Zeros(n: nat): (z: seq<byte>)
    ensures |z| == n && forall k :: 0 <= k < n ==> z[k] == 0
  {
    seq(n, _ => 0)
  }

  /** What is stored is fetched, and nothing else changes. */
  lemma FetchStored(m: seq<byte>, o: nat, bytes: seq<byte>, p: nat, len: nat)
    requires o + |bytes| <= |m| && p + len <= |m|
    ensures Fetch(Stored(m, o, bytes), o, |bytes|) == bytes
    ensures p + len <= o || o + |bytes| <= p ==> Fetch(Stored(m, o, bytes), p, len) == Fetch(m, p, len)
  {}

  /** Storing two neighbouring pieces, in either order, stores the whole. */
  lemma StoredTwice(m: seq<byte>, o: nat, a: seq<byte>, b: seq<byte>)
    requires o + |a| + |b| <= |m|
    ensures Stored(Stored(m, o, a), o + |a|, b) == Stored(m, o, a + b)
    ensures Stored(Stored(m, o + |a|, b), o, a) == Stored(m, o, a + b)
  {}

  /** Changing part of a piece that was fetched and storing the piece back changes that part only. */
  lemma StoredPart(m: seq<byte>, o: nat, n: nat, d: nat, part: seq<byte>)
    requires o + n <= |m| && d + |part| <= n
    ensures Stored(m, o, Stored(Fetch(m, o, n), d, part)) == Stored(m, o + d, part)
  {
    var l, r := Stored(m, o, Stored(Fetch(m, o, n), d, part)), Stored(m, o + d, part);
    var c := Fetch(m, o, n);
    forall k | 0 <= k < |m| ensures l[k] == r[k] {
      if o <= k < o + n { assert c[k - o] == m[k]; }
    }
  }

  lemma FetchTwice(m: seq<byte>, o: nat, a: nat, b: nat)
    requires o + a + b <= |m|
    ensures Fetch(m, o, a) + Fetch(m, o + a, b) == Fetch(m, o, a + b)
  {
    assert m[o..o + a] + m[o + a..o + a + b] == m[o..o + a + b];
  }

  lemma FetchPart(m: seq<byte>, o: nat, n: nat, d: nat, len: nat)
    requires o + n <= |m| && d + len <= n
    ensures Fetch(Fetch(m, o, n), d, len) == Fetch(m, o + d, len)
  {
    var l, r := Fetch(Fetch(m, o, n), d, len), Fetch(m, o + d, len);
    forall k | 0 <= k < len ensures l[k] == r[k] {
      assert l[k] == Fetch(m, o, n)[d + k];
    }
  }

  lemma StoredAll(m: seq<byte>, bytes: seq<byte>)
    requires |bytes| == |m|
    ensures Stored(m, 0, bytes) == bytes
  {}

  lemma ReadStep(m: seq<byte>, o: nat, was: seq<byte>, at: nat, pos: nat, n: nat)
    requires o + pos + n <= |m| && at + pos + n <= |was|
    ensures Stored(Stored(was, at, Fetch(m, o, pos)), at + pos, Fetch(m, o + pos, n)) ==
        Stored(was, at, Fetch(m, o, pos + n))
  {
    StoredTwice(was, at, Fetch(m, o, pos), Fetch(m, o + pos, n));
    FetchTwice(m, o, pos, n);
  }

  /** d is was with n bytes of m, from offset o, put at offset `at`. */
  ghost predicate Fetched(was: seq<byte>, at: nat, m: seq<byte>, o: nat, n: nat, d: seq<byte>) {
    o + n <= |m| && at + n <= |was| && d == Stored(was, at, Fetch(m, o, n))
  }

  lemma FetchedNext(was: seq<byte>, at: nat, m: seq<byte>, o: nat, n: nat, w: nat, d: seq<byte>, d': seq<byte>)
    requires Fetched(was, at, m, o, n, d) && o + n + w <= |m| && at + n + w <= |was|
    requires d' == Stored(d, at + n, Fetch(m, o + n, w))
    ensures Fetched(was, at, m, o, n + w, d')
  {
    ReadStep(m, o, was, at, n, w);
  }

  lemma WriteStep(m: seq<byte>, o: nat, src: seq<byte>, pos: nat, n: nat)
    requires o + pos + n <= |m| && pos + n <= |src|
    ensures Stored(Stored(m, o, src[..pos]), o + pos, src[pos..pos + n]) == Stored(m, o, src[..pos + n])
  {
    StoredTwice(m, o, src[..pos], src[pos..pos + n]);
    assert src[..pos] + src[pos..pos + n] == src[..pos + n];
  }

  function Min(a: nat, b: nat): nat {
    if a < b then a else b
  }

  lemma EmptyStored(m: seq<byte>, o: nat)
    requires o <= |m|
    ensures Stored(m, o, []) == Stored(m, o, Zeros(0)) == m
  {}

  lemma SliceOfSlice(s: seq<byte>, at: nat, len: nat, pos: nat, n: nat)
    requires at + len <= |s| && pos + n <= len
    ensures s[at..at + len][pos..pos + n] == s[at + pos..at + pos + n]
  {
    var l, r := s[at..at + len][pos..pos + n], s[at + pos..at + pos + n];
    forall k | 0 <= k < n ensures l[k] == r[k] {}
  }

  lemma EmptyFetch(m: seq<byte>, o: nat)
    requires o <= |m|
    ensures Fetch(m, o, 0) == []
  {}

  lemma AlignedZero(align: nat)
    requires align > 0
    ensures Aligned(0, align)
  {}

  predicate Aligned(x: nat, align: nat)
    requires align > 0
  {
    x % align == 0
  }

  lemma AlignedBelow(x: nat, align: nat)
    requires align > 0
    ensures 0 <= x - x % align && Aligned(x - x % align, align)
  {
    var q := x / align;
    assert x == align * q + x % align && q >= 0;
    assert align * q == q * align;
    Bits.DivMod(x - x % align, align, q, 0);
  }

  lemma AlignedSum(x: nat, y: nat, align: nat)
    requires align > 0 && Aligned(x, align)
    ensures Aligned(x + y, align) == Aligned(y, align)
  {
    var q, r := y / align, y % align;
    assert x == align * (x / align) && y == align * q + r;
    Bits.DivMod(x + y, align, x / align + q, r) by {
      assert (x / align + q) * align == align * (x / align) + align * q;
    }
  }
}

/** memif_t: reads and writes of any address and length by aligned chunks. */
module MemIf {
  import opened Bits
  import opened FlatMemory
  import D = Dtm
  import H = HexWriter
  import T = DebugTarget
  import W = Words

  /** The two implementations of htif_t's chunk operations. */
  datatype Backend = Hex(writer: H.Hexwriter) | Debug(dtm: D.Dtm)

  /** htif_t: its chunk operations, over a memory that starts at `base`, with a backend behind them. Their
      preconditions are what the implementations assert or rely on: aligned addresses and positive multiples of
      the alignment. */
  class Target {
    const backend: Backend
    const align: nat
    const maxSize: nat
    const base: nat
    /** The memory, and the registers of the hart that a debug transport uses. */
    ghost var mem: seq<byte>
    ghost const regs: seq<nat>

    ghost function Parts(): set<object> {
      match backend
      case Hex(h) => {this, h}
      case Debug(d) => {this, d.target}
    }

    /** The backend holds the memory, in lines of the alignment's size or behind a debug module. */
    ghost predicate Behind()
      reads this, Parts()
    {
      match backend
      case Hex(h) => h.Valid() && h.base == base && h.width == align == maxSize && mem == h.Flat()
      case Debug(d) => d.xlen == d.target.a.xlen && Transport(d.target.s, d.target.a, align, maxSize, base, mem, regs)
    }

    ghost predicate Valid()
      reads this, Parts()
    {
      && (exists k :: align == Pow2(k)) && maxSize > 0 && Aligned(maxSize, align)
      && Aligned(base, align) && Aligned(|mem|, align) && Behind()
    }

    ghost predicate Chunk(addr: nat, len: nat)
      requires align > 0
      reads this
    {
      && base <= addr && addr + len <= base + |mem|
      && Aligned(addr, align) && Aligned(len, align) && len > 0
    }

    constructor OverLines(h: H.Hexwriter)
      requires h.Valid() && (exists k :: h.width == Pow2(k)) && Aligned(h.base, h.width)
      ensures Valid() && Parts() == {this, h} && mem == h.Flat() && base == h.base
    {
      backend, align, maxSize, base, mem, regs := Hex(h), h.width, h.width, h.base, h.Flat(), [];
      new;
      LinesAligned(h.width, h.depth);
    }

    constructor OverDebug(d: D.Dtm)
      requires d.xlen == d.target.a.xlen
      requires Transport(d.target.s, d.target.a, d.xlen / 8, 4096, d.target.a.base, d.target.s.mem, d.target.s.x)
      requires Aligned(d.target.a.base, d.xlen / 8) && Aligned(|d.target.s.mem|, d.xlen / 8)
      ensures Valid() && Parts() == {this, d.target} && mem == d.target.s.mem && base == d.target.a.base
    {
      backend, align, maxSize, base := Debug(d), d.xlen / 8, 4096, d.target.a.base;
      mem, regs := d.target.s.mem, d.target.s.x;
      new;
      assert Pow2(2) == 4 && Pow2(3) == 8;
    }

    method ReadChunk(addr: nat, len: nat, dst: array<byte>, at: nat)
      requires Valid() && Chunk(addr, len) && len <= maxSize && at + len <= dst.Length
      modifies Parts(), dst
      ensures Valid() && mem == old(mem) && dst[..] == Stored(old(dst[..]), at, Fetch(mem, addr - base, len))
    {
      hide Stored, Fetch, Pow2;
      match backend {
        case Hex(h) =>
          AlignedDifference(addr, base, align);
          h.ReadChunk(addr, len, dst, at);
        case Debug(d) => d.ReadChunk(addr, len, dst, at);
      }
    }

    method WriteChunk(addr: nat, len: nat, src: array<byte>, at: nat)
      requires Valid() && Chunk(addr, len) && len <= maxSize && at + len <= src.Length
      modifies Parts()
      ensures Valid() && mem == Stored(old(mem), addr - base, src[at..at + len])
    {
      hide Stored, Pow2, Behind, Aligned;
      if backend.Hex? {
        WriteLine(addr, len, src, at);
      } else {
        WriteWords(addr, len, src, at);
      }
    }

    method WriteLine(addr: nat, len: nat, src: array<byte>, at: nat)
      requires Valid() && Chunk(addr, len) && len <= maxSize && at + len <= src.Length && backend.Hex?
      modifies Parts()
      ensures Valid() && mem == Stored(old(mem), addr - base, src[at..at + len])
    {
      hide Stored, Pow2, Aligned, H.StoredOver;
      ghost var data := src[at..at + len];
      AlignedDifference(addr, base, align);
      H.OneLineIsExact(mem, addr - base, data, align);
      assert data[..align] == data == src[at..at + align];
      backend.writer.WriteChunk(addr, len, src, at);
      mem := Stored(mem, addr - base, data);
    }

    method WriteWords(addr: nat, len: nat, src: array<byte>, at: nat)
      requires Valid() && Chunk(addr, len) && at + len <= src.Length && backend.Debug?
      modifies Parts()
      ensures Valid() && mem == Stored(old(mem), addr - base, src[at..at + len])
    {
      hide Stored, Pow2, Aligned;
      ghost var data := src[at..at + len];
      backend.dtm.WriteChunk(addr, len, src, at);
      mem := Stored(mem, addr - base, data);
    }

    /** htif_t::clear_chunk, which a debug transport overrides. */
    method ClearChunk(addr: nat, len: nat)
      requires Valid() && Chunk(addr, len)
      modifies Parts()
      ensures Valid() && mem == Stored(old(mem), addr - base, Zeros(len))
    {
      hide Stored, Pow2;
      match backend {
        case Hex(h) => ClearByWriting(addr, len);
        case Debug(d) =>
          d.ClearChunk(addr, len);
          mem := Stored(mem, addr - base, Zeros(len));
      }
    }

    /** The default, which has no bound on the length. */
    method ClearByWriting(addr: nat, len: nat)
      requires Valid() && Chunk(addr, len)
      modifies Parts()
      ensures Valid() && mem == Stored(old(mem), addr - base, Zeros(len))
    {
      hide Aligned, Stored, Pow2, Behind;
      var zeros := new byte[maxSize](_ => 0);
      var pos := 0;
      AlignedZero(align);
      EmptyStored(mem, addr - base);
      while pos < len
        invariant Valid() && Aligned(pos, align) && fresh(zeros) && forall k :: 0 <= k < maxSize ==> zeros[k] == 0
        invariant |mem| == |old(mem)|
        invariant mem == Stored(old(mem), addr - base, Zeros(Min(pos, len)))
      {
        var n := Min(len - pos, maxSize);
        AlignedSum(pos, len - pos, align);
        AlignedSum(addr, pos, align);
        WriteChunk(addr + pos, n, zeros, 0);
        assert zeros[0..n] == Zeros(n);
        StoredTwice(old(mem), addr - base, Zeros(pos), Zeros(n));
        assert Zeros(pos) + Zeros(n) == Zeros(pos + n);
        AlignedSum(pos, maxSize, align);
        pos := pos + maxSize;
      }
    }
  }

  /** A debug transport between two operations: its registers are those that the hart was stopped with. */
  ghost predicate Transport(s: T.Dm, a: T.Arch, align: nat, maxSize: nat, base: nat, mem: seq<byte>, regs: seq<nat>) {
    && D.Ready(s.(halted := true), a) && |s.progbuf| >= 4 && |s.data| >= 2
    && align == a.xlen / 8 && maxSize == 4096 && base == a.base
    && s.mem == mem && s.x == regs && base + |mem| <= W.Modulus(a.xlen)
  }

  lemma LinesAligned(width: nat, depth: nat)
    requires width > 0
    ensures Aligned(width, width) && Aligned(width * depth, width)
  {
    DivMod(width, width, 1, 0);
    DivMod(width * depth, width, depth, 0);
  }

  lemma AlignedDifference(x: nat, y: nat, align: nat)
    requires align > 0 && Aligned(x, align) && Aligned(y, align) && x >= y
    ensures Aligned(x - y, align)
  {
    AlignedSum(y, x - y, align);
  }

  /** The low bits of an address, and the aligned addresses around it. */
  lemma Masks(addr: nat, align: nat) returns (d: nat)
    requires exists k :: align == Pow2(k)
    ensures d == And(addr, align - 1) < align && d <= addr && AndNot(addr, align - 1) == addr - d
    ensures Aligned(addr - d, align) && Aligned(addr - d + align, align)
  {
    var k :| align == Pow2(k);
    AndMask(addr, k);
    AndNotMask(addr, k);
    d := addr % align;
    hide *;
    AlignedBelow(addr, align);
    AlignedSelf(align);
    AlignedSum(addr - d, align, align);
  }

  lemma AlignedSelf(align: nat)
    requires align > 0
    ensures Aligned(align, align)
  {
    DivMod(align, align, 1, 0);
  }

  /** Aligned addresses are at least the alignment apart. */
  lemma AlignedApart(x: nat, y: nat, align: nat)
    requires align > 0 && Aligned(x, align) && Aligned(y, align) && x < y
    ensures x + align <= y
  {
    assert x == align * (x / align) && y == align * (y / align);
    MulAtLeast(y / align - x / align, align) by {
      if y / align <= x / align { MulMonotone(y / align, x / align, align); }
    }
    Distribute(y / align, x / align, align);
  }

  lemma MulMonotone(x: int, y: int, m: nat)
    requires x <= y
    ensures m * x <= m * y
  {}

  /** An aligned chunk that meets the memory is inside the memory. */
  lemma ChunkInside(t: Target, addr: nat)
    requires t.Valid() && Aligned(addr, t.align) && t.base < addr + t.align && addr < t.base + |t.mem|
    ensures t.Chunk(addr, t.align) && t.align <= t.maxSize
  {
    var align := t.align;
    AlignedSelf(align);
    AlignedZero(align);
    hide Aligned, Pow2;
    AlignedSum(t.base, |t.mem|, align);
    AlignedSum(addr, align, align);
    AlignedApart(addr, t.base + |t.mem|, align);
    AlignedApart(0, t.maxSize, align);
    if addr < t.base { AlignedApart(addr, t.base, align); }
  }

  /** One step of the loops over whole chunks. */
  lemma NextChunk(pos: nat, len: nat, maxSize: nat, addr: nat, align: nat)
    requires align > 0 && Aligned(pos, align) && Aligned(len, align) && Aligned(maxSize, align) && Aligned(addr, align)
    requires pos < len && maxSize > 0
    ensures Aligned(Min(len - pos, maxSize), align) && Aligned(addr + pos, align) && Aligned(pos + maxSize, align)
    ensures 0 < Min(len - pos, maxSize) <= maxSize && Min(pos, len) == pos
    ensures Min(pos + maxSize, len) == pos + Min(len - pos, maxSize)
  {
    hide Aligned;
    AlignedSum(pos, len - pos, align);
    AlignedSum(addr, pos, align);
    AlignedSum(pos, maxSize, align);
  }

  method Memcpy(dst: array<byte>, at: nat, src: array<byte>, from: nat, n: nat)
    requires at + n <= dst.Length && from + n <= src.Length && dst != src
    modifies dst
    ensures dst[..] == Stored(old(dst[..]), at, src[from..from + n])
  {
    forall k | 0 <= k < n { dst[at + k] := src[from + k]; }
  }

  class Memif {
    const htif: Target

    constructor (htif: Target)
      ensures this.htif == htif
    {
      this.htif := htif;
    }

    ghost predicate Inside(addr: nat, len: nat)
      reads htif, htif.Parts()
    {
      htif.Valid() && htif.base <= addr && addr + len <= htif.base + |htif.mem|
    }

    /** The chunk of the alignment's size at an aligned address. */
    method ReadAligned(addr: nat) returns (chunk: array<byte>)
      requires htif.Valid() && Aligned(addr, htif.align)
      requires htif.base < addr + htif.align && addr < htif.base + |htif.mem|
      modifies htif.Parts()
      ensures htif.Valid() && htif.mem == old(htif.mem)
      ensures fresh(chunk) && chunk.Length == htif.align <= htif.maxSize && htif.Chunk(addr, htif.align)
      ensures chunk[..] == Fetch(htif.mem, addr - htif.base, htif.align)
    {
      ChunkInside(htif, addr);
      hide Aligned, Stored, Fetch, Pow2;
      chunk := new byte[htif.align];
      ghost var before := chunk[..];
      htif.ReadChunk(addr, htif.align, chunk, 0);
      StoredAll(before, Fetch(htif.mem, addr - htif.base, htif.align));
    }

    /** Reads n bytes from offset d of the chunk at an aligned address. */
    method ReadPart(addr: nat, d: nat, n: nat, bytes: array<byte>, at: nat)
      requires htif.Valid() && Aligned(addr, htif.align) && 0 < n
      requires htif.base < addr + htif.align && addr < htif.base + |htif.mem|
      requires d + n <= htif.align && at + n <= bytes.Length
      modifies htif.Parts(), bytes
      ensures htif.Valid() && htif.mem == old(htif.mem)
      ensures htif.base <= addr && addr + d + n <= htif.base + |htif.mem|
      ensures bytes[..] == Stored(old(bytes[..]), at, Fetch(htif.mem, addr + d - htif.base, n))
    {
      hide Aligned, Stored, Pow2;
      var chunk := ReadAligned(addr);
      FetchPart(htif.mem, addr - htif.base, htif.align, d, n);
      assert chunk[d..d + n] == Fetch(chunk[..], d, n);
      Memcpy(bytes, at, chunk, d, n);
    }

    /** Writes n bytes at offset d of the chunk at an aligned address, by reading it and writing it back. */
    method WritePart(addr: nat, d: nat, n: nat, bytes: array<byte>, at: nat)
      requires htif.Valid() && Aligned(addr, htif.align) && 0 < n
      requires htif.base < addr + htif.align && addr < htif.base + |htif.mem|
      requires d + n <= htif.align && at + n <= bytes.Length
      modifies htif.Parts()
      ensures htif.base <= addr && addr + d + n <= htif.base + |old(htif.mem)| && htif.Valid()
      ensures htif.mem == Stored(old(htif.mem), addr + d - htif.base, bytes[at..at + n])
    {
      hide Aligned, Stored, Pow2;
      var chunk := ReadAligned(addr);
      ghost var o := addr - htif.base;
      Memcpy(chunk, d, bytes, at, n);
      assert chunk[0..0 + htif.align] == chunk[..];
      htif.WriteChunk(addr, htif.align, chunk, 0);
      StoredPart(old(htif.mem), o, htif.align, d, bytes[at..at + n]);
    }

    /** Where the part before the first aligned address lies. */
    lemma HeadPlace(addr: nat, len: nat)
      requires Inside(addr, len)
      ensures var align := htif.align; var d, below := And(addr, align - 1), AndNot(addr, align - 1);
              && htif.Valid() && align > d && htif.base <= addr && addr + len <= htif.base + |htif.mem|
              && Aligned(below, align) && below + d == addr
              && (len > 0 ==> htif.base < below + align && below < htif.base + |htif.mem|)
              && (d == 0 || align - d < len ==> Aligned(addr + (if d == 0 then 0 else align - d), align))
    {
      ghost var low := Masks(addr, htif.align);
    }

    /** Reads up to the first aligned address, if the transfer starts at an unaligned one. */
    method ReadHead(addr: nat, len: nat, bytes: array<byte>) returns (n: nat)
      requires Inside(addr, len) && len <= bytes.Length
      modifies htif.Parts(), bytes
      ensures htif.Valid() && htif.mem == old(htif.mem)
      ensures n <= len && (n == len || Aligned(addr + n, htif.align))
      ensures bytes[..] == Stored(old(bytes[..]), 0, Fetch(htif.mem, addr - htif.base, n))
    {
      hide *;
      HeadPlace(addr, len);
      var align := htif.align;
      n := 0;
      EmptyStored(bytes[..], 0);
      EmptyFetch(htif.mem, addr - htif.base);
      if len != 0 && And(addr, align - 1) != 0 {
        var d := And(addr, align - 1);
        n := if len < align - d then len else align - d;
        ReadPart(AndNot(addr, align - 1), d, n, bytes, 0);
      }
    }

    /** Where the part after the last whole chunk lies. */
    lemma TailPlace(addr: nat, len: nat)
      requires Inside(addr, len) && (len == 0 || Aligned(addr, htif.align))
      ensures var align := htif.align; var n := And(len, align - 1);
              && htif.Valid() && htif.base <= addr && addr + len <= htif.base + |htif.mem|
              && n < align && n <= len && Aligned(len - n, align) && (len > 0 ==> Aligned(addr + (len - n), align))
              && htif.base < addr + (len - n) + align
    {
      ghost var low := Masks(len, htif.align);
      if len > 0 { AlignedSum(addr, len - low, htif.align); }
    }

    /** Reads what is left over after the last whole chunk. */
    method ReadTail(addr: nat, len: nat, bytes: array<byte>, at: nat) returns (start: nat)
      requires Inside(addr, len) && at + len <= bytes.Length && (len == 0 || Aligned(addr, htif.align))
      modifies htif.Parts(), bytes
      ensures htif.Valid() && htif.mem == old(htif.mem)
      ensures start <= len && Aligned(start, htif.align)
      ensures bytes[..] == Stored(old(bytes[..]), at + start, Fetch(htif.mem, addr + start - htif.base, len - start))
    {
      hide *;
      TailPlace(addr, len);
      var align := htif.align;
      start := len;
      EmptyStored(bytes[..], at + start);
      EmptyFetch(htif.mem, addr + start - htif.base);
      if And(len, align - 1) != 0 {
        var n := And(len, align - 1);
        start := len - n;
        ReadPart(addr + start, 0, n, bytes, at + start);
      }
    }

    /** Reads whole chunks, each call for at most chunk_max_size bytes. */
    method ReadChunks(addr: nat, len: nat, bytes: array<byte>, at: nat)
      requires Inside(addr, len) && at + len <= bytes.Length
      requires Aligned(len, htif.align) && (len == 0 || Aligned(addr, htif.align))
      modifies htif.Parts(), bytes
      ensures htif.Valid() && htif.mem == old(htif.mem)
      ensures bytes[..] == Stored(old(bytes[..]), at, Fetch(htif.mem, addr - htif.base, len))
    {
      hide Aligned, Stored, Pow2, Fetch;
      ghost var was := bytes[..];
      var pos := 0;
      AlignedZero(htif.align);
      EmptyStored(was, at);
      EmptyFetch(htif.mem, addr - htif.base);
      while pos < len
        invariant Aligned(pos, htif.align) && htif.Valid() && htif.mem == old(htif.mem)
        invariant bytes[..] == Stored(was, at, Fetch(htif.mem, addr - htif.base, Min(pos, len)))
      {
        pos := ReadNext(addr, pos, len, bytes, at, was);
      }
    }

    method ReadNext(addr: nat, pos: nat, len: nat, bytes: array<byte>, at: nat, ghost was: seq<byte>)
        returns (next: nat)
      requires Inside(addr, len) && Aligned(len, htif.align) && Aligned(addr, htif.align) && Aligned(pos, htif.align)
      requires pos < len && at + len <= bytes.Length == |was|
      requires bytes[..] == Stored(was, at, Fetch(htif.mem, addr - htif.base, pos))
      modifies htif.Parts(), bytes
      ensures htif.Valid() && htif.mem == old(htif.mem)
      ensures Aligned(next, htif.align) && next > pos
      ensures bytes[..] == Stored(was, at, Fetch(htif.mem, addr - htif.base, Min(next, len)))
    {
      hide Aligned, Stored, Pow2, Fetch;
      var n := Min(len - pos, htif.maxSize);
      NextChunk(pos, len, htif.maxSize, addr, htif.align);
      htif.ReadChunk(addr + pos, n, bytes, at + pos);
      ReadStep(htif.mem, addr - htif.base, was, at, pos, n);
      next := pos + htif.maxSize;
    }

    /** Reads exactly the bytes of the memory, for every address and length inside it. */
    method Read(addr: nat, len: nat, bytes: array<byte>)
      requires Inside(addr, len) && len <= bytes.Length
      modifies htif.Parts(), bytes
      ensures htif.Valid() && htif.mem == old(htif.mem)
      ensures bytes[..] == Stored(old(bytes[..]), 0, Fetch(htif.mem, addr - htif.base, len))
    {
      hide Aligned, Stored, Pow2, Fetch;
      ghost var m, o, was := htif.mem, addr - htif.base, bytes[..];
      var n := ReadHead(addr, len, bytes);
      ghost var headed := bytes[..];
      var start := ReadTail(addr + n, len - n, bytes, n);
      ReadChunks(addr + n, start, bytes, n);
      StoredTwice(headed, n, Fetch(m, o + n, start), Fetch(m, o + n + start, len - n - start));
      FetchTwice(m, o + n, start, len - n - start);
      StoredTwice(was, 0, Fetch(m, o, n), Fetch(m, o + n, len - n));
      FetchTwice(m, o, n, len - n);
    }

    method WriteHead(addr: nat, len: nat, bytes: array<byte>) returns (n: nat)
      requires Inside(addr, len) && len <= bytes.Length
      modifies htif.Parts()
      ensures n <= len && (n == len || Aligned(addr + n, htif.align)) && htif.Valid()
      ensures htif.mem == Stored(old(htif.mem), addr - htif.base, bytes[..n])
    {
      hide *;
      HeadPlace(addr, len);
      var align := htif.align;
      n := 0;
      EmptyStored(htif.mem, addr - htif.base);
      assert bytes[..n] == [];
      if len != 0 && And(addr, align - 1) != 0 {
        var d := And(addr, align - 1);
        n := if len < align - d then len else align - d;
        WritePart(AndNot(addr, align - 1), d, n, bytes, 0);
      }
    }

    method WriteTail(addr: nat, len: nat, bytes: array<byte>, at: nat) returns (start: nat)
      requires Inside(addr, len) && at + len <= bytes.Length && (len == 0 || Aligned(addr, htif.align))
      modifies htif.Parts()
      ensures start <= len && Aligned(start, htif.align) && htif.Valid()
      ensures htif.mem == Stored(old(htif.mem), addr + start - htif.base, bytes[at + start..at + len])
    {
      hide *;
      TailPlace(addr, len);
      var align := htif.align;
      start := len;
      EmptyStored(htif.mem, addr + start - htif.base);
      assert bytes[at + start..at + len] == [];
      if And(len, align - 1) != 0 {
        var n := And(len, align - 1);
        start := len - n;
        WritePart(addr + start, 0, n, bytes, at + start);
      }
    }

    /** Writes whole chunks, each call for at most chunk_max_size bytes. */
    method WriteChunks(addr: nat, len: nat, bytes: array<byte>, at: nat)
      requires Inside(addr, len) && at + len <= bytes.Length
      requires Aligned(len, htif.align) && (len == 0 || Aligned(addr, htif.align))
      modifies htif.Parts()
      ensures htif.Valid() && htif.mem == Stored(old(htif.mem), addr - htif.base, bytes[at..at + len])
    {
      hide Aligned, Stored, Pow2;
      ghost var m, src := htif.mem, bytes[at..at + len];
      var pos := 0;
      AlignedZero(htif.align);
      EmptyStored(m, addr - htif.base);
      while pos < len
        invariant Aligned(pos, htif.align) && htif.Valid() && |htif.mem| == |m|
        invariant htif.mem == Stored(m, addr - htif.base, src[..Min(pos, len)])
      {
        pos := WriteNext(addr, pos, len, bytes, at, m, src);
      }
      assert |src| == len && src[..Min(pos, len)] == src;
    }

    method WriteNext(addr: nat, pos: nat, len: nat, bytes: array<byte>, at: nat, ghost m: seq<byte>,
        ghost src: seq<byte>)
      returns (next: nat)
      requires Inside(addr, len) && Aligned(len, htif.align) && Aligned(addr, htif.align) && Aligned(pos, htif.align)
      requires pos < len && at + len <= bytes.Length && src == bytes[at..at + len] && |m| == |htif.mem|
      requires htif.mem == Stored(m, addr - htif.base, src[..pos])
      modifies htif.Parts()
      ensures Aligned(next, htif.align) && next > pos && htif.Valid() && |htif.mem| == |m|
      ensures htif.mem == Stored(m, addr - htif.base, src[..Min(next, len)])
    {
      hide Aligned, Stored, Pow2;
      var n := Min(len - pos, htif.maxSize);
      NextChunk(pos, len, htif.maxSize, addr, htif.align);
      SliceOfSlice(bytes[..], at, len, pos, n);
      htif.WriteChunk(addr + pos, n, bytes, at + pos);
      WriteStep(m, addr - htif.base, src, pos, n);
      next := pos + htif.maxSize;
    }

    /** Writes whole chunks, except that a stretch that is all zero is cleared in one call. */
    method WriteOrClear(addr: nat, len: nat, bytes: array<byte>, at: nat)
      requires Inside(addr, len) && at + len <= bytes.Length
      requires Aligned(len, htif.align) && (len == 0 || Aligned(addr, htif.align))
      modifies htif.Parts()
      ensures htif.Valid() && htif.mem == Stored(old(htif.mem), addr - htif.base, bytes[at..at + len])
    {
      var allZero := len != 0;
      for i := 0 to len
        invariant allZero <==> len != 0 && forall k :: at <= k < at + i ==> bytes[k] == 0
      {
        allZero := allZero && bytes[at + i] == 0;
      }
      hide Aligned, Stored, Pow2, Fetch;
      if allZero {
        assert bytes[at..at + len] == Zeros(len);
        htif.ClearChunk(addr, len);
      } else {
        WriteChunks(addr, len, bytes, at);
      }
    }

    /** Changes exactly the bytes written, for every address and length inside the memory. */
    method Write(addr: nat, len: nat, bytes: array<byte>)
      requires Inside(addr, len) && len <= bytes.Length
      modifies htif.Parts()
      ensures htif.Valid() && htif.mem == Stored(old(htif.mem), addr - htif.base, bytes[..len])
    {
      hide Aligned, Stored, Pow2, Fetch;
      ghost var m, o := htif.mem, addr - htif.base;
      var n := WriteHead(addr, len, bytes);
      ghost var headed := htif.mem;
      var start := WriteTail(addr + n, len - n, bytes, n);
      WriteOrClear(addr + n, start, bytes, n);
      StoredTwice(headed, o + n, bytes[n..n + start], bytes[n + start..len]);
      assert bytes[n..n + start] + bytes[n + start..len] == bytes[n..len];
      StoredTwice(m, o, bytes[..n], bytes[n..len]);
      assert bytes[..n] + bytes[n..len] == bytes[..len];
    }

    /** End to end: what is written is read back, the lines of a hex writer hold exactly that, and so does the
        memory behind a debug transport, whose hart keeps all its registers. */
    method WriteThenRead(addr: nat, len: nat, src: array<byte>, dst: array<byte>)
      requires Inside(addr, len) && len <= src.Length && len <= dst.Length && src != dst
      modifies htif.Parts(), dst
      ensures htif.Valid() && dst[..] == Stored(old(dst[..]), 0, src[..len])
      ensures match htif.backend
              case Hex(h) =>
                && old(h.Valid()) && h.Valid() && |h.Flat()| == |old(h.Flat())| == |htif.mem|
                && h.Flat() == Stored(old(h.Flat()), addr - htif.base, src[..len])
              case Debug(d) =>
                && d.target.s.mem == Stored(old(d.target.s.mem), addr - htif.base, src[..len])
                && d.target.s.x == old(d.target.s.x)
    {
      hide Stored, Fetch, Pow2, Aligned;
      ghost var m, o := htif.mem, addr - htif.base;
      Write(addr, len, src);
      Read(addr, len, dst);
      FetchStored(m, o, src[..len], o, len);
    }
  }
}
