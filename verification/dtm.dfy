/** The debug transport of dtm.cc: it moves memory by running small programs on a hart through abstract
    commands. */
module Dtm {
  import opened FlatMemory
  import opened Words
  import opened DebugTarget

  // ---------------------------------------------------------------- instruction encodings

  function RvX(x: bv32, s: nat, mask: bv32): bv32
    requires s < 32
  {
    (x >> s) & mask
  }

  function ItypeImm(x: bv32): bv32 { RvX(x, 0, 0xfff) << 20 }
  function StypeImm(x: bv32): bv32 { (RvX(x, 0, 0x1f) << 7) | (RvX(x, 5, 0x7f) << 25) }
  function SbtypeImm(x: bv32): bv32 {
    (RvX(x, 1, 0xf) << 8) | (RvX(x, 5, 0x3f) << 25) | (RvX(x, 11, 1) << 7) | (RvX(x, 12, 1) << 31)
  }

  function LoadWord(xlen: nat, dst: bv32, base: bv32, imm: bv32): bv32 {
    (if xlen == 64 then 0x3003 else 0x2003) | (dst << 7) | (base << 15) | ItypeImm(imm)
  }
  function StoreWord(xlen: nat, src: bv32, base: bv32, imm: bv32): bv32 {
    (if xlen == 64 then 0x3023 else 0x2023) | (src << 20) | (base << 15) | StypeImm(imm)
  }
  function BneWord(r1: bv32, r2: bv32, there: bv32, here: bv32): bv32 {
    0x1063 | (r1 << 15) | (r2 << 20) | SbtypeImm(there - here)
  }
  function AddiWord(dst: bv32, src: bv32, imm: bv32): bv32 {
    0x13 | (dst << 7) | (src << 15) | ItypeImm(imm)
  }
  const EBREAK: bv32 := 0x0010_0073
  const X0: bv32 := 0
  const S0: bv32 := 8
  const S1: bv32 := 9

  lemma LoadFields(xlen: nat, dst: bv32, base: bv32, imm: bv32)
    requires dst < 32 && base < 32
    ensures var w := LoadWord(xlen, dst, base, imm);
            && w & 0x707f == (if xlen == 64 then 0x3003 else 0x2003) && Rd(w) == dst && Rs1(w) == base
            && ImmI(w) == imm & 0xfff
  {}

  /** Every register and every immediate in range survives encoding and decoding. */
  lemma LoadDecodes(xlen: nat, dst: bv32, base: bv32, imm: bv32)
    requires dst < 32 && base < 32
    ensures Decode(LoadWord(xlen, dst, base, imm), xlen) == Load(dst as nat, base as nat, Signed(imm & 0xfff, 0x800))
  {
    LoadFields(xlen, dst, base, imm);
    hide LoadWord, Rd, Rs1, Rs2, ImmI, ImmS, ImmB, Signed;
  }

  lemma AddiFields(xlen: nat, dst: bv32, base: bv32, imm: bv32)
    requires dst < 32 && base < 32
    ensures var w := AddiWord(dst, base, imm);
            w & 0x707f == (0x13) && Rd(w) == dst && Rs1(w) == base && ImmI(w) == imm & 0xfff
  {}

  lemma AddiDecodes(xlen: nat, dst: bv32, base: bv32, imm: bv32)
    requires dst < 32 && base < 32
    ensures Decode(AddiWord(dst, base, imm), xlen) == Addi(dst as nat, base as nat, Signed(imm & 0xfff, 0x800))
  {
    AddiFields(xlen, dst, base, imm);
    hide AddiWord, Rd, Rs1, Rs2, ImmI, ImmS, ImmB, Signed;
  }

  lemma StoreFields(xlen: nat, src: bv32, base: bv32, imm: bv32)
    requires src < 32 && base < 32
    ensures var w := StoreWord(xlen, src, base, imm);
            && w & 0x707f == (if xlen == 64 then 0x3023 else 0x2023) && Rs2(w) == src && Rs1(w) == base
            && ImmS(w) == imm & 0xfff
  {}

  lemma StoreDecodes(xlen: nat, src: bv32, base: bv32, imm: bv32)
    requires src < 32 && base < 32
    ensures Decode(StoreWord(xlen, src, base, imm), xlen) == Store(src as nat, base as nat, Signed(imm & 0xfff, 0x800))
  {
    StoreFields(xlen, src, base, imm);
    hide StoreWord, Rd, Rs1, Rs2, ImmI, ImmS, ImmB, Signed;
  }

  lemma BneFields(xlen: nat, r1: bv32, r2: bv32, there: bv32, here: bv32)
    requires r1 < 32 && r2 < 32 && there & 1 == here & 1
    ensures var w := BneWord(r1, r2, there, here);
            w & 0x707f == (0x1063) && Rs1(w) == r1 && Rs2(w) == r2 && ImmB(w) == (there - here) & 0x1fff
  {}

  lemma BneDecodes(xlen: nat, r1: bv32, r2: bv32, there: bv32, here: bv32)
    requires r1 < 32 && r2 < 32 && there & 1 == here & 1
    ensures Decode(BneWord(r1, r2, there, here), xlen) ==
        Bne(r1 as nat, r2 as nat, Signed((there - here) & 0x1fff, 0x1000))
  {
    BneFields(xlen, r1, r2, there, here);
    hide BneWord, Rd, Rs1, Rs2, ImmI, ImmS, ImmB, Signed;
  }

  // ---------------------------------------------------------------- abstract commands

  const TRANSFER: bv32 := 0x2_0000
  const WRITE: bv32 := 0x1_0000
  const POSTEXEC: bv32 := 0x4_0000

  /** An Access Register command. */
  function Ac(flags: bv32, xlen: nat, reg: bv32): bv32 {
    flags | ((if xlen == 64 then 3 else 2) << 20) | (0x1000 | reg)
  }

  lemma AcFields(flags: bv32, xlen: nat, reg: bv32)
    requires reg == S0 || reg == S1
    requires flags & 0x7_0000 == flags
    ensures var c := Ac(flags, xlen, reg);
            && Performable(c, Arch(xlen, 0)) && Reg(c) == (if reg == S0 then 8 else 9)
            && (PostExec(c) <==> flags & POSTEXEC != 0) && (Transfer(c) <==> flags & TRANSFER != 0)
            && (IsWrite(c) <==> flags & WRITE != 0)
  {
    var c := Ac(flags, xlen, reg);
    assert c >> 24 == 0 && Size(c) == (if xlen == 64 then 3 else 2) && Regno(c) == 0x1000 | reg;
  }

  // ---------------------------------------------------------------- the three programs

  /** Between the transport's commands. */
  ghost predicate Calm(s: Dm, a: Arch) {
    WellFormed(s, a) && s.phase == Idle && s.cmderr == 0 && s.halted
  }

  ghost predicate Ready(s: Dm, a: Arch) {
    Calm(s, a) && !s.autoexec
  }

  ghost predicate Holds(s: Dm, a: Arch, program: seq<Instr>) {
    |program| <= |s.progbuf| && forall k :: 0 <= k < |program| ==> Decode(s.progbuf[k], a.xlen) == program[k]
  }

  function ReadProgram(w: nat): seq<Instr> { [Load(9, 8, 0), Addi(8, 8, w), Ebreak] }
  function WriteProgram(w: nat): seq<Instr> { [Store(9, 8, 0), Addi(8, 8, w), Ebreak] }
  function ClearProgram(w: nat): seq<Instr> { [Store(0, 8, 0), Addi(8, 8, w), Bne(8, 9, -8), Ebreak] }

  lemma StepExecutes(s: Dm, a: Arch, program: seq<Instr>, pc: nat)
    requires WellFormed(s, a) && s.phase == Running(pc) && Holds(s, a, program) && pc < |program|
    ensures Step(s, a) == Execute(s, a, pc, program[pc]) && WellFormed(Step(s, a), a)
  {
    StepWellFormed(s, a);
  }

  lemma LoadRuns(s: Dm, a: Arch, pc: nat)
    requires WellFormed(s, a) && Accessible(s, a, s.x[8])
    ensures Execute(s, a, pc, Load(9, 8, 0)) ==
        s.(x := s.x[9 := Value(Fetch(s.mem, s.x[8] - a.base, a.xlen / 8))], phase := Running(pc + 1))
  {
    SmallModulus(s.x[8], a.xlen);
  }

  lemma StoreRuns(s: Dm, a: Arch, pc: nat, r: nat)
    requires WellFormed(s, a) && Accessible(s, a, s.x[8]) && r < 32
    ensures Execute(s, a, pc, Store(r, 8, 0)) ==
        s.(mem := Stored(s.mem, s.x[8] - a.base, BytesOf(s.x[r], a.xlen / 8)), phase := Running(pc + 1))
  {
    SmallModulus(s.x[8], a.xlen);
  }

  lemma AddiRuns(s: Dm, a: Arch, pc: nat, w: nat)
    requires WellFormed(s, a)
    ensures Execute(s, a, pc, Addi(8, 8, w)) == s.(x := s.x[8 := Wrap(s.x[8] + w, a.xlen)], phase := Running(pc + 1))
  {}

  lemma EbreakRuns(s: Dm, a: Arch, pc: nat)
    requires WellFormed(s, a)
    ensures Execute(s, a, pc, Ebreak) == s.(phase := Idle)
  {}

  lemma SmallModulus(v: nat, xlen: nat)
    requires v < Modulus(xlen)
    ensures Wrap(v + 0, xlen) == v
  {}

  /** Three instructions of a program, from its start. */
  lemma ThreeSteps(s: Dm, a: Arch, p: seq<Instr>, s1: Dm, s2: Dm, s3: Dm)
    requires WellFormed(s, a) && WellFormed(s1, a) && WellFormed(s2, a) && |p| >= 3 && Holds(s, a, p)
    requires s.phase == Running(0) && s1.phase == Running(1) && s2.phase == Running(2)
    requires s1.progbuf == s2.progbuf == s.progbuf
    requires s1 == Execute(s, a, 0, p[0]) && s2 == Execute(s1, a, 1, p[1]) && s3 == Execute(s2, a, 2, p[2])
    ensures Advance(s, a, 3) == s3 && WellFormed(s3, a)
  {
    hide Execute, Decode;
    StepExecutes(s, a, p, 0);
    StepExecutes(s1, a, p, 1);
    StepExecutes(s2, a, p, 2);
    hide WellFormed, Holds, Step;
    assert Advance(s2, a, 1) == Advance(s3, a, 0) == s3;
    assert Advance(s1, a, 2) == Advance(s2, a, 1);
  }

  /** One run of the reading program loads a word and moves on. */
  lemma ReadRuns(s: Dm, a: Arch)
    requires WellFormed(s, a) && s.phase == Running(0)
    requires Holds(s, a, ReadProgram(a.xlen / 8)) && Accessible(s, a, s.x[8])
    ensures var w := a.xlen / 8;
            var word := Value(Fetch(s.mem, s.x[8] - a.base, w));
            && Advance(s, a, 3) == s.(x := s.x[9 := word][8 := Wrap(s.x[8] + w, a.xlen)], phase := Idle)
            && WellFormed(Advance(s, a, 3), a)
  {
    hide Execute, Decode, RegsFit, Holds, Modulus, Wrap, Value, Fetch, Advance;
    var w := a.xlen / 8;
    LoadRuns(s, a, 0);
    var s1 := Execute(s, a, 0, Load(9, 8, 0));
    ExecuteWellFormed(s, a, 0, Load(9, 8, 0));
    AddiRuns(s1, a, 1, w);
    var s2 := Execute(s1, a, 1, Addi(8, 8, w));
    ExecuteWellFormed(s1, a, 1, Addi(8, 8, w));
    EbreakRuns(s2, a, 2);
    hide Accessible;
    ThreeSteps(s, a, ReadProgram(w), s1, s2, s2.(phase := Idle));
  }

  /** One run of the writing program stores a word and moves on. */
  lemma WriteRuns(s: Dm, a: Arch)
    requires WellFormed(s, a) && s.phase == Running(0)
    requires Holds(s, a, WriteProgram(a.xlen / 8)) && Accessible(s, a, s.x[8])
    ensures var w := a.xlen / 8;
            && Advance(s, a, 3) == s.(mem := Stored(s.mem, s.x[8] - a.base, BytesOf(s.x[9], w)),
                                      x := s.x[8 := Wrap(s.x[8] + w, a.xlen)], phase := Idle)
            && WellFormed(Advance(s, a, 3), a)
  {
    hide Execute, Decode, RegsFit, Holds, Modulus, Wrap, BytesOf, Stored, Advance;
    var w := a.xlen / 8;
    StoreRuns(s, a, 0, 9);
    var s1 := Execute(s, a, 0, Store(9, 8, 0));
    ExecuteWellFormed(s, a, 0, Store(9, 8, 0));
    AddiRuns(s1, a, 1, w);
    var s2 := Execute(s1, a, 1, Addi(8, 8, w));
    ExecuteWellFormed(s1, a, 1, Addi(8, 8, w));
    EbreakRuns(s2, a, 2);
    hide Accessible;
    ThreeSteps(s, a, WriteProgram(w), s1, s2, s2.(phase := Idle));
  }

  lemma BneRuns(s: Dm, a: Arch)
    requires WellFormed(s, a)
    ensures Execute(s, a, 2, Bne(8, 9, -8)) == s.(phase := if s.x[8] != s.x[9] then Running(0) else Running(3))
  {}

  lemma {:induction false} ZeroBytes(n: nat)
    ensures BytesOf(0, n) == Zeros(n)
  {
    if n > 0 {
      ZeroBytes(n - 1);
      assert [0] + Zeros(n - 1) == Zeros(n);
    }
  }

  /** n more words of a stretch, from the address in s0 to the address in s1, are inside the memory. */
  ghost predicate Stretch(s: Dm, a: Arch, n: nat)
    requires WellFormed(s, a)
  {
    var w, m, at := a.xlen / 8, Modulus(a.xlen), s.x[8];
    && a.base <= at && at + n * w <= a.base + |s.mem| <= m && Aligned(at, w)
    && s.x[9] == Wrap(at + n * w, a.xlen)
  }

  /** One round of the clearing program. */
  function Cleared(s: Dm, a: Arch): Dm
    requires WellFormed(s, a) && Accessible(s, a, s.x[8])
  {
    var w := a.xlen / 8;
    s.(mem := Stored(s.mem, s.x[8] - a.base, Zeros(w)), x := s.x[8 := Wrap(s.x[8] + w, a.xlen)])
  }

  lemma ClearRound(s: Dm, a: Arch)
    requires WellFormed(s, a) && s.phase == Running(0)
    requires Holds(s, a, ClearProgram(a.xlen / 8)) && Accessible(s, a, s.x[8])
    ensures var t := Cleared(s, a);
            && Advance(s, a, 3) == t.(phase := if t.x[8] != t.x[9] then Running(0) else Running(3))
            && WellFormed(Advance(s, a, 3), a)
  {
    hide Execute, Decode, Holds, Modulus, Wrap, BytesOf, Stored, Advance;
    var w := a.xlen / 8;
    ZeroBytes(w);
    StoreRuns(s, a, 0, 0);
    assert s.x[0] == 0;
    hide RegsFit;
    var s1 := Execute(s, a, 0, Store(0, 8, 0));
    ExecuteWellFormed(s, a, 0, Store(0, 8, 0));
    AddiRuns(s1, a, 1, w);
    var s2 := Execute(s1, a, 1, Addi(8, 8, w));
    ExecuteWellFormed(s1, a, 1, Addi(8, 8, w));
    BneRuns(s2, a);
    hide Accessible;
    ThreeSteps(s, a, ClearProgram(w), s1, s2, Execute(s2, a, 2, Bne(8, 9, -8)));
  }

  lemma StretchInside(s: Dm, a: Arch, n: nat)
    requires WellFormed(s, a) && Stretch(s, a, n)
    ensures a.base <= s.x[8] && s.x[8] - a.base + n * (a.xlen / 8) <= |s.mem|
  {}

  /** The whole stretch cleared, at the end of the program. */
  function AllCleared(s: Dm, a: Arch, n: nat): Dm
    requires WellFormed(s, a) && Stretch(s, a, n)
  {
    StretchInside(s, a, n);
    s.(mem := Stored(s.mem, s.x[8] - a.base, Zeros(n * (a.xlen / 8))), x := s.x[8 := s.x[9]], phase := Idle)
  }

  lemma ClearLast(s: Dm, a: Arch)
    requires WellFormed(s, a) && s.phase == Running(0) && Holds(s, a, ClearProgram(a.xlen / 8)) && Stretch(s, a, 1)
    ensures Advance(s, a, 4) == AllCleared(s, a, 1)
  {
    StretchMoves(s, a, 1);
    hide Execute, Decode, Modulus, Wrap, Stored, Advance, Zeros, RegsFit, Stretch, Accessible;
    ClearRound(s, a);
    var t := Advance(s, a, 3);
    StepExecutes(t, a, ClearProgram(a.xlen / 8), 3);
    EbreakRuns(t, a, 3);
    AdvanceSum(s, a, 3, 1);
    StepIsAdvance(t, a);
  }

  lemma ClearMore(s: Dm, a: Arch, n: nat)
    requires WellFormed(s, a) && Stretch(s, a, n) && n > 1
    ensures var t := (StretchMoves(s, a, n); Cleared(s, a).(phase := Running(0)));
            WellFormed(t, a) && Stretch(t, a, n - 1) && AllCleared(t, a, n - 1) == AllCleared(s, a, n)
  {
    StretchMoves(s, a, n);
    var t := Cleared(s, a).(phase := Running(0));
    StretchKept(Cleared(s, a), t, a, n - 1);
    StretchInside(s, a, n);
    hide Modulus, Wrap, Stored, Zeros, RegsFit, Stretch, Accessible;
    ClearedMore(s.mem, s.x[8] - a.base, n, a.xlen / 8);
  }

  /** The clearing program ends, after 3n + 1 instructions, with exactly its n words zero. */
  lemma {:induction false} ClearRuns(s: Dm, a: Arch, n: nat)
    requires WellFormed(s, a) && s.phase == Running(0)
    requires Holds(s, a, ClearProgram(a.xlen / 8)) && n > 0 && Stretch(s, a, n)
    ensures Advance(s, a, 3 * n + 1) == AllCleared(s, a, n) && WellFormed(AllCleared(s, a, n), a)
    decreases n
  {
    hide Execute, Decode, Modulus, Wrap, Stored, Advance, Zeros, RegsFit, Stretch, Accessible, AllCleared;
    AdvanceSum(s, a, 3 * n + 1, 0);
    if n == 1 {
      ClearLast(s, a);
    } else {
      StretchMoves(s, a, n);
      ClearRound(s, a);
      ClearMore(s, a, n);
      ClearRuns(Cleared(s, a).(phase := Running(0)), a, n - 1);
      AdvanceSum(s, a, 3, 3 * (n - 1) + 1);
    }
  }

  lemma StretchKept(s: Dm, t: Dm, a: Arch, n: nat)
    requires WellFormed(s, a) && WellFormed(t, a) && s.x == t.x && s.mem == t.mem
    ensures Stretch(s, a, n) == Stretch(t, a, n)
  {}

  lemma ClearedMore(mem: seq<byte>, at: nat, n: nat, w: nat)
    requires n > 1 && at + n * w <= |mem|
    ensures w + (n - 1) * w == n * w
    ensures Stored(Stored(mem, at, Zeros(w)), at + w, Zeros((n - 1) * w)) == Stored(mem, at, Zeros(n * w))
  {
    hide Stored, Zeros;
    Bits.Distribute(n, 1, w);
    Bits.MulAtLeast(n - 1, w);
    StoredTwice(mem, at, Zeros(w), Zeros((n - 1) * w));
    ZerosSum(w, (n - 1) * w);
  }

  lemma ZerosSum(i: nat, j: nat)
    ensures Zeros(i) + Zeros(j) == Zeros(i + j)
  {}

  lemma StepIsAdvance(s: Dm, a: Arch)
    requires WellFormed(s, a)
    ensures Advance(s, a, 1) == Step(s, a)
  {
    StepWellFormed(s, a);
    hide Step, WellFormed;
    assert Advance(Step(s, a), a, 0) == Step(s, a);
  }

  lemma NextAddress(at: nat, n: nat, w: nat, m: nat)
    requires n > 0 && w > 0 && at + n * w <= m
    ensures n * w >= w && (n == 1 ==> (at + n * w) % m == (at + w) % m)
    ensures n > 1 ==> at + w < m && (at + w) % m == at + w != (at + n * w) % m
    ensures n > 1 ==> at + w + (n - 1) * w == at + n * w
  {
    Bits.MulAtLeast(n, w);
    if n > 1 {
      Bits.Distribute(n, 1, w);
      Bits.MulAtLeast(n - 1, w);
      Bits.DivMod(at + w, m, 0, at + w);
      if at + n * w == m { Bits.DivMod(m, m, 1, 0); } else { Bits.DivMod(at + n * w, m, 0, at + n * w); }
    }
  }

  lemma StretchMoves(s: Dm, a: Arch, n: nat)
    requires WellFormed(s, a) && n > 0 && Stretch(s, a, n)
    ensures Accessible(s, a, s.x[8]) && n * (a.xlen / 8) >= a.xlen / 8
    ensures var t := Cleared(s, a);
            && WellFormed(t, a) && (t.x[8] == t.x[9] <==> n == 1) && t.x[9] == s.x[9]
            && (n > 1 ==> Stretch(t, a, n - 1) && t.x[8] == s.x[8] + a.xlen / 8)
  {
    var w, m := a.xlen / 8, Modulus(a.xlen);
    assert m > 0;
    Bits.DivMod(w, w, 1, 0);
    SetRegFits(s.x, 8, Wrap(s.x[8] + w, a.xlen), m);
    hide Modulus, Wrap, Aligned, RegsFit, Stored, Zeros;
    NextAddress(s.x[8], n, w, m);
    AlignedSum(s.x[8], w, w);
  }

  // ---------------------------------------------------------------- the commands of the transport

  function RegIndex(reg: bv32): nat { if reg == S0 then 8 else 9 }

  /** The state a transfer leaves, before any program runs. */
  function Moved(s: Dm, a: Arch, flags: bv32, reg: bv32, p: seq<bv32>, d: seq<word>): Dm
    requires WellFormed(s, a) && |p| <= |s.progbuf| && |d| <= |s.data|
  {
    var t := s.(progbuf := p + s.progbuf[|p|..], data := d + s.data[|d|..], command := Ac(flags, a.xlen, reg));
    if flags & WRITE != 0 then t.(x := t.x[RegIndex(reg) := DataValue(t.data, a.xlen)])
    else t.(data := WithValue(t.data, t.x[RegIndex(reg)], a.xlen))
  }

  lemma TransferRuns(s: Dm, a: Arch, flags: bv32, reg: bv32, p: seq<bv32>, d: seq<word>, n: nat)
    requires Calm(s, a) && |p| <= |s.progbuf| && |d| <= |s.data|
    requires (reg == S0 || reg == S1) && flags & 0x7_0000 == flags && flags & TRANSFER != 0
    ensures var t := Issue(s, a, Ac(flags, a.xlen, reg), p, d);
            var u := Moved(s, a, flags, reg, p, d).(phase := if flags & POSTEXEC != 0 then Running(0) else Idle);
            && WellFormed(t, a) && WellFormed(u, a)
            && Advance(t, a, 1 + n) == Advance(u, a, n)
  {
    AcFields(flags, a.xlen, reg);
    hide Ac, Reg, DataValue, WithValue, RegsFit;
    var t := Issue(s, a, Ac(flags, a.xlen, reg), p, d);
    StepWellFormed(t, a);
    var u := Moved(s, a, flags, reg, p, d).(phase := if flags & POSTEXEC != 0 then Running(0) else Idle);
    assert Step(t, a) == u;
    hide Step, WellFormed, Moved, Issue;
    AdvanceMore(t, a, n);
  }

  lemma AdvanceMore(s: Dm, a: Arch, n: nat)
    requires WellFormed(s, a) && WellFormed(Step(s, a), a)
    ensures Advance(s, a, 1 + n) == Advance(Step(s, a), a, n)
  {}

  lemma MovedKeeps(s: Dm, a: Arch, flags: bv32, reg: bv32, p: seq<bv32>, d: seq<word>)
    requires WellFormed(s, a) && |p| <= |s.progbuf| && |d| <= |s.data|
    ensures var u := Moved(s, a, flags, reg, p, d);
            u == s.(x := u.x, data := u.data, command := u.command, progbuf := u.progbuf) && |u.data| == |s.data|
  {
    hide Ac, RegsFit, DataValue, WithValue;
  }

  /** A command without a program ends after its transfer. */
  lemma PlainRuns(s: Dm, a: Arch, flags: bv32, reg: bv32, p: seq<bv32>, d: seq<word>)
    requires Ready(s, a) && |p| <= |s.progbuf| && |d| <= |s.data|
    requires (reg == S0 || reg == S1) && flags & 0x7_0000 == flags && flags & TRANSFER != 0 && flags & POSTEXEC == 0
    ensures var t := Issue(s, a, Ac(flags, a.xlen, reg), p, d);
            && WellFormed(t, a) && Advance(t, a, 1) == Moved(s, a, flags, reg, p, d)
            && Ready(Moved(s, a, flags, reg, p, d), a)
  {
    hide Ac, Issue, RegsFit, DataValue, WithValue, Moved;
    TransferRuns(s, a, flags, reg, p, d, 0);
    MovedKeeps(s, a, flags, reg, p, d);
  }

  /** The data words that hold a value. */
  function WordsOf(v: nat, xlen: nat): (d: seq<word>)
    requires xlen == 32 || xlen == 64
    ensures |d| == xlen / 32
  {
    if xlen == 64 then [Low(v), High(v)] else [Low(v)]
  }

  lemma WordsOfValue(v: nat, xlen: nat, rest: seq<word>)
    requires (xlen == 32 || xlen == 64) && v < Modulus(xlen)
    ensures DataValue(WordsOf(v, xlen) + rest, xlen) == v
  {}

  function ReadWords(xlen: nat): (p: seq<bv32>)
    ensures |p| == 3
  {
    [LoadWord(xlen, S1, S0, 0), AddiWord(S0, S0, if xlen == 64 then 8 else 4), EBREAK]
  }

  function WriteWords(xlen: nat): (p: seq<bv32>)
    ensures |p| == 3
  {
    [StoreWord(xlen, S1, S0, 0), AddiWord(S0, S0, if xlen == 64 then 8 else 4), EBREAK]
  }

  function ClearWords(xlen: nat): (p: seq<bv32>)
    ensures |p| == 4
  {
    [StoreWord(xlen, X0, S0, 0), AddiWord(S0, S0, if xlen == 64 then 8 else 4), BneWord(S0, S1, 0, 8), EBREAK]
  }

  lemma Immediates()
    ensures Signed(4 & 0xfff, 0x800) == 4 && Signed(8 & 0xfff, 0x800) == 8 && Signed(0 & 0xfff, 0x800) == 0
    ensures Signed((0 - 8) & 0x1fff, 0x1000) == -8
  {
    assert (0 as bv32 - 8) & 0x1fff == 0x1ff8;
  }

  /** A loaded program holds in the program buffer as the instructions that it encodes. */
  lemma HoldsLoaded(s: Dm, a: Arch, words: seq<bv32>, p: seq<Instr>)
    requires |words| == |p| <= |s.progbuf| && s.progbuf[..|p|] == words
    requires forall k :: 0 <= k < |p| ==> Decode(words[k], a.xlen) == p[k]
    ensures Holds(s, a, p)
  {
    hide Decode;
    assert forall k :: 0 <= k < |p| ==> s.progbuf[k] == s.progbuf[..|p|][k];
  }

  lemma EbreakDecodes(xlen: nat)
    ensures Decode(EBREAK, xlen) == Ebreak
  {}

  lemma ReadWordsDecode(s: Dm, a: Arch)
    requires Supported(a) && 3 <= |s.progbuf| && s.progbuf[..3] == ReadWords(a.xlen)
    ensures Holds(s, a, ReadProgram(a.xlen / 8))
  {
    hide Decode, LoadWord, AddiWord, Signed, EBREAK, Holds;
    Immediates();
    LoadDecodes(a.xlen, S1, S0, 0);
    AddiDecodes(a.xlen, S0, S0, if a.xlen == 64 then 8 else 4);
    EbreakDecodes(a.xlen);
    HoldsLoaded(s, a, ReadWords(a.xlen), ReadProgram(a.xlen / 8));
  }

  lemma WriteWordsDecode(s: Dm, a: Arch)
    requires Supported(a) && 3 <= |s.progbuf| && s.progbuf[..3] == WriteWords(a.xlen)
    ensures Holds(s, a, WriteProgram(a.xlen / 8))
  {
    hide Decode, StoreWord, AddiWord, Signed, EBREAK, Holds;
    Immediates();
    StoreDecodes(a.xlen, S1, S0, 0);
    AddiDecodes(a.xlen, S0, S0, if a.xlen == 64 then 8 else 4);
    EbreakDecodes(a.xlen);
    HoldsLoaded(s, a, WriteWords(a.xlen), WriteProgram(a.xlen / 8));
  }

  lemma ClearWordsDecode(s: Dm, a: Arch)
    requires Supported(a) && 4 <= |s.progbuf| && s.progbuf[..4] == ClearWords(a.xlen)
    ensures Holds(s, a, ClearProgram(a.xlen / 8))
  {
    hide Decode, StoreWord, AddiWord, BneWord, Signed, EBREAK, Holds;
    Immediates();
    StoreDecodes(a.xlen, X0, S0, 0);
    AddiDecodes(a.xlen, S0, S0, if a.xlen == 64 then 8 else 4);
    BneDecodes(a.xlen, S0, S1, 0, 8);
    EbreakDecodes(a.xlen);
    HoldsLoaded(s, a, ClearWords(a.xlen), ClearProgram(a.xlen / 8));
  }

  /** t differs from s in the registers of the debug module alone. */
  ghost predicate Untouched(s: Dm, t: Dm) {
    && t == s.(data := t.data, command := t.command, progbuf := t.progbuf)
    && |t.data| == |s.data| && |t.progbuf| == |s.progbuf|
  }

  /** Registers after a word has been loaded from an address. */
  function AfterLoad(s: Dm, a: Arch, addr: nat): seq<nat>
    requires WellFormed(s, a) && Accessible(s, a, addr)
  {
    s.x[9 := Value(Fetch(s.mem, addr - a.base, a.xlen / 8))][8 := Wrap(addr + a.xlen / 8, a.xlen)]
  }

  /** A transfer of a value to a register, with a new program. */
  lemma MovedIn(s: Dm, a: Arch, flags: bv32, reg: bv32, p: seq<bv32>, v: nat)
    requires Calm(s, a) && |p| <= |s.progbuf| && v < Modulus(a.xlen) && flags & WRITE != 0
    ensures var u := Moved(s, a, flags, reg, p, WordsOf(v, a.xlen));
            && Untouched(s.(x := s.x[RegIndex(reg) := v]), u) && u.progbuf == p + s.progbuf[|p|..]
            && u.progbuf[..|p|] == p
  {
    WordsOfValue(v, a.xlen, s.data[a.xlen / 32..]);
    hide RegsFit, Ac, DataValue, Modulus, Wrap, WordsOf;
  }

  lemma FirstRead(s: Dm, a: Arch, flags: bv32, addr: nat)
    requires Ready(s, a) && |s.progbuf| >= 3 && addr < Modulus(a.xlen) && Accessible(s, a, addr)
    requires flags & 0x7_0000 == flags && flags & TRANSFER != 0 && flags & WRITE != 0 && flags & POSTEXEC != 0
    ensures var t := Issue(s, a, Ac(flags, a.xlen, S0), ReadWords(a.xlen), WordsOf(addr, a.xlen));
            && WellFormed(t, a) && var u := Advance(t, a, 4);
            && Ready(u, a) && Holds(u, a, ReadProgram(a.xlen / 8)) && Untouched(s.(x := AfterLoad(s, a, addr)), u)
  {
    var p := ReadWords(a.xlen);
    hide Issue, Advance, Ac, Value, Fetch, Modulus, Wrap, WordsOf, RegsFit, Decode, Moved, Holds, ReadWords;
    TransferRuns(s, a, flags, S0, p, WordsOf(addr, a.xlen), 3);
    MovedIn(s, a, flags, S0, p, addr);
    var v := Moved(s, a, flags, S0, p, WordsOf(addr, a.xlen)).(phase := Running(0));
    ReadWordsDecode(v, a);
    AccessibleKept(s, v, a, addr);
    hide Accessible;
    ReadRuns(v, a);
    SwapUpdates(s.x, addr, Value(Fetch(s.mem, addr - a.base, a.xlen / 8)), Wrap(addr + a.xlen / 8, a.xlen));
    HoldsKept(v, Advance(v, a, 3), a, ReadProgram(a.xlen / 8));
  }

  lemma SwapUpdates(x: seq<nat>, u: nat, v: nat, w: nat)
    requires |x| == 32
    ensures x[8 := u][9 := v][8 := w] == x[9 := v][8 := w]
  {}

  lemma HoldsKept(s: Dm, t: Dm, a: Arch, p: seq<Instr>)
    requires Holds(s, a, p) && t.progbuf == s.progbuf
    ensures Holds(t, a, p)
  {}

  lemma AccessibleKept(s: Dm, t: Dm, a: Arch, addr: nat)
    requires Supported(a) && t.mem == s.mem
    ensures Accessible(s, a, addr) == Accessible(t, a, addr)
    ensures Accessible(s, a, addr) ==> a.base <= addr && addr - a.base + a.xlen / 8 <= |s.mem|
  {}

  /** Registers after a command that reads s1 and, if there is more, loads the next word. */
  function AfterRead(s: Dm, a: Arch, more: bool): seq<nat>
    requires WellFormed(s, a) && (more ==> Accessible(s, a, s.x[8]))
  {
    if more then AfterLoad(s, a, s.x[8]) else s.x
  }

  lemma NextRead(s: Dm, a: Arch, flags: bv32)
    requires Ready(s, a) && Holds(s, a, ReadProgram(a.xlen / 8)) && (flags & POSTEXEC != 0 ==> Accessible(s, a, s.x[8]))
    requires flags & 0x7_0000 == flags && flags & TRANSFER != 0 && flags & WRITE == 0
    ensures var t := Issue(s, a, Ac(flags, a.xlen, S1), [], []);
            && WellFormed(t, a) && var u := Advance(t, a, if flags & POSTEXEC != 0 then 4 else 1);
            && Ready(u, a) && Holds(u, a, ReadProgram(a.xlen / 8))
            && Untouched(s.(x := AfterRead(s, a, flags & POSTEXEC != 0)), u)
            && DataValue(u.data, a.xlen) == s.x[9]
  {
    hide Issue, Advance, Ac, Value, Fetch, Modulus, Wrap, RegsFit, Decode, Moved, Holds;
    TransferRuns(s, a, flags, S1, [], [], if flags & POSTEXEC != 0 then 3 else 0);
    MovedOut(s, a, flags);
    var v := Moved(s, a, flags, S1, [], []);
    HoldsKept(s, v, a, ReadProgram(a.xlen / 8));
    if flags & POSTEXEC != 0 {
      v := v.(phase := Running(0));
      HoldsKept(s, v, a, ReadProgram(a.xlen / 8));
      AccessibleKept(s, v, a, s.x[8]);
      hide Accessible;
      ReadRuns(v, a);
      HoldsKept(v, Advance(v, a, 3), a, ReadProgram(a.xlen / 8));
    } else {
      AdvanceZero(v.(phase := Idle), a);
      HoldsKept(s, v.(phase := Idle), a, ReadProgram(a.xlen / 8));
    }
  }

  lemma MovedOut(s: Dm, a: Arch, flags: bv32)
    requires Ready(s, a) && flags & WRITE == 0
    ensures var u := Moved(s, a, flags, S1, [], []);
            && Untouched(s, u) && u.progbuf == s.progbuf && DataValue(u.data, a.xlen) == s.x[9]
            && (WellFormed(u, a) ==> Ready(u.(phase := Idle), a))
  {
    ValueKept(s.data, s.x[9], a.xlen);
    hide RegsFit, Ac, DataValue, WithValue, Modulus, Wrap;
  }

  /** A command that sets s0, with the writing program loaded but not run. */
  lemma SetAddress(s: Dm, a: Arch, flags: bv32, addr: nat)
    requires Ready(s, a) && |s.progbuf| >= 3 && addr < Modulus(a.xlen)
    requires flags & 0x7_0000 == flags && flags & TRANSFER != 0 && flags & WRITE != 0 && flags & POSTEXEC == 0
    ensures var t := Issue(s, a, Ac(flags, a.xlen, S0), WriteWords(a.xlen), WordsOf(addr, a.xlen));
            && WellFormed(t, a) && var u := Advance(t, a, 1);
            && Ready(u, a) && Holds(u, a, WriteProgram(a.xlen / 8)) && Untouched(s.(x := s.x[8 := addr]), u)
  {
    hide Issue, Advance, Ac, Modulus, Wrap, WordsOf, RegsFit, Moved, WriteWords, Decode, Holds;
    PlainRuns(s, a, flags, S0, WriteWords(a.xlen), WordsOf(addr, a.xlen));
    MovedIn(s, a, flags, S0, WriteWords(a.xlen), addr);
    WriteWordsDecode(Moved(s, a, flags, S0, WriteWords(a.xlen), WordsOf(addr, a.xlen)), a);
  }

  /** The state after a word has been moved to s1 and stored. */
  function AfterStore(s: Dm, a: Arch, v: nat): Dm
    requires WellFormed(s, a) && Accessible(s, a, s.x[8])
  {
    var w := a.xlen / 8;
    s.(x := s.x[9 := v][8 := Wrap(s.x[8] + w, a.xlen)], mem := Stored(s.mem, s.x[8] - a.base, BytesOf(v, w)))
  }

  lemma WordStored(s: Dm, a: Arch, flags: bv32, v: nat)
    requires Calm(s, a) && Holds(s, a, WriteProgram(a.xlen / 8)) && Accessible(s, a, s.x[8])
    requires v < Modulus(a.xlen)
    requires flags & 0x7_0000 == flags && flags & TRANSFER != 0 && flags & WRITE != 0 && flags & POSTEXEC != 0
    ensures var t := Issue(s, a, Ac(flags, a.xlen, S1), [], WordsOf(v, a.xlen));
            && WellFormed(t, a) && var u := Advance(t, a, 4);
            && Calm(u, a) && Holds(u, a, WriteProgram(a.xlen / 8)) && u.command == Ac(flags, a.xlen, S1)
            && Untouched(AfterStore(s, a, v), u)
  {
    hide Issue, Advance, Ac, Modulus, Wrap, WordsOf, RegsFit, Decode, Moved, Holds, Accessible, AfterStore;
    TransferRuns(s, a, flags, S1, [], WordsOf(v, a.xlen), 3);
    MovedIn(s, a, flags, S1, [], v);
    MovedCommand(s, a, flags, S1, [], WordsOf(v, a.xlen));
    assert [] + s.progbuf[0..] == s.progbuf;
    MovedStores(s, Moved(s, a, flags, S1, [], WordsOf(v, a.xlen)).(phase := Running(0)), a, v);
  }

  /** The writing program, once the word is in s1. */
  lemma MovedStores(s: Dm, t: Dm, a: Arch, v: nat)
    requires Calm(s, a) && Holds(s, a, WriteProgram(a.xlen / 8)) && Accessible(s, a, s.x[8])
    requires WellFormed(t, a) && t.phase == Running(0) && t.progbuf == s.progbuf
    requires Untouched(s.(x := s.x[9 := v]), t.(phase := Idle))
    ensures var u := Advance(t, a, 3);
            && Calm(u, a) && Holds(u, a, WriteProgram(a.xlen / 8)) && u.command == t.command
            && Untouched(AfterStore(s, a, v), u)
  {
    hide Advance, BytesOf, Stored, Modulus, Wrap, RegsFit, Decode, Holds;
    HoldsKept(s, t, a, WriteProgram(a.xlen / 8));
    AccessibleKept(s, t, a, s.x[8]);
    hide Accessible;
    WriteRuns(t, a);
    HoldsKept(t, Advance(t, a, 3), a, WriteProgram(a.xlen / 8));
  }

  lemma MovedCommand(s: Dm, a: Arch, flags: bv32, reg: bv32, p: seq<bv32>, d: seq<word>)
    requires WellFormed(s, a) && |p| <= |s.progbuf| && |d| <= |s.data|
    ensures Moved(s, a, flags, reg, p, d).command == Ac(flags, a.xlen, reg)
  {}

  // ---------------------------------------------------------------- words of a chunk

  /** A chunk of whole aligned words inside the memory, of which there is at least one. */
  ghost predicate Chunk(s: Dm, a: Arch, taddr: nat, len: nat) {
    && Supported(a) && a.base <= taddr && taddr + len <= a.base + |s.mem| <= Modulus(a.xlen)
    && Aligned(taddr, a.xlen / 8) && Aligned(len, a.xlen / 8) && len > 0
  }

  /** Word i of a chunk. */
  lemma WordInside(s: Dm, a: Arch, taddr: nat, len: nat, i: nat)
    requires Chunk(s, a, taddr, len) && i < WordsIn(len, a.xlen)
    ensures var w := a.xlen / 8;
            && i * w + w <= len && Accessible(s, a, taddr + i * w) && taddr + i * w < Modulus(a.xlen)
            && Wrap(taddr + i * w, a.xlen) == taddr + i * w && (i + 1) * w == i * w + w
  {
    var w := a.xlen / 8;
    Place(i, w, len);
    MultipleAligned(i, w);
    SmallModulus(taddr + i * w, a.xlen);
    hide Aligned;
    AlignedSum(i * w, taddr, w);
  }

  lemma Place(i: nat, w: nat, len: nat)
    requires w > 0 && i < len / w
    ensures i * w + w <= len && (i + 1) * w == i * w + w
  {
    var n := len / w;
    assert len == w * n + len % w && w * n == n * w;
    Bits.Distribute(n, i, w);
    Bits.MulAtLeast(n - i, w);
  }

  lemma MultipleAligned(i: nat, w: nat)
    requires w > 0
    ensures Aligned(i * w, w)
  {
    Bits.DivMod(i * w, w, i, 0);
  }

  /** Registers when word i of a chunk has been loaded. */
  function RegsAt(s: Dm, a: Arch, taddr: nat, len: nat, i: nat): seq<nat>
    requires WellFormed(s, a) && Chunk(s, a, taddr, len) && i < WordsIn(len, a.xlen)
  {
    WordInside(s, a, taddr, len, i);
    AfterLoad(s, a, taddr + i * (a.xlen / 8))
  }

  lemma RegsNext(s: Dm, t: Dm, a: Arch, taddr: nat, len: nat, i: nat)
    requires WellFormed(s, a) && WellFormed(t, a) && Chunk(s, a, taddr, len) && i + 1 < WordsIn(len, a.xlen)
    requires t.x == RegsAt(s, a, taddr, len, i) && t.mem == s.mem
    ensures Accessible(t, a, t.x[8]) && AfterLoad(t, a, t.x[8]) == RegsAt(s, a, taddr, len, i + 1)
  {
    WordInside(s, a, taddr, len, i);
    WordInside(s, a, taddr, len, i + 1);
    hide Chunk, Accessible, Modulus, Wrap, WordsIn, RegsFit, Value, Fetch;
    AccessibleKept(s, t, a, taddr + (i + 1) * (a.xlen / 8));
    assert t.x[8] == taddr + (i + 1) * (a.xlen / 8);
  }

  lemma ChunkWords(s: Dm, a: Arch, taddr: nat, len: nat)
    requires Chunk(s, a, taddr, len)
    ensures var n := WordsIn(len, a.xlen); n > 0 && n * (a.xlen / 8) == len && taddr - a.base + len <= |s.mem|
  {
    var w := a.xlen / 8;
    assert len == w * (len / w);
  }

  /** The source's count of words. */
  lemma WordCount(len: nat, xlen: nat)
    requires xlen == 32 || xlen == 64
    ensures len * 8 / xlen == WordsIn(len, xlen)
  {}

  /** The reading loop has returned i words, and the hart has loaded one more if there is one. */
  ghost predicate Loaded(s: Dm, t: Dm, a: Arch, taddr: nat, len: nat, i: nat)
    requires Ready(s, a) && Chunk(s, a, taddr, len)
  {
    var n := WordsIn(len, a.xlen);
    ChunkWords(s, a, taddr, len);
    && i <= n && Ready(t, a) && Holds(t, a, ReadProgram(a.xlen / 8))
    && Untouched(s.(x := RegsAt(s, a, taddr, len, Min(i, n - 1))), t)
  }

  /** What the next command of a reading loop meets. */
  lemma NextWord(s: Dm, t: Dm, a: Arch, taddr: nat, len: nat, i: nat)
    requires Ready(s, a) && Chunk(s, a, taddr, len) && i < WordsIn(len, a.xlen) && Loaded(s, t, a, taddr, len, i)
    ensures var w := a.xlen / 8;
            && taddr - a.base + i * w + w <= |s.mem| && i * w + w <= len && (i + 1) * w == i * w + w
            && BytesOf(t.x[9], w) == Fetch(s.mem, taddr - a.base + i * w, w)
            && (i + 1 < WordsIn(len, a.xlen) ==>
                Accessible(t, a, t.x[8]) && AfterRead(t, a, true) == RegsAt(s, a, taddr, len, i + 1))
            && AfterRead(t, a, false) == t.x && Ready(t, a) && Holds(t, a, ReadProgram(w))
  {
    ChunkWords(s, a, taddr, len);
    WordInside(s, a, taddr, len, i);
    var w := a.xlen / 8;
    if i + 1 < WordsIn(len, a.xlen) { RegsNext(s, t, a, taddr, len, i); }
    hide Chunk, Accessible, Modulus, Wrap, WordsIn, RegsFit, Value, Fetch, BytesOf;
    BytesOfValue(Fetch(s.mem, taddr - a.base + i * w, w));
  }

  ghost predicate Times(d: nat, i: nat, w: nat) { d == i * w }

  lemma TimesAll(d: nat, n: nat, xlen: nat, len: nat)
    requires (xlen == 32 || xlen == 64) && Times(d, n, xlen / 8) && n == WordsIn(len, xlen) && Aligned(len, xlen / 8)
    ensures d == len
  {
    assert len == xlen / 8 * (len / (xlen / 8));
  }

  lemma StartRead(t: Dm, s: Dm, a: Arch, taddr: nat, len: nat, was: seq<byte>, at: nat)
    requires Ready(s, a) && Chunk(s, a, taddr, len) && at + len <= |was|
    ensures var w := a.xlen / 8;
            && w > 0 && (a.xlen == 32 || a.xlen == 64) && taddr >= a.base && Aligned(len, w)
            && len * 8 / a.xlen == WordsIn(len, a.xlen) > 0 && Times(0, 0, w)
            && taddr - a.base + len <= |s.mem| && Fetched(was, at, s.mem, taddr - a.base, 0, was)
  {
    ChunkWords(s, a, taddr, len);
    WordCount(len, a.xlen);
    EmptyStored(was, at);
    EmptyFetch(s.mem, taddr - a.base);
  }

  lemma WordPlace(s: Dm, a: Arch, taddr: nat, len: nat, i: nat, d: nat)
    requires Chunk(s, a, taddr, len) && i < WordsIn(len, a.xlen) && Times(d, i, a.xlen / 8)
    ensures var w := a.xlen / 8; d + w <= len && taddr - a.base + d + w <= |s.mem| && Times(d + w, i + 1, w)
  {
    WordInside(s, a, taddr, len, i);
  }

  lemma LoadedNext(s: Dm, t: Dm, u: Dm, a: Arch, taddr: nat, len: nat, i: nat)
    requires Ready(s, a) && Chunk(s, a, taddr, len) && i < WordsIn(len, a.xlen) && Loaded(s, t, a, taddr, len, i)
    requires WellFormed(t, a) && (i + 1 < WordsIn(len, a.xlen) ==> Accessible(t, a, t.x[8]))
    requires Ready(u, a) && Holds(u, a, ReadProgram(a.xlen / 8))
    requires Untouched(t.(x := AfterRead(t, a, i + 1 < WordsIn(len, a.xlen))), u)
    ensures Loaded(s, u, a, taddr, len, i + 1)
  {
    hide AfterRead, RegsAt, Accessible, Chunk, Holds, RegsFit;
    NextWord(s, t, a, taddr, len, i);
  }

  const STORE_FLAGS: bv32 := TRANSFER | WRITE | POSTEXEC

  /** The writing loop has stored `done` bytes of src, from offset `at`; the next words go on from there. */
  ghost predicate Writing(s: Dm, t: Dm, a: Arch, taddr: nat, src: seq<byte>, done: nat)
    requires Ready(s, a) && Chunk(s, a, taddr, |src|)
  {
    && done <= |src| && Calm(t, a) && Holds(t, a, WriteProgram(a.xlen / 8))
    && t.x == s.x[9 := t.x[9]][8 := Wrap(taddr + done, a.xlen)]
    && t.mem == Stored(s.mem, taddr - a.base, src[..done])
    && Untouched(s.(x := t.x, mem := t.mem, autoexec := t.autoexec), t)
  }

  lemma WritingNext(s: Dm, t: Dm, u: Dm, a: Arch, taddr: nat, src: seq<byte>, i: nat, done: nat)
    requires Ready(s, a) && Chunk(s, a, taddr, |src|) && Writing(s, t, a, taddr, src, done)
    requires Times(done, i, a.xlen / 8) && i < WordsIn(|src|, a.xlen) && done + a.xlen / 8 <= |src|
    requires Accessible(t, a, t.x[8]) && Calm(u, a) && Holds(u, a, WriteProgram(a.xlen / 8))
    requires Untouched(AfterStore(t, a, Value(src[done..done + a.xlen / 8])), u)
    ensures Writing(s, u, a, taddr, src, done + a.xlen / 8)
  {
    hide Chunk, Accessible, Modulus, Wrap, RegsFit, Value, Stored, BytesOf, Times, Holds, WordsIn;
    WritePlace(s, a, taddr, |src|, i, done);
    StoredMore(s.mem, t.mem, taddr - a.base, src, done, a.xlen / 8);
    WritingRegs(s.x, t.x, u.x, a, taddr, done, Value(src[done..done + a.xlen / 8]));
  }

  lemma WritingRegs(x: seq<nat>, t: seq<nat>, u: seq<nat>, a: Arch, taddr: nat, done: nat, v: nat)
    requires |x| == |t| == 32 && t == x[9 := t[9]][8 := Wrap(taddr + done, a.xlen)]
    requires Wrap(taddr + done, a.xlen) == taddr + done && u == t[9 := v][8 := Wrap(t[8] + a.xlen / 8, a.xlen)]
    ensures u == x[9 := u[9]][8 := Wrap(taddr + (done + a.xlen / 8), a.xlen)] && t[8] == taddr + done
  {
    hide Wrap;
    assert t[8] + a.xlen / 8 == taddr + (done + a.xlen / 8);
  }

  /** One more word of src is stored. */
  lemma StoredMore(m: seq<byte>, t: seq<byte>, o: nat, src: seq<byte>, done: nat, w: nat)
    requires o + |src| <= |m| && done + w <= |src| && t == Stored(m, o, src[..done])
    ensures Stored(t, o + done, BytesOf(Value(src[done..done + w]), w)) == Stored(m, o, src[..done + w])
  {
    BytesOfValue(src[done..done + w]);
    WriteStep(m, o, src, done, w);
  }

  lemma WritePlace(s: Dm, a: Arch, taddr: nat, len: nat, i: nat, d: nat)
    requires Chunk(s, a, taddr, len) && Times(d, i, a.xlen / 8) && i < WordsIn(len, a.xlen)
    ensures a.base <= taddr && taddr - a.base + len <= |s.mem| && d + a.xlen / 8 <= len && Modulus(a.xlen) > 0
    ensures Wrap(taddr + d, a.xlen) == taddr + d && Accessible(s, a, taddr + d)
  {
    WordInside(s, a, taddr, len, i);
  }

  /** What the next command of a writing loop meets. */
  lemma NextStore(s: Dm, t: Dm, a: Arch, taddr: nat, src: seq<byte>, i: nat, done: nat)
    requires Ready(s, a) && Chunk(s, a, taddr, |src|) && Writing(s, t, a, taddr, src, done)
    requires Times(done, i, a.xlen / 8) && i < WordsIn(|src|, a.xlen)
    ensures Calm(t, a) && Holds(t, a, WriteProgram(a.xlen / 8))
    ensures Accessible(t, a, t.x[8]) && done + a.xlen / 8 <= |src|
    ensures Value(src[done..done + a.xlen / 8]) < Modulus(a.xlen) && (!t.autoexec ==> Ready(t, a))
  {
    WordInside(s, a, taddr, |src|, i);
    hide RegsFit, Value, Stored, BytesOf, Holds;
    FetchedFits(src, done, a);
  }

  /** The words that memcpy puts in the data registers. */
  function WordsFrom(b: seq<byte>, xlen: nat): seq<word>
    requires (xlen == 32 || xlen == 64) && |b| == xlen / 8
  {
    WordValue(b[..4]);
    if xlen == 64 then WordValue(b[4..]); [Value(b[..4]), Value(b[4..])] else [Value(b[..4])]
  }

  lemma WordValue(b: seq<byte>)
    requires |b| == 4
    ensures Value(b) < 0x1_0000_0000
  {
    Bits.Pow2Values();
    BytesOfValue(b);
  }

  lemma WordsFromValue(b: seq<byte>, xlen: nat)
    requires (xlen == 32 || xlen == 64) && |b| == xlen / 8
    ensures WordsFrom(b, xlen) == WordsOf(Value(b), xlen)
  {
    WordValue(b[..4]);
    if xlen == 64 {
      WordValue(b[4..]);
      Halves(b);
      LowHigh(Value(b[..4]), Value(b[4..]), Value(b));
    } else {
      assert b[..4] == b;
    }
  }

  lemma Halves(b: seq<byte>)
    requires |b| == 8
    ensures Value(b) == Value(b[..4]) + 0x1_0000_0000 * Value(b[4..])
  {
    Bits.Pow2Values();
    var n := 8 * |b[..4]|;
    assert Bits.Pow2(n) == 0x1_0000_0000 && b[..4] + b[4..] == b;
    hide *;
    ValueConcat(b[..4], b[4..]);
  }

  lemma LowHigh(low: nat, high: nat, v: nat)
    requires low < 0x1_0000_0000 && high < 0x1_0000_0000 && v == low + 0x1_0000_0000 * high
    ensures Low(v) == low && High(v) == high
  {}

  /** Writing data1, for 64 bits, and data0 with autoexec on issues the last command with the new data. */
  function AutoWritten(s: Dm, a: Arch, d: seq<word>): Dm
    requires WellFormed(s, a) && |d| == a.xlen / 32
  {
    DataWritten(if a.xlen == 64 then DataWritten(s, a, 1, d[1]) else s, a, 0, d[0])
  }

  lemma AutoIssue(s: Dm, a: Arch, d: seq<word>)
    requires Calm(s, a) && s.autoexec && |d| == a.xlen / 32
    ensures AutoWritten(s, a, d) == Issue(s, a, s.command, [], d)
  {
    hide Performable, RegsFit;
    assert [] + s.progbuf[0..] == s.progbuf;
    assert (if a.xlen == 64 then s.data[1 := d[1]][0 := d[0]] else s.data[0 := d[0]]) == d + s.data[|d|..];
  }

  lemma StoreAgain(s: Dm, a: Arch, piece: seq<byte>)
    requires Calm(s, a) && s.autoexec && |piece| == a.xlen / 8 && Holds(s, a, WriteProgram(a.xlen / 8))
    requires s.command == Ac(STORE_FLAGS, a.xlen, S1) && Accessible(s, a, s.x[8]) && Value(piece) < Modulus(a.xlen)
    ensures |WordsFrom(piece, a.xlen)| == a.xlen / 32 <= |s.data| && (a.xlen == 32 || a.xlen == 64)
    ensures var t := AutoWritten(s, a, WordsFrom(piece, a.xlen));
            && WellFormed(t, a) && var u := Advance(t, a, 4);
            && Calm(u, a) && Holds(u, a, WriteProgram(a.xlen / 8)) && u.command == s.command && u.cmderr == 0
            && u.phase == Idle && u.autoexec == s.autoexec && Untouched(AfterStore(s, a, Value(piece)), u)
    ensures |s.data| > 1 || a.xlen == 32
  {
    var flags := STORE_FLAGS;
    assert flags & 0x7_0000 == flags && flags & TRANSFER != 0 && flags & WRITE != 0 && flags & POSTEXEC != 0;
    hide Issue, Advance, Ac, Holds, Modulus, Wrap, WordsOf, RegsFit, Accessible, AfterStore, Value, AutoWritten,
        STORE_FLAGS;
    WordStored(s, a, flags, Value(piece));
    WordsFromValue(piece, a.xlen);
    AutoIssue(s, a, WordsFrom(piece, a.xlen));
  }

  lemma AutoKept(s: Dm, t: Dm, a: Arch, taddr: nat, src: seq<byte>, done: nat, auto: bool)
    requires Ready(s, a) && Chunk(s, a, taddr, |src|) && Writing(s, t, a, taddr, src, done)
    ensures Writing(s, t.(autoexec := auto), a, taddr, src, done) && t.phase == Idle
  {
    hide Chunk, RegsFit, Modulus, Wrap, Stored;
  }

  lemma WritingStart(s: Dm, t: Dm, a: Arch, taddr: nat, src: seq<byte>)
    requires Ready(s, a) && Chunk(s, a, taddr, |src|) && Ready(t, a) && Holds(t, a, WriteProgram(a.xlen / 8))
    requires Untouched(s.(x := s.x[8 := taddr]), t)
    ensures Writing(s, t, a, taddr, src, 0) && !t.autoexec
  {
    assert s.x[9 := s.x[9]] == s.x;
    EmptyStored(s.mem, taddr - a.base);
    SmallModulus(taddr, a.xlen);
  }

  lemma WritingEnd(s: Dm, t: Dm, a: Arch, taddr: nat, src: seq<byte>)
    requires Ready(s, a) && Chunk(s, a, taddr, |src|) && Writing(s, t, a, taddr, src, |src|) && !t.autoexec
    ensures Ready(t, a) && |s.x| == |t.x| == 32 && t.x[8 := s.x[8]][9 := s.x[9]] == s.x
    ensures t.mem == Stored(s.mem, taddr - a.base, src) && Untouched(s.(x := t.x, mem := t.mem), t)
  {
    assert src[..|src|] == src;
  }

  /** The command that sets s1 to the end of a chunk and runs the clearing program from the address in s0. */
  lemma ClearCommand(s: Dm, a: Arch, flags: bv32, taddr: nat, len: nat)
    requires Ready(s, a) && |s.progbuf| >= 4 && Chunk(s, a, taddr, len) && s.x[8] == taddr
    requires flags & 0x7_0000 == flags && flags & TRANSFER != 0 && flags & WRITE != 0 && flags & POSTEXEC != 0
    ensures taddr - a.base + len <= |s.mem|
    ensures var e := Wrap(taddr + len, a.xlen);
            var t := Issue(s, a, Ac(flags, a.xlen, S1), ClearWords(a.xlen), WordsOf(e, a.xlen));
            && WellFormed(t, a) && var u := Advance(t, a, 1 + (3 * WordsIn(len, a.xlen) + 1));
            && Ready(u, a)
            && Untouched(s.(x := s.x[9 := e][8 := e], mem := Stored(s.mem, taddr - a.base, Zeros(len))), u)
  {
    hide Issue, Advance, Ac, Modulus, Wrap, WordsOf, RegsFit, Decode, Moved, Holds, ClearWords, Stored, Zeros,
        WordsIn, Aligned;
    var e, n, p := Wrap(taddr + len, a.xlen), WordsIn(len, a.xlen), ClearWords(a.xlen);
    TransferRuns(s, a, flags, S1, p, WordsOf(e, a.xlen), 3 * n + 1);
    MovedIn(s, a, flags, S1, p, e);
    var v := Moved(s, a, flags, S1, p, WordsOf(e, a.xlen)).(phase := Running(0));
    ClearWordsDecode(v, a);
    ChunkWords(s, a, taddr, len);
    assert Stretch(v, a, n);
    ClearRuns(v, a, n);
    hide Stretch;
    AllClearedAre(v, a, n);
  }

  lemma AllClearedAre(s: Dm, a: Arch, n: nat)
    requires WellFormed(s, a) && Stretch(s, a, n)
    ensures a.base <= s.x[8] && s.x[8] - a.base + n * (a.xlen / 8) <= |s.mem|
    ensures AllCleared(s, a, n) ==
        s.(mem := Stored(s.mem, s.x[8] - a.base, Zeros(n * (a.xlen / 8))), x := s.x[8 := s.x[9]], phase := Idle)
  {
    StretchInside(s, a, n);
  }

  // ---------------------------------------------------------------- the transport

  /** Two looks at a run that both find the hart idle see the same state. */
  lemma IdleMeets(s: Dm, a: Arch, i: nat, k: nat)
    requires WellFormed(s, a) && Advance(s, a, i).phase == Idle && Advance(s, a, k).phase == Idle
    ensures Advance(s, a, i) == Advance(s, a, k)
  {
    hide Advance, WellFormed;
    if i <= k {
      AdvanceSum(s, a, i, k - i);
      IdleStays(Advance(s, a, i), a, k - i);
    } else {
      AdvanceSum(s, a, k, i - k);
      IdleStays(Advance(s, a, k), a, i - k);
    }
  }

  /** A run that is still busy has not reached the end of the program. */
  lemma BusyBefore(s: Dm, a: Arch, i: nat, k: nat)
    requires WellFormed(s, a) && Advance(s, a, i).phase != Idle && Advance(s, a, k).phase == Idle
    ensures i < k
  {
    hide Advance, WellFormed;
    if i >= k {
      AdvanceSum(s, a, k, i - k);
      IdleStays(Advance(s, a, k), a, i - k);
    }
  }

  class Dtm {
    const target: Target
    const xlen: nat

    constructor (target: Target)
      ensures this.target == target && xlen == target.a.xlen
    {
      this.target, xlen := target, target.a.xlen;
    }

    /** Loads the program and, for a transfer to a register, the data; starts the command; and waits for its
        end, which must come after some number k of steps. */
    method RunAbstractCommand(c: bv32, program: seq<bv32>, data: seq<word>, ghost k: nat)
        returns (cmderr: nat, out: seq<word>)
      requires Ready(target.s, target.a) && |program| <= |target.s.progbuf| && |data| <= |target.s.data|
      requires Advance(Issue(target.s, target.a, c, program, if IsWrite(c) && Transfer(c) then data else []),
          target.a, k).phase == Idle
      modifies target
      ensures var t := Issue(old(target.s), target.a, c, program, if IsWrite(c) && Transfer(c) then data else []);
              WellFormed(t, target.a) && target.s == Advance(t, target.a, k)
      ensures WellFormed(target.s, target.a) && cmderr == target.s.cmderr && |target.s.data| >= |data|
      ensures out == if !IsWrite(c) && Transfer(c) then target.s.data[..|data|] else data
    {
      hide Advance, IsWrite, Transfer, Performable, RegsFit, Modulus, Wrap;
      LoadRegisters(program, if IsWrite(c) && Transfer(c) then data else []);
      target.WriteCommand(c);
      AdvanceKeeps(target.s, target.a, k);
      cmderr := Wait(k);
      out := data;
      if !IsWrite(c) && Transfer(c) { out := ReadDataRegisters(|data|); }
    }

    /** Writes s0 with an address and runs the reading program once. */
    method LoadFirst(addr: nat)
      requires Ready(target.s, target.a) && xlen == target.a.xlen && |target.s.progbuf| >= 3
      requires addr < Modulus(xlen) && Accessible(target.s, target.a, addr)
      modifies target
      ensures Ready(target.s, target.a) && Holds(target.s, target.a, ReadProgram(xlen / 8))
      ensures Untouched(old(target.s).(x := AfterLoad(old(target.s), target.a, addr)), target.s)
    {
      var flags := TRANSFER | WRITE | POSTEXEC;
      FirstRead(target.s, target.a, flags, addr);
      AcFields(flags, xlen, S0);
      hide Issue, Advance, Ac, IsWrite, Transfer, Accessible, AfterLoad, Holds, Modulus, Wrap, ReadWords, WordsOf,
          RegsFit;
      var cmderr, out := RunAbstractCommand(Ac(flags, xlen, S0), ReadWords(xlen), WordsOf(addr, xlen), 4);
    }

    /** Reads the word in s1 and, if there is more, has the hart load the next one. */
    method ReadWord(more: bool) returns (out: seq<word>)
      requires Ready(target.s, target.a) && xlen == target.a.xlen && Holds(target.s, target.a, ReadProgram(xlen / 8))
      requires more ==> Accessible(target.s, target.a, target.s.x[8])
      modifies target
      ensures Ready(target.s, target.a) && Holds(target.s, target.a, ReadProgram(xlen / 8))
      ensures Untouched(old(target.s).(x := AfterRead(old(target.s), target.a, more)), target.s)
      ensures |out| == xlen / 32 && DataBytes(out, xlen) == BytesOf(old(target.s).x[9], xlen / 8)
    {
      var flags := TRANSFER;
      if more { flags := flags | POSTEXEC; }
      NextRead(target.s, target.a, flags);
      AcFields(flags, xlen, S1);
      hide Issue, Advance, Ac, IsWrite, Transfer, Accessible, AfterRead, Holds, Modulus, Wrap, WordsOf, RegsFit,
          DataBytes, BytesOf;
      var cmderr;
      cmderr, out := RunAbstractCommand(Ac(flags, xlen, S1), [], seq(xlen / 32, _ => 0),
          if flags & POSTEXEC != 0 then 4 else 1);
      DataBytesPrefix(target.s.data, xlen);
      DataBytesValue(out, xlen);
    }

    /** The loop of ReadChunk: each command returns a word and loads the next one ahead. */
    method ReadAll(taddr: nat, len: nat, dst: array<byte>, at: nat, ghost s: Dm)
      requires Ready(s, target.a) && Chunk(s, target.a, taddr, len) && at + len <= dst.Length && xlen == target.a.xlen
      requires Loaded(s, target.s, target.a, taddr, len, 0)
      modifies target, dst
      ensures Fetched(old(dst[..]), at, s.mem, taddr - target.a.base, len, dst[..])
      ensures Loaded(s, target.s, target.a, taddr, len, WordsIn(len, xlen))
    {
      hide *;
      ghost var was := dst[..];
      StartRead(target.s, s, target.a, taddr, len, was, at);
      ghost var o: nat := taddr - target.a.base;
      var w, n, cur := xlen / 8, len * 8 / xlen, at;
      ghost var done: nat := 0;
      for i := 0 to n
        invariant Loaded(s, target.s, target.a, taddr, len, i)
        invariant Times(done, i, w) && cur == at + done && Fetched(was, at, s.mem, o, done, dst[..])
      {
        label Before:
        WordPlace(s, target.a, taddr, len, i, done);
        ReadOne(taddr, len, i, w, dst, cur, s, done);
        FetchedNext(was, at, s.mem, o, done, w, old@Before(dst[..]), dst[..]);
        done, cur := done + w, cur + w;
      }
      TimesAll(done, n, xlen, len);
    }

    /** Returns word i. */
    method ReadOne(taddr: nat, len: nat, i: nat, w: nat, dst: array<byte>, cur: nat, ghost s: Dm, ghost done: nat)
      requires Ready(s, target.a) && Chunk(s, target.a, taddr, len)
      requires xlen == target.a.xlen && w == xlen / 8 && i < WordsIn(len, xlen)
      requires Loaded(s, target.s, target.a, taddr, len, i) && Times(done, i, w) && cur + w <= dst.Length
      modifies target, dst
      ensures Loaded(s, target.s, target.a, taddr, len, i + 1) && taddr - target.a.base + done + w <= |s.mem|
      ensures dst[..] == Stored(old(dst[..]), cur, Fetch(s.mem, taddr - target.a.base + done, w))
    {
      assert done == i * w;
      WordCount(len, xlen);
      hide *;
      ghost var t := target.s;
      NextWord(s, t, target.a, taddr, len, i);
      var more := i + 1 < len * 8 / xlen;
      var out := ReadWord(more);
      LoadedNext(s, t, target.s, target.a, taddr, len, i);
      CopyBytes(DataBytes(out, xlen), dst, cur);
    }

    /** Reads a chunk. */
    method ReadChunk(taddr: nat, len: nat, dst: array<byte>, at: nat)
      requires Ready(target.s.(halted := true), target.a) && xlen == target.a.xlen && |target.s.progbuf| >= 3
      requires Chunk(target.s, target.a, taddr, len) && at + len <= dst.Length
      modifies target, dst
      ensures dst[..] == Stored(old(dst[..]), at, Fetch(old(target.s).mem, taddr - target.a.base, len))
      ensures Untouched(old(target.s).(halted := false), target.s)
    {
      ghost var s, a := target.s.(halted := true), target.a;
      target.Halt();
      var s0 := SaveReg(S0);
      var s1 := SaveReg(S1);
      ChunkWords(s, a, taddr, len);
      WordInside(target.s, a, taddr, len, 0);
      LoadFirst(taddr);
      ReadAll(taddr, len, dst, at, s);
      RestoreReg(S0, s0);
      RestoreReg(S1, s1);
      target.Resume();
    }

    /** Loads the writing program and sets s0. */
    method StoreSetup(addr: nat)
      requires Ready(target.s, target.a) && xlen == target.a.xlen && |target.s.progbuf| >= 3 && addr < Modulus(xlen)
      modifies target
      ensures Ready(target.s, target.a) && Holds(target.s, target.a, WriteProgram(xlen / 8))
      ensures Untouched(old(target.s).(x := old(target.s).x[8 := addr]), target.s)
    {
      var flags := TRANSFER | WRITE;
      SetAddress(target.s, target.a, flags, addr);
      AcFields(flags, xlen, S0);
      hide Issue, Advance, Ac, IsWrite, Transfer, Holds, Modulus, Wrap, WriteWords, WordsOf, RegsFit;
      var cmderr, out := RunAbstractCommand(Ac(flags, xlen, S0), WriteWords(xlen), WordsOf(addr, xlen), 1);
    }

    /** Stores a word by a whole command. */
    method StoreFirst(piece: seq<byte>)
      requires Ready(target.s, target.a) && xlen == target.a.xlen && Holds(target.s, target.a, WriteProgram(xlen / 8))
      requires Accessible(target.s, target.a, target.s.x[8]) && |piece| == xlen / 8 && Value(piece) < Modulus(xlen)
      modifies target
      ensures Calm(target.s, target.a) && Holds(target.s, target.a, WriteProgram(xlen / 8))
      ensures target.s.command == Ac(STORE_FLAGS, xlen, S1) && target.s.autoexec == old(target.s).autoexec
      ensures Untouched(AfterStore(old(target.s), target.a, Value(piece)), target.s)
    {
      var flags := STORE_FLAGS;
      WordStored(target.s, target.a, flags, Value(piece));
      AcFields(flags, xlen, S1);
      WordsFromValue(piece, xlen);
      hide Issue, Advance, Ac, IsWrite, Transfer, Holds, Modulus, Wrap, WordsOf, RegsFit, Accessible, AfterStore, Value;
      var cmderr, out := RunAbstractCommand(Ac(flags, xlen, S1), [], WordsFrom(piece, xlen), 4);
    }

    /** Stores a word by writing the data registers, which executes the last command again. */
    method StoreNext(piece: seq<byte>)
      requires Calm(target.s, target.a) && target.s.autoexec && xlen == target.a.xlen && |piece| == xlen / 8
      requires Holds(target.s, target.a, WriteProgram(xlen / 8)) && target.s.command == Ac(STORE_FLAGS, xlen, S1)
      requires Accessible(target.s, target.a, target.s.x[8]) && Value(piece) < Modulus(xlen)
      modifies target
      ensures Calm(target.s, target.a) && Holds(target.s, target.a, WriteProgram(xlen / 8))
      ensures target.s.command == Ac(STORE_FLAGS, xlen, S1) && target.s.autoexec == old(target.s).autoexec
      ensures Untouched(AfterStore(old(target.s), target.a, Value(piece)), target.s)
    {
      StoreAgain(target.s, target.a, piece);
      hide *;
      var data := WordsFrom(piece, xlen);
      if xlen == 64 { target.WriteData(1, data[1]); }
      target.WriteData(0, data[0]);
      var cmderr := Wait(4);
      assert cmderr == 0; // so that there is nothing to die of
    }

    /** The loop of WriteChunk: a first command, then one autoexec a word. */
    method StoreAll(taddr: nat, len: nat, src: array<byte>, at: nat, ghost s: Dm)
      requires at + len <= src.Length && Ready(s, target.a) && Chunk(s, target.a, taddr, len) && xlen == target.a.xlen
      requires Writing(s, target.s, target.a, taddr, src[at..at + len], 0) && !target.s.autoexec
      modifies target
      ensures Writing(s, target.s, target.a, taddr, src[at..at + len], len) && !target.s.autoexec
    {
      hide *;
      ghost var data := src[at..at + len];
      StartRead(s, s, target.a, taddr, len, data, 0);
      var w, n := xlen / 8, len * 8 / xlen;
      NextStore(s, target.s, target.a, taddr, data, 0, 0);
      ghost var t := target.s;
      assert data[0..w] == src[at..at + w];
      StoreFirst(src[at..at + w]);
      WritingNext(s, t, target.s, target.a, taddr, data, 0, 0);
      WordPlace(s, target.a, taddr, len, 0, 0);
      ghost var done: nat := w;
      var cur := at + w;
      for i := 1 to n
        invariant Writing(s, target.s, target.a, taddr, data, done) && Times(done, i, w) && cur == at + done
        invariant target.s.command == Ac(STORE_FLAGS, xlen, S1) && target.s.autoexec == (i > 1)
      {
        if i == 1 {
          AutoKept(s, target.s, target.a, taddr, data, done, true);
          target.WriteAbstractauto(true);
        }
        NextStore(s, target.s, target.a, taddr, data, i, done);
        t := target.s;
        SliceOfSlice(src[..], at, len, done, w);
        StoreNext(src[cur..cur + w]);
        WritingNext(s, t, target.s, target.a, taddr, data, i, done);
        WordPlace(s, target.a, taddr, len, i, done);
        done, cur := done + w, cur + w;
      }
      TimesAll(done, n, xlen, len);
      if n > 1 {
        AutoKept(s, target.s, target.a, taddr, data, done, false);
        target.WriteAbstractauto(false);
      }
    }

    /** Writes a chunk. */
    method WriteChunk(taddr: nat, len: nat, src: array<byte>, at: nat)
      requires Ready(target.s.(halted := true), target.a) && xlen == target.a.xlen && |target.s.progbuf| >= 3
      requires Chunk(target.s, target.a, taddr, len) && at + len <= src.Length
      modifies target
      ensures taddr - target.a.base + len <= |old(target.s).mem|
      ensures Untouched(old(target.s).(halted := false,
          mem := Stored(old(target.s).mem, taddr - target.a.base, src[at..at + len])), target.s)
    {
      ghost var s, a := target.s.(halted := true), target.a;
      ghost var data := src[at..at + len];
      target.Halt();
      var s0 := SaveReg(S0);
      var s1 := SaveReg(S1);
      ChunkWords(s, a, taddr, len);
      StoreSetup(taddr);
      WritingStart(s, target.s, a, taddr, data);
      StoreAll(taddr, len, src, at, s);
      WritingEnd(s, target.s, a, taddr, data);
      RestoreReg(S0, s0);
      RestoreReg(S1, s1);
      target.Resume();
    }

    /** Clears a chunk, by one run of a program on the hart. */
    method ClearChunk(taddr: nat, len: nat)
      requires Ready(target.s.(halted := true), target.a) && xlen == target.a.xlen
      requires |target.s.progbuf| >= 4 && |target.s.data| >= 2 && Chunk(target.s, target.a, taddr, len)
      modifies target
      ensures taddr - target.a.base + len <= |old(target.s).mem|
      ensures Untouched(old(target.s).(halted := false,
          mem := Stored(old(target.s).mem, taddr - target.a.base, Zeros(len))), target.s)
    {
      target.Halt();
      var s0 := SaveReg(S0);
      var s1 := SaveReg(S1);
      RestoreReg(S0, taddr);
      RunClear(taddr, len);
      RestoreReg(S0, s0);
      RestoreReg(S1, s1);
      target.Resume();
    }

    method RunClear(taddr: nat, len: nat)
      requires Ready(target.s, target.a) && xlen == target.a.xlen && |target.s.progbuf| >= 4
      requires Chunk(target.s, target.a, taddr, len) && target.s.x[8] == taddr
      modifies target
      ensures Ready(target.s, target.a) && taddr - target.a.base + len <= |old(target.s).mem|
      ensures var e := Wrap(taddr + len, xlen);
              Untouched(old(target.s).(x := old(target.s).x[9 := e][8 := e],
                                       mem := Stored(old(target.s).mem, taddr - target.a.base, Zeros(len))), target.s)
    {
      var flags, end := STORE_FLAGS, Wrap(taddr + len, xlen);
      ClearCommand(target.s, target.a, flags, taddr, len);
      AcFields(flags, xlen, S1);
      hide Issue, Advance, Ac, IsWrite, Transfer, Modulus, Wrap, ClearWords, WordsOf, RegsFit, Stored, Zeros;
      var cmderr, out := RunAbstractCommand(Ac(flags, xlen, S1), ClearWords(xlen), WordsOf(end, xlen),
                                            1 + (3 * WordsIn(len, xlen) + 1));
    }

    method CopyBytes(bytes: seq<byte>, dst: array<byte>, cur: nat)
      requires cur + |bytes| <= dst.Length
      modifies dst
      ensures dst[..] == Stored(old(dst[..]), cur, bytes)
    {
      forall k | 0 <= k < |bytes| { dst[cur + k] := bytes[k]; }
    }

    method ReadDataRegisters(n: nat) returns (out: seq<word>)
      requires target.s.phase == Idle && n <= |target.s.data|
      modifies target
      ensures target.s == old(target.s) && out == target.s.data[..n]
    {
      out := [];
      for i := 0 to n
        invariant target.s == old(target.s) && out == target.s.data[..i]
      {
        var v := target.ReadData(i);
        out := out + [v];
      }
    }

    method SaveReg(reg: bv32) returns (v: nat)
      requires Ready(target.s, target.a) && xlen == target.a.xlen && (reg == S0 || reg == S1)
      modifies target
      ensures Ready(target.s, target.a) && Untouched(old(target.s), target.s)
      ensures v == target.s.x[RegIndex(reg)] < Modulus(xlen)
    {
      var c := Ac(TRANSFER, xlen, reg);
      ghost var s, a := target.s, target.a;
      AcFields(TRANSFER, xlen, reg);
      PlainRuns(s, a, TRANSFER, reg, [], []);
      var err, data := RunAbstractCommand(c, [], seq(xlen / 32, _ => 0), 1);
      ValueKept(s.data, s.x[RegIndex(reg)], xlen);
      v := data[0];
      if xlen > 32 {
        var high: nat := data[1];
        v := v + 0x1_0000_0000 * high;
      }
    }

    method RestoreReg(reg: bv32, v: nat)
      requires Ready(target.s, target.a) && xlen == target.a.xlen && (reg == S0 || reg == S1) && v < Modulus(xlen)
      modifies target
      ensures Ready(target.s, target.a)
      ensures Untouched(old(target.s).(x := old(target.s).x[RegIndex(reg) := v]), target.s)
    {
      var c := Ac(TRANSFER | WRITE, xlen, reg);
      ghost var s, a := target.s, target.a;
      AcFields(TRANSFER | WRITE, xlen, reg);
      PlainRuns(s, a, TRANSFER | WRITE, reg, [], WordsOf(v, xlen));
      WordsOfValue(v, xlen, s.data[xlen / 32..]);
      var err, data := RunAbstractCommand(c, [], WordsOf(v, xlen), 1);
    }

    /** Writes the program buffer and the data registers. */
    method LoadRegisters(program: seq<bv32>, data: seq<word>)
      requires target.s.phase == Idle && !target.s.autoexec
      requires |program| <= |target.s.progbuf| && |data| <= |target.s.data|
      modifies target
      ensures target.s == old(target.s).(progbuf := program + old(target.s).progbuf[|program|..],
                                         data := data + old(target.s).data[|data|..])
    {
      ghost var was := target.s;
      for i := 0 to |program|
        invariant target.s == was.(progbuf := target.s.progbuf) && |target.s.progbuf| == |was.progbuf|
        invariant forall j :: 0 <= j < |was.progbuf| ==>
            target.s.progbuf[j] == if j < i then program[j] else was.progbuf[j]
      {
        target.WriteProgbuf(i, program[i]);
      }
      assert target.s.progbuf == program + was.progbuf[|program|..];
      ghost var loaded := target.s;
      for i := 0 to |data|
        invariant target.s == loaded.(data := target.s.data) && |target.s.data| == |was.data|
        invariant forall j :: 0 <= j < |was.data| ==> target.s.data[j] == if j < i then data[j] else was.data[j]
      {
        target.WriteData(i, data[i]);
      }
      assert target.s.data == data + was.data[|data|..];
    }

    /** Polls abstractcs until the command has ended. */
    method Wait(ghost k: nat) returns (cmderr: nat)
      requires WellFormed(target.s, target.a) && Advance(target.s, target.a, k).phase == Idle
      modifies target
      ensures WellFormed(target.s, target.a)
      ensures target.s == Advance(old(target.s), target.a, k) && cmderr == target.s.cmderr
    {
      hide Advance, WellFormed;
      ghost var t, a, done := target.s, target.a, 0;
      AdvanceZero(t, a);
      var busy := true;
      cmderr := 0;
      while busy
        invariant WellFormed(target.s, a) && target.s == Advance(t, a, done)
        invariant !busy ==> target.s.phase == Idle && cmderr == target.s.cmderr
        invariant busy && done > 0 ==> target.s.phase != Idle
        decreases busy, k + 1 - done
      {
        ghost var n;
        busy, cmderr, n := target.ReadAbstractcs();
        AdvanceSum(t, a, done, n);
        done := done + n;
        if busy { BusyBefore(t, a, done, k); }
      }
      IdleMeets(t, a, done, k);
    }
  }

  lemma DataBytesPrefix(data: seq<word>, xlen: nat)
    requires |data| >= xlen / 32 && (xlen == 32 || xlen == 64)
    ensures DataValue(data[..xlen / 32], xlen) == DataValue(data, xlen)
  {}

  lemma AdvanceZero(s: Dm, a: Arch)
    requires WellFormed(s, a)
    ensures Advance(s, a, 0) == s
  {}
}
