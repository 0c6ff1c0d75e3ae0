/** What a debug transport drives: the abstract commands and the program buffer of a debug module, with the
    hart that executes them, as RISC-V External Debug Support 0.13.2 describes them (sections 3.6 and 3.7). */
module DebugTarget {
  import opened FlatMemory
  import opened Words

  // ---------------------------------------------------------------- instructions

  datatype Instr = Load(dst: nat, base: nat, imm: int) | Store(src: nat, base: nat, imm: int)
                 | Addi(dst: nat, base: nat, imm: int) | Bne(r1: nat, r2: nat, imm: int) | Ebreak | Other

  function Field(w: bv32, s: nat, mask: bv32): bv32
    requires s < 32
  {
    (w >> s) & mask
  }

  /** The sign of an immediate of n bits. */
  function Signed(v: bv32, top: bv32): int {
    if v & top != 0 then (v as int) - 2 * (top as int) else v as int
  }

  function Rd(w: bv32): bv32 { Field(w, 7, 0x1f) }
  function Rs1(w: bv32): bv32 { Field(w, 15, 0x1f) }
  function Rs2(w: bv32): bv32 { Field(w, 20, 0x1f) }
  function ImmI(w: bv32): bv32 { Field(w, 20, 0xfff) }
  function ImmS(w: bv32): bv32 { (Field(w, 25, 0x7f) << 5) | Field(w, 7, 0x1f) }
  function ImmB(w: bv32): bv32 {
    (Field(w, 31, 1) << 12) | (Field(w, 7, 1) << 11) | (Field(w, 25, 0x3f) << 5) | (Field(w, 8, 0xf) << 1)
  }

  /** The instructions that the debugger's programs use, for a hart of XLEN bits (sections 2.2 to 2.6 of the
      RISC-V User-Level ISA v2.2). */
  function Decode(w: bv32, xlen: nat): Instr {
    var op := w & 0x707f;
    if op == (if xlen == 64 then 0x3003 else 0x2003) then Load(Rd(w) as nat, Rs1(w) as nat, Signed(ImmI(w), 0x800))
    else if op == (if xlen == 64 then 0x3023 else 0x2023) then
      Store(Rs2(w) as nat, Rs1(w) as nat, Signed(ImmS(w), 0x800))
    else if op == 0x13 then Addi(Rd(w) as nat, Rs1(w) as nat, Signed(ImmI(w), 0x800))
    else if op == 0x1063 then Bne(Rs1(w) as nat, Rs2(w) as nat, Signed(ImmB(w), 0x1000))
    else if w == 0x00100073 then Ebreak
    else Other
  }

  // ---------------------------------------------------------------- the debug module's state

  datatype Phase = Idle | Begin | Running(pc: nat)

  datatype Arch = Arch(xlen: nat, base: nat)

  predicate Supported(a: Arch) { a.xlen == 32 || a.xlen == 64 }

  /** x and mem belong to the hart. */
  datatype Dm = Dm(progbuf: seq<bv32>, data: seq<word>, command: bv32, autoexec: bool, cmderr: nat,
                   halted: bool, phase: Phase, x: seq<nat>, mem: seq<byte>)

  const BUSY := 1
  const NOT_SUPPORTED := 2
  const EXCEPTION := 3
  const HALT_RESUME := 4

  ghost predicate WellFormed(s: Dm, a: Arch) {
    Supported(a) && |s.data| >= a.xlen / 32 && RegsFit(s.x, Modulus(a.xlen))
  }

  ghost predicate RegsFit(x: seq<nat>, m: nat)
    ensures RegsFit(x, m) ==> |x| == 32
  {
    |x| == 32 && x[0] == 0 && forall r :: 0 <= r < 32 ==> x[r] < m
  }

  // Access Register commands.
  function Size(c: bv32): bv32 { Field(c, 20, 7) }
  predicate PostExec(c: bv32) { c & 0x4_0000 != 0 }
  predicate Transfer(c: bv32) { c & 0x2_0000 != 0 }
  predicate IsWrite(c: bv32) { c & 0x1_0000 != 0 }
  function Regno(c: bv32): bv32 { c & 0xffff }

  predicate Performable(c: bv32, a: Arch) {
    && c >> 24 == 0
    && (Transfer(c) ==> Size(c) == (if a.xlen == 64 then 3 else 2) && 0x1000 <= Regno(c) < 0x1020)
  }

  function Reg(c: bv32): (r: nat)
    requires 0x1000 <= Regno(c) < 0x1020
    ensures r < 32
  {
    ((Regno(c) - 0x1000) as bv5) as nat
  }

  function WithError(s: Dm, e: nat): Dm {
    if s.cmderr == 0 then s.(cmderr := e) else s
  }

  /** Starting the command in the command register. */
  function Start(s: Dm, a: Arch): Dm {
    if s.cmderr != 0 then s
    else if !s.halted then s.(cmderr := HALT_RESUME)
    else if !Performable(s.command, a) then s.(cmderr := NOT_SUPPORTED)
    else s.(phase := Begin)
  }

  function SetReg(x: seq<nat>, r: nat, v: nat): seq<nat>
    requires r < |x|
  {
    if r == 0 then x else x[r := v]
  }

  /** The transfer of a command. */
  function Transferred(s: Dm, a: Arch): Dm
    requires WellFormed(s, a)
  {
    if !Performable(s.command, a) || !Transfer(s.command) then s
    else if IsWrite(s.command) then s.(x := SetReg(s.x, Reg(s.command), DataValue(s.data, a.xlen)))
    else s.(data := WithValue(s.data, s.x[Reg(s.command)], a.xlen))
  }

  function Trap(s: Dm): Dm {
    s.(cmderr := EXCEPTION, phase := Idle)
  }

  predicate Accessible(s: Dm, a: Arch, addr: nat)
    requires Supported(a)
  {
    a.base <= addr && addr + a.xlen / 8 <= a.base + |s.mem| && Aligned(addr, a.xlen / 8)
  }

  function Next(pc: nat): Phase { Running(pc + 1) }

  /** One instruction of the program buffer. */
  function Execute(s: Dm, a: Arch, pc: nat, i: Instr): Dm
    requires WellFormed(s, a)
  {
    var w := a.xlen / 8;
    match i
    case Load(d, b, imm) =>
      if d >= 32 || b >= 32 then Trap(s) else
      var addr := Wrap(s.x[b] + imm, a.xlen);
      if !Accessible(s, a, addr) then Trap(s)
      else s.(x := SetReg(s.x, d, Value(Fetch(s.mem, addr - a.base, w))), phase := Next(pc))
    case Store(r, b, imm) =>
      if r >= 32 || b >= 32 then Trap(s) else
      var addr := Wrap(s.x[b] + imm, a.xlen);
      if !Accessible(s, a, addr) then Trap(s)
      else s.(mem := Stored(s.mem, addr - a.base, BytesOf(s.x[r], w)), phase := Next(pc))
    case Addi(d, b, imm) =>
      if d >= 32 || b >= 32 then Trap(s)
      else s.(x := SetReg(s.x, d, Wrap(s.x[b] + imm, a.xlen)), phase := Next(pc))
    case Bne(r1, r2, imm) =>
      if r1 >= 32 || r2 >= 32 || imm % 4 != 0 || pc + imm / 4 < 0 then Trap(s)
      else s.(phase := if s.x[r1] != s.x[r2] then Running(pc + imm / 4) else Next(pc))
    case Ebreak => s.(phase := Idle)
    case Other => Trap(s)
  }

  /** One step of a busy hart. */
  function Step(s: Dm, a: Arch): Dm
    requires WellFormed(s, a)
  {
    match s.phase
    case Idle => s
    case Begin => Transferred(s, a).(phase := if PostExec(s.command) then Running(0) else Idle)
    case Running(pc) => if pc < |s.progbuf| then Execute(s, a, pc, Decode(s.progbuf[pc], a.xlen)) else Trap(s)
  }

  lemma SetRegFits(x: seq<nat>, r: nat, v: nat, m: nat)
    requires RegsFit(x, m) && r < 32 && v < m
    ensures RegsFit(SetReg(x, r, v), m)
  {}

  lemma FetchedFits(mem: seq<byte>, o: nat, a: Arch)
    requires Supported(a) && o + a.xlen / 8 <= |mem|
    ensures Value(Fetch(mem, o, a.xlen / 8)) < Modulus(a.xlen)
  {
    Bits.Pow2Values();
    var b := Fetch(mem, o, a.xlen / 8);
    var n := 8 * |b|;
    assert n == a.xlen && Bits.Pow2(n) == Modulus(a.xlen);
    hide *;
    BytesOfValue(b);
  }

  lemma StepWellFormed(s: Dm, a: Arch)
    requires WellFormed(s, a)
    ensures WellFormed(Step(s, a), a)
  {
    match s.phase
    case Idle =>
    case Begin =>
      hide RegsFit, SetReg, DataValue, WithValue, Performable, PostExec;
      DataBytesValue(s.data, a.xlen);
      if Performable(s.command, a) && Transfer(s.command) && IsWrite(s.command) {
        SetRegFits(s.x, Reg(s.command), DataValue(s.data, a.xlen), Modulus(a.xlen));
      }
    case Running(pc) =>
      hide Decode, RegsFit;
      if pc < |s.progbuf| { ExecuteWellFormed(s, a, pc, Decode(s.progbuf[pc], a.xlen)); }
  }

  lemma ExecuteWellFormed(s: Dm, a: Arch, pc: nat, i: Instr)
    requires WellFormed(s, a)
    ensures WellFormed(Execute(s, a, pc, i), a)
  {
    var m := Modulus(a.xlen);
    match i
    case Load(d, b, imm) =>
      if d < 32 && b < 32 && Accessible(s, a, Wrap(s.x[b] + imm, a.xlen)) {
        var o := Wrap(s.x[b] + imm, a.xlen) - a.base;
        hide RegsFit, SetReg, Value, Fetch;
        FetchedFits(s.mem, o, a);
        SetRegFits(s.x, d, Value(Fetch(s.mem, o, a.xlen / 8)), m);
      }
    case Addi(d, b, imm) =>
      hide RegsFit, SetReg;
      if d < 32 && b < 32 { SetRegFits(s.x, d, Wrap(s.x[b] + imm, a.xlen), m); }
    case Store(_, _, _) =>
    case Bne(_, _, _) =>
    case Ebreak =>
    case Other =>
  }

  /** The state after n steps. */
  function Advance(s: Dm, a: Arch, n: nat): Dm
    requires WellFormed(s, a)
    decreases n
  {
    if n == 0 then s else StepWellFormed(s, a); Advance(Step(s, a), a, n - 1)
  }

  lemma {:induction false} AdvanceSum(s: Dm, a: Arch, i: nat, j: nat)
    requires WellFormed(s, a)
    ensures WellFormed(Advance(s, a, i), a) && Advance(s, a, i + j) == Advance(Advance(s, a, i), a, j)
    decreases i
  {
    hide Step, WellFormed;
    if i > 0 {
      StepWellFormed(s, a);
      AdvanceSum(Step(s, a), a, i - 1, j);
    }
  }

  /** What a run leaves alone. */
  ghost predicate Kept(s: Dm, t: Dm) {
    && t.progbuf == s.progbuf && t.command == s.command && t.autoexec == s.autoexec && t.halted == s.halted
    && |t.data| == |s.data| && |t.mem| == |s.mem|
  }

  lemma StepKeeps(s: Dm, a: Arch)
    requires WellFormed(s, a)
    ensures Kept(s, Step(s, a))
  {
    hide Decode, RegsFit, SetReg, Accessible, Stored, Performable, Transfer, IsWrite, Modulus;
  }

  lemma {:induction false} AdvanceKeeps(s: Dm, a: Arch, n: nat)
    requires WellFormed(s, a)
    ensures Kept(s, Advance(s, a, n))
    decreases n
  {
    if n > 0 {
      StepWellFormed(s, a);
      StepKeeps(s, a);
      hide Step, WellFormed;
      AdvanceKeeps(Step(s, a), a, n - 1);
    }
  }

  /** An idle hart stays as it is. */
  lemma {:induction false} IdleStays(s: Dm, a: Arch, n: nat)
    requires WellFormed(s, a) && s.phase == Idle
    ensures Advance(s, a, n) == s
  {
    if n > 0 { IdleStays(s, a, n - 1); }
  }

  /** The state in which a command has just been written, after its program and its data. */
  function Issue(s: Dm, a: Arch, c: bv32, program: seq<bv32>, d: seq<word>): (t: Dm)
    requires |program| <= |s.progbuf| && |d| <= |s.data|
    ensures WellFormed(s, a) ==> WellFormed(t, a)
  {
    Start(s.(progbuf := program + s.progbuf[|program|..], data := d + s.data[|d|..], command := c), a)
  }

  /** The debug module and hart, as a transport reaches them. Registers are ignored, and the access is an
      error, while a command is executing. */
  class Target {
    const a: Arch
    var s: Dm

    constructor (a: Arch, s: Dm)
      requires WellFormed(s, a)
      ensures this.a == a && this.s == s
    {
      this.a, this.s := a, s;
    }

    method WriteProgbuf(i: nat, w: bv32)
      requires i < |s.progbuf|
      modifies this
      ensures s == if old(s).phase == Idle then old(s).(progbuf := old(s).progbuf[i := w]) else WithError(old(s), BUSY)
    {
      s := if s.phase == Idle then s.(progbuf := s.progbuf[i := w]) else WithError(s, BUSY);
    }

    method WriteData(i: nat, v: word)
      requires i < |s.data|
      modifies this
      ensures s == DataWritten(old(s), a, i, v)
    {
      s := DataWritten(s, a, i, v);
    }

    method ReadData(i: nat) returns (v: word)
      requires i < |s.data|
      modifies this
      ensures old(s).phase == Idle ==> s == old(s) && v == s.data[i]
      ensures old(s).phase != Idle ==> s == WithError(old(s), BUSY)
    {
      v := 0;
      if s.phase == Idle { v := s.data[i]; } else { s := WithError(s, BUSY); }
    }

    method WriteCommand(c: bv32)
      modifies this
      ensures s == if old(s).phase == Idle then Start(old(s).(command := c), a) else WithError(old(s), BUSY)
    {
      s := if s.phase == Idle then Start(s.(command := c), a) else WithError(s, BUSY);
    }

    method WriteAbstractauto(auto: bool)
      modifies this
      ensures s == if old(s).phase == Idle then old(s).(autoexec := auto) else WithError(old(s), BUSY)
    {
      s := if s.phase == Idle then s.(autoexec := auto) else WithError(s, BUSY);
    }

    /** Reading abstractcs takes a while, in which the hart does some steps. */
    method ReadAbstractcs() returns (busy: bool, cmderr: nat, ghost k: nat)
      requires WellFormed(s, a)
      modifies this
      ensures k > 0 && WellFormed(s, a) && s == Advance(old(s), a, k)
      ensures busy == (s.phase != Idle) && cmderr == s.cmderr
    {
      var n: nat :| n > 0;
      k := n;
      AdvanceSum(s, a, n, 0);
      s := Advance(s, a, n);
      busy, cmderr := s.phase != Idle, s.cmderr;
    }

    method Halt()
      modifies this
      ensures s == old(s).(halted := true)
    {
      s := s.(halted := true);
    }

    method Resume()
      modifies this
      ensures s == old(s).(halted := false)
    {
      s := s.(halted := false);
    }
  }

  /** Writing data0 starts the last command again if autoexec is on. */
  function DataWritten(s: Dm, a: Arch, i: nat, v: word): Dm
    requires i < |s.data|
  {
    if s.phase != Idle then WithError(s, BUSY)
    else if i == 0 && s.autoexec then Start(s.(data := s.data[i := v]), a)
    else s.(data := s.data[i := v])
  }
}
