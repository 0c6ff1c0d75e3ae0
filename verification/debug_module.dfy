/** The debug module of debug_module.cc: its registers as the debugger sees them over the debug module
    interface, and the flags and buffers through which it makes a halted hart execute abstract commands. */
module DebugModule {
  import opened Bits
  import opened FlatMemory
  import opened Words
  import T = DebugTarget

  const DATA0: nat := 0x04
  const DMCONTROL: nat := 0x10
  const DMSTATUS: nat := 0x11
  const HARTINFO: nat := 0x12
  const ABSTRACTCS: nat := 0x16
  const COMMAND: nat := 0x17
  const ABSTRACTAUTO: nat := 0x18
  const PROGBUF0: nat := 0x20

  const NONE: nat := 0
  const BUSY: nat := 1
  const NOT_SUPPORTED: nat := 2
  const EXCEPTION: nat := 3
  const HALT_RESUME: nat := 4

  const HARTS: nat := 1024
  const PROGSIZE: nat := 16
  const DATA_START: nat := 0x380
  const PROGBUF_START: nat := 0x340

  const ROM_HALTED: nat := 0x100
  const ROM_GOING: nat := 0x104
  const ROM_RESUMING: nat := 0x108
  const ROM_EXCEPTION: nat := 0x10c

  /** Bits lo, lo + 1, … of a register, given the powers of two. */
  function Field(v: nat, lo: nat, size: nat): nat
    requires lo > 0 && size > 0
  {
    QuotientNat(v, lo);
    v / lo % size
  }

  function Flag(v: nat, lo: nat): bool
    requires lo > 0
  {
    Field(v, lo, 2) == 1
  }

  datatype Control =
    Control(haltreq: bool, resumereq: bool, hartsel: nat, hartreset: bool, dmactive: bool, ndmreset: bool)

  const CLEARED := Control(false, false, 0, false, false, false)

  /** go[h] and resume[h] are the two bits of the flag byte of hart h; code is what a hart executes before the
      program buffer. */
  datatype Dm = Dm(control: Control, busy: bool, datacount: nat, cmderr: nat, autoProgbuf: nat, autoData: nat,
                   command: word, halted: seq<bool>, resumeack: seq<bool>, go: seq<bool>, resume: seq<bool>,
                   data: seq<byte>, progbuf: seq<byte>, code: seq<bv32>, haltRequest: seq<bool>, resets: seq<nat>)

  predicate Shape(s: Dm) {
    && |s.halted| == |s.resumeack| == |s.go| == |s.resume| == HARTS && s.control.hartsel < HARTS
    && |s.data| == 8 && |s.progbuf| == 64 && |s.code| == 2 && (s.datacount == 0 || s.datacount == 2)
    && |s.resets| == |s.haltRequest| && s.cmderr < 8 && s.autoProgbuf < 0x1_0000 && s.autoData < 0x1000
  }

  // ---------------------------------------------------------------- instructions

  function Imm(offset: bv32): bv32 { (offset & 0xfff) << 20 }
  function LoadCode(wide: bool, rd: bv32, offset: bv32): bv32 {
    Imm(offset) | ((rd & 0x1f) << 7) | (if wide then 0x3003 else 0x2003)
  }
  function StoreCode(wide: bool, src: bv32, offset: bv32): bv32 {
    (((offset >> 5) & 0x7f) << 25) | (src << 20) | ((offset & 0x1f) << 7) | (if wide then 0x3023 else 0x2023)
  }
  const NOP: bv32 := 0x13
  const EBREAK: bv32 := 0x0010_0073

  // ---------------------------------------------------------------- transitions

  function Size(c: word): nat { Field(c, 0x10_0000, 8) }
  function Regno(c: word): nat { Field(c, 1, 0x1_0000) }
  predicate IsWrite(c: word) { Flag(c, 0x1_0000) }
  predicate Transfer(c: word) { Flag(c, 0x2_0000) }
  predicate PostExec(c: word) { Flag(c, 0x4_0000) }

  predicate Supported(c: word) {
    && Field(c, 0x100_0000, 0x100) == 0
    && (Transfer(c) ==> 0x1000 <= Regno(c) < 0x1020 && (Size(c) == 2 || Size(c) == 3))
  }

  /** The first word that a hart executes for a command. */
  function CodeOf(c: word): bv32
    requires Supported(c)
  {
    if !Transfer(c) then NOP
    else
      var r := ((Regno(c) - 0x1000) as bv5) as bv32;
      if IsWrite(c) then LoadCode(Size(c) == 3, r, 0x380) else StoreCode(Size(c) == 3, r, 0x380)
  }

  function Error(s: Dm, e: nat): Dm {
    if s.cmderr == NONE then s.(cmderr := e) else s
  }

  /** Starting the command in the command register. */
  function Performed(s: Dm): (t: Dm)
    requires Shape(s)
    ensures Shape(t) && t == s.(cmderr := t.cmderr, code := t.code, go := t.go, busy := t.busy)
  {
    if s.cmderr != NONE then s
    else if s.busy then s.(cmderr := BUSY)
    else if Field(s.command, 0x100_0000, 0x100) != 0 then s.(cmderr := NOT_SUPPORTED)
    else if !s.halted[s.control.hartsel] then s.(cmderr := HALT_RESUME)
    else if !Supported(s.command) then s.(cmderr := NOT_SUPPORTED)
    else s.(code := [CodeOf(s.command), if PostExec(s.command) then NOP else EBREAK],
            go := s.go[s.control.hartsel := true], busy := true)
  }

  /** Bit i of an autoexec mask. */
  predicate AutoBit(mask: nat, i: nat) {
    Flag(mask, Pow2(i))
  }

  predicate IsData(s: Dm, a: nat) { DATA0 <= a < DATA0 + s.datacount }
  predicate IsProgbuf(a: nat) { PROGBUF0 <= a < PROGBUF0 + PROGSIZE }

  /** The state after the debugger has read a register. */
  function AfterRead(s: Dm, a: nat): (t: Dm)
    requires Shape(s)
    ensures Shape(t)
  {
    if IsData(s, a) then
      var t := if s.busy then Error(s, BUSY) else s;
      if !s.busy && AutoBit(s.autoData, a - DATA0) then Performed(t) else t
    else if IsProgbuf(a) then
      if !s.busy && AutoBit(s.autoProgbuf, a - PROGBUF0) then Performed(s) else s
    else if a == DMCONTROL && s.control.hartsel < |s.haltRequest| then
      s.(control := s.control.(haltreq := s.haltRequest[s.control.hartsel]))
    else s
  }

  function AllFalse(n: nat): (r: seq<bool>)
    ensures |r| == n && forall k :: 0 <= k < n ==> !r[k]
  {
    seq(n, _ => false)
  }

  function AfterReset(s: Dm): Dm {
    s.(control := CLEARED, busy := false, datacount := 2, cmderr := NONE, autoProgbuf := 0, autoData := 0,
       haltRequest := AllFalse(|s.haltRequest|))
  }

  /** The selected hart after dmcontrol has changed. */
  function Requested(s: Dm): (t: Dm)
    requires Shape(s)
    ensures Shape(t)
  {
    var h := s.control.hartsel;
    if h >= |s.haltRequest| then s
    else
      var t := s.(haltRequest := s.haltRequest[h := s.control.haltreq]);
      var u :=
        if s.control.resumereq then t.(resume := t.resume[h := true], resumeack := t.resumeack[h := false]) else t;
      if s.control.ndmreset then u.(resets := u.resets[h := u.resets[h] + 1]) else u
  }

  /** The state after the debugger has written a register. */
  function AfterWrite(s: Dm, a: nat, v: word): (t: Dm)
    requires Shape(s)
    ensures Shape(t)
  {
    if IsData(s, a) then
      var t := if s.busy then Error(s, BUSY) else s.(data := Stored(s.data, 4 * (a - DATA0), BytesOf(v, 4)));
      if !s.busy && AutoBit(s.autoData, a - DATA0) then Performed(t) else t
    else if IsProgbuf(a) then
      var t := if s.busy then s else s.(progbuf := Stored(s.progbuf, 4 * (a - PROGBUF0), BytesOf(v, 4)));
      if !s.busy && AutoBit(s.autoProgbuf, a - PROGBUF0) then Performed(t) else t
    else if a == DMCONTROL then
      var active := Flag(v, 1);
      Requested(if active then
                  s.(control := Control(Flag(v, 0x8000_0000), Flag(v, 0x4000_0000), Field(v, 0x1_0000, 1024),
                                        s.control.hartreset, true, Flag(v, 2)))
                else AfterReset(s))
    else if a == COMMAND then Performed(s.(command := v))
    else if a == ABSTRACTCS then
      AndNotAtMost(s.cmderr, Field(v, 0x100, 8));
      s.(cmderr := AndNot(s.cmderr, Field(v, 0x100, 8)))
    else if a == ABSTRACTAUTO then s.(autoProgbuf := Field(v, 0x1_0000, 0x1_0000), autoData := Field(v, 1, 0x1000))
    else s
  }

  /** The state after a hart has stored bytes at an address of the debug module. Harts tell the module of
      themselves with four-byte stores of their number. */
  function AfterStore(s: Dm, addr: nat, bytes: seq<byte>): (t: Dm)
    requires Shape(s) && (addr in {ROM_HALTED, ROM_RESUMING} ==> |bytes| == 4 && Value(bytes) < HARTS)
    ensures Shape(t)
  {
    if DATA_START <= addr && addr + |bytes| <= DATA_START + 8 then s.(data := Stored(s.data, addr - DATA_START, bytes))
    else if PROGBUF_START <= addr && addr + |bytes| <= PROGBUF_START + 64 then
      s.(progbuf := Stored(s.progbuf, addr - PROGBUF_START, bytes))
    else if addr == ROM_HALTED then Halted(s, Value(bytes))
    else if addr == ROM_GOING then s.(go := s.go[s.control.hartsel := false])
    else if addr == ROM_RESUMING then Resumed(s, Value(bytes))
    else if addr == ROM_EXCEPTION then Error(s, EXCEPTION)
    else s
  }

  /** The stores that the module answers: inside one of its buffers, or to a word of the debug ROM's protocol. */
  predicate Takes(addr: nat, len: nat) {
    || (DATA_START <= addr && addr + len <= DATA_START + 8)
    || (PROGBUF_START <= addr && addr + len <= PROGBUF_START + 64)
    || addr in {ROM_HALTED, ROM_GOING, ROM_RESUMING, ROM_EXCEPTION}
  }

  /** Hart h says that it is halted: that ends a command if the selected hart is not to go any more. */
  function Halted(s: Dm, h: nat): (t: Dm)
    requires Shape(s) && h < HARTS
    ensures Shape(t)
  {
    s.(halted := s.halted[h := true], busy := s.busy && !(h == s.control.hartsel && !s.go[h]))
  }

  function Resumed(s: Dm, h: nat): (t: Dm)
    requires Shape(s) && h < HARTS
    ensures Shape(t)
  {
    s.(halted := s.halted[h := false], resumeack := s.resumeack[h := true], resume := s.resume[h := false])
  }

  function Bit01(b: bool, weight: nat): nat {
    if b then weight else 0
  }

  /** What a read returns, before what it does to the state; -1 for an address that does not answer. */
  function ReadValue(s: Dm, a: nat): int
    requires Shape(s)
  {
    var h := s.control.hartsel;
    var exists_ := h < |s.haltRequest|;
    if IsData(s, a) then (if s.busy then 0xffff_ffff else Value(Fetch(s.data, 4 * (a - DATA0), 4)))
    else if IsProgbuf(a) then (if s.busy then 0xffff_ffff else Value(Fetch(s.progbuf, 4 * (a - PROGBUF0), 4)))
    else if a == DMCONTROL then
      Bit01(if exists_ then s.haltRequest[h] else s.control.haltreq, 0x8000_0000)
      + Bit01(s.control.resumereq, 0x4000_0000) + Bit01(s.control.hartreset, 0x2000_0000) + h * 0x1_0000
      + Bit01(s.control.ndmreset, 2) + Bit01(s.control.dmactive, 1)
    else if a == DMSTATUS then
      2 + 0x80 + (if !exists_ then 0xc000 else (if s.halted[h] then 0x300 else 0xc00) + Bit01(s.resumeack[h], 0x2_0000))
    else if a == ABSTRACTCS then s.datacount + s.cmderr * 0x100 + Bit01(s.busy, 0x1000) + PROGSIZE * 0x100_0000
    else if a == ABSTRACTAUTO then s.autoProgbuf * 0x1_0000 + s.autoData
    else if a == COMMAND then 0
    else if a == HARTINFO then 0x10_0000 + 0x1_0000 + s.datacount * 0x1000 + DATA_START
    else -1
  }

  lemma ReadFits(s: Dm, a: nat)
    requires Shape(s)
    ensures -1 <= ReadValue(s, a) < 0x1_0000_0000
  {
    Pow2Values();
    hide Pow2, Value, Fetch;
    if IsData(s, a) { WordFits(s.data, 4 * (a - DATA0)); }
    if IsProgbuf(a) { WordFits(s.progbuf, 4 * (a - PROGBUF0)); }
  }

  lemma WordFits(m: seq<byte>, o: nat)
    requires o + 4 <= |m|
    ensures Value(Fetch(m, o, 4)) < 0x1_0000_0000
  {
    Pow2Values();
    var b := Fetch(m, o, 4);
    var n := 8 * |b|;
    assert Pow2(n) == 0x1_0000_0000;
    hide *;
    BytesOfValue(b);
  }

  /** The addresses that take a write. */
  predicate Writable(s: Dm, a: nat) {
    IsData(s, a) || IsProgbuf(a) || a in {DMCONTROL, COMMAND, ABSTRACTCS, ABSTRACTAUTO}
  }

  // ---------------------------------------------------------------- the module as a program

  class Module {
    var control: Control
    var busy: bool
    var datacount: nat
    var cmderr: nat
    var autoProgbuf: nat
    var autoData: nat
    var command: word
    var halted: seq<bool>
    var resumeack: seq<bool>
    var go: seq<bool>
    var resume: seq<bool>
    var data: seq<byte>
    var progbuf: seq<byte>
    var code: seq<bv32>
    var haltRequest: seq<bool>
    var resets: seq<nat>

    function State(): Dm
      reads this
    {
      Dm(control, busy, datacount, cmderr, autoProgbuf, autoData, command, halted, resumeack, go, resume, data,
          progbuf, code, haltRequest, resets)
    }

    ghost predicate Valid()
      reads this
    {
      Shape(State())
    }

    constructor (harts: nat)
      ensures Valid() && State() == Initial(harts)
    {
      control, busy, datacount, cmderr := CLEARED, false, 0, NONE;
      autoProgbuf, autoData, command := 0, 0, 0;
      halted, resumeack := AllFalse(HARTS), AllFalse(HARTS);
      go, resume := AllFalse(HARTS), AllFalse(HARTS);
      data, progbuf, code := Zeros(8), Zeros(64), [0, 0];
      haltRequest, resets := AllFalse(harts), seq(harts, _ => 0);
    }

    method Reset()
      modifies this
      ensures State() == AfterReset(old(State()))
    {
      haltRequest := AllFalse(|haltRequest|);
      control := CLEARED;
      ClearAbstract();
      autoProgbuf, autoData := 0, 0;
    }

    /** abstractcs anew. */
    method ClearAbstract()
      modifies this
      ensures State() == old(State()).(busy := false, cmderr := NONE, datacount := 2)
    {
      busy, cmderr, datacount := false, NONE, 2;
    }

    method PerformAbstractCommand()
      requires Valid()
      modifies this
      ensures Valid() && State() == Performed(old(State()))
    {
      hide Field, Flag, LoadCode, StoreCode;
      if cmderr != NONE { return; }
      if busy {
        cmderr := BUSY;
        return;
      }
      if Field(command, 0x100_0000, 0x100) != 0 {
        cmderr := NOT_SUPPORTED;
        return;
      }
      var size, regno := Size(command), Regno(command);
      if !halted[control.hartsel] {
        cmderr := HALT_RESUME;
        return;
      }
      if Transfer(command) {
        if regno < 0x1000 || regno >= 0x1020 {
          cmderr := NOT_SUPPORTED;
          return;
        }
        var r := ((regno - 0x1000) as bv5) as bv32;
        if size == 2 || size == 3 {
          code := code[0 := if IsWrite(command) then LoadCode(size == 3, r, 0x380) else StoreCode(size == 3, r, 0x380)];
        } else {
          cmderr := NOT_SUPPORTED;
          return;
        }
      } else {
        code := code[0 := NOP];
      }
      code := code[1 := if PostExec(command) then NOP else EBREAK];
      assert code == [CodeOf(command), if PostExec(command) then NOP else EBREAK];
      Go();
    }

    method Go()
      requires Valid()
      modifies this
      ensures Valid() && State() == old(State()).(go := old(go)[control.hartsel := true], busy := true)
    {
      go := go[control.hartsel := true];
      busy := true;
    }

    method DmiRead(a: nat) returns (value: int)
      requires Valid()
      modifies this
      ensures Valid() && State() == AfterRead(old(State()), a) && value == ReadValue(old(State()), a) < 0x1_0000_0000
    {
      ReadFits(State(), a);
      hide Performed, Value, Fetch, AutoBit, Field, Flag;
      value := -1;
      var h := control.hartsel;
      if DATA0 <= a < DATA0 + datacount {
        value := Value(Fetch(data, 4 * (a - DATA0), 4));
        if busy { value := 0xffff_ffff; }
        if busy && cmderr == NONE { cmderr := BUSY; }
        if !busy && AutoBit(autoData, a - DATA0) { PerformAbstractCommand(); }
      } else if PROGBUF0 <= a < PROGBUF0 + PROGSIZE {
        value := Value(Fetch(progbuf, 4 * (a - PROGBUF0), 4));
        if busy { value := 0xffff_ffff; }
        if !busy && AutoBit(autoProgbuf, a - PROGBUF0) { PerformAbstractCommand(); }
      } else if a == DMCONTROL {
        if h < |haltRequest| { control := control.(haltreq := haltRequest[h]); }
        value := Bit01(control.haltreq, 0x8000_0000) + Bit01(control.resumereq, 0x4000_0000)
            + Bit01(control.hartreset, 0x2000_0000)
               + h * 0x1_0000 + Bit01(control.ndmreset, 2) + Bit01(control.dmactive, 1);
      } else if a == DMSTATUS {
        var present := h < |haltRequest|;
        var allHalted, allRunning, allResumeack := present && halted[h], present && !halted[h], present && resumeack[h];
        value := Bit01(allResumeack, 0x2_0000) + Bit01(!present, 0x8000) + Bit01(!present, 0x4000)
            + Bit01(allRunning, 0x800)
               + Bit01(allRunning, 0x400) + Bit01(allHalted, 0x200) + Bit01(allHalted, 0x100) + 0x80 + 2;
      } else if a == ABSTRACTCS {
        value := cmderr * 0x100 + Bit01(busy, 0x1000) + datacount + PROGSIZE * 0x100_0000;
      } else if a == ABSTRACTAUTO {
        value := autoProgbuf * 0x1_0000 + autoData;
      } else if a == COMMAND {
        value := 0;
      } else if a == HARTINFO {
        value := 1 * 0x10_0000 + 1 * 0x1_0000 + datacount * 0x1000 + DATA_START;
      }
    }

    method DmiWrite(a: nat, value: word) returns (ok: bool)
      requires Valid()
      modifies this
      ensures Valid() && State() == AfterWrite(old(State()), a, value)
      ensures ok == Writable(old(State()), a)
    {
      hide Performed, BytesOf, Stored, AutoBit, AndNot;
      if DATA0 <= a < DATA0 + datacount {
        if !busy { data := Stored(data, 4 * (a - DATA0), BytesOf(value, 4)); }
        if busy && cmderr == NONE { cmderr := BUSY; }
        if !busy && AutoBit(autoData, a - DATA0) { PerformAbstractCommand(); }
        return true;
      }
      if PROGBUF0 <= a < PROGBUF0 + PROGSIZE {
        if !busy { progbuf := Stored(progbuf, 4 * (a - PROGBUF0), BytesOf(value, 4)); }
        if !busy && AutoBit(autoProgbuf, a - PROGBUF0) { PerformAbstractCommand(); }
        return true;
      }
      if a == DMCONTROL {
        WriteControl(value);
        return true;
      }
      if a == COMMAND {
        command := value;
        PerformAbstractCommand();
        return true;
      }
      if a == ABSTRACTCS {
        AndNotAtMost(cmderr, Field(value, 0x100, 8));
        cmderr := AndNot(cmderr, Field(value, 0x100, 8));
        return true;
      }
      if a == ABSTRACTAUTO {
        autoProgbuf, autoData := Field(value, 0x1_0000, 0x1_0000), Field(value, 1, 0x1000);
        return true;
      }
      return false;
    }

    method WriteControl(value: word)
      requires Valid()
      modifies this
      ensures Valid() && State() == AfterWrite(old(State()), DMCONTROL, value)
    {
      hide Flag, Requested;
      assert Field(value, 0x1_0000, 1024) < 1024;
      hide Field;
      control := control.(dmactive := Flag(value, 1));
      if control.dmactive {
        control := control.(haltreq := Flag(value, 0x8000_0000), resumereq := Flag(value, 0x4000_0000),
                            ndmreset := Flag(value, 2), hartsel := Field(value, 0x1_0000, 1024));
      } else {
        Reset();
      }
      Request();
    }

    /** The second half of a write of dmcontrol, for a selected processor that exists. */
    method Request()
      requires Valid()
      modifies this
      ensures Valid() && State() == Requested(old(State()))
    {
      hide Field, Flag;
      var h := control.hartsel;
      if h < |haltRequest| {
        haltRequest := haltRequest[h := control.haltreq];
        if control.resumereq {
          resume := resume[h := true];
          resumeack := resumeack[h := false];
        }
        if control.ndmreset { resets := resets[h := resets[h] + 1]; }
      }
    }

    method Store(addr: nat, bytes: seq<byte>) returns (ok: bool)
      requires Valid() && (addr in {ROM_HALTED, ROM_RESUMING} ==> |bytes| == 4 && Value(bytes) < HARTS)
      modifies this
      ensures Valid() && State() == AfterStore(old(State()), addr, bytes)
      ensures ok == Takes(addr, |bytes|) && (!ok ==> State() == old(State()))
    {
      hide Value, Stored;
      if DATA_START <= addr && addr + |bytes| <= DATA_START + 8 {
        data := Stored(data, addr - DATA_START, bytes);
        return true;
      }
      if PROGBUF_START <= addr && addr + |bytes| <= PROGBUF_START + 64 {
        progbuf := Stored(progbuf, addr - PROGBUF_START, bytes);
        return true;
      }
      if addr == ROM_HALTED {
        var id := Value(bytes);
        halted := halted[id := true];
        if control.hartsel == id && !go[id] { busy := false; }
        return true;
      }
      if addr == ROM_GOING {
        go := go[control.hartsel := false];
        return true;
      }
      if addr == ROM_RESUMING {
        var id := Value(bytes);
        halted := halted[id := false];
        resumeack := resumeack[id := true];
        resume := resume[id := false];
        return true;
      }
      if addr == ROM_EXCEPTION {
        if cmderr == NONE { cmderr := EXCEPTION; }
        return true;
      }
      return false;
    }
  }

  /** A module that has just been built: it has no data registers until it is reset. */
  function Initial(harts: nat): (s: Dm)
    ensures Shape(s)
  {
    Dm(CLEARED, false, 0, NONE, 0, 0, 0, AllFalse(HARTS), AllFalse(HARTS), AllFalse(HARTS), AllFalse(HARTS),
       Zeros(8), Zeros(64), [0, 0], AllFalse(harts), seq(harts, _ => 0))
  }

  // ---------------------------------------------------------------- what every access keeps

  datatype Event = Read(a: nat) | Write(a: nat, v: word) | HartStore(addr: nat, bytes: seq<byte>)

  predicate Legal(e: Event) {
    e.HartStore? && e.addr in {ROM_HALTED, ROM_RESUMING} ==> |e.bytes| == 4 && Value(e.bytes) < HARTS
  }

  function Next(s: Dm, e: Event): (t: Dm)
    requires Shape(s) && Legal(e)
    ensures Shape(t)
  {
    hide AfterRead, AfterWrite, AfterStore, Shape;
    match e
    case Read(a) => AfterRead(s, a)
    case Write(a, v) => AfterWrite(s, a, v)
    case HartStore(addr, bytes) => AfterStore(s, addr, bytes)
  }

  predicate ResetBy(e: Event) { e.Write? && e.a == DMCONTROL && !Flag(e.v, 1) }
  predicate Clears(e: Event) { e.Write? && e.a == ABSTRACTCS }

  /** An error stays until the debugger clears some of its bits or resets the module. */
  lemma ErrorStays(s: Dm, e: Event)
    requires Shape(s) && Legal(e) && s.cmderr != NONE
    ensures Next(s, e).cmderr ==
            if Clears(e) then AndNot(s.cmderr, Field(e.v, 0x100, 8)) else if ResetBy(e) then NONE else s.cmderr
  {
    hide AutoBit, Value, Stored, BytesOf, AndNot, CodeOf, Supported, Field;
  }

  /** A command starts only for the debugger, without an error, on a selected hart that is halted; and then
      that hart is told to go. */
  lemma BusyRises(s: Dm, e: Event)
    requires Shape(s) && Legal(e) && !s.busy && Next(s, e).busy
    ensures var t := Next(s, e); var h := s.control.hartsel;
            && !e.HartStore? && s.cmderr == NONE == t.cmderr && s.halted[h]
            && t == s.(command := t.command, data := t.data, progbuf := t.progbuf,
                       go := s.go[h := true], code := t.code, busy := true)
            && Supported(t.command) && t.code == [CodeOf(t.command), if PostExec(t.command) then NOP else EBREAK]
  {
    hide AutoBit, Value, Stored, BytesOf, AndNot, CodeOf, Supported, Field, PostExec;
  }

  /** A command ends only when the selected hart, not to go any more, says that it is halted, or by a reset. */
  lemma BusyFalls(s: Dm, e: Event)
    requires Shape(s) && Legal(e) && s.busy
    ensures !Next(s, e).busy <==>
              ResetBy(e) || (e.HartStore? && e.addr == ROM_HALTED && Value(e.bytes) == s.control.hartsel
                  && !s.go[s.control.hartsel])
  {
    hide AutoBit, Value, Stored, BytesOf, AndNot, CodeOf, Supported, Field;
  }

  /** While a command is executing, nothing that the debugger does changes the data, the program or the code. */
  lemma BusyKeepsBuffers(s: Dm, e: Event)
    requires Shape(s) && Legal(e) && s.busy && !e.HartStore?
    ensures var t := Next(s, e); t.data == s.data && t.progbuf == s.progbuf && t.code == s.code
  {
    hide AutoBit, Value, Stored, BytesOf, AndNot, CodeOf, Supported, Field;
  }

  /** The module has no data registers until its first reset, and two from then on. */
  lemma DataRegistersByReset(s: Dm, e: Event)
    requires Shape(s) && Legal(e)
    ensures Next(s, e).datacount == if ResetBy(e) then 2 else s.datacount
  {
    hide AutoBit, Value, Stored, BytesOf, AndNot, CodeOf, Supported, Field;
  }

  /** The first word of the code is the transfer: the data area is at address 0x380. */
  lemma CodeTransfers(c: word)
    requires Supported(c) && Transfer(c)
    ensures var xlen := if Size(c) == 3 then 64 else 32;
            var r := ((Regno(c) - 0x1000) as bv5) as bv32;
            T.Decode(CodeOf(c), xlen) ==
            if IsWrite(c) then T.Load(r as nat, 0, DATA_START) else T.Store(r as nat, 0, DATA_START)
    ensures T.Decode(NOP, 32) == T.Decode(NOP, 64) == T.Addi(0, 0, 0)
    ensures T.Decode(EBREAK, 32) == T.Decode(EBREAK, 64) == T.Ebreak
  {
    var r := ((Regno(c) - 0x1000) as bv5) as bv32;
    var w := CodeOf(c);
    assert w == if IsWrite(c) then LoadCode(Size(c) == 3, r, 0x380) else StoreCode(Size(c) == 3, r, 0x380);
    hide CodeOf, Size, Regno, Field, Flag;
    CodeFields(true, r);
    CodeFields(false, r);
    assert T.Signed(0x380, 0x800) == 0x380;
    hide LoadCode, StoreCode, T.Rd, T.Rs1, T.Rs2, T.ImmI, T.ImmS, T.Signed;
  }

  lemma CodeFields(wide: bool, r: bv32)
    requires r < 32
    ensures var w := LoadCode(wide, r, 0x380);
            w & 0x707f == (if wide then 0x3003 else 0x2003) && T.Rd(w) == r && T.Rs1(w) == 0 && T.ImmI(w) == 0x380
    ensures var w := StoreCode(wide, r, 0x380);
            w & 0x707f == (if wide then 0x3023 else 0x2023) && T.Rs2(w) == r && T.Rs1(w) == 0 && T.ImmS(w) == 0x380
  {}

  // ---------------------------------------------------------------- the module and its harts

  /** Where a hart is: outside the debug ROM, at one of the steps of its loop, executing a command, or on its way
      back from a trap, taken by the command or by an interrupt at another step. */
  datatype Phase = Out | Entry | LookGo | LookResume | ToGo | Executing | Trapped | ToResume | Startled

  /** The module with its harts, how many commands have been accepted and how many have been executed. */
  datatype System = System(dm: Dm, harts: seq<Phase>, accepted: nat, executed: nat)

  /** What happens next: the debugger accesses a register; or a hart goes on, where the outcome of its next
      instruction is left open: it goes on or ends, takes a trap, or stores to the module. */
  datatype Move = Debugger(e: Event) | Hart(h: nat, outcome: Outcome)
  datatype Outcome = Ends | Traps | Stores(addr: nat, bytes: seq<byte>)

  predicate MoveLegal(y: System, m: Move) {
    match m
    case Debugger(e) => !e.HartStore?
    case Hart(h, outcome) => h < |y.harts| && (outcome.Stores? ==> ROM_EXCEPTION < outcome.addr)
  }

  predicate WellFormed(y: System) {
    Shape(y.dm) && |y.harts| <= HARTS
  }

  /** One move: the loop of the debug ROM, instruction by instruction. */
  function Moved(y: System, m: Move): (z: System)
    requires WellFormed(y) && MoveLegal(y, m)
    ensures WellFormed(z)
  {
    match m
    case Debugger(e) =>
      var dm := Next(y.dm, e);
      System(dm, Restarted(y.harts, e), y.accepted + if !y.dm.busy && dm.busy then 1 else 0, y.executed)
    case Hart(h, outcome) =>
      if outcome.Traps? && InRom(y.harts[h]) then y.(harts := y.harts[h := Startled])
      else match y.harts[h]
      case Out =>
        (match outcome
         case Stores(addr, bytes) => y.(dm := AfterStore(y.dm, addr, bytes))
         case _ => y.(harts := y.harts[h := Entry]))
      case Entry => System(Halted(y.dm, h), y.harts[h := LookGo], y.accepted, y.executed)
      case LookGo => y.(harts := y.harts[h := if y.dm.go[h] then ToGo else LookResume])
      case LookResume => y.(harts := y.harts[h := if y.dm.resume[h] then ToResume else Entry])
      case ToGo => System(AfterStore(y.dm, ROM_GOING, []), y.harts[h := Executing], y.accepted, y.executed)
      case Executing =>
        (match outcome
         case Stores(addr, bytes) => y.(dm := AfterStore(y.dm, addr, bytes))
         case Ends => y.(harts := y.harts[h := Entry], executed := y.executed + 1)
         case Traps => y.(harts := y.harts[h := Trapped]))
      case Trapped => System(AfterStore(y.dm, ROM_EXCEPTION, []), y.harts[h := Entry], y.accepted, y.executed + 1)
      case ToResume => System(Resumed(y.dm, h), y.harts[h := Out], y.accepted, y.executed)
      case Startled => System(AfterStore(y.dm, ROM_EXCEPTION, []), y.harts[h := Entry], y.accepted, y.executed)
  }

  /** The steps at which a trap is none of a command. */
  predicate InRom(p: Phase) { p != Out && p != Executing && p != Trapped }

  /** A write of dmcontrol with ndmreset set resets the processor that it selects: it leaves whatever it was at. */
  predicate Restarts(e: Event) { e.Write? && e.a == DMCONTROL && Flag(e.v, 1) && Flag(e.v, 2) }

  function Restarted(harts: seq<Phase>, e: Event): (r: seq<Phase>)
    ensures |r| == |harts|
  {
    if Restarts(e) && Field(e.v, 0x1_0000, 1024) < |harts| then harts[Field(e.v, 0x1_0000, 1024) := Out] else harts
  }

  /** The module calls the reset of the processors that exist at exactly those writes. */
  lemma RestartsCounted(s: Dm, e: Event, h: nat)
    requires Shape(s) && Legal(e) && h < |s.haltRequest|
    ensures var t := Next(s, e);
            && |t.haltRequest| == |s.haltRequest|
            && t.resets[h] == s.resets[h] + if Restarts(e) && Field(e.v, 0x1_0000, 1024) == h then 1 else 0
  {
    hide Performed, AutoBit, Value, Stored, BytesOf, AndNot, CodeOf, Supported, Field;
  }

  predicate Runs(p: Phase) { p == ToGo || p == Executing || p == Trapped }

  /** Every hart but one is neither told to go nor executing. */
  ghost predicate OthersIdle(y: System, except: int)
    requires WellFormed(y)
  {
    forall h :: 0 <= h < HARTS && h != except ==> !y.dm.go[h] && (h < |y.harts| ==> !Runs(y.harts[h]))
  }

  /** A command that has been accepted is about to be executed, or being executed, or has been executed. */
  ghost predicate Inv(y: System)
    requires WellFormed(y)
  {
    var s := y.dm.control.hartsel;
    && (forall h :: |y.harts| <= h < HARTS ==> !y.dm.halted[h])
    && if !y.dm.busy then
         OthersIdle(y, -1) && y.executed == y.accepted
       else
         && OthersIdle(y, s)
         && if s >= |y.harts| then !y.dm.go[s] && y.executed == y.accepted
            else if y.dm.go[s] then y.harts[s] != Executing && y.harts[s] != Trapped && y.executed + 1 == y.accepted
            else if y.harts[s] == Executing || y.harts[s] == Trapped then y.executed + 1 == y.accepted
            else y.harts[s] != ToGo && y.executed == y.accepted
  }

  /** A write of dmcontrol that keeps the module active and the same hart selected. */
  predicate SameHart(s: Dm, v: word) {
    Flag(v, 1) && Field(v, 0x1_0000, 1024) == s.control.hartsel
  }

  /** The selected hart is in the middle of a command. */
  predicate Underway(y: System) {
    var s := y.dm.control.hartsel;
    s < |y.harts| && (y.harts[s] == Executing || y.harts[s] == Trapped)
  }

  /** A write of dmcontrol that leaves an outstanding command alone: the same hart stays selected, and is not
      reset in the middle of it. */
  predicate Harmless(y: System, v: word) {
    SameHart(y.dm, v) && !(Flag(v, 2) && Underway(y))
  }

  /** While a command is busy the debugger writes dmcontrol only so (section 3.6.1 of RISC-V External Debug
      Support 0.13.2 asks it not to select another hart), or when the command has already been executed. */
  predicate Careful(y: System, m: Move) {
    m.Debugger? && m.e.Write? && m.e.a == DMCONTROL && y.dm.busy ==> Harmless(y, m.e.v) || y.executed == y.accepted
  }

  lemma DebuggerEffects(s: Dm, e: Event)
    requires Shape(s) && Legal(e) && !e.HartStore?
    ensures var t := Next(s, e); var control := e.Write? && e.a == DMCONTROL;
            && t.halted == s.halted && (t.busy == s.busy ==> t.go == s.go)
            && (!control ==> t.control.hartsel == s.control.hartsel && (s.busy ==> t.busy))
            && (control && !s.busy ==> !t.busy)
            && (control ==> t.busy == (s.busy && Flag(e.v, 1)) &&
                            t.control.hartsel == if Flag(e.v, 1) then Field(e.v, 0x1_0000, 1024) else 0)
            && (!s.busy && t.busy ==> s.halted[s.control.hartsel] && t.go == s.go[s.control.hartsel := true])
  {
    hide AutoBit, Value, Stored, BytesOf, AndNot, CodeOf, Supported, Field;
  }

  lemma DebuggerInv(y: System, e: Event)
    requires WellFormed(y) && Inv(y) && MoveLegal(y, Debugger(e)) && Careful(y, Debugger(e))
    ensures Inv(Moved(y, Debugger(e)))
  {
    DebuggerEffects(y.dm, e);
    hide Next, Flag, Field;
  }

  lemma StoreEffects(s: Dm, addr: nat, bytes: seq<byte>)
    requires Shape(s) && addr != ROM_HALTED && addr != ROM_RESUMING
    ensures var t := AfterStore(s, addr, bytes);
            && t.halted == s.halted && t.busy == s.busy && t.control == s.control
            && t.code == s.code && (addr == ROM_EXCEPTION || t.cmderr == s.cmderr)
            && (s.cmderr != NONE ==> t.cmderr == s.cmderr)
    ensures addr == ROM_GOING && bytes == [] ==>
        AfterStore(s, addr, bytes) == s.(go := s.go[s.control.hartsel := false])
    ensures addr == ROM_EXCEPTION && bytes == [] ==> AfterStore(s, addr, bytes) == Error(s, EXCEPTION)
    ensures addr > ROM_EXCEPTION ==> AfterStore(s, addr, bytes).go == s.go
  {
    hide Stored;
  }

  /** Where a move of a hart leads it. */
  function Stepped(y: System, h: nat, outcome: Outcome): Phase
    requires WellFormed(y) && MoveLegal(y, Hart(h, outcome))
  {
    if outcome.Traps? && InRom(y.harts[h]) then Startled
    else match y.harts[h]
    case Out => if outcome.Stores? then Out else Entry
    case Entry => LookGo
    case LookGo => if y.dm.go[h] then ToGo else LookResume
    case LookResume => if y.dm.resume[h] then ToResume else Entry
    case ToGo => Executing
    case Executing => if outcome.Stores? then Executing else if outcome.Traps? then Trapped else Entry
    case Trapped => Entry
    case ToResume => Out
    case Startled => Entry
  }

  /** What a move of a hart does to the fields that decide on commands. */
  lemma HartEffects(y: System, h: nat, outcome: Outcome)
    requires WellFormed(y) && MoveLegal(y, Hart(h, outcome))
    ensures var z, p, s := Moved(y, Hart(h, outcome)), y.harts[h], y.dm.control.hartsel;
            var calm := !(outcome.Traps? && InRom(p));
            && z.harts == y.harts[h := Stepped(y, h, outcome)] && z.dm.control == y.dm.control
            && z.accepted == y.accepted
            && z.executed == y.executed + (if p == Trapped || (p == Executing && outcome.Ends?) then 1 else 0)
            && z.dm.go == (if p == ToGo && calm then y.dm.go[s := false] else y.dm.go)
            && z.dm.busy == (y.dm.busy && !(p == Entry && calm && h == s && !y.dm.go[s]))
            && forall k :: 0 <= k < HARTS && k != h ==> z.dm.halted[k] == y.dm.halted[k]
  {
    StoreEffects(y.dm, ROM_GOING, []);
    StoreEffects(y.dm, ROM_EXCEPTION, []);
    if outcome.Stores? { StoreEffects(y.dm, outcome.addr, outcome.bytes); }
    hide AfterStore, Shape;
  }

  lemma HartInv(y: System, h: nat, outcome: Outcome)
    requires WellFormed(y) && Inv(y) && MoveLegal(y, Hart(h, outcome))
    ensures Inv(Moved(y, Hart(h, outcome)))
  {
    HartEffects(y, h, outcome);
    hide Moved, Shape;
  }

  // ---------------------------------------------------------------- whole runs

  predicate Starting(y: System) {
    && WellFormed(y) && y.dm == Initial(|y.harts|) && y.accepted == y.executed == 0
    && forall h :: 0 <= h < |y.harts| ==> y.harts[h] == Out
  }

  ghost predicate Run(ys: seq<System>, ms: seq<Move>) {
    && |ys| == |ms| + 1
    && (forall i :: 0 <= i < |ys| ==> WellFormed(ys[i]))
    && (forall i :: 0 <= i < |ms| ==> MoveLegal(ys[i], ms[i]) && ys[i + 1] == Moved(ys[i], ms[i]))
  }

  /** No command has been executed twice, and those that the module is done with have been executed. */
  predicate Safe(y: System) {
    y.executed <= y.accepted <= y.executed + 1 && (!y.dm.busy ==> y.executed == y.accepted)
  }

  /** With a careful debugger every accepted command is executed exactly once: never twice, and before the
      module stops being busy. */
  lemma {:induction false} ExecutedOnce(ys: seq<System>, ms: seq<Move>, i: nat)
    requires Run(ys, ms) && Starting(ys[0]) && i <= |ms|
    requires forall k :: 0 <= k < |ms| ==> Careful(ys[k], ms[k])
    ensures Inv(ys[i]) && Safe(ys[i])
  {
    if i > 0 {
      ExecutedOnce(ys, ms, i - 1);
      hide Moved, Inv;
      match ms[i - 1]
      case Debugger(e) => DebuggerInv(ys[i - 1], e);
      case Hart(h, outcome) => HartInv(ys[i - 1], h, outcome);
    }
    assert Inv(ys[i]);
  }

  lemma MoveKeeps(y: System, m: Move)
    requires WellFormed(y) && MoveLegal(y, m)
    ensures var t := Moved(y, m).dm;
            && (y.dm.busy && !(m.Hart? && m.outcome.Stores?) ==>
                t.data == y.dm.data && t.progbuf == y.dm.progbuf && t.code == y.dm.code)
            && (y.dm.cmderr != NONE && !(m.Debugger? && (Clears(m.e) || ResetBy(m.e))) ==> t.cmderr == y.dm.cmderr)
  {
    match m
    case Debugger(e) =>
      if y.dm.busy { BusyKeepsBuffers(y.dm, e); }
      if y.dm.cmderr != NONE { ErrorStays(y.dm, e); }
    case Hart(h, outcome) =>
      StoreEffects(y.dm, ROM_GOING, []);
      StoreEffects(y.dm, ROM_EXCEPTION, []);
      if outcome.Stores? { StoreEffects(y.dm, outcome.addr, outcome.bytes); }
      hide AfterStore;
  }

  /** As long as the module is busy, what a hart executes and works on is changed by its own stores alone. */
  lemma {:induction false} BuffersHeld(ys: seq<System>, ms: seq<Move>, i: nat, j: nat)
    requires Run(ys, ms) && i <= j <= |ms|
    requires forall k :: i <= k < j ==> ys[k].dm.busy && !(ms[k].Hart? && ms[k].outcome.Stores?)
    ensures ys[j].dm.data == ys[i].dm.data && ys[j].dm.progbuf == ys[i].dm.progbuf && ys[j].dm.code == ys[i].dm.code
  {
    hide Moved, WellFormed, MoveLegal;
    if i < j {
      BuffersHeld(ys, ms, i, j - 1);
      MoveKeeps(ys[j - 1], ms[j - 1]);
    }
  }

  /** An error stays, whatever happens, until the debugger clears it or resets the module. */
  lemma {:induction false} ErrorHeld(ys: seq<System>, ms: seq<Move>, i: nat, j: nat)
    requires Run(ys, ms) && i <= j <= |ms| && ys[i].dm.cmderr != NONE
    requires forall k :: i <= k < j ==> !(ms[k].Debugger? && (Clears(ms[k].e) || ResetBy(ms[k].e)))
    ensures ys[j].dm.cmderr == ys[i].dm.cmderr
  {
    hide Moved, WellFormed, MoveLegal;
    if i < j {
      ErrorHeld(ys, ms, i, j - 1);
      MoveKeeps(ys[j - 1], ms[j - 1]);
    }
  }

  // ---------------------------------------------------------------- how much care it takes

  /** A run in which only harts move. */
  ghost predicate HartRun(ys: seq<System>, ms: seq<Move>) {
    Run(ys, ms) && forall i :: 0 <= i < |ms| ==> ms[i].Hart?
  }

  /** Writing dmcontrol while busy keeps the invariant exactly for a careful debugger. */
  lemma ControlInvIff(y: System, v: word)
    requires WellFormed(y) && Inv(y)
    ensures var z := Moved(y, Debugger(Write(DMCONTROL, v)));
            Inv(z) <==> !y.dm.busy || Harmless(y, v) || y.executed == y.accepted
  {
    var e := Write(DMCONTROL, v);
    DebuggerEffects(y.dm, e);
    hide Next, Flag, Field;
    if !y.dm.busy || Harmless(y, v) || y.executed == y.accepted { DebuggerInv(y, e); }
  }

  /** A busy module whose debugger writes dmcontrol stays safe, whatever its harts do from then on, exactly if
      the debugger is careful, or selects a hart that does not exist after the command has been taken up. */
  lemma ControlSafeIff(y: System, v: word)
    requires WellFormed(y) && Inv(y) && y.dm.busy
    ensures var z := Moved(y, Debugger(Write(DMCONTROL, v)));
            (forall ys, ms | HartRun(ys, ms) && ys[0] == z :: Safe(ys[|ms|])) <==>
            Harmless(y, v) || y.executed == y.accepted
            || (Flag(v, 1) && Field(v, 0x1_0000, 1024) >= |y.harts| && !y.dm.go[y.dm.control.hartsel])
  {
    var m := Debugger(Write(DMCONTROL, v));
    var z := Moved(y, m);
    ControlInvIff(y, v);
    ControlLeads(y, v);
    hide Moved, Inv, Harmless, Flag, Field, Next, HartRun;
    if Inv(z) {
      forall ys, ms | HartRun(ys, ms) && ys[0] == z ensures Safe(ys[|ms|]) { HartRunInv(ys, ms, |ms|); }
    } else if Detached(z) {
      forall ys, ms | HartRun(ys, ms) && ys[0] == z ensures Safe(ys[|ms|]) { HartRunDetached(ys, ms, |ms|); }
    } else {
      var ys, ms := UnsafeRun(y, z, v);
      assert HartRun(ys, ms) && ys[0] == z && !Safe(ys[|ms|]);
    }
  }

  /** No existing hart is selected, none is told to go, and at most one is executing. */
  ghost predicate Detached(y: System) {
    && WellFormed(y) && y.dm.busy && y.dm.control.hartsel >= |y.harts|
    && (forall h :: 0 <= h < HARTS ==> !y.dm.go[h])
    && exists s :: 0 <= s < |y.harts| && OneAtMost(y, s)
  }

  ghost predicate OneAtMost(y: System, s: nat)
    requires s < |y.harts|
  {
    && (forall h :: 0 <= h < |y.harts| && h != s ==> !Runs(y.harts[h]))
    && y.harts[s] != ToGo && y.accepted == y.executed + if Runs(y.harts[s]) then 1 else 0
  }

  lemma ControlLeads(y: System, v: word)
    requires WellFormed(y) && Inv(y) && y.dm.busy
    ensures var z := Moved(y, Debugger(Write(DMCONTROL, v))); var s := y.dm.control.hartsel;
            && z.harts == Restarted(y.harts, Write(DMCONTROL, v)) && z.dm.go == y.dm.go
            && z.accepted == y.accepted && z.executed == y.executed
            && z.dm.busy == Flag(v, 1) && (z.dm.busy ==> z.dm.control.hartsel == Field(v, 0x1_0000, 1024))
            && (Flag(v, 1) && Field(v, 0x1_0000, 1024) >= |y.harts| && y.executed != y.accepted && !y.dm.go[s] ==>
                Detached(z))
            && (Detached(z) ==> Flag(v, 1) && Field(v, 0x1_0000, 1024) >= |y.harts| && !y.dm.go[s])
  {
    var z := Moved(y, Debugger(Write(DMCONTROL, v)));
    DebuggerEffects(y.dm, Write(DMCONTROL, v));
    hide Next, Flag, Field, Shape;
    var s := y.dm.control.hartsel;
    if Field(v, 0x1_0000, 1024) >= |y.harts| && y.executed != y.accepted && !y.dm.go[s] { assert OneAtMost(z, s); }
  }

  lemma {:induction false} HartRunInv(ys: seq<System>, ms: seq<Move>, i: nat)
    requires HartRun(ys, ms) && Inv(ys[0]) && i <= |ms|
    ensures Inv(ys[i]) && Safe(ys[i])
  {
    if i > 0 {
      HartRunInv(ys, ms, i - 1);
      hide Moved, Inv;
      HartInv(ys[i - 1], ms[i - 1].h, ms[i - 1].outcome);
    }
    assert Inv(ys[i]);
  }

  lemma {:induction false} HartRunDetached(ys: seq<System>, ms: seq<Move>, i: nat)
    requires HartRun(ys, ms) && Detached(ys[0]) && i <= |ms|
    ensures Detached(ys[i]) && Safe(ys[i])
  {
    if i > 0 {
      HartRunDetached(ys, ms, i - 1);
      hide Moved, Detached;
      StaysDetached(ys[i - 1], ms[i - 1].h, ms[i - 1].outcome);
    }
    assert Detached(ys[i]);
  }

  lemma StaysDetached(y: System, h: nat, outcome: Outcome)
    requires Detached(y) && MoveLegal(y, Hart(h, outcome))
    ensures Detached(Moved(y, Hart(h, outcome)))
  {
    HartEffects(y, h, outcome);
    hide Moved, Shape;
    var s :| 0 <= s < |y.harts| && OneAtMost(y, s);
    assert OneAtMost(Moved(y, Hart(h, outcome)), s);
  }

  /** Every other write leads to trouble: to a command that is called done while it is not, or runs twice. */
  lemma UnsafeRun(y: System, z: System, v: word) returns (ys: seq<System>, ms: seq<Move>)
    requires WellFormed(y) && Inv(y) && y.dm.busy
    requires z == Moved(y, Debugger(Write(DMCONTROL, v))) && !Inv(z) && !Detached(z)
    ensures HartRun(ys, ms) && ys[0] == z && !Safe(ys[|ms|])
  {
    ControlInvIff(y, v);
    ControlLeads(y, v);
    hide Moved, Flag, Field, Detached, Next;
    var s := y.dm.control.hartsel;
    if !z.dm.busy {
      ys, ms := [z], [];
    } else if y.dm.go[s] {
      ys, ms := RunsTwice(z, s);
    } else {
      ys, ms := ReportsEarly(z, z.dm.control.hartsel);
    }
  }

  lemma Longer(y: System, m: Move, ys: seq<System>, ms: seq<Move>)
    requires WellFormed(y) && MoveLegal(y, m) && Run(ys, ms) && ys[0] == Moved(y, m)
    ensures Run([y] + ys, [m] + ms) && (m.Hart? && HartRun(ys, ms) ==> HartRun([y] + ys, [m] + ms))
    ensures ([y] + ys)[|[m] + ms|] == ys[|ms|]
  {
    hide Moved;
    var zs, ns := [y] + ys, [m] + ms;
    forall i | 0 <= i < |ns| ensures MoveLegal(zs[i], ns[i]) && zs[i + 1] == Moved(zs[i], ns[i]) {
      if i > 0 { assert zs[i] == ys[i - 1] && ns[i] == ms[i - 1]; }
    }
  }

  /** How far a hart that is told to go is from ending a command. */
  function ToEnd(p: Phase): nat {
    match p
    case Executing => 0 case Trapped => 0 case ToGo => 1 case LookGo => 2 case Entry => 3
    case Out => 4 case Startled => 4 case ToResume => 5 case LookResume => 6
  }

  /** A hart that is told to go while another is selected, and so is told to go for ever. */
  predicate Stuck(y: System, h: nat) {
    WellFormed(y) && h < |y.harts| && y.dm.go[h] && y.dm.control.hartsel != h
  }

  lemma StepStuck(y: System, h: nat)
    requires Stuck(y, h)
    ensures var z := Moved(y, Hart(h, Ends)); var p := y.harts[h];
            && Stuck(z, h) && z.accepted == y.accepted
            && (if p == Executing || p == Trapped then z.executed == y.executed + 1
                else z.executed == y.executed && ToEnd(z.harts[h]) < ToEnd(p))
  {
    HartEffects(y, h, Ends);
    hide Moved, Shape;
  }

  /** Such a hart executes the code over and over. */
  lemma {:induction false} RunsAgain(y: System, h: nat, n: nat) returns (ys: seq<System>, ms: seq<Move>)
    requires Stuck(y, h)
    ensures HartRun(ys, ms) && ys[0] == y && ys[|ms|].executed == y.executed + n && ys[|ms|].accepted == y.accepted
    decreases n, ToEnd(y.harts[h])
  {
    if n == 0 {
      ys, ms := [y], [];
    } else {
      StepStuck(y, h);
      hide Moved;
      var m := Hart(h, Ends);
      var z := Moved(y, m);
      var zs, ns := RunsAgain(z, h, n - (z.executed - y.executed));
      Longer(y, m, zs, ns);
      ys, ms := [y] + zs, [m] + ns;
    }
  }

  lemma RunsTwice(y: System, h: nat) returns (ys: seq<System>, ms: seq<Move>)
    requires Stuck(y, h) && y.accepted == y.executed + 1
    ensures HartRun(ys, ms) && ys[0] == y && !Safe(ys[|ms|])
    ensures ys[|ms|].accepted == y.accepted && ys[|ms|].executed == y.executed + 2
  {
    ys, ms := RunsAgain(y, h, 2);
  }

  /** How far a hart that is not told to go is from reporting that it is halted. */
  function ToReport(p: Phase): nat {
    match p
    case Entry => 0 case Out => 1 case Startled => 1 case ToResume => 2 case LookResume => 3 case LookGo => 4
    case _ => 5
  }

  /** A hart selected while another one executes the command ends it too early. */
  lemma {:induction false} ReportsEarly(y: System, h: nat) returns (ys: seq<System>, ms: seq<Move>)
    requires WellFormed(y) && h == y.dm.control.hartsel < |y.harts| && y.dm.busy && !y.dm.go[h] && !Runs(y.harts[h])
    requires y.accepted == y.executed + 1
    ensures HartRun(ys, ms) && ys[0] == y && !Safe(ys[|ms|])
    decreases ToReport(y.harts[h])
  {
    var m := Hart(h, Ends);
    var z := Moved(y, m);
    assert z.accepted == y.accepted && z.executed == y.executed;
    if y.harts[h] == Entry {
      assert !z.dm.busy;
      hide Moved;
      assert Run([z], []);
      Longer(y, m, [z], []);
      ys, ms := [y, z], [m];
    } else {
      var zs, ns := ReportsEarly(z, h);
      hide Moved;
      Longer(y, m, zs, ns);
      ys, ms := [y] + zs, [m] + ns;
    }
  }

  /** The run of the careless debugger, from a new module with two harts: hart 0 reports, a command starts, and
      hart 1 is selected while hart 0 is told to go. */
  lemma CarelessRunsTwice() returns (ys: seq<System>, ms: seq<Move>)
    ensures Run(ys, ms) && Starting(ys[0]) && |ys[0].harts| == 2
    ensures ys[|ms|].accepted == 1 && ys[|ms|].executed == 2
    ensures |ms| > 3 && forall k :: 0 <= k < |ms| && k != 3 ==> Careful(ys[k], ms[k])
  {
    hide *;
    var step, start, select := Hart(0, Ends), Debugger(Write(COMMAND, 0)), Debugger(Write(DMCONTROL, 0x1_0001));
    var ys0 := CarelessStart(step, start, select);
    var zs, ns := RunsTwice(Moved(ys0[3], select), 0);
    ys, ms := Joined(ys0, [step, step, start, select], zs, ns);
  }

  /** Another one: with one hart, which is reset in the middle of the command, so that the module takes the
      command for done when the hart reports again. */
  lemma ResetAbandons() returns (ys: seq<System>, ms: seq<Move>)
    ensures Run(ys, ms) && Starting(ys[0]) && |ys[0].harts| == 1
    ensures !Safe(ys[|ms|]) && |ms| > 5 && ms[5] == Debugger(Write(DMCONTROL, 3)) && SameHart(ys[5].dm, 3)
    ensures forall k :: 0 <= k < |ms| && k != 5 ==> Careful(ys[k], ms[k])
  {
    hide *;
    var step, start, restart := Hart(0, Ends), Debugger(Write(COMMAND, 0)), Debugger(Write(DMCONTROL, 3));
    var ys0 := ResetStart(step, start, restart);
    var zs, ns := ReportsEarly(Moved(ys0[5], restart), 0);
    ys, ms := Joined(ys0, [step, step, start, step, step, restart], zs, ns);
  }

  /** A careful start, one more move, and a run of the harts. */
  lemma Joined(ys: seq<System>, ms: seq<Move>, zs: seq<System>, ns: seq<Move>)
      returns (ys': seq<System>, ms': seq<Move>)
    requires |ys| == |ms| > 0 && (forall i :: 0 <= i < |ys| ==> WellFormed(ys[i]) && MoveLegal(ys[i], ms[i]))
    requires forall i :: 0 <= i < |ys| - 1 ==> ys[i + 1] == Moved(ys[i], ms[i]) && Careful(ys[i], ms[i])
    requires HartRun(zs, ns) && zs[0] == Moved(ys[|ys| - 1], ms[|ms| - 1])
    ensures ys' == ys + zs && ms' == ms + ns && Run(ys', ms') && ys'[|ms'|] == zs[|ns|]
    ensures forall k :: 0 <= k < |ms'| && k != |ms| - 1 ==> Careful(ys'[k], ms'[k])
  {
    hide Moved, WellFormed, MoveLegal;
    ys', ms' := ys + zs, ms + ns;
    forall i | 0 <= i < |ms'| ensures MoveLegal(ys'[i], ms'[i]) && ys'[i + 1] == Moved(ys'[i], ms'[i]) {
      if i >= |ms| {
        var k := i - |ms|;
        assert ys'[i] == zs[k] && ms'[i] == ns[k] && ys'[i + 1] == zs[k + 1];
      }
    }
    forall k | 0 <= k < |ms'| && k != |ms| - 1 ensures Careful(ys'[k], ms'[k]) {
      if k >= |ms| { assert ms'[k] == ns[k - |ms|]; }
    }
  }

  function NewSystem(n: nat): (y: System)
    requires n <= HARTS
    ensures Starting(y) && |y.harts| == n
  {
    System(Initial(n), seq(n, _ => Out), 0, 0)
  }

  /** Hart 0 of a new module reports that it is halted. */
  lemma HaltsFirst(y: System)
    requires Starting(y) && y.harts != []
    ensures var z := Moved(y, Hart(0, Ends)); var u := Moved(z, Hart(0, Ends));
            && |z.harts| == |y.harts| && u == System(Halted(y.dm, 0), y.harts[0 := LookGo], 0, 0)
            && y.dm == Initial(|y.harts|) && !y.dm.busy && !z.dm.busy && !u.dm.busy
  {
    hide Shape;
  }

  /** The first moves of that run, up to the change of hart. */
  lemma CarelessStart(step: Move, start: Move, select: Move) returns (ys: seq<System>)
    requires step == Hart(0, Ends) && start == Debugger(Write(COMMAND, 0))
    requires select == Debugger(Write(DMCONTROL, 0x1_0001))
    ensures |ys| == 4 && Starting(ys[0]) && |ys[0].harts| == 2
    ensures var ms := [step, step, start, select];
            && (forall i :: 0 <= i < 4 ==> WellFormed(ys[i]) && MoveLegal(ys[i], ms[i]))
            && (forall i :: 0 <= i < 3 ==> ys[i + 1] == Moved(ys[i], ms[i]) && Careful(ys[i], ms[i]))
    ensures var y4 := Moved(ys[3], select); Stuck(y4, 0) && y4.accepted == 1 && y4.executed == 0
  {
    var y0 := NewSystem(2);
    HaltsFirst(y0);
    var y1 := Moved(y0, step);
    var y2 := Moved(y1, step);
    hide Next, Initial, Moved, Shape, Starting, Halted;
    CommandStarts(y2);
    ys := [y0, y1, y2, Moved(y2, start)];
  }

  lemma CommandStarts(y: System)
    requires y == System(Halted(Initial(2), 0), [LookGo, Out], 0, 0)
    ensures var z := Moved(y, Debugger(Write(COMMAND, 0))); var u := Moved(z, Debugger(Write(DMCONTROL, 0x1_0001)));
            && WellFormed(y) && MoveLegal(y, Debugger(Write(COMMAND, 0))) && WellFormed(z)
            && Stuck(u, 0) && u.accepted == 1 && u.executed == 0
  {
    assert Flag(0x1_0001, 1) && Field(0x1_0001, 0x1_0000, 1024) == 1;
    assert Field(0, 0x100_0000, 0x100) == 0 && !Transfer(0);
    var z := Moved(y, Debugger(Write(COMMAND, 0)));
    assert z.dm.busy && z.dm.go[0] && z.harts == y.harts && z.accepted == 1 && z.executed == 0;
    DebuggerEffects(z.dm, Write(DMCONTROL, 0x1_0001));
  }

  /** The first moves of the other run, up to the reset. */
  lemma ResetStart(step: Move, start: Move, restart: Move) returns (ys: seq<System>)
    requires step == Hart(0, Ends) && start == Debugger(Write(COMMAND, 0)) && restart == Debugger(Write(DMCONTROL, 3))
    ensures |ys| == 6 && Starting(ys[0]) && |ys[0].harts| == 1 && SameHart(ys[5].dm, 3)
    ensures var ms := [step, step, start, step, step, restart];
            && (forall i :: 0 <= i < 6 ==> WellFormed(ys[i]) && MoveLegal(ys[i], ms[i]))
            && (forall i :: 0 <= i < 5 ==> ys[i + 1] == Moved(ys[i], ms[i]) && Careful(ys[i], ms[i]))
    ensures var z := Moved(ys[5], restart);
            && WellFormed(z) && z.dm.control.hartsel == 0 < |z.harts| && z.dm.busy && !z.dm.go[0] && !Runs(z.harts[0])
            && z.accepted == z.executed + 1
  {
    var y0 := NewSystem(1);
    HaltsFirst(y0);
    var y1 := Moved(y0, step);
    var y2 := Moved(y1, step);
    var y3 := Moved(y2, start);
    hide Next, Initial, Moved, Shape, Starting, Halted;
    CommandGoes(y2);
    GetsUnderway(y3);
    var y4 := Moved(y3, step);
    var y5 := Moved(y4, step);
    ResetMidway(y5);
    ys := [y0, y1, y2, y3, y4, y5];
  }

  lemma CommandGoes(y: System)
    requires WellFormed(y) && y.harts == [LookGo] && y.accepted == y.executed == 0
    requires y.dm == Halted(Initial(1), 0)
    ensures var z := Moved(y, Debugger(Write(COMMAND, 0)));
            && z.dm.busy && z.dm.go[0] && z.dm.control.hartsel == 0 && z.harts == y.harts
            && z.accepted == 1 && z.executed == 0
  {
    assert Field(0, 0x100_0000, 0x100) == 0 && !Transfer(0);
  }

  lemma GetsUnderway(y: System)
    requires WellFormed(y) && y.harts == [LookGo] && y.dm.go[0] && y.dm.control.hartsel == 0 && y.dm.busy
    ensures var z := Moved(y, Hart(0, Ends)); var u := Moved(z, Hart(0, Ends));
            && |z.harts| == 1 && u.harts == [Executing] && u.dm.control.hartsel == 0 && u.dm.busy && !u.dm.go[0]
            && u.accepted == y.accepted && u.executed == y.executed
  {
    HartEffects(y, 0, Ends);
    HartEffects(Moved(y, Hart(0, Ends)), 0, Ends);
    hide Moved, Shape;
  }

  lemma ResetMidway(y: System)
    requires WellFormed(y) && y.harts == [Executing] && y.dm.control.hartsel == 0 && y.dm.busy && !y.dm.go[0]
    ensures var z := Moved(y, Debugger(Write(DMCONTROL, 3)));
            && z.harts == [Out] && z.dm.busy && !z.dm.go[0] && z.dm.control.hartsel == 0
            && z.accepted == y.accepted && z.executed == y.executed && SameHart(y.dm, 3)
  {
    assert Flag(3, 1) && Flag(3, 2) && Field(3, 0x1_0000, 1024) == 0;
    DebuggerEffects(y.dm, Write(DMCONTROL, 3));
  }
}
