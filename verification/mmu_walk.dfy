/** The page-table walk of mmu.cc (section 4.3.2 of the RISC-V Privileged Architecture 1.10). */
module Walk {
  import opened Bits

  /** 2^64, and a 64-bit register. */
  const WORD: nat := 0x1_0000_0000_0000_0000
  type reg = x: nat | x < WORD

  const PAGE: nat := 4096

  /** Privilege modes. */
  const PRV_U: nat := 0
  const PRV_S: nat := 1
  const PRV_H: nat := 2
  const PRV_M: nat := 3

  datatype Option<+T> = None | Some(value: T)

  datatype Access = LOAD | STORE | FETCH

  datatype Result = Ok(addr: reg) | PageFault(kind: Access, badaddr: reg) | LoadAccessFault(badaddr: reg) | Abort

  /** Physical memory: which pages are RAM and where they lie in the host, the little-endian word of a
      given size at a host address, what a device returns for a load, and whether it takes a store. RAM
      comes in whole pages. */
  datatype Memory = Memory(pages: map<nat, nat>, word: (nat, nat) -> reg,
                           device: (nat, nat) -> Option<reg>, accepts: (nat, nat) -> bool)

  function AddrToMem(m: Memory, paddr: nat): Option<nat> {
    if paddr / PAGE in m.pages then Some(m.pages[paddr / PAGE] + paddr % PAGE) else None
  }

  datatype Mstatus = Mstatus(mpp: nat, mprv: bool, sum: bool, mxr: bool, rest: nat)

  /** What a translation depends on; xlen is 32 or 64. */
  datatype Context = Context(xlen: nat, prv: nat, mstatus: Mstatus, satp: reg, debug: bool, mem: Memory) {
    predicate Valid() {
      && (xlen == 32 || xlen == 64)
      && prv <= PRV_M && mstatus.mpp <= PRV_M
      && (xlen == 32 ==> satp < 0x1_0000_0000)
      && (xlen == 64 ==> satp / 0x1000_0000_0000_0000 in {0, 8, 9})
      && (forall p | p in mem.pages :: mem.pages[p] + PAGE <= WORD)
    }
  }

  datatype VmInfo = VmInfo(levels: nat, idxbits: nat, ptesize: nat, ptbase: reg)

  /** None stands for the abort of the simulator. */
  function DecodeVmInfo(xlen: nat, prv: nat, satp: reg): Option<VmInfo> {
    if prv == PRV_M then Some(VmInfo(0, 0, 0, 0))
    else if prv <= PRV_S && xlen == 32 then
      if satp / 0x8000_0000 % 2 == 0 then Some(VmInfo(0, 0, 0, 0))
      else Some(VmInfo(2, 10, 4, satp % 0x40_0000 * PAGE))
    else if prv <= PRV_S && xlen == 64 then
      var base := satp % 0x1000_0000_0000 * PAGE;
      var mode := satp / 0x1000_0000_0000_0000;
      if mode == 0 then Some(VmInfo(0, 0, 0, 0))
      else if mode == 8 then Some(VmInfo(3, 9, 8, base))
      else if mode == 9 then Some(VmInfo(4, 9, 8, base))
      else if mode == 10 then Some(VmInfo(5, 9, 8, base))
      else if mode == 11 then Some(VmInfo(6, 9, 8, base))
      else None
    else None
  }

  // ---------------------------------------------------------------- page-table entries

  predicate PteV(pte: nat) { Bit(pte, 0) }
  predicate PteR(pte: nat) { Bit(pte, 1) }
  predicate PteW(pte: nat) { Bit(pte, 2) }
  predicate PteX(pte: nat) { Bit(pte, 3) }
  predicate PteU(pte: nat) { Bit(pte, 4) }
  predicate PteA(pte: nat) { Bit(pte, 6) }
  predicate PteD(pte: nat) { Bit(pte, 7) }
  function Ppn(pte: nat): nat { pte / 1024 }

  /** A pointer to the next level of the table. */
  predicate IsTable(pte: nat) { PteV(pte) && !PteR(pte) && !PteW(pte) && !PteX(pte) }

  /** What one level of the walk decides. */
  datatype Step = Next(base: reg) | Leaf(value: reg) | Fail | NoPte

  function Index(vm: VmInfo, addr: reg, i: nat): nat {
    And(Shr(addr, 12 + i * vm.idxbits), Pow2(vm.idxbits) - 1)
  }

  function StepAt(c: Context, vm: VmInfo, mode: nat, kind: Access, addr: reg, i: nat, base: reg): Step {
    var ptshift := i * vm.idxbits;
    match AddrToMem(c.mem, (base + Index(vm, addr, i) * vm.ptesize) % WORD)
    case None => NoPte
    case Some(host) =>
      var pte := c.mem.word(host, vm.ptesize);
      var ppn := Ppn(pte);
      var sMode := mode == PRV_S;
      if IsTable(pte) then Next(ppn * PAGE % WORD)
      else if (if PteU(pte) then sMode && (kind == FETCH || !c.mstatus.sum) else !sMode) then Fail
      else if !PteV(pte) || (!PteR(pte) && PteW(pte)) then Fail
      else if (match kind
               case FETCH => !PteX(pte)
               case LOAD => !PteR(pte) && !(c.mstatus.mxr && PteX(pte))
               case STORE => !(PteR(pte) && PteW(pte))) then Fail
      else if And(ppn, Pow2(ptshift) - 1) != 0 then Fail
      else if !PteA(pte) || (kind == STORE && !PteD(pte)) then Fail
      else Leaf(Or(ppn, And(addr / PAGE, Pow2(ptshift) - 1)) * PAGE % WORD)
  }

  function WalkFrom(c: Context, vm: VmInfo, mode: nat, kind: Access, addr: reg, n: nat, base: reg): Result {
    if n == 0 then PageFault(kind, addr)
    else match StepAt(c, vm, mode, kind, addr, n - 1, base)
         case Next(b) => WalkFrom(c, vm, mode, kind, addr, n - 1, b)
         case Leaf(value) => Ok(value)
         case Fail => PageFault(kind, addr)
         case NoPte => LoadAccessFault(addr)
  }

  function VaBits(vm: VmInfo): nat { 12 + vm.levels * vm.idxbits }

  /** The bits from the top one of a virtual address up to xlen-1 are not all equal. */
  predicate NonCanonical(xlen: nat, vm: VmInfo, addr: reg)
    requires 0 < VaBits(vm) <= xlen + 1
  {
    var mask := Pow2(xlen - (VaBits(vm) - 1)) - 1;
    var msbs := And(Shr(addr, VaBits(vm) - 1), mask);
    msbs != 0 && msbs != mask
  }

  lemma ValidVm(c: Context, mode: nat)
    requires c.Valid() && DecodeVmInfo(c.xlen, mode, c.satp).Some?
    ensures var vm := DecodeVmInfo(c.xlen, mode, c.satp).value;
      vm.levels == 0 || (31 <= VaBits(vm) - 1 < c.xlen && vm.idxbits in {9, 10})
  {}

  function WalkResult(c: Context, addr: reg, kind: Access, mode: nat): Result
    requires c.Valid()
  {
    match DecodeVmInfo(c.xlen, mode, c.satp)
    case None => Abort
    case Some(vm) =>
      ValidVm(c, mode);
      if vm.levels == 0 then Ok(And(addr, Pow2(c.xlen) - 1) % WORD)
      else WalkFrom(c, vm, mode, kind, addr, if NonCanonical(c.xlen, vm, addr) then 0 else vm.levels, vm.ptbase)
  }

  /** The loop over the levels of the table. */
  method WalkLoop(c: Context, vm: VmInfo, mode: nat, kind: Access, addr: reg, levels: nat, ptbase: reg)
    returns (r: Result)
    ensures r == WalkFrom(c, vm, mode, kind, addr, levels, ptbase)
  {
    hide StepAt;
    var base := ptbase;
    var i: int := levels - 1;
    while i >= 0
      invariant -1 <= i < levels
      invariant WalkFrom(c, vm, mode, kind, addr, i + 1, base) == WalkFrom(c, vm, mode, kind, addr, levels, ptbase)
    {
      match StepAt(c, vm, mode, kind, addr, i, base) {
        case Next(b) => base := b;
        case Leaf(value) => return Ok(value);
        case Fail => return PageFault(kind, addr);
        case NoPte => return LoadAccessFault(addr);
      }
      i := i - 1;
    }
    r := PageFault(kind, addr);
  }

  method DoWalk(c: Context, addr: reg, kind: Access, mode: nat) returns (r: Result)
    requires c.Valid()
    ensures r == WalkResult(c, addr, kind, mode)
  {
    var info := DecodeVmInfo(c.xlen, mode, c.satp);
    if info == None {
      return Abort;
    }
    var vm := info.value;
    ValidVm(c, mode);
    if vm.levels == 0 {
      return Ok(And(addr, Pow2(c.xlen) - 1) % WORD);
    }
    var levels := vm.levels;
    if NonCanonical(c.xlen, vm, addr) {
      levels := 0;
    }
    r := WalkLoop(c, vm, mode, kind, addr, levels, vm.ptbase);
  }

  function EffectiveMode(c: Context, kind: Access): nat {
    if kind != FETCH && !c.debug && c.mstatus.mprv then c.mstatus.mpp else c.prv
  }

  /** The physical address of a virtual one, found without any cache. */
  function Translate(c: Context, addr: reg, kind: Access): Result
    requires c.Valid()
  {
    match WalkResult(c, addr, kind, EffectiveMode(c, kind))
    case Ok(v) => Ok(Or(v, And(addr, PAGE - 1)) % WORD)
    case r => r
  }

  // ---------------------------------------------------------------- what a walk computes

  /** The access a leaf entry allows, as the architecture states it. */
  predicate Permits(c: Context, mode: nat, kind: Access, pte: nat) {
    && PteV(pte) && PteA(pte) && (PteR(pte) || !PteW(pte))
    && (if PteU(pte) then mode != PRV_S || (c.mstatus.sum && kind != FETCH) else mode == PRV_S)
    && match kind
       case FETCH => PteX(pte)
       case LOAD => PteR(pte) || (c.mstatus.mxr && PteX(pte))
       case STORE => PteR(pte) && PteW(pte) && PteD(pte)
  }

  /** ptes are the entries found on the way down from level n-1 of the table at base: each but the last
      one points to the table of the next level, which is indexed by the next field of the address. */
  ghost predicate Path(c: Context, vm: VmInfo, addr: reg, n: nat, base: reg, ptes: seq<nat>) {
    && n > 0 && ptes != [] && Selects(c, vm, addr, n - 1, base, ptes[0])
    && (if |ptes| == 1 then !IsTable(ptes[0])
        else IsTable(ptes[0]) && Path(c, vm, addr, n - 1, Ppn(ptes[0]) * PAGE % WORD, ptes[1..]))
  }

  /** A path that ends in a leaf at level j allowing the access, aligned to the size of its page. */
  ghost predicate Mapped(c: Context, vm: VmInfo, mode: nat, kind: Access, addr: reg, n: nat, base: reg,
                         ptes: seq<nat>, j: nat) {
    && ptes != []
    && Path(c, vm, addr, n, base, ptes) && j + |ptes| == n
    && Permits(c, mode, kind, ptes[|ptes| - 1])
    && Ppn(ptes[|ptes| - 1]) % Pow2(j * vm.idxbits) == 0
  }

  /** The page frame: the leaf's page number, its low j fields taken from the address. */
  function Frame(vm: VmInfo, addr: reg, pte: nat, j: nat): reg {
    (Ppn(pte) + addr / PAGE % Pow2(j * vm.idxbits)) * PAGE % WORD
  }

  /** The entry that level i of the address selects in the table at base. */
  ghost predicate Selects(c: Context, vm: VmInfo, addr: reg, i: nat, base: reg, pte: nat) {
    var slot := addr / Pow2(12 + i * vm.idxbits) % Pow2(vm.idxbits);
    var host := AddrToMem(c.mem, (base + slot * vm.ptesize) % WORD);
    host.Some? && pte == c.mem.word(host.value, vm.ptesize)
  }

  /** One level of the walk, said without masks. */
  lemma StepMeaning(c: Context, vm: VmInfo, mode: nat, kind: Access, addr: reg, i: nat, base: reg)
    ensures StepAt(c, vm, mode, kind, addr, i, base) != NoPte ==> exists pte :: Selects(c, vm, addr, i, base, pte)
    ensures forall pte | Selects(c, vm, addr, i, base, pte) ::
              StepAt(c, vm, mode, kind, addr, i, base) ==
              if IsTable(pte) then Next(Ppn(pte) * PAGE % WORD)
              else if Permits(c, mode, kind, pte) && Ppn(pte) % Pow2(i * vm.idxbits) == 0
              then Leaf(Frame(vm, addr, pte, i)) else Fail
  {
    hide Bit, And, Or, Pow2;
    AndMask(Shr(addr, 12 + i * vm.idxbits), vm.idxbits);
    var host := AddrToMem(c.mem, (base + Index(vm, addr, i) * vm.ptesize) % WORD);
    if host.Some? {
      var pte := c.mem.word(host.value, vm.ptesize);
      assert Selects(c, vm, addr, i, base, pte);
      var s := i * vm.idxbits;
      AndMask(Ppn(pte), s);
      AndMask(addr / PAGE, s);
      if Ppn(pte) % Pow2(s) == 0 {
        OrDisjoint(Ppn(pte), addr / PAGE % Pow2(s), s);
      }
    }
  }

  /** A walk succeeds exactly when some path ends in a permitted, aligned leaf, and then gives its frame. */
  lemma {:induction false} WalkOnlyIf(c: Context, vm: VmInfo, mode: nat, kind: Access, addr: reg, n: nat, base: reg)
    returns (ptes: seq<nat>, j: nat)
    requires WalkFrom(c, vm, mode, kind, addr, n, base).Ok?
    ensures Mapped(c, vm, mode, kind, addr, n, base, ptes, j)
    ensures WalkFrom(c, vm, mode, kind, addr, n, base) == Ok(Frame(vm, addr, ptes[|ptes| - 1], j))
  {
    hide StepAt, Selects, Permits, IsTable, Frame;
    StepMeaning(c, vm, mode, kind, addr, n - 1, base);
    var pte :| Selects(c, vm, addr, n - 1, base, pte);
    if IsTable(pte) {
      var rest;
      rest, j := WalkOnlyIf(c, vm, mode, kind, addr, n - 1, Ppn(pte) * PAGE % WORD);
      ptes := [pte] + rest;
      assert ptes[1..] == rest;
    } else {
      ptes, j := [pte], n - 1;
    }
  }

  lemma {:induction false} WalkIf(c: Context, vm: VmInfo, mode: nat, kind: Access, addr: reg, n: nat, base: reg,
                                  ptes: seq<nat>, j: nat)
    requires Mapped(c, vm, mode, kind, addr, n, base, ptes, j)
    ensures WalkFrom(c, vm, mode, kind, addr, n, base) == Ok(Frame(vm, addr, ptes[|ptes| - 1], j))
  {
    hide StepAt, Selects, Permits, IsTable, Frame;
    StepMeaning(c, vm, mode, kind, addr, n - 1, base);
    if |ptes| > 1 {
      WalkIf(c, vm, mode, kind, addr, n - 1, Ppn(ptes[0]) * PAGE % WORD, ptes[1..], j);
    }
  }

  /** A successful walk: i levels of pointers, then an aligned leaf that allows the access; and the only
      walks that succeed are those. */
  lemma WalkSucceedsIff(c: Context, addr: reg, kind: Access, mode: nat, vm: VmInfo, v: reg)
    requires c.Valid() && DecodeVmInfo(c.xlen, mode, c.satp) == Some(vm) && vm.levels > 0
    ensures VaBits(vm) <= c.xlen
    ensures WalkResult(c, addr, kind, mode) == Ok(v) <==>
      !NonCanonical(c.xlen, vm, addr) &&
      exists ptes, j :: Mapped(c, vm, mode, kind, addr, vm.levels, vm.ptbase, ptes, j)
                     && v == Frame(vm, addr, ptes[|ptes| - 1], j)
  {
    hide Path, Permits, Frame, NonCanonical, StepAt;
    ValidVm(c, mode);
    if WalkResult(c, addr, kind, mode) == Ok(v) {
      var ptes, j := WalkOnlyIf(c, vm, mode, kind, addr, vm.levels, vm.ptbase);
    }
    if ptes, j :| Mapped(c, vm, mode, kind, addr, vm.levels, vm.ptbase, ptes, j)
                  && v == Frame(vm, addr, ptes[|ptes| - 1], j) {
      WalkIf(c, vm, mode, kind, addr, vm.levels, vm.ptbase, ptes, j);
    }
  }

  /** Whatever the mode of translation, a non-canonical address faults. */
  lemma NonCanonicalFaults(c: Context, addr: reg, kind: Access, mode: nat, vm: VmInfo)
    requires c.Valid() && DecodeVmInfo(c.xlen, mode, c.satp) == Some(vm) && vm.levels > 0
    ensures 0 < VaBits(vm) <= c.xlen
    ensures WalkResult(c, addr, kind, mode) == PageFault(kind, addr) <==
            (var top := addr / Pow2(VaBits(vm) - 1) % Pow2(c.xlen - VaBits(vm) + 1);
             top != 0 && top != Pow2(c.xlen - VaBits(vm) + 1) - 1)
  {
    ValidVm(c, mode);
    AndMask(Shr(addr, VaBits(vm) - 1), c.xlen - (VaBits(vm) - 1));
  }

  // ---------------------------------------------------------------- whole pages

  predicate SamePage(a: reg, b: reg) { a / PAGE == b / PAGE }

  /** A field of a virtual address above the page offset depends on the page only. */
  lemma FieldOfPage(a: reg, k: nat)
    ensures Pow2(12 + k) == PAGE * Pow2(k) && a / Pow2(12 + k) == a / PAGE / Pow2(k)
  {
    assert Pow2(12) == 4096;
    Pow2Add(12, k);
    DivDiv(a, PAGE, Pow2(k));
  }

  lemma StepSamePage(c: Context, vm: VmInfo, mode: nat, kind: Access, a: reg, b: reg, i: nat, base: reg)
    requires SamePage(a, b)
    ensures StepAt(c, vm, mode, kind, a, i, base) == StepAt(c, vm, mode, kind, b, i, base)
  {
    FieldOfPage(a, i * vm.idxbits);
    FieldOfPage(b, i * vm.idxbits);
  }

  lemma {:induction false} WalkSamePage(c: Context, vm: VmInfo, mode: nat, kind: Access, a: reg, b: reg, n: nat,
      base: reg)
    requires SamePage(a, b)
    ensures WalkFrom(c, vm, mode, kind, a, n, base).Ok? ==>
            WalkFrom(c, vm, mode, kind, b, n, base) == WalkFrom(c, vm, mode, kind, a, n, base)
  {
    hide StepAt;
    if n > 0 {
      StepSamePage(c, vm, mode, kind, a, b, n - 1, base);
      match StepAt(c, vm, mode, kind, a, n - 1, base) {
        case Next(nb) => WalkSamePage(c, vm, mode, kind, a, b, n - 1, nb);
        case _ =>
      }
    }
  }

  /** A success does not depend on the kind of access. */
  lemma {:induction false} WalkSameKind(c: Context, vm: VmInfo, mode: nat, k1: Access, k2: Access, addr: reg, n: nat,
      base: reg)
    requires WalkFrom(c, vm, mode, k1, addr, n, base).Ok? && WalkFrom(c, vm, mode, k2, addr, n, base).Ok?
    ensures WalkFrom(c, vm, mode, k1, addr, n, base) == WalkFrom(c, vm, mode, k2, addr, n, base)
  {
    hide StepAt;
    StepSameKind(c, vm, mode, k1, k2, addr, n - 1, base);
    match StepAt(c, vm, mode, k1, addr, n - 1, base) {
      case Next(b) => WalkSameKind(c, vm, mode, k1, k2, addr, n - 1, b);
      case _ =>
    }
  }

  lemma StepSameKind(c: Context, vm: VmInfo, mode: nat, k1: Access, k2: Access, addr: reg, i: nat, base: reg)
    ensures var s1, s2 := StepAt(c, vm, mode, k1, addr, i, base), StepAt(c, vm, mode, k2, addr, i, base);
      && (s1.Next? ==> s2 == s1)
      && (s1.Leaf? && s2.Leaf? ==> s1 == s2)
      && (s1.Leaf? ==> !s2.Next?)
  {
    hide Bit, And, Or, Pow2;
  }

  lemma PageMultiple(x: nat)
    ensures x * PAGE % WORD % PAGE == 0
  {
    DivDiv(x * PAGE, PAGE, 0x10_0000_0000_0000);
    DivMod(x * PAGE, PAGE, x, 0);
  }

  lemma WalkAligned(c: Context, vm: VmInfo, mode: nat, kind: Access, addr: reg, n: nat, base: reg)
    requires WalkFrom(c, vm, mode, kind, addr, n, base).Ok?
    ensures WalkFrom(c, vm, mode, kind, addr, n, base).addr % PAGE == 0
  {
    var ptes, j := WalkOnlyIf(c, vm, mode, kind, addr, n, base);
    hide *;
    FrameAligned(vm, addr, ptes[|ptes| - 1], j);
  }

  lemma FrameAligned(vm: VmInfo, addr: reg, pte: nat, j: nat)
    ensures Frame(vm, addr, pte, j) % PAGE == 0
  {
    PageMultiple(Ppn(pte) + addr / PAGE % Pow2(j * vm.idxbits));
  }

  /** Adding the page offset back. */
  lemma OffsetAdded(v: reg, addr: reg)
    requires v % PAGE == 0
    ensures Or(v, And(addr, PAGE - 1)) % WORD == v + addr % PAGE
  {
    Pow2Values();
    AndMask(addr, 12);
    OrDisjoint(v, addr % PAGE, 12);
    hide *;
    OffsetFits(v, addr % PAGE);
  }

  lemma OffsetFits(v: reg, off: nat)
    requires v % PAGE == 0 && off < PAGE
    ensures (v + off) % WORD == v + off
  {
    assert v + off < WORD;
  }

  lemma ZeroExtended(xlen: nat, addr: reg)
    requires xlen == 32 || xlen == 64
    ensures var v := And(addr, Pow2(xlen) - 1) % WORD;
      && v == (if xlen == 32 then addr % 0x1_0000_0000 else addr)
      && Or(v, And(addr, PAGE - 1)) % WORD == v
  {
    var v := if xlen == 32 then addr % 0x1_0000_0000 else addr;
    Pow2Values();
    AndMask(addr, xlen);
    AndMask(addr, 12);
    OrLowBits(v, 12);
    Low32(addr);
    hide *;
    assert v % PAGE == addr % PAGE;
    DivMod(v, WORD, 0, v);
  }

  /** Without a page table the physical address is the virtual one, cut to xlen bits. */
  lemma TranslateBare(c: Context, addr: reg, kind: Access, vm: VmInfo)
    requires c.Valid() && DecodeVmInfo(c.xlen, EffectiveMode(c, kind), c.satp) == Some(vm) && vm.levels == 0
    ensures Translate(c, addr, kind) == Ok(if c.xlen == 32 then addr % 0x1_0000_0000 else addr)
  {
    hide And, Or, Pow2;
    ZeroExtended(c.xlen, addr);
  }

  /** With one it is the frame that the walk found, plus the offset in the page. */
  lemma TranslateWalked(c: Context, addr: reg, kind: Access, vm: VmInfo)
    requires c.Valid() && DecodeVmInfo(c.xlen, EffectiveMode(c, kind), c.satp) == Some(vm) && vm.levels > 0
    ensures var r := WalkResult(c, addr, kind, EffectiveMode(c, kind));
      if r.Ok? then
        && r.addr % PAGE == 0 && Translate(c, addr, kind).Ok?
        && Translate(c, addr, kind).addr == r.addr + addr % PAGE
      else Translate(c, addr, kind) == r
  {
    hide And, Or, Pow2, StepAt, NonCanonical;
    var mode := EffectiveMode(c, kind);
    ValidVm(c, mode);
    var r := WalkResult(c, addr, kind, mode);
    if r.Ok? {
      WalkAligned(c, vm, mode, kind, addr, vm.levels, vm.ptbase);
      OffsetAdded(r.addr, addr);
    }
  }

  lemma OffsetWraps(y: nat, off: nat)
    requires off < PAGE
    ensures y * PAGE % WORD + off == (y * PAGE + off) % WORD
  {
    var n := 0x10_0000_0000_0000;
    DivMod(y * PAGE + off, PAGE, y, off);
    DivMod(y * PAGE, PAGE, y, 0);
    DivDiv(y * PAGE + off, PAGE, n);
    DivDiv(y * PAGE, PAGE, n);
  }

  /** A leaf at level j maps 2^(12 + j * idxbits) bytes: its page number times the page size, plus the low
      bits of the address. */
  lemma SuperpageAddress(vm: VmInfo, addr: reg, pte: nat, j: nat)
    ensures Frame(vm, addr, pte, j) + addr % PAGE == (Ppn(pte) * PAGE + addr % Pow2(12 + j * vm.idxbits)) % WORD
  {
    var m := Pow2(j * vm.idxbits);
    FieldOfPage(addr, j * vm.idxbits);
    var ppn := Ppn(pte);
    assert Frame(vm, addr, pte, j) == (ppn + addr / PAGE % m) * PAGE % WORD;
    hide *;
    SuperpageSum(ppn, addr, m);
  }

  lemma SuperpageSum(ppn: nat, addr: reg, m: nat)
    requires m > 0
    ensures (ppn + addr / PAGE % m) * PAGE % WORD + addr % PAGE == (ppn * PAGE + addr % (PAGE * m)) % WORD
  {
    DivDiv(addr, PAGE, m);
    var x := addr / PAGE % m;
    OffsetWraps(ppn + x, addr % PAGE);
    assert (ppn + x) * PAGE + addr % PAGE == ppn * PAGE + (addr % PAGE + PAGE * x);
  }

  /** Through a mapping path, an address translates to the leaf's page number followed by its low bits. */
  lemma TranslateMapped(c: Context, addr: reg, kind: Access, vm: VmInfo, ptes: seq<nat>, j: nat)
    requires c.Valid() && DecodeVmInfo(c.xlen, EffectiveMode(c, kind), c.satp) == Some(vm) && vm.levels > 0
    requires 0 < VaBits(vm) <= c.xlen && !NonCanonical(c.xlen, vm, addr)
    requires Mapped(c, vm, EffectiveMode(c, kind), kind, addr, vm.levels, vm.ptbase, ptes, j)
    ensures Translate(c, addr, kind) ==
            Ok((Ppn(ptes[|ptes| - 1]) * PAGE + addr % Pow2(12 + j * vm.idxbits)) % WORD)
  {
    hide And, Or, Pow2, StepAt, NonCanonical, Path, Permits;
    WalkIf(c, vm, EffectiveMode(c, kind), kind, addr, vm.levels, vm.ptbase, ptes, j);
    TranslateWalked(c, addr, kind, vm);
    SuperpageAddress(vm, addr, ptes[|ptes| - 1], j);
  }

  lemma WalkResultSamePage(c: Context, a: reg, b: reg, kind: Access, mode: nat, vm: VmInfo)
    requires c.Valid() && SamePage(a, b)
    requires DecodeVmInfo(c.xlen, mode, c.satp) == Some(vm) && vm.levels > 0
    requires WalkResult(c, a, kind, mode).Ok?
    ensures WalkResult(c, b, kind, mode) == WalkResult(c, a, kind, mode)
  {
    hide And, Or, Pow2, StepAt;
    ValidVm(c, mode);
    CanonicalSamePage(c.xlen, vm, a, b);
    hide NonCanonical, DecodeVmInfo, Context.Valid;
    WalkSamePage(c, vm, mode, kind, a, b, vm.levels, vm.ptbase);
  }

  /** Two addresses on one page translate to one physical page, at their own offsets. */
  lemma TranslateSamePage(c: Context, a: reg, b: reg, kind: Access)
    requires c.Valid() && SamePage(a, b) && Translate(c, a, kind).Ok?
    ensures Translate(c, b, kind).Ok?
    ensures SamePage(Translate(c, a, kind).addr, Translate(c, b, kind).addr)
    ensures Translate(c, a, kind).addr % PAGE == a % PAGE && Translate(c, b, kind).addr % PAGE == b % PAGE
  {
    var mode := EffectiveMode(c, kind);
    hide EffectiveMode;
    assert DecodeVmInfo(c.xlen, mode, c.satp).Some?;
    var vm := DecodeVmInfo(c.xlen, mode, c.satp).value;
    if vm.levels == 0 {
      TranslateBare(c, a, kind, vm);
      TranslateBare(c, b, kind, vm);
      hide *;
      BareSamePage(c.xlen, a, b);
    } else {
      TranslateWalked(c, a, kind, vm);
      TranslateWalked(c, b, kind, vm);
      hide Translate, WalkResult, DecodeVmInfo, Context.Valid;
      WalkResultSamePage(c, a, b, kind, mode, vm);
      OffsetInPage(WalkResult(c, a, kind, mode).addr, a);
      OffsetInPage(WalkResult(c, a, kind, mode).addr, b);
    }
  }

  lemma OffsetInPage(v: reg, a: reg)
    requires v % PAGE == 0
    ensures (v + a % PAGE) / PAGE == v / PAGE && (v + a % PAGE) % PAGE == a % PAGE
  {
    DivMod(v + a % PAGE, PAGE, v / PAGE, a % PAGE);
  }

  lemma BareSamePage(xlen: nat, a: reg, b: reg)
    requires a / PAGE == b / PAGE
    ensures var v, w := if xlen == 32 then a % 0x1_0000_0000 else a, if xlen == 32 then b % 0x1_0000_0000 else b;
      v / PAGE == w / PAGE && v % PAGE == a % PAGE && w % PAGE == b % PAGE
  {
    Low32(a);
    Low32(b);
  }

  lemma Low32(a: reg)
    ensures a % 0x1_0000_0000 % PAGE == a % PAGE
    ensures a % 0x1_0000_0000 / PAGE == a / PAGE % 0x10_0000
  {
    DivDiv(a, PAGE, 0x10_0000);
    DivMod(a % 0x1_0000_0000, PAGE, a / PAGE % 0x10_0000, a % PAGE);
  }

  lemma CanonicalSamePage(xlen: nat, vm: VmInfo, a: reg, b: reg)
    requires SamePage(a, b) && 12 < VaBits(vm) <= xlen + 1
    ensures NonCanonical(xlen, vm, a) == NonCanonical(xlen, vm, b)
  {
    FieldOfPage(a, VaBits(vm) - 13);
    FieldOfPage(b, VaBits(vm) - 13);
  }

  /** Two kinds of access that use one mode and both succeed reach the same address. */
  lemma TranslateSameKind(c: Context, addr: reg, k1: Access, k2: Access)
    requires c.Valid() && EffectiveMode(c, k1) == EffectiveMode(c, k2)
    requires Translate(c, addr, k1).Ok? && Translate(c, addr, k2).Ok?
    ensures Translate(c, addr, k1) == Translate(c, addr, k2)
  {
    hide And, Or, StepAt, NonCanonical, Pow2;
    var mode := EffectiveMode(c, k1);
    var vm := DecodeVmInfo(c.xlen, mode, c.satp).value;
    if vm.levels > 0 {
      ValidVm(c, mode);
      WalkSameKind(c, vm, mode, k1, k2, addr, vm.levels, vm.ptbase);
    }
  }
}
