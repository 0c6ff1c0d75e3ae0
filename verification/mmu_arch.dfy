/** Address translation as sections 4.3 to 4.5 of the RISC-V Privileged Architecture 1.10 state it, written out
    for each mode that satp can hold, and the agreement of the simulator's walk with it. */
module Architecture {
  import opened Bits
  import opened Walk

  // ---------------------------------------------------------------- page-table entries

  predicate On(e: nat, weight: nat)
    requires weight > 0
  {
    e / weight % 2 == 1
  }

  /** Valid, and neither readable nor writable nor executable: a pointer to the next level. */
  predicate Pointer(e: nat) { On(e, 1) && !On(e, 2) && !On(e, 4) && !On(e, 8) }

  /** A leaf that a user (mode 0) or supervisor (mode 1) access may use: valid, accessed, not writable without
      being readable; for the right mode; and with the right of the access. */
  predicate Allows(c: Context, mode: nat, kind: Access, e: nat) {
    && On(e, 1) && On(e, 0x40) && (On(e, 2) || !On(e, 4))
    && (if On(e, 0x10) then mode == 0 || (c.mstatus.sum && kind != FETCH) else mode == 1)
    && match kind
       case FETCH => On(e, 8)
       case LOAD => On(e, 2) || (c.mstatus.mxr && On(e, 8))
       case STORE => On(e, 2) && On(e, 4) && On(e, 0x80)
  }

  /** Whether a physical address lies in RAM. */
  predicate InRam(c: Context, pa: nat) { pa % WORD / 4096 in c.mem.pages }

  /** The entry of some bytes at a physical address of RAM. */
  function EntryAt(c: Context, pa: nat, size: nat): nat
    requires InRam(c, pa)
  {
    c.mem.word(c.mem.pages[pa % WORD / 4096] + pa % 4096, size)
  }

  // ---------------------------------------------------------------- tables

  /** Where the table at `base`, which translates field `level` of the virtual page number, has the entry for
      an address: fields have `bits` bits from bit 12 up, and entries `size` bytes. */
  function Slot(va: reg, bits: nat, size: nat, level: nat, base: nat): nat {
    QuotientNat(va, Pow2(12 + level * bits));
    base + va / Pow2(12 + level * bits) % Pow2(bits) * size
  }

  /** The address is mapped to pa: by a leaf at this level, which is aligned to the size of its page and allows
      the access, or by the table of the next level. */
  predicate Maps(c: Context, mode: nat, kind: Access, va: reg, bits: nat, size: nat, level: nat, base: nat, pa: nat)
    decreases level
  {
    var slot := Slot(va, bits, size, level, base);
    InRam(c, slot) &&
    var e := EntryAt(c, slot, size);
    if Pointer(e) then level > 0 && Maps(c, mode, kind, va, bits, size, level - 1, e / 1024 * 4096, pa)
    else
      && Allows(c, mode, kind, e) && e / 1024 % Pow2(level * bits) == 0
      && pa == (e / 1024 * 4096 + va % Pow2(12 + level * bits)) % WORD
  }

  /** The pointers lead to an entry outside RAM. */
  predicate Missing(c: Context, va: reg, bits: nat, size: nat, level: nat, base: nat)
    decreases level
  {
    var slot := Slot(va, bits, size, level, base);
    InRam(c, slot) ==>
      var e := EntryAt(c, slot, size);
      Pointer(e) && level > 0 && Missing(c, va, bits, size, level - 1, e / 1024 * 4096)
  }

  // ---------------------------------------------------------------- the modes

  /** The bits of a 64-bit address from bit k up are all equal. */
  predicate Extended(va: reg, k: nat) {
    forall i :: k <= i < 64 ==> Bit(va, i) == Bit(va, k)
  }

  /** The privilege mode of an access. */
  function ModeOf(c: Context, kind: Access): nat {
    if kind == FETCH || c.debug || !c.mstatus.mprv then c.prv else c.mstatus.mpp
  }

  predicate IsSv32(c: Context) { c.xlen == 32 && c.satp >= 0x8000_0000 }
  predicate IsSv39(c: Context) { c.xlen == 64 && c.satp / 0x1000_0000_0000_0000 == 8 }
  predicate IsSv48(c: Context) { c.xlen == 64 && c.satp / 0x1000_0000_0000_0000 == 9 }

  function Root32(c: Context): nat { c.satp % 0x40_0000 * 4096 }
  function Root64(c: Context): nat { c.satp % 0x1000_0000_0000 * 4096 }

  /** Where an access may go. Machine mode, and every mode when satp holds none of the three schemes, does not
      translate. Sv32: two fields of 10 bits, entries of 4 bytes. Sv39 and Sv48: three and four fields of 9 bits,
      entries of 8 bytes, for addresses that are sign-extended from bit 38 and from bit 47. */
  predicate Reaches(c: Context, kind: Access, va: reg, pa: nat) {
    var mode := ModeOf(c, kind);
    if mode == 2 then false
    else if mode < 2 && IsSv32(c) then Maps(c, mode, kind, va, 10, 4, 1, Root32(c), pa)
    else if mode < 2 && IsSv39(c) then Extended(va, 38) && Maps(c, mode, kind, va, 9, 8, 2, Root64(c), pa)
    else if mode < 2 && IsSv48(c) then Extended(va, 47) && Maps(c, mode, kind, va, 9, 8, 3, Root64(c), pa)
    else if c.xlen == 32 then pa == va % 0x1_0000_0000
    else pa == va
  }

  /** An access to the page table fails. */
  predicate TableMissing(c: Context, kind: Access, va: reg) {
    && ModeOf(c, kind) < 2
    && (|| (IsSv32(c) && Missing(c, va, 10, 4, 1, Root32(c)))
        || (IsSv39(c) && Extended(va, 38) && Missing(c, va, 9, 8, 2, Root64(c)))
        || (IsSv48(c) && Extended(va, 47) && Missing(c, va, 9, 8, 3, Root64(c))))
  }

  // ---------------------------------------------------------------- one level

  lemma EntryBits(c: Context, mode: nat, kind: Access, e: nat)
    requires mode < 2
    ensures IsTable(e) == Pointer(e) && Permits(c, mode, kind, e) == Allows(c, mode, kind, e)
  {
    assert Pow2(0) == 1 && Pow2(1) == 2 && Pow2(2) == 4 && Pow2(3) == 8;
    assert Pow2(4) == 0x10 && Pow2(6) == 0x40 && Pow2(7) == 0x80;
    hide Pow2;
  }

  lemma SumWraps(x: nat, y: nat)
    ensures (x % WORD + y) % WORD == (x + y) % WORD
  {
    assert x == WORD * (x / WORD) + x % WORD;
    DivMod(x + y, WORD, x / WORD + (x % WORD + y) / WORD, (x % WORD + y) % WORD);
  }

  lemma PageOffset(x: nat)
    ensures x % WORD % PAGE == x % 4096
  {
    DivDiv(x, PAGE, 0x10_0000_0000_0000);
    DivMod(x % WORD, PAGE, x / PAGE % 0x10_0000_0000_0000, x % PAGE);
  }

  lemma SelectsEntry(c: Context, vm: VmInfo, va: reg, i: nat, base: nat, e: nat)
    ensures var slot := Slot(va, vm.idxbits, vm.ptesize, i, base);
      Selects(c, vm, va, i, base % WORD, e) <==> InRam(c, slot) && e == EntryAt(c, slot, vm.ptesize)
  {
    var field := va / Pow2(12 + i * vm.idxbits) % Pow2(vm.idxbits);
    QuotientNat(va, Pow2(12 + i * vm.idxbits));
    SumWraps(base, field * vm.ptesize);
    PageOffset(base + field * vm.ptesize);
    hide Pow2;
  }

  /** The walk from one level down, from a base that may have been cut to 64 bits. */
  lemma {:induction false} WalkMeans(c: Context, vm: VmInfo, mode: nat, kind: Access, va: reg, n: nat, base: nat,
      pa: nat)
    requires mode < 2 && n > 0
    ensures var r := WalkFrom(c, vm, mode, kind, va, n, base % WORD);
      && (r.Ok? && pa == r.addr + va % PAGE <==> Maps(c, mode, kind, va, vm.idxbits, vm.ptesize, n - 1, base, pa))
      && (r == LoadAccessFault(va) <==> Missing(c, va, vm.idxbits, vm.ptesize, n - 1, base))
      && (r.Ok? || r == PageFault(kind, va) || r == LoadAccessFault(va))
    decreases n
  {
    hide StepAt, Selects, Permits, IsTable, Frame, Pointer, Allows, InRam, EntryAt, Slot, Pow2;
    var level := n - 1;
    StepMeaning(c, vm, mode, kind, va, level, base % WORD);
    forall e {
      SelectsEntry(c, vm, va, level, base, e);
    }
    var slot := Slot(va, vm.idxbits, vm.ptesize, level, base);
    if InRam(c, slot) {
      var e := EntryAt(c, slot, vm.ptesize);
      assert Selects(c, vm, va, level, base % WORD, e);
      EntryBits(c, mode, kind, e);
      if Pointer(e) {
        if level > 0 {
          WalkMeans(c, vm, mode, kind, va, level, e / 1024 * 4096, pa);
        }
      } else {
        SuperpageAddress(vm, va, e, level);
      }
    }
  }

  // ---------------------------------------------------------------- canonical addresses

  /** A number of n bits that are all equal is the least or the greatest. */
  lemma {:induction false} BitsEqual(x: nat, n: nat, b: bool)
    requires x < Pow2(n)
    ensures (forall i: nat | i < n :: Bit(x, i) == b) <==> x == (if b then Pow2(n) - 1 else 0)
  {
    if n > 0 {
      BitsEqual(x / 2, n - 1, b);
      assert Bit(x, 0) == (x % 2 == 1) by { assert Pow2(0) == 1; }
      forall i: nat ensures Bit(x, i + 1) == Bit(x / 2, i) {
        DivDiv(x, 2, Pow2(i));
        assert Pow2(i + 1) == 2 * Pow2(i);
      }
      hide Bit;
      if forall i: nat | i < n :: Bit(x, i) == b {
        forall i: nat | i < n - 1 ensures Bit(x / 2, i) == b {
          assert Bit(x, i + 1) == b;
        }
      }
      if x == (if b then Pow2(n) - 1 else 0) {
        forall i: nat | i < n ensures Bit(x, i) == b {
          if i > 0 { assert Bit(x / 2, i - 1) == b; }
        }
      }
    }
  }

  lemma QuotientFits(x: nat, m: nat, n: nat)
    requires m > 0 && x < m * n
    ensures 0 <= x / m < n
  {
    assert x == m * (x / m) + x % m;
    if x / m >= n {
      Distribute(x / m, n, m);
      MulAtLeast2(x / m, n, m);
    }
  }

  lemma MulAtLeast2(x: nat, y: nat, m: nat)
    requires x >= y
    ensures x * m >= m * y
  {
    Distribute(x, y, m);
  }

  lemma TopBits(va: reg, k: nat)
    requires k < 64
    ensures 0 <= va / Pow2(k) < Pow2(64 - k)
    ensures forall i | k <= i < 64 :: Bit(va, i) == Bit(va / Pow2(k), i - k)
  {
    Pow2Values();
    Pow2Add(k, 64 - k);
    QuotientFits(va, Pow2(k), Pow2(64 - k));
    forall i | k <= i < 64 ensures Bit(va, i) == Bit(va / Pow2(k), i - k) {
      Pow2Add(k, i - k);
      DivDiv(va, Pow2(k), Pow2(i - k));
    }
  }

  lemma ExtendedIff(va: reg, k: nat)
    requires k < 64
    ensures 0 <= va / Pow2(k) < Pow2(64 - k)
    ensures Extended(va, k) <==> va / Pow2(k) == 0 || va / Pow2(k) == Pow2(64 - k) - 1
  {
    hide Bit, Pow2;
    TopBits(va, k);
    var top := va / Pow2(k);
    BitsEqual(top, 64 - k, true);
    BitsEqual(top, 64 - k, false);
    var b := Bit(va, k);
    if Extended(va, k) {
      forall i: nat | i < 64 - k ensures Bit(top, i) == b {
        assert Bit(va, k + i) == b;
        assert Bit(va, k + i) == Bit(top, k + i - k);
      }
    }
  }

  lemma CanonicalIff(vm: VmInfo, va: reg)
    requires 12 < VaBits(vm) <= 64
    ensures NonCanonical(64, vm, va) <==> !Extended(va, VaBits(vm) - 1)
  {
    var k := VaBits(vm) - 1;
    ExtendedIff(va, k);
    AndMask(Shr(va, k), 64 - k);
    hide Pow2, And, Extended;
    DivMod(va / Pow2(k), Pow2(64 - k), 0, va / Pow2(k));
  }

  /** With 32 bits in all there is nothing above the top bit of an Sv32 address. */
  lemma CanonicalSv32(vm: VmInfo, va: reg)
    requires VaBits(vm) == 32
    ensures !NonCanonical(32, vm, va)
  {
    AndMask(Shr(va, 31), 1);
    assert Pow2(1) == 2;
    hide Pow2, And;
  }

  // ---------------------------------------------------------------- whole translations

  /** A translation by the table that a decoded satp describes. */
  lemma WalkedMeans(c: Context, va: reg, kind: Access, vm: VmInfo, pa: nat)
    requires c.Valid() && DecodeVmInfo(c.xlen, ModeOf(c, kind), c.satp) == Some(vm) && vm.levels > 0
    ensures ModeOf(c, kind) < 2 && 12 < VaBits(vm) <= c.xlen
    ensures var mode := ModeOf(c, kind);
      var canonical := !NonCanonical(c.xlen, vm, va);
      var r := Translate(c, va, kind);
      && (r.Ok? && r.addr == pa <==>
          canonical && Maps(c, mode, kind, va, vm.idxbits, vm.ptesize, vm.levels - 1, vm.ptbase, pa))
      && (r == LoadAccessFault(va) <==>
          canonical && Missing(c, va, vm.idxbits, vm.ptesize, vm.levels - 1, vm.ptbase))
      && (r.Ok? || r == PageFault(kind, va) || r == LoadAccessFault(va))
  {
    hide NonCanonical, Maps, Missing, StepAt, And, Or, Pow2;
    var mode := ModeOf(c, kind);
    ValidVm(c, mode);
    TranslateWalked(c, va, kind, vm);
    hide Translate;
    WalkMeans(c, vm, mode, kind, va, vm.levels, vm.ptbase, pa);
    DivMod(vm.ptbase, WORD, 0, vm.ptbase);
  }

  /** The simulator translates an address to pa exactly if the architecture does. */
  lemma TranslateIff(c: Context, va: reg, kind: Access, pa: reg)
    requires c.Valid()
    ensures Translate(c, va, kind) == Ok(pa) <==> Reaches(c, kind, va, pa)
  {
    hide NonCanonical, Maps, Extended, Translate;
    Cases(c, va, kind, pa);
  }

  /** What comes of the other translations: the simulator aborts in the reserved mode, there is no table where
      satp or an entry says, or the access faults. */
  lemma FaultsIff(c: Context, va: reg, kind: Access)
    requires c.Valid()
    ensures var r := Translate(c, va, kind);
      && (r == Abort <==> ModeOf(c, kind) == 2)
      && (r == LoadAccessFault(va) <==> TableMissing(c, kind, va))
      && (r == PageFault(kind, va) <==>
          ModeOf(c, kind) != 2 && !TableMissing(c, kind, va) && forall pa: reg :: !Reaches(c, kind, va, pa))
  {
    var r := Translate(c, va, kind);
    hide NonCanonical, Maps, Missing, Extended, Translate;
    Cases(c, va, kind, 0);
    forall pa: reg ensures Reaches(c, kind, va, pa) <==> r == Ok(pa) {
      TranslateIff(c, va, kind, pa);
    }
    hide Reaches;
    if r.Ok? { assert Reaches(c, kind, va, r.addr); }
  }

  lemma Cases(c: Context, va: reg, kind: Access, pa: reg)
    requires c.Valid()
    ensures var r := Translate(c, va, kind);
      && (r == Ok(pa) <==> Reaches(c, kind, va, pa))
      && (r == Abort <==> ModeOf(c, kind) == 2)
      && (r == LoadAccessFault(va) <==> TableMissing(c, kind, va))
      && (r.Ok? || r == Abort || r == PageFault(kind, va) || r == LoadAccessFault(va))
  {
    hide NonCanonical, Maps, Missing, Extended, Translate;
    var mode := ModeOf(c, kind);
    assert mode == EffectiveMode(c, kind);
    match DecodeVmInfo(c.xlen, mode, c.satp) {
      case None => AbortsInReserved(c, va, kind);
      case Some(vm) =>
        if vm.levels == 0 {
          TranslateBare(c, va, kind, vm);
        } else {
          WalkedMeans(c, va, kind, vm, pa);
          if c.xlen == 32 { CanonicalSv32(vm, va); } else { CanonicalIff(vm, va); }
        }
    }
  }

  lemma AbortsInReserved(c: Context, va: reg, kind: Access)
    requires c.Valid() && DecodeVmInfo(c.xlen, EffectiveMode(c, kind), c.satp) == None
    ensures Translate(c, va, kind) == Abort && ModeOf(c, kind) == 2
  {}
}
