/** The software TLB in front of the page-table walk (mmu.h, mmu.cc), the places in processor.cc that
    flush it, and why a hit never differs from a walk. */
module Tlb {
  import opened Bits
  import opened Walk

  const ENTRIES: nat := 256
  /** Bit 63 of a tag: the access must be checked against the triggers. */
  const CHECK: nat := 0x8000_0000_0000_0000
  const INVALID: nat := WORD - 1
  const VPNS: nat := 0x10_0000_0000_0000

  /** Offsets, modulo 2^64, from a virtual address to the host and to the physical address. */
  datatype Entry = Entry(host: reg, target: reg)

  datatype Tlb = Tlb(insn: seq<reg>, load: seq<reg>, store: seq<reg>, data: seq<Entry>) {
    predicate Valid() {
      |insn| == |load| == |store| == |data| == ENTRIES
    }

    function Tags(kind: Access): seq<reg> {
      match kind case FETCH => insn case LOAD => load case STORE => store
    }
  }

  datatype Checks = Checks(fetch: bool, load: bool, store: bool) {
    predicate On(kind: Access) {
      match kind case FETCH => fetch case LOAD => load case STORE => store
    }
  }

  function Minus(a: reg, b: reg): reg { (a - b) % WORD }
  function Plus(a: reg, b: reg): reg { (a + b) % WORD }

  // ---------------------------------------------------------------- triggers

  /** A hardware trigger: the accesses and modes it watches, and the address and data it fires on. */
  datatype Trigger = Trigger(execute: bool, store: bool, load: bool, chain: bool, timing: bool,
                             modes: set<nat>, fires: (nat, nat) -> bool) {
    predicate Watches(kind: Access) {
      match kind case FETCH => execute case LOAD => load case STORE => store
    }
  }

  function FirstMatch(ts: seq<Trigger>, i: nat, prv: nat, kind: Access, addr: reg, data: reg): (r: Option<nat>)
    ensures r.Some? ==> i <= r.value < |ts| && ts[r.value].Watches(kind)
    decreases |ts| - i
  {
    if i >= |ts| then None
    else if ts[i].Watches(kind) && prv in ts[i].modes && ts[i].fires(addr, data) && !ts[i].chain then Some(i)
    else FirstMatch(ts, i + 1, prv, kind, addr, data)
  }

  /** The processor state a memory access depends on. */
  datatype Machine = Machine(ctx: Context, checks: Checks, triggers: seq<Trigger>, pending: bool)

  function TriggerMatch(m: Machine, kind: Access, addr: reg, data: reg): Option<nat> {
    if m.ctx.debug then None else FirstMatch(m.triggers, 0, m.ctx.prv, kind, addr, data)
  }

  datatype Outcome =
    | Ram(host: reg, data: reg)
    | Device(paddr: reg, data: reg)
    | Trap(cause: Result)
    | AccessFault(kind: Access, addr: reg)
    | Misaligned(kind: Access, addr: reg)
    | TriggerHit(index: nat)

  /** A match stops the access; one that fires after the access stays pending. */
  function CheckTrigger(m: Machine, kind: Access, addr: reg, data: reg, o: Outcome): (Machine, Outcome) {
    if m.pending then (m, o)
    else match TriggerMatch(m, kind, addr, data)
         case None => (m, o)
         case Some(i) => (m.(pending := m.triggers[i].timing), TriggerHit(i))
  }

  // ---------------------------------------------------------------- accesses without a TLB

  function PlainLoad(m: Machine, addr: reg, len: nat): (Machine, Outcome)
    requires m.ctx.Valid() && len > 0
  {
    LoadShown(m, addr, len, false)
  }

  /** A load whose triggers are shown the sign-extended datum. */
  function ExtendedLoad(m: Machine, addr: reg, len: nat): (Machine, Outcome)
    requires m.ctx.Valid() && len > 0
  {
    LoadShown(m, addr, len, true)
  }

  function LoadShown(m: Machine, addr: reg, len: nat, extended: bool): (Machine, Outcome)
    requires m.ctx.Valid() && len > 0
  {
    if addr % len != 0 then (m, Misaligned(LOAD, addr))
    else match Translate(m.ctx, addr, LOAD)
         case Ok(pa) => RamOrDevice(m, addr, len, pa, extended)
         case r => (m, Trap(r))
  }

  function RamOrDevice(m: Machine, addr: reg, len: nat, pa: reg, extended: bool): (Machine, Outcome)
    requires m.ctx.Valid()
  {
    match AddrToMem(m.ctx.mem, pa)
    case Some(h) =>
      var data := m.ctx.mem.word(h, len);
      CheckTrigger(m, LOAD, addr, Shown(data, len, extended), Ram(h, data))
    case None =>
      match m.ctx.mem.device(pa, len)
      case Some(d) => CheckTrigger(m, LOAD, addr, Shown(d, len, extended), Device(pa, d))
      case None => (m, AccessFault(LOAD, addr))
  }

  function Shown(data: reg, len: nat, extended: bool): reg {
    if extended then SignExtend(data, len) else data
  }

  /** The value of a signed narrow load as a register: the fast path shows this one to the triggers. */
  function SignExtend(data: reg, len: nat): reg {
    if len < 8 && data < Pow2(8 * len) && data >= Pow2(8 * len) / 2 then data + WORD - Pow2(8 * len) else data
  }

  function PlainStore(m: Machine, addr: reg, len: nat, val: reg): (Machine, Outcome)
    requires m.ctx.Valid() && len > 0
  {
    if addr % len != 0 then (m, Misaligned(STORE, addr))
    else match Translate(m.ctx, addr, STORE)
         case Ok(pa) => CheckTrigger(m, STORE, addr, val, StoreTo(m, addr, len, pa, val))
         case r => (m, Trap(r))
  }

  function StoreTo(m: Machine, addr: reg, len: nat, pa: reg, val: reg): Outcome
    requires m.ctx.Valid()
  {
    match AddrToMem(m.ctx.mem, pa)
    case Some(h) => Ram(h, val)
    case None => if m.ctx.mem.accepts(pa, len) then Device(pa, val) else AccessFault(STORE, addr)
  }

  /** A fetch without triggers: where the two bytes of an instruction parcel come from. */
  function PlainFetch(m: Machine, addr: reg): Outcome
    requires m.ctx.Valid()
  {
    match Translate(m.ctx, addr, FETCH)
    case Ok(pa) =>
      (match AddrToMem(m.ctx.mem, pa)
       case Some(h) => Ram(h, m.ctx.mem.word(h, 2))
       case None =>
         match m.ctx.mem.device(pa, 2)
         case Some(d) => Device(pa, d)
         case None => AccessFault(FETCH, addr))
    case r => Trap(r)
  }

  // ---------------------------------------------------------------- accesses through the TLB

  datatype Lookup = Miss | Hit(entry: Entry, check: bool)

  function Look(t: Tlb, addr: reg, kind: Access): Lookup
    requires t.Valid()
  {
    var vpn := addr / PAGE;
    var tag := t.Tags(kind)[vpn % ENTRIES];
    if tag == vpn then Hit(t.data[vpn % ENTRIES], false)
    else if tag == vpn + CHECK then Hit(t.data[vpn % ENTRIES], true)
    else Miss
  }

  /** A tag of the slot that names another page is dropped. */
  function Dropped(tags: seq<reg>, idx: nat, vpn: nat): seq<reg>
    requires idx < |tags|
  {
    if tags[idx] % CHECK != vpn then tags[idx := INVALID] else tags
  }

  function Refill(t: Tlb, checks: Checks, vaddr: reg, paddr: reg, host: reg, kind: Access): Tlb
    requires t.Valid()
  {
    var vpn := vaddr / PAGE;
    var idx := vpn % ENTRIES;
    var load, store, insn := Dropped(t.load, idx, vpn), Dropped(t.store, idx, vpn), Dropped(t.insn, idx, vpn);
    var tag := if checks.On(kind) then vpn + CHECK else vpn;
    var data := t.data[idx := Entry(Minus(host, vaddr), Minus(paddr, vaddr))];
    match kind
    case FETCH => Tlb(insn[idx := tag], load, store, data)
    case STORE => Tlb(insn, load, store[idx := tag], data)
    case LOAD => Tlb(insn, load[idx := tag], store, data)
  }

  /** A page of RAM enters the TLB unless a memory tracer wants to see every access to it. */
  function AfterMiss(t: Tlb, m: Machine, addr: reg, kind: Access, traced: bool): Tlb
    requires t.Valid() && m.ctx.Valid()
  {
    match Translate(m.ctx, addr, kind)
    case Ok(pa) =>
      (match AddrToMem(m.ctx.mem, pa)
       case Some(h) => if traced then t else Refill(t, m.checks, addr, pa, h, kind)
       case None => t)
    case _ => t
  }

  function LoadStep(t: Tlb, m: Machine, addr: reg, len: nat, signed: bool, traced: bool): (Tlb, (Machine, Outcome))
    requires t.Valid() && m.ctx.Valid() && len > 0
  {
    if addr % len != 0 then (t, (m, Misaligned(LOAD, addr)))
    else match Look(t, addr, LOAD)
         case Hit(e, check) =>
           var h := Plus(e.host, addr);
           var data := m.ctx.mem.word(h, len);
           (t, if check then CheckTrigger(m, LOAD, addr, Shown(data, len, signed), Ram(h, data))
               else (m, Ram(h, data)))
         case Miss => (AfterMiss(t, m, addr, LOAD, traced), PlainLoad(m, addr, len))
  }

  function StoreStep(t: Tlb, m: Machine, addr: reg, len: nat, val: reg, traced: bool): (Tlb, (Machine, Outcome))
    requires t.Valid() && m.ctx.Valid() && len > 0
  {
    if addr % len != 0 then (t, (m, Misaligned(STORE, addr)))
    else match Look(t, addr, STORE)
         case Hit(e, check) =>
           var h := Plus(e.host, addr);
           (t, if check then CheckTrigger(m, STORE, addr, val, Ram(h, val)) else (m, Ram(h, val)))
         case Miss =>
           var (m', o) := PlainStore(m, addr, len, val);
           (if o.TriggerHit? then t else AfterMiss(t, m, addr, STORE, traced), (m', o))
  }

  function FetchStep(t: Tlb, m: Machine, addr: reg): (Tlb, Outcome)
    requires t.Valid() && m.ctx.Valid()
  {
    match Look(t, addr, FETCH)
    case Hit(e, check) =>
      var h := Plus(e.host, addr);
      var data := m.ctx.mem.word(h, 2);
      (match if check then TriggerMatch(m, FETCH, addr, data) else None
       case Some(i) => (t, TriggerHit(i))
       case None => (t, Ram(h, data)))
    case Miss => (AfterMiss(t, m, addr, FETCH, false), PlainFetch(m, addr))
  }

  // ---------------------------------------------------------------- the invariant

  /** The tag stands for the page vpn and carries the check bit of its kind of access. */
  predicate TagFor(tag: reg, vpn: nat, check: bool) {
    vpn < VPNS && tag == (if check then vpn + CHECK else vpn)
  }

  /** Slot s holds nothing but page vpn, which belongs there. */
  ghost predicate SlotNames(t: Tlb, checks: Checks, s: nat, vpn: nat)
    requires t.Valid() && s < ENTRIES
  {
    && vpn < VPNS && vpn % ENTRIES == s
    && forall kind :: t.Tags(kind)[s] == INVALID || TagFor(t.Tags(kind)[s], vpn, checks.On(kind))
  }

  ghost predicate OnePage(t: Tlb, checks: Checks, s: nat)
    requires t.Valid() && s < ENTRIES
  {
    exists vpn :: SlotNames(t, checks, s, vpn)
  }

  /** All valid tags of a slot name one page, which maps to the slot, with the right check bits. */
  ghost predicate Structured(t: Tlb, checks: Checks) {
    t.Valid() && forall s | 0 <= s < ENTRIES :: OnePage(t, checks, s)
  }

  /** The entry leads from page vpn to where the walk leads. */
  predicate Leads(c: Context, vpn: nat, kind: Access, e: Entry)
    requires c.Valid() && vpn < VPNS
  {
    var r := Translate(c, vpn * PAGE, kind);
    && r.Ok? && e.target == Minus(r.addr, vpn * PAGE)
    && var h := AddrToMem(c.mem, r.addr);
    && h.Some? && e.host == Minus(h.value, vpn * PAGE)
  }

  /** Every valid tag stands for a translation that the walk would give now. */
  ghost predicate Coherent(t: Tlb, checks: Checks, c: Context)
    requires t.Valid() && c.Valid()
  {
    forall s, vpn, kind | 0 <= s < ENTRIES && TagFor(t.Tags(kind)[s], vpn, checks.On(kind)) ::
        Leads(c, vpn, kind, t.data[s])
  }

  /** Instruction fetches and data accesses use one mode: always so when MPRV is clear. */
  predicate Uniform(c: Context) {
    EffectiveMode(c, FETCH) == EffectiveMode(c, LOAD)
  }

  /** No check is switched off while a trigger still watches such accesses. */
  predicate ChecksCover(m: Machine) {
    forall i, kind | 0 <= i < |m.triggers| && m.triggers[i].Watches(kind) :: m.checks.On(kind)
  }

  ghost predicate Inv(t: Tlb, m: Machine) {
    && t.Valid() && m.ctx.Valid() && ChecksCover(m)
    && Structured(t, m.checks)
    && (Uniform(m.ctx) ==> Coherent(t, m.checks, m.ctx))
  }

  // ---------------------------------------------------------------- flushing

  ghost predicate Empty(t: Tlb) {
    t.Valid() && forall s, kind | 0 <= s < ENTRIES :: t.Tags(kind)[s] == INVALID
  }

  function Flushed(t: Tlb): (r: Tlb)
    requires t.Valid()
    ensures Empty(r)
  {
    var none: seq<reg> := seq(ENTRIES, _ => INVALID);
    Tlb(none, none, none, t.data)
  }

  /** After a flush the invariant holds whatever the state of the processor. */
  lemma EmptyInv(t: Tlb, m: Machine)
    requires Empty(t) && m.ctx.Valid() && ChecksCover(m)
    ensures Inv(t, m)
  {
    hide Leads, Uniform;
    forall s | 0 <= s < ENTRIES ensures OnePage(t, m.checks, s) {
      assert SlotNames(t, m.checks, s, s);
    }
  }

  // ---------------------------------------------------------------- offsets

  lemma OffsetRoundTrip(p: reg, v: reg, a: reg)
    requires SamePage(a, v) && p % PAGE == v % PAGE
    ensures Plus(Minus(p, v), a) == p - v % PAGE + a % PAGE
  {
    assert p - v % PAGE + a % PAGE == p - v + a;
  }

  /** An offset is the same for all addresses of a page. */
  lemma OffsetOfPage(p: reg, v: reg)
    requires p % PAGE == v % PAGE
    ensures Minus(p, v) == Minus(p - v % PAGE, v / PAGE * PAGE)
  {
    assert p - v % PAGE - v / PAGE * PAGE == p - v;
  }

  // ---------------------------------------------------------------- a hit is what the walk gives

  /** With one mode for fetches and data, the entry of any hit leads where the walk leads. */
  lemma HitMeansWalk(t: Tlb, m: Machine, addr: reg, kind: Access, e: Entry, check: bool)
    requires Inv(t, m) && Uniform(m.ctx) && Look(t, addr, kind) == Hit(e, check)
    ensures check == m.checks.On(kind)
    ensures var r := Translate(m.ctx, addr, kind);
      && r.Ok? && Plus(e.target, addr) == r.addr
      && AddrToMem(m.ctx.mem, r.addr) == Some(Plus(e.host, addr))
  {
    var vpn := addr / PAGE;
    var s := vpn % ENTRIES;
    assert OnePage(t, m.checks, s);
    assert TagFor(t.Tags(kind)[s], vpn, m.checks.On(kind));
    assert Leads(m.ctx, vpn, kind, t.data[s]);
    LeadsAnywhere(m.ctx, addr, kind, e);
  }

  lemma LeadsAnywhere(c: Context, addr: reg, kind: Access, e: Entry)
    requires c.Valid() && Leads(c, addr / PAGE, kind, e)
    ensures var r := Translate(c, addr, kind);
      && r.Ok? && Plus(e.target, addr) == r.addr
      && AddrToMem(c.mem, r.addr) == Some(Plus(e.host, addr))
  {
    hide Translate;
    var base := addr / PAGE * PAGE;
    assert SamePage(base, addr) && base % PAGE == 0;
    TranslateSamePage(c, base, addr, kind);
    var p, q := Translate(c, base, kind).addr, Translate(c, addr, kind).addr;
    OffsetRoundTrip(p, base, addr);
    assert q == p + addr % PAGE;
    var h := AddrToMem(c.mem, p).value;
    assert h % PAGE == c.mem.pages[p / PAGE] % PAGE;
    HostOffset(h, base, addr);
  }

  lemma HostOffset(h: reg, base: reg, addr: reg)
    requires SamePage(base, addr) && base % PAGE == 0 && h + addr % PAGE < WORD
    ensures Plus(Minus(h, base), addr) == h + addr % PAGE
  {
    assert h - base + addr == h + addr % PAGE;
  }

  /** The entry that a refill writes leads where the walk leads. */
  lemma RefillLeads(c: Context, vaddr: reg, pa: reg, h: reg, kind: Access)
    requires c.Valid() && Translate(c, vaddr, kind) == Ok(pa) && AddrToMem(c.mem, pa) == Some(h)
    ensures Leads(c, vaddr / PAGE, kind, Entry(Minus(h, vaddr), Minus(pa, vaddr)))
  {
    hide Translate;
    var base := vaddr / PAGE * PAGE;
    assert SamePage(base, vaddr) && base % PAGE == 0;
    TranslateSamePage(c, vaddr, base, kind);
    var p := Translate(c, base, kind).addr;
    assert p == pa - vaddr % PAGE;
    OffsetOfPage(pa, vaddr);
    assert AddrToMem(c.mem, p) == Some(h - vaddr % PAGE);
    assert h - vaddr % PAGE - base == h - vaddr;
  }

  // ---------------------------------------------------------------- refilling keeps the invariant

  /** What a refill leaves of a tag: nothing, unless it stood for the very page. */
  lemma DroppedTag(tags: seq<reg>, idx: nat, vpn: nat, was: nat, check: bool)
    requires idx < |tags| && vpn < VPNS && (tags[idx] == INVALID || TagFor(tags[idx], was, check))
    ensures Dropped(tags, idx, vpn)[idx] == INVALID ||
            (Dropped(tags, idx, vpn)[idx] == tags[idx] && TagFor(tags[idx], vpn, check))
    ensures forall s | 0 <= s < |tags| && s != idx :: Dropped(tags, idx, vpn)[s] == tags[s]
    ensures |Dropped(tags, idx, vpn)| == |tags|
  {}

  /** The slots of a TLB after a refill, kind by kind. */
  lemma RefillTags(t: Tlb, m: Machine, vaddr: reg, pa: reg, h: reg, kind: Access, k: Access)
    requires Structured(t, m.checks)
    ensures var r := Refill(t, m.checks, vaddr, pa, h, kind);
      var vpn := vaddr / PAGE;
      var idx := vpn % ENTRIES;
      && r.Valid()
      && (forall s | 0 <= s < ENTRIES && s != idx :: r.Tags(k)[s] == t.Tags(k)[s])
      && (k == kind ==> TagFor(r.Tags(k)[idx], vpn, m.checks.On(k)))
      && (k != kind && r.Tags(k)[idx] != INVALID ==>
            r.Tags(k)[idx] == t.Tags(k)[idx] && TagFor(r.Tags(k)[idx], vpn, m.checks.On(k)))
  {
    var idx := vaddr / PAGE % ENTRIES;
    assert OnePage(t, m.checks, idx);
    var was :| SlotNames(t, m.checks, idx, was);
    DroppedTag(t.Tags(k), idx, vaddr / PAGE, was, m.checks.On(k));
  }

  lemma RefillStructured(t: Tlb, m: Machine, vaddr: reg, pa: reg, h: reg, kind: Access)
    requires Structured(t, m.checks)
    ensures Structured(Refill(t, m.checks, vaddr, pa, h, kind), m.checks)
  {
    var r := Refill(t, m.checks, vaddr, pa, h, kind);
    var idx := vaddr / PAGE % ENTRIES;
    RefillTags(t, m, vaddr, pa, h, kind, kind);
    hide Refill, TagFor;
    forall s | 0 <= s < ENTRIES ensures OnePage(r, m.checks, s) {
      if s == idx {
        forall k ensures r.Tags(k)[s] == INVALID || TagFor(r.Tags(k)[s], vaddr / PAGE, m.checks.On(k)) {
          RefillTags(t, m, vaddr, pa, h, kind, k);
        }
        assert SlotNames(r, m.checks, s, vaddr / PAGE);
      } else {
        assert OnePage(t, m.checks, s);
        var was :| SlotNames(t, m.checks, s, was);
        forall k ensures r.Tags(k)[s] == t.Tags(k)[s] {
          RefillTags(t, m, vaddr, pa, h, kind, k);
        }
        assert SlotNames(r, m.checks, s, was);
      }
    }
  }

  /** What one kind of access has cached is right for another kind that the walk also lets through. */
  lemma LeadsOtherKind(c: Context, vpn: nat, k1: Access, k2: Access, e: Entry)
    requires c.Valid() && vpn < VPNS && Uniform(c) && Leads(c, vpn, k1, e)
    requires Translate(c, vpn * PAGE, k2).Ok?
    ensures Leads(c, vpn, k2, e)
  {
    hide Translate;
    TranslateSameKind(c, vpn * PAGE, k1, k2);
  }

  lemma RefillCoherent(t: Tlb, m: Machine, vaddr: reg, pa: reg, h: reg, kind: Access)
    requires m.ctx.Valid() && Structured(t, m.checks) && Uniform(m.ctx) && Coherent(t, m.checks, m.ctx)
    requires Translate(m.ctx, vaddr, kind) == Ok(pa) && AddrToMem(m.ctx.mem, pa) == Some(h)
    ensures Refill(t, m.checks, vaddr, pa, h, kind).Valid()
    ensures Coherent(Refill(t, m.checks, vaddr, pa, h, kind), m.checks, m.ctx)
  {
    var r := Refill(t, m.checks, vaddr, pa, h, kind);
    var e := Entry(Minus(h, vaddr), Minus(pa, vaddr));
    var idx := vaddr / PAGE % ENTRIES;
    assert r.data == t.data[idx := e];
    RefillLeads(m.ctx, vaddr, pa, h, kind);
    RefillTags(t, m, vaddr, pa, h, kind, kind);
    hide Refill, Leads, Translate, AddrToMem;
    forall s, vpn, k | 0 <= s < ENTRIES && TagFor(r.Tags(k)[s], vpn, m.checks.On(k))
      ensures Leads(m.ctx, vpn, k, r.data[s])
    {
      RefillTags(t, m, vaddr, pa, h, kind, k);
      if s == idx {
        assert vpn == vaddr / PAGE;
        if k != kind {
          assert TagFor(t.Tags(k)[s], vpn, m.checks.On(k));
          LeadsOk(m.ctx, vpn, k, t.data[s]);
          LeadsOtherKind(m.ctx, vpn, kind, k, e);
        }
      } else {
        assert TagFor(t.Tags(k)[s], vpn, m.checks.On(k));
      }
    }
  }

  lemma LeadsOk(c: Context, vpn: nat, kind: Access, e: Entry)
    requires c.Valid() && vpn < VPNS && Leads(c, vpn, kind, e)
    ensures Translate(c, vpn * PAGE, kind).Ok?
  {}

  lemma AfterMissInv(t: Tlb, m: Machine, addr: reg, kind: Access, traced: bool)
    requires Inv(t, m)
    ensures Inv(AfterMiss(t, m, addr, kind, traced), m)
  {
    var r := Translate(m.ctx, addr, kind);
    if r.Ok? && AddrToMem(m.ctx.mem, r.addr).Some? && !traced {
      var h := AddrToMem(m.ctx.mem, r.addr).value;
      RefillStructured(t, m, addr, r.addr, h, kind);
      hide Structured, Translate, Refill;
      if Uniform(m.ctx) {
        RefillCoherent(t, m, addr, r.addr, h, kind);
      }
    }
  }

  lemma RefillInv(t: Tlb, m: Machine, vaddr: reg, paddr: reg, host: reg, kind: Access)
    requires Inv(t, m) && Translate(m.ctx, vaddr, kind) == Ok(paddr) && AddrToMem(m.ctx.mem, paddr) == Some(host)
    ensures Inv(Refill(t, m.checks, vaddr, paddr, host, kind), m)
  {
    AfterMissInv(t, m, vaddr, kind, false);
    hide Structured, Coherent, Refill, Translate, Context.Valid;
  }

  // ---------------------------------------------------------------- each access refines the plain one

  lemma {:induction false} UnwatchedNoMatch(ts: seq<Trigger>, i: nat, prv: nat, kind: Access, addr: reg, data: reg)
    requires forall j | 0 <= j < |ts| :: !ts[j].Watches(kind)
    ensures FirstMatch(ts, i, prv, kind, addr, data) == None
    decreases |ts| - i
  {
    if i < |ts| { UnwatchedNoMatch(ts, i + 1, prv, kind, addr, data); }
  }

  /** Where checks are off, no trigger would have matched. */
  lemma UncheckedNoMatch(m: Machine, kind: Access, addr: reg, data: reg, o: Outcome)
    requires ChecksCover(m) && !m.checks.On(kind)
    ensures TriggerMatch(m, kind, addr, data) == None && CheckTrigger(m, kind, addr, data, o) == (m, o)
  {
    UnwatchedNoMatch(m.triggers, 0, m.ctx.prv, kind, addr, data);
  }

  /** A step of an access changes at most the pending trigger, and keeps the invariant. */
  lemma LoadKeepsInv(t: Tlb, m: Machine, addr: reg, len: nat, signed: bool, traced: bool)
    requires Inv(t, m) && len > 0
    ensures var (t', (m', o)) := LoadStep(t, m, addr, len, signed, traced);
      Inv(t', m') && m' == m.(pending := m'.pending)
  {
    AfterMissInv(t, m, addr, LOAD, traced);
    hide Structured, Coherent, AfterMiss, Translate;
  }

  lemma StoreKeepsInv(t: Tlb, m: Machine, addr: reg, len: nat, val: reg, traced: bool)
    requires Inv(t, m) && len > 0
    ensures var (t', (m', o)) := StoreStep(t, m, addr, len, val, traced);
      Inv(t', m') && m' == m.(pending := m'.pending)
  {
    AfterMissInv(t, m, addr, STORE, traced);
    hide Structured, Coherent, AfterMiss, Translate;
  }

  /** Whether the triggers decide on a load as they would without the TLB: not when a checked signed load
      hits, no trigger is pending, and they tell the sign-extended datum from the plain one. */
  predicate LoadExact(t: Tlb, m: Machine, addr: reg, len: nat, signed: bool)
    requires t.Valid() && m.ctx.Valid() && len > 0
  {
    addr % len != 0 || !signed || m.pending ||
    match Look(t, addr, LOAD)
    case Miss => true
    case Hit(e, check) =>
      var data := m.ctx.mem.word(Plus(e.host, addr), len);
      check ==> TriggerMatch(m, LOAD, addr, SignExtend(data, len)) == TriggerMatch(m, LOAD, addr, data)
  }

  /** A load with the TLB is a load without it, exactly unless the triggers see another datum. What differs
      then shows: the load completes in one case and not in the other, or another trigger stops it. */
  lemma LoadRefinesIff(t: Tlb, m: Machine, addr: reg, len: nat, signed: bool, traced: bool)
    requires Inv(t, m) && len > 0 && Uniform(m.ctx)
    ensures var r, plain := LoadStep(t, m, addr, len, signed, traced).1, PlainLoad(m, addr, len);
      && (r == plain <==> LoadExact(t, m, addr, len, signed))
      && (r.1 == plain.1 <==> LoadExact(t, m, addr, len, signed))
      && (r != plain ==> signed && r == ExtendedLoad(m, addr, len))
  {
    if addr % len == 0 && Look(t, addr, LOAD).Hit? {
      var Hit(e, check) := Look(t, addr, LOAD);
      HitMeansWalk(t, m, addr, LOAD, e, check);
      hide Inv, Translate, Look, SignExtend;
      var h := Plus(e.host, addr);
      var data := m.ctx.mem.word(h, len);
      if !check {
        UncheckedNoMatch(m, LOAD, addr, data, Ram(h, data));
      }
    }
  }

  lemma StoreRefines(t: Tlb, m: Machine, addr: reg, len: nat, val: reg, traced: bool)
    requires Inv(t, m) && len > 0 && Uniform(m.ctx)
    ensures StoreStep(t, m, addr, len, val, traced).1 == PlainStore(m, addr, len, val)
  {
    if addr % len == 0 && Look(t, addr, STORE).Hit? {
      var Hit(e, check) := Look(t, addr, STORE);
      UniformStore(m.ctx);
      HitMeansWalk(t, m, addr, STORE, e, check);
      hide Inv, Translate, Look;
      if !check {
        UncheckedNoMatch(m, STORE, addr, val, Ram(Plus(e.host, addr), val));
      }
    }
  }

  lemma UniformStore(c: Context)
    requires Uniform(c)
    ensures EffectiveMode(c, STORE) == EffectiveMode(c, FETCH)
  {}

  /** What a fetch would give if it were always checked against the triggers. */
  function CheckedFetch(m: Machine, addr: reg): Outcome
    requires m.ctx.Valid()
  {
    match PlainFetch(m, addr)
    case Ram(h, data) =>
      (match TriggerMatch(m, FETCH, addr, data)
       case Some(i) => TriggerHit(i)
       case None => Ram(h, data))
    case o => o
  }

  predicate FetchExact(t: Tlb, m: Machine, addr: reg)
    requires t.Valid() && m.ctx.Valid()
  {
    Look(t, addr, FETCH).Hit? ||
    match PlainFetch(m, addr)
    case Ram(_, data) => TriggerMatch(m, FETCH, addr, data) == None
    case _ => true
  }

  /** A fetch finds the right bytes, but checks the triggers on a hit only: it behaves like a fetch that is
      always checked exactly when it hits, or no trigger matches, or the bytes are not in RAM. */
  lemma FetchRefinesIff(t: Tlb, m: Machine, addr: reg)
    requires Inv(t, m) && Uniform(m.ctx)
    ensures var (t', o) := FetchStep(t, m, addr);
      && Inv(t', m)
      && (o == CheckedFetch(m, addr) <==> FetchExact(t, m, addr))
      && (o != CheckedFetch(m, addr) ==> o == PlainFetch(m, addr))
  {
    AfterMissInv(t, m, addr, FETCH, false);
    hide AfterMiss;
    if Look(t, addr, FETCH).Hit? {
      var Hit(e, check) := Look(t, addr, FETCH);
      HitMeansWalk(t, m, addr, FETCH, e, check);
      hide Structured, Coherent, Translate, Look;
      var h := Plus(e.host, addr);
      if !check {
        UncheckedNoMatch(m, FETCH, addr, m.ctx.mem.word(h, 2), Ram(h, 0));
      }
    }
  }

  // ---------------------------------------------------------------- state changes of the processor

  datatype Op =
    | OpLoad(addr: reg, len: nat, signed: bool, traced: bool)
    | OpStore(addr: reg, len: nat, val: reg, traced: bool)
    | OpFetch(addr: reg)
    | SetPrivilege(prv: nat)
    | SetMstatus(mstatus: Mstatus)
    | SetSatp(satp: reg)
    | SetTriggers(triggers: seq<Trigger>)
    | Sfence(mem: Memory)
    | EnterDebug
    | LeaveDebug(prv: nat)
    | TriggerTaken
    | SetTriggerData(index: nat, fires: (nat, nat) -> bool)
  {
    predicate IsAccess() { OpLoad? || OpStore? || OpFetch? }
  }

  function Legal(prv: nat): nat { if prv == PRV_H then PRV_U else prv }

  /** A write to satp: the page-table base and a supported mode, or no change. */
  function NewSatp(c: Context, val: reg): reg
    requires c.Valid()
  {
    if c.xlen == 32 then val / 0x8000_0000 % 2 * 0x8000_0000 + val % 0x40_0000
    else if val / 0x1000_0000_0000_0000 in {0, 8, 9}
    then val / 0x1000_0000_0000_0000 * 0x1000_0000_0000_0000 + val % 0x1000_0000_0000
    else c.satp
  }

  /** The triggers as trigger_updated finds them decide which accesses are checked. */
  function ChecksOf(ts: seq<Trigger>): Checks {
    Checks(exists i :: 0 <= i < |ts| && ts[i].execute, exists i :: 0 <= i < |ts| && ts[i].load,
           exists i :: 0 <= i < |ts| && ts[i].store)
  }

  function Control(m: Machine, op: Op): Machine
    requires m.ctx.Valid() && !op.IsAccess()
  {
    match op
    case SetPrivilege(prv) => m.(ctx := m.ctx.(prv := Legal(prv)))
    case SetMstatus(mstatus) => m.(ctx := m.ctx.(mstatus := mstatus))
    case SetSatp(satp) => m.(ctx := m.ctx.(satp := NewSatp(m.ctx, satp)))
    case SetTriggers(ts) => m.(triggers := ts, checks := ChecksOf(ts))
    case Sfence(mem) => m.(ctx := m.ctx.(mem := mem))
    case EnterDebug => m.(ctx := m.ctx.(debug := true, prv := PRV_M))
    case LeaveDebug(prv) => m.(ctx := m.ctx.(prv := Legal(prv), debug := false))
    case TriggerTaken => m.(pending := false)
    case SetTriggerData(i, fires) =>
      if i < |m.triggers| then m.(triggers := m.triggers[i := m.triggers[i].(fires := fires)]) else m
  }

  /** Whether the change comes with a flush: all do, but for the end of a pending trigger, for writes of what a
      trigger compares with, and for writes to mstatus that touch no field the translation depends on. */
  predicate Flushes(m: Machine, op: Op)
    requires !op.IsAccess()
  {
    match op
    case TriggerTaken => false
    case SetTriggerData(_, _) => false
    case SetMstatus(n) => var o := m.ctx.mstatus; o.mpp != n.mpp || o.mprv != n.mprv || o.sum != n.sum || o.mxr != n.mxr
    case _ => true
  }

  predicate OpValid(op: Op) {
    match op
    case OpLoad(_, len, _, _) => len in {1, 2, 4, 8}
    case OpStore(_, len, _, _) => len in {1, 2, 4, 8}
    case SetPrivilege(prv) => prv <= PRV_M
    case LeaveDebug(prv) => prv <= PRV_M
    case SetMstatus(mstatus) => mstatus.mpp <= PRV_M
    case Sfence(mem) => forall p | p in mem.pages :: mem.pages[p] + PAGE <= WORD
    case _ => true
  }

  function Apply(t: Tlb, m: Machine, op: Op): (Tlb, (Machine, Option<Outcome>))
    requires t.Valid() && m.ctx.Valid() && OpValid(op)
  {
    match op
    case OpLoad(addr, len, signed, traced) =>
      var (t', (m', o)) := LoadStep(t, m, addr, len, signed, traced); (t', (m', Some(o)))
    case OpStore(addr, len, val, traced) =>
      var (t', (m', o)) := StoreStep(t, m, addr, len, val, traced); (t', (m', Some(o)))
    case OpFetch(addr) => var (t', o) := FetchStep(t, m, addr); (t', (m, Some(o)))
    case _ => (if Flushes(m, op) then Flushed(t) else t, (Control(m, op), None))
  }

  lemma ControlValid(m: Machine, op: Op)
    requires m.ctx.Valid() && OpValid(op) && !op.IsAccess() && ChecksCover(m)
    ensures Control(m, op).ctx.Valid() && ChecksCover(Control(m, op))
  {}

  /** Fields of mstatus that translation does not read. */
  lemma {:induction false} WalkIgnoresRest(c: Context, d: Context, vm: VmInfo, mode: nat, kind: Access, addr: reg,
      n: nat, base: reg)
    requires d == c.(mstatus := c.mstatus.(rest := d.mstatus.rest))
    ensures WalkFrom(c, vm, mode, kind, addr, n, base) == WalkFrom(d, vm, mode, kind, addr, n, base)
  {
    hide And, Or, Bit, Pow2;
    if n > 0 {
      assert StepAt(c, vm, mode, kind, addr, n - 1, base) == StepAt(d, vm, mode, kind, addr, n - 1, base);
      hide StepAt;
      match StepAt(c, vm, mode, kind, addr, n - 1, base) {
        case Next(b) => WalkIgnoresRest(c, d, vm, mode, kind, addr, n - 1, b);
        case _ =>
      }
    }
  }

  lemma TranslateIgnoresRest(c: Context, d: Context, addr: reg, kind: Access)
    requires c.Valid() && d.Valid() && d == c.(mstatus := c.mstatus.(rest := d.mstatus.rest))
    ensures Translate(c, addr, kind) == Translate(d, addr, kind)
  {
    hide And, Or, Pow2, StepAt, NonCanonical;
    var mode := EffectiveMode(c, kind);
    var info := DecodeVmInfo(c.xlen, mode, c.satp);
    if info.Some? {
      var vm := info.value;
      ValidVm(c, mode);
      WalkIgnoresRest(c, d, vm, mode, kind, addr, vm.levels, vm.ptbase);
    }
  }

  lemma ControlKeepsInv(t: Tlb, m: Machine, op: Op)
    requires Inv(t, m) && OpValid(op) && !op.IsAccess()
    ensures Inv(Apply(t, m, op).0, Control(m, op))
  {
    ControlValid(m, op);
    var n := Control(m, op);
    if Flushes(m, op) {
      hide Empty, Inv;
      EmptyInv(Flushed(t), n);
    } else if Uniform(n.ctx) {
      forall s, vpn: nat, kind | 0 <= s < ENTRIES && TagFor(t.Tags(kind)[s], vpn, n.checks.On(kind))
        ensures Leads(n.ctx, vpn, kind, t.data[s])
      {
        assert Leads(m.ctx, vpn, kind, t.data[s]);
        TranslateIgnoresRest(m.ctx, n.ctx, vpn * PAGE, kind);
      }
    }
  }

  // ---------------------------------------------------------------- whole runs

  /** The processor without a TLB: it walks the page table and checks the triggers on every access. */
  function PlainStep(m: Machine, op: Op): (Machine, Option<Outcome>)
    requires m.ctx.Valid() && OpValid(op)
  {
    match op
    case OpLoad(addr, len, _, _) => var (m', o) := PlainLoad(m, addr, len); (m', Some(o))
    case OpStore(addr, len, val, _) => var (m', o) := PlainStore(m, addr, len, val); (m', Some(o))
    case OpFetch(addr) => (m, Some(CheckedFetch(m, addr)))
    case _ => (Control(m, op), None)
  }

  /** An access is made while fetches and data use one mode. */
  predicate Allowed(m: Machine, op: Op) {
    OpValid(op) && (op.IsAccess() ==> Uniform(m.ctx))
  }

  /** Whether the TLB leaves the triggers' decision on this step alone. */
  predicate Exact(t: Tlb, m: Machine, op: Op)
    requires t.Valid() && m.ctx.Valid() && OpValid(op)
  {
    match op
    case OpLoad(addr, len, signed, _) => LoadExact(t, m, addr, len, signed)
    case OpFetch(addr) => FetchExact(t, m, addr)
    case _ => true
  }

  /** Where the TLB does not leave it alone, a fetch goes unchecked or a signed load is checked against the
      sign-extended datum; which bytes are read is the same in every case. */
  ghost predicate Agree(m: Machine, op: Op, fast: (Machine, Option<Outcome>))
    requires m.ctx.Valid() && OpValid(op)
  {
    || fast == PlainStep(m, op)
    || (op.OpFetch? && fast == (m, Some(PlainFetch(m, op.addr))))
    || (op.OpLoad? && op.signed && var (m', o) := ExtendedLoad(m, op.addr, op.len); fast == (m', Some(o)))
  }

  /** One step with the TLB agrees with one step without it, exactly so on the condition above, and keeps
      the invariant. */
  lemma StepRefines(t: Tlb, m: Machine, op: Op)
    requires Inv(t, m) && Allowed(m, op)
    ensures var (t', r) := Apply(t, m, op);
      && Inv(t', r.0) && Agree(m, op, r)
      && (r == PlainStep(m, op) <==> Exact(t, m, op)) && (r.1 == PlainStep(m, op).1 <==> Exact(t, m, op))
  {
    match op {
      case OpLoad(addr, len, signed, traced) =>
        LoadKeepsInv(t, m, addr, len, signed, traced);
        LoadRefinesIff(t, m, addr, len, signed, traced);
      case OpStore(addr, len, val, traced) =>
        StoreKeepsInv(t, m, addr, len, val, traced);
        StoreRefines(t, m, addr, len, val, traced);
      case OpFetch(addr) =>
        FetchRefinesIff(t, m, addr);
      case _ =>
        ControlKeepsInv(t, m, op);
    }
  }

  /** What a step does to the state that decides which accesses are allowed. */
  function Onward(m: Machine, op: Op): Machine
    requires m.ctx.Valid() && OpValid(op)
  {
    if op.IsAccess() then m else Control(m, op)
  }

  ghost predicate AllowedRun(m: Machine, ops: seq<Op>)
    requires m.ctx.Valid() && ChecksCover(m)
    decreases |ops|
  {
    ops == [] || (Allowed(m, ops[0]) && (OnwardValid(m, ops[0]); AllowedRun(Onward(m, ops[0]), ops[1..])))
  }

  lemma OnwardValid(m: Machine, op: Op)
    requires m.ctx.Valid() && OpValid(op) && ChecksCover(m)
    ensures Onward(m, op).ctx.Valid() && ChecksCover(Onward(m, op))
  {
    if !op.IsAccess() { ControlValid(m, op); }
  }

  /** A pending trigger decides nothing of that. */
  lemma {:induction false} AllowedAnyhow(m: Machine, b: bool, ops: seq<Op>)
    requires m.ctx.Valid() && ChecksCover(m) && AllowedRun(m, ops)
    ensures AllowedRun(m.(pending := b), ops)
    decreases |ops|
  {
    if ops != [] {
      OnwardValid(m, ops[0]);
      var n, k := Onward(m, ops[0]), Onward(m.(pending := b), ops[0]);
      hide Control, ChecksCover, Context.Valid;
      assert k == n.(pending := k.pending) by { OnwardPending(m, b, ops[0]); }
      AllowedAnyhow(n, k.pending, ops[1..]);
    }
  }

  lemma OnwardPending(m: Machine, b: bool, op: Op)
    requires m.ctx.Valid() && OpValid(op)
    ensures var n, k := Onward(m, op), Onward(m.(pending := b), op); k == n.(pending := k.pending)
  {}

  /** A step of the processor with the TLB leaves an allowed run. */
  lemma AllowedAfter(t: Tlb, m: Machine, ops: seq<Op>)
    requires Inv(t, m) && AllowedRun(m, ops) && ops != []
    ensures var (t', r) := Apply(t, m, ops[0]); Inv(t', r.0) && AllowedRun(r.0, ops[1..])
  {
    StepRefines(t, m, ops[0]);
    OnwardValid(m, ops[0]);
    StepOnward(t, m, ops[0]);
    var m' := Apply(t, m, ops[0]).1.0;
    hide Inv, Apply, Onward;
    AllowedAnyhow(Onward(m, ops[0]), m'.pending, ops[1..]);
  }

  lemma StepOnward(t: Tlb, m: Machine, op: Op)
    requires Inv(t, m) && OpValid(op)
    ensures var m' := Apply(t, m, op).1.0; m' == Onward(m, op).(pending := m'.pending)
  {
    match op {
      case OpLoad(addr, len, signed, traced) => LoadKeepsInv(t, m, addr, len, signed, traced);
      case OpStore(addr, len, val, traced) => StoreKeepsInv(t, m, addr, len, val, traced);
      case _ =>
    }
  }

  /** The outcomes of a run, with the TLB and without. */
  ghost function FastRun(t: Tlb, m: Machine, ops: seq<Op>): seq<Option<Outcome>>
    requires Inv(t, m) && AllowedRun(m, ops)
    decreases |ops|
  {
    if ops == [] then []
    else
      AllowedAfter(t, m, ops);
      var (t', r) := Apply(t, m, ops[0]);
      [r.1] + FastRun(t', r.0, ops[1..])
  }

  ghost function PlainRun(m: Machine, ops: seq<Op>): seq<Option<Outcome>>
    requires m.ctx.Valid() && ChecksCover(m) && AllowedRun(m, ops)
    decreases |ops|
  {
    if ops == [] then []
    else
      PlainAllowedAfter(m, ops);
      var r := PlainStep(m, ops[0]);
      [r.1] + PlainRun(r.0, ops[1..])
  }

  lemma PlainAllowedAfter(m: Machine, ops: seq<Op>)
    requires m.ctx.Valid() && ChecksCover(m) && AllowedRun(m, ops) && ops != []
    ensures var n := PlainStep(m, ops[0]).0; n.ctx.Valid() && ChecksCover(n) && AllowedRun(n, ops[1..])
  {
    OnwardValid(m, ops[0]);
    PlainOnward(m, ops[0]);
    var n := PlainStep(m, ops[0]).0;
    hide PlainStep, Onward;
    AllowedAnyhow(Onward(m, ops[0]), n.pending, ops[1..]);
  }

  lemma PlainOnward(m: Machine, op: Op)
    requires m.ctx.Valid() && OpValid(op)
    ensures var n := PlainStep(m, op).0; n == Onward(m, op).(pending := n.pending)
  {
    hide Translate, Control;
  }

  /** Both processors run side by side, agreeing at every step. */
  ghost predicate RunsAgree(t: Tlb, m: Machine, ops: seq<Op>)
    requires Inv(t, m) && AllowedRun(m, ops)
    decreases |ops|
  {
    ops == [] ||
    (AllowedAfter(t, m, ops);
     var (t', r) := Apply(t, m, ops[0]);
     Agree(m, ops[0], r) && RunsAgree(t', r.0, ops[1..]))
  }

  /** At no step of the run does the TLB change what the triggers decide. */
  ghost predicate AllExact(t: Tlb, m: Machine, ops: seq<Op>)
    requires Inv(t, m) && AllowedRun(m, ops)
    decreases |ops|
  {
    ops == [] ||
    (AllowedAfter(t, m, ops);
     var (t', r) := Apply(t, m, ops[0]);
     Exact(t, m, ops[0]) && AllExact(t', r.0, ops[1..]))
  }

  /** Over any run of loads, stores, fetches and state changes every access reaches the bytes that a walk
      finds, and is checked against the triggers in one of the ways above. */
  lemma {:induction false} RunRefines(t: Tlb, m: Machine, ops: seq<Op>)
    requires Inv(t, m) && AllowedRun(m, ops)
    ensures RunsAgree(t, m, ops)
    decreases |ops|
  {
    if ops != [] {
      AllowedAfter(t, m, ops);
      StepRefines(t, m, ops[0]);
      var (t', r) := Apply(t, m, ops[0]);
      hide Inv, Apply, Agree;
      RunRefines(t', r.0, ops[1..]);
    }
  }

  /** All the outcomes of a run are those of the processor without a TLB exactly if no step of the run is a
      fetch or a signed load on which the triggers decide otherwise. */
  lemma {:induction false} RunExactIff(t: Tlb, m: Machine, ops: seq<Op>)
    requires Inv(t, m) && AllowedRun(m, ops)
    ensures m.ctx.Valid() && ChecksCover(m)
    ensures FastRun(t, m, ops) == PlainRun(m, ops) <==> AllExact(t, m, ops)
    decreases |ops|
  {
    if ops != [] {
      AllowedAfter(t, m, ops);
      StepRefines(t, m, ops[0]);
      var (t', r) := Apply(t, m, ops[0]);
      var plain := PlainStep(m, ops[0]);
      hide Apply, Exact, PlainStep, Agree, Structured, Coherent;
      if Exact(t, m, ops[0]) {
        RunExactIff(t', r.0, ops[1..]);
        assert FastRun(t, m, ops)[1..] == FastRun(t', r.0, ops[1..])
            && PlainRun(m, ops)[1..] == PlainRun(plain.0, ops[1..]);
      } else {
        assert FastRun(t, m, ops)[0] != PlainRun(m, ops)[0];
      }
    }
  }

  lemma RunFromEmpty(t: Tlb, m: Machine, ops: seq<Op>)
    requires Empty(t) && m.ctx.Valid() && ChecksCover(m) && AllowedRun(m, ops)
    ensures Inv(t, m) && RunsAgree(t, m, ops) && (FastRun(t, m, ops) == PlainRun(m, ops) <==> AllExact(t, m, ops))
  {
    EmptyInv(t, m);
    RunRefines(t, m, ops);
    RunExactIff(t, m, ops);
  }

  // ---------------------------------------------------------------- a reset does not flush

  /** processor_t::reset puts the processor in machine mode with all CSRs zero and all triggers off; the
      write to mstatus it ends with changes no field, so the TLB stays as it is. */
  function ResetMachine(m: Machine): Machine {
    m.(ctx := Context(m.ctx.xlen, PRV_M, Mstatus(0, false, false, false, 0), 0, false, m.ctx.mem), triggers := [])
  }

  lemma ResetValid(m: Machine)
    requires m.ctx.Valid()
    ensures ResetMachine(m).ctx.Valid() && ChecksCover(ResetMachine(m)) && Uniform(ResetMachine(m).ctx)
  {}

  /** The physical address without translation. */
  function Bare(c: Context, addr: reg): reg {
    if c.xlen == 32 then addr % 0x1_0000_0000 else addr
  }

  lemma ResetTranslates(m: Machine, addr: reg, kind: Access)
    requires m.ctx.Valid()
    ensures ResetMachine(m).ctx.Valid() && Translate(ResetMachine(m).ctx, addr, kind) == Ok(Bare(m.ctx, addr))
  {
    TranslateBare(ResetMachine(m).ctx, addr, kind, VmInfo(0, 0, 0, 0));
  }

  lemma MinusInjective(a: reg, b: reg, base: reg)
    requires Minus(a, base) == Minus(b, base)
    ensures a == b
  {}

  /** Whether the page that a valid tag stands for was mapped to itself. */
  predicate MappedToItself(c: Context, vpn: nat, kind: Access)
    requires c.Valid() && vpn < VPNS
  {
    Translate(c, vpn * PAGE, kind) == Ok(Bare(c, vpn * PAGE))
  }

  lemma ResetLeadsIff(m: Machine, vpn: nat, kind: Access, e: Entry)
    requires m.ctx.Valid() && vpn < VPNS && Leads(m.ctx, vpn, kind, e)
    ensures ResetMachine(m).ctx.Valid()
    ensures Leads(ResetMachine(m).ctx, vpn, kind, e) <==> MappedToItself(m.ctx, vpn, kind)
  {
    ResetTranslates(m, vpn * PAGE, kind);
    hide Translate, Minus;
    if Leads(ResetMachine(m).ctx, vpn, kind, e) {
      MinusInjective(Translate(m.ctx, vpn * PAGE, kind).addr, Bare(m.ctx, vpn * PAGE), vpn * PAGE);
    }
  }

  /** So a reset keeps hits right exactly when every page in the TLB was already mapped to itself. */
  lemma ResetKeepsInvIff(t: Tlb, m: Machine)
    requires Inv(t, m) && Uniform(m.ctx)
    ensures ResetMachine(m).ctx.Valid()
    ensures Inv(t, ResetMachine(m)) <==>
      forall s: nat, vpn: nat, kind | s < ENTRIES && TagFor(t.Tags(kind)[s], vpn, m.checks.On(kind)) ::
        MappedToItself(m.ctx, vpn, kind)
  {
    ResetValid(m);
    var n := ResetMachine(m);
    hide Leads, MappedToItself, Structured, Context.Valid;
    forall s: nat, vpn: nat, kind | s < ENTRIES && TagFor(t.Tags(kind)[s], vpn, m.checks.On(kind))
      ensures Leads(n.ctx, vpn, kind, t.data[s]) <==> MappedToItself(m.ctx, vpn, kind)
    {
      ResetLeadsIff(m, vpn, kind, t.data[s]);
    }
  }

  /** A machine in supervisor mode whose first gigabyte of virtual memory is mapped to the second of
      physical memory by one leaf in the root table, which is on page 1; all that is RAM, and every byte
      of it is 0x80 to a load of one byte. */
  function Shifted(): Machine {
    var mem := Memory(map[0 := 0, 1 := PAGE, 0x4_0000 := 0x4000_0000],
                      (h: nat, n: nat) => if h == 0x1000 && n == 8 then 0x1000_004b else if n == 1 then 0x80 else 0,
                      (pa: nat, n: nat) => None, (pa: nat, n: nat) => false);
    Machine(Context(64, PRV_S, Mstatus(0, false, false, false, 0), 0x8000_0000_0000_0001, false, mem),
            Checks(false, false, false), [], false)
  }

  lemma ZeroFields(k: nat)
    ensures 0 / Pow2(k) == 0 && 0 % Pow2(k) == 0
  {
    DivMod(0, Pow2(k), 0, 0);
  }

  lemma ZeroCanonical(xlen: nat, vm: VmInfo)
    requires 0 < VaBits(vm) <= xlen + 1
    ensures !NonCanonical(xlen, vm, 0)
  {
    ZeroFields(VaBits(vm) - 1);
  }

  /** A hit that needs no check reads through the entry, wherever the walk would lead. */
  lemma HitReads(t: Tlb, m: Machine, addr: reg, len: nat, e: Entry)
    requires t.Valid() && m.ctx.Valid() && len > 0 && addr % len == 0 && Look(t, addr, LOAD) == Hit(e, false)
    ensures LoadStep(t, m, addr, len, false, false).1 ==
            (m, Ram(Plus(e.host, addr), m.ctx.mem.word(Plus(e.host, addr), len)))
  {
    hide Look, PlainLoad, AfterMiss;
  }

  const SHIFT_PTE: nat := 0x1000_004b

  lemma ShiftedLeaf()
    ensures Ppn(SHIFT_PTE) == 0x4_0000 && Ppn(SHIFT_PTE) % Pow2(18) == 0
    ensures !IsTable(SHIFT_PTE)
    ensures Permits(Shifted().ctx, PRV_S, LOAD, SHIFT_PTE) && Permits(Shifted().ctx, PRV_S, FETCH, SHIFT_PTE)
  {
    assert Pow2(18) == 0x4_0000;
    assert Pow2(0) == 1 && Pow2(1) == 2 && Pow2(3) == 8 && Pow2(4) == 16 && Pow2(6) == 64;
    assert PteV(SHIFT_PTE) && PteR(SHIFT_PTE) && PteX(SHIFT_PTE);
    assert PteA(SHIFT_PTE) && !PteU(SHIFT_PTE);
  }

  lemma RootPath(c: Context, vm: VmInfo, pte: nat, host: nat, n: nat, base: reg)
    requires AddrToMem(c.mem, base) == Some(host) && c.mem.word(host, vm.ptesize) == pte
    requires !IsTable(pte) && n > 0
    ensures Path(c, vm, 0, n, base, [pte])
  {
    hide IsTable, AddrToMem, Pow2;
    ZeroFields(12 + (n - 1) * vm.idxbits);
    ZeroFields(vm.idxbits);
    assert (base + 0 * vm.ptesize) % WORD == base;
    assert Selects(c, vm, 0, n - 1, base, pte);
  }

  /** Address 0 through a leaf in the first entry of the root table. */
  lemma RootLeaf(c: Context, vm: VmInfo, pte: nat, host: nat, kind: Access)
    requires c.Valid() && DecodeVmInfo(c.xlen, EffectiveMode(c, kind), c.satp) == Some(vm) && vm.levels > 0
    requires AddrToMem(c.mem, vm.ptbase) == Some(host) && c.mem.word(host, vm.ptesize) == pte
    requires !IsTable(pte) && Permits(c, EffectiveMode(c, kind), kind, pte)
    requires Ppn(pte) % Pow2((vm.levels - 1) * vm.idxbits) == 0
    ensures Translate(c, 0, kind) == Ok(Ppn(pte) * PAGE % WORD)
  {
    var j := vm.levels - 1;
    ValidVm(c, EffectiveMode(c, kind));
    hide Context.Valid, DecodeVmInfo, NonCanonical, Translate, IsTable, Permits, Ppn, Path, Pow2, EffectiveMode,
        AddrToMem;
    ZeroCanonical(c.xlen, vm);
    RootPath(c, vm, pte, host, vm.levels, vm.ptbase);
    ZeroFields(12 + j * vm.idxbits);
    TranslateMapped(c, 0, kind, vm, [pte], j);
  }

  lemma ShiftedTranslates()
    ensures Shifted().ctx.Valid() && Uniform(Shifted().ctx) && ChecksCover(Shifted())
    ensures Translate(Shifted().ctx, 0, LOAD) == Ok(0x4000_0000) == Translate(Shifted().ctx, 0, FETCH)
  {
    hide Translate, Permits, IsTable, Pow2, Ppn;
    ShiftedLeaf();
    RootLeaf(Shifted().ctx, VmInfo(3, 9, 8, 0x1000), SHIFT_PTE, 0x1000, LOAD);
    RootLeaf(Shifted().ctx, VmInfo(3, 9, 8, 0x1000), SHIFT_PTE, 0x1000, FETCH);
  }

  /** The TLB of a new processor, and the one after its first load, of address 0. */
  function Cold(): (t: Tlb)
    ensures Empty(t)
  {
    var none: seq<reg> := seq(ENTRIES, _ => INVALID);
    Tlb(none, none, none, seq(ENTRIES, _ => Entry(0, 0)))
  }

  lemma FirstLoad() returns (t: Tlb)
    ensures Inv(t, Shifted()) && Look(t, 0, LOAD) == Hit(Entry(0x4000_0000, 0x4000_0000), false)
  {
    var m := Shifted();
    ShiftedTranslates();
    EmptyInv(Cold(), m);
    AfterMissInv(Cold(), m, 0, LOAD, false);
    t := AfterMiss(Cold(), m, 0, LOAD, false);
    hide Inv, Translate, Structured, Coherent;
    assert t == Refill(Cold(), m.checks, 0, 0x4000_0000, 0x4000_0000, LOAD);
  }

  lemma PlainReads(m: Machine, addr: reg, len: nat, pa: reg, h: reg)
    requires m.ctx.Valid() && len > 0 && addr % len == 0 && m.triggers == []
    requires Translate(m.ctx, addr, LOAD) == Ok(pa) && AddrToMem(m.ctx.mem, pa) == Some(h)
    ensures PlainLoad(m, addr, len) == (m, Ram(h, m.ctx.mem.word(h, len)))
  {
    hide Translate;
  }

  /** After a reset, a load of address 0 still hits the page cached before it: it reads elsewhere. */
  lemma ResetBreaksHits() returns (t: Tlb, m: Machine)
    ensures Inv(t, m) && Uniform(m.ctx) && ResetMachine(m).ctx.Valid()
    ensures LoadStep(t, ResetMachine(m), 0, 8, false, false).1 != PlainLoad(ResetMachine(m), 0, 8)
  {
    hide Inv, Look, Translate, LoadStep, PlainLoad;
    m := Shifted();
    ShiftedTranslates();
    t := FirstLoad();
    InvValid(t, m);
    var n := ResetMachine(m);
    ResetTranslates(m, 0, LOAD);
    HitReads(t, n, 0, 8, Entry(0x4000_0000, 0x4000_0000));
    PlainReads(n, 0, 8, 0, 0);
  }

  lemma InvValid(t: Tlb, m: Machine)
    requires Inv(t, m)
    ensures t.Valid() && m.ctx.Valid() && ChecksCover(m)
  {}

  /** The same machine with one trigger, which stops accesses in supervisor mode before they are made. */
  function Watched(tr: Trigger): (m: Machine)
    ensures ChecksCover(m)
  {
    Shifted().(checks := ChecksOf([tr]), triggers := [tr])
  }

  /** A trigger on loads of 0x80, and one on fetches from address 0. */
  function LoadTrigger(): Trigger { Trigger(false, false, true, false, false, {PRV_S}, (a, d) => d == 0x80) }
  function FetchTrigger(): Trigger { Trigger(true, false, false, false, false, {PRV_S}, (a, d) => a == 0) }

  lemma LoadTriggerFires()
    ensures Watched(LoadTrigger()).checks == Checks(false, true, false)
    ensures TriggerMatch(Watched(LoadTrigger()), LOAD, 0, 0x80) == Some(0)
    ensures TriggerMatch(Watched(LoadTrigger()), LOAD, 0, SignExtend(0x80, 1)) == None
  {
    var m, tr := Watched(LoadTrigger()), LoadTrigger();
    assert m.triggers == [tr] && m.triggers[0].load;
    assert Pow2(8) == 0x100;
    assert FirstMatch([tr], 1, PRV_S, LOAD, 0, SignExtend(0x80, 1)) == None;
  }

  lemma FetchTriggerFires()
    ensures Watched(FetchTrigger()).checks == Checks(true, false, false)
    ensures TriggerMatch(Watched(FetchTrigger()), FETCH, 0, 0) == Some(0)
  {
    assert Watched(FetchTrigger()).triggers[0].execute;
  }

  /** The TLB after the first access to address 0, which is checked. */
  lemma FirstChecked(m: Machine, kind: Access) returns (t: Tlb)
    requires kind != STORE && m == Shifted().(checks := m.checks, triggers := m.triggers)
    requires m.checks.On(kind) && ChecksCover(m)
    ensures Inv(Cold(), m) && Uniform(m.ctx) && t == AfterMiss(Cold(), m, 0, kind, false) && Inv(t, m)
    ensures Look(Cold(), 0, kind) == Miss && Look(t, 0, kind) == Hit(Entry(0x4000_0000, 0x4000_0000), true)
    ensures Translate(m.ctx, 0, kind) == Ok(0x4000_0000) && AddrToMem(m.ctx.mem, 0x4000_0000) == Some(0x4000_0000)
  {
    ShiftedTranslates();
    EmptyInv(Cold(), m);
    AfterMissInv(Cold(), m, 0, kind, false);
    t := AfterMiss(Cold(), m, 0, kind, false);
    hide Inv, Translate, Structured, Coherent;
    assert t == Refill(Cold(), m.checks, 0, 0x4000_0000, 0x4000_0000, kind);
  }

  /** From an empty TLB, the same signed load is stopped by its trigger the first time, and overlooked the
      second time, when it hits. */
  lemma SignedLoadOverlooksTrigger()
    ensures var m, op := Watched(LoadTrigger()), OpLoad(0, 1, true, false);
      && Inv(Cold(), m) && AllowedRun(m, [op, op]) && m.ctx.Valid() && !AllExact(Cold(), m, [op, op])
      && FastRun(Cold(), m, [op, op]) == [Some(TriggerHit(0)), Some(Ram(0x4000_0000, 0x80))]
      && PlainRun(m, [op, op]) == [Some(TriggerHit(0)), Some(TriggerHit(0))]
  {
    LoadTriggerFires();
    var m, op := Watched(LoadTrigger()), OpLoad(0, 1, true, false);
    var t := FirstChecked(m, LOAD);
    hide Inv, Translate, Look, AfterMiss, FirstMatch, SignExtend, Watched, LoadTrigger;
    assert PlainStep(m, op) == (m, Some(TriggerHit(0)));
    assert Apply(Cold(), m, op) == (t, (m, Some(TriggerHit(0))));
    assert Apply(t, m, op) == (t, (m, Some(Ram(0x4000_0000, 0x80))));
    assert Allowed(m, op);
    TwoSteps(Cold(), t, t, m, op, TriggerHit(0), Ram(0x4000_0000, 0x80), TriggerHit(0));
  }

  /** From an empty TLB, the same fetch goes through the first time, and is stopped by its trigger the
      second time, when it hits. */
  lemma FetchOverlooksTrigger()
    ensures var m, op := Watched(FetchTrigger()), OpFetch(0);
      && Inv(Cold(), m) && AllowedRun(m, [op, op]) && m.ctx.Valid() && !AllExact(Cold(), m, [op, op])
      && FastRun(Cold(), m, [op, op]) == [Some(Ram(0x4000_0000, 0)), Some(TriggerHit(0))]
      && PlainRun(m, [op, op]) == [Some(TriggerHit(0)), Some(TriggerHit(0))]
  {
    FetchTriggerFires();
    var m, op := Watched(FetchTrigger()), OpFetch(0);
    var t := FirstChecked(m, FETCH);
    hide Inv, Translate, Look, AfterMiss, FirstMatch, Watched, FetchTrigger;
    assert PlainStep(m, op) == (m, Some(TriggerHit(0)));
    assert Apply(Cold(), m, op) == (t, (m, Some(Ram(0x4000_0000, 0))));
    assert Apply(t, m, op) == (t, (m, Some(TriggerHit(0))));
    TwoSteps(Cold(), t, t, m, op, Ram(0x4000_0000, 0), TriggerHit(0), TriggerHit(0));
  }

  /** A run of two equal accesses that change at most the TLB and do not both come out as they should. */
  lemma TwoSteps(t0: Tlb, t1: Tlb, t2: Tlb, m: Machine, op: Op, o1: Outcome, o2: Outcome, plain: Outcome)
    requires Inv(t0, m) && Allowed(m, op) && op.IsAccess() && (o1 != plain || o2 != plain)
    requires Apply(t0, m, op) == (t1, (m, Some(o1))) && t1.Valid() && Apply(t1, m, op) == (t2, (m, Some(o2)))
    requires PlainStep(m, op) == (m, Some(plain))
    ensures AllowedRun(m, [op, op]) && !AllExact(t0, m, [op, op])
    ensures FastRun(t0, m, [op, op]) == [Some(o1), Some(o2)] && PlainRun(m, [op, op]) == [Some(plain), Some(plain)]
  {
    hide PlainStep, Apply, Allowed, Inv;
    InvValid(t0, m);
    var ops := [op, op];
    assert ops[1..] == [op] && [op][1..] == [];
    assert AllowedRun(m, [op]);
    assert AllowedRun(m, ops);
    AllowedAfter(t0, m, ops);
    AllowedAfter(t1, m, [op]);
    assert FastRun(t1, m, [op]) == [Some(o2)];
    assert PlainRun(m, [op]) == [Some(plain)];
    assert PlainRun(m, ops) == [Some(plain)] + PlainRun(m, ops[1..]);
    RunExactIff(t0, m, ops);
    var fast, slow := FastRun(t0, m, ops), PlainRun(m, ops);
    assert fast[0] == Some(o1) && fast[1] == Some(o2) && slow[0] == slow[1] == Some(plain);
  }

  // ---------------------------------------------------------------- the simulator's own objects

  /** A processor with its memory management unit: the three tag arrays share one data array. */
  class Hart {
    var machine: Machine
    const insnTag: array<reg>
    const loadTag: array<reg>
    const storeTag: array<reg>
    const data: array<Entry>

    ghost predicate Valid()
      reads this, insnTag, loadTag, storeTag, data
    {
      && insnTag.Length == loadTag.Length == storeTag.Length == data.Length == ENTRIES
      && insnTag != loadTag && loadTag != storeTag && insnTag != storeTag
      && Inv(Contents(), machine)
    }

    ghost function Contents(): Tlb
      reads insnTag, loadTag, storeTag, data
    {
      Tlb(insnTag[..], loadTag[..], storeTag[..], data[..])
    }

    constructor (c: Context)
      requires c.Valid()
      ensures Valid() && fresh(insnTag) && fresh(loadTag) && fresh(storeTag) && fresh(data)
      ensures machine == Machine(c, Checks(false, false, false), [], false) && Empty(Contents())
    {
      machine := Machine(c, Checks(false, false, false), [], false);
      insnTag := new reg[ENTRIES](_ => INVALID);
      loadTag := new reg[ENTRIES](_ => INVALID);
      storeTag := new reg[ENTRIES](_ => INVALID);
      data := new Entry[ENTRIES](_ => Entry(0, 0));
      new;
      EmptyInv(Contents(), machine);
    }

    method FlushTlb()
      requires Valid()
      modifies insnTag, loadTag, storeTag
      ensures Contents() == Flushed(old(Contents())) && Valid()
    {
      ghost var t := Contents();
      forall i | 0 <= i < ENTRIES { insnTag[i] := INVALID; }
      forall i | 0 <= i < ENTRIES { loadTag[i] := INVALID; }
      forall i | 0 <= i < ENTRIES { storeTag[i] := INVALID; }
      assert Contents() == Flushed(t);
      EmptyInv(Contents(), machine);
    }

    method DropOthers(tags: array<reg>, idx: nat, vpn: nat)
      requires idx < tags.Length
      modifies tags
      ensures tags[..] == Dropped(old(tags[..]), idx, vpn)
    {
      if tags[idx] % CHECK != vpn {
        tags[idx] := INVALID;
      }
    }

    /** Enter a translated page; the caller knows that the walk led there. */
    method RefillTlb(vaddr: reg, paddr: reg, host: reg, kind: Access) returns (entry: Entry)
      requires Valid()
      requires Translate(machine.ctx, vaddr, kind) == Ok(paddr) && AddrToMem(machine.ctx.mem, paddr) == Some(host)
      modifies insnTag, loadTag, storeTag, data
      ensures Contents() == Refill(old(Contents()), machine.checks, vaddr, paddr, host, kind) && Valid()
      ensures entry == Entry(Minus(host, vaddr), Minus(paddr, vaddr))
    {
      hide Inv, Translate, AddrToMem;
      ghost var t := Contents();
      RefillInv(t, machine, vaddr, paddr, host, kind);
      InvValid(t, machine);
      var idx := vaddr / PAGE % ENTRIES;
      var tag := vaddr / PAGE;
      DropOthers(loadTag, idx, tag);
      DropOthers(storeTag, idx, tag);
      DropOthers(insnTag, idx, tag);
      if machine.checks.On(kind) {
        tag := tag + CHECK;
      }
      match kind {
        case FETCH => insnTag[idx] := tag;
        case STORE => storeTag[idx] := tag;
        case LOAD => loadTag[idx] := tag;
      }
      entry := Entry(Minus(host, vaddr), Minus(paddr, vaddr));
      data[idx] := entry;
    }

    method CheckTriggers(kind: Access, addr: reg, datum: reg, o: Outcome) returns (r: Outcome)
      requires Valid()
      modifies `machine
      ensures Valid() && (machine, r) == CheckTrigger(old(machine), kind, addr, datum, o)
    {
      hide Structured, Coherent;
      r := o;
      if !machine.pending {
        var fired := TriggerMatch(machine, kind, addr, datum);
        if fired.Some? {
          machine := machine.(pending := machine.triggers[fired.value].timing);
          r := TriggerHit(fired.value);
        }
      }
    }

    method SlowLoad(addr: reg, len: nat, traced: bool) returns (r: Outcome)
      requires Valid() && len > 0 && addr % len == 0 && Look(Contents(), addr, LOAD) == Miss
      modifies `machine, insnTag, loadTag, storeTag, data
      ensures Valid() && (Contents(), (machine, r)) == LoadStep(old(Contents()), old(machine), addr, len, false, traced)
    {
      hide Inv;
      InvValid(Contents(), machine);
      var pa := Translate(machine.ctx, addr, LOAD);
      hide Translate;
      if !pa.Ok? {
        return Trap(pa);
      }
      var host := AddrToMem(machine.ctx.mem, pa.addr);
      if host.Some? {
        var datum := machine.ctx.mem.word(host.value, len);
        if !traced {
          var _ := RefillTlb(addr, pa.addr, host.value, LOAD);
        }
        r := CheckTriggers(LOAD, addr, datum, Ram(host.value, datum));
      } else {
        var datum := machine.ctx.mem.device(pa.addr, len);
        if datum == None {
          return AccessFault(LOAD, addr);
        }
        r := CheckTriggers(LOAD, addr, datum.value, Device(pa.addr, datum.value));
      }
    }

    method Load(addr: reg, len: nat, signed: bool, traced: bool) returns (r: Outcome)
      requires Valid() && len in {1, 2, 4, 8}
      modifies `machine, insnTag, loadTag, storeTag, data
      ensures Valid()
      ensures (Contents(), (machine, r)) == LoadStep(old(Contents()), old(machine), addr, len, signed, traced)
      ensures Uniform(old(machine.ctx)) ==>
                ((machine, r) == PlainLoad(old(machine), addr, len) <==>
                 old(Contents().Valid() && machine.ctx.Valid() && LoadExact(Contents(), machine, addr, len, signed)))
    {
      ghost var t, m := Contents(), machine;
      if Uniform(m.ctx) {
        LoadRefinesIff(t, m, addr, len, signed, traced);
      }
      hide Inv, PlainLoad, AfterMiss, LoadExact;
      InvValid(t, m);
      if addr % len != 0 {
        return Misaligned(LOAD, addr);
      }
      var vpn := addr / PAGE;
      var idx := vpn % ENTRIES;
      if loadTag[idx] == vpn {
        var h := Plus(data[idx].host, addr);
        return Ram(h, machine.ctx.mem.word(h, len));
      }
      if loadTag[idx] == vpn + CHECK {
        var h := Plus(data[idx].host, addr);
        var datum := machine.ctx.mem.word(h, len);
        r := CheckTriggers(LOAD, addr, if signed then SignExtend(datum, len) else datum, Ram(h, datum));
        return;
      }
      r := SlowLoad(addr, len, traced);
    }

    method SlowStore(addr: reg, len: nat, val: reg, traced: bool) returns (r: Outcome)
      requires Valid() && len > 0 && addr % len == 0 && Look(Contents(), addr, STORE) == Miss
      modifies `machine, insnTag, loadTag, storeTag, data
      ensures Valid() && (Contents(), (machine, r)) == StoreStep(old(Contents()), old(machine), addr, len, val, traced)
    {
      hide Inv;
      InvValid(Contents(), machine);
      var pa := Translate(machine.ctx, addr, STORE);
      hide Translate;
      if !pa.Ok? {
        return Trap(pa);
      }
      var none := AccessFault(STORE, addr);
      var stopped := CheckTriggers(STORE, addr, val, none);
      if stopped.TriggerHit? {
        return stopped;
      }
      var host := AddrToMem(machine.ctx.mem, pa.addr);
      if host.Some? {
        if !traced {
          var _ := RefillTlb(addr, pa.addr, host.value, STORE);
        }
        r := Ram(host.value, val);
      } else if machine.ctx.mem.accepts(pa.addr, len) {
        r := Device(pa.addr, val);
      } else {
        r := none;
      }
    }

    method Store(addr: reg, len: nat, val: reg, traced: bool) returns (r: Outcome)
      requires Valid() && len in {1, 2, 4, 8}
      modifies `machine, insnTag, loadTag, storeTag, data
      ensures Valid() && (Contents(), (machine, r)) == StoreStep(old(Contents()), old(machine), addr, len, val, traced)
      ensures Uniform(old(machine.ctx)) ==> (machine, r) == PlainStore(old(machine), addr, len, val)
    {
      ghost var t, m := Contents(), machine;
      if Uniform(m.ctx) {
        StoreRefines(t, m, addr, len, val, traced);
      }
      hide Inv, PlainStore, AfterMiss;
      InvValid(t, m);
      if addr % len != 0 {
        return Misaligned(STORE, addr);
      }
      var vpn := addr / PAGE;
      var idx := vpn % ENTRIES;
      if storeTag[idx] == vpn {
        return Ram(Plus(data[idx].host, addr), val);
      }
      if storeTag[idx] == vpn + CHECK {
        r := CheckTriggers(STORE, addr, val, Ram(Plus(data[idx].host, addr), val));
        return;
      }
      r := SlowStore(addr, len, val, traced);
    }

    method Fetch(addr: reg) returns (r: Outcome)
      requires Valid()
      modifies insnTag, loadTag, storeTag, data
      ensures Valid() && (Contents(), r) == FetchStep(old(Contents()), machine, addr)
    {
      hide Inv;
      InvValid(Contents(), machine);
      var vpn := addr / PAGE;
      var idx := vpn % ENTRIES;
      var h := Plus(data[idx].host, addr);
      var datum := machine.ctx.mem.word(h, 2);
      if insnTag[idx] == vpn {
        return Ram(h, datum);
      }
      if insnTag[idx] == vpn + CHECK {
        var fired := TriggerMatch(machine, FETCH, addr, datum);
        return if fired.Some? then TriggerHit(fired.value) else Ram(h, datum);
      }
      var pa := Translate(machine.ctx, addr, FETCH);
      hide Translate;
      if !pa.Ok? {
        return Trap(pa);
      }
      var host := AddrToMem(machine.ctx.mem, pa.addr);
      if host.Some? {
        var _ := RefillTlb(addr, pa.addr, host.value, FETCH);
        return Ram(host.value, machine.ctx.mem.word(host.value, 2));
      }
      var got := machine.ctx.mem.device(pa.addr, 2);
      r := if got.Some? then Device(pa.addr, got.value) else AccessFault(FETCH, addr);
    }

    method DoSetPrivilege(prv: nat)
      requires Valid() && prv <= PRV_M
      modifies `machine, insnTag, loadTag, storeTag
      ensures Valid() && machine == Control(old(machine), SetPrivilege(prv))
      ensures Contents() == Apply(old(Contents()), old(machine), SetPrivilege(prv)).0
    {
      ControlKeepsInv(Contents(), machine, SetPrivilege(prv));
      hide Inv;
      FlushTlb();
      machine := machine.(ctx := machine.ctx.(prv := if prv == PRV_H then PRV_U else prv));
    }

    method DoSetMstatus(val: Mstatus)
      requires Valid() && val.mpp <= PRV_M
      modifies `machine, insnTag, loadTag, storeTag
      ensures Valid() && machine == Control(old(machine), SetMstatus(val))
      ensures Contents() == Apply(old(Contents()), old(machine), SetMstatus(val)).0
    {
      ControlKeepsInv(Contents(), machine, SetMstatus(val));
      hide Inv;
      var was := machine.ctx.mstatus;
      if val.mpp != was.mpp || val.mprv != was.mprv || val.sum != was.sum || val.mxr != was.mxr {
        FlushTlb();
      }
      machine := machine.(ctx := machine.ctx.(mstatus := val));
    }

    method DoSetSatp(val: reg)
      requires Valid()
      modifies `machine, insnTag, loadTag, storeTag
      ensures Valid() && machine == Control(old(machine), SetSatp(val))
      ensures Contents() == Apply(old(Contents()), old(machine), SetSatp(val)).0
    {
      ControlKeepsInv(Contents(), machine, SetSatp(val));
      hide Inv;
      InvValid(Contents(), machine);
      FlushTlb();
      machine := machine.(ctx := machine.ctx.(satp := NewSatp(machine.ctx, val)));
    }

    /** tdata2 of a trigger, without a flush: it watches the same accesses as before. */
    method SetTdata2(index: nat, fires: (nat, nat) -> bool)
      requires Valid()
      modifies `machine
      ensures Valid() && machine == Control(old(machine), SetTriggerData(index, fires))
    {
      ControlKeepsInv(Contents(), machine, SetTriggerData(index, fires));
      hide Inv;
      if index < |machine.triggers| {
        var tr := machine.triggers[index];
        machine := machine.(triggers := machine.triggers[index := tr.(fires := fires)]);
      }
    }

    /** New triggers: flush, and find out which accesses must be checked from now on. */
    method TriggerUpdated(triggers: seq<Trigger>)
      requires Valid()
      modifies `machine, insnTag, loadTag, storeTag
      ensures Valid() && machine == Control(old(machine), SetTriggers(triggers))
      ensures Contents() == Apply(old(Contents()), old(machine), SetTriggers(triggers)).0
    {
      ControlKeepsInv(Contents(), machine, SetTriggers(triggers));
      hide Inv;
      FlushTlb();
      var fetch, load, store := false, false, false;
      for i := 0 to |triggers|
        invariant fetch <==> exists j :: 0 <= j < i && triggers[j].execute
        invariant load <==> exists j :: 0 <= j < i && triggers[j].load
        invariant store <==> exists j :: 0 <= j < i && triggers[j].store
      {
        fetch := fetch || triggers[i].execute;
        load := load || triggers[i].load;
        store := store || triggers[i].store;
      }
      machine := machine.(triggers := triggers, checks := Checks(fetch, load, store));
    }
  }
}
