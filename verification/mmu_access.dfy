/** What loads, stores and fetches without a TLB come to, said by the fields of the triggers and by where the
    architecture maps an address; and what the control writes make of translation. */
module Accesses {
  import opened Bits
  import opened Walk
  import opened Tlb
  import opened Architecture
  import W = Triggers

  // ---------------------------------------------------------------- triggers

  /** The trigger watches such accesses in this mode, fires on this one, and is not chained to the next. */
  predicate Stops(t: Trigger, prv: nat, kind: Access, addr: nat, data: nat) {
    && (kind == FETCH ==> t.execute) && (kind == LOAD ==> t.load) && (kind == STORE ==> t.store)
    && prv in t.modes && t.fires(addr, data) && !t.chain
  }

  /** Outside debug mode, trigger i is the first that stops the access. */
  predicate StoppedBy(m: Machine, kind: Access, addr: nat, data: nat, i: nat) {
    && !m.ctx.debug && i < |m.triggers| && Stops(m.triggers[i], m.ctx.prv, kind, addr, data)
    && forall j | 0 <= j < i :: !Stops(m.triggers[j], m.ctx.prv, kind, addr, data)
  }

  /** No trigger stops it. */
  predicate Unstopped(m: Machine, kind: Access, addr: nat, data: nat) {
    m.ctx.debug || forall j | 0 <= j < |m.triggers| :: !Stops(m.triggers[j], m.ctx.prv, kind, addr, data)
  }

  lemma {:induction false} FirstMatchIff(ts: seq<Trigger>, k: nat, prv: nat, kind: Access, addr: reg, data: reg, i: nat)
    requires k <= |ts|
    ensures var r := FirstMatch(ts, k, prv, kind, addr, data);
      && (r == Some(i) <==> k <= i < |ts| && Stops(ts[i], prv, kind, addr, data)
                            && forall j | k <= j < i :: !Stops(ts[j], prv, kind, addr, data))
      && (r == None <==> forall j | k <= j < |ts| :: !Stops(ts[j], prv, kind, addr, data))
    decreases |ts| - k
  {
    if k < |ts| {
      assert Stops(ts[k], prv, kind, addr, data) <==>
             ts[k].Watches(kind) && prv in ts[k].modes && ts[k].fires(addr, data) && !ts[k].chain;
      FirstMatchIff(ts, k + 1, prv, kind, addr, data, i);
      hide Stops;
    }
  }

  /** The trigger that matches an access is the first one that watches it in the current mode, fires and is
      not chained; none does in debug mode. */
  lemma TriggerMatchIff(m: Machine, kind: Access, addr: reg, data: reg, i: nat)
    ensures TriggerMatch(m, kind, addr, data) == Some(i) <==> StoppedBy(m, kind, addr, data, i)
    ensures TriggerMatch(m, kind, addr, data) == None <==> Unstopped(m, kind, addr, data)
  {
    FirstMatchIff(m.triggers, 0, m.ctx.prv, kind, addr, data, i);
    hide FirstMatch, Stops;
  }

  /** With a match still pending an access is not checked. A match stops the access, and stays pending if the
      trigger fires after the access. */
  lemma CheckMeans(m: Machine, kind: Access, addr: reg, data: reg, o: Outcome, i: nat)
    requires !o.TriggerHit?
    ensures var (m', r) := CheckTrigger(m, kind, addr, data, o);
      && (r == o <==> m.pending || Unstopped(m, kind, addr, data))
      && (r == TriggerHit(i) <==> !m.pending && StoppedBy(m, kind, addr, data, i))
      && (r == TriggerHit(i) ==> m' == m.(pending := m.triggers[i].timing))
      && (r == o ==> m' == m)
      && (r == o || r.TriggerHit?)
  {
    TriggerMatchIff(m, kind, addr, data, i);
    hide TriggerMatch, StoppedBy, Unstopped;
    if k :| TriggerMatch(m, kind, addr, data) == Some(k) {}
  }

  // ---------------------------------------------------------------- where bytes lie

  /** Physical address pa is byte h of the host. */
  predicate HostByte(mem: Memory, pa: nat, h: nat) {
    pa / 4096 in mem.pages && h == mem.pages[pa / 4096] + pa % 4096
  }

  predicate OutsideRam(mem: Memory, pa: nat) { pa / 4096 !in mem.pages }

  /** Reading len bytes at pa gives d. */
  predicate Holds(mem: Memory, pa: nat, len: nat, d: nat) {
    if pa / 4096 in mem.pages then d == mem.word(mem.pages[pa / 4096] + pa % 4096, len)
    else mem.device(pa, len) == Some(d)
  }

  // ---------------------------------------------------------------- loads

  /** A load gives bytes of RAM exactly if it is aligned, its address is mapped to them, and no trigger stops it. */
  lemma LoadFromRamIff(m: Machine, addr: reg, len: nat, h: reg, d: reg)
    requires m.ctx.Valid() && len > 0
    ensures PlainLoad(m, addr, len).1 == Ram(h, d) <==>
            addr % len == 0 && (m.pending || Unstopped(m, LOAD, addr, d)) && d == m.ctx.mem.word(h, len) &&
            exists pa: reg :: Reaches(m.ctx, LOAD, addr, pa) && HostByte(m.ctx.mem, pa, h)
  {
    hide Reaches, Translate, Unstopped, CheckTrigger;
    Unique(m.ctx, LOAD, addr);
    var r := Translate(m.ctx, addr, LOAD);
    if r.Ok? { LoadChecked(m, addr, len, r.addr, 0); }
  }

  lemma LoadFromDeviceIff(m: Machine, addr: reg, len: nat, pa: reg, d: reg)
    requires m.ctx.Valid() && len > 0
    ensures PlainLoad(m, addr, len).1 == Device(pa, d) <==>
            && addr % len == 0 && (m.pending || Unstopped(m, LOAD, addr, d))
            && Reaches(m.ctx, LOAD, addr, pa) && OutsideRam(m.ctx.mem, pa) && m.ctx.mem.device(pa, len) == Some(d)
  {
    hide Reaches, Translate, Unstopped, CheckTrigger;
    Unique(m.ctx, LOAD, addr);
    var r := Translate(m.ctx, addr, LOAD);
    if r.Ok? { LoadChecked(m, addr, len, r.addr, 0); }
  }

  /** It is stopped by the first trigger that the loaded datum makes fire. */
  lemma LoadStoppedIff(m: Machine, addr: reg, len: nat, i: nat)
    requires m.ctx.Valid() && len > 0
    ensures var (m', o) := PlainLoad(m, addr, len);
      && (o == TriggerHit(i) <==>
          addr % len == 0 && !m.pending &&
          exists pa: reg, d: reg :: Reaches(m.ctx, LOAD, addr, pa) && Holds(m.ctx.mem, pa, len, d)
                                    && StoppedBy(m, LOAD, addr, d, i))
      && (o == TriggerHit(i) ==> i < |m.triggers| && m' == m.(pending := m.triggers[i].timing))
      && (!o.TriggerHit? ==> m' == m)
  {
    hide Reaches, Translate, StoppedBy, CheckTrigger;
    Unique(m.ctx, LOAD, addr);
    var r := Translate(m.ctx, addr, LOAD);
    if r.Ok? { LoadChecked(m, addr, len, r.addr, i); }
  }

  /** It fails by alignment, by translation, or where there is neither RAM nor a device that answers. */
  lemma LoadFailsIff(m: Machine, addr: reg, len: nat, cause: Result)
    requires m.ctx.Valid() && len > 0
    ensures var o := PlainLoad(m, addr, len).1;
      && (o == Misaligned(LOAD, addr) <==> addr % len != 0)
      && (o == Trap(cause) <==> addr % len == 0 && !cause.Ok? && Translate(m.ctx, addr, LOAD) == cause)
      && (o == AccessFault(LOAD, addr) <==>
          addr % len == 0 &&
          exists pa: reg :: Reaches(m.ctx, LOAD, addr, pa) && OutsideRam(m.ctx.mem, pa)
                            && m.ctx.mem.device(pa, len) == None)
  {
    hide Reaches, Translate, CheckTrigger;
    Unique(m.ctx, LOAD, addr);
    var r := Translate(m.ctx, addr, LOAD);
    if r.Ok? { LoadChecked(m, addr, len, r.addr, 0); }
  }

  lemma Unique(c: Context, kind: Access, addr: reg)
    requires c.Valid()
    ensures forall pa: reg :: Reaches(c, kind, addr, pa) <==> Translate(c, addr, kind) == Ok(pa)
  {
    hide Reaches, Translate;
    forall pa: reg ensures Reaches(c, kind, addr, pa) <==> Translate(c, addr, kind) == Ok(pa) {
      TranslateIff(c, addr, kind, pa);
    }
  }

  lemma LoadChecked(m: Machine, addr: reg, len: nat, pa: reg, i: nat)
    requires m.ctx.Valid()
    ensures var (m', o) := RamOrDevice(m, addr, len, pa, false);
      && (forall h: reg, d: reg ::
            o == Ram(h, d) <==>
            (m.pending || Unstopped(m, LOAD, addr, d)) && HostByte(m.ctx.mem, pa, h) && d == m.ctx.mem.word(h, len))
      && (forall d: reg ::
            o == Device(pa, d) <==>
            && (m.pending || Unstopped(m, LOAD, addr, d))
            && OutsideRam(m.ctx.mem, pa) && m.ctx.mem.device(pa, len) == Some(d))
      && (o == TriggerHit(i) <==>
          !m.pending && exists d: reg :: Holds(m.ctx.mem, pa, len, d) && StoppedBy(m, LOAD, addr, d, i))
      && (o == AccessFault(LOAD, addr) <==> OutsideRam(m.ctx.mem, pa) && m.ctx.mem.device(pa, len) == None)
      && (o == TriggerHit(i) ==> i < |m.triggers| && m' == m.(pending := m.triggers[i].timing))
      && (!o.TriggerHit? ==> m' == m)
      && (o.Ram? || o == AccessFault(LOAD, addr) || o.TriggerHit? || (o.Device? && o.paddr == pa))
  {
    match AddrToMem(m.ctx.mem, pa) {
      case Some(h) =>
        var data := m.ctx.mem.word(h, len);
        CheckMeans(m, LOAD, addr, data, Ram(h, data), i);
      case None =>
        match m.ctx.mem.device(pa, len) {
          case Some(d) => CheckMeans(m, LOAD, addr, d, Device(pa, d), i);
          case None =>
        }
    }
    hide CheckTrigger, Unstopped, Stops;
  }

  lemma SignSum(data: nat, half: nat, top: nat)
    requires half <= data < 2 * half && top > 0 && 2 * half * top == WORD
    ensures var r := data + WORD - 2 * half; r % (2 * half) == data && r / half == 2 * top - 1
  {
    var r := data + WORD - 2 * half;
    assert (top - 1) * (2 * half) == WORD - 2 * half;
    DivMod(r, 2 * half, top - 1, data);
    assert (2 * top - 1) * half == WORD - half;
    DivMod(r, half, 2 * top - 1, data - half);
  }

  /** The datum that a checked signed load shows to the triggers: the loaded bytes, and above them copies of their
      top bit. */
  lemma SignExtendMeans(data: reg, len: nat)
    requires len in {1, 2, 4, 8} && data < Pow2(8 * len)
    ensures SignExtend(data, len) % Pow2(8 * len) == data && Extended(SignExtend(data, len), 8 * len - 1)
  {
    var k := 8 * len - 1;
    var half, top := Pow2(k), Pow2(63 - k);
    assert Pow2(k + 1) == 2 * half && Pow2(64 - k) == 2 * top;
    Pow2Values();
    Pow2Add(k + 1, 63 - k);
    ExtendedIff(SignExtend(data, len), k);
    hide Extended, Pow2;
    if data < half {
      DivMod(data, half, 0, data);
      DivMod(data, 2 * half, 0, data);
    } else if len < 8 {
      SignSum(data, half, top);
    } else {
      DivMod(data, 2 * half, 0, data);
      DivMod(data, half, 1, data - half);
    }
  }

  // ---------------------------------------------------------------- stores

  lemma StoreChecked(m: Machine, addr: reg, len: nat, val: reg, pa: reg, i: nat)
    requires m.ctx.Valid()
    ensures var (m', o) := CheckTrigger(m, STORE, addr, val, StoreTo(m, addr, len, pa, val));
      var through := m.pending || Unstopped(m, STORE, addr, val);
      && (forall h: reg, d: reg :: o == Ram(h, d) <==> through && d == val && HostByte(m.ctx.mem, pa, h))
      && (forall d: reg ::
            o == Device(pa, d) <==> through && d == val && OutsideRam(m.ctx.mem, pa) && m.ctx.mem.accepts(pa, len))
      && (o == AccessFault(STORE, addr) <==> through && OutsideRam(m.ctx.mem, pa) && !m.ctx.mem.accepts(pa, len))
      && (o == TriggerHit(i) <==> !m.pending && StoppedBy(m, STORE, addr, val, i))
      && (o == TriggerHit(i) ==> m' == m.(pending := m.triggers[i].timing))
      && (!o.TriggerHit? ==> m' == m)
      && (o.Ram? || o == AccessFault(STORE, addr) || o.TriggerHit? || (o.Device? && o.paddr == pa))
  {
    CheckMeans(m, STORE, addr, val, StoreTo(m, addr, len, pa, val), i);
    hide CheckTrigger, Unstopped, StoppedBy, Stops;
  }

  /** A store reaches bytes of RAM, with its value, exactly if it is aligned, its address is mapped to them, and no
      trigger stops it; outside RAM exactly if a device takes it. */
  lemma StoreCompletesIff(m: Machine, addr: reg, len: nat, val: reg, h: reg, pa: reg, d: reg)
    requires m.ctx.Valid() && len > 0
    ensures var o := PlainStore(m, addr, len, val).1;
      var through := addr % len == 0 && (m.pending || Unstopped(m, STORE, addr, val));
      && (o == Ram(h, d) <==>
          through && d == val && exists p: reg :: Reaches(m.ctx, STORE, addr, p) && HostByte(m.ctx.mem, p, h))
      && (o == Device(pa, d) <==>
          && through && d == val
          && Reaches(m.ctx, STORE, addr, pa) && OutsideRam(m.ctx.mem, pa) && m.ctx.mem.accepts(pa, len))
  {
    hide Reaches, Translate, Unstopped, CheckTrigger, StoreTo;
    Unique(m.ctx, STORE, addr);
    var r := Translate(m.ctx, addr, STORE);
    if r.Ok? { StoreChecked(m, addr, len, val, r.addr, 0); }
  }

  /** It is stopped by the first trigger that its value makes fire, wherever it would have gone. */
  lemma StoreStoppedIff(m: Machine, addr: reg, len: nat, val: reg, i: nat)
    requires m.ctx.Valid() && len > 0
    ensures var (m', o) := PlainStore(m, addr, len, val);
      && (o == TriggerHit(i) <==>
          && addr % len == 0 && !m.pending && StoppedBy(m, STORE, addr, val, i)
          && exists pa: reg :: Reaches(m.ctx, STORE, addr, pa))
      && (o == TriggerHit(i) ==> m' == m.(pending := m.triggers[i].timing))
      && (!o.TriggerHit? ==> m' == m)
  {
    hide Reaches, Translate, StoppedBy, CheckTrigger, StoreTo;
    Unique(m.ctx, STORE, addr);
    var r := Translate(m.ctx, addr, STORE);
    if r.Ok? { StoreChecked(m, addr, len, val, r.addr, i); }
  }

  lemma StoreFailsIff(m: Machine, addr: reg, len: nat, val: reg, cause: Result)
    requires m.ctx.Valid() && len > 0
    ensures var o := PlainStore(m, addr, len, val).1;
      && (o == Misaligned(STORE, addr) <==> addr % len != 0)
      && (o == Trap(cause) <==> addr % len == 0 && !cause.Ok? && Translate(m.ctx, addr, STORE) == cause)
      && (o == AccessFault(STORE, addr) <==>
          addr % len == 0 && (m.pending || Unstopped(m, STORE, addr, val)) &&
          exists pa: reg :: Reaches(m.ctx, STORE, addr, pa) && OutsideRam(m.ctx.mem, pa)
                            && !m.ctx.mem.accepts(pa, len))
  {
    hide Reaches, Translate, Unstopped, CheckTrigger, StoreTo;
    Unique(m.ctx, STORE, addr);
    var r := Translate(m.ctx, addr, STORE);
    if r.Ok? { StoreChecked(m, addr, len, val, r.addr, 0); }
  }

  /** A watchpoint on a range of addresses stops a store that is mapped, in a mode that it watches, exactly if the
      address is in the lower half of the range. */
  lemma WatchpointIff(m: Machine, addr: reg, len: nat, val: reg, t: Trigger, tdata2: reg, pa: reg)
    requires m.ctx.Valid() && len > 0 && addr % len == 0 && Reaches(m.ctx, STORE, addr, pa)
    requires W.TrailingOnes(tdata2) <= 30 && t.fires == W.FiresOn(W.Napot, m.ctx.xlen, false, tdata2)
    requires m.triggers == [t] && t.store && !t.chain && m.ctx.prv in t.modes && !m.ctx.debug && !m.pending
    ensures var k := W.TrailingOnes(tdata2);
      var a: nat := if m.ctx.xlen == 32 then addr % 0x1_0000_0000 else addr;
      PlainStore(m, addr, len, val).1 == TriggerHit(0) <==> W.InRange(a, tdata2, k + 1) && !Bit(a, k)
  {
    var a: nat := if m.ctx.xlen == 32 then addr % 0x1_0000_0000 else addr;
    StoreStoppedIff(m, addr, len, val, 0);
    W.NapotLowerHalf(m.ctx.xlen, tdata2, a);
    assert t.fires(addr, val) == W.Compares(W.Napot, m.ctx.xlen, tdata2, a);
    hide Reaches, PlainStore, W.Compares, W.InRange, Bit, W.TrailingOnes;
  }

  // ---------------------------------------------------------------- fetches

  /** A fetch that is checked gives the two bytes at the address that its own is mapped to, if no trigger stops it;
      whether a match is pending does not matter. From a device it is not checked. */
  lemma FetchIff(m: Machine, addr: reg, h: reg, pa: reg, d: reg, i: nat)
    requires m.ctx.Valid()
    ensures var o := CheckedFetch(m, addr);
      && (o == Ram(h, d) <==>
          Unstopped(m, FETCH, addr, d) && d == m.ctx.mem.word(h, 2) &&
          exists p: reg :: Reaches(m.ctx, FETCH, addr, p) && HostByte(m.ctx.mem, p, h))
      && (o == TriggerHit(i) <==>
          exists p: reg, g: reg :: Reaches(m.ctx, FETCH, addr, p) && HostByte(m.ctx.mem, p, g)
                                   && StoppedBy(m, FETCH, addr, m.ctx.mem.word(g, 2), i))
      && (o == Device(pa, d) <==>
          Reaches(m.ctx, FETCH, addr, pa) && OutsideRam(m.ctx.mem, pa) && m.ctx.mem.device(pa, 2) == Some(d))
  {
    hide Reaches, Translate, TriggerMatch, Unstopped, StoppedBy;
    Unique(m.ctx, FETCH, addr);
    var o := PlainFetch(m, addr);
    if o.Ram? { TriggerMatchIff(m, FETCH, addr, o.data, i); }
  }

  lemma FetchFailsIff(m: Machine, addr: reg, cause: Result)
    requires m.ctx.Valid()
    ensures var o := CheckedFetch(m, addr);
      && (o == Trap(cause) <==> !cause.Ok? && Translate(m.ctx, addr, FETCH) == cause)
      && (o == AccessFault(FETCH, addr) <==>
          exists pa: reg :: Reaches(m.ctx, FETCH, addr, pa) && OutsideRam(m.ctx.mem, pa)
                            && m.ctx.mem.device(pa, 2) == None)
  {
    hide Reaches, Translate, TriggerMatch;
    Unique(m.ctx, FETCH, addr);
  }

  // ---------------------------------------------------------------- control writes

  /** A write to satp selects the scheme and the root of its fields, if the implementation knows the scheme; the
      other fields read as zero. With 64 bits an unknown scheme leaves satp alone. */
  lemma SatpMeans(c: Context, val: reg)
    requires c.Valid()
    ensures var n := c.(satp := NewSatp(c, val));
      && n.Valid()
      && (c.xlen == 32 ==>
          && (IsSv32(n) <==> val / 0x8000_0000 % 2 == 1) && Root32(n) == val % 0x40_0000 * 4096
          && n.satp / 0x40_0000 % 0x200 == 0)
      && (c.xlen == 64 && val / 0x1000_0000_0000_0000 in {0, 8, 9} ==>
          && (IsSv39(n) <==> val / 0x1000_0000_0000_0000 == 8)
          && (IsSv48(n) <==> val / 0x1000_0000_0000_0000 == 9)
          && Root64(n) == val % 0x1000_0000_0000 * 4096 && n.satp / 0x1000_0000_0000 % 0x1_0000 == 0)
      && (c.xlen == 64 && val / 0x1000_0000_0000_0000 !in {0, 8, 9} ==> n == c)
  {}

  /** Fetches after a change of privilege are made in that mode, with user mode for the reserved one; on entering debug
      mode no access is translated, and no trigger stops one. */
  lemma PrivilegeMeans(m: Machine, p: nat, kind: Access, va: reg, pa: reg, data: nat)
    requires m.ctx.Valid() && p <= 3
    ensures var n, l, d := Control(m, SetPrivilege(p)), Control(m, LeaveDebug(p)), Control(m, EnterDebug);
      && ModeOf(n.ctx, FETCH) == ModeOf(l.ctx, FETCH) == (if p == 2 then 0 else p)
      && n == m.(ctx := m.ctx.(prv := n.ctx.prv)) && l == m.(ctx := m.ctx.(prv := l.ctx.prv, debug := false))
      && (Reaches(d.ctx, kind, va, pa) <==> pa == if m.ctx.xlen == 32 then va % 0x1_0000_0000 else va)
      && Unstopped(d, kind, va, data)
  {
    hide Stops, Maps;
  }

  // ---------------------------------------------------------------- what a miss caches

  /** After a miss on RAM that no tracer watches, every access of that kind to the page hits, checked as the triggers
      ask; pages that share its slot miss, and pages in other slots are found as before. */
  lemma CachedAfterMiss(t: Tlb, m: Machine, addr: reg, kind: Access, pa: reg, h: reg, b: reg, k: Access)
    requires Inv(t, m) && Translate(m.ctx, addr, kind) == Ok(pa) && HostByte(m.ctx.mem, pa, h)
    ensures var n := AfterMiss(t, m, addr, kind, false);
      && n.Valid() && AfterMiss(t, m, addr, kind, true) == t
      && (SamePage(b, addr) ==> Look(n, b, kind) == Hit(Entry(Minus(h, addr), Minus(pa, addr)), m.checks.On(kind)))
      && (SamePage(b, addr) && k != kind ==> (Look(n, b, k).Hit? <==> Look(t, b, k).Hit?))
      && (!SamePage(b, addr) && b / PAGE % 256 == addr / PAGE % 256 ==> Look(n, b, k) == Miss)
      && (b / PAGE % 256 != addr / PAGE % 256 ==> Look(n, b, k) == Look(t, b, k))
  {
    assert AddrToMem(m.ctx.mem, pa) == Some(h);
    hide Translate, Coherent, Refill, Structured, Look;
    FoundOnPage(t, m, addr, pa, h, kind, b, k);
    if !SamePage(b, addr) { FoundElsewhere(t, m, addr, pa, h, kind, b, k); }
  }

  lemma FoundOnPage(t: Tlb, m: Machine, addr: reg, pa: reg, h: reg, kind: Access, b: reg, k: Access)
    requires Structured(t, m.checks)
    ensures var n := Refill(t, m.checks, addr, pa, h, kind);
      && n.Valid()
      && (SamePage(b, addr) ==> Look(n, b, kind) == Hit(Entry(Minus(h, addr), Minus(pa, addr)), m.checks.On(kind)))
      && (SamePage(b, addr) && k != kind ==> (Look(n, b, k).Hit? <==> Look(t, b, k).Hit?))
  {
    var n := Refill(t, m.checks, addr, pa, h, kind);
    var idx, vpn := addr / PAGE % 256, addr / PAGE;
    RefillTags(t, m, addr, pa, h, kind, k);
    RefillTags(t, m, addr, pa, h, kind, kind);
    assert n.data == t.data[idx := Entry(Minus(h, addr), Minus(pa, addr))];
    assert k != kind ==> n.Tags(k)[idx] == Dropped(t.Tags(k), idx, vpn)[idx];
    SameTag(t.Tags(k), idx, vpn);
    hide Refill, Structured, Minus, Dropped;
  }

  lemma FoundElsewhere(t: Tlb, m: Machine, addr: reg, pa: reg, h: reg, kind: Access, b: reg, k: Access)
    requires Structured(t, m.checks) && !SamePage(b, addr)
    ensures var n := Refill(t, m.checks, addr, pa, h, kind);
      && n.Valid()
      && (b / PAGE % 256 == addr / PAGE % 256 ==> Look(n, b, k) == Miss)
      && (b / PAGE % 256 != addr / PAGE % 256 ==> Look(n, b, k) == Look(t, b, k))
  {
    var n := Refill(t, m.checks, addr, pa, h, kind);
    RefillTags(t, m, addr, pa, h, kind, k);
    assert n.data == t.data[addr / PAGE % 256 := Entry(Minus(h, addr), Minus(pa, addr))];
    hide Refill, Structured, Minus;
  }

  lemma SameTag(tags: seq<reg>, idx: nat, vpn: nat)
    requires idx < |tags| && vpn < VPNS
    ensures tags[idx] == vpn || tags[idx] == vpn + CHECK ==> Dropped(tags, idx, vpn)[idx] == tags[idx]
  {}
}
