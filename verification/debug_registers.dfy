/** What the registers of the debug module show after every history, field by field as section 3.12 of RISC-V External
    Debug Support 0.13.2 lays them out. */
module DebugRegisters {
  import opened Bits
  import opened FlatMemory
  import opened Words
  import opened DebugModule
  import opened DebugHistory

  // ---------------------------------------------------------------- what a read shows

  /** The readings, as sums. */
  lemma Readings(s: Dm)
    requires Shape(s)
    ensures var c := s.control; var h := c.hartsel; var present := h < |s.haltRequest|;
      && ReadValue(s, 0x10) == 0x8000_0000 * One(if present then s.haltRequest[h] else c.haltreq)
           + 0x4000_0000 * One(c.resumereq) + 0x2000_0000 * One(c.hartreset) + 0x1_0000 * h
           + 2 * One(c.ndmreset) + One(c.dmactive)
      && ReadValue(s, 0x11) == 0x82 + 0x300 * One(present && s.halted[h]) + 0xc00 * One(present && !s.halted[h])
           + 0xc000 * One(!present) + 0x2_0000 * One(present && s.resumeack[h])
      && ReadValue(s, 0x16) == 0x1000_0000 + 0x1000 * One(s.busy) + 0x100 * s.cmderr + s.datacount
      && ReadValue(s, 0x18) == 0x1_0000 * s.autoProgbuf + s.autoData
      && ReadValue(s, 0x12) == 0x11_0380 + 0x1000 * s.datacount && ReadValue(s, 0x17) == 0
  {
    hide Value, Fetch;
  }

  function One(b: bool): nat { if b then 1 else 0 }

  /** dmstatus: the selected hart is halted (bits 8 and 9) exactly if it exists and said so last, running (10 and 11)
      if it exists and did not, nonexistent (14 and 15) if it does not exist; it has acknowledged a request to
      resume (17, but never 16) if it said that it resumes since; and the version is 2, authenticated (7). */
  lemma DmstatusMeans(harts: nat, es: seq<Event>)
    requires AllLegal(es)
    ensures var v := ReadValue(After(harts, es), 0x11); var h := Selected(es);
      && On(v, 0x100) == On(v, 0x200) == (h < harts && SaidHalted(es, h))
      && On(v, 0x400) == On(v, 0x800) == (h < harts && !SaidHalted(es, h))
      && On(v, 0x4000) == On(v, 0x8000) == (h >= harts)
      && On(v, 0x2_0000) == (h < harts && SaidResumed(es, h)) && !On(v, 0x1_0000)
      && v % 0x100 == 0x82 && !On(v, 0x1000) && !On(v, 0x2000) && v / 0x4_0000 == 0
  {
    var h := Selected(es);
    ControlMeans(harts, es);
    HartMeans(harts, es, h);
    Readings(After(harts, es));
    hide After, SaidHalted, SaidResumed, LastControl, AllLegal, ReadValue, On;
    StatusBits(h < harts, SaidHalted(es, h), SaidResumed(es, h));
  }

  lemma StatusBits(present: bool, halted: bool, ack: bool)
    ensures var v := 0x82 + 0x300 * One(present && halted) + 0xc00 * One(present && !halted) + 0xc000 * One(!present)
                     + 0x2_0000 * One(present && ack);
      && On(v, 0x100) == On(v, 0x200) == (present && halted) && On(v, 0x400) == On(v, 0x800) == (present && !halted)
      && On(v, 0x4000) == On(v, 0x8000) == !present && On(v, 0x2_0000) == (present && ack) && !On(v, 0x1_0000)
      && v % 0x100 == 0x82 && !On(v, 0x1000) && !On(v, 0x2000) && v / 0x4_0000 == 0
  {
    if present && halted && ack {
    } else if present && halted {
    } else if present && ack {
    } else if present {
    }
  }

  /** The fields of dmcontrol; hartreset (bit 29) and all the others read as 0. */
  predicate IsDmcontrol(v: int, haltreq: bool, resumereq: bool, hartsel: nat, ndmreset: bool, dmactive: bool) {
    && On(v, 0x8000_0000) == haltreq && On(v, 0x4000_0000) == resumereq && v / 0x1_0000 % 1024 == hartsel
    && On(v, 2) == ndmreset && On(v, 1) == dmactive
    && v / 0x400_0000 % 16 == 0 && v / 4 % 0x4000 == 0 && v / 0x1_0000_0000 == 0
  }

  /** dmcontrol: the request to halt of the selected processor, or the last one written if there is none; and what
      was written to the other fields since the last reset. */
  lemma DmcontrolMeans(harts: nat, es: seq<Event>)
    requires AllLegal(es)
    ensures var w := LastControl(es); var h := Selected(es);
      IsDmcontrol(ReadValue(After(harts, es), 0x10), if h < harts then AskedToHalt(es, h) else On(w, 0x8000_0000),
                  On(w, 0x4000_0000), h, On(w, 2), On(w, 1))
  {
    hide *;
    SelectedHart(harts, es);
    var h := Selected(es);
    ControlMeans(harts, es);
    HartMeans(harts, es, h);
    Readings(After(harts, es));
    var c := After(harts, es).control;
    ControlBits(if h < harts then AskedToHalt(es, h) else c.haltreq, c.resumereq, h, c.ndmreset, c.dmactive);
  }

  lemma SelectedHart(harts: nat, es: seq<Event>)
    requires AllLegal(es)
    ensures After(harts, es).control.hartsel == Selected(es) < 1024
  {
    ControlMeans(harts, es);
  }

  lemma ControlBits(a: bool, b: bool, h: nat, c: bool, d: bool)
    requires h < 1024
    ensures IsDmcontrol(0x8000_0000 * One(a) + 0x4000_0000 * One(b) + 0x2000_0000 * One(false) + 0x1_0000 * h
                        + 2 * One(c) + One(d), a, b, h, c, d)
  {
    ControlSum(One(a), One(b), h, One(c), One(d));
    hide On;
  }

  lemma ControlSum(a: nat, b: nat, h: nat, c: nat, d: nat)
    requires a < 2 && b < 2 && h < 1024 && c < 2 && d < 2
    ensures var v := 0x8000_0000 * a + 0x4000_0000 * b + 0x1_0000 * h + 2 * c + d;
      IsDmcontrol(v, a == 1, b == 1, h, c == 1, d == 1)
  {
    ControlHigh(a, b, 0x1_0000 * h + 2 * c + d);
    ControlLow(0x8000 * a + 0x4000 * b + h, c, d);
    var v := 0x8000_0000 * a + 0x4000_0000 * b + 0x1_0000 * h + 2 * c + d;
    hide On;
    DivMod(0x8000 * a + 0x4000 * b + h, 1024, 32 * a + 16 * b, h);
  }

  lemma ControlHigh(a: nat, b: nat, r: nat)
    requires a < 2 && b < 2 && r < 0x400_0000
    ensures var v := 0x8000_0000 * a + 0x4000_0000 * b + r;
      On(v, 0x8000_0000) == (a == 1) && On(v, 0x4000_0000) == (b == 1) && v / 0x400_0000 % 16 == 0
      && v / 0x1_0000_0000 == 0
  {
    var v := 0x8000_0000 * a + 0x4000_0000 * b + r;
    DivMod(v, 0x8000_0000, a, 0x4000_0000 * b + r);
    DivMod(v, 0x4000_0000, 2 * a + b, r);
    DivMod(v, 0x400_0000, 32 * a + 16 * b, r);
    DivMod(v, 0x1_0000_0000, 0, v);
  }

  lemma ControlLow(q: nat, c: nat, d: nat)
    requires c < 2 && d < 2
    ensures var v := 0x1_0000 * q + 2 * c + d;
      v / 0x1_0000 == q && On(v, 2) == (c == 1) && On(v, 1) == (d == 1) && v / 4 % 0x4000 == 0
  {
    var v := 0x1_0000 * q + 2 * c + d;
    DivMod(v, 0x1_0000, q, 2 * c + d);
    DivMod(v, 4, 0x4000 * q, 2 * c + d);
    DivMod(0x4000 * q, 0x4000, q, 0);
    DivMod(v, 2, 0x8000 * q + c, d);
    DivMod(0x8000 * q + c, 2, 0x4000 * q, c);
    DivMod(v, 1, v, 0);
    hide *;
    OneAt(v, 1, v, d);
    OneAt(v, 2, 0x8000 * q + c, c);
  }

  lemma OneAt(v: nat, weight: nat, q: nat, b: nat)
    requires weight > 0 && v / weight == q && q % 2 == b
    ensures On(v, weight) == (b == 1)
  {}

  /** abstractcs: the error (bits 8 to 10), busy (12), how many data registers (0 to 4) and program-buffer words
      (24 to 28) there are. */
  lemma AbstractcsMeans(harts: nat, es: seq<Event>)
    requires AllLegal(es)
    ensures var s := After(harts, es); var v := ReadValue(s, 0x16);
      && v / 0x100 % 8 == s.cmderr && On(v, 0x1000) == s.busy
      && v % 32 == (if WasReset(es) then 2 else 0) && v / 0x100_0000 == 16
      && v / 32 % 8 == 0 && !On(v, 0x800) && v / 0x2000 % 0x800 == 0
  {
    hide *;
    AutoMeans(harts, es);
    var s := After(harts, es);
    Readings(s);
    ErrorFits(s);
    AbstractBits(s.busy, s.cmderr, s.datacount);
  }

  lemma ErrorFits(s: Dm)
    requires Shape(s)
    ensures s.cmderr < 8
  {}

  lemma AbstractBits(busy: bool, e: nat, d: nat)
    requires e < 8 && d < 32
    ensures var v := 0x1000_0000 + 0x1000 * One(busy) + 0x100 * e + d;
      && v / 0x100 % 8 == e && On(v, 0x1000) == busy && v % 32 == d && v / 0x100_0000 == 16
      && v / 32 % 8 == 0 && !On(v, 0x800) && v / 0x2000 % 0x800 == 0
  {
    var b := One(busy);
    var v := 0x1000_0000 + 0x1000 * b + 0x100 * e + d;
    DivMod(v, 0x100, 0x10_0000 + 16 * b + e, d);
    DivMod(v, 0x800, 0x2_0000 + 2 * b, 0x100 * e + d);
    DivMod(v, 0x1000, 0x1_0000 + b, 0x100 * e + d);
    DivMod(v, 32, 0x80_0000 + 128 * b + 8 * e, d);
    DivMod(v, 0x2000, 0x8000, 0x1000 * b + 0x100 * e + d);
    DivMod(v, 0x100_0000, 16, 0x1000 * b + 0x100 * e + d);
  }

  /** abstractauto: what was last written to its two fields (bits 0 to 11 and 16 to 31). */
  lemma AbstractautoMeans(harts: nat, es: seq<Event>)
    requires AllLegal(es)
    ensures var v := ReadValue(After(harts, es), 0x18);
      v % 0x1000 == LastAuto(es) % 0x1000 && v / 0x1_0000 == LastAuto(es) / 0x1_0000 && v / 0x1000 % 16 == 0
  {
    hide *;
    AutoMeans(harts, es);
    var s := After(harts, es);
    Readings(s);
    AutoFits(s);
    AutoBits(s.autoProgbuf, s.autoData);
  }

  lemma AutoFits(s: Dm)
    requires Shape(s)
    ensures s.autoData < 0x1000
  {}

  lemma AutoBits(p: nat, d: nat)
    requires d < 0x1000
    ensures var v := 0x1_0000 * p + d; v % 0x1000 == d && v / 0x1_0000 == p && v / 0x1000 % 16 == 0
  {
    DivMod(0x1_0000 * p + d, 0x1000, 16 * p, d);
    DivMod(0x1_0000 * p + d, 0x1_0000, p, d);
  }

  /** hartinfo: one scratch register (bits 20 to 23), data by memory (16) in so many words (12 to 15) at address 0x380
      (0 to 11). */
  lemma HartinfoMeans(harts: nat, es: seq<Event>)
    requires AllLegal(es)
    ensures ReadValue(After(harts, es), 0x12) == if WasReset(es) then 0x11_2380 else 0x11_0380
  {
    AutoMeans(harts, es);
    Readings(After(harts, es));
    hide *;
  }

  /** The addresses that answer a read, and those that take a write; command reads as 0. */
  lemma AnswersIff(harts: nat, es: seq<Event>, a: nat)
    requires AllLegal(es)
    ensures var s := After(harts, es);
      && (ReadValue(s, a) != -1 <==>
          a in {0x10, 0x11, 0x12, 0x16, 0x17, 0x18} || 0x20 <= a < 0x30 || (WasReset(es) && a in {4, 5}))
      && (Writable(s, a) <==>
          a in {0x10, 0x16, 0x17, 0x18} || 0x20 <= a < 0x30 || (WasReset(es) && a in {4, 5}))
      && ReadValue(s, 0x17) == 0
  {
    AutoMeans(harts, es);
    hide After, WasReset, AllLegal, Value, Fetch;
  }
}
