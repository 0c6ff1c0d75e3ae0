/** What the debug module remembers of every history of accesses by the debugger and the harts. */
module DebugHistory {
  import opened Bits
  import opened FlatMemory
  import opened Words
  import opened DebugModule

  /** The bit of a given weight. */
  predicate On(v: int, weight: nat)
    requires weight > 0
  {
    v / weight % 2 == 1
  }

  // ---------------------------------------------------------------- histories

  predicate AllLegal(es: seq<Event>) {
    forall i | 0 <= i < |es| :: Legal(es[i])
  }

  /** The module of a number of processors after a history, which starts with its construction. */
  function After(harts: nat, es: seq<Event>): (s: Dm)
    requires AllLegal(es)
    ensures Shape(s)
  {
    if es == [] then Initial(harts) else Next(After(harts, es[..|es| - 1]), es[|es| - 1])
  }

  /** Hart h stores its number, four bytes with the lowest first, at an address. */
  predicate Reports(e: Event, addr: nat, h: nat) {
    e.HartStore? && e.addr == addr && |e.bytes| == 4 && Number(e.bytes[0], e.bytes[1], e.bytes[2], e.bytes[3]) == h
  }

  function Number(b0: nat, b1: nat, b2: nat, b3: nat): nat {
    b0 + 0x100 * b1 + 0x1_0000 * b2 + 0x100_0000 * b3
  }

  predicate WritesControl(e: Event) { e.Write? && e.a == 0x10 }

  /** Of the two reports of a hart, the last was that it is halted. */
  predicate SaidHalted(es: seq<Event>, h: nat) {
    es != [] &&
    var e := es[|es| - 1];
    Reports(e, 0x100, h) || (!Reports(e, 0x108, h) && SaidHalted(es[..|es| - 1], h))
  }

  /** The hart has reported that it resumes, and was not asked to resume again since. */
  predicate SaidResumed(es: seq<Event>, h: nat) {
    es != [] &&
    var e := es[|es| - 1];
    Reports(e, 0x108, h) || (!AsksToResume(e, h) && SaidResumed(es[..|es| - 1], h))
  }

  /** It is told to resume: asked to, and no report since that it does. */
  predicate ToldToResume(es: seq<Event>, h: nat) {
    es != [] &&
    var e := es[|es| - 1];
    AsksToResume(e, h) || (!Reports(e, 0x108, h) && ToldToResume(es[..|es| - 1], h))
  }

  predicate AsksToResume(e: Event, h: nat) {
    WritesControl(e) && On(e.v, 1) && On(e.v, 0x4000_0000) && e.v / 0x1_0000 % 1024 == h
  }

  /** Processor h is asked to halt: so said the last write that selected it, and the module was not reset since. */
  predicate AskedToHalt(es: seq<Event>, h: nat) {
    es != [] &&
    var e := es[|es| - 1];
    if WritesControl(e) && (!On(e.v, 1) || e.v / 0x1_0000 % 1024 == h) then On(e.v, 1) && On(e.v, 0x8000_0000)
    else AskedToHalt(es[..|es| - 1], h)
  }

  /** The last value written to dmcontrol; 0 if it was one that resets the module. */
  function LastControl(es: seq<Event>): word {
    if es == [] then 0
    else
      var e := es[|es| - 1];
      if WritesControl(e) then (if On(e.v, 1) then e.v else 0) else LastControl(es[..|es| - 1])
  }

  function Selected(es: seq<Event>): nat { LastControl(es) / 0x1_0000 % 1024 }

  /** The last value written to abstractauto since the last reset. */
  function LastAuto(es: seq<Event>): word {
    if es == [] then 0
    else
      var e := es[|es| - 1];
      if WritesControl(e) && !On(e.v, 1) then 0
      else if e.Write? && e.a == 0x18 then e.v else LastAuto(es[..|es| - 1])
  }

  predicate WasReset(es: seq<Event>) {
    exists i :: 0 <= i < |es| && WritesControl(es[i]) && !On(es[i].v, 1)
  }

  lemma ValueOfFour(b: seq<byte>)
    requires |b| == 4
    ensures Value(b) == Number(b[0], b[1], b[2], b[3])
  {
    assert Value(b[4..]) == 0;
    assert b[1..][1..] == b[2..] && b[2..][1..] == b[3..] && b[3..][1..] == b[4..];
    var b3: nat := Value(b[3..]);
    assert b3 == b[3];
    assert Value(b[2..]) == b[2] as nat + 256 * b3;
    assert Value(b[1..]) == b[1] as nat + 256 * Value(b[2..]);
    assert Value(b) == b[0] as nat + 256 * Value(b[1..]);
  }

  /** A write of dmcontrol: what it makes of the selected hart, and what it holds from then on. */
  lemma HartWritten(s: Dm, v: word, h: nat)
    requires Shape(s) && h < 1024
    ensures var t := Next(s, Write(0x10, v));
      && t.halted == s.halted && |t.haltRequest| == |s.haltRequest|
      && (h < |s.haltRequest| ==>
          && t.resumeack[h] == (s.resumeack[h] && !AsksToResume(Write(0x10, v), h))
          && t.resume[h] == (s.resume[h] || AsksToResume(Write(0x10, v), h))
          && t.haltRequest[h] == if !On(v, 1) || v / 0x1_0000 % 1024 == h then On(v, 1) && On(v, 0x8000_0000)
                                 else s.haltRequest[h])
  {
    hide Performed, AfterRead, AfterStore, AutoBit, Value, Stored, BytesOf, AndNot;
    FlagsOf(v);
    hide Flag, Field, On;
  }

  lemma ControlWritten(s: Dm, v: word)
    requires Shape(s)
    ensures var t := Next(s, Write(0x10, v)); var c := t.control; var w: nat := if On(v, 1) then v else 0;
      && c.haltreq == On(w, 0x8000_0000) && c.resumereq == On(w, 0x4000_0000) && c.hartsel == w / 0x1_0000 % 1024
      && c.ndmreset == On(w, 2) && c.dmactive == On(w, 1) && c.hartreset == (On(v, 1) && s.control.hartreset)
      && t.autoData == (if On(v, 1) then s.autoData else 0) && t.autoProgbuf == (if On(v, 1) then s.autoProgbuf else 0)
      && t.datacount == if On(v, 1) then s.datacount else 2
  {
    hide Performed, AfterRead, AfterStore, AutoBit, Value, Stored, BytesOf, AndNot;
    FlagsOf(v);
    hide Flag, Field, On;
  }

  lemma FlagsOf(v: word)
    ensures Flag(v, 1) == On(v, 1) && Flag(v, 2) == On(v, 2) && Flag(v, 0x4000_0000) == On(v, 0x4000_0000)
    ensures Flag(v, 0x8000_0000) == On(v, 0x8000_0000) && Field(v, 0x1_0000, 1024) == v / 0x1_0000 % 1024
    ensures !On(0, 1) && !On(0, 2) && !On(0, 0x4000_0000) && !On(0, 0x8000_0000)
  {}

  /** Every other access by the debugger. */
  lemma OtherAccess(s: Dm, e: Event)
    requires Shape(s) && !e.HartStore? && !WritesControl(e)
    ensures var t := Next(s, e);
      && t.halted == s.halted && t.resumeack == s.resumeack && t.resume == s.resume && t.haltRequest == s.haltRequest
      && t.control == s.control.(haltreq := t.control.haltreq) && t.datacount == s.datacount
      && (s.control.hartsel >= |s.haltRequest| ==> t.control == s.control)
      && if e.Write? && e.a == 0x18 then t.autoData == e.v % 0x1000 && t.autoProgbuf == e.v / 0x1_0000
         else t.autoData == s.autoData && t.autoProgbuf == s.autoProgbuf
  {
    if e.Write? { OtherWrite(s, e.a, e.v); } else { OtherRead(s, e.a); }
  }

  lemma OtherRead(s: Dm, a: nat)
    requires Shape(s)
    ensures var t := Next(s, Read(a));
      && t.halted == s.halted && t.resumeack == s.resumeack && t.resume == s.resume && t.haltRequest == s.haltRequest
      && t.control == s.control.(haltreq := t.control.haltreq) && t.datacount == s.datacount
      && (s.control.hartsel >= |s.haltRequest| ==> t.control == s.control)
      && t.autoData == s.autoData && t.autoProgbuf == s.autoProgbuf
  {
    hide Performed, AfterStore, AfterWrite, AutoBit;
  }

  lemma OtherWrite(s: Dm, a: nat, v: word)
    requires Shape(s) && a != 0x10
    ensures var t := Next(s, Write(a, v));
      && t.halted == s.halted && t.resumeack == s.resumeack && t.resume == s.resume && t.haltRequest == s.haltRequest
      && t.control == s.control && t.datacount == s.datacount
      && if a == 0x18 then t.autoData == v % 0x1000 && t.autoProgbuf == v / 0x1_0000
         else t.autoData == s.autoData && t.autoProgbuf == s.autoProgbuf
  {
    hide Performed, AfterStore, AfterRead, Requested, AutoBit, Stored, BytesOf, AndNot, Flag;
  }

  /** A store by a hart. */
  lemma StoreReports(s: Dm, e: Event, h: nat)
    requires Shape(s) && Legal(e) && e.HartStore? && h < 1024
    ensures var t := Next(s, e);
      && t.halted[h] == (Reports(e, 0x100, h) || (!Reports(e, 0x108, h) && s.halted[h]))
      && t.resumeack[h] == (Reports(e, 0x108, h) || s.resumeack[h])
      && t.resume[h] == (s.resume[h] && !Reports(e, 0x108, h))
      && t.haltRequest == s.haltRequest && t.control == s.control
      && t.autoData == s.autoData && t.autoProgbuf == s.autoProgbuf && t.datacount == s.datacount
  {
    if e.addr in {0x100, 0x108} { ValueOfFour(e.bytes); }
    hide AfterRead, AfterWrite, Value, Stored, Number;
  }

  /** What a hart has reported and was asked, after a history. */
  lemma {:induction false} HartMeans(harts: nat, es: seq<Event>, h: nat)
    requires AllLegal(es) && h < 1024
    ensures var s := After(harts, es);
      && |s.haltRequest| == harts && s.halted[h] == SaidHalted(es, h)
      && (h < harts ==> s.resumeack[h] == SaidResumed(es, h) && s.haltRequest[h] == AskedToHalt(es, h))
      && (h < harts ==> s.resume[h] == ToldToResume(es, h))
  {
    hide Next, Shape, Reports, On, Legal;
    if es != [] {
      var n, e := |es| - 1, es[|es| - 1];
      HartMeans(harts, es[..n], h);
      var s := After(harts, es[..n]);
      if WritesControl(e) {
        HartWritten(s, e.v, h);
        NoReport(e, h);
      } else if e.HartStore? {
        StoreReports(s, e, h);
      } else {
        OtherAccess(s, e);
        NoReport(e, h);
        assert !AsksToResume(e, h);
      }
    }
  }

  lemma NoReport(e: Event, h: nat)
    requires !e.HartStore?
    ensures !Reports(e, 0x100, h) && !Reports(e, 0x108, h)
  {}

  /** What dmcontrol holds after a history. */
  lemma {:induction false} ControlMeans(harts: nat, es: seq<Event>)
    requires AllLegal(es)
    ensures var s := After(harts, es); var v := LastControl(es); var c := s.control;
      && |s.haltRequest| == harts
      && c.hartsel == v / 0x1_0000 % 1024 && !c.hartreset && c.resumereq == On(v, 0x4000_0000)
      && c.ndmreset == On(v, 2) && c.dmactive == On(v, 1)
      && (c.hartsel >= harts ==> c.haltreq == On(v, 0x8000_0000))
  {
    FlagsOf(0);
    hide Next, Shape, On, Legal;
    if es != [] {
      var n, e := |es| - 1, es[|es| - 1];
      ControlMeans(harts, es[..n]);
      var s := After(harts, es[..n]);
      if WritesControl(e) {
        HartWritten(s, e.v, 0);
        ControlWritten(s, e.v);
      } else if e.HartStore? {
        StoreReports(s, e, 0);
      } else {
        OtherAccess(s, e);
      }
    }
  }

  /** What abstractauto holds, and how many data registers there are. */
  lemma {:induction false} AutoMeans(harts: nat, es: seq<Event>)
    requires AllLegal(es)
    ensures var s := After(harts, es); var v := LastAuto(es);
      && s.autoData == v % 0x1000 && s.autoProgbuf == v / 0x1_0000
      && s.datacount == if WasReset(es) then 2 else 0
  {
    hide Next, Shape, On, Legal;
    if es != [] {
      var n, e := |es| - 1, es[|es| - 1];
      AutoMeans(harts, es[..n]);
      var s := After(harts, es[..n]);
      if WritesControl(e) {
        ControlWritten(s, e.v);
      } else if e.HartStore? {
        StoreReports(s, e, 0);
      } else {
        OtherAccess(s, e);
      }
      assert forall i | 0 <= i < n :: es[..n][i] == es[i];
      hide AllLegal;
      assert WasReset(es) <==> WasReset(es[..n]) || (WritesControl(e) && !On(e.v, 1));
    }
  }
}
