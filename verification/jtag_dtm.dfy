/** The JTAG transport of jtag_dtm.cc: a test access port whose data register reaches the debug module. */
module JtagDtm {
  import opened Bits
  import opened Words
  import D = DebugModule

  datatype State = TestLogicReset | RunTestIdle
                 | SelectDrScan | CaptureDr | ShiftDr | Exit1Dr | PauseDr | Exit2Dr | UpdateDr
                 | SelectIrScan | CaptureIr | ShiftIr | Exit1Ir | PauseIr | Exit2Ir | UpdateIr

  /** The controller of IEEE 1149.1, clause 6. */
  function NextState(s: State, tms: bool): State {
    match s
    case TestLogicReset => if tms then TestLogicReset else RunTestIdle
    case RunTestIdle => if tms then SelectDrScan else RunTestIdle
    case SelectDrScan => if tms then SelectIrScan else CaptureDr
    case CaptureDr => if tms then Exit1Dr else ShiftDr
    case ShiftDr => if tms then Exit1Dr else ShiftDr
    case Exit1Dr => if tms then UpdateDr else PauseDr
    case PauseDr => if tms then Exit2Dr else PauseDr
    case Exit2Dr => if tms then UpdateDr else ShiftDr
    case UpdateDr => if tms then SelectDrScan else RunTestIdle
    case SelectIrScan => if tms then TestLogicReset else CaptureIr
    case CaptureIr => if tms then Exit1Ir else ShiftIr
    case ShiftIr => if tms then Exit1Ir else ShiftIr
    case Exit1Ir => if tms then UpdateIr else PauseIr
    case PauseIr => if tms then Exit2Ir else PauseIr
    case Exit2Ir => if tms then UpdateIr else ShiftIr
    case UpdateIr => if tms then SelectDrScan else RunTestIdle
  }

  const IDCODE: nat := 1
  const DTMCONTROL: nat := 0x10
  const DBUS: nat := 0x11
  const ABITS: nat := 6
  const DBUS_BITS: nat := 40
  const IR_BITS: nat := 5

  const SUCCESS: nat := 0
  const FAILED: nat := 2
  const OP_READ: nat := 1
  const OP_WRITE: nat := 2

  /** The port, with the debug module behind it. Pins are those of the last call. */
  datatype Tap = Tap(state: State, tck: bool, tms: bool, tdi: bool, tdo: bool,
                     ir: nat, dr: nat, len: nat, dmi: nat, dm: D.Dm)

  predicate InDr(s: State) { s.CaptureDr? || s.ShiftDr? || s.Exit1Dr? || s.PauseDr? || s.Exit2Dr? || s.UpdateDr? }

  /** The data register is as wide as it was captured, and a debug bus access is captured whole. */
  ghost predicate Fits(t: Tap) {
    && D.Shape(t.dm) && 0 < t.len <= 64 && t.dr < Pow2(t.len) && t.ir < 32 && t.dmi < 0x100_0000_0000
    && (InDr(t.state) && t.ir == DBUS ==> t.len == DBUS_BITS)
  }

  /** A register of n bits, one bit on towards the low end. */
  function Shifted(v: nat, bit: bool, n: nat): nat
    requires n > 0
  {
    v / 2 + if bit then Pow2(n - 1) else 0
  }

  function Captured(t: Tap): Tap {
    if t.ir == IDCODE then t.(dr := 0xdead_beef, len := 32)
    else if t.ir == DTMCONTROL then t.(dr := 0x61, len := 32)
    else if t.ir == DBUS then t.(dr := t.dmi, len := DBUS_BITS)
    else t
  }

  // Fields of a debug bus access.
  function Op(v: nat): nat { v % 4 }
  function Data(v: nat): word { v / 4 % 0x1_0000_0000 }
  function Address(v: nat): nat { v / 0x4_0000_0000 % 64 }
  function Access(op: nat, data: nat, address: nat): nat { op + 4 * data + 0x4_0000_0000 * address }

  lemma FieldsOfAccess(op: nat, data: nat, address: nat)
    requires op < 4 && data < 0x1_0000_0000 && address < 64
    ensures var v := Access(op, data, address);
            v < 0x100_0000_0000 && Op(v) == op && Data(v) == data && Address(v) == address
  {}

  /** What the debug module makes of an access, and what the next access will read back. */
  function Served(dm: D.Dm, v: nat): (r: (D.Dm, nat))
    requires D.Shape(dm)
    ensures D.Shape(r.0) && r.1 < 0x100_0000_0000
  {
    var op, data, address := Op(v), Data(v), Address(v);
    D.ReadFits(dm, address);
    if op == OP_READ then
      var value := D.ReadValue(dm, address);
      (D.AfterRead(dm, address), if value >= 0 then Access(SUCCESS, value, address) else Access(FAILED, data, address))
    else if op == OP_WRITE then
      (D.AfterWrite(dm, address, data), Access(if D.Writable(dm, address) then SUCCESS else FAILED, data, address))
    else (dm, Access(SUCCESS, data, address))
  }

  function Updated(t: Tap): Tap
    requires D.Shape(t.dm)
  {
    if t.ir != DBUS then t else t.(dm := Served(t.dm, t.dr).0, dmi := Served(t.dm, t.dr).1)
  }

  /** A positive edge of the clock: a shift, the next state, and what is done on entering that. */
  function Edge(t: Tap): Tap
    requires Fits(t)
  {
    Entered(Advanced(t))
  }

  function Advanced(t: Tap): Tap
    requires t.len > 0
  {
    var u := if t.state == ShiftDr then t.(dr := Shifted(t.dr, t.tdi, t.len))
             else if t.state == ShiftIr then t.(ir := Shifted(t.ir, t.tdi, IR_BITS)) else t;
    u.(state := NextState(t.state, t.tms))
  }

  function Entered(v: Tap): Tap
    requires D.Shape(v.dm)
  {
    match v.state
    case TestLogicReset => v.(ir := IDCODE)
    case CaptureDr => Captured(v)
    case ShiftDr => v.(tdo := v.dr % 2 == 1)
    case UpdateDr => Updated(v)
    case ShiftIr => v.(tdo := v.ir % 2 == 1)
    case _ => v
  }

  /** The port after the pins have been set. */
  function Pins(t: Tap, tck: bool, tms: bool, tdi: bool): Tap
    requires Fits(t)
  {
    (if !t.tck && tck then Edge(t) else t).(tck := tck, tms := tms, tdi := tdi)
  }

  lemma ShiftedFits(v: nat, bit: bool, n: nat)
    requires n > 0 && v < Pow2(n)
    ensures Shifted(v, bit, n) < Pow2(n)
  {}

  lemma CapturedFits(t: Tap)
    requires Fits(t.(state := RunTestIdle))
    ensures Fits(Captured(t))
  {
    Pow2Values();
    WideBus();
    hide Pow2, D.Shape;
  }

  lemma UpdatedFits(t: Tap)
    requires Fits(t) && InDr(t.state)
    ensures Fits(Updated(t))
  {
    hide Pow2, Served;
  }

  lemma WideBus()
    ensures Pow2(DBUS_BITS) == 0x100_0000_0000
  {
    Pow2Values();
    Pow2Add(32, 8);
    assert Pow2(8) == 256;
  }

  lemma EdgeFits(t: Tap)
    requires Fits(t)
    ensures Fits(Edge(t))
  {
    var v := Advanced(t);
    AdvancedFits(t);
    hide Shifted, Updated, Captured, D.Shape, Pow2, Advanced;
    if v.state == CaptureDr { CapturedFits(v); }
    if v.state == UpdateDr { UpdatedFits(v); }
  }

  lemma AdvancedFits(t: Tap)
    requires Fits(t)
    ensures var v := Advanced(t); Fits(v.(state := RunTestIdle)) && (v.state != CaptureDr ==> Fits(v))
  {
    ShiftedFits(t.dr, t.tdi, t.len);
    IrFits(t.ir, t.tdi);
    StaysInDr(t.state, t.tms);
    hide Shifted, D.Shape, Pow2, NextState, InDr;
  }

  lemma StaysInDr(s: State, tms: bool)
    ensures InDr(NextState(s, tms)) && NextState(s, tms) != CaptureDr ==> InDr(s) && s != ShiftIr
    ensures !InDr(RunTestIdle)
  {}

  lemma IrFits(v: nat, bit: bool)
    requires v < 32
    ensures Shifted(v, bit, IR_BITS) < 32
  {
    assert Pow2(5) == 32;
    ShiftedFits(v, bit, IR_BITS);
  }

  // ---------------------------------------------------------------- scans

  /** One clock: the pins are set while the clock is low, and then it rises. */
  function Clock(t: Tap, tms: bool, tdi: bool): (u: Tap)
    requires Fits(t)
    ensures Fits(u)
  {
    EdgeFits(t.(tck := false, tms := tms, tdi := tdi));
    Pins(Pins(t, false, tms, tdi), true, tms, tdi)
  }

  /** The low n bits of a number, lowest first, and the number that some bits make. */
  function BitsOf(v: nat, n: nat): (b: seq<bool>)
    ensures |b| == n
  {
    seq(n, i requires 0 <= i < n => Bit(v, i))
  }

  lemma BitsStep(v: nat, n: nat)
    requires n > 0
    ensures BitsOf(v, n) == [v % 2 == 1] + BitsOf(v / 2, n - 1)
  {
    var b, c := BitsOf(v, n), [v % 2 == 1] + BitsOf(v / 2, n - 1);
    forall i | 0 <= i < n ensures b[i] == c[i] {
      if i == 0 { assert Pow2(0) == 1; } else { BitShift(v, i); }
    }
  }

  lemma BitShift(v: nat, i: nat)
    requires i > 0
    ensures Bit(v, i) == Bit(v / 2, i - 1)
  {
    DivDiv(v, 2, Pow2(i - 1));
  }

  function ValueOf(b: seq<bool>): (v: nat)
    ensures v < Pow2(|b|)
  {
    if b == [] then 0 else (if b[0] then 1 else 0) + 2 * ValueOf(b[1..])
  }

  lemma {:induction false} ValueOfBits(v: nat, n: nat)
    requires v < Pow2(n)
    ensures ValueOf(BitsOf(v, n)) == v
  {
    if n > 0 {
      ValueOfBits(v / 2, n - 1);
      BitsStep(v, n);
      hide BitsOf;
      assert BitsOf(v, n)[1..] == BitsOf(v / 2, n - 1);
    }
  }

  /** Shifting bits through a register: the last one leaves the shift state. */
  function ShiftAll(t: Tap, bits: seq<bool>): (r: (Tap, seq<bool>))
    requires Fits(t)
    ensures Fits(r.0) && |r.1| == |bits|
    decreases |bits|
  {
    if bits == [] then (t, [])
    else
      var r := ShiftAll(Clock(t, |bits| == 1, bits[0]), bits[1..]);
      (r.0, [t.tdo] + r.1)
  }

  /** One clock in the shift state. */
  lemma ClockShifts(t: Tap, last: bool, bit: bool)
    requires Fits(t) && t.state == ShiftDr
    ensures var d := Shifted(t.dr, bit, t.len);
            Clock(t, last, bit) ==
            t.(state := if last then Exit1Dr else ShiftDr, tck := true, tms := last, tdi := bit, dr := d,
               tdo := if last then t.tdo else d % 2 == 1)
  {
    hide Shifted, Pow2, D.Shape;
  }

  /** A register of len bits, the low m of which are captured bits still to come out. */
  lemma ShiftedParts(lo: nat, hi: nat, m: nat, len: nat, bit: bool)
    requires 0 < m <= len
    ensures var v, hi' := lo + hi * Pow2(m), hi + if bit then Pow2(len - m) else 0;
            Shifted(v, bit, len) == lo / 2 + hi' * Pow2(m - 1) && v % 2 == lo % 2
  {
    var h, q := hi * Pow2(m - 1), Pow2(m - 1);
    assert hi * Pow2(m) == 2 * h;
    Pow2Add(len - m, m - 1);
    var p: nat := if bit then Pow2(len - m) else 0;
    hide Pow2;
    assert (hi + p) * q == h + p * q;
    assert (lo + 2 * h) / 2 == lo / 2 + h;
  }

  /** Shifting in as many bits as are still to come out leaves the bits in the register, above what was
      shifted in before, and puts out the captured bits, lowest first. */
  lemma {:induction false} ShiftRest(t: Tap, bits: seq<bool>, lo: nat, hi: nat)
    requires Fits(t) && t.state == ShiftDr && 0 < |bits| <= t.len && t.tdo == (t.dr % 2 == 1)
    requires lo < Pow2(|bits|) && t.dr == lo + hi * Pow2(|bits|)
    ensures var r := ShiftAll(t, bits);
            && r.1 == BitsOf(lo, |bits|) && r.0.dr == hi + ValueOf(bits) * Pow2(t.len - |bits|)
            && r.0 == t.(state := Exit1Dr, tck := true, tms := true, tdi := r.0.tdi, dr := r.0.dr, tdo := r.0.tdo)
    decreases |bits|
  {
    hide *;
    var m := |bits|;
    ShiftAllStep(t, bits);
    ClockShifts(t, m == 1, bits[0]);
    ShiftedParts(lo, hi, m, t.len, bits[0]);
    HalfFits(lo, m);
    BitsStep(lo, m);
    ValuePlaced(bits, t.len);
    var u := Clock(t, m == 1, bits[0]);
    var hi' := hi + if bits[0] then Pow2(t.len - m) else 0;
    if m > 1 {
      ShiftRest(u, bits[1..], lo / 2, hi');
    } else {
      LastBit(u, bits[1..], lo, hi');
    }
  }

  lemma ShiftAllStep(t: Tap, bits: seq<bool>)
    requires Fits(t) && bits != []
    ensures var r := ShiftAll(Clock(t, |bits| == 1, bits[0]), bits[1..]);
            ShiftAll(t, bits) == (r.0, [t.tdo] + r.1)
  {}

  lemma HalfFits(lo: nat, m: nat)
    requires m > 0 && lo < Pow2(m)
    ensures lo / 2 < Pow2(m - 1)
  {}

  lemma LastBit(t: Tap, bits: seq<bool>, lo: nat, hi: nat)
    requires Fits(t) && lo < Pow2(1) && bits == []
    ensures lo / 2 + hi * Pow2(0) == hi && BitsOf(lo / 2, 0) == [] && ValueOf(bits) == 0 && ShiftAll(t, bits) == (t, [])
  {
    assert Pow2(0) == 1 && Pow2(1) == 2;
  }

  lemma ValuePlaced(bits: seq<bool>, len: nat)
    requires 0 < |bits| <= len
    ensures ValueOf(bits) * Pow2(len - |bits|) ==
            (if bits[0] then Pow2(len - |bits|) else 0) + ValueOf(bits[1..]) * Pow2(len - |bits| + 1)
  {
    var p, v := Pow2(len - |bits|), ValueOf(bits[1..]);
    assert ValueOf(bits) == (if bits[0] then 1 else 0) + 2 * v && Pow2(len - |bits| + 1) == 2 * p;
    hide *;
    TwiceProduct(if bits[0] then 1 else 0, v, p);
  }

  lemma TwiceProduct(b: nat, v: nat, p: nat)
    requires b <= 1
    ensures (b + 2 * v) * p == (if b == 1 then p else 0) + v * (2 * p)
  {
    Distribute(b + 2 * v, b, p);
    assert 2 * v * p == v * (2 * p);
  }

  /** A data scan from run-test/idle and back. */
  function ScanDr(t: Tap, bits: seq<bool>): (r: (Tap, seq<bool>))
    requires Fits(t)
    ensures Fits(r.0)
  {
    var s := Clock(Clock(Clock(t, true, false), false, false), false, false);
    var r := ShiftAll(s, bits);
    (Clock(Clock(r.0, true, false), false, false), r.1)
  }

  /** The port apart from its pins. */
  function Core(t: Tap): Tap {
    t.(tck := false, tms := false, tdi := false, tdo := false)
  }

  lemma ScanStarts(t: Tap)
    requires Fits(t) && t.state == RunTestIdle
    ensures var s := Clock(Clock(Clock(t, true, false), false, false), false, false);
            Core(s) == Core(Captured(t).(state := ShiftDr)) && s.tdo == (s.dr % 2 == 1)
  {
    hide D.Shape, Pow2, Updated;
  }

  lemma ScanEnds(t: Tap)
    requires Fits(t) && t.state == Exit1Dr
    ensures Core(Clock(Clock(t, true, false), false, false)) == Core(Updated(t).(state := RunTestIdle))
  {
    hide D.Shape, Pow2, Captured, Served, Shifted;
  }

  lemma ShiftWhole(t: Tap, bits: seq<bool>)
    requires Fits(t) && t.state == ShiftDr && |bits| == t.len && t.tdo == (t.dr % 2 == 1)
    ensures var r := ShiftAll(t, bits);
            r.1 == BitsOf(t.dr, t.len) && Core(r.0) == Core(t.(state := Exit1Dr, dr := ValueOf(bits)))
  {
    hide *;
    NothingAbove(t);
    ShiftRest(t, bits, t.dr, 0);
    CoreOf(t, ShiftAll(t, bits).0, ValueOf(bits));
  }

  lemma NothingAbove(t: Tap)
    requires Fits(t)
    ensures 0 < t.len && t.dr < Pow2(t.len) && t.dr == t.dr + 0 * Pow2(t.len) && Pow2(t.len - t.len) == 1
  {
    hide D.Shape;
  }

  lemma CoreOf(t: Tap, u: Tap, v: nat)
    requires u == t.(state := Exit1Dr, tck := true, tms := true, tdi := u.tdi, dr := v, tdo := u.tdo)
    ensures Core(u) == Core(t.(state := Exit1Dr, dr := v)) && u.state == Exit1Dr
  {}

  lemma CoreParts(t: Tap, u: Tap)
    requires Core(t) == Core(u)
    ensures t.state == u.state && t.ir == u.ir && t.dr == u.dr && t.len == u.len && t.dmi == u.dmi && t.dm == u.dm
  {}

  /** What a scan of the bits of v does to the port. */
  function Exchanged(t: Tap, v: nat): Tap
    requires D.Shape(t.dm)
  {
    Updated(Captured(t).(dr := v)).(state := RunTestIdle)
  }

  /** A full scan is a round trip: out come the captured bits, lowest first, and what goes in is what the
      register holds when it is updated. */
  lemma ScanRoundTrip(t: Tap, bits: seq<bool>)
    requires Fits(t) && t.state == RunTestIdle && |bits| == Captured(t).len
    ensures ScanDr(t, bits).1 == BitsOf(Captured(t).dr, Captured(t).len)
    ensures Core(ScanDr(t, bits).0) == Core(Exchanged(t, ValueOf(bits)))
  {
    var s := Clock(Clock(Clock(t, true, false), false, false), false, false);
    var r := ShiftAll(s, bits);
    assert ScanDr(t, bits) == (Clock(Clock(r.0, true, false), false, false), r.1);
    hide *;
    var v, c := ValueOf(bits), Captured(t);
    ScanStarts(t);
    CoreParts(s, c.(state := ShiftDr));
    ShiftWhole(s, bits);
    CoreParts(r.0, s.(state := Exit1Dr, dr := v));
    ScanEnds(r.0);
    SameUpdate(r.0, s, c, v);
  }

  lemma SameUpdate(e: Tap, s: Tap, c: Tap, v: nat)
    requires D.Shape(e.dm) && D.Shape(c.dm) && Core(e) == Core(s.(state := Exit1Dr, dr := v))
    requires Core(s) == Core(c.(state := ShiftDr))
    ensures Core(Updated(e).(state := RunTestIdle)) == Core(Updated(c.(dr := v)).(state := RunTestIdle))
  {
    hide D.Shape, Served;
  }

  // ---------------------------------------------------------------- instruction scans

  /** One clock in the instruction shift state. */
  lemma ClockShiftsIr(t: Tap, last: bool, bit: bool)
    requires Fits(t) && t.state == ShiftIr
    ensures var i := Shifted(t.ir, bit, IR_BITS);
            Clock(t, last, bit) ==
            t.(state := if last then Exit1Ir else ShiftIr, tck := true, tms := last, tdi := bit, ir := i,
               tdo := if last then t.tdo else i % 2 == 1)
  {
    hide Shifted, Pow2, D.Shape;
  }

  /** Shifting an instruction in puts the former one out and moves nothing else. */
  lemma {:induction false} ShiftRestIr(t: Tap, bits: seq<bool>, lo: nat, hi: nat, n: nat)
    requires Fits(t) && t.state == ShiftIr && 0 < |bits| <= n == IR_BITS && t.tdo == (t.ir % 2 == 1)
    requires lo < Pow2(|bits|) && t.ir == lo + hi * Pow2(|bits|)
    ensures var r := ShiftAll(t, bits);
            && r.1 == BitsOf(lo, |bits|) && r.0.ir == hi + ValueOf(bits) * Pow2(n - |bits|)
            && r.0 == t.(state := Exit1Ir, tck := true, tms := true, tdi := r.0.tdi, ir := r.0.ir, tdo := r.0.tdo)
    decreases |bits|
  {
    hide *;
    var m := |bits|;
    ShiftAllStep(t, bits);
    ClockShiftsIr(t, m == 1, bits[0]);
    ShiftedParts(lo, hi, m, n, bits[0]);
    HalfFits(lo, m);
    BitsStep(lo, m);
    ValuePlaced(bits, n);
    var u := Clock(t, m == 1, bits[0]);
    var hi' := hi + if bits[0] then Pow2(n - m) else 0;
    if m > 1 {
      ShiftRestIr(u, bits[1..], lo / 2, hi', n);
    } else {
      LastBit(u, bits[1..], lo, hi');
    }
  }

  /** An instruction scan from run-test/idle and back. */
  function ScanIr(t: Tap, bits: seq<bool>): (r: (Tap, seq<bool>))
    requires Fits(t)
    ensures Fits(r.0)
  {
    var r := ShiftAll(IrShifting(t), bits);
    (Clock(Clock(r.0, true, false), false, false), r.1)
  }

  function IrShifting(t: Tap): (s: Tap)
    requires Fits(t)
    ensures Fits(s)
  {
    Clock(Clock(Clock(Clock(t, true, false), true, false), false, false), false, false)
  }

  lemma ScanIrParts(t: Tap, bits: seq<bool>)
    requires Fits(t)
    ensures var r := ShiftAll(IrShifting(t), bits);
            ScanIr(t, bits) == (Clock(Clock(r.0, true, false), false, false), r.1)
  {
    hide Clock, ShiftAll, IrShifting, Fits;
  }

  lemma IrScanStarts(t: Tap)
    requires Fits(t) && t.state == RunTestIdle
    ensures var s := IrShifting(t); Core(s) == Core(t.(state := ShiftIr)) && s.tdo == (s.ir % 2 == 1)
  {
    hide D.Shape, Pow2, Updated, Captured;
  }

  lemma IrScanEnds(t: Tap)
    requires Fits(t) && t.state == Exit1Ir
    ensures Core(Clock(Clock(t, true, false), false, false)) == Core(t.(state := RunTestIdle))
  {
    hide D.Shape, Pow2, Captured, Updated, Shifted;
  }

  lemma NothingAboveIr(ir: nat, n: nat)
    requires ir < 32 && n == IR_BITS
    ensures 0 < n && ir < Pow2(n) && ir == ir + 0 * Pow2(n) && Pow2(n - n) == 1
  {
    assert Pow2(5) == 32;
  }

  /** An instruction scan is a round trip too: the former instruction comes out, and the one sent is selected. */
  lemma SelectsInstruction(t: Tap, ir: nat)
    requires Fits(t) && t.state == RunTestIdle && ir < 32
    ensures var r := ScanIr(t, BitsOf(ir, IR_BITS));
            r.1 == BitsOf(t.ir, IR_BITS) && Core(r.0) == Core(t.(ir := ir))
  {
    hide *;
    var n: nat := IR_BITS;
    var bits := BitsOf(ir, n);
    var s := IrShifting(t);
    var r := ShiftAll(s, bits);
    ScanIrParts(t, bits);
    InstructionFits(t);
    IrScanStarts(t);
    InIrScan(s, t);
    NothingAboveIr(t.ir, n);
    NothingAboveIr(ir, n);
    ValueOfBits(ir, n);
    ShiftRestIr(s, bits, s.ir, 0, n);
    IrScanEnds(r.0);
    IrDone(t, s, r.0, ir);
  }

  lemma InstructionFits(t: Tap)
    requires Fits(t)
    ensures t.ir < 32
  {}

  lemma InIrScan(s: Tap, t: Tap)
    requires Core(s) == Core(t.(state := ShiftIr))
    ensures s.state == ShiftIr && s.ir == t.ir
  {}

  lemma IrDone(t: Tap, s: Tap, u: Tap, ir: nat)
    requires Core(s) == Core(t.(state := ShiftIr)) && t.state == RunTestIdle
    requires u == s.(state := Exit1Ir, tck := true, tms := true, tdi := u.tdi, ir := ir, tdo := u.tdo)
    ensures Core(u.(state := RunTestIdle)) == Core(t.(ir := ir))
  {}

  // ---------------------------------------------------------------- debug bus accesses

  /** A scan of a debug bus access, as the debugger shifts it. */
  function DbusScan(t: Tap, op: nat, data: nat, address: nat): (r: (Tap, seq<bool>))
    requires Fits(t)
    ensures Fits(r.0)
  {
    ScanDr(t, BitsOf(Access(op, data, address), DBUS_BITS))
  }

  /** The module sees exactly the operation, data and address that were sent. */
  lemma DbusAccess(t: Tap, op: nat, data: nat, address: nat)
    requires Fits(t) && t.state == RunTestIdle && t.ir == DBUS && op < 4 && data < 0x1_0000_0000 && address < 64
    ensures var u := DbusScan(t, op, data, address).0;
            && u.state == RunTestIdle && u.ir == DBUS && u.dm == Served(t.dm, Access(op, data, address)).0
            && u.dmi == Served(t.dm, Access(op, data, address)).1
    ensures DbusScan(t, op, data, address).1 == BitsOf(t.dmi, DBUS_BITS)
  {
    WideBus();
    FieldsOfAccess(op, data, address);
    hide Access, Pow2, D.Shape, Served;
    var v := Access(op, data, address);
    ValueOfBits(v, DBUS_BITS);
    var bits := BitsOf(v, DBUS_BITS);
    assert Captured(t) == t.(dr := t.dmi, len := DBUS_BITS);
    hide BitsOf, ValueOf, ScanDr;
    ScanRoundTrip(t, bits);
    CoreParts(ScanDr(t, bits).0, Exchanged(t, v));
  }

  /** The scan after an access, which brings its reply. */
  function NextScan(t: Tap, op: nat, data: nat, address: nat): (Tap, seq<bool>)
    requires Fits(t)
  {
    DbusScan(DbusScan(t, op, data, address).0, 0, 0, 0)
  }

  function ReadReply(dm: D.Dm, data: nat, address: nat): nat
    requires D.Shape(dm)
  {
    var value := D.ReadValue(dm, address);
    if value >= 0 then Access(SUCCESS, value, address) else Access(FAILED, data, address)
  }

  function WriteReply(dm: D.Dm, data: nat, address: nat): nat {
    Access(if D.Writable(dm, address) then SUCCESS else FAILED, data, address)
  }

  lemma AccessThenReply(t: Tap, op: nat, data: nat, address: nat)
    requires Fits(t) && t.state == RunTestIdle && t.ir == DBUS && op < 4 && data < 0x1_0000_0000 && address < 64
    ensures var s := Served(t.dm, Access(op, data, address));
            && DbusScan(t, op, data, address).0.dm == s.0 == NextScan(t, op, data, address).0.dm
            && NextScan(t, op, data, address).1 == BitsOf(s.1, DBUS_BITS)
  {
    hide *;
    DbusAccess(t, op, data, address);
    var u := DbusScan(t, op, data, address).0;
    DbusAccess(u, 0, 0, 0);
    NopServed(u.dm);
    NextScanIs(t, op, data, address);
  }

  lemma NextScanIs(t: Tap, op: nat, data: nat, address: nat)
    requires Fits(t)
    ensures NextScan(t, op, data, address) == DbusScan(DbusScan(t, op, data, address).0, 0, 0, 0)
  {
    hide DbusScan, Fits;
  }

  lemma NopServed(dm: D.Dm)
    requires D.Shape(dm)
    ensures Served(dm, Access(0, 0, 0)).0 == dm
  {
    hide Served, Access, D.Shape;
    ServedNop(dm, 0, 0, 0);
  }

  /** A read: the reply to the next scan is the register's value, the address and success; or, for an
      address that does not answer, failure with the module unchanged. */
  lemma DbusRead(t: Tap, data: nat, address: nat)
    requires Fits(t) && t.state == RunTestIdle && t.ir == DBUS && data < 0x1_0000_0000 && address < 64
    ensures DbusScan(t, OP_READ, data, address).0.dm == D.AfterRead(t.dm, address) ==
        NextScan(t, OP_READ, data, address).0.dm
    ensures NextScan(t, OP_READ, data, address).1 == BitsOf(ReadReply(t.dm, data, address), DBUS_BITS)
  {
    assert D.Shape(t.dm);
    hide *;
    AccessThenReply(t, OP_READ, data, address);
    ServedRead(t.dm, data, address);
  }

  lemma ServedRead(dm: D.Dm, data: nat, address: nat)
    requires D.Shape(dm) && data < 0x1_0000_0000 && address < 64
    ensures Served(dm, Access(OP_READ, data, address)) == (D.AfterRead(dm, address), ReadReply(dm, data, address))
  {
    FieldsOfAccess(OP_READ, data, address);
    hide Op, Data, Address, D.Shape, D.ReadValue, D.AfterRead;
  }

  lemma ServedWrite(dm: D.Dm, data: nat, address: nat)
    requires D.Shape(dm) && data < 0x1_0000_0000 && address < 64
    ensures Served(dm, Access(OP_WRITE, data, address)) ==
        (D.AfterWrite(dm, address, data), WriteReply(dm, data, address))
  {
    FieldsOfAccess(OP_WRITE, data, address);
    hide Op, Data, Address, D.Shape, D.AfterWrite, D.Writable;
  }

  lemma ServedNop(dm: D.Dm, op: nat, data: nat, address: nat)
    requires D.Shape(dm) && op < 4 && op != OP_READ && op != OP_WRITE && data < 0x1_0000_0000 && address < 64
    ensures Served(dm, Access(op, data, address)) == (dm, Access(SUCCESS, data, address))
  {
    FieldsOfAccess(op, data, address);
    hide Op, Data, Address, D.Shape;
  }

  /** A write reaches the register with its data, and the reply says whether there was one. */
  lemma DbusWrite(t: Tap, data: nat, address: nat)
    requires Fits(t) && t.state == RunTestIdle && t.ir == DBUS && data < 0x1_0000_0000 && address < 64
    ensures DbusScan(t, OP_WRITE, data, address).0.dm == D.AfterWrite(t.dm, address, data) ==
        NextScan(t, OP_WRITE, data, address).0.dm
    ensures NextScan(t, OP_WRITE, data, address).1 == BitsOf(WriteReply(t.dm, data, address), DBUS_BITS)
  {
    assert D.Shape(t.dm);
    hide *;
    AccessThenReply(t, OP_WRITE, data, address);
    ServedWrite(t.dm, data, address);
  }

  /** Five clocks with TMS high reset the port from every state. */
  function Ones(t: Tap, n: nat): (u: Tap)
    requires Fits(t)
    ensures Fits(u)
  {
    if n == 0 then t else Clock(Ones(t, n - 1), true, false)
  }

  lemma FiveOnesReset(t: Tap)
    requires Fits(t)
    ensures Ones(t, 5).state == TestLogicReset && Ones(t, 5).ir == IDCODE
  {
    hide *;
    OneMore(t, 0);
    OneMore(t, 1);
    OneMore(t, 2);
    OneMore(t, 3);
    OneMore(t, 4);
    NoOnes(t);
    FiveOnes(t.state);
  }

  lemma NoOnes(t: Tap)
    requires Fits(t)
    ensures Ones(t, 0) == t
  {}

  lemma FiveOnes(s: State)
    ensures NextState(NextState(NextState(NextState(NextState(s, true), true), true), true), true) == TestLogicReset
  {}

  lemma OneMore(t: Tap, n: nat)
    requires Fits(t)
    ensures var u, v := Ones(t, n), Ones(t, n + 1);
            v.state == NextState(u.state, true) && (v.state == TestLogicReset ==> v.ir == IDCODE)
  {
    hide Clock, Fits;
    OneClock(Ones(t, n), true);
  }

  lemma OneClock(t: Tap, tms: bool)
    requires Fits(t)
    ensures var u := Clock(t, tms, false);
            u.state == NextState(t.state, tms) && (u.state == TestLogicReset ==> u.ir == IDCODE)
  {
    hide Shifted, Pow2, Served, D.Shape;
  }

  /** From every state, five clocks with TMS high, one with it low and an instruction scan bring the port to
      the debug bus, whatever went before. */
  function Connected(t: Tap): (u: Tap)
    requires Fits(t)
    ensures Fits(u)
  {
    ScanIr(Clock(Ones(t, 5), false, false), BitsOf(DBUS, IR_BITS)).0
  }

  lemma ConnectedReady(t: Tap)
    requires Fits(t)
    ensures Connected(t).state == RunTestIdle && Connected(t).ir == DBUS
  {
    var u := Clock(Ones(t, 5), false, false);
    assert Connected(t) == ScanIr(u, BitsOf(DBUS, IR_BITS)).0;
    assert DBUS < 32;
    hide *;
    FiveOnesReset(t);
    LeavesReset(Ones(t, 5));
    SelectsInstruction(u, DBUS);
    CoreParts(ScanIr(u, BitsOf(DBUS, IR_BITS)).0, u.(ir := DBUS));
  }

  lemma LeavesReset(t: Tap)
    requires Fits(t) && t.state == TestLogicReset
    ensures Clock(t, false, false).state == RunTestIdle
  {
    hide D.Shape, Pow2, Captured, Updated, Shifted;
  }

  // ---------------------------------------------------------------- the port as a program

  /** OR of the new bit into the shifted register. */
  lemma OrShifted(v: nat, bit: bool, n: nat)
    requires n > 0 && v < Pow2(n)
    ensures Or(Shr(v, 1), if bit then Pow2(n - 1) else 0) == Shifted(v, bit, n)
  {
    var top: nat := if bit then Pow2(n - 1) else 0;
    assert Shr(v, 1) == v / 2 by { assert Pow2(1) == 2; }
    DivMod(top, Pow2(n - 1), if bit then 1 else 0, 0);
    OrDisjoint(top, v / 2, n - 1);
    OrCommutes(top, v / 2);
  }

  class Port {
    const dm: D.Module
    var tck: bool
    var tms: bool
    var tdi: bool
    var tdo: bool
    var ir: nat
    var dr: nat
    var drLength: nat
    var dmi: nat
    var state: State

    ghost function View(): Tap
      reads this, dm
    {
      Tap(state, tck, tms, tdi, tdo, ir, dr, drLength, dmi, dm.State())
    }

    ghost predicate Valid()
      reads this, dm
    {
      Fits(View())
    }

    /** The registers that the source leaves unset are given. */
    constructor (dm: D.Module, ir: nat, dr: nat, drLength: nat)
      requires dm.Valid() && ir < 32 && 0 < drLength <= 64 && dr < Pow2(drLength)
      ensures Valid()
      ensures View() == Tap(TestLogicReset, false, false, false, false, ir, dr, drLength, SUCCESS, dm.State())
      ensures this.dm == dm
    {
      this.dm, this.ir, this.dr, this.drLength := dm, ir, dr, drLength;
      tck, tms, tdi, tdo, dmi, state := false, false, false, false, SUCCESS, TestLogicReset;
    }

    method SetPins(newTck: bool, newTms: bool, newTdi: bool)
      requires Valid()
      modifies this, dm
      ensures Valid() && View() == Pins(old(View()), newTck, newTms, newTdi)
    {
      PinsFit(View(), newTck, newTms, newTdi);
      AdvancedFits(View());
      assert D.Shape(Advanced(View()).dm);
      hide Advanced, Entered, Fits, D.Shape;
      if !tck && newTck {
        Shift();
        Enter();
      }
      tck, tms, tdi := newTck, newTms, newTdi;
    }

    /** The first half of a positive clock edge: the shift, and the next state. */
    method Shift()
      requires Valid()
      modifies this
      ensures View() == Advanced(old(View()))
    {
      OrShifted(dr, tdi, drLength);
      OrIr(ir, tdi);
      hide Shifted, Pow2, Or, D.Shape;
      match state {
        case ShiftDr => dr := Or(Shr(dr, 1), if tdi then Pow2(drLength - 1) else 0);
        case ShiftIr => ir := Or(Shr(ir, 1), if tdi then Pow2(IR_BITS - 1) else 0);
        case _ =>
      }
      state := NextState(state, tms);
    }

    /** The second half: what is done on entering a state. */
    method Enter()
      requires dm.Valid()
      modifies this, dm
      ensures dm.Valid() && View() == Entered(old(View()))
    {
      hide Captured, Updated, D.Shape;
      match state {
        case TestLogicReset => ir := IDCODE;
        case CaptureDr => Capture();
        case ShiftDr => tdo := dr % 2 == 1;
        case UpdateDr => Update();
        case ShiftIr => tdo := ir % 2 == 1;
        case _ =>
      }
    }

    method Capture()
      modifies this
      ensures View() == Captured(old(View()))
    {
      if ir == IDCODE {
        dr, drLength := 0xdead_beef, 32;
      } else if ir == DTMCONTROL {
        dr, drLength := ABITS * 16 + 1, 32;
      } else if ir == DBUS {
        dr, drLength := dmi, ABITS + 34;
      }
    }

    method Update()
      requires dm.Valid()
      modifies this, dm
      ensures dm.Valid() && View() == Updated(old(View()))
    {
      hide D.AfterRead, D.AfterWrite, D.ReadValue, D.Writable, D.Shape, Access, Op, Data, Address;
      if ir == DBUS {
        var op, data, address := Op(dr), Data(dr), Address(dr);
        var success := true;
        dmi := Access(op, data, address);
        var status := SUCCESS;
        if op == OP_READ {
          var value := dm.DmiRead(address);
          if value >= 0 { data := value; } else { status := FAILED; }
        } else if op == OP_WRITE {
          var ok := dm.DmiWrite(address, data);
          if !ok { status := FAILED; }
        }
        dmi := Access(status, data, address);
      }
    }
  }

  lemma PinsFit(t: Tap, tck: bool, tms: bool, tdi: bool)
    requires Fits(t)
    ensures Fits(Pins(t, tck, tms, tdi)) && t.len > 0
  {
    EdgeFits(t);
    hide Edge, D.Shape;
  }

  lemma OrIr(v: nat, bit: bool)
    requires v < 32
    ensures Or(Shr(v, 1), if bit then Pow2(IR_BITS - 1) else 0) == Shifted(v, bit, IR_BITS)
  {
    assert Pow2(5) == 32;
    var n := IR_BITS;
    OrShifted(v, bit, n);
  }
}
