/** What goes in and comes out of the test access port of jtag_dtm.cc, bit by bit. */
module JtagScans {
  import opened Bits
  import opened Words
  import opened JtagDtm
  import D = DebugModule

  // ---------------------------------------------------------------- the register as a queue

  /** A shift drops the lowest bit and puts the new one on top. */
  lemma BitsShifted(v: nat, bit: bool, n: nat)
    requires n > 0 && v < Pow2(n)
    ensures BitsOf(Shifted(v, bit, n), n) == BitsOf(v, n)[1..] + [bit]
  {
    var w := Shifted(v, bit, n);
    var b, c := BitsOf(w, n), BitsOf(v, n)[1..] + [bit];
    forall i | 0 <= i < n ensures b[i] == c[i] { ShiftedBit(v, bit, n, i); }
  }

  lemma ShiftedBit(v: nat, bit: bool, n: nat, i: nat)
    requires v < Pow2(n) && i < n
    ensures Bit(Shifted(v, bit, n), i) == if i < n - 1 then Bit(v, i + 1) else bit
  {
    HalfFits(v, n);
    hide Pow2, Bit;
    if i < n - 1 {
      BitShift(v, i + 1);
      BitBelowTop(v / 2, bit, n - 1, i);
    } else {
      TopBit(v / 2, bit, n - 1);
    }
  }

  lemma TopBit(x: nat, bit: bool, k: nat)
    requires x < Pow2(k)
    ensures Bit(x + (if bit then Pow2(k) else 0), k) == bit
  {
    DivMod(x + (if bit then Pow2(k) else 0), Pow2(k), if bit then 1 else 0, x);
  }

  lemma BitBelowTop(x: nat, bit: bool, k: nat, i: nat)
    requires x < Pow2(k) && i < k
    ensures Bit(x + (if bit then Pow2(k) else 0), i) == Bit(x, i)
  {
    if bit {
      Pow2Add(i, k - i);
      Pow2Add(1, k - i - 1);
      assert Pow2(1) == 2;
      EvenHigh(x, Pow2(i), Pow2(k - i - 1));
    }
  }

  lemma EvenHigh(x: nat, m: nat, p: nat)
    requires m > 0
    ensures (x + m * (2 * p)) / m % 2 == x / m % 2
  {
    var q, r := x / m, x % m;
    assert (q + 2 * p) * m == q * m + m * (2 * p);
    DivMod(x + m * (2 * p), m, q + 2 * p, r);
  }

  /** Shifting any number of bits, more or fewer than the register has: what comes out is the register and then the
      bits themselves, first in, first out; what has not come out is left in the register. */
  lemma {:induction false} ShiftQueue(t: Tap, bits: seq<bool>)
    requires Fits(t) && t.state == ShiftDr && bits != [] && t.tdo == (t.dr % 2 == 1)
    ensures var r := ShiftAll(t, bits); var queue := BitsOf(t.dr, t.len) + bits;
      && r.1 == queue[..|bits|] && BitsOf(r.0.dr, t.len) == queue[|bits|..]
      && r.0 == t.(state := Exit1Dr, tck := true, tms := true, tdi := r.0.tdi, dr := r.0.dr, tdo := r.0.tdo)
    decreases |bits|
  {
    hide *;
    DrFits(t);
    ShiftAllStep(t, bits);
    ClockShifts(t, |bits| == 1, bits[0]);
    BitsShifted(t.dr, bits[0], t.len);
    var u := Clock(t, |bits| == 1, bits[0]);
    var before, after := BitsOf(t.dr, t.len), BitsOf(u.dr, t.len);
    FirstBit(t.dr, t.len);
    assert before + bits == [t.tdo] + (after + bits[1..]);
    if |bits| == 1 {
      NoBits(u, bits[1..]);
    } else {
      ShiftQueue(u, bits[1..]);
    }
  }

  lemma DrFits(t: Tap)
    requires Fits(t)
    ensures t.len > 0 && t.dr < Pow2(t.len)
  {}

  lemma FirstBit(v: nat, n: nat)
    requires n > 0
    ensures BitsOf(v, n)[0] == (v % 2 == 1)
  {
    BitsStep(v, n);
  }

  lemma NoBits(t: Tap, bits: seq<bool>)
    requires Fits(t) && bits == []
    ensures ShiftAll(t, bits) == (t, [])
  {}

  /** The same for the instruction register, of five bits. */
  lemma {:induction false} ShiftQueueIr(t: Tap, bits: seq<bool>, n: nat)
    requires Fits(t) && t.state == ShiftIr && bits != [] && t.tdo == (t.ir % 2 == 1) && n == IR_BITS
    ensures var r := ShiftAll(t, bits); var queue := BitsOf(t.ir, n) + bits;
      && r.1 == queue[..|bits|] && BitsOf(r.0.ir, n) == queue[|bits|..]
      && r.0 == t.(state := Exit1Ir, tck := true, tms := true, tdi := r.0.tdi, ir := r.0.ir, tdo := r.0.tdo)
    decreases |bits|
  {
    hide *;
    InstructionFits(t);
    NothingAboveIr(t.ir, n);
    ShiftAllStep(t, bits);
    ClockShiftsIr(t, |bits| == 1, bits[0]);
    BitsShifted(t.ir, bits[0], n);
    var u := Clock(t, |bits| == 1, bits[0]);
    var before, after := BitsOf(t.ir, n), BitsOf(u.ir, n);
    FirstBit(t.ir, n);
    assert before + bits == [t.tdo] + (after + bits[1..]);
    if |bits| == 1 {
      NoBits(u, bits[1..]);
    } else {
      ShiftQueueIr(u, bits[1..], n);
    }
  }

  // ---------------------------------------------------------------- clocks that only move the controller

  predicate Acts(s: State) { s.TestLogicReset? || s.CaptureDr? || s.ShiftDr? || s.UpdateDr? || s.ShiftIr? }

  lemma ClockMoves(t: Tap, tms: bool)
    requires Fits(t) && t.state != ShiftDr && t.state != ShiftIr && !Acts(NextState(t.state, tms))
    ensures var u := Clock(t, tms, false); Core(u) == Core(t.(state := NextState(t.state, tms))) && u.tdo == t.tdo
  {
    hide D.Shape, Pow2, Captured, Updated, Shifted, NextState;
  }

  /** Back in the shift state, the lowest bit of the register shows again. */
  lemma ClockShows(t: Tap)
    requires Fits(t) && (t.state == Exit2Dr || t.state == Exit2Ir)
    ensures var u := Clock(t, false, false);
      Core(u) == Core(t.(state := if t.state == Exit2Dr then ShiftDr else ShiftIr))
      && u.tdo == ((if t.state == Exit2Dr then t.dr else t.ir) % 2 == 1)
  {
    hide D.Shape, Pow2, Captured, Updated, Shifted;
  }

  /** n clocks with TMS low. */
  function Waited(t: Tap, n: nat): (u: Tap)
    requires Fits(t)
    ensures Fits(u)
  {
    if n == 0 then t else Clock(Waited(t, n - 1), false, false)
  }

  /** Waiting, idle or in a pause, changes nothing. */
  lemma {:induction false} WaitKeeps(t: Tap, n: nat)
    requires Fits(t) && Rests(t.state)
    ensures Core(Waited(t, n)) == Core(t)
  {
    hide *;
    WaitStep(t, n);
    if n > 0 {
      WaitKeeps(t, n - 1);
      var u := Waited(t, n - 1);
      CoreParts(u, t);
      Resting(u.state);
      ClockMoves(u, false);
      CoreAgain(t, u, Waited(t, n), t.state);
      SameState(t);
    }
  }

  predicate Rests(s: State) { s.RunTestIdle? || s.PauseDr? || s.PauseIr? }

  lemma Resting(s: State)
    requires Rests(s)
    ensures NextState(s, false) == s && !Acts(s) && s != ShiftDr && s != ShiftIr
  {}

  lemma SameState(t: Tap)
    ensures t.(state := t.state) == t
  {}

  lemma WaitStep(t: Tap, n: nat)
    requires Fits(t)
    ensures Waited(t, n) == if n == 0 then t else Clock(Waited(t, n - 1), false, false)
  {
    hide Clock, Fits;
  }

  /** From the first exit of a scan through a pause of n more clocks back into the shift state. */
  function Paused(t: Tap, n: nat): (u: Tap)
    requires Fits(t)
    ensures Fits(u)
  {
    Clock(Clock(Waited(Clock(t, false, false), n), true, false), false, false)
  }

  lemma PauseKeeps(t: Tap, n: nat)
    requires Fits(t) && (t.state == Exit1Dr || t.state == Exit1Ir)
    ensures var u := Paused(t, n);
      && Core(u) == Core(t.(state := if t.state == Exit1Dr then ShiftDr else ShiftIr))
      && u.tdo == ((if t.state == Exit1Dr then t.dr else t.ir) % 2 == 1)
  {
    hide *;
    var p := Clock(t, false, false);
    var w := Waited(p, n);
    var x := Clock(w, true, false);
    PausedIs(t, n);
    PausePath(t.state);
    ClockMoves(t, false);
    CoreParts(p, t.(state := NextState(t.state, false)));
    WaitKeeps(p, n);
    CoreParts(w, p);
    ClockMoves(w, true);
    CoreParts(x, w.(state := NextState(w.state, true)));
    ClockShows(x);
    CoreAgain(t, x, Clock(x, false, false), if t.state == Exit1Dr then ShiftDr else ShiftIr);
  }

  lemma PausedIs(t: Tap, n: nat)
    requires Fits(t)
    ensures Paused(t, n) == Clock(Clock(Waited(Clock(t, false, false), n), true, false), false, false)
  {
    hide Clock, Fits, Waited;
  }

  lemma PausePath(s: State)
    requires s == Exit1Dr || s == Exit1Ir
    ensures var p := NextState(s, false); var x := NextState(p, true);
      && p == (if s == Exit1Dr then PauseDr else PauseIr) && x == (if s == Exit1Dr then Exit2Dr else Exit2Ir)
      && Rests(p) && !Acts(p) && !Acts(x) && p != ShiftDr && p != ShiftIr
  {}

  lemma CoreAgain(t: Tap, x: Tap, u: Tap, s: State)
    requires x.ir == t.ir && x.dr == t.dr && x.len == t.len && x.dmi == t.dmi && x.dm == t.dm
    requires Core(u) == Core(x.(state := s))
    ensures Core(u) == Core(t.(state := s))
  {}

  // ---------------------------------------------------------------- scans with a pause

  /** A data scan that pauses after the first bits. */
  function PausedScanDr(t: Tap, first: seq<bool>, n: nat, rest: seq<bool>): (Tap, seq<bool>)
    requires Fits(t)
  {
    var s := Clock(Clock(Clock(t, true, false), false, false), false, false);
    var r := ShiftAll(s, first);
    var q := ShiftAll(Paused(r.0, n), rest);
    (Clock(Clock(q.0, true, false), false, false), r.1 + q.1)
  }

  /** A pause makes no difference: the same bits come out, and the port ends up the same. */
  lemma PausedScan(t: Tap, first: seq<bool>, n: nat, rest: seq<bool>)
    requires Fits(t) && t.state == RunTestIdle && first != [] && rest != []
    ensures PausedScanDr(t, first, n, rest).1 == ScanDr(t, first + rest).1
    ensures Core(PausedScanDr(t, first, n, rest).0) == Core(ScanDr(t, first + rest).0)
  {
    var s := Clock(Clock(Clock(t, true, false), false, false), false, false);
    var r := ShiftAll(s, first);
    var p := Paused(r.0, n);
    var q := ShiftAll(p, rest);
    var whole := ShiftAll(s, first + rest);
    assert PausedScanDr(t, first, n, rest) == (Clock(Clock(q.0, true, false), false, false), r.1 + q.1);
    assert ScanDr(t, first + rest) == (Clock(Clock(whole.0, true, false), false, false), whole.1);
    hide *;
    ScanStarts(t);
    StartsShifting(t, s);
    TwoParts(s, first, n, rest);
    ScanEnds(q.0);
    ScanEnds(whole.0);
    SameEnd(q.0, whole.0);
  }

  lemma StartsShifting(t: Tap, s: Tap)
    requires Core(s) == Core(Captured(t).(state := ShiftDr))
    ensures s.state == ShiftDr
  {}

  lemma TwoParts(s: Tap, first: seq<bool>, n: nat, rest: seq<bool>)
    requires Fits(s) && s.state == ShiftDr && s.tdo == (s.dr % 2 == 1) && first != [] && rest != []
    ensures var r := ShiftAll(s, first); var q, whole := ShiftAll(Paused(r.0, n), rest), ShiftAll(s, first + rest);
      r.1 + q.1 == whole.1 && Core(q.0) == Core(whole.0) && q.0.state == whole.0.state == Exit1Dr
  {
    hide *;
    ShiftQueue(s, first);
    ShiftQueue(s, first + rest);
    var r := ShiftAll(s, first);
    var p := Paused(r.0, n);
    PauseKeeps(r.0, n);
    CoreParts(p, r.0.(state := ShiftDr));
    ShiftQueue(p, rest);
    var q, whole := ShiftAll(p, rest), ShiftAll(s, first + rest);
    var held := BitsOf(s.dr, s.len);
    Splits(held, first, rest, r.1, BitsOf(r.0.dr, s.len));
    SameBits(q.0, whole.0, s.len);
    CoreEqual(q.0, whole.0);
  }

  lemma Splits(held: seq<bool>, a: seq<bool>, b: seq<bool>, out: seq<bool>, left: seq<bool>)
    requires out == (held + a)[..|a|] && left == (held + a)[|a|..]
    ensures out + (left + b)[..|b|] == (held + (a + b))[..|a + b|]
    ensures (left + b)[|b|..] == (held + (a + b))[|a + b|..]
  {
    assert held + (a + b) == out + (left + b);
  }

  lemma SameBits(t: Tap, u: Tap, n: nat)
    requires Fits(t) && Fits(u) && t.len == u.len == n && BitsOf(t.dr, n) == BitsOf(u.dr, n)
    ensures t.dr == u.dr
  {
    ValueOfBits(t.dr, n);
    ValueOfBits(u.dr, n);
  }

  lemma CoreEqual(t: Tap, u: Tap)
    requires t.state == u.state && t.ir == u.ir && t.dr == u.dr && t.len == u.len && t.dmi == u.dmi && t.dm == u.dm
    ensures Core(t) == Core(u)
  {}

  lemma SameEnd(t: Tap, u: Tap)
    requires Fits(t) && Fits(u) && Core(t) == Core(u)
    ensures D.Shape(t.dm) && D.Shape(u.dm)
    ensures Core(Updated(t).(state := RunTestIdle)) == Core(Updated(u).(state := RunTestIdle))
  {
    hide D.Shape, Served, Fits;
    ShapeOf(t);
    ShapeOf(u);
    CoreParts(t, u);
  }

  lemma ShapeOf(t: Tap)
    requires Fits(t)
    ensures D.Shape(t.dm)
  {}

  /** An instruction scan that pauses after the first bits. */
  function PausedScanIr(t: Tap, first: seq<bool>, n: nat, rest: seq<bool>): (Tap, seq<bool>)
    requires Fits(t)
  {
    var r := ShiftAll(IrShifting(t), first);
    var q := ShiftAll(Paused(r.0, n), rest);
    (Clock(Clock(q.0, true, false), false, false), r.1 + q.1)
  }

  lemma PausedInstruction(t: Tap, first: seq<bool>, n: nat, rest: seq<bool>)
    requires Fits(t) && t.state == RunTestIdle && first != [] && rest != []
    ensures PausedScanIr(t, first, n, rest).1 == ScanIr(t, first + rest).1
    ensures Core(PausedScanIr(t, first, n, rest).0) == Core(ScanIr(t, first + rest).0)
  {
    var s := IrShifting(t);
    var r := ShiftAll(s, first);
    var q := ShiftAll(Paused(r.0, n), rest);
    assert PausedScanIr(t, first, n, rest) == (Clock(Clock(q.0, true, false), false, false), r.1 + q.1);
    hide *;
    var whole := ShiftAll(s, first + rest);
    ScanIrParts(t, first + rest);
    IrScanStarts(t);
    InIrScan(s, t);
    TwoPartsIr(s, first, n, rest, IR_BITS);
    IrScanEnds(q.0);
    IrScanEnds(whole.0);
    SameRest(q.0, whole.0);
  }

  lemma TwoPartsIr(s: Tap, first: seq<bool>, n: nat, rest: seq<bool>, w: nat)
    requires Fits(s) && s.state == ShiftIr && s.tdo == (s.ir % 2 == 1) && first != [] && rest != [] && w == IR_BITS
    ensures var r := ShiftAll(s, first); var q, whole := ShiftAll(Paused(r.0, n), rest), ShiftAll(s, first + rest);
      r.1 + q.1 == whole.1 && Core(q.0) == Core(whole.0) && q.0.state == whole.0.state == Exit1Ir
  {
    hide *;
    ShiftQueueIr(s, first, w);
    ShiftQueueIr(s, first + rest, w);
    var r := ShiftAll(s, first);
    var p := Paused(r.0, n);
    PauseKeeps(r.0, n);
    CoreParts(p, r.0.(state := ShiftIr));
    ShiftQueueIr(p, rest, w);
    var q, whole := ShiftAll(p, rest), ShiftAll(s, first + rest);
    Splits(BitsOf(s.ir, w), first, rest, r.1, BitsOf(r.0.ir, w));
    SameInstruction(q.0, whole.0, w);
    CoreEqual(q.0, whole.0);
  }

  lemma SameInstruction(t: Tap, u: Tap, w: nat)
    requires Fits(t) && Fits(u) && BitsOf(t.ir, w) == BitsOf(u.ir, w) && w == IR_BITS
    ensures t.ir == u.ir
  {
    NothingAboveIr(t.ir, w);
    NothingAboveIr(u.ir, w);
    ValueOfBits(t.ir, w);
    ValueOfBits(u.ir, w);
  }

  lemma SameRest(t: Tap, u: Tap)
    requires Core(t) == Core(u)
    ensures Core(t.(state := RunTestIdle)) == Core(u.(state := RunTestIdle))
  {}

  // ---------------------------------------------------------------- other ways through the controller

  /** A scan that follows at once, without idling, starts in the same state as after an idle clock. */
  lemma BackToBack(t: Tap)
    requires Fits(t) && (t.state == Exit1Dr || t.state == Exit1Ir)
    ensures var u := Clock(t, true, false);
      Core(Clock(u, true, false)) == Core(Clock(Clock(u, false, false), true, false))
      && Clock(u, true, false).state == SelectDrScan
  {
    hide *;
    var u := Clock(t, true, false);
    OneClock(t, true);
    UpdatePath(t.state);
    ClockMoves(u, true);
    ClockMoves(u, false);
    var i := Clock(u, false, false);
    CoreParts(i, u.(state := RunTestIdle));
    ClockMoves(i, true);
    CoreAgain(u, i, Clock(i, true, false), SelectDrScan);
    CoreParts(Clock(u, true, false), u.(state := SelectDrScan));
  }

  lemma UpdatePath(s: State)
    requires s == Exit1Dr || s == Exit1Ir
    ensures var u := NextState(s, true);
      && u != ShiftDr && u != ShiftIr && NextState(u, true) == SelectDrScan == NextState(RunTestIdle, true)
      && NextState(u, false) == RunTestIdle && !Acts(SelectDrScan) && !Acts(RunTestIdle)
  {}

  /** A data scan of no bits updates what was captured. */
  lemma EmptyScan(t: Tap)
    requires Fits(t) && t.state == RunTestIdle
    ensures var e := Clock(Clock(Clock(t, true, false), false, false), true, false);
      Core(e) == Core(Captured(t).(state := Exit1Dr))
  {
    hide *;
    var s := Clock(t, true, false);
    var c := Clock(s, false, false);
    CapturePath();
    ClockMoves(t, true);
    CoreParts(s, t.(state := SelectDrScan));
    ClockCaptures(s);
    CoreParts(c, Captured(s).(state := CaptureDr));
    ClockMoves(c, true);
    CapturedAlike(t, s, c, Clock(c, true, false));
  }

  lemma CapturePath()
    ensures NextState(RunTestIdle, true) == SelectDrScan && NextState(CaptureDr, true) == Exit1Dr
    ensures !Acts(SelectDrScan) && !Acts(Exit1Dr)
  {}

  lemma ClockCaptures(t: Tap)
    requires Fits(t) && t.state == SelectDrScan
    ensures Core(Clock(t, false, false)) == Core(Captured(t).(state := CaptureDr))
  {
    hide D.Shape, Pow2, Updated, Shifted;
  }

  lemma CapturedAlike(t: Tap, s: Tap, c: Tap, e: Tap)
    requires s.ir == t.ir && s.dr == t.dr && s.len == t.len && s.dmi == t.dmi && s.dm == t.dm
    requires Core(c) == Core(Captured(s).(state := CaptureDr)) && Core(e) == Core(c.(state := Exit1Dr))
    ensures Core(e) == Core(Captured(t).(state := Exit1Dr))
  {
    CapturedFields(t, s);
    hide *;
    CoreParts(c, Captured(s).(state := CaptureDr));
    CoreParts(e, c.(state := Exit1Dr));
    CoreEqual(e, Captured(t).(state := Exit1Dr));
  }

  lemma CapturedFields(t: Tap, s: Tap)
    requires s.ir == t.ir && s.dr == t.dr && s.len == t.len && s.dmi == t.dmi && s.dm == t.dm
    ensures var u, v := Captured(t), Captured(s);
      u.ir == v.ir && u.dr == v.dr && u.len == v.len && u.dmi == v.dmi && u.dm == v.dm
  {
    CapturedIs(t);
    CapturedIs(s);
    hide *;
  }

  lemma CapturedIs(t: Tap)
    ensures var u := Captured(t);
      && u == t.(dr := u.dr, len := u.len)
      && u.dr == (if t.ir == 1 then 0xdead_beef
                  else if t.ir == 0x10 then 0x61 else if t.ir == 0x11 then t.dmi else t.dr)
      && u.len == if t.ir == 1 || t.ir == 0x10 then 32 else if t.ir == 0x11 then 40 else t.len
  {}

  /** The controller acts on the pins of the call before: on a rising edge only the clock of the call itself counts,
      and on every other call the pins alone change. */
  lemma FormerPins(t: Tap, tck: bool, tms: bool, tdi: bool)
    requires Fits(t)
    ensures Pins(t, tck, tms, tdi) == Pins(t, tck, t.tms, t.tdi).(tms := tms, tdi := tdi)
    ensures t.tck || !tck ==> Pins(t, tck, tms, tdi) == t.(tck := tck, tms := tms, tdi := tdi)
    ensures !t.tck && tck ==> Core(Pins(t, tck, tms, tdi)) == Core(Clock(t, t.tms, t.tdi))
  {
    hide D.Shape, Pow2, Updated, Captured, Shifted;
  }

  // ---------------------------------------------------------------- what the registers say

  /** After five clocks with TMS high and one low, a scan of 32 bits reads 0xdeadbeef, whatever goes in, and leaves the
      debug module alone. */
  lemma IdentificationRead(t: Tap, bits: seq<bool>)
    requires Fits(t) && |bits| == 32
    ensures var u := Clock(Ones(t, 5), false, false); var r := ScanDr(u, bits);
      r.1 == BitsOf(0xdead_beef, 32) && r.0.state == RunTestIdle && r.0.dm == u.dm
  {
    var u := Clock(Ones(t, 5), false, false);
    hide *;
    FiveOnesReset(t);
    IdleAfterReset(Ones(t, 5));
    CapturesIdentification(u);
    ScanRoundTrip(u, bits);
    NoAccess(u, ValueOf(bits));
    CoreParts(ScanDr(u, bits).0, Exchanged(u, ValueOf(bits)));
  }

  lemma IdleAfterReset(t: Tap)
    requires Fits(t) && t.state == TestLogicReset && t.ir == IDCODE
    ensures Core(Clock(t, false, false)) == Core(t.(state := RunTestIdle))
    ensures Clock(t, false, false).state == RunTestIdle && Clock(t, false, false).ir == 1
  {
    hide D.Shape, Pow2, Captured, Updated, Shifted;
  }

  lemma CapturesIdentification(t: Tap)
    requires t.ir == 1
    ensures Captured(t).dr == 0xdead_beef && Captured(t).len == 32 && t.ir != DBUS
  {}

  lemma NoAccess(t: Tap, v: nat)
    requires Fits(t) && t.ir != DBUS
    ensures D.Shape(t.dm)
    ensures Exchanged(t, v).dm == t.dm && Exchanged(t, v).state == RunTestIdle && Exchanged(t, v).ir == t.ir
            && Exchanged(t, v).dmi == t.dmi
  {}

  /** n is the number of bits that come out of a data scan before those sent come out again. */
  ghost predicate Length(t: Tap, n: nat)
    requires Fits(t)
  {
    var s := Clock(Clock(Clock(t, true, false), false, false), false, false);
    forall bits: seq<bool> | |bits| > n :: ShiftAll(s, bits).1[n..] == bits[..|bits| - n]
  }

  /** The register that is selected by instruction 0x10 says version 1 (bits 0 to 3) and how many address bits a debug
      bus access has (bits 4 to 9): the length of that register, less 34. */
  lemma ControlRead(t: Tap, bits: seq<bool>, n: nat)
    requires Fits(t) && t.state == RunTestIdle && |bits| == 32
    ensures var u, b := ScanIr(t, BitsOf(0x10, 5)).0, ScanIr(t, BitsOf(0x11, 5)).0;
      var r := ScanDr(u, bits);
      && ValueOf(r.1[..4]) == 1 && (Length(b, n) <==> ValueOf(r.1[4..10]) == n - 34)
      && r.1[10..] == seq(22, _ => false)
      && r.0.state == RunTestIdle && r.0.dm == t.dm
  {
    var u, b := ScanIr(t, BitsOf(0x10, 5)).0, ScanIr(t, BitsOf(0x11, 5)).0;
    Selects(t, 0x10);
    Selects(t, 0x11);
    BusLength(b, n);
    CapturesControl(u);
    FieldsOfControl();
    hide *;
    ScanRoundTrip(u, bits);
    NoAccess(u, ValueOf(bits));
    CoreParts(ScanDr(u, bits).0, Exchanged(u, ValueOf(bits)));
  }

  lemma Selects(t: Tap, ir: nat)
    requires Fits(t) && t.state == RunTestIdle && ir < 32
    ensures var u := ScanIr(t, BitsOf(ir, 5)).0;
      u.state == RunTestIdle && u.ir == ir && u.dm == t.dm && u.dmi == t.dmi && u.dr == t.dr && u.len == t.len
  {
    var n: nat := IR_BITS;
    assert n == 5;
    hide *;
    SelectsInstruction(t, ir);
    CoreParts(ScanIr(t, BitsOf(ir, n)).0, t.(ir := ir));
  }

  lemma CapturesControl(t: Tap)
    requires t.ir == 0x10
    ensures Captured(t).dr == 0x61 && Captured(t).len == 32 && t.ir != DBUS
  {}

  lemma FieldsOfControl()
    ensures var r := BitsOf(0x61, 32); ValueOf(r[..4]) == 1 && ValueOf(r[4..10]) == 6 && r[10..] == seq(22, _ => false)
  {
    var n: nat := 32;
    var r := BitsOf(0x61, n);
    LowBits(n);
    forall i | 7 <= i < 32 ensures !r[i] { NoHighBit(i); }
    hide BitsOf;
    assert r[..4] == [true, false, false, false] && r[4..10] == [false, true, true, false, false, false];
    FourBits();
  }

  lemma LowBits(n: nat)
    requires n > 6
    ensures var r := BitsOf(0x61, n);
      r[0] && !r[1] && !r[2] && !r[3] && !r[4] && r[5] && r[6]
  {
    BitsStep(0x61, n);
    BitsStep(0x30, n - 1);
    BitsStep(0x18, n - 2);
    BitsStep(0xc, n - 3);
    BitsStep(6, n - 4);
    BitsStep(3, n - 5);
    BitsStep(1, n - 6);
    hide BitsOf;
  }

  lemma NoHighBit(i: nat)
    requires i >= 7
    ensures !Bit(0x61, i)
  {
    assert Pow2(7) == 128;
    Pow2Add(7, i - 7);
    DivMod(0x61, Pow2(i), 0, 0x61);
  }

  lemma FourBits()
    ensures ValueOf([true, false, false, false]) == 1 && ValueOf([false, true, true, false, false, false]) == 6
  {
    assert ValueOf([false, false, false]) == 0;
  }

  lemma BusLength(t: Tap, n: nat)
    requires Fits(t) && t.state == RunTestIdle && t.ir == 0x11
    ensures Length(t, n) <==> n == 40
  {
    hide Clock, ShiftAll, Fits, BitsOf, Captured, Core, Probe, InDr;
    var s := Clock(Clock(Clock(t, true, false), false, false), false, false);
    ScanStarts(t);
    BusCaptured(t, s);
    if n == 40 {
      forall bits: seq<bool> | |bits| > n ensures ShiftAll(s, bits).1[n..] == bits[..|bits| - n] { Echoed(s, bits); }
    } else {
      NotEchoed(s, n);
      var bits := Probe(BitsOf(s.dr, 40), n);
      assert ShiftAll(s, bits).1[n..] != bits[..|bits| - n];
    }
  }

  lemma Echoed(s: Tap, bits: seq<bool>)
    requires Fits(s) && s.state == ShiftDr && s.len == 40 && s.tdo == (s.dr % 2 == 1) && |bits| > 40
    ensures ShiftAll(s, bits).1[40..] == bits[..|bits| - 40]
  {
    hide *;
    ShiftQueue(s, bits);
    var b := BitsOf(s.dr, s.len);
    assert (b + bits)[..|bits|][40..] == bits[..|bits| - 40];
  }

  function Probe(b: seq<bool>, n: nat): (p: seq<bool>)
    requires |b| == 40
    ensures |p| == n + 1
  {
    seq(n + 1, i requires 0 <= i <= n => if n < 40 then !b[n] else i == 0)
  }

  lemma NotEchoed(s: Tap, n: nat)
    requires Fits(s) && s.state == ShiftDr && s.len == 40 && s.tdo == (s.dr % 2 == 1) && n != 40
    ensures var bits := Probe(BitsOf(s.dr, 40), n); ShiftAll(s, bits).1[n..] != bits[..|bits| - n]
  {
    hide Fits, ShiftAll, BitsOf;
    var b := BitsOf(s.dr, s.len);
    var bits := Probe(b, n);
    ShiftQueue(s, bits);
    assert ShiftAll(s, bits).1[n..][0] == (b + bits)[n];
    assert (b + bits)[n] != bits[0];
  }

  lemma BusCaptured(t: Tap, s: Tap)
    requires t.ir == 0x11 && Core(s) == Core(Captured(t).(state := ShiftDr))
    ensures s.state == ShiftDr && s.len == 40
  {}

  /** With any other instruction a scan passes its bits through the register that was captured last. */
  lemma OtherRead(t: Tap, bits: seq<bool>)
    requires Fits(t) && t.state == RunTestIdle && t.ir != 1 && t.ir != 0x10 && t.ir != 0x11 && |bits| == t.len
    ensures var r := ScanDr(t, bits);
      r.1 == BitsOf(t.dr, t.len) && r.0.dr == ValueOf(bits) && r.0.len == t.len && r.0.ir == t.ir && r.0.dm == t.dm
  {
    CapturesNothing(t, ValueOf(bits));
    hide *;
    ScanRoundTrip(t, bits);
    CoreParts(ScanDr(t, bits).0, Exchanged(t, ValueOf(bits)));
  }

  lemma CapturesNothing(t: Tap, v: nat)
    requires Fits(t) && t.ir != 1 && t.ir != 0x10 && t.ir != 0x11
    ensures Captured(t) == t && D.Shape(t.dm)
    ensures var u := Exchanged(t, v); u.dm == t.dm && u.dr == v && u.len == t.len && u.ir == t.ir
  {}

  // ---------------------------------------------------------------- debug bus accesses, bit by bit

  lemma BitsJoined(lo: nat, hi: nat, k: nat, n: nat)
    requires lo < Pow2(k)
    ensures BitsOf(lo + hi * Pow2(k), k + n) == BitsOf(lo, k) + BitsOf(hi, n)
  {
    var v := lo + hi * Pow2(k);
    var b, c := BitsOf(v, k + n), BitsOf(lo, k) + BitsOf(hi, n);
    DivMod(v, Pow2(k), hi, lo);
    forall i | 0 <= i < k + n ensures b[i] == c[i] {
      if i < k { LowBit(lo, hi, k, i); } else { HighBit(v, k, i - k); }
    }
  }

  lemma LowBit(lo: nat, hi: nat, k: nat, i: nat)
    requires i < k
    ensures Bit(lo + hi * Pow2(k), i) == Bit(lo, i)
  {
    var m, p := Pow2(i), Pow2(k - i - 1);
    Pow2Add(i, k - i);
    assert Pow2(k - i) == 2 * p;
    hide Pow2;
    Regrouped(hi, m, p);
    EvenHigh(lo, m, hi * p);
  }

  lemma Regrouped(hi: nat, m: nat, p: nat)
    ensures hi * (m * (2 * p)) == m * (2 * (hi * p))
  {}

  lemma HighBit(v: nat, k: nat, j: nat)
    ensures 0 <= v / Pow2(k) && Bit(v, k + j) == Bit(v / Pow2(k), j)
  {
    QuotientNat(v, Pow2(k));
    Pow2Add(k, j);
    DivDiv(v, Pow2(k), Pow2(j));
  }

  /** The bits of a debug bus access: two of the operation or the status, 32 of data, six of the address. */
  function BusBits(op: nat, data: nat, address: nat): (b: seq<bool>)
    ensures |b| == 40
  {
    BitsOf(op, 2) + BitsOf(data, 32) + BitsOf(address, 6)
  }

  lemma BusBitsAre(op: nat, data: nat, address: nat, n: nat)
    requires op < 4 && data < 0x1_0000_0000 && n == DBUS_BITS
    ensures BitsOf(Access(op, data, address), n) == BusBits(op, data, address)
  {
    BusWidths();
    hide BitsOf, Pow2;
    var k: nat, w: nat, d: nat, e: nat := 2, 38, 32, 6;
    BitsJoined(op, data + address * Pow2(d), k, w);
    BitsJoined(data, address, d, e);
    assert Access(op, data, address) == op + (data + address * 0x1_0000_0000) * 4;
  }

  lemma BusWidths()
    ensures Pow2(2) == 4 && Pow2(32) == 0x1_0000_0000 && DBUS_BITS == 2 + 38 && 38 == 32 + 6
  {
    Pow2Values();
  }

  /** What any scan of the debug bus brings: the reply to the access before. */
  lemma ReplyOf(t: Tap, bits: seq<bool>)
    requires Fits(t) && t.state == RunTestIdle && t.ir == 0x11 && |bits| == 40
    ensures ScanDr(t, bits).1 == BitsOf(t.dmi, DBUS_BITS)
  {
    BusCaptures(t);
    hide *;
    ScanRoundTrip(t, bits);
  }

  lemma BusCaptures(t: Tap)
    requires t.ir == 0x11
    ensures Captured(t).dr == t.dmi && Captured(t).len == DBUS_BITS == 40
  {}

  lemma AccessBits(t: Tap, op: nat, data: nat, address: nat, bits: seq<bool>)
    requires Fits(t) && t.state == RunTestIdle && t.ir == 0x11 && |bits| == 40
    requires op < 4 && data < 0x1_0000_0000 && address < 64
    ensures D.Shape(t.dm)
    ensures var u := ScanDr(t, BusBits(op, data, address)).0; var s := Served(t.dm, Access(op, data, address));
      && u.state == RunTestIdle && u.ir == 0x11 && u.dm == s.0 && ScanDr(u, bits).1 == BitsOf(s.1, DBUS_BITS)
  {
    ShapeOf(t);
    BusCaptures(t);
    assert DBUS == 0x11;
    hide *;
    BusBitsAre(op, data, address, DBUS_BITS);
    ScanOf(t, op, data, address);
    DbusAccess(t, op, data, address);
    ReplyOf(ScanDr(t, BusBits(op, data, address)).0, bits);
  }

  lemma ScanOf(t: Tap, op: nat, data: nat, address: nat)
    requires Fits(t)
    ensures DbusScan(t, op, data, address) == ScanDr(t, BitsOf(Access(op, data, address), DBUS_BITS))
  {
    hide ScanDr, Fits, BitsOf, Access;
  }

  /** A read, operation 1: the module does what it does for a read of that address, and the next scan brings status 0
      and the value, or status 2 and the data that was sent if the address does not answer; and the address. */
  lemma BusRead(t: Tap, data: nat, address: nat, bits: seq<bool>)
    requires Fits(t) && t.state == RunTestIdle && t.ir == 0x11 && |bits| == 40
    requires data < 0x1_0000_0000 && address < 64
    ensures D.Shape(t.dm)
    ensures var u := ScanDr(t, BusBits(1, data, address)).0; var value := D.ReadValue(t.dm, address);
      && u.dm == D.AfterRead(t.dm, address)
      && ScanDr(u, bits).1 == if value >= 0 then BusBits(0, value, address) else BusBits(2, data, address)
  {
    ShapeOf(t);
    assert SUCCESS == 0 && FAILED == 2 && OP_READ == 1;
    ReadReplyIs(t.dm, data, address);
    hide *;
    AccessBits(t, OP_READ, data, address, bits);
    ServedRead(t.dm, data, address);
    D.ReadFits(t.dm, address);
    var value := D.ReadValue(t.dm, address);
    if value >= 0 {
      BusBitsAre(SUCCESS, value, address, DBUS_BITS);
    } else {
      BusBitsAre(FAILED, data, address, DBUS_BITS);
    }
  }

  lemma ReadReplyIs(dm: D.Dm, data: nat, address: nat)
    requires D.Shape(dm)
    ensures var value := D.ReadValue(dm, address);
      ReadReply(dm, data, address) ==
      if value >= 0 then Access(SUCCESS, value, address) else Access(FAILED, data, address)
  {
    hide D.ReadValue, D.Shape, Access;
  }

  /** A write, operation 2: the module does what it does for a write of the data, and the next scan brings status 0, or
      2 if no write of that address is taken; and the data and address that were sent. */
  lemma BusWrite(t: Tap, data: nat, address: nat, bits: seq<bool>)
    requires Fits(t) && t.state == RunTestIdle && t.ir == 0x11 && |bits| == 40
    requires data < 0x1_0000_0000 && address < 64
    ensures D.Shape(t.dm)
    ensures var u := ScanDr(t, BusBits(2, data, address)).0;
      && u.dm == D.AfterWrite(t.dm, address, data)
      && ScanDr(u, bits).1 == BusBits(if D.Writable(t.dm, address) then 0 else 2, data, address)
  {
    ShapeOf(t);
    assert SUCCESS == 0 && FAILED == 2 && OP_WRITE == 2;
    assert WriteReply(t.dm, data, address) ==
           Access(if D.Writable(t.dm, address) then SUCCESS else FAILED, data, address);
    hide *;
    AccessBits(t, OP_WRITE, data, address, bits);
    ServedWrite(t.dm, data, address);
    BusBitsAre(SUCCESS, data, address, DBUS_BITS);
    BusBitsAre(FAILED, data, address, DBUS_BITS);
  }

  /** Operations 0 and 3 leave the module alone, and say success. */
  lemma BusNothing(t: Tap, op: nat, data: nat, address: nat, bits: seq<bool>)
    requires Fits(t) && t.state == RunTestIdle && t.ir == 0x11 && |bits| == 40
    requires (op == 0 || op == 3) && data < 0x1_0000_0000 && address < 64
    ensures var u := ScanDr(t, BusBits(op, data, address)).0;
      u.dm == t.dm && ScanDr(u, bits).1 == BusBits(0, data, address)
  {
    ShapeOf(t);
    assert SUCCESS == 0 && op != OP_READ && op != OP_WRITE;
    hide *;
    AccessBits(t, op, data, address, bits);
    ServedNop(t.dm, op, data, address);
    BusBitsAre(SUCCESS, data, address, DBUS_BITS);
  }
}
