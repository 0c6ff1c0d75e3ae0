/** What the debugger's writes do: words that are read back, and commands that start or fail. */
module DebugCommands {
  import opened Bits
  import opened FlatMemory
  import opened Words
  import opened DebugModule
  import opened DebugHistory

  // ---------------------------------------------------------------- read-back

  /** A word of the data registers or of the program buffer. */
  predicate IsBuffer(s: Dm, a: nat) { (4 <= a < 4 + s.datacount) || (0x20 <= a < 0x30) }

  function BufferWord(s: Dm, a: nat): nat
    requires Shape(s) && IsBuffer(s, a)
  {
    if a < 0x20 then Value(Fetch(s.data, 4 * (a - 4), 4)) else Value(Fetch(s.progbuf, 4 * (a - 0x20), 4))
  }

  /** What is written while no command is executing is there, as far as the next command; the other words stay. */
  lemma WordWritten(s: Dm, a: nat, v: word, b: nat)
    requires Shape(s) && !s.busy && IsBuffer(s, a) && IsBuffer(s, b)
    ensures var t := Next(s, Write(a, v));
      && t.datacount == s.datacount && IsBuffer(t, b)
      && BufferWord(t, b) == if b == a then v else BufferWord(s, b)
  {
    BuffersWritten(s, a, v);
    WordValue(v);
    hide Next, Pow2, Fetch, Stored, Value, BytesOf;
    if a < 0x20 && b < 0x20 { FetchStored(s.data, 4 * (a - 4), BytesOf(v, 4), 4 * (b - 4), 4); }
    if a >= 0x20 && b >= 0x20 { FetchStored(s.progbuf, 4 * (a - 0x20), BytesOf(v, 4), 4 * (b - 0x20), 4); }
  }

  lemma WordValue(v: word)
    ensures Value(BytesOf(v, 4)) == v
  {
    Pow2Values();
    ValueOfBytes(v, 4);
  }

  lemma BuffersWritten(s: Dm, a: nat, v: word)
    requires Shape(s) && !s.busy && IsBuffer(s, a)
    ensures var t := Next(s, Write(a, v));
      && t.datacount == s.datacount
      && t.data == (if a < 0x20 then Stored(s.data, 4 * (a - 4), BytesOf(v, 4)) else s.data)
      && t.progbuf == if a < 0x20 then s.progbuf else Stored(s.progbuf, 4 * (a - 0x20), BytesOf(v, 4))
  {
    hide Performed, Requested, AfterRead, AfterStore, Stored, BytesOf, AutoBit, AndNot, AfterReset;
  }

  /** Nothing else that the debugger does changes a word. */
  lemma WordKept(s: Dm, e: Event, a: nat)
    requires Shape(s) && Legal(e) && IsBuffer(s, a)
    requires !(e.Write? && e.a == a) && !(e.HartStore? && e.addr >= 0x340)
    ensures var t := Next(s, e); IsBuffer(t, a) && BufferWord(t, a) == BufferWord(s, a)
  {
    if e.Write? && IsBuffer(s, e.a) && !s.busy {
      WordWritten(s, e.a, e.v, a);
    }
    hide Performed, Requested, Fetch, Value, BytesOf, Stored, AutoBit, AndNot, Halted, Resumed;
  }

  /** What was written to a word is what is read from it, however much happens in between, unless it is written
      again or harts store to the buffers; and while a command is executing, all ones. */
  lemma {:induction false} ReadBack(harts: nat, es: seq<Event>, a: nat, v: word, more: seq<Event>)
    requires AllLegal(es) && !After(harts, es).busy && IsBuffer(After(harts, es), a)
    requires AllLegal(es + [Write(a, v)] + more)
    requires forall i | 0 <= i < |more| ::
               !(more[i].Write? && more[i].a == a) && !(more[i].HartStore? && more[i].addr >= 0x340)
    ensures var t := After(harts, es + [Write(a, v)] + more);
      && IsBuffer(t, a) && BufferWord(t, a) == v
      && ReadValue(t, a) == if t.busy then 0xffff_ffff else v
    decreases |more|
  {
    hide Next, Value, Fetch, Shape, Legal;
    var n := |more|;
    var all := es + [Write(a, v)] + more;
    if n == 0 {
      assert all[..|all| - 1] == es && all[|all| - 1] == Write(a, v);
      WordWritten(After(harts, es), a, v, a);
    } else {
      var before := all[..|all| - 1];
      assert before == es + [Write(a, v)] + more[..n - 1];
      ReadBack(harts, es, a, v, more[..n - 1]);
      assert all[|all| - 1] == more[n - 1];
      WordKept(After(harts, before), more[n - 1], a);
    }
    Reads(After(harts, all), a);
  }

  lemma Reads(s: Dm, a: nat)
    requires Shape(s) && IsBuffer(s, a)
    ensures ReadValue(s, a) == if s.busy then 0xffff_ffff else BufferWord(s, a)
  {
    hide Value, Fetch;
  }

  /** A word that a hart stores to the data area, at 0x380, or to the program, at 0x340, is the word that the debugger
      finds in the register of that number; the others stay. */
  lemma HartDataShown(s: Dm, i: nat, bytes: seq<byte>, b: nat)
    requires Shape(s) && |bytes| == 4 && i < s.datacount && 4 <= b < 4 + s.datacount
    ensures var t := Next(s, HartStore(0x380 + 4 * i, bytes));
      && t == s.(data := t.data)
      && BufferWord(t, b) == if b == 4 + i then Number(bytes[0], bytes[1], bytes[2], bytes[3]) else BufferWord(s, b)
  {
    ValueOfFour(bytes);
    FetchStored(s.data, 4 * i, bytes, 4 * (b - 4), 4);
    hide Fetch, Stored, Value, Number;
  }

  lemma HartProgramShown(s: Dm, i: nat, bytes: seq<byte>, b: nat)
    requires Shape(s) && |bytes| == 4 && i < 16 && 0x20 <= b < 0x30
    ensures var t := Next(s, HartStore(0x340 + 4 * i, bytes));
      && t == s.(progbuf := t.progbuf)
      && BufferWord(t, b) == if b == 0x20 + i then Number(bytes[0], bytes[1], bytes[2], bytes[3]) else BufferWord(s, b)
  {
    ValueOfFour(bytes);
    FetchStored(s.progbuf, 4 * i, bytes, 4 * (b - 0x20), 4);
    hide Fetch, Stored, Value, Number;
  }

  // ---------------------------------------------------------------- commands

  /** An access that tries to start a command: a write of the command register; or, while none is executing, an access
      to a word whose bit in abstractauto is set. */
  predicate Attempts(s: Dm, e: Event) {
    || (e.Write? && e.a == 0x17)
    || (!s.busy && !e.HartStore? && 4 <= e.a < 4 + s.datacount && On(s.autoData, Pow2(e.a - 4)))
    || (!s.busy && !e.HartStore? && 0x20 <= e.a < 0x30 && On(s.autoProgbuf, Pow2(e.a - 0x20)))
  }

  function CommandFor(s: Dm, e: Event): word {
    if e.Write? && e.a == 0x17 then e.v else s.command
  }

  /** A register access (type 0 in bits 24 to 31); with a transfer (bit 17) only of x0 to x31 (bits 0 to 15), as 32
      or 64 bits (bits 20 to 22). */
  predicate Known(c: word) { c / 0x100_0000 == 0 }
  predicate Possible(c: word) {
    Known(c) && (On(c, 0x2_0000) ==> 0x1000 <= c % 0x1_0000 < 0x1020 && c / 0x10_0000 % 8 in {2, 3})
  }

  /** A command starts exactly if an access attempts it, no other one is executing and no error stands, the selected
      hart is halted, and the command is one that the module supports. */
  lemma StartsIff(s: Dm, e: Event)
    requires Shape(s) && Legal(e) && !s.busy
    ensures Next(s, e).busy <==>
            Attempts(s, e) && s.cmderr == 0 && s.halted[s.control.hartsel] && Possible(CommandFor(s, e))
    ensures Next(s, e).command == CommandFor(s, e)
  {
    SupportedMeans(CommandFor(s, e));
    AttemptsMeans(s, e);
    hide Supported, Transfer, CodeOf, PostExec, Fetch, Stored, Value, BytesOf, Attempts, AutoBit, AndNot, Requested, On,
        AfterReset, Flag, Possible, Field;
  }

  lemma SupportedMeans(c: word)
    ensures Supported(c) <==> Possible(c)
    ensures Field(c, 0x100_0000, 0x100) == 0 <==> Known(c)
  {}

  lemma AttemptsMeans(s: Dm, e: Event)
    requires !s.busy
    ensures Attempts(s, e) <==>
            || (e.Write? && e.a == 0x17)
            || (!e.HartStore? && IsData(s, e.a) && AutoBit(s.autoData, e.a - 4))
            || (!e.HartStore? && IsProgbuf(e.a) && AutoBit(s.autoProgbuf, e.a - 0x20))
  {
    hide Pow2;
  }

  /** An access that is an error while a command is executing: of the command register, or of a data word. Accesses to
      the program buffer are none. */
  predicate Hasty(s: Dm, e: Event) {
    s.busy && ((e.Write? && e.a == 0x17) || (!e.HartStore? && 4 <= e.a < 4 + s.datacount))
  }

  /** Which error is set, when none stands: busy (1), not supported (2), a hart that is not halted (4), or the trap that
      a hart reports (3). */
  lemma ErrorMeans(s: Dm, e: Event)
    requires Shape(s) && Legal(e) && s.cmderr == 0
    ensures Next(s, e).cmderr ==
            if Hasty(s, e) then 1
            else if !s.busy && Attempts(s, e) then
              (if !Known(CommandFor(s, e)) then 2
               else if !s.halted[s.control.hartsel] then 4
               else if !Possible(CommandFor(s, e)) then 2 else 0)
            else if e.HartStore? && e.addr == 0x10c then 3
            else 0
  {
    SupportedMeans(CommandFor(s, e));
    if !s.busy { AttemptsMeans(s, e); }
    hide Supported, Transfer, CodeOf, PostExec, Fetch, Stored, Value, BytesOf, Attempts, AutoBit, Requested, On,
        AfterReset, Flag, Possible, Known, Field;
  }

  /** A write of abstractcs clears the bits of the error that are set in its bits 8 to 10, and does nothing else. */
  lemma ErrorCleared(s: Dm, v: word)
    requires Shape(s)
    ensures var t := Next(s, Write(0x16, v));
      && t == s.(cmderr := t.cmderr)
      && On(t.cmderr, 1) == (On(s.cmderr, 1) && !On(v, 0x100))
      && On(t.cmderr, 2) == (On(s.cmderr, 2) && !On(v, 0x200))
      && On(t.cmderr, 4) == (On(s.cmderr, 4) && !On(v, 0x400))
  {
    ClearWritten(s, v);
    ErrorBits(v);
    hide *;
    ThreeBits(s.cmderr, v / 0x100 % 8);
  }

  lemma ClearWritten(s: Dm, v: word)
    requires Shape(s)
    ensures Next(s, Write(0x16, v)) == s.(cmderr := AndNot(s.cmderr, v / 0x100 % 8))
  {
    hide AndNot, Performed, Requested, AfterReset;
  }

  lemma ErrorBits(v: nat)
    ensures 0 <= v / 0x100 % 8 < 8
    ensures var w := v / 0x100 % 8; On(w, 1) == On(v, 0x100) && On(w, 2) == On(v, 0x200) && On(w, 4) == On(v, 0x400)
  {
    DivDiv(v, 0x100, 2);
    DivDiv(v, 0x100, 4);
    LowThree(v / 0x100);
  }

  lemma LowThree(x: nat)
    ensures x % 8 % 2 == x % 2 && x % 8 / 2 % 2 == x / 2 % 2 && x % 8 / 4 % 2 == x / 4 % 2
  {
    DivMod(x, 2, 4 * (x / 8) + x % 8 / 2, x % 8 % 2);
    DivMod(x, 4, 2 * (x / 8) + x % 8 / 4, x % 8 % 4);
  }

  lemma ThreeBits(a: nat, b: nat)
    ensures var r := AndNot(a, b);
      && On(r, 1) == (On(a, 1) && !On(b, 1)) && On(r, 2) == (On(a, 2) && !On(b, 2))
      && On(r, 4) == (On(a, 4) && !On(b, 4))
  {
    assert Pow2(0) == 1 && Pow2(1) == 2 && Pow2(2) == 4;
    AndNotBit(a, b, 0);
    AndNotBit(a, b, 1);
    AndNotBit(a, b, 2);
    hide AndNot, Pow2;
  }
}
