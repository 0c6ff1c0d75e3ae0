/** The cache simulator of cachesim.cc: a write-back, write-allocate cache whose victims are chosen by a
    shift register, as a set-associative array of tags and as a fully associative map. */
module CacheSim {
  import opened Bits

  const WORD: nat := 0x1_0000_0000_0000_0000
  type reg = x: nat | x < WORD

  // ---------------------------------------------------------------- tags

  /** Bits 63 and 62 of a tag; the number of the line is below them. */
  const VALID: nat := 0x8000_0000_0000_0000
  const DIRTY: nat := 0x4000_0000_0000_0000
  const LINES: nat := DIRTY

  predicate IsValid(tag: reg) { tag / VALID % 2 == 1 }
  predicate IsDirty(tag: reg) { tag / DIRTY % 2 == 1 }
  function ClearDirty(tag: reg): reg { if IsDirty(tag) then tag - DIRTY else tag }
  function SetDirty(tag: reg): reg { if IsDirty(tag) then tag else tag + DIRTY }
  function LineOf(tag: reg): nat { tag % DIRTY }

  function TagOf(line: nat, dirty: bool): (t: reg)
    requires line < LINES
    ensures IsValid(t) && IsDirty(t) == dirty && LineOf(t) == line && ClearDirty(t) == VALID + line
  {
    VALID + line + (if dirty then DIRTY else 0)
  }

  lemma TagSplits(t: reg)
    requires IsValid(t)
    ensures LineOf(t) < LINES && t == TagOf(LineOf(t), IsDirty(t))
  {}

  // ---------------------------------------------------------------- what every cache does

  /** What happens to a line, oldest first: an access that hits, a line that is filled for an access, and
      a dirty line that is written back. */
  datatype Item =
    | Hit(line: nat, bytes: nat, store: bool)
    | Fill(line: nat, bytes: nat, store: bool)
    | WriteBack(line: nat)

  /** A call of the next level. */
  datatype Call = Call(addr: nat, bytes: nat, store: bool)

  /** Whether some store to the line is still to be written back, after one more thing happened. */
  predicate PendingAfter(before: bool, last: Item, line: nat) {
    if last.line != line then before
    else match last
         case WriteBack(_) => false
         case Hit(_, _, store) => store || before
         case Fill(_, _, store) => store || before
  }

  /** Some store to the line has not been written back yet. */
  predicate Pending(h: seq<Item>, line: nat) {
    h != [] && PendingAfter(Pending(h[..|h| - 1], line), h[|h| - 1], line)
  }

  function CallsOf(x: Item, linesz: nat): seq<Call> {
    match x
    case Hit(_, _, _) => []
    case Fill(line, _, _) => [Call(line * linesz, linesz, false)]
    case WriteBack(line) => [Call(line * linesz, linesz, true)]
  }

  /** What the next level sees: a read of the whole line for each fill, a write of it for each write-back. */
  function Calls(h: seq<Item>, linesz: nat): seq<Call> {
    if h == [] then [] else Calls(h[..|h| - 1], linesz) + CallsOf(h[|h| - 1], linesz)
  }

  datatype Stats = Stats(readAccesses: nat, readMisses: nat, bytesRead: nat,
                         writeAccesses: nat, writeMisses: nat, bytesWritten: nat, writebacks: nat)

  function CountAccess(s: Stats, bytes: nat, store: bool): Stats {
    if store then s.(writeAccesses := s.writeAccesses + 1, bytesWritten := s.bytesWritten + bytes)
    else s.(readAccesses := s.readAccesses + 1, bytesRead := s.bytesRead + bytes)
  }

  function CountMiss(s: Stats, store: bool): Stats {
    if store then s.(writeMisses := s.writeMisses + 1) else s.(readMisses := s.readMisses + 1)
  }

  function CountOf(s: Stats, x: Item): Stats {
    match x
    case Hit(_, bytes, store) => CountAccess(s, bytes, store)
    case Fill(_, bytes, store) => CountMiss(CountAccess(s, bytes, store), store)
    case WriteBack(_) => s.(writebacks := s.writebacks + 1)
  }

  /** The counters that a history amounts to. */
  function Counted(h: seq<Item>): Stats {
    if h == [] then Stats(0, 0, 0, 0, 0, 0, 0) else CountOf(Counted(h[..|h| - 1]), h[|h| - 1])
  }

  lemma Snoc(h: seq<Item>, x: Item, linesz: nat)
    ensures Calls(h + [x], linesz) == Calls(h, linesz) + CallsOf(x, linesz)
    ensures Counted(h + [x]) == CountOf(Counted(h), x)
    ensures forall line :: Pending(h + [x], line) == PendingAfter(Pending(h, line), x, line)
  {
    assert (h + [x])[..|h|] == h;
  }

  /** One access by the abstract cache, which maps each line it holds to whether it is dirty: a hit marks a
      stored line; a miss may drop one line, written back first if it is dirty, and fills the wanted one. */
  ghost predicate Step(m: map<nat, bool>, h: seq<Item>, line: nat, bytes: nat, store: bool,
                       m': map<nat, bool>, h': seq<Item>) {
    if line in m then
      m' == m[line := m[line] || store] && h' == h + [Hit(line, bytes, store)]
    else
      || (m' == m[line := store] && h' == h + [Fill(line, bytes, store)])
      || exists v :: Evicts(m, h, line, bytes, store, m', h', v)
  }

  ghost predicate Evicts(m: map<nat, bool>, h: seq<Item>, line: nat, bytes: nat, store: bool,
                         m': map<nat, bool>, h': seq<Item>, v: nat) {
    && v in m && m' == (m - {v})[line := store]
    && h' == h + (if m[v] then [WriteBack(v)] else []) + [Fill(line, bytes, store)]
  }

  /** A line is held and dirty exactly when a store to it is still to be written back. */
  ghost predicate NothingLost(m: map<nat, bool>, h: seq<Item>) {
    forall line :: (line in m && m[line]) <==> Pending(h, line)
  }

  /** No access loses a store, whatever line is evicted. */
  lemma StepKeepsStores(m: map<nat, bool>, h: seq<Item>, line: nat, bytes: nat, store: bool,
                        m': map<nat, bool>, h': seq<Item>)
    requires NothingLost(m, h) && Step(m, h, line, bytes, store, m', h')
    ensures NothingLost(m', h')
  {
    hide Pending;
    Snoc(h, Hit(line, bytes, store), 0);
    Snoc(h, Fill(line, bytes, store), 0);
    if v :| line !in m && Evicts(m, h, line, bytes, store, m', h', v) {
      EvictKeepsStores(m, h, line, bytes, store, m', h', v);
    }
  }

  lemma EvictKeepsStores(m: map<nat, bool>, h: seq<Item>, line: nat, bytes: nat, store: bool,
                         m': map<nat, bool>, h': seq<Item>, v: nat)
    requires NothingLost(m, h) && line !in m && Evicts(m, h, line, bytes, store, m', h', v)
    ensures NothingLost(m', h')
  {
    hide Pending;
    Snoc(h, WriteBack(v), 0);
    Snoc(h + [WriteBack(v)], Fill(line, bytes, store), 0);
    Snoc(h, Fill(line, bytes, store), 0);
    assert h + [] == h;
  }

  datatype Access = Access(line: nat, bytes: nat, store: bool)

  /** Runs of the abstract cache from empty. */
  ghost predicate Run(accesses: seq<Access>, states: seq<map<nat, bool>>, hists: seq<seq<Item>>) {
    && |states| == |hists| == |accesses| + 1 && states[0] == map[] && hists[0] == []
    && forall i :: 0 <= i < |accesses| ==>
         Step(states[i], hists[i], accesses[i].line, accesses[i].bytes, accesses[i].store, states[i + 1], hists[i + 1])
  }

  /** In every run, for every choice of victims, a line that is not held and dirty owes no store. */
  lemma {:induction false} RunKeepsStores(accesses: seq<Access>, states: seq<map<nat, bool>>, hists: seq<seq<Item>>,
      i: nat)
    requires Run(accesses, states, hists) && i <= |accesses|
    ensures NothingLost(states[i], hists[i])
  {
    if i > 0 {
      RunKeepsStores(accesses, states, hists, i - 1);
      var a := accesses[i - 1];
      StepKeepsStores(states[i - 1], hists[i - 1], a.line, a.bytes, a.store, states[i], hists[i]);
    }
  }

  function CountReads(c: seq<Call>): nat {
    if c == [] then 0 else CountReads(c[..|c| - 1]) + (if c[|c| - 1].store then 0 else 1)
  }

  lemma CountReadsSnoc(c: seq<Call>, x: Call)
    ensures CountReads(c + [x]) == CountReads(c) + (if x.store then 0 else 1)
  {
    assert (c + [x])[..|c|] == c;
  }

  lemma CallsAdded(c: seq<Call>, x: Item, linesz: nat)
    ensures |c + CallsOf(x, linesz)| == |c| + (if x.Hit? then 0 else 1)
    ensures CountReads(c + CallsOf(x, linesz)) == CountReads(c) + (if x.Fill? then 1 else 0)
  {
    var at := x.line * linesz;
    assert c + [] == c;
    hide CountReads;
    CountReadsSnoc(c, Call(at, linesz, x.WriteBack?));
  }

  /** The next level sees exactly one read per miss and one write per write-back. */
  lemma {:induction false} CallsCount(h: seq<Item>, linesz: nat)
    ensures |Calls(h, linesz)| == Counted(h).readMisses + Counted(h).writeMisses + Counted(h).writebacks
    ensures CountReads(Calls(h, linesz)) == Counted(h).readMisses + Counted(h).writeMisses
  {
    if h != [] {
      hide CallsOf, CountReads;
      CallsCount(h[..|h| - 1], linesz);
      CallsAdded(Calls(h[..|h| - 1], linesz), h[|h| - 1], linesz);
    }
  }

  // ---------------------------------------------------------------- the counters and calls, item by item

  /** How many accesses of a history store, or how many load; of how many bytes; and how many of them were filled. */
  function Accesses(h: seq<Item>, store: bool): nat {
    if h == [] then 0
    else Accesses(h[..|h| - 1], store) + (if !h[|h| - 1].WriteBack? && h[|h| - 1].store == store then 1 else 0)
  }

  function Bytes(h: seq<Item>, store: bool): nat {
    if h == [] then 0
    else
      var x := h[|h| - 1];
      Bytes(h[..|h| - 1], store) + (if !x.WriteBack? && x.store == store then x.bytes else 0)
  }

  function Fills(h: seq<Item>, store: bool): nat {
    if h == [] then 0
    else Fills(h[..|h| - 1], store) + (if h[|h| - 1].Fill? && h[|h| - 1].store == store then 1 else 0)
  }

  function WriteBacks(h: seq<Item>): nat {
    if h == [] then 0 else WriteBacks(h[..|h| - 1]) + (if h[|h| - 1].WriteBack? then 1 else 0)
  }

  /** Every counter is the number of those things in the history. */
  predicate Tallies(s: Stats, h: seq<Item>) {
    && s.readAccesses == Accesses(h, false) && s.writeAccesses == Accesses(h, true)
    && s.bytesRead == Bytes(h, false) && s.bytesWritten == Bytes(h, true)
    && s.readMisses == Fills(h, false) && s.writeMisses == Fills(h, true)
    && s.writebacks == WriteBacks(h)
  }

  lemma {:induction false} CountersMean(h: seq<Item>)
    ensures Tallies(Counted(h), h)
  {
    if h != [] { CountersMean(h[..|h| - 1]); }
  }

  /** A hit calls nobody. A miss reads the whole line; if it drops a line that is dirty, it first writes that whole
      line. */
  lemma StepCalls(m: map<nat, bool>, h: seq<Item>, line: nat, bytes: nat, store: bool, m': map<nat, bool>,
      h': seq<Item>, linesz: nat)
    requires Step(m, h, line, bytes, store, m', h')
    ensures var before, after := Calls(h, linesz), Calls(h', linesz);
      var read := Call(line * linesz, linesz, false);
      if line in m then after == before
      else
        || (after == before + [read] && forall v | v in m && v !in m' :: !m[v])
        || exists v :: v in m && v !in m' && m[v] && after == before + [Call(v * linesz, linesz, true)] + [read]
  {
    hide Calls;
    Snoc(h, Hit(line, bytes, store), linesz);
    Snoc(h, Fill(line, bytes, store), linesz);
    if line in m {
      assert Calls(h, linesz) + [] == Calls(h, linesz);
    } else if m' != m[line := store] || h' != h + [Fill(line, bytes, store)] {
      hide CallsOf;
      var v: nat :| Evicts(m, h, line, bytes, store, m', h', v);
      EvictCalls(m, h, line, bytes, store, m', h', v, linesz);
    }
  }

  lemma EvictCalls(m: map<nat, bool>, h: seq<Item>, line: nat, bytes: nat, store: bool, m': map<nat, bool>,
      h': seq<Item>, v: nat, linesz: nat)
    requires line !in m && Evicts(m, h, line, bytes, store, m', h', v)
    ensures v !in m' && (forall u | u in m && u !in m' :: u == v)
    ensures Calls(h', linesz) == Calls(h, linesz) +
            (if m[v] then [Call(v * linesz, linesz, true)] else []) + [Call(line * linesz, linesz, false)]
  {
    hide Calls;
    assert h + [] == h && Calls(h, linesz) + [] == Calls(h, linesz);
    Snoc(h, WriteBack(v), linesz);
    Snoc(h, Fill(line, bytes, store), linesz);
    Snoc(h + [WriteBack(v)], Fill(line, bytes, store), linesz);
  }

  // ---------------------------------------------------------------- sizes that are powers of two

  lemma {:induction false} AndSelf(a: nat)
    ensures And(a, a) == a
  {
    if a != 0 { AndSelf(a / 2); }
  }

  /** x & (x-1) is zero exactly for powers of two. */
  lemma {:induction false} PowerOfTwoTest(x: nat) returns (k: nat)
    requires x > 0 && And(x, x - 1) == 0
    ensures x == Pow2(k)
  {
    if x == 1 {
      k := 0;
    } else if x % 2 == 0 {
      assert (x - 1) / 2 == x / 2 - 1;
      k := PowerOfTwoTest(x / 2);
      k := k + 1;
    } else {
      assert (x - 1) / 2 == x / 2;
      AndSelf(x / 2);
    }
  }

  // ---------------------------------------------------------------- an array of tags

  predicate Holds(tag: reg, line: nat) { IsValid(tag) && LineOf(tag) == line }

  /** The tags, slot j of which belongs to set j / ways, hold exactly the lines of m. */
  ghost predicate Represents(tags: seq<reg>, sets: nat, ways: nat, m: map<nat, bool>)
    requires sets > 0 && ways > 0
  {
    && |tags| == sets * ways
    && (forall j :: 0 <= j < |tags| && IsValid(tags[j]) ==>
          LineOf(tags[j]) in m && m[LineOf(tags[j])] == IsDirty(tags[j]) && LineOf(tags[j]) % sets == j / ways)
    && (forall line :: line in m ==> exists j :: 0 <= j < |tags| && Holds(tags[j], line))
    && (forall i, j :: 0 <= i < j < |tags| && IsValid(tags[i]) && IsValid(tags[j]) ==>
       LineOf(tags[i]) != LineOf(tags[j]))
  }

  /** The slots of a set. */
  lemma SlotInSet(sets: nat, ways: nat, idx: nat, i: nat)
    requires idx < sets && i < ways
    ensures idx * ways + i < sets * ways && (idx * ways + i) / ways == idx
  {
    DivMod(idx * ways + i, ways, idx, i);
    assert (sets - idx) * ways >= ways by { MulAtLeast(sets - idx, ways); }
    Distribute(sets, idx, ways);
  }

  lemma Holder(tags: seq<reg>, sets: nat, ways: nat, m: map<nat, bool>, line: nat) returns (j: nat)
    requires sets > 0 && ways > 0 && Represents(tags, sets, ways, m) && line in m
    ensures j < |tags| && Holds(tags[j], line)
  {
    j :| 0 <= j < |tags| && Holds(tags[j], line);
  }

  lemma HeldIsInSet(tags: seq<reg>, sets: nat, ways: nat, m: map<nat, bool>, j: nat, line: nat)
    requires sets > 0 && ways > 0 && Represents(tags, sets, ways, m) && j < |tags| && Holds(tags[j], line)
    ensures line in m && line % sets == j / ways && line % sets * ways <= j < line % sets * ways + ways
  {
    SlotRange(j, ways, line % sets);
  }

  lemma SlotRange(j: nat, ways: nat, idx: nat)
    requires ways > 0 && idx == j / ways
    ensures idx * ways <= j < idx * ways + ways
  {
    assert j == ways * (j / ways) + j % ways;
  }

  /** Writing a tag over a slot of its set. */
  lemma Rewritten(tags: seq<reg>, sets: nat, ways: nat, m: map<nat, bool>, j: nat, line: nat, dirty: bool)
    requires sets > 0 && ways > 0 && Represents(tags, sets, ways, m) && j < |tags|
    requires line < LINES && line % sets == j / ways && (line !in m || Holds(tags[j], line))
    ensures Represents(tags[j := TagOf(line, dirty)], sets, ways,
              (if IsValid(tags[j]) then m - {LineOf(tags[j])} else m)[line := dirty])
  {
    var t := tags[j := TagOf(line, dirty)];
    var n := (if IsValid(tags[j]) then m - {LineOf(tags[j])} else m)[line := dirty];
    hide IsValid, IsDirty, LineOf;
    forall l | l in n ensures exists k :: 0 <= k < |t| && Holds(t[k], l) {
      if l == line {
        assert Holds(t[j], l);
      } else {
        var k :| 0 <= k < |tags| && Holds(tags[k], l);
        assert Holds(t[k], l);
      }
    }
    forall k | 0 <= k < |t| && IsValid(t[k])
      ensures LineOf(t[k]) in n && n[LineOf(t[k])] == IsDirty(t[k]) && LineOf(t[k]) % sets == k / ways
      ensures k != j ==> LineOf(t[k]) != line
    {
      if k != j {
        assert t[k] == tags[k];
        if IsValid(tags[j]) { assert LineOf(tags[k]) != LineOf(tags[j]); }
      }
    }
  }

  /** lfsr_t::next, of which only the range matters here: any victim is as good as another. */
  function Lfsr(r: bv32): bv32 {
    (r >> 1) ^ (if r & 1 == 1 then 0xd000_0001 else 0)
  }

  /** The number of bits below the line number. */
  method IndexShift(linesz: nat) returns (shift: nat)
    requires linesz >= 8 && And(linesz, linesz - 1) == 0
    ensures linesz == Pow2(shift) && shift >= 3
  {
    ghost var k := PowerOfTwoTest(linesz);
    shift := 0;
    var x := linesz;
    while x > 1
      invariant shift <= k && x == Pow2(k - shift)
    {
      x := x / 2;
      shift := shift + 1;
    }
    assert k > shift ==> Pow2(k - shift) == 2 * Pow2(k - shift - 1);
    assert Pow2(0) == 1 && Pow2(1) == 2 && Pow2(2) == 4;
  }

  /** cache_sim_t. Calls of the next level are recorded in `below`. */
  class SetAssociative {
    const sets: nat
    const ways: nat
    const linesz: nat
    const idxShift: nat
    const tags: array<reg>
    var lfsr: bv32
    var stats: Stats
    var below: seq<Call>
    ghost var contents: map<nat, bool>
    ghost var history: seq<Item>

    ghost predicate Shape() {
      sets > 0 && ways > 0 && linesz == Pow2(idxShift) && idxShift >= 3 && exists k :: sets == Pow2(k)
    }

    ghost predicate Stored()
      reads this, tags
    {
      && Shape() && tags.Length == sets * ways
      && Represents(tags[..], sets, ways, contents) && NothingLost(contents, history)
      && (forall line :: line in contents ==> line * linesz < WORD)
    }

    ghost predicate Valid()
      reads this, tags
    {
      Stored() && below == Calls(history, linesz) && stats == Counted(history)
    }

    constructor (sets: nat, ways: nat, linesz: nat)
      requires sets != 0 && And(sets, sets - 1) == 0 && linesz >= 8 && And(linesz, linesz - 1) == 0 && ways > 0
      ensures Valid() && fresh(tags) && contents == map[] && history == []
      ensures this.sets == sets && this.ways == ways && this.linesz == linesz
    {
      ghost var j := PowerOfTwoTest(sets);
      var shift := IndexShift(linesz);
      this.sets, this.ways, this.linesz, idxShift := sets, ways, linesz, shift;
      tags := new reg[sets * ways](_ => 0);
      lfsr := 1;
      stats := Stats(0, 0, 0, 0, 0, 0, 0);
      below, contents, history := [], map[], [];
    }

    function Line(addr: reg): nat {
      Shr(addr, idxShift)
    }

    /** The slot that holds the line of an address, tags.Length if none does. */
    method CheckTag(addr: reg, ghost m: map<nat, bool>) returns (slot: nat)
      requires Shape() && Represents(tags[..], sets, ways, m) && tags.Length == sets * ways
      ensures if Line(addr) in m then slot < tags.Length && Holds(tags[slot], Line(addr)) else slot == tags.Length
    {
      hide Holds, ClearDirty, Represents;
      var line := Shr(addr, idxShift);
      LineFits(addr, idxShift);
      ghost var k :| sets == Pow2(k);
      AndMask(line, k);
      var idx := And(line, sets - 1);
      var tag := VALID + line;
      for i := 0 to ways
        invariant forall j :: idx * ways <= j < idx * ways + i && j < tags.Length ==> !Holds(tags[j], line)
      {
        SlotInSet(sets, ways, idx, i);
        var t := tags[idx * ways + i];
        HoldsTest(t, line);
        if tag == ClearDirty(t) {
          HeldIsInSet(tags[..], sets, ways, m, idx * ways + i, line);
          return idx * ways + i;
        }
      }
      if line in m {
        ghost var j := Holder(tags[..], sets, ways, m, line);
        HeldIsInSet(tags[..], sets, ways, m, j, line);
      }
      slot := tags.Length;
    }

    /** Puts the line of an address, clean, over some slot of its set. */
    method Victimize(addr: reg, ghost m: map<nat, bool>) returns (victim: reg, ghost slot: nat)
      requires Shape() && Represents(tags[..], sets, ways, m) && tags.Length == sets * ways && Line(addr) !in m
      modifies `lfsr, tags
      ensures slot < tags.Length && slot / ways == Line(addr) % sets && victim == old(tags[slot])
      ensures Line(addr) < LINES && tags[..] == old(tags[..])[slot := TagOf(Line(addr), false)]
    {
      var line := Shr(addr, idxShift);
      LineFits(addr, idxShift);
      ghost var k :| sets == Pow2(k);
      AndMask(line, k);
      var idx := And(line, sets - 1);
      lfsr := Lfsr(lfsr);
      var way := lfsr as nat % ways;
      hide *;
      SlotInSet(sets, ways, idx, way);
      slot := idx * ways + way;
      victim := tags[idx * ways + way];
      tags[idx * ways + way] := TagOf(line, false);
    }

    /** An access is a step of the abstract cache, and what it drops is of its own set. */
    method Access(addr: reg, bytes: nat, store: bool)
      requires Valid()
      modifies this, tags
      ensures Valid() && Step(old(contents), old(history), Line(addr), bytes, store, contents, history)
      ensures forall l :: l in old(contents) && l !in contents ==> l % sets == Line(addr) % sets
      ensures below == Calls(history, linesz) && Tallies(stats, history)
    {
      hide Tallies, Represents, Pending, Calls, Counted, Holds, IsValid, IsDirty, LineOf, SetDirty, Step, NothingLost,
          Shl, AndNot, Pow2, Shr;
      ghost var m, h, line := contents, history, Line(addr);
      LineFits(addr, idxShift);
      stats := CountAccess(stats, bytes, store);
      var hitWay := CheckTag(addr, m);
      if hitWay < tags.Length {
        Marked(tags[..], sets, ways, m, hitWay, line);
        if store { tags[hitWay] := SetDirty(tags[hitWay]); }
        contents, history := m[line := m[line] || store], h + [Hit(line, bytes, store)];
        HitStep(m, h, line, bytes, store, linesz);
        CountersMean(history);
        return;
      }
      stats := CountMiss(stats, store);
      Fill(addr, bytes, store);
      CountersMean(history);
    }

    /** The rest of an access that misses. */
    method Fill(addr: reg, ghost bytes: nat, store: bool)
      requires Stored() && Line(addr) !in contents
      requires below == Calls(history, linesz) && stats == CountMiss(CountAccess(Counted(history), bytes, store), store)
      modifies this, tags
      ensures Valid() && Step(old(contents), old(history), Line(addr), bytes, store, contents, history)
      ensures forall l :: l in old(contents) && l !in contents ==> l % sets == Line(addr) % sets
    {
      hide Represents, Pending, Calls, Counted, Holds, IsValid, IsDirty, LineOf, SetDirty, Step, NothingLost, Shl,
          AndNot, Pow2, Shr;
      ghost var m, h, line := contents, history, Line(addr);
      LineFits(addr, idxShift);
      var victim; ghost var slot;
      victim, slot := Victimize(addr, m);
      Dropped(old(tags[..]), sets, ways, m, slot);
      Rewritten(old(tags[..]), sets, ways, m, slot, line, false);
      ghost var kept: map<nat, bool> := if IsValid(victim) then m - {LineOf(victim)} else m;
      if IsValid(victim) && IsDirty(victim) {
        ShiftsBack(LineOf(victim), idxShift);
        below := below + [Call(Shl(LineOf(victim), idxShift, 64), linesz, true)];
        stats := stats.(writebacks := stats.writebacks + 1);
      }
      LineBase(addr, idxShift);
      hide Shape;
      below := below + [Call(AndNot(addr, linesz - 1), linesz, false)];
      if store {
        var way := CheckTag(addr, kept[line := false]);
        Marked(tags[..], sets, ways, kept[line := false], way, line);
        tags[way] := SetDirty(tags[way]);
        assert (kept[line := false])[line := true] == kept[line := true];
      }
      contents, history := kept[line := store], MissHistory(h, line, bytes, store, victim);
      MissStep(m, h, line, bytes, store, victim, linesz);
    }
  }

  lemma Marked(tags: seq<reg>, sets: nat, ways: nat, m: map<nat, bool>, j: nat, line: nat)
    requires sets > 0 && ways > 0 && Represents(tags, sets, ways, m) && j < |tags| && Holds(tags[j], line)
    ensures line in m && m[line := m[line]] == m
    ensures Represents(tags[j := SetDirty(tags[j])], sets, ways, m[line := true])
  {
    hide Represents;
    SetDirtyTag(tags[j], line);
    HeldIsInSet(tags, sets, ways, m, j, line);
    hide *;
    Rewritten(tags, sets, ways, m, j, line, true);
    assert m[line := m[line]] == m;
    assert (m - {line})[line := true] == m[line := true];
  }

  lemma SetDirtyTag(t: reg, line: nat)
    requires Holds(t, line)
    ensures line < LINES && IsValid(t) && LineOf(t) == line && SetDirty(t) == TagOf(line, true)
  {}

  /** What is dropped with a slot. */
  lemma Dropped(tags: seq<reg>, sets: nat, ways: nat, m: map<nat, bool>, j: nat)
    requires sets > 0 && ways > 0 && Represents(tags, sets, ways, m) && j < |tags|
    ensures IsValid(tags[j]) ==>
        LineOf(tags[j]) in m && m[LineOf(tags[j])] == IsDirty(tags[j]) && LineOf(tags[j]) % sets == j / ways
  {}

  function MissHistory(h: seq<Item>, line: nat, bytes: nat, store: bool, victim: reg): seq<Item> {
    h + (if IsValid(victim) && IsDirty(victim) then [WriteBack(LineOf(victim))] else []) + [Fill(line, bytes, store)]
  }

  lemma HitStep(m: map<nat, bool>, h: seq<Item>, line: nat, bytes: nat, store: bool, linesz: nat)
    requires NothingLost(m, h) && line in m
    ensures var m', h' := m[line := m[line] || store], h + [Hit(line, bytes, store)];
            && Step(m, h, line, bytes, store, m', h') && NothingLost(m', h')
            && Calls(h', linesz) == Calls(h, linesz) && Counted(h') == CountAccess(Counted(h), bytes, store)
  {
    Snoc(h, Hit(line, bytes, store), linesz);
    StepKeepsStores(m, h, line, bytes, store, m[line := m[line] || store], h + [Hit(line, bytes, store)]);
  }

  /** A miss that drops the line of the victim tag, if that is valid. */
  lemma MissStep(m: map<nat, bool>, h: seq<Item>, line: nat, bytes: nat, store: bool, victim: reg, linesz: nat)
    requires NothingLost(m, h) && line !in m
    requires IsValid(victim) ==> LineOf(victim) in m && m[LineOf(victim)] == IsDirty(victim)
    ensures var m' := (if IsValid(victim) then m - {LineOf(victim)} else m)[line := store];
            var h' := MissHistory(h, line, bytes, store, victim);
            var wb := IsValid(victim) && IsDirty(victim);
            var s := CountMiss(CountAccess(Counted(h), bytes, store), store);
            && Step(m, h, line, bytes, store, m', h') && NothingLost(m', h')
            && Calls(h', linesz) == Calls(h, linesz)
                 + (if wb then [Call(LineOf(victim) * linesz, linesz, true)] else [])
                 + [Call(line * linesz, linesz, false)]
            && Counted(h') == if wb then s.(writebacks := s.writebacks + 1) else s
  {
    hide Pending, NothingLost, IsValid, IsDirty, LineOf;
    var v := LineOf(victim);
    var m' := (if IsValid(victim) then m - {v} else m)[line := store];
    var h' := MissHistory(h, line, bytes, store, victim);
    assert h + [] == h;
    Snoc(h, WriteBack(v), linesz);
    Snoc(h, Fill(line, bytes, store), linesz);
    Snoc(h + [WriteBack(v)], Fill(line, bytes, store), linesz);
    assert IsValid(victim) ==> Evicts(m, h, line, bytes, store, m', h', v);
    StepKeepsStores(m, h, line, bytes, store, m', h');
  }

  /** The number of a line, shifted back, is the line's address. */
  lemma ShiftsBack(line: nat, idxShift: nat)
    requires line * Pow2(idxShift) < WORD
    ensures Shl(line, idxShift, 64) == line * Pow2(idxShift)
  {
    Pow2Values();
    assert line * Pow2(idxShift) < Pow2(64);
    hide *;
    ShiftFits(line, idxShift, 64);
  }

  lemma ShiftFits(a: nat, k: nat, w: nat)
    requires a * Pow2(k) < Pow2(w)
    ensures Shl(a, k, w) == a * Pow2(k)
  {
    SmallRemainder(a * Pow2(k), Pow2(w));
  }

  lemma SmallRemainder(a: nat, m: nat)
    requires a < m
    ensures a % m == a
  {}

  lemma LineBase(addr: reg, idxShift: nat)
    ensures AndNot(addr, Pow2(idxShift) - 1) == Shr(addr, idxShift) * Pow2(idxShift) <= addr
  {
    AndNotMask(addr, idxShift);
    RoundedDown(addr, Pow2(idxShift));
  }

  lemma RoundedDown(a: nat, m: nat)
    requires m > 0
    ensures a - a % m == a / m * m <= a
  {
    assert a == m * (a / m) + a % m;
  }

  /** fa_cache_sim_t: one set, whose tags are kept in a map from line numbers. */
  class FullyAssociative {
    const ways: nat
    const linesz: nat
    const idxShift: nat
    var tags: map<nat, reg>
    var lfsr: bv32
    var stats: Stats
    var below: seq<Call>
    ghost var contents: map<nat, bool>
    ghost var history: seq<Item>

    ghost predicate Stored()
      reads this
    {
      && ways > 0 && linesz == Pow2(idxShift) && idxShift >= 3 && |tags| <= ways && MapHolds(tags, contents)
      && NothingLost(contents, history) && (forall line :: line in contents ==> line * linesz < WORD)
    }

    ghost predicate Valid()
      reads this
    {
      Stored() && below == Calls(history, linesz) && stats == Counted(history)
    }

    constructor (ways: nat, linesz: nat)
      requires linesz >= 8 && And(linesz, linesz - 1) == 0 && ways > 0
      ensures Valid() && contents == map[] && history == []
      ensures this.ways == ways && this.linesz == linesz
    {
      var shift := IndexShift(linesz);
      this.ways, this.linesz, idxShift := ways, linesz, shift;
      tags := map[];
      lfsr := 1;
      stats := Stats(0, 0, 0, 0, 0, 0, 0);
      below, contents, history := [], map[], [];
    }

    function Line(addr: reg): nat {
      Shr(addr, idxShift)
    }

    /** Drops some line of a full cache and puts in that of an address, clean; the old tag is 0 if none is
        dropped. */
    method Victimize(addr: reg, ghost m: map<nat, bool>) returns (victim: reg)
      requires ways > 0 && idxShift >= 3 && |tags| <= ways && MapHolds(tags, m) && Line(addr) !in m
      modifies `lfsr, `tags
      ensures Line(addr) < LINES && |tags| <= ways && (|old(tags)| < ways ==> !IsValid(victim))
      ensures IsValid(victim) ==> LineOf(victim) in m && m[LineOf(victim)] == IsDirty(victim)
      ensures MapHolds(tags, (if IsValid(victim) then m - {LineOf(victim)} else m)[Line(addr) := false])
    {
      var line := Shr(addr, idxShift);
      LineFits(addr, idxShift);
      victim := 0;
      ghost var kept := m;
      hide MapHolds;
      if |tags| == ways {
        lfsr := Lfsr(lfsr);
        var v :| v in tags;
        MapDrop(tags, m, v);
        victim := tags[v];
        tags := tags - {v};
        kept := m - {v};
      }
      MapFill(tags, kept, line);
      tags := tags[line := TagOf(line, false)];
    }

    /** An access is a step of the abstract cache, and only a full cache drops a line. */
    method Access(addr: reg, bytes: nat, store: bool)
      requires Valid()
      modifies this
      ensures Valid() && Step(old(contents), old(history), Line(addr), bytes, store, contents, history)
      ensures |old(contents)| < ways ==> forall l :: l in old(contents) ==> l in contents
      ensures below == Calls(history, linesz) && Tallies(stats, history)
    {
      hide Tallies, MapHolds, Pending, Calls, Counted, IsValid, IsDirty, LineOf, SetDirty, Step, NothingLost, Shl,
          AndNot, Pow2, Shr;
      ghost var m, h := contents, history;
      var line := Line(addr);
      stats := CountAccess(stats, bytes, store);
      MapLookup(tags, m, line);
      if line in tags {
        if store { tags := tags[line := SetDirty(tags[line])]; }
        contents, history := m[line := m[line] || store], h + [Hit(line, bytes, store)];
        HitStep(m, h, line, bytes, store, linesz);
        LineBase(addr, idxShift);
        CountersMean(history);
        return;
      }
      stats := CountMiss(stats, store);
      Fill(addr, bytes, store);
      CountersMean(history);
    }

    /** The rest of an access that misses. */
    method Fill(addr: reg, ghost bytes: nat, store: bool)
      requires Stored() && Line(addr) !in contents
      requires below == Calls(history, linesz) && stats == CountMiss(CountAccess(Counted(history), bytes, store), store)
      modifies this
      ensures Valid() && Step(old(contents), old(history), Line(addr), bytes, store, contents, history)
      ensures |old(contents)| < ways ==> forall l :: l in old(contents) ==> l in contents
    {
      hide MapHolds, Pending, Calls, Counted, IsValid, IsDirty, LineOf, SetDirty, Step, NothingLost, Shl, AndNot,
          Pow2, Shr;
      ghost var m, h := contents, history;
      var line := Line(addr);
      MapLookup(tags, m, line);
      var victim := Victimize(addr, m);
      if IsValid(victim) && IsDirty(victim) {
        ShiftsBack(LineOf(victim), idxShift);
        below := below + [Call(Shl(LineOf(victim), idxShift, 64), linesz, true)];
        stats := stats.(writebacks := stats.writebacks + 1);
      }
      LineBase(addr, idxShift);
      below := below + [Call(AndNot(addr, linesz - 1), linesz, false)];
      ghost var kept: map<nat, bool> := if IsValid(victim) then m - {LineOf(victim)} else m;
      if store {
        MapLookup(tags, kept[line := false], line);
        tags := tags[line := SetDirty(tags[line])];
        assert (kept[line := false])[line := true] == kept[line := true];
      }
      contents, history := kept[line := store], MissHistory(h, line, bytes, store, victim);
      MissStep(m, h, line, bytes, store, victim, linesz);
    }
  }

  ghost predicate MapHolds(tags: map<nat, reg>, m: map<nat, bool>) {
    tags.Keys == m.Keys && forall line :: line in m ==> line < LINES && tags[line] == TagOf(line, m[line])
  }

  lemma MapDrop(tags: map<nat, reg>, m: map<nat, bool>, v: nat)
    requires MapHolds(tags, m) && v in tags
    ensures v in m && IsValid(tags[v]) && LineOf(tags[v]) == v && IsDirty(tags[v]) == m[v]
    ensures MapHolds(tags - {v}, m - {v}) && |tags - {v}| == |tags| - 1
  {
    assert (tags - {v}).Keys == tags.Keys - {v};
    assert (m - {v}).Keys == m.Keys - {v};
  }

  lemma MapFill(tags: map<nat, reg>, m: map<nat, bool>, line: nat)
    requires MapHolds(tags, m) && line !in m && line < LINES
    ensures MapHolds(tags[line := TagOf(line, false)], m[line := false])
    ensures |tags[line := TagOf(line, false)]| == |tags| + 1
  {
    assert tags[line := TagOf(line, false)].Keys == tags.Keys + {line};
    assert m[line := false].Keys == m.Keys + {line};
  }

  lemma MapLookup(tags: map<nat, reg>, m: map<nat, bool>, line: nat)
    requires MapHolds(tags, m)
    ensures (line in tags <==> line in m) && |tags| == |m|
    ensures line in m ==> MapHolds(tags[line := SetDirty(tags[line])], m[line := true]) && m[line := m[line]] == m
  {
    assert |tags| == |tags.Keys| && |m| == |m.Keys|;
  }

  /** The number of a line stays clear of the flag bits. */
  lemma LineFits(addr: reg, idxShift: nat)
    requires idxShift >= 3
    ensures Shr(addr, idxShift) < LINES / 2
  {
    Pow2Add(3, idxShift - 3);
    assert Pow2(3) == 8;
    DivDiv(addr, 8, Pow2(idxShift - 3));
    assert addr / 8 < LINES / 2;
    SmallQuotient(addr / 8, Pow2(idxShift - 3));
  }

  lemma SmallQuotient(a: nat, m: nat)
    requires m > 0
    ensures a / m <= a
  {
    QuotientNat(a, m);
    MulAtLeast(m, a / m);
    assert a == m * (a / m) + a % m;
  }

  lemma HoldsTest(t: reg, line: nat)
    requires line < LINES
    ensures VALID + line == ClearDirty(t) <==> Holds(t, line)
  {}
}
