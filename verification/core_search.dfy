/** What the search of the list benchmark in core_list_join.c does to the list and adds up, round by round and cell by
    cell, and how often its checksums fold in the head. */
module CoreSearch {
  import opened CoreList
  import opened CoreBench

  // ---------------------------------------------------------------- rounds

  /** What a round looks for: an index, unless that is negative, or a lower data byte. */
  predicate Wanted(v: Payload, idx: int, data: nat) {
    if idx >= 0 then v.idx == idx else v.data16 % 256 == data
  }

  /** Cell k is the first one wanted. */
  ghost predicate FirstWanted(v: View, s: seq<ListHead>, idx: int, data: nat, k: nat)
    requires Covers(v, s)
  {
    k < |s| && Wanted(v[s[k]], idx, data) && forall i | 0 <= i < k :: !Wanted(v[s[i]], idx, data)
  }

  /** t is s reversed. */
  ghost predicate Reversed(s: seq<ListHead>, t: seq<ListHead>) {
    |t| == |s| && forall i | 0 <= i < |s| :: t[i] == s[|s| - 1 - i]
  }

  /** t is s reversed, but for cell k - 1 of s, which comes right behind the head; if there is such a cell. */
  ghost predicate ReversedBut(s: seq<ListHead>, k: nat, t: seq<ListHead>) {
    if k == 0 then Reversed(s, t)
    else
      k < |s| && |t| == |s| &&
      forall i | 0 <= i < |s| ::
        t[i] == if i == 0 then s[|s| - 1] else if i == 1 then s[k - 1]
                else if i <= |s| - k then s[|s| - i] else s[|s| - 1 - i]
  }

  /** A round that finds nothing reverses the list and counts bit 8 of the last payload but one. One that finds cell k
      counts bit 9 of that payload if its bit 0 is set. */
  ghost predicate RoundIs(v: View, s: seq<ListHead>, idx: int, data: nat, t: seq<ListHead>, hit: bool, bit: nat)
    requires Covers(v, s) && |s| >= 2
  {
    if hit then
      exists k: nat :: FirstWanted(v, s, idx, data, k) && ReversedBut(s, k, t)
                  && bit == if v[s[k]].data16 % 2 == 1 then v[s[k]].data16 / 0x200 % 2 else 0
    else
      && (forall i | 0 <= i < |s| :: !Wanted(v[s[i]], idx, data))
      && Reversed(s, t) && bit == v[s[|s| - 2]].data16 / 0x100 % 2
  }

  lemma RevReversed(s: seq<ListHead>)
    ensures Reversed(s, Rev(s))
  {
    RevMultiset(s);
    forall i | 0 <= i < |s| ensures Rev(s)[i] == s[|s| - 1 - i] { RevAt(s, i); }
  }

  lemma MovedReversed(s: seq<ListHead>, k: nat)
    requires k < |s|
    ensures |Rev(s)| == |s| && ReversedBut(s, k, Moved(Rev(s), |s| - 1 - k))
  {
    RevReversed(s);
    hide Rev;
  }

  lemma RoundMeans(v: View, s: seq<ListHead>, idx: int16, data: uint16)
    requires Covers(v, s) && |s| >= 2
    ensures var wanted := Payload(data, idx);
      RoundIs(v, s, idx, data, RoundList(v, s, wanted), FirstFound(v, s, wanted) < |s|, RoundBit(v, s, wanted))
  {
    hide FirstFound, RoundList, RoundBit, Covers;
    var wanted := Payload(data, idx);
    var k := FirstFound(v, s, wanted);
    FoundMeans(v, s, idx, data);
    RoundParts(v, s, wanted);
    hide Rev, Moved, Wanted;
    RevReversed(s);
    if k < |s| {
      MovedReversed(s, k);
      hide ReversedBut, Reversed;
      assert FirstWanted(v, s, idx, data, k);
    }
  }

  lemma FoundMeans(v: View, s: seq<ListHead>, idx: int16, data: uint16)
    requires Covers(v, s)
    ensures var k := FirstFound(v, s, Payload(data, idx));
      if k < |s| then FirstWanted(v, s, idx, data, k)
      else forall i | 0 <= i < |s| :: !Wanted(v[s[i]], idx, data)
  {
    hide FirstFound;
  }

  lemma RoundParts(v: View, s: seq<ListHead>, wanted: Payload)
    requires Covers(v, s) && |s| >= 2
    ensures var k := FirstFound(v, s, wanted);
      && RoundList(v, s, wanted) == (if k == |s| then Rev(s) else (RevMultiset(s); Moved(Rev(s), |s| - 1 - k)))
      && RoundBit(v, s, wanted) ==
         if k == |s| then v[s[|s| - 2]].data16 / 256 % 2
         else if v[s[k]].data16 % 2 == 1 then v[s[k]].data16 / 512 % 2 else 0
  {
    hide FirstFound, Rev, Moved;
  }

  // ---------------------------------------------------------------- the whole search

  /** The index that round i looks for: one more each round, until it wraps around and is negative for good. */
  function IndexAt(idx: int16, i: nat): int16 {
    if idx < 0 then idx else if idx + i < 0x8000 then idx + i else -0x8000
  }

  function Total(bits: seq<nat>): nat {
    if bits == [] then 0 else Total(bits[..|bits| - 1]) + bits[|bits| - 1]
  }

  function Hits(hits: seq<bool>): nat {
    if hits == [] then 0 else Hits(hits[..|hits| - 1]) + if hits[|hits| - 1] then 1 else 0
  }

  /** The lists, hits and bits of n rounds. */
  ghost predicate SearchIs(v: View, nodes: seq<ListHead>, idx: int16, n: nat,
                           lists: seq<seq<ListHead>>, hits: seq<bool>, bits: seq<nat>) {
    && |lists| == n + 1 && |hits| == |bits| == n && lists[0] == nodes
    && (forall i | 0 <= i <= n :: Covers(v, lists[i]) && |lists[i]| >= 2)
    && forall i | 0 <= i < n :: RoundIs(v, lists[i], IndexAt(idx, i), i % 256, lists[i + 1], hits[i], bits[i])
  }

  lemma OneMoreRound(v: View, nodes: seq<ListHead>, idx: int16, n: nat,
                     lists: seq<seq<ListHead>>, hits: seq<bool>, bits: seq<nat>, t: seq<ListHead>, hit: bool, bit: nat)
    requires SearchIs(v, nodes, idx, n, lists, hits, bits) && Covers(v, t) && |t| >= 2
    requires RoundIs(v, lists[n], IndexAt(idx, n), n % 256, t, hit, bit)
    ensures SearchIs(v, nodes, idx, n + 1, lists + [t], hits + [hit], bits + [bit])
    ensures Total(bits + [bit]) == Total(bits) + bit && Hits(hits + [hit]) == Hits(hits) + if hit then 1 else 0
  {
    hide RoundIs, Covers;
    var lists', hits', bits' := lists + [t], hits + [hit], bits + [bit];
    assert hits'[..n] == hits && bits'[..n] == bits;
    forall i | 0 <= i < n + 1
      ensures RoundIs(v, lists'[i], IndexAt(idx, i), i % 256, lists'[i + 1], hits'[i], bits'[i])
    {
      if i < n { assert lists'[i] == lists[i] && lists'[i + 1] == lists[i + 1]; }
    }
  }

  /** The search leaves the list of its last round, and the sum of all bits, four for each find, less one for each
      miss. */
  lemma {:induction false} SearchMeans(v: View, nodes: seq<ListHead>, idx: int16, n: nat)
      returns (lists: seq<seq<ListHead>>, hits: seq<bool>, bits: seq<nat>)
    requires Covers(v, nodes) && |nodes| >= 2
    ensures |lists| == n + 1 && SearchIs(v, nodes, idx, n, lists, hits, bits)
    ensures var st := Searched(v, nodes, idx, n);
      && st.list == lists[n] && st.idx == IndexAt(idx, n)
      && st.found == Hits(hits) && st.retval == Total(bits) % 0x1_0000
      && SearchSum(st) == (Total(bits) + 4 * Hits(hits) - (n - Hits(hits))) % 0x1_0000
  {
    hide RoundIs, RoundList, RoundBit, FirstFound, Searched, Covers, SearchIs, Hits, Total;
    if n == 0 {
      SearchedStart(v, nodes, idx);
      lists, hits, bits := [nodes], [], [];
      NoRounds(v, nodes, idx);
    } else {
      var m := n - 1;
      lists, hits, bits := SearchMeans(v, nodes, idx, m);
      var st, t := Searched(v, nodes, idx, m), Searched(v, nodes, idx, n);
      var wanted := Payload(m % 256, st.idx);
      var hit, bit := FirstFound(v, st.list, wanted) < |st.list|, RoundBit(v, st.list, wanted);
      RoundMeans(v, st.list, st.idx, m % 256);
      SearchedNext(v, nodes, idx, m);
      assert t.list == RoundList(v, st.list, wanted) && t.idx == IndexAt(idx, n);
      OneMoreRound(v, nodes, idx, m, lists, hits, bits, t.list, hit, bit);
      SumWraps(Total(bits), bit);
      lists, hits, bits := lists + [t.list], hits + [hit], bits + [bit];
      assert lists[n] == t.list;
    }
    var st := Searched(v, nodes, idx, n);
    SumWraps(Total(bits), st.found * 4 - st.missed);
  }

  lemma NoRounds(v: View, nodes: seq<ListHead>, idx: int16)
    requires Covers(v, nodes) && |nodes| >= 2
    ensures SearchIs(v, nodes, idx, 0, [nodes], [], []) && Hits([]) == Total([]) == 0
  {}

  lemma SumWraps(x: int, y: int)
    ensures (x % 0x1_0000 + y) % 0x1_0000 == (x + y) % 0x1_0000
  {}

  // ---------------------------------------------------------------- the checksums

  /** n steps of the checksum, one after the other. */
  ghost predicate Folds(crc16: (uint16, uint16) -> uint16, data: uint16, n: nat, from: uint16, trace: seq<uint16>) {
    |trace| == n + 1 && trace[0] == from && forall i | 0 <= i < n :: trace[i + 1] == crc16(data, trace[i])
  }

  lemma {:induction false} TimesMean(crc16: (uint16, uint16) -> uint16, data: uint16, n: nat, from: uint16)
      returns (trace: seq<uint16>)
    ensures Folds(crc16, data, n, from, trace) && CrcTimes(crc16, data, n, from) == trace[n]
  {
    trace := [from];
    if n > 0 {
      var rest := TimesMean(crc16, data, n - 1, crc16(data, from));
      trace := [from] + rest;
    }
  }

  /** The payload of cell i while the third cell is out: its payload stands in the second cell. */
  ghost function LeftAt(v: View, s: seq<ListHead>, i: nat): Payload
    requires Covers(v, s) && i + 1 < |s|
  {
    v[s[if i == 0 then 0 else i + 1]]
  }

  /** The head is folded in once for each cell from the first wanted one on; from the second one if none is. */
  lemma RemovedMeans(v: View, s: seq<ListHead>, wanted: Payload)
    requires NoDup(s) && |s| >= 3 && Covers(v, s)
    ensures var n := RemovedCount(v, s, wanted);
      && 1 <= n < |s|
      && (if forall i | 0 <= i < |s| - 1 :: !Wanted(LeftAt(v, s, i), wanted.idx, wanted.data16) then n == |s| - 2
          else
            && Wanted(LeftAt(v, s, |s| - 1 - n), wanted.idx, wanted.data16)
            && forall i | 0 <= i < |s| - 1 - n :: !Wanted(LeftAt(v, s, i), wanted.idx, wanted.data16))
  {
    var t, w := Without(s, 2), Exchanged(v, s);
    FirstCells(s);
    forall i | 0 <= i < |t| ensures t[i] in w && w[t[i]] == LeftAt(v, s, i) {
      assert t[i] == s[if i < 2 then i else i + 1];
    }
    hide Without, NoDup, Exchanged, LeftAt;
    var k := FirstFound(w, t, wanted);
    forall i | 0 <= i < |t| ensures Matches(w[t[i]], wanted) == Wanted(LeftAt(v, s, i), wanted.idx, wanted.data16) {}
  }

  /** The checksum of the benchmark, said so: from the sum of the search, the head of the list after the sort by content
      is folded in n times, and the head of the last list once for each of its other cells. */
  lemma ChecksumMeans(crc16: (uint16, uint16) -> uint16, st: Search, data: uint16, w: View, before: seq<ListHead>,
                      v: View, final: seq<ListHead>) returns (trace: seq<uint16>, last: seq<uint16>)
    requires |before| >= 3 && NoDup(before) && Covers(w, before) && |final| >= 1 && Covers(v, final)
    ensures var n := RemovedCount(w, before, Payload(data, st.idx));
      && Folds(crc16, w[before[0]].data16, n, SearchSum(st), trace)
      && Folds(crc16, v[final[0]].data16, |final| - 1, trace[n], last)
      && Checksum(crc16, st, data, w, before, v, final) == last[|final| - 1]
  {
    hide RemovedCount, SearchSum, CrcTimes;
    var n := RemovedCount(w, before, Payload(data, st.idx));
    trace := TimesMean(crc16, w[before[0]].data16, n, SearchSum(st));
    last := TimesMean(crc16, v[final[0]].data16, |final| - 1, trace[n]);
  }
}
