/** The benchmark run over the list of core_list_join.c: find, reverse, move, sort, remove and put
    back, and sort again, after which the list must be in its original state. */
module CoreBench {
  import opened CoreList

  // ---------------------------------------------------------------- reversal

  ghost function Rev(s: seq<ListHead>): seq<ListHead> {
    if s == [] then [] else Rev(s[1..]) + [s[0]]
  }

  lemma {:induction false} RevSnoc(s: seq<ListHead>, x: ListHead)
    ensures Rev(s + [x]) == [x] + Rev(s)
  {
    if s == [] {
      assert Rev([x]) == Rev([x][1..]) + [x];
    } else {
      assert (s + [x])[1..] == s[1..] + [x];
      RevSnoc(s[1..], x);
    }
  }

  lemma {:induction false} RevMultiset(s: seq<ListHead>)
    ensures multiset(Rev(s)) == multiset(s) && |Rev(s)| == |s|
  {
    if s != [] {
      RevMultiset(s[1..]);
      assert s == [s[0]] + s[1..];
    }
  }

  lemma {:induction false} RevAt(s: seq<ListHead>, i: nat)
    requires i < |s|
    ensures |Rev(s)| == |s| && Rev(s)[i] == s[|s| - 1 - i]
  {
    RevMultiset(s);
    RevMultiset(s[1..]);
    if i < |s| - 1 { RevAt(s[1..], i); }
  }

  /** Prepending a cell that is not in the list. */
  lemma ConsChain(x: ListHead, head: ListHead?, s: seq<ListHead>)
    requires Chain(head, s) && x.next == head
    ensures Chain(x, [x] + s)
  {
    var t := [x] + s;
    forall i {:trigger t[i].next} | 0 <= i < |t| ensures t[i].next == At(t, i + 1) {
      if i > 0 { assert s[i - 1].next == At(s, i); }
    }
  }

  method Reverse(list0: ListHead?, ghost nodes: seq<ListHead>) returns (next: ListHead?)
    requires IsList(list0, nodes)
    modifies Cells(nodes)`next
    ensures IsList(next, Rev(nodes))
  {
    var list := list0;
    next := null;
    ghost var k := 0;
    while list != null
      invariant k <= |nodes| && Chain(list, nodes[k..]) && Chain(next, Rev(nodes[..k]))
      decreases |nodes| - k
    {
      ghost var x := list;
      RestChain(list, nodes[k..]);
      ReverseStep(nodes, k);
      var tmp := list.next;
      list.next := next;
      ConsChain(x, next, Rev(nodes[..k]));
      next := list;
      list := tmp;
      k := k + 1;
    }
    assert nodes[..k] == nodes;
    RevMultiset(nodes);
    SamePartsNoDup(nodes, Rev(nodes));
  }

  lemma ReverseStep(nodes: seq<ListHead>, k: nat)
    requires NoDup(nodes) && k < |nodes|
    ensures nodes[..k + 1] == nodes[..k] + [nodes[k]] && Rev(nodes[..k + 1]) == [nodes[k]] + Rev(nodes[..k])
    ensures nodes[k..][0] == nodes[k] && nodes[k..][1..] == nodes[k + 1..]
    ensures nodes[k] !in Rev(nodes[..k]) && nodes[k] !in nodes[k + 1..]
  {
    assert nodes[..k + 1] == nodes[..k] + [nodes[k]];
    RevSnoc(nodes[..k], nodes[k]);
    RevMultiset(nodes[..k]);
    assert nodes[k] !in multiset(Rev(nodes[..k]));
  }

  lemma SamePartsNoDup(nodes: seq<ListHead>, s: seq<ListHead>)
    requires NoDup(nodes) && multiset(s) == multiset(nodes)
    ensures NoDup(s)
  {
    ApartParts(nodes, s, [], []);
  }

  lemma SameCells(nodes: seq<ListHead>, s: seq<ListHead>)
    requires multiset(s) == multiset(nodes)
    ensures |s| == |nodes| && Cells(s) == Cells(nodes) && forall x :: x in s <==> x in nodes
  {
    assert |multiset(s)| == |s| && |multiset(nodes)| == |nodes|;
    assert forall x :: x in s <==> x in multiset(s);
    assert forall x :: x in nodes <==> x in multiset(nodes);
  }

  // ---------------------------------------------------------------- find

  /** By index if the wanted index is not negative, else by the lower data byte. */
  predicate Matches(v: Payload, wanted: Payload) {
    if wanted.idx >= 0 then v.idx == wanted.idx else v.data16 % 256 == wanted.data16
  }

  ghost predicate Covers(v: View, s: seq<ListHead>) {
    forall x :: x in s ==> x in v
  }

  /** The place of the first cell that matches, the length of the list if there is none. */
  ghost function FirstFound(v: View, s: seq<ListHead>, wanted: Payload): (k: nat)
    requires Covers(v, s)
    ensures k <= |s| && (k < |s| ==> Matches(v[s[k]], wanted))
    ensures forall i :: 0 <= i < k ==> !Matches(v[s[i]], wanted)
  {
    if s == [] then 0 else if Matches(v[s[0]], wanted) then 0 else 1 + FirstFound(v, s[1..], wanted)
  }

  /** The first cell that matches, null if there is none. */
  method Find(list0: ListHead?, wanted: Payload, ghost v: View, ghost nodes: seq<ListHead>) returns (list: ListHead?)
    requires IsList(list0, nodes) && v == ViewOf(nodes)
    ensures v == ViewOf(nodes) && list == At(nodes, FirstFound(v, nodes, wanted))
    ensures list == null <==> forall i :: 0 <= i < |nodes| ==> !Matches(nodes[i].info.Value(), wanted)
    ensures list != null ==> list in nodes && Matches(list.info.Value(), wanted)
  {
    list := list0;
    ghost var k := 0;
    if wanted.idx >= 0 {
      while list != null && list.info.idx != wanted.idx
        invariant k <= |nodes| && list == At(nodes, k)
        invariant forall i :: 0 <= i < k ==> !Matches(nodes[i].info.Value(), wanted)
        decreases |nodes| - k
      {
        assert nodes[k].next == At(nodes, k + 1);
        list := list.next;
        k := k + 1;
      }
    } else {
      while list != null && list.info.data16 % 256 != wanted.data16
        invariant k <= |nodes| && list == At(nodes, k)
        invariant forall i :: 0 <= i < k ==> !Matches(nodes[i].info.Value(), wanted)
        decreases |nodes| - k
      {
        assert nodes[k].next == At(nodes, k + 1);
        list := list.next;
        k := k + 1;
      }
    }
    assert k == FirstFound(v, nodes, wanted);
  }

  // ---------------------------------------------------------------- remove and undo

  ghost function Without(s: seq<ListHead>, k: nat): seq<ListHead>
    requires k < |s|
  {
    s[..k] + s[k + 1..]
  }

  ghost function With(s: seq<ListHead>, k: nat, x: ListHead): seq<ListHead>
    requires k <= |s|
  {
    s[..k] + [x] + s[k..]
  }

  /** Remove the cell after item, which takes over that cell's payload. */
  method Remove(item: ListHead, ghost list: ListHead, ghost s: seq<ListHead>, ghost k: nat) returns (ret: ListHead)
    requires IsList(list, s) && k + 1 < |s| && s[k] == item
    modifies {s[k], s[k + 1]}`next, {s[k], s[k + 1]}`info
    ensures ret == s[k + 1] && IsList(list, Without(s, k + 1)) && ret.next == null
    ensures item.info == old(ret.info) && ret.info == old(item.info)
  {
    assert s[k].next == At(s, k + 1) && s[k + 1].next == At(s, k + 2);
    ret := item.next;
    var tmp := item.info;
    item.info := ret.info;
    ret.info := tmp;
    item.next := item.next.next;
    ret.next := null;
    ghost var t := Without(s, k + 1);
    forall i {:trigger t[i].next} | 0 <= i < |t| ensures t[i].next == At(t, i + 1) {
      if i > k { assert t[i] == s[i + 1] && s[i + 1].next == At(s, i + 2); }
      if i < k { assert t[i] == s[i] && s[i].next == At(s, i + 1); }
    }
  }

  /** Link a removed cell back after the cell that had taken over its payload. */
  method UndoRemove(removed: ListHead, modified: ListHead, ghost list: ListHead, ghost t: seq<ListHead>, ghost k: nat)
    returns (r: ListHead)
    requires IsList(list, t) && k < |t| && t[k] == modified && removed !in t
    modifies {removed, modified}`next, {removed, modified}`info
    ensures r == removed && IsList(list, With(t, k + 1, removed))
    ensures removed.info == old(modified.info) && modified.info == old(removed.info)
  {
    assert t[k].next == At(t, k + 1);
    var tmp := removed.info;
    removed.info := modified.info;
    modified.info := tmp;
    removed.next := modified.next;
    modified.next := removed;
    ghost var s := With(t, k + 1, removed);
    forall i {:trigger s[i].next} | 0 <= i < |s| ensures s[i].next == At(s, i + 1) {
      if i > k + 1 { assert s[i] == t[i - 1] && t[i - 1].next == At(t, i); }
      if i < k { assert s[i] == t[i] && t[i].next == At(t, i + 1); }
    }
    r := removed;
  }

  /** Undoing a removal puts every cell and every payload back where it was. */
  method RemoveAndUndo(item: ListHead, list: ListHead, ghost s: seq<ListHead>, ghost k: nat)
    requires IsList(list, s) && k + 1 < |s| && s[k] == item
    modifies {s[k], s[k + 1]}`next, {s[k], s[k + 1]}`info
    ensures IsList(list, s) && forall x | x in s :: x.info == old(x.info) && x.next == old(x.next)
  {
    assert forall i {:trigger s[i].next} | 0 <= i < |s| :: old(s[i].next) == At(s, i + 1);
    WithWithout(list, s, k);
    var ret := Remove(item, list, s, k);
    ret := UndoRemove(ret, item, list, Without(s, k + 1), k);
  }

  // ---------------------------------------------------------------- the benchmark

  function Add16(x: int, y: int): uint16 {
    (x + y) % 0x10000
  }

  /** A 16-bit signed counter wraps around. */
  function NextIdx(i: int16): int16 {
    if i == 0x7fff then -0x8000 else i + 1
  }

  /** Take the cell after place j and link it in right behind the head. */
  ghost function Moved(s: seq<ListHead>, j: nat): seq<ListHead>
    requires j < |s|
  {
    if j + 1 < |s| then With(Without(s, j + 1), 1, s[j + 1]) else s
  }

  lemma MovedMultiset(s: seq<ListHead>, j: nat)
    requires j < |s|
    ensures multiset(Moved(s, j)) == multiset(s)
  {
    if j + 1 < |s| {
      var t, x := Without(s, j + 1), s[j + 1];
      assert s == s[..j + 1] + [x] + s[j + 2..];
      assert multiset(s) == multiset(t) + multiset{x};
      assert t == t[..1] + t[1..];
      assert multiset(With(t, 1, x)) == multiset(t[..1]) + multiset{x} + multiset(t[1..]);
      assert multiset(t) == multiset(t[..1]) + multiset(t[1..]);
    }
  }

  method MoveUp(list: ListHead, thisFind: ListHead, ghost s: seq<ListHead>, ghost j: nat)
    requires IsList(list, s) && j < |s| && s[j] == thisFind
    modifies Cells(s)`next
    ensures IsList(list, Moved(s, j))
  {
    assert s[j].next == At(s, j + 1);
    if thisFind.next != null {
      var finder := thisFind.next;
      assert s[j + 1].next == At(s, j + 2) && s[0].next == At(s, 1);
      thisFind.next := finder.next;
      finder.next := list.next;
      list.next := finder;
      ghost var t := Moved(s, j);
      forall i {:trigger t[i].next} | 0 <= i < |t| ensures t[i].next == At(t, i + 1) {
        if i == 1 { assert t[1] == s[j + 1]; }
        if i == j + 1 && j > 0 { assert t[i] == s[j] && At(t, i + 1) == At(s, j + 2); }
        if 2 <= i <= j { assert t[i] == s[i - 1] && old(s[i - 1].next) == At(s, i); }
        if i > j + 1 { assert t[i] == s[i] && old(s[i].next) == At(s, i + 1); }
      }
    }
  }

  /** What a round makes of the list: reversed, and with the cell after the found one moved to the front. */
  ghost function RoundList(v: View, s: seq<ListHead>, wanted: Payload): (t: seq<ListHead>)
    requires Covers(v, s)
    ensures multiset(t) == multiset(s) && |t| == |s|
  {
    RevMultiset(s);
    var k := FirstFound(v, s, wanted);
    if k == |s| then Rev(s)
    else
      MovedMultiset(Rev(s), |s| - 1 - k);
      var t := Moved(Rev(s), |s| - 1 - k);
      SameCells(s, t);
      t
  }

  /** The bit that a round adds: of the last payload but one if nothing is found, of the found one if it is odd. */
  ghost function RoundBit(v: View, s: seq<ListHead>, wanted: Payload): nat
    requires Covers(v, s) && |s| >= 2
  {
    var k := FirstFound(v, s, wanted);
    if k == |s| then v[s[|s| - 2]].data16 / 256 % 2
    else if v[s[k]].data16 % 2 == 1 then v[s[k]].data16 / 512 % 2
    else 0
  }

  lemma FoundCell(v: View, s: seq<ListHead>, wanted: Payload)
    requires Covers(v, s)
    ensures var k := FirstFound(v, s, wanted); (At(s, k) == null <==> k == |s|) && (k < |s| ==> At(s, k) == s[k])
  {}

  lemma Headed(head: ListHead?, s: seq<ListHead>)
    requires IsList(head, s) && s != []
    ensures head == s[0]
  {}

  lemma CoversOwn(s: seq<ListHead>)
    ensures Covers(ViewOf(s), s) && ViewOf(s).Keys == Cells(s)
  {}

  lemma InView(s: seq<ListHead>, i: nat)
    requires i < |s|
    ensures s[i] in ViewOf(s) && ViewOf(s)[s[i]] == s[i].info.Value()
  {}

  /** One round: look for a payload, reverse the list, and move what follows a find to the front. */
  method FindRound(list0: ListHead, wanted: Payload, retval0: uint16, ghost v: View, ghost nodes: seq<ListHead>)
    returns (list: ListHead, retval: uint16, hit: bool, ghost s: seq<ListHead>)
    requires IsList(list0, nodes) && |nodes| >= 2 && v == ViewOf(nodes)
    modifies Cells(nodes)`next
    ensures v == ViewOf(nodes) && IsList(list, s) && s == RoundList(v, nodes, wanted)
    ensures hit == (FirstFound(v, nodes, wanted) < |nodes|) && retval == Add16(retval0, RoundBit(v, nodes, wanted))
  {
    hide Rev, Moved, FirstFound, NoDup, Matches, IsList;
    CoversOwn(nodes);
    ghost var k := FirstFound(v, nodes, wanted);
    FoundCell(v, nodes, wanted);
    var thisFind := Find(list0, wanted, v, nodes);
    var head := Reverse(list0, nodes);
    RevMultiset(nodes);
    s := Rev(nodes);
    Headed(head, s);
    list := head;
    retval := retval0;
    hit := thisFind != null;
    if thisFind == null {
      RevAt(nodes, 1);
      SecondCell(list, s);
      InView(nodes, |nodes| - 2);
      retval := Add16(retval, list.next.info.data16 / 256 % 2);
    } else {
      if thisFind.info.data16 % 2 == 1 {
        retval := Add16(retval, thisFind.info.data16 / 512 % 2);
      }
      SameCells(nodes, s);
      ghost var j := |nodes| - 1 - k;
      RevAt(nodes, j);
      InView(nodes, k);
      MoveUp(list, thisFind, s, j);
      s := Moved(s, j);
    }
  }

  /** Fold the data of the head into the checksum once for each cell from finder on. */
  method CrcFrom(list: ListHead, finder0: ListHead?, retval0: uint16, crc16: (uint16, uint16) -> uint16,
                 ghost s: seq<ListHead>, ghost k: nat)
    returns (retval: uint16)
    requires Chain(list, s) && k <= |s| && finder0 == At(s, k)
    ensures retval == CrcTimes(crc16, list.info.data16, |s| - k, retval0)
  {
    var finder := finder0;
    retval := retval0;
    ghost var i := k;
    while finder != null
      invariant k <= i <= |s| && finder == At(s, i)
      invariant CrcTimes(crc16, list.info.data16, |s| - i, retval) ==
          CrcTimes(crc16, list.info.data16, |s| - k, retval0)
      decreases |s| - i
    {
      assert s[i].next == At(s, i + 1);
      retval := crc16(list.info.data16, retval);
      finder := finder.next;
      i := i + 1;
    }
  }

  function CrcTimes(crc16: (uint16, uint16) -> uint16, data: uint16, n: nat, retval: uint16): uint16 {
    if n == 0 then retval else CrcTimes(crc16, data, n - 1, crc16(data, retval))
  }

  /** Each payload kept its index and backup byte, and its lower data byte is the backup byte again. */
  ghost predicate Restored(v: View, w: View) {
    w.Keys == v.Keys && forall x | x in v :: SameOrigin(v[x], w[x]) && Settled(CmpIdx, w[x])
  }

  ghost predicate IdxSorted(v: View, s: seq<ListHead>) {
    forall i, j :: 0 <= i < j < |s| ==> s[i] in v && s[j] in v && v[s[i]].idx <= v[s[j]].idx
  }

  ghost predicate StrictIdx(v: View, s: seq<ListHead>) {
    forall i, j :: 0 <= i < j < |s| ==> s[i] in v && s[j] in v && v[s[i]].idx < v[s[j]].idx
  }

  /** By index, and for equal indices by place. */
  ghost predicate IdxOrder(v: View, rank: Rank, x: ListHead, y: ListHead) {
    && x in v && y in v && x in rank && y in rank
    && (v[x].idx < v[y].idx || (v[x].idx == v[y].idx && rank[x] < rank[y]))
  }

  /** Cells with equal indices stand in the same order in both lists, and the others in index order. */
  ghost predicate ComesBack(v: View, nodes: seq<ListHead>, before: seq<ListHead>)
    requires NoDup(before)
  {
    forall i, j :: 0 <= i < j < |nodes| ==> IdxOrder(v, RankOf(before), nodes[i], nodes[j])
  }

  /** The final sort gives the original list back exactly if it was in index order and what came before the
      sort left cells with equal indices in their order. */
  lemma BackToOriginalIff(v: View, nodes: seq<ListHead>, before: seq<ListHead>, final: seq<ListHead>)
    requires NoDup(before) && multiset(before) == multiset(nodes) == multiset(final)
    requires Sorted(CmpIdx, RankOf(before), v, final) && |final| >= 2
    ensures final == nodes <==> ComesBack(v, nodes, before)
  {
    var rank := RankOf(before);
    if final == nodes {
      forall i, j | 0 <= i < j < |nodes| ensures IdxOrder(v, rank, nodes[i], nodes[j]) {
        assert InOrder(CmpIdx, rank, v, final[i], final[j]);
      }
    }
    if ComesBack(v, nodes, before) {
      forall i, j | 0 <= i < j < |nodes| ensures InOrder(CmpIdx, rank, v, nodes[i], nodes[j]) {
        SettledAll(CmpIdx, rank, v, final, nodes, i);
        SettledAll(CmpIdx, rank, v, final, nodes, j);
      }
      SortedUnique(CmpIdx, rank, v, nodes, final);
    }
  }

  /** After a sort of two or more cells every payload is settled: each was compared at least once. */
  lemma SettledAll(c: Comparison, rank: Rank, v: View, sorted: seq<ListHead>, nodes: seq<ListHead>, i: nat)
    requires Sorted(c, rank, v, sorted) && multiset(sorted) == multiset(nodes) && |sorted| >= 2 && i < |nodes|
    ensures nodes[i] in v && nodes[i] in rank && Settled(c, v[nodes[i]])
  {
    assert nodes[i] in multiset(sorted);
    var j :| 0 <= j < |sorted| && sorted[j] == nodes[i];
    if j == 0 {
      assert InOrder(c, rank, v, sorted[0], sorted[1]);
    } else {
      assert InOrder(c, rank, v, sorted[0], sorted[j]);
    }
  }

  /** The state of the search: the list, the wanted index, the bits added up, and the count of finds. */
  datatype Search = Search(list: seq<ListHead>, idx: int16, retval: uint16, found: nat, missed: nat)

  /** Round i of the search. */
  ghost function SearchRound(v: View, st: Search, i: nat): (r: Search)
    requires Covers(v, st.list) && |st.list| >= 2
    ensures multiset(r.list) == multiset(st.list) && |r.list| == |st.list| && Covers(v, r.list)
    ensures r.found + r.missed == st.found + st.missed + 1
  {
    var wanted := Payload(i % 256, st.idx);
    var hit := FirstFound(v, st.list, wanted) < |st.list|;
    var list := RoundList(v, st.list, wanted);
    hide RoundList, FirstFound;
    SameCells(st.list, list);
    assert Covers(v, list);
    Search(list, if st.idx >= 0 then NextIdx(st.idx) else st.idx, Add16(st.retval, RoundBit(v, st.list, wanted)),
           st.found + if hit then 1 else 0, st.missed + if hit then 0 else 1)
  }

  /** The search after n rounds. */
  ghost function Searched(v: View, nodes: seq<ListHead>, idx: int16, n: nat): (st: Search)
    requires Covers(v, nodes) && |nodes| >= 2
    ensures multiset(st.list) == multiset(nodes) && |st.list| == |nodes|
    ensures Covers(v, st.list) && st.found + st.missed == n
  {
    hide SearchRound, Covers;
    if n == 0 then Search(nodes, idx, 0, 0, 0) else SearchRound(v, Searched(v, nodes, idx, n - 1), n - 1)
  }

  /** How many rounds there are, and the data that the last one looked for. */
  function Rounds(findNum: int16): nat { if findNum > 0 then findNum else 0 }
  function LastData(findNum: int16, stale: uint16): uint16 { if findNum > 0 then (findNum - 1) % 256 else stale }

  ghost function SearchSum(st: Search): uint16 { Add16(st.retval, st.found * 4 - st.missed) }

  lemma SearchedStart(v: View, nodes: seq<ListHead>, idx: int16)
    requires Covers(v, nodes) && |nodes| >= 2
    ensures Searched(v, nodes, idx, 0) == Search(nodes, idx, 0, 0, 0)
  {}

  lemma SearchedNext(v: View, nodes: seq<ListHead>, idx: int16, i: nat)
    requires Covers(v, nodes) && |nodes| >= 2
    ensures Searched(v, nodes, idx, i + 1) == SearchRound(v, Searched(v, nodes, idx, i), i)
  {
    hide SearchRound;
  }

  /** One turn of the search loop. */
  method NextRound(list0: ListHead, wanted0: Payload, retval0: uint16, i: int16, ghost found: nat, ghost missed: nat,
                   ghost v: View, ghost nodes: seq<ListHead>, ghost s0: seq<ListHead>)
    returns (list: ListHead, retval: uint16, wanted: Payload, hit: bool, ghost s: seq<ListHead>)
    requires i >= 0 && IsList(list0, s0) && |s0| >= 2
    requires multiset(s0) == multiset(nodes) && v == ViewOf(nodes) && Covers(v, s0)
    modifies Cells(nodes)`next
    ensures v == ViewOf(nodes) && IsList(list, s) && wanted.data16 == i % 256
    ensures SearchRound(v, Search(s0, wanted0.idx, retval0, found, missed), i) ==
            Search(s, wanted.idx, retval, if hit then found + 1 else found, if hit then missed else missed + 1)
  {
    hide IsList, RoundList, RoundBit, FirstFound, ViewOf;
    SameView(nodes, s0);
    wanted := wanted0.(data16 := i % 256);
    list, retval, hit, s := FindRound(list0, wanted, retval0, v, s0);
    SameView(nodes, s0);
    if wanted.idx >= 0 {
      wanted := wanted.(idx := NextIdx(wanted.idx));
    }
  }

  method FindPhase(list0: ListHead, findNum: int16, wanted0: Payload, ghost v: View, ghost nodes: seq<ListHead>)
    returns (list: ListHead, retval: uint16, wanted: Payload, ghost s: seq<ListHead>)
    requires IsList(list0, nodes) && |nodes| >= 2 && v == ViewOf(nodes)
    modifies Cells(nodes)`next
    ensures IsList(list, s) && v == ViewOf(nodes) && Infos(nodes) == old(Infos(nodes)) && Covers(v, nodes)
    ensures var st := Searched(v, nodes, wanted0.idx, Rounds(findNum));
      && s == st.list && retval == SearchSum(st) && wanted == Payload(LastData(findNum, wanted0.data16), st.idx)
  {
    hide IsList, RoundList, RoundBit, FirstFound, SearchRound, Searched;
    list, wanted, s := list0, wanted0, nodes;
    retval := 0;
    CoversOwn(nodes);
    SearchedStart(v, nodes, wanted0.idx);
    var found, missed, i := 0, 0, 0;
    while i < findNum
      invariant 0 <= i <= Rounds(findNum) && IsList(list, s) && v == ViewOf(nodes)
      invariant Searched(v, nodes, wanted0.idx, i) == Search(s, wanted.idx, retval, found, missed)
      invariant wanted.data16 == if i == 0 then wanted0.data16 else (i - 1) % 256
    {
      SearchedNext(v, nodes, wanted0.idx, i);
      var hit;
      list, retval, wanted, hit, s := NextRound(list, wanted, retval, i, found, missed, v, nodes, s);
      if hit {
        found := found + 1;
      } else {
        missed := missed + 1;
      }
      i := i + 1;
    }
    retval := Add16(retval, found * 4 - missed);
  }

  /** How often the head is folded in from the first matching cell on, or from the second one if none matches. */
  ghost function FoldCount(v: View, t: seq<ListHead>, wanted: Payload): nat
    requires Covers(v, t) && |t| >= 2
  {
    var k := FirstFound(v, t, wanted);
    if k < |t| then |t| - k else |t| - 1
  }

  /** With a cell gone, checksum the rest of the list from the wanted payload on. */
  method CrcWithout(list: ListHead, wanted: Payload, retval0: uint16, crc16: (uint16, uint16) -> uint16,
                    ghost v: View, ghost t: seq<ListHead>)
    returns (retval: uint16)
    requires IsList(list, t) && |t| >= 2 && v == ViewOf(t)
    ensures retval == CrcTimes(crc16, list.info.data16, FoldCount(v, t, wanted), retval0)
  {
    ghost var k := FirstFound(v, t, wanted);
    var finder := Find(list, wanted, v, t);
    assert t[0].next == At(t, 1);
    if finder == null {
      finder := list.next;
      k := 1;
    }
    retval := CrcFrom(list, finder, retval0, crc16, t, k);
  }

  lemma WithWithout(list: ListHead, s: seq<ListHead>, k: nat)
    requires k + 1 < |s| && IsList(list, s)
    ensures With(Without(s, k + 1), k + 1, s[k + 1]) == s && Without(s, k + 1)[k] == s[k]
    ensures s[k + 1] !in Without(s, k + 1) && |Without(s, k + 1)| == |s| - 1 && s[k] != s[k + 1]
  {}

  /** With the second and the third payload exchanged, as they are while the third cell is out. */
  ghost function Exchanged(v: View, s: seq<ListHead>): View
    requires |s| >= 3 && Covers(v, s)
  {
    v[s[1] := v[s[2]]]
  }

  /** How often the head is folded in while the third cell is out. */
  ghost function RemovedCount(v: View, s: seq<ListHead>, wanted: Payload): nat
    requires |s| >= 3 && Covers(v, s)
  {
    FoldCount(Exchanged(v, s), Without(s, 2), wanted)
  }

  /** Only the payloads of the cells of the list matter. */
  lemma FoldCountSame(v: View, w: View, t: seq<ListHead>, wanted: Payload)
    requires Covers(v, t) && Covers(w, t) && |t| >= 2 && forall x :: x in t ==> v[x] == w[x]
    ensures FoldCount(v, t, wanted) == FoldCount(w, t, wanted)
  {
    var k, l := FirstFound(v, t, wanted), FirstFound(w, t, wanted);
    if k < |t| { assert t[k] in t; }
    if l < |t| { assert t[l] in t; }
    assert k == l;
  }

  /** While the third cell is out. */
  lemma RemovedView(v: View, s: seq<ListHead>, wanted: Payload)
    requires NoDup(s) && |s| >= 3 && Covers(v, s) && s[1].info.Value() == v[s[2]]
    requires forall x :: x in s && x != s[1] && x != s[2] ==> x.info.Value() == v[x]
    ensures var t := Without(s, 2);
            Covers(ViewOf(t), t) && |t| >= 2 && FoldCount(ViewOf(t), t, wanted) == RemovedCount(v, s, wanted)
  {
    var t := Without(s, 2);
    FoldCountSame(ViewOf(t), Exchanged(v, s), t, wanted);
  }

  method CrcWhileOut(list: ListHead, wanted: Payload, retval0: uint16, crc16: (uint16, uint16) -> uint16,
                     ghost v: View, ghost s: seq<ListHead>)
    returns (retval: uint16)
    requires NoDup(s) && |s| >= 3 && Covers(v, s) && IsList(list, Without(s, 2)) && s[1].info.Value() == v[s[2]]
    requires forall x :: x in s && x != s[1] && x != s[2] ==> x.info.Value() == v[x]
    ensures retval == CrcTimes(crc16, v[s[0]].data16, RemovedCount(v, s, wanted), retval0)
  {
    FirstCells(s);
    hide Without, NoDup, IsList, FoldCount, RemovedCount, CrcTimes;
    ghost var t := Without(s, 2);
    SecondCell(list, t);
    ghost var vt := ViewOf(t);
    RemovedView(v, s, wanted);
    retval := CrcWithout(list, wanted, retval0, crc16, vt, t);
  }

  /** Remove the third cell, checksum the rest, and put the cell back. */
  method RemoveFoldUndo(list: ListHead, wanted: Payload, retval0: uint16, crc16: (uint16, uint16) -> uint16,
                        ghost v: View, ghost s: seq<ListHead>)
    returns (retval: uint16)
    requires IsList(list, s) && |s| >= 3 && Covers(v, s) && forall x :: x in s ==> v[x] == x.info.Value()
    modifies {s[1], s[2]}`next, {s[1], s[2]}`info
    ensures IsList(list, s) && s[1].info == old(s[1].info) && s[2].info == old(s[2].info)
    ensures retval == CrcTimes(crc16, v[s[0]].data16, RemovedCount(v, s, wanted), retval0)
  {
    SecondCell(list, s);
    WithWithout(list, s, 1);
    FirstCells(s);
    hide Without, With, Chain, RemovedCount, CrcTimes;
    ghost var t := Without(s, 2);
    var remover := Remove(list.next, list, s, 1);
    retval := CrcWhileOut(list, wanted, retval0, crc16, v, s);
    SecondCell(list, t);
    remover := UndoRemove(remover, list.next, list, t, 1);
  }

  /** Nothing has changed after that. */
  method RemovePhase(list: ListHead, wanted: Payload, retval0: uint16, crc16: (uint16, uint16) -> uint16,
                     ghost v: View, ghost nodes: seq<ListHead>, ghost s: seq<ListHead>)
    returns (retval: uint16)
    requires IsList(list, s) && multiset(s) == multiset(nodes) && |s| >= 3 && v == ViewOf(nodes)
    modifies Cells(nodes)`next, Cells(nodes)`info
    ensures IsList(list, s)
    ensures v == ViewOf(nodes) && Infos(nodes) == old(Infos(nodes)) && forall x | x in nodes :: x.info == old(x.info)
    ensures Covers(v, s) && retval == CrcTimes(crc16, v[s[0]].data16, RemovedCount(v, s, wanted), retval0)
  {
    hide NoDup, Chain, IsList, RemovedCount, CrcTimes;
    SameCells(nodes, s);
    assert s[1] in s && s[2] in s;
    retval := RemoveFoldUndo(list, wanted, retval0, crc16, v, s);
  }

  lemma FirstCells(s: seq<ListHead>)
    requires NoDup(s) && |s| >= 3
    ensures s[0] in s && s[1] in s && s[2] in s && s[0] != s[1] && s[0] != s[2] && s[1] != s[2]
    ensures var t := Without(s, 2); t[0] == s[0] && t[1] == s[1] && |t| == |s| - 1 && s[2] !in t
    ensures forall x :: x in Without(s, 2) ==> x in s
  {}

  lemma SecondCell(list: ListHead, s: seq<ListHead>)
    requires IsList(list, s) && |s| >= 2
    ensures list == s[0] && list.next == s[1]
  {
    assert s[0].next == At(s, 1);
  }

  lemma SameView(nodes: seq<ListHead>, s: seq<ListHead>)
    requires multiset(s) == multiset(nodes)
    ensures ViewOf(s) == ViewOf(nodes) && Infos(s) == Infos(nodes)
    ensures |s| == |nodes| && Cells(s) == Cells(nodes) && forall x :: x in s <==> x in nodes
  {
    SameCells(nodes, s);
  }

  /** The sort, seen from the cells as they were listed when the benchmark began. */
  method SortPhase(c: Comparison, res: CoreResults, list0: ListHead,
                   ghost v: View, ghost nodes: seq<ListHead>, ghost s: seq<ListHead>)
    returns (list: ListHead, ghost sorted: seq<ListHead>, ghost w: View)
    requires IsList(list0, s) && multiset(s) == multiset(nodes) && v == ViewOf(nodes)
    modifies Cells(nodes)`next, Infos(nodes)`data16, res`crc
    ensures IsList(list, sorted) && multiset(sorted) == multiset(nodes)
    ensures NoDup(s) && Sorted(c, RankOf(s), w, sorted)
    ensures w == ViewOf(nodes) && Kept(c, v, w) && Infos(nodes) == old(Infos(nodes)) && Covers(w, sorted)
  {
    hide Sorted, Kept, RankOf;
    SameView(nodes, s);
    var head;
    head, sorted := MergeSort(c, res, list0, s);
    SameView(nodes, s);
    SameView(nodes, sorted);
    list := head;
    w := ViewOf(nodes);
  }

  /** The sort by content, made only for a positive index. */
  method ContentPhase(res: CoreResults, finderIdx: int16, list0: ListHead,
                      ghost v: View, ghost nodes: seq<ListHead>, ghost s0: seq<ListHead>)
    returns (list: ListHead, ghost s: seq<ListHead>, ghost w: View)
    requires IsList(list0, s0) && multiset(s0) == multiset(nodes) && v == ViewOf(nodes)
    modifies Cells(nodes)`next, Infos(nodes)`data16, res`crc
    ensures IsList(list, s) && multiset(s) == multiset(nodes)
    ensures w == ViewOf(nodes) && Kept(CmpComplex, v, w) && Infos(nodes) == old(Infos(nodes))
    ensures ContentSorted(v, w, s0, finderIdx, s)
  {
    hide Sorted, Kept, RankOf, Chain;
    if finderIdx > 0 {
      list, s, w := SortPhase(CmpComplex, res, list0, v, nodes, s0);
    } else {
      list, s, w := list0, s0, v;
      KeptRefl(CmpComplex, v);
    }
  }

  /** The benchmark leaves the same cells with the same payloads in index order, each payload with its
      data restored from the backup byte. The list comes back as it was exactly if cells with equal indices
      stand in their first order after the search and the sort by content; `stale` is what the data of the
      wanted payload holds if the search makes no round. */
  method BenchList(res: CoreResults, finderIdx: int16, stale: uint16, crc16: (uint16, uint16) -> uint16,
                   ghost v: View, ghost nodes: seq<ListHead>)
    returns (retval: uint16, ghost final: seq<ListHead>, ghost before: seq<ListHead>,
             ghost content: View, ghost after: View)
    requires res.list != null && IsList(res.list, nodes) && |nodes| >= 3 && v == ViewOf(nodes)
    modifies Cells(nodes)`next, Cells(nodes)`info, Infos(nodes)`data16, res`crc
    ensures |final| == |before| == |nodes| && IsList(final[0], final)
    ensures multiset(final) == multiset(nodes) == multiset(before)
    ensures after == ViewOf(nodes) && forall x | x in nodes :: x.info == old(x.info)
    ensures Restored(v, after) && IdxSorted(after, final)
    ensures Covers(v, nodes)
    ensures ContentSorted(v, content, SearchOf(v, nodes, finderIdx, res.seed3).list, finderIdx, before)
    ensures final == nodes <==> ComesBack(v, nodes, before)
    ensures StrictIdx(v, nodes) ==> final == nodes
    ensures Covers(content, before) && Covers(after, final)
    ensures retval == Checksum(crc16, SearchOf(v, nodes, finderIdx, res.seed3), LastData(res.seed3, stale),
                               content, before, after, final)
  {
    hide *;
    CoversOwn(nodes);
    SearchIs(v, nodes, finderIdx, res.seed3);
    var list;
    list, retval, before, content := FirstPhases(res, finderIdx, stale, crc16, v, nodes);
    retval, final, after := FinalPhase(res, list, retval, crc16, v, content, nodes, before);
    ghost var st := SearchOf(v, nodes, finderIdx, res.seed3);
    ChecksumIs(crc16, st, LastData(res.seed3, stale), content, before, after, final);
  }

  /** The search, the sort by content, and the removal with its checksum. */
  method FirstPhases(res: CoreResults, finderIdx: int16, stale: uint16, crc16: (uint16, uint16) -> uint16,
                     ghost v: View, ghost nodes: seq<ListHead>)
    returns (list: ListHead, retval: uint16, ghost before: seq<ListHead>, ghost content: View)
    requires res.list != null && IsList(res.list, nodes) && |nodes| >= 3 && v == ViewOf(nodes) && Covers(v, nodes)
    modifies Cells(nodes)`next, Cells(nodes)`info, Infos(nodes)`data16, res`crc
    ensures |before| == |nodes| && multiset(before) == multiset(nodes)
    ensures IsList(list, before) && content == ViewOf(nodes)
    ensures Infos(nodes) == old(Infos(nodes)) && forall x | x in nodes :: x.info == old(x.info)
    ensures Covers(content, before) && Kept(CmpComplex, v, content)
    ensures ContentSorted(v, content, Searched(v, nodes, finderIdx, Rounds(res.seed3)).list, finderIdx, before)
    ensures var st := Searched(v, nodes, finderIdx, Rounds(res.seed3));
            var wanted := Payload(LastData(res.seed3, stale), st.idx);
            retval == CrcTimes(crc16, content[before[0]].data16, RemovedCount(content, before, wanted), SearchSum(st))
  {
    hide *;
    var wanted;
    ghost var s;
    list, retval, wanted, s := FindPhase(res.list, res.seed3, Payload(stale, finderIdx), v, nodes);
    SameCells(nodes, s);
    list, before, content := ContentPhase(res, finderIdx, list, v, nodes, s);
    SameCells(nodes, before);
    retval := RemovePhase(list, wanted, retval, crc16, content, nodes, before);
  }

  lemma SearchIs(v: View, nodes: seq<ListHead>, finderIdx: int16, findNum: int16)
    requires Covers(v, nodes) && |nodes| >= 2
    ensures SearchOf(v, nodes, finderIdx, findNum) == Searched(v, nodes, finderIdx, Rounds(findNum))
  {
    hide Searched;
  }

  lemma ChecksumIs(crc16: (uint16, uint16) -> uint16, st: Search, data: uint16,
                   w: View, before: seq<ListHead>, v: View, final: seq<ListHead>)
    requires |before| >= 3 && Covers(w, before) && |final| >= 1 && Covers(v, final)
    ensures before[0] in w && final[0] in v
    ensures Checksum(crc16, st, data, w, before, v, final) ==
            var n := RemovedCount(w, before, Payload(data, st.idx));
            CrcTimes(crc16, v[final[0]].data16, |final| - 1, CrcTimes(crc16, w[before[0]].data16, n, SearchSum(st)))
  {
    hide CrcTimes, RemovedCount, SearchSum;
  }

  /** The sort by index, and the checksum of the list after it. */
  method FinalPhase(res: CoreResults, list0: ListHead, retval0: uint16, crc16: (uint16, uint16) -> uint16,
                    ghost v: View, ghost content: View, ghost nodes: seq<ListHead>, ghost before: seq<ListHead>)
    returns (retval: uint16, ghost final: seq<ListHead>, ghost after: View)
    requires IsList(list0, before) && multiset(before) == multiset(nodes) && |nodes| >= 2 && v.Keys == Cells(nodes)
    requires content == ViewOf(nodes) && Kept(CmpComplex, v, content)
    modifies Cells(nodes)`next, Infos(nodes)`data16, res`crc
    ensures |final| == |nodes| && IsList(final[0], final) && multiset(final) == multiset(nodes)
    ensures after == ViewOf(nodes) && Restored(v, after) && IdxSorted(after, final)
    ensures NoDup(before) && (final == nodes <==> ComesBack(v, nodes, before))
    ensures StrictIdx(v, nodes) ==> final == nodes
    ensures Covers(after, final) && retval == CrcTimes(crc16, after[final[0]].data16, |final| - 1, retval0)
  {
    hide Sorted, Kept, RankOf, IsList, NoDup, Restored, IdxSorted, StrictIdx, ViewOf, Infos, Cells, ComesBack,
        CrcTimes, Covers;
    SameCells(nodes, before);
    var list;
    list, final, after := SortPhase(CmpIdx, res, list0, content, nodes, before);
    SameCells(nodes, final);
    BenchDone(v, content, after, nodes, before, final);
    retval := CrcTail(list, retval0, crc16, after, nodes, final);
  }

  ghost function SearchOf(v: View, nodes: seq<ListHead>, finderIdx: int16, findNum: int16): (st: Search)
    requires Covers(v, nodes) && |nodes| >= 2
    ensures multiset(st.list) == multiset(nodes)
  {
    Searched(v, nodes, finderIdx, Rounds(findNum))
  }

  /** For a positive index t is s sorted by content, where w shows the contents that were computed; otherwise
      nothing happens. */
  ghost predicate ContentSorted(v: View, w: View, s: seq<ListHead>, finderIdx: int16, t: seq<ListHead>) {
    && multiset(t) == multiset(s) && NoDup(t) && NoDup(s) && Kept(CmpComplex, v, w)
    && if finderIdx > 0 then Sorted(CmpComplex, RankOf(s), w, t) else w == v && t == s
  }

  /** The sum of the search, into which the head is folded once for each cell from a wanted one on while the
      third cell is out, and then once for each cell but the head after the final sort. */
  ghost function Checksum(crc16: (uint16, uint16) -> uint16, st: Search, data: uint16,
                          w: View, before: seq<ListHead>, v: View, final: seq<ListHead>): uint16
    requires |before| >= 3 && Covers(w, before) && |final| >= 1 && Covers(v, final)
  {
    var first := CrcTimes(crc16, w[before[0]].data16, RemovedCount(w, before, Payload(data, st.idx)), SearchSum(st));
    CrcTimes(crc16, v[final[0]].data16, |final| - 1, first)
  }

  method CrcTail(list: ListHead, retval0: uint16, crc16: (uint16, uint16) -> uint16,
                 ghost v: View, ghost nodes: seq<ListHead>, ghost s: seq<ListHead>)
    returns (retval: uint16)
    requires IsList(list, s) && s != [] && v == ViewOf(nodes)
    ensures IsList(list, s) && v == ViewOf(nodes)
    ensures list == s[0] && retval == CrcTimes(crc16, list.info.data16, |s| - 1, retval0)
    ensures list in nodes ==> list in v && retval == CrcTimes(crc16, v[list].data16, |s| - 1, retval0)
  {
    assert s[0].next == At(s, 1);
    retval := CrcFrom(list, list.next, retval0, crc16, s, 1);
  }

  /** Only the indices decide on that. */
  lemma SameIdx(v: View, w: View, nodes: seq<ListHead>, before: seq<ListHead>)
    requires NoDup(before) && multiset(before) == multiset(nodes) && Covers(v, nodes) && Covers(w, nodes)
    requires forall x :: x in nodes ==> v[x].idx == w[x].idx
    ensures ComesBack(v, nodes, before) == ComesBack(w, nodes, before)
    ensures StrictIdx(v, nodes) ==> ComesBack(v, nodes, before)
  {
    SameCells(nodes, before);
    hide RankOf, NoDup;
    forall i, j | 0 <= i < j < |nodes|
      ensures IdxOrder(v, RankOf(before), nodes[i], nodes[j]) == IdxOrder(w, RankOf(before), nodes[i], nodes[j])
    {}
  }

  /** What the two sorts and the undone removal add up to. */
  lemma BenchDone(v0: View, v1: View, v2: View, nodes: seq<ListHead>, s1: seq<ListHead>, final: seq<ListHead>)
    requires NoDup(s1) && multiset(s1) == multiset(nodes) == multiset(final) && |nodes| >= 2
    requires Kept(CmpComplex, v0, v1)
    requires Kept(CmpIdx, v1, v2) && Sorted(CmpIdx, RankOf(s1), v2, final)
    requires v0.Keys == Cells(nodes)
    ensures Restored(v0, v2) && IdxSorted(v2, final)
    ensures final == nodes <==> ComesBack(v0, nodes, s1)
    ensures StrictIdx(v0, nodes) ==> final == nodes
  {
    SameCells(nodes, final);
    forall x | x in nodes ensures Settled(CmpIdx, v2[x]) {
      var i :| 0 <= i < |nodes| && nodes[i] == x;
      SettledAll(CmpIdx, RankOf(s1), v2, final, nodes, i);
    }
    forall i, j | 0 <= i < j < |final|
      ensures final[i] in v2 && final[j] in v2 && v2[final[i]].idx <= v2[final[j]].idx
    {
      assert InOrder(CmpIdx, RankOf(s1), v2, final[i], final[j]);
    }
    BackToOriginalIff(v2, nodes, s1, final);
    SameIdx(v0, v2, nodes, s1);
  }

  // ---------------------------------------------------------------- which lists always come back

  /** While the wanted index grows it counts the rounds. */
  lemma {:induction false} SearchCounts(v: View, nodes: seq<ListHead>, n: nat)
    requires Covers(v, nodes) && |nodes| >= 2 && n <= 0x7fff
    ensures Searched(v, nodes, 0, n).idx == n
  {
    hide Searched, RoundList, RoundBit, FirstFound, Covers;
    if n == 0 {
      SearchedStart(v, nodes, 0);
    } else {
      SearchCounts(v, nodes, n - 1);
      SearchedNext(v, nodes, 0, n - 1);
    }
  }

  /** The round that looks for an index of no cell reverses the list. */
  lemma MissedRound(v: View, nodes: seq<ListHead>, c: nat)
    requires Covers(v, nodes) && |nodes| >= 2 && c < 0x7fff && forall x :: x in nodes ==> v[x].idx != c
    ensures Searched(v, nodes, 0, c + 1).list == Rev(Searched(v, nodes, 0, c).list)
  {
    SearchCounts(v, nodes, c);
    SearchedNext(v, nodes, 0, c);
    hide Searched;
    var st := Searched(v, nodes, 0, c);
    SameCells(nodes, st.list);
    NoneFound(v, st.list, Payload(c % 256, c));
    hide Rev, Moved, FirstFound;
  }

  /** A list and its reverse order two cells differently. */
  lemma ReverseRanks(s: seq<ListHead>, x: ListHead, y: ListHead)
    requires NoDup(s) && x in s && y in s
    ensures NoDup(Rev(s)) && x in RankOf(s) && y in RankOf(s) && x in RankOf(Rev(s)) && y in RankOf(Rev(s))
    ensures RankOf(s)[x] < RankOf(s)[y] <==> RankOf(Rev(s))[y] < RankOf(Rev(s))[x]
  {
    RevMultiset(s);
    SamePartsNoDup(s, Rev(s));
    var i :| 0 <= i < |s| && s[i] == x;
    var j :| 0 <= j < |s| && s[j] == y;
    RevAt(s, |s| - 1 - i);
    RevAt(s, |s| - 1 - j);
    assert RankOf(Rev(s))[x] == |s| - 1 - i && RankOf(Rev(s))[y] == |s| - 1 - j;
  }

  /** The list comes back for every wanted index, number of rounds and computed content, exactly if it is in
      strict index order, provided that some index that the search can count up to belongs to no cell. */
  lemma StrictIdxIff(v: View, nodes: seq<ListHead>, unused: nat)
    requires NoDup(nodes) && Covers(v, nodes) && |nodes| >= 2
    requires unused < 0x7fff && forall x :: x in nodes ==> v[x].idx != unused
    ensures StrictIdx(v, nodes) <==>
            forall finderIdx: int16, findNum: int16, w: View, before: seq<ListHead> ::
              ContentSorted(v, w, SearchOf(v, nodes, finderIdx, findNum).list, finderIdx, before) ==>
              NoDup(before) && ComesBack(v, nodes, before)
  {
    if StrictIdx(v, nodes) {
      forall finderIdx: int16, findNum: int16, w: View, before: seq<ListHead>
        | ContentSorted(v, w, SearchOf(v, nodes, finderIdx, findNum).list, finderIdx, before)
        ensures NoDup(before) && ComesBack(v, nodes, before)
      {
        SameIdx(v, v, nodes, before);
      }
    } else {
      var i, j :| 0 <= i < j < |nodes| && v[nodes[i]].idx >= v[nodes[j]].idx;
      var findNum := TieLostBy(v, nodes, unused, i, j);
    }
  }

  /** One more round, or one less, loses the order of two cells that are not in strict order. */
  lemma TieLostBy(v: View, nodes: seq<ListHead>, c: nat, i: nat, j: nat) returns (findNum: int16)
    requires NoDup(nodes) && Covers(v, nodes) && i < j < |nodes| && v[nodes[i]].idx >= v[nodes[j]].idx
    requires c < 0x7fff && forall x :: x in nodes ==> v[x].idx != c
    ensures var before := SearchOf(v, nodes, 0, findNum).list;
            ContentSorted(v, v, before, 0, before) && !ComesBack(v, nodes, before)
  {
    MissedRound(v, nodes, c);
    var s := Searched(v, nodes, 0, c).list;
    SamePartsNoDup(nodes, s);
    SameCells(nodes, s);
    assert nodes[i] in s && nodes[j] in s;
    ReverseRanks(s, nodes[i], nodes[j]);
    KeptRefl(CmpComplex, v);
    hide Searched, Rev, RankOf, NoDup, Kept;
    if RankOf(s)[nodes[i]] < RankOf(s)[nodes[j]] {
      findNum := c + 1;
      assert !IdxOrder(v, RankOf(Rev(s)), nodes[i], nodes[j]);
    } else {
      findNum := c;
      assert !IdxOrder(v, RankOf(s), nodes[i], nodes[j]);
    }
  }

  // ---------------------------------------------------------------- lists that do not come back

  /** The index that core_list_init gives to item i of a list: the first fifth in order, then a pattern. */
  function InitIdx(i: bv16, size: bv16, seed: bv16): bv16
    requires size >= 5
  {
    if i < size / 5 then i else 0x3fff & ((((i + 1) & 0x07) << 8) | (i ^ seed))
  }

  /** With seed 3, items 4 and 7 of a list of 31 have the same index. */
  lemma IndicesCollide()
    ensures InitIdx(4, 31, 3) == InitIdx(7, 31, 3) == 4
  {
    assert (31 as bv16) / 5 == 6;
  }

  /** A round that finds nothing reverses the list. */
  lemma OneMiss(v: View, a: ListHead, b: ListHead, c: ListHead)
    requires {a, b, c} <= v.Keys && v[a].data16 % 256 == v[b].data16 % 256 == v[c].data16 % 256 == 1
    ensures Covers(v, [a, b, c]) && SearchOf(v, [a, b, c], -1, 1).list == [c, b, a]
  {
    hide Searched, FirstFound, Rev, Moved;
    var nodes, wanted := [a, b, c], Payload(0, -1);
    SearchedStart(v, nodes, -1);
    SearchedNext(v, nodes, -1, 0);
    NoneFound(v, nodes, wanted);
    RevThree(a, b, c);
  }

  lemma NoneFound(v: View, s: seq<ListHead>, wanted: Payload)
    requires Covers(v, s) && forall x :: x in s ==> !Matches(v[x], wanted)
    ensures FirstFound(v, s, wanted) == |s|
  {
    assert forall i :: 0 <= i < |s| ==> s[i] in s && !Matches(v[s[i]], wanted);
  }

  lemma RevThree(a: ListHead, b: ListHead, c: ListHead)
    ensures Rev([a, b, c]) == [c, b, a]
  {
    RevAt([a, b, c], 0);
    RevAt([a, b, c], 1);
    RevAt([a, b, c], 2);
  }

  /** After which the final sort leaves two cells with equal indices the other way round. */
  lemma TieLost(v: View, a: ListHead, b: ListHead, c: ListHead)
    requires a != b && b != c && a != c && {a, b, c} <= v.Keys && v[a].idx == v[b].idx
    ensures NoDup([c, b, a]) && !ComesBack(v, [a, b, c], [c, b, a])
  {
    var nodes, before := [a, b, c], [c, b, a];
    assert RankOf(before)[before[1]] == 1 && RankOf(before)[before[2]] == 2;
    assert !IdxOrder(v, RankOf(before), nodes[0], nodes[1]);
  }

  method NewCell(idx: int16) returns (cell: ListHead)
    ensures fresh(cell) && fresh(cell.info) && cell.next == null && cell.info.Value() == Payload(0x101, idx)
  {
    var info := new ListData(0x101, idx);
    cell := new ListHead(info);
  }

  /** The benchmark with one round and a negative index does not give such a list back. */
  method TieRun(res: CoreResults, crc16: (uint16, uint16) -> uint16,
                ghost v: View, ghost a: ListHead, ghost b: ListHead, ghost c: ListHead)
    returns (ghost final: seq<ListHead>)
    requires res.seed3 == 1 && res.list != null && IsList(res.list, [a, b, c]) && v == ViewOf([a, b, c])
    requires a != b && b != c && a != c && {a, b, c} <= v.Keys && v[a].idx == v[b].idx
    requires v[a].data16 % 256 == v[b].data16 % 256 == v[c].data16 % 256 == 1
    modifies Cells([a, b, c])`next, Cells([a, b, c])`info, Infos([a, b, c])`data16, res`crc
    ensures final != [] && IsList(final[0], final) && multiset(final) == multiset([a, b, c]) && final != [a, b, c]
  {
    hide *;
    OneMiss(v, a, b, c);
    TieLost(v, a, b, c);
    var retval;
    ghost var before, content, after;
    retval, final, before, content, after := BenchList(res, -1, 0, crc16, v, [a, b, c]);
    NotSorted(v, content, [c, b, a], -1, before);
  }

  lemma NotSorted(v: View, w: View, s: seq<ListHead>, finderIdx: int16, t: seq<ListHead>)
    requires finderIdx <= 0 && ContentSorted(v, w, s, finderIdx, t)
    ensures t == s
  {}

  /** A list of three cells, two of them with index 0, that the benchmark does not give back. */
  method EqualIndicesSwap(res: CoreResults, crc16: (uint16, uint16) -> uint16)
    returns (ghost nodes: seq<ListHead>, ghost v: View, ghost final: seq<ListHead>)
    requires res.seed3 == 1
    modifies res
    ensures |nodes| == 3 && Covers(v, nodes) && v[nodes[0]].idx == v[nodes[1]].idx == 0 && v[nodes[2]].idx == 1
    ensures final != [] && IsList(final[0], final) && multiset(final) == multiset(nodes) && final != nodes
  {
    var a := NewCell(0);
    var b := NewCell(0);
    var c := NewCell(1);
    a.next, b.next := b, c;
    res.list := a;
    nodes := [a, b, c];
    v := ViewOf(nodes);
    final := TieRun(res, crc16, v, a, b, c);
  }

  /** A payload whose two bytes were equal before the run has exactly its old value after it. */
  lemma RestoredExactly(v: View, w: View, x: ListHead)
    requires Restored(v, w) && x in v && Settled(CmpIdx, v[x])
    ensures w[x] == v[x]
  {}
}
