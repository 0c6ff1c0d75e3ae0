/** The linked list benchmark of core_list_join.c: cells linked through `next`, each pointing
    to a payload, relinked in place by a bottom-up merge sort, a reversal and a remove/undo pair. */
module CoreList {

  /** A 16-bit signed integer, and 16 bits read as an unsigned number (`d / 256` is the upper byte,
      `d % 256` the lower one). */
  type int16 = x: int | -0x8000 <= x < 0x8000
  type uint16 = x: int | 0 <= x < 0x10000

  /** The value of a payload: 16 bits of data (upper byte = backup of the original lower byte)
      and the index that records the initial order. */
  datatype Payload = Payload(data16: uint16, idx: int16)

  class ListData {
    var data16: uint16
    var idx: int16

    constructor (data16: uint16, idx: int16)
      ensures Value() == Payload(data16, idx)
    {
      this.data16, this.idx := data16, idx;
    }

    function Value(): Payload
      reads this
    {
      Payload(data16, idx)
    }
  }

  class ListHead {
    var next: ListHead?
    var info: ListData

    constructor (info: ListData)
      ensures this.info == info && next == null
    {
      this.info := info;
      next := null;
    }
  }

  /** The part of core_results that the list benchmark touches. The two workloads and the CRC step
      are parameters: any functions of the data they are given. */
  class CoreResults {
    var list: ListHead?
    var crc: uint16
    const seed3: int16
    const benchState: (uint16, uint16) -> uint16
    const benchMatrix: (uint16, uint16) -> uint16
    const crcStep: (uint16, uint16) -> uint16

    constructor (seed3: int16, benchState: (uint16, uint16) -> uint16, benchMatrix: (uint16, uint16) -> uint16,
                 crcStep: (uint16, uint16) -> uint16)
    {
      list, crc := null, 0;
      this.seed3, this.benchState, this.benchMatrix, this.crcStep := seed3, benchState, benchMatrix, crcStep;
    }
  }

  // ---------------------------------------------------------------- comparison functions

  /** The comparison handed to the sort: by (cached) computed content, by index with the data
      restored, or by any side-effect-free ranking, which is what a total preorder on payloads is. */
  datatype Comparison = CmpComplex | CmpIdx | CmpRank(rank: Payload -> int)

  /** True once a comparison has brought the payload into the state later comparisons leave alone. */
  predicate Settled(c: Comparison, v: Payload) {
    match c
    case CmpComplex => v.data16 / 128 % 2 == 1
    case CmpIdx => v.data16 % 256 == v.data16 / 256
    case CmpRank(_) => true
  }

  function Key(c: Comparison, v: Payload): int {
    match c
    case CmpComplex => v.data16 % 128
    case CmpIdx => v.idx
    case CmpRank(rank) => rank(v)
  }

  /** What no comparison changes: the index and the backup byte. */
  predicate SameOrigin(v: Payload, w: Payload) {
    v.idx == w.idx && v.data16 / 256 == w.data16 / 256
  }

  /** The lower byte becomes the computed 7 bits with bit 7 as the mark that they are cached. */
  function CacheResult(data: uint16, retval: uint16): (r: uint16)
    ensures r / 256 == data / 256 && r / 128 % 2 == 1 && r % 128 == retval % 128
  {
    data / 256 * 256 + 128 + retval % 128
  }

  /** The value of a payload that is not cached: the low seven bits of what the workload of its bits 0 to 2 gives for
      bits 3 to 6, repeated in both halves of a byte, or of the payload itself. All of it goes into the checksum. */
  predicate Computed(res: CoreResults, was: uint16, crc: uint16, retval: uint16, crc': uint16) {
    var dtype := was / 8 % 16 * 16 + was / 8 % 16;
    var result :=
      if was % 8 == 0 then (res.benchState)(if dtype < 0x22 then 0x22 else dtype, crc)
      else if was % 8 == 1 then (res.benchMatrix)(dtype, crc) else was;
    retval == result % 128 && crc' == (res.crcStep)(result, crc)
  }

  method CalcFunc(d: ListData, res: CoreResults) returns (retval: uint16)
    modifies d`data16, res`crc
    ensures old(Settled(CmpComplex, d.Value())) ==> d.data16 == old(d.data16) && res.crc == old(res.crc)
    ensures Settled(CmpComplex, d.Value()) && SameOrigin(old(d.Value()), d.Value())
    ensures retval == Key(CmpComplex, d.Value())
    ensures old(d.data16) / 128 % 2 == 0 ==> Computed(res, old(d.data16), old(res.crc), retval, res.crc)
  {
    var data := d.data16;
    if data / 128 % 2 == 1 {
      return data % 128;
    }
    var flag := data % 8;
    var dtype: uint16 := data / 8 % 16 * 17;
    if flag == 0 {
      if dtype < 0x22 {
        dtype := 0x22;
      }
      retval := (res.benchState)(dtype, res.crc);
    } else if flag == 1 {
      retval := (res.benchMatrix)(dtype, res.crc);
    } else {
      retval := data;
    }
    res.crc := (res.crcStep)(retval, res.crc);
    d.data16 := CacheResult(data, retval);
    retval := retval % 128;
  }

  /** cmp_complex and cmp_idx (with the data restored). */
  method CompareComplex(a: ListData, b: ListData, res: CoreResults) returns (r: int)
    modifies a`data16, b`data16, res`crc
    ensures Settled(CmpComplex, a.Value()) && Settled(CmpComplex, b.Value())
    ensures r == Key(CmpComplex, a.Value()) - Key(CmpComplex, b.Value())
    ensures Compared(CmpComplex, old(a.Value()), a.Value()) && Compared(CmpComplex, old(b.Value()), b.Value())
  {
    hide Computed;
    var val1: int := CalcFunc(a, res);
    var val2: int := CalcFunc(b, res);
    r := val1 - val2;
  }

  method CompareIdx(a: ListData, b: ListData) returns (r: int)
    modifies a`data16, b`data16
    ensures Settled(CmpIdx, a.Value()) && Settled(CmpIdx, b.Value())
    ensures r == Key(CmpIdx, a.Value()) - Key(CmpIdx, b.Value())
    ensures Compared(CmpIdx, old(a.Value()), a.Value()) && Compared(CmpIdx, old(b.Value()), b.Value())
  {
    a.data16 := a.data16 / 256 * 256 + a.data16 / 256;
    b.data16 := b.data16 / 256 * 256 + b.data16 / 256;
    r := a.idx - b.idx;
  }

  /** What a comparison leaves of a payload. */
  predicate Compared(c: Comparison, v: Payload, w: Payload) {
    SameOrigin(v, w) && (Settled(c, v) ==> w == v)
  }

  method Compare(c: Comparison, a: ListData, b: ListData, res: CoreResults) returns (r: int)
    modifies a`data16, b`data16, res`crc
    ensures Settled(c, a.Value()) && Settled(c, b.Value())
    ensures r == Key(c, a.Value()) - Key(c, b.Value())
    ensures forall d: ListData | d == a || d == b ::
              && SameOrigin(old(d.Value()), d.Value())
              && (old(Settled(c, d.Value())) ==> d.Value() == old(d.Value()))
    ensures !c.CmpComplex? ==> res.crc == old(res.crc)
  {
    match c {
      case CmpComplex =>
        r := CompareComplex(a, b, res);
      case CmpIdx =>
        r := CompareIdx(a, b);
      case CmpRank(rank) =>
        r := rank(a.Value()) - rank(b.Value());
    }
  }

  // ---------------------------------------------------------------- lists as sequences of cells

  ghost predicate NoDup<T>(s: seq<T>) {
    forall i, j :: 0 <= i < j < |s| ==> s[i] != s[j]
  }

  ghost predicate Disjoint<T>(xs: seq<T>, ys: seq<T>) {
    forall x :: x in xs ==> x !in ys
  }

  ghost predicate Within<T>(xs: seq<T>, ys: seq<T>) {
    forall x :: x in xs ==> x in ys
  }

  ghost function Cells(s: seq<ListHead>): set<ListHead> {
    set x | x in s
  }

  /** The cell at position i, null past the end. */
  ghost function At(s: seq<ListHead>, i: nat): ListHead? {
    if i < |s| then s[i] else null
  }

  /** Each cell of s points to the following one; the last one may point anywhere. */
  ghost predicate Linked(s: seq<ListHead>)
    reads s`next
  {
    forall i {:trigger s[i].next} :: 0 <= i < |s| - 1 ==> s[i].next == s[i + 1]
  }

  /** `head` is the first cell of a null-terminated chain with exactly the cells s. */
  ghost predicate Chain(head: ListHead?, s: seq<ListHead>)
    reads s`next
  {
    && head == At(s, 0)
    && forall i {:trigger s[i].next} :: 0 <= i < |s| ==> s[i].next == At(s, i + 1)
  }

  /** The same, and no cell occurs twice: an acyclic list. */
  ghost predicate IsList(head: ListHead?, s: seq<ListHead>)
    reads s`next
  {
    NoDup(s) && Chain(head, s)
  }

  /** A list under construction: first and last cell of s, the last one not yet terminated. */
  ghost predicate Built(list: ListHead?, tail: ListHead?, s: seq<ListHead>)
    reads s`next
  {
    && Linked(s)
    && list == At(s, 0)
    && tail == (if s == [] then null else s[|s| - 1])
  }

  lemma {:induction false} RestChain(head: ListHead?, s: seq<ListHead>)
    requires Chain(head, s) && s != []
    ensures Chain(s[0].next, s[1..])
  {
    var t := s[1..];
    forall i {:trigger t[i].next} | 0 <= i < |t| ensures t[i].next == At(t, i + 1) {
      assert s[i + 1].next == At(s, i + 2);
    }
    assert s[0].next == At(s, 1);
  }

  lemma RestLinked(s: seq<ListHead>)
    requires Linked(s) && s != []
    ensures Linked(s[1..])
    ensures |s| > 1 ==> s[0].next == s[1..][0]
  {
    var t := s[1..];
    forall i {:trigger t[i].next} | 0 <= i < |t| - 1 ensures t[i].next == t[i + 1] {
      assert s[i + 1].next == s[i + 2];
    }
  }

  /** The cells already output, the rest of the first run, and all that follows it. */
  ghost predicate Apart(out: seq<ListHead>, a: seq<ListHead>, r: seq<ListHead>) {
    && NoDup(out) && NoDup(a) && NoDup(r)
    && Disjoint(out, a) && Disjoint(out, r) && Disjoint(a, r)
  }

  lemma ApartTakeA(out: seq<ListHead>, a: seq<ListHead>, r: seq<ListHead>)
    requires Apart(out, a, r) && a != []
    ensures Apart(out + [a[0]], a[1..], r) && a[0] !in out
  {
    assert a[0] in a;
  }

  lemma ApartTakeB(out: seq<ListHead>, a: seq<ListHead>, r: seq<ListHead>)
    requires Apart(out, a, r) && r != []
    ensures Apart(out + [r[0]], a, r[1..]) && r[0] !in out
  {
    assert r[0] in r;
    assert Disjoint(a, r[1..]);
  }

  // ---------------------------------------------------------------- order

  /** The payload values of the cells of a list, and the places cells had when the sort began. */
  type View = map<ListHead, Payload>
  type Rank = map<ListHead, nat>

  ghost function ViewOf(s: seq<ListHead>): View
    reads s`info, Infos(s)
  {
    map x | x in s :: x.info.Value()
  }

  ghost function Infos(s: seq<ListHead>): set<ListData>
    reads s`info
  {
    set x | x in s :: x.info
  }

  /** x before y: smaller key, or the same key and an earlier place in the list given to the sort. */
  ghost predicate InOrder(c: Comparison, rank: Rank, v: View, x: ListHead, y: ListHead) {
    && x in rank && y in rank && x in v && y in v
    && Settled(c, v[x]) && Settled(c, v[y])
    && (Key(c, v[x]) < Key(c, v[y]) || (Key(c, v[x]) == Key(c, v[y]) && rank[x] < rank[y]))
  }

  ghost predicate Sorted(c: Comparison, rank: Rank, v: View, s: seq<ListHead>) {
    forall i, j :: 0 <= i < j < |s| ==> InOrder(c, rank, v, s[i], s[j])
  }

  ghost predicate AllInOrder(c: Comparison, rank: Rank, v: View, xs: seq<ListHead>, ys: seq<ListHead>) {
    forall x, y | x in xs && y in ys :: InOrder(c, rank, v, x, y)
  }

  ghost predicate Earlier(rank: Rank, xs: seq<ListHead>, ys: seq<ListHead>) {
    forall x, y | x in xs && y in ys :: x in rank && y in rank && rank[x] < rank[y]
  }

  /** Every payload kept its origin, and was left alone once settled. */
  ghost predicate Kept(c: Comparison, v: View, w: View) {
    && v.Keys == w.Keys
    && forall x | x in v :: SameOrigin(v[x], w[x]) && (Settled(c, v[x]) ==> w[x] == v[x])
  }

  /** Halfway through a merge: m has been output, a and b remain. */
  ghost predicate Merging(c: Comparison, rank: Rank, v: View,
                          m: seq<ListHead>, a: seq<ListHead>, b: seq<ListHead>) {
    && Sorted(c, rank, v, m) && Sorted(c, rank, v, a) && Sorted(c, rank, v, b)
    && AllInOrder(c, rank, v, m, a) && AllInOrder(c, rank, v, m, b)
    && Earlier(rank, a, b)
  }

  lemma KeptSorted(c: Comparison, rank: Rank, v: View, w: View, s: seq<ListHead>)
    requires Kept(c, v, w) && Sorted(c, rank, v, s)
    ensures Sorted(c, rank, w, s)
  {
    forall i, j | 0 <= i < j < |s| ensures InOrder(c, rank, w, s[i], s[j]) {
      assert InOrder(c, rank, v, s[i], s[j]);
    }
  }

  lemma KeptMerging(c: Comparison, rank: Rank, v: View, w: View,
                    m: seq<ListHead>, a: seq<ListHead>, b: seq<ListHead>)
    requires Kept(c, v, w) && Merging(c, rank, v, m, a, b)
    ensures Merging(c, rank, w, m, a, b)
  {
    KeptSorted(c, rank, v, w, m); KeptSorted(c, rank, v, w, a); KeptSorted(c, rank, v, w, b);
    forall x, y | x in m && (y in a || y in b) ensures InOrder(c, rank, w, x, y) {
      assert InOrder(c, rank, v, x, y);
    }
  }

  lemma InOrderTrans(c: Comparison, rank: Rank, v: View, x: ListHead, y: ListHead, z: ListHead)
    requires InOrder(c, rank, v, x, y) && InOrder(c, rank, v, y, z)
    ensures InOrder(c, rank, v, x, z)
  {}

  /** Outputting the first cell of a keeps a merge going, if it comes before what is left of b. */
  lemma TakeA(c: Comparison, rank: Rank, v: View, m: seq<ListHead>, a: seq<ListHead>, b: seq<ListHead>)
    requires Merging(c, rank, v, m, a, b) && a != []
    requires b != [] ==> InOrder(c, rank, v, a[0], b[0])
    ensures Merging(c, rank, v, m + [a[0]], a[1..], b)
  {
    forall y | y in b ensures InOrder(c, rank, v, a[0], y) {
      var j :| 0 <= j < |b| && b[j] == y;
      if j > 0 { InOrderTrans(c, rank, v, a[0], b[0], b[j]); }
    }
  }

  lemma TakeB(c: Comparison, rank: Rank, v: View, m: seq<ListHead>, a: seq<ListHead>, b: seq<ListHead>)
    requires Merging(c, rank, v, m, a, b) && b != []
    requires a != [] ==> InOrder(c, rank, v, b[0], a[0])
    ensures Merging(c, rank, v, m + [b[0]], a, b[1..])
  {
    forall y | y in a ensures InOrder(c, rank, v, b[0], y) {
      var j :| 0 <= j < |a| && a[j] == y;
      if j > 0 { InOrderTrans(c, rank, v, b[0], a[0], a[j]); }
    }
  }

  // ---------------------------------------------------------------- merging

  /** The comparison of the two front cells: it may change their payloads, but only in a way that
      leaves the merge in order. */
  method PickFront(c: Comparison, res: CoreResults, p: ListHead, q: ListHead,
                   ghost rank: Rank, ghost nodes: seq<ListHead>,
                   ghost m: seq<ListHead>, ghost a: seq<ListHead>, ghost b: seq<ListHead>)
    returns (fromP: bool)
    requires Merging(c, rank, ViewOf(nodes), m, a, b)
    requires a != [] && b != [] && p == a[0] && q == b[0] && p in nodes && q in nodes
    modifies {p.info, q.info}`data16, res`crc
    ensures Kept(c, old(ViewOf(nodes)), ViewOf(nodes))
    ensures Merging(c, rank, ViewOf(nodes), m, a, b)
    ensures if fromP then InOrder(c, rank, ViewOf(nodes), p, q) else InOrder(c, rank, ViewOf(nodes), q, p)
  {
    var d := Compare(c, p.info, q.info, res);
    fromP := d <= 0;
    KeptMerging(c, rank, old(ViewOf(nodes)), ViewOf(nodes), m, a, b);
    assert p in a && q in b;
  }

  lemma KeptRefl(c: Comparison, v: View)
    ensures Kept(c, v, v)
  {}

  lemma KeptTrans(c: Comparison, u: View, v: View, w: View)
    requires Kept(c, u, v) && Kept(c, v, w)
    ensures Kept(c, u, w)
  {}

  lemma FrontOfConcat<T>(b: seq<T>, rest: seq<T>)
    requires b != []
    ensures (b + rest)[0] == b[0] && (b + rest)[1..] == b[1..] + rest
  {}

  /** What a merge has done and what it has left: the merged cells m follow out, the rest of the first
      run is a, the rest of the second is b, and `rest` follows that. */
  datatype Runs = Runs(out: seq<ListHead>, m: seq<ListHead>, a: seq<ListHead>, b: seq<ListHead>, rest: seq<ListHead>)

  ghost predicate MergeState(c: Comparison, rank: Rank, v: View, nodes: seq<ListHead>, g: Runs) {
    && Merging(c, rank, v, g.m, g.a, g.b)
    && Apart(g.out + g.m, g.a, g.b + g.rest)
    && Within(g.out + g.m, nodes) && Within(g.a, nodes) && Within(g.b, nodes)
  }

  /** The pointers and counters the merge still relies on. */
  ghost predicate Waiting(p: ListHead?, q: ListHead?, psize: nat, qsize: nat, g: Runs)
    reads g.a`next, g.b`next, g.rest`next
  {
    && (g.a != [] ==> p == g.a[0]) && Linked(g.a) && Chain(q, g.b + g.rest)
    && psize == |g.a| && (|g.b| == qsize || (|g.b| < qsize && g.rest == []))
  }

  ghost predicate Conserved(g: Runs, h: Runs) {
    && h.out == g.out && h.rest == g.rest
    && multiset(h.m) + multiset(h.a) + multiset(h.b) == multiset(g.m) + multiset(g.a) + multiset(g.b)
  }

  /** The second run is used up exactly when its count is, or the list is. */
  lemma RunLeft(q: ListHead?, b: seq<ListHead>, rest: seq<ListHead>, qsize: nat)
    requires Chain(q, b + rest)
    requires |b| == qsize || (|b| < qsize && rest == [])
    ensures b == [] <==> qsize == 0 || q == null
    ensures b == [] ==> b + rest == rest
    ensures b != [] ==> q == b[0]
  {
    if b != [] { assert (b + rest)[0] == b[0]; }
  }

  /** Decide which run the next cell of the merged list comes from. */
  method ChooseRun(c: Comparison, res: CoreResults, p: ListHead?, q: ListHead?, psize: nat, qsize: nat,
                   ghost list: ListHead?, ghost tail: ListHead?,
                   ghost rank: Rank, ghost nodes: seq<ListHead>, ghost g: Runs)
    returns (fromP: bool, ghost v: View)
    requires MergeState(c, rank, ViewOf(nodes), nodes, g) && Waiting(p, q, psize, qsize, g)
    requires Built(list, tail, g.out + g.m)
    requires psize > 0 || (qsize > 0 && q != null)
    modifies Infos(nodes)`data16, res`crc
    ensures v == ViewOf(nodes) && Kept(c, old(ViewOf(nodes)), v) && Infos(nodes) == old(Infos(nodes))
    ensures MergeState(c, rank, v, nodes, g) && Waiting(p, q, psize, qsize, g)
    ensures Built(list, tail, g.out + g.m)
    ensures if fromP then g.a != [] && (g.b != [] ==> InOrder(c, rank, v, g.a[0], g.b[0]))
            else g.b != [] && (g.a != [] ==> InOrder(c, rank, v, g.b[0], g.a[0]))
  {
    hide Apart, Merging, InOrder, Linked, NoDup;
    RunLeft(q, g.b, g.rest, qsize);
    if psize == 0 {
      fromP := false;
    } else if qsize == 0 || q == null {
      fromP := true;
    } else {
      assert p in nodes && p.info in Infos(nodes);
      assert q in nodes && q.info in Infos(nodes);
      fromP := PickFront(c, res, p, q, rank, nodes, g.m, g.a, g.b);
    }
    v := ViewOf(nodes);
  }

  /** Put e, just taken off the front of one of the two runs, at the end of the merged list. */
  method AppendCell(list0: ListHead?, tail0: ListHead?, e: ListHead, ghost p: ListHead?, ghost q: ListHead?,
                    ghost psize: nat, ghost qsize: nat,
                    ghost nodes: seq<ListHead>, ghost v: View, ghost done: seq<ListHead>, ghost h: Runs)
    returns (list: ListHead?, tail: ListHead)
    requires Built(list0, tail0, done) && Within(done, nodes) && NoDup(done + [e]) && v == ViewOf(nodes)
    requires Waiting(p, q, psize, qsize, h) && Disjoint(done, h.a) && Disjoint(done, h.b + h.rest)
    modifies Cells(nodes)`next
    ensures Built(list, tail, done + [e]) && Waiting(p, q, psize, qsize, h)
    ensures v == ViewOf(nodes) && Infos(nodes) == old(Infos(nodes))
  {
    list := list0;
    if tail0 != null {
      assert tail0 in done && tail0 == (done + [e])[|done| - 1];
      assert forall x | x in h.a || x in h.b + h.rest :: x !in done;
      assert forall i | 0 <= i < |done| - 1 :: (done + [e])[i] == done[i];
      tail0.next := e;
    } else {
      list := e;
    }
    tail := e;
  }

  lemma StateTakeA(c: Comparison, rank: Rank, v: View, nodes: seq<ListHead>, g: Runs, h: Runs)
    requires MergeState(c, rank, v, nodes, g)
    requires g.a != [] && (g.b != [] ==> InOrder(c, rank, v, g.a[0], g.b[0]))
    requires h == g.(a := g.a[1..], m := g.m + [g.a[0]])
    ensures MergeState(c, rank, v, nodes, h) && Conserved(g, h)
    ensures (g.out + g.m) + [g.a[0]] == h.out + h.m
  {
    TakeA(c, rank, v, g.m, g.a, g.b);
    ApartTakeA(g.out + g.m, g.a, g.b + g.rest);
    assert (g.out + g.m) + [g.a[0]] == h.out + h.m;
    assert g.a == [g.a[0]] + h.a;
  }

  lemma StateTakeB(c: Comparison, rank: Rank, v: View, nodes: seq<ListHead>, g: Runs, h: Runs)
    requires MergeState(c, rank, v, nodes, g)
    requires g.b != [] && (g.a != [] ==> InOrder(c, rank, v, g.b[0], g.a[0]))
    requires h == g.(b := g.b[1..], m := g.m + [g.b[0]])
    ensures MergeState(c, rank, v, nodes, h) && Conserved(g, h)
    ensures (g.out + g.m) + [g.b[0]] == h.out + h.m
  {
    TakeB(c, rank, v, g.m, g.a, g.b);
    FrontOfConcat(g.b, g.rest);
    ApartTakeB(g.out + g.m, g.a, g.b + g.rest);
    assert (g.out + g.m) + [g.b[0]] == h.out + h.m;
    assert g.b == [g.b[0]] + h.b;
  }

  lemma ApartPrefix(xs: seq<ListHead>, e: ListHead, a: seq<ListHead>, r: seq<ListHead>)
    requires Apart(xs + [e], a, r)
    ensures Disjoint(xs, a) && Disjoint(xs, r)
  {
    assert forall x :: x in xs ==> x in xs + [e];
  }

  /** Take the front cell off one of the two runs. */
  method TakeFront(c: Comparison, fromP: bool, p0: ListHead?, q0: ListHead?, psize0: nat, qsize0: nat,
                   ghost rank: Rank, ghost v: View, ghost nodes: seq<ListHead>, ghost g: Runs)
    returns (e: ListHead, p: ListHead?, q: ListHead?, psize: nat, qsize: nat, ghost h: Runs)
    requires MergeState(c, rank, v, nodes, g) && Waiting(p0, q0, psize0, qsize0, g)
    requires if fromP then g.a != [] && (g.b != [] ==> InOrder(c, rank, v, g.a[0], g.b[0]))
             else g.b != [] && (g.a != [] ==> InOrder(c, rank, v, g.b[0], g.a[0]))
    ensures MergeState(c, rank, v, nodes, h) && Waiting(p, q, psize, qsize, h) && Conserved(g, h)
    ensures (g.out + g.m) + [e] == h.out + h.m && NoDup((g.out + g.m) + [e]) && |h.a| + |h.b| < |g.a| + |g.b|
    ensures Disjoint(g.out + g.m, h.a) && Disjoint(g.out + g.m, h.b + h.rest)
  {
    p, q, psize, qsize := p0, q0, psize0, qsize0;
    if fromP {
      h := g.(a := g.a[1..], m := g.m + [g.a[0]]);
      StateTakeA(c, rank, v, nodes, g, h);
      RestLinked(g.a);
      e := p; p := p.next; psize := psize - 1;
    } else {
      h := g.(b := g.b[1..], m := g.m + [g.b[0]]);
      StateTakeB(c, rank, v, nodes, g, h);
      RunLeft(q, g.b, g.rest, qsize);
      FrontOfConcat(g.b, g.rest);
      RestChain(q, g.b + g.rest);
      e := q; q := q.next; qsize := qsize - 1;
    }
    ApartPrefix(g.out + g.m, e, h.a, h.b + h.rest);
  }

  /** One turn of the merging loop. */
  method MergeStep(c: Comparison, res: CoreResults, p0: ListHead?, q0: ListHead?, psize0: nat, qsize0: nat,
                   list0: ListHead?, tail0: ListHead?, ghost rank: Rank, ghost nodes: seq<ListHead>, ghost g: Runs)
    returns (p: ListHead?, q: ListHead?, psize: nat, qsize: nat, list: ListHead?, tail: ListHead?,
             ghost h: Runs, ghost v: View)
    requires MergeState(c, rank, ViewOf(nodes), nodes, g) && Waiting(p0, q0, psize0, qsize0, g)
    requires Built(list0, tail0, g.out + g.m)
    requires psize0 > 0 || (qsize0 > 0 && q0 != null)
    modifies Cells(nodes)`next, Infos(nodes)`data16, res`crc
    ensures MergeState(c, rank, v, nodes, h) && Waiting(p, q, psize, qsize, h) && Conserved(g, h)
    ensures Built(list, tail, h.out + h.m) && |h.a| + |h.b| < |g.a| + |g.b|
    ensures v == ViewOf(nodes) && Kept(c, old(ViewOf(nodes)), v) && Infos(nodes) == old(Infos(nodes))
  {
    var fromP;
    fromP, v := ChooseRun(c, res, p0, q0, psize0, qsize0, list0, tail0, rank, nodes, g);
    var e: ListHead;
    e, p, q, psize, qsize, h := TakeFront(c, fromP, p0, q0, psize0, qsize0, rank, v, nodes, g);
    ghost var done := g.out + g.m;
    list, tail := AppendCell(list0, tail0, e, p, q, psize, qsize, nodes, v, done, h);
  }

  /** Merge the runs g.a and g.b, of which g.b is followed by g.rest in the list, onto the end of g.out. */
  method MergeRuns(c: Comparison, res: CoreResults, p0: ListHead, q0: ListHead?, psize0: nat, insize: nat,
                   list0: ListHead?, tail0: ListHead?, ghost rank: Rank, ghost v0: View,
                    ghost nodes: seq<ListHead>, ghost g: Runs)
    returns (list: ListHead?, tail: ListHead?, q: ListHead?, ghost h: Runs, ghost v: View)
    requires g.m == [] && Built(list0, tail0, g.out)
    requires v0 == ViewOf(nodes) && MergeState(c, rank, v0, nodes, g) && Waiting(p0, q0, psize0, insize, g)
    modifies Cells(nodes)`next, Infos(nodes)`data16, res`crc
    ensures Sorted(c, rank, v, h.m) && multiset(h.m) == multiset(g.a) + multiset(g.b)
    ensures Built(list, tail, g.out + h.m) && Chain(q, g.rest)
    ensures v == ViewOf(nodes) && Kept(c, v0, v) && Infos(nodes) == old(Infos(nodes))
  {
    var p: ListHead? := p0;
    q := q0;
    list, tail := list0, tail0;
    var psize: nat, qsize: nat := psize0, insize;
    h := g;
    v := v0;
    assert g.out + g.m == g.out;
    while psize > 0 || (qsize > 0 && q != null)
      invariant v == ViewOf(nodes) && Infos(nodes) == old(Infos(nodes)) && Kept(c, v0, v)
      invariant MergeState(c, rank, v, nodes, h) && Waiting(p, q, psize, qsize, h) && Conserved(g, h)
      invariant Built(list, tail, h.out + h.m)
      decreases |h.a| + |h.b|
    {
      ghost var u := v;
      p, q, psize, qsize, list, tail, h, v := MergeStep(c, res, p, q, psize, qsize, list, tail, rank, nodes, h);
      KeptTrans(c, v0, u, v);
    }
    RunLeft(q, h.b, h.rest, qsize);
    MergeDone(g, h);
  }

  lemma MergeDone(g: Runs, h: Runs)
    requires Conserved(g, h) && g.m == h.a == h.b == []
    ensures multiset(h.m) == multiset(g.a) + multiset(g.b)
  {
    forall x ensures multiset(h.m)[x] == (multiset(g.a) + multiset(g.b))[x] {
      assert (multiset(h.m) + multiset(h.a) + multiset(h.b))[x] == (multiset(g.m) + multiset(g.a) + multiset(g.b))[x];
    }
  }

  // ---------------------------------------------------------------- one pass of the sort

  ghost function Flat(runs: seq<seq<ListHead>>): seq<ListHead> {
    if runs == [] then [] else runs[0] + Flat(runs[1..])
  }

  lemma {:induction false} FlatSnoc(runs: seq<seq<ListHead>>, m: seq<ListHead>)
    ensures Flat(runs + [m]) == Flat(runs) + m
  {
    if runs == [] {
      assert Flat([m]) == m + Flat([m][1..]) == m;
    } else {
      FlatSnoc(runs[1..], m);
      assert (runs + [m])[1..] == runs[1..] + [m];
    }
  }

  /** All runs hold insize cells, except that the last one may be shorter; none is empty. */
  ghost predicate Shaped(runs: seq<seq<ListHead>>, insize: nat) {
    forall k {:trigger runs[k]} :: 0 <= k < |runs| ==>
      0 < |runs[k]| <= insize && (k < |runs| - 1 ==> |runs[k]| == insize)
  }

  /** Each run is sorted, and the cells of a run all came before those of later runs. */
  ghost predicate RunsSorted(c: Comparison, rank: Rank, v: View, runs: seq<seq<ListHead>>) {
    && (forall k :: 0 <= k < |runs| ==> Sorted(c, rank, v, runs[k]))
    && (forall k, l :: 0 <= k < l < |runs| ==> Earlier(rank, runs[k], runs[l]))
  }

  lemma KeptRunsSorted(c: Comparison, rank: Rank, v: View, w: View, runs: seq<seq<ListHead>>)
    requires Kept(c, v, w) && RunsSorted(c, rank, v, runs)
    ensures RunsSorted(c, rank, w, runs)
  {
    forall k | 0 <= k < |runs| ensures Sorted(c, rank, w, runs[k]) {
      KeptSorted(c, rank, v, w, runs[k]);
    }
  }

  /** The first two runs still to be merged, the second one possibly missing. */
  ghost function FirstRun(todo: seq<seq<ListHead>>): seq<ListHead> { if todo == [] then [] else todo[0] }
  ghost function SecondRun(todo: seq<seq<ListHead>>): seq<ListHead> { if |todo| < 2 then [] else todo[1] }
  ghost function LaterRuns(todo: seq<seq<ListHead>>): seq<seq<ListHead>> { if |todo| < 2 then [] else todo[2..] }

  lemma FlatSplit(todo: seq<seq<ListHead>>)
    ensures Flat(todo) == FirstRun(todo) + (SecondRun(todo) + Flat(LaterRuns(todo)))
  {
    if |todo| >= 2 {
      assert todo[1..][1..] == todo[2..];
    }
  }

  ghost predicate RunsEarlier(rank: Rank, done: seq<seq<ListHead>>, todo: seq<seq<ListHead>>) {
    forall k, l :: 0 <= k < |done| && 0 <= l < |todo| ==> Earlier(rank, done[k], todo[l])
  }

  /** Replacing the first two runs still to merge by their merge keeps all runs in order. */
  lemma MergedRunsSorted(c: Comparison, rank: Rank, v: View, done: seq<seq<ListHead>>, todo: seq<seq<ListHead>>,
                         m: seq<ListHead>)
    requires RunsSorted(c, rank, v, done) && RunsSorted(c, rank, v, todo) && RunsEarlier(rank, done, todo)
    requires todo != [] && Sorted(c, rank, v, m)
    requires multiset(m) == multiset(FirstRun(todo)) + multiset(SecondRun(todo))
    ensures RunsSorted(c, rank, v, done + [m]) && RunsSorted(c, rank, v, LaterRuns(todo))
    ensures RunsEarlier(rank, done + [m], LaterRuns(todo))
  {
    hide Sorted, Earlier;
    var later := LaterRuns(todo);
    assert forall l {:trigger later[l]} :: 0 <= l < |later| ==> later[l] == todo[l + 2];
    forall k | 0 <= k < |done| ensures Earlier(rank, done[k], m) {
      EarlierMerged(rank, FirstRun(todo), SecondRun(todo), m, done[k], []);
    }
    forall l | 0 <= l < |later| ensures Earlier(rank, m, later[l]) {
      EarlierMerged(rank, FirstRun(todo), SecondRun(todo), m, [], later[l]);
    }
  }

  lemma EarlierMerged(rank: Rank, a: seq<ListHead>, b: seq<ListHead>, m: seq<ListHead>,
                      xs: seq<ListHead>, ys: seq<ListHead>)
    requires multiset(m) == multiset(a) + multiset(b)
    ensures Earlier(rank, xs, [])
    ensures Earlier(rank, xs, a) && Earlier(rank, xs, b) ==> Earlier(rank, xs, m)
    ensures Earlier(rank, a, ys) && Earlier(rank, b, ys) ==> Earlier(rank, m, ys)
  {
    forall x | x in m ensures x in a || x in b {
      assert x in multiset(m);
    }
  }

  /** Walk insize places along the list from p, or to its end. */
  method StepAlong(p: ListHead, insize: nat, ghost a: seq<ListHead>, ghost r: seq<ListHead>)
    returns (q: ListHead?, psize: nat)
    requires Chain(p, a + r) && 0 < |a| <= insize && (|a| < insize ==> r == [])
    ensures psize == |a| && Chain(q, r) && Linked(a) && p == a[0]
  {
    ghost var s := a + r;
    q := p;
    psize := 0;
    var i := 0;
    while i < insize
      invariant i == psize <= |a| && q == At(s, i) && (i < insize ==> q != null)
    {
      assert s[i].next == At(s, i + 1);
      psize := psize + 1;
      q := q.next;
      if q == null {
        break;
      }
      i := i + 1;
    }
    assert psize == |a| && q == At(s, |a|);
    forall j {:trigger a[j].next} | 0 <= j < |a| - 1 ensures a[j].next == a[j + 1] {
      assert s[j].next == At(s, j + 1);
    }
    forall j {:trigger r[j].next} | 0 <= j < |r| ensures r[j].next == At(r, j + 1) {
      assert s[|a| + j].next == At(s, |a| + j + 1);
    }
  }

  lemma {:induction false} NoDupCount<T>(s: seq<T>)
    ensures NoDup(s) <==> forall x :: x in s ==> multiset(s)[x] == 1
  {
    if s != [] {
      var t := s[1..];
      NoDupCount(t);
      assert s == [s[0]] + t;
      if NoDup(s) {
        assert s[0] !in t;
      }
      if forall x :: x in s ==> multiset(s)[x] == 1 {
        assert multiset(s)[s[0]] == 1;
        assert s[0] !in t;
        forall x | x in t ensures multiset(t)[x] == 1 {
          assert x in s;
        }
      }
    }
  }

  /** Cells spread over three lists without loss: the lists have no cell in common. */
  lemma ApartParts(nodes: seq<ListHead>, out: seq<ListHead>, a: seq<ListHead>, r: seq<ListHead>)
    requires NoDup(nodes) && multiset(nodes) == multiset(out) + multiset(a) + multiset(r)
    ensures Apart(out, a, r) && Within(out, nodes) && Within(a, nodes) && Within(r, nodes)
  {
    NoDupCount(nodes); NoDupCount(out); NoDupCount(a); NoDupCount(r);
    forall x ensures multiset(out)[x] + multiset(a)[x] + multiset(r)[x] == (if x in nodes then 1 else 0) {
      assert x in nodes <==> x in multiset(nodes);
      assert multiset(nodes)[x] == multiset(out)[x] + multiset(a)[x] + multiset(r)[x];
    }
    assert forall x :: x in out ==> multiset(out)[x] > 0;
    assert forall x :: x in a ==> multiset(a)[x] > 0;
    assert forall x :: x in r ==> multiset(r)[x] > 0;
  }

  /** The state between two merges of a pass: done holds the merged runs, todo those still to merge. */
  ghost predicate PassState(c: Comparison, rank: Rank, v: View, nodes: seq<ListHead>, insize: nat, count: nat,
                            done: seq<seq<ListHead>>, todo: seq<seq<ListHead>>) {
    && RunsSorted(c, rank, v, done) && RunsSorted(c, rank, v, todo) && RunsEarlier(rank, done, todo)
    && Spread(nodes, done, todo) && PassShape(insize, count, done, todo)
  }

  ghost predicate Spread(nodes: seq<ListHead>, done: seq<seq<ListHead>>, todo: seq<seq<ListHead>>) {
    multiset(nodes) == multiset(Flat(done)) + multiset(Flat(todo))
  }

  ghost predicate PassShape(insize: nat, count: nat, done: seq<seq<ListHead>>, todo: seq<seq<ListHead>>) {
    && Shaped(todo, insize)
    && Shaped(done, 2 * insize)
    && (todo != [] ==> forall k :: 0 <= k < |done| ==> |done[k]| == 2 * insize)
    && (if todo == [] then |done| == (count + 1) / 2 else count == 2 * |done| + |todo|)
  }

  lemma MergedShape(insize: nat, count: nat, done: seq<seq<ListHead>>, todo: seq<seq<ListHead>>, m: seq<ListHead>)
    requires PassShape(insize, count, done, todo) && todo != []
    requires multiset(m) == multiset(FirstRun(todo)) + multiset(SecondRun(todo))
    ensures PassShape(insize, count, done + [m], LaterRuns(todo))
  {
    var later := LaterRuns(todo);
    assert |m| == |multiset(m)| == |FirstRun(todo)| + |SecondRun(todo)|;
    assert 0 < |todo[0]| <= insize;
    assert forall k {:trigger later[k]} :: 0 <= k < |later| ==> later[k] == todo[k + 2];
  }

  lemma MergedSpread(nodes: seq<ListHead>, done: seq<seq<ListHead>>, todo: seq<seq<ListHead>>, m: seq<ListHead>)
    requires Spread(nodes, done, todo)
    requires multiset(m) == multiset(FirstRun(todo)) + multiset(SecondRun(todo))
    ensures Spread(nodes, done + [m], LaterRuns(todo))
  {
    FlatSnoc(done, m);
    FlatSplit(todo);
    var later := LaterRuns(todo);
    assert multiset(Flat(todo))
        == multiset(FirstRun(todo)) + (multiset(SecondRun(todo)) + multiset(Flat(later)));
    assert multiset(Flat(done + [m])) == multiset(Flat(done)) + multiset(m);
  }

  lemma MergedPassState(c: Comparison, rank: Rank, v: View, nodes: seq<ListHead>, insize: nat, count: nat,
                        done: seq<seq<ListHead>>, todo: seq<seq<ListHead>>, m: seq<ListHead>)
    requires PassState(c, rank, v, nodes, insize, count, done, todo) && todo != []
    requires Sorted(c, rank, v, m) && multiset(m) == multiset(FirstRun(todo)) + multiset(SecondRun(todo))
    ensures PassState(c, rank, v, nodes, insize, count, done + [m], LaterRuns(todo))
  {
    MergedRunsSorted(c, rank, v, done, todo, m);
    MergedSpread(nodes, done, todo, m);
    MergedShape(insize, count, done, todo, m);
  }

  lemma KeptPassState(c: Comparison, rank: Rank, v: View, w: View, nodes: seq<ListHead>, insize: nat, count: nat,
                      done: seq<seq<ListHead>>, todo: seq<seq<ListHead>>)
    requires Kept(c, v, w) && PassState(c, rank, v, nodes, insize, count, done, todo)
    ensures PassState(c, rank, w, nodes, insize, count, done, todo)
  {
    KeptRunsSorted(c, rank, v, w, done);
    KeptRunsSorted(c, rank, v, w, todo);
  }

  /** Between two merges, everything the next merge asks for is there. */
  lemma PassMergeReady(c: Comparison, rank: Rank, v: View, nodes: seq<ListHead>, insize: nat, count: nat,
                       done: seq<seq<ListHead>>, todo: seq<seq<ListHead>>, g: Runs)
    requires NoDup(nodes) && PassState(c, rank, v, nodes, insize, count, done, todo) && Flat(todo) != []
    requires g == Runs(Flat(done), [], FirstRun(todo), SecondRun(todo), Flat(LaterRuns(todo)))
    ensures MergeState(c, rank, v, nodes, g) && todo != []
    ensures 0 < |g.a| <= insize && (|g.a| < insize ==> g.b + g.rest == [])
    ensures |g.b| <= insize && (|g.b| < insize ==> g.rest == [])
    ensures g.out + g.m == g.out && Flat(todo) == g.a + (g.b + g.rest)
  {
    FlatSplit(todo);
    ApartParts(nodes, g.out, g.a, g.b + g.rest);
    assert g.out + g.m == g.out;
    assert |todo| <= 2 ==> LaterRuns(todo) == [];
    assert Sorted(c, rank, v, g.a) && Sorted(c, rank, v, g.b) && Earlier(rank, g.a, g.b);
  }

  lemma AfterMerge(c: Comparison, rank: Rank, v: View, w: View, nodes: seq<ListHead>, insize: nat, count: nat,
                   done: seq<seq<ListHead>>, todo: seq<seq<ListHead>>, m: seq<ListHead>)
    requires PassState(c, rank, v, nodes, insize, count, done, todo) && todo != [] && Kept(c, v, w)
    requires Sorted(c, rank, w, m) && multiset(m) == multiset(FirstRun(todo)) + multiset(SecondRun(todo))
    ensures PassState(c, rank, w, nodes, insize, count, done + [m], LaterRuns(todo))
    ensures Flat(done + [m]) == Flat(done) + m
  {
    KeptPassState(c, rank, v, w, nodes, insize, count, done, todo);
    MergedPassState(c, rank, w, nodes, insize, count, done, todo, m);
    FlatSnoc(done, m);
  }

  /** Merge the first two runs of those still to merge. */
  method PassStep(c: Comparison, res: CoreResults, p: ListHead, insize: nat, list0: ListHead?, tail0: ListHead?,
                  ghost rank: Rank, ghost v0: View, ghost nodes: seq<ListHead>, ghost count: nat,
                  ghost done: seq<seq<ListHead>>, ghost todo: seq<seq<ListHead>>)
    returns (list: ListHead?, tail: ListHead?, q: ListHead?, ghost m: seq<ListHead>, ghost v: View)
    requires NoDup(nodes) && v0 == ViewOf(nodes) && PassState(c, rank, v0, nodes, insize, count, done, todo)
    requires Chain(p, Flat(todo)) && Built(list0, tail0, Flat(done))
    modifies Cells(nodes)`next, Infos(nodes)`data16, res`crc
    ensures todo != [] && PassState(c, rank, v, nodes, insize, count, done + [m], LaterRuns(todo))
    ensures Chain(q, Flat(LaterRuns(todo))) && Built(list, tail, Flat(done + [m]))
    ensures v == ViewOf(nodes) && Kept(c, v0, v) && Infos(nodes) == old(Infos(nodes))
  {
    ghost var g := Runs(Flat(done), [], FirstRun(todo), SecondRun(todo), Flat(LaterRuns(todo)));
    PassMergeReady(c, rank, v0, nodes, insize, count, done, todo, g);
    hide MergeState, RunsSorted, Spread, PassShape, Apart, Merging, Sorted, Linked, Within, NoDup, InOrder, Kept;
    var psize;
    assert Built(list0, tail0, g.out);
    q, psize := StepAlong(p, insize, g.a, g.b + g.rest);
    ghost var h;
    list, tail, q, h, v := MergeRuns(c, res, p, q, psize, insize, list0, tail0, rank, v0, nodes, g);
    m := h.m;
    AfterMerge(c, rank, v0, v, nodes, insize, count, done, todo, m);
  }

  method Terminate(tail: ListHead?, ghost list: ListHead?, ghost nodes: seq<ListHead>, ghost out: seq<ListHead>)
    requires Built(list, tail, out) && out != [] && NoDup(out) && Within(out, nodes)
    modifies Cells(nodes)`next
    ensures Chain(list, out)
    ensures ViewOf(nodes) == old(ViewOf(nodes)) && Infos(nodes) == old(Infos(nodes))
  {
    assert tail in out;
    tail.next := null;
  }

  /** One pass: merge the runs of the list two by two. */
  method SortPass(c: Comparison, res: CoreResults, list0: ListHead?, insize: nat,
                  ghost rank: Rank, ghost nodes: seq<ListHead>, ghost runs: seq<seq<ListHead>>)
    returns (list: ListHead?, nmerges: nat, ghost done: seq<seq<ListHead>>, ghost v: View)
    requires NoDup(nodes) && runs != [] && Chain(list0, Flat(runs))
    requires PassState(c, rank, ViewOf(nodes), nodes, insize, |runs|, [], runs)
    modifies Cells(nodes)`next, Infos(nodes)`data16, res`crc
    ensures Chain(list, Flat(done)) && nmerges == |done|
    ensures PassState(c, rank, v, nodes, insize, |runs|, done, [])
    ensures v == ViewOf(nodes) && Kept(c, old(ViewOf(nodes)), v) && Infos(nodes) == old(Infos(nodes))
  {
    var p := list0;
    var tail := null;
    list := null;
    nmerges := 0;
    ghost var todo, v0 := runs, ViewOf(nodes);
    v := v0;
    done := [];
    while p != null
      invariant Chain(p, Flat(todo)) && Built(list, tail, Flat(done)) && nmerges == |done|
      invariant v == ViewOf(nodes) && Infos(nodes) == old(Infos(nodes)) && Kept(c, v0, v)
      invariant PassState(c, rank, v, nodes, insize, |runs|, done, todo)
      decreases |todo|
    {
      hide PassState, Chain, Built, Kept;
      nmerges := nmerges + 1;
      ghost var m;
      ghost var u := v;
      list, tail, p, m, v := PassStep(c, res, p, insize, list, tail, rank, v, nodes, |runs|, done, todo);
      KeptTrans(c, v0, u, v);
      done, todo := done + [m], LaterRuns(todo);
    }
    PassDone(c, rank, v, nodes, insize, |runs|, done, todo);
    Terminate(tail, list, nodes, Flat(done));
  }

  lemma PassDone(c: Comparison, rank: Rank, v: View, nodes: seq<ListHead>, insize: nat, count: nat,
                 done: seq<seq<ListHead>>, todo: seq<seq<ListHead>>)
    requires NoDup(nodes) && count > 0 && PassState(c, rank, v, nodes, insize, count, done, todo)
    requires Flat(todo) == []
    ensures todo == [] && NoDup(Flat(done)) && Within(Flat(done), nodes) && Flat(done) != []
  {
    FlatSplit(todo);
    ApartParts(nodes, Flat(done), [], []);
    assert Flat(done) == done[0] + Flat(done[1..]);
  }

  // ---------------------------------------------------------------- the sort

  /** Where each cell stands in s. */
  ghost function RankOf(s: seq<ListHead>): (r: Rank)
    requires NoDup(s)
    ensures forall i :: 0 <= i < |s| ==> s[i] in r && r[s[i]] == i
  {
    map x | x in s :: (var i :| 0 <= i < |s| && s[i] == x; i)
  }

  ghost function Singletons(s: seq<ListHead>): seq<seq<ListHead>> {
    seq(|s|, i requires 0 <= i < |s| => [s[i]])
  }

  lemma {:induction false} FlatSingletons(s: seq<ListHead>)
    ensures Flat(Singletons(s)) == s
  {
    if s != [] {
      assert Singletons(s)[1..] == Singletons(s[1..]);
      FlatSingletons(s[1..]);
      assert [s[0]] + s[1..] == s;
    }
  }

  lemma SortStart(c: Comparison, rank: Rank, v: View, nodes: seq<ListHead>)
    requires NoDup(nodes) && rank == RankOf(nodes) && nodes != []
    ensures Flat(Singletons(nodes)) == nodes && Singletons(nodes) != []
    ensures PassState(c, rank, v, nodes, 1, |nodes|, [], Singletons(nodes))
  {
    FlatSingletons(nodes);
    SingletonsSorted(c, rank, v, nodes);
    SingletonsShape(nodes);
    hide RunsSorted, PassShape, Singletons;
    assert RunsSorted(c, rank, v, []) by { NoRuns(c, rank, v); }
    assert multiset(nodes) == multiset(Flat([])) + multiset(nodes);
  }

  lemma NoRuns(c: Comparison, rank: Rank, v: View)
    ensures RunsSorted(c, rank, v, [])
  {}

  lemma SingletonsShape(nodes: seq<ListHead>)
    ensures PassShape(1, |nodes|, [], Singletons(nodes))
  {}

  lemma SingletonsSorted(c: Comparison, rank: Rank, v: View, nodes: seq<ListHead>)
    requires NoDup(nodes) && rank == RankOf(nodes)
    ensures RunsSorted(c, rank, v, Singletons(nodes))
  {
    hide Earlier, InOrder;
    var runs := Singletons(nodes);
    forall k, l | 0 <= k < l < |runs| ensures Earlier(rank, runs[k], runs[l]) {
      SingletonsEarlier(rank, nodes, k, l);
    }
  }

  lemma SingletonsEarlier(rank: Rank, nodes: seq<ListHead>, k: nat, l: nat)
    requires NoDup(nodes) && rank == RankOf(nodes) && k < l < |nodes|
    ensures Earlier(rank, [nodes[k]], [nodes[l]])
  {}

  /** The runs a pass has produced are the runs the next pass merges. */
  lemma NextPass(c: Comparison, rank: Rank, v: View, nodes: seq<ListHead>, insize: nat, count: nat,
                 done: seq<seq<ListHead>>)
    requires PassState(c, rank, v, nodes, insize, count, done, []) && count > 0
    ensures PassState(c, rank, v, nodes, 2 * insize, |done|, [], done)
    ensures 0 < |done| && (|done| > 1 ==> |done| < count)
  {
    hide RunsSorted, Earlier;
    assert multiset(Flat(done)) == multiset(nodes);
  }

  lemma LastPass(c: Comparison, rank: Rank, v: View, nodes: seq<ListHead>, insize: nat, count: nat,
                 done: seq<seq<ListHead>>)
    requires NoDup(nodes) && PassState(c, rank, v, nodes, insize, count, done, []) && |done| == 1
    ensures Sorted(c, rank, v, Flat(done)) && multiset(Flat(done)) == multiset(nodes) && NoDup(Flat(done))
  {
    hide PassShape;
    assert Sorted(c, rank, v, done[0]);
    hide RunsSorted, Earlier, Sorted;
    assert Flat(done) == done[0] + Flat(done[1..]) == done[0];
    assert multiset(Flat(done)) == multiset(nodes);
    ApartParts(nodes, done[0], [], []);
  }

  /** The list sorted in place: the same cells, acyclic and null-terminated, in strict order of
      (key, former place) -- sorted and stable -- with every payload settled unless there is one cell. */
  method MergeSort(c: Comparison, res: CoreResults, list0: ListHead?, ghost nodes: seq<ListHead>)
    returns (list: ListHead?, ghost sorted: seq<ListHead>)
    requires IsList(list0, nodes) && nodes != []
    modifies Cells(nodes)`next, Infos(nodes)`data16, res`crc
    ensures IsList(list, sorted) && multiset(sorted) == multiset(nodes)
    ensures Sorted(c, RankOf(nodes), ViewOf(nodes), sorted)
    ensures Kept(c, old(ViewOf(nodes)), ViewOf(nodes)) && Infos(nodes) == old(Infos(nodes))
  {
    hide PassState, Chain, Kept, Sorted, NoDup, Flat;
    ghost var rank, v0, v := RankOf(nodes), ViewOf(nodes), ViewOf(nodes);
    KeptRefl(c, v0);
    ghost var runs := Singletons(nodes);
    SortStart(c, rank, v, nodes);
    var insize: nat := 1;
    list := list0;
    var nmerges;
    while true
      invariant runs != [] && Chain(list, Flat(runs))
      invariant v == ViewOf(nodes) && Infos(nodes) == old(Infos(nodes)) && Kept(c, v0, v)
      invariant PassState(c, rank, v, nodes, insize, |runs|, [], runs)
      decreases |runs|
    {
      ghost var u := v;
      ghost var done;
      list, nmerges, done, v := SortPass(c, res, list, insize, rank, nodes, runs);
      KeptTrans(c, v0, u, v);
      NextPass(c, rank, v, nodes, insize, |runs|, done);
      if nmerges <= 1 {
        sorted := Flat(done);
        LastPass(c, rank, v, nodes, insize, |runs|, done);
        return;
      }
      runs := done;
      insize := insize * 2;
    }
  }

  /** The contract of the sort leaves no choice: two orderings of the same cells that both satisfy it
      are equal. */
  lemma {:induction false} SortedUnique(c: Comparison, rank: Rank, v: View, s: seq<ListHead>, t: seq<ListHead>)
    requires Sorted(c, rank, v, s) && Sorted(c, rank, v, t) && multiset(s) == multiset(t)
    ensures s == t
  {
    if s == [] {
      assert multiset(t) == multiset{};
    } else {
      SortedSameHead(c, rank, v, s, t);
      hide InOrder;
      MultisetTail(s);
      MultisetTail(t);
      assert s == [s[0]] + s[1..] && t == [t[0]] + t[1..];
      SortedUnique(c, rank, v, s[1..], t[1..]);
    }
  }

  lemma SortedSameHead(c: Comparison, rank: Rank, v: View, s: seq<ListHead>, t: seq<ListHead>)
    requires Sorted(c, rank, v, s) && Sorted(c, rank, v, t) && multiset(s) == multiset(t) && s != []
    ensures t != [] && s[0] == t[0]
  {
    assert s[0] in multiset(s);
    assert s[0] in t;
    assert t[0] in multiset(t);
    assert t[0] in s;
  }

  lemma MultisetTail<T>(s: seq<T>)
    requires s != []
    ensures multiset(s[1..]) == multiset(s) - multiset{s[0]}
  {
    assert s == [s[0]] + s[1..];
  }
}
