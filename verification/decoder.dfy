/** The instruction decoder of processor.cc: a direct-mapped cache in front of a table that is searched
    front to back and rearranged on the way, which must decode like the table as it was first sorted. */
module Decoder {
  import opened Bits

  const CACHE_SIZE: nat := 8191

  /** What executes an instruction; ILLEGAL is illegal_instruction. */
  type Func = nat
  const ILLEGAL: Func := 0

  datatype Desc = Desc(pattern: nat, mask: nat, rv32: Func, rv64: Func)

  const CATCH_ALL: Desc := Desc(0, 0, ILLEGAL, ILLEGAL)

  predicate Matches(d: Desc, w: nat) { And(w, d.mask) == d.pattern }

  function Pick(xlen: nat, d: Desc): Func { if xlen == 64 then d.rv64 else d.rv32 }

  // ---------------------------------------------------------------- tables

  /** The order build_opcode_map sorts by: larger match first, then larger mask. */
  predicate InOrder(d: Desc, e: Desc) {
    d.pattern > e.pattern || (d.pattern == e.pattern && d.mask >= e.mask)
  }

  ghost predicate SortedTable(s: seq<Desc>) {
    forall i, j :: 0 <= i < j < |s| ==> InOrder(s[i], s[j])
  }

  /** Only the catch-all has an empty mask, and there is one. */
  ghost predicate OneCatchAll(s: seq<Desc>) {
    CATCH_ALL in s && multiset(s)[CATCH_ALL] == 1 && forall d | d in s && d.mask == 0 :: d == CATCH_ALL
  }

  /** Entries that match a common word have a common match value, the catch-all apart. */
  ghost predicate OverlapsShareMatch(s: seq<Desc>) {
    forall d, e, w | d in s && e in s && d.mask != 0 && e.mask != 0 && Matches(d, w) && Matches(e, w) ::
        d.pattern == e.pattern
  }

  /** The entry the simulator needs to find: the first match. */
  function First(s: seq<Desc>, w: nat): Desc {
    if s == [] then CATCH_ALL else if Matches(s[0], w) then s[0] else First(s[1..], w)
  }

  lemma {:induction false} FirstAt(s: seq<Desc>, w: nat, k: nat)
    requires k < |s| && Matches(s[k], w) && forall i :: 0 <= i < k ==> !Matches(s[i], w)
    ensures First(s, w) == s[k]
  {
    if k > 0 { FirstAt(s[1..], w, k - 1); }
  }

  /** What the sorted table decodes a word to, without its order: of the entries that match it, the one with the
      largest match value, and among those the largest mask. */
  lemma {:induction false} FirstIsLargest(s: seq<Desc>, w: nat)
    requires SortedTable(s) && CATCH_ALL in s
    ensures var f := First(s, w);
      && f in s && And(w, f.mask) == f.pattern
      && forall d | d in s && And(w, d.mask) == d.pattern ::
           d.pattern < f.pattern || (d.pattern == f.pattern && d.mask <= f.mask)
  {
    CatchAllMatches(w);
    hide And;
    if Matches(s[0], w) {
      forall d | d in s ensures InOrder(s[0], d) || d == s[0] {
        var i :| 0 <= i < |s| && s[i] == d;
      }
    } else {
      var rest := s[1..];
      assert forall d | d in s :: d == s[0] || d in rest;
      FirstIsLargest(rest, w);
    }
  }

  lemma CatchAllMatches(w: nat)
    ensures Matches(CATCH_ALL, w)
  {
    AndZero(w);
  }

  // ---------------------------------------------------------------- moving to the front

  /** Equal match values stand next to each other, and the catch-all stands last. */
  ghost predicate Grouped(t: seq<Desc>) {
    && t != [] && t[|t| - 1] == CATCH_ALL
    && (forall i :: 0 <= i < |t| - 1 ==> t[i].mask != 0)
    && forall i, j, k :: 0 <= i < j < k < |t| && t[i].pattern == t[k].pattern ==> t[j].pattern == t[i].pattern
  }

  lemma TwoOccurrences<T>(s: seq<T>, i: nat, j: nat)
    requires i < j < |s| && s[i] == s[j]
    ensures multiset(s)[s[i]] >= 2
  {
    assert s == s[..j] + s[j..];
    assert s[..j][i] == s[i] && s[j..][0] == s[i];
    assert s[i] in multiset(s[..j]) && s[i] in multiset(s[j..]);
  }

  lemma CatchAllLast(s: seq<Desc>)
    requires SortedTable(s) && OneCatchAll(s)
    ensures s != [] && s[|s| - 1] == CATCH_ALL && forall i :: 0 <= i < |s| - 1 ==> s[i].mask != 0
  {
    var k :| 0 <= k < |s| && s[k] == CATCH_ALL;
    var n := |s| - 1;
    if k < n {
      assert InOrder(s[k], s[n]);
      assert s[n] == CATCH_ALL;
      TwoOccurrences(s, k, n);
    }
    forall i | 0 <= i < n ensures s[i].mask != 0 {
      if s[i].mask == 0 {
        assert s[i] == CATCH_ALL;
        TwoOccurrences(s, i, n);
      }
    }
  }

  /** Sorting groups the table. */
  lemma SortedGrouped(s: seq<Desc>)
    requires SortedTable(s) && OneCatchAll(s)
    ensures Grouped(s)
  {
    CatchAllLast(s);
    forall i, j, k | 0 <= i < j < k < |s| && s[i].pattern == s[k].pattern ensures s[j].pattern == s[i].pattern {
      assert InOrder(s[i], s[j]) && InOrder(s[j], s[k]);
    }
  }

  function MoveToFront(t: seq<Desc>, k: nat): seq<Desc>
    requires k < |t|
  {
    [t[k]] + t[..k] + t[k + 1..]
  }

  /** The guard of the move: not first, not the catch-all, and alone with its match value. */
  predicate Movable(t: seq<Desc>, k: nat)
    requires k < |t| && (t[k].mask != 0 ==> k + 1 < |t|)
  {
    t[k].mask != 0 && k > 0 && t[k].pattern != t[k - 1].pattern && t[k].pattern != t[k + 1].pattern
  }

  lemma Alone(t: seq<Desc>, k: nat, i: nat)
    requires Grouped(t) && 0 < k < |t| - 1 && i < |t| && i != k
    requires t[k].pattern != t[k - 1].pattern && t[k].pattern != t[k + 1].pattern
    ensures t[i].pattern != t[k].pattern
  {
  }

  /** Where entry i of the rearranged table stood before. */
  function Was(k: nat, i: nat): nat { if i == 0 then k else if i <= k then i - 1 else i }

  lemma MovedAt(t: seq<Desc>, k: nat)
    requires k < |t|
    ensures |MoveToFront(t, k)| == |t|
    ensures forall i :: 0 <= i < |t| ==> MoveToFront(t, k)[i] == t[Was(k, i)]
    ensures multiset(MoveToFront(t, k)) == multiset(t)
  {
    assert t == t[..k] + [t[k]] + t[k + 1..];
  }

  lemma MovedGrouped(t: seq<Desc>, k: nat)
    requires Grouped(t) && 0 < k < |t| - 1 && Movable(t, k)
    ensures Grouped(MoveToFront(t, k))
  {
    var u := MoveToFront(t, k);
    MovedAt(t, k);
    forall i, j, l | 0 <= i < j < l < |u| && u[i].pattern == u[l].pattern ensures u[j].pattern == u[i].pattern {
      if i == 0 {
        Alone(t, k, Was(k, l));
      } else {
        assert Was(k, i) < Was(k, j) < Was(k, l);
      }
    }
  }

  /** Taking out an entry that does not match changes nothing. */
  lemma {:induction false} FirstSkips(a: seq<Desc>, d: Desc, b: seq<Desc>, w: nat)
    requires !Matches(d, w)
    ensures First(a + [d] + b, w) == First(a + b, w)
  {
    if a == [] {
      assert ([d] + b)[1..] == b && [] + [d] + b == [d] + b && [] + b == b;
    } else {
      FirstSkips(a[1..], d, b, w);
      assert (a + [d] + b)[1..] == a[1..] + [d] + b && (a + b)[1..] == a[1..] + b;
    }
  }

  /** Moving an entry that is alone with its match value changes no first match. */
  lemma MovedSameFirst(t: seq<Desc>, k: nat, w: nat)
    requires Grouped(t) && OverlapsShareMatch(t) && 0 < k < |t| - 1 && Movable(t, k)
    ensures First(MoveToFront(t, k), w) == First(t, w)
  {
    var d := t[k];
    if Matches(d, w) {
      forall i | 0 <= i < k ensures !Matches(t[i], w) {
        Alone(t, k, i);
        assert t[i] in t && d in t;
      }
      FirstAt(t, w, k);
      assert MoveToFront(t, k)[0] == d;
    } else {
      FirstWithout(t, k, w);
    }
  }

  /** Entry k overlaps no earlier one. */
  ghost predicate NothingHidden(t: seq<Desc>, k: nat)
    requires k < |t|
  {
    forall i, w | 0 <= i < k && Matches(t[i], w) :: !Matches(t[k], w)
  }

  /** Without the condition on overlaps: one move changes no first match exactly if the entry that is moved
      matches no word that an earlier entry matches. */
  lemma MovedSameFirstIff(t: seq<Desc>, k: nat)
    requires Grouped(t) && 0 < k < |t| - 1 && Movable(t, k)
    ensures (forall w :: First(MoveToFront(t, k), w) == First(t, w)) <==> NothingHidden(t, k)
  {
    hide Grouped, Movable, Matches;
    if NothingHidden(t, k) {
      forall w ensures First(MoveToFront(t, k), w) == First(t, w) {
        if Matches(t[k], w) {
          FirstAt(t, w, k);
        } else {
          FirstWithout(t, k, w);
        }
      }
    } else {
      var i, w :| 0 <= i < k && Matches(t[i], w) && Matches(t[k], w);
      var j := FirstBefore(t, i, w);
      NotTwice(t, k, j);
      assert First(MoveToFront(t, k), w) == t[k];
    }
  }

  lemma NotTwice(t: seq<Desc>, k: nat, i: nat)
    requires Grouped(t) && 0 < k < |t| - 1 && Movable(t, k) && i < k
    ensures t[i] != t[k]
  {
    Alone(t, k, i);
  }

  lemma {:induction false} FirstBefore(t: seq<Desc>, i: nat, w: nat) returns (j: nat)
    requires i < |t| && Matches(t[i], w)
    ensures j <= i && First(t, w) == t[j]
  {
    if Matches(t[0], w) {
      j := 0;
    } else {
      j := FirstBefore(t[1..], i - 1, w);
      j := j + 1;
    }
  }

  /** Wherever it stands, an entry that does not match makes no difference. */
  lemma FirstWithout(t: seq<Desc>, k: nat, w: nat)
    requires k < |t| && !Matches(t[k], w)
    ensures First(MoveToFront(t, k), w) == First(t, w)
  {
    var d := t[k];
    assert t == t[..k] + [d] + t[k + 1..];
    FirstSkips(t[..k], d, t[k + 1..], w);
    FirstSkips([], d, t[..k] + t[k + 1..], w);
    assert [] + [d] + (t[..k] + t[k + 1..]) == MoveToFront(t, k);
    assert [] + (t[..k] + t[k + 1..]) == t[..k] + t[k + 1..];
  }

  /** The table t decodes like the sorted table s that it came from. */
  ghost predicate Equivalent(t: seq<Desc>, s: seq<Desc>) {
    && multiset(t) == multiset(s) && Grouped(t) && OverlapsShareMatch(t)
    && forall w :: First(t, w) == First(s, w)
  }

  lemma OverlapsOfMultiset(t: seq<Desc>, s: seq<Desc>)
    requires multiset(t) == multiset(s) && OverlapsShareMatch(s)
    ensures OverlapsShareMatch(t)
  {
    assert forall d :: d in t <==> d in multiset(t);
    assert forall d :: d in s <==> d in multiset(s);
  }

  lemma MoveKeepsEquivalent(t: seq<Desc>, s: seq<Desc>, k: nat)
    requires Equivalent(t, s) && k < |t| - 1 && Movable(t, k)
    ensures Equivalent(MoveToFront(t, k), s)
  {
    MovedAt(t, k);
    MovedGrouped(t, k);
    OverlapsOfMultiset(MoveToFront(t, k), t);
    forall w ensures First(MoveToFront(t, k), w) == First(s, w) {
      MovedSameFirst(t, k, w);
    }
  }

  // ---------------------------------------------------------------- the decoder as a state machine

  /** One lookup: hit in the cache, or search, perhaps rearrange, and fill the cache slot. */
  function Where(t: seq<Desc>, w: nat): (k: nat)
    requires Grouped(t)
    ensures k < |t| && Matches(t[k], w) && forall i :: 0 <= i < k ==> !Matches(t[i], w)
  {
    CatchAllMatches(w);
    WhereFrom(t, w, 0)
  }

  function WhereFrom(t: seq<Desc>, w: nat, i: nat): (k: nat)
    requires i < |t| && Matches(t[|t| - 1], w) && forall j :: 0 <= j < i ==> !Matches(t[j], w)
    ensures k < |t| && Matches(t[k], w) && forall j :: 0 <= j < k ==> !Matches(t[j], w)
    decreases |t| - i
  {
    if Matches(t[i], w) then i else WhereFrom(t, w, i + 1)
  }

  datatype State = State(table: seq<Desc>, cache: seq<Desc>)

  function Lookup(d: State, w: nat): (State, Desc)
    requires Grouped(d.table) && |d.cache| == CACHE_SIZE
  {
    var idx := w % CACHE_SIZE;
    if d.cache[idx].pattern == w then (d, d.cache[idx])
    else
      var k := Where(d.table, w);
      var found := d.table[k];
      var t := if found.mask != 0 && Movable(d.table, k) then MoveToFront(d.table, k) else d.table;
      (State(t, d.cache[idx := found.(pattern := w)]), found)
  }

  /** A word that displaces what slot 0 begins with. */
  predicate Displaces(w: nat) { w != 0 && w % CACHE_SIZE == 0 }

  /** A slot holds what the sorted table says of a word that belongs to it. */
  ghost predicate SlotRight(e: Desc, idx: nat, s: seq<Desc>) {
    e.pattern % CACHE_SIZE == idx && e.rv32 == First(s, e.pattern).rv32 && e.rv64 == First(s, e.pattern).rv64
  }

  /** Every slot is right or holds the illegal instruction it began with; slot 0 is right once it has been
      displaced, and not touched before. */
  ghost predicate Inv(d: State, s: seq<Desc>, displaced: bool) {
    && Equivalent(d.table, s) && |d.cache| == CACHE_SIZE
    && (forall i :: 0 < i < CACHE_SIZE ==> d.cache[i] == CATCH_ALL || SlotRight(d.cache[i], i, s))
    && if displaced then SlotRight(d.cache[0], 0, s) else d.cache[0] == CATCH_ALL
  }

  /** A freshly sorted table and a freshly filled cache. */
  lemma InitInv(s: seq<Desc>, cache: seq<Desc>)
    requires SortedTable(s) && OneCatchAll(s) && OverlapsShareMatch(s)
    requires |cache| == CACHE_SIZE && forall i :: 0 <= i < CACHE_SIZE ==> cache[i] == CATCH_ALL
    ensures Inv(State(s, cache), s, false)
  {
    SortedGrouped(s);
  }

  /** What decoding answers: by first-match search of the sorted table, except that word 0 is illegal until a
      word has displaced what slot 0 of the cache began with. */
  function Answer(s: seq<Desc>, displaced: bool, w: nat): (f: (Func, Func)) {
    if w == 0 && !displaced then (ILLEGAL, ILLEGAL) else (First(s, w).rv32, First(s, w).rv64)
  }

  lemma LookupRight(d: State, s: seq<Desc>, displaced: bool, w: nat)
    requires Inv(d, s, displaced)
    ensures var (d', e) := Lookup(d, w);
      Inv(d', s, displaced || Displaces(w)) && (e.rv32, e.rv64) == Answer(s, displaced, w)
  {
    hide Where, First, Equivalent, Movable, MoveToFront, Matches;
    if d.cache[w % CACHE_SIZE].pattern != w {
      MissRight(d, s, w);
    }
  }

  /** A search finds what the sorted table says, and what it does to the table does not matter. */
  lemma MissRight(d: State, s: seq<Desc>, w: nat)
    requires Equivalent(d.table, s) && |d.cache| == CACHE_SIZE && d.cache[w % CACHE_SIZE].pattern != w
    ensures var (d', e) := Lookup(d, w);
      e == First(s, w) && Equivalent(d'.table, s) && d'.cache == d.cache[w % CACHE_SIZE := e.(pattern := w)]
  {
    var k := Where(d.table, w);
    FirstAt(d.table, w, k);
    EquivalentFirst(d.table, s, w);
    if d.table[k].mask != 0 && Movable(d.table, k) {
      MoveKeepsEquivalent(d.table, s, k);
    }
    hide First, Movable, MoveToFront, Matches;
  }

  lemma EquivalentFirst(t: seq<Desc>, s: seq<Desc>, w: nat)
    requires Equivalent(t, s)
    ensures First(t, w) == First(s, w)
  {}

  /** The answers to a run of lookups, each in the state that the earlier ones left. */
  ghost function Answers(d: State, s: seq<Desc>, displaced: bool, ws: seq<nat>): (r: seq<(Func, Func)>)
    requires Inv(d, s, displaced)
    ensures |r| == |ws|
    decreases |ws|
  {
    if ws == [] then []
    else
      LookupRight(d, s, displaced, ws[0]);
      var (d', e) := Lookup(d, ws[0]);
      [(e.rv32, e.rv64)] + Answers(d', s, displaced || Displaces(ws[0]), ws[1..])
  }

  predicate AnyDisplaces(ws: seq<nat>) {
    exists i :: 0 <= i < |ws| && Displaces(ws[i])
  }

  /** Whatever has been decoded before, and in whatever order: what every lookup of a run answers. */
  lemma {:induction false} RunDecodesRight(d: State, s: seq<Desc>, displaced: bool, ws: seq<nat>, i: nat)
    requires Inv(d, s, displaced) && i < |ws|
    ensures Answers(d, s, displaced, ws)[i] == Answer(s, displaced || AnyDisplaces(ws[..i]), ws[i])
    decreases |ws|
  {
    LookupRight(d, s, displaced, ws[0]);
    if i == 0 {
      assert !AnyDisplaces(ws[..0]);
    } else {
      hide First, Lookup, Displaces, Inv;
      RunDecodesRight(Lookup(d, ws[0]).0, s, displaced || Displaces(ws[0]), ws[1..], i - 1);
      DisplacesParts(ws, i);
    }
  }

  lemma DisplacesParts(ws: seq<nat>, i: nat)
    requires 0 < i < |ws|
    ensures AnyDisplaces(ws[..i]) == (Displaces(ws[0]) || AnyDisplaces(ws[1..][..i - 1]))
  {
    hide Displaces;
    var rest := ws[1..][..i - 1];
    assert ws[..i] == [ws[0]] + rest;
    if AnyDisplaces(rest) {
      var j :| 0 <= j < |rest| && Displaces(rest[j]);
      assert Displaces(ws[..i][j + 1]);
    }
    if AnyDisplaces(ws[..i]) {
      var j :| 0 <= j < i && Displaces(ws[..i][j]);
      if j > 0 { assert Displaces(rest[j - 1]); }
    } else {
      assert !Displaces(ws[..i][0]);
    }
  }

  /** So from a fresh cache an answer is that of the table exactly if the word is not 0, or a word that
      displaces slot 0 came before, or 0 is illegal anyway. */
  lemma RunExactIff(d: State, s: seq<Desc>, ws: seq<nat>, i: nat)
    requires Inv(d, s, false) && i < |ws|
    ensures var f := First(s, ws[i]);
      Answers(d, s, false, ws)[i] == (f.rv32, f.rv64) <==>
      ws[i] != 0 || AnyDisplaces(ws[..i]) || (f.rv32 == f.rv64 == ILLEGAL)
  {
    RunDecodesRight(d, s, false, ws, i);
  }

  function FreshCache(): (c: seq<Desc>)
    ensures |c| == CACHE_SIZE && forall i :: 0 <= i < CACHE_SIZE ==> c[i] == CATCH_ALL
  {
    seq(CACHE_SIZE, _ => CATCH_ALL)
  }

  /** A table by which word 0 is an instruction: it is called illegal until word 8191 has been decoded. */
  lemma WordZeroMatters() returns (s: seq<Desc>, d: State)
    ensures SortedTable(s) && OneCatchAll(s) && OverlapsShareMatch(s) && d == State(s, FreshCache()) && Inv(d, s, false)
    ensures Answers(d, s, false, [0, CACHE_SIZE, 0]) == [(ILLEGAL, ILLEGAL), (ILLEGAL, ILLEGAL), (1, 1)]
  {
    s := ZeroTable();
    d := State(s, FreshCache());
    InitInv(s, d.cache);
    var ws := [0, CACHE_SIZE, 0];
    assert Displaces(ws[..2][1]) && !Displaces(ws[..1][0]);
    hide Lookup, First, Inv, SortedTable, OneCatchAll, OverlapsShareMatch, Displaces, FreshCache;
    RunDecodesRight(d, s, false, ws, 0);
    RunDecodesRight(d, s, false, ws, 1);
    RunDecodesRight(d, s, false, ws, 2);
  }

  lemma ZeroTable() returns (s: seq<Desc>)
    ensures SortedTable(s) && OneCatchAll(s) && OverlapsShareMatch(s)
    ensures First(s, CACHE_SIZE) == CATCH_ALL && First(s, 0) == Desc(0, 3, 1, 1)
  {
    s := [Desc(0, 3, 1, 1), CATCH_ALL];
    LowTwoBits(0);
    LowTwoBits(CACHE_SIZE);
    CatchAllMatches(CACHE_SIZE);
    hide And;
    assert s[1] == CATCH_ALL;
  }

  lemma LowTwoBits(w: nat)
    ensures And(w, 3) == w % 4
  {
    assert Pow2(2) == 4;
    AndMask(w, 2);
  }

  /** A table whose overlapping entries have different match values: looking up 1 moves the general entry
      to the front, and then looking up 3 finds it instead of the special one. */
  lemma OverlapMatters() returns (s: seq<Desc>, d: State)
    ensures SortedTable(s) && OneCatchAll(s) && Grouped(s) && d == State(s, FreshCache()) && First(s, 3).rv64 == 1
    ensures Lookup(d, 3).1.rv64 == 1
    ensures var d' := Lookup(d, 1).0; Grouped(d'.table) && |d'.cache| == CACHE_SIZE && Lookup(d', 3).1.rv64 == 2
  {
    var u;
    s, u := OverlapTable();
    d := State(s, FreshCache());
    hide And, Lookup, SortedTable, OneCatchAll, Grouped, MoveToFront, Movable, Matches, First, FreshCache;
    Misses(d, 3, 0);
    Misses(d, 1, 1);
    Misses(Lookup(d, 1).0, 3, 0);
  }

  lemma OverlapTable() returns (s: seq<Desc>, u: seq<Desc>)
    ensures |s| == |u| == 3 && SortedTable(s) && OneCatchAll(s) && Grouped(s)
    ensures Grouped(u) && Movable(s, 1) && MoveToFront(s, 1) == u
    ensures s[0] == u[1] == Desc(3, 3, 1, 1) && s[1] == u[0] == Desc(1, 1, 2, 2) && First(s, 3) == s[0]
    ensures Matches(s[0], 3) && !Matches(s[0], 1) && Matches(s[1], 1) && Matches(u[0], 3)
  {
    s, u := [Desc(3, 3, 1, 1), Desc(1, 1, 2, 2), CATCH_ALL], [Desc(1, 1, 2, 2), Desc(3, 3, 1, 1), CATCH_ALL];
    SmallAnds();
    hide And;
    assert s[2] == CATCH_ALL;
    assert MoveToFront(s, 1) == u;
  }

  lemma SmallAnds()
    ensures And(3, 3) == 3 && And(3, 1) == 1 && And(1, 3) == 1 && And(1, 1) == 1
  {}

  /** A word that is not in the cache is found at its first match. */
  lemma Misses(d: State, w: nat, k: nat)
    requires Grouped(d.table) && |d.cache| == CACHE_SIZE && d.cache[w % CACHE_SIZE].pattern != w && k < |d.table|
    requires Matches(d.table[k], w) && forall i :: 0 <= i < k ==> !Matches(d.table[i], w)
    ensures Where(d.table, w) == k && Lookup(d, w).1 == d.table[k]
    ensures Lookup(d, w).0.table ==
            if d.table[k].mask != 0 && Movable(d.table, k) then MoveToFront(d.table, k) else d.table
    ensures Lookup(d, w).0.cache == d.cache[w % CACHE_SIZE := d.table[k].(pattern := w)]
  {
    hide Matches, Movable;
  }

  // ---------------------------------------------------------------- the simulator's own object

  class Processor {
    var xlen: nat
    var instructions: array<Desc>
    const opcodeCache: array<Desc>
    /** The table as it was first sorted, and whether a word has displaced slot 0 of the cache. */
    ghost var sorted: seq<Desc>
    ghost var displaced: bool

    ghost predicate Valid()
      reads this, instructions, opcodeCache
    {
      instructions != opcodeCache && Inv(State(instructions[..], opcodeCache[..]), sorted, displaced)
    }

    /** build_opcode_map: the registered instructions as std::sort has arranged them, and an empty cache. */
    constructor BuildOpcodeMap(xlen: nat, table: seq<Desc>)
      requires SortedTable(table) && OneCatchAll(table) && OverlapsShareMatch(table)
      ensures Valid() && sorted == table && !displaced && this.xlen == xlen && fresh(instructions) && fresh(opcodeCache)
    {
      this.xlen := xlen;
      sorted, displaced := table, false;
      instructions := new Desc[|table|](i requires 0 <= i < |table| => table[i]);
      opcodeCache := new Desc[CACHE_SIZE](_ => CATCH_ALL);
      new;
      assert instructions[..] == table;
      InitInv(table, opcodeCache[..]);
    }

    /** The linear search; the catch-all ends it. */
    method Search(w: nat) returns (p: nat)
      requires Valid()
      ensures p == Where(instructions[..], w)
    {
      p := 0;
      CatchAllMatches(w);
      while !Matches(instructions[p], w)
        invariant p < instructions.Length
        invariant forall i :: 0 <= i < p ==> !Matches(instructions[i], w)
        invariant Matches(instructions[instructions.Length - 1], w)
        decreases instructions.Length - p
      {
        p := p + 1;
      }
    }

    /** Shift the entries before place k one place back and put entry k first. */
    method Rotate(k: nat)
      requires k < instructions.Length
      modifies instructions
      ensures instructions[..] == MoveToFront(old(instructions[..]), k)
    {
      ghost var t := instructions[..];
      var desc := instructions[k];
      var p: int := k - 1;
      while p >= 0
        invariant -1 <= p < k
        invariant forall i :: 0 <= i <= p + 1 ==> i <= k && (i <= p ==> instructions[i] == t[i])
        invariant forall i :: p + 1 < i <= k ==> instructions[i] == t[i - 1]
        invariant forall i :: k < i < instructions.Length ==> instructions[i] == t[i]
      {
        instructions[p + 1] := instructions[p];
        p := p - 1;
      }
      instructions[0] := desc;
    }

    /** The miss path: search, move a lone entry to the front, and remember the answer. */
    method Miss(w: nat) returns (desc: Desc)
      requires Valid() && opcodeCache[w % CACHE_SIZE].pattern != w
      modifies instructions, opcodeCache
      ensures (State(instructions[..], opcodeCache[..]), desc) ==
          Lookup(old(State(instructions[..], opcodeCache[..])), w)
    {
      ghost var d := State(instructions[..], opcodeCache[..]);
      var idx := w % CACHE_SIZE;
      var p := Search(w);
      desc := instructions[p];
      if instructions[p].mask != 0 && p > 0 {
        if instructions[p].pattern != instructions[p - 1].pattern
            && instructions[p].pattern != instructions[p + 1].pattern {
          assert Movable(d.table, p);
          Rotate(p);
        }
      }
      opcodeCache[idx] := desc;
      opcodeCache[idx] := opcodeCache[idx].(pattern := w);
      assert opcodeCache[..] == d.cache[idx := desc.(pattern := w)];
    }

    method DecodeInsn(w: nat) returns (f: Func)
      requires Valid()
      modifies instructions, opcodeCache, `displaced
      ensures Valid() && displaced == (old(displaced) || Displaces(w))
      ensures f == if xlen == 64 then Answer(sorted, old(displaced), w).1 else Answer(sorted, old(displaced), w).0
      ensures var (d, e) := Lookup(old(State(instructions[..], opcodeCache[..])), w);
        State(instructions[..], opcodeCache[..]) == d && f == Pick(xlen, e)
    {
      LookupRight(State(instructions[..], opcodeCache[..]), sorted, displaced, w);
      var desc := opcodeCache[w % CACHE_SIZE];
      if w != desc.pattern {
        hide Equivalent, SlotRight;
        desc := Miss(w);
      }
      displaced := displaced || Displaces(w);
      f := if xlen == 64 then desc.rv64 else desc.rv32;
    }
  }
}
