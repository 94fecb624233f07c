/** Media on which the cache of the verifier shows: printed statistics that depend on
    it, and a threshold under which it passes a bad tree. */
module FsckStrays {
  import opened Common
  import opened Blockrefs
  import opened FsckVerify

  const NOTHING := Blockref(EMPTY, 0, NO_DATA, 0, 0, false, 0)

  /** The volume headers are 2GB apart; behind the reserved area of the last one comes
      an area of indirect blocks of the smallest size. */
  const ZONE: nat := 2147483648
  const AREA: nat := 8594128896

  function Head(j: nat): DataOff {
    DataOff(ZONE * j, 16)
  }

  function Spot(i: nat): DataOff {
    DataOff(AREA + 4096 * i, 12)
  }

  function Padded(cells: seq<Blockref>, n: nat): (blk: Block)
    requires |cells| <= n
    ensures |blk| == n && forall i | 0 <= i < n :: blk[i] == if i < |cells| then cells[i] else NOTHING
  {
    cells + seq(n - |cells|, _ => NOTHING)
  }

  lemma Sizes()
    ensures Pow2(10) == 1024 && Pow2(12) == 4096 && Pow2(16) == 65536
  {
    assert Pow2(8) == 256;
    assert Pow2(10) == 1024;
    assert Pow2(12) == 4096;
    assert Pow2(14) == 16384;
  }

  // ----- what a walk does to the cache -----

  lemma {:induction false} FindAdded(entries: seq<(Blockref, Delta)>, b: Blockref, d: Delta, x: Blockref)
    ensures FindIn(entries + [(b, d)], x) ==
            if FindIn(entries, x).Some? then FindIn(entries, x) else if x == b then Some(d) else None
  {
    if entries != [] {
      assert (entries + [(b, d)])[1..] == entries[1..] + [(b, d)];
      FindAdded(entries[1..], b, d, x);
    }
  }

  lemma LookupAdded(c: Cache, b: Blockref, d: Delta, x: Blockref)
    requires b.dataOff != NO_DATA
    ensures Lookup(AddEntry(c, b, d), x) ==
            if Lookup(c, x).Some? then Lookup(c, x) else if x == b then Some(d) else None
  {
    hide FindIn;
    FindAdded(if b.dataOff in c then c[b.dataOff] else [], b, d, x);
    FindNone(x);
  }

  lemma FindNone(x: Blockref)
    ensures FindIn([], x) == None
  {
  }

  lemma FinishLookup(o: Options, b: Blockref, failed: bool, d: Delta, s: State, x: Blockref)
    ensures var v := Finish(o, b, failed, d, s);
            (Lookup(s.cache, x).Some? ==> Lookup(v.state.cache, x) == Lookup(s.cache, x)) &&
            (x != b ==> Lookup(v.state.cache, x) == Lookup(s.cache, x)) &&
            (v.ok && b.dataOff != NO_DATA && 0 < o.cacheCount <= v.delta.count ==> Lookup(v.state.cache, b).Some?)
  {
    hide Lookup, AddEntry;
    if b.dataOff != NO_DATA {
      var d' := d.(count := d.count + 1);
      LookupAdded(s.cache, b, d', x);
      LookupAdded(s.cache, b, d', b);
    }
  }

  /** Entries stay, and only what is at or below the blockref is added. */
  ghost predicate Extends(m: Media, g: Graph, b: Blockref, c: Cache, c': Cache, x: Blockref) {
    (Lookup(c, x).Some? ==> Lookup(c', x) == Lookup(c, x)) &&
    (x != b && Rank(m, g, b) <= Rank(m, g, x) ==> Lookup(c', x) == Lookup(c, x))
  }

  lemma {:induction false} WalkExtends(m: Media, g: Graph, h: Codes, o: Options, b: Blockref, norecurse: bool, s: State,
                                       x: Blockref)
    requires Closed(m, g) && InGraph(g, b)
    ensures Extends(m, g, b, s.cache, Walk(m, g, h, o, b, norecurse, s).state.cache, x)
    decreases Rank(m, g, b), 1
  {
    hide Closed, InGraph, Lookup, Finish, WalkFrom, OwnKind, OwnBytes, Bump, Plus, LoadDelta;
    if Lookup(s.cache, b).None? {
      var d1 := OwnKind(o, b);
      var s1 := s.(stats := Bump(s.stats, d1));
      if !b.HasData() || b.dataOff in m {
        var d2 := Plus(d1, OwnBytes(b));
        var s2 := s1.(stats := Bump(s1.stats, OwnBytes(b)));
        if !b.HasData() {
          FinishLookup(o, b, !ValidKind(b.kind), d2, s2, x);
        } else {
          var failed := !ValidKind(b.kind) || !CheckOk(h, b, m[b.dataOff]);
          FinishLookup(o, b, failed, d2, s2, x);
          WalkFromExtends(m, g, h, o, b, failed, 0, d2, s2, x);
          var kids := WalkFrom(m, g, h, o, b, failed, 0, d2, s2);
          FinishLookup(o, b, failed, kids.delta, kids.state, x);
        }
      }
    }
  }

  lemma {:induction false} WalkFromExtends(m: Media, g: Graph, h: Codes, o: Options, b: Blockref, failed: bool, i: nat,
                                           d: Delta, s: State, x: Blockref)
    requires Closed(m, g) && InGraph(g, b) && b.HasData() && b.dataOff in m
    requires i <= SlotCount(b.kind, m[b.dataOff])
    ensures var c' := WalkFrom(m, g, h, o, b, failed, i, d, s).state.cache;
            (Lookup(s.cache, x).Some? ==> Lookup(c', x) == Lookup(s.cache, x)) &&
            (Rank(m, g, b) <= Rank(m, g, x) ==> Lookup(c', x) == Lookup(s.cache, x))
    decreases Rank(m, g, b), 0, SlotCount(b.kind, m[b.dataOff]) - i
  {
    hide Closed, InGraph, Lookup, Walk, Plus;
    if i < SlotCount(b.kind, m[b.dataOff]) {
      ChildInGraph(m, g, b, i);
      var c := Children(b.kind, m[b.dataOff])[i];
      var v := Walk(m, g, h, o, c, failed, s);
      WalkExtends(m, g, h, o, c, failed, s, x);
      if v.ok {
        WalkFromExtends(m, g, h, o, b, failed, i + 1, if failed then d else Plus(d, v.delta), v.state, x);
      }
    }
  }

  /** A good block that is large enough is remembered. */
  lemma Remembered(m: Media, g: Graph, h: Codes, o: Options, b: Blockref, s: State)
    requires Closed(m, g) && InGraph(g, b) && Sound(m, g, h, o, s.cache) && SafeThreshold(o)
    requires Good(m, g, h, b) && b.HasData() && 0 < o.cacheCount <= Total(m, g, o, b).count
    ensures Lookup(Walk(m, g, h, o, b, false, s).state.cache, b).Some?
  {
    hide Closed, InGraph, Lookup, Finish, WalkFrom, OwnKind, OwnBytes, Bump, Plus, LoadDelta, Total, Sound, Good;
    WalkAgrees(m, g, h, o, b, false, s);
    AgreesOn(m, g, h, o, b, s);
    if Lookup(s.cache, b).None? {
      var d2 := Plus(OwnKind(o, b), OwnBytes(b));
      var s2 := s.(stats := Bump(Bump(s.stats, OwnKind(o, b)), OwnBytes(b)));
      GoodOnes(m, g, h, b);
      var kids := WalkFrom(m, g, h, o, b, false, 0, d2, s2);
      FinishLookup(o, b, false, kids.delta, kids.state, b);
    }
  }

  lemma AgreesOn(m: Media, g: Graph, h: Codes, o: Options, b: Blockref, s: State)
    requires Closed(m, g) && InGraph(g, b) && Agrees(m, g, h, o, b, false, s, Walk(m, g, h, o, b, false, s))
    ensures var v := Walk(m, g, h, o, b, false, s);
            Sound(m, g, h, o, v.state.cache) && v.ok == Good(m, g, h, b) && (v.ok ==> v.delta == Total(m, g, o, b))
  {
    hide Closed, InGraph, Walk, Total, Sound, Good;
  }

  lemma GoodOnes(m: Media, g: Graph, h: Codes, b: Blockref)
    requires Closed(m, g) && InGraph(g, b) && Good(m, g, h, b)
    ensures ValidKind(b.kind) && (b.HasData() ==> b.dataOff in m && CheckOk(h, b, m[b.dataOff]))
  {
  }

  /** Without a cache a good tree prints its own statistics, whatever it holds. */
  lemma {:induction false} UncachedPrints(m: Media, g: Graph, h: Codes, o: Options, b: Blockref, s: State)
    requires Closed(m, g) && InGraph(g, b) && Good(m, g, h, b) && o.cacheCount <= 0 && s.cache == map[]
    ensures Walk(m, g, h, o, b, false, s) == Visit(true, Total(m, g, o, b), State(Bump(s.stats, Total(m, g, o, b)), map[]))
    decreases Rank(m, g, b), 1
  {
    hide Closed, InGraph, OwnKind, OwnBytes;
    var own := Plus(OwnKind(o, b), OwnBytes(b));
    BumpPlus(s.stats, OwnKind(o, b), OwnBytes(b));
    OwnCount(o, b);
    if b.HasData() {
      UncachedFrom(m, g, h, o, b, 0, own, State(Bump(s.stats, own), map[]));
      CountOnce(s.stats, own, TotalFrom(m, g, o, b, 0));
      BumpPlus(s.stats, own, TotalFrom(m, g, o, b, 0));
    }
  }

  lemma OwnCount(o: Options, b: Blockref)
    ensures Plus(OwnKind(o, b), OwnBytes(b)).count == 0
  {
  }

  lemma {:induction false} UncachedFrom(m: Media, g: Graph, h: Codes, o: Options, b: Blockref, i: nat, d: Delta, s: State)
    requires Closed(m, g) && InGraph(g, b) && b.HasData() && b.dataOff in m && o.cacheCount <= 0 && s.cache == map[]
    requires i <= SlotCount(b.kind, m[b.dataOff]) && GoodFrom(m, g, h, b, i)
    ensures var t := TotalFrom(m, g, o, b, i);
            WalkFrom(m, g, h, o, b, false, i, d, s) == Visit(true, Plus(d, t), State(Bump(s.stats, t), map[]))
    decreases Rank(m, g, b), 0, SlotCount(b.kind, m[b.dataOff]) - i
  {
    hide Closed, InGraph, Walk, Total, Good;
    if i == SlotCount(b.kind, m[b.dataOff]) {
      ZeroAddsNothing(s.stats, d);
    } else {
      ChildInGraph(m, g, b, i);
      var c := Children(b.kind, m[b.dataOff])[i];
      UncachedPrints(m, g, h, o, c, s);
      var v := Walk(m, g, h, o, c, false, s);
      UncachedFrom(m, g, h, o, b, i + 1, Plus(d, v.delta), v.state);
      PlusAssociative(d, v.delta, TotalFrom(m, g, o, b, i + 1));
      BumpPlus(s.stats, v.delta, TotalFrom(m, g, o, b, i + 1));
    }
  }

  // ----- headers over one shared tree -----

  function Root(j: nat): Blockref {
    Blockref(VOLUME, 0, Head(j), 0, 0, false, 0)
  }

  /** A volume header whose super-root blockset has one blockref. */
  function Header(top: Blockref): Block {
    Padded([NOTHING, NOTHING, NOTHING, NOTHING, top], 512)
  }

  /** A good block that is not cached: its own share, its children, and the end. */
  lemma WalkMiss(m: Media, g: Graph, h: Codes, o: Options, b: Blockref, s: State)
    requires Closed(m, g) && InGraph(g, b) && b.HasData() && b.dataOff in m
    requires ValidKind(b.kind) && CheckOk(h, b, m[b.dataOff]) && Lookup(s.cache, b).None?
    ensures var own := Plus(OwnKind(o, b), OwnBytes(b));
            var kids := WalkFrom(m, g, h, o, b, false, 0, own, State(Bump(s.stats, own), s.cache));
            Walk(m, g, h, o, b, false, s) == if !kids.ok then kids else Finish(o, b, false, kids.delta, kids.state)
  {
    hide Closed, WalkFrom;
    BumpPlus(s.stats, OwnKind(o, b), OwnBytes(b));
  }

  /** Empty blockrefs change neither the cache nor the counters of blocks. */
  lemma {:induction false} EmptiesWalked(m: Media, g: Graph, h: Codes, o: Options, b: Blockref, failed: bool, i: nat,
                                         d: Delta, s: State)
    requires Closed(m, g) && InGraph(g, b) && b.HasData() && b.dataOff in m && Sized(b.kind, m[b.dataOff])
    requires i <= SlotCount(b.kind, m[b.dataOff])
    requires forall j | i <= j < SlotCount(b.kind, m[b.dataOff]) :: Children(b.kind, m[b.dataOff])[j] == NOTHING
    ensures var v := WalkFrom(m, g, h, o, b, failed, i, d, s);
            v.ok && v.state.cache == s.cache && v.state.stats.u1 == s.stats.u1
    decreases SlotCount(b.kind, m[b.dataOff]) - i
  {
    hide Closed, Walk, Plus;
    if i < SlotCount(b.kind, m[b.dataOff]) {
      ChildInGraph(m, g, b, i);
      var v := Walk(m, g, h, o, NOTHING, failed, s);
      EmptyWalked(m, g, h, o, failed, s);
      EmptiesWalked(m, g, h, o, b, failed, i + 1, if failed then d else Plus(d, v.delta), v.state);
    }
  }

  lemma EmptyWalked(m: Media, g: Graph, h: Codes, o: Options, norecurse: bool, s: State)
    requires Closed(m, g) && InGraph(g, NOTHING)
    ensures var v := Walk(m, g, h, o, NOTHING, norecurse, s);
            v.ok && v.state.cache == s.cache && v.state.stats.u1 == s.stats.u1
  {
    hide Walk, Closed;
    WalkBare(m, g, h, o, NOTHING, norecurse, s);
  }

  /** A blockref without data is counted and nothing else happens. */
  lemma WalkBare(m: Media, g: Graph, h: Codes, o: Options, b: Blockref, norecurse: bool, s: State)
    requires Closed(m, g) && InGraph(g, b) && !b.HasData() && ValidKind(b.kind)
    ensures Walk(m, g, h, o, b, norecurse, s) ==
            Visit(true, OwnKind(o, b).(count := 1), State(Bump(s.stats, OwnKind(o, b)), s.cache))
  {
    NoShare(o, b);
    hide Closed, WalkFrom, OwnKind, OwnBytes, Bump, Plus, FindIn;
    ZeroAddsNothing(Bump(s.stats, OwnKind(o, b)), OwnKind(o, b));
  }

  lemma NoShare(o: Options, b: Blockref)
    requires !b.HasData()
    ensures OwnBytes(b) == ZERO && OwnKind(o, b).count == 0
  {
  }

  /** Headers that all have the one blockref `top`, which is good and remembered. */
  ghost predicate Shares(m: Media, g: Graph, h: Codes, top: Blockref, j: nat) {
    Closed(m, g) && InGraph(g, top) && InGraph(g, Root(j)) && Head(j) in m && m[Head(j)] == Header(top) &&
    top.HasData() && Good(m, g, h, top) && Good(m, g, h, Root(j)) && Rank(m, g, top) < Rank(m, g, Root(j))
  }

  lemma HeadChildren(m: Media, g: Graph, h: Codes, top: Blockref, j: nat)
    requires Shares(m, g, h, top, j)
    ensures SlotCount(VOLUME, m[Head(j)]) == 4 && Sized(VOLUME, m[Head(j)])
    ensures var cs := Children(VOLUME, m[Head(j)]); cs[0] == top && forall i | 1 <= i < 4 :: cs[i] == NOTHING
  {
    hide Closed, Good;
  }

  /** A header finds the shared tree in the cache and counts only its own kind of block. */
  lemma CachedHeader(m: Media, g: Graph, h: Codes, o: Options, top: Blockref, j: nat, s: State)
    requires Shares(m, g, h, top, j) && Lookup(s.cache, Root(j)).None? && !s.stats.freemap
    requires Lookup(s.cache, top).Some? && Lookup(s.cache, top).value == Total(m, g, o, top)
    ensures Walk(m, g, h, o, Root(j), false, s).state.stats.u1 == s.stats.u1 + Total(m, g, o, top).indirect
  {
    hide Closed, Good, WalkFrom, Lookup, Total, Finish;
    HeadChildren(m, g, h, top, j);
    var b := Root(j);
    var own := Plus(OwnKind(o, b), OwnBytes(b));
    var s1 := State(Bump(s.stats, own), s.cache);
    GoodOnes(m, g, h, b);
    WalkMiss(m, g, h, o, b, s);
    var v := Walk(m, g, h, o, top, false, s1);
    assert v == Visit(true, Total(m, g, o, top), s1.(stats := LoadDelta(s1.stats, Total(m, g, o, top))));
    hide Walk;
    FirstChild(m, g, h, o, b, own, s1, top);
    EmptiesWalked(m, g, h, o, b, false, 1, Plus(own, v.delta), v.state);
    FinishStats(o, b, WalkFrom(m, g, h, o, b, false, 0, own, s1));
  }

  lemma FinishStats(o: Options, b: Blockref, kids: Visit)
    ensures Finish(o, b, false, kids.delta, kids.state).state.stats == kids.state.stats
  {
  }

  lemma FirstChild(m: Media, g: Graph, h: Codes, o: Options, b: Blockref, d: Delta, s: State, c: Blockref)
    requires Closed(m, g) && InGraph(g, b) && b.HasData() && b.dataOff in m && 0 < SlotCount(b.kind, m[b.dataOff])
    requires Sized(b.kind, m[b.dataOff]) && Children(b.kind, m[b.dataOff])[0] == c && InGraph(g, c)
    ensures var v := Walk(m, g, h, o, c, false, s);
            WalkFrom(m, g, h, o, b, false, 0, d, s) ==
            if !v.ok then Visit(false, d, v.state) else WalkFrom(m, g, h, o, b, false, 1, Plus(d, v.delta), v.state)
  {
    hide Walk, Closed, Plus;
  }

  /** The first header leaves the shared tree in the cache, and no other header. */
  lemma FirstHeader(m: Media, g: Graph, h: Codes, o: Options, top: Blockref, j: nat)
    requires Shares(m, g, h, top, j) && 2 <= o.cacheCount <= Total(m, g, o, top).count
    ensures var v := Walk(m, g, h, o, Root(j), false, State(NoStats(false), map[]));
            v.ok && Sound(m, g, h, o, v.state.cache) && Lookup(v.state.cache, top).Some?
  {
    hide Closed, Good, WalkFrom, Lookup, Total, Finish, Walk;
    var b, s := Root(j), State(NoStats(false), map[]);
    NothingSound(m, g, h, o);
    WalkAgrees(m, g, h, o, b, false, s);
    AgreesOn(m, g, h, o, b, s);
    HeadChildren(m, g, h, top, j);
    GoodOnes(m, g, h, b);
    NoLookup(b);
    WalkMiss(m, g, h, o, b, s);
    var own := Plus(OwnKind(o, b), OwnBytes(b));
    var s1 := State(Bump(s.stats, own), s.cache);
    Remembered(m, g, h, o, top, s1);
    FirstChild(m, g, h, o, b, own, s1, top);
    var t := Walk(m, g, h, o, top, false, s1);
    hide Plus, Bump, OwnKind, OwnBytes;
    WalkFromExtends(m, g, h, o, b, false, 1, Plus(own, t.delta), t.state, top);
    var kids := WalkFrom(m, g, h, o, b, false, 0, own, s1);
    WalkAgrees(m, g, h, o, top, false, s1);
    AgreesOn(m, g, h, o, top, s1);
    FinishLookup(o, b, false, kids.delta, kids.state, top);
  }

  lemma NothingSound(m: Media, g: Graph, h: Codes, o: Options)
    requires Closed(m, g)
    ensures Sound(m, g, h, o, map[])
  {
  }

  lemma NoLookup(b: Blockref)
    ensures Lookup(map[], b) == None
  {
  }

  /** The four volume headers from `j` on. */
  function Heads(j: nat): (bs: seq<Blockref>)
    ensures |bs| == if j < 4 then 4 - j else 0
    ensures forall i | 0 <= i < |bs| :: bs[i] == Root(j + i)
    decreases 4 - j
  {
    if j >= 4 then [] else [Root(j)] + Heads(j + 1)
  }

  ghost predicate AllShare(m: Media, g: Graph, h: Codes, top: Blockref) {
    (forall j: nat | j < 4 :: Shares(m, g, h, top, j)) &&
    forall i: nat, j: nat | i < 4 && j < 4 :: Rank(m, g, Root(i)) == Rank(m, g, Root(j))
  }

  /** The cache before header `j`: the shared tree is in it, no header from `j` on is. */
  ghost predicate Between(m: Media, g: Graph, h: Codes, o: Options, top: Blockref, j: nat, c: Cache) {
    Closed(m, g) && Sound(m, g, h, o, c) && Lookup(c, top).Some? &&
    forall i: nat | j <= i < 4 :: Lookup(c, Root(i)).None?
  }

  /** A header does not put another header into the cache. */
  lemma OthersStay(m: Media, g: Graph, h: Codes, o: Options, top: Blockref, j: nat, s: State)
    requires AllShare(m, g, h, top) && j < 4 && forall i: nat | j <= i < 4 :: Lookup(s.cache, Root(i)).None?
    ensures InGraph(g, Root(j)) && Closed(m, g)
    ensures forall i: nat | j + 1 <= i < 4 :: Lookup(Walk(m, g, h, o, Root(j), false, s).state.cache, Root(i)).None?
  {
    hide Closed, Good, Lookup, Walk, InGraph;
    assert Shares(m, g, h, top, j);
    forall i: nat | j + 1 <= i < 4
      ensures Lookup(Walk(m, g, h, o, Root(j), false, s).state.cache, Root(i)).None?
    {
      WalkExtends(m, g, h, o, Root(j), false, s, Root(i));
    }
  }

  lemma NextHeader(m: Media, g: Graph, h: Codes, o: Options, top: Blockref, j: nat, c: Cache)
    requires AllShare(m, g, h, top) && j < 4 && SafeThreshold(o) && Between(m, g, h, o, top, j, c)
    ensures Shares(m, g, h, top, j)
    ensures var v := Walk(m, g, h, o, Root(j), false, State(NoStats(false), c));
            v.ok && v.state.stats.u1 == Total(m, g, o, top).indirect && Between(m, g, h, o, top, j + 1, v.state.cache)
  {
    hide Good, Lookup, Walk, Total, Closed;
    var s := State(NoStats(false), c);
    assert Shares(m, g, h, top, j);
    SoundHit(m, g, h, o, top, c);
    CachedHeader(m, g, h, o, top, j, s);
    WalkAgrees(m, g, h, o, Root(j), false, s);
    AgreesOn(m, g, h, o, Root(j), s);
    WalkExtends(m, g, h, o, Root(j), false, s, top);
    OthersStay(m, g, h, o, top, j, s);
  }

  lemma SoundHit(m: Media, g: Graph, h: Codes, o: Options, b: Blockref, c: Cache)
    requires Closed(m, g) && InGraph(g, b) && Sound(m, g, h, o, c) && Lookup(c, b).Some?
    ensures Lookup(c, b).value == Total(m, g, o, b)
  {
    hide Closed, Good, Total;
    assert SoundEntry(m, g, h, o, b.dataOff, (b, Lookup(c, b).value));
  }

  /** Every header but the first prints what the cache lets it print. */
  lemma {:induction false} LaterHeaders(m: Media, g: Graph, h: Codes, o: Options, top: Blockref, j: nat, c: Cache)
    requires AllShare(m, g, h, top) && j <= 4 && SafeThreshold(o) && Between(m, g, h, o, top, j, c)
    ensures Closed(m, g) && InGraph(g, top) && forall b <- Heads(j) :: InGraph(g, b)
    ensures var r := TestFrom(m, g, h, o, false, Heads(j), c);
            r.ok && |r.printed| == 4 - j && forall i | 0 <= i < 4 - j :: r.printed[i].u1 == Total(m, g, o, top).indirect
    decreases 4 - j
  {
    hide Walk, Total, Good, Between, Closed;
    HeadsShare(m, g, h, top, j);
    if j < 4 {
      NextHeader(m, g, h, o, top, j, c);
      var v := Walk(m, g, h, o, Root(j), false, State(NoStats(false), c));
      LaterHeaders(m, g, h, o, top, j + 1, v.state.cache);
      assert Heads(j)[1..] == Heads(j + 1);
    }
  }

  /** Without a cache every header prints all of its tree. */
  lemma {:induction false} PlainHeaders(m: Media, g: Graph, h: Codes, o: Options, top: Blockref, j: nat)
    requires AllShare(m, g, h, top) && j <= 4 && o.cacheCount <= 0
    ensures Closed(m, g) && forall b <- Heads(j) :: InGraph(g, b)
    ensures var r := TestFrom(m, g, h, o, false, Heads(j), map[]);
            r.ok && |r.printed| == 4 - j && InGraph(g, top) &&
            forall i | 0 <= i < 4 - j :: r.printed[i].u1 == Total(m, g, o, top).indirect + Total(m, g, o, top).leaf
    decreases 4 - j
  {
    hide Walk, Total, Good, Closed;
    HeadsShare(m, g, h, top, j);
    if j < 4 {
      PlainHeaders(m, g, h, o, top, j + 1);
      UncachedPrints(m, g, h, o, Root(j), State(NoStats(false), map[]));
      HeaderTotal(m, g, h, o, top, j);
      assert Heads(j)[1..] == Heads(j + 1);
    }
  }

  lemma HeadsShare(m: Media, g: Graph, h: Codes, top: Blockref, j: nat)
    requires AllShare(m, g, h, top)
    ensures Closed(m, g) && InGraph(g, top) && (forall b <- Heads(j) :: InGraph(g, b)) &&
            (j < 4 ==> Shares(m, g, h, top, j))
  {
    hide Closed, InGraph, Good;
    assert Shares(m, g, h, top, 0);
    forall i | 0 <= i < |Heads(j)|
      ensures InGraph(g, Heads(j)[i])
    {
      assert Shares(m, g, h, top, j + i);
    }
  }

  // ----- totals -----

  lemma {:induction false} EmptiesTotal(m: Media, g: Graph, o: Options, b: Blockref, i: nat)
    requires Closed(m, g) && InGraph(g, b) && b.HasData() && b.dataOff in m && Sized(b.kind, m[b.dataOff])
    requires i <= SlotCount(b.kind, m[b.dataOff])
    requires forall j | i <= j < SlotCount(b.kind, m[b.dataOff]) :: Children(b.kind, m[b.dataOff])[j] == NOTHING
    ensures var t := TotalFrom(m, g, o, b, i);
            t.indirect == t.leaf == 0 && t.count == SlotCount(b.kind, m[b.dataOff]) - i
    decreases SlotCount(b.kind, m[b.dataOff]) - i
  {
    hide Closed, Total;
    if i < SlotCount(b.kind, m[b.dataOff]) {
      ChildInGraph(m, g, b, i);
      BareTotal(m, g, o, NOTHING);
      EmptiesTotal(m, g, o, b, i + 1);
    }
  }

  lemma BareTotal(m: Media, g: Graph, o: Options, b: Blockref)
    requires Closed(m, g) && InGraph(g, b) && !b.HasData()
    ensures var t := Total(m, g, o, b);
            t.count == 1 && t.indirect == (if b.kind == INDIRECT then 1 else 0) &&
            t.leaf == if b.kind == FREEMAP_LEAF then 1 else 0
  {
    hide Closed, TotalFrom, OwnKind, OwnBytes;
    OwnShare(o, b);
  }

  lemma HeaderTotal(m: Media, g: Graph, h: Codes, o: Options, top: Blockref, j: nat)
    requires Shares(m, g, h, top, j)
    ensures var t, u := Total(m, g, o, Root(j)), Total(m, g, o, top); t.indirect == u.indirect && t.leaf == u.leaf
  {
    hide Closed, Good, TotalFrom, Children, Header, OwnKind, OwnBytes, Plus;
    HeadChildren(m, g, h, top, j);
    var b := Root(j);
    EmptiesTotal(m, g, o, b, 1);
    FirstTotal(m, g, o, b);
    TotalSplits(m, g, o, b);
    assert Children(VOLUME, m[Head(j)])[0] == top;
  }

  lemma TotalSplits(m: Media, g: Graph, o: Options, b: Blockref)
    requires Closed(m, g) && InGraph(g, b) && b.HasData() && b.dataOff in m && 0 < SlotCount(b.kind, m[b.dataOff])
    ensures Sized(b.kind, m[b.dataOff]) && InGraph(g, Children(b.kind, m[b.dataOff])[0])
    ensures var t, u, w := Total(m, g, o, b), Total(m, g, o, Children(b.kind, m[b.dataOff])[0]), TotalFrom(m, g, o, b, 1);
            t.indirect == u.indirect + w.indirect + (if b.kind == INDIRECT then 1 else 0) &&
            t.leaf == u.leaf + w.leaf + (if b.kind == FREEMAP_LEAF then 1 else 0) && t.count == u.count + w.count + 1
  {
    FirstTotal(m, g, o, b);
    hide Closed, TotalFrom, Children, Pow2;
    OwnShare(o, b);
    hide OwnKind, OwnBytes;
    assert Total(m, g, o, b) == Plus(Plus(OwnKind(o, b), OwnBytes(b)).(count := 1), TotalFrom(m, g, o, b, 0));
  }

  lemma OwnShare(o: Options, b: Blockref)
    ensures var own := Plus(OwnKind(o, b), OwnBytes(b));
            own.count == 0 && own.indirect == (if b.kind == INDIRECT then 1 else 0) &&
            own.leaf == if b.kind == FREEMAP_LEAF then 1 else 0
  {
    OnlyBytes(b);
    hide OwnBytes;
  }

  lemma OnlyBytes(b: Blockref)
    ensures OwnBytes(b) == ZERO.(bytes := OwnBytes(b).bytes)
  {
  }

  lemma FirstTotal(m: Media, g: Graph, o: Options, b: Blockref)
    requires Closed(m, g) && InGraph(g, b) && b.HasData() && b.dataOff in m && 0 < SlotCount(b.kind, m[b.dataOff])
    ensures Sized(b.kind, m[b.dataOff]) && InGraph(g, Children(b.kind, m[b.dataOff])[0])
    ensures TotalFrom(m, g, o, b, 0) == Plus(Total(m, g, o, Children(b.kind, m[b.dataOff])[0]), TotalFrom(m, g, o, b, 1))
  {
    hide Total, Closed, Plus;
    ChildInGraph(m, g, b, 0);
  }

  // ----- the media -----

  const STRAY := Blockref(FREEMAP_LEAF, 0, NO_DATA, 0, 0, false, 0)

  function Link(i: nat): Blockref {
    Blockref(INDIRECT, 0, Spot(i), 0, 0, false, 0)
  }

  /** Block `i` of a chain: the block before it, and a blockref of a freemap leaf. */
  function Cells(i: nat): Block {
    Padded([if i == 0 then NOTHING else Link(i - 1), STRAY], 32)
  }

  /** Four volume headers that share a chain of `n` indirect blocks. */
  function Strays(n: nat): Media
    requires n > 0
  {
    SpotMap(n) + HeadMap(4, Link(n - 1))
  }

  function SpotMap(n: nat): Media {
    if n == 0 then map[] else SpotMap(n - 1)[Spot(n - 1) := Cells(n - 1)]
  }

  lemma {:induction false} SpotMapAt(n: nat)
    ensures forall a <- SpotMap(n) :: a.radix == 12 && IsSpot(a, n)
    ensures forall i: nat | i < n :: Spot(i) in SpotMap(n) && SpotMap(n)[Spot(i)] == Cells(i)
  {
    hide Cells;
    if n > 0 {
      SpotMapAt(n - 1);
      assert forall a <- SpotMap(n) :: a in SpotMap(n - 1) || a == Spot(n - 1);
    }
  }

  function HeadMap(k: nat, top: Blockref): (m: Media)
    requires k <= 4
    ensures forall a <- m :: a.radix == 16 && IsHead(a)
    ensures forall j: nat | j < k :: Head(j) in m && m[Head(j)] == Header(top)
  {
    if k == 0 then map[] else HeadMap(k - 1, top)[Head(k - 1) := Header(top)]
  }

  function StraysGraph(n: nat): Graph {
    Graph((set i: nat | i < n :: (INDIRECT, Spot(i))) + (set j: nat | j < 4 :: (VOLUME, Head(j))),
          SpotRank(n) + HeadRank(4, n))
  }

  function SpotRank(n: nat): (r: map<DataOff, nat>)
    ensures forall a <- r :: a.radix == 12
    ensures forall i: nat | i < n :: Spot(i) in r && r[Spot(i)] == i
  {
    if n == 0 then map[] else SpotRank(n - 1)[Spot(n - 1) := n - 1]
  }

  function HeadRank(k: nat, n: nat): (r: map<DataOff, nat>)
    ensures forall a <- r :: a.radix == 16
    ensures forall j: nat | j < k :: Head(j) in r && r[Head(j)] == n
  {
    if k == 0 then map[] else HeadRank(k - 1, n)[Head(k - 1) := n]
  }

  ghost predicate IsSpot(a: DataOff, n: nat) {
    exists i: nat :: i < n && a == Spot(i)
  }

  ghost predicate IsHead(a: DataOff) {
    exists j: nat :: j < 4 && a == Head(j)
  }

  lemma StraysAt(n: nat)
    requires n > 0
    ensures var m := Strays(n);
            (forall i: nat | i < n :: Spot(i) in m && m[Spot(i)] == Cells(i)) &&
            (forall j: nat | j < 4 :: Head(j) in m && m[Head(j)] == Header(Link(n - 1))) &&
            forall a <- m :: IsSpot(a, n) || IsHead(a)
  {
    hide Cells, Header, Link;
    var m := Strays(n);
    var low, high := SpotMap(n), HeadMap(4, Link(n - 1));
    SpotMapAt(n);
    forall i: nat | i < n
      ensures Spot(i) in m && m[Spot(i)] == Cells(i)
    {
      assert Spot(i) in low && Spot(i) !in high;
    }
    forall j: nat | j < 4
      ensures Head(j) in m && m[Head(j)] == Header(Link(n - 1))
    {
      assert Head(j) in high;
    }
    forall a <- m
      ensures IsSpot(a, n) || IsHead(a)
    {
      assert a in low || a in high;
    }
  }

  lemma StraysLaid(n: nat)
    requires n > 0
    ensures Laid(Strays(n))
  {
    hide Strays, Pow2, Cells, Header, IsSpot, IsHead;
    Sizes();
    StraysAt(n);
    var m := Strays(n);
    forall a <- m
      ensures 10 <= a.radix <= 16 && 128 * |m[a]| == Pow2(a.radix)
    {
      SpotSize(m, n, a);
    }
    forall a <- m, b <- m | a != b
      ensures a.off + Pow2(a.radix) <= b.off || b.off + Pow2(b.radix) <= a.off
    {
      SpotsApart(n, a, b);
    }
  }

  lemma SpotSize(m: Media, n: nat, a: DataOff)
    requires n > 0 && a in m && (IsSpot(a, n) || IsHead(a))
    requires forall i: nat | i < n :: Spot(i) in m && m[Spot(i)] == Cells(i)
    requires forall j: nat | j < 4 :: Head(j) in m && m[Head(j)] == Header(Link(n - 1))
    ensures 10 <= a.radix <= 16 && 128 * |m[a]| == Pow2(a.radix)
  {
    hide Pow2;
    Sizes();
  }

  lemma SpotsApart(n: nat, a: DataOff, b: DataOff)
    requires (IsSpot(a, n) || IsHead(a)) && (IsSpot(b, n) || IsHead(b)) && a != b
    ensures a.off + Pow2(a.radix) <= b.off || b.off + Pow2(b.radix) <= a.off
  {
    hide Pow2;
    Sizes();
  }

  lemma StraysIn(n: nat)
    requires n > 0
    ensures var g := StraysGraph(n);
            InGraph(g, NOTHING) && InGraph(g, STRAY) && (forall i: nat | i < n :: InGraph(g, Link(i))) &&
            (forall j: nat | j < 4 :: InGraph(g, Root(j))) &&
            (forall i: nat | i < n :: Spot(i) in g.rank && g.rank[Spot(i)] == i) &&
            (forall j: nat | j < 4 :: Head(j) in g.rank && g.rank[Head(j)] == n) &&
            forall v <- g.views :: (v.0 == INDIRECT && IsSpot(v.1, n)) || (v.0 == VOLUME && IsHead(v.1))
  {
    var g := StraysGraph(n);
    var low, high := SpotRank(n), HeadRank(4, n);
    forall i: nat | i < n
      ensures (INDIRECT, Spot(i)) in g.views && Spot(i) in g.rank && g.rank[Spot(i)] == i
    {
      assert Spot(i) in low && Spot(i) !in high;
    }
    forall j: nat | j < 4
      ensures (VOLUME, Head(j)) in g.views && Head(j) in g.rank && g.rank[Head(j)] == n
    {
      assert Head(j) in high;
    }
  }

  lemma SpotClosed(m: Media, g: Graph, n: nat, i: nat)
    requires i < n && Spot(i) in m && m[Spot(i)] == Cells(i) && InGraph(g, NOTHING) && InGraph(g, STRAY)
    requires forall k: nat | k < n :: InGraph(g, Link(k)) && Spot(k) in g.rank && g.rank[Spot(k)] == k
    ensures Sized(INDIRECT, m[Spot(i)]) && |m[Spot(i)]| == 32
    ensures forall k | IsSlot(INDIRECT, m[Spot(i)], k) ::
              InGraph(g, m[Spot(i)][k]) && Below(m, g, m[Spot(i)][k], Spot(i))
  {
    hide InGraph;
  }

  lemma HeadClosed(m: Media, g: Graph, n: nat, j: nat)
    requires n > 0 && Head(j) in m && m[Head(j)] == Header(Link(n - 1)) && InGraph(g, NOTHING) &&
             InGraph(g, Link(n - 1))
    requires Head(j) in g.rank && g.rank[Head(j)] == n && Spot(n - 1) in g.rank && g.rank[Spot(n - 1)] == n - 1
    ensures Sized(VOLUME, m[Head(j)]) && |m[Head(j)]| == 512
    ensures forall k | IsSlot(VOLUME, m[Head(j)], k) :: InGraph(g, m[Head(j)][k]) && Below(m, g, m[Head(j)][k], Head(j))
  {
    hide InGraph;
  }

  lemma StraysClosed(n: nat)
    requires n > 0
    ensures Closed(Strays(n), StraysGraph(n))
  {
    hide Strays, StraysGraph, Cells, Header, InGraph, Below;
    StraysAt(n);
    StraysIn(n);
    var m, g := Strays(n), StraysGraph(n);
    forall v <- g.views | v.1 in m
      ensures v.1 in g.rank && Sized(v.0, m[v.1]) &&
              forall i | IsSlot(v.0, m[v.1], i) :: InGraph(g, m[v.1][i]) && Below(m, g, m[v.1][i], v.1)
    {
      if v.0 == INDIRECT {
        var i: nat :| i < n && v.1 == Spot(i);
        SpotClosed(m, g, n, i);
      } else {
        var j: nat :| j < 4 && v.1 == Head(j);
        HeadClosed(m, g, n, j);
      }
    }
  }

  // ----- the chain is good, and counts a stray in every block -----

  lemma {:induction false} AllGood(m: Media, g: Graph, h: Codes, b: Blockref, i: nat)
    requires Closed(m, g) && InGraph(g, b) && b.HasData() && b.dataOff in m && Sized(b.kind, m[b.dataOff])
    requires i <= SlotCount(b.kind, m[b.dataOff])
    requires forall c <- Children(b.kind, m[b.dataOff]) :: InGraph(g, c) && Good(m, g, h, c)
    ensures GoodFrom(m, g, h, b, i)
    decreases SlotCount(b.kind, m[b.dataOff]) - i
  {
    hide Closed, Good, InGraph, Sized, Children;
    if i < SlotCount(b.kind, m[b.dataOff]) {
      ChildInGraph(m, g, b, i);
      assert Children(b.kind, m[b.dataOff])[i] in Children(b.kind, m[b.dataOff]);
      AllGood(m, g, h, b, i + 1);
    }
  }

  lemma BareGood(m: Media, g: Graph, h: Codes, b: Blockref)
    requires Closed(m, g) && InGraph(g, b) && !b.HasData() && ValidKind(b.kind)
    ensures Good(m, g, h, b)
  {
    hide Closed, GoodFrom;
  }

  lemma BlockGood(m: Media, g: Graph, h: Codes, b: Blockref)
    requires Closed(m, g) && InGraph(g, b) && b.HasData() && b.dataOff in m && ValidKind(b.kind)
    requires CheckOk(h, b, m[b.dataOff]) && GoodFrom(m, g, h, b, 0)
    ensures Good(m, g, h, b)
  {
    hide Closed, GoodFrom, CheckOk;
  }

  lemma CellChildren(m: Media, i: nat)
    requires Spot(i) in m && m[Spot(i)] == Cells(i)
    ensures SlotCount(INDIRECT, m[Spot(i)]) == 32 && Sized(INDIRECT, m[Spot(i)])
    ensures var cs := Children(INDIRECT, m[Spot(i)]);
            cs[0] == (if i == 0 then NOTHING else Link(i - 1)) && cs[1] == STRAY &&
            forall k | 2 <= k < 32 :: cs[k] == NOTHING
  {
  }

  lemma {:induction false} ChainGood(h: Codes, n: nat, i: nat)
    requires i < n
    ensures Closed(Strays(n), StraysGraph(n)) && InGraph(StraysGraph(n), Link(i)) &&
            Good(Strays(n), StraysGraph(n), h, Link(i))
    decreases i
  {
    hide Strays, StraysGraph, Closed, InGraph, Good, Cells, Children;
    StraysClosed(n);
    StraysAt(n);
    StraysIn(n);
    var m, g := Strays(n), StraysGraph(n);
    BareGood(m, g, h, NOTHING);
    BareGood(m, g, h, STRAY);
    if i > 0 {
      ChainGood(h, n, i - 1);
    }
    CellChildren(m, i);
    AllGood(m, g, h, Link(i), 0);
    BlockGood(m, g, h, Link(i));
  }

  lemma {:induction false} ChainTotal(o: Options, n: nat, i: nat)
    requires i < n
    ensures Closed(Strays(n), StraysGraph(n)) && InGraph(StraysGraph(n), Link(i))
    ensures var t := Total(Strays(n), StraysGraph(n), o, Link(i));
            t.indirect == t.leaf == i + 1 && t.count >= 32 * (i + 1)
    decreases i
  {
    hide Strays, StraysGraph, Closed, InGraph, Cells, Children, Total, TotalFrom;
    StraysClosed(n);
    StraysAt(n);
    StraysIn(n);
    var m, g, b := Strays(n), StraysGraph(n), Link(i);
    CellChildren(m, i);
    BareTotal(m, g, o, NOTHING);
    BareTotal(m, g, o, STRAY);
    TotalSplits(m, g, o, b);
    SecondTotal(m, g, o, b);
    EmptiesTotal(m, g, o, b, 2);
    if i > 0 {
      ChainTotal(o, n, i - 1);
    }
  }

  lemma SecondTotal(m: Media, g: Graph, o: Options, b: Blockref)
    requires Closed(m, g) && InGraph(g, b) && b.HasData() && b.dataOff in m && 1 < SlotCount(b.kind, m[b.dataOff])
    ensures Sized(b.kind, m[b.dataOff]) && InGraph(g, Children(b.kind, m[b.dataOff])[1])
    ensures TotalFrom(m, g, o, b, 1) == Plus(Total(m, g, o, Children(b.kind, m[b.dataOff])[1]), TotalFrom(m, g, o, b, 2))
  {
    hide Total, Closed, Plus;
    ChildInGraph(m, g, b, 1);
  }

  lemma StraysShare(h: Codes, n: nat)
    requires n > 0
    ensures AllShare(Strays(n), StraysGraph(n), h, Link(n - 1))
  {
    hide Strays, StraysGraph, Closed, InGraph, Good, Header, Children, Shares, Cells;
    StraysClosed(n);
    StraysAt(n);
    StraysIn(n);
    var m, g, top := Strays(n), StraysGraph(n), Link(n - 1);
    ChainGood(h, n, n - 1);
    BareGood(m, g, h, NOTHING);
    assert Rank(m, g, top) == n;
    forall j: nat | j < 4
      ensures Shares(m, g, h, top, j)
    {
      HeadShares(m, g, h, top, j);
    }
    forall j: nat | j < 4
      ensures Rank(m, g, Root(j)) == n + 1
    {
    }
  }

  lemma HeadShares(m: Media, g: Graph, h: Codes, top: Blockref, j: nat)
    requires Closed(m, g) && InGraph(g, top) && InGraph(g, Root(j)) && Head(j) in m && m[Head(j)] == Header(top)
    requires InGraph(g, NOTHING) && Good(m, g, h, NOTHING) && top.HasData() && Good(m, g, h, top)
    requires Rank(m, g, top) < Rank(m, g, Root(j))
    ensures Shares(m, g, h, top, j)
  {
    hide Closed, InGraph, Good, Header, Children, Rank;
    HeadIs(m, top, j);
    AllGood(m, g, h, Root(j), 0);
    BlockGood(m, g, h, Root(j));
  }

  lemma HeadIs(m: Media, top: Blockref, j: nat)
    requires Head(j) in m && m[Head(j)] == Header(top)
    ensures SlotCount(VOLUME, m[Head(j)]) == 4 && Sized(VOLUME, m[Head(j)])
    ensures forall c <- Children(VOLUME, m[Head(j)]) :: c == top || c == NOTHING
  {
  }

  /** All headers are good, but the statistics printed for every one but the first are
      not those of a run without a cache: for every threshold above one, on media with
      enough blocks to reach it. */
  lemma PrintedDependsOnCache(h: Codes, o: Options, n: nat)
    requires n > 0 && 2 <= o.cacheCount <= 32 * n
    ensures var m, g, roots := Strays(n), StraysGraph(n), Heads(0);
            Laid(m) && Closed(m, g) && (forall b <- roots :: InGraph(g, b)) &&
            var r := TestFrom(m, g, h, o, false, roots, map[]);
            var plain := TestFrom(m, g, h, o.(cacheCount := -1), false, roots, map[]);
            r.ok && plain.ok && |r.printed| == |plain.printed| == 4 &&
            forall i | 1 <= i < 4 :: r.printed[i].u1 == n && plain.printed[i].u1 == 2 * n
  {
    hide Strays, StraysGraph, Closed, InGraph, Good, Total, Walk, Shares, AllShare, Between, Laid;
    var m, g, top := Strays(n), StraysGraph(n), Link(n - 1);
    StraysLaid(n);
    StraysShare(h, n);
    ChainTotal(o, n, n - 1);
    var o' := o.(cacheCount := -1);
    ChainTotal(o', n, n - 1);
    PlainHeaders(m, g, h, o', top, 0);
    HeadsShare(m, g, h, top, 0);
    FirstHeader(m, g, h, o, top, 0);
    var v := Walk(m, g, h, o, Root(0), false, State(NoStats(false), map[]));
    NoHeads(m, g, h, o, top);
    LaterHeaders(m, g, h, o, top, 1, v.state.cache);
    assert Heads(0)[1..] == Heads(1);
    HeadReadable(m, g, h, top);
  }

  lemma HeadReadable(m: Media, g: Graph, h: Codes, top: Blockref)
    requires Shares(m, g, h, top, 0)
    ensures Head(0) in m
  {
    hide Closed, Good;
  }

  lemma NoHeads(m: Media, g: Graph, h: Codes, o: Options, top: Blockref)
    requires AllShare(m, g, h, top) && Closed(m, g) && InGraph(g, Root(0))
    requires var v := Walk(m, g, h, o, Root(0), false, State(NoStats(false), map[]));
             Sound(m, g, h, o, v.state.cache) && Lookup(v.state.cache, top).Some?
    ensures Between(m, g, h, o, top, 1, Walk(m, g, h, o, Root(0), false, State(NoStats(false), map[])).state.cache)
  {
    hide Closed, Good, Lookup, Walk, InGraph, AllShare, Sound;
    var s := State(NoStats(false), map[]);
    forall i: nat | i < 4
      ensures Lookup(s.cache, Root(i)).None?
    {
      NoLookup(Root(i));
    }
    OthersStay(m, g, h, o, top, 0, s);
  }

  // ----- a threshold of one -----

  /** A block that is only looked at is remembered, with a threshold of one. */
  lemma UnvisitedIsCached(m: Media, g: Graph, h: Codes, o: Options, b: Blockref, s: State)
    requires Closed(m, g) && InGraph(g, b) && b.HasData() && b.dataOff in m
    requires ValidKind(b.kind) && CheckOk(h, b, m[b.dataOff]) && o.cacheCount == 1 && !o.force
    ensures var v := Walk(m, g, h, o, b, true, s); v.ok && Lookup(v.state.cache, b).Some?
  {
    hide Closed, InGraph, Lookup, Finish, WalkFrom, OwnKind, OwnBytes, Bump, Plus, LoadDelta, CheckOk;
    if Lookup(s.cache, b).None? {
      var d2 := Plus(OwnKind(o, b), OwnBytes(b));
      var s2 := s.(stats := Bump(Bump(s.stats, OwnKind(o, b)), OwnBytes(b)));
      FinishOk(o, b, d2, s2);
      FinishLookup(o, b, false, d2, s2, b);
    }
  }

  lemma FinishOk(o: Options, b: Blockref, d: Delta, s: State)
    ensures var v := Finish(o, b, false, d, s); v.ok && v.delta.count == d.count + 1
  {
    hide AddEntry;
  }

  /** The first block of the area, with a wrong check code. */
  function Broken(h: Codes): Blockref {
    Blockref(INDIRECT, CHECK_ISCSI32, Spot(1), h.icrc32(Cells(1)) + 1, 0, false, 0)
  }

  /** A block with a blockref of no known type, below a good one. */
  const UNKNOWN: Block := Padded([Blockref(7, 0, NO_DATA, 0, 0, false, 0)], 32)

  const UNSAFE: Media := map[Spot(1) := Cells(1), Spot(0) := UNKNOWN]

  const UNSAFE_GRAPH: Graph := Graph({(INDIRECT, Spot(1)), (INDIRECT, Spot(0))}, map[Spot(1) := 1, Spot(0) := 0])

  lemma UnsafeLaid()
    ensures Laid(UNSAFE)
  {
    hide Pow2;
    Sizes();
  }

  lemma UnsafeClosed(h: Codes)
    ensures Closed(UNSAFE, UNSAFE_GRAPH) && InGraph(UNSAFE_GRAPH, Broken(h)) && InGraph(UNSAFE_GRAPH, Link(0)) &&
            InGraph(UNSAFE_GRAPH, NOTHING) && InGraph(UNSAFE_GRAPH, STRAY)
  {
  }

  lemma UnknownIsBad(h: Codes)
    ensures Closed(UNSAFE, UNSAFE_GRAPH) && InGraph(UNSAFE_GRAPH, Link(0)) && !Good(UNSAFE, UNSAFE_GRAPH, h, Link(0))
  {
    UnsafeClosed(h);
    hide Closed;
    var m, g, b := UNSAFE, UNSAFE_GRAPH, Link(0);
    ChildInGraph(m, g, b, 0);
    assert !ValidKind(Children(INDIRECT, m[Spot(0)])[0].kind);
    assert !GoodFrom(m, g, h, b, 0);
  }

  /** A block that failed its check fails, and leaves what its children left. */
  lemma WalkFailed(m: Media, g: Graph, h: Codes, o: Options, b: Blockref, s: State) returns (d: Delta, t: State)
    requires Closed(m, g) && InGraph(g, b) && b.HasData() && b.dataOff in m
    requires !CheckOk(h, b, m[b.dataOff]) && Lookup(s.cache, b).None?
    ensures t.cache == s.cache
    ensures var v := Walk(m, g, h, o, b, false, s);
            !v.ok && v.state.cache == WalkFrom(m, g, h, o, b, true, 0, d, t).state.cache
  {
    hide Closed, WalkFrom, OwnKind, OwnBytes, Bump, Plus, CheckOk, Lookup;
    d := Plus(OwnKind(o, b), OwnBytes(b));
    t := State(Bump(Bump(s.stats, OwnKind(o, b)), OwnBytes(b)), s.cache);
  }

  lemma BrokenFails(h: Codes)
    ensures Spot(1) in UNSAFE && Spot(0) in UNSAFE && UNSAFE[Spot(1)] == Cells(1) &&
            !CheckOk(h, Broken(h), UNSAFE[Spot(1)])
  {
    hide Cells;
  }

  /** The failed block looks at its children only, and remembers the first. */
  lemma BrokenWalked(h: Codes, o: Options, stats: Stats)
    requires o.cacheCount == 1 && !o.force
    ensures Closed(UNSAFE, UNSAFE_GRAPH) && InGraph(UNSAFE_GRAPH, Broken(h))
    ensures var first := Walk(UNSAFE, UNSAFE_GRAPH, h, o, Broken(h), false, State(stats, map[]));
            !first.ok && Lookup(first.state.cache, Link(0)).Some?
  {
    hide Closed, InGraph, WalkFrom, Cells, Children, Lookup, Walk, UNSAFE, UNSAFE_GRAPH, CheckOk;
    UnsafeClosed(h);
    BrokenFails(h);
    var m, g, b := UNSAFE, UNSAFE_GRAPH, Broken(h);
    CellChildren(m, 1);
    NoLookup(b);
    var d, t := WalkFailed(m, g, h, o, b, State(stats, map[]));
    LooksBelow(m, g, h, o, b, d, t);
  }

  lemma LooksBelow(m: Media, g: Graph, h: Codes, o: Options, b: Blockref, d: Delta, s: State)
    requires Closed(m, g) && InGraph(g, b) && b.HasData() && b.dataOff in m && o.cacheCount == 1 && !o.force
    requires SlotCount(b.kind, m[b.dataOff]) == 32 && Sized(b.kind, m[b.dataOff])
    requires InGraph(g, Link(0)) && Spot(0) in m && InGraph(g, STRAY)
    requires var cs := Children(b.kind, m[b.dataOff]);
             cs[0] == Link(0) && cs[1] == STRAY && forall k | 2 <= k < 32 :: cs[k] == NOTHING
    ensures var v := WalkFrom(m, g, h, o, b, true, 0, d, s); v.ok && Lookup(v.state.cache, Link(0)).Some?
  {
    hide Walk, Closed, InGraph, Lookup, Children, WalkFrom;
    UnvisitedIsCached(m, g, h, o, Link(0), s);
    var v := Walk(m, g, h, o, Link(0), true, s);
    WalkBare(m, g, h, o, STRAY, true, v.state);
    var w := Walk(m, g, h, o, STRAY, true, v.state);
    LooksOn(m, g, h, o, b, 0, d, s);
    LooksOn(m, g, h, o, b, 1, d, v.state);
    EmptiesWalked(m, g, h, o, b, true, 2, d, w.state);
  }

  lemma LooksOn(m: Media, g: Graph, h: Codes, o: Options, b: Blockref, i: nat, d: Delta, s: State)
    requires Closed(m, g) && InGraph(g, b) && b.HasData() && b.dataOff in m && i < SlotCount(b.kind, m[b.dataOff])
    requires Sized(b.kind, m[b.dataOff]) && InGraph(g, Children(b.kind, m[b.dataOff])[i])
    requires Walk(m, g, h, o, Children(b.kind, m[b.dataOff])[i], true, s).ok
    ensures WalkFrom(m, g, h, o, b, true, i, d, s) ==
            WalkFrom(m, g, h, o, b, true, i + 1, d, Walk(m, g, h, o, Children(b.kind, m[b.dataOff])[i], true, s).state)
  {
    hide Walk, Closed;
  }

  /** Without the force option a threshold of one is unsafe: a block that was only looked
      at as the child of a failed block is remembered as verified, and a later header that
      reaches it is passed although it is not good. */
  lemma ThresholdOneCachesUnverified(h: Codes, o: Options, stats: Stats)
    requires o.cacheCount == 1 && !o.force
    ensures var m, g, bad, later := UNSAFE, UNSAFE_GRAPH, Broken(h), Link(0);
            Laid(m) && Closed(m, g) && InGraph(g, bad) && InGraph(g, later) && !Good(m, g, h, later) &&
            var first := Walk(m, g, h, o, bad, false, State(stats, map[]));
            !first.ok && Walk(m, g, h, o, later, false, first.state.(stats := stats)).ok
  {
    UnsafeLaid();
    UnsafeClosed(h);
    UnknownIsBad(h);
    BrokenWalked(h, o, stats);
    hide Closed, InGraph, WalkFrom, Good, Lookup, Laid, UNSAFE, UNSAFE_GRAPH;
  }
}
