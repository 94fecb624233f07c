/** Verification of a HAMMER2 blockref tree, with the per-subtree statistics
    cache shared by the volume headers. */
module FsckVerify {
  import opened Common
  import opened Blockrefs

  /** `delta_stats_t`: what one subtree adds to the totals. */
  datatype Delta = Delta(blockref: nat, empty: nat, bytes: nat,
                         inode: nat, indirect: nat, data: nat, dirent: nat,
                         node: nat, leaf: nat, count: nat)

  const ZERO := Delta(0, 0, 0, 0, 0, 0, 0, 0, 0, 0)

  function Plus(a: Delta, b: Delta): Delta {
    Delta(a.blockref + b.blockref, a.empty + b.empty, a.bytes + b.bytes,
          a.inode + b.inode, a.indirect + b.indirect, a.data + b.data, a.dirent + b.dirent,
          a.node + b.node, a.leaf + b.leaf, a.count + b.count)
  }

  /** `blockref_stats_t`.  The volume and freemap counters share a C union, so
      `u0` is both total_inode and total_freemap_node, and `u1` is both
      total_indirect and total_freemap_leaf. */
  datatype Stats = Stats(freemap: bool, blockref: nat, empty: nat, bytes: nat,
                         u0: nat, u1: nat, u2: nat, u3: nat)

  /** Counters bumped one by one while walking. */
  function Bump(s: Stats, d: Delta): Stats {
    s.(blockref := s.blockref + d.blockref, empty := s.empty + d.empty, bytes := s.bytes + d.bytes,
       u0 := s.u0 + d.inode + d.node, u1 := s.u1 + d.indirect + d.leaf,
       u2 := s.u2 + d.data, u3 := s.u3 + d.dirent)
  }

  /** Counters loaded from a cached delta: only the half that matches the run. */
  function LoadDelta(s: Stats, d: Delta): Stats {
    var t := s.(blockref := s.blockref + d.blockref, empty := s.empty + d.empty, bytes := s.bytes + d.bytes);
    if s.freemap then t.(u0 := s.u0 + d.node, u1 := s.u1 + d.leaf)
    else t.(u0 := s.u0 + d.inode, u1 := s.u1 + d.indirect, u2 := s.u2 + d.data, u3 := s.u3 + d.dirent)
  }

  /** The subtree has no block of the other kind of tree. */
  predicate SameTree(freemap: bool, d: Delta) {
    if freemap then d.inode == d.indirect == d.data == d.dirent == 0 else d.node == d.leaf == 0
  }

  datatype Options = Options(countEmpty: bool, force: bool, cacheCount: int)

  type Cache = map<DataOff, seq<(Blockref, Delta)>>

  datatype State = State(stats: Stats, cache: Cache)

  datatype Visit = Visit(ok: bool, delta: Delta, state: State)

  // ----- plain verification: the reference the cached walk is held to -----

  /** What one blockref contributes by itself, before and after its media is read. */
  function OwnKind(o: Options, b: Blockref): Delta {
    if b.kind == EMPTY then (if o.countEmpty then ZERO.(blockref := 1, empty := 1) else ZERO)
    else if b.kind == INODE then ZERO.(blockref := 1, inode := 1)
    else if b.kind == INDIRECT then ZERO.(blockref := 1, indirect := 1)
    else if b.kind == DATA then ZERO.(blockref := 1, data := 1)
    else if b.kind == DIRENT then ZERO.(blockref := 1, dirent := 1)
    else if b.kind == FREEMAP_NODE then ZERO.(blockref := 1, node := 1)
    else if b.kind == FREEMAP_LEAF then ZERO.(blockref := 1, leaf := 1)
    else if b.kind == VOLUME || b.kind == FREEMAP then ZERO
    else ZERO.(blockref := 1)
  }

  function OwnBytes(b: Blockref): Delta {
    if b.kind == VOLUME || b.kind == FREEMAP then ZERO else ZERO.(bytes := b.Bytes())
  }

  /** A subtree is good when every blockref in it has a valid kind, can be read
      and matches the check code held by its parent. */
  predicate Good(m: Media, ghost g: Graph, h: Codes, b: Blockref)
    requires Closed(m, g) && InGraph(g, b)
    decreases Rank(m, g, b), 1
  {
    ValidKind(b.kind) &&
    (b.HasData() ==>
       b.dataOff in m && CheckOk(h, b, m[b.dataOff]) && GoodFrom(m, g, h, b, 0))
  }

  predicate GoodFrom(m: Media, ghost g: Graph, h: Codes, b: Blockref, i: nat)
    requires Closed(m, g) && InGraph(g, b) && b.HasData() && b.dataOff in m
    requires i <= SlotCount(b.kind, m[b.dataOff])
    decreases Rank(m, g, b), 0, SlotCount(b.kind, m[b.dataOff]) - i
  {
    i == SlotCount(b.kind, m[b.dataOff]) ||
    (ChildInGraph(m, g, b, i);
     Good(m, g, h, Children(b.kind, m[b.dataOff])[i]) && GoodFrom(m, g, h, b, i + 1))
  }

  /** The statistics of a subtree, children added in slot order. */
  function Total(m: Media, ghost g: Graph, o: Options, b: Blockref): Delta
    requires Closed(m, g) && InGraph(g, b)
    decreases Rank(m, g, b), 1
  {
    var own := Plus(OwnKind(o, b), OwnBytes(b)).(count := 1);
    if b.HasData() && b.dataOff in m then Plus(own, TotalFrom(m, g, o, b, 0)) else own
  }

  function TotalFrom(m: Media, ghost g: Graph, o: Options, b: Blockref, i: nat): Delta
    requires Closed(m, g) && InGraph(g, b) && b.HasData() && b.dataOff in m
    requires i <= SlotCount(b.kind, m[b.dataOff])
    decreases Rank(m, g, b), 0, SlotCount(b.kind, m[b.dataOff]) - i
  {
    if i == SlotCount(b.kind, m[b.dataOff]) then ZERO
    else
      ChildInGraph(m, g, b, i);
      Plus(Total(m, g, o, Children(b.kind, m[b.dataOff])[i]), TotalFrom(m, g, o, b, i + 1))
  }

  // ----- the walk with the cache -----

  function FindIn(entries: seq<(Blockref, Delta)>, b: Blockref): (r: Option<Delta>)
    ensures r.Some? ==> (b, r.value) in entries
  {
    if entries == [] then None
    else if entries[0].0 == b then Some(entries[0].1)
    else FindIn(entries[1..], b)
  }

  function Lookup(c: Cache, b: Blockref): (r: Option<Delta>)
    ensures r.Some? ==> b.dataOff in c && (b, r.value) in c[b.dataOff]
  {
    if b.dataOff != NO_DATA && b.dataOff in c then FindIn(c[b.dataOff], b) else None
  }

  function AddEntry(c: Cache, b: Blockref, d: Delta): Cache {
    c[b.dataOff := (if b.dataOff in c then c[b.dataOff] else []) + [(b, d)]]
  }

  /** `verify_blockref`: accounts for `b`, checks it against its own check code,
      then visits its children; a block that failed is not descended into
      below its direct children. */
  function Walk(m: Media, ghost g: Graph, h: Codes, o: Options, b: Blockref, norecurse: bool, s: State): Visit
    requires Closed(m, g) && InGraph(g, b)
    decreases Rank(m, g, b), 1
  {
    var hit := Lookup(s.cache, b);
    if hit.Some? then
      Visit(true, hit.value, s.(stats := LoadDelta(s.stats, hit.value)))
    else
      var badKind := !ValidKind(b.kind);
      var d1 := OwnKind(o, b);
      var s1 := s.(stats := Bump(s.stats, d1));
      if b.HasData() && b.dataOff !in m then
        Visit(false, d1, s1)
      else
        var d2 := Plus(d1, OwnBytes(b));
        var s2 := s1.(stats := Bump(s1.stats, OwnBytes(b)));
        if !b.HasData() then
          Finish(o, b, badKind, d2, s2)
        else
          var failed := badKind || !CheckOk(h, b, m[b.dataOff]);
          if norecurse && !o.force then
            Finish(o, b, failed, d2, s2)
          else
            var kids := WalkFrom(m, g, h, o, b, failed, 0, d2, s2);
            if !kids.ok then kids else Finish(o, b, failed, kids.delta, kids.state)
  }

  function WalkFrom(m: Media, ghost g: Graph, h: Codes, o: Options, b: Blockref, failed: bool,
                    i: nat, d: Delta, s: State): Visit
    requires Closed(m, g) && InGraph(g, b) && b.HasData() && b.dataOff in m
    requires i <= SlotCount(b.kind, m[b.dataOff])
    decreases Rank(m, g, b), 0, SlotCount(b.kind, m[b.dataOff]) - i
  {
    if i == SlotCount(b.kind, m[b.dataOff]) then Visit(true, d, s)
    else
      ChildInGraph(m, g, b, i);
      var v := Walk(m, g, h, o, Children(b.kind, m[b.dataOff])[i], failed, s);
      if !v.ok then Visit(false, d, v.state)
      else WalkFrom(m, g, h, o, b, failed, i + 1, if failed then d else Plus(d, v.delta), v.state)
  }

  /** Count the block; remember the subtree once it is large enough. */
  function Finish(o: Options, b: Blockref, failed: bool, d: Delta, s: State): Visit {
    if failed then Visit(false, d, s)
    else
      var d' := d.(count := d.count + 1);
      if b.dataOff != NO_DATA && o.cacheCount > 0 && d'.count >= o.cacheCount then
        Visit(true, d', s.(cache := AddEntry(s.cache, b, d')))
      else
        Visit(true, d', s)
  }

  // ----- soundness of the cache -----

  ghost predicate SoundEntry(m: Media, g: Graph, h: Codes, o: Options, off: DataOff, e: (Blockref, Delta))
    requires Closed(m, g)
  {
    e.0.dataOff == off && InGraph(g, e.0) && Good(m, g, h, e.0) && e.1 == Total(m, g, o, e.0)
  }

  /** Every entry describes a fully verified subtree and its exact statistics. */
  ghost predicate Sound(m: Media, g: Graph, h: Codes, o: Options, c: Cache)
    requires Closed(m, g)
  {
    forall off <- c, e <- c[off] :: SoundEntry(m, g, h, o, off, e)
  }

  /** A threshold of one would also remember blocks checked without recursion. */
  predicate SafeThreshold(o: Options) {
    o.cacheCount != 1 || o.force
  }

  ghost predicate Agrees(m: Media, g: Graph, h: Codes, o: Options, b: Blockref, norecurse: bool, s: State, v: Visit)
    requires Closed(m, g) && InGraph(g, b)
  {
    Sound(m, g, h, o, v.state.cache) && v.state.stats.freemap == s.stats.freemap &&
    (!norecurse || o.force ==>
       v.ok == Good(m, g, h, b) &&
       (v.ok ==> v.delta == Total(m, g, o, b) &&
                 (SameTree(s.stats.freemap, v.delta) ==> v.state.stats == Bump(s.stats, v.delta))))
  }

  lemma AddEntrySound(m: Media, g: Graph, h: Codes, o: Options, c: Cache, b: Blockref, d: Delta)
    requires Closed(m, g) && Sound(m, g, h, o, c) && InGraph(g, b)
    requires Good(m, g, h, b) && d == Total(m, g, o, b)
    ensures Sound(m, g, h, o, AddEntry(c, b, d))
  {
    var c' := AddEntry(c, b, d);
    forall off, e | off in c' && e in c'[off]
      ensures SoundEntry(m, g, h, o, off, e)
    {
      if off != b.dataOff || (off in c && e in c[off]) {
        assert off in c && e in c[off];
      }
    }
  }

  lemma PlusAssociative(a: Delta, b: Delta, c: Delta)
    ensures Plus(Plus(a, b), c) == Plus(a, Plus(b, c))
  {
  }

  lemma ZeroAddsNothing(s: Stats, d: Delta)
    ensures Plus(d, ZERO) == d && Bump(s, ZERO) == s
  {
  }

  /** Bumping by a sum is bumping twice, and a sum is of one tree only when both parts are. */
  lemma BumpPlus(s: Stats, a: Delta, b: Delta)
    ensures Bump(s, Plus(a, b)) == Bump(Bump(s, a), b)
    ensures SameTree(s.freemap, Plus(a, b)) <==> SameTree(s.freemap, a) && SameTree(s.freemap, b)
    ensures SameTree(s.freemap, a) ==> LoadDelta(s, a) == Bump(s, a)
  {
  }

  /** What the children of `b` from slot `i` on must have done. */
  ghost predicate AgreesFrom(m: Media, g: Graph, h: Codes, o: Options, b: Blockref, failed: bool,
                             i: nat, d: Delta, s: State, v: Visit)
    requires Closed(m, g) && InGraph(g, b) && b.HasData() && b.dataOff in m
    requires i <= SlotCount(b.kind, m[b.dataOff])
  {
    Sound(m, g, h, o, v.state.cache) && v.state.stats.freemap == s.stats.freemap &&
    (!failed ==>
       v.ok == GoodFrom(m, g, h, b, i) &&
       (v.ok ==>
          v.delta == Plus(d, TotalFrom(m, g, o, b, i)) &&
          (SameTree(s.stats.freemap, TotalFrom(m, g, o, b, i)) ==>
             v.state.stats == Bump(s.stats, TotalFrom(m, g, o, b, i)))))
  }

  /** Counting a block before or after its children makes no difference. */
  lemma CountOnce(s: Stats, own: Delta, rest: Delta)
    requires own.count == 0
    ensures var sum := Plus(own, rest);
            var whole := Plus(own.(count := 1), rest);
            whole == sum.(count := sum.count + 1) && Bump(s, whole) == Bump(s, sum) &&
            (SameTree(s.freemap, whole) <==> SameTree(s.freemap, sum))
  {
  }

  /** The cached walk returns the plain verdict, leaves only true entries in the
      cache and, on success, adds exactly the statistics of the subtree. */
  lemma {:induction false} WalkAgrees(m: Media, g: Graph, h: Codes, o: Options, b: Blockref, norecurse: bool, s: State)
    requires Closed(m, g) && InGraph(g, b) && Sound(m, g, h, o, s.cache) && SafeThreshold(o)
    ensures Agrees(m, g, h, o, b, norecurse, s, Walk(m, g, h, o, b, norecurse, s))
    decreases Rank(m, g, b), 1
  {
    var hit := Lookup(s.cache, b);
    if hit.Some? {
      assert SoundEntry(m, g, h, o, b.dataOff, (b, hit.value));
      BumpPlus(s.stats, hit.value, ZERO);
    } else if !b.HasData() {
      BumpPlus(s.stats, OwnKind(o, b), OwnBytes(b));
      LeafAgrees(m, g, h, o, b, norecurse, Plus(OwnKind(o, b), OwnBytes(b)), s);
    } else if b.dataOff in m {
      var own := Plus(OwnKind(o, b), OwnBytes(b));
      var failed := !ValidKind(b.kind) || !CheckOk(h, b, m[b.dataOff]);
      assert Total(m, g, o, b) == Plus(own.(count := 1), TotalFrom(m, g, o, b, 0));
      var s2 := s.(stats := Bump(s.stats, own));
      BumpPlus(s.stats, OwnKind(o, b), OwnBytes(b));
      WalkFromAgrees(m, g, h, o, b, failed, 0, own, s2);
      BranchAgrees(m, g, h, o, b, norecurse, failed, own, s);
    }
  }

  /** A blockref without data, its own contribution being `own`. */
  lemma LeafAgrees(m: Media, g: Graph, h: Codes, o: Options, b: Blockref, norecurse: bool, own: Delta, s: State)
    requires Closed(m, g) && InGraph(g, b) && Sound(m, g, h, o, s.cache)
    requires !b.HasData() && own.count == 0 && Total(m, g, o, b) == own.(count := 1)
    ensures Agrees(m, g, h, o, b, norecurse, s,
                   Finish(o, b, !ValidKind(b.kind), own, s.(stats := Bump(s.stats, own))))
  {
    CountOnce(s.stats, own, ZERO);
  }

  /** A block with readable data, its own contribution being `own`. */
  lemma BranchAgrees(m: Media, g: Graph, h: Codes, o: Options, b: Blockref, norecurse: bool, failed: bool,
                     own: Delta, s: State)
    requires Closed(m, g) && InGraph(g, b) && Sound(m, g, h, o, s.cache) && SafeThreshold(o)
    requires b.HasData() && b.dataOff in m && own.count == 0
    requires failed == (!ValidKind(b.kind) || !CheckOk(h, b, m[b.dataOff]))
    requires Total(m, g, o, b) == Plus(own.(count := 1), TotalFrom(m, g, o, b, 0))
    requires var s2 := s.(stats := Bump(s.stats, own));
             AgreesFrom(m, g, h, o, b, failed, 0, own, s2, WalkFrom(m, g, h, o, b, failed, 0, own, s2))
    ensures var s2 := s.(stats := Bump(s.stats, own));
            var kids := WalkFrom(m, g, h, o, b, failed, 0, own, s2);
            Agrees(m, g, h, o, b, norecurse, s,
                   if norecurse && !o.force then Finish(o, b, failed, own, s2)
                   else if !kids.ok then kids
                   else Finish(o, b, failed, kids.delta, kids.state))
  {
    var s2 := s.(stats := Bump(s.stats, own));
    var kids := WalkFrom(m, g, h, o, b, failed, 0, own, s2);
    if failed {
    } else if norecurse && !o.force {
      assert Finish(o, b, failed, own, s2).state == s2;
    } else if kids.ok {
      assert Good(m, g, h, b);
      var rest := TotalFrom(m, g, o, b, 0);
      CountOnce(s.stats, own, rest);
      BumpPlus(s.stats, own, rest);
      AddEntrySound(m, g, h, o, kids.state.cache, b, Total(m, g, o, b));
    }
  }

  lemma {:induction false} WalkFromAgrees(m: Media, g: Graph, h: Codes, o: Options, b: Blockref, failed: bool,
                                          i: nat, d: Delta, s: State)
    requires Closed(m, g) && InGraph(g, b) && b.HasData() && b.dataOff in m
    requires i <= SlotCount(b.kind, m[b.dataOff])
    requires Sound(m, g, h, o, s.cache) && SafeThreshold(o)
    ensures AgreesFrom(m, g, h, o, b, failed, i, d, s, WalkFrom(m, g, h, o, b, failed, i, d, s))
    decreases Rank(m, g, b), 0, SlotCount(b.kind, m[b.dataOff]) - i
  {
    hide Plus, Bump, LoadDelta, SameTree, Total, Good, Walk, Sound;
    if i < SlotCount(b.kind, m[b.dataOff]) {
      ChildInGraph(m, g, b, i);
      var c := Children(b.kind, m[b.dataOff])[i];
      WalkAgrees(m, g, h, o, c, failed, s);
      var v := Walk(m, g, h, o, c, failed, s);
      if v.ok {
        var d' := if failed then d else Plus(d, v.delta);
        WalkFromAgrees(m, g, h, o, b, failed, i + 1, d', v.state);
        var rest := TotalFrom(m, g, o, b, i + 1);
        if !failed {
          PlusAssociative(d, v.delta, rest);
          BumpPlus(s.stats, v.delta, rest);
        }
      }
    } else {
      ZeroAddsNothing(s.stats, d);
    }
  }

  /** Caching never changes the verdict: any sound cache and any safe threshold
      give what a walk with caching switched off gives. */
  lemma CachedVerdictIsPlain(m: Media, g: Graph, h: Codes, o: Options, b: Blockref, s: State)
    requires Closed(m, g) && InGraph(g, b) && Sound(m, g, h, o, s.cache) && SafeThreshold(o)
    ensures var cached := Walk(m, g, h, o, b, false, s);
            var plain := Walk(m, g, h, o.(cacheCount := -1), b, false, s.(cache := map[]));
            cached.ok == plain.ok == Good(m, g, h, b) &&
            (cached.ok ==> cached.delta == plain.delta)
  {
    WalkAgrees(m, g, h, o, b, false, s);
    TotalIgnoresCaching(m, g, o, -1, b);
    WalkAgrees(m, g, h, o.(cacheCount := -1), b, false, s.(cache := map[]));
  }

  lemma {:induction false} TotalIgnoresCaching(m: Media, g: Graph, o: Options, n: int, b: Blockref)
    requires Closed(m, g) && InGraph(g, b)
    ensures Total(m, g, o.(cacheCount := n), b) == Total(m, g, o, b)
    decreases Rank(m, g, b), 1
  {
    if b.HasData() && b.dataOff in m {
      TotalFromIgnoresCaching(m, g, o, n, b, 0);
    }
  }

  lemma {:induction false} TotalFromIgnoresCaching(m: Media, g: Graph, o: Options, n: int, b: Blockref, i: nat)
    requires Closed(m, g) && InGraph(g, b) && b.HasData() && b.dataOff in m
    requires i <= SlotCount(b.kind, m[b.dataOff])
    ensures TotalFrom(m, g, o.(cacheCount := n), b, i) == TotalFrom(m, g, o, b, i)
    decreases Rank(m, g, b), 0, SlotCount(b.kind, m[b.dataOff]) - i
  {
    if i < SlotCount(b.kind, m[b.dataOff]) {
      ChildInGraph(m, g, b, i);
      TotalIgnoresCaching(m, g, o, n, Children(b.kind, m[b.dataOff])[i]);
      TotalFromIgnoresCaching(m, g, o, n, b, i + 1);
    }
  }

  /** The printed statistics of a good subtree are independent of what happens
      to be cached exactly when the subtree has no block of the other kind of
      tree: the cached load skips those, the walk counts them into the union. */
  lemma StatsCacheFree(m: Media, g: Graph, h: Codes, o: Options, b: Blockref, stats: Stats)
    requires Closed(m, g) && InGraph(g, b) && SafeThreshold(o) && Good(m, g, h, b) && b.HasData()
    ensures SameTree(stats.freemap, Total(m, g, o, b)) <==>
            forall c: Cache | Sound(m, g, h, o, c) ::
              Walk(m, g, h, o, b, false, State(stats, c)).state.stats == Bump(stats, Total(m, g, o, b))
  {
    var total := Total(m, g, o, b);
    forall c: Cache | SameTree(stats.freemap, total) && Sound(m, g, h, o, c)
      ensures Walk(m, g, h, o, b, false, State(stats, c)).state.stats == Bump(stats, total)
    {
      WalkAgrees(m, g, h, o, b, false, State(stats, c));
    }
    if !SameTree(stats.freemap, total) {
      var c := CacheOfOne(m, g, h, o, b, stats);
    }
  }

  lemma CacheOfOne(m: Media, g: Graph, h: Codes, o: Options, b: Blockref, stats: Stats) returns (c: Cache)
    requires Closed(m, g) && InGraph(g, b) && Good(m, g, h, b) && b.HasData()
    requires !SameTree(stats.freemap, Total(m, g, o, b))
    ensures Sound(m, g, h, o, c)
    ensures Walk(m, g, h, o, b, false, State(stats, c)).state.stats != Bump(stats, Total(m, g, o, b))
  {
    hide Good, Total, WalkFrom, Bump, LoadDelta, Plus, OwnKind, SameTree;
    var total := Total(m, g, o, b);
    c := map[b.dataOff := [(b, total)]];
    assert SoundEntry(m, g, h, o, b.dataOff, (b, total));
    assert Lookup(c, b) == Some(total);
    LoadDiffers(stats, total);
  }

  lemma LoadDiffers(s: Stats, d: Delta)
    requires !SameTree(s.freemap, d)
    ensures LoadDelta(s, d) != Bump(s, d)
  {
  }

  // ----- all volume headers -----

  function NoStats(freemap: bool): Stats {
    Stats(freemap, 0, 0, 0, 0, 0, 0, 0)
  }

  /** The verdict, the statistics printed for each header, and the cache. */
  datatype Report = Report(ok: bool, printed: seq<Stats>, cache: Cache)

  /** `test_blockref`: one walk per header, fresh statistics, one shared cache.
      A header that cannot be read ends the run. */
  function TestFrom(m: Media, ghost g: Graph, h: Codes, o: Options, freemap: bool, roots: seq<Blockref>,
                    cache: Cache): Report
    requires Closed(m, g) && forall b <- roots :: InGraph(g, b)
  {
    if roots == [] then Report(true, [], cache)
    else if roots[0].HasData() && roots[0].dataOff !in m then Report(false, [], cache)
    else
      var v := Walk(m, g, h, o, roots[0], false, State(NoStats(freemap), cache));
      After(v, TestFrom(m, g, h, o, freemap, roots[1..], v.state.cache))
  }

  function After(v: Visit, rest: Report): Report {
    Report(v.ok && rest.ok, [v.state.stats] + rest.printed, rest.cache)
  }

  /** A report on the headers done so far, then one on the others. */
  function Sofar(ok: bool, printed: seq<Stats>, rest: Report): Report {
    Report(ok && rest.ok, printed + rest.printed, rest.cache)
  }

  lemma SofarAfter(ok: bool, printed: seq<Stats>, v: Visit, rest: Report)
    ensures Sofar(ok, printed, After(v, rest)) == Sofar(ok && v.ok, printed + [v.state.stats], rest)
  {
    assert printed + ([v.state.stats] + rest.printed) == printed + [v.state.stats] + rest.printed;
  }

  lemma TestUnfolds(m: Media, g: Graph, h: Codes, o: Options, freemap: bool, roots: seq<Blockref>, i: nat, cache: Cache)
    requires Closed(m, g) && (forall b <- roots :: InGraph(g, b)) && i < |roots|
    ensures var v := Walk(m, g, h, o, roots[i], false, State(NoStats(freemap), cache));
            TestFrom(m, g, h, o, freemap, roots[i..], cache) ==
            if roots[i].HasData() && roots[i].dataOff !in m then Report(false, [], cache)
            else After(v, TestFrom(m, g, h, o, freemap, roots[i + 1..], v.state.cache))
  {
    assert roots[i..][1..] == roots[i + 1..];
  }

  lemma TestStarts(m: Media, g: Graph, h: Codes, o: Options, freemap: bool, roots: seq<Blockref>, cache: Cache)
    requires Closed(m, g) && forall b <- roots :: InGraph(g, b)
    ensures TestFrom(m, g, h, o, freemap, roots, cache) == Sofar(true, [], TestFrom(m, g, h, o, freemap, roots[0..], cache))
  {
    hide TestFrom, Closed;
    assert roots[0..] == roots;
  }

  lemma TestStops(ok: bool, printed: seq<Stats>, cache: Cache)
    ensures Sofar(ok, printed, Report(false, [], cache)) == Report(false, printed, cache)
  {
  }

  lemma TestEnds(m: Media, g: Graph, h: Codes, o: Options, freemap: bool, roots: seq<Blockref>,
                 ok: bool, printed: seq<Stats>, cache: Cache)
    requires Closed(m, g) && forall b <- roots :: InGraph(g, b)
    ensures Sofar(ok, printed, TestFrom(m, g, h, o, freemap, roots[|roots|..], cache)) == Report(ok, printed, cache)
  {
  }

  /** What a run over the headers must report. */
  ghost predicate ReportsOn(m: Media, g: Graph, h: Codes, o: Options, freemap: bool, roots: seq<Blockref>, r: Report)
    requires Closed(m, g) && forall b <- roots :: InGraph(g, b)
  {
    Sound(m, g, h, o, r.cache) &&
    (r.ok <==> forall b <- roots :: Good(m, g, h, b)) &&
    |r.printed| <= |roots| && (r.ok ==> |r.printed| == |roots|) &&
    forall i | 0 <= i < |r.printed| :: HeaderReported(m, g, h, o, freemap, roots[i], r.printed[i])
  }

  ghost predicate HeaderReported(m: Media, g: Graph, h: Codes, o: Options, freemap: bool, b: Blockref, printed: Stats)
    requires Closed(m, g) && InGraph(g, b)
  {
    Good(m, g, h, b) && SameTree(freemap, Total(m, g, o, b)) ==> printed == Bump(NoStats(freemap), Total(m, g, o, b))
  }

  /** Testing all headers over one cache passes exactly when every header's tree
      is good, and prints for each good one without blocks of the other kind of tree
      the statistics of its own. */
  lemma {:induction false} TestIsExact(m: Media, g: Graph, h: Codes, o: Options, freemap: bool,
                                       roots: seq<Blockref>, cache: Cache)
    requires Closed(m, g) && (forall b <- roots :: InGraph(g, b))
    requires Sound(m, g, h, o, cache) && SafeThreshold(o)
    ensures ReportsOn(m, g, h, o, freemap, roots, TestFrom(m, g, h, o, freemap, roots, cache))
  {
    hide Walk, Total, Sound, SameTree, Bump;
    if roots == [] {
    } else if roots[0].HasData() && roots[0].dataOff !in m {
      assert roots[0] in roots && !Good(m, g, h, roots[0]);
    } else {
      hide Good;
      var s := State(NoStats(freemap), cache);
      WalkAgrees(m, g, h, o, roots[0], false, s);
      var v := Walk(m, g, h, o, roots[0], false, s);
      assert HeaderReported(m, g, h, o, freemap, roots[0], v.state.stats);
      TestIsExact(m, g, h, o, freemap, roots[1..], v.state.cache);
      ReportGrows(m, g, h, o, freemap, roots, v, TestFrom(m, g, h, o, freemap, roots[1..], v.state.cache));
    }
  }

  lemma ReportGrows(m: Media, g: Graph, h: Codes, o: Options, freemap: bool, roots: seq<Blockref>, v: Visit, rest: Report)
    requires Closed(m, g) && (forall b <- roots :: InGraph(g, b)) && roots != []
    requires v.ok == Good(m, g, h, roots[0]) && HeaderReported(m, g, h, o, freemap, roots[0], v.state.stats)
    requires ReportsOn(m, g, h, o, freemap, roots[1..], rest)
    ensures ReportsOn(m, g, h, o, freemap, roots, After(v, rest))
  {
    hide Good, HeaderReported, Sound;
    assert forall b :: b in roots <==> b == roots[0] || b in roots[1..];
    var printed := After(v, rest).printed;
    forall i | 0 <= i < |printed|
      ensures HeaderReported(m, g, h, o, freemap, roots[i], printed[i])
    {
      if i > 0 {
        assert printed[i] == rest.printed[i - 1] && roots[i] == roots[1..][i - 1];
      }
    }
  }

  /** The tool itself: statistics and cache are updated in place. */
  class Verifier {
    var stats: Stats
    var cache: Cache

    constructor ()
      ensures cache == map[]
    {
      stats := Stats(false, 0, 0, 0, 0, 0, 0, 0);
      cache := map[];
    }

    method VerifyBlockref(m: Media, ghost g: Graph, h: Codes, o: Options, b: Blockref, norecurse: bool)
      returns (ok: bool, delta: Delta)
      requires Closed(m, g) && InGraph(g, b)
      modifies this
      ensures Visit(ok, delta, State(stats, cache)) ==
              Walk(m, g, h, o, b, norecurse, old(State(stats, cache)))
      decreases Rank(m, g, b), 1
    {
      hide WalkFrom, Plus, Bump, LoadDelta, OwnKind, OwnBytes, Lookup, CheckOk, AddEntry;
      var hit := Lookup(cache, b);
      if hit.Some? {
        stats := LoadDelta(stats, hit.value);
        return true, hit.value;
      }
      var failed := !ValidKind(b.kind);
      delta := OwnKind(o, b);
      stats := Bump(stats, delta);
      if b.HasData() && b.dataOff !in m {
        return false, delta;
      }
      delta := Plus(delta, OwnBytes(b));
      stats := Bump(stats, OwnBytes(b));
      if b.HasData() {
        if !CheckOk(h, b, m[b.dataOff]) {
          failed := true;
        }
        if !norecurse || o.force {
          var kidsOk, kids := VerifyChildren(m, g, h, o, b, failed, delta);
          delta := kids;
          if !kidsOk {
            return false, delta;
          }
        }
      }
      if failed {
        return false, delta;
      }
      delta := delta.(count := delta.count + 1);
      if b.dataOff != NO_DATA && o.cacheCount > 0 && delta.count >= o.cacheCount {
        cache := AddEntry(cache, b, delta);
      }
      return true, delta;
    }

    /** The loop over the child blockrefs; a failed parent adds nothing to its delta. */
    method VerifyChildren(m: Media, ghost g: Graph, h: Codes, o: Options, b: Blockref, failed: bool, own: Delta)
      returns (ok: bool, delta: Delta)
      requires Closed(m, g) && InGraph(g, b) && b.HasData() && b.dataOff in m
      modifies this
      ensures Visit(ok, delta, State(stats, cache)) ==
              WalkFrom(m, g, h, o, b, failed, 0, own, old(State(stats, cache)))
      decreases Rank(m, g, b), 0
    {
      delta := own;
      var i := 0;
      while i < SlotCount(b.kind, m[b.dataOff])
        invariant 0 <= i <= SlotCount(b.kind, m[b.dataOff])
        invariant WalkFrom(m, g, h, o, b, failed, 0, own, old(State(stats, cache))) ==
                  WalkFrom(m, g, h, o, b, failed, i, delta, State(stats, cache))
      {
        ChildInGraph(m, g, b, i);
        var kidOk, kid := VerifyBlockref(m, g, h, o, Children(b.kind, m[b.dataOff])[i], failed);
        if !kidOk {
          return false, delta;
        }
        if !failed {
          delta := Plus(delta, kid);
        }
        i := i + 1;
      }
      ok := true;
    }

    /** Verifies every volume header's tree of one kind with a fresh cache. */
    method TestBlockref(m: Media, ghost g: Graph, h: Codes, o: Options, freemap: bool, roots: seq<Blockref>)
      returns (ok: bool, printed: seq<Stats>)
      requires Closed(m, g) && forall b <- roots :: InGraph(g, b)
      modifies this
      ensures Report(ok, printed, cache) == TestFrom(m, g, h, o, freemap, roots, map[])
    {
      hide Walk, Closed, TestFrom, Sofar, After;
      cache := map[];
      ok, printed := true, [];
      TestStarts(m, g, h, o, freemap, roots, cache);
      for i := 0 to |roots|
        invariant TestFrom(m, g, h, o, freemap, roots, map[]) ==
                  Sofar(ok, printed, TestFrom(m, g, h, o, freemap, roots[i..], cache))
      {
        TestUnfolds(m, g, h, o, freemap, roots, i, cache);
        if roots[i].HasData() && roots[i].dataOff !in m {
          TestStops(ok, printed, cache);
          return false, printed;
        }
        stats := NoStats(freemap);
        var good, delta := VerifyBlockref(m, g, h, o, roots[i], false);
        SofarAfter(ok, printed, Visit(good, delta, State(stats, cache)),
                   TestFrom(m, g, h, o, freemap, roots[i + 1..], cache));
        printed := printed + [stats];
        ok := ok && good;
      }
      TestEnds(m, g, h, o, freemap, roots, ok, printed, cache);
    }
  }
}
