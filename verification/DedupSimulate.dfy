/** dedup-simulate: counting duplicate data by CRC under a memory limit, in
    passes over shrinking CRC ranges. */
module DedupSimulate {
  import opened CrcRange

  datatype Rec = Rec(crc: nat, len: nat)

  datatype Entry = Entry(blks: nat, size: nat)

  /** Bytes per index entry and the memory limit. */
  datatype Memory = Memory(entry: nat, limit: nat)

  /** A limit of 1MB holds far more than three entries. */
  predicate Sane(m: Memory) {
    m.entry > 0 && m.limit >= 3 * m.entry
  }

  datatype Sim = Sim(start: nat, end: nat, use: int, tree: map<nat, Entry>)

  ghost predicate Crcs(rs: seq<Rec>) {
    forall r <- rs :: r.crc < CRCS
  }

  /** Halves the range and drops every entry at or above its new end. */
  function Evict(m: Memory, s: Sim): Sim {
    var end := Halved(s.start, s.end);
    var tree := map c | c in s.tree && c < end :: s.tree[c];
    s.(end := end, tree := tree, use := s.use - m.entry * (|s.tree| - |tree|))
  }

  function Insert(m: Memory, s: Sim, r: Rec): Sim {
    if r.crc in s.tree then
      s.(tree := s.tree[r.crc := Entry(s.tree[r.crc].blks + 1, s.tree[r.crc].size + r.len)])
    else
      s.(tree := s.tree[r.crc := Entry(1, r.len)], use := s.use + m.entry)
  }

  /** `collect_btree_elm`. */
  function Collect(m: Memory, s: Sim, r: Rec): Sim {
    Insert(m, if s.use > m.limit then Evict(m, s) else s, r)
  }

  /** The range filter of `scan_pfs`. */
  predicate Passes(s: Sim, r: Rec) {
    s.start != s.end ==> r.crc >= s.start && (s.end != 0 ==> r.crc < s.end)
  }

  function Scan(m: Memory, s: Sim, rs: seq<Rec>): Sim {
    if rs == [] then s
    else
      var t := Scan(m, s, rs[..|rs| - 1]);
      if Passes(t, rs[|rs| - 1]) then Collect(m, t, rs[|rs| - 1]) else t
  }

  /** What an unlimited scan finds for one CRC. */
  function Tally(rs: seq<Rec>, c: nat): Entry {
    if rs == [] then Entry(0, 0)
    else
      var t, r := Tally(rs[..|rs| - 1], c), rs[|rs| - 1];
      if r.crc == c then Entry(t.blks + 1, t.size + r.len) else t
  }

  /** In its range the index is exactly the unlimited scan's. */
  ghost predicate Exact(s: Sim, rs: seq<Rec>) {
    forall c | s.start <= c < Bound(s.end) ::
      (c in s.tree <==> Tally(rs, c).blks > 0) && (c in s.tree ==> s.tree[c] == Tally(rs, c))
  }

  /** Outside its range the index has at most the record that caused the last
      eviction, counted once. */
  ghost predicate Leaks(s: Sim, leak: seq<Rec>) {
    |leak| <= 1 &&
    (forall c | c in s.tree :: s.start <= c && c < CRCS && (c >= Bound(s.end) ==> leak != [] && leak[0].crc == c)) &&
    (leak != [] ==>
       leak[0].crc >= Bound(s.end) && leak[0].crc in s.tree && s.tree[leak[0].crc] == Entry(1, leak[0].len))
  }

  ghost predicate Inv(m: Memory, s: Sim, rs: seq<Rec>, leak: seq<Rec>) {
    s.start < Bound(s.end) && s.end < CRCS && s.use == m.entry * |s.tree| && Exact(s, rs) && Leaks(s, leak)
  }

  // ----- the range never closes -----

  lemma {:induction false} RangeSize(keys: set<nat>, lo: nat, hi: nat)
    requires lo <= hi && forall c <- keys :: lo <= c < hi
    ensures |keys| <= hi - lo
    decreases hi - lo
  {
    if lo == hi {
      assert keys == {};
    } else if hi - 1 in keys {
      RangeSize(keys - {hi - 1}, lo, hi - 1);
    } else {
      RangeSize(keys, lo, hi - 1);
    }
  }

  /** The index has at most one entry more than its range has CRCs. */
  lemma TreeSize(s: Sim, leak: seq<Rec>)
    requires s.start < Bound(s.end) <= CRCS && Leaks(s, leak)
    ensures |s.tree| <= Bound(s.end) - s.start + 1
  {
    var inside := set c | c in s.tree && c < Bound(s.end);
    var outside := set c | c in s.tree && c >= Bound(s.end);
    RangeSize(inside, s.start, Bound(s.end));
    assert s.tree.Keys == inside + outside;
    assert |outside| <= 1 by {
      if leak == [] {
        assert outside == {};
      } else {
        assert outside <= {leak[0].crc};
        assert |outside| <= |{leak[0].crc}| by {
          SubsetSize(outside, {leak[0].crc});
        }
      }
    }
  }

  lemma {:induction false} SubsetSize(a: set<nat>, b: set<nat>)
    requires a <= b
    ensures |a| <= |b|
    decreases |a|
  {
    if a != {} {
      var x :| x in a;
      SubsetSize(a - {x}, b - {x});
    }
  }

  /** Over the limit the range is still wide enough to halve. */
  lemma EvictKeeps(m: Memory, s: Sim, rs: seq<Rec>, leak: seq<Rec>)
    requires Sane(m) && Inv(m, s, rs, leak) && s.use > m.limit
    ensures Inv(m, Evict(m, s), rs, [])
    ensures s.start < Evict(m, s).end < Bound(s.end)
  {
    TreeSize(s, leak);
    Wide(m, |s.tree|, Bound(s.end) - s.start);
    HalvedInside(s.start, s.end);
    var t := Evict(m, s);
    assert t.end > s.start && Bound(t.end) == t.end;
    EvictUse(m, |s.tree|, |t.tree|, s.use);
  }

  lemma Wide(m: Memory, n: nat, width: nat)
    requires Sane(m) && m.entry * n > m.limit && n <= width + 1
    ensures width >= 3
  {
    assert n <= 3 ==> m.entry * n <= m.entry * 3;
  }

  lemma EvictUse(m: Memory, n: nat, k: nat, use: int)
    requires use == m.entry * n
    ensures use - m.entry * (n - k) == m.entry * k
  {
  }

  // ----- one pass -----

  lemma TallyAppend(rs: seq<Rec>, r: Rec, c: nat)
    ensures Tally(rs + [r], c) ==
              if r.crc == c then Entry(Tally(rs, c).blks + 1, Tally(rs, c).size + r.len) else Tally(rs, c)
  {
    assert (rs + [r])[..|rs|] == rs;
  }

  lemma {:induction false} TallyNone(rs: seq<Rec>, c: nat)
    ensures Tally(rs, c).blks == 0 ==> Tally(rs, c).size == 0
  {
    if rs != [] {
      TallyNone(rs[..|rs| - 1], c);
    }
  }

  /** A record in the range is counted, wherever the leak is. */
  lemma InsertInside(m: Memory, s: Sim, rs: seq<Rec>, leak: seq<Rec>, r: Rec)
    requires Inv(m, s, rs, leak) && s.start <= r.crc < Bound(s.end)
    ensures Inv(m, Insert(m, s, r), rs + [r], leak)
  {
    TallyNone(rs, r.crc);
    var t := Insert(m, s, r);
    forall c | s.start <= c < Bound(s.end)
      ensures c in t.tree <==> Tally(rs + [r], c).blks > 0
      ensures c in t.tree ==> t.tree[c] == Tally(rs + [r], c)
    {
      TallyAppend(rs, r, c);
    }
  }

  /** A record above the range leaks in, right after an eviction. */
  lemma InsertOutside(m: Memory, s: Sim, rs: seq<Rec>, r: Rec)
    requires Inv(m, s, rs, []) && Bound(s.end) <= r.crc < CRCS
    ensures Inv(m, Insert(m, s, r), rs + [r], [r])
  {
    var t := Insert(m, s, r);
    forall c | s.start <= c < Bound(s.end)
      ensures c in t.tree <==> Tally(rs + [r], c).blks > 0
      ensures c in t.tree ==> t.tree[c] == Tally(rs + [r], c)
    {
      TallyAppend(rs, r, c);
    }
  }

  lemma SkipKeeps(m: Memory, s: Sim, rs: seq<Rec>, leak: seq<Rec>, r: Rec)
    requires Inv(m, s, rs, leak) && r.crc < CRCS && !Passes(s, r)
    ensures Inv(m, s, rs + [r], leak)
  {
    forall c | s.start <= c < Bound(s.end)
      ensures Tally(rs + [r], c) == Tally(rs, c)
    {
      TallyAppend(rs, r, c);
    }
  }

  /** The record left in the index above the range, if any. */
  function Leak(m: Memory, s: Sim, rs: seq<Rec>): seq<Rec> {
    if rs == [] then []
    else
      var init, r := rs[..|rs| - 1], rs[|rs| - 1];
      var t := Scan(m, s, init);
      if !Passes(t, r) || t.use <= m.limit then Leak(m, s, init)
      else if r.crc >= Bound(Halved(t.start, t.end)) then [r]
      else []
  }

  lemma {:induction false} ScanKeeps(m: Memory, s: Sim, rs: seq<Rec>)
    requires Sane(m) && Crcs(rs) && Inv(m, s, [], [])
    ensures Inv(m, Scan(m, s, rs), rs, Leak(m, s, rs)) && Scan(m, s, rs).start == s.start
  {
    if rs != [] {
      var init, r := rs[..|rs| - 1], rs[|rs| - 1];
      ScanKeeps(m, s, init);
      assert rs == init + [r];
      var t, leak := Scan(m, s, init), Leak(m, s, init);
      if !Passes(t, r) {
        SkipKeeps(m, t, init, leak, r);
      } else if t.use <= m.limit {
        InsertInside(m, t, init, leak, r);
      } else {
        EvictKeeps(m, t, init, leak);
        if r.crc >= Evict(m, t).end {
          InsertOutside(m, Evict(m, t), init, r);
        } else {
          InsertInside(m, Evict(m, t), init, [], r);
        }
      }
    }
  }

  function Fresh(start: nat): Sim {
    Sim(start, 0, 0, map[])
  }

  /** After a pass the index is right for every CRC of its final range, and has at
      most one entry more. */
  lemma PassExact(m: Memory, start: nat, rs: seq<Rec>)
    requires Sane(m) && Crcs(rs) && start < CRCS
    ensures var s := Scan(m, Fresh(start), rs);
            s.start == start < Bound(s.end) && Exact(s, rs) && Leaks(s, Leak(m, Fresh(start), rs))
  {
    assert Inv(m, Fresh(start), [], []);
    ScanKeeps(m, Fresh(start), rs);
  }

  // ----- totals -----

  function AllocOf(e: Entry): nat {
    if e.blks == 0 then 0 else e.size / e.blks
  }

  function RangeRef(rs: seq<Rec>, lo: nat, hi: nat): nat
    requires lo <= hi
    decreases hi
  {
    if lo == hi then 0 else RangeRef(rs, lo, hi - 1) + Tally(rs, hi - 1).size
  }

  function RangeAlloc(rs: seq<Rec>, lo: nat, hi: nat): nat
    requires lo <= hi
    decreases hi
  {
    if lo == hi then 0 else RangeAlloc(rs, lo, hi - 1) + AllocOf(Tally(rs, hi - 1))
  }

  function TreeRef(tree: map<nat, Entry>, lo: nat, hi: nat): nat
    requires lo <= hi
    decreases hi
  {
    if lo == hi then 0 else TreeRef(tree, lo, hi - 1) + if hi - 1 in tree then tree[hi - 1].size else 0
  }

  function TreeAlloc(tree: map<nat, Entry>, lo: nat, hi: nat): nat
    requires lo <= hi
    decreases hi
  {
    if lo == hi then 0 else TreeAlloc(tree, lo, hi - 1) + if hi - 1 in tree then AllocOf(tree[hi - 1]) else 0
  }

  lemma {:induction false} TreeSplit(tree: map<nat, Entry>, lo: nat, mid: nat, hi: nat)
    requires lo <= mid <= hi
    ensures TreeRef(tree, lo, hi) == TreeRef(tree, lo, mid) + TreeRef(tree, mid, hi)
    ensures TreeAlloc(tree, lo, hi) == TreeAlloc(tree, lo, mid) + TreeAlloc(tree, mid, hi)
    decreases hi
  {
    if mid < hi {
      TreeSplit(tree, lo, mid, hi - 1);
    }
  }

  lemma {:induction false} TreeNone(tree: map<nat, Entry>, lo: nat, hi: nat)
    requires lo <= hi && forall c | lo <= c < hi :: c !in tree
    ensures TreeRef(tree, lo, hi) == 0 && TreeAlloc(tree, lo, hi) == 0
    decreases hi
  {
    if lo < hi {
      TreeNone(tree, lo, hi - 1);
    }
  }

  lemma {:induction false} TreeInside(s: Sim, rs: seq<Rec>, hi: nat)
    requires Exact(s, rs) && s.start <= hi <= Bound(s.end)
    ensures TreeRef(s.tree, s.start, hi) == RangeRef(rs, s.start, hi)
    ensures TreeAlloc(s.tree, s.start, hi) == RangeAlloc(rs, s.start, hi)
    decreases hi
  {
    if s.start < hi {
      TreeInside(s, rs, hi - 1);
      TallyNone(rs, hi - 1);
    }
  }

  function Lens(rs: seq<Rec>): nat {
    if rs == [] then 0 else Lens(rs[..|rs| - 1]) + rs[|rs| - 1].len
  }

  /** Above the range there is the leaked record and nothing else. */
  lemma TreeOutside(s: Sim, leak: seq<Rec>)
    requires s.start < Bound(s.end) <= CRCS && Leaks(s, leak)
    ensures TreeRef(s.tree, Bound(s.end), CRCS) == Lens(leak) == TreeAlloc(s.tree, Bound(s.end), CRCS)
  {
    var lo := Bound(s.end);
    if leak == [] {
      TreeNone(s.tree, lo, CRCS);
    } else {
      var c := leak[0].crc;
      TreeNone(s.tree, lo, c);
      TreeNone(s.tree, c + 1, CRCS);
      TreeSplit(s.tree, lo, c, CRCS);
      TreeSplit(s.tree, c, c + 1, CRCS);
      OneEntry(s.tree, c);
      assert leak[..0] == [];
    }
  }

  lemma OneEntry(tree: map<nat, Entry>, c: nat)
    requires c in tree
    ensures TreeRef(tree, c, c + 1) == tree[c].size && TreeAlloc(tree, c, c + 1) == AllocOf(tree[c])
  {
    assert TreeRef(tree, c, c) == 0 && TreeAlloc(tree, c, c) == 0;
  }

  /** A pass adds up to the unlimited totals of its range plus the leak. */
  lemma PassTotals(m: Memory, start: nat, rs: seq<Rec>)
    requires Sane(m) && Crcs(rs) && start < CRCS
    ensures var s, leak := Scan(m, Fresh(start), rs), Leak(m, Fresh(start), rs);
            start < Bound(s.end) && s.end < CRCS &&
            TreeRef(s.tree, 0, CRCS) == RangeRef(rs, start, Bound(s.end)) + Lens(leak) &&
            TreeAlloc(s.tree, 0, CRCS) == RangeAlloc(rs, start, Bound(s.end)) + Lens(leak)
  {
    assert Inv(m, Fresh(start), [], []);
    ScanKeeps(m, Fresh(start), rs);
    var s, leak := Scan(m, Fresh(start), rs), Leak(m, Fresh(start), rs);
    var e := Bound(s.end);
    hide Scan, Leak;
    TreeNone(s.tree, 0, start);
    TreeSplit(s.tree, 0, start, CRCS);
    TreeSplit(s.tree, start, e, CRCS);
    TreeInside(s, rs, e);
    TreeOutside(s, leak);
  }

  // ----- all passes -----

  datatype Sum = Sum(ref: nat, alloc: nat)

  /** The pass loop from a start CRC on, adding up what each pass collected. */
  ghost function Simulate(m: Memory, start: nat, rs: seq<Rec>): Sum
    requires Sane(m) && Crcs(rs) && start < CRCS
    decreases CRCS - start
  {
    PassTotals(m, start, rs);
    var s := Scan(m, Fresh(start), rs);
    var here := Sum(TreeRef(s.tree, 0, CRCS), TreeAlloc(s.tree, 0, CRCS));
    if s.end == 0 then here
    else
      var more := Simulate(m, s.end, rs);
      Sum(here.ref + more.ref, here.alloc + more.alloc)
  }

  /** The records counted once too often, pass by pass. */
  ghost function Leaked(m: Memory, start: nat, rs: seq<Rec>): seq<Rec>
    requires Sane(m) && Crcs(rs) && start < CRCS
    decreases CRCS - start
  {
    PassTotals(m, start, rs);
    var s := Scan(m, Fresh(start), rs);
    if s.end == 0 then Leak(m, Fresh(start), rs)
    else Leak(m, Fresh(start), rs) + Leaked(m, s.end, rs)
  }

  lemma {:induction false} LensAdd(a: seq<Rec>, b: seq<Rec>)
    ensures Lens(a + b) == Lens(a) + Lens(b)
  {
    if b == [] {
      assert a + b == a;
    } else {
      var n := |b| - 1;
      assert (a + b)[..|a| + n] == a + b[..n];
      LensAdd(a, b[..n]);
    }
  }

  lemma {:induction false} RangeSplit(rs: seq<Rec>, lo: nat, mid: nat, hi: nat)
    requires lo <= mid <= hi
    ensures RangeRef(rs, lo, hi) == RangeRef(rs, lo, mid) + RangeRef(rs, mid, hi)
    ensures RangeAlloc(rs, lo, hi) == RangeAlloc(rs, lo, mid) + RangeAlloc(rs, mid, hi)
    decreases hi
  {
    if mid < hi {
      RangeSplit(rs, lo, mid, hi - 1);
    }
  }

  /** The passes cover the CRC space without a gap; their sum is the unlimited
      scan's plus what leaked. */
  lemma {:induction false} SimulateExact(m: Memory, start: nat, rs: seq<Rec>)
    requires Sane(m) && Crcs(rs) && start < CRCS
    ensures Simulate(m, start, rs) ==
              Sum(RangeRef(rs, start, CRCS) + Lens(Leaked(m, start, rs)),
                  RangeAlloc(rs, start, CRCS) + Lens(Leaked(m, start, rs)))
    decreases CRCS - start
  {
    PassTotals(m, start, rs);
    var s := Scan(m, Fresh(start), rs);
    if s.end != 0 {
      SimulateExact(m, s.end, rs);
      RangeSplit(rs, start, s.end, CRCS);
      LensAdd(Leak(m, Fresh(start), rs), Leaked(m, s.end, rs));
    }
  }

  lemma {:induction false} RangeAppend(rs: seq<Rec>, r: Rec, lo: nat, hi: nat)
    requires lo <= hi
    ensures RangeRef(rs + [r], lo, hi) == RangeRef(rs, lo, hi) + if lo <= r.crc < hi then r.len else 0
    decreases hi
  {
    if lo < hi {
      RangeAppend(rs, r, lo, hi - 1);
      TallyAppend(rs, r, hi - 1);
    }
  }

  lemma {:induction false} RangeEmpty(lo: nat, hi: nat)
    requires lo <= hi
    ensures RangeRef([], lo, hi) == 0
    decreases hi
  {
    if lo < hi {
      RangeEmpty(lo, hi - 1);
    }
  }

  /** Over all CRCs the referenced bytes are the bytes of all records. */
  lemma {:induction false} RefIsBytes(rs: seq<Rec>)
    requires Crcs(rs)
    ensures RangeRef(rs, 0, CRCS) == Lens(rs)
  {
    hide RangeRef;
    if rs == [] {
      RangeEmpty(0, CRCS);
    } else {
      var init, r := rs[..|rs| - 1], rs[|rs| - 1];
      RefIsBytes(init);
      RangeAppend(init, r, 0, CRCS);
      assert rs == init + [r];
    }
  }

  function CrcSet(rs: seq<Rec>): set<nat> {
    set r <- rs :: r.crc
  }

  ghost predicate Unbounded(m: Memory, s: Sim) {
    s.start == 0 == s.end && s.use == m.entry * |s.tree|
  }

  lemma FitsStep(m: Memory, s: Sim, r: Rec)
    requires Unbounded(m, s) && s.use <= m.limit
    ensures Passes(s, r) && Unbounded(m, Collect(m, s, r)) && Collect(m, s, r).tree.Keys == s.tree.Keys + {r.crc}
  {
    var t := Collect(m, s, r);
    if r.crc !in s.tree {
      assert t.tree.Keys == s.tree.Keys + {r.crc};
      assert |t.tree.Keys| == |s.tree.Keys| + 1;
      assert |t.tree| == |t.tree.Keys| && |s.tree| == |s.tree.Keys|;
    } else {
      assert t.tree.Keys == s.tree.Keys;
      assert |t.tree| == |t.tree.Keys| && |s.tree| == |s.tree.Keys|;
    }
  }

  lemma FewerFit(m: Memory, a: set<nat>, b: set<nat>)
    requires a <= b && m.entry * |b| <= m.limit
    ensures m.entry * |a| <= m.limit
  {
    SubsetSize(a, b);
    assert m.entry * |a| <= m.entry * |b|;
  }

  lemma CrcSetAppend(rs: seq<Rec>, r: Rec)
    ensures CrcSet(rs + [r]) == CrcSet(rs) + {r.crc}
  {
    assert forall x <- rs :: x in rs + [r];
    assert r in rs + [r];
  }

  /** While an entry for every CRC fits, nothing is evicted. */
  lemma {:induction false} FitsScan(m: Memory, rs: seq<Rec>)
    requires rs != [] ==> m.entry * |CrcSet(rs[..|rs| - 1])| <= m.limit
    ensures var s := Scan(m, Fresh(0), rs);
            Unbounded(m, s) && s.tree.Keys == CrcSet(rs) && Leak(m, Fresh(0), rs) == []
  {
    if rs != [] {
      hide Collect, Passes, CrcSet;
      var init, r := rs[..|rs| - 1], rs[|rs| - 1];
      assert rs == init + [r];
      CrcSetAppend(init, r);
      if init != [] {
        CrcSetAppend(init[..|init| - 1], init[|init| - 1]);
        assert init == init[..|init| - 1] + [init[|init| - 1]];
        FewerFit(m, CrcSet(init[..|init| - 1]), CrcSet(init));
      }
      FitsScan(m, init);
      var t := Scan(m, Fresh(0), init);
      assert |t.tree| == |t.tree.Keys|;
      FitsStep(m, t, r);
    }
  }

  /** Once bounded, the range of a pass stays so. */
  lemma BoundedStays(m: Memory, s: Sim, rs: seq<Rec>, leak: seq<Rec>, r: Rec)
    requires Sane(m) && Inv(m, s, rs, leak) && Passes(s, r)
    ensures (s.end != 0 || s.use > m.limit) ==> Collect(m, s, r).end != 0
  {
    hide Inv, Evict;
    if s.use > m.limit {
      EvictKeeps(m, s, rs, leak);
    }
  }

  ghost predicate Fits(m: Memory, rs: seq<Rec>) {
    rs != [] ==> m.entry * |CrcSet(rs[..|rs| - 1])| <= m.limit
  }

  /** One pass is enough exactly when the CRCs of all records but the last fit. */
  lemma {:induction false} OnePassIff(m: Memory, rs: seq<Rec>)
    requires Sane(m) && Crcs(rs)
    ensures Scan(m, Fresh(0), rs).end == 0 <==> Fits(m, rs)
  {
    if rs != [] {
      var init, r := rs[..|rs| - 1], rs[|rs| - 1];
      assert rs == init + [r];
      OnePassIff(m, init);
      FreshInv(m);
      ScanKeeps(m, Fresh(0), init);
      ScanStep(m, Fresh(0), init, r);
      var t := Scan(m, Fresh(0), init);
      hide Scan, Leak, Collect, Inv, CrcSet;
      if Fits(m, init) {
        FitsScan(m, init);
        assert |t.tree| == |t.tree.Keys|;
        if t.use <= m.limit {
          FitsStep(m, t, r);
        } else {
          AllPass(m, t, r);
          BoundedStays(m, t, init, Leak(m, Fresh(0), init), r);
        }
      } else {
        if Passes(t, r) {
          BoundedStays(m, t, init, Leak(m, Fresh(0), init), r);
        }
        NeverAgain(m, init);
      }
    }
  }

  lemma FreshInv(m: Memory)
    ensures Inv(m, Fresh(0), [], [])
  {
  }

  lemma AllPass(m: Memory, s: Sim, r: Rec)
    requires Unbounded(m, s)
    ensures Passes(s, r)
  {
  }

  /** What does not fit still does not fit with one record more. */
  lemma NeverAgain(m: Memory, rs: seq<Rec>)
    requires !Fits(m, rs)
    ensures m.entry * |CrcSet(rs)| > m.limit
  {
    hide CrcSet;
    var init, r := rs[..|rs| - 1], rs[|rs| - 1];
    assert rs == init + [r];
    CrcSetAppend(init, r);
    if m.entry * |CrcSet(rs)| <= m.limit {
      FewerFit(m, CrcSet(init), CrcSet(rs));
    }
  }

  /** Then the totals are those of an unlimited scan. */
  lemma FitsExact(m: Memory, rs: seq<Rec>)
    requires Sane(m) && Crcs(rs) && Fits(m, rs)
    ensures Simulate(m, 0, rs) == Sum(Lens(rs), RangeAlloc(rs, 0, CRCS))
  {
    FitsScan(m, rs);
    SimulateExact(m, 0, rs);
    RefIsBytes(rs);
  }

  /** The bytes reported are those of the records exactly when what leaked, in any
      of the passes, has no bytes. */
  lemma LeakShows(m: Memory, rs: seq<Rec>)
    requires Sane(m) && Crcs(rs)
    ensures Simulate(m, 0, rs).ref == Lens(rs) <==> Lens(Leaked(m, 0, rs)) == 0
  {
    hide Simulate, Leaked, Lens;
    SimulateExact(m, 0, rs);
    RefIsBytes(rs);
  }

  lemma ScanStep(m: Memory, s: Sim, rs: seq<Rec>, r: Rec)
    ensures var t := Scan(m, s, rs);
            Scan(m, s, rs + [r]) == (if Passes(t, r) then Collect(m, t, r) else t) &&
            Leak(m, s, rs + [r]) == (if !Passes(t, r) || t.use <= m.limit then Leak(m, s, rs)
                                     else if r.crc >= Bound(Halved(t.start, t.end)) then [r] else [])
  {
    assert (rs + [r])[..|rs|] == rs;
  }

  /** Records with the CRCs from 0 on. */
  function Rising(n: nat, len: nat): (rs: seq<Rec>)
    ensures |rs| == n && forall i | 0 <= i < n :: rs[i] == Rec(i, len)
  {
    seq(n, i requires 0 <= i => Rec(i, len))
  }

  lemma {:induction false} RisingCrcs(n: nat, len: nat)
    ensures |CrcSet(Rising(n, len))| == n && forall c <- CrcSet(Rising(n, len)) :: c < n
    decreases n
  {
    if n > 0 {
      RisingCrcs(n - 1, len);
      CrcSetAppend(Rising(n - 1, len), Rec(n - 1, len));
      assert Rising(n, len) == Rising(n - 1, len) + [Rec(n - 1, len)];
    }
  }

  /** For every limit under which not all CRCs fit: one record more than fits, then
      one with the highest CRC.  It overflows the index, is above the halved range, is
      counted all the same, and is counted again by a later pass. */
  lemma LeakIsCountedTwice(m: Memory, len: nat)
    requires Sane(m) && m.limit / m.entry + 1 < CRCS && len > 0
    ensures var rs := Rising(m.limit / m.entry + 1, len) + [Rec(CRCS - 1, len)];
            Crcs(rs) && Simulate(m, 0, rs).ref > Lens(rs)
  {
    hide Scan, Leak, CrcSet, Simulate, Leaked, Lens, Rising;
    JustOver(m);
    var n, last := m.limit / m.entry + 1, Rec(CRCS - 1, len);
    var rs := Rising(n, len) + [last];
    RisingBelow(n, len);
    RisingLeak(m, n, len);
    SimulateExact(m, 0, rs);
    RefIsBytes(rs);
    LeakedFirst(m, rs, last);
  }

  lemma RisingBelow(n: nat, len: nat)
    requires n < CRCS
    ensures Crcs(Rising(n, len) + [Rec(CRCS - 1, len)])
  {
  }

  lemma RisingLeak(m: Memory, n: nat, len: nat)
    requires n > 0 && m.entry * (n - 1) <= m.limit < m.entry * n
    ensures Leak(m, Fresh(0), Rising(n, len) + [Rec(CRCS - 1, len)]) == [Rec(CRCS - 1, len)]
  {
    hide Scan, Leak, CrcSet, Rising, Collect;
    RisingFits(m, n, len);
    FitsScan(m, Rising(n, len));
    RisingCrcs(n, len);
    var t := Scan(m, Fresh(0), Rising(n, len));
    assert |t.tree| == |t.tree.Keys| == n;
    ScanStep(m, Fresh(0), Rising(n, len), Rec(CRCS - 1, len));
  }

  lemma JustOver(m: Memory)
    requires Sane(m)
    ensures m.entry * (m.limit / m.entry) <= m.limit < m.entry * (m.limit / m.entry + 1)
  {
  }

  lemma RisingFits(m: Memory, n: nat, len: nat)
    requires n > 0 && m.entry * (n - 1) <= m.limit
    ensures m.entry * |CrcSet(Rising(n, len)[..n - 1])| <= m.limit
  {
    RisingCrcs(n - 1, len);
    assert Rising(n, len)[..n - 1] == Rising(n - 1, len);
  }

  lemma LeakedFirst(m: Memory, rs: seq<Rec>, e: Rec)
    requires Sane(m) && Crcs(rs) && Leak(m, Fresh(0), rs) == [e]
    ensures Lens(Leaked(m, 0, rs)) >= e.len
  {
    hide Scan, Leak;
    PassTotals(m, 0, rs);
    var s := Scan(m, Fresh(0), rs);
    assert Lens([e]) == e.len by {
      assert [e][..0] == [];
    }
    if s.end != 0 {
      LensAdd([e], Leaked(m, s.end, rs));
    }
  }

  // ----- the program -----

  lemma OneLess(tree: map<nat, Entry>, c: nat)
    requires c in tree
    ensures |tree - {c}| == |tree| - 1
  {
    assert (tree - {c}).Keys == tree.Keys - {c};
    assert |tree| == |tree.Keys| && |tree - {c}| == |(tree - {c}).Keys|;
  }

  function Cost(m: Memory, n: int): int {
    m.entry * n
  }

  lemma OneMoreUse(m: Memory, n: nat)
    ensures Cost(m, 0) == 0 && Cost(m, n + 1) == Cost(m, n) + m.entry
  {
  }

  class Simulator {
    const m: Memory
    var start: nat
    var end: nat
    var use: int
    var tree: map<nat, Entry>
    var refSize: nat
    var allocSize: nat

    ghost function State(): Sim
      reads this
    {
      Sim(start, end, use, tree)
    }

    constructor (m: Memory)
      ensures this.m == m && State() == Fresh(0) && refSize == 0 == allocSize
    {
      this.m := m;
      start, end, use, tree, refSize, allocSize := 0, 0, 0, map[], 0, 0;
    }

    /** RB_MAX(). */
    method Max() returns (c: nat)
      requires tree.Keys != {}
      ensures c in tree && forall k | k in tree :: k <= c
    {
      var left := tree.Keys;
      c :| c in left;
      left := left - {c};
      while left != {}
        invariant left <= tree.Keys && c in tree && forall k | k in tree && k !in left :: k <= c
        decreases left
      {
        var k :| k in left;
        left := left - {k};
        if k > c {
          c := k;
        }
      }
    }

    /** Drops the top entry unless it is below the new end. */
    method DropTop() returns (dropped: bool)
      requires tree.Keys != {}
      modifies this`tree, this`use
      ensures !dropped ==> tree == old(tree) && use == old(use) && forall c | c in tree :: c < end
      ensures dropped ==> use == old(use) - m.entry && |tree| == |old(tree)| - 1 &&
                          exists c :: c in old(tree) && c >= end && tree == old(tree) - {c}
    {
      var c := Max();
      if c < end {
        return false;
      }
      OneLess(tree, c);
      tree := tree - {c};
      use := use - m.entry;
      dropped := true;
    }

    /** Drops entries from the top until they are below the new end. */
    method Trim()
      modifies this`tree, this`use
      ensures forall c :: c in tree <==> c in old(tree) && c < end
      ensures forall c | c in tree :: tree[c] == old(tree)[c]
      ensures use == old(use) - Cost(m, |old(tree)| - |tree|)
    {
      hide Cost;
      OneMoreUse(m, 0);
      ghost var k, n := 0, |tree|;
      while tree.Keys != {}
        invariant forall c | c in tree :: c in old(tree) && tree[c] == old(tree)[c]
        invariant forall c | c in old(tree) && c < end :: c in tree
        invariant 0 <= k && k + |tree| == n && use == old(use) - Cost(m, k)
        decreases |tree|
      {
        var dropped := DropTop();
        if !dropped {
          break;
        }
        OneMoreUse(m, k);
        k := k + 1;
      }
    }

    /** `collect_btree_elm`. */
    method CollectElm(r: Rec)
      modifies this`end, this`tree, this`use
      ensures State() == Collect(m, old(State()), r)
    {
      if use > m.limit {
        end := Halved(start, end);
        Trim();
        assert tree == map c | c in old(tree) && c < end :: old(tree)[c];
      }
      assert State() == if old(use) > m.limit then Evict(m, old(State())) else old(State());
      if r.crc !in tree {
        tree := tree[r.crc := Entry(0, 0)];
        use := use + m.entry;
      }
      tree := tree[r.crc := Entry(tree[r.crc].blks + 1, tree[r.crc].size + r.len)];
    }

    /** `scan_pfs` over the data records. */
    method ScanPfs(rs: seq<Rec>)
      modifies this`end, this`tree, this`use
      ensures State() == Scan(m, old(State()), rs)
    {
      var i := 0;
      while i < |rs|
        invariant 0 <= i <= |rs| && State() == Scan(m, old(State()), rs[..i])
      {
        assert rs[..i + 1] == rs[..i] + [rs[i]];
        ScanStep(m, old(State()), rs[..i], rs[i]);
        if start != end && (rs[i].crc < start || (end != 0 && rs[i].crc >= end)) {
        } else {
          CollectElm(rs[i]);
        }
        i := i + 1;
      }
      assert rs[..i] == rs;
    }

    /** Adds up the index and empties it, from whatever its root is. */
    method Drain()
      requires forall c | c in tree :: c < CRCS && tree[c].blks != 0
      modifies this`tree, this`refSize, this`allocSize
      ensures tree == map[]
      ensures refSize == old(refSize) + TreeRef(old(tree), 0, CRCS)
      ensures allocSize == old(allocSize) + TreeAlloc(old(tree), 0, CRCS)
    {
      hide TreeRef, TreeAlloc;
      while tree.Keys != {}
        invariant forall c | c in tree :: c < CRCS && tree[c].blks != 0
        invariant refSize + TreeRef(tree, 0, CRCS) == old(refSize) + TreeRef(old(tree), 0, CRCS)
        invariant allocSize + TreeAlloc(tree, 0, CRCS) == old(allocSize) + TreeAlloc(old(tree), 0, CRCS)
        decreases |tree|
      {
        var c :| c in tree.Keys;
        refSize := refSize + tree[c].size;
        allocSize := allocSize + tree[c].size / tree[c].blks;
        TreeRemove(tree, c, CRCS);
        OneLess(tree, c);
        tree := tree - {c};
      }
      TreeNone(tree, 0, CRCS);
    }

    /** `hammer_cmd_dedup_simulate`: passes until no range is left over. */
    method Run(rs: seq<Rec>)
      requires Sane(m) && Crcs(rs) && State() == Fresh(0) && refSize == 0 == allocSize
      modifies this
      ensures refSize == Simulate(m, 0, rs).ref && allocSize == Simulate(m, 0, rs).alloc
    {
      hide Scan, TreeRef, TreeAlloc;
      ghost var all := Simulate(m, 0, rs);
      var first := true;
      while first || end != 0
        invariant end < CRCS && (first ==> end == 0) && tree == map[]
        invariant first || end != 0 ==>
                    refSize + Simulate(m, end, rs).ref == all.ref && allocSize + Simulate(m, end, rs).alloc == all.alloc
        invariant !first && end == 0 ==> refSize == all.ref && allocSize == all.alloc
        decreases if first then CRCS + 1 else if end == 0 then 0 else CRCS - end
      {
        start, end, use := end, 0, 0;
        first := false;
        PassTotals(m, start, rs);
        PassEntries(m, start, rs);
        ScanPfs(rs);
        Drain();
      }
    }
  }

  lemma {:induction false} TreeRemove(tree: map<nat, Entry>, c: nat, hi: nat)
    requires c in tree
    ensures TreeRef(tree, 0, hi) == TreeRef(tree - {c}, 0, hi) + if c < hi then tree[c].size else 0
    ensures TreeAlloc(tree, 0, hi) == TreeAlloc(tree - {c}, 0, hi) + if c < hi then AllocOf(tree[c]) else 0
  {
    if hi > 0 {
      TreeRemove(tree, c, hi - 1);
    }
  }

  /** Every entry was referenced at least once, so the final division is safe. */
  lemma PassEntries(m: Memory, start: nat, rs: seq<Rec>)
    requires Sane(m) && Crcs(rs) && start < CRCS
    ensures var tree := Scan(m, Fresh(start), rs).tree;
            forall c | c in tree :: c < CRCS && tree[c].blks != 0
  {
    PassExact(m, start, rs);
    hide Scan, Leak, Tally;
  }
}
