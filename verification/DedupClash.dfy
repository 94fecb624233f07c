/** Records that all have one CRC and all differ: when their SHA entries do not fit,
    dedup loses records or never ends. */
module DedupClash {
  import opened Common
  import opened CrcRange
  import opened DedupIndex
  import opened DedupPasses
  import opened DedupRun

  /** The first offset of the zone for large data. */
  const LARGE_DATA: nat := 11529215046068469760

  /** Record `i` of a list, each with a block of its own. */
  function Clash(c: nat, len: nat, i: nat): Leaf {
    Leaf(c, LARGE_DATA + len * i, len)
  }

  lemma BlocksApart(len: nat, i: nat, j: nat)
    requires len > 0 && i < j
    ensures len * i + len <= len * j
  {
    assert len * (i + 1) == len * i + len;
    Times(len, i + 1, j);
  }

  function Clashes(c: nat, len: nat, n: nat): (rs: seq<Leaf>)
    ensures |rs| == n && forall i | 0 <= i < n :: rs[i] == Clash(c, len, i)
  {
    seq(n, i requires 0 <= i => Clash(c, len, i))
  }

  /** The comparison fails, and every record has a hash of its own. */
  function Differ(i: nat): Io {
    Io(CmpFailure, Some(i - 1), Some(i))
  }

  const ALL_DIFFER := Answer(Differ, Differ)

  function Always(k: nat): Answer {
    ALL_DIFFER
  }

  function Hashed(c: nat, len: nat, i: nat): Sha {
    Sha(i, Clash(c, len, i), 1, len)
  }

  function Hasheds(c: nat, len: nat, j: nat, t: nat): (shas: seq<Sha>)
    ensures |shas| == t && forall k | 0 <= k < t :: shas[k] == Hashed(c, len, j + k)
  {
    seq(t, k requires 0 <= k => Hashed(c, len, j + k))
  }

  /** The entry of the `t` records from `j` on. */
  function Entry(c: nat, len: nat, j: nat, t: nat): De
    requires t > 0
  {
    if t == 1 then Plain(Clash(c, len, j), 1, len) else Fict(Clash(c, len, j), Hasheds(c, len, j, t))
  }

  /** What `t` of the records take. */
  function Load(m: Memory, t: nat): nat {
    if t == 0 then 0 else if t == 1 then m.de else m.de + m.sha * t
  }

  lemma {:induction false} InsertLast(shas: seq<Sha>, s: Sha)
    requires forall i | 0 <= i < |shas| :: shas[i].hash < s.hash
    ensures ShaInsert(shas, s) == shas + [s]
  {
    if shas != [] {
      InsertLast(shas[1..], s);
      assert [shas[0]] + (shas[1..] + [s]) == shas + [s];
    }
  }

  /** One more of the records. */
  lemma OneMore(ix: Ix, c: nat, len: nat, j: nat, t: nat)
    requires t > 0 && len > 0 && c in ix.tree && ix.tree[c] == Entry(c, len, j, t)
    ensures var o := Offer(ix, Clash(c, len, j + t), false, Differ(j + t));
            o.fate == Indexed && o.ix.tree == ix.tree[c := Entry(c, len, j, t + 1)] &&
            o.ix.queue == ix.queue && o.ix.totals.refSize == ix.totals.refSize
  {
    hide Clash;
    var shas := Hasheds(c, len, j, t);
    ClashPlace(c, len, j, j + t);
    InsertLast(shas, Hashed(c, len, j + t));
    assert shas + [Hashed(c, len, j + t)] == Hasheds(c, len, j, t + 1);
    if t == 1 {
      OneMorePlain(ix, c, len, j);
    } else {
      OneMoreFict(ix, c, len, j, t);
    }
  }

  lemma OneMorePlain(ix: Ix, c: nat, len: nat, j: nat)
    requires len > 0 && c in ix.tree && ix.tree[c] == Entry(c, len, j, 1)
    ensures var o := Offer(ix, Clash(c, len, j + 1), false, Differ(j + 1));
            o.fate == Indexed && o.ix.queue == ix.queue && o.ix.totals.refSize == ix.totals.refSize &&
            o.ix.tree ==
            ix.tree[c := NewSha(Fict(Clash(c, len, j), Hasheds(c, len, j, 1)), j + 1, Clash(c, len, j + 1))]
  {
    hide NewSha, Clash;
    ClashPlace(c, len, j, j + 1);
    assert Hasheds(c, len, j, 1) == [Hashed(c, len, j)];
    assert ToFict(ix.tree[c], j) == Fict(Clash(c, len, j), Hasheds(c, len, j, 1));
  }

  lemma OneMoreFict(ix: Ix, c: nat, len: nat, j: nat, t: nat)
    requires t > 1 && len > 0 && c in ix.tree && ix.tree[c] == Entry(c, len, j, t)
    ensures var o := Offer(ix, Clash(c, len, j + t), false, Differ(j + t));
            o.fate == Indexed && o.ix.queue == ix.queue && o.ix.totals.refSize == ix.totals.refSize &&
            o.ix.tree ==
            ix.tree[c := NewSha(Fict(Clash(c, len, j), Hasheds(c, len, j, t)), j + t, Clash(c, len, j + t))]
  {
    hide NewSha, Clash;
    var r, io, shas := Clash(c, len, j + t), Differ(j + t), Hasheds(c, len, j, t);
    ClashPlace(c, len, j, j + t);
    forall k | 0 <= k < t
      ensures !Matches(shas[k], r, None) && !Matches(shas[k], r, io.candidate)
    {
      ClashPlace(c, len, j + k, j + t);
    }
  }

  lemma ClashPlace(c: nat, len: nat, i: nat, j: nat)
    requires len > 0 && i < j
    ensures var p, q := Clash(c, len, i), Clash(c, len, j);
            p.offset != q.offset && p.crc == q.crc == c && p.len == q.len == len
  {
    BlocksApart(len, i, j);
  }

  lemma First(ix: Ix, c: nat, len: nat, j: nat)
    requires c !in ix.tree
    ensures var o := Offer(ix, Clash(c, len, j), false, Differ(j));
            o.fate == Indexed && o.ix.tree == ix.tree[c := Entry(c, len, j, 1)] &&
            o.ix.queue == ix.queue && o.ix.totals.refSize == ix.totals.refSize
  {
  }

  lemma OnlyEntry(m: Memory, c: nat, d: De, n: nat)
    ensures SumMem(m, map[c := d], n) == if c < n then MemOf(m, d) else 0
    ensures SumBytes(map[c := d], n) == if c < n then Bytes(d) else 0
  {
    hide SumMem, SumBytes, MemOf, Bytes;
    var none: map<nat, De> := map[];
    SumPut(m, none, c, d, n);
    SumNone(m, none, n);
    assert none[c := d] == map[c := d];
  }

  lemma EntryLoad(m: Memory, c: nat, len: nat, j: nat, t: nat)
    requires t > 0 && c < CRCS
    ensures Use(m, map[c := Entry(c, len, j, t)]) == Load(m, t)
    ensures SumBytes(map[c := Entry(c, len, j, t)], CRCS) == t * len
  {
    hide SumMem, SumBytes;
    OnlyEntry(m, c, Entry(c, len, j, t), CRCS);
    if t > 1 {
      HashedBytes(c, len, j, t);
    }
  }

  lemma {:induction false} HashedBytes(c: nat, len: nat, j: nat, t: nat)
    ensures ShaBytes(Hasheds(c, len, j, t)) == t * len
    decreases t
  {
    if t > 0 {
      HashedBytes(c, len, j + 1, t - 1);
      assert Hasheds(c, len, j, t)[1..] == Hasheds(c, len, j + 1, t - 1);
    }
  }

  // ----- a pass that starts at the CRC -----

  /** The range closes on a single CRC that does not fit. */
  lemma EvictSelf(m: Memory, p: Pass, d: De)
    requires p.start <= CRCS / 2 && (p.end == 0 || p.end == p.start) && p.ix.tree == map[p.start := d]
    requires MemOf(m, d) > m.limit
    ensures Evict(m, p) == Some(p.(end := p.start, ix := p.ix.(tree := map[])))
  {
    hide SumMem, MemOf, EvictN, LastWidth, Pow2;
    OnlyEntry(m, p.start, d, CRCS);
    if p.end == 0 {
      CloseSelf(m, p, d);
      EvictAbove(m, p);
      ClosesIff(m, p);
      EmptyBelow(p);
    } else {
      var q := Reopened(m, p, d);
      HalfFits(Bound(q.end) - q.start);
      CloseSelf(m, q, d);
      CloseExact(m, q, 31);
      EvictEnds(m, q, 31);
      EvictMore(m, q, 32, 63);
      EvictOnce(m, p);
      EmptyBelow(q);
    }
  }

  lemma EvictOnce(m: Memory, p: Pass)
    requires Use(m, p.ix.tree) > m.limit
    ensures Evict(m, p) == EvictN(m, Halve(p), 63)
  {
    hide SumMem, Halve;
  }

  lemma CloseSelf(m: Memory, p: Pass, d: De)
    requires Above(p) && p.ix.tree == map[p.start := d] && MemOf(m, d) > m.limit && Bound(p.end) - p.start > 2
    ensures SumMem(m, p.ix.tree, p.start + LastWidth(Bound(p.end) - p.start)) > m.limit
  {
    hide SumMem, MemOf, LastWidth;
    OnlyEntry(m, p.start, d, p.start + LastWidth(Bound(p.end) - p.start));
  }

  /** Halving a closed range opens half of the CRCs. */
  lemma Reopened(m: Memory, p: Pass, d: De) returns (q: Pass)
    requires p.start <= CRCS / 2 && p.end == p.start && p.ix.tree == map[p.start := d]
    ensures q == Halve(p) && Above(q) && q.ix == p.ix && Bound(q.end) - p.start == CRCS / 2 - 1
  {
    q := Halve(p);
    HalvedIsHalf(p.start, p.end);
    assert Width(p.start, p.end) == CRCS;
    assert q.end == p.start + CRCS / 2 - 1;
    SameBelow(p.ix.tree, q.end);
  }

  /** How many of the first `i` records are left in the index. */
  function Left(m: Memory, i: nat): (t: nat)
    ensures t <= i && (i > 0 ==> t > 0)
  {
    if i == 0 then 0 else if Load(m, Left(m, i - 1)) > m.limit then 1 else Left(m, i - 1) + 1
  }

  lemma {:induction false} LoadGrows(m: Memory, a: nat, b: nat)
    requires a <= b
    ensures Load(m, a) <= Load(m, b)
  {
    if 1 < a {
      assert m.sha * a <= m.sha * b;
    }
  }

  /** None is lost exactly when all but the last fit. */
  lemma {:induction false} LeftAll(m: Memory, n: nat)
    requires n > 0
    ensures Left(m, n) == n <==> Load(m, n - 1) <= m.limit
  {
    if n > 1 {
      LeftAll(m, n - 1);
      LoadGrows(m, n - 2, n - 1);
    }
  }

  ghost predicate Reached(m: Memory, c: nat, len: nat, base: nat, i: nat, s: Progress) {
    s.At? && s.p.start == c && s.p.end == (if Left(m, i) == i then 0 else c) && s.p.ix.queue == [] &&
    s.p.ix.totals.refSize == base &&
    s.p.ix.tree == if i == 0 then map[] else map[c := Entry(c, len, i - Left(m, i), Left(m, i))]
  }

  lemma {:induction false} ClashScan(m: Memory, c: nat, len: nat, n: nat, ix: Ix, i: nat)
    requires c <= CRCS / 2 && len > 0 && i <= n && ix.tree == map[] && ix.queue == []
    ensures Reached(m, c, len, ix.totals.refSize, i, After(m, Pass(c, 0, ix), Clashes(c, len, n), Differ, i))
  {
    if i > 0 {
      hide Evict, Offer, SumMem, Reached;
      ClashScan(m, c, len, n, ix, i - 1);
      ClashStep(m, c, len, ix.totals.refSize, i - 1, After(m, Pass(c, 0, ix), Clashes(c, len, n), Differ, i - 1));
    } else {
      hide Evict, Offer, SumMem;
    }
  }

  lemma ClashStep(m: Memory, c: nat, len: nat, base: nat, i: nat, s: Progress)
    requires c <= CRCS / 2 && len > 0 && Reached(m, c, len, base, i, s)
    ensures Reached(m, c, len, base, i + 1, Step(m, s, Clash(c, len, i), Differ(i)))
  {
    hide Offer, SumMem, EvictN, Entry, Load, MemOf;
    var p, t, r := s.p, Left(m, i), Clash(c, len, i);
    assert !Skips(p, r);
    assert forall d: De, e: De :: (map[c := d])[c := e] == map[c := e];
    assert forall e: De :: (map[])[c := e] == map[c := e];
    if i == 0 {
      SumNone(m, p.ix.tree, CRCS);
      EvictNone(m, p);
      First(p.ix, c, len, 0);
    } else {
      EntryLoad(m, c, len, i - t, t);
      OnlyEntry(m, c, Entry(c, len, i - t, t), CRCS);
      if Load(m, t) > m.limit {
        EvictSelf(m, p, Entry(c, len, i - t, t));
        First(p.ix.(tree := map[]), c, len, i);
      } else {
        EvictNone(m, p);
        OneMore(p.ix, c, len, i - t, t);
      }
    }
  }

  lemma EvictNone(m: Memory, p: Pass)
    requires Use(m, p.ix.tree) <= m.limit
    ensures Evict(m, p) == Some(p)
  {
    hide SumMem;
  }

  /** The pass counts the records left in the index, and starts over unless that is all of them. */
  lemma ClashPass(m: Memory, c: nat, len: nat, n: nat, ix: Ix)
    requires c <= CRCS / 2 && len > 0 && n > 0 && ix.tree == map[] && ix.queue == []
    ensures var s := OnePass(m, c, ix, Clashes(c, len, n), ALL_DIFFER);
            s.At? && s.p.end == (if Load(m, n - 1) <= m.limit then 0 else c) && s.p.ix.tree == map[] &&
            s.p.ix.queue == [] &&
            s.p.ix.totals.refSize == ix.totals.refSize + Left(m, n) * len
  {
    hide After, SumBytes, SumLens, SumMem, Left, Entry;
    ClashScan(m, c, len, n, ix, n);
    LeftAll(m, n);
    EntryLoad(m, c, len, n - Left(m, n), Left(m, n));
  }

  lemma {:induction false} ClashBytes(c: nat, len: nat, n: nat)
    ensures QueueBytes(Clashes(c, len, n)) == n * len
    decreases n
  {
    if n > 0 {
      ClashBytes(c, len, n - 1);
      assert Clashes(c, len, n)[..n - 1] == Clashes(c, len, n - 1);
    }
  }

  lemma Fewer(a: nat, b: nat, x: nat)
    requires a < b && x > 0
    ensures a * x < b * x
  {
  }

  /** With CRC 0 the run ends after one pass, but it reports the bytes of all
      records exactly when all of them but the last fit into the memory. */
  lemma ZeroCrc(m: Memory, len: nat, n: nat)
    requires n > 0 && len > 0
    ensures var rs := Clashes(0, len, n);
            var s := Runs(m, rs, Always, 1);
            s.Finished? && (s.ix.totals.refSize == QueueBytes(rs) <==> Load(m, n - 1) <= m.limit)
  {
    hide OnePass, Left, QueueBytes;
    var rs := Clashes(0, len, n);
    ClashPass(m, 0, len, n, NOTHING);
    ClashBytes(0, len, n);
    LeftAll(m, n);
    assert Runs(m, rs, Always, 0) == Going(0, NOTHING);
    if Left(m, n) < n {
      Fewer(Left(m, n), n, len);
    }
  }

  // ----- CRC 1: the pass that starts there is repeated for ever -----

  lemma {:induction false} OddWidths(j: nat)
    requires 2 <= j
    ensures Pow2(j) > 3 || j == 2
    ensures Pow2(j) - 1 > 2 && LastWidth(Pow2(j) - 1) == 1
  {
    assert Pow2(j) == 2 * Pow2(j - 1);
    if j == 2 {
      assert Pow2(2) == 4;
    } else {
      OddWidths(j - 1);
      assert Half(Pow2(j) - 1) == Pow2(j - 1) - 1;
    }
  }

  lemma WholeWidth()
    ensures LastWidth(CRCS) == 1
  {
    hide Pow2;
    OddWidths(31);
    assert Pow2(31) == CRCS / 2 by {
      Pow2Of32();
      Pow2Doubles(31);
    }
    assert Half(CRCS) == CRCS / 2 - 1;
  }

  /** From the start of the CRCs the range comes down to the CRC that does not fit. */
  lemma EvictNext(m: Memory, p: Pass, d: De)
    requires p.start == 0 && p.end == 0 && p.ix.tree == map[1 := d] && MemOf(m, d) > m.limit
    ensures Evict(m, p) == Some(p.(end := 1, ix := p.ix.(tree := map[])))
  {
    hide SumMem, MemOf, EvictN, LastWidth;
    OnlyEntry(m, 1, d, CRCS);
    OnlyEntry(m, 1, d, 1);
    EvictAbove(m, p);
    ClosesIff(m, p);
    WholeWidth();
    var q := Evict(m, p).value;
    if 1 < q.end {
      SameBelow(p.ix.tree, q.end);
    }
    assert q.end == 1;
    assert q.ix.tree == map[];
  }

  /** The first pass: after an overflow everything else is left to the next pass. */
  ghost predicate FirstPass(m: Memory, len: nat, i: nat, s: Progress) {
    s.At? && s.p.start == 0 && s.p.ix.queue == [] && s.p.ix.totals.refSize == 0 &&
    if Left(m, i) == i then s.p.end == 0 && s.p.ix.tree == if i == 0 then map[] else map[1 := Entry(1, len, 0, i)]
    else s.p.end == 1 && exists j: nat :: s.p.ix.tree == map[1 := Entry(1, len, j, 1)]
  }

  lemma {:induction false} FirstScan(m: Memory, len: nat, n: nat, i: nat)
    requires i <= n && len > 0 && m.de <= m.limit
    ensures FirstPass(m, len, i, After(m, Pass(0, 0, NOTHING), Clashes(1, len, n), Differ, i))
  {
    if i > 0 {
      hide Evict, Offer, SumMem, FirstPass;
      FirstScan(m, len, n, i - 1);
      FirstStep(m, len, i - 1, After(m, Pass(0, 0, NOTHING), Clashes(1, len, n), Differ, i - 1));
    } else {
      hide Evict, Offer, SumMem;
    }
  }

  lemma FirstStep(m: Memory, len: nat, i: nat, s: Progress)
    requires FirstPass(m, len, i, s) && len > 0 && m.de <= m.limit
    ensures FirstPass(m, len, i + 1, Step(m, s, Clash(1, len, i), Differ(i)))
  {
    hide Offer, SumMem, EvictN, Entry, MemOf;
    var p := s.p;
    if i == 0 {
      SumNone(m, p.ix.tree, CRCS);
      EvictNone(m, p);
      First(p.ix, 1, len, 0);
    } else if Left(m, i) == i {
      EntryLoad(m, 1, len, 0, i);
      OnlyEntry(m, 1, Entry(1, len, 0, i), CRCS);
      if Load(m, i) > m.limit {
        EvictNext(m, p, Entry(1, len, 0, i));
        First(p.ix.(tree := map[]), 1, len, i);
        assert Left(m, i + 1) < i + 1;
      } else {
        EvictNone(m, p);
        OneMore(p.ix, 1, len, 0, i);
      }
    }
  }

  /** With CRC 1 the run ends exactly when all records but the last fit into the
      memory; otherwise every pass from the second on starts where it started. */
  lemma {:induction false} OneCrc(m: Memory, len: nat, n: nat, k: nat)
    requires n > 0 && len > 0 && m.de <= m.limit
    ensures var s := Runs(m, Clashes(1, len, n), Always, k + 1);
            if Load(m, n - 1) <= m.limit then s.Finished? && s.ix.totals.refSize == n * len
            else s.Going? && s.start == 1 && s.ix.tree == map[] && s.ix.queue == []
  {
    hide OnePass, Load, After;
    var rs := Clashes(1, len, n);
    if k == 0 {
      FirstOfAll(m, len, n);
      assert Runs(m, rs, Always, 0) == Going(0, NOTHING);
    } else {
      OneCrc(m, len, n, k - 1);
      var s := Runs(m, rs, Always, k);
      if s.Going? {
        ClashPass(m, 1, len, n, s.ix);
      }
    }
  }

  lemma FirstOfAll(m: Memory, len: nat, n: nat)
    requires n > 0 && len > 0 && m.de <= m.limit
    ensures var s := OnePass(m, 0, NOTHING, Clashes(1, len, n), ALL_DIFFER);
            s.At? && s.p.ix.tree == map[] && s.p.ix.queue == [] &&
            if Load(m, n - 1) <= m.limit then s.p.end == 0 && s.p.ix.totals.refSize == n * len else s.p.end == 1
  {
    hide After, SumBytes, SumLens, SumMem, Left, Entry;
    FirstScan(m, len, n, n);
    LeftAll(m, n);
    EntryLoad(m, 1, len, 0, n);
  }
}
