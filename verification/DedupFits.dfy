/** When one pass of dedup is enough whatever the outside answers: the memory that
    the records can come to need, record by record and CRC by CRC. */
module DedupFits {
  import opened Common
  import opened CrcRange
  import opened DedupIndex
  import opened DedupPasses
  import opened DedupRun
  import opened DedupLimits
  import opened DedupClash

  /** The most memory that records need once they are indexed: the most for each CRC. */
  function SumLoad(m: Memory, rs: seq<Leaf>, n: nat): nat {
    if n == 0 then 0 else SumLoad(m, rs, n - 1) + Load(m, CountOf(rs, n - 1))
  }

  function Less(rs: seq<Leaf>, i: nat): seq<Leaf>
    requires i < |rs|
  {
    rs[..i] + rs[i + 1..]
  }

  /** What is there when record `i` gets its second try: all others, and the CRC entry
      of a pair has a SHA entry even though only one of the two is in it. */
  function Peak(m: Memory, rs: seq<Leaf>, i: nat): nat
    requires i < |rs|
  {
    SumLoad(m, Less(rs, i), CRCS) + if CountOf(rs, rs[i].crc) == 2 then m.sha else 0
  }

  /** The records fit without the last one, and without any one that could be kept for
      pass 2: that takes another record of its CRC. */
  predicate Roomy(m: Memory, rs: seq<Leaf>) {
    (rs != [] ==> SumLoad(m, rs[..|rs| - 1], CRCS) <= m.limit) &&
    forall i | 0 <= i < |rs| && CountOf(rs, rs[i].crc) >= 2 :: Peak(m, rs, i) <= m.limit
  }

  // ----- the memory of an index -----

  lemma {:induction false} SumLoadMono(m: Memory, a: seq<Leaf>, b: seq<Leaf>, n: nat)
    requires forall c: nat :: CountOf(a, c) <= CountOf(b, c)
    ensures SumLoad(m, a, n) <= SumLoad(m, b, n)
  {
    hide CountOf, Load;
    if n > 0 {
      SumLoadMono(m, a, b, n - 1);
      LoadGrows(m, CountOf(a, n - 1), CountOf(b, n - 1));
    }
  }

  /** An entry for records of `k` in all, of which one may be left out of the index. */
  lemma EntryPeak(m: Memory, d: De, held: seq<Leaf>, c: nat, k: nat, pending: bool)
    requires StandsFor(d, held, c) && CountOf(held, c) <= k && (d.Fict? && k < 2 ==> pending)
    ensures MemOf(m, d) <= Load(m, k) + if pending && k == 1 then m.sha else 0
  {
    hide GoodDe, CountOf, LenOf, Bytes;
    ShasBound(d, c);
    BlksPositive(d, c);
    if d.Fict? {
      Times(m.sha, |d.shas|, k);
    }
  }

  /** Of the CRCs of Fict entries more than one record has been read. */
  ghost predicate Paired(tree: map<nat, De>, read: seq<Leaf>) {
    forall c | c in tree && tree[c].Fict? :: CountOf(read, c) >= 2
  }

  /** The records held are among `others`, and only CRC `x` has one that is not. */
  lemma {:induction false} MemUnder(m: Memory, tree: map<nat, De>, held: seq<Leaf>, others: seq<Leaf>, x: nat, pending: bool,
                                    n: nat)
    requires Kept(tree, held) && forall c: nat :: CountOf(held, c) <= CountOf(others, c)
    requires forall c | c in tree && tree[c].Fict? :: CountOf(others, c) >= 2 || (pending && c == x)
    ensures SumMem(m, tree, n) <= SumLoad(m, others, n) + if pending && x < n &&
            CountOf(others, x) == 1 then m.sha else 0
    decreases n
  {
    hide CountOf, Load, MemOf, StandsFor, Blks;
    if n > 0 {
      MemUnder(m, tree, held, others, x, pending, n - 1);
      var c := n - 1;
      if c in tree {
        EntryPeak(m, tree[c], held, c, CountOf(others, c), pending && c == x);
      }
    }
  }

  // ----- no eviction in the scan -----

  lemma FewerOf(held: seq<Leaf>, more: seq<Leaf>)
    requires multiset(held) <= multiset(more)
    ensures forall c: nat :: CountOf(held, c) <= CountOf(more, c)
  {
    forall c: nat
      ensures CountOf(held, c) <= CountOf(more, c)
    {
      CountMono(held, more, c);
    }
  }

  /** In a pass that has not evicted anything, what is held has been read. */
  lemma HeldRead(p: Pass, led: Ledger, base: Totals, read: multiset<Leaf>)
    requires Right(p, led, base, read) && p.start == 0 && p.end == 0
    ensures multiset(led.held) + multiset(p.ix.queue) <= read
  {
    hide QueueBytes, StandsFor;
    forall x: Leaf
      ensures multiset(led.held)[x] + multiset(p.ix.queue)[x] <= read[x]
    {
      assert Kept(p.ix.tree, led.held);
      assert x in led.held ==> x.crc < CRCS;
      assert x in p.ix.queue ==> x.crc < CRCS;
    }
  }

  lemma ScanUnder(m: Memory, p: Pass, led: Ledger, base: Totals, rs: seq<Leaf>, i: nat)
    requires i <= |rs| && Right(p, led, base, multiset(rs[..i])) && Trying(p, rs[..i])
    ensures Use(m, p.ix.tree) <= SumLoad(m, rs[..i], CRCS)
  {
    hide SumMem, SumLoad, CountOf, StandsFor, QueueBytes, Balanced;
    HeldRead(p, led, base, multiset(rs[..i]));
    FewerOf(led.held, rs[..i]);
    MemUnder(m, p.ix.tree, led.held, rs[..i], 0, false, CRCS);
  }

  lemma PrefixCount(rs: seq<Leaf>, i: nat, j: nat)
    requires i <= j <= |rs|
    ensures forall c: nat :: CountOf(rs[..i], c) <= CountOf(rs[..j], c)
  {
    hide CountOf;
    assert rs[..j] == rs[..i] + rs[i..j];
    forall c: nat
      ensures CountOf(rs[..i], c) <= CountOf(rs[..j], c)
    {
      CountAdd(rs[..i], rs[i..j], c);
    }
  }

  /** What an offer makes fictitious had a record before. */
  lemma OfferPaired(ix: Ix, held: seq<Leaf>, r: Leaf, pass2: bool, io: Io, read: seq<Leaf>)
    requires Kept(ix.tree, held) && Paired(ix.tree, read) && r.crc < CRCS
    requires r.crc in ix.tree ==> CountOf(read, r.crc) >= 2
    ensures Paired(Offer(ix, r, pass2, io).ix.tree, read)
  {
    hide CountOf, StandsFor;
    OfferFrame(ix, r, pass2, io);
    OfferFresh(ix, r, pass2, io);
  }

  lemma OfferFresh(ix: Ix, r: Leaf, pass2: bool, io: Io)
    ensures var t := Offer(ix, r, pass2, io).ix.tree;
            (r.crc !in ix.tree && r.crc in t ==> t[r.crc].Plain?)
  {
  }

  lemma HeldSome(tree: map<nat, De>, held: seq<Leaf>, c: nat)
    requires Kept(tree, held) && c in tree
    ensures CountOf(held, c) >= 1
  {
    hide GoodDe, CountOf, LenOf, Bytes, Blks;
    EntryOf(tree, held, c);
    BlksPositive(tree[c], c);
  }

  /** Records kept for pass 2 have a CRC that is in the index. */
  ghost predicate Known(p: Pass) {
    forall l <- p.ix.queue :: l.crc in p.ix.tree
  }

  lemma OfferKnown(ix: Ix, r: Leaf, pass2: bool, io: Io)
    requires forall l <- ix.queue :: l.crc in ix.tree
    ensures var o := Offer(ix, r, pass2, io); forall l <- o.ix.queue :: l.crc in o.ix.tree
  {
    hide MoreSha, MorePlain, NewSha, ToFict, FindSha, Deduplicate, SamePlace;
  }

  /** Nothing has been evicted from the first pass. */
  ghost predicate Trying(p: Pass, read: seq<Leaf>) {
    p.start == 0 && p.end == 0 && Paired(p.ix.tree, read) && Known(p)
  }

  /** A record is processed without an eviction. */
  lemma NoEvict(m: Memory, p: Pass, r: Leaf, io: Io)
    requires Use(m, p.ix.tree) <= m.limit
    ensures Evict(m, p) == Some(p) && !Closes(m, p)
  {
    hide SumMem;
  }

  lemma {:induction false} RoomyScan(m: Memory, ix: Ix, rs: seq<Leaf>, io: nat -> Io, i: nat)
    requires (forall r <- rs :: r.crc < CRCS) && i <= |rs| && ix.tree == map[] && ix.queue == []
    requires rs != [] ==> SumLoad(m, rs[..|rs| - 1], CRCS) <= m.limit
    ensures ScanOpen(m, Pass(0, 0, ix), rs, io, i)
    ensures var s := After(m, Pass(0, 0, ix), rs, io, i);
            s.At? ==> Trying(s.p, rs[..i])
  {
    hide Closes, Right, Step, ScanOpen, SumLoad, Trying, LedgerAfter, After;
    var p := Pass(0, 0, ix);
    if i == 0 {
      ScanOpenMore(m, p, rs, io, i);
      NothingTried(m, ix, rs, io);
    } else {
      RoomyScan(m, ix, rs, io, i - 1);
      ScanRight(m, p, rs, io, i - 1);
      AfterUnfolds(m, p, rs, io, i);
      var s, led := After(m, p, rs, io, i - 1), LedgerAfter(m, p, rs, io, i - 1);
      if s.At? {
        ScanUnder(m, s.p, led, ix.totals, rs, i - 1);
        PrefixCount(rs, i - 1, |rs| - 1);
        SumLoadMono(m, rs[..i - 1], rs[..|rs| - 1], CRCS);
        RoomyStep(m, s.p, led, ix.totals, rs, io(i - 1), i - 1);
      } else {
        StepStays(m, s, rs[i - 1], io(i - 1));
      }
      ScanOpenMore(m, p, rs, io, i);
    }
  }

  lemma NothingTried(m: Memory, ix: Ix, rs: seq<Leaf>, io: nat -> Io)
    requires ix.tree == map[] && ix.queue == []
    ensures var s := After(m, Pass(0, 0, ix), rs, io, 0); s.At? && Trying(s.p, rs[..0])
  {
  }

  lemma RoomyStep(m: Memory, p: Pass, led: Ledger, base: Totals, rs: seq<Leaf>, io: Io, i: nat)
    requires i < |rs| && rs[i].crc < CRCS && Right(p, led, base, multiset(rs[..i])) && Trying(p, rs[..i])
    requires Use(m, p.ix.tree) <= m.limit
    ensures !Closes(m, p)
    ensures var s := Step(m, At(p), rs[i], io); s.At? ==> Trying(s.p, rs[..i + 1])
  {
    hide SumMem, Offer, StandsFor, CountOf, Balanced, QueueBytes, Evict;
    var r := rs[i];
    NoEvict(m, p, r, io);
    HeldRead(p, led, base, multiset(rs[..i]));
    FewerOf(led.held, rs[..i]);
    PrefixCount(rs, i, i + 1);
    assert rs[..i + 1] == rs[..i] + [r];
    OfMore(rs[..i], r, r.crc);
    if r.crc in p.ix.tree {
      HeldSome(p.ix.tree, led.held, r.crc);
    }
    OfferPaired(p.ix, led.held, r, false, io, rs[..i + 1]);
    OfferKnown(p.ix, r, false, io);
  }

  // ----- no eviction in pass 2 -----

  lemma {:induction false} SameLoad(m: Memory, a: seq<Leaf>, b: seq<Leaf>, n: nat)
    requires forall c: nat :: CountOf(a, c) == CountOf(b, c)
    ensures SumLoad(m, a, n) == SumLoad(m, b, n)
  {
    hide CountOf, Load;
    if n > 0 {
      SameLoad(m, a, b, n - 1);
    }
  }

  lemma LessOf(rs: seq<Leaf>, i: nat, c: nat)
    requires i < |rs|
    ensures CountOf(Less(rs, i), c) == CountOf(rs, c) - if rs[i].crc == c then 1 else 0
    ensures multiset(Less(rs, i)) == multiset(rs) - multiset{rs[i]}
  {
    OutCount(rs, i, c);
    TakeOut(rs, i);
  }

  lemma AgainUnder(m: Memory, p: Pass, led: Ledger, base: Totals, rs: seq<Leaf>)
    requires Right(p, led, base, multiset(rs)) && Trying(p, rs) && p.ix.queue != [] && Roomy(m, rs)
    ensures CountOf(rs, p.ix.queue[0].crc) >= 2 && Use(m, p.ix.tree) <= m.limit
  {
    hide SumMem, SumLoad, CountOf, StandsFor, QueueBytes, Balanced, Less;
    var r := p.ix.queue[0];
    HeldRead(p, led, base, multiset(rs));
    assert r in p.ix.queue && r in multiset(p.ix.queue);
    assert r in multiset(rs);
    var i :| 0 <= i < |rs| && rs[i] == r;
    LessOf(rs, i, r.crc);
    assert multiset(led.held) <= multiset(rs) - multiset{r};
    FewerOf(led.held, Less(rs, i));
    HeldSome(p.ix.tree, led.held, r.crc);
    forall c | c in p.ix.tree && p.ix.tree[c].Fict?
      ensures CountOf(Less(rs, i), c) >= 2 || c == r.crc
    {
      LessOf(rs, i, c);
    }
    MemUnder(m, p.ix.tree, led.held, Less(rs, i), r.crc, true, CRCS);
    assert r.crc < CRCS;
    assert Peak(m, rs, i) <= m.limit;
  }

  lemma TryStep(m: Memory, p: Pass, led: Ledger, base: Totals, rs: seq<Leaf>, io: Io)
    requires Right(p, led, base, multiset(rs)) && Trying(p, rs) && p.ix.queue != [] && Roomy(m, rs)
    ensures !Closes(m, p)
    ensures var s := StepAgain(m, At(p), p.ix.queue[0], io); s.At? ==> Trying(s.p, rs)
  {
    hide SumMem, Offer, StandsFor, CountOf, Balanced, QueueBytes, Evict, Roomy;
    var r := p.ix.queue[0];
    assert r in p.ix.queue;
    AgainUnder(m, p, led, base, rs);
    NoEvict(m, p, r, io);
    OfferPaired(p.ix, led.held, r, true, io, rs);
    OfferKnown(p.ix, r, true, io);
  }

  lemma {:induction false} RoomyAgain(m: Memory, p: Pass, led: Ledger, base: Totals, rs: seq<Leaf>, io: nat -> Io, i: nat)
    requires Right(p, led, base, multiset(rs)) && Trying(p, rs) && i <= |p.ix.queue| && Roomy(m, rs)
    ensures AgainOpen(m, p, p.ix.queue, io, i)
    ensures var s := Again(m, p, p.ix.queue, io, i); s.At? ==> Trying(s.p, rs)
  {
    hide Roomy, Closes, Right, StepAgain, AgainOpen, Trying, LedgerAgain;
    var q := p.ix.queue;
    if i == 0 {
      AgainOpenMore(m, p, q, io, i);
    } else {
      RoomyAgain(m, p, led, base, rs, io, i - 1);
      AgainRight(m, p, led, base, multiset(rs), q, io, i - 1);
      var s := Again(m, p, q, io, i - 1);
      if s.At? {
        assert s.p.ix.queue[0] == q[i - 1];
        TryStep(m, s.p, LedgerAgain(m, p, led, q, io, i - 1), base, rs, io(i - 1));
      } else {
        StuckAgain(m, s, q[i - 1], io(i - 1));
      }
      AgainOpenMore(m, p, q, io, i);
    }
  }

  /** The pass ended the run with the bytes of all records, or the ioctl stopped it. */
  ghost predicate Whole(rs: seq<Leaf>, s: Progress) {
    s.Quit? || (s.At? && s.p.end == 0 && s.p.ix.totals.refSize == QueueBytes(rs))
  }

  /** With that much memory the first pass is the last, and reports the bytes of all
      records, whatever the outside answers to the scan and to pass 2. */
  lemma RoomyPass(m: Memory, rs: seq<Leaf>, a: Answer)
    requires (forall r <- rs :: r.crc < CRCS) && Roomy(m, rs)
    ensures Whole(rs, OnePass(m, 0, NOTHING, rs, a))
  {
    hide ScanOpen, AgainOpen, After, Again, LedgerAfter, LedgerAgain, Right, Trying, SumLoad, CountOf, QueueBytes, Drained;
    var p0 := Pass(0, 0, NOTHING);
    RoomyScan(m, NOTHING, rs, a.scan, |rs|);
    ScanRight(m, p0, rs, a.scan, |rs|);
    assert rs[..|rs|] == rs;
    var s := Scanned(m, 0, NOTHING, rs, a);
    if s.At? {
      var led, q := LedgerAfter(m, p0, rs, a.scan, |rs|), s.p.ix.queue;
      RoomyAgain(m, s.p, led, NOTHING.totals, rs, a.again, |q|);
      PassRight(m, 0, NOTHING, rs, a);
      var e := Again(m, s.p, q, a.again, |q|);
      if e.At? {
        TryEnds(e.p, rs);
        AllCounted(rs, Drained(e.p), PassLedger(m, 0, NOTHING, rs, a));
      }
    }
  }

  lemma TryEnds(p: Pass, rs: seq<Leaf>)
    requires Trying(p, rs)
    ensures Drained(p).end == 0
  {
    hide SumBytes, SumLens;
  }

  lemma AllCounted(rs: seq<Leaf>, p: Pass, led: Ledger)
    requires (forall r <- rs :: r.crc < CRCS) && PassDone(0, NOTHING, rs, p, led) && p.end == 0
    ensures p.ix.totals.refSize == QueueBytes(rs)
  {
    hide QueueBytes;
    var all := led.held + led.early;
    forall x: Leaf
      ensures multiset(all)[x] == multiset(rs)[x]
    {
      assert x in multiset(rs) ==> x in rs;
      assert x in multiset(led.held) ==> x in led.held;
      assert x in multiset(led.early) ==> x in led.early;
    }
    assert multiset(all) == multiset(rs);
    SameBytes(all, rs);
    BytesAdd(led.held, led.early);
  }
}
