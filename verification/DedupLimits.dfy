/** How much memory dedup needs for its passes to come to an end: enough for any
    two neighbouring CRCs is enough, less than one CRC takes is not. */
module DedupLimits {
  import opened CrcRange
  import opened DedupIndex
  import opened DedupPasses
  import opened DedupRun

  /** The most memory the records of a CRC can take. */
  function Weight(m: Memory, rs: seq<Leaf>, c: nat): nat {
    if CountOf(rs, c) == 0 then 0 else m.de + m.sha * CountOf(rs, c)
  }

  /** Any two neighbouring CRCs fit, with `f` records and one to spare. */
  ghost predicate Light(m: Memory, rs: seq<Leaf>, f: nat) {
    forall c: nat :: Weight(m, rs, c) + Weight(m, rs, c + 1) + (m.de + m.sha) * (f + 1) <= m.limit
  }

  /** How often the outside failed to answer: so many records at most are kept for pass 2. */
  function Failures(io: nat -> Io, i: nat): nat {
    if i == 0 then 0 else Failures(io, i - 1) + if Answers(io(i - 1)) then 0 else 1
  }

  // ----- counting -----

  function CountBelow(held: seq<Leaf>, n: nat): nat {
    if held == [] then 0 else CountBelow(held[..|held| - 1], n) + if held[|held| - 1].crc < n then 1 else 0
  }

  lemma {:induction false} CountStep(held: seq<Leaf>, n: nat)
    ensures CountBelow(held, n + 1) == CountBelow(held, n) + CountOf(held, n)
  {
    if held != [] {
      CountStep(held[..|held| - 1], n);
    }
  }

  lemma {:induction false} CountAll(held: seq<Leaf>, n: nat)
    ensures CountBelow(held, n) <= |held| && ((forall l <- held :: l.crc < n) ==> CountBelow(held, n) == |held|)
  {
    if held != [] {
      CountAll(held[..|held| - 1], n);
    }
  }

  lemma CountBelowMore(held: seq<Leaf>, r: Leaf, n: nat)
    ensures CountBelow(held + [r], n) == CountBelow(held, n) + if r.crc < n then 1 else 0
  {
    assert (held + [r])[..|held|] == held;
  }

  lemma {:induction false} CountGrows(held: seq<Leaf>, a: nat, b: nat)
    requires a <= b
    ensures CountBelow(held, a) <= CountBelow(held, b)
  {
    if held != [] {
      CountGrows(held[..|held| - 1], a, b);
    }
  }

  /** Fewer records of a CRC are fewer by count. */
  lemma {:induction false} CountMono(a: seq<Leaf>, b: seq<Leaf>, c: nat)
    requires forall x: Leaf | x.crc == c :: multiset(a)[x] <= multiset(b)[x]
    ensures CountOf(a, c) <= CountOf(b, c)
    decreases |a|
  {
    if a != [] {
      var n := |a| - 1;
      var r, rest := a[n], a[..n];
      assert a == rest + [r];
      if r.crc != c {
        CountMono(rest, b, c);
      } else {
        assert multiset(a)[r] > 0 && r in multiset(b);
        var i :| 0 <= i < |b| && b[i] == r;
        TakeOut(b, i);
        OutCount(b, i, c);
        CountMono(rest, b[..i] + b[i + 1..], c);
      }
    }
  }

  lemma {:induction false} CountAdd(a: seq<Leaf>, b: seq<Leaf>, c: nat)
    ensures CountOf(a + b, c) == CountOf(a, c) + CountOf(b, c)
    decreases |b|
  {
    if b == [] {
      assert a + b == a;
    } else {
      var n := |b| - 1;
      assert a + b == (a + b[..n]) + [b[n]];
      OfMore(a + b[..n], b[n], c);
      CountAdd(a, b[..n], c);
    }
  }

  lemma OutCount(s: seq<Leaf>, i: nat, c: nat)
    requires i < |s|
    ensures CountOf(s, c) == CountOf(s[..i] + s[i + 1..], c) + if s[i].crc == c then 1 else 0
  {
    hide CountOf;
    assert s == s[..i] + [s[i]] + s[i + 1..];
    CountAdd(s[..i] + [s[i]], s[i + 1..], c);
    CountAdd(s[..i], s[i + 1..], c);
    OfMore(s[..i], s[i], c);
  }

  // ----- memory -----

  lemma WeightMono(m: Memory, held: seq<Leaf>, rs: seq<Leaf>, c: nat)
    requires CountOf(held, c) <= CountOf(rs, c)
    ensures Weight(m, held, c) <= Weight(m, rs, c)
  {
    Times(m.sha, CountOf(held, c), CountOf(rs, c));
  }

  lemma EntryWeight(m: Memory, tree: map<nat, De>, held: seq<Leaf>, c: nat)
    requires Kept(tree, held)
    ensures (if c in tree then MemOf(m, tree[c]) else 0) <= Weight(m, held, c)
  {
    hide GoodDe, Bytes, CountOf, LenOf, MemOf;
    if c in tree {
      EntryOf(tree, held, c);
      MemBound(m, tree[c], held, c);
      BlksPositive(tree[c], c);
    }
  }

  lemma BlksPositive(d: De, c: nat)
    requires GoodDe(d, c)
    ensures Blks(d) > 0
  {
    if d.Fict? {
      BlksBound(d.shas);
    }
  }

  /** The memory of the entries from `b` on is bounded by the number of their records. */
  lemma {:induction false} MemAbove(m: Memory, tree: map<nat, De>, held: seq<Leaf>, b: nat, n: nat)
    requires Kept(tree, held) && b <= n
    ensures CountBelow(held, b) <= CountBelow(held, n)
    ensures SumMem(m, tree, n) <= SumMem(m, tree, b) + (m.de + m.sha) * (CountBelow(held, n) - CountBelow(held, b))
    decreases n
  {
    hide Kept, CountBelow, CountOf, MemOf;
    CountGrows(held, b, n);
    if b < n {
      CountGrows(held, b, n - 1);
      MemAbove(m, tree, held, b, n - 1);
      CountStep(held, n - 1);
      EntryWeight(m, tree, held, n - 1);
      var k, x := CountOf(held, n - 1), CountBelow(held, n - 1) - CountBelow(held, b);
      PerRecord(m, k, x);
    }
  }

  lemma PerRecord(m: Memory, k: nat, x: nat)
    ensures (if k == 0 then 0 else m.de + m.sha * k) + (m.de + m.sha) * x <= (m.de + m.sha) * (x + k)
  {
    assert (m.de + m.sha) * (x + k) == (m.de + m.sha) * x + m.de * k + m.sha * k;
    if k > 0 {
      Times(m.de, 1, k);
    }
  }

  /** The two CRCs at the start of the range. */
  lemma MemTwo(m: Memory, p: Pass, held: seq<Leaf>)
    requires Above(p) && Kept(p.ix.tree, held)
    ensures SumMem(m, p.ix.tree, p.start + 1) <= Weight(m, held, p.start)
    ensures SumMem(m, p.ix.tree, p.start + 2) <= Weight(m, held, p.start) + Weight(m, held, p.start + 1)
  {
    hide Kept, Weight, MemOf;
    MemNone(m, p.ix.tree, p.start);
    EntryWeight(m, p.ix.tree, held, p.start);
    EntryWeight(m, p.ix.tree, held, p.start + 1);
  }

  lemma {:induction false} MemNone(m: Memory, tree: map<nat, De>, n: nat)
    requires forall c | c in tree :: n <= c
    ensures SumMem(m, tree, n) == 0
  {
    if n > 0 {
      MemNone(m, tree, n - 1);
    }
  }

  /** All records held but `n` and one are below the end. */
  ghost predicate Few(p: Pass, led: Ledger, n: nat) {
    |led.held| <= CountBelow(led.held, Bound(p.end)) + n + 1
  }

  /** With enough memory an eviction never closes the range. */
  lemma NotClosed(m: Memory, p: Pass, led: Ledger, base: Totals, rs: seq<Leaf>, i: nat, n: nat, f: nat)
    requires i <= |rs| && Right(p, led, base, multiset(rs[..i])) && Few(p, led, n) && n <= f && Light(m, rs, f)
    ensures !Closes(m, p)
  {
    hide SumMem, Kept, CountOf, CountBelow, Weight, EvictN, LastWidth;
    if Use(m, p.ix.tree) > m.limit {
      var s, b := p.start, Bound(p.end);
      ClosesIff(m, p);
      MemTwo(m, p, led.held);
      HeldWeight(m, p, led, base, rs, i, s);
      assert Weight(m, rs, s) + Weight(m, rs, s + 1) + (m.de + m.sha) * (f + 1) <= m.limit;
      Times(m.de + m.sha, 0, f + 1);
      if s + 1 < b {
        HeldWeight(m, p, led, base, rs, i, s + 1);
      }
      if b - s <= 2 {
        MemAbove(m, p.ix.tree, led.held, b, CRCS);
        CountAll(led.held, CRCS);
        Times(m.de + m.sha, CountBelow(led.held, CRCS) - CountBelow(led.held, b), f + 1);
      }
    }
  }

  lemma HeldWeight(m: Memory, p: Pass, led: Ledger, base: Totals, rs: seq<Leaf>, i: nat, c: nat)
    requires i <= |rs| && Right(p, led, base, multiset(rs[..i])) && c < Bound(p.end)
    ensures Weight(m, led.held, c) <= Weight(m, rs, c)
  {
    hide Kept, CountOf, Weight, QueueBytes;
    assert rs == rs[..i] + rs[i..];
    assert multiset(rs) == multiset(rs[..i]) + multiset(rs[i..]);
    forall x: Leaf | x.crc == c
      ensures multiset(led.held)[x] <= multiset(rs)[x]
    {
    }
    CountMono(led.held, rs, c);
    WeightMono(m, led.held, rs, c);
  }

  lemma InRange(p: Pass, led: Ledger, base: Totals, read: multiset<Leaf>, r: Leaf)
    requires Right(p, led, base, read) && !Skips(p, r) && r.crc < CRCS
    ensures r.crc < Bound(p.end)
  {
  }

  /** The record that overflows the memory may lie above the new end; the filter
      keeps out any other. */
  lemma StepFew(m: Memory, p: Pass, led: Ledger, base: Totals, read: multiset<Leaf>, r: Leaf, io: Io)
    requires Right(p, led, base, read) && Few(p, led, 0) && !Skips(p, r) && r.crc < CRCS && !Closes(m, p)
    ensures var s := Step(m, At(p), r, io);
            s.At? ==> Few(s.p, Booked(m, p, led, r, false, io), 0) &&
                      |s.p.ix.queue| <= |p.ix.queue| + if Answers(io) then 0 else 1
  {
    hide Right, Evict, Offer, HeldBelow, CountBelow, SumMem, Kept;
    EvictRight(m, p, led, base, read);
    var q := Evict(m, p).value;
    var held := if Use(m, p.ix.tree) <= m.limit then led.held else HeldBelow(led.held, q.end);
    InRange(p, led, base, read, r);
    QueueGrows(q, led.(held := held), base, read, r, io);
    EvictFew(m, p, led, base, read);
    CountBelowMore(held, r, Bound(q.end));
  }

  lemma QueueGrows(q: Pass, led: Ledger, base: Totals, read: multiset<Leaf>, r: Leaf, io: Io)
    requires Right(q, led, base, read) && r.crc < CRCS
    ensures var o := Offer(q.ix, r, false, io);
            o.fate != Exit ==> |o.ix.queue| <= |q.ix.queue| + if Answers(io) then 0 else 1
  {
    hide Kept, Offer, Balanced, QueueBytes;
    OfferKeeps(q.ix, led.held, r, false, io);
  }

  lemma EvictFew(m: Memory, p: Pass, led: Ledger, base: Totals, read: multiset<Leaf>)
    requires Right(p, led, base, read) && !Closes(m, p) && Evict(m, p).Some?
    ensures var q := Evict(m, p).value;
            if Use(m, p.ix.tree) <= m.limit then q == p
            else var held := HeldBelow(led.held, q.end); CountBelow(held, Bound(q.end)) == |held|
  {
    hide SumMem, Kept, HeldBelow, QueueBytes, EvictN, Balanced;
    EvictAbove(m, p);
    var q := Evict(m, p).value;
    if Use(m, p.ix.tree) > m.limit {
      var held := HeldBelow(led.held, q.end);
      forall l <- held
        ensures l.crc < q.end
      {
        HeldMember(led.held, q.end, l);
      }
      CountAll(held, Bound(q.end));
    }
  }

  /** With enough memory no scan closes its range. */
  lemma {:induction false} LightScan(m: Memory, p: Pass, rs: seq<Leaf>, io: nat -> Io, f: nat, i: nat)
    requires p.start < CRCS && p.end == 0 && p.ix.tree == map[] && p.ix.queue == [] && (forall r <- rs :: r.crc < CRCS)
    requires i <= |rs| && Light(m, rs, f)
    ensures ScanOpen(m, p, rs, io, i)
    ensures var s := After(m, p, rs, io, i);
            s.At? ==> Few(s.p, LedgerAfter(m, p, rs, io, i), 0) && |s.p.ix.queue| <= Failures(io, i)
  {
    hide Light, Closes, Booked, Right, Few, Step, Skips, CountBelow, ScanOpen;
    if i == 0 {
      FewAtFirst(p);
      ScanOpenMore(m, p, rs, io, i);
    } else {
      LightScan(m, p, rs, io, f, i - 1);
      ScanRight(m, p, rs, io, i - 1);
      var s, led, r := After(m, p, rs, io, i - 1), LedgerAfter(m, p, rs, io, i - 1), rs[i - 1];
      if s.At? {
        NotClosed(m, s.p, led, p.ix.totals, rs, i - 1, 0, f);
      }
      if s.At? && !Skips(s.p, r) {
        StepFew(m, s.p, led, p.ix.totals, multiset(rs[..i - 1]), r, io(i - 1));
      } else {
        StepStays(m, s, r, io(i - 1));
      }
      ScanOpenMore(m, p, rs, io, i);
    }
  }

  /** Pass 2 may index one record more above the end with every try. */
  lemma AgainFew(m: Memory, p: Pass, led: Ledger, base: Totals, read: multiset<Leaf>, r: Leaf, io: Io, n: nat)
    requires Right(p, led, base, read) && Few(p, led, n) && !Closes(m, p)
    ensures var s := StepAgain(m, At(p), r, io); s.At? ==> Few(s.p, Booked(m, p, led, r, true, io), n + 1)
  {
    hide Right, Evict, Offer, HeldBelow, CountBelow, SumMem, Kept;
    EvictRight(m, p, led, base, read);
    var q := Evict(m, p).value;
    var held := if Use(m, p.ix.tree) <= m.limit then led.held else HeldBelow(led.held, q.end);
    EvictFew(m, p, led, base, read);
    CountBelowMore(held, r, Bound(q.end));
  }

  lemma {:induction false} LightAgain(m: Memory, p: Pass, led: Ledger, base: Totals, rs: seq<Leaf>, io: nat -> Io, f: nat, i: nat)
    requires Right(p, led, base, multiset(rs)) && Few(p, led, 0) && i <= |p.ix.queue| <= f && Light(m, rs, f)
    ensures AgainOpen(m, p, p.ix.queue, io, i)
    ensures var s := Again(m, p, p.ix.queue, io, i);
            s.At? ==> Few(s.p, LedgerAgain(m, p, led, p.ix.queue, io, i), i)
  {
    hide Light, Closes, Booked, Right, Few, StepAgain, CountBelow, AgainOpen;
    var q := p.ix.queue;
    if i == 0 {
      AgainOpenMore(m, p, q, io, i);
    } else {
      LightAgain(m, p, led, base, rs, io, f, i - 1);
      AgainRight(m, p, led, base, multiset(rs), q, io, i - 1);
      var s, led' := Again(m, p, q, io, i - 1), LedgerAgain(m, p, led, q, io, i - 1);
      if s.At? {
        assert rs[..|rs|] == rs;
        NotClosed(m, s.p, led', base, rs, |rs|, i - 1, f);
        AgainFew(m, s.p, led', base, multiset(rs), q[i - 1], io(i - 1), i - 1);
      } else {
        StuckAgain(m, s, q[i - 1], io(i - 1));
      }
      AgainOpenMore(m, p, q, io, i);
    }
  }

  lemma AgainOpenMore(m: Memory, p: Pass, q: seq<Leaf>, io: nat -> Io, i: nat)
    requires i <= |q|
    requires i > 0 ==> AgainOpen(m, p, q, io, i - 1) && var s := Again(m, p, q, io, i - 1); s.At? ==> !Closes(m, s.p)
    ensures AgainOpen(m, p, q, io, i)
  {
    hide Again, Closes;
  }

  lemma ScanOpenMore(m: Memory, p: Pass, rs: seq<Leaf>, io: nat -> Io, i: nat)
    requires i <= |rs|
    requires i > 0 ==>
               ScanOpen(m, p, rs, io, i - 1) &&
               var s := After(m, p, rs, io, i - 1); s.At? && !Skips(s.p, rs[i - 1]) ==> !Closes(m, s.p)
    ensures ScanOpen(m, p, rs, io, i)
  {
    hide After, Skips, Closes;
  }

  lemma FewAtFirst(p: Pass)
    ensures Few(p, Ledger([], []), 0)
  {
  }

  /** Then no pass of the run does, so that it comes to an end with the totals it should have. */
  lemma {:induction false} LightRun(m: Memory, rs: seq<Leaf>, a: nat -> Answer, f: nat, k: nat)
    requires (forall r <- rs :: r.crc < CRCS) && Light(m, rs, f) && forall j: nat :: Failures(a(j).scan, |rs|) <= f
    ensures RunOpen(m, rs, a, k)
  {
    hide Light, Failures, RunOpen, PassOpen, Runs, RunRight, Counted, Repeats;
    if k > 0 {
      LightRun(m, rs, a, f, k - 1);
      RunKeeps(m, rs, a, k - 1);
      var s := Runs(m, rs, a, k - 1);
      if s.Going? {
        GoingReady(rs, s, k - 1, Counted(m, rs, a, k - 1), Repeats(m, rs, a, k - 1));
        assert Failures(a(k - 1).scan, |rs|) <= f;
        LightPass(m, s.start, s.ix, rs, a(k - 1), f);
      }
    }
    RunOpenMore(m, rs, a, k);
  }

  lemma RunOpenMore(m: Memory, rs: seq<Leaf>, a: nat -> Answer, k: nat)
    requires k > 0 ==>
               RunOpen(m, rs, a, k - 1) &&
               var s := Runs(m, rs, a, k - 1); s.Going? ==> PassOpen(m, s.start, s.ix, rs, a(k - 1))
    ensures RunOpen(m, rs, a, k)
  {
    hide Runs, PassOpen;
  }

  lemma GoingReady(rs: seq<Leaf>, s: Run, k: nat, counted: seq<Leaf>, repeats: seq<Leaf>)
    requires s.Going? && RunRight(rs, s, k, counted, repeats)
    ensures s.start < CRCS && s.ix.tree == map[] && s.ix.queue == []
  {
  }

  lemma LightPass(m: Memory, start: nat, ix: Ix, rs: seq<Leaf>, a: Answer, f: nat)
    requires start < CRCS && ix.tree == map[] && ix.queue == [] && (forall r <- rs :: r.crc < CRCS)
    requires Light(m, rs, f) && Failures(a.scan, |rs|) <= f
    ensures PassOpen(m, start, ix, rs, a)
  {
    hide Light, Failures, ScanOpen, AgainOpen, After, Again, LedgerAfter, Few, Right;
    var p := Pass(start, 0, ix);
    LightScan(m, p, rs, a.scan, f, |rs|);
    ScanRight(m, p, rs, a.scan, |rs|);
    assert rs[..|rs|] == rs;
    var s := Scanned(m, start, ix, rs, a);
    if s.At? {
      LightAgain(m, s.p, LedgerAfter(m, p, rs, a.scan, |rs|), ix.totals, rs, a.again, f, |s.p.ix.queue|);
    }
  }

  /** Enough memory for any two neighbouring CRCs and for what a pass keeps for pass 2:
      the run ends and reports the bytes of all records, and of those counted above
      the end of their pass. */
  lemma LightTotals(m: Memory, rs: seq<Leaf>, a: nat -> Answer, f: nat)
    requires (forall r <- rs :: r.crc < CRCS) && Light(m, rs, f) && forall j: nat :: Failures(a(j).scan, |rs|) <= f
    ensures var s := Runs(m, rs, a, CRCS);
            !s.Going? && !s.Forever? &&
            (s.Finished? ==>
               s.ix.totals.refSize == QueueBytes(rs) + QueueBytes(Repeats(m, rs, a, CRCS)) &&
               s.ix.totals.allocSize <= s.ix.totals.refSize)
  {
    hide Light, Failures, Runs, Repeats;
    LightRun(m, rs, a, f, CRCS);
    RunTotals(m, rs, a);
  }
}
