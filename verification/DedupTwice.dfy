/** Runs of dedup that end and still report too many bytes: the record that overflows
    the memory is counted above the end of its pass, and again by a later one. */
module DedupTwice {
  import opened Common
  import opened CrcRange
  import opened DedupIndex
  import opened DedupPasses
  import opened DedupRun
  import opened DedupLimits
  import opened DedupClash
  import opened DedupFits
  import opened DedupTight

  /** Records with the CRCs from 0 on, and one with the highest CRC behind them. */
  function Rising(len: nat, n: nat): (rs: seq<Leaf>)
    ensures |rs| == n + 1 && rs[n] == Clash(CRCS - 1, len, n) && forall i | 0 <= i < n :: rs[i] == Clash(i, len, i)
  {
    seq(n, i requires 0 <= i => Clash(i, len, i)) + [Clash(CRCS - 1, len, n)]
  }

  function Answering(n: nat): nat -> Answer {
    (k: nat) => Answer(Failing(n), Differ)
  }

  // ----- memory -----

  lemma {:induction false} LoadNew(m: Memory, rs: seq<Leaf>, r: Leaf, n: nat)
    requires CountOf(rs, r.crc) == 0
    ensures SumLoad(m, rs + [r], n) == SumLoad(m, rs, n) + if r.crc < n then m.de else 0
  {
    hide CountOf;
    if n > 0 {
      LoadNew(m, rs, r, n - 1);
      OfMore(rs, r, n - 1);
    }
  }

  lemma {:induction false} LoadNone(m: Memory, n: nat)
    ensures SumLoad(m, [], n) == 0
  {
    if n > 0 {
      LoadNone(m, n - 1);
    }
  }

  lemma {:induction false} RisingLoad(m: Memory, len: nat, n: nat, g: nat)
    requires g <= n < CRCS
    ensures SumLoad(m, Rising(len, n)[..g], CRCS) == m.de * g
    decreases g
  {
    hide SumLoad, CountOf;
    var rs := Rising(len, n);
    if g == 0 {
      LoadNone(m, CRCS);
    } else {
      RisingLoad(m, len, n, g - 1);
      assert rs[..g] == rs[..g - 1] + [rs[g - 1]];
      NoneOf(rs[..g - 1], g - 1);
      LoadNew(m, rs[..g - 1], rs[g - 1], CRCS);
      assert m.de * g == m.de * (g - 1) + m.de;
    }
  }

  /** Each CRC has one record at most. */
  lemma RisingCount(len: nat, n: nat, c: nat)
    requires n < CRCS
    ensures CountOf(Rising(len, n), c) <= 1
  {
    hide CountOf;
    var rs := Rising(len, n);
    assert rs == rs[..n] + [rs[n]];
    OfMore(rs[..n], rs[n], c);
    RisingFew(len, n, n, c);
    if c >= n {
      NoneOf(rs[..n], c);
    }
  }

  lemma {:induction false} RisingFew(len: nat, n: nat, g: nat, c: nat)
    requires g <= n
    ensures CountOf(Rising(len, n)[..g], c) <= 1
    decreases g
  {
    hide CountOf;
    var rs := Rising(len, n);
    if g == 0 {
      NoneOf(rs[..0], c);
    } else {
      RisingFew(len, n, g - 1, c);
      assert rs[..g] == rs[..g - 1] + [rs[g - 1]];
      OfMore(rs[..g - 1], rs[g - 1], c);
      NoneOf(rs[..g - 1], g - 1);
    }
  }

  lemma RisingLight(m: Memory, len: nat, n: nat)
    requires n < CRCS && 3 * (m.de + m.sha) <= m.limit
    ensures Light(m, Rising(len, n), 0)
  {
    hide CountOf;
    var rs := Rising(len, n);
    forall c: nat
      ensures Weight(m, rs, c) <= m.de + m.sha
    {
      RisingCount(len, n, c);
    }
  }

  lemma RisingSound(len: nat, n: nat)
    requires len > 0 && n < CRCS
    ensures Sound(Rising(len, n)) && forall r <- Rising(len, n) :: r.crc < CRCS
  {
  }

  // ----- the first pass -----

  /** As long as the records fit, nothing is evicted. */
  lemma {:induction false} SteadyFits(m: Memory, rs: seq<Leaf>, g: nat)
    requires g <= |rs| && Sound(rs) && forall h: nat | h < g :: SumLoad(m, rs[..h], CRCS) <= m.limit
    ensures var s := After(m, Pass(0, 0, NOTHING), rs, Failing(|rs|), g); s.At? && Steady(s.p, rs, |rs|, g)
  {
    hide Steady, Step, SumLoad, Different, After, SumMem;
    var p, n := Pass(0, 0, NOTHING), |rs|;
    if g == 0 {
      SteadyFirst(rs, n);
      AfterNone(m, p, rs, Failing(n));
    } else {
      SteadyFits(m, rs, g - 1);
      AfterUnfolds(m, p, rs, Failing(n), g);
      NoLater(rs);
      var s := After(m, p, rs, Failing(n), g - 1);
      SteadyUse(m, s.p, rs, g - 1);
      assert SumLoad(m, rs[..g - 1], CRCS) <= m.limit;
      SteadyStep(m, s.p, rs, n, g - 1);
    }
  }

  lemma SteadyUse(m: Memory, p: Pass, rs: seq<Leaf>, g: nat)
    requires g <= |rs| && Steady(p, rs, |rs|, g)
    ensures Use(m, p.ix.tree) == SumLoad(m, rs[..g], CRCS) && p.ix.queue == []
  {
    hide SumMem, SumLoad, Exact, Full, QueueBytes;
    ExactMem(m, p, rs, |rs|, g, CRCS);
  }

  lemma {:induction false} NoFailures(n: nat, i: nat)
    requires i <= n
    ensures Failures(Failing(n), i) == 0
    decreases i
  {
    if i > 0 {
      NoFailures(n, i - 1);
    }
  }

  /** How many entries fit, and one more. */
  lemma JustOver(m: Memory)
    requires m.de > 0
    ensures var n := m.limit / m.de + 1; m.de * n > m.limit && m.de * (n - 1) <= m.limit
  {
  }

  /** Before the last record the memory has just been exceeded. */
  lemma FullBefore(m: Memory, len: nat)
    requires m.de > 0 && len > 0 && m.limit / m.de + 1 < CRCS
    ensures var n := m.limit / m.de + 1;
            var rs := Rising(len, n);
            var s := After(m, Pass(0, 0, NOTHING), rs, Failing(|rs|), n);
            s.At? && Use(m, s.p.ix.tree) > m.limit && s.p.start == 0 && s.p.end == 0 && s.p.ix.queue == []
  {
    hide After, SumLoad, SumMem, Sound, Exact, Full, QueueBytes;
    var n := m.limit / m.de + 1;
    var rs := Rising(len, n);
    JustOver(m);
    RisingSound(len, n);
    forall h: nat | h < n
      ensures SumLoad(m, rs[..h], CRCS) <= m.limit
    {
      RisingLoad(m, len, n, h);
      Times(m.de, h, n - 1);
    }
    SteadyFits(m, rs, n);
    RisingLoad(m, len, n, n);
    SteadyUse(m, After(m, Pass(0, 0, NOTHING), rs, Failing(|rs|), n).p, rs, n);
  }

  /** A record that is evicted for is indexed above the new end. */
  lemma StepOver(m: Memory, p: Pass, led: Ledger, r: Leaf, io: Io)
    requires Above(p) && p.start == 0 && p.end == 0 && r.crc == CRCS - 1 && Use(m, p.ix.tree) > m.limit && !Closes(m, p)
    ensures var s := Step(m, At(p), r, io);
            s.At? && 0 < s.p.end < CRCS && s.p.ix.queue == p.ix.queue && r in Booked(m, p, led, r, false, io).held
  {
    hide SumMem, EvictN, HeldBelow;
    EvictAbove(m, p);
  }

  /** The first pass counts the last record although it ends below it. */
  lemma FirstOver(m: Memory, len: nat)
    requires m.de > 0 && len > 0 && m.limit / m.de + 1 < CRCS && 3 * (m.de + m.sha) <= m.limit
    ensures var n := m.limit / m.de + 1;
            var rs := Rising(len, n);
            var a := Answering(|rs|)(0);
            var s := OnePass(m, 0, NOTHING, rs, a);
            s.At? && 0 < s.p.end < CRCS && rs[n] in PassLedger(m, 0, NOTHING, rs, a).held
  {
    hide After, LedgerAfter, Step, Booked, Right, ScanOpen, Closes, SumMem, SumBytes, SumLens, Light;
    var n := m.limit / m.de + 1;
    var rs := Rising(len, n);
    var p0, io := Pass(0, 0, NOTHING), Failing(|rs|);
    RisingSound(len, n);
    RisingLight(m, len, n);
    FullBefore(m, len);
    LightScan(m, p0, rs, io, 0, n + 1);
    OpenAt(m, p0, rs, io, n + 1, n);
    var s := After(m, p0, rs, io, n);
    RightAbove(m, rs, io, n);
    StepOver(m, s.p, LedgerAfter(m, p0, rs, io, n), rs[n], io(n));
    AfterUnfolds(m, p0, rs, io, n + 1);
    BookedLast(m, p0, rs, io, n);
  }

  lemma OpenAt(m: Memory, p: Pass, rs: seq<Leaf>, io: nat -> Io, i: nat, j: nat)
    requires j < i <= |rs| && ScanOpen(m, p, rs, io, i)
    requires var s := After(m, p, rs, io, j); s.At? && s.p.start == 0 && s.p.end == 0
    ensures !Closes(m, After(m, p, rs, io, j).p) && ScanOpen(m, p, rs, io, j) && !Skips(After(m, p, rs, io, j).p, rs[j])
  {
    hide After, Closes;
  }

  lemma RightAbove(m: Memory, rs: seq<Leaf>, io: nat -> Io, i: nat)
    requires i <= |rs| && ScanOpen(m, Pass(0, 0, NOTHING), rs, io, i) && forall r <- rs :: r.crc < CRCS
    ensures var s := After(m, Pass(0, 0, NOTHING), rs, io, i); s.At? ==> Above(s.p)
  {
    hide After, LedgerAfter, ScanOpen, Kept, QueueBytes, Balanced;
    ScanRight(m, Pass(0, 0, NOTHING), rs, io, i);
  }

  lemma BookedLast(m: Memory, p: Pass, rs: seq<Leaf>, io: nat -> Io, i: nat)
    requires i < |rs| && var s := After(m, p, rs, io, i); s.At? && !Skips(s.p, rs[i])
    ensures LedgerAfter(m, p, rs, io, i + 1) ==
            Booked(m, After(m, p, rs, io, i).p, LedgerAfter(m, p, rs, io, i), rs[i], false, io(i))
  {
    hide After, Booked;
  }

  // ----- the whole run -----

  lemma {:induction false} MemberBytes(rs: seq<Leaf>, r: Leaf)
    requires r in rs
    ensures QueueBytes(rs) >= r.len
  {
    var n := |rs| - 1;
    if rs[n] != r {
      assert rs == rs[..n] + [rs[n]];
      MemberBytes(rs[..n], r);
    }
  }

  /** What was counted too often stays counted. */
  lemma {:induction false} RepeatsGrow(m: Memory, rs: seq<Leaf>, a: nat -> Answer, j: nat, k: nat)
    requires j <= k
    ensures QueueBytes(Repeats(m, rs, a, j)) <= QueueBytes(Repeats(m, rs, a, k))
    decreases k
  {
    hide QueueBytes, Over, OnePass, PassLedger, Runs;
    if j < k {
      RepeatsGrow(m, rs, a, j, k - 1);
      var s := Runs(m, rs, a, k - 1);
      if s.Going? {
        var e, led := OnePass(m, s.start, s.ix, rs, a(k - 1)), PassLedger(m, s.start, s.ix, rs, a(k - 1));
        if e.At? {
          BytesAdd(Repeats(m, rs, a, k - 1), Over(led.held + led.early, Bound(e.p.end)));
        }
      }
    }
  }

  lemma FirstRepeats(m: Memory, rs: seq<Leaf>, a: nat -> Answer, r: Leaf)
    requires var s := OnePass(m, 0, NOTHING, rs, a(0));
             s.At? && r.crc >= Bound(s.p.end) && r in PassLedger(m, 0, NOTHING, rs, a(0)).held
    ensures QueueBytes(Repeats(m, rs, a, 1)) >= r.len
  {
    hide OnePass, PassLedger, Over, QueueBytes;
    var s, led := OnePass(m, 0, NOTHING, rs, a(0)), PassLedger(m, 0, NOTHING, rs, a(0));
    var all := led.held + led.early;
    OverCount(all, Bound(s.p.end), r);
    assert r in all && r in multiset(all);
    assert r in multiset(Over(all, Bound(s.p.end)));
    MemberBytes(Over(all, Bound(s.p.end)), r);
    assert Runs(m, rs, a, 0) == Going(0, NOTHING) && Repeats(m, rs, a, 0) == [];
    assert [] + Over(all, Bound(s.p.end)) == Over(all, Bound(s.p.end));
  }

  /** An outside that supports dedup does not stop the run. */
  lemma OfferGoesOn(ix: Ix, r: Leaf, pass2: bool, io: Io)
    requires io.verdict != VersFailure
    ensures Offer(ix, r, pass2, io).fate != Exit
  {
    hide MoreSha, MorePlain, NewSha, ToFict, FindSha;
  }

  lemma {:induction false} ScanGoesOn(m: Memory, p: Pass, rs: seq<Leaf>, io: nat -> Io, i: nat)
    requires i <= |rs| && forall j: nat :: io(j).verdict != VersFailure
    ensures !After(m, p, rs, io, i).Quit?
  {
    hide Evict, Offer, Skips;
    if i > 0 {
      ScanGoesOn(m, p, rs, io, i - 1);
      var s := After(m, p, rs, io, i - 1);
      if s.At? && Evict(m, s.p).Some? {
        OfferGoesOn(Evict(m, s.p).value.ix, rs[i - 1], false, io(i - 1));
      }
    }
  }

  lemma {:induction false} AgainGoesOn(m: Memory, p: Pass, q: seq<Leaf>, io: nat -> Io, i: nat)
    requires i <= |q| && forall j: nat :: io(j).verdict != VersFailure
    ensures !Again(m, p, q, io, i).Quit?
  {
    hide Evict, Offer;
    if i > 0 {
      AgainGoesOn(m, p, q, io, i - 1);
      var s := Again(m, p, q, io, i - 1);
      if s.At? && Evict(m, s.p).Some? {
        OfferGoesOn(Evict(m, s.p).value.ix, q[i - 1], true, io(i - 1));
      }
    }
  }

  lemma {:induction false} GoesOn(m: Memory, rs: seq<Leaf>, n: nat, k: nat)
    ensures !Runs(m, rs, Answering(n), k).Stopped?
  {
    hide After, Again, Drained;
    if k > 0 {
      GoesOn(m, rs, n, k - 1);
      var s := Runs(m, rs, Answering(n), k - 1);
      if s.Going? {
        var p := Pass(s.start, 0, s.ix);
        ScanGoesOn(m, p, rs, Failing(n), |rs|);
        var e := After(m, p, rs, Failing(n), |rs|);
        if e.At? {
          AgainGoesOn(m, e.p, e.p.ix.queue, Differ, |e.p.ix.queue|);
        }
      }
    }
  }

  /** For every limit of three records or more under which not all CRCs fit: one record
      more than fits, each with a CRC of its own, then one with the highest CRC.  The run
      ends, and reports more bytes than there are. */
  lemma CountedTwice(m: Memory, len: nat)
    requires m.de > 0 && len > 0 && m.limit / m.de + 1 < CRCS && 3 * (m.de + m.sha) <= m.limit
    ensures var rs := Rising(len, m.limit / m.de + 1);
            (forall r <- rs :: r.crc < CRCS) &&
            var s := Runs(m, rs, Answering(|rs|), CRCS);
            s.Finished? && s.ix.totals.refSize > QueueBytes(rs)
  {
    hide Runs, Repeats, QueueBytes, OnePass, PassLedger, Light, Failures;
    var n := m.limit / m.de + 1;
    var rs := Rising(len, n);
    var a := Answering(|rs|);
    RisingSound(len, n);
    RisingLight(m, len, n);
    NoFailures(|rs|, |rs|);
    LightTotals(m, rs, a, 0);
    GoesOn(m, rs, |rs|, CRCS);
    FirstOver(m, len);
    FirstRepeats(m, rs, a, rs[n]);
    RepeatsGrow(m, rs, a, 1, CRCS);
  }
}
