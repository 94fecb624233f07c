/** A run of dedup that comes to an eviction loop without an end: colliding records
    of CRC 1, then of CRC 0, then of CRC 1 again, more of each than fit. */
module DedupHang {
  import opened Common
  import opened CrcRange
  import opened DedupIndex
  import opened DedupPasses
  import opened DedupRun
  import opened DedupClash

  function CrcAt(n: nat, i: nat): nat {
    if n <= i < 2 * n then 0 else 1
  }

  function Mixed(len: nat, n: nat): (rs: seq<Leaf>)
    ensures |rs| == 3 * n && forall i | 0 <= i < 3 * n :: rs[i] == Clash(CrcAt(n, i), len, i)
  {
    seq(3 * n, i requires 0 <= i => Clash(CrcAt(n, i), len, i))
  }

  // ----- an index with entries for CRC 0 and CRC 1 only -----

  function Two(a: Option<De>, b: Option<De>): map<nat, De> {
    var none: map<nat, De> := map[];
    var some := if a.Some? then none[0 := a.value] else none;
    if b.Some? then some[1 := b.value] else some
  }

  function Mem(m: Memory, d: Option<De>): nat {
    if d.Some? then MemOf(m, d.value) else 0
  }

  lemma TwoSum(m: Memory, a: Option<De>, b: Option<De>, n: nat)
    ensures SumMem(m, Two(a, b), n) == (if n > 0 then Mem(m, a) else 0) + if n > 1 then Mem(m, b) else 0
  {
    hide SumMem, MemOf;
    var none: map<nat, De> := map[];
    SumNone(m, none, n);
    var some := if a.Some? then none[0 := a.value] else none;
    if a.Some? {
      SumPut(m, none, 0, a.value, n);
    }
    if b.Some? {
      SumPut(m, some, 1, b.value, n);
    }
  }

  lemma TwoBelow(a: Option<De>, b: Option<De>, e: nat)
    ensures Below(Two(a, b), e) == if e == 0 then Two(None, None) else if e == 1 then Two(a, None) else Two(a, b)
  {
  }

  function Some1(c: nat, len: nat, j: nat, t: nat): Option<De> {
    if t == 0 then None else Some(Entry(c, len, j, t))
  }

  lemma SomeMem(m: Memory, c: nat, len: nat, j: nat, t: nat)
    ensures Mem(m, Some1(c, len, j, t)) == Load(m, t)
  {
  }

  /** One more record of CRC `c`, whether there is an entry yet or not. */
  lemma Grow(ix: Ix, a: Option<De>, b: Option<De>, c: nat, len: nat, j: nat, t: nat)
    requires c <= 1 && len > 0 && ix.tree == Two(a, b) && (if c == 0 then a else b) == Some1(c, len, j, t)
    ensures var o, d := Offer(ix, Clash(c, len, j + t), false, Differ(j + t)), Some1(c, len, j, t + 1);
            o.fate == Indexed && o.ix.queue == ix.queue &&
            o.ix.tree == if c == 0 then Two(d, b) else Two(a, d)
  {
    hide Offer, Clash, Entry;
    if t == 0 {
      First(ix, c, len, j);
    } else {
      OneMore(ix, c, len, j, t);
    }
    var d := Entry(c, len, j, t + 1);
    assert Two(a, b)[c := d] == if c == 0 then Two(Some(d), b) else Two(a, Some(d));
  }

  // ----- evictions -----

  /** The whole range comes down to CRC 0, or to nothing if that does not fit. */
  lemma EvictWhole(m: Memory, p: Pass, a: Option<De>, b: Option<De>)
    requires p.start == 0 && p.end == 0 && p.ix.tree == Two(a, b) && Mem(m, a) + Mem(m, b) > m.limit
    ensures Evict(m, p) ==
            Some(if Mem(m, a) > m.limit then p.(ix := p.ix.(tree := Two(None, None)))
                 else p.(end := 1, ix := p.ix.(tree := Two(a, None))))
  {
    hide SumMem, MemOf, EvictN, LastWidth, Two;
    TwoAbove(p, a, b);
    TwoSum(m, a, b, CRCS);
    TwoSum(m, a, b, 1);
    EvictAbove(m, p);
    ClosesIff(m, p);
    WholeWidth();
    var q := Evict(m, p).value;
    TwoBelow(a, b, q.end);
    assert q.end > 1 ==> Use(m, q.ix.tree) > m.limit;
  }

  lemma TwoAbove(p: Pass, a: Option<De>, b: Option<De>)
    requires p.start == 0 && p.end < CRCS && p.ix.tree == Two(a, b)
    ensures Above(p)
  {
  }

  /** A range of CRC 0 only is closed. */
  lemma EvictFirst(m: Memory, p: Pass, a: Option<De>, b: Option<De>)
    requires p.start == 0 && p.end == 1 && p.ix.tree == Two(a, b) && Mem(m, a) + Mem(m, b) > m.limit
    ensures Evict(m, p) == Some(p.(end := 0, ix := p.ix.(tree := Two(None, None))))
  {
    hide SumMem, MemOf, EvictN, LastWidth, Two;
    TwoAbove(p, a, b);
    TwoSum(m, a, b, CRCS);
    EvictAbove(m, p);
    ClosesIff(m, p);
    TwoBelow(a, b, 0);
  }

  lemma {:induction false} FirstFit(m: Memory, p: Pass, n: nat, j: nat)
    requires j <= n && Use(m, Halves(p, j).ix.tree) <= m.limit
    requires forall i: nat | i < j :: Use(m, Halves(p, i).ix.tree) > m.limit
    ensures EvictN(m, p, n) == Some(Halves(p, j))
    decreases n
  {
    hide SumMem, Halve;
    assert Halves(p, 0) == p;
    if j > 0 {
      HalvesAfter(p, j);
      forall i: nat | i < j - 1
        ensures Use(m, Halves(Halve(p), i).ix.tree) > m.limit
      {
        HalvesAfter(p, i + 1);
      }
      FirstFit(m, Halve(p), n - 1, j - 1);
    }
  }

  /** A closed range at CRC 1 is closed again without CRC 1, unless CRC 0 alone does
      not fit: then the loop has no end. */
  lemma EvictClosed(m: Memory, p: Pass, a: Option<De>, b: Option<De>)
    requires p.start == 1 && p.end == 1 && p.ix.tree == Two(a, b) && Mem(m, a) + Mem(m, b) > m.limit
    ensures Evict(m, p) == if Mem(m, a) > m.limit then None else Some(p.(ix := p.ix.(tree := Two(a, None))))
  {
    hide SumMem, MemOf, EvictN, Two, Halves, LeastEnd;
    TwoSum(m, a, b, 1);
    LowerHalf(1);
    EvictNoneIff(m, p);
    if Mem(m, a) <= m.limit {
      forall i: nat | i < 32
        ensures Use(m, Halves(p, i).ix.tree) > m.limit
      {
        CycleKeeps(p, a, b, i);
        TwoSum(m, a, b, CRCS);
      }
      CycleKeeps(p, a, b, 31);
      CycleEnd(p, 32);
      Pow2Zero();
      HalvesStep(p, 32);
      TwoBelow(a, b, 1);
      TwoSum(m, a, None, CRCS);
      FirstFit(m, p, 64, 32);
    }
  }

  lemma {:induction false} CycleKeeps(p: Pass, a: Option<De>, b: Option<De>, j: nat)
    requires p.start == 1 && p.end == 1 && p.ix.tree == Two(a, b) && j < 32
    ensures var q := Halves(p, j); q.ix == p.ix && (j > 0 ==> q.end > 1)
    decreases j
  {
    hide Two, Below, Pow2;
    if j > 0 {
      CycleKeeps(p, a, b, j - 1);
      CycleEnd(p, j);
      Pow2Order(1, 32 - j);
      Pow2Doubles(0);
      Pow2Zero();
      Pow2Order(32 - j, 31);
      HalfOfAll();
      TwoBelow(a, b, Halves(p, j).end);
    }
  }

  // ----- the first pass -----

  lemma {:induction false} SamePrefix(m: Memory, p: Pass, rs: seq<Leaf>, rs': seq<Leaf>, io: nat -> Io, i: nat)
    requires i <= |rs| && i <= |rs'| && forall k | 0 <= k < i :: rs[k] == rs'[k]
    ensures After(m, p, rs, io, i) == After(m, p, rs', io, i)
  {
    hide Step;
    if i > 0 {
      SamePrefix(m, p, rs, rs', io, i - 1);
    }
  }

  /** More of each than fit. */
  predicate Many(m: Memory, len: nat, n: nat) {
    len > 0 && n > 0 && m.de <= m.limit < Load(m, n - 1)
  }

  ghost predicate At01(s: Progress, start: nat, end: nat, a: Option<De>, b: Option<De>) {
    s.At? && s.p.start == start && s.p.end == end && s.p.ix.queue == [] && s.p.ix.tree == Two(a, b)
  }

  /** One record more of CRC `c`, with or without an eviction before it. */
  lemma Stepped01(m: Memory, p: Pass, q: Pass, a: Option<De>, b: Option<De>, c: nat, len: nat, j: nat, t: nat)
    requires c <= 1 && len > 0 && q.ix.queue == [] && q.ix.tree == Two(a, b)
    requires (if c == 0 then a else b) == Some1(c, len, j, t)
    requires !Skips(p, Clash(c, len, j + t)) && Evict(m, p) == Some(q)
    ensures var s, d := Step(m, At(p), Clash(c, len, j + t), Differ(j + t)), Some1(c, len, j, t + 1);
            if c == 0 then At01(s, q.start, q.end, d, b) else At01(s, q.start, q.end, a, d)
  {
    hide Offer, Two, Some1, Evict, Clash;
    Grow(q.ix, a, b, c, len, j, t);
  }

  lemma NotOver(m: Memory, p: Pass, a: Option<De>, b: Option<De>)
    requires p.ix.tree == Two(a, b) && Mem(m, a) + Mem(m, b) <= m.limit
    ensures Evict(m, p) == Some(p)
  {
    hide SumMem, Two, Mem;
    TwoSum(m, a, b, CRCS);
    EvictNone(m, p);
  }

  /** Among the records of CRC 0. */
  ghost predicate Second(m: Memory, len: nat, n: nat, i: nat, s: Progress)
    requires n <= i
  {
    var k := i - n;
    (exists j: nat :: At01(s, 0, 1, Some1(0, len, n, k), Some1(1, len, j, 1)) && (k > 0 ==> Load(m, k - 1) <= m.limit)) ||
    (exists j: nat, t: nat :: j + t == i && At01(s, 0, 0, Some1(0, len, j, t), None))
  }

  lemma SecondStep(m: Memory, len: nat, n: nat, i: nat, s: Progress)
    requires len > 0 && n <= i && Second(m, len, n, i, s)
    ensures Second(m, len, n, i + 1, Step(m, s, Clash(0, len, i), Differ(i)))
  {
    hide Evict, Two, Some1, Mem, Load, Step;
    var k, r := i - n, Clash(0, len, i);
    var empty := s.p.(end := 0, ix := s.p.ix.(tree := Two(None, None)));
    NoEntry(0, len, i);
    if exists j: nat :: At01(s, 0, 1, Some1(0, len, n, k), Some1(1, len, j, 1)) && (k > 0 ==> Load(m, k - 1) <= m.limit) {
      var j: nat :| At01(s, 0, 1, Some1(0, len, n, k), Some1(1, len, j, 1)) && (k > 0 ==> Load(m, k - 1) <= m.limit);
      var a, b := Some1(0, len, n, k), Some1(1, len, j, 1);
      SomeMem(m, 0, len, n, k);
      if Mem(m, a) + Mem(m, b) <= m.limit {
        NotOver(m, s.p, a, b);
        Stepped01(m, s.p, s.p, a, b, 0, len, n, k);
      } else {
        EvictFirst(m, s.p, a, b);
        Stepped01(m, s.p, empty, None, None, 0, len, i, 0);
      }
    } else {
      var j: nat, t: nat :| j + t == i && At01(s, 0, 0, Some1(0, len, j, t), None);
      var a := Some1(0, len, j, t);
      NoMem(m);
      if Mem(m, a) <= m.limit {
        NotOver(m, s.p, a, None);
        Stepped01(m, s.p, s.p, a, None, 0, len, j, t);
      } else {
        EvictWhole(m, s.p, a, None);
        Stepped01(m, s.p, empty, None, None, 0, len, i, 0);
      }
    }
  }

  lemma NoEntry(c: nat, len: nat, j: nat)
    ensures Some1(c, len, j, 0) == None
  {
  }

  lemma NoMem(m: Memory)
    ensures Mem(m, None) == 0
  {
  }

  /** Among the last records. */
  ghost predicate Third(m: Memory, len: nat, n: nat, i: nat, s: Progress)
    requires 2 * n <= i
  {
    var k := i - 2 * n;
    s.At? && s.p.start == 0 && s.p.ix.queue == [] &&
    (s.p.end == 1 ||
     exists a: Option<De> :: At01(s, 0, 0, a, Some1(1, len, 2 * n, k)) &&
                             (k > 0 ==> Mem(m, a) <= m.limit && Load(m, k - 1) <= m.limit))
  }

  lemma ThirdStep(m: Memory, len: nat, n: nat, i: nat, s: Progress)
    requires len > 0 && 2 * n <= i && Third(m, len, n, i, s)
    ensures Third(m, len, n, i + 1, Step(m, s, Clash(1, len, i), Differ(i)))
  {
    hide Evict, Two, Some1, Mem, Load, Step;
    var k, r := i - 2 * n, Clash(1, len, i);
    if s.p.end == 1 {
      StepStays(m, s, r, Differ(i));
    } else {
      var a: Option<De> :| At01(s, 0, 0, a, Some1(1, len, 2 * n, k)) &&
                           (k > 0 ==> Mem(m, a) <= m.limit && Load(m, k - 1) <= m.limit);
      var b := Some1(1, len, 2 * n, k);
      SomeMem(m, 1, len, 2 * n, k);
      NoEntry(1, len, 2 * n);
      NoEntry(1, len, i);
      NoMem(m);
      if Mem(m, a) + Mem(m, b) <= m.limit {
        NotOver(m, s.p, a, b);
        Stepped01(m, s.p, s.p, a, b, 1, len, 2 * n, k);
      } else {
        EvictWhole(m, s.p, a, b);
        var q := Evict(m, s.p).value;
        if Mem(m, a) > m.limit {
          NoLoad(m);
          Stepped01(m, s.p, q, None, None, 1, len, i, 0);
        } else {
          Stepped01(m, s.p, q, a, None, 1, len, i, 0);
        }
      }
    }
  }

  lemma NoLoad(m: Memory)
    ensures Load(m, 0) == 0
  {
  }

  lemma {:induction false} FirstThird(m: Memory, len: nat, n: nat, i: nat)
    requires Many(m, len, n) && n <= i <= 3 * n
    ensures var s := After(m, Pass(0, 0, NOTHING), Mixed(len, n), Differ, i);
            (i <= 2 * n ==> Second(m, len, n, i, s)) && (2 * n <= i ==> Third(m, len, n, i, s))
  {
    hide Second, Third, Step, Load, After;
    var p, rs := Pass(0, 0, NOTHING), Mixed(len, n);
    if i == n {
      AfterOnes(m, len, n);
    } else {
      FirstThird(m, len, n, i - 1);
      AfterUnfolds(m, p, rs, Differ, i);
      var s := After(m, p, rs, Differ, i - 1);
      if i <= 2 * n {
        SecondStep(m, len, n, i - 1, s);
      } else {
        ThirdStep(m, len, n, i - 1, s);
      }
    }
    if i == 2 * n {
      SecondEnds(m, len, n, After(m, p, rs, Differ, i));
    }
  }

  lemma AfterOnes(m: Memory, len: nat, n: nat)
    requires Many(m, len, n)
    ensures Second(m, len, n, n, After(m, Pass(0, 0, NOTHING), Mixed(len, n), Differ, n))
  {
    hide After, Load, Entry;
    SamePrefix(m, Pass(0, 0, NOTHING), Mixed(len, n), Clashes(1, len, n), Differ, n);
    FirstScan(m, len, n, n);
    LeftAll(m, n);
    var s := After(m, Pass(0, 0, NOTHING), Mixed(len, n), Differ, n);
    var j: nat :| s.p.ix.tree == map[1 := Entry(1, len, j, 1)];
    assert At01(s, 0, 1, Some1(0, len, n, 0), Some1(1, len, j, 1));
  }

  lemma SecondEnds(m: Memory, len: nat, n: nat, s: Progress)
    requires Many(m, len, n) && Second(m, len, n, 2 * n, s)
    ensures Third(m, len, n, 2 * n, s)
  {
    hide Load, Two;
    var j: nat, t: nat :| j + t == 2 * n && At01(s, 0, 0, Some1(0, len, j, t), None);
    assert At01(s, 0, 0, Some1(0, len, j, t), Some1(1, len, 2 * n, 0));
  }

  lemma FirstOver(m: Memory, len: nat, n: nat)
    requires Many(m, len, n)
    ensures var s := OnePass(m, 0, NOTHING, Mixed(len, n), ALL_DIFFER);
            s.At? && s.p.end == 1 && s.p.ix.tree == map[] && s.p.ix.queue == []
  {
    hide After, Load, SumBytes, SumLens, Two;
    FirstThird(m, len, n, 3 * n);
  }

  // ----- the second pass -----

  ghost predicate Hanging(m: Memory, len: nat, n: nat, i: nat, s: Progress)
    requires n <= i
  {
    var k := i - n;
    s.Endless? ||
    exists b: Option<De> :: At01(s, 1, 1, Some1(0, len, n, k), b) && (k > 0 ==> Load(m, k - 1) <= m.limit)
  }

  lemma HangStep(m: Memory, len: nat, n: nat, i: nat, s: Progress)
    requires len > 0 && n <= i && Hanging(m, len, n, i, s)
    ensures Hanging(m, len, n, i + 1, Step(m, s, Clash(0, len, i), Differ(i)))
  {
    hide Evict, Two, Some1, Mem, Load, Clash, Step;
    var k, r := i - n, Clash(0, len, i);
    if s.Endless? {
      StepStays(m, s, r, Differ(i));
    } else {
      var b: Option<De> :| At01(s, 1, 1, Some1(0, len, n, k), b) && (k > 0 ==> Load(m, k - 1) <= m.limit);
      var a := Some1(0, len, n, k);
      SomeMem(m, 0, len, n, k);
      if Mem(m, a) + Mem(m, b) <= m.limit {
        NotOver(m, s.p, a, b);
        Stepped01(m, s.p, s.p, a, b, 0, len, n, k);
      } else {
        EvictClosed(m, s.p, a, b);
        if Mem(m, a) <= m.limit {
          Stepped01(m, s.p, Evict(m, s.p).value, a, None, 0, len, n, k);
        } else {
          HangsHere(m, s.p, r, Differ(i));
        }
      }
    }
  }

  lemma HangsHere(m: Memory, p: Pass, r: Leaf, io: Io)
    requires !Skips(p, r) && Evict(m, p).None?
    ensures Step(m, At(p), r, io) == Endless
  {
    hide Evict;
  }

  lemma {:induction false} SecondPass(m: Memory, len: nat, n: nat, ix: Ix, i: nat)
    requires Many(m, len, n) && n <= i <= 3 * n && ix.tree == map[] && ix.queue == []
    ensures var s := After(m, Pass(1, 0, ix), Mixed(len, n), Differ, i);
            (i < 2 * n ==> Hanging(m, len, n, i, s)) && (2 * n <= i ==> s == Endless)
  {
    hide Hanging, Step, Load, After;
    var p, rs := Pass(1, 0, ix), Mixed(len, n);
    if i == n {
      AgainOnes(m, len, n, ix);
    } else {
      SecondPass(m, len, n, ix, i - 1);
      AfterUnfolds(m, p, rs, Differ, i);
      var s := After(m, p, rs, Differ, i - 1);
      if i <= 2 * n {
        HangStep(m, len, n, i - 1, s);
        HangEnds(m, len, n, i, After(m, p, rs, Differ, i));
      } else {
        StepStays(m, s, rs[i - 1], Differ(i - 1));
      }
    }
  }

  lemma HangEnds(m: Memory, len: nat, n: nat, i: nat, s: Progress)
    requires Many(m, len, n) && n <= i && Hanging(m, len, n, i, s)
    ensures i == 2 * n ==> s == Endless
  {
    hide Load, Two;
  }

  lemma AgainOnes(m: Memory, len: nat, n: nat, ix: Ix)
    requires Many(m, len, n) && ix.tree == map[] && ix.queue == []
    ensures Hanging(m, len, n, n, After(m, Pass(1, 0, ix), Mixed(len, n), Differ, n))
  {
    hide After, Load, Entry;
    SamePrefix(m, Pass(1, 0, ix), Mixed(len, n), Clashes(1, len, n), Differ, n);
    ClashScan(m, 1, len, n, ix, n);
    LeftAll(m, n);
    var s, t := After(m, Pass(1, 0, ix), Mixed(len, n), Differ, n), Left(m, n);
    var b := Some(Entry(1, len, n - t, t));
    assert s.p.ix.tree == Two(None, b);
    assert At01(s, 1, 1, Some1(0, len, n, 0), b);
  }

  /** The first pass leaves CRC 1 and above to the second.  That one closes its range
      on CRC 1, lets CRC 0 in, and hangs when CRC 0 does not fit. */
  lemma HangsForever(m: Memory, len: nat, n: nat)
    requires len > 0 && n > 0 && m.de <= m.limit < Load(m, n - 1)
    ensures Runs(m, Mixed(len, n), Always, 2) == Forever
  {
    hide After, Load;
    var rs := Mixed(len, n);
    FirstOver(m, len, n);
    assert Runs(m, rs, Always, 0) == Going(0, NOTHING);
    var s := Runs(m, rs, Always, 1);
    SecondPass(m, len, n, s.ix, 3 * n);
    assert OnePass(m, 1, s.ix, rs, ALL_DIFFER) == Endless;
  }
}
