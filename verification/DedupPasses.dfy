/** The passes of dedup over a CRC range that shrinks when the memory runs out:
    what is dropped, what is counted and when a run comes to an end. */
module DedupPasses {
  import opened Common
  import opened CrcRange
  import opened DedupIndex

  datatype Pass = Pass(start: nat, end: nat, ix: Ix)

  function Use(m: Memory, tree: map<nat, De>): nat {
    SumMem(m, tree, CRCS)
  }

  function Below(tree: map<nat, De>, end: nat): map<nat, De> {
    map c | c in tree && c < end :: tree[c]
  }

  /** One turn of the eviction loop: the range is halved and what is at or above
      its end is dropped. */
  function Halve(p: Pass): Pass {
    var end := Halved(p.start, p.end);
    p.(end := end, ix := p.ix.(tree := Below(p.ix.tree, end)))
  }

  function EvictN(m: Memory, p: Pass, n: nat): Option<Pass>
    decreases n
  {
    if Use(m, p.ix.tree) <= m.limit then Some(p) else if n == 0 then None else EvictN(m, Halve(p), n - 1)
  }

  /** The eviction loop.  After 64 turns it has been through every end it will ever
      come to, so that `None` is a loop without an end. */
  function Evict(m: Memory, p: Pass): Option<Pass> {
    EvictN(m, p, 64)
  }

  datatype Outcome = Stepped(p: Pass, fate: Fate) | Hung | Exited

  /** `process_btree_elm`. */
  function Process(m: Memory, p: Pass, r: Leaf, pass2: bool, io: Io): Outcome {
    match Evict(m, p)
    case None => Hung
    case Some(q) =>
      var o := Offer(q.ix, r, pass2, io);
      if o.fate == Exit then Exited else Stepped(q.(ix := o.ix), o.fate)
  }

  // ----- the range -----

  /** The CRCs from `start` up to `end`, around 2^32 if need be. */
  function Width(start: nat, end: nat): (w: nat)
    ensures 0 < w <= CRCS
  {
    (end - start - 1) % CRCS + 1
  }

  function Half(w: nat): nat
    requires w > 0
  {
    (w - 1) / 2
  }

  lemma HalvedIsHalf(start: nat, end: nat)
    ensures Halved(start, end) == (start + Half(Width(start, end))) % CRCS
  {
  }

  lemma WidthOf(start: nat, w: nat)
    requires start < CRCS && 0 < w <= CRCS
    ensures Width(start, (start + w) % CRCS) == w
  {
    if start + w < CRCS {
    } else {
      assert (start + w) % CRCS == start + w - CRCS;
    }
  }

  // ----- eviction from a range that is not closed -----

  /** The range is open and nothing lies below it. */
  ghost predicate Above(p: Pass) {
    p.start < CRCS && p.end < CRCS && (p.end == 0 || p.start < p.end) &&
    forall c | c in p.ix.tree :: p.start <= c < CRCS
  }

  lemma AboveWidth(p: Pass)
    requires Above(p)
    ensures Width(p.start, p.end) == Bound(p.end) - p.start
  {
  }

  lemma HalveAbove(p: Pass)
    requires Above(p)
    ensures var h := Half(Bound(p.end) - p.start);
            Halve(p).end == p.start + h < Bound(p.end) && Halve(p).start == p.start &&
            Halve(p).ix.tree == Below(p.ix.tree, p.start + h) && (h > 0 ==> Above(Halve(p)))
  {
    AboveWidth(p);
    HalvedIsHalf(p.start, p.end);
  }

  lemma {:induction false} SumBelow(m: Memory, tree: map<nat, De>, end: nat, n: nat)
    ensures SumMem(m, Below(tree, end), n) == SumMem(m, tree, if end < n then end else n)
  {
    if n > 0 {
      SumBelow(m, tree, end, n - 1);
    }
  }

  lemma {:induction false} SumGrows(m: Memory, tree: map<nat, De>, a: nat, b: nat)
    requires a <= b
    ensures SumMem(m, tree, a) <= SumMem(m, tree, b)
    decreases b
  {
    if a < b {
      SumGrows(m, tree, a, b - 1);
    }
  }

  lemma BelowTwice(tree: map<nat, De>, a: nat, b: nat)
    requires b <= a
    ensures Below(Below(tree, a), b) == Below(tree, b)
  {
  }

  lemma EmptyBelow(p: Pass)
    requires forall c | c in p.ix.tree :: p.start <= c
    ensures Below(p.ix.tree, p.start) == map[]
  {
  }

  /** What the eviction loop does to an open range. */
  ghost predicate Evicted(m: Memory, p: Pass, q: Pass) {
    q == p.(end := q.end, ix := p.ix.(tree := q.ix.tree)) && Use(m, q.ix.tree) <= m.limit &&
    if Use(m, p.ix.tree) <= m.limit then q == p
    else p.start <= q.end < Bound(p.end) && q.ix.tree == Below(p.ix.tree, q.end)
  }

  /** From an open range the loop ends; exactly the entries at or above the new end
      are gone. */
  lemma {:induction false} EvictEnds(m: Memory, p: Pass, n: nat)
    requires Above(p) && Half(Bound(p.end) - p.start) < Pow2(n)
    ensures EvictN(m, p, n + 1).Some? && Evicted(m, p, EvictN(m, p, n + 1).value)
    decreases n
  {
    hide SumMem;
    if Use(m, p.ix.tree) > m.limit {
      HalveAbove(p);
      var h := Half(Bound(p.end) - p.start);
      var q := Halve(p);
      if h == 0 {
        EmptyBelow(p);
        SumNone(m, q.ix.tree, CRCS);
        assert EvictN(m, q, n) == Some(q);
      } else {
        assert n > 0;
        EvictEnds(m, q, n - 1);
        var e := EvictN(m, q, n).value;
        BelowTwice(p.ix.tree, q.end, e.end);
      }
    }
  }

  lemma {:induction false} EvictMore(m: Memory, p: Pass, n: nat, k: nat)
    requires n <= k && EvictN(m, p, n).Some?
    ensures EvictN(m, p, k) == EvictN(m, p, n)
    decreases n
  {
    hide SumMem;
    if Use(m, p.ix.tree) > m.limit {
      EvictMore(m, Halve(p), n - 1, k - 1);
    }
  }

  lemma Pow2Of32()
    ensures Pow2(32) == CRCS
  {
    assert Pow2(8) == 256;
    assert Pow2(16) == 65536;
    assert Pow2(24) == 16777216;
  }

  lemma HalfFits(w: nat)
    requires 0 < w <= CRCS
    ensures Half(w) < Pow2(31)
  {
    hide Pow2;
    Pow2Of32();
    Pow2Doubles(31);
  }

  lemma Pow2Doubles(n: nat)
    ensures Pow2(n + 1) == 2 * Pow2(n)
  {
  }

  /** From an open range the loop ends within 32 turns. */
  lemma EvictAbove(m: Memory, p: Pass)
    requires Above(p)
    ensures Evict(m, p) == EvictN(m, p, 32) && Evict(m, p).Some? && Evicted(m, p, Evict(m, p).value)
  {
    hide SumMem, Pow2;
    HalfFits(Bound(p.end) - p.start);
    EvictEnds(m, p, 31);
    EvictMore(m, p, 32, 64);
  }

  /** The loop closes the range: its end comes down to its start. */
  predicate Closes(m: Memory, p: Pass) {
    Use(m, p.ix.tree) > m.limit && Evict(m, p).Some? && Evict(m, p).value.end == p.start
  }

  /** The last width before the range would be closed. */
  function LastWidth(w: nat): (v: nat)
    requires w > 2
    ensures 1 <= v <= 2
  {
    var h := Half(w);
    if h <= 2 then h else LastWidth(h)
  }

  lemma LastStep(w: nat)
    requires w > 2
    ensures var h := Half(w);
            h > 0 && LastWidth(w) <= h && LastWidth(w) == if h <= 2 then h else LastWidth(h)
  {
  }

  /** The first turn of the loop. */
  lemma FirstTurn(m: Memory, p: Pass, n: nat)
    requires Above(p) && Use(m, p.ix.tree) > m.limit
    ensures var h := Half(Bound(p.end) - p.start);
            EvictN(m, p, n + 1) == EvictN(m, Halve(p), n) && Halve(p).start == p.start && Halve(p).end == p.start + h &&
            Halve(p).ix.tree == Below(p.ix.tree, p.start + h) &&
            Use(m, Halve(p).ix.tree) == SumMem(m, p.ix.tree, p.start + h) &&
            (h == 0 ==> EvictN(m, p, n + 1) == Some(Halve(p))) && (h > 0 ==> Above(Halve(p))) &&
            (Use(m, Halve(p).ix.tree) <= m.limit ==> EvictN(m, p, n + 1) == Some(Halve(p)))
  {
    hide SumMem;
    HalveAbove(p);
    var h := Half(Bound(p.end) - p.start);
    SumBelow(m, p.ix.tree, p.start + h, CRCS);
    if h == 0 {
      EmptyBelow(p);
      SumNone(m, Halve(p).ix.tree, CRCS);
    }
  }

  lemma {:induction false} CloseExact(m: Memory, p: Pass, n: nat)
    requires Above(p) && Use(m, p.ix.tree) > m.limit && Half(Bound(p.end) - p.start) < Pow2(n)
    ensures EvictN(m, p, n + 1).Some?
    ensures var w := Bound(p.end) - p.start;
            EvictN(m, p, n + 1).value.end == p.start <==>
            w <= 2 || SumMem(m, p.ix.tree, p.start + LastWidth(w)) > m.limit
    decreases n
  {
    hide SumMem, LastWidth, Halve, EvictN, Use, Below;
    EvictEnds(m, p, n);
    FirstTurn(m, p, n);
    var w, q := Bound(p.end) - p.start, Halve(p);
    var h := Half(w);
    if h > 0 {
      assert n > 0;
      LastStep(w);
      if Use(m, q.ix.tree) <= m.limit {
        SumGrows(m, p.ix.tree, p.start + LastWidth(w), p.start + h);
      } else {
        CloseExact(m, q, n - 1);
        if h > 2 {
          SumBelow(m, p.ix.tree, p.start + h, p.start + LastWidth(h));
        }
      }
    }
  }

  /** The range closes exactly when it is one or two CRCs wide already, or when the
      one or two CRCs at its start take more memory than there is. */
  lemma ClosesIff(m: Memory, p: Pass)
    requires Above(p) && Use(m, p.ix.tree) > m.limit
    ensures var w := Bound(p.end) - p.start;
            Closes(m, p) <==> w <= 2 || SumMem(m, p.ix.tree, p.start + LastWidth(w)) > m.limit
  {
    hide SumMem, Pow2, LastWidth;
    HalfFits(Bound(p.end) - p.start);
    CloseExact(m, p, 31);
    EvictMore(m, p, 32, 64);
  }

  // ----- eviction that never ends -----

  function Halves(p: Pass, n: nat): (q: Pass)
    ensures q.start == p.start
  {
    if n == 0 then p else Halve(Halves(p, n - 1))
  }

  lemma {:induction false} HalvesAdd(p: Pass, i: nat, j: nat)
    ensures Halves(Halves(p, i), j) == Halves(p, i + j)
    decreases j
  {
    hide Halve;
    if j > 0 {
      HalvesAdd(p, i, j - 1);
    }
  }

  lemma HalvesAfter(p: Pass, j: nat)
    requires j > 0
    ensures Halves(p, j) == Halves(Halve(p), j - 1)
  {
    hide Halve;
    assert Halves(p, 1) == Halve(Halves(p, 0));
    HalvesAdd(p, 1, j - 1);
  }

  lemma {:induction false} NoneIff(m: Memory, p: Pass, n: nat)
    ensures EvictN(m, p, n).None? <==> forall j: nat | j <= n :: Use(m, Halves(p, j).ix.tree) > m.limit
    decreases n
  {
    hide SumMem, Halve, Use;
    assert Halves(p, 0) == p;
    if Use(m, p.ix.tree) > m.limit && n > 0 {
      var q := Halve(p);
      assert EvictN(m, p, n) == EvictN(m, q, n - 1);
      NoneIff(m, q, n - 1);
      hide Halves, EvictN;
      if EvictN(m, q, n - 1).None? {
        forall j: nat | j <= n
          ensures Use(m, Halves(p, j).ix.tree) > m.limit
        {
          if j > 0 {
            HalvesAfter(p, j);
          }
        }
      } else {
        var j: nat :| j <= n - 1 && Use(m, Halves(q, j).ix.tree) <= m.limit;
        HalvesAfter(p, j + 1);
      }
    }
  }

  /** The ends the loop goes through, starting from a closed range. */
  lemma {:induction false} CycleEnd(p: Pass, j: nat)
    requires p.start < CRCS && p.end == p.start && 1 <= j <= 32
    ensures Pow2(32 - j) >= 1 && Halves(p, j).end == (p.start + Pow2(32 - j) - 1) % CRCS
    decreases j
  {
    hide Below;
    Pow2Positive(32 - j);
    Pow2Of32();
    var q := Halves(p, j - 1);
    HalvedIsHalf(q.start, q.end);
    assert Pow2(33 - j) == 2 * Pow2(32 - j);
    if j == 1 {
      assert Width(p.start, p.end) == CRCS;
    } else {
      CycleEnd(p, j - 1);
      Pow2Below(33 - j);
      WidthOf(p.start, Pow2(33 - j) - 1);
    }
    assert Half(2 * Pow2(32 - j) - 1 + if j == 1 then 1 else 0) == Pow2(32 - j) - 1;
  }

  lemma {:induction false} Pow2Positive(n: nat)
    ensures Pow2(n) >= 1
  {
    if n > 0 {
      Pow2Positive(n - 1);
    }
  }

  lemma {:induction false} Pow2Below(n: nat)
    requires n <= 32
    ensures Pow2(n) <= CRCS
    decreases 32 - n
  {
    if n == 32 {
      Pow2Of32();
    } else {
      Pow2Below(n + 1);
      Pow2Positive(n);
    }
  }

  /** From anywhere the range is closed within 32 turns. */
  lemma {:induction false} ToClosed(p: Pass, n: nat) returns (t: nat)
    requires p.start < CRCS && n <= 32 && Half(Width(p.start, p.end)) < Pow2(n)
    ensures 1 <= t <= n + 1 && Halves(p, t).end == p.start
    decreases n
  {
    hide Below;
    HalvedIsHalf(p.start, p.end);
    var h := Half(Width(p.start, p.end));
    assert Halves(p, 0) == p && Halves(p, 1) == Halve(p);
    if h == 0 {
      t := 1;
    } else {
      assert n > 0;
      WidthOf(p.start, h);
      t := ToClosed(Halve(p), n - 1);
      HalvesAdd(p, 1, t);
      t := t + 1;
    }
  }

  /** Entries that are left have been below every end so far. */
  lemma {:induction false} LeftBelow(p: Pass, i: nat, j: nat)
    requires 1 <= i <= j
    ensures forall c | c in Halves(p, j).ix.tree :: c < Halves(p, i).end
    decreases j
  {
    if i < j {
      LeftBelow(p, i, j - 1);
    }
  }

  lemma SameBelow(tree: map<nat, De>, end: nat)
    requires forall c | c in tree :: c < end
    ensures Below(tree, end) == tree
  {
  }

  /** A second round over the ends changes nothing. */
  lemma {:induction false} RoundIdle(a: Pass, j: nat)
    requires a.start < CRCS && a.end == a.start && j <= 32
    ensures var q := Halves(a, 32);
            q.end == a.start && Halves(q, j).ix == q.ix && (j == 32 ==> Halves(q, j) == q)
    decreases j
  {
    var q := Halves(a, 32);
    CycleEnd(a, 32);
    assert Pow2(0) == 1;
    if j > 0 {
      RoundIdle(a, j - 1);
      CycleEnd(a, j);
      CycleEnd(q, j);
      LeftBelow(a, j, 32);
      hide Pow2, Halves, Below;
      HalvesStep(q, j);
      HalvesStep(a, j);
      SameBelow(q.ix.tree, Halves(a, j).end);
    }
  }

  lemma HalvesStep(p: Pass, j: nat)
    requires j > 0
    ensures Halves(p, j) == Halve(Halves(p, j - 1))
  {
  }

  lemma {:induction false} ForeverIdle(a: Pass, n: nat)
    requires a.start < CRCS && a.end == a.start
    ensures var q := Halves(a, 32); Halves(q, n).ix == q.ix
    decreases n
  {
    hide Halves;
    if n <= 32 {
      RoundIdle(a, n);
    } else {
      RoundIdle(a, 32);
      var q := Halves(a, 32);
      HalvesAdd(q, 32, n - 32);
      ForeverIdle(a, n - 32);
    }
  }

  /** If 64 turns are not enough, no number of turns is. */
  lemma EvictForever(m: Memory, p: Pass, n: nat)
    requires p.start < CRCS && Evict(m, p).None?
    ensures EvictN(m, p, n).None?
  {
    hide SumMem, Halves, Pow2, EvictN;
    HalfFits(Width(p.start, p.end));
    var t := ToClosed(p, 31);
    var a := Halves(p, t);
    var q := Halves(a, 32);
    NoneIff(m, p, 64);
    HalvesAdd(p, t, 32);
    forall j: nat | j <= n
      ensures Use(m, Halves(p, j).ix.tree) > m.limit
    {
      if j > 64 {
        HalvesAdd(p, t + 32, j - t - 32);
        ForeverIdle(a, j - t - 32);
      }
    }
    NoneIff(m, p, n);
  }

  /** The number of binary digits. */
  function Bits(x: nat): nat {
    if x == 0 then 0 else 1 + Bits(x / 2)
  }

  lemma {:induction false} BitsExact(x: nat, k: nat)
    ensures Pow2(k) > x <==> k >= Bits(x)
  {
    if x == 0 {
      Pow2Positive(k);
    } else if k > 0 {
      BitsExact(x / 2, k - 1);
    }
  }

  /** The least end the loop ever comes to from a range that starts at `start`: the
      start itself, unless an end of the upper half goes around 2^32. */
  function LeastEnd(start: nat): (e: int)
    requires start < CRCS
  {
    if start <= CRCS / 2 then start else start + Pow2(Bits(CRCS - start)) - 1 - CRCS
  }

  /** The least end is one of the ends of the cycle, and no other one is below it. */
  lemma LeastOfCycle(start: nat, k: nat)
    requires start < CRCS && k <= 31
    ensures 0 <= LeastEnd(start) <= start && LeastEnd(start) <= (start + Pow2(k) - 1) % CRCS
    ensures start > CRCS / 2 ==>
              var b := Bits(CRCS - start); b <= 31 && LeastEnd(start) == (start + Pow2(b) - 1) % CRCS
  {
    hide Pow2, Bits;
    HalfOfAll();
    Pow2Order(k, 31);
    Pow2Positive(k);
    if start > CRCS / 2 {
      var x := CRCS - start;
      BitsExact(x, 31);
      BitsExact(x, k);
      BitsExact(x, Bits(x));
      Pow2Order(Bits(x), 31);
      if k >= Bits(x) {
        Pow2Order(Bits(x), k);
        Around(start, Pow2(k));
      }
      Around(start, Pow2(Bits(x)));
    }
  }

  lemma HalfOfAll()
    ensures Pow2(31) == CRCS / 2
  {
    hide Pow2;
    Pow2Of32();
    Pow2Doubles(31);
  }

  lemma Around(start: nat, w: nat)
    requires start < CRCS < start + w <= start + CRCS
    ensures (start + w - 1) % CRCS == start + w - 1 - CRCS
  {
  }

  lemma {:induction false} Pow2Order(a: nat, b: nat)
    requires a <= b
    ensures Pow2(a) <= Pow2(b)
    decreases b
  {
    if a < b {
      Pow2Order(a, b - 1);
    }
  }

  /** A range inside the CRCs, or one of the cycle through a closed range. */
  predicate Proper(start: nat, end: nat) {
    var w := Width(start, end);
    start < CRCS && (start + w <= CRCS || w == CRCS || exists k: nat :: 1 <= k <= 31 && w == Pow2(k) - 1)
  }

  lemma ProperHalf(start: nat, end: nat)
    requires Proper(start, end)
    ensures LeastEnd(start) <= Halved(start, end) && Proper(start, Halved(start, end))
  {
    hide LeastEnd, Halved;
    var w := Width(start, end);
    if start + w <= CRCS {
      hide Pow2;
      InsideHalf(start, end);
    } else if w == CRCS {
      HalfOfAll();
      CycleHalf(start, end, 31);
    } else {
      var k: nat :| 1 <= k <= 31 && w == Pow2(k) - 1;
      CycleHalf(start, end, k - 1);
    }
  }

  lemma InsideHalf(start: nat, end: nat)
    requires start < CRCS && start + Width(start, end) <= CRCS
    ensures LeastEnd(start) <= Halved(start, end) && Proper(start, Halved(start, end))
  {
    hide Pow2, LeastEnd;
    HalvedIsHalf(start, end);
    LeastOfCycle(start, 0);
    var h := Half(Width(start, end));
    if h > 0 {
      WidthOf(start, h);
    } else {
      assert Width(start, start) == CRCS;
    }
  }

  lemma CycleHalf(start: nat, end: nat, k: nat)
    requires start < CRCS && k <= 31 && Half(Width(start, end)) == Pow2(k) - 1
    ensures LeastEnd(start) <= Halved(start, end) && Proper(start, Halved(start, end))
  {
    hide LeastEnd;
    HalvedIsHalf(start, end);
    LeastOfCycle(start, k);
    Pow2Order(k, 31);
    HalfOfAll();
    hide Pow2;
    var h := Half(Width(start, end));
    if h > 0 {
      WidthOf(start, h);
      Pow2Zero();
    } else {
      assert Width(start, start) == CRCS;
    }
  }

  lemma Pow2Zero()
    ensures Pow2(0) == 1
  {
  }

  /** No turn of the loop touches an entry below the least end. */
  lemma {:induction false} StaysBelow(m: Memory, p: Pass, j: nat)
    requires Proper(p.start, p.end)
    ensures var q, e := Halves(p, j), LeastEnd(p.start);
            0 <= e <= CRCS && Proper(q.start, q.end) &&
            SumMem(m, q.ix.tree, e) == SumMem(m, p.ix.tree, e) <= Use(m, q.ix.tree)
    decreases j
  {
    LeastOfCycle(p.start, 0);
    hide SumMem, Proper, LeastEnd;
    var q, e := Halves(p, j), LeastEnd(p.start);
    SumGrows(m, q.ix.tree, e, CRCS);
    if j > 0 {
      StaysBelow(m, p, j - 1);
      var o := Halves(p, j - 1);
      ProperHalf(o.start, o.end);
      SumBelow(m, o.ix.tree, q.end, e);
    }
  }

  /** The turn at which the loop comes to its least end, and what is left then. */
  lemma ToLeast(m: Memory, p: Pass) returns (t: nat)
    requires Proper(p.start, p.end)
    ensures 1 <= t <= 64 && 0 <= LeastEnd(p.start) && Halves(p, t).end == LeastEnd(p.start)
  {
    hide Pow2, Halves, LeastEnd;
    HalfFits(Width(p.start, p.end));
    t := ToClosed(p, 31);
    LeastOfCycle(p.start, 0);
    if p.start <= CRCS / 2 {
      LowerHalf(p.start);
    } else {
      var a, k := Halves(p, t), 32 - Bits(CRCS - p.start);
      CycleEnd(a, k);
      HalvesAdd(p, t, k);
      t := t + k;
    }
  }

  lemma LowerHalf(start: nat)
    requires start <= CRCS / 2
    ensures LeastEnd(start) == start
  {
  }

  /** The loop has no end exactly when the entries below the least end take too much
      memory by themselves: those are never evicted, and all others are. */
  lemma EvictNoneIff(m: Memory, p: Pass)
    requires p.start < CRCS && (p.end == 0 || p.start <= p.end < CRCS)
    ensures 0 <= LeastEnd(p.start) && (Evict(m, p).None? <==> SumMem(m, p.ix.tree, LeastEnd(p.start)) > m.limit)
  {
    hide SumMem, EvictN, LeastEnd, Pow2, Halves;
    assert Proper(p.start, p.end);
    var e := LeastEnd(p.start);
    var t := ToLeast(m, p);
    StaysBelow(m, p, t);
    HalvesStep(p, t);
    SumBelow(m, Halves(p, t - 1).ix.tree, e, CRCS);
    SumBelow(m, Halves(p, t - 1).ix.tree, e, e);
    forall j: nat | j <= 64
      ensures SumMem(m, p.ix.tree, e) <= Use(m, Halves(p, j).ix.tree)
    {
      StaysBelow(m, p, j);
    }
    NoneIff(m, p, 64);
  }
}
