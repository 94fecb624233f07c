/** With less memory than that there are answers of the outside under which the first
    pass of dedup loses records: together, exactly when one pass is enough. */
module DedupTight {
  import opened Common
  import opened CrcRange
  import opened DedupIndex
  import opened DedupPasses
  import opened DedupRun
  import opened DedupLimits
  import opened DedupClash
  import opened DedupFits

  // ----- bytes that are lost -----

  /** The index holds the records of `held`, none of them empty, and with what was
      counted and queued they come to `total` bytes. */
  ghost predicate Accounts(p: Pass, held: seq<Leaf>, total: nat) {
    Kept(p.ix.tree, held) && (forall l <- held :: l.len > 0) && (forall l <- p.ix.queue :: l.len > 0 && l.crc < CRCS) &&
    QueueBytes(held) + p.ix.totals.refSize + QueueBytes(p.ix.queue) == total
  }

  ghost predicate Full(p: Pass, total: nat) {
    exists held: seq<Leaf> :: Accounts(p, held, total)
  }

  /** Fewer bytes than `total` are still accounted for, or the pass hangs. */
  ghost predicate Lost(s: Progress, total: nat) {
    s.Endless? || (s.At? && exists less: nat :: less < total && Full(s.p, less))
  }

  /** An eviction keeps the entries below some CRC. */
  lemma {:induction false} EvictShrinks(m: Memory, p: Pass, n: nat) returns (e: nat)
    requires EvictN(m, p, n).Some? && forall c | c in p.ix.tree :: c < CRCS
    ensures var q := EvictN(m, p, n).value; q.ix == p.ix.(tree := Below(p.ix.tree, e)) && Use(m, q.ix.tree) <= m.limit
    decreases n
  {
    hide SumMem;
    if Use(m, p.ix.tree) <= m.limit {
      e := CRCS;
      SameBelow(p.ix.tree, e);
    } else {
      var q := Halve(p);
      e := EvictShrinks(m, q, n - 1);
      if e <= q.end {
        BelowTwice(p.ix.tree, q.end, e);
      } else {
        assert Below(Below(p.ix.tree, q.end), e) == Below(p.ix.tree, q.end);
        e := q.end;
      }
    }
  }

  lemma {:induction false} BelowBytes(held: seq<Leaf>, e: nat)
    requires forall l <- held :: l.len > 0
    ensures QueueBytes(HeldBelow(held, e)) <= QueueBytes(held)
    ensures (exists l <- held :: l.crc >= e) ==> QueueBytes(HeldBelow(held, e)) < QueueBytes(held)
  {
    if held != [] {
      var n := |held| - 1;
      assert held == held[..n] + [held[n]];
      BelowBytes(held[..n], e);
      QueueAdd(HeldBelow(held[..n], e), held[n]);
      assert HeldBelow(held[..n], e) + [] == HeldBelow(held[..n], e);
    }
  }

  /** What is left after an eviction accounts for no more, and for less if it did evict. */
  lemma EvictAccounts(m: Memory, p: Pass, held: seq<Leaf>, total: nat) returns (left: nat)
    requires Accounts(p, held, total) && Evict(m, p).Some?
    ensures Full(Evict(m, p).value, left) && left <= total && (Use(m, p.ix.tree) > m.limit ==> left < total)
  {
    hide SumMem, StandsFor, QueueBytes, HeldBelow, EvictN;
    var e := EvictShrinks(m, p, 64);
    var q, rest := Evict(m, p).value, HeldBelow(held, e);
    KeptBelow(p.ix.tree, held, e);
    BelowBytes(held, e);
    left := QueueBytes(rest) + p.ix.totals.refSize + QueueBytes(p.ix.queue);
    forall l <- rest
      ensures l.len > 0
    {
      HeldMember(held, e, l);
    }
    if Use(m, p.ix.tree) > m.limit {
      if forall c | c in p.ix.tree :: c < e {
        SameBelow(p.ix.tree, e);
        assert false;
      }
      var c :| c in p.ix.tree && c >= e;
      HeldSome(p.ix.tree, held, c);
      HasOne(held, c);
    }
    assert Accounts(q, rest, left);
  }

  lemma {:induction false} HasOne(held: seq<Leaf>, c: nat)
    requires CountOf(held, c) >= 1
    ensures exists l <- held :: l.crc == c
  {
    var n := |held| - 1;
    if held[n].crc == c {
      assert held[n] in held;
    } else {
      HasOne(held[..n], c);
      var l :| l in held[..n] && l.crc == c;
      assert l in held;
    }
  }

  lemma OfferAccounts(q: Pass, total: nat, r: Leaf, io: Io)
    requires Full(q, total) && r.crc < CRCS && r.len > 0 && io.verdict != VersFailure
    ensures var o := Offer(q.ix, r, false, io); o.fate != Exit && Full(q.(ix := o.ix), total + r.len)
  {
    hide Kept, Offer, QueueBytes;
    var held: seq<Leaf> :| Accounts(q, held, total);
    var o := Offer(q.ix, r, false, io);
    OfferKeeps(q.ix, held, r, false, io);
    QueueAdd(held, r);
    QueueAdd(q.ix.queue, r);
    assert Accounts(q.(ix := o.ix), if o.fate == Indexed then held + [r] else held, total + r.len);
  }

  /** One record of the scan: nothing that was lost comes back. */
  lemma LostStep(m: Memory, s: Progress, total: nat, r: Leaf, io: Io)
    requires Lost(s, total) && r.crc < CRCS && r.len > 0 && io.verdict != VersFailure
    ensures Lost(Step(m, s, r, io), total + r.len)
  {
    hide Full, Evict, Offer;
    if s.At? {
      var less: nat :| less < total && Full(s.p, less);
      if !Skips(s.p, r) && Evict(m, s.p).Some? {
        ProcessAccounts(m, s.p, less, r, io);
      }
    }
  }

  /** A record that is processed after an eviction, or that is not. */
  lemma ProcessAccounts(m: Memory, p: Pass, total: nat, r: Leaf, io: Io)
    requires Full(p, total) && r.crc < CRCS && r.len > 0 && io.verdict != VersFailure && Evict(m, p).Some?
    ensures var q := Evict(m, p).value;
            var o := Offer(q.ix, r, false, io);
            o.fate != Exit &&
            exists left: nat ::
              left <= total + r.len && (Use(m, p.ix.tree) > m.limit ==> left < total + r.len) && Full(q.(ix := o.ix), left)
  {
    hide Evict, Offer, SumMem, Accounts;
    var held: seq<Leaf> :| Accounts(p, held, total);
    var left := EvictAccounts(m, p, held, total);
    OfferAccounts(Evict(m, p).value, left, r, io);
  }

  // ----- pass 2 -----

  lemma AgainAccounts(q: Pass, total: nat, r: Leaf, io: Io)
    requires Full(q, total) && q.ix.queue != [] && q.ix.queue[0] == r && io.verdict != VersFailure
    ensures var o := Offer(q.ix, r, true, io);
            o.fate != Exit &&
            var p := Retried(q.(ix := o.ix), r, o.fate);
            Full(p, total) && p.ix.queue == q.ix.queue[1..]
  {
    hide Kept, Offer, QueueBytes;
    var held: seq<Leaf> :| Accounts(q, held, total);
    assert r in q.ix.queue;
    var o := Offer(q.ix, r, true, io);
    OfferKeeps(q.ix, held, r, true, io);
    QueueAdd(held, r);
    QueueDrop(q.ix.queue);
    assert Accounts(Retried(q.(ix := o.ix), r, o.fate), if o.fate == Indexed then held + [r] else held, total);
  }

  lemma LostTry(m: Memory, p: Pass, total: nat, io: Io)
    requires Full(p, total) && p.ix.queue != [] && io.verdict != VersFailure
    ensures var s := StepAgain(m, At(p), p.ix.queue[0], io);
            s.Endless? ||
            (s.At? && s.p.ix.queue == p.ix.queue[1..] &&
             exists left: nat :: left <= total && (Use(m, p.ix.tree) > m.limit ==> left < total) && Full(s.p, left))
  {
    hide Evict, Offer, SumMem, Accounts;
    if Evict(m, p).Some? {
      var held: seq<Leaf> :| Accounts(p, held, total);
      var left := EvictAccounts(m, p, held, total);
      SameQueue(m, p);
      AgainAccounts(Evict(m, p).value, left, p.ix.queue[0], io);
    }
  }

  lemma SameQueue(m: Memory, p: Pass)
    requires Evict(m, p).Some?
    ensures Evict(m, p).value.ix.queue == p.ix.queue
  {
    hide SumMem;
    QueueStays(m, p, 64);
  }

  lemma {:induction false} QueueStays(m: Memory, p: Pass, n: nat)
    requires EvictN(m, p, n).Some?
    ensures EvictN(m, p, n).value.ix.queue == p.ix.queue
    decreases n
  {
    hide SumMem;
    if Use(m, p.ix.tree) > m.limit {
      QueueStays(m, Halve(p), n - 1);
    }
  }

  lemma {:induction false} LostAgain(m: Memory, p: Pass, total: nat, io: nat -> Io, i: nat, k: nat)
    requires k <= i <= |p.ix.queue| && forall j: nat :: io(j).verdict != VersFailure
    requires Lost(Again(m, p, p.ix.queue, io, k), total)
    requires var s := Again(m, p, p.ix.queue, io, k); s.At? ==> s.p.ix.queue == p.ix.queue[k..]
    ensures var s := Again(m, p, p.ix.queue, io, i); Lost(s, total) && (s.At? ==> s.p.ix.queue == p.ix.queue[i..])
    decreases i
  {
    hide Full, StepAgain;
    if i > k {
      LostAgain(m, p, total, io, i - 1, k);
      var q := p.ix.queue;
      var s := Again(m, p, q, io, i - 1);
      if s.At? {
        var less: nat :| less < total && Full(s.p, less);
        LostTry(m, s.p, less, io(i - 1));
        assert q[i - 1..][1..] == q[i..] && q[i - 1..][0] == q[i - 1];
      } else {
        StuckAgain(m, s, q[i - 1], io(i - 1));
      }
    }
  }

  lemma LostPass(m: Memory, p: Pass, rs: seq<Leaf>, io: nat -> Io, total: nat)
    requires var s := Again(m, p, p.ix.queue, io, |p.ix.queue|);
             Lost(s, QueueBytes(rs)) && (s.At? ==> s.p.ix.queue == [])
    ensures var s := Again(m, p, p.ix.queue, io, |p.ix.queue|);
            s.Endless? || (s.At? && !Whole(rs, At(Drained(s.p))))
  {
    hide Again, SumBytes, SumLens, Kept, QueueBytes;
    var s := Again(m, p, p.ix.queue, io, |p.ix.queue|);
    if s.At? {
      var less: nat :| less < QueueBytes(rs) && Full(s.p, less);
      var held: seq<Leaf> :| Accounts(s.p, held, less);
      IndexIsHeld(s.p.ix.tree, held);
    }
  }

  // ----- the memory that is used when all records differ -----

  /** Every record has a hash of its own, except that the checksum of record `i` is not
      to be had. */
  function OneFails(i: nat, g: nat): Io {
    if g == i then Io(CmpFailure, Some(-1), None) else Differ(g)
  }

  /** No two records of a CRC share a block. */
  predicate Different(rs: seq<Leaf>) {
    forall i, j | 0 <= i < j < |rs| && rs[i].crc == rs[j].crc :: rs[i].offset != rs[j].offset
  }

  /** Record `i`, if there is one, is not the first of its CRC. */
  predicate Later(rs: seq<Leaf>, i: nat) {
    i < |rs| ==> exists j :: 0 <= j < i && rs[j].crc == rs[i].crc
  }

  /** The records indexed out of the first `g`. */
  function Taken(rs: seq<Leaf>, i: nat, g: nat): seq<Leaf>
    requires g <= |rs|
  {
    if i < g then rs[..i] + rs[i + 1..g] else rs[..g]
  }

  predicate From(l: Leaf, rs: seq<Leaf>, g: nat, c: nat)
    requires g <= |rs|
  {
    l.crc == c && exists j :: 0 <= j < g && rs[j] == l
  }

  /** The entry of CRC `c` for `k` records, and perhaps one in the queue. */
  ghost predicate Shaped(tree: map<nat, De>, rs: seq<Leaf>, g: nat, c: nat, k: nat, pending: bool)
    requires g <= |rs|
  {
    if k == 0 then c !in tree
    else
      c in tree &&
      match tree[c]
      case Plain(leaf, _, _) => k == 1 && !pending && From(leaf, rs, g, c)
      case Fict(_, shas) =>
        (k > 1 || pending) && |shas| == k && forall j | 0 <= j < k :: shas[j].hash < g && From(shas[j].leaf, rs, g, c)
  }

  ghost predicate Exact(p: Pass, rs: seq<Leaf>, i: nat, g: nat)
    requires g <= |rs|
  {
    forall c: nat :: Shaped(p.ix.tree, rs, g, c, CountOf(Taken(rs, i, g), c), i < g && rs[i].crc == c)
  }

  lemma {:induction false} ExactMem(m: Memory, p: Pass, rs: seq<Leaf>, i: nat, g: nat, n: nat)
    requires g <= |rs| && Exact(p, rs, i, g)
    ensures SumMem(m, p.ix.tree, n) ==
            SumLoad(m, Taken(rs, i, g), n) +
            if i < g && rs[i].crc < n && CountOf(Taken(rs, i, g), rs[i].crc) == 1 then m.sha else 0
    decreases n
  {
    hide CountOf, Taken, Exact;
    if n > 0 {
      ExactMem(m, p, rs, i, g, n - 1);
      var c := n - 1;
      ShapeOf(p, rs, i, g, c);
    }
  }

  lemma ShapeOf(p: Pass, rs: seq<Leaf>, i: nat, g: nat, c: nat)
    requires g <= |rs| && Exact(p, rs, i, g)
    ensures Shaped(p.ix.tree, rs, g, c, CountOf(Taken(rs, i, g), c), i < g && rs[i].crc == c)
  {
  }

  lemma FromMore(l: Leaf, rs: seq<Leaf>, g: nat, c: nat)
    requires g < |rs| && (From(l, rs, g, c) || (l == rs[g] && l.crc == c))
    ensures From(l, rs, g + 1, c)
  {
  }

  lemma OtherBlock(l: Leaf, rs: seq<Leaf>, g: nat)
    requires g < |rs| && Different(rs) && From(l, rs, g, rs[g].crc)
    ensures l.offset != rs[g].offset
  {
  }

  lemma ShapeMore(tree: map<nat, De>, rs: seq<Leaf>, g: nat, c: nat, k: nat, pending: bool)
    requires g < |rs| && Shaped(tree, rs, g, c, k, pending)
    ensures Shaped(tree, rs, g + 1, c, k, pending)
  {
    hide From;
    if k > 0 {
      match tree[c]
      case Plain(leaf, _, _) =>
        FromMore(leaf, rs, g, c);
      case Fict(_, shas) =>
        forall j | 0 <= j < k
          ensures From(shas[j].leaf, rs, g + 1, c)
        {
          FromMore(shas[j].leaf, rs, g, c);
        }
    }
  }

  lemma NewShape(tree: map<nat, De>, d: De, rs: seq<Leaf>, g: nat, k: nat, pending: bool)
    requires g < |rs| && k > 0 && d.Fict? && |d.shas| == k
    requires forall j | 0 <= j < k :: d.shas[j].hash < g && From(d.shas[j].leaf, rs, g, rs[g].crc)
    ensures Shaped(tree[rs[g].crc := NewSha(d, g, rs[g])], rs, g + 1, rs[g].crc, k + 1, pending)
  {
    hide From;
    var r := rs[g];
    InsertLast(d.shas, Sha(g, r, 1, r.len));
    var shas := NewSha(d, g, r).shas;
    forall j | 0 <= j < k + 1
      ensures shas[j].hash < g + 1 && From(shas[j].leaf, rs, g + 1, r.crc)
    {
      FromMore(shas[j].leaf, rs, g, r.crc);
    }
  }

  /** A record with a hash of its own makes a new entry. */
  lemma OfferNew(ix: Ix, rs: seq<Leaf>, g: nat, k: nat, pending: bool)
    requires g < |rs| && Different(rs) && Shaped(ix.tree, rs, g, rs[g].crc, k, pending) && (k == 0 ==> !pending)
    ensures var o := Offer(ix, rs[g], false, Differ(g));
            o.ix.queue == ix.queue && Shaped(o.ix.tree, rs, g + 1, rs[g].crc, k + 1, pending)
  {
    hide From, NewSha;
    var r := rs[g];
    if k == 0 {
      FromMore(r, rs, g, r.crc);
    } else {
      match ix.tree[r.crc]
      case Plain(leaf, _, _) =>
        var d := ix.tree[r.crc];
        OtherBlock(leaf, rs, g);
        NewShape(ix.tree, ToFict(d, g - 1), rs, g, 1, pending);
      case Fict(_, shas) =>
        forall j | 0 <= j < k
          ensures !Matches(shas[j], r, None) && !Matches(shas[j], r, Some(g))
        {
          OtherBlock(shas[j].leaf, rs, g);
        }
        NewShape(ix.tree, ix.tree[r.crc], rs, g, k, pending);
    }
  }

  /** A record whose checksum is not to be had is queued; the entry goes by SHA from then on. */
  lemma OfferFailing(ix: Ix, rs: seq<Leaf>, g: nat, k: nat)
    requires g < |rs| && Different(rs) && k > 0 && Shaped(ix.tree, rs, g, rs[g].crc, k, false)
    ensures var o := Offer(ix, rs[g], false, OneFails(g, g));
            o.ix.queue == ix.queue + [rs[g]] && Shaped(o.ix.tree, rs, g + 1, rs[g].crc, k, true)
  {
    hide From;
    var r := rs[g];
    match ix.tree[r.crc]
    case Plain(leaf, _, _) =>
      OtherBlock(leaf, rs, g);
      FromMore(leaf, rs, g, r.crc);
    case Fict(_, shas) =>
      forall j | 0 <= j < k
        ensures !Matches(shas[j], r, None) && From(shas[j].leaf, rs, g + 1, r.crc)
      {
        OtherBlock(shas[j].leaf, rs, g);
        FromMore(shas[j].leaf, rs, g, r.crc);
      }
  }

  lemma TakenMore(rs: seq<Leaf>, i: nat, g: nat)
    requires g < |rs|
    ensures Taken(rs, i, g + 1) == if g == i then Taken(rs, i, g) else Taken(rs, i, g) + [rs[g]]
  {
  }

  lemma LaterTaken(rs: seq<Leaf>, i: nat, g: nat)
    requires i <= g < |rs| && Later(rs, i) && rs[i].crc == rs[g].crc
    ensures CountOf(Taken(rs, i, g), rs[g].crc) > 0
  {
    hide CountOf;
    var j :| 0 <= j < i && rs[j].crc == rs[i].crc;
    var t := Taken(rs, i, g);
    assert t[j] == rs[j];
    SomeOf(t, j);
  }

  lemma {:induction false} SomeOf(t: seq<Leaf>, j: nat)
    requires j < |t|
    ensures CountOf(t, t[j].crc) > 0
  {
    if j < |t| - 1 {
      SomeOf(t[..|t| - 1], j);
    }
  }

  lemma ExactOffer(p: Pass, rs: seq<Leaf>, i: nat, g: nat)
    requires g < |rs| && Exact(p, rs, i, g) && Different(rs) && Later(rs, i)
    ensures var o := Offer(p.ix, rs[g], false, OneFails(i, g));
            Exact(p.(ix := o.ix), rs, i, g + 1) && o.ix.queue == if g == i then p.ix.queue + [rs[g]] else p.ix.queue
  {
    hide Offer, Shaped, Taken, CountOf, Different, Later;
    var r := rs[g];
    var o := Offer(p.ix, r, false, OneFails(i, g));
    OfferFrame(p.ix, r, false, OneFails(i, g));
    TakenMore(rs, i, g);
    ShapeOf(p, rs, i, g, r.crc);
    if i <= g && rs[i].crc == r.crc {
      LaterTaken(rs, i, g);
    }
    if g == i {
      OfferFailing(p.ix, rs, g, CountOf(Taken(rs, i, g), r.crc));
    } else {
      OfferNew(p.ix, rs, g, CountOf(Taken(rs, i, g), r.crc), i < g && rs[i].crc == r.crc);
    }
    var more := Taken(rs, i, g + 1);
    forall c: nat
      ensures Shaped(o.ix.tree, rs, g + 1, c, CountOf(more, c), i < g + 1 && rs[i].crc == c)
    {
      OfMore(Taken(rs, i, g), r, c);
      if c != r.crc {
        ShapeOf(p, rs, i, g, c);
        ShapeMore(p.ix.tree, rs, g, c, CountOf(Taken(rs, i, g), c), i < g && rs[i].crc == c);
        SameShape(p.ix.tree, o.ix.tree, rs, g + 1, c, CountOf(Taken(rs, i, g), c), i < g && rs[i].crc == c);
      }
    }
  }

  lemma SameShape(t: map<nat, De>, t': map<nat, De>, rs: seq<Leaf>, g: nat, c: nat, k: nat, pending: bool)
    requires g <= |rs| && Shaped(t, rs, g, c, k, pending) && (c in t <==> c in t') && (c in t ==> t'[c] == t[c])
    ensures Shaped(t', rs, g, c, k, pending)
  {
    hide From;
  }

  // ----- the scan -----

  function Failing(i: nat): nat -> Io {
    (g: nat) => OneFails(i, g)
  }

  /** Nothing has been evicted up to record `g`. */
  ghost predicate Steady(p: Pass, rs: seq<Leaf>, i: nat, g: nat)
    requires g <= |rs|
  {
    p.start == 0 && p.end == 0 && Exact(p, rs, i, g) && Full(p, QueueBytes(rs[..g])) &&
    p.ix.queue == if i < g then [rs[i]] else []
  }

  ghost predicate Sound(rs: seq<Leaf>) {
    Different(rs) && forall r <- rs :: r.crc < CRCS && r.len > 0
  }

  lemma SteadyStep(m: Memory, p: Pass, rs: seq<Leaf>, i: nat, g: nat)
    requires g < |rs| && Steady(p, rs, i, g) && Sound(rs) && Later(rs, i)
    ensures var s := Step(m, At(p), rs[g], OneFails(i, g));
            if Use(m, p.ix.tree) <= m.limit then s.At? && Steady(s.p, rs, i, g + 1)
            else Lost(s, QueueBytes(rs[..g + 1]))
  {
    hide Evict, Offer, SumMem, Exact, Full, QueueBytes, Later, Different;
    var r := rs[g];
    assert rs[..g + 1] == rs[..g] + [r];
    QueueAdd(rs[..g], r);
    if Use(m, p.ix.tree) <= m.limit {
      NoEvict(m, p, r, OneFails(i, g));
      OfferAccounts(p, QueueBytes(rs[..g]), r, OneFails(i, g));
      ExactOffer(p, rs, i, g);
    } else if Evict(m, p).Some? {
      ProcessAccounts(m, p, QueueBytes(rs[..g]), r, OneFails(i, g));
    }
  }

  lemma SteadyFirst(rs: seq<Leaf>, i: nat)
    ensures Steady(Pass(0, 0, NOTHING), rs, i, 0)
  {
    hide Exact, Full;
    var p := Pass(0, 0, NOTHING);
    assert rs[..0] == [];
    NothingExact(p, rs, i);
    NothingFull(p);
  }

  lemma NothingFull(p: Pass)
    requires p.ix == NOTHING
    ensures Full(p, 0)
  {
    assert Accounts(p, [], 0);
  }

  lemma NothingExact(p: Pass, rs: seq<Leaf>, i: nat)
    requires p.ix.tree == map[]
    ensures Exact(p, rs, i, 0)
  {
    assert Taken(rs, i, 0) == [];
  }

  lemma {:induction false} SteadyOrLost(m: Memory, rs: seq<Leaf>, i: nat, g: nat)
    requires g <= |rs| && Sound(rs) && Later(rs, i)
    ensures var s := After(m, Pass(0, 0, NOTHING), rs, Failing(i), g);
            (s.At? && Steady(s.p, rs, i, g)) || Lost(s, QueueBytes(rs[..g]))
  {
    hide Steady, Lost, Step, QueueBytes, Later, Different, After;
    var p := Pass(0, 0, NOTHING);
    if g == 0 {
      SteadyFirst(rs, i);
      AfterNone(m, p, rs, Failing(i));
    } else {
      SteadyOrLost(m, rs, i, g - 1);
      AfterUnfolds(m, p, rs, Failing(i), g);
      OverAndOut(m, rs, i, g - 1);
    }
  }

  lemma AfterNone(m: Memory, p: Pass, rs: seq<Leaf>, io: nat -> Io)
    ensures After(m, p, rs, io, 0) == At(p)
  {
  }

  /** The next record, and what is lost if the memory does not do. */
  lemma OverAndOut(m: Memory, rs: seq<Leaf>, i: nat, g: nat)
    requires g < |rs| && Sound(rs) && Later(rs, i)
    requires var s := After(m, Pass(0, 0, NOTHING), rs, Failing(i), g);
             (s.At? && Steady(s.p, rs, i, g)) || Lost(s, QueueBytes(rs[..g]))
    ensures var s := Step(m, After(m, Pass(0, 0, NOTHING), rs, Failing(i), g), rs[g], Failing(i)(g));
            (s.At? && Steady(s.p, rs, i, g + 1)) || Lost(s, QueueBytes(rs[..g + 1]))
    ensures SumLoad(m, rs[..g], CRCS) > m.limit && i >= g ==>
              Lost(Step(m, After(m, Pass(0, 0, NOTHING), rs, Failing(i), g), rs[g], Failing(i)(g)), QueueBytes(rs[..g + 1]))
  {
    hide Lost, Step, QueueBytes, Later, Different, After, SumLoad, SumMem, Exact, Full;
    var s := After(m, Pass(0, 0, NOTHING), rs, Failing(i), g);
    assert rs[g] in rs;
    if s.At? && Steady(s.p, rs, i, g) {
      SteadyStep(m, s.p, rs, i, g);
      ExactMem(m, s.p, rs, i, g, CRCS);
    } else {
      assert rs[..g + 1] == rs[..g] + [rs[g]];
      QueueAdd(rs[..g], rs[g]);
      LostStep(m, s, QueueBytes(rs[..g]), rs[g], Failing(i)(g));
    }
  }

  // ----- the whole pass -----

  /** If all but the last do not fit, the scan loses some with every checksum different. */
  lemma ScanLoses(m: Memory, rs: seq<Leaf>)
    requires rs != [] && Sound(rs) && SumLoad(m, rs[..|rs| - 1], CRCS) > m.limit
    ensures Lost(After(m, Pass(0, 0, NOTHING), rs, Failing(|rs|), |rs|), QueueBytes(rs))
  {
    hide Steady, Lost, Step, QueueBytes, Different, After, SumLoad;
    var n := |rs|;
    SteadyOrLost(m, rs, n, n - 1);
    OverAndOut(m, rs, n, n - 1);
    AfterUnfolds(m, Pass(0, 0, NOTHING), rs, Failing(n), n);
    assert rs[..n] == rs;
  }

  lemma PeakSame(m: Memory, rs: seq<Leaf>, i: nat, j: nat)
    requires i < |rs| && j < |rs| && rs[i].crc == rs[j].crc
    ensures Peak(m, rs, i) == Peak(m, rs, j)
  {
    hide CountOf, Less, SumLoad;
    forall c: nat
      ensures CountOf(Less(rs, i), c) == CountOf(Less(rs, j), c)
    {
      LessOf(rs, i, c);
      LessOf(rs, j, c);
    }
    SameLoad(m, Less(rs, i), Less(rs, j), CRCS);
  }

  /** If all but one that can be queued do not fit, its second try comes too late. */
  lemma TryLoses(m: Memory, rs: seq<Leaf>, i: nat, p: Pass)
    requires i < |rs| && Sound(rs) && Later(rs, i) && CountOf(rs, rs[i].crc) >= 2 && Peak(m, rs, i) > m.limit
    requires Steady(p, rs, i, |rs|)
    ensures var s := Again(m, p, p.ix.queue, Differ, 1); Lost(s, QueueBytes(rs)) && (s.At? ==> s.p.ix.queue == [])
  {
    hide Lost, Full, QueueBytes, Later, Different, SumLoad, SumMem, Exact, CountOf, StepAgain;
    var n := |rs|;
    assert rs[..n] == rs && Taken(rs, i, n) == Less(rs, i);
    ExactMem(m, p, rs, i, n, CRCS);
    LessOf(rs, i, rs[i].crc);
    assert rs[i] in rs;
    assert Use(m, p.ix.tree) > m.limit;
    LostTry(m, p, QueueBytes(rs), Differ(0));
    AgainOnce(m, p, Differ);
    TriedLost(m, p, QueueBytes(rs), Differ(0));
  }

  lemma AgainOnce(m: Memory, p: Pass, io: nat -> Io)
    requires p.ix.queue != []
    ensures Again(m, p, p.ix.queue, io, 1) == StepAgain(m, At(p), p.ix.queue[0], io(0))
  {
    hide StepAgain;
    assert Again(m, p, p.ix.queue, io, 0) == At(p);
  }

  lemma TriedLost(m: Memory, p: Pass, total: nat, io: Io)
    requires |p.ix.queue| == 1
    requires var s := StepAgain(m, At(p), p.ix.queue[0], io);
             s.Endless? ||
             (s.At? && s.p.ix.queue == p.ix.queue[1..] && exists left: nat :: left < total && Full(s.p, left))
    ensures var s := StepAgain(m, At(p), p.ix.queue[0], io); Lost(s, total) && (s.At? ==> s.p.ix.queue == [])
  {
    hide Full, StepAgain;
  }

  /** A scan that lost records, or a steady one with one record that is tried too late. */
  lemma PassLoses(m: Memory, rs: seq<Leaf>, i: nat)
    requires Sound(rs) && Later(rs, i)
    requires var s := After(m, Pass(0, 0, NOTHING), rs, Failing(i), |rs|);
             Lost(s, QueueBytes(rs)) ||
             (s.At? && Steady(s.p, rs, i, |rs|) && i < |rs| && CountOf(rs, rs[i].crc) >= 2 && Peak(m, rs, i) > m.limit)
    ensures !Whole(rs, OnePass(m, 0, NOTHING, rs, Answer(Failing(i), Differ)))
  {
    hide After, Again, QueueBytes, Steady, SumBytes, SumLens, Drained, CountOf, Peak, Later, Different;
    var a := Answer(Failing(i), Differ);
    var s := Scanned(m, 0, NOTHING, rs, a);
    if s.At? {
      var q := s.p.ix.queue;
      if Lost(s, QueueBytes(rs)) {
        AgainNone(m, s.p, q, Differ);
        assert q[0..] == q;
        LostAgain(m, s.p, QueueBytes(rs), Differ, |q|, 0);
      } else {
        OneQueued(s.p, rs, i);
        TryLoses(m, rs, i, s.p);
      }
      assert q[|q|..] == [];
      LostPass(m, s.p, rs, Differ, QueueBytes(rs));
    }
  }

  lemma OneQueued(p: Pass, rs: seq<Leaf>, i: nat)
    requires i < |rs| && Steady(p, rs, i, |rs|)
    ensures |p.ix.queue| == 1
  {
    hide Exact, Full, QueueBytes;
  }

  lemma AgainNone(m: Memory, p: Pass, q: seq<Leaf>, io: nat -> Io)
    ensures Again(m, p, q, io, 0) == At(p)
  {
  }

  /** Any record of a CRC that has another one but the first of that CRC. */
  lemma {:induction false} LastOf(rs: seq<Leaf>, c: nat) returns (i: nat)
    requires CountOf(rs, c) >= 2
    ensures i < |rs| && rs[i].crc == c && Later(rs, i)
  {
    var n := |rs| - 1;
    if rs[n].crc == c {
      i := n;
      HasOne(rs[..n], c);
      var l :| l in rs[..n] && l.crc == c;
      var j :| 0 <= j < n && rs[..n][j] == l;
      assert rs[j].crc == c;
    } else {
      i := LastOf(rs[..n], c);
      var j :| 0 <= j < i && rs[..n][j].crc == rs[..n][i].crc;
      assert rs[j].crc == rs[i].crc;
    }
  }

  /** With less memory there are answers under which the first pass is not enough. */
  lemma CrampedPass(m: Memory, rs: seq<Leaf>) returns (a: Answer)
    requires Sound(rs) && !Roomy(m, rs)
    ensures !Whole(rs, OnePass(m, 0, NOTHING, rs, a))
  {
    hide OnePass, Whole, SumLoad, CountOf, Peak, Different, Later, Lost, Steady, After, QueueBytes;
    if rs != [] && SumLoad(m, rs[..|rs| - 1], CRCS) > m.limit {
      ScanLoses(m, rs);
      NoLater(rs);
      PassLoses(m, rs, |rs|);
      a := Answer(Failing(|rs|), Differ);
    } else {
      var k :| 0 <= k < |rs| && CountOf(rs, rs[k].crc) >= 2 && Peak(m, rs, k) > m.limit;
      var i := LastOf(rs, rs[k].crc);
      PeakSame(m, rs, k, i);
      SteadyOrLost(m, rs, i, |rs|);
      assert rs[..|rs|] == rs;
      PassLoses(m, rs, i);
      a := Answer(Failing(i), Differ);
    }
  }

  lemma NoLater(rs: seq<Leaf>)
    ensures Later(rs, |rs|)
  {
  }

  /** For records that all differ, one pass is enough whatever the outside answers
      exactly when that memory is there. */
  lemma OnePassIff(m: Memory, rs: seq<Leaf>)
    requires Different(rs) && forall r <- rs :: r.crc < CRCS && r.len > 0
    ensures Roomy(m, rs) <==> forall a: Answer :: Whole(rs, OnePass(m, 0, NOTHING, rs, a))
  {
    hide Roomy, Whole, OnePass, Different;
    if Roomy(m, rs) {
      forall a: Answer
        ensures Whole(rs, OnePass(m, 0, NOTHING, rs, a))
      {
        RoomyPass(m, rs, a);
      }
    } else {
      var a := CrampedPass(m, rs);
    }
  }
}
