/** `hammer dedup` itself: the index, its memory and the totals are updated in
    place, one record at a time. */
module DedupTool {
  import opened Common
  import opened CrcRange
  import opened DedupIndex
  import opened DedupPasses
  import opened DedupRun

  lemma {:induction false} InsertLength(shas: seq<Sha>, s: Sha)
    ensures |ShaInsert(shas, s)| == |shas| + 1
  {
    if shas != [] {
      InsertLength(shas[1..], s);
    }
  }

  lemma NewShaMem(m: Memory, d: De, hash: int, leaf: Leaf)
    requires d.Fict?
    ensures MemOf(m, NewSha(d, hash, leaf)) == MemOf(m, d) + m.sha
  {
    InsertLength(d.shas, Sha(hash, leaf, 1, leaf.len));
    assert m.sha * (|d.shas| + 1) == m.sha * |d.shas| + m.sha;
  }

  class Dedup {
    const m: Memory
    var start: nat
    var end: nat
    var use: int
    var tree: map<nat, De>
    var queue: seq<Leaf>
    var totals: Totals
    /** The records behind the entries. */
    ghost var held: seq<Leaf>

    ghost function Index(): Ix
      reads this
    {
      Ix(tree, queue, totals)
    }

    ghost function Now(): Pass
      reads this
    {
      Pass(start, end, Index())
    }

    /** `MemoryUse` is the size of all live entries. */
    ghost predicate Fits()
      reads this
    {
      use == SumMem(m, tree, CRCS)
    }

    ghost predicate Valid()
      reads this
    {
      Fits() && Kept(tree, held)
    }

    constructor (m: Memory)
      ensures this.m == m && Valid() && start == 0 && end == 0 && Index() == NOTHING
    {
      this.m := m;
      start, end, use, tree, queue, held := 0, 0, 0, map[], [], [];
      totals := Totals(0, 0, 0, 0, 0, 0);
      new;
      SumNone(m, tree, CRCS);
    }

    /** Replaces or adds the entry of a CRC. */
    method Put(c: nat, d: De, mem: int)
      requires Fits() && c < CRCS && mem == MemOf(m, d) - if c in tree then MemOf(m, tree[c]) else 0
      modifies this`tree, this`use
      ensures Fits() && tree == old(tree)[c := d]
    {
      hide SumMem, SumBytes, MemOf;
      SumPut(m, tree, c, d, CRCS);
      tree := tree[c := d];
      use := use + mem;
    }

    /** The labels `pass2_insert` and `terminate_early`. */
    method Defer(r: Leaf, pass2: bool, retry: bool) returns (fate: Fate)
      modifies this`queue, this`totals
      ensures Offered(Index(), fate) == DedupIndex.Defer(old(Index()), r, pass2, retry)
    {
      if retry && !pass2 {
        queue := queue + [r];
        totals := totals.(skipped := totals.skipped + r.len);
        return Queued;
      }
      totals := totals.(refSize := totals.refSize + r.len, allocSize := totals.allocSize + r.len);
      fate := Early;
    }

    method Find(shas: seq<Sha>, r: Leaf, hash: Option<int>) returns (i: Option<nat>)
      ensures i == FindSha(shas, r, hash, 0)
    {
      var k := 0;
      while k < |shas|
        invariant 0 <= k <= |shas| && FindSha(shas, r, hash, 0) == FindSha(shas, r, hash, k)
      {
        if Matches(shas[k], r, hash) {
          return Some(k);
        }
        k := k + 1;
      }
      i := None;
    }

    /** A record whose SHA, or very block, is in the index already. */
    method ProcessSha(r: Leaf, i: nat, hash: int, pass2: bool, io: Io) returns (fate: Fate)
      requires Fits() && r.crc < CRCS && r.crc in tree && tree[r.crc].Fict? && i < |tree[r.crc].shas|
      modifies this`tree, this`use, this`queue, this`totals
      ensures Fits() && Offered(Index(), fate) == OfferSha(old(Index()), r, i, hash, pass2, io)
    {
      hide SumMem;
      var d := tree[r.crc];
      var leaf := d.shas[i].leaf;
      if !SamePlace(leaf, r) {
        totals := totals.(shaFailures := totals.shaFailures + 1);
        fate := Defer(r, pass2, false);
        return;
      }
      match Deduplicate(leaf, r, io)
      case Success =>
        Put(r.crc, MoreSha(d, i, d.shas[i].hash, leaf, r.len), 0);
        fate := Indexed;
      case TechFailure =>
        fate := Defer(r, pass2, true);
      case CmpFailure =>
        totals := totals.(shaFailures := totals.shaFailures + 1);
        fate := Defer(r, pass2, false);
      case InvalidZone =>
        fate := Defer(r, pass2, false);
      case Underflow =>
        totals := totals.(underflows := totals.underflows + 1);
        Put(r.crc, MoreSha(d, i, hash, r, r.len), 0);
        fate := Indexed;
      case VersFailure =>
        fate := Exit;
    }

    method ProcessFict(r: Leaf, pass2: bool, io: Io) returns (fate: Fate)
      requires Fits() && r.crc < CRCS && r.crc in tree && tree[r.crc].Fict?
      modifies this`tree, this`use, this`queue, this`totals
      ensures Fits() && Offered(Index(), fate) == OfferFict(old(Index()), r, pass2, io)
    {
      hide SumMem, OfferSha;
      var d := tree[r.crc];
      var i := Find(d.shas, r, None);
      var hash := 0;
      if i.Some? {
        hash := d.shas[i.value].hash;
      } else {
        if io.candidate.None? {
          fate := Defer(r, pass2, true);
          return;
        }
        hash := io.candidate.value;
        i := Find(d.shas, r, Some(hash));
      }
      if i.None? {
        NewShaMem(m, d, hash, r);
        Put(r.crc, NewSha(d, hash, r), m.sha);
        return Indexed;
      }
      fate := ProcessSha(r, i.value, hash, pass2, io);
    }

    /** The label `crc_failure`. */
    method Collide(r: Leaf, pass2: bool, io: Io) returns (fate: Fate)
      requires Fits() && r.crc < CRCS && r.crc in tree && tree[r.crc].Plain?
      modifies this`tree, this`use, this`queue, this`totals
      ensures Fits() && Offered(Index(), fate) == DedupIndex.Collide(old(Index()), r, pass2, io)
    {
      hide SumMem, NewSha;
      totals := totals.(crcFailures := totals.crcFailures + 1);
      var d := tree[r.crc];
      if io.indexed.None? {
        fate := Defer(r, pass2, true);
        return;
      }
      var fict := ToFict(d, io.indexed.value);
      Put(r.crc, fict, m.sha);
      if io.candidate.None? {
        fate := Defer(r, pass2, true);
        return;
      }
      if io.candidate.value == io.indexed.value {
        totals := totals.(shaFailures := totals.shaFailures + 1);
        fate := Defer(r, pass2, false);
        return;
      }
      ghost var before: map<nat, De> := old(tree);
      var both := NewSha(fict, io.candidate.value, r);
      NewShaMem(m, fict, io.candidate.value, r);
      Put(r.crc, both, m.sha);
      assert before[r.crc := fict][r.crc := both] == before[r.crc := both];
      fate := Indexed;
    }

    method ProcessPlain(r: Leaf, pass2: bool, io: Io) returns (fate: Fate)
      requires Fits() && r.crc < CRCS && r.crc in tree && tree[r.crc].Plain?
      modifies this`tree, this`use, this`queue, this`totals
      ensures Fits() && Offered(Index(), fate) == OfferPlain(old(Index()), r, pass2, io)
    {
      hide SumMem, DedupIndex.Collide;
      var d := tree[r.crc];
      if !SamePlace(d.leaf, r) {
        fate := Collide(r, pass2, io);
        return;
      }
      match Deduplicate(d.leaf, r, io)
      case Success =>
        Put(r.crc, MorePlain(d, d.leaf, r.len), 0);
        fate := Indexed;
      case TechFailure =>
        fate := Defer(r, pass2, true);
      case CmpFailure =>
        fate := Collide(r, pass2, io);
      case InvalidZone =>
        fate := Defer(r, pass2, false);
      case Underflow =>
        totals := totals.(underflows := totals.underflows + 1);
        Put(r.crc, MorePlain(d, r, r.len), 0);
        fate := Indexed;
      case VersFailure =>
        fate := Exit;
    }

    /** RB_MAX(). */
    method Max() returns (c: nat)
      requires tree.Keys != {}
      ensures c in tree && forall k | k in tree :: k <= c
    {
      var left := tree.Keys;
      c :| c in left;
      left := left - {c};
      while left != {}
        invariant left <= tree.Keys && c in tree && forall k | k in tree && k !in left :: k <= c
        decreases left
      {
        var k :| k in left;
        left := left - {k};
        c := if k > c then k else c;
      }
    }

    /** Drops an entry with its SHA entries. */
    method Drop(c: nat)
      requires Fits() && c in tree && c < CRCS
      modifies this`tree, this`use
      ensures Fits() && tree == old(tree) - {c}
    {
      hide SumMem, SumBytes;
      SumRemove(m, tree, c, CRCS);
      use := use - m.de - (if tree[c].Fict? then m.sha * |tree[c].shas| else 0);
      tree := tree - {c};
    }

    /** Drops entries from the top until they are below the end. */
    method Trim()
      requires Fits() && forall c | c in tree :: c < CRCS
      modifies this`tree, this`use
      ensures Fits() && tree == Below(old(tree), end)
    {
      hide SumMem;
      while tree.Keys != {}
        invariant Fits() && (forall c | c in tree :: c in old(tree) && tree[c] == old(tree)[c])
        invariant forall c | c in old(tree) && c < end :: c in tree
        decreases tree.Keys
      {
        var c := Max();
        if c < end {
          assert tree == Below(old(tree), end);
          return;
        }
        Drop(c);
      }
      assert tree == Below(old(tree), end);
    }

    /** The eviction loop of `process_btree_elm`; `ended` is false when it has no end. */
    method Evict() returns (ended: bool)
      requires Valid()
      modifies this`end, this`tree, this`use, this`held
      ensures if ended then DedupPasses.Evict(m, old(Now())) == Some(Now()) && Valid()
              else DedupPasses.Evict(m, old(Now())) == None
    {
      hide SumMem, Kept, EvictN, DedupPasses.Evict, Halved;
      EvictIsN(m, Now());
      var n := 64;
      while use > m.limit && n > 0
        invariant 0 <= n <= 64 && Valid() && EvictN(m, Now(), n) == DedupPasses.Evict(m, old(Now()))
        decreases n
      {
        EvictTurn(m, Now(), n);
        KeptCrcs(tree, held);
        end := Halved(start, end);
        KeptBelow(tree, held, end);
        held := HeldBelow(held, end);
        Trim();
        n := n - 1;
      }
      EvictTurn(m, Now(), n);
      ended := use <= m.limit;
    }

    /** `process_btree_elm`. */
    method Process(r: Leaf, pass2: bool, io: Io) returns (ended: bool, fate: Fate)
      requires Valid() && r.crc < CRCS
      modifies this`end, this`tree, this`use, this`queue, this`totals, this`held
      ensures match DedupPasses.Process(m, old(Now()), r, pass2, io)
              case Hung => !ended
              case Exited => ended && fate == Exit
              case Stepped(p, f) => ended && fate == f && f != Exit && Now() == p && Valid()
    {
      hide SumMem, Kept, OfferFict, OfferPlain, DedupPasses.Evict;
      fate := Exit;
      ended := Evict();
      if !ended {
        return;
      }
      ghost var q := Now();
      OfferKeeps(Index(), held, r, pass2, io);
      if r.crc !in tree {
        Put(r.crc, Plain(r, 1, r.len), m.de);
        fate := Indexed;
      } else if tree[r.crc].Fict? {
        fate := ProcessFict(r, pass2, io);
      } else {
        fate := ProcessPlain(r, pass2, io);
      }
      if fate == Indexed {
        held := held + [r];
      }
    }

    /** `scan_pfs` over the data records; `ended` and `quit` tell the ways out. */
    method ScanPfs(rs: seq<Leaf>, io: nat -> Io) returns (ended: bool, quit: bool)
      requires Valid() && forall r <- rs :: r.crc < CRCS
      modifies this`end, this`tree, this`use, this`queue, this`totals, this`held
      ensures match After(m, old(Now()), rs, io, |rs|)
              case Endless => !ended
              case Quit => ended && quit
              case At(p) => ended && !quit && Now() == p && Valid()
    {
      hide SumMem, Kept, DedupPasses.Process, Skips;
      ghost var p0 := Now();
      for i := 0 to |rs|
        invariant Valid() && After(m, p0, rs, io, i) == At(Now())
      {
        AfterUnfolds(m, p0, rs, io, i + 1);
        if start != end && (rs[i].crc < start || (end != 0 && rs[i].crc >= end)) {
          Skipped(Now(), rs[i]);
          continue;
        }
        NotSkipped(Now(), rs[i]);
        var fate;
        ended, fate := Process(rs[i], false, io(i));
        if !ended || fate == Exit {
          StaysOut(m, p0, rs, io, i + 1, |rs|);
          return ended, true;
        }
      }
      return true, false;
    }

    /** Pass 2: each queued record gets a second try and leaves the queue. */
    method Pass2(io: nat -> Io) returns (ended: bool, quit: bool)
      requires Valid() && forall r <- queue :: r.crc < CRCS
      modifies this`end, this`tree, this`use, this`queue, this`totals, this`held
      ensures match Again(m, old(Now()), old(queue), io, |old(queue)|)
              case Endless => !ended
              case Quit => ended && quit
              case At(p) => ended && !quit && Now() == p && Valid() && queue == []
    {
      hide SumMem, Kept, DedupPasses.Process, Again;
      ghost var p0, q := Now(), queue;
      var i := 0;
      AgainStarts(m, p0, q, io);
      while queue != []
        invariant 0 <= i <= |q| && Valid() && queue == q[i..] && Again(m, p0, q, io, i) == At(Now())
        decreases |queue|
      {
        AgainUnfolds(m, p0, q, io, i);
        var r := queue[0];
        assert r == q[i] && r in q;
        ProcessKeepsQueue(m, Now(), r, io(i));
        var fate;
        ended, fate := Process(r, true, io(i));
        if !ended || fate == Exit {
          StaysOutAgain(m, p0, q, io, i + 1, |q|);
          return ended, true;
        }
        if fate == Indexed {
          totals := totals.(skipped := totals.skipped - r.len);
        }
        queue := queue[1..];
        i := i + 1;
      }
      return true, false;
    }

    /** Adds up the SHA entries of a fictitious entry and frees them. */
    method DrainShas(shas: seq<Sha>)
      requires forall i | 0 <= i < |shas| :: GoodSha(shas[i])
      modifies this`totals
      ensures totals == old(totals).(refSize := old(totals).refSize + ShaBytes(shas),
                                     allocSize := old(totals).allocSize + ShaLens(shas))
    {
      var left := shas;
      while left != []
        invariant forall i | 0 <= i < |left| :: GoodSha(left[i])
        invariant totals == old(totals).(refSize := totals.refSize, allocSize := totals.allocSize)
        invariant totals.refSize + ShaBytes(left) == old(totals).refSize + ShaBytes(shas)
        invariant totals.allocSize + ShaLens(left) == old(totals).allocSize + ShaLens(shas)
        decreases |left|
      {
        var s := left[0];
        ExactQuotient(s.blks, s.leaf.len);
        totals := totals.(refSize := totals.refSize + s.size, allocSize := totals.allocSize + s.size / s.blks);
        left := left[1..];
      }
    }

    /** The end of a pass: the trees are added up and freed; the divisions are exact. */
    method Drain()
      requires Valid()
      modifies this`tree, this`use, this`totals, this`held
      ensures Valid() && Now() == Drained(old(Now())) && use == 0
    {
      hide SumMem, SumBytes, SumLens, Bytes, Lens, Kept;
      KeptCrcs(tree, held);
      while tree.Keys != {}
        invariant Fits() && forall c | c in tree :: c < CRCS && GoodDe(tree[c], c)
        invariant totals == old(totals).(refSize := totals.refSize, allocSize := totals.allocSize)
        invariant totals.refSize + SumBytes(tree, CRCS) == old(totals).refSize + SumBytes(old(tree), CRCS)
        invariant totals.allocSize + SumLens(tree, CRCS) == old(totals).allocSize + SumLens(old(tree), CRCS)
        decreases tree.Keys
      {
        var c :| c in tree.Keys;
        var d := tree[c];
        SumRemove(m, tree, c, CRCS);
        LensRemove(tree, c, CRCS);
        EntryShares(d, c);
        if d.Fict? {
          DrainShas(d.shas);
        } else {
          totals := totals.(refSize := totals.refSize + d.size, allocSize := totals.allocSize + d.size / d.blks);
        }
        Drop(c);
      }
      SumNone(m, tree, CRCS);
      LensNone(tree, CRCS);
      NothingKept();
      tree, held := map[], [];
    }

    /** One pass of `hammer_cmd_dedup`. */
    method DoPass(rs: seq<Leaf>, a: Answer) returns (ended: bool, quit: bool)
      requires Valid() && tree == map[] && queue == [] && start < CRCS && end < CRCS && forall r <- rs :: r.crc < CRCS
      modifies this`start, this`end, this`tree, this`use, this`queue, this`totals, this`held
      ensures match OnePass(m, old(end), old(Index()), rs, a)
              case Endless => !ended
              case Quit => ended && quit
              case At(p) => ended && !quit && Now() == p && Valid()
    {
      hide SumMem, Kept, After, Again, SumBytes, SumLens;
      start, end, use := end, 0, 0;
      SumNone(m, tree, CRCS);
      assert Now() == Pass(old(end), 0, old(Index()));
      ended, quit := ScanPfs(rs, a.scan);
      if !ended || quit {
        return;
      }
      QueuedCrcs(m, Pass(old(end), 0, old(Index())), rs, a.scan, |rs|);
      ended, quit := Pass2(a.again);
      if !ended || quit {
        return;
      }
      Drain();
    }

    /** `hammer_cmd_dedup`, given up after `k` passes: whether it has come to an
        end by then, loops in one of them, or was stopped by the ioctl. */
    method Command(rs: seq<Leaf>, a: nat -> Answer, k: nat) returns (over: bool, ended: bool, quit: bool)
      requires Valid() && start == 0 && end == 0 && Index() == NOTHING && forall r <- rs :: r.crc < CRCS
      modifies this`start, this`end, this`tree, this`use, this`queue, this`totals, this`held
      ensures match Runs(m, rs, a, k)
              case Going(s, ix) => !over && ended && !quit && end == s && Index() == ix
              case Finished(ix) => over && ended && !quit && Index() == ix
              case Forever => !ended
              case Stopped => ended && quit
    {
      hide SumMem, Kept, OnePass;
      over, ended, quit := false, true, false;
      for i := 0 to k
        invariant Valid() && start < CRCS && end < CRCS && tree == map[] && queue == []
        invariant !over && ended && !quit && Runs(m, rs, a, i) == Going(end, Index())
      {
        PassEnds(m, end, Index(), rs, a(i));
        ended, quit := DoPass(rs, a(i));
        RunsUnfold(m, rs, a, i);
        if !ended || quit {
          RunsStay(m, rs, a, i + 1, k);
          return;
        }
        if end == 0 {
          over := true;
          RunsStay(m, rs, a, i + 1, k);
          return;
        }
      }
    }
  }

  lemma EvictIsN(m: Memory, p: Pass)
    ensures Evict(m, p) == EvictN(m, p, 64)
  {
    hide EvictN;
  }

  lemma EvictTurn(m: Memory, p: Pass, n: nat)
    ensures EvictN(m, p, n) == if Use(m, p.ix.tree) <= m.limit then Some(p) else if n == 0 then None else EvictN(m, Halve(p), n - 1)
  {
    hide SumMem, Halve;
  }

  lemma AgainStarts(m: Memory, p: Pass, q: seq<Leaf>, io: nat -> Io)
    ensures Again(m, p, q, io, 0) == At(p)
  {
  }

  lemma KeptCrcs(tree: map<nat, De>, held: seq<Leaf>)
    requires Kept(tree, held)
    ensures forall c | c in tree :: c < CRCS && GoodDe(tree[c], c)
  {
    hide Bytes, Blks, CountOf, LenOf;
    forall c | c in tree
      ensures c < CRCS && GoodDe(tree[c], c)
    {
      EntryOf(tree, held, c);
    }
  }

  lemma Skipped(p: Pass, r: Leaf)
    requires p.start != p.end && (r.crc < p.start || (p.end != 0 && r.crc >= p.end))
    ensures Skips(p, r)
  {
  }

  lemma NotSkipped(p: Pass, r: Leaf)
    requires !(p.start != p.end && (r.crc < p.start || (p.end != 0 && r.crc >= p.end)))
    ensures !Skips(p, r)
  {
  }

  lemma AgainUnfolds(m: Memory, p: Pass, q: seq<Leaf>, io: nat -> Io, i: nat)
    requires i < |q|
    ensures Again(m, p, q, io, i + 1) == StepAgain(m, Again(m, p, q, io, i), q[i], io(i))
  {
  }

  /** Once out of the scan, it stays out. */
  lemma {:induction false} StaysOut(m: Memory, p: Pass, rs: seq<Leaf>, io: nat -> Io, i: nat, n: nat)
    requires i <= n <= |rs| && !After(m, p, rs, io, i).At?
    ensures After(m, p, rs, io, n) == After(m, p, rs, io, i)
    decreases n
  {
    hide Process, Skips;
    if i < n {
      StaysOut(m, p, rs, io, i, n - 1);
    }
  }

  lemma {:induction false} StaysOutAgain(m: Memory, p: Pass, q: seq<Leaf>, io: nat -> Io, i: nat, n: nat)
    requires i <= n <= |q| && !Again(m, p, q, io, i).At?
    ensures Again(m, p, q, io, n) == Again(m, p, q, io, i)
    decreases n
  {
    hide Process;
    if i < n {
      StaysOutAgain(m, p, q, io, i, n - 1);
    }
  }

  /** In pass 2 nothing is queued. */
  lemma ProcessKeepsQueue(m: Memory, p: Pass, r: Leaf, io: Io)
    ensures var o := Process(m, p, r, true, io); o.Stepped? ==> o.p.ix.queue == p.ix.queue && o.fate != Queued
  {
    hide SumMem, EvictN;
    EvictQueue(m, p, 64);
    hide FindSha, SamePlace, Deduplicate;
  }

  lemma {:induction false} EvictQueue(m: Memory, p: Pass, n: nat)
    ensures EvictN(m, p, n).Some? ==> EvictN(m, p, n).value.ix.queue == p.ix.queue
    decreases n
  {
    hide SumMem;
    if n > 0 && Use(m, p.ix.tree) > m.limit {
      EvictQueue(m, Halve(p), n - 1);
    }
  }

  lemma NothingKept()
    ensures Kept(map[], [])
  {
  }

  lemma EntryShares(d: De, c: nat)
    requires GoodDe(d, c)
    ensures match d
            case Plain(leaf, blks, size) => blks > 0 && size / blks == Lens(d) && size == Bytes(d)
            case Fict(_, shas) => Bytes(d) == ShaBytes(shas) && Lens(d) == ShaLens(shas)
  {
    if d.Plain? {
      ExactQuotient(d.blks, d.leaf.len);
    }
  }

  lemma StepQueue(m: Memory, s: Progress, r: Leaf, io: Io)
    requires r.crc < CRCS && (s.At? ==> forall l <- s.p.ix.queue :: l.crc < CRCS)
    ensures var s' := Step(m, s, r, io); s'.At? ==> s.At? && forall l <- s'.p.ix.queue :: l.crc < CRCS
  {
    hide Process, Skips;
    if s.At? {
      ProcessQueue(m, s.p, r, io);
    }
  }

  lemma StepEnd(m: Memory, s: Progress, r: Leaf, io: Io)
    requires s.At? ==> s.p.end < CRCS
    ensures var s' := Step(m, s, r, io); s'.At? ==> s.At? && s'.p.start == s.p.start && s'.p.end < CRCS
  {
    hide Offer, Evict, Skips;
    if s.At? {
      EvictEnd(m, s.p);
    }
  }

  lemma StepAgainEnd(m: Memory, s: Progress, r: Leaf, io: Io)
    requires s.At? ==> s.p.end < CRCS && s.p.ix.queue != []
    ensures var s' := StepAgain(m, s, r, io);
            s'.At? ==> s.At? && s'.p.start == s.p.start && s'.p.end < CRCS && s'.p.ix.queue == s.p.ix.queue[1..]
  {
    hide Offer, Evict;
    if s.At? {
      EvictEnd(m, s.p);
      ProcessKeepsQueue(m, s.p, r, io);
    }
  }

  /** Only records read can have been queued. */
  lemma {:induction false} QueuedCrcs(m: Memory, p: Pass, rs: seq<Leaf>, io: nat -> Io, i: nat)
    requires i <= |rs| && (forall r <- rs :: r.crc < CRCS) && (forall r <- p.ix.queue :: r.crc < CRCS)
    ensures var s := After(m, p, rs, io, i); s.At? ==> forall r <- s.p.ix.queue :: r.crc < CRCS
  {
    hide Step;
    if i > 0 {
      QueuedCrcs(m, p, rs, io, i - 1);
      StepQueue(m, After(m, p, rs, io, i - 1), rs[i - 1], io(i - 1));
    }
  }

  lemma ProcessQueue(m: Memory, p: Pass, r: Leaf, io: Io)
    ensures var o := Process(m, p, r, false, io); o.Stepped? ==> o.p.ix.queue == p.ix.queue || o.p.ix.queue == p.ix.queue + [r]
  {
    hide SumMem, EvictN;
    EvictQueue(m, p, 64);
    hide FindSha, SamePlace, Deduplicate;
  }

  lemma RunsUnfold(m: Memory, rs: seq<Leaf>, a: nat -> Answer, k: nat)
    requires Runs(m, rs, a, k).Going?
    ensures var s := Runs(m, rs, a, k);
            Runs(m, rs, a, k + 1) ==
            match OnePass(m, s.start, s.ix, rs, a(k))
            case At(p) => if p.end == 0 then Finished(p.ix) else Going(p.end, p.ix)
            case Endless => Forever
            case Quit => Stopped
  {
    hide OnePass;
  }

  lemma {:induction false} RunsStay(m: Memory, rs: seq<Leaf>, a: nat -> Answer, i: nat, k: nat)
    requires i <= k && !Runs(m, rs, a, i).Going?
    ensures Runs(m, rs, a, k) == Runs(m, rs, a, i)
    decreases k
  {
    hide OnePass;
    if i < k {
      RunsStay(m, rs, a, i, k - 1);
    }
  }

  /** A pass ends with an empty index and queue, and its range within the CRCs. */
  lemma PassEnds(m: Memory, start: nat, ix: Ix, rs: seq<Leaf>, a: Answer)
    requires start < CRCS
    ensures var s := OnePass(m, start, ix, rs, a);
            s.At? ==> s.p.start == start && s.p.end < CRCS && s.p.ix.tree == map[] && s.p.ix.queue == []
  {
    hide After, Again, SumBytes, SumLens;
    ScanEnd(m, Pass(start, 0, ix), rs, a.scan, |rs|);
    var s := Scanned(m, start, ix, rs, a);
    if s.At? {
      AgainEnd(m, s.p, s.p.ix.queue, a.again, |s.p.ix.queue|);
    }
  }

  lemma {:induction false} ScanEnd(m: Memory, p: Pass, rs: seq<Leaf>, io: nat -> Io, i: nat)
    requires i <= |rs| && p.end < CRCS
    ensures var s := After(m, p, rs, io, i); s.At? ==> s.p.start == p.start && s.p.end < CRCS
  {
    hide Step;
    if i > 0 {
      ScanEnd(m, p, rs, io, i - 1);
      StepEnd(m, After(m, p, rs, io, i - 1), rs[i - 1], io(i - 1));
    }
  }

  lemma {:induction false} AgainEnd(m: Memory, p: Pass, q: seq<Leaf>, io: nat -> Io, i: nat)
    requires i <= |q| && p.end < CRCS && q == p.ix.queue
    ensures var s := Again(m, p, q, io, i); s.At? ==> s.p.start == p.start && s.p.end < CRCS && s.p.ix.queue == q[i..]
  {
    hide StepAgain;
    if i > 0 {
      AgainEnd(m, p, q, io, i - 1);
      StepAgainEnd(m, Again(m, p, q, io, i - 1), q[i - 1], io(i - 1));
      assert q[i - 1..][1..] == q[i..];
    }
  }

  lemma EvictEnd(m: Memory, p: Pass)
    requires p.end < CRCS
    ensures Evict(m, p).Some? ==> Evict(m, p).value.start == p.start && Evict(m, p).value.end < CRCS
  {
    hide EvictN;
    EvictNEnd(m, p, 64);
  }

  lemma {:induction false} EvictNEnd(m: Memory, p: Pass, n: nat)
    requires p.end < CRCS
    ensures EvictN(m, p, n).Some? ==> EvictN(m, p, n).value.start == p.start && EvictN(m, p, n).value.end < CRCS
    decreases n
  {
    hide SumMem;
    if n > 0 && Use(m, p.ix.tree) > m.limit {
      EvictNEnd(m, Halve(p), n - 1);
    }
  }
}
