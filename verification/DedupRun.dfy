/** Whole runs of dedup: every pass over the records, the second try of what
    failed, and what the totals come to. */
module DedupRun {
  import opened Common
  import opened CrcRange
  import opened DedupIndex
  import opened DedupPasses

  datatype Progress = At(p: Pass) | Endless | Quit

  /** The filter of `scan_pfs`; it is off while the range is closed. */
  predicate Skips(p: Pass, r: Leaf) {
    p.start != p.end && (r.crc < p.start || (p.end != 0 && r.crc >= p.end))
  }

  function Step(m: Memory, s: Progress, r: Leaf, io: Io): Progress {
    if !s.At? || Skips(s.p, r) then s
    else match Process(m, s.p, r, false, io)
      case Stepped(p, _) => At(p)
      case Hung => Endless
      case Exited => Quit
  }

  /** The scan up to record `i`. */
  function After(m: Memory, p: Pass, rs: seq<Leaf>, io: nat -> Io, i: nat): Progress
    requires i <= |rs|
  {
    if i == 0 then At(p) else Step(m, After(m, p, rs, io, i - 1), rs[i - 1], io(i - 1))
  }

  lemma AfterUnfolds(m: Memory, p: Pass, rs: seq<Leaf>, io: nat -> Io, i: nat)
    requires 0 < i <= |rs|
    ensures After(m, p, rs, io, i) == Step(m, After(m, p, rs, io, i - 1), rs[i - 1], io(i - 1))
  {
  }

  /** A record of the queue has had its second try. */
  function Retried(p: Pass, r: Leaf, fate: Fate): Pass {
    var t := p.ix.totals;
    p.(ix := p.ix.(queue := if p.ix.queue == [] then [] else p.ix.queue[1..],
                   totals := if fate == Indexed then t.(skipped := t.skipped - r.len) else t))
  }

  function StepAgain(m: Memory, s: Progress, r: Leaf, io: Io): Progress {
    if !s.At? then s
    else match Process(m, s.p, r, true, io)
      case Stepped(p, fate) => At(Retried(p, r, fate))
      case Hung => Endless
      case Exited => Quit
  }

  /** Pass 2 up to the record `i` of what was queued. */
  function Again(m: Memory, p: Pass, q: seq<Leaf>, io: nat -> Io, i: nat): Progress
    requires i <= |q|
  {
    if i == 0 then At(p) else StepAgain(m, Again(m, p, q, io, i - 1), q[i - 1], io(i - 1))
  }

  /** The end of a pass: each entry counts all its references and is stored once. */
  function Drained(p: Pass): Pass {
    var t := p.ix.totals;
    p.(ix := Ix(map[], p.ix.queue,
                t.(refSize := t.refSize + SumBytes(p.ix.tree, CRCS), allocSize := t.allocSize + SumLens(p.ix.tree, CRCS))))
  }

  /** The answers of the outside to the scan and to pass 2. */
  datatype Answer = Answer(scan: nat -> Io, again: nat -> Io)

  function Scanned(m: Memory, start: nat, ix: Ix, rs: seq<Leaf>, a: Answer): Progress {
    After(m, Pass(start, 0, ix), rs, a.scan, |rs|)
  }

  function OnePass(m: Memory, start: nat, ix: Ix, rs: seq<Leaf>, a: Answer): Progress {
    match Scanned(m, start, ix, rs, a)
    case At(p) =>
      (match Again(m, p, p.ix.queue, a.again, |p.ix.queue|)
       case At(q) => At(Drained(q))
       case other => other)
    case other => other
  }

  datatype Run = Going(start: nat, ix: Ix) | Finished(ix: Ix) | Forever | Stopped

  const NOTHING := Ix(map[], [], Totals(0, 0, 0, 0, 0, 0))

  /** The run after `k` passes. */
  function Runs(m: Memory, rs: seq<Leaf>, a: nat -> Answer, k: nat): Run {
    if k == 0 then Going(0, NOTHING)
    else match Runs(m, rs, a, k - 1)
      case Going(start, ix) =>
        (match OnePass(m, start, ix, rs, a(k - 1))
         case At(p) => if p.end == 0 then Finished(p.ix) else Going(p.end, p.ix)
         case Endless => Forever
         case Quit => Stopped)
      case other => other
  }

  // ----- the records behind a pass -----

  /** The records behind the entries, and those given up in this pass. */
  datatype Ledger = Ledger(held: seq<Leaf>, early: seq<Leaf>)

  function HeldBelow(held: seq<Leaf>, end: nat): seq<Leaf> {
    if held == [] then []
    else HeldBelow(held[..|held| - 1], end) + if held[|held| - 1].crc < end then [held[|held| - 1]] else []
  }

  function Booked(m: Memory, p: Pass, led: Ledger, r: Leaf, pass2: bool, io: Io): Ledger {
    match Evict(m, p)
    case None => led
    case Some(q) =>
      var held := if Use(m, p.ix.tree) <= m.limit then led.held else HeldBelow(led.held, q.end);
      Settled(led.(held := held), r, Offer(q.ix, r, pass2, io).fate)
  }

  lemma {:induction false} HeldMember(held: seq<Leaf>, end: nat, x: Leaf)
    ensures multiset(HeldBelow(held, end))[x] == if x.crc < end then multiset(held)[x] else 0
    ensures x in HeldBelow(held, end) <==> x in held && x.crc < end
  {
    if held != [] {
      var n := |held| - 1;
      assert held == held[..n] + [held[n]];
      HeldMember(held[..n], end, x);
    }
  }

  lemma {:induction false} HeldOf(held: seq<Leaf>, end: nat, c: nat)
    requires c < end
    ensures CountOf(HeldBelow(held, end), c) == CountOf(held, c) && LenOf(HeldBelow(held, end), c) == LenOf(held, c)
  {
    if held != [] {
      var n := |held| - 1;
      HeldOf(held[..n], end, c);
      var rest := HeldBelow(held[..n], end);
      if held[n].crc < end {
        OfMore(rest, held[n], c);
      } else {
        assert HeldBelow(held, end) == rest;
      }
    }
  }

  lemma KeptBelow(tree: map<nat, De>, held: seq<Leaf>, end: nat)
    requires Kept(tree, held)
    ensures Kept(Below(tree, end), HeldBelow(held, end))
  {
    hide GoodDe, Blks, Bytes, CountOf, LenOf, HeldBelow;
    forall c | c in Below(tree, end)
      ensures c < CRCS && StandsFor(Below(tree, end)[c], HeldBelow(held, end), c)
    {
      HeldOf(held, end, c);
      assert StandsFor(tree[c], held, c);
    }
    forall l <- HeldBelow(held, end)
      ensures l.crc in Below(tree, end)
    {
      HeldMember(held, end, l);
    }
  }

  /** Records that were given up count as referenced and as allocated. */
  predicate Given(t: Totals, base: Totals, early: seq<Leaf>) {
    t.refSize == base.refSize + QueueBytes(early) && t.allocSize == base.allocSize + QueueBytes(early)
  }

  /** What holds in a pass whose range has not been closed. */
  ghost predicate Right(p: Pass, led: Ledger, base: Totals, read: multiset<Leaf>) {
    Above(p) && Kept(p.ix.tree, led.held) && Given(p.ix.totals, base, led.early) &&
    (forall l <- p.ix.queue :: p.start <= l.crc < CRCS) && (forall l <- led.early :: l.crc < CRCS) &&
    Balanced(p, led, read)
  }

  /** Eviction that does not close the range. */
  lemma EvictRight(m: Memory, p: Pass, led: Ledger, base: Totals, read: multiset<Leaf>)
    requires Right(p, led, base, read) && !Closes(m, p)
    ensures Evict(m, p).Some?
    ensures var q := Evict(m, p).value;
            var held := if Use(m, p.ix.tree) <= m.limit then led.held else HeldBelow(led.held, q.end);
            q.start == p.start && q.ix.queue == p.ix.queue && q.ix.totals == p.ix.totals &&
            Bound(q.end) <= Bound(p.end) && Right(q, led.(held := held), base, read)
  {
    hide SumMem, Kept, HeldBelow, QueueBytes, EvictN;
    EvictAbove(m, p);
    var q := Evict(m, p).value;
    if Use(m, p.ix.tree) > m.limit {
      KeptBelow(p.ix.tree, led.held, q.end);
      forall x: Leaf | x.crc < Bound(q.end)
        ensures multiset(HeldBelow(led.held, q.end))[x] == multiset(led.held)[x]
      {
        HeldMember(led.held, q.end, x);
      }
    }
  }

  lemma CountMore(s: seq<Leaf>, r: Leaf, x: Leaf)
    ensures multiset(s + [r])[x] == multiset(s)[x] + if x == r then 1 else 0
  {
  }

  /** The ledger once a record has met its fate. */
  function Settled(led: Ledger, r: Leaf, fate: Fate): Ledger {
    match fate
    case Indexed => Ledger(led.held + [r], led.early)
    case Early => Ledger(led.held, led.early + [r])
    case _ => led
  }

  /** Each record inside the range is held, given up or queued as often as it has been read. */
  ghost predicate Balanced(p: Pass, led: Ledger, read: multiset<Leaf>) {
    forall x: Leaf | x.crc < Bound(p.end) ::
      multiset(led.held)[x] + multiset(led.early)[x] + multiset(p.ix.queue)[x] == if x.crc >= p.start then read[x] else 0
  }

  lemma SettledBalanced(q: Pass, led: Ledger, read: multiset<Leaf>, r: Leaf, ix: Ix, fate: Fate)
    requires Balanced(q, led, read) && q.start <= r.crc && fate != Exit
    requires ix.queue == if fate == Queued then q.ix.queue + [r] else q.ix.queue
    ensures Balanced(q.(ix := ix), Settled(led, r, fate), read + multiset{r})
  {
    var led', q' := Settled(led, r, fate), q.(ix := ix);
    forall x: Leaf | x.crc < Bound(q.end)
      ensures multiset(led'.held)[x] + multiset(led'.early)[x] + multiset(q'.ix.queue)[x] ==
              if x.crc >= q.start then (read + multiset{r})[x] else 0
    {
      CountMore(led.held, r, x);
      CountMore(led.early, r, x);
      CountMore(q.ix.queue, r, x);
    }
  }

  /** One record more, inside the range or not. */
  lemma OfferRight(m: Memory, q: Pass, led: Ledger, base: Totals, read: multiset<Leaf>, r: Leaf, io: Io)
    requires Right(q, led, base, read) && q.start <= r.crc < CRCS && Offer(q.ix, r, false, io).fate != Exit
    ensures var o := Offer(q.ix, r, false, io);
            Right(q.(ix := o.ix), Settled(led, r, o.fate), base, read + multiset{r})
  {
    hide Kept, Offer, Balanced, QueueBytes;
    var o := Offer(q.ix, r, false, io);
    OfferKeeps(q.ix, led.held, r, false, io);
    OfferFrame(q.ix, r, false, io);
    QueueAdd(led.early, r);
    SettledBalanced(q, led, read, r, o.ix, o.fate);
  }

  // ----- the scan -----

  /** No eviction up to record `i` closes the range. */
  ghost predicate ScanOpen(m: Memory, p: Pass, rs: seq<Leaf>, io: nat -> Io, i: nat)
    requires i <= |rs|
  {
    forall j: nat | j < i ::
      var s := After(m, p, rs, io, j); s.At? && !Skips(s.p, rs[j]) ==> !Closes(m, s.p)
  }

  ghost function LedgerAfter(m: Memory, p: Pass, rs: seq<Leaf>, io: nat -> Io, i: nat): Ledger
    requires i <= |rs|
  {
    if i == 0 then Ledger([], [])
    else
      var led, s := LedgerAfter(m, p, rs, io, i - 1), After(m, p, rs, io, i - 1);
      if !s.At? || Skips(s.p, rs[i - 1]) then led else Booked(m, s.p, led, rs[i - 1], false, io(i - 1))
  }

  lemma SkipRight(p: Pass, led: Ledger, base: Totals, read: multiset<Leaf>, r: Leaf)
    requires Right(p, led, base, read) && Skips(p, r)
    ensures Right(p, led, base, read + multiset{r})
  {
    hide Kept, QueueBytes;
  }

  /** One record of the scan. */
  lemma StepRight(m: Memory, p: Pass, led: Ledger, base: Totals, read: multiset<Leaf>, r: Leaf, io: Io)
    requires Right(p, led, base, read) && r.crc < CRCS && !Skips(p, r) && !Closes(m, p)
    ensures var s := Step(m, At(p), r, io);
            !s.Endless? && (s.At? ==> s.p.start == p.start && Right(s.p, Booked(m, p, led, r, false, io), base, read + multiset{r}))
  {
    hide Right, Evict, Offer, HeldBelow;
    EvictRight(m, p, led, base, read);
    var q := Evict(m, p).value;
    var held := if Use(m, p.ix.tree) <= m.limit then led.held else HeldBelow(led.held, q.end);
    StartsBelow(p, led, base, read, r);
    if Offer(q.ix, r, false, io).fate != Exit {
      OfferRight(m, q, led.(held := held), base, read, r, io);
    }
  }

  lemma StartsBelow(p: Pass, led: Ledger, base: Totals, read: multiset<Leaf>, r: Leaf)
    requires Right(p, led, base, read) && !Skips(p, r)
    ensures p.start <= r.crc
  {
  }

  lemma {:induction false} ScanRight(m: Memory, p: Pass, rs: seq<Leaf>, io: nat -> Io, i: nat)
    requires p.start < CRCS && p.end == 0 && p.ix.tree == map[] && p.ix.queue == [] && (forall r <- rs :: r.crc < CRCS)
    requires i <= |rs| && ScanOpen(m, p, rs, io, i)
    ensures var s := After(m, p, rs, io, i);
            !s.Endless? &&
            (s.At? ==> s.p.start == p.start &&
                       Right(s.p, LedgerAfter(m, p, rs, io, i), p.ix.totals, multiset(rs[..i])))
  {
    hide Right, Booked, Step, Skips, Closes;
    var base := p.ix.totals;
    if i == 0 {
      StartRight(p);
    } else {
      ScanRight(m, p, rs, io, i - 1);
      var s, led, r := After(m, p, rs, io, i - 1), LedgerAfter(m, p, rs, io, i - 1), rs[i - 1];
      ReadMore(rs, i);
      if s.At? && !Skips(s.p, r) {
        assert !Closes(m, s.p);
        StepRight(m, s.p, led, base, multiset(rs[..i - 1]), r, io(i - 1));
      } else {
        StepStays(m, s, r, io(i - 1));
        if s.At? {
          SkipRight(s.p, led, base, multiset(rs[..i - 1]), r);
        }
      }
    }
  }

  lemma ReadMore(rs: seq<Leaf>, i: nat)
    requires 0 < i <= |rs|
    ensures multiset(rs[..i]) == multiset(rs[..i - 1]) + multiset{rs[i - 1]}
  {
    assert rs[..i] == rs[..i - 1] + [rs[i - 1]];
  }

  lemma StepStays(m: Memory, s: Progress, r: Leaf, io: Io)
    requires !s.At? || Skips(s.p, r)
    ensures Step(m, s, r, io) == s
  {
  }

  lemma StartRight(p: Pass)
    requires p.start < CRCS && p.end == 0 && p.ix.tree == map[] && p.ix.queue == []
    ensures Right(p, Ledger([], []), p.ix.totals, multiset([]))
  {
  }

  // ----- pass 2 -----

  ghost predicate AgainOpen(m: Memory, p: Pass, q: seq<Leaf>, io: nat -> Io, i: nat)
    requires i <= |q|
  {
    forall j: nat | j < i :: var s := Again(m, p, q, io, j); s.At? ==> !Closes(m, s.p)
  }

  ghost function LedgerAgain(m: Memory, p: Pass, led: Ledger, q: seq<Leaf>, io: nat -> Io, i: nat): Ledger
    requires i <= |q|
  {
    if i == 0 then led
    else
      var s := Again(m, p, q, io, i - 1);
      var before := LedgerAgain(m, p, led, q, io, i - 1);
      if !s.At? then before else Booked(m, s.p, before, q[i - 1], true, io(i - 1))
  }

  lemma RetriedBalanced(q: Pass, led: Ledger, read: multiset<Leaf>, r: Leaf, ix: Ix, fate: Fate)
    requires Balanced(q, led, read) && (fate == Indexed || fate == Early)
    requires ix.queue == q.ix.queue && ix.queue != [] && ix.queue[0] == r
    ensures Balanced(Retried(q.(ix := ix), r, fate), Settled(led, r, fate), read)
  {
    var led', q' := Settled(led, r, fate), Retried(q.(ix := ix), r, fate);
    forall x: Leaf | x.crc < Bound(q.end)
      ensures multiset(led'.held)[x] + multiset(led'.early)[x] + multiset(q'.ix.queue)[x] ==
              if x.crc >= q.start then read[x] else 0
    {
      CountLess(q.ix.queue, x);
      CountMore(led.held, r, x);
      CountMore(led.early, r, x);
    }
  }

  lemma CountLess(q: seq<Leaf>, x: Leaf)
    requires q != []
    ensures multiset(q)[x] == multiset(q[1..])[x] + if q[0] == x then 1 else 0
  {
    assert q == [q[0]] + q[1..];
  }

  /** A queued record tried again: it is indexed or given up, and leaves the queue. */
  lemma AgainOffer(q: Pass, led: Ledger, base: Totals, read: multiset<Leaf>, r: Leaf, io: Io)
    requires Right(q, led, base, read) && q.ix.queue != [] && q.ix.queue[0] == r &&
             Offer(q.ix, r, true, io).fate != Exit
    ensures var o := Offer(q.ix, r, true, io);
            o.fate != Queued && o.ix.queue == q.ix.queue &&
            Right(Retried(q.(ix := o.ix), r, o.fate), Settled(led, r, o.fate), base, read)
  {
    hide Kept, Offer, Balanced, QueueBytes;
    var o := Offer(q.ix, r, true, io);
    assert r in q.ix.queue;
    OfferKeeps(q.ix, led.held, r, true, io);
    OfferFrame(q.ix, r, true, io);
    QueueAdd(led.early, r);
    RetriedBalanced(q, led, read, r, o.ix, o.fate);
  }

  lemma AgainStep(m: Memory, p: Pass, led: Ledger, base: Totals, read: multiset<Leaf>, r: Leaf, io: Io)
    requires Right(p, led, base, read) && p.ix.queue != [] && p.ix.queue[0] == r && !Closes(m, p)
    ensures var s := StepAgain(m, At(p), r, io);
            !s.Endless? &&
            (s.At? ==> s.p.start == p.start && s.p.ix.queue == p.ix.queue[1..] &&
                       Right(s.p, Booked(m, p, led, r, true, io), base, read))
  {
    hide Right, Evict, Offer, HeldBelow;
    EvictRight(m, p, led, base, read);
    var q := Evict(m, p).value;
    var held := if Use(m, p.ix.tree) <= m.limit then led.held else HeldBelow(led.held, q.end);
    if Offer(q.ix, r, true, io).fate != Exit {
      AgainOffer(q, led.(held := held), base, read, r, io);
    }
  }

  lemma {:induction false} AgainRight(m: Memory, p: Pass, led: Ledger, base: Totals, read: multiset<Leaf>, q: seq<Leaf>,
                                      io: nat -> Io, i: nat)
    requires Right(p, led, base, read) && q == p.ix.queue && i <= |q| && AgainOpen(m, p, q, io, i)
    ensures var s := Again(m, p, q, io, i);
            !s.Endless? &&
            (s.At? ==> s.p.start == p.start && s.p.ix.queue == q[i..] &&
                       Right(s.p, LedgerAgain(m, p, led, q, io, i), base, read))
  {
    hide Right, Booked, StepAgain, Closes;
    if i > 0 {
      AgainRight(m, p, led, base, read, q, io, i - 1);
      var s := Again(m, p, q, io, i - 1);
      if s.At? {
        assert !Closes(m, s.p);
        AgainStep(m, s.p, LedgerAgain(m, p, led, q, io, i - 1), base, read, q[i - 1], io(i - 1));
        assert q[i - 1..][1..] == q[i..];
      } else {
        StuckAgain(m, s, q[i - 1], io(i - 1));
      }
    }
  }

  lemma StuckAgain(m: Memory, s: Progress, r: Leaf, io: Io)
    requires !s.At?
    ensures StepAgain(m, s, r, io) == s
  {
  }

  // ----- a whole pass -----

  function BytesBelow(held: seq<Leaf>, n: nat): nat {
    if held == [] then 0
    else BytesBelow(held[..|held| - 1], n) + if held[|held| - 1].crc < n then held[|held| - 1].len else 0
  }

  lemma {:induction false} BytesStep(held: seq<Leaf>, n: nat)
    ensures BytesBelow(held, n + 1) == BytesBelow(held, n) + LenOf(held, n)
  {
    if held != [] {
      BytesStep(held[..|held| - 1], n);
    }
  }

  lemma {:induction false} BytesNone(held: seq<Leaf>)
    ensures BytesBelow(held, 0) == 0
  {
    if held != [] {
      BytesNone(held[..|held| - 1]);
    }
  }

  lemma {:induction false} BytesAll(held: seq<Leaf>, n: nat)
    requires forall l <- held :: l.crc < n
    ensures BytesBelow(held, n) == QueueBytes(held)
  {
    if held != [] {
      BytesAll(held[..|held| - 1], n);
    }
  }

  lemma {:induction false} SumIsBytes(tree: map<nat, De>, held: seq<Leaf>, n: nat)
    requires Kept(tree, held)
    ensures SumBytes(tree, n) == BytesBelow(held, n)
  {
    hide GoodDe, Blks, Bytes, BytesBelow;
    if n == 0 {
      BytesNone(held);
    } else {
      SumIsBytes(tree, held, n - 1);
      BytesStep(held, n - 1);
      if n - 1 in tree {
        assert StandsFor(tree[n - 1], held, n - 1);
      } else {
        NoneOf(held, n - 1);
      }
    }
  }

  /** What is in the index when a pass ends are the bytes of the records held. */
  lemma IndexIsHeld(tree: map<nat, De>, held: seq<Leaf>)
    requires Kept(tree, held)
    ensures SumBytes(tree, CRCS) == QueueBytes(held) && forall l <- held :: l.crc < CRCS
  {
    hide StandsFor, SumBytes, BytesBelow, QueueBytes;
    assert forall l <- held :: l.crc in tree;
    SumIsBytes(tree, held, CRCS);
    BytesAll(held, CRCS);
  }

  /** What is stored is no more than what is referenced. */
  lemma {:induction false} StoredOnce(tree: map<nat, De>, held: seq<Leaf>, n: nat)
    requires Kept(tree, held)
    ensures SumLens(tree, n) <= SumBytes(tree, n)
  {
    hide StandsFor, Lens, Bytes;
    if n > 0 {
      StoredOnce(tree, held, n - 1);
      if n - 1 in tree {
        EntryOf(tree, held, n - 1);
        LensBytes(tree[n - 1], held, n - 1);
      }
    }
  }

  lemma LensBytes(d: De, held: seq<Leaf>, c: nat)
    requires StandsFor(d, held, c)
    ensures Lens(d) <= Bytes(d)
  {
    hide CountOf, LenOf, Blks;
    if d.Plain? {
      Times(d.leaf.len, 1, d.blks);
    } else {
      ShaLensBytes(d.shas);
    }
  }

  lemma {:induction false} ShaLensBytes(shas: seq<Sha>)
    requires forall i | 0 <= i < |shas| :: GoodSha(shas[i])
    ensures ShaLens(shas) <= ShaBytes(shas)
  {
    if shas != [] {
      Times(shas[0].leaf.len, 1, shas[0].blks);
      ShaLensBytes(shas[1..]);
    }
  }

  /** No eviction of the pass closes its range. */
  ghost predicate PassOpen(m: Memory, start: nat, ix: Ix, rs: seq<Leaf>, a: Answer) {
    ScanOpen(m, Pass(start, 0, ix), rs, a.scan, |rs|) &&
    var s := Scanned(m, start, ix, rs, a);
    s.At? ==> AgainOpen(m, s.p, s.p.ix.queue, a.again, |s.p.ix.queue|)
  }

  /** The records behind what the pass counts. */
  ghost function PassLedger(m: Memory, start: nat, ix: Ix, rs: seq<Leaf>, a: Answer): Ledger {
    var led := LedgerAfter(m, Pass(start, 0, ix), rs, a.scan, |rs|);
    match Scanned(m, start, ix, rs, a)
    case At(p) => LedgerAgain(m, p, led, p.ix.queue, a.again, |p.ix.queue|)
    case _ => led
  }

  /** What a pass has done: each record of the range it ended with is counted once. */
  ghost predicate PassDone(start: nat, ix: Ix, rs: seq<Leaf>, p: Pass, led: Ledger) {
    p.start == start && p.ix.tree == map[] && p.ix.queue == [] && (p.end == 0 || start < p.end < CRCS) &&
    p.ix.totals.refSize == ix.totals.refSize + QueueBytes(led.held) + QueueBytes(led.early) &&
    QueueBytes(led.early) <= p.ix.totals.allocSize - ix.totals.allocSize <= p.ix.totals.refSize - ix.totals.refSize &&
    (forall l <- led.held :: l.crc < CRCS) && (forall l <- led.early :: l.crc < CRCS) &&
    (forall x: Leaf | x.crc < Bound(p.end) ::
       multiset(led.held)[x] + multiset(led.early)[x] == if x.crc >= start then multiset(rs)[x] else 0)
  }

  lemma PassRight(m: Memory, start: nat, ix: Ix, rs: seq<Leaf>, a: Answer)
    requires start < CRCS && ix.tree == map[] && ix.queue == [] && (forall r <- rs :: r.crc < CRCS)
    requires PassOpen(m, start, ix, rs, a)
    ensures var s := OnePass(m, start, ix, rs, a);
            !s.Endless? && (s.At? ==> PassDone(start, ix, rs, s.p, PassLedger(m, start, ix, rs, a)))
  {
    hide Right, After, Again, LedgerAfter, LedgerAgain, ScanOpen, AgainOpen, SumBytes, SumLens;
    var p0 := Pass(start, 0, ix);
    ScanRight(m, p0, rs, a.scan, |rs|);
    assert rs[..|rs|] == rs;
    var s, led := Scanned(m, start, ix, rs, a), LedgerAfter(m, p0, rs, a.scan, |rs|);
    if s.At? {
      var q := s.p.ix.queue;
      AgainRight(m, s.p, led, ix.totals, multiset(rs), q, a.again, |q|);
      var e := Again(m, s.p, q, a.again, |q|);
      if e.At? {
        DrainRight(e.p, PassLedger(m, start, ix, rs, a), ix, rs);
      }
    }
  }

  lemma DrainRight(p: Pass, led: Ledger, ix: Ix, rs: seq<Leaf>)
    requires Right(p, led, ix.totals, multiset(rs)) && p.ix.queue == []
    ensures PassDone(p.start, ix, rs, Drained(p), led)
  {
    hide Kept, SumBytes, SumLens, QueueBytes;
    IndexIsHeld(p.ix.tree, led.held);
    StoredOnce(p.ix.tree, led.held, CRCS);
    assert forall x: Leaf :: multiset(p.ix.queue)[x] == 0;
  }

  // ----- a whole run -----

  /** The records a pass has counted although they are not below its end. */
  function Over(rs: seq<Leaf>, end: nat): seq<Leaf> {
    if rs == [] then [] else Over(rs[..|rs| - 1], end) + if rs[|rs| - 1].crc < end then [] else [rs[|rs| - 1]]
  }

  lemma {:induction false} OverCount(rs: seq<Leaf>, end: nat, x: Leaf)
    ensures multiset(Over(rs, end))[x] == if x.crc < end then 0 else multiset(rs)[x]
  {
    if rs != [] {
      var n := |rs| - 1;
      assert rs == rs[..n] + [rs[n]];
      OverCount(rs[..n], end, x);
    }
  }

  /** No eviction of the first `k` passes closes the range. */
  ghost predicate RunOpen(m: Memory, rs: seq<Leaf>, a: nat -> Answer, k: nat) {
    forall j: nat | j < k :: var s := Runs(m, rs, a, j); s.Going? ==> PassOpen(m, s.start, s.ix, rs, a(j))
  }

  /** The records behind the referenced bytes after `k` passes. */
  ghost function Counted(m: Memory, rs: seq<Leaf>, a: nat -> Answer, k: nat): seq<Leaf> {
    if k == 0 then []
    else
      var before := Counted(m, rs, a, k - 1);
      match Runs(m, rs, a, k - 1)
      case Going(start, ix) =>
        var led := PassLedger(m, start, ix, rs, a(k - 1));
        before + (led.held + led.early)
      case _ => before
  }

  /** Those of them that lie at or above the end of the pass that counted them. */
  ghost function Repeats(m: Memory, rs: seq<Leaf>, a: nat -> Answer, k: nat): seq<Leaf> {
    if k == 0 then []
    else
      var before := Repeats(m, rs, a, k - 1);
      match Runs(m, rs, a, k - 1)
      case Going(start, ix) =>
        var led := PassLedger(m, start, ix, rs, a(k - 1));
        (match OnePass(m, start, ix, rs, a(k - 1))
         case At(p) => before + Over(led.held + led.early, Bound(p.end))
         case _ => before)
      case _ => before
  }

  ghost predicate RunRight(rs: seq<Leaf>, s: Run, k: nat, counted: seq<Leaf>, repeats: seq<Leaf>) {
    match s
    case Going(start, ix) =>
      k <= start < CRCS && ix.tree == map[] && ix.queue == [] &&
      ix.totals.allocSize <= ix.totals.refSize == QueueBytes(counted) && Tallied(rs, start, counted, repeats)
    case Finished(ix) =>
      ix.totals.allocSize <= ix.totals.refSize == QueueBytes(counted) && Tallied(rs, CRCS, counted, repeats)
    case Forever => false
    case Stopped => true
  }

  /** Every record with a CRC below `end` has been counted once, apart from the repeats. */
  ghost predicate Tallied(rs: seq<Leaf>, end: nat, counted: seq<Leaf>, repeats: seq<Leaf>) {
    forall x: Leaf :: multiset(counted)[x] == (if x.crc < end then multiset(rs)[x] else 0) + multiset(repeats)[x]
  }

  lemma {:induction false} BytesAdd(a: seq<Leaf>, b: seq<Leaf>)
    ensures QueueBytes(a + b) == QueueBytes(a) + QueueBytes(b)
    decreases |b|
  {
    if b == [] {
      assert a + b == a;
    } else {
      var n := |b| - 1;
      assert a + b == (a + b[..n]) + [b[n]];
      QueueAdd(a + b[..n], b[n]);
      BytesAdd(a, b[..n]);
    }
  }

  /** One pass more. */
  lemma TallyMore(rs: seq<Leaf>, start: nat, ix: Ix, p: Pass, led: Ledger, counted: seq<Leaf>, repeats: seq<Leaf>)
    requires Tallied(rs, start, counted, repeats) && PassDone(start, ix, rs, p, led) && (forall r <- rs :: r.crc < CRCS)
    ensures Tallied(rs, Bound(p.end), counted + (led.held + led.early), repeats + Over(led.held + led.early, Bound(p.end)))
  {
    hide QueueBytes, Over;
    var more := led.held + led.early;
    forall x: Leaf
      ensures multiset(counted + more)[x] ==
              (if x.crc < Bound(p.end) then multiset(rs)[x] else 0) + multiset(repeats + Over(more, Bound(p.end)))[x]
    {
      OverCount(more, Bound(p.end), x);
    }
  }

  lemma {:induction false} RunKeeps(m: Memory, rs: seq<Leaf>, a: nat -> Answer, k: nat)
    requires (forall r <- rs :: r.crc < CRCS) && RunOpen(m, rs, a, k)
    ensures RunRight(rs, Runs(m, rs, a, k), k, Counted(m, rs, a, k), Repeats(m, rs, a, k))
  {
    hide PassOpen, OnePass, PassLedger, PassDone, QueueBytes, Over, Tallied;
    if k == 0 {
      NothingYet(rs);
    } else {
      RunKeeps(m, rs, a, k - 1);
      var s := Runs(m, rs, a, k - 1);
      if s.Going? {
        PassRight(m, s.start, s.ix, rs, a(k - 1));
        var e, led := OnePass(m, s.start, s.ix, rs, a(k - 1)), PassLedger(m, s.start, s.ix, rs, a(k - 1));
        if e.At? {
          PassCounts(m, rs, k - 1, s.start, s.ix, e.p, led, Counted(m, rs, a, k - 1), Repeats(m, rs, a, k - 1));
        }
      }
    }
  }

  lemma NothingYet(rs: seq<Leaf>)
    ensures RunRight(rs, Going(0, NOTHING), 0, [], [])
  {
  }

  lemma PassCounts(m: Memory, rs: seq<Leaf>, k: nat, start: nat, ix: Ix, p: Pass, led: Ledger,
                   counted: seq<Leaf>, repeats: seq<Leaf>)
    requires RunRight(rs, Going(start, ix), k, counted, repeats) && PassDone(start, ix, rs, p, led)
    requires forall r <- rs :: r.crc < CRCS
    ensures RunRight(rs, if p.end == 0 then Finished(p.ix) else Going(p.end, p.ix), k + 1,
                     counted + (led.held + led.early), repeats + Over(led.held + led.early, Bound(p.end)))
  {
    hide Over, QueueBytes, Tallied;
    TallyMore(rs, start, ix, p, led, counted, repeats);
    BytesAdd(counted, led.held + led.early);
    BytesAdd(led.held, led.early);
  }

  lemma TakeOut(s: seq<Leaf>, i: nat)
    requires i < |s|
    ensures multiset(s[..i] + s[i + 1..]) == multiset(s) - multiset{s[i]}
    ensures QueueBytes(s[..i] + s[i + 1..]) + s[i].len == QueueBytes(s)
  {
    hide QueueBytes;
    assert s == s[..i] + [s[i]] + s[i + 1..];
    assert multiset(s) == multiset(s[..i]) + multiset{s[i]} + multiset(s[i + 1..]);
    BytesAdd(s[..i] + [s[i]], s[i + 1..]);
    BytesAdd(s[..i], s[i + 1..]);
    QueueAdd(s[..i], s[i]);
  }

  lemma {:induction false} SameBytes(a: seq<Leaf>, b: seq<Leaf>)
    requires multiset(a) == multiset(b)
    ensures QueueBytes(a) == QueueBytes(b)
    decreases |a|
  {
    if a == [] {
      assert |multiset(b)| == 0;
    } else {
      hide QueueBytes;
      var n := |a| - 1;
      assert a[n] in multiset(b);
      var i :| 0 <= i < |b| && b[i] == a[n];
      assert a[..n] + a[n + 1..] == a[..n];
      TakeOut(a, n);
      TakeOut(b, i);
      SameBytes(a[..n], b[..i] + b[i + 1..]);
    }
  }

  /** A run that never closes its range comes to an end, and the bytes it reports
      as referenced are those of all records and of the repeats. */
  lemma RunTotals(m: Memory, rs: seq<Leaf>, a: nat -> Answer)
    requires (forall r <- rs :: r.crc < CRCS) && RunOpen(m, rs, a, CRCS)
    ensures var s := Runs(m, rs, a, CRCS);
            !s.Going? && !s.Forever? &&
            (s.Finished? ==>
               s.ix.totals.refSize == QueueBytes(rs) + QueueBytes(Repeats(m, rs, a, CRCS)) &&
               s.ix.totals.allocSize <= s.ix.totals.refSize)
  {
    hide Runs, Counted, Repeats, QueueBytes, RunOpen;
    RunKeeps(m, rs, a, CRCS);
    var s, counted, repeats := Runs(m, rs, a, CRCS), Counted(m, rs, a, CRCS), Repeats(m, rs, a, CRCS);
    if s.Finished? {
      forall x: Leaf
        ensures multiset(counted)[x] == multiset(rs + repeats)[x]
      {
        assert x.crc >= CRCS ==> x !in rs;
      }
      assert multiset(counted) == multiset(rs + repeats);
      SameBytes(counted, rs + repeats);
      BytesAdd(rs, repeats);
    }
  }
}
