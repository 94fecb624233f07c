/** Dedup with an outside that tells the truth about contents: every entry then stands
    for the records of one content, and the allocated bytes are those of the contents. */
module DedupTruth {
  import opened Common
  import opened CrcRange
  import opened DedupIndex
  import opened DedupPasses
  import opened DedupRun
  import opened DedupLimits
  import opened DedupClash
  import opened DedupFits

  /** The checksum of a record's data; records of one block have one. */
  ghost predicate Contents(h: Leaf -> int) {
    forall p: Leaf, q: Leaf :: p.offset == q.offset && p.len == q.len ==> h(p) == h(q)
  }

  /** Checksums are those of the data, and only equal data is deduplicated. */
  predicate Honest(h: Leaf -> int, ix: Ix, r: Leaf, io: Io) {
    (io.candidate.Some? ==> io.candidate.value == h(r)) &&
    (r.crc in ix.tree && ix.tree[r.crc].Plain? ==>
       var leaf := ix.tree[r.crc].leaf;
       (io.indexed.Some? ==> io.indexed.value == h(leaf)) &&
       (io.verdict in {Success, Underflow} ==> h(leaf) == h(r)))
  }

  /** The records of a CRC with a content. */
  function CountAs(held: seq<Leaf>, h: Leaf -> int, c: nat, x: int): nat {
    if held == [] then 0
    else
      var l := held[|held| - 1];
      CountAs(held[..|held| - 1], h, c, x) + if l.crc == c && h(l) == x then 1 else 0
  }

  predicate Same(h: Leaf -> int, p: Leaf, q: Leaf) {
    p.crc == q.crc && h(p) == h(q)
  }

  /** The bytes of a CRC, each content once. */
  function DistinctOf(held: seq<Leaf>, h: Leaf -> int, c: nat): nat {
    if held == [] then 0
    else
      var l, before := held[|held| - 1], held[..|held| - 1];
      DistinctOf(before, h, c) + if l.crc == c && !(exists k <- before :: Same(h, k, l)) then l.len else 0
  }

  /** The bytes of all records, each content of a CRC once. */
  function DistinctBytes(held: seq<Leaf>, h: Leaf -> int): nat {
    if held == [] then 0
    else
      var l, before := held[|held| - 1], held[..|held| - 1];
      DistinctBytes(before, h) + if exists k <- before :: Same(h, k, l) then 0 else l.len
  }

  lemma AsMore(held: seq<Leaf>, h: Leaf -> int, r: Leaf, c: nat, x: int)
    ensures CountAs(held + [r], h, c, x) == CountAs(held, h, c, x) + if r.crc == c && h(r) == x then 1 else 0
    ensures DistinctOf(held + [r], h, c) ==
            DistinctOf(held, h, c) + if r.crc == c && !(exists k <- held :: Same(h, k, r)) then r.len else 0
  {
    assert (held + [r])[..|held|] == held;
  }

  /** An entry and the records of its CRC: one content, or one SHA entry for each. */
  ghost predicate Speaks(d: De, held: seq<Leaf>, h: Leaf -> int, c: nat) {
    Lens(d) == DistinctOf(held, h, c) &&
    match d
    case Plain(leaf, blks, _) =>
      leaf in held && blks == CountAs(held, h, c, h(leaf)) &&
      forall l <- held | l.crc == c :: h(l) == h(leaf) && l.len == leaf.len
    case Fict(_, shas) =>
      (forall i | 0 <= i < |shas| :: ShaSpeaks(shas[i], held, h, c)) &&
      forall l <- held | l.crc == c :: HasHash(shas, h(l))
  }

  ghost predicate HasHash(shas: seq<Sha>, x: int) {
    exists i :: 0 <= i < |shas| && shas[i].hash == x
  }

  /** A SHA entry counts exactly the records of its CRC that have its hash. */
  ghost predicate ShaSpeaks(s: Sha, held: seq<Leaf>, h: Leaf -> int, c: nat) {
    s.leaf in held && s.leaf.crc == c && s.hash == h(s.leaf) && s.blks == CountAs(held, h, c, s.hash) &&
    forall l <- held | l.crc == c && h(l) == s.hash :: l.len == s.leaf.len
  }

  ghost predicate Told(tree: map<nat, De>, held: seq<Leaf>, h: Leaf -> int) {
    Kept(tree, held) && forall c | c in tree :: Speaks(tree[c], held, h, c)
  }

  // ----- one record more -----

  lemma SpeaksOf(tree: map<nat, De>, held: seq<Leaf>, h: Leaf -> int, c: nat)
    requires Told(tree, held, h) && c in tree
    ensures Speaks(tree[c], held, h, c) && StandsFor(tree[c], held, c)
  {
    hide Speaks, StandsFor;
  }

  /** Records of other CRCs do not matter to an entry. */
  lemma SpeaksStill(d: De, held: seq<Leaf>, h: Leaf -> int, r: Leaf, c: nat)
    requires Speaks(d, held, h, c) && r.crc != c && GoodDe(d, c)
    ensures Speaks(d, held + [r], h, c)
  {
    hide CountAs, DistinctOf, Lens;
    AsMore(held, h, r, c, 0);
    match d
    case Plain(leaf, _, _) =>
      AsMore(held, h, r, c, h(leaf));
    case Fict(_, shas) =>
      forall i | 0 <= i < |shas|
        ensures ShaSpeaks(shas[i], held + [r], h, c)
      {
        AsMore(held, h, r, c, shas[i].hash);
      }
  }

  /** The index after an entry for one more record. */
  lemma ToldMore(tree: map<nat, De>, held: seq<Leaf>, h: Leaf -> int, r: Leaf, d: De)
    requires Told(tree, held, h) && Kept(tree[r.crc := d], held + [r]) && Speaks(d, held + [r], h, r.crc)
    ensures Told(tree[r.crc := d], held + [r], h)
  {
    hide Speaks, StandsFor;
    forall c | c in tree && c != r.crc
      ensures Speaks(tree[c], held + [r], h, c)
    {
      SpeaksOf(tree, held, h, c);
      GoodOf(tree, held, c);
      SpeaksStill(tree[c], held, h, r, c);
    }
  }

  lemma GoodOf(tree: map<nat, De>, held: seq<Leaf>, c: nat)
    requires Kept(tree, held) && c in tree
    ensures GoodDe(tree[c], c)
  {
  }

  lemma FirstSpeaks(tree: map<nat, De>, held: seq<Leaf>, h: Leaf -> int, r: Leaf)
    requires Kept(tree, held) && r.crc !in tree
    ensures Speaks(Plain(r, 1, r.len), held + [r], h, r.crc)
  {
    assert forall l <- held :: l.crc != r.crc;
    NoneAs(held, h, r.crc, h(r));
    AsMore(held, h, r, r.crc, h(r));
  }

  lemma {:induction false} NoneAs(held: seq<Leaf>, h: Leaf -> int, c: nat, x: int)
    requires forall l <- held :: l.crc != c
    ensures CountAs(held, h, c, x) == 0 && DistinctOf(held, h, c) == 0
  {
    if held != [] {
      NoneAs(held[..|held| - 1], h, c, x);
    }
  }

  lemma PlainSpeaks(d: De, held: seq<Leaf>, h: Leaf -> int, r: Leaf, leaf: Leaf)
    requires d.Plain? && Speaks(d, held, h, r.crc) && GoodDe(d, r.crc) && h(r) == h(d.leaf) && r.len == d.leaf.len
    requires leaf == d.leaf || leaf == r
    ensures Speaks(MorePlain(d, leaf, r.len), held + [r], h, r.crc)
  {
    hide CountAs, DistinctOf;
    AsMore(held, h, r, r.crc, h(r));
    assert Same(h, d.leaf, r);
  }

  /** A record of another content does not matter to a SHA entry. */
  lemma ShaStill(s: Sha, held: seq<Leaf>, h: Leaf -> int, r: Leaf, c: nat)
    requires ShaSpeaks(s, held, h, c) && h(r) != s.hash
    ensures ShaSpeaks(s, held + [r], h, c)
  {
    hide CountAs;
    AsMore(held, h, r, c, s.hash);
  }

  lemma ShaGains(s: Sha, s': Sha, held: seq<Leaf>, h: Leaf -> int, r: Leaf)
    requires ShaSpeaks(s, held, h, r.crc) && h(r) == s.hash && r.len == s.leaf.len
    requires s'.hash == s.hash && s'.blks == s.blks + 1 && (s'.leaf == s.leaf || s'.leaf == r)
    ensures ShaSpeaks(s', held + [r], h, r.crc)
  {
    hide CountAs;
    AsMore(held, h, r, r.crc, s.hash);
  }

  lemma ShaMoreSpeaks(d: De, i: nat, held: seq<Leaf>, h: Leaf -> int, r: Leaf, leaf: Leaf)
    requires d.Fict? && GoodDe(d, r.crc) && i < |d.shas| && Speaks(d, held, h, r.crc)
    requires h(r) == d.shas[i].hash && r.len == d.shas[i].leaf.len && (leaf == d.shas[i].leaf || leaf == r)
    ensures Speaks(MoreSha(d, i, d.shas[i].hash, leaf, r.len), held + [r], h, r.crc)
  {
    hide DistinctOf, ShaSpeaks, GoodSha, HasHash, ShaLens;
    var s, shas := d.shas[i], d.shas;
    var shas' := MoreSha(d, i, s.hash, leaf, r.len).shas;
    AsMore(held, h, r, r.crc, 0);
    SpokenFor(s, held, h, r);
    LensPut(shas, i, shas'[i]);
    forall j | 0 <= j < |shas|
      ensures ShaSpeaks(shas'[j], held + [r], h, r.crc)
    {
      if j == i {
        ShaGains(s, shas'[i], held, h, r);
      } else {
        ShaStill(shas[j], held, h, r, r.crc);
      }
    }
    forall l <- held + [r] | l.crc == r.crc
      ensures HasHash(shas', h(l))
    {
      if l in held {
        SameHashes(shas, shas', h(l));
      } else {
        HashIn(shas', shas'[i]);
      }
    }
  }

  lemma SpokenFor(s: Sha, held: seq<Leaf>, h: Leaf -> int, r: Leaf)
    requires ShaSpeaks(s, held, h, r.crc) && h(r) == s.hash
    ensures exists k <- held :: Same(h, k, r)
  {
    assert Same(h, s.leaf, r);
  }

  lemma SameHashes(shas: seq<Sha>, shas': seq<Sha>, x: int)
    requires |shas| == |shas'| && (forall i | 0 <= i < |shas| :: shas[i].hash == shas'[i].hash) && HasHash(shas, x)
    ensures HasHash(shas', x)
  {
    var i :| 0 <= i < |shas| && shas[i].hash == x;
    assert shas'[i].hash == x;
  }

  lemma {:induction false} LensPut(shas: seq<Sha>, i: nat, s: Sha)
    requires i < |shas| && s.leaf.len == shas[i].leaf.len
    ensures ShaLens(shas[i := s]) == ShaLens(shas)
  {
    if i > 0 {
      assert shas[i := s][1..] == shas[1..][i - 1 := s];
      LensPut(shas[1..], i - 1, s);
    } else {
      assert shas[i := s][1..] == shas[1..];
    }
  }

  lemma {:induction false} LensInsert(shas: seq<Sha>, s: Sha)
    ensures var r := ShaInsert(shas, s);
            ShaLens(r) == ShaLens(shas) + s.leaf.len && s in r && (forall x <- shas :: x in r) &&
            forall x <- r :: x == s || x in shas
  {
    if shas != [] && s.hash >= shas[0].hash {
      LensInsert(shas[1..], s);
      var r := ShaInsert(shas, s);
      assert r[1..] == ShaInsert(shas[1..], s) && shas == [shas[0]] + shas[1..];
    } else {
      assert ([s] + shas)[1..] == shas;
    }
  }

  /** A content that the CRC did not have yet. */
  lemma NewShaSpeaks(d: De, held: seq<Leaf>, h: Leaf -> int, r: Leaf)
    requires d.Fict? && GoodDe(d, r.crc) && Speaks(d, held, h, r.crc) && !HasHash(d.shas, h(r))
    ensures Speaks(NewSha(d, h(r), r), held + [r], h, r.crc)
  {
    hide DistinctOf, ShaInsert, ShaSpeaks, GoodSha, ShaLens, HasHash;
    var s, all, shas := Sha(h(r), r, 1, r.len), held + [r], NewSha(d, h(r), r).shas;
    assert forall l <- held | l.crc == r.crc :: h(l) != h(r);
    assert !(exists k <- held :: Same(h, k, r));
    AsMore(held, h, r, r.crc, h(r));
    LensInsert(d.shas, s);
    forall x <- shas
      ensures ShaSpeaks(x, all, h, r.crc)
    {
      if x == s {
        NewSpeaks(s, held, h, r);
      } else {
        HashIn(d.shas, x);
        ShaStill(x, held, h, r, r.crc);
      }
    }
    forall l <- all | l.crc == r.crc
      ensures HasHash(shas, h(l))
    {
      if l in held {
        HashKept(d.shas, shas, h(l));
      } else {
        HashIn(shas, s);
      }
    }
  }

  lemma NewSpeaks(s: Sha, held: seq<Leaf>, h: Leaf -> int, r: Leaf)
    requires s == Sha(h(r), r, 1, r.len) && forall l <- held | l.crc == r.crc :: h(l) != h(r)
    ensures ShaSpeaks(s, held + [r], h, r.crc)
  {
    hide CountAs;
    AsMore(held, h, r, r.crc, h(r));
    AbsentAs(held, h, r.crc, h(r));
  }

  lemma HashKept(shas: seq<Sha>, shas': seq<Sha>, x: int)
    requires HasHash(shas, x) && forall s <- shas :: s in shas'
    ensures HasHash(shas', x)
  {
    var i :| 0 <= i < |shas| && shas[i].hash == x;
    assert shas[i] in shas';
    HashIn(shas', shas[i]);
  }

  lemma HashIn(shas: seq<Sha>, s: Sha)
    requires s in shas
    ensures HasHash(shas, s.hash)
  {
    var i :| 0 <= i < |shas| && shas[i] == s;
    assert shas[i].hash == s.hash;
  }

  lemma {:induction false} AbsentAs(held: seq<Leaf>, h: Leaf -> int, c: nat, x: int)
    requires forall l <- held | l.crc == c :: h(l) != x
    ensures CountAs(held, h, c, x) == 0
  {
    if held != [] {
      AbsentAs(held[..|held| - 1], h, c, x);
    }
  }

  /** A plain entry that goes by SHA from now on speaks for the same records. */
  lemma FictSpeaks(d: De, held: seq<Leaf>, h: Leaf -> int, c: nat)
    requires d.Plain? && Speaks(d, held, h, c) && GoodDe(d, c)
    ensures Speaks(ToFict(d, h(d.leaf)), held, h, c)
  {
    hide CountAs, DistinctOf;
    var shas := ToFict(d, h(d.leaf)).shas;
    assert shas[1..] == [];
    assert ShaLens(shas) == shas[0].leaf.len + ShaLens([]);
    assert ShaSpeaks(shas[0], held, h, c);
    HashIn(shas, shas[0]);
  }

  lemma ToldSame(tree: map<nat, De>, held: seq<Leaf>, h: Leaf -> int, c: nat, d: De)
    requires Told(tree, held, h) && Kept(tree[c := d], held) && Speaks(d, held, h, c)
    ensures Told(tree[c := d], held, h)
  {
    hide Speaks, StandsFor;
  }

  // ----- what becomes of a record -----

  ghost predicate ToldAfter(o: Offered, held: seq<Leaf>, h: Leaf -> int, r: Leaf) {
    Told(o.ix.tree, if o.fate == Indexed then held + [r] else held, h)
  }

  /** An honest answer keeps the index honest. */
  lemma OfferTold(ix: Ix, held: seq<Leaf>, h: Leaf -> int, r: Leaf, pass2: bool, io: Io)
    requires Told(ix.tree, held, h) && Contents(h) && Honest(h, ix, r, io) && r.crc < CRCS
    ensures ToldAfter(Offer(ix, r, pass2, io), held, h, r)
  {
    hide Kept, Speaks, Contents, OfferFict, OfferPlain;
    OfferKeeps(ix, held, r, pass2, io);
    if r.crc !in ix.tree {
      FirstSpeaks(ix.tree, held, h, r);
      ToldMore(ix.tree, held, h, r, Plain(r, 1, r.len));
    } else if ix.tree[r.crc].Fict? {
      FictTold(ix, held, h, r, pass2, io);
    } else {
      PlainTold(ix, held, h, r, pass2, io);
    }
  }

  lemma ShaTold(ix: Ix, held: seq<Leaf>, h: Leaf -> int, r: Leaf, i: nat, pass2: bool, io: Io)
    requires Told(ix.tree, held, h) && r.crc in ix.tree && ix.tree[r.crc].Fict? && r.crc < CRCS
    requires i < |ix.tree[r.crc].shas| && h(r) == ix.tree[r.crc].shas[i].hash
    ensures ToldAfter(OfferSha(ix, r, i, h(r), pass2, io), held, h, r)
  {
    hide Kept, Speaks, MoreSha;
    var d := ix.tree[r.crc];
    var leaf := d.shas[i].leaf;
    GoodOf(ix.tree, held, r.crc);
    LeafOf(ix.tree, held, r.crc);
    SpeaksOf(ix.tree, held, h, r.crc);
    if SamePlace(leaf, r) {
      ShaMoreSpeaks(d, i, held, h, r, leaf);
      ShaMoreSpeaks(d, i, held, h, r, r);
      ShaMoreKept(ix, held, r, i, leaf);
      ShaMoreKept(ix, held, r, i, r);
      ToldMore(ix.tree, held, h, r, MoreSha(d, i, h(r), leaf, r.len));
      ToldMore(ix.tree, held, h, r, MoreSha(d, i, h(r), r, r.len));
    }
  }

  lemma SameBlock(h: Leaf -> int, d: De, held: seq<Leaf>, r: Leaf, i: nat)
    requires Contents(h) && d.Fict? && Speaks(d, held, h, r.crc) && i < |d.shas| && Matches(d.shas[i], r, None)
    ensures h(r) == d.shas[i].hash
  {
    hide CountAs, DistinctOf;
    assert ShaSpeaks(d.shas[i], held, h, r.crc);
  }

  lemma FictTold(ix: Ix, held: seq<Leaf>, h: Leaf -> int, r: Leaf, pass2: bool, io: Io)
    requires Told(ix.tree, held, h) && Contents(h) && Honest(h, ix, r, io) && r.crc in ix.tree && ix.tree[r.crc].Fict?
    requires r.crc < CRCS
    ensures ToldAfter(OfferFict(ix, r, pass2, io), held, h, r)
  {
    hide Kept, Speaks, Contents, OfferSha, NewSha;
    var d := ix.tree[r.crc];
    GoodOf(ix.tree, held, r.crc);
    SpeaksOf(ix.tree, held, h, r.crc);
    var same := FindSha(d.shas, r, None, 0);
    if same.Some? {
      SameBlock(h, d, held, r, same.value);
      ShaTold(ix, held, h, r, same.value, pass2, io);
    } else if io.candidate.Some? {
      var hit := FindSha(d.shas, r, io.candidate, 0);
      if hit.Some? {
        ShaTold(ix, held, h, r, hit.value, pass2, io);
      } else {
        NewShaSpeaks(d, held, h, r);
        FictKeeps(ix, held, r, pass2, io);
        ToldMore(ix.tree, held, h, r, NewSha(d, h(r), r));
      }
    }
  }

  lemma CollideTold(ix: Ix, held: seq<Leaf>, h: Leaf -> int, r: Leaf, pass2: bool, io: Io)
    requires Told(ix.tree, held, h) && Honest(h, ix, r, io) && r.crc in ix.tree && ix.tree[r.crc].Plain? && r.crc < CRCS
    ensures ToldAfter(Collide(ix, r, pass2, io), held, h, r)
  {
    hide Kept, Speaks, NewSha;
    var d := ix.tree[r.crc];
    GoodOf(ix.tree, held, r.crc);
    SpeaksOf(ix.tree, held, h, r.crc);
    CollideKeeps(ix, held, r, pass2, io);
    if io.indexed.Some? {
      var fict := ToFict(d, h(d.leaf));
      FictSpeaks(d, held, h, r.crc);
      ToFictGood(d, h(d.leaf), r.crc);
      if io.candidate.Some? && io.candidate.value != io.indexed.value {
        NewShaSpeaks(fict, held, h, r);
        ToldMore(ix.tree, held, h, r, NewSha(fict, h(r), r));
      } else {
        ToldSame(ix.tree, held, h, r.crc, fict);
      }
    }
  }

  lemma PlainTold(ix: Ix, held: seq<Leaf>, h: Leaf -> int, r: Leaf, pass2: bool, io: Io)
    requires Told(ix.tree, held, h) && Contents(h) && Honest(h, ix, r, io) && r.crc in ix.tree && ix.tree[r.crc].Plain?
    requires r.crc < CRCS
    ensures ToldAfter(OfferPlain(ix, r, pass2, io), held, h, r)
  {
    hide Kept, Speaks, Collide, MorePlain;
    var d := ix.tree[r.crc];
    GoodOf(ix.tree, held, r.crc);
    LeafOf(ix.tree, held, r.crc);
    SpeaksOf(ix.tree, held, h, r.crc);
    CollideTold(ix, held, h, r, pass2, io);
    if SamePlace(d.leaf, r) && h(d.leaf) == h(r) {
      PlainSpeaks(d, held, h, r, d.leaf);
      PlainSpeaks(d, held, h, r, r);
      PlainMore(ix, held, r, d.leaf);
      PlainMore(ix, held, r, r);
      ToldMore(ix.tree, held, h, r, MorePlain(d, d.leaf, r.len));
      ToldMore(ix.tree, held, h, r, MorePlain(d, r, r.len));
    } else if SamePlace(d.leaf, r) {
      assert d.leaf.offset != r.offset;
    }
  }

  // ----- eviction -----

  lemma {:induction false} BelowAs(held: seq<Leaf>, h: Leaf -> int, e: nat, c: nat, x: int)
    requires c < e
    ensures CountAs(HeldBelow(held, e), h, c, x) == CountAs(held, h, c, x)
    ensures DistinctOf(HeldBelow(held, e), h, c) == DistinctOf(held, h, c)
  {
    if held != [] {
      var n := |held| - 1;
      var l, before := held[n], held[..n];
      var below := HeldBelow(before, e);
      BelowAs(before, h, e, c, x);
      if l.crc < e {
        AsMore(below, h, l, c, x);
        SameBelowToo(before, h, e, l);
      } else {
        assert HeldBelow(held, e) == below;
      }
    }
  }

  lemma SameBelowToo(held: seq<Leaf>, h: Leaf -> int, e: nat, l: Leaf)
    requires l.crc < e
    ensures (exists k <- HeldBelow(held, e) :: Same(h, k, l)) <==> exists k <- held :: Same(h, k, l)
  {
    hide HeldBelow;
    if k :| k in held && Same(h, k, l) {
      HeldMember(held, e, k);
    }
    if k :| k in HeldBelow(held, e) && Same(h, k, l) {
      HeldMember(held, e, k);
    }
  }

  lemma BelowSpeaks(d: De, held: seq<Leaf>, h: Leaf -> int, e: nat, c: nat)
    requires c < e && GoodDe(d, c) && Speaks(d, held, h, c)
    ensures Speaks(d, HeldBelow(held, e), h, c)
  {
    hide CountAs, DistinctOf, HeldBelow, GoodSha;
    BelowAs(held, h, e, c, 0);
    forall l: Leaf
      ensures l in HeldBelow(held, e) <==> l in held && l.crc < e
    {
      HeldMember(held, e, l);
    }
    match d
    case Plain(leaf, _, _) =>
      BelowAs(held, h, e, c, h(leaf));
    case Fict(_, shas) =>
      forall i | 0 <= i < |shas|
        ensures ShaSpeaks(shas[i], HeldBelow(held, e), h, c)
      {
        BelowAs(held, h, e, c, shas[i].hash);
      }
  }

  lemma BelowTold(tree: map<nat, De>, held: seq<Leaf>, h: Leaf -> int, e: nat)
    requires Told(tree, held, h)
    ensures Told(Below(tree, e), HeldBelow(held, e), h)
  {
    hide Speaks, StandsFor, HeldBelow;
    KeptBelow(tree, held, e);
    forall c | c in Below(tree, e)
      ensures Speaks(tree[c], HeldBelow(held, e), h, c)
    {
      SpeaksOf(tree, held, h, c);
      GoodOf(tree, held, c);
      BelowSpeaks(tree[c], held, h, e, c);
    }
  }

  // ----- a pass -----

  /** The record is answered for honestly where it is offered. */
  ghost predicate HonestAt(m: Memory, h: Leaf -> int, p: Pass, r: Leaf, io: Io) {
    Evict(m, p).Some? ==> Honest(h, Evict(m, p).value.ix, r, io)
  }

  ghost predicate HonestScan(m: Memory, h: Leaf -> int, p: Pass, rs: seq<Leaf>, io: nat -> Io, i: nat)
    requires i <= |rs|
  {
    forall j: nat | j < i ::
      var s := After(m, p, rs, io, j); s.At? && !Skips(s.p, rs[j]) ==> HonestAt(m, h, s.p, rs[j], io(j))
  }

  ghost predicate HonestAgain(m: Memory, h: Leaf -> int, p: Pass, q: seq<Leaf>, io: nat -> Io, i: nat)
    requires i <= |q|
  {
    forall j: nat | j < i :: var s := Again(m, p, q, io, j); s.At? ==> HonestAt(m, h, s.p, q[j], io(j))
  }

  /** One record, in the scan or in pass 2. */
  lemma BookedTold(m: Memory, h: Leaf -> int, p: Pass, led: Ledger, base: Totals, read: multiset<Leaf>, r: Leaf, pass2: bool,
                   io: Io)
    requires Right(p, led, base, read) && !Closes(m, p) && Told(p.ix.tree, led.held, h) && Contents(h) && r.crc < CRCS
    requires HonestAt(m, h, p, r, io)
    ensures Evict(m, p).Some?
    ensures var o := Offer(Evict(m, p).value.ix, r, pass2, io);
            o.fate != Exit ==> Told(o.ix.tree, Booked(m, p, led, r, pass2, io).held, h)
  {
    hide Right, Offer, HeldBelow, SumMem, EvictN, Told, Contents;
    EvictRight(m, p, led, base, read);
    AboveOf(p, led, base, read);
    EvictAbove(m, p);
    var q := Evict(m, p).value;
    if Use(m, p.ix.tree) > m.limit {
      BelowTold(p.ix.tree, led.held, h, q.end);
    }
    var held := if Use(m, p.ix.tree) <= m.limit then led.held else HeldBelow(led.held, q.end);
    OfferTold(q.ix, held, h, r, pass2, io);
  }

  lemma TryTold(m: Memory, h: Leaf -> int, p: Pass, led: Ledger, base: Totals, read: multiset<Leaf>, r: Leaf, io: Io)
    requires Right(p, led, base, read) && !Closes(m, p) && Told(p.ix.tree, led.held, h) && Contents(h) && r.crc < CRCS
    requires HonestAt(m, h, p, r, io)
    ensures var s := StepAgain(m, At(p), r, io);
            s.At? ==> Told(s.p.ix.tree, Booked(m, p, led, r, true, io).held, h)
  {
    hide Right, Booked, Closes, Told, Evict, Offer, HonestAt, Contents;
    BookedTold(m, h, p, led, base, read, r, true, io);
  }

  lemma AboveOf(p: Pass, led: Ledger, base: Totals, read: multiset<Leaf>)
    requires Right(p, led, base, read)
    ensures Above(p)
  {
  }

  lemma {:induction false} ScanTold(m: Memory, h: Leaf -> int, p: Pass, rs: seq<Leaf>, io: nat -> Io, i: nat)
    requires p.start < CRCS && p.end == 0 && p.ix.tree == map[] && p.ix.queue == [] && (forall r <- rs :: r.crc < CRCS)
    requires i <= |rs| && ScanOpen(m, p, rs, io, i) && HonestScan(m, h, p, rs, io, i) && Contents(h)
    ensures var s := After(m, p, rs, io, i); s.At? ==> Told(s.p.ix.tree, LedgerAfter(m, p, rs, io, i).held, h)
  {
    hide Right, Booked, Skips, Closes, Told, Evict, Offer, HonestAt, Contents;
    if i == 0 {
      NothingTold(h);
    } else {
      ScanTold(m, h, p, rs, io, i - 1);
      ScanRight(m, p, rs, io, i - 1);
      var s, led, r := After(m, p, rs, io, i - 1), LedgerAfter(m, p, rs, io, i - 1), rs[i - 1];
      if s.At? && !Skips(s.p, r) {
        assert !Closes(m, s.p) && HonestAt(m, h, s.p, r, io(i - 1));
        BookedTold(m, h, s.p, led, p.ix.totals, multiset(rs[..i - 1]), r, false, io(i - 1));
      }
    }
  }

  lemma NothingTold(h: Leaf -> int)
    ensures Told(map[], [], h)
  {
  }

  lemma {:induction false} AgainTold(m: Memory, h: Leaf -> int, p: Pass, led: Ledger, base: Totals, read: multiset<Leaf>,
                                     io: nat -> Io, i: nat)
    requires Right(p, led, base, read) && Told(p.ix.tree, led.held, h) && Contents(h)
    requires i <= |p.ix.queue| && AgainOpen(m, p, p.ix.queue, io, i) && HonestAgain(m, h, p, p.ix.queue, io, i)
    ensures var s := Again(m, p, p.ix.queue, io, i);
            s.At? ==> Told(s.p.ix.tree, LedgerAgain(m, p, led, p.ix.queue, io, i).held, h)
  {
    hide Right, Booked, Closes, Told, StepAgain, HonestAt, Contents;
    var q := p.ix.queue;
    if i > 0 {
      AgainTold(m, h, p, led, base, read, io, i - 1);
      AgainRight(m, p, led, base, read, q, io, i - 1);
      var s := Again(m, p, q, io, i - 1);
      if s.At? {
        assert !Closes(m, s.p) && HonestAt(m, h, s.p, q[i - 1], io(i - 1));
        QueueCrc(p, led, base, read, i - 1);
        TryTold(m, h, s.p, LedgerAgain(m, p, led, q, io, i - 1), base, read, q[i - 1], io(i - 1));
      } else {
        StuckAgain(m, s, q[i - 1], io(i - 1));
      }
    }
  }

  lemma QueueCrc(p: Pass, led: Ledger, base: Totals, read: multiset<Leaf>, i: nat)
    requires Right(p, led, base, read) && i < |p.ix.queue|
    ensures p.ix.queue[i].crc < CRCS
  {
    assert p.ix.queue[i] in p.ix.queue;
  }

  // ----- the allocated bytes -----

  function SumDistinct(held: seq<Leaf>, h: Leaf -> int, n: nat): nat {
    if n == 0 then 0 else SumDistinct(held, h, n - 1) + DistinctOf(held, h, n - 1)
  }

  lemma {:induction false} SumDistinctMore(held: seq<Leaf>, h: Leaf -> int, r: Leaf, n: nat)
    ensures SumDistinct(held + [r], h, n) ==
            SumDistinct(held, h, n) + if r.crc < n && !(exists k <- held :: Same(h, k, r)) then r.len else 0
  {
    hide DistinctOf;
    if n > 0 {
      SumDistinctMore(held, h, r, n - 1);
      AsMore(held, h, r, n - 1, 0);
    }
  }

  lemma {:induction false} SumDistinctNone(h: Leaf -> int, n: nat)
    ensures SumDistinct([], h, n) == 0
  {
    if n > 0 {
      SumDistinctNone(h, n - 1);
    }
  }

  lemma {:induction false} SumDistinctAll(held: seq<Leaf>, h: Leaf -> int, n: nat)
    requires forall l <- held :: l.crc < n
    ensures SumDistinct(held, h, n) == DistinctBytes(held, h)
    decreases |held|
  {
    if held == [] {
      SumDistinctNone(h, n);
    } else {
      var l, before := held[|held| - 1], held[..|held| - 1];
      assert held == before + [l];
      SumDistinctAll(before, h, n);
      SumDistinctMore(before, h, l, n);
    }
  }

  lemma {:induction false} LensAreDistinct(tree: map<nat, De>, held: seq<Leaf>, h: Leaf -> int, n: nat)
    requires Told(tree, held, h)
    ensures SumLens(tree, n) == SumDistinct(held, h, n)
    decreases n
  {
    hide StandsFor, Lens, DistinctOf;
    if n > 0 {
      LensAreDistinct(tree, held, h, n - 1);
      if n - 1 in tree {
        SpeaksOf(tree, held, h, n - 1);
      } else {
        NoneAs(held, h, n - 1, 0);
      }
    }
  }

  /** The contents of the records in the index. */
  lemma StoredBytes(tree: map<nat, De>, held: seq<Leaf>, h: Leaf -> int)
    requires Told(tree, held, h)
    ensures SumLens(tree, CRCS) == DistinctBytes(held, h)
  {
    hide SumLens, DistinctBytes, SumDistinct, Speaks, StandsFor;
    LensAreDistinct(tree, held, h, CRCS);
    assert forall l <- held :: l.crc in tree;
    SumDistinctAll(held, h, CRCS);
  }

  ghost predicate HonestPass(m: Memory, h: Leaf -> int, start: nat, ix: Ix, rs: seq<Leaf>, a: Answer) {
    HonestScan(m, h, Pass(start, 0, ix), rs, a.scan, |rs|) &&
    var s := Scanned(m, start, ix, rs, a);
    s.At? ==> HonestAgain(m, h, s.p, s.p.ix.queue, a.again, |s.p.ix.queue|)
  }

  /** What an honest pass allocates: each content of the records it indexed once, and
      what it gave up. */
  lemma PassStores(m: Memory, h: Leaf -> int, start: nat, ix: Ix, rs: seq<Leaf>, a: Answer)
    requires start < CRCS && ix.tree == map[] && ix.queue == [] && (forall r <- rs :: r.crc < CRCS)
    requires PassOpen(m, start, ix, rs, a) && HonestPass(m, h, start, ix, rs, a) && Contents(h)
    ensures var s, led := OnePass(m, start, ix, rs, a), PassLedger(m, start, ix, rs, a);
            s.At? ==>
              s.p.ix.totals.allocSize == ix.totals.allocSize + DistinctBytes(led.held, h) + QueueBytes(led.early)
  {
    hide Right, After, Again, LedgerAfter, LedgerAgain, ScanOpen, AgainOpen, SumBytes, SumLens, Told, Contents, HonestScan,
      HonestAgain, DistinctBytes, QueueBytes;
    var p0 := Pass(start, 0, ix);
    ScanRight(m, p0, rs, a.scan, |rs|);
    ScanTold(m, h, p0, rs, a.scan, |rs|);
    assert rs[..|rs|] == rs;
    var s, led := Scanned(m, start, ix, rs, a), LedgerAfter(m, p0, rs, a.scan, |rs|);
    if s.At? {
      var q := s.p.ix.queue;
      AgainRight(m, s.p, led, ix.totals, multiset(rs), q, a.again, |q|);
      AgainTold(m, h, s.p, led, ix.totals, multiset(rs), a.again, |q|);
      var e := Again(m, s.p, q, a.again, |q|);
      if e.At? {
        StoredBytes(e.p.ix.tree, PassLedger(m, start, ix, rs, a).held, h);
        GivenOf(e.p, PassLedger(m, start, ix, rs, a), ix.totals, multiset(rs));
      }
    }
  }

  lemma GivenOf(p: Pass, led: Ledger, base: Totals, read: multiset<Leaf>)
    requires Right(p, led, base, read)
    ensures Given(p.ix.totals, base, led.early)
  {
    hide QueueBytes, Kept;
  }

  // ----- a run -----

  /** What the passes of a run allocate. */
  ghost function Stored(m: Memory, h: Leaf -> int, rs: seq<Leaf>, a: nat -> Answer, k: nat): nat {
    if k == 0 then 0
    else
      Stored(m, h, rs, a, k - 1) +
      match Runs(m, rs, a, k - 1)
      case Going(start, ix) =>
        var led := PassLedger(m, start, ix, rs, a(k - 1));
        DistinctBytes(led.held, h) + QueueBytes(led.early)
      case _ => 0
  }

  ghost predicate HonestRun(m: Memory, h: Leaf -> int, rs: seq<Leaf>, a: nat -> Answer, k: nat) {
    forall j: nat | j < k :: var s := Runs(m, rs, a, j); s.Going? ==> HonestPass(m, h, s.start, s.ix, rs, a(j))
  }

  ghost predicate AllocIs(s: Run, x: nat) {
    match s
    case Going(_, ix) => ix.totals.allocSize == x
    case Finished(ix) => ix.totals.allocSize == x
    case _ => true
  }

  /** The allocated bytes of a run that never closes its range. */
  lemma {:induction false} RunStores(m: Memory, h: Leaf -> int, rs: seq<Leaf>, a: nat -> Answer, k: nat)
    requires (forall r <- rs :: r.crc < CRCS) && RunOpen(m, rs, a, k) && HonestRun(m, h, rs, a, k) && Contents(h)
    ensures AllocIs(Runs(m, rs, a, k), Stored(m, h, rs, a, k))
  {
    hide PassOpen, OnePass, PassLedger, RunRight, QueueBytes, DistinctBytes, HonestPass, Contents, Runs, Counted, Repeats;
    if k == 0 {
      assert AllocIs(Going(0, NOTHING), 0);
      RunsFirst(m, rs, a);
    } else {
      RunStores(m, h, rs, a, k - 1);
      RunKeeps(m, rs, a, k - 1);
      var s := Runs(m, rs, a, k - 1);
      if s.Going? {
        assert PassOpen(m, s.start, s.ix, rs, a(k - 1)) && HonestPass(m, h, s.start, s.ix, rs, a(k - 1));
        GoingReady(rs, s, k - 1, Counted(m, rs, a, k - 1), Repeats(m, rs, a, k - 1));
        PassStores(m, h, s.start, s.ix, rs, a(k - 1));
      }
      RunsNext(m, rs, a, k);
    }
  }

  lemma RunsFirst(m: Memory, rs: seq<Leaf>, a: nat -> Answer)
    ensures Runs(m, rs, a, 0) == Going(0, NOTHING)
  {
  }

  lemma RunsNext(m: Memory, rs: seq<Leaf>, a: nat -> Answer, k: nat)
    requires k > 0
    ensures var s, s' := Runs(m, rs, a, k - 1), Runs(m, rs, a, k);
            if !s.Going? then s' == s
            else
              var e := OnePass(m, s.start, s.ix, rs, a(k - 1));
              if e.At? then s' == if e.p.end == 0 then Finished(e.p.ix) else Going(e.p.end, e.p.ix)
              else !s'.Going? && !s'.Finished?
  {
    hide OnePass;
  }

  // ----- the ratio -----

  /** Every checksum is to be had, and exactly equal data is deduplicated. */
  ghost predicate Perfect(h: Leaf -> int, ix: Ix, r: Leaf, io: Io) {
    io.candidate == Some(h(r)) &&
    (r.crc in ix.tree ==>
       match ix.tree[r.crc]
       case Plain(leaf, _, _) =>
         io.indexed == Some(h(leaf)) && io.verdict == if h(leaf) == h(r) then Success else CmpFailure
       case Fict(_, _) => io.verdict == Success)
  }

  /** Equal contents have equal lengths and lie in one zone. */
  predicate Alike(h: Leaf -> int, rs: seq<Leaf>) {
    forall p <- rs, q <- rs | Same(h, p, q) :: SamePlace(p, q)
  }

  lemma PerfectIndexed(ix: Ix, held: seq<Leaf>, h: Leaf -> int, r: Leaf, io: Io)
    requires Told(ix.tree, held, h) && Contents(h) && Perfect(h, ix, r, io) && Alike(h, held + [r])
    ensures Offer(ix, r, false, io).fate == Indexed
  {
    hide StandsFor, CountAs, DistinctOf, Lens, MoreSha, MorePlain, NewSha, Contents;
    if r.crc in ix.tree {
      SpeaksOf(ix.tree, held, h, r.crc);
      GoodOf(ix.tree, held, r.crc);
      if ix.tree[r.crc].Fict? {
        PerfectFict(ix, held, h, r, io);
      } else {
        var leaf := ix.tree[r.crc].leaf;
        SameLeaf(h, leaf, r);
        assert leaf in held + [r] && r in held + [r];
      }
    }
  }

  lemma SameLeaf(h: Leaf -> int, p: Leaf, q: Leaf)
    requires Contents(h)
    ensures p.offset == q.offset && p.len == q.len ==> h(p) == h(q)
  {
  }

  lemma PerfectFict(ix: Ix, held: seq<Leaf>, h: Leaf -> int, r: Leaf, io: Io)
    requires r.crc in ix.tree && ix.tree[r.crc].Fict? && Speaks(ix.tree[r.crc], held, h, r.crc)
    requires Contents(h) && Perfect(h, ix, r, io) && Alike(h, held + [r])
    ensures OfferFict(ix, r, false, io).fate == Indexed
  {
    hide CountAs, DistinctOf, Lens, MoreSha, NewSha, Contents, SamePlace;
    var d := ix.tree[r.crc];
    forall i | 0 <= i < |d.shas| && d.shas[i].hash == h(r)
      ensures SamePlace(d.shas[i].leaf, r)
    {
      assert ShaSpeaks(d.shas[i], held, h, r.crc);
      assert Same(h, d.shas[i].leaf, r);
      assert d.shas[i].leaf in held + [r] && r in held + [r];
    }
    forall i | 0 <= i < |d.shas| && Matches(d.shas[i], r, None)
      ensures d.shas[i].hash == h(r)
    {
      SameBlock(h, d, held, r, i);
    }
  }

  ghost predicate PerfectScan(m: Memory, h: Leaf -> int, rs: seq<Leaf>, io: nat -> Io, i: nat)
    requires i <= |rs|
  {
    forall j: nat | j < i ::
      var s := After(m, Pass(0, 0, NOTHING), rs, io, j); s.At? ==> Perfect(h, s.p.ix, rs[j], io(j))
  }

  /** Everything read so far is in the index. */
  ghost predicate AllIn(s: Progress, h: Leaf -> int, rs: seq<Leaf>, i: nat)
    requires i <= |rs|
  {
    s.At? && s.p.start == 0 && s.p.end == 0 && s.p.ix.queue == [] && s.p.ix.totals.refSize == 0 &&
    s.p.ix.totals.allocSize == 0 && Told(s.p.ix.tree, rs[..i], h)
  }

  lemma AllInStep(m: Memory, p: Pass, h: Leaf -> int, rs: seq<Leaf>, i: nat, io: Io)
    requires i < |rs| && AllIn(At(p), h, rs, i) && rs[i].crc < CRCS && Use(m, p.ix.tree) <= m.limit
    requires Contents(h) && Perfect(h, p.ix, rs[i], io) && Alike(h, rs)
    ensures AllIn(Step(m, At(p), rs[i], io), h, rs, i + 1)
  {
    hide SumMem, Evict, Offer, Told, Contents;
    var r := rs[i];
    assert rs[..i + 1] == rs[..i] + [r];
    NoEvict(m, p, r, io);
    AlikeStart(h, rs, i);
    PerfectIndexed(p.ix, rs[..i], h, r, io);
    OfferTold(p.ix, rs[..i], h, r, false, io);
    ToldKept(p.ix.tree, rs[..i], h);
    OfferKeeps(p.ix, rs[..i], r, false, io);
  }

  lemma ToldKept(tree: map<nat, De>, held: seq<Leaf>, h: Leaf -> int)
    requires Told(tree, held, h)
    ensures Kept(tree, held)
  {
  }

  lemma AlikeStart(h: Leaf -> int, rs: seq<Leaf>, i: nat)
    requires i < |rs| && Alike(h, rs)
    ensures Alike(h, rs[..i] + [rs[i]])
  {
    assert forall p <- rs[..i] + [rs[i]] :: p in rs;
  }

  lemma {:induction false} AllInScan(m: Memory, h: Leaf -> int, rs: seq<Leaf>, io: nat -> Io, i: nat)
    requires (forall r <- rs :: r.crc < CRCS) && i <= |rs| && Roomy(m, rs) && Contents(h) && Alike(h, rs)
    requires PerfectScan(m, h, rs, io, i)
    ensures AllIn(After(m, Pass(0, 0, NOTHING), rs, io, i), h, rs, i)
  {
    hide Roomy, Step, Contents, Alike, Perfect, SumMem, AllIn, After;
    var p := Pass(0, 0, NOTHING);
    if i == 0 {
      NothingIn(m, h, rs, io);
    } else {
      AllInScan(m, h, rs, io, i - 1);
      AfterUnfolds(m, p, rs, io, i);
      var s := After(m, p, rs, io, i - 1);
      assert s.At? by {
        InIndex(s, h, rs, i - 1);
      }
      RoomyUse(m, rs, io, i - 1);
      AllInStep(m, s.p, h, rs, i - 1, io(i - 1));
    }
  }

  lemma InIndex(s: Progress, h: Leaf -> int, rs: seq<Leaf>, i: nat)
    requires i <= |rs| && AllIn(s, h, rs, i)
    ensures s.At?
  {
    hide Told;
  }

  lemma NothingIn(m: Memory, h: Leaf -> int, rs: seq<Leaf>, io: nat -> Io)
    ensures AllIn(After(m, Pass(0, 0, NOTHING), rs, io, 0), h, rs, 0)
  {
    hide Told;
    NothingTold(h);
  }

  lemma RoomyUse(m: Memory, rs: seq<Leaf>, io: nat -> Io, i: nat)
    requires (forall r <- rs :: r.crc < CRCS) && i < |rs| && Roomy(m, rs)
    ensures var s := After(m, Pass(0, 0, NOTHING), rs, io, i); s.At? ==> Use(m, s.p.ix.tree) <= m.limit
  {
    hide After, ScanOpen, LedgerAfter, Right, SumMem, Trying, SumLoad, CountOf;
    var p := Pass(0, 0, NOTHING);
    RoomyScan(m, NOTHING, rs, io, i);
    ScanRight(m, p, rs, io, i);
    var s := After(m, p, rs, io, i);
    if s.At? {
      ScanUnder(m, s.p, LedgerAfter(m, p, rs, io, i), NOTHING.totals, rs, i);
      PrefixCount(rs, i, |rs| - 1);
      SumLoadMono(m, rs[..i], rs[..|rs| - 1], CRCS);
    }
  }

  /** With enough memory and a perfect outside the reported ratio is the right one: the
      bytes of all records to the bytes of their contents. */
  lemma RatioIsRight(m: Memory, h: Leaf -> int, rs: seq<Leaf>, a: nat -> Answer)
    requires (forall r <- rs :: r.crc < CRCS) && Roomy(m, rs) && Contents(h) && Alike(h, rs)
    requires PerfectScan(m, h, rs, a(0).scan, |rs|)
    ensures var s := Runs(m, rs, a, 1);
            s.Finished? && s.ix.totals.refSize == QueueBytes(rs) && s.ix.totals.allocSize == DistinctBytes(rs, h)
  {
    hide Roomy, After, Told, Contents, Alike, PerfectScan, SumBytes, SumLens, QueueBytes, DistinctBytes;
    AllInScan(m, h, rs, a(0).scan, |rs|);
    assert rs[..|rs|] == rs;
    var s := Scanned(m, 0, NOTHING, rs, a(0));
    StoredBytes(s.p.ix.tree, rs, h);
    ToldKept(s.p.ix.tree, rs, h);
    IndexIsHeld(s.p.ix.tree, rs);
    AgainEmpty(m, s.p, a(0).again);
    assert Runs(m, rs, a, 0) == Going(0, NOTHING);
  }

  lemma AgainEmpty(m: Memory, p: Pass, io: nat -> Io)
    ensures Again(m, p, p.ix.queue, io, 0) == At(p)
  {
  }
}
