/** The dedup index: data records by CRC, records with colliding CRCs by SHA-256,
    under a memory limit, for every outcome of the comparisons and ioctls. */
module DedupIndex {
  import opened Common
  import opened CrcRange

  /** A data record: its CRC, data offset and length. */
  datatype Leaf = Leaf(crc: nat, offset: nat, len: nat)

  /** The zone is in the top four bits of the data offset. */
  function Zone(offset: nat): nat {
    offset / 1152921504606846976
  }

  datatype Sha = Sha(hash: int, leaf: Leaf, blks: nat, size: nat)

  /** An entry by CRC, or a fictitious one over its SHA entries, sorted by hash. */
  datatype De = Plain(leaf: Leaf, blks: nat, size: nat) | Fict(leaf: Leaf, shas: seq<Sha>)

  /** Bytes of a CRC entry and of a SHA entry, and the memory limit. */
  datatype Memory = Memory(de: nat, sha: nat, limit: nat)

  datatype Verdict = Success | TechFailure | CmpFailure | InvalidZone | Underflow | VersFailure

  /** What the outside answers: the dedup ioctl, and the checksum upgrades of the
      indexed record and of the candidate. */
  datatype Io = Io(verdict: Verdict, indexed: Option<int>, candidate: Option<int>)

  /** Where a record went, and 1 or 0 as the return value; or the run ended. */
  datatype Fate = Indexed | Queued | Early | Exit

  // ----- entries -----

  predicate GoodSha(s: Sha) {
    s.blks >= 1 && s.size == s.blks * s.leaf.len
  }

  predicate SortedShas(shas: seq<Sha>) {
    forall i, j | 0 <= i < j < |shas| :: shas[i].hash < shas[j].hash
  }

  predicate GoodDe(d: De, crc: nat) {
    d.leaf.crc == crc &&
    match d
    case Plain(leaf, blks, size) => blks >= 1 && size == blks * leaf.len
    case Fict(_, shas) =>
      shas != [] && SortedShas(shas) && forall i | 0 <= i < |shas| :: GoodSha(shas[i]) && shas[i].leaf.crc == crc
  }

  function ShaBytes(shas: seq<Sha>): nat {
    if shas == [] then 0 else shas[0].size + ShaBytes(shas[1..])
  }

  function Bytes(d: De): nat {
    if d.Plain? then d.size else ShaBytes(d.shas)
  }

  function MemOf(m: Memory, d: De): nat {
    m.de + if d.Plain? then 0 else m.sha * |d.shas|
  }

  /** Memory and bytes of the entries with CRCs below `n`. */
  function SumMem(m: Memory, tree: map<nat, De>, n: nat): nat {
    if n == 0 then 0 else SumMem(m, tree, n - 1) + if n - 1 in tree then MemOf(m, tree[n - 1]) else 0
  }

  function SumBytes(tree: map<nat, De>, n: nat): nat {
    if n == 0 then 0 else SumBytes(tree, n - 1) + if n - 1 in tree then Bytes(tree[n - 1]) else 0
  }

  lemma {:induction false} SumPut(m: Memory, tree: map<nat, De>, c: nat, d: De, n: nat)
    ensures var t := tree[c := d];
            SumMem(m, t, n) == SumMem(m, tree, n) +
              if c < n then MemOf(m, d) - (if c in tree then MemOf(m, tree[c]) else 0) else 0
    ensures var t := tree[c := d];
            SumBytes(t, n) == SumBytes(tree, n) +
              if c < n then Bytes(d) - (if c in tree then Bytes(tree[c]) else 0) else 0
  {
    if n > 0 {
      SumPut(m, tree, c, d, n - 1);
    }
  }

  lemma {:induction false} SumRemove(m: Memory, tree: map<nat, De>, c: nat, n: nat)
    requires c in tree
    ensures SumMem(m, tree - {c}, n) == SumMem(m, tree, n) - if c < n then MemOf(m, tree[c]) else 0
    ensures SumBytes(tree - {c}, n) == SumBytes(tree, n) - if c < n then Bytes(tree[c]) else 0
  {
    if n > 0 {
      SumRemove(m, tree, c, n - 1);
    }
  }

  lemma {:induction false} SumNone(m: Memory, tree: map<nat, De>, n: nat)
    requires tree.Keys == {}
    ensures SumMem(m, tree, n) == 0 && SumBytes(tree, n) == 0
  {
    if n > 0 {
      SumNone(m, tree, n - 1);
    }
  }

  // ----- SHA entries -----

  /** RB_INSERT() into the SHA tree. */
  function ShaInsert(shas: seq<Sha>, s: Sha): seq<Sha> {
    if shas == [] || s.hash < shas[0].hash then [s] + shas else [shas[0]] + ShaInsert(shas[1..], s)
  }

  lemma {:induction false} ShaInsertGood(shas: seq<Sha>, s: Sha, crc: nat)
    requires SortedShas(shas) && forall i | 0 <= i < |shas| :: GoodSha(shas[i]) && shas[i].leaf.crc == crc
    requires GoodSha(s) && s.leaf.crc == crc && forall i | 0 <= i < |shas| :: shas[i].hash != s.hash
    ensures var r := ShaInsert(shas, s);
            SortedShas(r) && |r| == |shas| + 1 && ShaBytes(r) == ShaBytes(shas) + s.size &&
            ShaBlks(r) == ShaBlks(shas) + s.blks &&
            (forall i | 0 <= i < |r| :: GoodSha(r[i]) && r[i].leaf.crc == crc && (r[i] == s || r[i] in shas))
  {
    if shas != [] && s.hash >= shas[0].hash {
      ShaInsertGood(shas[1..], s, crc);
      var r := ShaInsert(shas, s);
      assert r[1..] == ShaInsert(shas[1..], s);
      forall i | 0 < i < |r|
        ensures r[0].hash < r[i].hash && GoodSha(r[i]) && r[i].leaf.crc == crc && (r[i] == s || r[i] in shas)
      {
        assert r[i] == r[1..][i - 1];
      }
    } else {
      assert ([s] + shas)[1..] == shas;
    }
  }

  lemma {:induction false} ShaPut(shas: seq<Sha>, i: nat, s: Sha)
    requires i < |shas|
    ensures ShaBytes(shas[i := s]) == ShaBytes(shas) - shas[i].size + s.size
    ensures ShaBlks(shas[i := s]) == ShaBlks(shas) - shas[i].blks + s.blks
  {
    if i > 0 {
      assert shas[i := s][1..] == shas[1..][i - 1 := s];
      ShaPut(shas[1..], i - 1, s);
    } else {
      assert shas[i := s][1..] == shas[1..];
    }
  }

  /** One more reference, with the leaf that stands for the entry from now on. */
  lemma ShaMore(shas: seq<Sha>, i: nat, s: Sha, crc: nat)
    requires SortedShas(shas) && (forall k | 0 <= k < |shas| :: GoodSha(shas[k]) && shas[k].leaf.crc == crc)
    requires i < |shas| && s.hash == shas[i].hash && s.leaf.crc == crc && s.leaf.len == shas[i].leaf.len
    requires s.blks == shas[i].blks + 1 && s.size == shas[i].size + s.leaf.len
    ensures var r := shas[i := s];
            SortedShas(r) && (forall k | 0 <= k < |r| :: GoodSha(r[k]) && r[k].leaf.crc == crc) &&
            ShaBytes(r) == ShaBytes(shas) + s.leaf.len && ShaBlks(r) == ShaBlks(shas) + 1
  {
    ShaPut(shas, i, s);
    assert (shas[i].blks + 1) * s.leaf.len == shas[i].blks * s.leaf.len + s.leaf.len;
  }

  // ----- entries changed by a record -----

  /** The pair may be deduplicated: same zone and length. */
  predicate SamePlace(p: Leaf, q: Leaf) {
    Zone(p.offset) == Zone(q.offset) && p.len == q.len
  }

  /** `deduplicate`: nothing to do for the same block. */
  function Deduplicate(p: Leaf, q: Leaf, io: Io): Verdict {
    if p.offset == q.offset then Success else io.verdict
  }

  /** An entry that one more record of `len` bytes refers to, represented by `leaf` from now on. */
  function MorePlain(d: De, leaf: Leaf, len: nat): De
    requires d.Plain?
  {
    Plain(leaf, d.blks + 1, d.size + len)
  }

  lemma MorePlainGood(d: De, leaf: Leaf, len: nat, crc: nat)
    requires d.Plain? && GoodDe(d, crc) && leaf.crc == crc && leaf.len == len == d.leaf.len
    ensures var r := MorePlain(d, leaf, len);
            GoodDe(r, crc) && Bytes(r) == Bytes(d) + len && Blks(r) == Blks(d) + 1
  {
    assert (d.blks + 1) * leaf.len == d.blks * leaf.len + leaf.len;
  }

  /** The same for a SHA entry, whose hash is written along with the leaf. */
  function MoreSha(d: De, i: nat, hash: int, leaf: Leaf, len: nat): De
    requires d.Fict? && i < |d.shas|
  {
    var s := d.shas[i];
    d.(shas := d.shas[i := Sha(hash, leaf, s.blks + 1, s.size + len)])
  }

  lemma MoreShaGood(d: De, i: nat, hash: int, leaf: Leaf, len: nat, crc: nat)
    requires d.Fict? && GoodDe(d, crc) && i < |d.shas| && leaf.crc == crc && leaf.len == len == d.shas[i].leaf.len
    requires hash == d.shas[i].hash
    ensures var r := MoreSha(d, i, hash, leaf, len);
            GoodDe(r, crc) && Bytes(r) == Bytes(d) + len && Blks(r) == Blks(d) + 1 && |r.shas| == |d.shas|
  {
    ShaMore(d.shas, i, MoreSha(d, i, hash, leaf, len).shas[i], crc);
  }

  function NewSha(d: De, hash: int, leaf: Leaf): De
    requires d.Fict?
  {
    d.(shas := ShaInsert(d.shas, Sha(hash, leaf, 1, leaf.len)))
  }

  lemma NewShaGood(d: De, hash: int, leaf: Leaf, crc: nat)
    requires d.Fict? && GoodDe(d, crc) && leaf.crc == crc && forall i | 0 <= i < |d.shas| :: d.shas[i].hash != hash
    ensures var r := NewSha(d, hash, leaf);
            GoodDe(r, crc) && Bytes(r) == Bytes(d) + leaf.len && Blks(r) == Blks(d) + 1 && |r.shas| == |d.shas| + 1
  {
    ShaInsertGood(d.shas, Sha(hash, leaf, 1, leaf.len), crc);
  }

  /** A plain entry turned fictitious, its record and counts kept as a SHA entry. */
  function ToFict(d: De, hash: int): De
    requires d.Plain?
  {
    Fict(d.leaf, [Sha(hash, d.leaf, d.blks, d.size)])
  }

  lemma ToFictGood(d: De, hash: int, crc: nat)
    requires d.Plain? && GoodDe(d, crc)
    ensures var r := ToFict(d, hash);
            GoodDe(r, crc) && Bytes(r) == Bytes(d) && Blks(r) == Blks(d) && |r.shas| == 1 && r.shas[0].hash == hash
  {
    var shas := ToFict(d, hash).shas;
    assert shas[1..] == [];
    assert ShaBytes(shas) == shas[0].size + ShaBytes([]);
    assert ShaBlks(shas) == shas[0].blks + ShaBlks([]);
  }

  function QueueBytes(q: seq<Leaf>): nat {
    if q == [] then 0 else QueueBytes(q[..|q| - 1]) + q[|q| - 1].len
  }

  lemma QueueAdd(q: seq<Leaf>, l: Leaf)
    ensures QueueBytes(q + [l]) == QueueBytes(q) + l.len
  {
    assert (q + [l])[..|q|] == q;
  }

  // ----- what becomes of a record -----

  /** The running totals. */
  datatype Totals = Totals(refSize: nat, allocSize: nat, skipped: int, underflows: nat, crcFailures: nat, shaFailures: nat)

  /** The index, the records kept for pass 2, and the totals. */
  datatype Ix = Ix(tree: map<nat, De>, queue: seq<Leaf>, totals: Totals)

  datatype Offered = Offered(ix: Ix, fate: Fate)

  /** The two ways of not indexing a record: kept for pass 2, or given up. */
  function Defer(ix: Ix, r: Leaf, pass2: bool, retry: bool): Offered {
    var t := ix.totals;
    if retry && !pass2 then Offered(ix.(queue := ix.queue + [r], totals := t.(skipped := t.skipped + r.len)), Queued)
    else Offered(ix.(totals := t.(refSize := t.refSize + r.len, allocSize := t.allocSize + r.len)), Early)
  }

  function Put(ix: Ix, c: nat, d: De): Ix {
    ix.(tree := ix.tree[c := d])
  }

  function ShaFailed(ix: Ix): Ix {
    ix.(totals := ix.totals.(shaFailures := ix.totals.shaFailures + 1))
  }

  function CrcFailed(ix: Ix): Ix {
    ix.(totals := ix.totals.(crcFailures := ix.totals.crcFailures + 1))
  }

  function Underflowed(ix: Ix): Ix {
    ix.(totals := ix.totals.(underflows := ix.totals.underflows + 1))
  }

  predicate Matches(s: Sha, r: Leaf, hash: Option<int>) {
    if hash.None? then s.leaf.offset == r.offset && s.leaf.len == r.len else s.hash == hash.value
  }

  /** The first SHA entry for the same block, or with the hash. */
  function FindSha(shas: seq<Sha>, r: Leaf, hash: Option<int>, k: nat): (i: Option<nat>)
    requires k <= |shas|
    ensures i.Some? ==> k <= i.value < |shas| && Matches(shas[i.value], r, hash)
    ensures i.None? ==> forall j | k <= j < |shas| :: !Matches(shas[j], r, hash)
    decreases |shas| - k
  {
    if k == |shas| then None
    else if Matches(shas[k], r, hash) then Some(k)
    else FindSha(shas, r, hash, k + 1)
  }

  /** A record whose SHA, or very block, is in the index already; `hash` is its SHA,
      or the one it was spared. */
  function OfferSha(ix: Ix, r: Leaf, i: nat, hash: int, pass2: bool, io: Io): Offered
    requires r.crc in ix.tree && ix.tree[r.crc].Fict? && i < |ix.tree[r.crc].shas|
  {
    var d := ix.tree[r.crc];
    var leaf := d.shas[i].leaf;
    if !SamePlace(leaf, r) then Defer(ShaFailed(ix), r, pass2, false)
    else
      match Deduplicate(leaf, r, io)
      case Success => Offered(Put(ix, r.crc, MoreSha(d, i, d.shas[i].hash, leaf, r.len)), Indexed)
      case TechFailure => Defer(ix, r, pass2, true)
      case CmpFailure => Defer(ShaFailed(ix), r, pass2, false)
      case InvalidZone => Defer(ix, r, pass2, false)
      case Underflow => Offered(Put(Underflowed(ix), r.crc, MoreSha(d, i, hash, r, r.len)), Indexed)
      case VersFailure => Offered(ix, Exit)
  }

  /** The CRC is known to collide: everything goes by SHA. */
  function OfferFict(ix: Ix, r: Leaf, pass2: bool, io: Io): Offered
    requires r.crc in ix.tree && ix.tree[r.crc].Fict?
  {
    var d := ix.tree[r.crc];
    var same := FindSha(d.shas, r, None, 0);
    if same.Some? then OfferSha(ix, r, same.value, d.shas[same.value].hash, pass2, io)
    else if io.candidate.None? then Defer(ix, r, pass2, true)
    else
      var hit := FindSha(d.shas, r, io.candidate, 0);
      if hit.Some? then OfferSha(ix, r, hit.value, io.candidate.value, pass2, io)
      else Offered(Put(ix, r.crc, NewSha(d, io.candidate.value, r)), Indexed)
  }

  /** A CRC collision: both records go by SHA, as far as their checksums are to be had. */
  function Collide(ix: Ix, r: Leaf, pass2: bool, io: Io): Offered
    requires r.crc in ix.tree && ix.tree[r.crc].Plain?
  {
    var failed, d := CrcFailed(ix), ix.tree[r.crc];
    if io.indexed.None? then Defer(failed, r, pass2, true)
    else
      var fict := ToFict(d, io.indexed.value);
      if io.candidate.None? then Defer(Put(failed, r.crc, fict), r, pass2, true)
      else if io.candidate.value == io.indexed.value then Defer(ShaFailed(Put(failed, r.crc, fict)), r, pass2, false)
      else Offered(Put(failed, r.crc, NewSha(fict, io.candidate.value, r)), Indexed)
  }

  function OfferPlain(ix: Ix, r: Leaf, pass2: bool, io: Io): Offered
    requires r.crc in ix.tree && ix.tree[r.crc].Plain?
  {
    var d := ix.tree[r.crc];
    if !SamePlace(d.leaf, r) then Collide(ix, r, pass2, io)
    else
      match Deduplicate(d.leaf, r, io)
      case Success => Offered(Put(ix, r.crc, MorePlain(d, d.leaf, r.len)), Indexed)
      case TechFailure => Defer(ix, r, pass2, true)
      case CmpFailure => Collide(ix, r, pass2, io)
      case InvalidZone => Defer(ix, r, pass2, false)
      case Underflow => Offered(Put(Underflowed(ix), r.crc, MorePlain(d, r, r.len)), Indexed)
      case VersFailure => Offered(ix, Exit)
  }

  /** `process_btree_elm` once the memory is under its limit. */
  function Offer(ix: Ix, r: Leaf, pass2: bool, io: Io): Offered {
    if r.crc !in ix.tree then Offered(Put(ix, r.crc, Plain(r, 1, r.len)), Indexed)
    else if ix.tree[r.crc].Fict? then OfferFict(ix, r, pass2, io)
    else OfferPlain(ix, r, pass2, io)
  }

  // ----- the records behind the entries -----

  function ShaBlks(shas: seq<Sha>): nat {
    if shas == [] then 0 else shas[0].blks + ShaBlks(shas[1..])
  }

  function Blks(d: De): nat {
    if d.Plain? then d.blks else ShaBlks(d.shas)
  }

  /** The number of records with a CRC, and their bytes. */
  function CountOf(rs: seq<Leaf>, c: nat): nat {
    if rs == [] then 0 else CountOf(rs[..|rs| - 1], c) + if rs[|rs| - 1].crc == c then 1 else 0
  }

  function LenOf(rs: seq<Leaf>, c: nat): nat {
    if rs == [] then 0 else LenOf(rs[..|rs| - 1], c) + if rs[|rs| - 1].crc == c then rs[|rs| - 1].len else 0
  }

  lemma OfMore(rs: seq<Leaf>, r: Leaf, c: nat)
    ensures CountOf(rs + [r], c) == CountOf(rs, c) + if r.crc == c then 1 else 0
    ensures LenOf(rs + [r], c) == LenOf(rs, c) + if r.crc == c then r.len else 0
  {
    assert (rs + [r])[..|rs|] == rs;
  }

  /** An entry stands for the records of its CRC: as many, and as many bytes. */
  ghost predicate StandsFor(d: De, held: seq<Leaf>, c: nat) {
    GoodDe(d, c) && Blks(d) == CountOf(held, c) && Bytes(d) == LenOf(held, c)
  }

  /** The entries are those of the records held. */
  ghost predicate Kept(tree: map<nat, De>, held: seq<Leaf>) {
    (forall c | c in tree :: c < CRCS && StandsFor(tree[c], held, c)) && forall l <- held :: l.crc in tree
  }

  lemma {:induction false} NoneOf(held: seq<Leaf>, c: nat)
    requires forall l <- held :: l.crc != c
    ensures CountOf(held, c) == 0 && LenOf(held, c) == 0
  {
    if held != [] {
      NoneOf(held[..|held| - 1], c);
    }
  }

  /** One entry for one more record. */
  lemma KeptMore(tree: map<nat, De>, held: seq<Leaf>, r: Leaf, d: De)
    requires Kept(tree, held) && r.crc < CRCS && GoodDe(d, r.crc)
    requires Blks(d) == (if r.crc in tree then Blks(tree[r.crc]) else 0) + 1
    requires Bytes(d) == (if r.crc in tree then Bytes(tree[r.crc]) else 0) + r.len
    ensures Kept(tree[r.crc := d], held + [r])
  {
    hide GoodDe, Blks, Bytes, CountOf, LenOf;
    var tree', all := tree[r.crc := d], held + [r];
    if r.crc !in tree {
      NoneOf(held, r.crc);
    }
    forall c | c in tree'
      ensures c < CRCS && StandsFor(tree'[c], all, c)
    {
      OfMore(held, r, c);
      assert c in tree ==> StandsFor(tree[c], held, c);
    }
  }

  /** An entry rewritten for the same records. */
  lemma KeptSame(tree: map<nat, De>, held: seq<Leaf>, c: nat, d: De)
    requires Kept(tree, held) && c in tree && GoodDe(d, c) && Blks(d) == Blks(tree[c]) && Bytes(d) == Bytes(tree[c])
    ensures Kept(tree[c := d], held)
  {
    hide GoodDe, Blks, Bytes, CountOf, LenOf;
    assert StandsFor(tree[c], held, c);
  }

  /** What a record's fate means for the records held, queued and counted. */
  ghost predicate Fated(ix: Ix, held: seq<Leaf>, r: Leaf, pass2: bool, io: Io, o: Offered) {
    var t, t' := ix.totals, o.ix.totals;
    match o.fate
    case Indexed =>
      Kept(o.ix.tree, held + [r]) && o.ix.queue == ix.queue && t'.refSize == t.refSize && t'.allocSize == t.allocSize &&
      t'.skipped == t.skipped
    case Queued =>
      Kept(o.ix.tree, held) && !pass2 && o.ix.queue == ix.queue + [r] && t'.refSize == t.refSize &&
      t'.allocSize == t.allocSize && t'.skipped == t.skipped + r.len && !Answers(io)
    case Early =>
      Kept(o.ix.tree, held) && o.ix.queue == ix.queue && t'.refSize == t.refSize + r.len &&
      t'.allocSize == t.allocSize + r.len && t'.skipped == t.skipped
    case Exit => o.ix == ix && io.verdict == VersFailure
  }

  /** No technical failure, and every checksum is to be had. */
  predicate Answers(io: Io) {
    io.verdict != TechFailure && io.indexed.Some? && io.candidate.Some?
  }

  /** Every record ends up in the index, in the queue or in the totals, in one of
      them only, and the entries stay those of the records held. */
  lemma OfferKeeps(ix: Ix, held: seq<Leaf>, r: Leaf, pass2: bool, io: Io)
    requires Kept(ix.tree, held) && r.crc < CRCS
    ensures Fated(ix, held, r, pass2, io, Offer(ix, r, pass2, io))
  {
    hide Kept, OfferFict, OfferPlain;
    if r.crc !in ix.tree {
      FirstGood(r);
      KeptMore(ix.tree, held, r, Plain(r, 1, r.len));
    } else if ix.tree[r.crc].Fict? {
      FictKeeps(ix, held, r, pass2, io);
    } else {
      PlainKeeps(ix, held, r, pass2, io);
    }
  }

  /** Only the entry of the record's CRC is touched. */
  lemma OfferFrame(ix: Ix, r: Leaf, pass2: bool, io: Io)
    ensures var t := Offer(ix, r, pass2, io).ix.tree;
            t.Keys <= ix.tree.Keys + {r.crc} && ix.tree.Keys <= t.Keys &&
            forall c | c in t && c != r.crc :: t[c] == ix.tree[c]
  {
    hide MoreSha, MorePlain, NewSha, ToFict, FindSha, Deduplicate, SamePlace;
  }

  lemma DeferKeeps(ix: Ix, held: seq<Leaf>, r: Leaf, pass2: bool, retry: bool, io: Io)
    requires Kept(ix.tree, held) && (retry ==> !Answers(io))
    ensures Fated(ix, held, r, pass2, io, Defer(ix, r, pass2, retry))
  {
    hide Kept;
  }

  lemma EntryOf(tree: map<nat, De>, held: seq<Leaf>, c: nat)
    requires Kept(tree, held) && c in tree
    ensures StandsFor(tree[c], held, c)
  {
  }

  lemma ShaKeeps(ix: Ix, held: seq<Leaf>, r: Leaf, i: nat, hash: int, pass2: bool, io: Io)
    requires Kept(ix.tree, held) && r.crc in ix.tree && ix.tree[r.crc].Fict? && i < |ix.tree[r.crc].shas| &&
             r.crc < CRCS
    requires hash == ix.tree[r.crc].shas[i].hash
    ensures Fated(ix, held, r, pass2, io, OfferSha(ix, r, i, hash, pass2, io))
  {
    hide Kept, MoreSha;
    LeafOf(ix.tree, held, r.crc);
    var leaf := ix.tree[r.crc].shas[i].leaf;
    if SamePlace(leaf, r) {
      ShaMoreKept(ix, held, r, i, leaf);
      ShaMoreKept(ix, held, r, i, r);
    }
  }

  lemma FictKeeps(ix: Ix, held: seq<Leaf>, r: Leaf, pass2: bool, io: Io)
    requires Kept(ix.tree, held) && r.crc in ix.tree && ix.tree[r.crc].Fict? && r.crc < CRCS
    ensures Fated(ix, held, r, pass2, io, OfferFict(ix, r, pass2, io))
  {
    EntryOf(ix.tree, held, r.crc);
    hide Kept, CountOf, LenOf, OfferSha, GoodDe;
    var d := ix.tree[r.crc];
    var same := FindSha(d.shas, r, None, 0);
    if same.Some? {
      ShaKeeps(ix, held, r, same.value, d.shas[same.value].hash, pass2, io);
    } else if io.candidate.None? {
      DeferKeeps(ix, held, r, pass2, true, io);
    } else {
      var hit := FindSha(d.shas, r, io.candidate, 0);
      if hit.Some? {
        ShaKeeps(ix, held, r, hit.value, io.candidate.value, pass2, io);
      } else {
        NewShaGood(d, io.candidate.value, r, r.crc);
        KeptMore(ix.tree, held, r, NewSha(d, io.candidate.value, r));
      }
    }
  }

  lemma CollideKeeps(ix: Ix, held: seq<Leaf>, r: Leaf, pass2: bool, io: Io)
    requires Kept(ix.tree, held) && r.crc in ix.tree && ix.tree[r.crc].Plain? && r.crc < CRCS
    ensures Fated(ix, held, r, pass2, io, Collide(ix, r, pass2, io))
  {
    EntryOf(ix.tree, held, r.crc);
    hide Kept, CountOf, LenOf, GoodDe;
    var d := ix.tree[r.crc];
    if io.indexed.Some? {
      var fict := ToFict(d, io.indexed.value);
      ToFictGood(d, io.indexed.value, r.crc);
      KeptSame(ix.tree, held, r.crc, fict);
      if io.candidate.Some? && io.candidate.value != io.indexed.value {
        NewShaGood(fict, io.candidate.value, r, r.crc);
        KeptMore(ix.tree, held, r, NewSha(fict, io.candidate.value, r));
      }
    }
  }

  lemma PlainMore(ix: Ix, held: seq<Leaf>, r: Leaf, leaf: Leaf)
    requires Kept(ix.tree, held) && r.crc in ix.tree && ix.tree[r.crc].Plain? && r.crc < CRCS
    requires leaf.crc == r.crc && leaf.len == r.len == ix.tree[r.crc].leaf.len
    ensures Kept(Put(ix, r.crc, MorePlain(ix.tree[r.crc], leaf, r.len)).tree, held + [r])
  {
    hide Kept, CountOf, LenOf, Bytes, Blks, GoodDe;
    EntryOf(ix.tree, held, r.crc);
    var d := ix.tree[r.crc];
    MorePlainGood(d, leaf, r.len, r.crc);
    KeptMore(ix.tree, held, r, MorePlain(d, leaf, r.len));
  }

  lemma ShaMoreKept(ix: Ix, held: seq<Leaf>, r: Leaf, i: nat, leaf: Leaf)
    requires Kept(ix.tree, held) && r.crc in ix.tree && ix.tree[r.crc].Fict? && i < |ix.tree[r.crc].shas| &&
             r.crc < CRCS
    requires leaf.crc == r.crc && leaf.len == r.len == ix.tree[r.crc].shas[i].leaf.len
    ensures var d := ix.tree[r.crc]; Kept(Put(ix, r.crc, MoreSha(d, i, d.shas[i].hash, leaf, r.len)).tree, held + [r])
  {
    hide Kept, CountOf, LenOf, Bytes, Blks, GoodDe;
    EntryOf(ix.tree, held, r.crc);
    var d := ix.tree[r.crc];
    MoreShaGood(d, i, d.shas[i].hash, leaf, r.len, r.crc);
    KeptMore(ix.tree, held, r, MoreSha(d, i, d.shas[i].hash, leaf, r.len));
  }

  lemma LeafOf(tree: map<nat, De>, held: seq<Leaf>, c: nat)
    requires Kept(tree, held) && c in tree
    ensures tree[c].leaf.crc == c &&
            (tree[c].Fict? ==> forall i | 0 <= i < |tree[c].shas| :: tree[c].shas[i].leaf.crc == c)
  {
    hide CountOf, LenOf, Bytes, Blks;
    EntryOf(tree, held, c);
  }

  lemma PlainKeeps(ix: Ix, held: seq<Leaf>, r: Leaf, pass2: bool, io: Io)
    requires Kept(ix.tree, held) && r.crc in ix.tree && ix.tree[r.crc].Plain? && r.crc < CRCS
    ensures Fated(ix, held, r, pass2, io, OfferPlain(ix, r, pass2, io))
  {
    hide Kept, Collide, MorePlain;
    LeafOf(ix.tree, held, r.crc);
    CollideKeeps(ix, held, r, pass2, io);
    var d := ix.tree[r.crc];
    if SamePlace(d.leaf, r) {
      PlainMore(ix, held, r, d.leaf);
      PlainMore(ix, held, r, r);
    }
  }

  /** The memory of an entry is bounded by the number of its records. */
  lemma MemBound(m: Memory, d: De, held: seq<Leaf>, c: nat)
    requires StandsFor(d, held, c)
    ensures MemOf(m, d) <= m.de + m.sha * CountOf(held, c)
  {
    hide GoodDe, CountOf, LenOf, Bytes;
    ShasBound(d, c);
    Times(m.sha, if d.Fict? then |d.shas| else 0, CountOf(held, c));
  }

  lemma ShasBound(d: De, c: nat)
    requires GoodDe(d, c)
    ensures (if d.Fict? then |d.shas| else 0) <= Blks(d)
  {
    if d.Fict? {
      BlksBound(d.shas);
    }
  }

  lemma Times(x: nat, a: nat, b: nat)
    requires a <= b
    ensures 0 <= x * a <= x * b
  {
  }

  lemma {:induction false} BlksBound(shas: seq<Sha>)
    requires forall i | 0 <= i < |shas| :: GoodSha(shas[i])
    ensures |shas| <= ShaBlks(shas)
  {
    if shas != [] {
      BlksBound(shas[1..]);
    }
  }

  /** Bytes stored once for all references to them. */
  function ShaLens(shas: seq<Sha>): nat {
    if shas == [] then 0 else shas[0].leaf.len + ShaLens(shas[1..])
  }

  function Lens(d: De): nat {
    if d.Plain? then d.leaf.len else ShaLens(d.shas)
  }

  function SumLens(tree: map<nat, De>, n: nat): nat {
    if n == 0 then 0 else SumLens(tree, n - 1) + if n - 1 in tree then Lens(tree[n - 1]) else 0
  }

  lemma {:induction false} LensRemove(tree: map<nat, De>, c: nat, n: nat)
    requires c in tree
    ensures SumLens(tree - {c}, n) == SumLens(tree, n) - if c < n then Lens(tree[c]) else 0
  {
    if n > 0 {
      LensRemove(tree, c, n - 1);
    }
  }

  lemma {:induction false} LensNone(tree: map<nat, De>, n: nat)
    requires tree.Keys == {}
    ensures SumLens(tree, n) == 0
  {
    if n > 0 {
      LensNone(tree, n - 1);
    }
  }

  lemma ExactQuotient(blks: nat, len: nat)
    requires blks > 0
    ensures blks * len / blks == len
  {
    var q := QuotientOf(blks * len, blks);
    Cancel(len, q, blks);
    Cancel(q, len, blks);
  }

  lemma QuotientOf(x: nat, y: nat) returns (q: nat)
    requires y > 0
    ensures q == x / y && q * y <= x < q * y + y
  {
    q := x / y;
  }

  lemma Cancel(a: nat, b: nat, n: nat)
    requires n > 0 && a * n < b * n + n
    ensures a <= b
  {
    assert a > b ==> a * n >= (b + 1) * n;
  }

  lemma FirstGood(r: Leaf)
    ensures var d := Plain(r, 1, r.len); GoodDe(d, r.crc) && Bytes(d) == r.len && Blks(d) == 1
  {
  }

  lemma {:induction false} QueueDrop(q: seq<Leaf>)
    requires q != []
    ensures QueueBytes(q[1..]) == QueueBytes(q) - q[0].len
  {
    if |q| == 1 {
      assert q[..0] == [] && q[1..] == [];
    } else {
      var n := |q| - 1;
      QueueDrop(q[..n]);
      assert q[1..][..n - 1] == q[..n][1..];
    }
  }

}
