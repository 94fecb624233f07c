/** The HAMMER1 freemap: two layers of tables over big-blocks, each big-block
    owned by one zone, and the append-only allocator over them. */
module Freemap {

  const BUF: nat := 16384
  const BIG: nat := 8388608
  /** Layer-1 entries, and layer-2 entries under one of them. */
  const RADIX1: nat := 262144
  const RADIX2: nat := 524288
  /** Big-blocks in the 60-bit address space. */
  const NBLOCKS: nat := 137438953472

  const UNDO: nat := 3
  const FREEMAP: nat := 4
  const BTREE: nat := 8
  const UNAVAIL: nat := 15

  /** A 60-bit offset: the number of its big-block (layer-1 and layer-2 index
      together) and the byte offset in it. */
  datatype Pos = Pos(block: nat, off: nat)

  datatype Layer1 = Layer1(phys: nat, blocksFree: int)

  datatype Layer2 = Layer2(zone: nat, appendOff: nat, bytesFree: int)

  /** Layer 1 by layer-1 index (absent: unavailable), layer 2 by big-block
      number, the free big-block total and each zone's next offset. */
  datatype State = State(layer1: map<nat, Layer1>, layer2: map<nat, Layer2>, free: int, next: map<nat, Pos>)

  datatype Extent = Extent(zone: nat, at: Pos, len: nat)

  /** Zones `alloc_blockmap` is called for. */
  predicate RecordZone(z: nat) {
    BTREE <= z < UNAVAIL
  }

  /** The layer-1 index of a big-block. */
  function Row(b: nat): nat {
    b / RADIX2
  }

  function DataAlign(bytes: nat): nat {
    (bytes + 15) / 16 * 16
  }

  /** Offset `off` of big-block `b`; the end of a big-block is the start of the next. */
  function Norm(b: nat, off: nat): Pos {
    if off == BIG then Pos(b + 1, 0) else Pos(b, off)
  }

  /** Where in its big-block an allocation goes: on to the next buffer if it
      would cross into it. */
  function Skip(off: nat, bytes: nat): nat
    requires bytes > 0
  {
    var last := off + bytes - 1;
    if off / BUF != last / BUF then last / BUF * BUF else off
  }

  // ----- the allocator on values -----

  datatype Attempt = Done(st: State, at: Pos) | Again(st: State) | NoSpace | Stop

  /** One pass of the retry loop; a failed assert is `Stop`. */
  function Try(st: State, zone: nat, bytes: nat): (r: Attempt)
    requires zone in st.next && 0 < bytes <= BUF
  {
    var next := st.next[zone];
    if next.block >= NBLOCKS then Stop
    else
      var at := Norm(next.block, Skip(next.off, bytes));
      var b := at.block;
      if Row(b) !in st.layer1 || b !in st.layer2 then Stop
      else if at.off == 0 && st.layer1[Row(b)].blocksFree == 0 then Stop
      else if st.layer2[b].zone == UNAVAIL then NoSpace
      else if st.layer2[b].zone == 0 && (st.layer2[b].bytesFree != BIG || st.layer2[b].appendOff != 0) then Stop
      else
        var mine := Claim(st, b, zone);
        if mine.layer2[b].zone != zone then Again(mine.(next := st.next[zone := Pos(b + 1, 0)]))
        else if mine.layer2[b].appendOff != at.off then Stop
        else Done(Append(mine, zone, at, bytes), at)
  }

  /** Takes a free big-block for the zone; an owned one stays as it is. */
  function Claim(st: State, b: nat, zone: nat): (r: State)
    requires b in st.layer2 && Row(b) in st.layer1
    ensures b in r.layer2 && r.layer2.Keys == st.layer2.Keys && r.next == st.next
  {
    if st.layer2[b].zone != 0 then st
    else
      var l1 := st.layer1[Row(b)];
      st.(layer1 := st.layer1[Row(b) := l1.(blocksFree := l1.blocksFree - 1)],
          layer2 := st.layer2[b := st.layer2[b].(zone := zone)],
          free := st.free - 1)
  }

  /** The append offset is the next offset masked, so a full big-block has 0. */
  function Append(st: State, zone: nat, at: Pos, bytes: nat): State
    requires at.block in st.layer2
  {
    var l2 := st.layer2[at.block];
    var next := Norm(at.block, at.off + bytes);
    st.(layer2 := st.layer2[at.block := l2.(appendOff := next.off, bytesFree := l2.bytesFree - bytes)],
        next := st.next[zone := next])
  }

  /** `alloc_blockmap` from its label on. */
  function Alloc(st: State, zone: nat, bytes: nat): (r: Attempt)
    requires zone in st.next && 0 < bytes <= BUF
    ensures !r.Again?
    decreases NBLOCKS + 1 - st.next[zone].block
  {
    match Try(st, zone, bytes)
    case Again(st') => Alloc(st', zone, bytes)
    case other => other
  }

  // ----- what every step keeps -----

  function CountFree(layer2: map<nat, Layer2>, lo: nat, hi: nat): (n: nat)
    requires lo <= hi
    decreases hi - lo
  {
    if lo == hi then 0
    else CountFree(layer2, lo, hi - 1) + if hi - 1 in layer2 && layer2[hi - 1].zone == 0 then 1 else 0
  }

  /** Bytes of big-block `b` that the extents cover. */
  function Used(es: seq<Extent>, b: nat): nat {
    if es == [] then 0
    else Used(es[..|es| - 1], b) + if es[|es| - 1].at.block == b then es[|es| - 1].len else 0
  }

  /** Layer 2 covers exactly what layer 1 has, free big-blocks are untouched and
      the last big-block of the address space is never available. */
  ghost predicate Tables(st: State) {
    (forall b | b in st.layer2 :: b < NBLOCKS && Row(b) in st.layer1) &&
    (forall b: nat | Row(b) in st.layer1 :: b in st.layer2) &&
    (forall b | b in st.layer2 && st.layer2[b].zone == 0 ::
       st.layer2[b].appendOff == 0 && st.layer2[b].bytesFree == BIG) &&
    (NBLOCKS - 1 in st.layer2 ==> st.layer2[NBLOCKS - 1].zone == UNAVAIL)
  }

  /** Each layer-1 count and the total are the numbers of zone-0 entries. */
  ghost predicate Counts(st: State) {
    (forall i | i in st.layer1 ::
       st.layer1[i].blocksFree == CountFree(st.layer2, i * RADIX2, i * RADIX2 + RADIX2)) &&
    st.free == CountFree(st.layer2, 0, NBLOCKS)
  }

  /** Position `p` is past the start of big-block `b`. */
  predicate Past(p: Pos, b: nat) {
    b < p.block || (b == p.block && p.off > 0)
  }

  /** Each zone's next offset is past everything the zone owns, and inside a
      big-block it is where that big-block is appended to. */
  ghost predicate Frontier(st: State) {
    (forall z | z in st.next :: RecordZone(z) && st.next[z].off < BIG && st.next[z].block < NBLOCKS) &&
    (forall z, b | z in st.next && b in st.layer2 && st.layer2[b].zone == z :: Past(st.next[z], b)) &&
    (forall z | z in st.next && st.next[z].off > 0 ::
       var b := st.next[z].block;
       b in st.layer2 && st.layer2[b].zone == z && st.layer2[b].appendOff == st.next[z].off)
  }

  /** An extent lies in one buffer of a big-block of its zone, before the zone's next offset. */
  ghost predicate Placed(st: State, e: Extent) {
    e.zone in st.next && e.len > 0 && e.at.off < BIG && e.at.off % BUF + e.len <= BUF &&
    e.at.block in st.layer2 && st.layer2[e.at.block].zone == e.zone &&
    (e.at.block < st.next[e.zone].block ||
     (e.at.block == st.next[e.zone].block && e.at.off + e.len <= st.next[e.zone].off))
  }

  predicate Apart(e: Extent, f: Extent) {
    e.at.block != f.at.block || e.at.off + e.len <= f.at.off || f.at.off + f.len <= e.at.off
  }

  ghost predicate Extents(st: State, es: seq<Extent>) {
    (forall e <- es :: Placed(st, e)) &&
    (forall i, j | 0 <= i < j < |es| :: Apart(es[i], es[j]))
  }

  /** `bytes_free` is the block size minus what was handed out. */
  ghost predicate Accounted(st: State, es: seq<Extent>) {
    forall b | b in st.layer2 && RecordZone(st.layer2[b].zone) :: st.layer2[b].bytesFree == BIG - Used(es, b)
  }

  ghost predicate Inv(st: State, es: seq<Extent>) {
    Tables(st) && Counts(st) && Frontier(st) && Extents(st, es) && Accounted(st, es)
  }

  lemma {:induction false} CountSame(m: map<nat, Layer2>, m': map<nat, Layer2>, lo: nat, hi: nat)
    requires lo <= hi
    requires forall b | lo <= b < hi :: (b in m && m[b].zone == 0) == (b in m' && m'[b].zone == 0)
    ensures CountFree(m, lo, hi) == CountFree(m', lo, hi)
    decreases hi - lo
  {
    if lo < hi {
      CountSame(m, m', lo, hi - 1);
    }
  }

  /** Taking one free big-block costs exactly one wherever it is counted. */
  lemma {:induction false} CountTake(m: map<nat, Layer2>, b: nat, e: Layer2, lo: nat, hi: nat)
    requires lo <= hi && b in m && m[b].zone == 0 && e.zone != 0
    ensures CountFree(m[b := e], lo, hi) == CountFree(m, lo, hi) - if lo <= b < hi then 1 else 0
    decreases hi - lo
  {
    if lo < hi {
      CountTake(m, b, e, lo, hi - 1);
    }
  }

  lemma {:induction false} UsedNone(es: seq<Extent>, b: nat)
    requires forall e <- es :: e.at.block != b
    ensures Used(es, b) == 0
  {
    if es != [] {
      UsedNone(es[..|es| - 1], b);
    }
  }

  lemma UsedAppend(es: seq<Extent>, e: Extent, b: nat)
    ensures Used(es + [e], b) == Used(es, b) + if e.at.block == b then e.len else 0
  {
    assert (es + [e])[..|es|] == es;
  }

  lemma UnderRow(i: nat, b: nat)
    ensures i * RADIX2 <= b < i * RADIX2 + RADIX2 <==> i == Row(b)
  {
  }

  /** A skip moves only if the buffer has no room, then to a buffer start, and
      the allocation ends within the big-block. */
  lemma SkipFits(off: nat, bytes: nat)
    requires 0 < bytes <= BUF && off < BIG
    ensures var s := Skip(off, bytes);
            off <= s <= BIG && s % BUF + bytes <= BUF && (s < BIG ==> s + bytes <= BIG) &&
            (s == off <==> off % BUF + bytes <= BUF) &&
            (s == BIG <==> off % BUF + bytes > BUF && off / BUF == BIG / BUF - 1)
  {
  }

  /** A successful pass puts the extent at `at` and changes one layer-2 entry. */
  ghost predicate Puts(st: State, st': State, zone: nat, bytes: nat, at: Pos) {
    var b, end := at.block, Norm(at.block, at.off + bytes);
    zone in st.next && RecordZone(zone) && 0 < bytes <= BUF && st.next[zone].block < NBLOCKS &&
    at == Norm(st.next[zone].block, Skip(st.next[zone].off, bytes)) && b in st.layer2 && Row(b) in st.layer1 &&
    (st.layer2[b].zone == 0 || st.layer2[b].zone == zone) && st.layer2[b].appendOff == at.off &&
    st'.layer1 == Claim(st, b, zone).layer1 && st'.free == Claim(st, b, zone).free &&
    st'.layer2 == st.layer2[b := Layer2(zone, end.off, st.layer2[b].bytesFree - bytes)] &&
    st'.next == st.next[zone := end]
  }

  lemma DonePuts(st: State, zone: nat, bytes: nat)
    requires zone in st.next && RecordZone(zone) && 0 < bytes <= BUF && Try(st, zone, bytes).Done?
    ensures var r := Try(st, zone, bytes); Puts(st, r.st, zone, bytes, r.at)
  {
    hide Skip, Row;
    var r := Try(st, zone, bytes);
    var b, end := r.at.block, Norm(r.at.block, r.at.off + bytes);
    assert r.st.layer2 == st.layer2[b := Layer2(zone, end.off, st.layer2[b].bytesFree - bytes)];
  }

  /** What the arithmetic of a placement comes to. */
  lemma PutsWhere(st: State, st': State, zone: nat, bytes: nat, at: Pos)
    requires Frontier(st) && Puts(st, st', zone, bytes, at)
    ensures var next, end := st.next[zone], Norm(at.block, at.off + bytes);
            at.off < BIG && at.off % BUF + bytes <= BUF && at.off + bytes <= BIG &&
            ((at.block == next.block && next.off <= at.off) || (at.block == next.block + 1 && at.off == 0)) &&
            end.off < BIG && Past(end, at.block) && st'.next[zone] == end
  {
    SkipFits(st.next[zone].off, bytes);
  }

  lemma TablesKept(st: State, st': State, zone: nat, bytes: nat, at: Pos)
    requires Tables(st) && Puts(st, st', zone, bytes, at)
    ensures Tables(st') && at.block < NBLOCKS - 1
  {
    hide Skip, Row;
    assert st'.layer1.Keys == st.layer1.Keys;
    assert st'.layer2.Keys == st.layer2.Keys;
  }

  lemma CountAfter(st: State, st': State, zone: nat, bytes: nat, at: Pos, lo: nat, hi: nat)
    requires Puts(st, st', zone, bytes, at) && lo <= hi
    ensures var b := at.block;
            CountFree(st'.layer2, lo, hi) ==
              CountFree(st.layer2, lo, hi) - if st.layer2[b].zone == 0 && lo <= b < hi then 1 else 0
  {
    hide Skip, Row;
    var b := at.block;
    if st.layer2[b].zone == 0 {
      CountTake(st.layer2, b, st'.layer2[b], lo, hi);
    } else {
      CountSame(st.layer2, st'.layer2, lo, hi);
    }
  }

  lemma CountsKept(st: State, st': State, zone: nat, bytes: nat, at: Pos)
    requires Tables(st) && Counts(st) && Puts(st, st', zone, bytes, at)
    ensures Counts(st')
  {
    hide CountFree, Skip, Row;
    forall i | i in st'.layer1
      ensures st'.layer1[i].blocksFree == CountFree(st'.layer2, i * RADIX2, i * RADIX2 + RADIX2)
    {
      CountAfter(st, st', zone, bytes, at, i * RADIX2, i * RADIX2 + RADIX2);
      UnderRow(i, at.block);
    }
    CountAfter(st, st', zone, bytes, at, 0, NBLOCKS);
  }

  /** One zone's part of the frontier. */
  ghost predicate Ahead(st: State, z: nat)
    requires z in st.next
  {
    var p := st.next[z];
    RecordZone(z) && p.off < BIG && p.block < NBLOCKS &&
    (forall b | b in st.layer2 && st.layer2[b].zone == z :: Past(p, b)) &&
    (p.off > 0 ==> p.block in st.layer2 && st.layer2[p.block].zone == z && st.layer2[p.block].appendOff == p.off)
  }

  lemma ByZone(st: State)
    ensures Frontier(st) <==> forall z | z in st.next :: Ahead(st, z)
  {
    hide Past;
    if forall z | z in st.next :: Ahead(st, z) {
      forall z, b | z in st.next && b in st.layer2 && st.layer2[b].zone == z
        ensures Past(st.next[z], b)
      {
        assert Ahead(st, z);
      }
      assert forall z | z in st.next && st.next[z].off > 0 :: Ahead(st, z);
      assert Frontier(st);
    }
  }

  lemma ZoneMoves(st: State, st': State, zone: nat, bytes: nat, at: Pos)
    requires Tables(st) && Frontier(st) && Puts(st, st', zone, bytes, at)
    ensures Ahead(st', zone)
  {
    hide Skip, Row, Tables, Claim;
    PutsWhere(st, st', zone, bytes, at);
    TablesKept(st, st', zone, bytes, at);
    forall b | b in st'.layer2 && st'.layer2[b].zone == zone
      ensures Past(st'.next[zone], b)
    {
      assert b == at.block || Past(st.next[zone], b);
    }
  }

  lemma ZoneStays(st: State, st': State, zone: nat, bytes: nat, at: Pos, z: nat)
    requires Tables(st) && z in st.next && Ahead(st, z) && Puts(st, st', zone, bytes, at) && z != zone
    ensures z in st'.next && Ahead(st', z)
  {
    hide Skip, Row, Tables, Claim, Past, Norm;
  }

  lemma FrontierKept(st: State, st': State, zone: nat, bytes: nat, at: Pos)
    requires Tables(st) && Frontier(st) && Puts(st, st', zone, bytes, at)
    ensures Frontier(st')
  {
    hide Skip, Row, Tables, Claim, Frontier, Ahead, Norm;
    ByZone(st);
    ByZone(st');
    ZoneMoves(st, st', zone, bytes, at);
    forall z | z in st'.next && z != zone
      ensures Ahead(st', z)
    {
      ZoneStays(st, st', zone, bytes, at, z);
    }
  }

  /** A new extent lies past the old ones of its zone and outside the blocks of other zones. */
  lemma NewIsApart(st: State, st': State, f: Extent, zone: nat, bytes: nat, at: Pos)
    requires Frontier(st) && Placed(st, f) && Puts(st, st', zone, bytes, at)
    ensures Placed(st', f) && Apart(f, Extent(zone, at, bytes))
  {
    PutsWhere(st, st', zone, bytes, at);
    hide Skip, Row;
    assert RecordZone(f.zone);
    if f.zone != zone {
      assert f.at.block != at.block;
    }
  }

  lemma ExtentsKept(st: State, st': State, es: seq<Extent>, zone: nat, bytes: nat, at: Pos)
    requires Frontier(st) && Extents(st, es) && Puts(st, st', zone, bytes, at)
    ensures Extents(st', es + [Extent(zone, at, bytes)])
  {
    var e := Extent(zone, at, bytes);
    var all := es + [e];
    PutsWhere(st, st', zone, bytes, at);
    assert Placed(st', e);
    forall f <- es
      ensures Placed(st', f) && Apart(f, e)
    {
      NewIsApart(st, st', f, zone, bytes, at);
    }
    hide Puts, Placed, Apart, Frontier;
    assert forall i, j | 0 <= i < j < |all| :: Apart(all[i], all[j]);
  }

  lemma AccountedKept(st: State, st': State, es: seq<Extent>, zone: nat, bytes: nat, at: Pos)
    requires Tables(st) && Frontier(st) && Extents(st, es) && Accounted(st, es) && Puts(st, st', zone, bytes, at)
    ensures Accounted(st', es + [Extent(zone, at, bytes)])
  {
    hide Skip, Row;
    forall b | b in st'.layer2 && RecordZone(st'.layer2[b].zone)
      ensures st'.layer2[b].bytesFree == BIG - Used(es + [Extent(zone, at, bytes)], b)
    {
      UsedAppend(es, Extent(zone, at, bytes), b);
      if st.layer2[b].zone == 0 {
        forall e <- es
          ensures e.at.block != b
        {
          assert Placed(st, e);
        }
        UsedNone(es, b);
      }
    }
  }

  lemma DoneKeeps(st: State, es: seq<Extent>, zone: nat, bytes: nat)
    requires Inv(st, es) && zone in st.next && 0 < bytes <= BUF && Try(st, zone, bytes).Done?
    ensures var r := Try(st, zone, bytes); Inv(r.st, es + [Extent(zone, r.at, bytes)])
  {
    var r := Try(st, zone, bytes);
    assert RecordZone(zone);
    DonePuts(st, zone, bytes);
    hide Try, Puts, Tables, Counts, Extents, Accounted, Frontier;
    TablesKept(st, r.st, zone, bytes, r.at);
    CountsKept(st, r.st, zone, bytes, r.at);
    FrontierKept(st, r.st, zone, bytes, r.at);
    ExtentsKept(st, r.st, es, zone, bytes, r.at);
    AccountedKept(st, r.st, es, zone, bytes, r.at);
  }

  /** Skipping a big-block only moves the zone's next offset, to the next block start. */
  lemma AgainSkips(st: State, zone: nat, bytes: nat)
    requires Tables(st) && Frontier(st) && zone in st.next && 0 < bytes <= BUF && Try(st, zone, bytes).Again?
    ensures var b := Norm(st.next[zone].block, Skip(st.next[zone].off, bytes)).block;
            b < NBLOCKS - 1 && Try(st, zone, bytes).st == st.(next := st.next[zone := Pos(b + 1, 0)])
  {
    hide Skip, Row;
    assert RecordZone(zone);
  }

  lemma MovedTables(st: State, zone: nat, p: Pos)
    requires Tables(st) && Counts(st)
    ensures var st' := st.(next := st.next[zone := p]); Tables(st') && Counts(st')
  {
    hide Row, CountFree;
  }

  lemma MovedShape(st: State, zone: nat, b: nat)
    requires Tables(st) && Frontier(st) && zone in st.next && b < NBLOCKS
    requires st.next[zone].block < b || st.next[zone] == Pos(b, 0)
    ensures var st' := st.(next := st.next[zone := Pos(b, 0)]); Tables(st') && Frontier(st')
  {
    hide Row;
  }

  lemma MovedKeeps(st: State, es: seq<Extent>, zone: nat, b: nat)
    requires Inv(st, es) && zone in st.next && b < NBLOCKS
    requires st.next[zone].block < b || st.next[zone] == Pos(b, 0)
    ensures Inv(st.(next := st.next[zone := Pos(b, 0)]), es)
  {
    hide Tables, Counts;
    var st' := st.(next := st.next[zone := Pos(b, 0)]);
    MovedTables(st, zone, Pos(b, 0));
    forall e <- es
      ensures Placed(st', e)
    {
      assert Placed(st, e);
    }
    assert Extents(st', es);
  }

  lemma AgainKeeps(st: State, es: seq<Extent>, zone: nat, bytes: nat)
    requires Inv(st, es) && zone in st.next && 0 < bytes <= BUF && Try(st, zone, bytes).Again?
    ensures var st' := Try(st, zone, bytes).st;
            Inv(st', es) && zone in st'.next && st.next[zone].block < st'.next[zone].block <= NBLOCKS
  {
    AgainSkips(st, zone, bytes);
    MovedKeeps(st, es, zone, Norm(st.next[zone].block, Skip(st.next[zone].off, bytes)).block + 1);
  }

  lemma AllocUnfolds(st: State, zone: nat, bytes: nat)
    requires zone in st.next && 0 < bytes <= BUF
    ensures var t := Try(st, zone, bytes);
            Alloc(st, zone, bytes) == if t.Again? then Alloc(t.st, zone, bytes) else t
  {
  }

  /** Every allocation that returns keeps the freemap right and hands out an
      extent apart from all others, inside one buffer. */
  lemma {:induction false} AllocKeeps(st: State, es: seq<Extent>, zone: nat, bytes: nat)
    requires Inv(st, es) && zone in st.next && 0 < bytes <= BUF
    ensures var r := Alloc(st, zone, bytes);
            r.Done? ==> Inv(r.st, es + [Extent(zone, r.at, bytes)])
    decreases NBLOCKS + 1 - st.next[zone].block
  {
    hide Inv, Try, Alloc;
    AllocUnfolds(st, zone, bytes);
    match Try(st, zone, bytes)
    case Again(st') =>
      AgainKeeps(st, es, zone, bytes);
      AllocKeeps(st', es, zone, bytes);
    case Done(_, _) =>
      DoneKeeps(st, es, zone, bytes);
    case _ =>
  }

  // ----- where an allocation goes, exactly -----

  /** What a zone that starts on a new big-block finds. */
  datatype Found = Open(b: nat) | Full | Dead

  /** The first free big-block from `b` on.  The walk ends at unavailable space,
      and dead at a table that does not exist or has nothing free. */
  function FirstOpen(layer1: map<nat, Layer1>, layer2: map<nat, Layer2>, b: nat): Found
    requires b <= NBLOCKS
    decreases NBLOCKS - b
  {
    if b == NBLOCKS || Row(b) !in layer1 || b !in layer2 || layer1[Row(b)].blocksFree == 0 then Dead
    else if layer2[b].zone == UNAVAIL then Full
    else if layer2[b].zone == 0 then Open(b)
    else FirstOpen(layer1, layer2, b + 1)
  }

  ghost predicate Matches(r: Attempt, found: Found) {
    match found
    case Open(b) => r.Done? && r.at == Pos(b, 0)
    case Full => r.NoSpace?
    case Dead => r.Stop?
  }

  lemma OpenUnfolds(layer1: map<nat, Layer1>, layer2: map<nat, Layer2>, b: nat)
    requires b < NBLOCKS
    ensures FirstOpen(layer1, layer2, b) ==
            if Row(b) !in layer1 || b !in layer2 || layer1[Row(b)].blocksFree == 0 then Dead
            else if layer2[b].zone == UNAVAIL then Full
            else if layer2[b].zone == 0 then Open(b)
            else FirstOpen(layer1, layer2, b + 1)
  {
    hide Row;
  }

  lemma StartTry(st: State, zone: nat, bytes: nat)
    requires Tables(st) && Frontier(st) && zone in st.next && 0 < bytes <= BUF && st.next[zone].off == 0
    ensures st.next[zone].block < NBLOCKS
    ensures var r, b := Try(st, zone, bytes), st.next[zone].block;
            if Row(b) !in st.layer1 || b !in st.layer2 || st.layer1[Row(b)].blocksFree == 0 then r.Stop?
            else if st.layer2[b].zone == UNAVAIL then r.NoSpace?
            else if st.layer2[b].zone == 0 then r.Done? && r.at == Pos(b, 0)
            else r == Again(st.(next := st.next[zone := Pos(b + 1, 0)])) && b + 1 < NBLOCKS
  {
    SkipFits(0, bytes);
    hide Skip, Row;
    assert RecordZone(zone);
  }

  /** From a block start the allocator takes the first free big-block. */
  lemma {:induction false} StartExact(st: State, zone: nat, bytes: nat)
    requires Tables(st) && Frontier(st) && zone in st.next && 0 < bytes <= BUF && st.next[zone].off == 0
    ensures st.next[zone].block < NBLOCKS
    ensures Matches(Alloc(st, zone, bytes), FirstOpen(st.layer1, st.layer2, st.next[zone].block))
    decreases NBLOCKS - st.next[zone].block
  {
    hide Row, Try, Skip, Tables, Frontier, Alloc, FirstOpen;
    StartTry(st, zone, bytes);
    AllocUnfolds(st, zone, bytes);
    OpenUnfolds(st.layer1, st.layer2, st.next[zone].block);
    if Try(st, zone, bytes).Again? {
      MovedShape(st, zone, st.next[zone].block + 1);
      StartExact(Try(st, zone, bytes).st, zone, bytes);
    }
  }

  /** At offset `off` of its big-block the allocation would cross a buffer other
      than the last one. */
  predicate Straddles(off: nat, bytes: nat) {
    off % BUF + bytes > BUF && off / BUF < BIG / BUF - 1
  }

  /** Skipping to a block start is the same as being there. */
  lemma SkipIsMove(st: State, zone: nat, bytes: nat)
    requires zone in st.next && 0 < bytes <= BUF && Skip(st.next[zone].off, bytes) == BIG
    requires st.next[zone].block < NBLOCKS - 1
    ensures Alloc(st, zone, bytes) ==
              Alloc(st.(next := st.next[zone := Pos(st.next[zone].block + 1, 0)]), zone, bytes)
  {
    var b := st.next[zone].block + 1;
    var st' := st.(next := st.next[zone := Pos(b, 0)]);
    SkipFits(0, bytes);
    hide Skip, Row;
    assert st.next[zone := Norm(b, bytes)] == st'.next[zone := Norm(b, bytes)];
    assert st.next[zone := Pos(b + 1, 0)] == st'.next[zone := Pos(b + 1, 0)];
    assert Try(st, zone, bytes) == Try(st', zone, bytes);
  }

  lemma FitExact(st: State, zone: nat, bytes: nat)
    requires Tables(st) && Frontier(st) && zone in st.next && 0 < bytes <= BUF && st.next[zone].off > 0
    requires st.next[zone].off % BUF + bytes <= BUF
    ensures Alloc(st, zone, bytes).Done? && Alloc(st, zone, bytes).at == st.next[zone]
  {
    SkipFits(st.next[zone].off, bytes);
    hide Skip, Row;
    AllocUnfolds(st, zone, bytes);
    assert RecordZone(zone);
  }

  lemma StraddleExact(st: State, zone: nat, bytes: nat)
    requires Tables(st) && Frontier(st) && zone in st.next && 0 < bytes <= BUF && st.next[zone].off > 0
    requires Straddles(st.next[zone].off, bytes)
    ensures Alloc(st, zone, bytes).Stop?
  {
    SkipFits(st.next[zone].off, bytes);
    hide Skip, Row;
    AllocUnfolds(st, zone, bytes);
    assert RecordZone(zone);
  }

  lemma OwnedBelow(st: State, zone: nat)
    requires Tables(st) && Frontier(st) && zone in st.next && st.next[zone].off > 0
    ensures st.next[zone].block < NBLOCKS - 1 && st.next[zone].off < BIG && RecordZone(zone)
  {
    hide Row;
  }

  lemma MoveExact(st: State, zone: nat, bytes: nat)
    requires Tables(st) && Frontier(st) && zone in st.next && 0 < bytes <= BUF && st.next[zone].off > 0
    requires Skip(st.next[zone].off, bytes) == BIG
    ensures var b := st.next[zone].block + 1;
            b < NBLOCKS && Matches(Alloc(st, zone, bytes), FirstOpen(st.layer1, st.layer2, b))
  {
    hide Alloc, Tables, Frontier, Skip, FirstOpen;
    OwnedBelow(st, zone);
    var b := st.next[zone].block + 1;
    MovedShape(st, zone, b);
    StartExact(st.(next := st.next[zone := Pos(b, 0)]), zone, bytes);
    SkipIsMove(st, zone, bytes);
  }

  /** A zone inside a big-block hands out its own next offset while that fits its
      buffer, stops on a straddle, and otherwise goes on like a zone at the start
      of the next big-block; from a block start the first free one is taken. */
  lemma AllocExact(st: State, zone: nat, bytes: nat)
    requires Tables(st) && Frontier(st) && zone in st.next && 0 < bytes <= BUF
    ensures var r, next := Alloc(st, zone, bytes), st.next[zone];
            if next.off > 0 && Straddles(next.off, bytes) then r.Stop?
            else if next.off > 0 && next.off % BUF + bytes <= BUF then r.Done? && r.at == next
            else var b := if next.off == 0 then next.block else next.block + 1;
                 b < NBLOCKS && Matches(r, FirstOpen(st.layer1, st.layer2, b))
  {
    var next := st.next[zone];
    hide Alloc, FirstOpen, Matches, Tables, Frontier;
    if next.off == 0 {
      StartExact(st, zone, bytes);
    } else if next.off % BUF + bytes <= BUF {
      FitExact(st, zone, bytes);
    } else if Straddles(next.off, bytes) {
      StraddleExact(st, zone, bytes);
    } else {
      OwnedBelow(st, zone);
      SkipFits(next.off, bytes);
      MoveExact(st, zone, bytes);
    }
  }

  // ----- consequences -----

  const NODE: nat := 4096

  function SumFree(layer1: map<nat, Layer1>, n: nat): int {
    if n == 0 then 0 else SumFree(layer1, n - 1) + if n - 1 in layer1 then layer1[n - 1].blocksFree else 0
  }

  lemma {:induction false} CountSplit(m: map<nat, Layer2>, lo: nat, mid: nat, hi: nat)
    requires lo <= mid <= hi
    ensures CountFree(m, lo, hi) == CountFree(m, lo, mid) + CountFree(m, mid, hi)
    decreases hi - mid
  {
    if mid < hi {
      CountSplit(m, lo, mid, hi - 1);
    }
  }

  lemma CountEmpty(m: map<nat, Layer2>, lo: nat)
    ensures CountFree(m, lo, lo) == 0
  {
  }

  lemma {:induction false} RowEmpty(st: State, i: nat, hi: nat)
    requires Tables(st) && i !in st.layer1 && i * RADIX2 <= hi <= i * RADIX2 + RADIX2
    ensures CountFree(st.layer2, i * RADIX2, hi) == 0
    decreases hi
  {
    hide Row;
    if i * RADIX2 < hi {
      RowEmpty(st, i, hi - 1);
      UnderRow(i, hi - 1);
    }
  }

  lemma SumStep(st: State, i: nat, lo: nat)
    requires Tables(st) && Counts(st) && lo == i * RADIX2
    ensures CountFree(st.layer2, 0, lo + RADIX2) ==
              CountFree(st.layer2, 0, lo) + if i in st.layer1 then st.layer1[i].blocksFree else 0
  {
    hide CountFree, Row;
    CountSplit(st.layer2, 0, lo, lo + RADIX2);
    if i !in st.layer1 {
      RowEmpty(st, i, lo + RADIX2);
    }
  }

  lemma {:induction false} SumIsCount(st: State, n: nat)
    requires Tables(st) && Counts(st)
    ensures SumFree(st.layer1, n) == CountFree(st.layer2, 0, n * RADIX2)
  {
    hide CountFree, Tables, Counts;
    CountEmpty(st.layer2, 0);
    if n > 0 {
      SumIsCount(st, n - 1);
      SumStep(st, n - 1, (n - 1) * RADIX2);
      assert n * RADIX2 == (n - 1) * RADIX2 + RADIX2;
    }
  }

  /** The free big-block total is the sum of the layer-1 counts. */
  lemma TotalIsSum(st: State, es: seq<Extent>)
    requires Inv(st, es)
    ensures st.free == SumFree(st.layer1, RADIX1)
  {
    hide CountFree;
    SumIsCount(st, RADIX1);
  }

  lemma {:induction false} AllocNext(st: State, zone: nat, bytes: nat)
    requires zone in st.next && 0 < bytes <= BUF
    ensures var r := Alloc(st, zone, bytes);
            r.Done? ==> r.st.next.Keys == st.next.Keys && r.st.next[zone] == Norm(r.at.block, r.at.off + bytes)
    decreases NBLOCKS + 1 - st.next[zone].block
  {
    hide Row, Skip;
    AllocUnfolds(st, zone, bytes);
    if Try(st, zone, bytes).Again? {
      AllocNext(Try(st, zone, bytes).st, zone, bytes);
    }
  }

  lemma NodeAligned(off: nat)
    requires off % NODE == 0
    ensures off % BUF + NODE <= BUF && (off + NODE) % NODE == 0
  {
  }

  /** Handing out nodes only, a zone never straddles a buffer and so never stops on one. */
  lemma NodesFit(st: State)
    requires Tables(st) && Frontier(st) && BTREE in st.next && st.next[BTREE].off % NODE == 0
    ensures !Straddles(st.next[BTREE].off, NODE)
    ensures var r := Alloc(st, BTREE, NODE);
            r.Done? ==> BTREE in r.st.next && r.st.next[BTREE].off % NODE == 0
  {
    hide Tables, Frontier, Alloc, FirstOpen;
    NodeAligned(st.next[BTREE].off);
    AllocExact(st, BTREE, NODE);
    AllocNext(st, BTREE, NODE);
    var r := Alloc(st, BTREE, NODE);
    if r.Done? {
      NodeAligned(r.at.off);
    }
  }

  // ----- lookup -----

  datatype Lookup = Lookup(error: int, at: Pos, layer1: Layer1, layer2: Layer2)

  /** The block and offset fields of HAMMER_OFF_BAD. */
  const BAD: Pos := Pos(NBLOCKS - 1, BIG - 1)

  /** `blockmap_lookup_save` on the zone and the 60-bit offset of an address;
      `undo` holds the big-blocks of the undo array.  Entries not saved are zero. */
  function LookupSave(st: State, undo: seq<nat>, zone: nat, at: Pos): Lookup {
    var z1, z2 := Layer1(0, 0), Layer2(0, 0, 0);
    if zone <= 1 then Lookup(-1, BAD, z1, z2)
    else if zone > UNAVAIL then Lookup(-2, BAD, z1, z2)
    else if zone == UNDO && at.block >= |undo| then Lookup(-3, BAD, z1, z2)
    else
      var p := if zone == UNDO then Pos(undo[at.block], at.off) else at;
      if zone >= BTREE && zone !in st.next then Lookup(-4, p, z1, z2)
      else if Row(p.block) !in st.layer1 then Lookup(-6, p, z1, z2)
      else if p.block !in st.layer2 then Lookup(-7, p, st.layer1[Row(p.block)], z2)
      else if st.layer2[p.block].zone != zone then Lookup(-8, p, st.layer1[Row(p.block)], z2)
      else Lookup(0, p, st.layer1[Row(p.block)], st.layer2[p.block])
  }

  lemma ExtentPlaced(st: State, es: seq<Extent>, e: Extent)
    requires Inv(st, es) && e in es
    ensures Placed(st, e) && RecordZone(e.zone) && Row(e.at.block) in st.layer1
  {
    hide CountFree, Row;
  }

  /** Every byte that was handed out is found, in a big-block of its zone. */
  lemma LookupFinds(st: State, es: seq<Extent>, undo: seq<nat>, e: Extent, k: nat)
    requires Inv(st, es) && e in es && k < e.len
    ensures e.at.block in st.layer2 && Row(e.at.block) in st.layer1 && st.layer2[e.at.block].zone == e.zone
    ensures var at := Pos(e.at.block, e.at.off + k);
            LookupSave(st, undo, e.zone, at) == Lookup(0, at, st.layer1[Row(at.block)], st.layer2[at.block])
  {
    hide Inv, Row;
    ExtentPlaced(st, es, e);
  }

  // ----- undo big-blocks -----

  /** `alloc_undo_bigblock` on the big-block the bootstrap gave it. */
  function TakeUndo(st: State, b: nat): Attempt {
    if Row(b) !in st.layer1 || b !in st.layer2 || st.layer2[b].zone != 0 then Stop
    else
      var l1 := st.layer1[Row(b)];
      Done(st.(layer1 := st.layer1[Row(b) := l1.(blocksFree := l1.blocksFree - 1)],
               layer2 := st.layer2[b := Layer2(UNDO, BIG, 0)],
               free := st.free - 1),
           Pos(b, 0))
  }

  lemma UndoTables(st: State, b: nat)
    requires Tables(st) && Frontier(st) && TakeUndo(st, b).Done?
    ensures Tables(TakeUndo(st, b).st) && Frontier(TakeUndo(st, b).st)
  {
    hide Row;
    var st' := TakeUndo(st, b).st;
    assert st'.layer1.Keys == st.layer1.Keys && st'.layer2.Keys == st.layer2.Keys;
  }

  lemma UndoExtents(st: State, es: seq<Extent>, b: nat)
    requires Frontier(st) && Extents(st, es) && Accounted(st, es) && TakeUndo(st, b).Done?
    ensures Extents(TakeUndo(st, b).st, es) && Accounted(TakeUndo(st, b).st, es)
  {
    hide Row;
    var st' := TakeUndo(st, b).st;
    forall e <- es
      ensures Placed(st', e)
    {
      assert Placed(st, e) && RecordZone(e.zone);
    }
  }

  lemma UndoCounts(st: State, b: nat)
    requires Counts(st) && b < NBLOCKS && TakeUndo(st, b).Done?
    ensures Counts(TakeUndo(st, b).st)
  {
    hide CountFree, Row;
    var st', e := TakeUndo(st, b).st, Layer2(UNDO, BIG, 0);
    forall i | i in st'.layer1
      ensures st'.layer1[i].blocksFree == CountFree(st'.layer2, i * RADIX2, i * RADIX2 + RADIX2)
    {
      CountTake(st.layer2, b, e, i * RADIX2, i * RADIX2 + RADIX2);
      UnderRow(i, b);
    }
    CountTake(st.layer2, b, e, 0, NBLOCKS);
  }

  lemma UndoKeeps(st: State, es: seq<Extent>, b: nat)
    requires Inv(st, es) && TakeUndo(st, b).Done?
    ensures Inv(TakeUndo(st, b).st, es)
  {
    assert b < NBLOCKS by {
      hide CountFree;
    }
    hide Tables, Counts, Frontier, Extents, Accounted;
    UndoTables(st, b);
    UndoCounts(st, b);
    UndoExtents(st, es, b);
  }
}
