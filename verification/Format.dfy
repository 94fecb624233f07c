/** Building and using the freemap in place: bootstrap big-blocks, the volume
    loader and its dry run, undo big-blocks and the allocator itself. */
module Format {
  import opened Common
  import opened Freemap

  const VOLUME_BLOCKS: nat := 536870912
  const VOLUME_ROWS: nat := 1024

  /** How an allocation ends: with an extent, with errx(), or in an assert. */
  datatype Outcome = At(at: Pos) | OutOfSpace | Asserted

  // ----- runs on values -----

  datatype Op = Allocate(zone: nat, bytes: nat) | TakeBlock(b: nat)

  datatype Ran = Ran(st: State, es: seq<Extent>) | Halted

  function Step(st: State, es: seq<Extent>, op: Op): Ran {
    match op
    case Allocate(zone, bytes) =>
      var len := DataAlign(bytes);
      if !RecordZone(zone) || zone !in st.next || len == 0 || len > BUF then Halted
      else
        var r := Alloc(st, zone, len);
        if r.Done? then Ran(r.st, es + [Extent(zone, r.at, len)]) else Halted
    case TakeBlock(b) =>
      var r := TakeUndo(st, b);
      if r.Done? then Ran(r.st, es) else Halted
  }

  function Run(st: State, es: seq<Extent>, ops: seq<Op>): Ran
    decreases |ops|
  {
    if ops == [] then Ran(st, es)
    else
      var s := Step(st, es, ops[0]);
      if s.Halted? then Halted else Run(s.st, s.es, ops[1..])
  }

  // ----- the tables themselves -----

  /** The layer-2 tables of different rows are different big-blocks. */
  ghost predicate Distinct(st: State) {
    forall i, j | i in st.layer1 && j in st.layer1 && i != j :: st.layer1[i].phys != st.layer1[j].phys
  }

  /** The layer-2 table of a row is on the row's own volume. */
  ghost predicate Backed(st: State) {
    forall i | i in st.layer1 :: st.layer1[i].phys / VOLUME_BLOCKS == i / VOLUME_ROWS
  }

  /** What every operation on the freemap keeps. */
  ghost predicate Right(st: State, es: seq<Extent>) {
    Inv(st, es) && Distinct(st) && Backed(st)
  }

  ghost predicate SameTables(st: State, st': State) {
    st'.layer1.Keys == st.layer1.Keys && forall i | i in st.layer1 :: st'.layer1[i].phys == st.layer1[i].phys
  }

  lemma {:induction false} AllocSameTables(st: State, zone: nat, bytes: nat)
    requires zone in st.next && 0 < bytes <= BUF
    ensures Alloc(st, zone, bytes).Done? ==> SameTables(st, Alloc(st, zone, bytes).st)
    decreases NBLOCKS + 1 - st.next[zone].block
  {
    hide Row, Skip;
    AllocUnfolds(st, zone, bytes);
    if Try(st, zone, bytes).Again? {
      AllocSameTables(Try(st, zone, bytes).st, zone, bytes);
    }
  }

  lemma UndoSameTables(st: State, b: nat)
    requires TakeUndo(st, b).Done?
    ensures SameTables(st, TakeUndo(st, b).st)
  {
    hide Row;
  }

  lemma SameTablesStay(st: State, st': State)
    requires SameTables(st, st') && Distinct(st) && Backed(st)
    ensures Distinct(st') && Backed(st')
  {
  }

  lemma StepKeeps(st: State, es: seq<Extent>, op: Op)
    requires Right(st, es)
    ensures var s := Step(st, es, op); s.Ran? ==> Right(s.st, s.es) && es <= s.es
  {
    hide Inv, Alloc, TakeUndo, Distinct, Backed;
    match op
    case Allocate(zone, bytes) =>
      var len := DataAlign(bytes);
      if RecordZone(zone) && zone in st.next && 0 < len <= BUF {
        AllocRight(st, es, zone, len);
      }
    case TakeBlock(b) =>
      if TakeUndo(st, b).Done? {
        UndoRight(st, es, b);
      }
  }

  lemma AllocRight(st: State, es: seq<Extent>, zone: nat, bytes: nat)
    requires Right(st, es) && RecordZone(zone) && zone in st.next && 0 < bytes <= BUF
    ensures var r := Alloc(st, zone, bytes); r.Done? ==> Right(r.st, es + [Extent(zone, r.at, bytes)])
  {
    hide Inv, Alloc, Distinct, Backed;
    AllocKeeps(st, es, zone, bytes);
    AllocSameTables(st, zone, bytes);
    if Alloc(st, zone, bytes).Done? {
      SameTablesStay(st, Alloc(st, zone, bytes).st);
    }
  }

  lemma UndoRight(st: State, es: seq<Extent>, b: nat)
    requires Right(st, es) && TakeUndo(st, b).Done?
    ensures Right(TakeUndo(st, b).st, es)
  {
    hide Inv, TakeUndo, Distinct, Backed;
    UndoKeeps(st, es, b);
    UndoSameTables(st, b);
    SameTablesStay(st, TakeUndo(st, b).st);
  }

  /** Every sequence of allocations that returns keeps the freemap right, and
      nothing handed out is ever taken back. */
  lemma {:induction false} RunKeeps(st: State, es: seq<Extent>, ops: seq<Op>)
    requires Right(st, es)
    ensures var s := Run(st, es, ops); s.Ran? ==> Right(s.st, s.es) && es <= s.es
    decreases |ops|
  {
    hide Right, Step;
    if ops != [] {
      StepKeeps(st, es, ops[0]);
      var s := Step(st, es, ops[0]);
      if s.Ran? {
        RunKeeps(s.st, s.es, ops[1..]);
      }
    }
  }

  // ----- loading a volume -----

  /** Layer-1 rows needed for the blocks [base, end). */
  function Rows(base: nat, end: nat): nat {
    if end <= base then 0 else (end - base + RADIX2 - 1) / RADIX2
  }

  /** Layer 2 of a fresh volume whose blocks below `off` are taken for tables. */
  function Entry(b: nat, off: nat, end: nat): Layer2 {
    if b < off then Layer2(FREEMAP, BIG, 0)
    else if b < end then Layer2(0, 0, BIG)
    else Layer2(UNAVAIL, BIG, 0)
  }

  /** Layer 2 with the blocks [lo, hi) loaded. */
  ghost predicate Filled(m: map<nat, Layer2>, m': map<nat, Layer2>, lo: nat, hi: nat, off: nat, end: nat) {
    (forall b :: b in m' <==> b in m || lo <= b < hi) &&
    (forall b | b in m' :: m'[b] == if lo <= b < hi then Entry(b, off, end) else m[b])
  }

  /** Blocks of [lo, hi) that lie in [off, end). */
  function Within(lo: nat, hi: nat, off: nat, end: nat): nat {
    var a := if lo < off then off else lo;
    var z := if hi < end then hi else end;
    if z <= a then 0 else z - a
  }

  lemma {:induction false} FilledCount(m: map<nat, Layer2>, m': map<nat, Layer2>, lo: nat, hi: nat, off: nat, end: nat,
                                       a: nat, z: nat)
    requires lo <= a <= z <= hi && Filled(m, m', lo, hi, off, end)
    ensures CountFree(m', a, z) == Within(a, z, off, end)
    decreases z
  {
    if a < z {
      FilledCount(m, m', lo, hi, off, end, a, z - 1);
    }
  }

  lemma {:induction false} NoneFree(m: map<nat, Layer2>, lo: nat, hi: nat)
    requires lo <= hi && forall b | lo <= b < hi :: b !in m
    ensures CountFree(m, lo, hi) == 0
    decreases hi - lo
  {
    if lo < hi {
      NoneFree(m, lo, hi - 1);
    }
  }

  lemma FilledTotal(m: map<nat, Layer2>, m': map<nat, Layer2>, lo: nat, hi: nat, off: nat, end: nat)
    requires lo <= hi <= NBLOCKS && Filled(m, m', lo, hi, off, end)
    requires forall b | lo <= b < hi :: b !in m
    ensures CountFree(m', 0, NBLOCKS) == CountFree(m, 0, NBLOCKS) + Within(lo, hi, off, end)
  {
    FilledCount(m, m', lo, hi, off, end, lo, hi);
    NoneFree(m, lo, hi);
    CountSame(m, m', 0, lo);
    CountSame(m, m', hi, NBLOCKS);
    hide CountFree, Filled;
    CountSplit(m, 0, lo, NBLOCKS);
    CountSplit(m, lo, hi, NBLOCKS);
    CountSplit(m', 0, lo, NBLOCKS);
    CountSplit(m', lo, hi, NBLOCKS);
  }

  /** A volume's rows [row, row + n) have been loaded; their tables are the
      big-blocks from `start` on. */
  ghost predicate Loaded(st: State, st': State, row: nat, n: nat, start: nat, end: nat) {
    (forall i :: i in st'.layer1 <==> i in st.layer1 || row <= i < row + n) &&
    (forall i | i in st'.layer1 ::
       st'.layer1[i] == if row <= i < row + n
                        then Layer1(start + (i - row), Within(i * RADIX2, i * RADIX2 + RADIX2, start + n, end))
                        else st.layer1[i]) &&
    Filled(st.layer2, st'.layer2, row * RADIX2, (row + n) * RADIX2, start + n, end) &&
    st'.free == st.free + Within(row * RADIX2, (row + n) * RADIX2, start + n, end) && st'.next == st.next
  }

  /** None of the rows is there yet. */
  ghost predicate Fresh(st: State, row: nat, n: nat) {
    forall i | row <= i < row + n :: i !in st.layer1
  }

  lemma BlockOfRows(b: nat, row: nat, n: nat)
    ensures row * RADIX2 <= b < (row + n) * RADIX2 <==> row <= Row(b) < row + n
  {
    UnderRow(Row(b), b);
  }

  /** The blocks of fresh rows are not in the tables. */
  lemma FreshBlocks(st: State, row: nat, n: nat, b: nat)
    requires Tables(st) && Fresh(st, row, n) && row * RADIX2 <= b < (row + n) * RADIX2
    ensures b !in st.layer2
  {
    BlockOfRows(b, row, n);
  }

  lemma LoadedBlock(st: State, st': State, row: nat, n: nat, start: nat, end: nat, b: nat)
    requires Tables(st) && Loaded(st, st', row, n, start, end)
    requires (row + n) * RADIX2 <= NBLOCKS && end < NBLOCKS && start + n < NBLOCKS
    ensures b in st'.layer2 <==> Row(b) in st'.layer1
    ensures b in st'.layer2 ==>
              b < NBLOCKS &&
              (st'.layer2[b].zone == 0 ==> st'.layer2[b].appendOff == 0 && st'.layer2[b].bytesFree == BIG) &&
              (b == NBLOCKS - 1 ==> st'.layer2[b].zone == UNAVAIL)
  {
    hide Row, Within;
    BlockOfRows(b, row, n);
  }

  lemma LoadedTables(st: State, st': State, row: nat, n: nat, start: nat, end: nat)
    requires Tables(st) && Loaded(st, st', row, n, start, end)
    requires (row + n) * RADIX2 <= NBLOCKS && end < NBLOCKS && start + n < NBLOCKS
    ensures Tables(st')
  {
    hide Row, Loaded;
    forall b: nat
      ensures b in st'.layer2 <==> Row(b) in st'.layer1
      ensures b in st'.layer2 ==>
                b < NBLOCKS &&
                (st'.layer2[b].zone == 0 ==> st'.layer2[b].appendOff == 0 && st'.layer2[b].bytesFree == BIG) &&
                (b == NBLOCKS - 1 ==> st'.layer2[b].zone == UNAVAIL)
    {
      LoadedBlock(st, st', row, n, start, end, b);
    }
  }

  lemma LoadedRow(st: State, st': State, row: nat, n: nat, start: nat, end: nat, i: nat)
    requires Tables(st) && Counts(st) && Fresh(st, row, n) && Loaded(st, st', row, n, start, end) && i in st'.layer1
    ensures st'.layer1[i].blocksFree == CountFree(st'.layer2, i * RADIX2, i * RADIX2 + RADIX2)
  {
    hide CountFree, Row, Within;
    var lo, hi := i * RADIX2, i * RADIX2 + RADIX2;
    if row <= i < row + n {
      FilledCount(st.layer2, st'.layer2, row * RADIX2, (row + n) * RADIX2, start + n, end, lo, hi);
    } else {
      CountSame(st.layer2, st'.layer2, lo, hi);
    }
  }

  lemma LoadedCounts(st: State, st': State, row: nat, n: nat, start: nat, end: nat)
    requires Tables(st) && Counts(st) && Fresh(st, row, n) && Loaded(st, st', row, n, start, end)
    requires (row + n) * RADIX2 <= NBLOCKS
    ensures Counts(st')
  {
    hide CountFree, Row, Within;
    forall i | i in st'.layer1
      ensures st'.layer1[i].blocksFree == CountFree(st'.layer2, i * RADIX2, i * RADIX2 + RADIX2)
    {
      LoadedRow(st, st', row, n, start, end, i);
    }
    forall b | row * RADIX2 <= b < (row + n) * RADIX2
      ensures b !in st.layer2
    {
      FreshBlocks(st, row, n, b);
    }
    FilledTotal(st.layer2, st'.layer2, row * RADIX2, (row + n) * RADIX2, start + n, end);
  }

  /** What is in the tables stays, and what comes in belongs to no record zone. */
  lemma LoadedOwners(st: State, st': State, row: nat, n: nat, start: nat, end: nat)
    requires Tables(st) && Fresh(st, row, n) && Loaded(st, st', row, n, start, end)
    ensures forall b | b in st.layer2 :: b in st'.layer2 && st'.layer2[b] == st.layer2[b]
    ensures forall b | b in st'.layer2 && RecordZone(st'.layer2[b].zone) :: b in st.layer2
  {
    hide Row, Within;
    forall b | b in st.layer2
      ensures b in st'.layer2 && st'.layer2[b] == st.layer2[b]
    {
      if row * RADIX2 <= b < (row + n) * RADIX2 {
        FreshBlocks(st, row, n, b);
      }
    }
  }

  lemma LoadedRest(st: State, st': State, es: seq<Extent>)
    requires Frontier(st) && Extents(st, es) && Accounted(st, es) && st'.next == st.next
    requires forall b | b in st.layer2 :: b in st'.layer2 && st'.layer2[b] == st.layer2[b]
    requires forall b | b in st'.layer2 && RecordZone(st'.layer2[b].zone) :: b in st.layer2
    ensures Frontier(st') && Extents(st', es) && Accounted(st', es)
  {
    forall e <- es
      ensures Placed(st', e)
    {
      assert Placed(st, e);
    }
  }

  /** Loading another volume keeps everything. */
  lemma LoadedKeeps(st: State, st': State, es: seq<Extent>, row: nat, n: nat, start: nat, end: nat)
    requires Inv(st, es) && Fresh(st, row, n) && Loaded(st, st', row, n, start, end)
    requires (row + n) * RADIX2 <= NBLOCKS && end < NBLOCKS && start + n < NBLOCKS
    ensures Inv(st', es)
  {
    hide Tables, Counts, Frontier, Extents, Accounted, Fresh, Filled, Within;
    LoadedTables(st, st', row, n, start, end);
    LoadedCounts(st, st', row, n, start, end);
    LoadedOwners(st, st', row, n, start, end);
    LoadedRest(st, st', es);
  }

  lemma NewTable(no: nat, n: nat, start: nat, i: nat)
    requires no * VOLUME_BLOCKS <= start && start + n <= no * VOLUME_BLOCKS + VOLUME_BLOCKS
    requires no * VOLUME_ROWS <= i < no * VOLUME_ROWS + n <= no * VOLUME_ROWS + VOLUME_ROWS
    ensures (start + (i - no * VOLUME_ROWS)) / VOLUME_BLOCKS == no == i / VOLUME_ROWS
  {
  }

  lemma OfVolume(no: nat, i: nat)
    requires i / VOLUME_ROWS == no
    ensures no * VOLUME_ROWS <= i < no * VOLUME_ROWS + VOLUME_ROWS
  {
  }

  /** Loading a fresh volume keeps the tables distinct. */
  lemma LoadedDistinct(st: State, st': State, no: nat, n: nat, start: nat, end: nat)
    requires Distinct(st) && Backed(st) && Fresh(st, no * VOLUME_ROWS, VOLUME_ROWS) && n <= VOLUME_ROWS
    requires Loaded(st, st', no * VOLUME_ROWS, n, start, end)
    requires no * VOLUME_BLOCKS <= start && start + n <= no * VOLUME_BLOCKS + VOLUME_BLOCKS
    ensures Distinct(st') && Backed(st')
  {
    hide Filled, Within;
    var row := no * VOLUME_ROWS;
    forall i | i in st'.layer1
      ensures st'.layer1[i].phys / VOLUME_BLOCKS == i / VOLUME_ROWS
      ensures i in st.layer1 ==> i / VOLUME_ROWS != no
      ensures i !in st.layer1 ==> i / VOLUME_ROWS == no && row <= i && st'.layer1[i].phys == start + (i - row)
    {
      if i in st.layer1 {
        if i / VOLUME_ROWS == no {
          OfVolume(no, i);
        }
      } else {
        NewTable(no, n, start, i);
      }
    }
  }

  lemma EmptyRight(st: State)
    requires st.layer1 == map[] && st.layer2 == map[] && st.free == 0
    requires forall z | z in st.next :: RecordZone(z) && st.next[z] == Pos(0, 0)
    ensures Right(st, [])
  {
    NoneFree(st.layer2, 0, NBLOCKS);
    hide CountFree, Row;
  }

  class Volume {
    const no: nat
    var freeOff: nat
    const freeEnd: nat

    function Base(): nat {
      no * VOLUME_BLOCKS
    }

    /** newfs: the share of a volume starts at its base and ends before the next volume's. */
    ghost predicate Valid()
      reads this
    {
      no < 256 && Base() <= freeOff && freeEnd < Base() + VOLUME_BLOCKS
    }

    constructor (no: nat, blocks: nat)
      requires no < 256 && blocks < VOLUME_BLOCKS
      ensures Valid() && this.no == no && freeOff == Base() && freeEnd == Base() + blocks
    {
      this.no := no;
      freeOff := no * VOLUME_BLOCKS;
      freeEnd := no * VOLUME_BLOCKS + blocks;
    }

    /** `bootstrap_bigblock`; None when the volume has run out of room. */
    method BootstrapBigblock() returns (b: Option<nat>)
      requires Valid()
      modifies this
      ensures Valid()
      ensures if old(freeOff) < freeEnd then b == Some(old(freeOff)) && freeOff == old(freeOff) + 1
              else b.None? && freeOff == old(freeOff)
    {
      if freeOff >= freeEnd {
        return None;
      }
      b := Some(freeOff);
      freeOff := freeOff + 1;
    }

    /** `count_freemap`: what loading would find free, without loading. */
    method CountFreemap() returns (count: Option<nat>)
      requires Valid()
      ensures if freeOff >= freeEnd then count.None?
              else var off := Base() + (if no == 0 then 1 else 0) + Rows(Base(), freeEnd);
                   count == Some(if freeEnd <= off then 0 else freeEnd - off)
    {
      if freeOff >= freeEnd {
        return None;
      }
      var base := Base();
      var end := base + (freeEnd - base + RADIX2 - 1) / RADIX2 * RADIX2;
      var off := base + if no == 0 then 1 else 0;
      var start := off;
      var p := base;
      ghost var k := 0;
      while p < end
        invariant p == base + k * RADIX2 && off == start + k && 0 <= k <= Rows(base, freeEnd)
      {
        p := p + RADIX2;
        off := off + 1;
        k := k + 1;
      }
      var n := 0;
      p := base;
      while p < end
        invariant base <= p <= end && n == Within(base, p, off, freeEnd)
      {
        if p >= off && p < freeEnd {
          n := n + 1;
        }
        p := p + 1;
      }
      count := Some(n);
    }
  }

  lemma WithinNone(lo: nat, off: nat, end: nat)
    ensures Within(lo, lo, off, end) == 0
  {
  }

  lemma WithinSplit(lo: nat, mid: nat, hi: nat, off: nat, end: nat)
    requires lo <= mid <= hi
    ensures Within(lo, hi, off, end) == Within(lo, mid, off, end) + Within(mid, hi, off, end)
  {
  }

  lemma FilledStart(m: map<nat, Layer2>, lo: nat, off: nat, end: nat)
    ensures Filled(m, m, lo, lo, off, end)
  {
  }

  lemma FilledStep(m: map<nat, Layer2>, m': map<nat, Layer2>, lo: nat, b: nat, off: nat, end: nat)
    requires lo <= b && Filled(m, m', lo, b, off, end)
    ensures Filled(m, m'[b := Entry(b, off, end)], lo, b + 1, off, end)
  {
  }

  lemma FilledMore(m: map<nat, Layer2>, m1: map<nat, Layer2>, m2: map<nat, Layer2>, lo: nat, mid: nat, hi: nat,
                   off: nat, end: nat)
    requires lo <= mid <= hi && Filled(m, m1, lo, mid, off, end) && Filled(m1, m2, mid, hi, off, end)
    ensures Filled(m, m2, lo, hi, off, end)
  {
  }

  /** Layer 1 while the tables of the rows [row, i) are being made. */
  ghost predicate Made(m: map<nat, Layer1>, m': map<nat, Layer1>, row: nat, i: nat, start: nat) {
    (forall j :: j in m' <==> j in m || row <= j < i) &&
    (forall j | j in m' :: m'[j] == if row <= j < i then Layer1(start + (j - row), 0) else m[j])
  }

  /** Layer 1 while the rows [row, i) of [row, row + n) have been counted. */
  ghost predicate Counted(m: map<nat, Layer1>, m': map<nat, Layer1>, row: nat, i: nat, off: nat, end: nat) {
    m'.Keys == m.Keys &&
    forall j | j in m' ::
      m'[j] == if row <= j < i
               then Layer1(m[j].phys, m[j].blocksFree + Within(j * RADIX2, j * RADIX2 + RADIX2, off, end))
               else m[j]
  }

  /** The root volume: the freemap tables and the zones' blockmaps. */
  class Root {
    var layer1: map<nat, Layer1>
    var layer2: map<nat, Layer2>
    var free: int
    var next: map<nat, Pos>

    ghost function St(): State
      reads this
    {
      State(layer1, layer2, free, next)
    }

    /** `format_freemap`, and `format_blockmap` for the record zones. */
    constructor ()
      ensures Right(St(), []) && layer1 == map[] && forall z :: z in next <==> RecordZone(z)
      ensures forall z | z in next :: next[z] == Pos(0, 0)
    {
      layer1, layer2, free := map[], map[], 0;
      next := map z: nat | z < UNAVAIL && RecordZone(z) :: Pos(0, 0);
      new;
      hide Right;
      EmptyRight(St());
    }

    /** Takes a big-block of the volume for the table of every row; false on running out. */
    method MakeTables(volume: Volume, row: nat, n: nat) returns (ok: bool)
      requires volume.Valid() && Fresh(St(), row, n)
      modifies this`layer1, volume
      ensures volume.Valid() && ok == (old(volume.freeOff) + n <= volume.freeEnd || n == 0)
      ensures ok ==> Made(old(layer1), layer1, row, row + n, old(volume.freeOff)) &&
                     volume.freeOff == old(volume.freeOff) + n
    {
      var i := row;
      while i < row + n
        invariant row <= i <= row + n && volume.Valid()
        invariant volume.freeOff == old(volume.freeOff) + (i - row)
        invariant i > row ==> volume.freeOff <= volume.freeEnd
        invariant Made(old(layer1), layer1, row, i, old(volume.freeOff))
      {
        if i !in layer1 {
          var b := volume.BootstrapBigblock();
          if b.None? {
            return false;
          }
          layer1 := layer1[i := Layer1(b.value, 0)];
        }
        i := i + 1;
      }
      ok := true;
    }

    /** Loads the layer-2 entries of one row and counts the free ones. */
    method FillRow(i: nat, off: nat, end: nat) returns (n: nat)
      modifies this`layer2
      ensures Filled(old(layer2), layer2, i * RADIX2, i * RADIX2 + RADIX2, off, end)
      ensures n == Within(i * RADIX2, i * RADIX2 + RADIX2, off, end)
    {
      hide Filled;
      n := 0;
      var lo := i * RADIX2;
      FilledStart(layer2, lo, off, end);
      var b := lo;
      while b < lo + RADIX2
        invariant lo <= b <= lo + RADIX2 && Filled(old(layer2), layer2, lo, b, off, end)
        invariant n == Within(lo, b, off, end)
      {
        var e := Layer2(UNAVAIL, BIG, 0);
        if b < off {
          e := Layer2(FREEMAP, BIG, 0);
        } else if b < end {
          e := Layer2(0, 0, BIG);
          n := n + 1;
        }
        FilledStep(old(layer2), layer2, lo, b, off, end);
        layer2 := layer2[b := e];
        b := b + 1;
      }
    }

    method FillRows(row: nat, n: nat, off: nat, end: nat) returns (count: nat)
      requires forall i | row <= i < row + n :: i in layer1
      modifies this`layer1, this`layer2
      ensures Filled(old(layer2), layer2, row * RADIX2, (row + n) * RADIX2, off, end)
      ensures Counted(old(layer1), layer1, row, row + n, off, end)
      ensures count == Within(row * RADIX2, (row + n) * RADIX2, off, end)
    {
      hide Filled, Within;
      FilledStart(layer2, row * RADIX2, off, end);
      WithinNone(row * RADIX2, off, end);
      count := 0;
      var i := row;
      while i < row + n
        invariant row <= i <= row + n && Filled(old(layer2), layer2, row * RADIX2, i * RADIX2, off, end)
        invariant Counted(old(layer1), layer1, row, i, off, end)
        invariant count == Within(row * RADIX2, i * RADIX2, off, end)
      {
        ghost var before := layer2;
        var k := FillRow(i, off, end);
        FilledMore(old(layer2), before, layer2, row * RADIX2, i * RADIX2, i * RADIX2 + RADIX2, off, end);
        WithinSplit(row * RADIX2, i * RADIX2, i * RADIX2 + RADIX2, off, end);
        layer1 := layer1[i := layer1[i].(blocksFree := layer1[i].blocksFree + k)];
        count := count + k;
        i := i + 1;
      }
    }

    /** `initialize_freemap` and the caller's addition to the total: loads a fresh
        volume and predicts what `CountFreemap` does. */
    method AddVolume(volume: Volume, ghost es: seq<Extent>) returns (count: Option<nat>)
      requires volume.Valid() && Right(St(), es) && Fresh(St(), volume.no * VOLUME_ROWS, VOLUME_ROWS)
      modifies this`layer1, this`layer2, this`free, volume
      ensures volume.Valid()
      ensures var off := old(volume.freeOff) + Rows(volume.Base(), volume.freeEnd);
              if old(volume.freeOff) >= volume.freeEnd || off > volume.freeEnd then count.None?
              else count == Some(volume.freeEnd - off) && volume.freeOff == off && free == old(free) + count.value &&
                   Right(St(), es)
    {
      hide Inv, Distinct, Backed, Within, Filled, Loaded, Made, Counted, Fresh;
      if volume.freeOff >= volume.freeEnd {
        return None;
      }
      ghost var st, start := St(), volume.freeOff;
      var row := volume.no * VOLUME_ROWS;
      var n := Rows(volume.Base(), volume.freeEnd);
      RowsFit(volume.no, volume.freeEnd, n);
      FewerFresh(St(), row, n);
      var ok := MakeTables(volume, row, n);
      if !ok {
        return None;
      }
      ghost var made := layer1;
      var c := FillRows(row, n, volume.freeOff, volume.freeEnd);
      free := free + c;
      MadeCounted(st, St(), made, row, n, start, volume.freeEnd);
      LoadedKeeps(st, St(), es, row, n, start, volume.freeEnd);
      LoadedDistinct(st, St(), volume.no, n, start, volume.freeEnd);
      AllWithin(row * RADIX2, (row + n) * RADIX2, start + n, volume.freeEnd);
      count := Some(c);
    }

    /** Formatting a volume: the dry run before it, the layer-1 table on the root
        volume, then the load.  What is predicted is what is found. */
    method FormatVolume(volume: Volume, ghost es: seq<Extent>) returns (predicted: Option<nat>, count: Option<nat>)
      requires volume.Valid() && volume.freeOff == volume.Base() && Right(St(), es)
      requires Fresh(St(), volume.no * VOLUME_ROWS, VOLUME_ROWS)
      modifies this`layer1, this`layer2, this`free, volume
      ensures count.Some? ==> predicted == count && free == old(free) + count.value && Right(St(), es)
      ensures count.None? <==> volume.freeEnd <= volume.Base() ||
                               volume.Base() + (if volume.no == 0 then 1 else 0) +
                                 Rows(volume.Base(), volume.freeEnd) > volume.freeEnd
    {
      hide Right, Fresh;
      predicted := volume.CountFreemap();
      RowsFit(volume.no, volume.freeEnd, Rows(volume.Base(), volume.freeEnd));
      hide Rows;
      if volume.no == 0 {
        var b := volume.BootstrapBigblock();
        if b.None? {
          return predicted, None;
        }
      }
      count := AddVolume(volume, es);
    }

    /** `alloc_undo_bigblock`. */
    method AllocUndoBigblock(volume: Volume, ghost es: seq<Extent>) returns (r: Outcome)
      requires volume.Valid() && Right(St(), es)
      modifies this`layer1, this`layer2, this`free, volume
      ensures match r
              case OutOfSpace => old(volume.freeOff) >= volume.freeEnd
              case Asserted => old(volume.freeOff) < volume.freeEnd && TakeUndo(old(St()), old(volume.freeOff)).Stop?
              case At(at) => TakeUndo(old(St()), old(volume.freeOff)) == Done(St(), at) && Right(St(), es) &&
                             volume.freeOff == old(volume.freeOff) + 1
    {
      hide Right;
      var b := volume.BootstrapBigblock();
      if b.None? {
        return OutOfSpace;
      }
      var i := Row(b.value);
      if i !in layer1 || b.value !in layer2 || layer2[b.value].zone != 0 {
        return Asserted;
      }
      UndoRight(St(), es, b.value);
      layer1 := layer1[i := layer1[i].(blocksFree := layer1[i].blocksFree - 1)];
      layer2 := layer2[b.value := Layer2(UNDO, BIG, 0)];
      free := free - 1;
      r := At(Pos(b.value, 0));
    }

    /** `alloc_blockmap`: the retry loop, one table entry at a time. */
    method AllocBlockmap(zone: nat, bytes: nat, ghost es: seq<Extent>) returns (r: Outcome)
      requires Right(St(), es)
      modifies this
      ensures var len := DataAlign(bytes);
              if !RecordZone(zone) || zone !in old(next) || len == 0 || len > BUF then r == Asserted
              else match r
                   case At(at) => Alloc(old(St()), zone, len) == Done(St(), at) &&
                                  Right(St(), es + [Extent(zone, at, len)])
                   case OutOfSpace => Alloc(old(St()), zone, len) == NoSpace
                   case Asserted => Alloc(old(St()), zone, len) == Stop
    {
      hide Right, Row, Skip, Alloc;
      var len := DataAlign(bytes);
      if !RecordZone(zone) || zone !in next || len == 0 || len > BUF {
        return Asserted;
      }
      AllocRight(St(), es, zone, len);
      while true
        invariant zone in next && Alloc(St(), zone, len) == Alloc(old(St()), zone, len)
        decreases NBLOCKS + 1 - next[zone].block
      {
        AllocUnfolds(St(), zone, len);
        if next[zone].block >= NBLOCKS {
          return Asserted;
        }
        ghost var st := St();
        var at := Norm(next[zone].block, Skip(next[zone].off, len));
        var b, i := at.block, Row(at.block);
        if i !in layer1 || b !in layer2 || (at.off == 0 && layer1[i].blocksFree == 0) {
          return Asserted;
        }
        if layer2[b].zone == UNAVAIL {
          return OutOfSpace;
        }
        if layer2[b].zone == 0 {
          if layer2[b].bytesFree != BIG || layer2[b].appendOff != 0 {
            return Asserted;
          }
          layer1 := layer1[i := layer1[i].(blocksFree := layer1[i].blocksFree - 1)];
          layer2 := layer2[b := layer2[b].(zone := zone)];
          free := free - 1;
        }
        assert St() == Claim(st, b, zone);
        if layer2[b].zone == zone {
          if layer2[b].appendOff != at.off {
            return Asserted;
          }
          var end := Norm(b, at.off + len);
          layer2 := layer2[b := layer2[b].(appendOff := end.off, bytesFree := layer2[b].bytesFree - len)];
          next := next[zone := end];
          return At(at);
        }
        next := next[zone := Pos(b + 1, 0)];
      }
    }
  }

  lemma RowsFit(no: nat, end: nat, n: nat)
    requires no < 256 && end < no * VOLUME_BLOCKS + VOLUME_BLOCKS && n == Rows(no * VOLUME_BLOCKS, end)
    ensures var row := no * VOLUME_ROWS;
            n <= VOLUME_ROWS && row * RADIX2 == no * VOLUME_BLOCKS && (row + n) * RADIX2 <= NBLOCKS &&
            (no * VOLUME_BLOCKS < end ==> 0 < n && end <= (row + n) * RADIX2)
  {
  }

  lemma FewerFresh(st: State, row: nat, n: nat)
    requires n <= VOLUME_ROWS && Fresh(st, row, VOLUME_ROWS)
    ensures Fresh(st, row, n)
  {
  }

  lemma AllWithin(lo: nat, hi: nat, off: nat, end: nat)
    requires lo <= off <= end <= hi
    ensures Within(lo, hi, off, end) == end - off
  {
  }

  lemma MadeCounted(st: State, st': State, made: map<nat, Layer1>, row: nat, n: nat, start: nat, end: nat)
    requires Fresh(st, row, n) && Made(st.layer1, made, row, row + n, start)
    requires Counted(made, st'.layer1, row, row + n, start + n, end)
    requires Filled(st.layer2, st'.layer2, row * RADIX2, (row + n) * RADIX2, start + n, end)
    requires st'.free == st.free + Within(row * RADIX2, (row + n) * RADIX2, start + n, end) && st'.next == st.next
    ensures Loaded(st, st', row, n, start, end)
  {
    hide Filled, Within;
  }
}
