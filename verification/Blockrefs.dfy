/** The HAMMER2 media as the fsck tools see it.

    A block is a sequence of 128-byte cells.  Every cell can be read as a
    blockref, and each block kind says which cells of the block really are
    blockrefs.  Media is a map from a blockref's `data_off` (offset and size
    radix together) to the block stored there; reading an offset that is not in
    the map is an I/O failure. */
module Blockrefs {
  import opened Common

  const EMPTY: nat := 0
  const INODE: nat := 1
  const INDIRECT: nat := 2
  const DATA: nat := 3
  const DIRENT: nat := 4
  const FREEMAP_NODE: nat := 5
  const FREEMAP_LEAF: nat := 6
  const FREEMAP: nat := 254
  const VOLUME: nat := 255

  const CHECK_ISCSI32: nat := 2
  const CHECK_XXHASH64: nat := 3
  const CHECK_SHA192: nat := 4
  const CHECK_FREEMAP: nat := 5

  /** `data_off`: the low 6 bits are the size radix, the others the offset. */
  datatype DataOff = DataOff(off: nat, radix: nat)

  const NO_DATA := DataOff(0, 0)

  /** One 128-byte cell.  `check` is the check-method half of the methods byte,
      `lo` and `hi` are the first two 32-bit words of the check area, `direct`
      is the DIRECTDATA bit at byte 0x51 (the inode flags when the cell is the
      first one of an inode), `rest` is everything else. */
  datatype Blockref = Blockref(kind: nat, check: nat, dataOff: DataOff,
                               lo: nat, hi: nat, direct: bool, rest: nat)
  {
    predicate HasData() {
      dataOff.radix != 0
    }

    function Bytes(): nat {
      if HasData() then Pow2(dataOff.radix) else 0
    }
  }

  type Block = seq<Blockref>
  type Media = map<DataOff, Block>

  /** Blocks as they lie on a volume: each has the cells its radix says, and no two
      overlap. */
  ghost predicate Laid(m: Media) {
    (forall a <- m :: 10 <= a.radix <= 16 && 128 * |m[a]| == Pow2(a.radix)) &&
    forall a <- m, b <- m | a != b :: a.off + Pow2(a.radix) <= b.off || b.off + Pow2(b.radix) <= a.off
  }

  /** The check codes, left uninterpreted.  `sha192Ok` is constantly true in a
      build without OpenSSL. */
  datatype Codes = Codes(icrc32: Block -> nat, xxh64: Block -> (nat, nat),
                         sha192Ok: (Blockref, Block) -> bool)

  predicate CheckOk(h: Codes, b: Blockref, blk: Block) {
    var algo := b.check;
    if algo == CHECK_ISCSI32 || algo == CHECK_FREEMAP then b.lo == h.icrc32(blk)
    else if algo == CHECK_XXHASH64 then (b.lo, b.hi) == h.xxh64(blk)
    else if algo == CHECK_SHA192 then h.sha192Ok(b, blk)
    else true
  }

  /** The blockref with the check code recomputed for `blk`. */
  function SetCheck(h: Codes, b: Blockref, blk: Block): Blockref {
    var algo := b.check;
    if algo == CHECK_ISCSI32 || algo == CHECK_FREEMAP then b.(lo := h.icrc32(blk))
    else if algo == CHECK_XXHASH64 then b.(lo := h.xxh64(blk).0, hi := h.xxh64(blk).1)
    else b
  }

  predicate ValidKind(kind: nat) {
    kind <= FREEMAP_LEAF || kind == FREEMAP || kind == VOLUME
  }

  /** First cell that holds a blockref: inode and super-root blocksets start at
      byte 0x200, the freemap blockset at byte 0x800. */
  function SlotBase(kind: nat): nat {
    if kind == INODE || kind == VOLUME then 4 else if kind == FREEMAP then 16 else 0
  }

  function SlotCount(kind: nat, blk: Block): nat {
    if kind == INODE then
      if |blk| > 0 && blk[0].direct then 0 else 4
    else if kind == INDIRECT || kind == FREEMAP_NODE then |blk|
    else if kind == VOLUME || kind == FREEMAP then 4
    else 0
  }

  predicate IsSlot(kind: nat, blk: Block, i: int) {
    SlotBase(kind) <= i < SlotBase(kind) + SlotCount(kind, blk)
  }

  predicate Sized(kind: nat, blk: Block) {
    SlotCount(kind, blk) > 0 ==> SlotBase(kind) + SlotCount(kind, blk) <= |blk|
  }

  function Children(kind: nat, blk: Block): (cs: seq<Blockref>)
    requires Sized(kind, blk)
    ensures |cs| == SlotCount(kind, blk)
  {
    if SlotCount(kind, blk) == 0 then []
    else blk[SlotBase(kind)..SlotBase(kind) + SlotCount(kind, blk)]
  }

  /** A set of (kind, offset) views closed under following blockrefs, with a
      rank that falls along every edge: the block graph is acyclic but blocks
      may be shared. */
  datatype Graph = Graph(views: set<(nat, DataOff)>, rank: map<DataOff, nat>)

  /** The tools assert that an empty blockref has no size and that a blockref
      worth remembering has one. */
  ghost predicate InGraph(g: Graph, b: Blockref) {
    (b.kind == EMPTY ==> !b.HasData()) &&
    (b.HasData() || b.dataOff == NO_DATA) &&
    (b.HasData() ==> (b.kind, b.dataOff) in g.views)
  }

  ghost predicate Below(m: Media, g: Graph, b: Blockref, off: DataOff) {
    b.HasData() && b.dataOff in m ==>
      b.dataOff in g.rank && off in g.rank && g.rank[b.dataOff] < g.rank[off]
  }

  ghost predicate Closed(m: Media, g: Graph) {
    forall v <- g.views :: v.1 in m ==>
      v.1 in g.rank && Sized(v.0, m[v.1]) &&
      forall i | IsSlot(v.0, m[v.1], i) ::
        InGraph(g, m[v.1][i]) && Below(m, g, m[v.1][i], v.1)
  }

  ghost function Rank(m: Media, g: Graph, b: Blockref): nat {
    if b.HasData() && b.dataOff in m && b.dataOff in g.rank then g.rank[b.dataOff] + 1 else 0
  }

  lemma ChildInGraph(m: Media, g: Graph, b: Blockref, i: nat)
    requires Closed(m, g) && InGraph(g, b) && b.HasData() && b.dataOff in m
    requires i < SlotCount(b.kind, m[b.dataOff])
    ensures Sized(b.kind, m[b.dataOff])
    ensures Children(b.kind, m[b.dataOff])[i] == m[b.dataOff][SlotBase(b.kind) + i]
    ensures InGraph(g, Children(b.kind, m[b.dataOff])[i])
    ensures Below(m, g, Children(b.kind, m[b.dataOff])[i], b.dataOff)
    ensures Rank(m, g, Children(b.kind, m[b.dataOff])[i]) < Rank(m, g, b)
  {
    var v := (b.kind, b.dataOff);
    assert v in g.views;
    assert IsSlot(v.0, m[v.1], SlotBase(b.kind) + i);
  }
}
