/** Media on which a repair reports success and leaves a wrong check code: one block
    that is reached under two kinds. */
module FsckTwoKinds {
  import opened Common
  import opened Blockrefs
  import opened FsckVerify
  import opened FsckRepair
  import opened FsckStrays

  const HEADER := Head(0)
  const SHARED := Spot(0)
  const LEAF := DataOff(AREA + 4096, 10)
  const ROOT := Root(0)
  const ZEROS: Block := Padded([], 8)

  function Pointer(kind: nat, off: DataOff, code: nat): Blockref {
    Blockref(kind, CHECK_ISCSI32, off, code, 0, false, 0)
  }

  function Top(x: nat, y: nat, cx: nat, cy: nat): Block {
    Padded([NOTHING, NOTHING, NOTHING, NOTHING, Pointer(x, SHARED, cx), Pointer(y, SHARED, cy)], 512)
  }

  function Inner(code: nat): Block {
    Padded([Pointer(DATA, LEAF, code)], 32)
  }

  /** A header that reaches one block first under kind `x`, then under kind `y`. */
  function TwoKinds(x: nat, y: nat, cx: nat, cy: nat, code: nat): Media {
    map[HEADER := Top(x, y, cx, cy), SHARED := Inner(code), LEAF := ZEROS]
  }

  function TwoKindsGraph(x: nat, y: nat): Graph {
    Graph({(VOLUME, HEADER), (x, SHARED), (y, SHARED), (DATA, LEAF)}, map[HEADER := 2, SHARED := 1, LEAF := 0])
  }

  predicate Kinds(x: nat, y: nat) {
    x in {DATA, DIRENT, FREEMAP_LEAF} && y in {INDIRECT, FREEMAP_NODE}
  }

  lemma TwoKindsLaid(x: nat, y: nat, cx: nat, cy: nat, code: nat)
    ensures Laid(TwoKinds(x, y, cx, cy, code))
  {
    hide Pow2;
    Sizes();
  }

  lemma TwoKindsClosed(x: nat, y: nat, cx: nat, cy: nat, code: nat)
    requires Kinds(x, y)
    ensures var m, g := TwoKinds(x, y, cx, cy, code), TwoKindsGraph(x, y);
            Closed(m, g) && InGraph(g, ROOT) && Inside(m, g, ROOT, m[HEADER]) && InGraph(g, NOTHING) &&
            InGraph(g, Pointer(x, SHARED, cx)) && InGraph(g, Pointer(y, SHARED, cy)) &&
            InGraph(g, Pointer(DATA, LEAF, code)) && Inside(m, g, Pointer(y, SHARED, cy), m[SHARED])
  {
  }

  // ----- the repair -----

  /** A check of a slot that still is what it was sets its code. */
  lemma CheckSets(m: Media, h: Codes, prev: DataOff, k: nat, kind: nat, off: DataOff, code: nat)
    requires prev in m && k < |m[prev]| && off in m && m[prev][k] == Pointer(kind, off, code)
    ensures Check(m, h, prev, k, Pointer(kind, off, code)) ==
            (Done, m[prev := m[prev][k := Pointer(kind, off, h.icrc32(m[off]))]])
  {
    if code == h.icrc32(m[off]) {
      assert m[prev][k := Pointer(kind, off, code)] == m[prev];
      assert m[prev := m[prev]] == m;
    }
  }

  lemma Recoded(x: nat, y: nat, cx: nat, cy: nat, code: nat, z: nat)
    ensures var m := TwoKinds(x, y, cx, cy, code);
            m[HEADER := m[HEADER][4 := Pointer(x, SHARED, z)]] == TwoKinds(x, y, z, cy, code) &&
            m[HEADER := m[HEADER][5 := Pointer(y, SHARED, z)]] == TwoKinds(x, y, cx, z, code) &&
            m[SHARED := m[SHARED][0 := Pointer(DATA, LEAF, z)]] == TwoKinds(x, y, cx, cy, z)
  {
    assert Top(x, y, cx, cy)[4 := Pointer(x, SHARED, z)] == Top(x, y, z, cy);
    assert Top(x, y, cx, cy)[5 := Pointer(y, SHARED, z)] == Top(x, y, cx, z);
    assert Inner(code)[0 := Pointer(DATA, LEAF, z)] == Inner(z);
    hide Top, Inner;
  }

  lemma ModifyUnfolds(m: Media, g: Graph, h: Codes, b: Blockref)
    requires Closed(m, g) && InGraph(g, b) && b.HasData() && b.dataOff in m
    ensures Inside(m, g, b, m[b.dataOff]) && Modify(m, g, h, b) == ModifyFrom(m, g, h, b, m[b.dataOff], 0)
  {
    hide Closed, ModifyFrom;
  }

  /** A block without blockrefs under its kind is left as it is. */
  lemma BareVisit(m: Media, g: Graph, h: Codes, b: Blockref)
    requires Closed(m, g) && InGraph(g, b) && b.HasData() && b.dataOff in m && SlotCount(b.kind, m[b.dataOff]) == 0
    ensures Modify(m, g, h, b) == (Done, m)
  {
    hide Closed;
    LoopEnds(m, g, h, b, m[b.dataOff], 0);
  }

  /** Empty slots are passed over. */
  lemma {:induction false} EmptySlots(m: Media, g: Graph, h: Codes, b: Blockref, blk: Block, i: nat)
    requires Inside(m, g, b, blk) && i <= SlotCount(b.kind, blk) && SlotBase(b.kind) + SlotCount(b.kind, blk) <= |blk|
    requires forall k | SlotBase(b.kind) + i <= k < SlotBase(b.kind) + SlotCount(b.kind, blk) :: blk[k] == NOTHING
    ensures ModifyFrom(m, g, h, b, blk, i) == (Done, m)
    decreases SlotCount(b.kind, blk) - i
  {
    hide ModifyFrom, Step, Closed, Modify;
    if i == SlotCount(b.kind, blk) {
      LoopEnds(m, g, h, b, blk, i);
    } else {
      StepUnfolds(m, g, h, b, blk, i);
      LoopUnfolds(m, g, h, b, blk, i);
      EmptySlots(m, g, h, b, blk, i + 1);
    }
  }

  /** The first visit sees no blockref in the shared block and sets its own code. */
  lemma FirstVisit(h: Codes, x: nat, y: nat, cx: nat, cy: nat, code: nat)
    requires Kinds(x, y)
    ensures var m, g := TwoKinds(x, y, cx, cy, code), TwoKindsGraph(x, y);
            Inside(m, g, ROOT, m[HEADER]) &&
            Step(m, g, h, ROOT, m[HEADER], 0) == (Done, TwoKinds(x, y, h.icrc32(Inner(code)), cy, code))
  {
    hide Modify, ModifyFrom, Step, Closed, Check, Inner;
    var m, g := TwoKinds(x, y, cx, cy, code), TwoKindsGraph(x, y);
    TwoKindsClosed(x, y, cx, cy, code);
    StepUnfolds(m, g, h, ROOT, m[HEADER], 0);
    BareVisit(m, g, h, Pointer(x, SHARED, cx));
    CheckSets(m, h, HEADER, 4, x, SHARED, cx);
    Recoded(x, y, cx, cy, code, h.icrc32(m[SHARED]));
  }

  /** The second visit repairs the blockref inside it, and then its own code. */
  lemma SecondVisit(h: Codes, x: nat, y: nat, cx: nat, cy: nat, code: nat, blk: Block)
    requires Kinds(x, y)
    requires var m, g := TwoKinds(x, y, cx, cy, code), TwoKindsGraph(x, y);
             Inside(m, g, ROOT, blk) && |blk| == 512 && blk[5] == Pointer(y, SHARED, cy)
    ensures var m, g, good := TwoKinds(x, y, cx, cy, code), TwoKindsGraph(x, y), h.icrc32(ZEROS);
            Step(m, g, h, ROOT, blk, 1) == (Done, TwoKinds(x, y, cx, h.icrc32(Inner(good)), good))
  {
    hide Modify, ModifyFrom, Step, Closed, Check, Inner;
    var m, g, good := TwoKinds(x, y, cx, cy, code), TwoKindsGraph(x, y), h.icrc32(ZEROS);
    TwoKindsClosed(x, y, cx, cy, code);
    StepUnfolds(m, g, h, ROOT, blk, 1);
    InnerVisit(h, x, y, cx, cy, code);
    CheckSets(TwoKinds(x, y, cx, cy, good), h, HEADER, 5, y, SHARED, cy);
    Recoded(x, y, cx, cy, good, h.icrc32(Inner(good)));
  }

  lemma InnerVisit(h: Codes, x: nat, y: nat, cx: nat, cy: nat, code: nat)
    requires Kinds(x, y)
    ensures var m, g := TwoKinds(x, y, cx, cy, code), TwoKindsGraph(x, y);
            Closed(m, g) && InGraph(g, Pointer(y, SHARED, cy)) &&
            Modify(m, g, h, Pointer(y, SHARED, cy)) == (Done, TwoKinds(x, y, cx, cy, h.icrc32(ZEROS)))
  {
    hide Modify, ModifyFrom, Step, Closed, Check, Top;
    var m, g, good := TwoKinds(x, y, cx, cy, code), TwoKindsGraph(x, y), h.icrc32(ZEROS);
    var c, blk, m1 := Pointer(y, SHARED, cy), Inner(code), TwoKinds(x, y, cx, cy, good);
    TwoKindsClosed(x, y, cx, cy, code);
    ModifyUnfolds(m, g, h, c);
    BareVisit(m, g, h, Pointer(DATA, LEAF, code));
    StepUnfolds(m, g, h, c, blk, 0);
    LoopUnfolds(m, g, h, c, blk, 0);
    CheckSets(m, h, SHARED, 0, DATA, LEAF, code);
    Recoded(x, y, cx, cy, code, good);
    EmptySlots(m1, g, h, c, blk, 1);
  }

  lemma HeaderVisits(h: Codes, x: nat, y: nat, cx: nat, cy: nat, code: nat)
    requires Kinds(x, y)
    ensures var m, g, good := TwoKinds(x, y, cx, cy, code), TwoKindsGraph(x, y), h.icrc32(ZEROS);
            Closed(m, g) && InGraph(g, ROOT) &&
            Modify(m, g, h, ROOT) == (Done, TwoKinds(x, y, h.icrc32(Inner(code)), h.icrc32(Inner(good)), good))
  {
    hide Modify, ModifyFrom, Step, Closed, Inner;
    var m, g, good := TwoKinds(x, y, cx, cy, code), TwoKindsGraph(x, y), h.icrc32(ZEROS);
    var stale, blk := h.icrc32(Inner(code)), m[HEADER];
    TwoKindsClosed(x, y, cx, cy, code);
    ModifyUnfolds(m, g, h, ROOT);
    FirstVisit(h, x, y, cx, cy, code);
    LoopUnfolds(m, g, h, ROOT, blk, 0);
    SecondVisit(h, x, y, stale, cy, code, blk);
    LoopUnfolds(TwoKinds(x, y, stale, cy, code), g, h, ROOT, blk, 1);
    EmptySlots(TwoKinds(x, y, stale, h.icrc32(Inner(good)), good), g, h, ROOT, blk, 2);
  }

  // ----- the verdict afterwards -----

  lemma RootChildren(x: nat, y: nat, cx: nat, cy: nat, code: nat)
    ensures var blk := TwoKinds(x, y, cx, cy, code)[HEADER];
            SlotCount(VOLUME, blk) == 4 && Sized(VOLUME, blk) &&
            Children(VOLUME, blk) == [Pointer(x, SHARED, cx), Pointer(y, SHARED, cy), NOTHING, NOTHING]
  {
  }

  lemma InnerChildren(x: nat, y: nat, cx: nat, cy: nat, code: nat, k: nat)
    requires k in {INDIRECT, FREEMAP_NODE}
    ensures var blk := TwoKinds(x, y, cx, cy, code)[SHARED];
            SlotCount(k, blk) == 32 && Sized(k, blk) &&
            forall c <- Children(k, blk) :: c == Pointer(DATA, LEAF, code) || c == NOTHING
  {
  }

  /** Below the second blockref all is well, and below the first all but its own code. */
  lemma InnerGood(h: Codes, x: nat, y: nat, cx: nat)
    requires Kinds(x, y)
    ensures var good := h.icrc32(ZEROS);
            var m, g := TwoKinds(x, y, cx, h.icrc32(Inner(good)), good), TwoKindsGraph(x, y);
            var b := Pointer(y, SHARED, h.icrc32(Inner(good)));
            Closed(m, g) && InGraph(g, b) && Good(m, g, h, b) && InGraph(g, NOTHING) && Good(m, g, h, NOTHING)
  {
    hide Good, Closed, InGraph, GoodFrom, Children, Inner, Top;
    var good := h.icrc32(ZEROS);
    var cy := h.icrc32(Inner(good));
    var m, g := TwoKinds(x, y, cx, cy, good), TwoKindsGraph(x, y);
    var b, d := Pointer(y, SHARED, cy), Pointer(DATA, LEAF, good);
    TwoKindsClosed(x, y, cx, cy, good);
    BareGood(m, g, h, NOTHING);
    NoSlotsGood(m, g, h, d);
    BlockGood(m, g, h, d);
    InnerChildren(x, y, cx, cy, good, y);
    AllGood(m, g, h, b, 0);
    BlockGood(m, g, h, b);
  }

  lemma NoSlotsGood(m: Media, g: Graph, h: Codes, b: Blockref)
    requires Closed(m, g) && InGraph(g, b) && b.HasData() && b.dataOff in m && SlotCount(b.kind, m[b.dataOff]) == 0
    ensures GoodFrom(m, g, h, b, 0)
  {
    hide Closed;
  }

  /** The header is good exactly when the code that was set first is still right. */
  lemma GoodIff(h: Codes, x: nat, y: nat, cx: nat)
    requires Kinds(x, y)
    ensures var good := h.icrc32(ZEROS);
            var m, g := TwoKinds(x, y, cx, h.icrc32(Inner(good)), good), TwoKindsGraph(x, y);
            Closed(m, g) && InGraph(g, ROOT) && (Good(m, g, h, ROOT) <==> cx == h.icrc32(Inner(good)))
  {
    hide Good, Closed, InGraph, GoodFrom, Children, Inner, Top;
    var good := h.icrc32(ZEROS);
    var cy := h.icrc32(Inner(good));
    var m, g := TwoKinds(x, y, cx, cy, good), TwoKindsGraph(x, y);
    var b := Pointer(x, SHARED, cx);
    TwoKindsClosed(x, y, cx, cy, good);
    RootChildren(x, y, cx, cy, good);
    InnerGood(h, x, y, cx);
    NoSlotsGood(m, g, h, b);
    if cx == cy {
      BlockGood(m, g, h, b);
      AllGood(m, g, h, ROOT, 0);
      BlockGood(m, g, h, ROOT);
    } else {
      FirstBad(m, g, h, ROOT, b);
    }
  }

  lemma FirstBad(m: Media, g: Graph, h: Codes, b: Blockref, c: Blockref)
    requires Closed(m, g) && InGraph(g, b) && b.HasData() && b.dataOff in m && 0 < SlotCount(b.kind, m[b.dataOff])
    requires Sized(b.kind, m[b.dataOff]) && Children(b.kind, m[b.dataOff])[0] == c && InGraph(g, c)
    requires c.HasData() && (c.dataOff in m ==> !CheckOk(h, c, m[c.dataOff]))
    ensures !Good(m, g, h, b)
  {
    hide Closed, CheckOk, InGraph;
    assert !Good(m, g, h, c);
    assert !GoodFrom(m, g, h, b, 0);
  }

  // ----- the result -----

  lemma AllSlots(m: Media, g: Graph, b: Blockref, p: Blockref -> bool)
    requires Closed(m, g) && InGraph(g, b) && (b.HasData() ==> b.dataOff in m && Sized(b.kind, m[b.dataOff]))
    requires b.HasData() ==>
               forall c <- Children(b.kind, m[b.dataOff]) :: p(c) && InGraph(g, c) && Everywhere(m, g, c, p)
    ensures Everywhere(m, g, b, p)
  {
    hide Closed, InGraph;
    if b.HasData() {
      forall i | IsSlot(b.kind, m[b.dataOff], i)
        ensures AtSlot(m, g, b, p, i)
      {
        ChildInGraph(m, g, b, i - SlotBase(b.kind));
        assert Children(b.kind, m[b.dataOff])[i - SlotBase(b.kind)] in Children(b.kind, m[b.dataOff]);
      }
    }
  }

  lemma TwoKindsValid(x: nat, y: nat, cx: nat, cy: nat, code: nat)
    requires Kinds(x, y)
    ensures var m, g := TwoKinds(x, y, cx, cy, code), TwoKindsGraph(x, y);
            Closed(m, g) && InGraph(g, ROOT) && Everywhere(m, g, ROOT, KindOk)
  {
    hide Everywhere, Closed, InGraph, Inner, Top;
    var m, g := TwoKinds(x, y, cx, cy, code), TwoKindsGraph(x, y);
    TwoKindsClosed(x, y, cx, cy, code);
    InnerChildren(x, y, cx, cy, code, y);
    RootChildren(x, y, cx, cy, code);
    AllSlots(m, g, NOTHING, KindOk);
    AllSlots(m, g, Pointer(DATA, LEAF, code), KindOk);
    AllSlots(m, g, Pointer(x, SHARED, cx), KindOk);
    AllSlots(m, g, Pointer(y, SHARED, cy), KindOk);
    AllSlots(m, g, ROOT, KindOk);
  }

  /** A block without blockrefs under the kind it is reached by first is changed again
      when it is reached under a kind that has one.  The repair reports success; the
      tree is good exactly when the change made no difference to the check code. */
  lemma TwoKindsBreak(h: Codes, x: nat, y: nat, cx: nat, cy: nat, code: nat)
    requires x in {DATA, DIRENT, FREEMAP_LEAF} && y in {INDIRECT, FREEMAP_NODE}
    ensures var m, g := TwoKinds(x, y, cx, cy, code), TwoKindsGraph(x, y);
            Laid(m) && Closed(m, g) && InGraph(g, ROOT) && IsRoot(ROOT) && Everywhere(m, g, ROOT, KindOk) &&
            var r := Reconstruct(m, g, h, [ROOT]);
            r.0 == Succeeded && Closed(r.1, g) &&
            (Good(r.1, g, h, ROOT) <==> h.icrc32(Inner(code)) == h.icrc32(Inner(h.icrc32(ZEROS))))
  {
    hide Modify, Closed, Good, Everywhere, Laid, Inner, Top, InGraph;
    var m, g := TwoKinds(x, y, cx, cy, code), TwoKindsGraph(x, y);
    TwoKindsLaid(x, y, cx, cy, code);
    TwoKindsValid(x, y, cx, cy, code);
    HeaderVisits(h, x, y, cx, cy, code);
    GoodIff(h, x, y, h.icrc32(Inner(code)));
    OneHeader(m, g, h, ROOT);
  }

  lemma OneHeader(m: Media, g: Graph, h: Codes, b: Blockref)
    requires Closed(m, g) && InGraph(g, b) && b.HasData() && b.dataOff in m && Modify(m, g, h, b).0 == Done
    ensures Reconstruct(m, g, h, [b]) == (Succeeded, Modify(m, g, h, b).1)
  {
    hide Modify, Closed;
    assert [b][1..] == [];
  }
}
