/** Repair of the check codes of a HAMMER2 blockref tree: a post-order walk
    that rewrites, in each parent block, the check code of every child that
    does not match. */
module FsckRepair {
  import opened Common
  import opened Blockrefs
  import opened FsckVerify

  /** How a repair can end.  `Mismatch` is the "Blockref contents mismatch"
      exit, `Unsupported` the assertion on a SHA192 blockref. */
  datatype Outcome = Done | IoError | Mismatch | Unsupported

  // ----- what a repair may change -----

  function Strip(b: Blockref): Blockref {
    b.(lo := 0, hi := 0)
  }

  ghost predicate SameCells(x: Block, y: Block) {
    |x| == |y| && forall i | 0 <= i < |x| :: Strip(x[i]) == Strip(y[i])
  }

  /** Two media that differ in check codes only. */
  ghost predicate SameShape(m: Media, m': Media) {
    m.Keys == m'.Keys && forall off <- m :: SameCells(m[off], m'[off])
  }

  lemma ShapeKeepsGraph(m: Media, m': Media, g: Graph)
    requires SameShape(m, m') && Closed(m, g)
    ensures Closed(m', g)
    ensures forall b: Blockref :: Rank(m', g, b) == Rank(m, g, b)
  {
    forall v | v in g.views && v.1 in m'
      ensures v.1 in g.rank && Sized(v.0, m'[v.1])
      ensures forall i | IsSlot(v.0, m'[v.1], i) :: InGraph(g, m'[v.1][i]) && Below(m', g, m'[v.1][i], v.1)
    {
      assert v.1 in m && SameCells(m[v.1], m'[v.1]);
      assert SlotCount(v.0, m'[v.1]) == SlotCount(v.0, m[v.1]);
      forall i | IsSlot(v.0, m'[v.1], i)
        ensures InGraph(g, m'[v.1][i]) && Below(m', g, m'[v.1][i], v.1)
      {
        assert IsSlot(v.0, m[v.1], i);
        assert Strip(m[v.1][i]) == Strip(m'[v.1][i]);
      }
    }
  }

  // ----- the repair -----

  /** `modify_check`: `c` is slot `k` of `prev` as the walk first read it. */
  function Check(m: Media, h: Codes, prev: DataOff, k: nat, c: Blockref): (r: (Outcome, Media))
    requires prev in m && k < |m[prev]| && c.dataOff in m
    ensures SameShape(m, r.1)
    ensures r.1 == m || r.1 == m[prev := m[prev][k := SetCheck(h, m[prev][k], m[c.dataOff])]]
  {
    var cell := m[prev][k];
    if cell != c then (Mismatch, m)
    else if cell.check == CHECK_SHA192 then (Unsupported, m)
    else if CheckOk(h, cell, m[c.dataOff]) then (Done, m)
    else (Done, m[prev := m[prev][k := SetCheck(h, cell, m[c.dataOff])]])
  }

  /** `modify_blockref` up to its final check: repairs everything below `b`. */
  function Modify(m: Media, ghost g: Graph, h: Codes, b: Blockref): (r: (Outcome, Media))
    requires Closed(m, g) && InGraph(g, b)
    ensures SameShape(m, r.1) && (r.0 == Done && b.HasData() ==> b.dataOff in m)
    decreases Rank(m, g, b), 1
  {
    if !b.HasData() then (Done, m)
    else if b.dataOff !in m then (IoError, m)
    else ModifyFrom(m, g, h, b, m[b.dataOff], 0)
  }

  /** The walk is inside block `b`, whose cells were first read as `blk`. */
  ghost predicate Inside(m: Media, g: Graph, b: Blockref, blk: Block) {
    Closed(m, g) && InGraph(g, b) && b.HasData() && b.dataOff in m && SameCells(blk, m[b.dataOff])
  }

  lemma SlotInside(m: Media, g: Graph, b: Blockref, blk: Block, i: nat)
    requires Inside(m, g, b, blk) && i < SlotCount(b.kind, blk)
    ensures SlotCount(b.kind, blk) == SlotCount(b.kind, m[b.dataOff])
    ensures SlotBase(b.kind) + i < |blk| == |m[b.dataOff]|
    ensures IsSlot(b.kind, m[b.dataOff], SlotBase(b.kind) + i)
    ensures var c := blk[SlotBase(b.kind) + i];
            Strip(c) == Strip(m[b.dataOff][SlotBase(b.kind) + i]) &&
            InGraph(g, c) && Rank(m, g, c) < Rank(m, g, b) == g.rank[b.dataOff] + 1 &&
            (c.HasData() && c.dataOff in m ==> c.dataOff != b.dataOff)
  {
    ChildInGraph(m, g, b, i);
  }

  /** The loop over the slots of `blk`, the copy of the block read on entry. */
  function ModifyFrom(m: Media, ghost g: Graph, h: Codes, b: Blockref, blk: Block, i: nat): (r: (Outcome, Media))
    requires Inside(m, g, b, blk) && i <= SlotCount(b.kind, blk)
    ensures SameShape(m, r.1)
    decreases Rank(m, g, b), 0, SlotCount(b.kind, blk) - i, 1
  {
    if i == SlotCount(b.kind, blk) then (Done, m)
    else
      var r := Step(m, g, h, b, blk, i);
      ShapeKeepsGraph(m, r.1, g);
      if r.0 != Done then r else ModifyFrom(r.1, g, h, b, blk, i + 1)
  }

  /** One slot: repair below the child, then fix the child's check code. */
  function Step(m: Media, ghost g: Graph, h: Codes, b: Blockref, blk: Block, i: nat): (r: (Outcome, Media))
    requires Inside(m, g, b, blk) && i < SlotCount(b.kind, blk)
    ensures SameShape(m, r.1)
    decreases Rank(m, g, b), 0, SlotCount(b.kind, blk) - i, 0
  {
    SlotInside(m, g, b, blk, i);
    var c := blk[SlotBase(b.kind) + i];
    if c.kind == EMPTY then (Done, m) else ModifyAt(m, g, h, c, Some(b.dataOff), SlotBase(b.kind) + i)
  }

  /** All of `modify_blockref`: `prev` and `slot` say where `b` was found (no parent for a root). */
  function ModifyAt(m: Media, ghost g: Graph, h: Codes, b: Blockref, prev: Option<DataOff>, slot: nat)
    : (r: (Outcome, Media))
    requires Closed(m, g) && InGraph(g, b)
    requires prev.Some? ==> prev.value in m && slot < |m[prev.value]|
    ensures SameShape(m, r.1)
    decreases Rank(m, g, b), 2
  {
    var r := Modify(m, g, h, b);
    if prev.None? || r.0 != Done || !b.HasData() then r else Check(r.1, h, prev.value, slot, b)
  }

  /** One turn of the loop. */
  lemma LoopUnfolds(m: Media, g: Graph, h: Codes, b: Blockref, blk: Block, i: nat)
    requires Inside(m, g, b, blk) && i < SlotCount(b.kind, blk)
    ensures var r := Step(m, g, h, b, blk, i);
            Inside(r.1, g, b, blk) && Rank(r.1, g, b) == Rank(m, g, b) &&
            ModifyFrom(m, g, h, b, blk, i) == if r.0 != Done then r else ModifyFrom(r.1, g, h, b, blk, i + 1)
  {
    ShapeKeepsGraph(m, Step(m, g, h, b, blk, i).1, g);
  }

  // ----- consistency: the goal of a repair -----

  /** Some blockref inside a block points at `off` and carries a check code for it. */
  ghost predicate Guarded(m: Media, g: Graph, off: DataOff) {
    exists v, i :: v in g.views && v.1 in m && IsSlot(v.0, m[v.1], i) && i < |m[v.1]| && Guards(m[v.1][i], off)
  }

  predicate Guards(b: Blockref, off: DataOff) {
    b.HasData() && b.dataOff == off && CHECK_ISCSI32 <= b.check <= CHECK_FREEMAP
  }

  predicate SameSlots(kind: nat, kind': nat, blk: Block) {
    SlotCount(kind, blk) == SlotCount(kind', blk) && (SlotCount(kind, blk) > 0 ==> SlotBase(kind) == SlotBase(kind'))
  }

  /** A block guarded by a check code has the same blockrefs under every kind it
      is reached by.  A volume header, the root of two trees, is not guarded. */
  ghost predicate Compatible(m: Media, g: Graph) {
    forall v <- g.views, w <- g.views ::
      v.1 == w.1 && v.1 in m && Guarded(m, g, v.1) ==> SameSlots(v.0, w.0, m[v.1])
  }

  /** Every blockref below `b` can be read and matches its check code. */
  ghost predicate Consistent(m: Media, g: Graph, h: Codes, b: Blockref)
    requires Closed(m, g) && InGraph(g, b)
    decreases Rank(m, g, b), 1
  {
    b.HasData() ==>
      b.dataOff in m &&
      assert (b.kind, b.dataOff) in g.views;
      forall i | IsSlot(b.kind, m[b.dataOff], i) :: SlotOk(m, g, h, b, i)
  }

  ghost predicate SlotOk(m: Media, g: Graph, h: Codes, b: Blockref, i: int)
    requires Closed(m, g) && InGraph(g, b) && b.HasData() && b.dataOff in m
    requires IsSlot(b.kind, m[b.dataOff], i)
    decreases Rank(m, g, b), 0
  {
    ChildInGraph(m, g, b, i - SlotBase(b.kind));
    RefOk(m, g, h, m[b.dataOff][i])
  }

  ghost predicate RefOk(m: Media, g: Graph, h: Codes, c: Blockref)
    requires Closed(m, g) && InGraph(g, c)
    decreases Rank(m, g, c), 2
  {
    (c.HasData() ==> c.dataOff in m && CheckOk(h, c, m[c.dataOff])) && Consistent(m, g, h, c)
  }

  // ----- one write -----

  /** A write of slot `k` of block `p`, made only when that slot was bad. */
  ghost predicate BadWrite(m: Media, m': Media, g: Graph, h: Codes, prev: Blockref, k: int) {
    Closed(m, g) && InGraph(g, prev) && prev.HasData() && prev.dataOff in m &&
    IsSlot(prev.kind, m[prev.dataOff], k) && k < |m[prev.dataOff]| &&
    !SlotOk(m, g, h, prev, k) && SameShape(m, m') &&
    (forall off <- m | off != prev.dataOff :: m'[off] == m[off]) &&
    (forall j | 0 <= j < |m[prev.dataOff]| && j != k :: m'[prev.dataOff][j] == m[prev.dataOff][j])
  }

  /** Such a write leaves every consistent subtree consistent, and does not
      touch its top block if that is guarded. */
  lemma {:induction false} WriteKeeps(m: Media, m': Media, g: Graph, h: Codes, prev: Blockref, k: int, w: Blockref)
    requires BadWrite(m, m', g, h, prev, k) && Compatible(m, g)
    requires InGraph(g, w) && Consistent(m, g, h, w)
    ensures Closed(m', g) && Consistent(m', g, h, w)
    ensures w.HasData() && Guarded(m, g, w.dataOff) ==> m'[w.dataOff] == m[w.dataOff]
    decreases Rank(m, g, w)
  {
    ShapeKeepsGraph(m, m', g);
    if w.HasData() {
      WriteElsewhere(m, m', g, h, prev, k, w);
      forall i | IsSlot(w.kind, m'[w.dataOff], i)
        ensures SlotOk(m', g, h, w, i)
      {
        assert SameCells(m[w.dataOff], m'[w.dataOff]);
        assert IsSlot(w.kind, m[w.dataOff], i) && SlotOk(m, g, h, w, i);
        ChildInGraph(m, g, w, i - SlotBase(w.kind));
        var c := m[w.dataOff][i];
        assert RefOk(m, g, h, c) && m'[w.dataOff][i] == c;
        WriteKeeps(m, m', g, h, prev, k, c);
        ChildInGraph(m', g, w, i - SlotBase(w.kind));
        CodeStays(m, m', g, h, w, i);
        assert RefOk(m', g, h, c);
      }
    }
  }

  /** The slot written is not one of a consistent blockref. */
  lemma WriteElsewhere(m: Media, m': Media, g: Graph, h: Codes, prev: Blockref, k: int, w: Blockref)
    requires BadWrite(m, m', g, h, prev, k) && Compatible(m, g)
    requires InGraph(g, w) && Consistent(m, g, h, w) && w.HasData()
    ensures forall i | IsSlot(w.kind, m[w.dataOff], i) && i < |m[w.dataOff]| :: m'[w.dataOff][i] == m[w.dataOff][i]
    ensures Guarded(m, g, w.dataOff) ==> m'[w.dataOff] == m[w.dataOff]
  {
    var wv, pv := (w.kind, w.dataOff), (prev.kind, prev.dataOff);
    assert wv in g.views && pv in g.views;
    if w.dataOff == prev.dataOff {
      assert IsSlot(w.kind, m[w.dataOff], k) ==> SlotOk(m, g, h, w, k);
    }
  }

  /** A child whose block is as before if it is guarded still matches its code. */
  lemma CodeStays(m: Media, m': Media, g: Graph, h: Codes, w: Blockref, i: int)
    requires Closed(m, g) && InGraph(g, w) && w.HasData() && w.dataOff in m && IsSlot(w.kind, m[w.dataOff], i)
    requires SameShape(m, m') && i < |m[w.dataOff]|
    requires var c := m[w.dataOff][i];
             (c.HasData() && c.dataOff in m ==> CheckOk(h, c, m[c.dataOff])) &&
             (c.HasData() && c.dataOff in m && Guarded(m, g, c.dataOff) ==> m'[c.dataOff] == m[c.dataOff])
    ensures var c := m[w.dataOff][i];
            c.HasData() && c.dataOff in m ==> c.dataOff in m' && CheckOk(h, c, m'[c.dataOff])
  {
    var c := m[w.dataOff][i];
    var v := (w.kind, w.dataOff);
    assert v in g.views && v.1 in m;
    if Guards(c, c.dataOff) {
      assert Guarded(m, g, c.dataOff);
    }
  }

  lemma ShapeKeepsGuards(m: Media, m': Media, g: Graph, off: DataOff)
    requires SameShape(m, m') && Guarded(m, g, off)
    ensures Guarded(m', g, off)
  {
    var v, i :| v in g.views && v.1 in m && IsSlot(v.0, m[v.1], i) && i < |m[v.1]| && Guards(m[v.1][i], off);
    assert SameCells(m[v.1], m'[v.1]);
    assert Strip(m[v.1][i]) == Strip(m'[v.1][i]);
    assert IsSlot(v.0, m'[v.1], i) && Guards(m'[v.1][i], off);
  }

  lemma ShapeKeepsKinds(m: Media, m': Media, g: Graph)
    requires SameShape(m, m') && Compatible(m, g)
    ensures Compatible(m', g)
  {
    forall v, w | v in g.views && w in g.views && v.1 == w.1 && v.1 in m' && Guarded(m', g, v.1)
      ensures SameSlots(v.0, w.0, m'[v.1])
    {
      assert SameCells(m'[v.1], m[v.1]);
      ShapeKeepsGuards(m', m, g, v.1);
      assert SameSlots(v.0, w.0, m[v.1]);
    }
  }

  /** `m'` still has every subtree that was consistent in `m`. */
  ghost predicate Keeps(m: Media, m': Media, g: Graph, h: Codes, w: Blockref)
    requires Closed(m, g) && InGraph(g, w)
  {
    Closed(m', g) && Compatible(m', g) && SameShape(m, m') &&
    (Consistent(m, g, h, w) ==>
       Consistent(m', g, h, w) && (w.HasData() && Guarded(m, g, w.dataOff) ==> m'[w.dataOff] == m[w.dataOff]))
  }

  lemma KeepsTransitive(m: Media, m1: Media, m2: Media, g: Graph, h: Codes, w: Blockref)
    requires Closed(m, g) && InGraph(g, w) && Keeps(m, m1, g, h, w) && Keeps(m1, m2, g, h, w)
    ensures Keeps(m, m2, g, h, w)
  {
    if Guarded(m, g, w.dataOff) {
      ShapeKeepsGuards(m, m1, g, w.dataOff);
    }
  }

  lemma CheckKeeps(m: Media, g: Graph, h: Codes, b: Blockref, k: nat, c: Blockref, w: Blockref)
    requires Closed(m, g) && Compatible(m, g) && InGraph(g, b) && InGraph(g, w)
    requires b.HasData() && b.dataOff in m && IsSlot(b.kind, m[b.dataOff], k)
    requires c.HasData() && c.dataOff in m && k < |m[b.dataOff]|
    ensures Keeps(m, Check(m, h, b.dataOff, k, c).1, g, h, w)
  {
    var m' := Check(m, h, b.dataOff, k, c).1;
    ShapeKeepsGraph(m, m', g);
    ShapeKeepsKinds(m, m', g);
    if m' != m && Consistent(m, g, h, w) {
      assert !CheckOk(h, m[b.dataOff][k], m[c.dataOff]) && m[b.dataOff][k] == c;
      assert !SlotOk(m, g, h, b, k);
      assert BadWrite(m, m', g, h, b, k);
      WriteKeeps(m, m', g, h, b, k, w);
    }
  }

  /** Repairing any tree keeps every other consistent tree consistent, however
      the repair ends and however the trees share blocks. */
  lemma {:induction false} ModifyKeeps(m: Media, g: Graph, h: Codes, b: Blockref, w: Blockref)
    requires Closed(m, g) && Compatible(m, g) && InGraph(g, b) && InGraph(g, w)
    ensures Keeps(m, Modify(m, g, h, b).1, g, h, w)
    decreases Rank(m, g, b), 1
  {
    if b.HasData() && b.dataOff in m {
      ModifyFromKeeps(m, g, h, b, m[b.dataOff], 0, w);
    }
  }

  lemma {:induction false} ModifyFromKeeps(m: Media, g: Graph, h: Codes, b: Blockref, blk: Block, i: nat, w: Blockref)
    requires Compatible(m, g) && InGraph(g, w)
    requires Inside(m, g, b, blk) && i <= SlotCount(b.kind, blk)
    ensures Keeps(m, ModifyFrom(m, g, h, b, blk, i).1, g, h, w)
    decreases Rank(m, g, b), 0, SlotCount(b.kind, blk) - i, 1
  {
    if i < SlotCount(b.kind, blk) {
      StepKeeps(m, g, h, b, blk, i, w);
      LoopUnfolds(m, g, h, b, blk, i);
      var r := Step(m, g, h, b, blk, i);
      if r.0 == Done {
        ModifyFromKeeps(r.1, g, h, b, blk, i + 1, w);
        KeepsTransitive(m, r.1, ModifyFrom(r.1, g, h, b, blk, i + 1).1, g, h, w);
      }
    }
  }

  lemma {:induction false} StepKeeps(m: Media, g: Graph, h: Codes, b: Blockref, blk: Block, i: nat, w: Blockref)
    requires Compatible(m, g) && InGraph(g, w)
    requires Inside(m, g, b, blk) && i < SlotCount(b.kind, blk)
    ensures Keeps(m, Step(m, g, h, b, blk, i).1, g, h, w)
    decreases Rank(m, g, b), 0, SlotCount(b.kind, blk) - i, 0
  {
    SlotInside(m, g, b, blk, i);
    var c := blk[SlotBase(b.kind) + i];
    StepUnfolds(m, g, h, b, blk, i);
    hide Modify, Consistent, Check, Step, Compatible;
    if c.HasData() {
      ModifyKeeps(m, g, h, c, w);
      var r := Modify(m, g, h, c);
      if r.0 == Done {
        SlotInside(r.1, g, b, blk, i);
        CheckKeeps(r.1, g, h, b, SlotBase(b.kind) + i, c, w);
        hide Keeps;
        KeepsTransitive(m, r.1, Check(r.1, h, b.dataOff, SlotBase(b.kind) + i, c).1, g, h, w);
      }
    }
  }

  lemma StepUnfolds(m: Media, g: Graph, h: Codes, b: Blockref, blk: Block, i: nat)
    requires Inside(m, g, b, blk) && i < SlotCount(b.kind, blk)
    requires SlotBase(b.kind) + i < |blk| == |m[b.dataOff]|
    ensures var c := blk[SlotBase(b.kind) + i];
            InGraph(g, c) &&
            if !c.HasData() then Step(m, g, h, b, blk, i) == (Done, m)
            else
              var r := Modify(m, g, h, c);
              if r.0 != Done then Step(m, g, h, b, blk, i) == r
              else
                b.dataOff in r.1 && SlotBase(b.kind) + i < |r.1[b.dataOff]| && c.dataOff in r.1 &&
                Step(m, g, h, b, blk, i) == Check(r.1, h, b.dataOff, SlotBase(b.kind) + i, c)
  {
    SlotInside(m, g, b, blk, i);
    var k := SlotBase(b.kind) + i;
    var c := blk[k];
    hide Check;
    if !c.HasData() {
      assert Modify(m, g, h, c) == (Done, m);
      assert ModifyAt(m, g, h, c, Some(b.dataOff), k) == (Done, m);
    } else {
      hide Modify;
      assert SameCells(m[b.dataOff], Modify(m, g, h, c).1[b.dataOff]);
    }
  }

  /** Blocks that do not lie below `rank` are left alone. */
  ghost predicate LocalTo(m: Media, m': Media, g: Graph, rank: nat) {
    forall off <- m :: off in g.rank && g.rank[off] >= rank ==> off in m' && m'[off] == m[off]
  }

  lemma {:induction false} ModifyIsLocal(m: Media, g: Graph, h: Codes, b: Blockref)
    requires Closed(m, g) && InGraph(g, b)
    ensures LocalTo(m, Modify(m, g, h, b).1, g, Rank(m, g, b))
    decreases Rank(m, g, b), 1
  {
    if b.HasData() && b.dataOff in m {
      ModifyFromIsLocal(m, g, h, b, m[b.dataOff], 0);
    }
  }

  lemma {:induction false} ModifyFromIsLocal(m: Media, g: Graph, h: Codes, b: Blockref, blk: Block, i: nat)
    requires Inside(m, g, b, blk) && i <= SlotCount(b.kind, blk)
    ensures LocalTo(m, ModifyFrom(m, g, h, b, blk, i).1, g, Rank(m, g, b))
    decreases Rank(m, g, b), 0, SlotCount(b.kind, blk) - i, 1
  {
    if i < SlotCount(b.kind, blk) {
      var r := Step(m, g, h, b, blk, i);
      ShapeKeepsGraph(m, r.1, g);
      StepIsLocal(m, g, h, b, blk, i);
      if r.0 == Done {
        ModifyFromIsLocal(r.1, g, h, b, blk, i + 1);
      }
    }
  }

  lemma {:induction false} StepIsLocal(m: Media, g: Graph, h: Codes, b: Blockref, blk: Block, i: nat)
    requires Inside(m, g, b, blk) && i < SlotCount(b.kind, blk)
    ensures LocalTo(m, Step(m, g, h, b, blk, i).1, g, Rank(m, g, b))
    ensures forall j | 0 <= j < |blk| && j != SlotBase(b.kind) + i ::
              Step(m, g, h, b, blk, i).1[b.dataOff][j] == m[b.dataOff][j]
    decreases Rank(m, g, b), 0, SlotCount(b.kind, blk) - i, 0
  {
    SlotInside(m, g, b, blk, i);
    var c := blk[SlotBase(b.kind) + i];
    if c.kind != EMPTY {
      ModifyIsLocal(m, g, h, c);
    }
  }

  // ----- a repair that ends well makes the tree consistent -----

  lemma SetCheckWorks(h: Codes, b: Blockref, blk: Block)
    requires b.check != CHECK_SHA192
    ensures CheckOk(h, SetCheck(h, b, blk), blk) && Strip(SetCheck(h, b, blk)) == Strip(b)
  {
  }

  lemma ConsistentIgnoresCode(m: Media, g: Graph, h: Codes, b: Blockref, b': Blockref)
    requires Closed(m, g) && InGraph(g, b) && Strip(b) == Strip(b') && Consistent(m, g, h, b)
    ensures InGraph(g, b') && Consistent(m, g, h, b')
  {
    if b'.HasData() {
      forall i | IsSlot(b'.kind, m[b'.dataOff], i)
        ensures SlotOk(m, g, h, b', i)
      {
        assert SlotOk(m, g, h, b, i);
      }
    }
  }

  /** The first `n` slots are repaired and the others are as first read. */
  ghost predicate Progress(m: Media, g: Graph, h: Codes, b: Blockref, blk: Block, n: nat) {
    Inside(m, g, b, blk) && Compatible(m, g) && n <= SlotCount(b.kind, blk) &&
    (forall j | IsSlot(b.kind, m[b.dataOff], j) && j < SlotBase(b.kind) + n :: SlotOk(m, g, h, b, j)) &&
    (forall j | SlotBase(b.kind) + n <= j < |blk| :: m[b.dataOff][j] == blk[j])
  }

  /** A finished slot survives the repair of a later one. */
  lemma SlotStays(m: Media, g: Graph, h: Codes, b: Blockref, blk: Block, i: nat, j: int)
    requires Progress(m, g, h, b, blk, i) && i < SlotCount(b.kind, blk)
    requires IsSlot(b.kind, m[b.dataOff], j) && j < SlotBase(b.kind) + i
    ensures var m' := Step(m, g, h, b, blk, i).1;
            Closed(m', g) && IsSlot(b.kind, m'[b.dataOff], j) && SlotOk(m', g, h, b, j)
  {
    var m' := Step(m, g, h, b, blk, i).1;
    ShapeKeepsGraph(m, m', g);
    SlotInside(m, g, b, blk, j - SlotBase(b.kind));
    SlotInside(m', g, b, blk, j - SlotBase(b.kind));
    var c := m[b.dataOff][j];
    assert SlotOk(m, g, h, b, j) && RefOk(m, g, h, c);
    StepIsLocal(m, g, h, b, blk, i);
    StepKeeps(m, g, h, b, blk, i, c);
    CodeStays(m, m', g, h, b, j);
    assert RefOk(m', g, h, c);
  }

  /** The slot just checked is good afterwards. */
  lemma CheckFixes(m: Media, g: Graph, h: Codes, b: Blockref, blk: Block, i: nat)
    requires Inside(m, g, b, blk) && Compatible(m, g) && i < SlotCount(b.kind, blk)
    requires var k := SlotBase(b.kind) + i; k < |blk| == |m[b.dataOff]| && m[b.dataOff][k] == blk[k]
    requires var c := blk[SlotBase(b.kind) + i];
             InGraph(g, c) && c.HasData() && c.dataOff in m && Consistent(m, g, h, c)
    ensures var k := SlotBase(b.kind) + i;
            var r := Check(m, h, b.dataOff, k, blk[k]);
            r.0 != Mismatch && r.0 != IoError && Inside(r.1, g, b, blk) &&
            IsSlot(b.kind, r.1[b.dataOff], k) && (r.0 == Done ==> SlotOk(r.1, g, h, b, k))
  {
    var k := SlotBase(b.kind) + i;
    var c := blk[k];
    var r := Check(m, h, b.dataOff, k, c);
    SlotInside(m, g, b, blk, i);
    ShapeKeepsGraph(m, r.1, g);
    SlotInside(r.1, g, b, blk, i);
    if r.0 == Done {
      CheckKeeps(m, g, h, b, k, c, c);
      var cell := r.1[b.dataOff][k];
      SetCheckWorks(h, c, m[c.dataOff]);
      assert Strip(cell) == Strip(c) && CheckOk(h, cell, r.1[c.dataOff]);
      ConsistentIgnoresCode(r.1, g, h, c, cell);
      assert RefOk(r.1, g, h, cell);
    }
  }

  lemma {:induction false} StepRepairs(m: Media, g: Graph, h: Codes, b: Blockref, blk: Block, i: nat)
    requires Progress(m, g, h, b, blk, i) && i < SlotCount(b.kind, blk)
    ensures var r := Step(m, g, h, b, blk, i);
            r.0 != Mismatch && (r.0 == Done ==> Progress(r.1, g, h, b, blk, i + 1))
    decreases Rank(m, g, b), 0, SlotCount(b.kind, blk) - i, 0
  {
    var r := Step(m, g, h, b, blk, i);
    var k := SlotBase(b.kind) + i;
    SlotInside(m, g, b, blk, i);
    ShapeKeepsGraph(m, r.1, g);
    ShapeKeepsKinds(m, r.1, g);
    SlotInside(r.1, g, b, blk, i);
    StepIsLocal(m, g, h, b, blk, i);
    ThisSlotRepaired(m, g, h, b, blk, i);
    if r.0 == Done {
      forall j | IsSlot(b.kind, r.1[b.dataOff], j) && j < k + 1
        ensures SlotOk(r.1, g, h, b, j)
      {
        if j < k {
          SlotStays(m, g, h, b, blk, i, j);
        }
      }
    }
  }

  lemma {:induction false} ThisSlotRepaired(m: Media, g: Graph, h: Codes, b: Blockref, blk: Block, i: nat)
    requires Progress(m, g, h, b, blk, i) && i < SlotCount(b.kind, blk)
    ensures var r := Step(m, g, h, b, blk, i);
            var k := SlotBase(b.kind) + i;
            r.0 != Mismatch &&
            (r.0 == Done ==>
               Closed(r.1, g) && IsSlot(b.kind, r.1[b.dataOff], k) && SlotOk(r.1, g, h, b, k))
    decreases Rank(m, g, b), 0, SlotCount(b.kind, blk) - i, 0, 0
  {
    var k := SlotBase(b.kind) + i;
    SlotInside(m, g, b, blk, i);
    StepUnfolds(m, g, h, b, blk, i);
    var c := blk[k];
    hide Step, Modify, Check;
    if c.HasData() {
      ModifyRepairs(m, g, h, c);
      ModifyIsLocal(m, g, h, c);
      var r := Modify(m, g, h, c);
      ShapeKeepsGraph(m, r.1, g);
      ShapeKeepsKinds(m, r.1, g);
      if r.0 == Done {
        CheckFixes(r.1, g, h, b, blk, i);
      }
    } else {
      assert RefOk(m, g, h, c);
    }
  }

  ghost predicate Repaired(r: (Outcome, Media), g: Graph, h: Codes, b: Blockref)
    requires InGraph(g, b)
  {
    r.0 != Mismatch && (r.0 == Done ==> Closed(r.1, g) && Consistent(r.1, g, h, b))
  }

  lemma {:induction false} ModifyFromRepairs(m: Media, g: Graph, h: Codes, b: Blockref, blk: Block, i: nat)
    requires Inside(m, g, b, blk) && Progress(m, g, h, b, blk, i) && i <= SlotCount(b.kind, blk)
    ensures Repaired(ModifyFrom(m, g, h, b, blk, i), g, h, b)
    decreases Rank(m, g, b), 0, SlotCount(b.kind, blk) - i, 1
  {
    hide Progress, Step, ModifyFrom, Closed, Consistent, SlotCount, SameCells, Rank;
    if i < SlotCount(b.kind, blk) {
      LoopUnfolds(m, g, h, b, blk, i);
      StepRepairs(m, g, h, b, blk, i);
      var r := Step(m, g, h, b, blk, i);
      if r.0 == Done {
        ModifyFromRepairs(r.1, g, h, b, blk, i + 1);
      }
    } else {
      LoopEnds(m, g, h, b, blk, i);
      AllSlotsDone(m, g, h, b, blk);
    }
  }

  lemma AllSlotsDone(m: Media, g: Graph, h: Codes, b: Blockref, blk: Block)
    requires Progress(m, g, h, b, blk, SlotCount(b.kind, blk))
    ensures Consistent(m, g, h, b)
  {
    assert SlotCount(b.kind, blk) == SlotCount(b.kind, m[b.dataOff]);
  }

  /** The contents of a blockref never change under the walk, and a walk that
      ends well leaves every check code below `b` correct. */
  lemma {:induction false} ModifyRepairs(m: Media, g: Graph, h: Codes, b: Blockref)
    requires Closed(m, g) && Compatible(m, g) && InGraph(g, b)
    ensures Repaired(Modify(m, g, h, b), g, h, b)
    decreases Rank(m, g, b), 1
  {
    if b.HasData() && b.dataOff in m {
      ModifyFromRepairs(m, g, h, b, m[b.dataOff], 0);
    }
  }

  // ----- exactly when a repair ends well, and when that is enough -----

  /** Everything below `b` is readable and satisfies `p`. */
  ghost predicate Everywhere(m: Media, g: Graph, b: Blockref, p: Blockref -> bool)
    requires Closed(m, g) && InGraph(g, b)
    decreases Rank(m, g, b), 1
  {
    b.HasData() ==>
      b.dataOff in m && forall i | IsSlot(b.kind, m[b.dataOff], i) :: AtSlot(m, g, b, p, i)
  }

  ghost predicate AtSlot(m: Media, g: Graph, b: Blockref, p: Blockref -> bool, i: int)
    requires Closed(m, g) && InGraph(g, b) && b.HasData() && b.dataOff in m
    requires IsSlot(b.kind, m[b.dataOff], i)
    decreases Rank(m, g, b), 0
  {
    ChildInGraph(m, g, b, i - SlotBase(b.kind));
    p(m[b.dataOff][i]) && Everywhere(m, g, m[b.dataOff][i], p)
  }

  predicate NoSha192(b: Blockref) {
    b.HasData() ==> b.check != CHECK_SHA192
  }

  predicate KindOk(b: Blockref) {
    ValidKind(b.kind)
  }

  lemma {:induction false} ShapeKeepsEverywhere(m: Media, m': Media, g: Graph, b: Blockref, b': Blockref,
                                                p: Blockref -> bool)
    requires Closed(m, g) && Closed(m', g) && SameShape(m, m') && InGraph(g, b) && Strip(b) == Strip(b')
    requires forall x: Blockref, y: Blockref :: Strip(x) == Strip(y) ==> p(x) == p(y)
    requires Everywhere(m, g, b, p)
    ensures Everywhere(m', g, b', p)
    decreases Rank(m, g, b)
  {
    if b.HasData() {
      assert SameCells(m[b.dataOff], m'[b.dataOff]);
      forall i | IsSlot(b'.kind, m'[b'.dataOff], i)
        ensures AtSlot(m', g, b', p, i)
      {
        assert AtSlot(m, g, b, p, i);
        ChildInGraph(m, g, b, i - SlotBase(b.kind));
        ChildInGraph(m', g, b', i - SlotBase(b.kind));
        var c, c' := m[b.dataOff][i], m'[b.dataOff][i];
        assert Strip(c) == Strip(c');
        ShapeKeepsEverywhere(m, m', g, c, c', p);
      }
    }
  }

  /** How a repair ends, told from the blocks before it starts: the first
      blockref, children before their parents, that is unreadable or that
      carries a SHA192 code. */
  function Verdict(m: Media, ghost g: Graph, b: Blockref): Outcome
    requires Closed(m, g) && InGraph(g, b)
    decreases Rank(m, g, b), 1
  {
    if !b.HasData() then Done else if b.dataOff !in m then IoError else VerdictFrom(m, g, b, 0)
  }

  function VerdictFrom(m: Media, ghost g: Graph, b: Blockref, i: nat): Outcome
    requires Closed(m, g) && InGraph(g, b) && b.HasData() && b.dataOff in m
    requires i <= SlotCount(b.kind, m[b.dataOff])
    decreases Rank(m, g, b), 0, SlotCount(b.kind, m[b.dataOff]) - i
  {
    if i == SlotCount(b.kind, m[b.dataOff]) then Done
    else
      ChildInGraph(m, g, b, i);
      var c := m[b.dataOff][SlotBase(b.kind) + i];
      var below := Verdict(m, g, c);
      if below != Done then below
      else if c.HasData() && c.check == CHECK_SHA192 then Unsupported
      else VerdictFrom(m, g, b, i + 1)
  }

  lemma VerdictUnfolds(m: Media, g: Graph, b: Blockref, i: nat)
    requires Closed(m, g) && InGraph(g, b) && b.HasData() && b.dataOff in m
    requires i < SlotCount(b.kind, m[b.dataOff])
    ensures SlotBase(b.kind) + i < |m[b.dataOff]|
    ensures var c := m[b.dataOff][SlotBase(b.kind) + i];
            InGraph(g, c) && Rank(m, g, c) < Rank(m, g, b) &&
            var below := Verdict(m, g, c);
            VerdictFrom(m, g, b, i) ==
            if below != Done then below
            else if c.HasData() && c.check == CHECK_SHA192 then Unsupported
            else VerdictFrom(m, g, b, i + 1)
  {
    ChildInGraph(m, g, b, i);
  }

  /** Check codes have no say in how a repair ends. */
  lemma {:induction false} ShapeKeepsVerdict(m: Media, m': Media, g: Graph, b: Blockref, b': Blockref)
    requires Closed(m, g) && Closed(m', g) && SameShape(m, m') && InGraph(g, b) && Strip(b) == Strip(b')
    ensures InGraph(g, b') && Verdict(m, g, b) == Verdict(m', g, b')
    decreases Rank(m, g, b), 1
  {
    if b.HasData() && b.dataOff in m {
      ShapeKeepsVerdictFrom(m, m', g, b, b', 0);
    }
  }

  lemma {:induction false} ShapeKeepsVerdictFrom(m: Media, m': Media, g: Graph, b: Blockref, b': Blockref, i: nat)
    requires Closed(m, g) && Closed(m', g) && SameShape(m, m') && InGraph(g, b) && Strip(b) == Strip(b')
    requires b.HasData() && b.dataOff in m && i <= SlotCount(b.kind, m[b.dataOff])
    ensures InGraph(g, b') && SlotCount(b.kind, m[b.dataOff]) == SlotCount(b'.kind, m'[b.dataOff])
    ensures VerdictFrom(m, g, b, i) == VerdictFrom(m', g, b', i)
    decreases Rank(m, g, b), 0, SlotCount(b.kind, m[b.dataOff]) - i
  {
    hide Verdict, VerdictFrom, Closed;
    assert SameCells(m[b.dataOff], m'[b.dataOff]);
    if i < SlotCount(b.kind, m[b.dataOff]) {
      VerdictUnfolds(m, g, b, i);
      VerdictUnfolds(m', g, b', i);
      var k := SlotBase(b.kind) + i;
      assert Strip(m[b.dataOff][k]) == Strip(m'[b.dataOff][k]);
      ShapeKeepsVerdict(m, m', g, m[b.dataOff][k], m'[b.dataOff][k]);
      ShapeKeepsVerdictFrom(m, m', g, b, b', i + 1);
    } else {
      VerdictEnds(m, g, b);
      VerdictEnds(m', g, b');
    }
  }

  lemma VerdictEnds(m: Media, g: Graph, b: Blockref)
    requires Closed(m, g) && InGraph(g, b) && b.HasData() && b.dataOff in m
    ensures VerdictFrom(m, g, b, SlotCount(b.kind, m[b.dataOff])) == Done
  {
  }

  /** One slot ends as `VerdictFrom` says, and if it ends well the loop goes on. */
  lemma {:induction false} StepVerdict(m: Media, g: Graph, h: Codes, b: Blockref, blk: Block, i: nat)
    requires Progress(m, g, h, b, blk, i) && i < SlotCount(b.kind, blk) == SlotCount(b.kind, m[b.dataOff])
    ensures var r := Step(m, g, h, b, blk, i).0;
            VerdictFrom(m, g, b, i) == if r == Done then VerdictFrom(m, g, b, i + 1) else r
    decreases Rank(m, g, b), 0, SlotCount(b.kind, blk) - i, 0, 0
  {
    var k := SlotBase(b.kind) + i;
    SlotInside(m, g, b, blk, i);
    VerdictUnfolds(m, g, b, i);
    StepUnfolds(m, g, h, b, blk, i);
    var c := blk[k];
    assert m[b.dataOff][k] == c && (!c.HasData() ==> Verdict(m, g, c) == Done);
    hide VerdictFrom, Verdict, Progress, Closed, Step, Modify;
    if c.HasData() {
      ModifyVerdict(m, g, h, c);
      ModifyIsLocal(m, g, h, c);
      var r := Modify(m, g, h, c);
      if r.0 == Done {
        assert r.1[b.dataOff][k] == c;
      }
    }
  }

  lemma {:induction false} ModifyFromVerdict(m: Media, g: Graph, h: Codes, b: Blockref, blk: Block, i: nat)
    requires Inside(m, g, b, blk) && Progress(m, g, h, b, blk, i)
    requires i <= SlotCount(b.kind, blk) == SlotCount(b.kind, m[b.dataOff])
    ensures ModifyFrom(m, g, h, b, blk, i).0 == VerdictFrom(m, g, b, i)
    decreases Rank(m, g, b), 0, SlotCount(b.kind, blk) - i, 1
  {
    hide Progress, Step, ModifyFrom, Closed, VerdictFrom, SlotCount, SameCells, Rank;
    if i < SlotCount(b.kind, blk) {
      TurnVerdict(m, g, h, b, blk, i);
      var r := Step(m, g, h, b, blk, i);
      if r.0 == Done {
        ModifyFromVerdict(r.1, g, h, b, blk, i + 1);
      }
    } else {
      LoopEnds(m, g, h, b, blk, i);
      VerdictEnds(m, g, b);
    }
  }

  /** One turn of the loop against one turn of the verdict. */
  lemma {:induction false} TurnVerdict(m: Media, g: Graph, h: Codes, b: Blockref, blk: Block, i: nat)
    requires Inside(m, g, b, blk) && Progress(m, g, h, b, blk, i)
    requires i < SlotCount(b.kind, blk) == SlotCount(b.kind, m[b.dataOff])
    ensures var r := Step(m, g, h, b, blk, i);
            if r.0 != Done then ModifyFrom(m, g, h, b, blk, i) == r && VerdictFrom(m, g, b, i) == r.0
            else
              Inside(r.1, g, b, blk) && Progress(r.1, g, h, b, blk, i + 1) &&
              Rank(r.1, g, b) == Rank(m, g, b) && SlotCount(b.kind, r.1[b.dataOff]) == SlotCount(b.kind, blk) &&
              ModifyFrom(m, g, h, b, blk, i) == ModifyFrom(r.1, g, h, b, blk, i + 1) &&
              VerdictFrom(m, g, b, i) == VerdictFrom(r.1, g, b, i + 1)
    decreases Rank(m, g, b), 0, SlotCount(b.kind, blk) - i, 0, 1
  {
    hide Progress, Step, ModifyFrom, Closed, Verdict, VerdictFrom, SlotCount, Rank;
    LoopUnfolds(m, g, h, b, blk, i);
    StepVerdict(m, g, h, b, blk, i);
    StepRepairs(m, g, h, b, blk, i);
    var r := Step(m, g, h, b, blk, i);
    if r.0 == Done {
      ShapeKeepsVerdictFrom(m, r.1, g, b, b, i + 1);
    }
  }

  lemma LoopEnds(m: Media, g: Graph, h: Codes, b: Blockref, blk: Block, i: nat)
    requires Inside(m, g, b, blk) && i == SlotCount(b.kind, blk)
    ensures ModifyFrom(m, g, h, b, blk, i) == (Done, m)
  {
  }

  /** A repair ends as the blocks foretell, whatever the codes are. */
  lemma {:induction false} ModifyVerdict(m: Media, g: Graph, h: Codes, b: Blockref)
    requires Closed(m, g) && Compatible(m, g) && InGraph(g, b)
    ensures Modify(m, g, h, b).0 == Verdict(m, g, b)
    decreases Rank(m, g, b), 1
  {
    if b.HasData() && b.dataOff in m {
      ModifyFromVerdict(m, g, h, b, m[b.dataOff], 0);
    }
  }

  lemma {:induction false} VerdictFromDone(m: Media, g: Graph, b: Blockref, i: nat)
    requires Closed(m, g) && InGraph(g, b) && b.HasData() && b.dataOff in m
    requires i <= SlotCount(b.kind, m[b.dataOff])
    ensures VerdictFrom(m, g, b, i) == Done <==>
            forall j | IsSlot(b.kind, m[b.dataOff], j) && SlotBase(b.kind) + i <= j :: AtSlot(m, g, b, NoSha192, j)
    decreases Rank(m, g, b), 0, SlotCount(b.kind, m[b.dataOff]) - i
  {
    if i < SlotCount(b.kind, m[b.dataOff]) {
      VerdictUnfolds(m, g, b, i);
      var k := SlotBase(b.kind) + i;
      VerdictDone(m, g, m[b.dataOff][k]);
      VerdictFromDone(m, g, b, i + 1);
      assert IsSlot(b.kind, m[b.dataOff], k);
      assert AtSlot(m, g, b, NoSha192, k) <==>
             NoSha192(m[b.dataOff][k]) && Everywhere(m, g, m[b.dataOff][k], NoSha192);
    }
  }

  lemma {:induction false} VerdictDone(m: Media, g: Graph, b: Blockref)
    requires Closed(m, g) && InGraph(g, b)
    ensures Verdict(m, g, b) == Done <==> Everywhere(m, g, b, NoSha192)
    decreases Rank(m, g, b), 1
  {
    if b.HasData() && b.dataOff in m {
      VerdictFromDone(m, g, b, 0);
    }
  }

  /** A repair returns 0 exactly when everything below `b` is readable and no
      block below it is protected by SHA192. */
  lemma ModifyDone(m: Media, g: Graph, h: Codes, b: Blockref)
    requires Closed(m, g) && Compatible(m, g) && InGraph(g, b)
    ensures Modify(m, g, h, b).0 == Done <==> Everywhere(m, g, b, NoSha192)
  {
    ModifyVerdict(m, g, h, b);
    VerdictDone(m, g, b);
  }

  // ----- repair, then verify -----

  /** The verifier's verdict, split into what a repair can and cannot change. */
  lemma {:induction false} GoodMeans(m: Media, g: Graph, h: Codes, b: Blockref)
    requires Closed(m, g) && InGraph(g, b)
    ensures Good(m, g, h, b) <==> KindOk(b) && Everywhere(m, g, b, KindOk) && RefOk(m, g, h, b)
    decreases Rank(m, g, b)
  {
    if b.HasData() && b.dataOff in m {
      forall i: nat | i < SlotCount(b.kind, m[b.dataOff])
        ensures IsSlot(b.kind, m[b.dataOff], SlotBase(b.kind) + i)
        ensures GoodSlot(m, g, h, b, i) <==>
                AtSlot(m, g, b, KindOk, SlotBase(b.kind) + i) && SlotOk(m, g, h, b, SlotBase(b.kind) + i)
      {
        ChildInGraph(m, g, b, i);
        GoodMeans(m, g, h, m[b.dataOff][SlotBase(b.kind) + i]);
      }
      GoodFromMeans(m, g, h, b, 0);
      SlotsByIndex(m, g, h, b);
    }
  }

  ghost predicate GoodSlot(m: Media, g: Graph, h: Codes, b: Blockref, i: nat)
    requires Closed(m, g) && InGraph(g, b) && b.HasData() && b.dataOff in m
    requires i < SlotCount(b.kind, m[b.dataOff])
  {
    ChildInGraph(m, g, b, i);
    Good(m, g, h, m[b.dataOff][SlotBase(b.kind) + i])
  }

  lemma {:induction false} GoodFromMeans(m: Media, g: Graph, h: Codes, b: Blockref, i: nat)
    requires Closed(m, g) && InGraph(g, b) && b.HasData() && b.dataOff in m
    requires i <= SlotCount(b.kind, m[b.dataOff])
    ensures GoodFrom(m, g, h, b, i) <==>
            forall j: nat | i <= j < SlotCount(b.kind, m[b.dataOff]) :: GoodSlot(m, g, h, b, j)
    decreases SlotCount(b.kind, m[b.dataOff]) - i
  {
    if i < SlotCount(b.kind, m[b.dataOff]) {
      ChildInGraph(m, g, b, i);
      GoodFromMeans(m, g, h, b, i + 1);
      assert GoodFrom(m, g, h, b, i) <==> GoodSlot(m, g, h, b, i) && GoodFrom(m, g, h, b, i + 1);
    }
  }

  lemma SlotsByIndex(m: Media, g: Graph, h: Codes, b: Blockref)
    requires Closed(m, g) && InGraph(g, b) && b.HasData() && b.dataOff in m
    requires forall i: nat | i < SlotCount(b.kind, m[b.dataOff]) ::
               IsSlot(b.kind, m[b.dataOff], SlotBase(b.kind) + i) &&
               (GoodSlot(m, g, h, b, i) <==>
                AtSlot(m, g, b, KindOk, SlotBase(b.kind) + i) && SlotOk(m, g, h, b, SlotBase(b.kind) + i))
    ensures (forall i: nat | i < SlotCount(b.kind, m[b.dataOff]) :: GoodSlot(m, g, h, b, i)) <==>
            Everywhere(m, g, b, KindOk) && Consistent(m, g, h, b)
  {
    if forall i: nat | i < SlotCount(b.kind, m[b.dataOff]) :: GoodSlot(m, g, h, b, i) {
      forall j | IsSlot(b.kind, m[b.dataOff], j)
        ensures AtSlot(m, g, b, KindOk, j) && SlotOk(m, g, h, b, j)
      {
        var i := j - SlotBase(b.kind);
        assert GoodSlot(m, g, h, b, i);
        assert j == SlotBase(b.kind) + i;
      }
    }
  }

  /** A root blockref is built by the tool: zeroed, so it carries no check code. */
  predicate IsRoot(b: Blockref) {
    (b.kind == VOLUME || b.kind == FREEMAP) && b.check == 0
  }

  /** How a run over the volume headers can end; `Aborted` is a failed assertion. */
  datatype Ending = Succeeded | Failed | Aborted

  /** `reconstruct_blockref`: a header whose tree cannot be read does not keep
      the later ones from being repaired, but a header that cannot be read itself
      ends the run, and so does the assertion on SHA192. */
  function Reconstruct(m: Media, ghost g: Graph, h: Codes, roots: seq<Blockref>): (r: (Ending, Media))
    requires Closed(m, g) && forall b <- roots :: InGraph(g, b)
    ensures SameShape(m, r.1)
  {
    if roots == [] then (Succeeded, m)
    else if Unreadable(m, roots[0]) then (Failed, m)
    else
      var r := Modify(m, g, h, roots[0]);
      ShapeKeepsGraph(m, r.1, g);
      if r.0 == Unsupported then (Aborted, r.1)
      else
        var rest := Reconstruct(r.1, g, h, roots[1..]);
        (Both(r.0, rest.0), rest.1)
  }

  predicate Unreadable(m: Media, b: Blockref) {
    b.HasData() && b.dataOff !in m
  }

  function Both(r: Outcome, rest: Ending): Ending {
    if r == Done || rest == Aborted then rest else Failed
  }

  /** The run ends at this header. */
  predicate Stops(m: Media, ghost g: Graph, b: Blockref)
    requires Closed(m, g) && InGraph(g, b)
  {
    Unreadable(m, b) || Verdict(m, g, b) == Unsupported
  }

  /** The number of headers before the one that ends the run. */
  function Until(m: Media, ghost g: Graph, roots: seq<Blockref>): (n: nat)
    requires Closed(m, g) && forall b <- roots :: InGraph(g, b)
    ensures n <= |roots| && (n < |roots| ==> Stops(m, g, roots[n]))
    ensures forall i | 0 <= i < n :: !Stops(m, g, roots[i])
  {
    if roots == [] || Stops(m, g, roots[0]) then 0 else 1 + Until(m, g, roots[1..])
  }

  lemma {:induction false} ReconstructKeeps(m: Media, g: Graph, h: Codes, roots: seq<Blockref>, w: Blockref)
    requires Closed(m, g) && Compatible(m, g) && (forall b <- roots :: InGraph(g, b)) && InGraph(g, w)
    ensures Keeps(m, Reconstruct(m, g, h, roots).1, g, h, w)
  {
    if roots != [] && !Unreadable(m, roots[0]) {
      ModifyKeeps(m, g, h, roots[0], w);
      var m1 := Modify(m, g, h, roots[0]).1;
      ReconstructKeeps(m1, g, h, roots[1..], w);
      KeepsTransitive(m, m1, Reconstruct(m1, g, h, roots[1..]).1, g, h, w);
    }
  }

  /** The ending is told by the first header that stops the run and by those before it. */
  ghost predicate EndsAs(m: Media, g: Graph, roots: seq<Blockref>, r: Ending)
    requires Closed(m, g) && forall b <- roots :: InGraph(g, b)
  {
    var n := Until(m, g, roots);
    (r == Succeeded <==> forall b <- roots :: Everywhere(m, g, b, NoSha192)) &&
    (r == Aborted <==> n < |roots| && Verdict(m, g, roots[n]) == Unsupported)
  }

  /** Repairing several headers: each one before the first that ends the run is
      consistent at the end if it can be repaired, so no later repair undoes an
      earlier one, and the run succeeds exactly when all could be repaired. */
  lemma {:induction false} ReconstructRepairs(m: Media, g: Graph, h: Codes, roots: seq<Blockref>)
    requires Closed(m, g) && Compatible(m, g) && (forall b <- roots :: InGraph(g, b))
    ensures var r := Reconstruct(m, g, h, roots);
            Closed(r.1, g) && EndsAs(m, g, roots, r.0) &&
            forall i | 0 <= i < Until(m, g, roots) ::
              Everywhere(m, g, roots[i], NoSha192) ==> Consistent(r.1, g, h, roots[i])
  {
    hide Modify, Everywhere, Consistent, Verdict, EndsAs;
    if roots == [] {
      EndsHere(m, g, h, roots);
    } else {
      ModifyVerdict(m, g, h, roots[0]);
      if Stops(m, g, roots[0]) {
        EndsHere(m, g, h, roots);
      } else {
        var m1 := Modify(m, g, h, roots[0]).1;
        var rest := Reconstruct(m1, g, h, roots[1..]);
        ShapeKeepsGraph(m, m1, g);
        ShapeKeepsKinds(m, m1, g);
        ModifyRepairs(m, g, h, roots[0]);
        VerdictDone(m, g, roots[0]);
        ReconstructRepairs(m1, g, h, roots[1..]);
        ReconstructKeeps(m1, g, h, roots[1..], roots[0]);
        SameOnAll(m, m1, g, roots);
        SameUntil(m, m1, g, roots);
        SameUntil(m, m1, g, roots[1..]);
        EndsLater(m, m1, g, h, roots, rest.0);
      }
    }
  }

  lemma EndsHere(m: Media, g: Graph, h: Codes, roots: seq<Blockref>)
    requires Closed(m, g) && Compatible(m, g) && (forall b <- roots :: InGraph(g, b))
    requires roots == [] || Stops(m, g, roots[0])
    ensures EndsAs(m, g, roots, Reconstruct(m, g, h, roots).0) && Until(m, g, roots) == 0
  {
    if roots != [] {
      ModifyVerdict(m, g, h, roots[0]);
      VerdictDone(m, g, roots[0]);
      hide Everywhere;
    }
  }

  lemma EndsLater(m: Media, m1: Media, g: Graph, h: Codes, roots: seq<Blockref>, rest: Ending)
    requires Closed(m, g) && Closed(m1, g) && (forall b <- roots :: InGraph(g, b))
    requires roots != [] && !Stops(m, g, roots[0]) && EndsAs(m1, g, roots[1..], rest)
    requires forall b <- roots :: Everywhere(m, g, b, NoSha192) <==> Everywhere(m1, g, b, NoSha192)
    requires forall b <- roots :: Verdict(m, g, b) == Verdict(m1, g, b)
    requires Until(m, g, roots[1..]) == Until(m1, g, roots[1..])
    ensures EndsAs(m, g, roots, Both(Verdict(m, g, roots[0]), rest))
  {
    VerdictDone(m, g, roots[0]);
    hide Everywhere, Verdict;
    assert forall b :: b in roots <==> b == roots[0] || b in roots[1..];
    var n := Until(m, g, roots[1..]);
    assert n < |roots[1..]| ==> roots[1..][n] == roots[n + 1];
  }

  lemma {:induction false} SameUntil(m: Media, m': Media, g: Graph, roots: seq<Blockref>)
    requires Closed(m, g) && Closed(m', g) && SameShape(m, m') && (forall b <- roots :: InGraph(g, b))
    ensures Until(m, g, roots) == Until(m', g, roots)
    ensures forall b <- roots :: Verdict(m, g, b) == Verdict(m', g, b)
  {
    hide Verdict;
    forall b <- roots
      ensures Verdict(m, g, b) == Verdict(m', g, b)
    {
      ShapeKeepsVerdict(m, m', g, b, b);
    }
    if roots != [] {
      SameUntil(m, m', g, roots[1..]);
    }
  }

  /** Headers after the one that ends the run are as if they were not there. */
  lemma {:induction false} LaterUntouched(m: Media, g: Graph, h: Codes, roots: seq<Blockref>, more: seq<Blockref>)
    requires Closed(m, g) && Compatible(m, g) && (forall b <- roots :: InGraph(g, b)) &&
             (forall b <- more :: InGraph(g, b))
    requires roots != [] && Stops(m, g, roots[|roots| - 1])
    ensures forall b <- roots + more :: InGraph(g, b)
    ensures Reconstruct(m, g, h, roots + more) == Reconstruct(m, g, h, roots)
  {
    hide Modify, Verdict;
    assert (roots + more)[0] == roots[0] && (roots + more)[1..] == roots[1..] + more;
    ModifyVerdict(m, g, h, roots[0]);
    if !Stops(m, g, roots[0]) {
      var m1 := Modify(m, g, h, roots[0]).1;
      ShapeKeepsGraph(m, m1, g);
      ShapeKeepsKinds(m, m1, g);
      SameUntil(m, m1, g, roots);
      assert roots[1..][|roots[1..]| - 1] == roots[|roots| - 1];
      LaterUntouched(m1, g, h, roots[1..], more);
    }
  }

  lemma SameOnAll(m: Media, m': Media, g: Graph, roots: seq<Blockref>)
    requires Closed(m, g) && Closed(m', g) && SameShape(m, m') && (forall b <- roots :: InGraph(g, b))
    ensures forall b <- roots :: Everywhere(m, g, b, NoSha192) <==> Everywhere(m', g, b, NoSha192)
  {
    forall b <- roots
      ensures Everywhere(m, g, b, NoSha192) <==> Everywhere(m', g, b, NoSha192)
    {
      SameEverywhere(m, m', g, b, NoSha192);
    }
  }

  lemma SameEverywhere(m: Media, m': Media, g: Graph, b: Blockref, p: Blockref -> bool)
    requires Closed(m, g) && Closed(m', g) && SameShape(m, m') && InGraph(g, b)
    requires forall x: Blockref, y: Blockref :: Strip(x) == Strip(y) ==> p(x) == p(y)
    ensures Everywhere(m, g, b, p) <==> Everywhere(m', g, b, p)
  {
    if Everywhere(m, g, b, p) {
      ShapeKeepsEverywhere(m, m', g, b, b, p);
    } else if Everywhere(m', g, b, p) {
      ShapeKeepsEverywhere(m', m, g, b, b, p);
    }
  }

  /** A run that succeeded has repaired every header. */
  lemma AllRepaired(m: Media, g: Graph, h: Codes, roots: seq<Blockref>)
    requires Closed(m, g) && Compatible(m, g) && (forall b <- roots :: InGraph(g, b))
    requires Reconstruct(m, g, h, roots).0 == Succeeded
    ensures var m' := Reconstruct(m, g, h, roots).1;
            Closed(m', g) && forall b <- roots :: Everywhere(m, g, b, NoSha192) && Consistent(m', g, h, b)
  {
    ReconstructRepairs(m, g, h, roots);
    hide Modify, Consistent, Verdict, Reconstruct;
    forall b <- roots
      ensures Verdict(m, g, b) == Done && !Unreadable(m, b)
    {
      VerdictDone(m, g, b);
    }
    hide Everywhere;
    assert Until(m, g, roots) == |roots|;
  }

  /** The promise of the tools taken together: after a repair that reported
      success, the verifier passes every header, with any cache threshold it may
      safely use, exactly when the trees held valid blockref types to start with. */
  lemma RepairThenVerify(m: Media, g: Graph, h: Codes, o: Options, freemap: bool, roots: seq<Blockref>)
    requires Closed(m, g) && Compatible(m, g) && (forall b <- roots :: InGraph(g, b) && IsRoot(b))
    requires SafeThreshold(o) && Reconstruct(m, g, h, roots).0 == Succeeded
    ensures var m' := Reconstruct(m, g, h, roots).1;
            Closed(m', g) &&
            (TestFrom(m', g, h, o, freemap, roots, map[]).ok <==>
             forall b <- roots :: Everywhere(m, g, b, KindOk))
  {
    var m' := Reconstruct(m, g, h, roots).1;
    AllRepaired(m, g, h, roots);
    TestIsExact(m', g, h, o, freemap, roots, map[]);
    forall b <- roots
      ensures Good(m', g, h, b) <==> Everywhere(m, g, b, KindOk)
    {
      GoodMeans(m', g, h, b);
      SameEverywhere(m, m', g, b, KindOk);
      assert b.HasData() ==> b.dataOff in m';
    }
  }

  /** A second run over repaired media writes nothing. */
  lemma {:induction false} SecondRunIdle(m: Media, g: Graph, h: Codes, b: Blockref)
    requires Closed(m, g) && InGraph(g, b)
    requires Consistent(m, g, h, b) && Everywhere(m, g, b, NoSha192)
    ensures Modify(m, g, h, b) == (Done, m)
    decreases Rank(m, g, b), 1
  {
    if b.HasData() {
      SecondRunIdleFrom(m, g, h, b, 0);
    }
  }

  lemma {:induction false} SecondRunIdleFrom(m: Media, g: Graph, h: Codes, b: Blockref, i: nat)
    requires Closed(m, g) && InGraph(g, b) && b.HasData() && b.dataOff in m
    requires Consistent(m, g, h, b) && Everywhere(m, g, b, NoSha192)
    requires i <= SlotCount(b.kind, m[b.dataOff])
    ensures ModifyFrom(m, g, h, b, m[b.dataOff], i) == (Done, m)
    decreases Rank(m, g, b), 0, SlotCount(b.kind, m[b.dataOff]) - i
  {
    if i < SlotCount(b.kind, m[b.dataOff]) {
      var k := SlotBase(b.kind) + i;
      SlotInside(m, g, b, m[b.dataOff], i);
      var c := m[b.dataOff][k];
      assert SlotOk(m, g, h, b, k) && AtSlot(m, g, b, NoSha192, k);
      assert RefOk(m, g, h, c) && NoSha192(c);
      SecondRunIdle(m, g, h, c);
      assert Step(m, g, h, b, m[b.dataOff], i) == (Done, m);
      SecondRunIdleFrom(m, g, h, b, i + 1);
    }
  }

  /** Running the repair again after it succeeded changes nothing. */
  lemma {:induction false} ReconstructIdempotent(m: Media, g: Graph, h: Codes, roots: seq<Blockref>)
    requires Closed(m, g) && Compatible(m, g) && (forall b <- roots :: InGraph(g, b))
    requires Reconstruct(m, g, h, roots).0 == Succeeded
    ensures var m' := Reconstruct(m, g, h, roots).1;
            Closed(m', g) && Reconstruct(m', g, h, roots) == (Succeeded, m')
  {
    var m' := Reconstruct(m, g, h, roots).1;
    AllRepaired(m, g, h, roots);
    SameOnAll(m, m', g, roots);
    IdleOnAll(m', g, h, roots);
  }

  lemma {:induction false} IdleOnAll(m: Media, g: Graph, h: Codes, roots: seq<Blockref>)
    requires Closed(m, g) && (forall b <- roots :: InGraph(g, b))
    requires forall b <- roots :: Consistent(m, g, h, b) && Everywhere(m, g, b, NoSha192)
    ensures Reconstruct(m, g, h, roots) == (Succeeded, m)
  {
    if roots != [] {
      SecondRunIdle(m, g, h, roots[0]);
      IdleOnAll(m, g, h, roots[1..]);
    }
  }

  /** The tool itself: blocks are rewritten in place, one slot at a time. */
  class Repairer {
    var media: Media

    constructor (m: Media)
      ensures media == m
    {
      media := m;
    }

    method ModifyBlockref(ghost g: Graph, h: Codes, b: Blockref, prev: Option<DataOff>, slot: nat)
      returns (r: Outcome)
      requires Closed(media, g) && InGraph(g, b)
      requires prev.Some? ==> prev.value in media && slot < |media[prev.value]|
      modifies this
      ensures (r, media) == ModifyAt(old(media), g, h, b, prev, slot)
      decreases Rank(media, g, b), 1
    {
      if !b.HasData() {
        return Done;
      }
      if b.dataOff !in media {
        return IoError;
      }
      r := ModifyChildren(g, h, b, media[b.dataOff]);
      if r != Done {
        return r;
      }
      if prev.Some? {
        r := ModifyCheck(h, prev.value, slot, b);
      }
    }

    method ModifyChildren(ghost g: Graph, h: Codes, b: Blockref, blk: Block) returns (r: Outcome)
      requires Inside(media, g, b, blk)
      modifies this
      ensures (r, media) == ModifyFrom(old(media), g, h, b, blk, 0)
      decreases Rank(media, g, b), 0, 1
    {
      var i := 0;
      ghost var m0 := media;
      while i < SlotCount(b.kind, blk)
        invariant 0 <= i <= SlotCount(b.kind, blk)
        invariant Inside(media, g, b, blk) && Rank(media, g, b) == Rank(m0, g, b)
        invariant ModifyFrom(m0, g, h, b, blk, 0) == ModifyFrom(media, g, h, b, blk, i)
      {
        LoopUnfolds(media, g, h, b, blk, i);
        r := ModifySlot(g, h, b, blk, i);
        if r != Done {
          return r;
        }
        i := i + 1;
      }
      r := Done;
    }

    method ModifySlot(ghost g: Graph, h: Codes, b: Blockref, blk: Block, i: nat) returns (r: Outcome)
      requires Inside(media, g, b, blk) && i < SlotCount(b.kind, blk)
      modifies this
      ensures (r, media) == Step(old(media), g, h, b, blk, i)
      decreases Rank(media, g, b), 0, 0
    {
      SlotInside(media, g, b, blk, i);
      var c := blk[SlotBase(b.kind) + i];
      r := Done;
      if c.kind != EMPTY {
        r := ModifyBlockref(g, h, c, Some(b.dataOff), SlotBase(b.kind) + i);
      }
    }

    method ModifyCheck(h: Codes, prev: DataOff, slot: nat, c: Blockref) returns (r: Outcome)
      requires prev in media && slot < |media[prev]| && c.dataOff in media
      modifies this
      ensures (r, media) == Check(old(media), h, prev, slot, c)
    {
      var parent := media[prev];
      if parent[slot] != c {
        return Mismatch;
      }
      if c.check == CHECK_SHA192 {
        return Unsupported;
      }
      if !CheckOk(h, c, media[c.dataOff]) {
        parent := parent[slot := SetCheck(h, c, media[c.dataOff])];
        media := media[prev := parent];
      }
      r := Done;
    }

    method ReconstructBlockref(ghost g: Graph, h: Codes, roots: seq<Blockref>) returns (r: Ending)
      requires Closed(media, g) && forall b <- roots :: InGraph(g, b)
      modifies this
      ensures (r, media) == Reconstruct(old(media), g, h, roots)
    {
      var failed := false;
      for i := 0 to |roots|
        invariant Closed(media, g)
        invariant var rest := Reconstruct(media, g, h, roots[i..]);
                  Reconstruct(old(media), g, h, roots) == (Both(if failed then IoError else Done, rest.0), rest.1)
      {
        ghost var before := media;
        assert roots[i..][1..] == roots[i + 1..];
        if Unreadable(media, roots[i]) {
          return Failed;
        }
        var e := ModifyBlockref(g, h, roots[i], None, 0);
        ShapeKeepsGraph(before, media, g);
        if e == Unsupported {
          return Aborted;
        }
        failed := failed || e != Done;
      }
      r := if failed then Failed else Succeeded;
    }
  }
}
