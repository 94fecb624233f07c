/** The auditor over the freemap: recompute each big-block's owner and free bytes
    from the references to it, and compare with its layer-2 entry. */
module Checkmap {
  import opened Freemap
  import opened Format

  /** A reference found on the media: the zone its kind of record belongs to, the
      zone and offset of its address, and its length. */
  datatype Reference = Reference(zone: nat, addr: nat, at: Pos, len: int)

  /** What is recomputed for one big-block, beside a copy of its layer-2 entry. */
  datatype Track = Track(zone: nat, bytesFree: int, layer2: Layer2)

  /** A tracking slot: the layer-2 table's address and the index in it. */
  type Slot = (nat, nat)

  function Index(b: nat): nat {
    b % RADIX2
  }

  function Looked(st: State, undo: seq<nat>, r: Reference): Lookup {
    LookupSave(st, undo, r.addr, r.at)
  }

  function SlotFor(st: State, undo: seq<nat>, r: Reference): Slot {
    (Looked(st, undo, r).layer1.phys, Index(Looked(st, undo, r).at.block))
  }

  /** `collect_blockmap`: the lookup's error is not looked at. */
  function Collect(tracks: map<Slot, Track>, st: State, undo: seq<nat>, r: Reference): map<Slot, Track> {
    var k := SlotFor(st, undo, r);
    var t := if k in tracks then tracks[k] else Track(r.zone, BIG, Looked(st, undo, r).layer2);
    tracks[k := t.(bytesFree := t.bytesFree - r.len)]
  }

  function CollectAll(st: State, undo: seq<nat>, rs: seq<Reference>): map<Slot, Track> {
    if rs == [] then map[] else Collect(CollectAll(st, undo, rs[..|rs| - 1]), st, undo, rs[|rs| - 1])
  }

  /** What `dump_collect` counts as an error. */
  predicate Mismatch(t: Track) {
    t.zone != t.layer2.zone || t.bytesFree != t.layer2.bytesFree
  }

  // ----- what the audit says, for every list of references -----

  /** The bytes of all references that fall on a slot. */
  function Charge(st: State, undo: seq<nat>, rs: seq<Reference>, k: Slot): int {
    if rs == [] then 0
    else
      Charge(st, undo, rs[..|rs| - 1], k) +
      if SlotFor(st, undo, rs[|rs| - 1]) == k then rs[|rs| - 1].len else 0
  }

  /** No earlier reference falls on the same slot. */
  ghost predicate IsFirst(st: State, undo: seq<nat>, rs: seq<Reference>, i: nat)
    requires i < |rs|
  {
    forall j | 0 <= j < i :: SlotFor(st, undo, rs[j]) != SlotFor(st, undo, rs[i])
  }

  /** The first reference to a slot belongs to the zone of the layer-2 entry it
      found, and that entry's free bytes are the size of a big-block minus all
      references to the slot. */
  ghost predicate Agrees(st: State, undo: seq<nat>, rs: seq<Reference>, r: Reference) {
    var entry := Looked(st, undo, r).layer2;
    entry.zone == r.zone && entry.bytesFree == BIG - Charge(st, undo, rs, SlotFor(st, undo, r))
  }

  ghost predicate Clean(tracks: map<Slot, Track>) {
    forall k | k in tracks :: !Mismatch(tracks[k])
  }

  /** The track of a slot, told from its first reference. */
  ghost predicate Tracked(st: State, undo: seq<nat>, rs: seq<Reference>, tracks: map<Slot, Track>, i: nat)
    requires i < |rs|
  {
    var k := SlotFor(st, undo, rs[i]);
    k in tracks && tracks[k] == Track(rs[i].zone, BIG - Charge(st, undo, rs, k), Looked(st, undo, rs[i]).layer2)
  }

  ghost predicate HasFirst(st: State, undo: seq<nat>, rs: seq<Reference>, k: Slot) {
    exists i: nat :: i < |rs| && IsFirst(st, undo, rs, i) && k == SlotFor(st, undo, rs[i])
  }

  /** The tracks are exactly those of the slots referred to. */
  ghost predicate Tracks(st: State, undo: seq<nat>, rs: seq<Reference>, tracks: map<Slot, Track>) {
    (forall i: nat | i < |rs| && IsFirst(st, undo, rs, i) :: Tracked(st, undo, rs, tracks, i)) &&
    (forall k | k in tracks :: HasFirst(st, undo, rs, k))
  }

  lemma ChargeMore(st: State, undo: seq<nat>, rs: seq<Reference>, r: Reference, k: Slot)
    ensures Charge(st, undo, rs + [r], k) == Charge(st, undo, rs, k) + if SlotFor(st, undo, r) == k then r.len else 0
  {
    assert (rs + [r])[..|rs|] == rs;
  }

  lemma {:induction false} ChargeNone(st: State, undo: seq<nat>, rs: seq<Reference>, k: Slot)
    requires forall i | 0 <= i < |rs| :: SlotFor(st, undo, rs[i]) != k
    ensures Charge(st, undo, rs, k) == 0
  {
    if rs != [] {
      ChargeNone(st, undo, rs[..|rs| - 1], k);
    }
  }

  lemma FirstMore(st: State, undo: seq<nat>, rs: seq<Reference>, r: Reference, i: nat)
    requires i < |rs|
    ensures (rs + [r])[i] == rs[i] && (IsFirst(st, undo, rs + [r], i) <==> IsFirst(st, undo, rs, i))
  {
    hide SlotFor;
    var all := rs + [r];
    assert forall j | 0 <= j <= i :: all[j] == rs[j];
  }

  lemma {:induction false} CollectExact(st: State, undo: seq<nat>, rs: seq<Reference>)
    ensures Tracks(st, undo, rs, CollectAll(st, undo, rs))
  {
    if rs != [] {
      var n := |rs| - 1;
      CollectExact(st, undo, rs[..n]);
      assert rs == rs[..n] + [rs[n]];
      TracksMore(st, undo, rs[..n], rs[n], CollectAll(st, undo, rs[..n]));
    }
  }

  lemma TracksMore(st: State, undo: seq<nat>, rs: seq<Reference>, r: Reference, tracks: map<Slot, Track>)
    requires Tracks(st, undo, rs, tracks)
    ensures Tracks(st, undo, rs + [r], Collect(tracks, st, undo, r))
  {
    hide SlotFor, Looked, Charge, IsFirst, HasFirst;
    var all, tracks' := rs + [r], Collect(tracks, st, undo, r);
    forall i: nat | i < |all| && IsFirst(st, undo, all, i)
      ensures Tracked(st, undo, all, tracks', i)
    {
      ChargeMore(st, undo, rs, r, SlotFor(st, undo, all[i]));
      if i < |rs| {
        FirstMore(st, undo, rs, r, i);
        assert Tracked(st, undo, rs, tracks, i);
      } else {
        NewSlot(st, undo, rs, r, tracks);
      }
    }
    forall k | k in tracks'
      ensures HasFirst(st, undo, all, k)
    {
      if k in tracks {
        HasFirstMore(st, undo, rs, r, k);
      } else {
        FirstOfNew(st, undo, rs, r, tracks);
      }
    }
  }

  lemma HasFirstMore(st: State, undo: seq<nat>, rs: seq<Reference>, r: Reference, k: Slot)
    requires HasFirst(st, undo, rs, k)
    ensures HasFirst(st, undo, rs + [r], k)
  {
    hide SlotFor, IsFirst;
    var i: nat :| i < |rs| && IsFirst(st, undo, rs, i) && k == SlotFor(st, undo, rs[i]);
    FirstMore(st, undo, rs, r, i);
  }

  /** A reference that is the first to its slot finds no track. */
  lemma NewSlot(st: State, undo: seq<nat>, rs: seq<Reference>, r: Reference, tracks: map<Slot, Track>)
    requires Tracks(st, undo, rs, tracks) && IsFirst(st, undo, rs + [r], |rs|)
    ensures SlotFor(st, undo, r) !in tracks && Charge(st, undo, rs, SlotFor(st, undo, r)) == 0
  {
    hide SlotFor;
    var k, all := SlotFor(st, undo, r), rs + [r];
    forall j | 0 <= j < |rs|
      ensures SlotFor(st, undo, rs[j]) != k
    {
      assert all[j] == rs[j];
    }
    ChargeNone(st, undo, rs, k);
    assert k in tracks ==> HasFirst(st, undo, rs, k);
  }

  /** A reference that finds no track is the first to its slot. */
  lemma {:induction false} FirstOfNew(st: State, undo: seq<nat>, rs: seq<Reference>, r: Reference, tracks: map<Slot, Track>)
    requires Tracks(st, undo, rs, tracks) && SlotFor(st, undo, r) !in tracks
    ensures HasFirst(st, undo, rs + [r], SlotFor(st, undo, r))
  {
    hide SlotFor, Charge;
    var k, all := SlotFor(st, undo, r), rs + [r];
    forall j: nat | j < |rs|
      ensures SlotFor(st, undo, all[j]) != k
    {
      var i := FirstBefore(st, undo, rs, j);
      assert Tracked(st, undo, rs, tracks, i);
    }
    assert IsFirst(st, undo, all, |rs|) && all[|rs|] == r;
  }

  lemma {:induction false} FirstBefore(st: State, undo: seq<nat>, rs: seq<Reference>, j: nat) returns (i: nat)
    requires j < |rs|
    ensures i <= j && IsFirst(st, undo, rs, i) && SlotFor(st, undo, rs[i]) == SlotFor(st, undo, rs[j])
    decreases j
  {
    hide SlotFor;
    if IsFirst(st, undo, rs, j) {
      i := j;
    } else {
      var h :| 0 <= h < j && SlotFor(st, undo, rs[h]) == SlotFor(st, undo, rs[j]);
      i := FirstBefore(st, undo, rs, h);
    }
  }

  /** The slots that are reported. */
  ghost function Reported(st: State, undo: seq<nat>, rs: seq<Reference>): set<Slot> {
    set i: nat | i < |rs| && IsFirst(st, undo, rs, i) && !Agrees(st, undo, rs, rs[i]) :: SlotFor(st, undo, rs[i])
  }

  /** For every list of references, the errors are exactly the slots whose first
      reference does not agree with the entry it found. */
  lemma AuditExact(st: State, undo: seq<nat>, rs: seq<Reference>)
    ensures var tracks := CollectAll(st, undo, rs);
            (set k | k in tracks && Mismatch(tracks[k])) == Reported(st, undo, rs)
    ensures Clean(CollectAll(st, undo, rs)) <==>
            forall i: nat | i < |rs| && IsFirst(st, undo, rs, i) :: Agrees(st, undo, rs, rs[i])
  {
    hide SlotFor, Looked, CollectAll, Charge, IsFirst;
    CollectExact(st, undo, rs);
    var tracks := CollectAll(st, undo, rs);
    var bad := set k | k in tracks && Mismatch(tracks[k]);
    forall i: nat | i < |rs| && IsFirst(st, undo, rs, i)
      ensures SlotFor(st, undo, rs[i]) in tracks
      ensures Mismatch(tracks[SlotFor(st, undo, rs[i])]) <==> !Agrees(st, undo, rs, rs[i])
    {
      assert Tracked(st, undo, rs, tracks, i);
    }
    forall k | k in bad
      ensures k in Reported(st, undo, rs)
    {
      assert HasFirst(st, undo, rs, k);
      var i: nat :| i < |rs| && IsFirst(st, undo, rs, i) && k == SlotFor(st, undo, rs[i]);
    }
    assert bad == Reported(st, undo, rs);
    if Clean(tracks) {
      forall i: nat | i < |rs| && IsFirst(st, undo, rs, i)
        ensures Agrees(st, undo, rs, rs[i])
      {
        assert !Mismatch(tracks[SlotFor(st, undo, rs[i])]);
      }
    } else {
      var k :| k in tracks && Mismatch(tracks[k]);
      assert k in bad;
    }
  }

  /** A reference whose lookup fails is reported if it is the first to its slot. */
  lemma FailureReported(st: State, undo: seq<nat>, rs: seq<Reference>, i: nat)
    requires i < |rs| && IsFirst(st, undo, rs, i) && rs[i].zone != 0 && Looked(st, undo, rs[i]).error != 0
    ensures !Clean(CollectAll(st, undo, rs))
  {
    AuditExact(st, undo, rs);
    assert !Agrees(st, undo, rs, rs[i]);
  }

  /** The same two references, one with a failing lookup: the audit is clean in
      one order and not in the other. */
  lemma OrderDecides(st: State, undo: seq<nat>, good: Reference, bad: Reference)
    requires RecordZone(good.zone) && good.addr == good.zone && good.zone in st.next
    requires RecordZone(bad.zone) && bad.addr == bad.zone && bad.zone in st.next && bad.zone != good.zone
    requires var b := good.at.block;
             bad.at.block == b && Row(b) in st.layer1 && b in st.layer2 && st.layer2[b].zone == good.zone &&
             st.layer2[b].bytesFree == BIG - good.len - bad.len
    ensures Looked(st, undo, good).error == 0 && Looked(st, undo, bad).error == -8
    ensures Clean(CollectAll(st, undo, [good, bad])) && !Clean(CollectAll(st, undo, [bad, good]))
  {
    hide Row, Index;
    var one, two := [good, bad], [bad, good];
    assert SlotFor(st, undo, good) == SlotFor(st, undo, bad);
    ChargeMore(st, undo, [], good, SlotFor(st, undo, good));
    ChargeMore(st, undo, [good], bad, SlotFor(st, undo, good));
    assert [] + [good] == [good] && [good] + [bad] == one;
    AuditExact(st, undo, one);
    assert !IsFirst(st, undo, one, 1) && Agrees(st, undo, one, one[0]);
    FailureReported(st, undo, two, 0);
  }

  lemma OrderDecidesSomewhere()
    ensures var st := State(map[0 := Layer1(1, 0)], map[5 := Layer2(8, 32, BIG - 32)], 0,
                            map[8 := Pos(5, 32), 9 := Pos(6, 0)]);
            var good, bad := Reference(8, 8, Pos(5, 0), 16), Reference(9, 9, Pos(5, 16), 16);
            Clean(CollectAll(st, [], [good, bad])) && !Clean(CollectAll(st, [], [bad, good]))
  {
    var st := State(map[0 := Layer1(1, 0)], map[5 := Layer2(8, 32, BIG - 32)], 0,
                    map[8 := Pos(5, 32), 9 := Pos(6, 0)]);
    assert Row(5) == 0;
    OrderDecides(st, [], Reference(8, 8, Pos(5, 0), 16), Reference(9, 9, Pos(5, 16), 16));
  }

  // ----- references that are found -----

  function SlotOf(st: State, b: nat): Slot
    requires Row(b) in st.layer1
  {
    (st.layer1[Row(b)].phys, Index(b))
  }

  lemma SlotInjective(st: State, b: nat, c: nat)
    requires Distinct(st) && Row(b) in st.layer1 && Row(c) in st.layer1 && SlotOf(st, b) == SlotOf(st, c)
    ensures b == c
  {
    assert Row(b) == Row(c);
    assert b == Row(b) * RADIX2 + Index(b) && c == Row(c) * RADIX2 + Index(c);
  }

  function Refer(e: Extent): Reference {
    Reference(e.zone, e.zone, e.at, e.len)
  }

  function Refers(es: seq<Extent>): (rs: seq<Reference>)
    ensures |rs| == |es| && forall i | 0 <= i < |es| :: rs[i] == Refer(es[i])
  {
    seq(|es|, i requires 0 <= i < |es| => Refer(es[i]))
  }

  /** The lookup succeeds, in the big-block the reference names. */
  ghost predicate Found(st: State, undo: seq<nat>, e: Extent) {
    var b := e.at.block;
    Row(b) in st.layer1 && b in st.layer2 && st.layer2[b].zone == e.zone &&
    LookupSave(st, undo, e.zone, e.at) == Lookup(0, e.at, st.layer1[Row(b)], st.layer2[b])
  }

  lemma {:induction false} ChargeIsUsed(st: State, undo: seq<nat>, es: seq<Extent>, b: nat)
    requires Distinct(st) && (forall e <- es :: Found(st, undo, e)) && Row(b) in st.layer1
    ensures Charge(st, undo, Refers(es), SlotOf(st, b)) == Used(es, b)
  {
    hide Row, Index, LookupSave;
    if es != [] {
      var n := |es| - 1;
      ChargeIsUsed(st, undo, es[..n], b);
      assert Refers(es)[..n] == Refers(es[..n]);
      assert Found(st, undo, es[n]);
      if SlotOf(st, es[n].at.block) == SlotOf(st, b) {
        SlotInjective(st, es[n].at.block, b);
      }
    }
  }

  /** A big-block's free bytes are its size minus the references to it. */
  ghost predicate Charged(st: State, es: seq<Extent>, b: nat) {
    b in st.layer2 && st.layer2[b].bytesFree == BIG - Used(es, b)
  }

  /** If every reference is found, the audit is clean exactly when every big-block
      referred to is charged what the references to it come to. */
  lemma FoundAudit(st: State, undo: seq<nat>, es: seq<Extent>)
    requires Distinct(st) && forall e <- es :: Found(st, undo, e)
    ensures Clean(CollectAll(st, undo, Refers(es))) <==> forall e <- es :: Charged(st, es, e.at.block)
  {
    hide Row, Index, LookupSave, CollectAll, IsFirst, Charge;
    var rs := Refers(es);
    AuditExact(st, undo, rs);
    forall i: nat | i < |es|
      ensures Agrees(st, undo, rs, rs[i]) <==> Charged(st, es, es[i].at.block)
    {
      assert Found(st, undo, es[i]);
      ChargeIsUsed(st, undo, es, es[i].at.block);
    }
    if Clean(CollectAll(st, undo, rs)) {
      forall e <- es
        ensures Charged(st, es, e.at.block)
      {
        var j: nat :| j < |es| && es[j] == e;
        var i := FirstBefore(st, undo, rs, j);
        assert Found(st, undo, es[i]) && Found(st, undo, es[j]);
        SlotInjective(st, es[i].at.block, es[j].at.block);
        assert Agrees(st, undo, rs, rs[i]);
      }
    }
  }

  // ----- the auditor agrees with the allocator -----

  lemma {:induction false} UsedRemove(es: seq<Extent>, i: nat, b: nat)
    requires i < |es|
    ensures Used(es, b) == Used(es[..i] + es[i + 1..], b) + if es[i].at.block == b then es[i].len else 0
  {
    var n := |es| - 1;
    if i == n {
      assert es[..i] + es[i + 1..] == es[..n];
    } else {
      UsedRemove(es[..n], i, b);
      var rest := es[..n][..i] + es[..n][i + 1..];
      assert es[..i] + es[i + 1..] == rest + [es[n]];
      UsedAppend(rest, es[n], b);
    }
  }

  /** What a big-block is charged does not depend on the order. */
  lemma {:induction false} UsedPermutes(es: seq<Extent>, rs: seq<Extent>, b: nat)
    requires multiset(es) == multiset(rs)
    ensures Used(es, b) == Used(rs, b)
  {
    if es == [] {
      assert |multiset(rs)| == 0;
    } else {
      var n := |es| - 1;
      assert es[n] in multiset(rs);
      var i :| 0 <= i < |rs| && rs[i] == es[n];
      var rs' := rs[..i] + rs[i + 1..];
      assert es[..n] + es[n + 1..] == es[..n];
      Without(es, n);
      Without(rs, i);
      UsedRemove(rs, i, b);
      UsedPermutes(es[..n], rs', b);
    }
  }

  lemma Without(es: seq<Extent>, i: nat)
    requires i < |es|
    ensures multiset(es[..i] + es[i + 1..]) == multiset(es) - multiset{es[i]}
  {
    assert es == es[..i] + [es[i]] + es[i + 1..];
    assert multiset(es) == multiset(es[..i]) + multiset{es[i]} + multiset(es[i + 1..]);
  }

  /** Fed every extent that was handed out, once each and in any order, the
      auditor finds nothing wrong. */
  lemma AuditorAgrees(st: State, undo: seq<nat>, es: seq<Extent>, xs: seq<Extent>)
    requires Right(st, es) && multiset(xs) == multiset(es)
    ensures Clean(CollectAll(st, undo, Refers(xs)))
  {
    hide Inv, CollectAll, LookupSave, Row;
    forall x <- xs
      ensures Found(st, undo, x) && Charged(st, xs, x.at.block)
    {
      assert x in multiset(es);
      ExtentPlaced(st, es, x);
      LookupFinds(st, es, undo, x, 0);
      assert Pos(x.at.block, x.at.off + 0) == x.at;
      ExtentAccounted(st, es, x);
      UsedPermutes(es, xs, x.at.block);
    }
    FoundAudit(st, undo, xs);
  }

  lemma ExtentAccounted(st: State, es: seq<Extent>, e: Extent)
    requires Inv(st, es) && e in es
    ensures Charged(st, es, e.at.block)
  {
    hide CountFree, Row, Used;
    assert Placed(st, e);
  }

  /** From a freemap that is right, any run of allocations that returns leaves one
      that audits clean. */
  lemma RunAuditsClean(st: State, undo: seq<nat>, ops: seq<Op>, xs: seq<Extent>)
    requires Right(st, []) && Run(st, [], ops).Ran?
    requires multiset(xs) == multiset(Run(st, [], ops).es)
    ensures Clean(CollectAll(Run(st, [], ops).st, undo, Refers(xs)))
  {
    hide Right, Run, CollectAll;
    RunKeeps(st, [], ops);
    AuditorAgrees(Run(st, [], ops).st, undo, Run(st, [], ops).es, xs);
  }

  /** The tracking tables and the error counter. */
  class Auditor {
    var tracks: map<Slot, Track>

    constructor ()
      ensures tracks == map[]
    {
      tracks := map[];
    }

    /** `collect_blockmap`, with the lazily made track of `collect_get_track`. */
    method CollectBlockmap(st: State, undo: seq<nat>, r: Reference)
      modifies this
      ensures tracks == Collect(old(tracks), st, undo, r)
    {
      var l := LookupSave(st, undo, r.addr, r.at);
      var k := (l.layer1.phys, Index(l.at.block));
      if k !in tracks {
        tracks := tracks[k := Track(r.zone, BIG, l.layer2)];
      }
      tracks := tracks[k := tracks[k].(bytesFree := tracks[k].bytesFree - r.len)];
    }

    /** `dump_collect_table`: counts the mismatches. */
    method DumpCollectTable() returns (errors: nat)
      ensures errors == |set k | k in tracks && Mismatch(tracks[k])|
    {
      errors := 0;
      var left := tracks.Keys;
      ghost var bad: set<Slot> := {};
      while left != {}
        invariant left <= tracks.Keys && errors == |bad|
        invariant bad == set k | k in tracks && k !in left && Mismatch(tracks[k])
        decreases left
      {
        var k :| k in left;
        left := left - {k};
        if Mismatch(tracks[k]) {
          errors := errors + 1;
          bad := bad + {k};
        }
      }
      assert bad == set k | k in tracks && Mismatch(tracks[k]);
    }
  }

  /** The whole check over the references of a freemap. */
  method Audit(st: State, undo: seq<nat>, rs: seq<Reference>) returns (errors: nat)
    ensures errors == |Reported(st, undo, rs)|
    ensures errors == 0 <==> forall i: nat | i < |rs| && IsFirst(st, undo, rs, i) :: Agrees(st, undo, rs, rs[i])
  {
    hide Collect, SlotFor, Looked, Charge, IsFirst;
    var a := new Auditor();
    var i := 0;
    while i < |rs|
      invariant 0 <= i <= |rs| && a.tracks == CollectAll(st, undo, rs[..i])
    {
      a.CollectBlockmap(st, undo, rs[i]);
      assert rs[..i + 1][..i] == rs[..i];
      i := i + 1;
    }
    assert rs[..i] == rs;
    errors := a.DumpCollectTable();
    AuditExact(st, undo, rs);
    NoneReported(a.tracks);
  }

  lemma NoneReported(tracks: map<Slot, Track>)
    ensures |set k | k in tracks && Mismatch(tracks[k])| == 0 <==> Clean(tracks)
  {
    var bad := set k | k in tracks && Mismatch(tracks[k]);
    if |bad| == 0 {
      forall k | k in tracks
        ensures !Mismatch(tracks[k])
      {
        assert k !in bad;
      }
    } else {
      assert bad != {};
    }
  }
}
