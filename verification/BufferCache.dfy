/** The write-back buffer cache of the HAMMER1 tools, as a refinement of a plain
    disk: what is cached and what is evicted shows on a read-only volume only,
    where an evicted buffer goes back to what the disk has. */
module BufferCache {
  import opened Common

  const BUF: nat := 16384

  type Data = seq<int>

  const ZEROS: Data := seq(BUF, _ => 0)

  /** A cached 16KB buffer; `off` counts buffers. */
  datatype Buffer = Buffer(off: nat, data: Data, refs: nat, modified: bool)

  predicate Unique(list: seq<Buffer>) {
    forall i, j | 0 <= i < j < |list| :: list[i].off != list[j].off
  }

  predicate Cached(list: seq<Buffer>, off: nat) {
    exists i :: 0 <= i < |list| && list[i].off == off
  }

  predicate Marked(list: seq<Buffer>, off: nat) {
    exists i :: 0 <= i < |list| && list[i].off == off && list[i].modified
  }

  function Offs(list: seq<Buffer>): (os: seq<nat>)
    ensures |os| == |list| && forall i | 0 <= i < |list| :: os[i] == list[i].off
  {
    seq(|list|, i requires 0 <= i < |list| => list[i].off)
  }

  /** A buffer agrees with what callers see (`view`) and hold (`held`), and with
      the disk unless it is marked modified or the disk cannot be written. */
  ghost predicate Good(b: Buffer, disk: map<nat, Data>, view: map<nat, Data>, held: multiset<nat>, rdonly: bool) {
    b.off in disk && b.off in view && b.data == view[b.off] && b.refs == held[b.off] &&
    (!b.modified && !rdonly ==> b.data == disk[b.off])
  }

  /** The cache over the disk is the plain disk `view` with `held` references. */
  ghost predicate Refines(list: seq<Buffer>, disk: map<nat, Data>, view: map<nat, Data>, held: multiset<nat>,
                          rdonly: bool)
  {
    Unique(list) && view.Keys == disk.Keys && (forall b <- list :: Good(b, disk, view, held, rdonly)) &&
    (forall o | o in disk && !Cached(list, o) :: view[o] == disk[o]) &&
    (forall o | o in held :: Cached(list, o))
  }

  /** writehammerbuf(): a read-only volume silently keeps its contents. */
  function WriteBack(disk: map<nat, Data>, b: Buffer, rdonly: bool): map<nat, Data> {
    if rdonly then disk else disk[b.off := b.data]
  }

  /** The disk after a buffer is dropped. */
  function Dropped(disk: map<nat, Data>, b: Buffer, rdonly: bool): map<nat, Data> {
    if b.modified then WriteBack(disk, b, rdonly) else disk
  }

  /** What callers see once a buffer is dropped. */
  function Seen(view: map<nat, Data>, disk: map<nat, Data>, b: Buffer, rdonly: bool): map<nat, Data>
    requires b.off in disk
  {
    if rdonly then view[b.off := disk[b.off]] else view
  }

  /** From `was` to `view` nothing changed, except that on a read-only volume
      buffers nobody holds went back to what the disk has. */
  ghost predicate Forgets(was: map<nat, Data>, view: map<nat, Data>, disk: map<nat, Data>, held: multiset<nat>,
                          rdonly: bool)
  {
    view.Keys == was.Keys &&
    forall o | o in view :: view[o] == was[o] || (rdonly && o !in held && o in disk && view[o] == disk[o])
  }

  /** The buffers of `before` that are no longer in `after` show the disk. */
  ghost predicate Shows(was: map<nat, Data>, view: map<nat, Data>, disk: map<nat, Data>, before: seq<Buffer>,
                        after: seq<Buffer>, rdonly: bool)
  {
    view.Keys == was.Keys && view.Keys == disk.Keys &&
    forall o | o in view ::
      view[o] == if rdonly && Cached(before, o) && !Cached(after, o) then disk[o] else was[o]
  }

  ghost predicate Shrunk(before: seq<Buffer>, after: seq<Buffer>) {
    forall o | Cached(after, o) :: Cached(before, o)
  }

  /** Buffers nobody holds were dropped from `before`, and that is all that shows. */
  ghost predicate Evicts(was: map<nat, Data>, view: map<nat, Data>, disk: map<nat, Data>, before: seq<Buffer>,
                         after: seq<Buffer>, held: multiset<nat>, rdonly: bool)
  {
    Forgets(was, view, disk, held, rdonly) && Shows(was, view, disk, before, after, rdonly) && Shrunk(before, after)
  }

  lemma Chained(was: map<nat, Data>, mid: map<nat, Data>, view: map<nat, Data>, disk: map<nat, Data>,
                disk': map<nat, Data>, held: multiset<nat>, rdonly: bool)
    requires Forgets(was, mid, disk, held, rdonly) && Forgets(mid, view, disk', held, rdonly)
    requires rdonly ==> disk' == disk
    ensures Forgets(was, view, disk, held, rdonly)
  {
    forall o | o in view
      ensures view[o] == was[o] || (rdonly && o !in held && o in disk && view[o] == disk[o])
    {
      assert o in mid;
    }
  }

  lemma EvictsMore(was: map<nat, Data>, mid: map<nat, Data>, view: map<nat, Data>, disk: map<nat, Data>,
                   disk': map<nat, Data>, before: seq<Buffer>, list: seq<Buffer>, after: seq<Buffer>,
                   held: multiset<nat>, rdonly: bool)
    requires Evicts(was, mid, disk, before, list, held, rdonly) && Evicts(mid, view, disk', list, after, held, rdonly)
    requires rdonly ==> disk' == disk
    ensures Evicts(was, view, disk, before, after, held, rdonly)
  {
    Chained(was, mid, view, disk, disk', held, rdonly);
    hide Forgets, Cached;
    forall o | o in view
      ensures view[o] == if rdonly && Cached(before, o) && !Cached(after, o) then disk[o] else was[o]
    {
      assert o in mid;
      assert Cached(after, o) ==> Cached(list, o);
      assert Cached(list, o) ==> Cached(before, o);
    }
    forall o | Cached(after, o)
      ensures Cached(before, o)
    {
      assert Cached(list, o);
    }
  }

  lemma EvictsSame(was: map<nat, Data>, view: map<nat, Data>, disk: map<nat, Data>, before: seq<Buffer>,
                   list: seq<Buffer>, after: seq<Buffer>, held: multiset<nat>, rdonly: bool)
    requires Evicts(was, view, disk, before, list, held, rdonly)
    requires forall o :: Cached(after, o) <==> Cached(list, o)
    ensures Evicts(was, view, disk, before, after, held, rdonly)
  {
  }

  /** A volume that can be written, or on which all that is not held is as on the
      disk, forgets nothing. */
  lemma ForgetsNothing(was: map<nat, Data>, view: map<nat, Data>, disk: map<nat, Data>, held: multiset<nat>,
                       rdonly: bool)
    requires Forgets(was, view, disk, held, rdonly)
    requires rdonly ==> forall o | o in was && o in disk && o !in held :: was[o] == disk[o]
    ensures view == was
  {
  }

  lemma CachedAt(list: seq<Buffer>, i: nat)
    requires i < |list|
    ensures Cached(list, list[i].off)
  {
  }

  lemma Without(list: seq<Buffer>, i: nat)
    requires i < |list| && Unique(list)
    ensures var rest := list[..i] + list[i + 1..];
            Unique(rest) && (forall o :: Cached(rest, o) <==> Cached(list, o) && o != list[i].off) &&
            (forall b <- rest :: b in list && b.off != list[i].off)
  {
    var rest := list[..i] + list[i + 1..];
    forall o
      ensures Cached(rest, o) <==> Cached(list, o) && o != list[i].off
    {
      if Cached(list, o) && o != list[i].off {
        var k :| 0 <= k < |list| && list[k].off == o;
        assert rest[if k < i then k else k - 1].off == o;
      }
      if Cached(rest, o) {
        var k :| 0 <= k < |rest| && rest[k].off == o;
        assert list[if k < i then k else k + 1].off == o;
      }
    }
  }

  /** Dropping a buffer nobody holds shows on a read-only volume only, and there
      as the contents of the disk. */
  lemma DropKeeps(list: seq<Buffer>, i: nat, disk: map<nat, Data>, view: map<nat, Data>, held: multiset<nat>,
                  rdonly: bool)
    requires i < |list| && Refines(list, disk, view, held, rdonly) && list[i].refs == 0
    ensures list[i].off in disk
    ensures Refines(list[..i] + list[i + 1..], Dropped(disk, list[i], rdonly), Seen(view, disk, list[i], rdonly), held,
                    rdonly)
    ensures Evicts(view, Seen(view, disk, list[i], rdonly), disk, list, list[..i] + list[i + 1..], held, rdonly)
  {
    Without(list, i);
    var b, rest := list[i], list[..i] + list[i + 1..];
    CachedAt(list, i);
    assert Good(b, disk, view, held, rdonly);
    forall c <- rest
      ensures Good(c, Dropped(disk, b, rdonly), Seen(view, disk, b, rdonly), held, rdonly)
    {
      assert c in list;
      assert Good(c, disk, view, held, rdonly);
    }
  }

  /** Any reordering of the list is the same cache. */
  lemma RotateKeeps(list: seq<Buffer>, i: nat, disk: map<nat, Data>, view: map<nat, Data>, held: multiset<nat>,
                    rdonly: bool)
    requires i < |list| && Refines(list, disk, view, held, rdonly)
    ensures Refines(list[..i] + list[i + 1..] + [list[i]], disk, view, held, rdonly)
  {
    Without(list, i);
    var rest := list[..i] + list[i + 1..];
    AddedCached(rest, list[i]);
    assert list[i] in list;
  }

  lemma RotateCached(list: seq<Buffer>, i: nat)
    requires i < |list| && Unique(list)
    ensures forall o :: Cached(list[..i] + list[i + 1..] + [list[i]], o) <==> Cached(list, o)
  {
    Without(list, i);
    AddedCached(list[..i] + list[i + 1..], list[i]);
    CachedAt(list, i);
  }

  lemma AddedCached(rest: seq<Buffer>, b: Buffer)
    ensures forall o :: Cached(rest + [b], o) <==> Cached(rest, o) || o == b.off
    ensures forall o :: Cached([b] + rest, o) <==> Cached(rest, o) || o == b.off
  {
    forall o
      ensures Cached(rest + [b], o) <==> Cached(rest, o) || o == b.off
      ensures Cached([b] + rest, o) <==> Cached(rest, o) || o == b.off
    {
      assert (rest + [b])[|rest|] == b && ([b] + rest)[0] == b;
      if Cached(rest, o) {
        var k :| 0 <= k < |rest| && rest[k].off == o;
        assert (rest + [b])[k].off == o && ([b] + rest)[k + 1].off == o;
      }
    }
  }

  /** A buffer taken or given back, or its contents changed by a holder. */
  lemma ChangeKeeps(list: seq<Buffer>, i: nat, b: Buffer, disk: map<nat, Data>, view: map<nat, Data>,
                    held: multiset<nat>, held': multiset<nat>, rdonly: bool)
    requires i < |list| && Refines(list, disk, view, held, rdonly) && b.off == list[i].off
    requires Good(b, disk, view[b.off := b.data], held', rdonly)
    requires forall o | o != b.off :: held'[o] == held[o]
    ensures Refines(list[i := b], disk, view[b.off := b.data], held', rdonly)
  {
    var list' := list[i := b];
    forall o
      ensures Cached(list', o) <==> Cached(list, o)
    {
      if Cached(list, o) {
        var k :| 0 <= k < |list| && list[k].off == o;
        assert list'[k].off == o;
      }
      if Cached(list', o) {
        var k :| 0 <= k < |list'| && list'[k].off == o;
        assert list[k].off == o;
      }
    }
    forall c <- list'
      ensures Good(c, disk, view[b.off := b.data], held', rdonly)
    {
      var k :| 0 <= k < |list'| && list'[k] == c;
      if k != i {
        assert c == list[k] && Good(c, disk, view, held, rdonly) && c.off != b.off;
      }
    }
    forall o | o in held'
      ensures Cached(list', o)
    {
      if o == b.off {
        CachedAt(list, i);
      } else {
        assert o in held;
      }
    }
  }

  /** A buffer read in or made, held once from the start. */
  lemma AddKeeps(list: seq<Buffer>, b: Buffer, disk: map<nat, Data>, view: map<nat, Data>, held: multiset<nat>,
                 rdonly: bool)
    requires Refines(list, disk, view, held, rdonly) && b.off in disk && !Cached(list, b.off)
    requires b.refs == 1 && (!b.modified ==> b.data == disk[b.off])
    ensures Refines([b] + list, disk, view[b.off := b.data], held + multiset{b.off}, rdonly)
  {
    var view', held' := view[b.off := b.data], held + multiset{b.off};
    AddedCached(list, b);
    assert held[b.off] == 0;
    forall c <- list
      ensures Good(c, disk, view', held', rdonly)
    {
      OthersDiffer(list, b.off, c);
      assert Good(c, disk, view, held, rdonly);
    }
    AddUnique(list, b);
    assert Good(b, disk, view', held', rdonly);
  }

  lemma OthersDiffer(list: seq<Buffer>, off: nat, c: Buffer)
    requires c in list && !Cached(list, off)
    ensures c.off != off
  {
    var k :| 0 <= k < |list| && list[k] == c;
    CachedAt(list, k);
  }

  lemma AddUnique(list: seq<Buffer>, b: Buffer)
    requires Unique(list) && !Cached(list, b.off)
    ensures Unique([b] + list)
  {
    var all := [b] + list;
    forall i, j | 0 <= i < j < |all|
      ensures all[i].off != all[j].off
    {
      assert all[j] == list[j - 1];
      OthersDiffer(list, b.off, all[j]);
    }
  }

  /** hammer_cache_flush() on a list whose held buffers `kept` were moved behind:
      buffers nobody holds are dropped until half the maximum is left. */
  function Flushed(left: seq<Buffer>, kept: seq<Buffer>, max: int): (r: seq<Buffer>)
    decreases |left|
  {
    if left == [] then kept
    else if left[0].refs > 0 then Flushed(left[1..], kept + [left[0]], max)
    else if BUF * (|left| - 1 + |kept|) < max / 2 then left[1..] + kept
    else Flushed(left[1..], kept, max)
  }

  /** What is left is half the maximum or held, came from the list, and has every
      held buffer of it. */
  lemma {:induction false} FlushedFits(left: seq<Buffer>, kept: seq<Buffer>, max: int)
    requires forall b <- kept :: b.refs > 0
    ensures var r := Flushed(left, kept, max);
            (BUF * |r| < max / 2 || forall b <- r :: b.refs > 0) &&
            (forall b <- r :: b in left || b in kept) &&
            (forall b <- left + kept | b.refs > 0 :: b in r)
    decreases |left|
  {
    if left != [] {
      var c := left[0];
      assert left == [c] + left[1..];
      if c.refs > 0 {
        FlushedFits(left[1..], kept + [c], max);
        assert forall b <- left + kept :: b in left[1..] + (kept + [c]);
      } else if BUF * (|left| - 1 + |kept|) >= max / 2 {
        FlushedFits(left[1..], kept, max);
        assert forall b <- left + kept | b.refs > 0 :: b in left[1..] + kept;
      }
    }
  }

  /** A buffer was put in front, and the list `mid` that makes was flushed if it was too long. */
  ghost predicate Took(offs: seq<nat>, use: int, max: int, after: seq<Buffer>, was: map<nat, Data>, view: map<nat, Data>,
                       disk: map<nat, Data>, held: multiset<nat>, rdonly: bool)
  {
    exists mid: seq<Buffer> ::
      Offs(mid) == offs && (forall b <- mid :: b.refs == held[b.off]) &&
      after == (if use < max then mid else Flushed(mid, [], max)) && Shows(was, view, disk, mid, after, rdonly)
  }

  /** What the evicting loop has seen: `kept` are held and were moved behind. */
  ghost predicate Swept(list: seq<Buffer>, left: seq<Buffer>, kept: seq<Buffer>) {
    list == left + kept && forall b <- kept :: b.refs > 0
  }

  class Cache {
    var list: seq<Buffer>
    var disk: map<nat, Data>
    var use: int
    var max: int
    const rdonly: bool
    /** Buffers on the volume, and how many to read on either side. */
    const size: nat
    const ahead: nat
    ghost var view: map<nat, Data>
    ghost var held: multiset<nat>

    ghost predicate Valid()
      reads this
    {
      Refines(list, disk, view, held, rdonly) && use == BUF * |list| && (forall o :: o in view <==> o < size)
    }

    constructor (disk: map<nat, Data>, size: nat, max: int, rdonly: bool, ahead: nat)
      requires forall o :: o in disk <==> o < size
      ensures Valid() && view == this.disk == disk && held == multiset{} && this.max == max && list == []
      ensures this.size == size && this.rdonly == rdonly && this.ahead == ahead
    {
      list, use := [], 0;
      this.disk, this.max, this.rdonly, this.size, this.ahead := disk, max, rdonly, size, ahead;
      view, held := disk, multiset{};
    }

    /** find_buffer(). */
    method Find(off: nat) returns (r: Option<nat>)
      ensures match r
              case None => !Cached(list, off)
              case Some(i) => i < |list| && list[i].off == off
    {
      var i := 0;
      while i < |list|
        invariant 0 <= i <= |list| && forall k | 0 <= k < i :: list[k].off != off
      {
        if list[i].off == off {
          return Some(i);
        }
        i := i + 1;
      }
      r := None;
    }

    /** hammer_cache_used(): moves a buffer to the tail of the list. */
    method Used(i: nat)
      requires Valid() && i < |list|
      modifies this`list
      ensures Valid() && list == old(list[..i] + list[i + 1..] + [list[i]])
      ensures forall o :: Cached(list, o) <==> old(Cached(list, o))
    {
      RotateKeeps(list, i, disk, view, held, rdonly);
      RotateCached(list, i);
      list := list[..i] + list[i + 1..] + [list[i]];
    }

    /** Drops the first buffer, writing it back if it is modified. */
    method EvictFirst()
      requires Valid() && list != [] && list[0].refs == 0
      modifies this`list, this`disk, this`use, this`view
      ensures Valid() && list == old(list)[1..] && use == old(use) - BUF
      ensures disk == Dropped(old(disk), old(list)[0], rdonly)
      ensures Evicts(old(view), view, old(disk), old(list), list, held, rdonly)
    {
      hide Refines, Evicts;
      SameKeys(list, disk, view, held, rdonly);
      DropKeeps(list, 0, disk, view, held, rdonly);
      assert list[..0] + list[1..] == list[1..];
      view := Seen(view, disk, list[0], rdonly);
      disk := if list[0].modified then WriteBack(disk, list[0], rdonly) else disk;
      list := list[1..];
      use := use - BUF;
    }

    /** hammer_cache_flush(): a triggered flush ends below half the maximum or
        with held buffers only, and never raises the maximum. */
    method Flush()
      requires Valid()
      modifies this`list, this`disk, this`use, this`max, this`view
      ensures Valid() && max == old(max) && (rdonly ==> disk == old(disk))
      ensures list == if old(use) < max then old(list) else Flushed(old(list), [], max)
      ensures Evicts(old(view), view, old(disk), old(list), list, held, rdonly)
      ensures old(use) >= max ==>
                (view == old(view) <==>
                 !rdonly || forall b <- old(list) | b !in list :: b.off in old(disk) && b.data == old(disk)[b.off])
    {
      FlushedEmpty(max);
      hide Refines, Evicts, Flushed, Unique, Cached;
      Still(list, disk, view, held, rdonly);
      if use < max {
        return;
      }
      var first: Option<nat>, count := None, 0;
      ghost var left, kept: seq<Buffer> := list, [];
      while list != []
        invariant Valid() && max == old(max) && (rdonly ==> disk == old(disk))
        invariant Swept(list, left, kept) && count == |kept|
        invariant first == if kept == [] then None else Some(kept[0].off)
        invariant Flushed(left, kept, max) == Flushed(old(list), [], max)
        invariant Evicts(old(view), view, old(disk), old(list), list, held, rdonly)
        decreases |left|
      {
        var c := list[0];
        if first == Some(c.off) {
          SameKeys(list, disk, view, held, rdonly);
          FirstAgain(list, left, kept, max);
          break;
        }
        if c.refs > 0 {
          if first.None? {
            first := Some(c.off);
          }
          NotFirst(list, left, kept, max);
          ghost var before := list;
          Used(0);
          EvictsSame(old(view), view, old(disk), old(list), before, list, held, rdonly);
          left, kept := left[1..], kept + [c];
          assert list == left + kept;
          count := count + 1;
          continue;
        }
        FewerKept(list, left, kept, max);
        assert count < |list| == use / BUF;
        var grow := count >= use / BUF;
        max := if grow then max + BUF * 512 else max;
        count := if grow then 0 else count;
        ghost var before, seen, on := list, view, disk;
        EvictFirst();
        EvictsMore(old(view), seen, view, old(disk), on, old(list), before, list, held, rdonly);
        left := left[1..];
        if use < max / 2 {
          break;
        }
      }
      FlushShows(old(list), old(disk), old(view), view, held, rdonly, max);
    }

    /** __alloc_buffer(): a buffer is put in front. */
    method Add(off: nat, isnew: int)
      requires Valid() && off < size && !Cached(list, off)
      modifies this`list, this`use, this`view, this`held
      ensures Valid() && held == old(held) + multiset{off}
      ensures view == if isnew <= 0 then old(view) else old(view)[off := ZEROS]
      ensures Offs(list) == [off] + old(Offs(list)) && use == old(use) + BUF
    {
      hide Refines, Unique;
      SameKeys(list, disk, view, held, rdonly);
      var b := if isnew <= 0 then Buffer(off, disk[off], 1, false) else Buffer(off, ZEROS, 1, true);
      AddKeeps(list, b, disk, view, held, rdonly);
      SameView(list, disk, view, held, rdonly, off);
      view, held := view[off := b.data], held + multiset{off};
      list := [b] + list;
      use := use + BUF;
    }

    /** get_buffer() without the flush and the read-ahead: `isnew` is 1 for a
        buffer to be zeroed, 0 for a read and -1 for a read-ahead.  False is an
        assert: a read-ahead of a buffer that is there, or a zeroing of one that
        is marked modified. */
    method Load(off: nat, isnew: int) returns (ok: bool)
      requires Valid() && off < size
      modifies this`list, this`use, this`view, this`held
      ensures ok <==> !(isnew == -1 && old(Cached(list, off))) && !(isnew > 0 && old(Marked(list, off)))
      ensures ok ==> Valid() && held == old(held) + multiset{off}
      ensures ok ==> view == if isnew <= 0 then old(view) else old(view)[off := ZEROS]
      ensures !old(Cached(list, off)) ==> Offs(list) == [off] + old(Offs(list)) && use == old(use) + BUF
    {
      hide Refines, Unique;
      var r := Find(off);
      if r.None? {
        NoneMarked(list, off);
        Add(off, isnew);
        return true;
      }
      CachedAt(list, r.value);
      MarkedAt(list, disk, view, held, rdonly, r.value);
      if isnew == -1 || (isnew > 0 && list[r.value].modified) {
        return false;
      }
      Used(r.value);
      var n := |list| - 1;
      var b := list[n].(refs := list[n].refs + 1);
      MoreHeld(list, n, b, disk, view, held, rdonly);
      held := held + multiset{off};
      list := list[n := b];
      if isnew > 0 {
        Store(off, ZEROS);
      }
      ok := true;
    }

    /** get_buffer(). */
    method Get(off: nat, isnew: int) returns (ok: bool)
      requires Valid() && off < size
      modifies this`list, this`disk, this`use, this`max, this`view, this`held
      ensures ok <==> !(isnew == -1 && old(Cached(list, off))) && !(isnew > 0 && old(Marked(list, off)))
      ensures ok ==> Valid() && held == old(held) + multiset{off} && max == old(max) && Cached(list, off)
      ensures ok && rdonly ==> disk == old(disk)
      ensures ok ==> Forgets(if isnew <= 0 then old(view) else old(view)[off := ZEROS], view, old(disk), held, rdonly)
      ensures ahead == 0 && isnew == 0 && !old(Cached(list, off)) ==>
                Took([off] + old(Offs(list)), old(use) + BUF, max, list, old(view), view, old(disk), held, rdonly)
    {
      hide Refines, Forgets, Shows, Shrunk, Flushed, Took;
      var r := Find(off);
      ok := Load(off, isnew);
      if !ok {
        return;
      }
      ghost var loaded, mid := view, list;
      Flush();
      if r.None? {
        TookMid(mid, old(use) + BUF, max, list, loaded, view, old(disk), held, rdonly, Offs(mid));
      }
      if r.None? && isnew == 0 {
        ghost var flushed, on := view, disk;
        ReadAround(off);
        Chained(loaded, flushed, view, old(disk), on, held, rdonly);
      }
      HeldCached(list, disk, view, held, rdonly, off);
    }

    /** rel_buffer() by a holder. */
    method Rel(off: nat)
      requires Valid() && off in held
      modifies this`list, this`held
      ensures Valid() && held == old(held) - multiset{off} && Offs(list) == old(Offs(list))
    {
      hide Refines, Unique;
      HeldCached(list, disk, view, held, rdonly, off);
      var r := Find(off);
      var i := r.value;
      var b := list[i].(refs := list[i].refs - 1);
      assert list[i] in list;
      LessHeld(list, i, b, disk, view, held, rdonly);
      held := held - multiset{off};
      list := list[i := b];
    }

    /** A holder changes the contents and marks the buffer modified. */
    method Store(off: nat, data: Data)
      requires Valid() && off in held
      modifies this`list, this`view
      ensures Valid() && view == old(view)[off := data] && Offs(list) == old(Offs(list))
    {
      hide Refines, Unique;
      HeldCached(list, disk, view, held, rdonly, off);
      var r := Find(off);
      var i := r.value;
      var b := list[i].(data := data, modified := true);
      Stored(list, i, b, disk, view, held, rdonly);
      view := view[off := data];
      list := list[i := b];
    }

    /** get_buffer_data(): keeps the buffer in hand if it is the wanted one, and
        otherwise trades it for that. */
    method GetData(hand: Option<nat>, off: nat, isnew: int) returns (ok: bool)
      requires Valid() && off < size && (hand.Some? ==> hand.value in held)
      modifies this`list, this`disk, this`use, this`max, this`view, this`held
      ensures isnew == 0 ==> ok
      ensures ok ==> Valid() && Cached(list, off) && max == old(max)
      ensures ok ==> held == if hand.Some? then old(held) - multiset{hand.value} + multiset{off}
                             else old(held) + multiset{off}
      ensures ok && rdonly ==> disk == old(disk)
      ensures ok ==> Forgets(if isnew <= 0 then old(view) else old(view)[off := ZEROS], view, old(disk), held, rdonly)
    {
      hide Refines, Forgets;
      if hand.Some? {
        if isnew <= 0 && hand.value == off {
          HeldCached(list, disk, view, held, rdonly, off);
          var r := Find(off);
          Used(r.value);
          CachedAt(list, |list| - 1);
          assert held - multiset{off} + multiset{off} == held;
          Still(list, disk, view, held, rdonly);
          return true;
        }
        Rel(hand.value);
      }
      ok := Get(off, isnew);
    }

    /** flush_buffer() for every buffer: nothing shows, no mark is left, and a disk
        that can be written has it all. */
    method FlushAll()
      requires Valid()
      modifies this`list, this`disk
      ensures Valid() && disk == if rdonly then old(disk) else view
      ensures |list| == old(|list|)
      ensures forall k | 0 <= k < |list| :: list[k] == old(list)[k].(modified := false)
    {
      var i := 0;
      while i < |list|
        invariant Valid() && 0 <= i <= |list| == old(|list|) && (rdonly ==> disk == old(disk))
        invariant forall k | 0 <= k < i :: list[k] == old(list)[k].(modified := false)
        invariant forall k | i <= k < |list| :: list[k] == old(list)[k]
      {
        hide Refines;
        var b := list[i].(modified := false);
        Written(list, i, b, disk, view, held, rdonly);
        disk := WriteBack(disk, list[i], rdonly);
        list := list[i := b];
        i := i + 1;
      }
      if !rdonly {
        AllClean(list, disk, view, held, rdonly);
      }
    }

    /** One turn of get_buffer_readahead(). */
    method ReadIfMissing(off: nat)
      requires Valid() && off < size
      modifies this`list, this`disk, this`use, this`max, this`view, this`held
      ensures Valid() && held == old(held) && max == old(max) && (rdonly ==> disk == old(disk))
      ensures Forgets(old(view), view, old(disk), held, rdonly)
    {
      hide Refines, Forgets, Shows, Shrunk, Flushed;
      Still(list, disk, view, held, rdonly);
      var r := Find(off);
      if r.None? {
        var ok := Load(off, -1);
        Flush();
        Rel(off);
        assert old(held) + multiset{off} - multiset{off} == old(held);
        FewerHeld(old(view), view, old(disk), held, off, rdonly);
      }
    }

    /** get_buffer_readahead(): reads around a held buffer. */
    method ReadAround(off: nat)
      requires Valid() && off in held
      modifies this`list, this`disk, this`use, this`max, this`view, this`held
      ensures Valid() && held == old(held) && max == old(max) && (rdonly ==> disk == old(disk))
      ensures Forgets(old(view), view, old(disk), held, rdonly)
      ensures ahead == 0 ==> list == old(list) && view == old(view)
    {
      hide Refines, Forgets, Shows, Shrunk, Flushed;
      Still(list, disk, view, held, rdonly);
      var ri: int := -(ahead as int);
      while ri < ahead
        invariant Valid() && held == old(held) && max == old(max) && (rdonly ==> disk == old(disk))
        invariant Forgets(old(view), view, old(disk), held, rdonly)
        invariant ahead == 0 ==> list == old(list) && view == old(view)
      {
        var o: int := off + ri;
        if o >= size {
          break;
        }
        if o >= 0 && ri != 0 {
          ghost var before, on := view, disk;
          ReadIfMissing(o);
          Chained(old(view), before, view, old(disk), on, held, rdonly);
        }
        ri := ri + 1;
      }
    }
  }

  lemma TookMid(mid: seq<Buffer>, use: int, max: int, after: seq<Buffer>, was: map<nat, Data>, view: map<nat, Data>,
                disk: map<nat, Data>, held: multiset<nat>, rdonly: bool, offs: seq<nat>)
    requires Offs(mid) == offs && Refines(mid, disk, was, held, rdonly)
    requires after == (if use < max then mid else Flushed(mid, [], max)) &&
             Evicts(was, view, disk, mid, after, held, rdonly)
    ensures Took(offs, use, max, after, was, view, disk, held, rdonly)
  {
    hide Flushed;
    forall b <- mid
      ensures b.refs == held[b.off]
    {
      assert Good(b, disk, was, held, rdonly);
    }
  }

  /** Writing a buffer out and unmarking it. */
  lemma Written(list: seq<Buffer>, i: nat, b: Buffer, disk: map<nat, Data>, view: map<nat, Data>, held: multiset<nat>,
                rdonly: bool)
    requires i < |list| && Refines(list, disk, view, held, rdonly) && b == list[i].(modified := false)
    ensures Refines(list[i := b], WriteBack(disk, list[i], rdonly), view, held, rdonly)
  {
    assert Good(list[i], disk, view, held, rdonly);
    var disk' := WriteBack(disk, b, rdonly);
    assert view[b.off := b.data] == view;
    forall c <- list
      ensures Good(c, disk', view, held, rdonly)
    {
      assert Good(c, disk, view, held, rdonly);
    }
    CachedAt(list, i);
    assert Refines(list, disk', view, held, rdonly);
    ChangeKeeps(list, i, b, disk', view, held, held, rdonly);
  }

  lemma AllClean(list: seq<Buffer>, disk: map<nat, Data>, view: map<nat, Data>, held: multiset<nat>, rdonly: bool)
    requires Refines(list, disk, view, held, rdonly) && !rdonly && forall b <- list :: !b.modified
    ensures disk == view
  {
    forall o | o in disk
      ensures disk[o] == view[o]
    {
      if Cached(list, o) {
        var i :| 0 <= i < |list| && list[i].off == o;
        assert Good(list[i], disk, view, held, rdonly);
      }
    }
  }

  /** Where nothing happened, nothing shows. */
  lemma Still(list: seq<Buffer>, disk: map<nat, Data>, view: map<nat, Data>, held: multiset<nat>, rdonly: bool)
    requires Refines(list, disk, view, held, rdonly)
    ensures Forgets(view, view, disk, held, rdonly) && Evicts(view, view, disk, list, list, held, rdonly)
  {
  }

  lemma FewerHeld(was: map<nat, Data>, view: map<nat, Data>, disk: map<nat, Data>, held: multiset<nat>, off: nat,
                  rdonly: bool)
    requires Forgets(was, view, disk, held + multiset{off}, rdonly)
    ensures Forgets(was, view, disk, held, rdonly)
  {
    assert forall o | o in held :: o in held + multiset{off};
  }

  lemma NoneMarked(list: seq<Buffer>, off: nat)
    requires !Cached(list, off)
    ensures !Marked(list, off)
  {
  }

  lemma MarkedAt(list: seq<Buffer>, disk: map<nat, Data>, view: map<nat, Data>, held: multiset<nat>, rdonly: bool,
                 i: nat)
    requires Refines(list, disk, view, held, rdonly) && i < |list|
    ensures Marked(list, list[i].off) <==> list[i].modified
  {
  }

  lemma SameKeys(list: seq<Buffer>, disk: map<nat, Data>, view: map<nat, Data>, held: multiset<nat>, rdonly: bool)
    requires Refines(list, disk, view, held, rdonly)
    ensures disk.Keys == view.Keys && Unique(list)
  {
  }

  /** A held buffer is cached, on the disk and counted. */
  lemma HeldCached(list: seq<Buffer>, disk: map<nat, Data>, view: map<nat, Data>, held: multiset<nat>, rdonly: bool,
                   off: nat)
    requires Refines(list, disk, view, held, rdonly) && off in held
    ensures Cached(list, off) && off in disk && off in view
    ensures forall b <- list | b.off == off :: b.refs > 0
  {
    forall b <- list | b.off == off
      ensures b.refs > 0
    {
      assert Good(b, disk, view, held, rdonly);
    }
    var i :| 0 <= i < |list| && list[i].off == off;
    assert Good(list[i], disk, view, held, rdonly);
  }

  lemma Stored(list: seq<Buffer>, i: nat, b: Buffer, disk: map<nat, Data>, view: map<nat, Data>, held: multiset<nat>,
               rdonly: bool)
    requires i < |list| && Refines(list, disk, view, held, rdonly)
    requires b == list[i].(data := b.data, modified := true)
    ensures Refines(list[i := b], disk, view[b.off := b.data], held, rdonly)
  {
    assert Good(list[i], disk, view, held, rdonly);
    ChangeKeeps(list, i, b, disk, view, held, held, rdonly);
  }

  /** An offset that is not cached shows what is on disk. */
  lemma SameView(list: seq<Buffer>, disk: map<nat, Data>, view: map<nat, Data>, held: multiset<nat>, rdonly: bool,
                 off: nat)
    requires Refines(list, disk, view, held, rdonly) && off in disk && !Cached(list, off)
    ensures off in view && view[off := disk[off]] == view
  {
  }

  lemma MoreHeld(list: seq<Buffer>, i: nat, b: Buffer, disk: map<nat, Data>, view: map<nat, Data>, held: multiset<nat>,
                 rdonly: bool)
    requires i < |list| && Refines(list, disk, view, held, rdonly) && b == list[i].(refs := list[i].refs + 1)
    ensures Refines(list[i := b], disk, view, held + multiset{b.off}, rdonly)
  {
    assert Good(list[i], disk, view, held, rdonly);
    assert view[b.off := b.data] == view;
    ChangeKeeps(list, i, b, disk, view, held, held + multiset{b.off}, rdonly);
  }

  lemma LessHeld(list: seq<Buffer>, i: nat, b: Buffer, disk: map<nat, Data>, view: map<nat, Data>, held: multiset<nat>,
                 rdonly: bool)
    requires i < |list| && Refines(list, disk, view, held, rdonly)
    requires list[i].refs > 0 && b == list[i].(refs := list[i].refs - 1)
    ensures Refines(list[i := b], disk, view, held - multiset{b.off}, rdonly)
  {
    assert Good(list[i], disk, view, held, rdonly);
    assert view[b.off := b.data] == view;
    ChangeKeeps(list, i, b, disk, view, held, held - multiset{b.off}, rdonly);
  }

  /** A flush shows exactly if the volume is read-only and a buffer that goes is
      not as on the disk. */
  lemma FlushShows(list: seq<Buffer>, disk: map<nat, Data>, view: map<nat, Data>, view': map<nat, Data>,
                   held: multiset<nat>, rdonly: bool, max: int)
    requires Refines(list, disk, view, held, rdonly)
    requires Evicts(view, view', disk, list, Flushed(list, [], max), held, rdonly)
    ensures view' == view <==>
            !rdonly || forall b <- list | b !in Flushed(list, [], max) :: b.off in disk && b.data == disk[b.off]
  {
    var r := Flushed(list, [], max);
    FlushedFits(list, [], max);
    hide Flushed;
    forall b <- list
      ensures b.off in view && b.off in disk && b.data == view[b.off] && Cached(list, b.off)
      ensures b in r <==> Cached(r, b.off)
    {
      assert Good(b, disk, view, held, rdonly);
      Kept(list, r, b);
    }
    hide Forgets, Good;
    if rdonly && forall b <- list | b !in r :: b.off in disk && b.data == disk[b.off] {
      forall o | o in view
        ensures view'[o] == view[o]
      {
        if Cached(list, o) && !Cached(r, o) {
          var i :| 0 <= i < |list| && list[i].off == o;
          assert list[i] in list && list[i] !in r;
        }
      }
    }
  }

  lemma Kept(list: seq<Buffer>, r: seq<Buffer>, b: Buffer)
    requires Unique(list) && b in list && forall c <- r :: c in list
    ensures Cached(list, b.off) && (b in r <==> Cached(r, b.off))
  {
    var i :| 0 <= i < |list| && list[i] == b;
    CachedAt(list, i);
    if Cached(r, b.off) {
      var k :| 0 <= k < |r| && r[k].off == b.off;
      assert r[k] in list;
    }
  }

  /** The buffer in front goes in every flush unless it is held. */
  lemma FirstGoes(list: seq<Buffer>, max: int)
    requires Unique(list) && list != [] && list[0].refs == 0
    ensures list[0] !in Flushed(list, [], max)
  {
    FlushedFits(list[1..], [], max);
    assert list[0] !in list[1..];
  }

  lemma FlushedEmpty(max: int)
    ensures Flushed([], [], max) == []
  {
  }

  lemma FirstAgain(list: seq<Buffer>, left: seq<Buffer>, kept: seq<Buffer>, max: int)
    requires Unique(list) && Swept(list, left, kept) && kept != [] && list[0].off == kept[0].off
    ensures left == [] && list == Flushed(left, kept, max)
  {
    assert list[|left|] == kept[0];
    assert list == kept;
  }

  lemma NotFirst(list: seq<Buffer>, left: seq<Buffer>, kept: seq<Buffer>, max: int)
    requires list != [] && Swept(list, left, kept) && (kept != [] ==> list[0].off != kept[0].off)
    requires list[0].refs > 0
    ensures left != [] && left[0] == list[0] && list[1..] == left[1..] + kept
    ensures Flushed(left, kept, max) == Flushed(left[1..], kept + [list[0]], max)
  {
  }

  /** In front of a buffer nobody holds, fewer were kept than there are. */
  lemma FewerKept(list: seq<Buffer>, left: seq<Buffer>, kept: seq<Buffer>, max: int)
    requires list != [] && Swept(list, left, kept) && list[0].refs == 0
    ensures left != [] && left[0] == list[0] && list[1..] == left[1..] + kept && |kept| < |list|
    ensures Flushed(left, kept, max) ==
            if BUF * (|list| - 1) < max / 2 then list[1..] else Flushed(left[1..], kept, max)
  {
    var c := list[0];
    assert c in list && c !in kept;
  }

  // ----- a run that shows a difference -----

  /** Behind a held buffer the next one goes in every flush unless it is held. */
  lemma SecondGoes(mid: seq<Buffer>, max: int)
    requires |mid| >= 2 && mid[0].refs > 0 && mid[1].refs == 0 && forall i | 0 <= i < |mid| &&
             i != 1 :: mid[i].off != mid[1].off
    ensures !Cached(Flushed(mid, [], max), mid[1].off)
  {
    var left, kept := mid[1..], [mid[0]];
    var r := Flushed(mid, [], max);
    assert r == Flushed(left, [] + kept, max);
    assert [] + kept == kept;
    FlushedFits(left[1..], kept, max);
    assert forall b <- left[1..] + kept :: b.off != mid[1].off;
    assert forall b <- r :: b in left[1..] || b in kept;
  }

  /** The second buffer shows the disk again. */
  lemma TookLoses(offs: seq<nat>, use: int, max: int, after: seq<Buffer>, was: map<nat, Data>, view: map<nat, Data>,
                  disk: map<nat, Data>, held: multiset<nat>)
    requires Took(offs, use, max, after, was, view, disk, held, true) && use >= max && |offs| >= 2
    requires offs[0] in held && offs[1] !in held && offs[1] in view && forall i | 0 <= i < |offs| &&
             i != 1 :: offs[i] != offs[1]
    ensures offs[1] in disk && view[offs[1]] == disk[offs[1]]
  {
    hide Flushed;
    var mid: seq<Buffer> :| Offs(mid) == offs && (forall b <- mid :: b.refs == held[b.off]) &&
                            after == Flushed(mid, [], max) && Shows(was, view, disk, mid, after, true);
    assert mid[0] in mid && mid[1] in mid;
    SecondGoes(mid, max);
    CachedAt(mid, 1);
  }

  /** Nothing is dropped while there is room. */
  lemma TookRoom(offs: seq<nat>, use: int, max: int, after: seq<Buffer>, was: map<nat, Data>, view: map<nat, Data>,
                 disk: map<nat, Data>, held: multiset<nat>, rdonly: bool)
    requires Took(offs, use, max, after, was, view, disk, held, rdonly) && use < max
    ensures Offs(after) == offs && view == was
  {
    hide Flushed;
  }

  function Down(n: nat): (os: seq<nat>)
    ensures |os| == n && forall i | 0 <= i < n :: os[i] == n + 1 - i
  {
    seq(n, i requires 0 <= i < n => n + 1 - i)
  }

  /** Fills a new cache with the buffers from 2 on and gives them back. */
  method FillUp(c: Cache, n: nat)
    requires c.Valid() && c.list == [] && c.held == multiset{} && c.ahead == 0 && n + 1 < c.size && BUF * n < c.max
    modifies c
    ensures c.Valid() && c.held == multiset{} && Offs(c.list) == Down(n) && c.view == old(c.view) && c.max == old(c.max)
    ensures c.rdonly ==> c.disk == old(c.disk)
  {
    hide Refines, Flushed, Took, Forgets;
    var i := 0;
    while i < n
      invariant 0 <= i <= n && c.Valid() && c.held == multiset{} && Offs(c.list) == Down(i)
      invariant c.view == old(c.view) && c.max == old(c.max) && (c.rdonly ==> c.disk == old(c.disk))
    {
      NotYet(c.list, Down(i), i + 2);
      ghost var was, on := c.view, c.disk;
      var ok := c.Get(i + 2, 0);
      assert [i + 2] + Down(i) == Down(i + 1);
      TookRoom(Down(i + 1), BUF * (i + 1), c.max, c.list, was, c.view, on, c.held, c.rdonly);
      c.Rel(i + 2);
      assert multiset{} + multiset{i + 2} - multiset{i + 2} == multiset{};
      i := i + 1;
    }
  }

  lemma NotYet(list: seq<Buffer>, offs: seq<nat>, o: nat)
    requires Offs(list) == offs && forall i | 0 <= i < |offs| :: offs[i] != o
    ensures !Cached(list, o)
  {
    assert forall i | 0 <= i < |list| :: list[i].off == offs[i];
  }

  /** For every maximum of more than one buffer: on a read-only volume a change that was
      stored and given back is seen no more once the next buffer is read. */
  method LosesChange(disk: map<nat, Data>, size: nat, max: nat, data: Data) returns (c: Cache, ghost before: map<nat, Data>)
    requires (forall o :: o in disk <==> o < size) && BUF < max && (max - 1) / BUF + 1 <= size
    ensures 0 in before && before[0] == data && 0 in c.view && c.view[0] == disk[0]
  {
    hide Refines, Flushed, Took, Forgets;
    var n := (max - 1) / BUF - 1;
    c := new Cache(disk, size, max, true, 0);
    FillUp(c, n);
    NotYet(c.list, Down(n), 0);
    ghost var was, on := c.view, c.disk;
    var ok := c.Get(0, 0);
    TookRoom([0] + Down(n), BUF * (n + 1), c.max, c.list, was, c.view, on, c.held, true);
    c.Store(0, data);
    c.Rel(0);
    assert multiset{} + multiset{0} - multiset{0} == multiset{};
    before := c.view;
    NotYet(c.list, [0] + Down(n), 1);
    ghost var offs := [1] + ([0] + Down(n));
    ok := c.Get(1, 0);
    TookLoses(offs, BUF * (n + 2), c.max, c.list, before, c.view, on, c.held);
  }
}
