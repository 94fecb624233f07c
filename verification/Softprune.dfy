/** Finalising a prune list: from an unsorted list of snapshot transaction ids to
    the ranges the prune ioctl may thin out. */
module Softprune {

  const MAX_TID: nat := 18446744073709551615

  /** One prune range; until the end `mod` holds the snapshot's timestamp. */
  datatype Elm = Elm(beg: nat, end: nat, mod: int)

  /** A snapshot: its transaction id and timestamp (0 if it has none). */
  datatype Snap = Snap(tid: nat, time: int)

  function SnapOf(e: Elm): Snap {
    Snap(e.beg, e.mod)
  }

  function Snaps(es: seq<Elm>): (r: seq<Snap>)
    ensures |r| == |es| && forall i | 0 <= i < |es| :: r[i] == SnapOf(es[i])
  {
    seq(|es|, i requires 0 <= i < |es| => SnapOf(es[i]))
  }

  /** What qsort() leaves: highest transaction id first. */
  predicate Descending(es: seq<Elm>) {
    forall i, j | 0 <= i < j < |es| :: es[i].beg >= es[j].beg
  }

  /** The first of every run of equal transaction ids. */
  function Squash(s: seq<Snap>): seq<Snap> {
    if s == [] then []
    else
      var init, last := Squash(s[..|s| - 1]), s[|s| - 1];
      if init != [] && init[|init| - 1].tid == last.tid then init else init + [last]
  }

  predicate Young(s: Snap, now: int, min: int) {
    s.time != 0 && now - s.time < min
  }

  /** How many leading snapshots retention takes off the list: up to the oldest
      that is still young. */
  function Retained(s: seq<Snap>, now: int, min: int): (n: nat)
    ensures n <= |s|
  {
    if s == [] then 0
    else if Young(s[|s| - 1], now, min) then |s|
    else Retained(s[..|s| - 1], now, min)
  }

  function Kept(s: seq<Snap>, now: int, min: int): seq<Snap> {
    if min == 0 then s else s[Retained(s, now, min)..]
  }

  /** The range below the `i`-th snapshot: down to the next, or to 1. */
  function Tile(s: seq<Snap>, i: nat): Elm
    requires i < |s|
  {
    var beg := if i + 1 < |s| then s[i + 1].tid else 1;
    Elm(beg, s[i].tid, s[i].tid - beg)
  }

  /** The ranges of all snapshots but a single one. */
  function Tiles(s: seq<Snap>): (r: seq<Elm>)
    ensures |r| == if |s| < 2 then 0 else |s|
    ensures forall i | 0 <= i < |r| :: r[i] == Tile(s, i)
  {
    if |s| < 2 then [] else seq(|s|, i requires 0 <= i < |s| => Tile(s, i))
  }

  // ----- what the result means -----

  predicate Strict(s: seq<Snap>) {
    forall i, j | 0 <= i < j < |s| :: s[i].tid > s[j].tid
  }

  lemma {:induction false} SquashStrict(es: seq<Elm>, n: nat)
    requires Descending(es) && n <= |es|
    ensures var s := Squash(Snaps(es)[..n]);
            Strict(s) && (s == [] <==> n == 0) && (n > 0 ==> s[|s| - 1].tid == es[n - 1].beg)
  {
    if n > 0 {
      var all := Snaps(es)[..n];
      assert all[..n - 1] == Snaps(es)[..n - 1];
      SquashStrict(es, n - 1);
      var init := Squash(all[..n - 1]);
      assert all[n - 1] == SnapOf(es[n - 1]);
      if n > 1 {
        assert es[n - 2].beg >= es[n - 1].beg;
      }
    }
  }

  function TidSet(s: seq<Snap>): set<nat> {
    set x <- s :: x.tid
  }

  lemma TidSetAppend(s: seq<Snap>, x: Snap)
    ensures TidSet(s + [x]) == TidSet(s) + {x.tid}
  {
    assert forall y <- s :: y in s + [x];
    assert x in s + [x];
  }

  /** Removing duplicates loses no transaction id and adds none. */
  lemma {:induction false} SquashSame(s: seq<Snap>)
    ensures TidSet(Squash(s)) == TidSet(s)
  {
    if s != [] {
      var n := |s| - 1;
      SquashSame(s[..n]);
      assert s == s[..n] + [s[n]];
      TidSetAppend(s[..n], s[n]);
      TidSetAppend(Squash(s[..n]), s[n]);
      var init := Squash(s[..n]);
      assert init != [] ==> init[|init| - 1].tid in TidSet(init);
    }
  }

  /** Retention keeps no young snapshot, and takes off no more than it must. */
  lemma {:induction false} RetainedExact(s: seq<Snap>, now: int, min: int)
    ensures var n := Retained(s, now, min);
            (forall i | n <= i < |s| :: !Young(s[i], now, min)) && (n > 0 ==> Young(s[n - 1], now, min))
  {
    if s != [] && !Young(s[|s| - 1], now, min) {
      RetainedExact(s[..|s| - 1], now, min);
    }
  }

  /** Transaction `t` is pruned by the range. */
  predicate In(t: nat, e: Elm) {
    e.beg <= t < e.end
  }

  ghost predicate Snapshots(s: seq<Snap>) {
    Strict(s) && forall i | 0 <= i < |s| :: s[i].tid >= 1
  }

  /** Each range ends where the one before begins, at a snapshot, and only the
      last can be empty: when there is a snapshot at 1. */
  lemma TileExact(s: seq<Snap>, i: nat)
    requires Snapshots(s) && i < |s|
    ensures var e := Tile(s, i);
            e.end == s[i].tid && e.mod == e.end - e.beg && (i + 1 < |s| ==> e.beg == Tile(s, i + 1).end) &&
            (i + 1 == |s| ==> e.beg == 1) && (e.beg < e.end <==> i + 1 < |s| || s[i].tid > 1)
  {
    if i + 1 < |s| {
      assert s[i].tid > s[i + 1].tid;
    }
  }

  /** Of two ranges the later lies wholly below the earlier. */
  lemma TilesApart(s: seq<Snap>, i: nat, j: nat)
    requires Snapshots(s) && i < j < |s|
    ensures Tile(s, j).end <= Tile(s, i).beg
  {
    assert s[i + 1].tid >= s[j].tid;
  }

  /** Every transaction from 1 up to a snapshot is in exactly one range at or
      below it. */
  lemma {:induction false} TilesCover(s: seq<Snap>, t: nat, k: nat) returns (i: nat)
    requires Snapshots(s) && k < |s| && 1 <= t < s[k].tid
    ensures k <= i < |s| && In(t, Tile(s, i))
    ensures forall j: nat | j < |s| && In(t, Tile(s, j)) :: j == i
    decreases |s| - k
  {
    if k + 1 == |s| || s[k + 1].tid <= t {
      i := k;
    } else {
      i := TilesCover(s, t, k + 1);
    }
    forall j: nat | j < |s| && In(t, Tile(s, j))
      ensures j == i
    {
      if j < i {
        TilesApart(s, j, i);
      } else if i < j {
        TilesApart(s, i, j);
      }
    }
  }

  /** Nothing at or above the newest snapshot is pruned. */
  lemma TilesBelow(s: seq<Snap>, t: nat, i: nat)
    requires Snapshots(s) && i < |s| && In(t, Tile(s, i))
    ensures 1 <= t < s[0].tid
  {
    assert i > 0 ==> s[0].tid > s[i].tid;
  }

  // ----- in place -----

  /** Ends are the beginnings of the elements before. */
  ghost predicate Chained(es: seq<Elm>) {
    (es != [] ==> es[0].end == MAX_TID) && forall i | 1 <= i < |es| :: es[i].end == es[i - 1].beg
  }

  lemma SquashStep(s: seq<Snap>, x: Snap)
    ensures var init := Squash(s);
            Squash(s + [x]) == if init != [] && init[|init| - 1].tid == x.tid then init else init + [x]
  {
    assert (s + [x])[..|s|] == s;
  }

  class Softprune {
    var elms: array<Elm>
    var nelms: nat

    /** One entry is always left free for the terminator. */
    ghost predicate Valid()
      reads this
    {
      nelms < elms.Length && elms.Length >= 32
    }

    ghost function E(): seq<Elm>
      reads this, elms
      requires nelms <= elms.Length
    {
      elms[..nelms]
    }

    constructor ()
      ensures Valid() && fresh(elms) && E() == []
    {
      elms := new Elm[32](_ => Elm(0, 0, 0));
      nelms := 0;
    }

    /** `hammer_softprune_addelm`, growing by half when only one entry is left. */
    method AddElm(tid: nat, ct: int, mt: int)
      requires Valid()
      modifies this, elms
      ensures Valid() && (elms == old(elms) || fresh(elms))
      ensures E() == old(E()) + [Elm(tid, 0, if ct < mt then ct else mt)]
    {
      if nelms >= elms.Length - 1 {
        var grown := new Elm[elms.Length * 3 / 2](_ => Elm(0, 0, 0));
        forall i | 0 <= i < nelms {
          grown[i] := elms[i];
        }
        elms := grown;
      }
      elms[nelms] := Elm(tid, 0, if ct < mt then ct else mt);
      nelms := nelms + 1;
    }

    /** bcopy() of everything from `from` down to `to`. */
    method MoveDown(from: nat, to: nat)
      requires Valid() && to <= from <= nelms
      modifies this`nelms, elms
      ensures Valid() && E() == old(E()[..to] + E()[from..])
    {
      var n := nelms - from;
      ghost var was := elms[..];
      forall i | to <= i < to + n {
        elms[i] := elms[i + (from - to)];
      }
      assert elms[..to] == was[..to];
      assert elms[to..to + n] == was[from..from + n];
      nelms := to + n;
      Joined(elms[..], was, to, from, n);
    }

    method Put(i: nat, e: Elm)
      requires Valid() && i < nelms
      modifies elms
      ensures Valid() && E() == old(E())[i := e]
    {
      elms[i] := e;
    }

    method Fetch(i: nat) returns (e: Elm)
      requires Valid() && i < nelms
      ensures e == E()[i] && (i > 0 ==> elms[i - 1] == E()[i - 1])
    {
      e := elms[i];
    }

    /** One step of the loop below, on the element at `i`. */
    method SqueezeOne(i: nat, ghost all: seq<Elm>, ghost k: nat, ghost done: seq<Elm>, ghost rest: seq<Elm>)
      returns (i': nat, ghost done': seq<Elm>, ghost rest': seq<Elm>)
      requires Valid() && i == |done| && i < nelms && E() == done + rest && Squeezed(all, k, done, rest)
      modifies this`nelms, elms
      ensures Valid() && i' == |done'| && E() == done' + rest' && Squeezed(all, k + 1, done', rest')
      ensures rest' == rest[1..]
    {
      hide Snaps, Squash, Chained, Squeezed;
      var e := Fetch(i);
      var p := if i > 0 then elms[i - 1].beg else MAX_TID;
      Halves(done, rest, e.(end := p));
      if i > 0 && e.beg == p {
        SqueezeDrop(all, k, done, rest);
        MoveDown(i + 1, i);
        return i, done, rest[1..];
      }
      SqueezeKeep(all, k, done, rest);
      Put(i, e.(end := p));
      return i + 1, done + [e.(end := p)], rest[1..];
    }

    /** Removes duplicates and chains the ends, in the array qsort() left. */
    method Squeeze()
      requires Valid()
      modifies this`nelms, elms
      ensures Valid() && Snaps(E()) == Squash(Snaps(old(E()))) && Chained(E())
    {
      hide Snaps, Squash, Chained, Squeezed;
      ghost var all, k, done, rest := E(), 0, [], E();
      SqueezeStart(all);
      var i := 0;
      while i < nelms
        invariant Valid() && i == |done| && E() == done + rest && Squeezed(all, k, done, rest)
        decreases |rest|
      {
        i, done, rest := SqueezeOne(i, all, k, done, rest);
        k := k + 1;
      }
      SqueezeEnd(all, k, done, rest);
    }

    /** Scans upwards from the oldest snapshot to the first that is young. */
    method CountRetained(now: int, min: int) returns (n: nat)
      requires Valid()
      ensures n == Retained(Snaps(E()), now, min)
    {
      hide Retained;
      ghost var s := Snaps(E());
      n := nelms;
      assert s[..n] == s;
      while n > 0
        invariant 0 <= n <= nelms && Retained(s, now, min) == Retained(s[..n], now, min)
      {
        RetainStep(s, n - 1, now, min);
        if elms[n - 1].mod != 0 && now - elms[n - 1].mod < min {
          return;
        }
        n := n - 1;
      }
      RetainNone(s, now, min);
    }

    /** Takes the snapshots inside the retention time off the front. */
    method Retain(now: int, min: int)
      requires Valid() && Chained(E())
      modifies this`nelms, elms
      ensures Valid() && Chained(E()) && Snaps(E()) == Kept(Snaps(old(E())), now, min)
    {
      hide Chained, Retained, Snaps;
      if min == 0 {
        return;
      }
      var n := CountRetained(now, min);
      ghost var es := E();
      KeptAll(es, now, min);
      if n > 0 {
        MoveDown(n, 0);
        assert E() == es[n..];
        elms[0] := elms[0].(end := MAX_TID);
        assert n < |es| ==> E() == [es[n].(end := MAX_TID)] + es[n + 1..];
        ChainedSuffix(es, n, E());
      }
    }

    /** Drops the newest element and adds the one that goes down to 1. */
    method Terminate()
      requires Valid()
      modifies this`nelms, elms
      ensures Valid() && nelms == if old(nelms) < 2 then 0 else old(nelms)
      ensures nelms > 0 ==> E()[..nelms - 1] == old(E())[1..] && E()[nelms - 1].beg == 1 &&
                            E()[nelms - 1].end == old(E())[nelms - 1].beg
    {
      ghost var es := E();
      if nelms > 0 {
        MoveDown(1, 0);
        assert E() == es[1..];
      }
      if nelms > 0 {
        assert nelms < elms.Length;
        ghost var was := E();
        elms[nelms] := Elm(1, elms[nelms - 1].beg, elms[nelms].mod);
        nelms := nelms + 1;
        assert E()[..nelms - 1] == was;
      }
    }

    /** The third field becomes the length. */
    method SetMods()
      requires Valid()
      modifies elms
      ensures Valid()
      ensures forall j | 0 <= j < nelms ::
                E()[j] == Elm(old(E())[j].beg, old(E())[j].end, old(E())[j].end - old(E())[j].beg)
    {
      var i := 0;
      while i < nelms
        invariant 0 <= i <= nelms && Valid()
        invariant forall j | 0 <= j < i ::
                    elms[j] == Elm(old(elms[j]).beg, old(elms[j]).end, old(elms[j]).end - old(elms[j]).beg)
        invariant forall j | i <= j < nelms :: elms[j] == old(elms[j])
      {
        elms[i] := elms[i].(mod := elms[i].end - elms[i].beg);
        i := i + 1;
      }
    }

    /** From chained snapshots to the ranges between them. */
    method Ranges()
      requires Valid() && Chained(E())
      modifies this`nelms, elms
      ensures Valid() && E() == Tiles(Snaps(old(E())))
    {
      hide Chained, Snaps, Tile;
      ghost var es := E();
      Terminate();
      ghost var mid := E();
      SetMods();
      RangesAreTiles(es, mid, E());
    }

    /** `hammer_softprune_finalize`; `sorted` is what qsort() makes of the list. */
    method Finalize(sorted: seq<Elm>, now: int, min: int)
      requires Valid() && Descending(sorted) && multiset(sorted) == multiset(E())
      modifies this`nelms, elms
      ensures Valid() && E() == Tiles(Kept(Squash(Snaps(sorted)), now, min))
    {
      hide Snaps, Squash, Chained, Kept, Tiles;
      SameLength(sorted, E());
      if nelms == 0 {
        Nothing(now, min);
        return;
      }
      forall i | 0 <= i < nelms {
        elms[i] := sorted[i];
      }
      assert E() == sorted;
      Squeeze();
      Retain(now, min);
      Ranges();
    }
  }

  lemma SameLength(a: seq<Elm>, b: seq<Elm>)
    requires multiset(a) == multiset(b)
    ensures |a| == |b|
  {
    assert |multiset(a)| == |a| && |multiset(b)| == |b|;
  }

  lemma Nothing(now: int, min: int)
    ensures Tiles(Kept(Squash(Snaps([])), now, min)) == []
  {
  }

  /** The list that is kept, and so the ranges, are of distinct snapshots. */
  lemma KeptSnapshots(sorted: seq<Elm>, now: int, min: int)
    requires Descending(sorted) && forall e <- sorted :: e.beg >= 1
    ensures Snapshots(Kept(Squash(Snaps(sorted)), now, min))
  {
    var all := Snaps(sorted);
    assert all[..|sorted|] == all;
    SquashStrict(sorted, |sorted|);
    SquashSame(all);
    var s := Squash(all);
    forall i | 0 <= i < |s|
      ensures s[i].tid >= 1
    {
      assert s[i].tid in TidSet(s);
      assert s[i].tid in TidSet(all);
    }
  }

  lemma RetainStep(s: seq<Snap>, n: nat, now: int, min: int)
    requires n < |s| && Retained(s, now, min) == Retained(s[..n + 1], now, min)
    ensures if Young(s[n], now, min) then Retained(s, now, min) == n + 1
            else Retained(s, now, min) == Retained(s[..n], now, min)
  {
    assert s[..n + 1][..n] == s[..n];
  }

  lemma ChainedSuffix(es: seq<Elm>, n: nat, es': seq<Elm>)
    requires Chained(es) && n <= |es| && es' == if n == |es| then [] else [es[n].(end := MAX_TID)] + es[n + 1..]
    ensures Chained(es') && Snaps(es') == Snaps(es)[n..]
  {
  }

  lemma RetainNone(s: seq<Snap>, now: int, min: int)
    ensures Retained(s[..0], now, min) == 0
  {
  }

  lemma KeptAll(es: seq<Elm>, now: int, min: int)
    requires min != 0
    ensures var n := Retained(Snaps(es), now, min);
            Kept(Snaps(es), now, min) == Snaps(es)[n..] && (n == 0 ==> Snaps(es)[n..] == Snaps(es))
  {
  }

  /** Dropping the first element and adding the terminator gives the ranges. */
  lemma RangesAreTiles(es: seq<Elm>, mid: seq<Elm>, r: seq<Elm>)
    requires Chained(es) && |r| == |mid| == if |es| < 2 then 0 else |es|
    requires mid != [] ==> mid[..|mid| - 1] == es[1..] && mid[|mid| - 1].beg == 1 &&
                           mid[|mid| - 1].end == es[|es| - 1].beg
    requires forall j | 0 <= j < |r| :: r[j] == Elm(mid[j].beg, mid[j].end, mid[j].end - mid[j].beg)
    ensures r == Tiles(Snaps(es))
  {
    forall j | 0 <= j < |r|
      ensures r[j] == Tile(Snaps(es), j)
    {
      if j + 1 < |es| {
        assert mid[j] == mid[..|mid| - 1][j] == es[j + 1];
      }
    }
  }

  lemma Halves(done: seq<Elm>, rest: seq<Elm>, e: Elm)
    requires rest != []
    ensures var all, i := done + rest, |done|;
            all[i] == rest[0] && all[..i] + all[i + 1..] == done + rest[1..] &&
            all[i := e] == done + [e] + rest[1..] && (i > 0 ==> all[i - 1] == done[i - 1])
  {
  }

  lemma Joined(x: seq<Elm>, was: seq<Elm>, to: nat, from: nat, n: nat)
    requires |x| == |was| && to <= from && from + n <= |was|
    requires x[..to] == was[..to] && x[to..to + n] == was[from..from + n]
    ensures x[..to + n] == was[..from + n][..to] + was[..from + n][from..]
  {
    assert x[..to + n] == x[..to] + x[to..to + n];
    assert was[..from + n][from..] == was[from..from + n];
    assert was[..from + n][..to] == was[..to];
  }

  /** The loop that removes duplicates: `k` elements of `all` are done. */
  ghost predicate Squeezed(all: seq<Elm>, k: nat, done: seq<Elm>, rest: seq<Elm>) {
    k <= |all| && rest == all[k..] && Snaps(done) == Squash(Snaps(all)[..k]) && Chained(done)
  }

  lemma SqueezeStart(all: seq<Elm>)
    ensures Squeezed(all, 0, [], all)
  {
    assert Snaps(all)[..0] == [];
  }

  lemma SqueezeStep(all: seq<Elm>, k: nat)
    requires k < |all|
    ensures var init, x := Squash(Snaps(all)[..k]), SnapOf(all[k]);
            Squash(Snaps(all)[..k + 1]) == if init != [] && init[|init| - 1].tid == x.tid then init else init + [x]
  {
    assert Snaps(all)[..k + 1] == Snaps(all)[..k] + [SnapOf(all[k])];
    SquashStep(Snaps(all)[..k], SnapOf(all[k]));
  }

  lemma SqueezeDrop(all: seq<Elm>, k: nat, done: seq<Elm>, rest: seq<Elm>)
    requires Squeezed(all, k, done, rest) && done != [] && rest != [] && rest[0].beg == done[|done| - 1].beg
    ensures Squeezed(all, k + 1, done, rest[1..])
  {
    hide Squash;
    SqueezeStep(all, k);
  }

  lemma SqueezeKeep(all: seq<Elm>, k: nat, done: seq<Elm>, rest: seq<Elm>)
    requires Squeezed(all, k, done, rest) && rest != []
    requires done != [] ==> rest[0].beg != done[|done| - 1].beg
    ensures var e := rest[0].(end := if done == [] then MAX_TID else done[|done| - 1].beg);
            Squeezed(all, k + 1, done + [e], rest[1..])
  {
    hide Squash;
    SqueezeStep(all, k);
    var e := rest[0].(end := if done == [] then MAX_TID else done[|done| - 1].beg);
    assert Snaps(done + [e]) == Snaps(done) + [SnapOf(rest[0])];
  }

  lemma SqueezeEnd(all: seq<Elm>, k: nat, done: seq<Elm>, rest: seq<Elm>)
    requires Squeezed(all, k, done, rest) && rest == []
    ensures Snaps(done + rest) == Squash(Snaps(all)) && Chained(done + rest)
  {
    assert done + rest == done && Snaps(all)[..k] == Snaps(all);
  }
}
