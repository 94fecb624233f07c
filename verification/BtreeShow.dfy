/** Showing a HAMMER1 B-tree: bounds of every element against its parent's, and
    a search on a prefix of the key that skips subtrees out of range. */
module BtreeShow {
  import opened Common

  /** The key of an element: localization, object id, record type, key, create tid. */
  datatype Base = Base(lo: nat, obj: int, rt: nat, key: int, tid: nat)

  /** An internal element; its right neighbour bounds it from above. */
  datatype Elm = Elm(base: Base, child: Option<Node>)

  datatype Node = Leaf(keys: seq<Base>) | Internal(elms: seq<Elm>, rbn: Base)

  /** The bounds an element has from the level above: the element and its right neighbour. */
  datatype Bounds = Bounds(left: Base, right: Base)

  /** `hammer_btree_cmp`: the sign is the order, with a create tid of 0 last. */
  function Cmp(a: Base, b: Base): int {
    if a.lo < b.lo then -5
    else if a.lo > b.lo then 5
    else if a.obj < b.obj then -4
    else if a.obj > b.obj then 4
    else if a.rt < b.rt then -3
    else if a.rt > b.rt then 3
    else if a.key < b.key then -2
    else if a.key > b.key then 2
    else CmpTid(a.tid, b.tid)
  }

  function CmpTid(a: nat, b: nat): int {
    if a == 0 then (if b == 0 then 0 else 1)
    else if b == 0 then -1
    else if a < b then -1
    else if a > b then 1
    else 0
  }

  /** A search on the first `limit` fields of `base`. */
  datatype Search = Search(base: Base, limit: nat)

  /** `test_btree_search`. */
  function Test(e: Base, s: Search): int {
    if e.lo < s.base.lo then -5
    else if e.lo > s.base.lo then 5
    else if s.limit == 1 then 0
    else if e.obj < s.base.obj then -4
    else if e.obj > s.base.obj then 4
    else if s.limit == 2 then 0
    else if e.rt < s.base.rt then -3
    else if e.rt > s.base.rt then 3
    else if s.limit == 3 then 0
    else if e.key < s.base.key then -2
    else if e.key > s.base.key then 2
    else if s.limit == 4 then 0
    else CmpTid(e.tid, s.base.tid)
  }

  predicate Match(e: Base, s: Search) {
    Test(e, s) == 0
  }

  /** `test_btree_out_of_range` for an element and its right neighbour. */
  predicate OutOfRange(e: Base, right: Base, s: Search) {
    Test(e, s) > 0 || (if s.limit >= 5 then Test(right, s) <= 0 else Test(right, s) < 0)
  }

  // ----- the order -----

  lemma CmpOrder(a: Base, b: Base, c: Base)
    ensures Cmp(a, b) == -Cmp(b, a) && (Cmp(a, b) == 0 <==> a == b)
    ensures Cmp(a, b) <= 0 && Cmp(b, c) <= 0 ==> Cmp(a, c) <= 0
    ensures Cmp(a, b) <= 0 && Cmp(b, c) < 0 ==> Cmp(a, c) < 0
    ensures Cmp(a, b) < 0 && Cmp(b, c) <= 0 ==> Cmp(a, c) < 0
  {
  }

  /** The search condition is monotone in the key order, and on all five fields it
      is the key order. */
  lemma TestRises(a: Base, b: Base, s: Search)
    requires Cmp(a, b) <= 0
    ensures Test(b, s) <= 0 ==> Test(a, s) <= 0
    ensures Test(b, s) < 0 ==> Test(a, s) < 0
    ensures s.limit >= 5 ==> Test(a, s) == Cmp(a, s.base)
  {
  }

  /** What matches between an element and its right neighbour keeps it in range. */
  lemma InRange(e: Base, left: Base, right: Base, s: Search)
    requires Cmp(left, e) <= 0 && Cmp(e, right) < 0 && Match(e, s)
    ensures !OutOfRange(left, right, s)
  {
    TestRises(left, e, s);
    TestRises(e, right, s);
    if s.limit >= 5 {
      TestRises(right, right, s);
      CmpOrder(e, s.base, s.base);
      CmpOrder(right, e, e);
    }
  }

  // ----- trees without flags -----

  function Right(n: Node, i: nat): Base
    requires n.Internal? && i < |n.elms|
  {
    if i + 1 < |n.elms| then n.elms[i + 1].base else n.rbn
  }

  /** `test_lr` and `test_rbn_lr`; no bounds at the root. */
  predicate TooFarLeft(e: Base, b: Option<Bounds>) {
    b.Some? && Cmp(e, b.value.left) < 0
  }

  predicate TooFarRight(e: Base, b: Option<Bounds>) {
    b.Some? && !TooFarLeft(e, b) && Cmp(e, b.value.right) >= 0
  }

  predicate RbnTooFarRight(e: Base, b: Option<Bounds>) {
    b.Some? && !TooFarLeft(e, b) && Cmp(e, b.value.right) > 0
  }

  predicate Flagged(e: Base, b: Option<Bounds>) {
    TooFarLeft(e, b) || TooFarRight(e, b)
  }

  predicate RbnFlagged(e: Base, b: Option<Bounds>) {
    TooFarLeft(e, b) || RbnTooFarRight(e, b)
  }

  function Count(n: Node): nat {
    if n.Leaf? then |n.keys| else |n.elms|
  }

  function KeyAt(n: Node, i: nat): Base
    requires i < Count(n)
  {
    if n.Leaf? then n.keys[i] else n.elms[i].base
  }

  /** No element of the node itself has a bounds flag. */
  predicate Flagless(n: Node, b: Option<Bounds>) {
    (forall i | 0 <= i < Count(n) :: !Flagged(KeyAt(n, i), b)) && (n.Internal? ==> !RbnFlagged(n.rbn, b))
  }

  /** No element of the tree has a bounds flag. */
  predicate Clean(n: Node, b: Option<Bounds>)
    decreases n, 1
  {
    match n
    case Leaf(keys) => forall e <- keys :: !Flagged(e, b)
    case Internal(elms, rbn) => !RbnFlagged(rbn, b) && CleanFrom(n, b, 0)
  }

  predicate CleanFrom(n: Node, b: Option<Bounds>, i: nat)
    requires n.Internal? && i <= |n.elms|
    decreases n, 0, |n.elms| - i
  {
    i == |n.elms| ||
    (!Flagged(n.elms[i].base, b) &&
     (n.elms[i].child.Some? ==> Clean(n.elms[i].child.value, Some(Bounds(n.elms[i].base, Right(n, i))))) &&
     CleanFrom(n, b, i + 1))
  }

  /** All leaf keys, in order. */
  function Keys(n: Node): seq<Base>
    decreases n, 1
  {
    match n
    case Leaf(keys) => keys
    case Internal(_, _) => KeysFrom(n, 0)
  }

  function KeysFrom(n: Node, i: nat): seq<Base>
    requires n.Internal? && i <= |n.elms|
    decreases n, 0, |n.elms| - i
  {
    if i == |n.elms| then []
    else (if n.elms[i].child.Some? then Keys(n.elms[i].child.value) else []) + KeysFrom(n, i + 1)
  }

  predicate Between(e: Base, left: Base, right: Base) {
    Cmp(left, e) <= 0 && Cmp(e, right) < 0
  }

  /** Every element of a flag-free internal node, and the boundary, is within the bounds. */
  lemma {:induction false} CleanElm(n: Node, left: Base, right: Base, i: nat, j: nat)
    requires n.Internal? && i <= j < |n.elms| && CleanFrom(n, Some(Bounds(left, right)), i)
    requires !RbnFlagged(n.rbn, Some(Bounds(left, right)))
    ensures Cmp(left, n.elms[j].base) <= 0 && Cmp(Right(n, j), right) <= 0
    decreases |n.elms| - i
  {
    var b := Some(Bounds(left, right));
    CmpOrder(n.elms[j].base, left, left);
    if i < j {
      CleanElm(n, left, right, i + 1, j);
    } else if j + 1 < |n.elms| {
      assert CleanFrom(n, b, j + 1);
    }
  }

  /** In a tree without flags every key below an element, at any depth, lies
      between the element and its right neighbour. */
  lemma {:induction false} KeysBetween(n: Node, left: Base, right: Base)
    requires Clean(n, Some(Bounds(left, right)))
    ensures forall e <- Keys(n) :: Between(e, left, right)
    decreases n, 1
  {
    if n.Leaf? {
      forall e <- Keys(n)
        ensures Between(e, left, right)
      {
        assert !Flagged(e, Some(Bounds(left, right)));
        CmpOrder(e, left, left);
      }
    } else {
      KeysFromBetween(n, left, right, 0);
    }
  }

  lemma {:induction false} KeysFromBetween(n: Node, left: Base, right: Base, i: nat)
    requires n.Internal? && i <= |n.elms| && CleanFrom(n, Some(Bounds(left, right)), i)
    requires !RbnFlagged(n.rbn, Some(Bounds(left, right)))
    ensures forall e <- KeysFrom(n, i) :: Between(e, left, right)
    decreases n, 0, |n.elms| - i
  {
    if i < |n.elms| {
      KeysFromBetween(n, left, right, i + 1);
      if n.elms[i].child.Some? {
        var l, r := n.elms[i].base, Right(n, i);
        KeysBetween(n.elms[i].child.value, l, r);
        CleanElm(n, left, right, i, i);
        forall e <- Keys(n.elms[i].child.value)
          ensures Between(e, left, right)
        {
          CmpOrder(left, l, e);
          CmpOrder(e, r, right);
        }
      }
    }
  }

  // ----- showing -----

  /** The leaf keys shown, and the filter afterwards. */
  datatype Shown = Shown(keys: seq<Base>, filter: int)

  /** `print_btree_node`: filter 1 skips what is out of range, 0 shows all, and -1
      becomes 0 after the first subtree that is shown. */
  function Show(n: Node, s: Search, filter: int): Shown
    decreases n, 1
  {
    match n
    case Leaf(keys) => Shown(keys, filter)
    case Internal(_, _) => ShowFrom(n, 0, s, filter)
  }

  predicate Skips(n: Node, i: nat, s: Search, filter: int)
    requires n.Internal? && i < |n.elms|
  {
    (s.limit != 0 && filter != 0 && OutOfRange(n.elms[i].base, Right(n, i), s)) || n.elms[i].child.None?
  }

  function ShowFrom(n: Node, i: nat, s: Search, filter: int): Shown
    requires n.Internal? && i <= |n.elms|
    decreases n, 0, |n.elms| - i
  {
    if i == |n.elms| then Shown([], filter)
    else if Skips(n, i, s, filter) then ShowFrom(n, i + 1, s, filter)
    else
      var c := Show(n.elms[i].child.value, s, filter);
      var rest := ShowFrom(n, i + 1, s, if s.limit != 0 && c.filter == -1 then 0 else c.filter);
      Shown(c.keys + rest.keys, rest.filter)
  }

  /** The keys that match. */
  function Select(keys: seq<Base>, s: Search): seq<Base> {
    if keys == [] then []
    else (if Match(keys[0], s) then [keys[0]] else []) + Select(keys[1..], s)
  }

  lemma {:induction false} SelectAdd(a: seq<Base>, b: seq<Base>, s: Search)
    ensures Select(a + b, s) == Select(a, s) + Select(b, s)
  {
    if a == [] {
      assert a + b == b;
    } else {
      assert (a + b)[1..] == a[1..] + b;
      SelectAdd(a[1..], b, s);
    }
  }

  lemma {:induction false} SelectNone(a: seq<Base>, s: Search)
    requires forall e <- a :: !Match(e, s)
    ensures Select(a, s) == []
  {
    if a != [] {
      SelectNone(a[1..], s);
    }
  }

  /** In a tree without flags the pruned search shows every key that matches, in
      order, whatever the filter. */
  lemma {:induction false} SearchComplete(n: Node, b: Option<Bounds>, s: Search, filter: int)
    requires Clean(n, b)
    ensures Select(Show(n, s, filter).keys, s) == Select(Keys(n), s)
    decreases n, 1
  {
    if n.Internal? {
      SearchCompleteFrom(n, b, 0, s, filter);
    }
  }

  lemma {:induction false} SearchCompleteFrom(n: Node, b: Option<Bounds>, i: nat, s: Search, filter: int)
    requires n.Internal? && i <= |n.elms| && CleanFrom(n, b, i)
    ensures Select(ShowFrom(n, i, s, filter).keys, s) == Select(KeysFrom(n, i), s)
    decreases n, 0, |n.elms| - i
  {
    if i < |n.elms| {
      var kid := n.elms[i].child;
      var below := if kid.Some? then Keys(kid.value) else [];
      SelectAdd(below, KeysFrom(n, i + 1), s);
      if Skips(n, i, s, filter) {
        SearchCompleteFrom(n, b, i + 1, s, filter);
        SkippedHasNone(n, b, i, s);
      } else {
        var c := Show(kid.value, s, filter);
        var f := if s.limit != 0 && c.filter == -1 then 0 else c.filter;
        SearchComplete(kid.value, Some(Bounds(n.elms[i].base, Right(n, i))), s, filter);
        SearchCompleteFrom(n, b, i + 1, s, f);
        SelectAdd(c.keys, ShowFrom(n, i + 1, s, f).keys, s);
      }
    }
  }

  lemma SkippedHasNone(n: Node, b: Option<Bounds>, i: nat, s: Search)
    requires n.Internal? && i < |n.elms| && CleanFrom(n, b, i)
    requires n.elms[i].child.None? || OutOfRange(n.elms[i].base, Right(n, i), s)
    ensures n.elms[i].child.Some? ==> Select(Keys(n.elms[i].child.value), s) == []
  {
    if n.elms[i].child.Some? {
      var kid, l, r := n.elms[i].child.value, n.elms[i].base, Right(n, i);
      KeysBetween(kid, l, r);
      forall e <- Keys(kid)
        ensures !Match(e, s)
      {
        if Match(e, s) {
          InRange(e, l, r, s);
        }
      }
      SelectNone(Keys(kid), s);
    }
  }

  /** Without a filter everything is shown. */
  lemma {:induction false} ShowsAll(n: Node, s: Search, filter: int)
    requires filter == 0 || s.limit == 0
    ensures Show(n, s, filter) == Shown(Keys(n), filter)
    decreases n, 1
  {
    if n.Internal? {
      ShowsAllFrom(n, 0, s, filter);
    }
  }

  lemma {:induction false} ShowsAllFrom(n: Node, i: nat, s: Search, filter: int)
    requires n.Internal? && i <= |n.elms| && (filter == 0 || s.limit == 0)
    ensures ShowFrom(n, i, s, filter) == Shown(KeysFrom(n, i), filter)
    decreases n, 0, |n.elms| - i
  {
    if i < |n.elms| {
      ShowsAllFrom(n, i + 1, s, filter);
      if n.elms[i].child.Some? {
        ShowsAll(n.elms[i].child.value, s, filter);
      }
    }
  }

  lemma Drops(a: seq<Base>, b: seq<Base>, k: nat)
    ensures k <= |b| ==> (a + b)[|a| + k..] == b[k..]
    ensures k <= |a| ==> (a + b)[k..] == a[k..] + b
  {
  }

  lemma ShowStep(n: Node, i: nat, s: Search, filter: int)
    requires n.Internal? && i < |n.elms|
    ensures ShowFrom(n, i, s, filter) ==
              if Skips(n, i, s, filter) then ShowFrom(n, i + 1, s, filter)
              else
                var c := Show(n.elms[i].child.value, s, filter);
                var rest := ShowFrom(n, i + 1, s, if s.limit != 0 && c.filter == -1 then 0 else c.filter);
                Shown(c.keys + rest.keys, rest.filter)
    ensures !Skips(n, i, s, filter) ==> n.elms[i].child.Some?
  {
  }

  /** With the default filter it seeks, then shows everything that follows. */
  lemma {:induction false} SeeksThenShows(n: Node, s: Search) returns (k: nat)
    requires s.limit != 0
    ensures k <= |Keys(n)| && Show(n, s, -1).keys == Keys(n)[k..] && Show(n, s, -1).filter in {-1, 0}
    decreases n, 1
  {
    if n.Leaf? {
      k := 0;
    } else {
      k := SeeksThenShowsFrom(n, 0, s);
    }
  }

  lemma {:induction false} SeeksThenShowsFrom(n: Node, i: nat, s: Search) returns (k: nat)
    requires s.limit != 0 && n.Internal? && i <= |n.elms|
    ensures k <= |KeysFrom(n, i)| && ShowFrom(n, i, s, -1).keys == KeysFrom(n, i)[k..]
    ensures ShowFrom(n, i, s, -1).filter in {-1, 0}
    decreases n, 0, |n.elms| - i
  {
    if i == |n.elms| {
      k := 0;
    } else {
      var kid := n.elms[i].child;
      var below, more := if kid.Some? then Keys(kid.value) else [], KeysFrom(n, i + 1);
      ShowStep(n, i, s, -1);
      assert KeysFrom(n, i) == below + more;
      hide Show, ShowFrom, Keys, KeysFrom, Skips;
      if Skips(n, i, s, -1) {
        k := SeeksThenShowsFrom(n, i + 1, s);
        Drops(below, more, k);
        k := |below| + k;
      } else {
        k := SeeksThenShows(kid.value, s);
        ShowsAllFrom(n, i + 1, s, 0);
        Drops(below, more, k);
      }
    }
  }

  /** The options and counters of the command. */
  class Shower {
    const search: Search
    var filter: int
    var shown: seq<Base>
    var badElms: nat

    constructor (search: Search, filter: int)
      ensures this.search == search && this.filter == filter && shown == [] && badElms == 0
    {
      this.search, this.filter, shown, badElms := search, filter, [], 0;
    }

    /** Prints the elements of a node against the bounds it was reached with. */
    method PrintElms(n: Node, b: Option<Bounds>)
      modifies this`shown, this`badElms
      ensures shown == if n.Leaf? then old(shown) + n.keys else old(shown)
      ensures badElms >= old(badElms) && (badElms == old(badElms) <==> Flagless(n, b))
    {
      var i := 0;
      while i < Count(n)
        invariant 0 <= i <= Count(n) && badElms >= old(badElms) && shown == old(shown)
        invariant badElms == old(badElms) <==> forall j | 0 <= j < i :: !Flagged(KeyAt(n, j), b)
      {
        if Flagged(KeyAt(n, i), b) {
          badElms := badElms + 1;
        }
        i := i + 1;
      }
      if n.Leaf? {
        shown := shown + n.keys;
      } else if RbnFlagged(n.rbn, b) {
        badElms := badElms + 1;
      }
    }

    /** `print_btree_node`. */
    method PrintNode(n: Node, b: Option<Bounds>)
      modifies this`filter, this`shown, this`badElms
      ensures shown == old(shown) + Show(n, search, old(filter)).keys && filter == Show(n, search, old(filter)).filter
      ensures badElms >= old(badElms)
      ensures Clean(n, b) ==> badElms == old(badElms)
      ensures (search.limit == 0 || old(filter) == 0) && badElms == old(badElms) ==> Clean(n, b)
      decreases n
    {
      PrintElms(n, b);
      LevelClean(n, b);
      if n.Leaf? {
        return;
      }
      ghost var all := search.limit == 0 || old(filter) == 0;
      var i := 0;
      while i < |n.elms|
        invariant 0 <= i <= |n.elms| && badElms >= old(badElms)
        invariant var whole, rest := Show(n, search, old(filter)), ShowFrom(n, i, search, filter);
                  old(shown) + whole.keys == shown + rest.keys && whole.filter == rest.filter
        invariant Clean(n, b) ==> CleanFrom(n, b, i) && badElms == old(badElms)
        invariant all ==> filter == old(filter)
        invariant all && badElms == old(badElms) ==> Flagless(n, b) && CleanKids(n, i)
      {
        ShowStep(n, i, search, filter);
        hide ShowFrom, OutOfRange, Flagless, Right;
        var e := n.elms[i];
        if !((search.limit != 0 && filter != 0 && OutOfRange(e.base, Right(n, i), search)) || e.child.None?) {
          ShowsAllIf(e.child.value, search, filter);
          PrintNode(e.child.value, Some(Bounds(e.base, Right(n, i))));
          if search.limit != 0 && filter == -1 {
            filter := 0;
          }
        }
        i := i + 1;
      }
      if all && badElms == old(badElms) {
        CleanFromParts(n, b, 0);
      }
    }
  }

  /** The first `k` children are free of flags. */
  ghost predicate CleanKids(n: Node, k: nat)
    requires n.Internal? && k <= |n.elms|
  {
    forall i | 0 <= i < k && n.elms[i].child.Some? ::
      Clean(n.elms[i].child.value, Some(Bounds(n.elms[i].base, Right(n, i))))
  }

  lemma {:induction false} CleanFromParts(n: Node, b: Option<Bounds>, i: nat)
    requires n.Internal? && i <= |n.elms| && Flagless(n, b) && CleanKids(n, |n.elms|)
    ensures CleanFrom(n, b, i)
    decreases |n.elms| - i
  {
    if i < |n.elms| {
      assert !Flagged(KeyAt(n, i), b);
      CleanFromParts(n, b, i + 1);
    }
  }

  lemma ShowsAllIf(n: Node, s: Search, filter: int)
    ensures filter == 0 || s.limit == 0 ==> Show(n, s, filter) == Shown(Keys(n), filter)
  {
    if filter == 0 || s.limit == 0 {
      ShowsAll(n, s, filter);
    }
  }

  lemma LevelClean(n: Node, b: Option<Bounds>)
    ensures Clean(n, b) ==> Flagless(n, b)
    ensures n.Leaf? && Flagless(n, b) ==> Clean(n, b)
  {
    if n.Leaf? {
      assert forall i | 0 <= i < |n.keys| :: KeyAt(n, i) == n.keys[i];
    } else if Clean(n, b) {
      CleanElms(n, b, 0);
    }
  }

  lemma {:induction false} CleanElms(n: Node, b: Option<Bounds>, i: nat)
    requires n.Internal? && i <= |n.elms| && CleanFrom(n, b, i)
    ensures forall j | i <= j < Count(n) :: !Flagged(KeyAt(n, j), b)
    decreases |n.elms| - i
  {
    if i < |n.elms| {
      CleanElms(n, b, i + 1);
    }
  }
}
