/** Spanning-tree relays of libdmsg: which received LNK_SPAN is sent on over a
    connection, kept up to date by merging two sorted trees. */
module Relay {

  const MAXDIST: nat := 16
  const PEER_CLIENT: nat := 63

  /** A received span: `node` and `state` are addresses, `iocom` its connection. */
  datatype Link = Link(node: nat, dist: nat, rnss: nat, state: nat, iocom: nat, peerType: nat, peerId: nat)

  /** What a connection asked for; a peer id of 0 is nil. */
  datatype Conn = Conn(iocom: nat, peerMask: set<nat>, peerType: nat, peerId: nat)

  /** `h2span_link_cmp`. */
  function LinkCmp(a: Link, b: Link): int {
    if a.dist < b.dist then -1
    else if a.dist > b.dist then 1
    else if a.rnss < b.rnss then -1
    else if a.rnss > b.rnss then 1
    else if a.state < b.state then -1
    else if a.state > b.state then 1
    else 0
  }

  /** `h2span_relay_cmp`, on the links the relays come from. */
  function RelayCmp(a: Link, b: Link): int {
    if a.node < b.node then -1
    else if a.node > b.node then 1
    else if a.dist < b.dist then -1
    else if a.dist > b.dist then 1
    else if a.rnss < b.rnss then -1
    else if a.rnss > b.rnss then 1
    else if a.state < b.state then -1
    else if a.state > b.state then 1
    else 0
  }

  /** Under one node links and relays sort alike. */
  lemma SameOrder(a: Link, b: Link)
    requires a.node == b.node
    ensures RelayCmp(a, b) == LinkCmp(a, b)
  {
  }

  predicate SortedLinks(ls: seq<Link>) {
    forall i, j | 0 <= i < j < |ls| :: LinkCmp(ls[i], ls[j]) < 0
  }

  predicate SortedRelays(rs: seq<Link>) {
    forall i, j | 0 <= i < j < |rs| :: RelayCmp(rs[i], rs[j]) < 0
  }

  /** The filters a span has to pass to be relayed. */
  predicate Passes(c: Conn, l: Link) {
    l.dist <= MAXDIST && l.iocom != c.iocom && l.peerType in c.peerMask &&
    !(c.peerType == PEER_CLIENT && l.peerType == PEER_CLIENT) &&
    !(c.peerType == PEER_CLIENT && c.peerId != 0 && l.peerId != c.peerId)
  }

  /** The relays a node should have: its best link, if that passes. */
  function Wanted(c: Conn, links: seq<Link>): seq<Link> {
    if links != [] && Passes(c, links[0]) then [links[0]] else []
  }

  /** The relays come from links of the node, and passed when they were made. */
  ghost predicate Fits(c: Conn, rs: seq<Link>, node: nat, links: seq<Link>) {
    SortedLinks(links) && (forall l <- links :: l.node == node) && SortedRelays(rs) &&
    (forall r <- rs | r.node == node :: r in links && Passes(c, r))
  }

  /** The node's relays are in [a, b). */
  ghost predicate Block(rs: seq<Link>, node: nat, a: nat, b: nat) {
    a <= b <= |rs| && (forall i | 0 <= i < a :: rs[i].node < node) &&
    (forall i | a <= i < b :: rs[i].node == node) && (forall i | b <= i < |rs| :: rs[i].node > node)
  }

  /** The relays of a node, wherever they are. */
  function Of(rs: seq<Link>, node: nat): seq<Link> {
    if rs == [] then [] else (if rs[0].node == node then [rs[0]] else []) + Of(rs[1..], node)
  }

  lemma OfStep(rs: seq<Link>, node: nat)
    requires rs != []
    ensures Of(rs, node) == (if rs[0].node == node then [rs[0]] else []) + Of(rs[1..], node)
  {
  }

  lemma {:induction false} OfAdd(a: seq<Link>, b: seq<Link>, node: nat)
    ensures Of(a + b, node) == Of(a, node) + Of(b, node)
    decreases |a|
  {
    if a == [] {
      assert a + b == b;
      assert Of(a, node) + Of(b, node) == Of(b, node);
    } else {
      hide Of;
      var first := if a[0].node == node then [a[0]] else [];
      assert (a + b)[1..] == a[1..] + b && (a + b)[0] == a[0];
      OfAdd(a[1..], b, node);
      OfStep(a, node);
      OfStep(a + b, node);
      assert first + (Of(a[1..], node) + Of(b, node)) == first + Of(a[1..], node) + Of(b, node);
    }
  }

  lemma {:induction false} OfAll(a: seq<Link>, node: nat)
    ensures (forall l <- a :: l.node == node) ==> Of(a, node) == a
    ensures (forall l <- a :: l.node != node) ==> Of(a, node) == []
  {
    if a != [] {
      OfAll(a[1..], node);
    }
  }

  /** Replacing a node's block changes the relays of that node only. */
  lemma BlockReplaced(rs: seq<Link>, node: nat, a: nat, b: nat, w: seq<Link>, m: nat)
    requires a <= b <= |rs| && Block(rs, node, a, b) && forall l <- w :: l.node == node
    ensures Of(rs[..a] + w + rs[b..], m) == if m == node then w else Of(rs, m)
  {
    hide Of, Block;
    var x, mid, y := rs[..a], rs[a..b], rs[b..];
    BlockParts(rs, node, a, b, m);
    OfThree(x, mid, y, m);
    OfThree(x, w, y, m);
    OfAll(w, m);
    if m == node {
      assert [] + w + [] == w;
    } else {
      assert Of(x, m) + [] + Of(y, m) == Of(x, m) + Of(y, m);
    }
  }

  lemma BlockParts(rs: seq<Link>, node: nat, a: nat, b: nat, m: nat)
    requires Block(rs, node, a, b)
    ensures rs == rs[..a] + rs[a..b] + rs[b..]
    ensures m != node ==> Of(rs[a..b], m) == []
    ensures m == node ==> Of(rs[..a], m) == [] && Of(rs[b..], m) == []
  {
    hide Of;
    if m != node {
      NoneOf(rs, a, b, m);
    } else {
      NoneOf(rs, 0, a, m);
      NoneOf(rs, b, |rs|, m);
      assert rs[0..a] == rs[..a] && rs[b..|rs|] == rs[b..];
    }
    ThreeParts(rs, a, b);
  }

  lemma NoneOf(rs: seq<Link>, a: nat, b: nat, m: nat)
    requires a <= b <= |rs| && forall i | a <= i < b :: rs[i].node != m
    ensures Of(rs[a..b], m) == []
  {
    hide Of;
    var part := rs[a..b];
    forall l <- part
      ensures l.node != m
    {
      var i :| 0 <= i < |part| && part[i] == l;
      assert l == rs[a + i];
    }
    OfAll(part, m);
  }

  lemma ThreeParts(rs: seq<Link>, a: nat, b: nat)
    requires a <= b <= |rs|
    ensures rs == rs[..a] + rs[a..b] + rs[b..]
  {
  }

  lemma OfThree(x: seq<Link>, y: seq<Link>, z: seq<Link>, node: nat)
    ensures Of(x + y + z, node) == Of(x, node) + Of(y, node) + Of(z, node)
  {
    hide Of;
    OfAdd(x + y, z, node);
    OfAdd(x, y, node);
  }

  /** The relays are in order of their nodes. */
  lemma {:induction false} BlockExists(rs: seq<Link>, node: nat, n: nat) returns (a: nat, b: nat)
    requires SortedRelays(rs) && n <= |rs|
    ensures Block(rs[..n], node, a, b)
  {
    if n == 0 {
      a, b := 0, 0;
    } else {
      a, b := BlockExists(rs, node, n - 1);
      var k := rs[n - 1].node;
      assert forall i | 0 <= i < n - 1 :: rs[i].node <= k by {
        forall i | 0 <= i < n - 1
          ensures rs[i].node <= k
        {
          assert RelayCmp(rs[i], rs[n - 1]) < 0;
        }
      }
      assert forall i | 0 <= i < n - 1 :: rs[..n][i] == rs[..n - 1][i];
      if k < node {
        a, b := n, n;
      } else if k == node {
        b := n;
      }
    }
  }

  /** Of the node's relays the first is the best link or one behind it. */
  lemma FirstIsBest(c: Conn, rs: seq<Link>, node: nat, links: seq<Link>, a: nat, b: nat, i: nat)
    requires Fits(c, rs, node, links) && Block(rs, node, a, b) && a <= i < b
    ensures links != [] && (rs[i] == links[0] || RelayCmp(links[0], rs[i]) < 0) && (i > a ==> rs[i] != links[0])
  {
    assert rs[i] in links;
    var k :| 0 <= k < |links| && links[k] == rs[i];
    if k > 0 {
      assert LinkCmp(links[0], links[k]) < 0;
      SameOrder(links[0], rs[i]);
    }
    if i > a {
      assert RelayCmp(rs[a], rs[i]) < 0;
      assert rs[a] in links;
      var m :| 0 <= m < |links| && links[m] == rs[a];
      if k == 0 && m > 0 {
        assert LinkCmp(links[0], links[m]) < 0;
        SameOrder(links[0], rs[a]);
      }
    }
  }

  /** The new tree is sorted again. */
  lemma ReplacedSorted(c: Conn, rs: seq<Link>, node: nat, links: seq<Link>, a: nat, b: nat)
    requires Fits(c, rs, node, links) && Block(rs, node, a, b)
    ensures SortedRelays(rs[..a] + Wanted(c, links) + rs[b..])
  {
    var w := Wanted(c, links);
    var t := rs[..a] + w + rs[b..];
    forall i, j | 0 <= i < j < |t|
      ensures RelayCmp(t[i], t[j]) < 0
    {
      if i < a {
        assert t[i] == rs[i];
      } else if i >= a + |w| {
        assert t[i] == rs[i - |w| - a + b];
      }
      if j < a {
        assert t[j] == rs[j];
      } else if j >= a + |w| {
        assert t[j] == rs[j - |w| - a + b];
      }
    }
  }

  class Relays {
    const conn: Conn
    var tree: seq<Link>

    constructor (conn: Conn)
      ensures this.conn == conn && tree == []
    {
      this.conn, tree := conn, [];
    }

    /** RB_INSERT() into the relay tree. */
    method Insert(l: Link) returns (at: nat)
      requires SortedRelays(tree)
      modifies this
      ensures at <= |old(tree)| && tree == old(tree)[..at] + [l] + old(tree)[at..]
      ensures forall i | 0 <= i < at :: RelayCmp(old(tree)[i], l) < 0
      ensures at < |old(tree)| ==> RelayCmp(old(tree)[at], l) >= 0
    {
      at := 0;
      while at < |tree| && RelayCmp(tree[at], l) < 0
        invariant 0 <= at <= |tree| && tree == old(tree)
        invariant forall i | 0 <= i < at :: RelayCmp(tree[i], l) < 0
      {
        at := at + 1;
      }
      tree := tree[..at] + [l] + tree[at..];
    }

    /** Deletes the relays of the node from `relay` on. */
    method DeleteExtras(relay: nat, node: nat, ghost b: nat)
      requires relay <= b <= |tree| && (forall i | relay <= i < b :: tree[i].node == node)
      requires b < |tree| ==> tree[b].node != node
      modifies this
      ensures tree == old(tree)[..relay] + old(tree)[b..]
    {
      ghost var k := relay;
      while relay < |tree| && tree[relay].node == node
        invariant relay <= k <= b && tree == old(tree)[..relay] + old(tree)[k..]
        decreases b - k
      {
        assert tree[relay] == old(tree)[k];
        tree := tree[..relay] + tree[relay + 1..];
        k := k + 1;
      }
      assert relay < |tree| ==> tree[relay] == old(tree)[k];
    }

    /** One accepted or matched link: moves `relay` past it, making it if it is missing. */
    method Place(relay: nat, node: nat, links: seq<Link>, ghost a: nat, ghost b: nat)
      returns (stop: bool, relay': nat, ghost end: nat)
      requires Fits(conn, tree, node, links) && Block(tree, node, a, b) && relay == a && links != []
      modifies this
      ensures Kept(old(tree), tree, node, a, b, relay', end, Wanted(conn, links))
    {
      hide Fits, Kept, SortedRelays, RelayCmp;
      var l := links[0];
      if relay < |tree| && tree[relay] == l {
        MatchedFirst(conn, tree, node, links, a, b);
        return false, relay + 1, b;
      }
      Refused(conn, tree, node, links, a, b);
      if l.dist > MAXDIST || l.iocom == conn.iocom || l.peerType !in conn.peerMask {
        return true, relay, b;
      }
      if conn.peerType == PEER_CLIENT && l.peerType == PEER_CLIENT {
        return true, relay, b;
      }
      if conn.peerType == PEER_CLIENT && conn.peerId != 0 && l.peerId != conn.peerId {
        return true, relay, b;
      }
      BestComesFirst(conn, tree, node, links, a, b);
      assert relay == |tree| || tree[relay].node != node || tree[relay].dist >= l.dist;
      var at := Insert(l);
      InsertedFirst(old(tree), node, a, b, at, l);
      return false, at + 1, b + 1;
    }

    /** `dmsg_relay_scan_specific`: afterwards the node is relayed by its best link
        if that passes and not at all otherwise, and no other node is touched. */
    method ScanSpecific(node: nat, links: seq<Link>, ghost a: nat, ghost b: nat)
      requires Fits(conn, tree, node, links) && Block(tree, node, a, b)
      modifies this
      ensures tree == old(tree)[..a] + Wanted(conn, links) + old(tree)[b..]
    {
      var relay: nat := 0;
      while relay < |tree| && tree[relay].node < node
        invariant 0 <= relay <= a && tree == old(tree)
      {
        relay := relay + 1;
      }
      hide Fits, Passes;
      ghost var end := b;
      var count, k := 0, 0;
      NoLinks(conn, tree, node, links, a, b);
      while k < |links|
        invariant 0 <= k <= |links| && k == count
        invariant if k == 0 then tree == old(tree) && relay == a && end == b
                  else Kept(old(tree), tree, node, a, b, relay, end, Wanted(conn, links))
      {
        count := count + 1;
        if count >= 2 {
          break;
        }
        var stop;
        stop, relay, end := Place(relay, node, links, a, b);
        k := k + 1;
        if stop {
          break;
        }
      }
      KeptEnds(old(tree), tree, node, a, b, relay, end, Wanted(conn, links));
      DeleteExtras(relay, node, end);
    }
  }

  // ----- a scan as a whole -----

  lemma {:induction false} OfMember(rs: seq<Link>, node: nat, r: Link)
    ensures r in Of(rs, node) <==> r in rs && r.node == node
  {
    if rs != [] {
      OfMember(rs[1..], node, r);
    }
  }

  /** The relays before the node's, and those behind them. */
  function Lower(rs: seq<Link>, node: nat): seq<Link> {
    if rs == [] || rs[0].node >= node then [] else [rs[0]] + Lower(rs[1..], node)
  }

  function Upper(rs: seq<Link>, node: nat): seq<Link> {
    if rs == [] || rs[0].node > node then rs else Upper(rs[1..], node)
  }

  /** The relay tree after a scan of a node. */
  function Scanned(c: Conn, rs: seq<Link>, node: nat, links: seq<Link>): seq<Link> {
    Lower(rs, node) + Wanted(c, links) + Upper(rs, node)
  }

  lemma {:induction false} BlockIsCut(rs: seq<Link>, node: nat, a: nat, b: nat)
    requires Block(rs, node, a, b)
    ensures Lower(rs, node) == rs[..a] && Upper(rs, node) == rs[b..]
    decreases |rs|
  {
    if rs != [] {
      if rs[0].node < node {
        assert a > 0;
        BlockIsCut(rs[1..], node, a - 1, b - 1);
        assert [rs[0]] + rs[1..][..a - 1] == rs[..a] && rs[1..][b - 1..] == rs[b..];
      } else if rs[0].node == node {
        assert a == 0 && b > 0;
        BlockIsCut(rs[1..], node, 0, b - 1);
        assert rs[1..][b - 1..] == rs[b..];
      } else {
        assert a == 0 && b == 0;
      }
    }
  }

  /** A scan gives the node its wanted relays, touches no other node and leaves a sorted tree. */
  lemma ScannedOf(c: Conn, rs: seq<Link>, node: nat, links: seq<Link>, m: nat)
    requires Fits(c, rs, node, links)
    ensures Of(Scanned(c, rs, node, links), m) == if m == node then Wanted(c, links) else Of(rs, m)
    ensures SortedRelays(Scanned(c, rs, node, links))
  {
    var a, b := BlockExists(rs, node, |rs|);
    assert rs[..|rs|] == rs;
    BlockIsCut(rs, node, a, b);
    WantedOfNode(c, rs, node, links);
    BlockReplaced(rs, node, a, b, Wanted(c, links), m);
    ReplacedSorted(c, rs, node, links, a, b);
  }

  /** A scan leaves a tree that fits the links of every node it fitted before. */
  lemma ScanFits(c: Conn, rs: seq<Link>, node: nat, links: seq<Link>, m: nat, other: seq<Link>)
    requires Fits(c, rs, node, links) && Fits(c, rs, m, other) && (m == node ==> other == links)
    ensures Fits(c, Scanned(c, rs, node, links), m, other)
  {
    ScannedOf(c, rs, node, links, m);
    var rs' := Scanned(c, rs, node, links);
    forall r <- rs' | r.node == m
      ensures r in other && Passes(c, r)
    {
      OfMember(rs', m, r);
      OfMember(rs, m, r);
    }
  }

  /** A new span keeps the fit; a span that is closed takes its relays with it first. */
  lemma LinksChangeFits(c: Conn, rs: seq<Link>, node: nat, links: seq<Link>, links': seq<Link>)
    requires Fits(c, rs, node, links) && SortedLinks(links') && (forall l <- links' :: l.node == node)
    requires forall l <- links | l !in links' :: l !in rs
    ensures Fits(c, rs, node, links')
  {
  }

  /** The scan of a node on a connection. */
  method Scan(rel: Relays, node: nat, links: seq<Link>)
    requires Fits(rel.conn, rel.tree, node, links)
    modifies rel
    ensures rel.tree == Scanned(rel.conn, old(rel.tree), node, links)
    ensures Of(rel.tree, node) == Wanted(rel.conn, links)
    ensures forall m: nat | m != node :: Of(rel.tree, m) == old(Of(rel.tree, m))
    ensures Fits(rel.conn, rel.tree, node, links)
    ensures old(Of(rel.tree, node)) == Wanted(rel.conn, links) ==> rel.tree == old(rel.tree)
  {
    ghost var t := rel.tree;
    ghost var a, b := BlockExists(t, node, |t|);
    assert t[..|t|] == t;
    rel.ScanSpecific(node, links, a, b);
    BlockIsCut(t, node, a, b);
    forall m: nat
      ensures Of(rel.tree, m) == if m == node then Wanted(rel.conn, links) else Of(t, m)
    {
      ScannedOf(rel.conn, t, node, links, m);
    }
    ScanFits(rel.conn, t, node, links, node, links);
    Unchanged(t, node, a, b);
  }

  lemma WantedOfNode(c: Conn, rs: seq<Link>, node: nat, links: seq<Link>)
    requires Fits(c, rs, node, links)
    ensures forall l <- Wanted(c, links) :: l.node == node
  {
    assert links != [] ==> links[0] in links;
  }

  /** What a node's relays are is exactly its block. */
  lemma Unchanged(rs: seq<Link>, node: nat, a: nat, b: nat)
    requires Block(rs, node, a, b)
    ensures Of(rs, node) == rs[a..b] && rs[..a] + rs[a..b] + rs[b..] == rs
  {
    BlockParts(rs, node, a, b, node);
    OfThree(rs[..a], rs[a..b], rs[b..], node);
    OfAll(rs[a..b], node);
    assert [] + rs[a..b] + [] == rs[a..b];
  }

  // ----- inside a scan -----

  /** The wanted relay is in place before `relay`; what is left of the node's is in [relay, end). */
  ghost predicate Kept(t: seq<Link>, t': seq<Link>, node: nat, a: nat, b: nat, relay: nat, end: nat, w: seq<Link>) {
    a <= b <= |t| && relay <= end <= |t'| && t'[..relay] == t[..a] + w && t'[end..] == t[b..] &&
    (forall i | relay <= i < end :: t'[i].node == node) && (forall i | b <= i < |t| :: t[i].node > node)
  }

  lemma KeptEnds(t: seq<Link>, t': seq<Link>, node: nat, a: nat, b: nat, relay: nat, end: nat, w: seq<Link>)
    requires Kept(t, t', node, a, b, relay, end, w)
    ensures end < |t'| ==> t'[end].node != node
    ensures t'[..relay] + t'[end..] == t[..a] + w + t[b..]
  {
    if end < |t'| {
      assert t'[end] == t'[end..][0] == t[b..][0];
    }
  }

  /** Without links there are no relays of the node. */
  lemma NoLinks(c: Conn, rs: seq<Link>, node: nat, links: seq<Link>, a: nat, b: nat)
    requires Fits(c, rs, node, links) && Block(rs, node, a, b)
    ensures links == [] ==> Kept(rs, rs, node, a, b, a, b, Wanted(c, links))
  {
    assert rs[..a] + [] == rs[..a];
  }

  /** A best link that does not pass leaves nothing to keep. */
  lemma Refused(c: Conn, rs: seq<Link>, node: nat, links: seq<Link>, a: nat, b: nat)
    requires Block(rs, node, a, b)
    ensures Wanted(c, links) == [] ==> Kept(rs, rs, node, a, b, a, b, Wanted(c, links))
  {
    assert rs[..a] + [] == rs[..a];
  }

  lemma MatchedFirst(c: Conn, rs: seq<Link>, node: nat, links: seq<Link>, a: nat, b: nat)
    requires Fits(c, rs, node, links) && Block(rs, node, a, b) && links != [] && a < |rs| && rs[a] == links[0]
    ensures a < b && Kept(rs, rs, node, a, b, a + 1, b, Wanted(c, links))
  {
    assert links[0] in links;
    assert rs[..a + 1] == rs[..a] + [rs[a]];
  }

  lemma BestComesFirst(c: Conn, rs: seq<Link>, node: nat, links: seq<Link>, a: nat, b: nat)
    requires Fits(c, rs, node, links) && Block(rs, node, a, b) && links != []
    requires a < |rs| ==> rs[a] != links[0]
    ensures a < b ==> RelayCmp(links[0], rs[a]) < 0 && rs[a].dist >= links[0].dist
    ensures links[0].node == node && SortedRelays(rs)
  {
    assert links[0] in links;
    if a < b {
      FirstIsBest(c, rs, node, links, a, b, a);
    }
  }

  lemma InsertedFirst(rs: seq<Link>, node: nat, a: nat, b: nat, at: nat, l: Link)
    requires Block(rs, node, a, b) && l.node == node && at <= |rs|
    requires forall i | 0 <= i < at :: RelayCmp(rs[i], l) < 0
    requires at < |rs| ==> RelayCmp(rs[at], l) >= 0
    requires a < b ==> RelayCmp(l, rs[a]) < 0
    ensures at == a && Kept(rs, rs[..at] + [l] + rs[at..], node, a, b, a + 1, b + 1, [l])
  {
    var t := rs[..at] + [l] + rs[at..];
    assert forall i | 0 <= i < a :: RelayCmp(rs[i], l) < 0;
    assert a < |rs| ==> RelayCmp(rs[a], l) >= 0;
    assert at == a;
    assert t[..a + 1] == rs[..a] + [l];
    assert forall i | a + 1 <= i < b + 1 :: t[i] == rs[i - 1];
    assert t[b + 1..] == rs[b..];
  }
}
