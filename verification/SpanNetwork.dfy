/** A network of hosts that relay LNK_SPANs to each other over FIFO connections.
    Every host scans its connections when it likes; what a scan opens or closes
    reaches the other end later. */
module SpanNetwork {
  import opened Relay

  /** What travels over a connection; a span is closed under the id of the link it comes from. */
  datatype Msg = Open(link: Link) | Close(id: nat)

  /** A span received from another host: the link it was relayed from, as announced, and the own link. */
  datatype Heard = Heard(src: Link, mine: Link)

  /** One end of a connection: the relays sent over it, what is on its way to the
      other end, and the open spans received over it by the id of their source. */
  datatype Port = Port(tree: seq<Link>, wire: seq<Msg>, heard: map<nat, Heard>)

  /** Which host a port belongs to, the port at the other end if that is a host
      too, and what the other end asked for. */
  datatype Topology = Topology(host: map<nat, nat>, peer: map<nat, nat>, conn: map<nat, Conn>)

  ghost predicate Wired(t: Topology) {
    t.conn.Keys == t.host.Keys && (forall p | p in t.conn :: t.conn[p].iocom == p) &&
    (forall p | p in t.peer :: p in t.host && t.peer[p] in t.peer && t.peer[p] != p && t.peer[t.peer[p]] == p)
  }

  /** All ports, the links of each host and node, and the next address of a link. */
  datatype Net = Net(ports: map<nat, Port>, links: map<(nat, nat), seq<Link>>, next: nat)

  function At(net: Net, host: nat, node: nat): seq<Link> {
    if (host, node) in net.links then net.links[(host, node)] else []
  }

  // ----- trees as sequences -----

  /** RB_INSERT() into the links of a node. */
  function Insert(ls: seq<Link>, l: Link): seq<Link> {
    if ls == [] || LinkCmp(l, ls[0]) < 0 then [l] + ls else [ls[0]] + Insert(ls[1..], l)
  }

  function Without(ls: seq<Link>, l: Link): seq<Link> {
    if ls == [] then [] else (if ls[0] == l then [] else [ls[0]]) + Without(ls[1..], l)
  }

  lemma {:induction false} InsertMember(ls: seq<Link>, l: Link, x: Link)
    ensures x in Insert(ls, l) <==> x in ls || x == l
  {
    if ls != [] && LinkCmp(l, ls[0]) >= 0 {
      InsertMember(ls[1..], l, x);
    }
  }

  lemma {:induction false} WithoutMember(ls: seq<Link>, l: Link, x: Link)
    ensures x in Without(ls, l) <==> x in ls && x != l
  {
    if ls != [] {
      WithoutMember(ls[1..], l, x);
    }
  }

  lemma SortedByFirst(ls: seq<Link>, l: Link)
    requires SortedLinks(ls) && forall x <- ls :: LinkCmp(l, x) < 0
    ensures SortedLinks([l] + ls)
  {
  }

  lemma SortedRelaysByFirst(ls: seq<Link>, l: Link)
    requires SortedRelays(ls) && forall x <- ls :: RelayCmp(l, x) < 0
    ensures SortedRelays([l] + ls)
  {
  }

  lemma {:induction false} InsertSorted(ls: seq<Link>, l: Link)
    requires SortedLinks(ls) && forall x <- ls :: x.state != l.state
    ensures SortedLinks(Insert(ls, l))
  {
    if ls == [] || LinkCmp(l, ls[0]) < 0 {
      forall x <- ls
        ensures LinkCmp(l, x) < 0
      {
        var i :| 0 <= i < |ls| && ls[i] == x;
        assert i > 0 ==> LinkCmp(ls[0], ls[i]) < 0;
      }
      SortedByFirst(ls, l);
    } else {
      InsertSorted(ls[1..], l);
      forall x <- Insert(ls[1..], l)
        ensures LinkCmp(ls[0], x) < 0
      {
        InsertMember(ls[1..], l, x);
        if x in ls[1..] {
          var i :| 0 <= i < |ls[1..]| && ls[1..][i] == x;
          assert ls[i + 1] == x;
        } else {
          assert ls[0] in ls;
        }
      }
      SortedByFirst(Insert(ls[1..], l), ls[0]);
    }
  }

  lemma {:induction false} WithoutSorted(ls: seq<Link>, l: Link)
    requires SortedLinks(ls)
    ensures SortedLinks(Without(ls, l))
  {
    hide LinkCmp;
    if ls != [] {
      WithoutSorted(ls[1..], l);
      var rest := Without(ls[1..], l);
      if ls[0] == l {
        assert Without(ls, l) == rest;
      } else {
        forall x <- rest
          ensures LinkCmp(ls[0], x) < 0
        {
          WithoutMember(ls[1..], l, x);
          var i :| 0 <= i < |ls[1..]| && ls[1..][i] == x;
          assert ls[i + 1] == x;
        }
        SortedByFirst(rest, ls[0]);
      }
    }
  }

  lemma {:induction false} WithoutSortedRelays(ls: seq<Link>, l: Link)
    requires SortedRelays(ls)
    ensures SortedRelays(Without(ls, l))
  {
    hide RelayCmp;
    if ls != [] {
      WithoutSortedRelays(ls[1..], l);
      var rest := Without(ls[1..], l);
      if ls[0] == l {
        assert Without(ls, l) == rest;
      } else {
        forall x <- rest
          ensures RelayCmp(ls[0], x) < 0
        {
          WithoutMember(ls[1..], l, x);
          var i :| 0 <= i < |ls[1..]| && ls[1..][i] == x;
          assert ls[i + 1] == x;
        }
        SortedRelaysByFirst(rest, ls[0]);
      }
    }
  }

  // ----- the steps -----

  /** `dmsg_relay_delete` on one port. */
  function Dropped(port: Port, l: Link): Port {
    if l in port.tree then port.(tree := Without(port.tree, l), wire := port.wire + [Close(l.state)]) else port
  }

  /** All relays of a link are deleted. */
  function Purge(t: Topology, net: Net, host: nat, l: Link): Net {
    net.(ports := map p | p in net.ports ::
           if p in t.host && t.host[p] == host then Dropped(net.ports[p], l) else net.ports[p])
  }

  /** The link of a span that has ended. */
  function Gone(net: Net, host: nat, l: Link): Net {
    net.(links := net.links[(host, l.node) := Without(At(net, host, l.node), l)])
  }

  function Begun(net: Net, host: nat, l: Link): Net {
    net.(links := net.links[(host, l.node) := Insert(At(net, host, l.node), l)], next := net.next + 1)
  }

  /** What a scan sends: the relay it makes, then the ends of those in excess. */
  function Sent(tree: seq<Link>, node: nat, wanted: seq<Link>): seq<Msg> {
    (if wanted != [] && wanted[0] !in tree then [Open(wanted[0])] else []) + Closes(Of(tree, node), wanted)
  }

  function Closes(ls: seq<Link>, wanted: seq<Link>): seq<Msg> {
    if ls == [] then [] else (if ls[0] in wanted then [] else [Close(ls[0].state)]) + Closes(ls[1..], wanted)
  }

  /** `Originate` and `Retract` are a client's own spans; `Drop` is a relay given
      up because the other end closed it or the connection ends. */
  datatype Event =
    | Originate(port: nat, node: nat, rnss: nat, peerType: nat, peerId: nat)
    | Retract(port: nat, link: Link)
    | ScanNode(port: nat, node: nat)
    | Drop(port: nat, link: Link)
    | Deliver(port: nat, rnss: nat)

  function Step(t: Topology, net: Net, e: Event): Net
    requires Wired(t) && net.ports.Keys == t.host.Keys
  {
    if e.port !in t.host then net
    else match e
      case Originate(q, node, rnss, peerType, peerId) =>
        if q in t.peer then net
        else Begun(net, t.host[q], Link(node, 0, rnss, net.next, q, peerType, peerId))
      case Retract(q, l) =>
        if q in t.peer || l.iocom != q || l !in At(net, t.host[q], l.node) then net
        else Gone(Purge(t, net, t.host[q], l), t.host[q], l)
      case ScanNode(p, node) => Rescanned(t, net, p, node)
      case Drop(p, l) => net.(ports := net.ports[p := Dropped(net.ports[p], l)])
      case Deliver(p, rnss) =>
        if p !in t.peer || net.ports[p].wire == [] then net else Delivered(t, net, p, rnss)
  }

  /** The scan of one node on one connection. */
  function Rescanned(t: Topology, net: Net, p: nat, node: nat): Net
    requires p in net.ports && p in t.host && p in t.conn
  {
    var port, links := net.ports[p], At(net, t.host[p], node);
    net.(ports := net.ports[p := port.(
           tree := Scanned(t.conn[p], port.tree, node, links),
           wire := port.wire + Sent(port.tree, node, Wanted(t.conn[p], links)))])
  }

  /** The other end takes the next message: a span is one hop further there. */
  function Delivered(t: Topology, net: Net, p: nat, rnss: nat): Net
    requires Wired(t) && net.ports.Keys == t.host.Keys && p in t.peer && net.ports[p].wire != []
  {
    var q := t.peer[p];
    match net.ports[p].wire[0]
    case Open(l) =>
      var mine := Mine(net, p, q, rnss);
      Begun(Taken(net, p, q, net.ports[q].heard[l.state := Heard(l, mine)]), t.host[q], mine)
    case Close(id) =>
      if id !in net.ports[q].heard then net
      else
        var mine := net.ports[q].heard[id].mine;
        Gone(Taken(Purge(t, net, t.host[q], mine), p, q, net.ports[q].heard - {id}), t.host[q], mine)
  }

  /** The link made for the span announced on the wire of `p`. */
  function Mine(net: Net, p: nat, q: nat, rnss: nat): Link
    requires p in net.ports && net.ports[p].wire != [] && net.ports[p].wire[0].Open?
  {
    var l := net.ports[p].wire[0].link;
    Link(l.node, l.dist + 1, l.rnss + rnss, net.next, q, l.peerType, l.peerId)
  }

  function Taken(net: Net, p: nat, q: nat, heard: map<nat, Heard>): Net
    requires p in net.ports && q in net.ports && net.ports[p].wire != []
  {
    var sent := net.ports[p := net.ports[p].(wire := net.ports[p].wire[1..])];
    net.(ports := sent[q := sent[q].(heard := heard)])
  }

  // ----- what every step keeps -----

  datatype Replayed = Bad | Opens(spans: map<nat, Link>)

  /** The spans open at the other end once everything on the wire has arrived. */
  function Replay(open: map<nat, Link>, wire: seq<Msg>): Replayed
    decreases |wire|
  {
    if wire == [] then Opens(open)
    else match wire[0]
      case Open(l) => if l.state in open then Bad else Replay(open[l.state := l], wire[1..])
      case Close(id) => if id !in open then Bad else Replay(open - {id}, wire[1..])
  }

  function Sources(heard: map<nat, Heard>): map<nat, Link> {
    map s | s in heard :: heard[s].src
  }

  ghost predicate Matches(open: map<nat, Link>, tree: seq<Link>) {
    (forall s | s in open :: open[s] in tree && open[s].state == s) &&
    (forall l <- tree :: l.state in open && open[l.state] == l)
  }

  /** The two ends of a connection agree up to what is on the wire. */
  ghost predicate Synced(heard: map<nat, Heard>, wire: seq<Msg>, tree: seq<Link>) {
    var r := Replay(Sources(heard), wire);
    r.Opens? && Matches(r.spans, tree)
  }

  /** Every relay comes from a present link and passed the filters. */
  ghost predicate Fitting(t: Topology, net: Net, p: nat)
    requires p in net.ports && p in t.host && p in t.conn
  {
    forall n: nat :: Fits(t.conn[p], net.ports[p].tree, n, At(net, t.host[p], n))
  }

  ghost predicate HeardOk(t: Topology, net: Net, q: nat, h: Heard)
    requires q in t.host
  {
    q in t.peer && t.peer[q] in t.conn && Passes(t.conn[t.peer[q]], h.src) && h.mine.iocom == q &&
    h.mine.node == h.src.node && h.mine.dist == h.src.dist + 1 &&
    h.mine.peerType == h.src.peerType && h.mine.peerId == h.src.peerId &&
    h.mine in At(net, t.host[q], h.mine.node)
  }

  ghost predicate AllHeard(t: Topology, net: Net, q: nat)
    requires q in net.ports && q in t.host
  {
    var heard := net.ports[q].heard;
    (forall s | s in heard :: heard[s].src.state == s && HeardOk(t, net, q, heard[s])) &&
    (forall s, s' | s in heard && s' in heard && s != s' :: heard[s].mine.state != heard[s'].mine.state)
  }

  /** What is announced has passed the filters. */
  ghost predicate WireOk(c: Conn, wire: seq<Msg>) {
    forall m <- wire :: m.Open? ==> Passes(c, m.link)
  }

  ghost predicate PortOk(t: Topology, net: Net, p: nat)
    requires Wired(t) && net.ports.Keys == t.host.Keys && p in t.host
  {
    Fitting(t, net, p) && AllHeard(t, net, p) && WireOk(t.conn[p], net.ports[p].wire) &&
    (p in t.peer ==> Synced(net.ports[t.peer[p]].heard, net.ports[p].wire, net.ports[p].tree))
  }

  /** Every link was received: from a client at distance 0, or from another host. */
  ghost predicate LinkOk(t: Topology, net: Net, host: nat, node: nat, l: Link)
    requires net.ports.Keys == t.host.Keys
  {
    l.node == node && l.state < net.next && l.iocom in t.host && t.host[l.iocom] == host &&
    if l.iocom in t.peer then exists s :: s in net.ports[l.iocom].heard && net.ports[l.iocom].heard[s].mine == l
    else l.dist == 0
  }

  ghost predicate LinksOk(t: Topology, net: Net)
    requires net.ports.Keys == t.host.Keys
  {
    forall h: nat, n: nat, l | l in At(net, h, n) :: LinkOk(t, net, h, n, l)
  }

  /** No two links of a host have the same address. */
  ghost predicate UniqueIds(net: Net) {
    forall h: nat, n: nat, m: nat, l, x | l in At(net, h, n) && x in At(net, h, m) :: l.state == x.state ==> l == x
  }

  ghost predicate Inv(t: Topology, net: Net) {
    Wired(t) && net.ports.Keys == t.host.Keys && LinksOk(t, net) && UniqueIds(net) &&
    forall p | p in t.host :: PortOk(t, net, p)
  }

  lemma InvShape(t: Topology, net: Net)
    requires Inv(t, net)
    ensures Wired(t) && net.ports.Keys == t.host.Keys && LinksOk(t, net) && UniqueIds(net)
  {
  }

  lemma InvFrom(t: Topology, net: Net)
    requires Wired(t) && net.ports.Keys == t.host.Keys && UniqueIds(net)
    requires (forall p | p in t.host :: PortOk(t, net, p)) && LinksOk(t, net)
    ensures Inv(t, net)
  {
  }

  lemma InvPort(t: Topology, net: Net, p: nat)
    requires Inv(t, net) && p in t.host
    ensures Wired(t) && net.ports.Keys == t.host.Keys && PortOk(t, net, p)
  {
  }

  lemma InvLink(t: Topology, net: Net, h: nat, n: nat, l: Link)
    requires Inv(t, net) && l in At(net, h, n)
    ensures net.ports.Keys == t.host.Keys && LinkOk(t, net, h, n, l)
  {
  }

  // ----- the wire -----

  lemma {:induction false} ReplayMore(open: map<nat, Link>, w: seq<Msg>, w': seq<Msg>)
    ensures Replay(open, w + w') ==
            if Replay(open, w).Bad? then Bad else Replay(Replay(open, w).spans, w')
    decreases |w|
  {
    if w == [] {
      assert w + w' == w';
    } else {
      assert (w + w')[1..] == w[1..] + w';
      match w[0]
      case Open(l) =>
        ReplayMore(open[l.state := l], w[1..], w');
      case Close(id) =>
        ReplayMore(open - {id}, w[1..], w');
    }
  }

  lemma DroppedSynced(heard: map<nat, Heard>, port: Port, l: Link)
    requires Synced(heard, port.wire, port.tree)
    ensures Synced(heard, Dropped(port, l).wire, Dropped(port, l).tree)
  {
    hide Without, Replay;
    if l in port.tree {
      var open, end := Replay(Sources(heard), port.wire).spans, [Close(l.state)];
      ReplayMore(Sources(heard), port.wire, end);
      ReplayClose(open, l.state);
      ClosedMatches(open, port.tree, l);
    }
  }

  lemma ReplayClose(open: map<nat, Link>, id: nat)
    requires id in open
    ensures Replay(open, [Close(id)]) == Opens(open - {id})
  {
  }

  lemma ClosedMatches(open: map<nat, Link>, tree: seq<Link>, l: Link)
    requires Matches(open, tree) && l in tree
    ensures Matches(open - {l.state}, Without(tree, l))
  {
    forall x
      ensures x in Without(tree, l) <==> x in tree && x != l
    {
      WithoutMember(tree, l, x);
    }
  }

  function Ids(ls: seq<Link>, wanted: seq<Link>): set<nat> {
    set l | l in ls && l !in wanted :: l.state
  }

  ghost predicate DistinctIds(ls: seq<Link>) {
    forall i, j | 0 <= i < j < |ls| :: ls[i].state != ls[j].state
  }

  /** The ends a scan sends close exactly the relays in excess. */
  lemma {:induction false} ReplayCloses(open: map<nat, Link>, ls: seq<Link>, wanted: seq<Link>)
    requires DistinctIds(ls) && forall l <- ls :: l.state in open
    ensures Replay(open, Closes(ls, wanted)) == Opens(open - Ids(ls, wanted))
    decreases |ls|
  {
    if ls == [] {
      assert Ids(ls, wanted) == {};
      assert open - {} == open;
    } else {
      var rest := Closes(ls[1..], wanted);
      assert forall l :: l in ls <==> l == ls[0] || l in ls[1..];
      if ls[0] in wanted {
        assert Closes(ls, wanted) == rest;
        ReplayCloses(open, ls[1..], wanted);
        assert Ids(ls, wanted) == Ids(ls[1..], wanted);
      } else {
        assert Closes(ls, wanted)[1..] == rest && Closes(ls, wanted)[0] == Close(ls[0].state);
        ReplayCloses(open - {ls[0].state}, ls[1..], wanted);
        assert Ids(ls, wanted) == {ls[0].state} + Ids(ls[1..], wanted);
        assert open - {ls[0].state} - Ids(ls[1..], wanted) == open - Ids(ls, wanted);
      }
    }
  }

  /** After a scan the two ends still agree up to the wire. */
  lemma ScanSynced(c: Conn, heard: map<nat, Heard>, port: Port, node: nat, links: seq<Link>)
    requires Synced(heard, port.wire, port.tree) && Fits(c, port.tree, node, links)
    requires forall l <- links, x <- port.tree :: l.state == x.state ==> l == x
    ensures Synced(heard, port.wire + Sent(port.tree, node, Wanted(c, links)), Scanned(c, port.tree, node, links))
  {
    hide Replay, Scanned, Of, Closes, Passes, Matches;
    var w, tree := Wanted(c, links), port.tree;
    var open := Replay(Sources(heard), port.wire).spans;
    ReplayMore(Sources(heard), port.wire, Sent(tree, node, w));
    var mid := if w != [] && w[0] !in tree then open[w[0].state := w[0]] else open;
    MidMatches(c, tree, node, links, open, mid);
    var first := if w != [] && w[0] !in tree then [Open(w[0])] else [];
    ReplayMore(open, first, Closes(Of(tree, node), w));
    ReplayFirst(open, first, mid);
    ReplayCloses(mid, Of(tree, node), w);
    ScanMatches(c, tree, node, links, open, mid);
  }

  lemma MidMatches(c: Conn, tree: seq<Link>, node: nat, links: seq<Link>, open: map<nat, Link>, mid: map<nat, Link>)
    requires Fits(c, tree, node, links) && Matches(open, tree)
    requires forall l <- links, x <- tree :: l.state == x.state ==> l == x
    requires var w := Wanted(c, links); mid == if w != [] && w[0] !in tree then open[w[0].state := w[0]] else open
    ensures var w := Wanted(c, links); w != [] && w[0] !in tree ==> w[0].state !in open
    ensures DistinctIds(Of(tree, node)) && forall l <- Of(tree, node) :: l.state in mid
  {
    hide Of, Passes;
    var w := Wanted(c, links);
    assert w != [] ==> w[0] in links;
    OfSorted(tree, node);
    var ls := Of(tree, node);
    forall l <- ls
      ensures l in tree && l.state in mid
    {
      OfMember(tree, node, l);
    }
    forall i, j | 0 <= i < j < |ls|
      ensures ls[i].state != ls[j].state
    {
      assert RelayCmp(ls[i], ls[j]) < 0;
      assert ls[i] in tree && ls[j] in tree;
    }
  }

  lemma ScanMatches(c: Conn, tree: seq<Link>, node: nat, links: seq<Link>, open: map<nat, Link>, mid: map<nat, Link>)
    requires Fits(c, tree, node, links) && Matches(open, tree)
    requires forall l <- links, x <- tree :: l.state == x.state ==> l == x
    requires var w := Wanted(c, links); mid == if w != [] && w[0] !in tree then open[w[0].state := w[0]] else open
    ensures Matches(mid - Ids(Of(tree, node), Wanted(c, links)), Scanned(c, tree, node, links))
  {
    hide Of, Passes, Scanned, SortedRelays, SortedLinks;
    var w := Wanted(c, links);
    var tree', ids := Scanned(c, tree, node, links), Ids(Of(tree, node), w);
    var open' := mid - ids;
    ScannedMember(c, tree, node, links);
    assert w != [] ==> w[0] in links && w == [w[0]];
    forall x
      ensures x in Of(tree, node) <==> x in tree && x.node == node
    {
      OfMember(tree, node, x);
    }
    forall x | x in tree || x in w
      ensures x.state in ids <==> x in tree && x.node == node && x !in w
    {
      if x.state in ids {
        var l :| l in Of(tree, node) && l !in w && l.state == x.state;
        assert l in tree;
        assert x in w ==> x in links && x == l;
        assert x in tree ==> x == open[x.state] == l;
      }
    }
    forall s | s in open'
      ensures open'[s] in tree' && open'[s].state == s
    {
      var x := mid[s];
      assert x in tree || x in w;
    }
  }

  lemma ReplayFirst(open: map<nat, Link>, first: seq<Msg>, mid: map<nat, Link>)
    requires (first == [] && mid == open) ||
             exists l: Link :: first == [Open(l)] && l.state !in open && mid == open[l.state := l]
    ensures Replay(open, first) == Opens(mid)
  {
    if first != [] {
      assert first[1..] == [];
    }
  }

  lemma {:induction false} OfSorted(rs: seq<Link>, node: nat)
    requires SortedRelays(rs)
    ensures SortedRelays(Of(rs, node))
  {
    if rs != [] {
      OfSorted(rs[1..], node);
      if rs[0].node == node {
        forall x <- Of(rs[1..], node)
          ensures RelayCmp(rs[0], x) < 0
        {
          OfMember(rs[1..], node, x);
          var i :| 0 <= i < |rs[1..]| && rs[1..][i] == x;
          assert rs[i + 1] == x;
        }
        SortedRelaysByFirst(Of(rs[1..], node), rs[0]);
      } else {
        assert Of(rs, node) == Of(rs[1..], node);
      }
    }
  }

  lemma ScannedMember(c: Conn, rs: seq<Link>, node: nat, links: seq<Link>)
    requires Fits(c, rs, node, links)
    ensures forall r :: r in Scanned(c, rs, node, links) <==> (r in rs && r.node != node) || r in Wanted(c, links)
  {
    hide Scanned, Of;
    WantedOfNode(c, rs, node, links);
    forall r
      ensures r in Scanned(c, rs, node, links) <==> (r in rs && r.node != node) || r in Wanted(c, links)
    {
      ScannedOf(c, rs, node, links, r.node);
      OfMember(Scanned(c, rs, node, links), r.node, r);
      OfMember(rs, r.node, r);
    }
  }

  // ----- relays are deleted -----

  lemma DroppedFits(c: Conn, port: Port, l: Link, n: nat, links: seq<Link>)
    requires Fits(c, port.tree, n, links)
    ensures Fits(c, Dropped(port, l).tree, n, links)
  {
    hide Passes, SortedRelays, SortedLinks;
    if l in port.tree {
      WithoutSortedRelays(port.tree, l);
      forall r <- Without(port.tree, l)
        ensures r in port.tree
      {
        WithoutMember(port.tree, l, r);
      }
    }
  }

  /** Some ports have dropped the relays of a link. */
  ghost predicate Trimmed(net: Net, net': Net, l: Link) {
    net'.links == net.links && net'.next == net.next && net'.ports.Keys == net.ports.Keys &&
    forall p | p in net.ports :: net'.ports[p] == net.ports[p] || net'.ports[p] == Dropped(net.ports[p], l)
  }

  lemma TrimKeeps(t: Topology, net: Net, net': Net, l: Link)
    requires Inv(t, net) && Trimmed(net, net', l)
    ensures Inv(t, net')
  {
    InvShape(t, net);
    SameUnique(net, net');
    forall p | p in t.host
      ensures PortOk(t, net', p)
    {
      TrimPort(t, net, net', l, p);
    }
    hide PortOk, LinkOk, UniqueIds;
    forall h: nat, n: nat, x | x in At(net', h, n)
      ensures LinkOk(t, net', h, n, x)
    {
      assert x in At(net, h, n);
      LinkStays(t, net, net', h, n, x);
    }
  }

  lemma SameUnique(net: Net, net': Net)
    requires net'.links == net.links && UniqueIds(net)
    ensures UniqueIds(net')
  {
    forall h: nat, n: nat, m: nat, l, x | l in At(net', h, n) && x in At(net', h, m)
      ensures l.state == x.state ==> l == x
    {
      assert l in At(net, h, n) && x in At(net, h, m);
    }
  }

  /** A link stays what it is while its port keeps its open spans. */
  lemma LinkStays(t: Topology, net: Net, net': Net, h: nat, n: nat, x: Link)
    requires net.ports.Keys == t.host.Keys == net'.ports.Keys && net.next <= net'.next && LinkOk(t, net, h, n, x)
    requires x.iocom in t.peer ==>
               forall s | s in net.ports[x.iocom].heard && net.ports[x.iocom].heard[s].mine == x ::
                 s in net'.ports[x.iocom].heard && net'.ports[x.iocom].heard[s] == net.ports[x.iocom].heard[s]
    ensures LinkOk(t, net', h, n, x)
  {
    if x.iocom in t.peer {
      var s :| s in net.ports[x.iocom].heard && net.ports[x.iocom].heard[s].mine == x;
      assert s in net'.ports[x.iocom].heard;
    }
  }

  /** Open spans stay what they are while their links are there. */
  lemma HeardStays(t: Topology, net: Net, net': Net, q: nat)
    requires q in net.ports && q in net'.ports && q in t.host && AllHeard(t, net, q)
    requires net'.ports[q].heard == net.ports[q].heard
    requires forall s | s in net.ports[q].heard ::
               var x := net.ports[q].heard[s].mine; x in At(net', t.host[q], x.node)
    ensures AllHeard(t, net', q)
  {
    hide At, Passes;
    forall s | s in net'.ports[q].heard
      ensures HeardOk(t, net', q, net'.ports[q].heard[s])
    {
      assert HeardOk(t, net, q, net.ports[q].heard[s]);
    }
  }

  lemma TrimPort(t: Topology, net: Net, net': Net, l: Link, p: nat)
    requires Inv(t, net) && p in t.host && Trimmed(net, net', l)
    ensures PortOk(t, net', p)
  {
    hide Fits, HeardOk, Passes, Synced, Without, Inv;
    InvPort(t, net, p);
    var port, port' := net.ports[p], net'.ports[p];
    forall n: nat
      ensures At(net', t.host[p], n) == At(net, t.host[p], n) && Fits(t.conn[p], port'.tree, n, At(net', t.host[p], n))
    {
      DroppedFits(t.conn[p], port, l, n, At(net, t.host[p], n));
    }
    HeardPresent(t, net, p);
    HeardStays(t, net, net', p);
    if p in t.peer {
      assert net'.ports[t.peer[p]].heard == net.ports[t.peer[p]].heard;
      DroppedSynced(net.ports[t.peer[p]].heard, port, l);
    }
  }

  lemma HeardPresent(t: Topology, net: Net, q: nat)
    requires q in net.ports && q in t.host && AllHeard(t, net, q)
    ensures forall s | s in net.ports[q].heard ::
              var x := net.ports[q].heard[s].mine; x.iocom == q && x in At(net, t.host[q], x.node)
  {
    hide At, Passes;
    forall s | s in net.ports[q].heard
      ensures var x := net.ports[q].heard[s].mine; x.iocom == q && x in At(net, t.host[q], x.node)
    {
      assert HeardOk(t, net, q, net.ports[q].heard[s]);
    }
  }

  // ----- a scan -----

  lemma ScanKeeps(t: Topology, net: Net, p: nat, node: nat)
    requires Inv(t, net) && p in t.host
    ensures Inv(t, Rescanned(t, net, p, node))
  {
    hide PortOk, LinkOk, Scanned, Sent, UniqueIds;
    var net' := Rescanned(t, net, p, node);
    SameUnique(net, net');
    forall r | r in t.host
      ensures PortOk(t, net', r)
    {
      ScanPort(t, net, p, node, r);
    }
    forall h: nat, n: nat, x | x in At(net', h, n)
      ensures LinkOk(t, net', h, n, x)
    {
      assert x in At(net, h, n);
      LinkStays(t, net, net', h, n, x);
    }
  }

  lemma ScanFitting(t: Topology, net: Net, p: nat, node: nat)
    requires Wired(t) && net.ports.Keys == t.host.Keys && p in t.host && Fitting(t, net, p)
    ensures Fitting(t, Rescanned(t, net, p, node), p)
  {
    hide Fits, Scanned, Sent;
    var net' := Rescanned(t, net, p, node);
    assert Fits(t.conn[p], net.ports[p].tree, node, At(net, t.host[p], node));
    forall n: nat
      ensures Fits(t.conn[p], net'.ports[p].tree, n, At(net', t.host[p], n))
    {
      assert Fits(t.conn[p], net.ports[p].tree, n, At(net, t.host[p], n));
      ScanFits(t.conn[p], net.ports[p].tree, node, At(net, t.host[p], node), n, At(net, t.host[p], n));
    }
  }

  lemma ScanPort(t: Topology, net: Net, p: nat, node: nat, r: nat)
    requires Inv(t, net) && p in t.host && r in t.host
    ensures PortOk(t, Rescanned(t, net, p, node), r)
  {
    hide Fits, Passes, Synced, Scanned, Sent, HeardOk, Inv;
    InvPort(t, net, r);
    InvPort(t, net, p);
    var net' := Rescanned(t, net, p, node);
    HeardPresent(t, net, r);
    HeardStays(t, net, net', r);
    if r == p {
      assert Fits(t.conn[p], net.ports[p].tree, node, At(net, t.host[p], node));
      ScanFitting(t, net, p, node);
      SentPasses(t.conn[p], net.ports[p].tree, node, At(net, t.host[p], node));
      if p in t.peer {
        SameIds(t, net, p, node);
        ScanSynced(t.conn[p], net.ports[t.peer[p]].heard, net.ports[p], node, At(net, t.host[p], node));
      }
    } else {
      SameFitting(t, net, net', r);
    }
  }

  lemma SameFitting(t: Topology, net: Net, net': Net, p: nat)
    requires Wired(t) && net.ports.Keys == t.host.Keys == net'.ports.Keys && p in t.host && Fitting(t, net, p)
    requires net'.links == net.links && net'.ports[p].tree == net.ports[p].tree
    ensures Fitting(t, net', p)
  {
    hide Fits;
    forall n: nat
      ensures Fits(t.conn[p], net'.ports[p].tree, n, At(net', t.host[p], n))
    {
      assert Fits(t.conn[p], net.ports[p].tree, n, At(net, t.host[p], n));
    }
  }

  lemma SameIds(t: Topology, net: Net, p: nat, node: nat)
    requires Inv(t, net) && p in t.host
    ensures forall l <- At(net, t.host[p], node), x <- net.ports[p].tree :: l.state == x.state ==> l == x
  {
    hide Inv, Passes;
    InvPort(t, net, p);
    InvShape(t, net);
    forall l <- At(net, t.host[p], node), x <- net.ports[p].tree
      ensures l.state == x.state ==> l == x
    {
      assert Fits(t.conn[p], net.ports[p].tree, x.node, At(net, t.host[p], x.node));
      assert x in At(net, t.host[p], x.node);
    }
  }

  lemma {:induction false} OnlyCloses(ls: seq<Link>, wanted: seq<Link>)
    ensures forall m <- Closes(ls, wanted) :: m.Close?
  {
    if ls != [] {
      OnlyCloses(ls[1..], wanted);
    }
  }

  lemma SentPasses(c: Conn, tree: seq<Link>, node: nat, links: seq<Link>)
    ensures WireOk(c, Sent(tree, node, Wanted(c, links)))
  {
    hide Of, Passes;
    OnlyCloses(Of(tree, node), Wanted(c, links));
  }

  // ----- a span arrives -----

  /** A new link, at a host where it has no relay yet. */
  lemma BegunFits(c: Conn, rs: seq<Link>, node: nat, links: seq<Link>, l: Link)
    requires Fits(c, rs, node, links) && l.node == node && forall x <- links :: x.state != l.state
    ensures Fits(c, rs, node, Insert(links, l))
  {
    hide Insert, Passes, SortedRelays, SortedLinks;
    InsertSorted(links, l);
    forall x
      ensures x in Insert(links, l) <==> x in links || x == l
    {
      InsertMember(links, l, x);
    }
    LinksChangeFits(c, rs, node, links, Insert(links, l));
  }

  /** The net has one more link, with an address of its own. */
  ghost predicate Grown(net: Net, net': Net, host: nat, l: Link) {
    net'.next == net.next + 1 && l.state == net.next && net'.ports.Keys == net.ports.Keys &&
    forall h: nat, n: nat :: At(net', h, n) == if h == host && n == l.node then Insert(At(net, h, n), l) else At(net, h, n)
  }

  lemma GrownMember(net: Net, net': Net, host: nat, l: Link, h: nat, n: nat, x: Link)
    requires Grown(net, net', host, l)
    ensures x in At(net', h, n) <==> x in At(net, h, n) || (x == l && h == host && n == l.node)
  {
    InsertMember(At(net, h, n), l, x);
  }

  lemma GrownFitting(t: Topology, net: Net, net': Net, host: nat, l: Link, p: nat)
    requires Wired(t) && net.ports.Keys == t.host.Keys && p in t.host && Fitting(t, net, p) && LinksOk(t, net)
    requires Grown(net, net', host, l) && net'.ports[p].tree == net.ports[p].tree
    ensures Fitting(t, net', p)
  {
    hide Fits, Insert;
    forall n: nat
      ensures Fits(t.conn[p], net'.ports[p].tree, n, At(net', t.host[p], n))
    {
      assert Fits(t.conn[p], net.ports[p].tree, n, At(net, t.host[p], n));
      if t.host[p] == host && n == l.node {
        forall x <- At(net, host, n)
          ensures x.state != l.state
        {
          assert LinkOk(t, net, host, n, x);
        }
        BegunFits(t.conn[p], net.ports[p].tree, n, At(net, host, n), l);
      }
    }
  }

  lemma GrownUnique(t: Topology, net: Net, net': Net, host: nat, l: Link)
    requires net.ports.Keys == t.host.Keys && LinksOk(t, net) && UniqueIds(net) && Grown(net, net', host, l)
    ensures UniqueIds(net')
  {
    forall h: nat, n: nat, m: nat, y, x | y in At(net', h, n) && x in At(net', h, m)
      ensures y.state == x.state ==> y == x
    {
      GrownMember(net, net', host, l, h, n, y);
      GrownMember(net, net', host, l, h, m, x);
      assert y in At(net, h, n) ==> LinkOk(t, net, h, n, y);
      assert x in At(net, h, m) ==> LinkOk(t, net, h, m, x);
    }
  }

  lemma BegunGrown(net: Net, host: nat, l: Link)
    requires l.state == net.next
    ensures Grown(net, Begun(net, host, l), host, l)
  {
    hide Insert;
  }

  lemma GrownHeard(t: Topology, net: Net, net': Net, host: nat, l: Link, p: nat)
    requires Wired(t) && net.ports.Keys == t.host.Keys && p in t.host && AllHeard(t, net, p)
    requires Grown(net, net', host, l) && net'.ports[p].heard == net.ports[p].heard
    ensures AllHeard(t, net', p)
  {
    hide At, HeardOk, Insert;
    HeardPresent(t, net, p);
    forall s | s in net.ports[p].heard
      ensures var x := net.ports[p].heard[s].mine; x in At(net', t.host[p], x.node)
    {
      var x := net.ports[p].heard[s].mine;
      GrownMember(net, net', host, l, t.host[p], x.node, x);
    }
    HeardStays(t, net, net', p);
  }

  lemma OriginateKeeps(t: Topology, net: Net, q: nat, l: Link)
    requires Inv(t, net) && q in t.host && q !in t.peer && l.iocom == q && l.dist == 0 && l.state == net.next
    ensures Inv(t, Begun(net, t.host[q], l))
  {
    var host, net' := t.host[q], Begun(net, t.host[q], l);
    BegunGrown(net, host, l);
    GrownUnique(t, net, net', host, l);
    hide UniqueIds, At, PortOk;
    forall p | p in t.host
      ensures PortOk(t, net', p)
    {
      OriginatePort(t, net, q, l, p);
    }
    forall h: nat, n: nat, x | x in At(net', h, n)
      ensures LinkOk(t, net', h, n, x)
    {
      GrownMember(net, net', host, l, h, n, x);
      if x in At(net, h, n) {
        LinkStays(t, net, net', h, n, x);
      }
    }
  }

  lemma OriginatePort(t: Topology, net: Net, q: nat, l: Link, p: nat)
    requires Inv(t, net) && q in t.host && l.state == net.next && p in t.host
    ensures PortOk(t, Begun(net, t.host[q], l), p)
  {
    hide Fitting, AllHeard, Synced, At, WireOk, Inv, LinksOk;
    InvPort(t, net, p);
    InvShape(t, net);
    var net' := Begun(net, t.host[q], l);
    BegunGrown(net, t.host[q], l);
    GrownFitting(t, net, net', t.host[q], l, p);
    GrownHeard(t, net, net', t.host[q], l, p);
  }

  /** A span announced on the wire of `p` is taken at the other end. */
  lemma OpenKeeps(t: Topology, net: Net, p: nat, rnss: nat)
    requires Inv(t, net) && p in t.peer && net.ports[p].wire != [] && net.ports[p].wire[0].Open?
    ensures Inv(t, Delivered(t, net, p, rnss))
  {
    hide PortOk, LinkOk, At, Delivered, UniqueIds;
    var q := t.peer[p];
    var net', mine := Delivered(t, net, p, rnss), Mine(net, p, q, rnss);
    OpenGrown(t, net, p, rnss);
    GrownUnique(t, net, net', t.host[q], mine);
    forall r | r in t.host
      ensures PortOk(t, net', r)
    {
      OpenPort(t, net, p, rnss, r);
    }
    forall h: nat, n: nat, x | x in At(net', h, n)
      ensures LinkOk(t, net', h, n, x)
    {
      OpenLink(t, net, p, rnss, h, n, x);
    }
  }

  lemma OpenPort(t: Topology, net: Net, p: nat, rnss: nat, r: nat)
    requires Inv(t, net) && p in t.peer && net.ports[p].wire != [] && net.ports[p].wire[0].Open? && r in t.host
    ensures PortOk(t, Delivered(t, net, p, rnss), r)
  {
    hide Fitting, AllHeard, Synced, At, WireOk, Delivered, Inv, LinksOk;
    InvShape(t, net);
    InvPort(t, net, p);
    InvPort(t, net, r);
    var q, net' := t.peer[p], Delivered(t, net, p, rnss);
    var mine := Mine(net, p, q, rnss);
    OpenGrown(t, net, p, rnss);
    GrownFitting(t, net, net', t.host[q], mine, r);
    if r == q {
      OpenHeard(t, net, p, rnss);
    } else {
      GrownHeard(t, net, net', t.host[q], mine, r);
    }
    if r == p {
      TakeOpen(t.conn[p], net.ports[q].heard, net.ports[p], Heard(net.ports[p].wire[0].link, mine));
    }
  }

  lemma OpenLink(t: Topology, net: Net, p: nat, rnss: nat, h: nat, n: nat, x: Link)
    requires Inv(t, net) && p in t.peer && net.ports[p].wire != [] && net.ports[p].wire[0].Open?
    requires x in At(Delivered(t, net, p, rnss), h, n)
    ensures LinkOk(t, Delivered(t, net, p, rnss), h, n, x)
  {
    hide PortOk, LinksOk, At, Delivered, Inv;
    InvShape(t, net);
    InvPort(t, net, p);
    var q, net' := t.peer[p], Delivered(t, net, p, rnss);
    var mine := Mine(net, p, q, rnss);
    OpenGrown(t, net, p, rnss);
    OpenKeepsOthers(t, net, p, rnss);
    GrownMember(net, net', t.host[q], mine, h, n, x);
    if x in At(net, h, n) {
      InvLink(t, net, h, n, x);
      LinkStays(t, net, net', h, n, x);
    } else {
      var s := net.ports[p].wire[0].link.state;
      assert s in net'.ports[q].heard && net'.ports[q].heard[s].mine == mine;
    }
  }

  lemma OpenGrown(t: Topology, net: Net, p: nat, rnss: nat)
    requires Wired(t) && net.ports.Keys == t.host.Keys && p in t.peer && net.ports[p].wire != [] &&
             net.ports[p].wire[0].Open?
    ensures var q, l, net' := t.peer[p], net.ports[p].wire[0].link, Delivered(t, net, p, rnss);
            var mine := Mine(net, p, q, rnss);
            Grown(net, net', t.host[q], mine) &&
            net'.ports[p] == net.ports[p].(wire := net.ports[p].wire[1..]) &&
            net'.ports[q] == net.ports[q].(heard := net.ports[q].heard[l.state := Heard(l, mine)]) &&
            forall r | r in t.host && r != p && r != q :: net'.ports[r] == net.ports[r]
  {
    hide Insert;
    var q, l := t.peer[p], net.ports[p].wire[0].link;
    var mine := Mine(net, p, q, rnss);
    BegunGrown(Taken(net, p, q, net.ports[q].heard[l.state := Heard(l, mine)]), t.host[q], mine);
  }

  /** A message leaves the wire and shows at the other end. */
  lemma TakeOpen(c: Conn, heard: map<nat, Heard>, port: Port, h: Heard)
    requires Synced(heard, port.wire, port.tree) && WireOk(c, port.wire) && port.wire != [] &&
             port.wire[0] == Open(h.src)
    ensures h.src.state !in heard && Passes(c, h.src)
    ensures Synced(heard[h.src.state := h], port.wire[1..], port.tree) && WireOk(c, port.wire[1..])
  {
    hide Passes, Matches;
    assert port.wire[0] in port.wire;
    assert Sources(heard[h.src.state := h]) == Sources(heard)[h.src.state := h.src];
  }

  lemma OpenHeard(t: Topology, net: Net, p: nat, rnss: nat)
    requires Inv(t, net) && p in t.peer && net.ports[p].wire != [] && net.ports[p].wire[0].Open?
    ensures AllHeard(t, Delivered(t, net, p, rnss), t.peer[p])
  {
    hide Fitting, Synced, At, WireOk, Passes, Delivered, Inv, LinksOk, UniqueIds, AllHeard, HeardOk;
    InvShape(t, net);
    InvPort(t, net, p);
    var q, src := t.peer[p], net.ports[p].wire[0].link;
    var net', mine := Delivered(t, net, p, rnss), Mine(net, p, q, rnss);
    OpenGrown(t, net, p, rnss);
    TakeOpen(t.conn[p], net.ports[q].heard, net.ports[p], Heard(src, mine));
    NewHeard(t, net, net', p, rnss);
    HeardGrows(t, net, net', q, mine);
    HeardPlus(t, net, net', q, src.state, Heard(src, mine));
  }

  lemma NewHeard(t: Topology, net: Net, net': Net, p: nat, rnss: nat)
    requires Wired(t) && net.ports.Keys == t.host.Keys && p in t.peer
    requires net.ports[p].wire != [] && net.ports[p].wire[0].Open? && Passes(t.conn[p], net.ports[p].wire[0].link)
    requires Grown(net, net', t.host[t.peer[p]], Mine(net, p, t.peer[p], rnss))
    ensures HeardOk(t, net', t.peer[p], Heard(net.ports[p].wire[0].link, Mine(net, p, t.peer[p], rnss)))
  {
    hide Passes, At, Insert;
    var q := t.peer[p];
    var mine := Mine(net, p, q, rnss);
    GrownMember(net, net', t.host[q], mine, t.host[q], mine.node, mine);
  }

  lemma HeardPlus(t: Topology, net: Net, net': Net, q: nat, s: nat, h: Heard)
    requires q in net.ports && q in net'.ports && q in t.host && AllHeard(t, net, q) && HeardOk(t, net', q, h)
    requires net'.ports[q].heard == net.ports[q].heard[s := h] && h.src.state == s && h.mine.state == net.next
    requires forall s | s in net.ports[q].heard ::
               net.ports[q].heard[s].mine.state < net.next && HeardOk(t, net', q, net.ports[q].heard[s])
    ensures AllHeard(t, net', q)
  {
    hide HeardOk;
  }

  /** The spans open before are older than the new one and stay what they are. */
  lemma HeardGrows(t: Topology, net: Net, net': Net, q: nat, mine: Link)
    requires Inv(t, net) && q in t.host && Grown(net, net', t.host[q], mine)
    ensures q in net.ports && AllHeard(t, net, q)
    ensures forall s | s in net.ports[q].heard ::
              net.ports[q].heard[s].mine.state < net.next && HeardOk(t, net', q, net.ports[q].heard[s])
  {
    hide Fitting, Synced, At, WireOk, Passes, Inv;
    InvPort(t, net, q);
    forall s | s in net.ports[q].heard
      ensures net.ports[q].heard[s].mine.state < net.next
      ensures HeardOk(t, net', q, net.ports[q].heard[s])
    {
      var x := net.ports[q].heard[s].mine;
      assert HeardOk(t, net, q, net.ports[q].heard[s]);
      InvLink(t, net, t.host[q], x.node, x);
      GrownMember(net, net', t.host[q], mine, t.host[q], x.node, x);
    }
  }

  lemma OpenKeepsOthers(t: Topology, net: Net, p: nat, rnss: nat)
    requires Inv(t, net) && p in t.peer && net.ports[p].wire != [] && net.ports[p].wire[0].Open?
    ensures var net' := Delivered(t, net, p, rnss);
            forall r, s | r in t.host && s in net.ports[r].heard ::
              s in net'.ports[r].heard && net'.ports[r].heard[s] == net.ports[r].heard[s]
  {
    hide Fitting, AllHeard, Synced, At, WireOk, Delivered, Inv, LinksOk, UniqueIds;
    InvShape(t, net);
    InvPort(t, net, p);
    var q := t.peer[p];
    OpenGrown(t, net, p, rnss);
    TakeOpen(t.conn[p], net.ports[q].heard, net.ports[p], Heard(net.ports[p].wire[0].link, Mine(net, p, q, rnss)));
  }

  // ----- a span ends -----

  lemma GoneFits(c: Conn, rs: seq<Link>, node: nat, links: seq<Link>, l: Link)
    requires Fits(c, rs, node, links) && l !in rs
    ensures Fits(c, rs, node, Without(links, l))
  {
    hide Without, Passes, SortedRelays, SortedLinks;
    WithoutSorted(links, l);
    forall x
      ensures x in Without(links, l) <==> x in links && x != l
    {
      WithoutMember(links, l, x);
    }
    LinksChangeFits(c, rs, node, links, Without(links, l));
  }

  /** The net has one link less. */
  ghost predicate Shrunk(net: Net, net': Net, host: nat, l: Link) {
    net'.next == net.next && net'.ports.Keys == net.ports.Keys &&
    forall h: nat, n: nat ::
      At(net', h, n) == if h == host && n == l.node then Without(At(net, h, n), l) else At(net, h, n)
  }

  lemma ShrunkMember(net: Net, net': Net, host: nat, l: Link, h: nat, n: nat, x: Link)
    requires Shrunk(net, net', host, l)
    ensures x in At(net', h, n) <==> x in At(net, h, n) && !(h == host && n == l.node && x == l)
  {
    WithoutMember(At(net, h, n), l, x);
  }

  lemma ShrunkFitting(t: Topology, net: Net, net': Net, host: nat, l: Link, p: nat)
    requires Wired(t) && net.ports.Keys == t.host.Keys && p in t.host && Fitting(t, net, p)
    requires Shrunk(net, net', host, l) && net'.ports[p].tree == net.ports[p].tree
    requires t.host[p] == host ==> l !in net.ports[p].tree
    ensures Fitting(t, net', p)
  {
    hide Fits, Without;
    forall n: nat
      ensures Fits(t.conn[p], net'.ports[p].tree, n, At(net', t.host[p], n))
    {
      assert Fits(t.conn[p], net.ports[p].tree, n, At(net, t.host[p], n));
      if t.host[p] == host && n == l.node {
        GoneFits(t.conn[p], net.ports[p].tree, n, At(net, host, n), l);
      }
    }
  }

  lemma ShrunkUnique(net: Net, net': Net, host: nat, l: Link)
    requires UniqueIds(net) && Shrunk(net, net', host, l)
    ensures UniqueIds(net')
  {
    forall h: nat, n: nat, m: nat, y, x | y in At(net', h, n) && x in At(net', h, m)
      ensures y.state == x.state ==> y == x
    {
      ShrunkMember(net, net', host, l, h, n, y);
      ShrunkMember(net, net', host, l, h, m, x);
    }
  }

  lemma ShrunkHeard(t: Topology, net: Net, net': Net, host: nat, l: Link, p: nat)
    requires Wired(t) && net.ports.Keys == t.host.Keys && p in t.host && AllHeard(t, net, p)
    requires Shrunk(net, net', host, l) && net'.ports[p].heard == net.ports[p].heard && l.iocom != p
    ensures AllHeard(t, net', p)
  {
    hide At, HeardOk, Without;
    HeardPresent(t, net, p);
    forall s | s in net.ports[p].heard
      ensures var x := net.ports[p].heard[s].mine; x in At(net', t.host[p], x.node)
    {
      var x := net.ports[p].heard[s].mine;
      ShrunkMember(net, net', host, l, t.host[p], x.node, x);
    }
    HeardStays(t, net, net', p);
  }

  lemma PurgeTrims(t: Topology, net: Net, host: nat, l: Link)
    requires net.ports.Keys == t.host.Keys
    ensures Trimmed(net, Purge(t, net, host, l), l)
    ensures forall p | p in t.host && t.host[p] == host :: l !in Purge(t, net, host, l).ports[p].tree
    ensures forall p | p in t.host ::
              var port := Purge(t, net, host, l).ports[p];
              port.heard == net.ports[p].heard && net.ports[p].wire <= port.wire
  {
    forall p | p in t.host && t.host[p] == host
      ensures l !in Purge(t, net, host, l).ports[p].tree
    {
      WithoutMember(net.ports[p].tree, l, l);
    }
  }

  lemma GoneShrunk(net: Net, host: nat, l: Link)
    ensures Shrunk(net, Gone(net, host, l), host, l)
  {
    hide Without;
  }

  lemma RetractKeeps(t: Topology, net: Net, q: nat, l: Link)
    requires Inv(t, net) && q in t.host && q !in t.peer && l.iocom == q && l in At(net, t.host[q], l.node)
    ensures Inv(t, Gone(Purge(t, net, t.host[q], l), t.host[q], l))
  {
    hide Inv, Purge, PortOk, LinkOk, At, UniqueIds;
    InvShape(t, net);
    var host, net1 := t.host[q], Purge(t, net, t.host[q], l);
    PurgeTrims(t, net, host, l);
    TrimKeeps(t, net, net1, l);
    var net' := Gone(net1, host, l);
    GoneShrunk(net1, host, l);
    InvShape(t, net1);
    ShrunkUnique(net1, net', host, l);
    forall p | p in t.host
      ensures PortOk(t, net', p)
    {
      RetractPort(t, net1, net', q, l, p);
    }
    forall h: nat, n: nat, x | x in At(net', h, n)
      ensures LinkOk(t, net', h, n, x)
    {
      ShrunkMember(net1, net', host, l, h, n, x);
      LinkStays(t, net1, net', h, n, x);
    }
    InvFrom(t, net');
  }

  lemma RetractPort(t: Topology, net: Net, net': Net, q: nat, l: Link, p: nat)
    requires Inv(t, net) && q in t.host && q !in t.peer && l.iocom == q && p in t.host
    requires Shrunk(net, net', t.host[q], l) && net'.ports == net.ports
    requires t.host[p] == t.host[q] ==> l !in net.ports[p].tree
    ensures PortOk(t, net', p)
  {
    hide Fitting, AllHeard, Synced, At, WireOk, Inv;
    InvPort(t, net, p);
    ShrunkFitting(t, net, net', t.host[q], l, p);
    if p == q {
      NothingHeard(t, net, p);
      HeardStays(t, net, net', p);
    } else {
      ShrunkHeard(t, net, net', t.host[q], l, p);
    }
  }

  /** No span of another host arrives on a client's port. */
  lemma NothingHeard(t: Topology, net: Net, q: nat)
    requires q in net.ports && q in t.host && q !in t.peer && AllHeard(t, net, q)
    ensures net.ports[q].heard == map[]
  {
    hide At, Passes;
    assert forall s :: s !in net.ports[q].heard;
  }

  /** A span whose end is next on the wire of `p` ends at the other end. */
  lemma CloseKeeps(t: Topology, net: Net, p: nat, rnss: nat)
    requires Inv(t, net) && p in t.peer && net.ports[p].wire != [] && net.ports[p].wire[0].Close?
    ensures Inv(t, Delivered(t, net, p, rnss))
  {
    hide Inv, LinksOk, UniqueIds, Purge, Synced, WireOk, Fitting, AllHeard;
    InvShape(t, net);
    InvPort(t, net, p);
    var q, id := t.peer[p], net.ports[p].wire[0].id;
    TakeClose(t.conn[p], net.ports[q].heard, net.ports[p], id);
    var host, l := t.host[q], net.ports[q].heard[id].mine;
    var net1 := Purge(t, net, host, l);
    PurgeTrims(t, net, host, l);
    TrimKeeps(t, net, net1, l);
    assert net1.ports[p].wire[0] == Close(id);
    EndKeeps(t, net1, p, id);
  }

  lemma TakeClose(c: Conn, heard: map<nat, Heard>, port: Port, id: nat)
    requires Synced(heard, port.wire, port.tree) && WireOk(c, port.wire) && port.wire != [] && port.wire[0] == Close(id)
    ensures id in heard && Synced(heard - {id}, port.wire[1..], port.tree) && WireOk(c, port.wire[1..])
  {
    hide Passes, Matches;
    assert Sources(heard - {id}) == Sources(heard) - {id};
  }

  /** Once its relays are gone a span can end. */
  lemma EndKeeps(t: Topology, net: Net, p: nat, id: nat)
    requires Inv(t, net) && p in t.peer && net.ports[p].wire != [] && net.ports[p].wire[0] == Close(id)
    requires id in net.ports[t.peer[p]].heard
    requires var q := t.peer[p];
             forall r | r in t.host && t.host[r] == t.host[q] :: net.ports[q].heard[id].mine !in net.ports[r].tree
    ensures var q := t.peer[p];
            Inv(t, Gone(Taken(net, p, q, net.ports[q].heard - {id}), t.host[q], net.ports[q].heard[id].mine))
  {
    hide Inv, PortOk, LinkOk, UniqueIds, At, Gone, Taken;
    InvShape(t, net);
    var q := t.peer[p];
    var host, l := t.host[q], net.ports[q].heard[id].mine;
    var net' := Gone(Taken(net, p, q, net.ports[q].heard - {id}), host, l);
    TakenShrunk(t, net, p, id);
    ShrunkUnique(net, net', host, l);
    hide LinksOk;
    forall r | r in t.host
      ensures PortOk(t, net', r)
    {
      EndPort(t, net, net', p, id, r);
    }
    EndLinks(t, net, net', p, id);
    InvFrom(t, net');
  }

  lemma EndLinks(t: Topology, net: Net, net': Net, p: nat, id: nat)
    requires Inv(t, net) && p in t.peer && OneLess(t, net, net', p, id)
    ensures net'.ports.Keys == t.host.Keys && LinksOk(t, net')
  {
    hide Inv, LinkOk, At;
    InvShape(t, net);
    forall h: nat, n: nat, x | x in At(net', h, n)
      ensures LinkOk(t, net', h, n, x)
    {
      EndLink(t, net, net', p, id, h, n, x);
    }
  }

  lemma TakenShrunk(t: Topology, net: Net, p: nat, id: nat)
    requires Wired(t) && net.ports.Keys == t.host.Keys && p in t.peer && net.ports[p].wire != []
    requires id in net.ports[t.peer[p]].heard
    ensures var q := t.peer[p];
            OneLess(t, net, Gone(Taken(net, p, q, net.ports[q].heard - {id}), t.host[q], net.ports[q].heard[id].mine), p, id)
  {
    hide Without;
  }

  /** The net after the end of the span `id` taken from the wire of `p`. */
  ghost predicate OneLess(t: Topology, net: Net, net': Net, p: nat, id: nat)
    requires p in t.peer && p in net.ports && t.peer[p] in net.ports && t.peer[p] in t.host
  {
    var q := t.peer[p];
    id in net.ports[q].heard && net.ports[p].wire != [] && q != p &&
    Shrunk(net, net', t.host[q], net.ports[q].heard[id].mine) &&
    net'.ports[p] == net.ports[p].(wire := net.ports[p].wire[1..]) &&
    net'.ports[q] == net.ports[q].(heard := net.ports[q].heard - {id}) &&
    forall r | r in net.ports && r != p && r != q :: net'.ports[r] == net.ports[r]
  }

  lemma EndPort(t: Topology, net: Net, net': Net, p: nat, id: nat, r: nat)
    requires Inv(t, net) && p in t.peer && r in t.host && OneLess(t, net, net', p, id)
    requires net.ports[p].wire[0] == Close(id)
    requires t.host[r] == t.host[t.peer[p]] ==> net.ports[t.peer[p]].heard[id].mine !in net.ports[r].tree
    ensures PortOk(t, net', r)
  {
    hide Fitting, AllHeard, Synced, At, WireOk, Inv, LinksOk, UniqueIds;
    InvShape(t, net);
    var q := t.peer[p];
    InvPort(t, net, p);
    InvPort(t, net, q);
    InvPort(t, net, r);
    var l := net.ports[q].heard[id].mine;
    HeardPresent(t, net, q);
    ShrunkFitting(t, net, net', t.host[q], l, r);
    if r == q {
      EndHeard(t, net, net', p, id);
    } else {
      ShrunkHeard(t, net, net', t.host[q], l, r);
    }
    if r == p {
      TakeClose(t.conn[p], net.ports[q].heard, net.ports[p], id);
    }
  }

  lemma EndHeard(t: Topology, net: Net, net': Net, p: nat, id: nat)
    requires Wired(t) && net.ports.Keys == t.host.Keys && p in t.peer && OneLess(t, net, net', p, id)
    requires AllHeard(t, net, t.peer[p])
    ensures AllHeard(t, net', t.peer[p])
  {
    hide At, Passes, Without;
    var q := t.peer[p];
    var heard, l := net.ports[q].heard, net.ports[q].heard[id].mine;
    forall s | s in net'.ports[q].heard
      ensures HeardOk(t, net', q, net'.ports[q].heard[s])
    {
      assert HeardOk(t, net, q, heard[s]) && heard[s].mine.state != l.state;
      ShrunkMember(net, net', t.host[q], l, t.host[q], heard[s].mine.node, heard[s].mine);
    }
  }

  lemma EndLink(t: Topology, net: Net, net': Net, p: nat, id: nat, h: nat, n: nat, x: Link)
    requires Inv(t, net) && p in t.peer && OneLess(t, net, net', p, id) && x in At(net', h, n)
    ensures LinkOk(t, net', h, n, x)
  {
    hide Inv, At, LinksOk, UniqueIds, PortOk, LinkOk;
    InvShape(t, net);
    EndMember(t, net, net', p, id, h, n, x);
    InvLink(t, net, h, n, x);
    hide Shrunk;
    LinkStays(t, net, net', h, n, x);
  }

  /** A link still there is not the one whose span has ended. */
  lemma EndMember(t: Topology, net: Net, net': Net, p: nat, id: nat, h: nat, n: nat, x: Link)
    requires Inv(t, net) && p in t.peer && OneLess(t, net, net', p, id) && x in At(net', h, n)
    ensures x in At(net, h, n) && net'.ports.Keys == t.host.Keys && net'.next == net.next
    ensures x.iocom == t.peer[p] ==> x != net.ports[t.peer[p]].heard[id].mine
  {
    hide Inv, At, LinksOk, UniqueIds, Fitting, Synced, WireOk, Passes, Without;
    InvShape(t, net);
    var q := t.peer[p];
    var l := net.ports[q].heard[id].mine;
    InvPort(t, net, q);
    assert HeardOk(t, net, q, net.ports[q].heard[id]);
    ShrunkMember(net, net', t.host[q], l, h, n, x);
    InvLink(t, net, h, n, x);
  }

  // ----- every run -----

  lemma StepKeeps(t: Topology, net: Net, e: Event)
    requires Inv(t, net)
    ensures Inv(t, Step(t, net, e))
  {
    hide Inv;
    assert Wired(t) && net.ports.Keys == t.host.Keys by {
      InvShape(t, net);
    }
    if e.port in t.host {
      match e
      case Originate(q, node, rnss, peerType, peerId) =>
        if q !in t.peer {
          OriginateKeeps(t, net, q, Link(node, 0, rnss, net.next, q, peerType, peerId));
        }
      case Retract(q, l) =>
        if q !in t.peer && l.iocom == q && l in At(net, t.host[q], l.node) {
          RetractKeeps(t, net, q, l);
        }
      case ScanNode(p, node) =>
        ScanKeeps(t, net, p, node);
      case Drop(p, l) =>
        TrimKeeps(t, net, Step(t, net, e), l);
      case Deliver(p, rnss) =>
        if p in t.peer && net.ports[p].wire != [] {
          if net.ports[p].wire[0].Open? {
            OpenKeeps(t, net, p, rnss);
          } else {
            CloseKeeps(t, net, p, rnss);
          }
        }
    }
  }

  function Start(t: Topology): Net {
    Net(map p | p in t.host :: Port([], [], map[]), map[], 0)
  }

  function Run(t: Topology, es: seq<Event>): (net: Net)
    requires Wired(t)
    ensures net.ports.Keys == t.host.Keys
  {
    if es == [] then Start(t)
    else
      StepShape(t, Run(t, es[..|es| - 1]), es[|es| - 1]);
      Step(t, Run(t, es[..|es| - 1]), es[|es| - 1])
  }

  lemma StepShape(t: Topology, net: Net, e: Event)
    requires Wired(t) && net.ports.Keys == t.host.Keys
    ensures Step(t, net, e).ports.Keys == t.host.Keys
  {
    hide Dropped, Scanned, Sent, Insert, Without, At;
  }

  /** Every run of the network keeps what the hosts believe in step. */
  lemma {:induction false} RunKeeps(t: Topology, es: seq<Event>)
    requires Wired(t)
    ensures Inv(t, Run(t, es))
  {
    if es == [] {
      StartKeeps(t);
    } else {
      hide Inv, Step;
      RunKeeps(t, es[..|es| - 1]);
      StepKeeps(t, Run(t, es[..|es| - 1]), es[|es| - 1]);
    }
  }

  lemma StartKeeps(t: Topology)
    requires Wired(t)
    ensures Inv(t, Start(t))
  {
    var net := Start(t);
    assert forall h: nat, n: nat :: At(net, h, n) == [];
    forall p | p in t.host
      ensures PortOk(t, net, p)
    {
      assert net.ports[p] == Port([], [], map[]);
      if p in t.peer {
        assert Sources(net.ports[t.peer[p]].heard) == map[];
      }
    }
  }

  // ----- where a span comes from -----

  /** A span some host has received and not seen the end of. */
  ghost predicate Live(t: Topology, net: Net, l: Link) {
    l.iocom in t.host && l in At(net, t.host[l.iocom], l.node)
  }

  lemma RelayedIsLive(t: Topology, net: Net, p: nat, l: Link)
    requires Inv(t, net) && p in t.host && l in net.ports[p].tree
    ensures Live(t, net, l) && t.host[l.iocom] == t.host[p] && l.iocom != p && l.dist <= MAXDIST
  {
    hide Inv, AllHeard, Synced, WireOk;
    InvPort(t, net, p);
    assert Fits(t.conn[p], net.ports[p].tree, l.node, At(net, t.host[p], l.node));
    InvLink(t, net, t.host[p], l.node, l);
  }

  /** The link of the other host that a span was relayed from. */
  ghost function Source(t: Topology, net: Net, l: Link): Link
    requires Inv(t, net) && Live(t, net, l) && l.iocom in t.peer
  {
    InvLink(t, net, t.host[l.iocom], l.node, l);
    var s :| s in net.ports[l.iocom].heard && net.ports[l.iocom].heard[s].mine == l;
    net.ports[l.iocom].heard[s].src
  }

  /** The end of the span has been sent. */
  ghost predicate Ending(t: Topology, net: Net, l: Link)
    requires Inv(t, net) && Live(t, net, l) && l.iocom in t.peer
  {
    t.peer[l.iocom] in net.ports && Close(Source(t, net, l).state) in net.ports[t.peer[l.iocom]].wire
  }

  lemma {:induction false} StillOpen(open: map<nat, Link>, wire: seq<Msg>, s: nat)
    requires s in open && Close(s) !in wire && Replay(open, wire).Opens?
    ensures s in Replay(open, wire).spans && Replay(open, wire).spans[s] == open[s]
    decreases |wire|
  {
    if wire != [] {
      match wire[0]
      case Open(l) =>
        StillOpen(open[l.state := l], wire[1..], s);
      case Close(id) =>
        StillOpen(open - {id}, wire[1..], s);
    }
  }

  /** In every run a span received from another host is a relay in the sender's
      tree of a live link one hop closer, which came in over another connection
      and passed the filters; or its end is on the way. */
  lemma Provenance(t: Topology, net: Net, l: Link)
    requires Inv(t, net) && Live(t, net, l) && l.iocom in t.peer
    ensures t.peer[l.iocom] in t.host && t.peer[l.iocom] in t.conn && t.peer[l.iocom] in net.ports
    ensures var p, src := t.peer[l.iocom], Source(t, net, l);
            Passes(t.conn[p], src) && l.dist == src.dist + 1 && l.node == src.node &&
            (!Ending(t, net, l) ==>
               src in net.ports[p].tree && Live(t, net, src) && t.host[src.iocom] == t.host[p] && src.iocom != p)
  {
    var q, src := l.iocom, Source(t, net, l);
    hide Inv, LinksOk, UniqueIds, Fitting, WireOk, Passes;
    InvShape(t, net);
    var p := t.peer[q];
    InvPort(t, net, q);
    InvPort(t, net, p);
    var s :| s in net.ports[q].heard && net.ports[q].heard[s].mine == l && net.ports[q].heard[s].src == src;
    assert HeardOk(t, net, q, net.ports[q].heard[s]);
    if !Ending(t, net, l) {
      StillOpen(Sources(net.ports[q].heard), net.ports[p].wire, s);
      RelayedIsLive(t, net, p, src);
    }
  }

  /** No span is further from its client than the limit and one. */
  lemma DistBounded(t: Topology, net: Net, l: Link)
    requires Inv(t, net) && Live(t, net, l)
    ensures l.dist <= MAXDIST + 1 && (l.iocom !in t.peer ==> l.dist == 0)
  {
    if l.iocom in t.peer {
      Provenance(t, net, l);
    } else {
      InvLink(t, net, t.host[l.iocom], l.node, l);
    }
  }

  /** The links a span was relayed from, as long as their relays are open. */
  ghost function Trail(t: Topology, net: Net, l: Link): seq<Link>
    requires Inv(t, net) && Live(t, net, l)
    decreases l.dist
  {
    if l.iocom !in t.peer || Ending(t, net, l) then [l]
    else
      Provenance(t, net, l);
      [l] + Trail(t, net, Source(t, net, l))
  }

  /** One hop: the relay of `b` at another host is the span `a`. */
  ghost predicate Hop(t: Topology, net: Net, a: Link, b: Link) {
    a.iocom in t.peer && t.peer[a.iocom] in net.ports && b in net.ports[t.peer[a.iocom]].tree &&
    a.dist == b.dist + 1 && a.node == b.node
  }

  /** What a trail is. */
  ghost predicate Leads(t: Topology, net: Net, l: Link, trail: seq<Link>)
    requires Inv(t, net)
  {
    0 < |trail| <= l.dist + 1 && trail[0] == l &&
    (forall i | 0 <= i < |trail| :: Live(t, net, trail[i]) && trail[i].dist == l.dist - i) &&
    (forall i | 0 <= i < |trail| - 1 :: Hop(t, net, trail[i], trail[i + 1])) &&
    (forall i, j | 0 <= i < j < |trail| :: trail[i] != trail[j]) &&
    var last := trail[|trail| - 1];
    if last.iocom in t.peer then Live(t, net, last) && Ending(t, net, last) else last.dist == 0 && |trail| == l.dist + 1
  }

  /** In every run relay chains are acyclic: they lead hop by hop through live
      relays to a client's own span, after as many hops as the distance says, or
      to a span whose end is on the way. */
  lemma {:induction false} TrailLeads(t: Topology, net: Net, l: Link)
    requires Inv(t, net) && Live(t, net, l)
    ensures Leads(t, net, l, Trail(t, net, l)) && l.dist <= MAXDIST + 1
    decreases l.dist
  {
    hide Inv, Live, Source, Ending, Passes;
    DistBounded(t, net, l);
    if l.iocom in t.peer && !Ending(t, net, l) {
      Provenance(t, net, l);
      var src := Source(t, net, l);
      TrailLeads(t, net, src);
      LeadsMore(t, net, l, src, Trail(t, net, src));
    } else {
      LeadsOne(t, net, l);
    }
  }

  lemma LeadsOne(t: Topology, net: Net, l: Link)
    requires Inv(t, net) && Live(t, net, l) && (l.iocom in t.peer ==> Ending(t, net, l)) &&
             (l.iocom !in t.peer ==> l.dist == 0)
    ensures Leads(t, net, l, [l])
  {
    hide Inv, Ending;
  }

  lemma LeadsMore(t: Topology, net: Net, l: Link, src: Link, rest: seq<Link>)
    requires Inv(t, net) && Live(t, net, l) && Hop(t, net, l, src) && Leads(t, net, src, rest)
    ensures Leads(t, net, l, [l] + rest)
  {
    hide Inv, Live, Ending, Hop;
    HopDist(t, net, l, src);
    var trail := [l] + rest;
    assert forall i | 1 <= i < |trail| :: trail[i] == rest[i - 1];
    forall i | 0 <= i < |trail| - 1
      ensures Hop(t, net, trail[i], trail[i + 1])
    {
      if i > 0 {
        assert Hop(t, net, rest[i - 1], rest[i]);
      }
    }
  }

  lemma HopDist(t: Topology, net: Net, a: Link, b: Link)
    requires Hop(t, net, a, b)
    ensures a.dist == b.dist + 1
  {
  }

  /** With nothing on the wires every span is a client's span, relayed. */
  lemma QuietTrail(t: Topology, net: Net, l: Link)
    requires Inv(t, net) && Live(t, net, l) && forall p | p in net.ports :: net.ports[p].wire == []
    ensures |Trail(t, net, l)| == l.dist + 1 && Trail(t, net, l)[l.dist].iocom !in t.peer
  {
    hide Inv, Live, Trail;
    TrailLeads(t, net, l);
    var trail := Trail(t, net, l);
    var last := trail[|trail| - 1];
    if last.iocom in t.peer {
      QuietEnds(t, net, last);
    }
  }

  lemma QuietEnds(t: Topology, net: Net, l: Link)
    requires Inv(t, net) && Live(t, net, l) && l.iocom in t.peer && forall p | p in net.ports :: net.ports[p].wire == []
    ensures !Ending(t, net, l)
  {
    hide Inv, Live, Source;
  }
}
