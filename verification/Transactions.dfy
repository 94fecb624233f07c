/** The CREATE/DELETE/REPLY transaction machine at the two ends of a dmsg link.

    Each end keeps two trees of open transactions, `rd` for those the other end
    initiated and `wr` for its own, indexed by msgid.  Messages travel over two
    FIFO channels.  Circuit 0 only, no ABORT on the wire, atomic steps. */
module Transactions {
  import opened Common

  /** `dmsg_state`: the CREATE, DELETE and REPLY bits of `txcmd` and `rxcmd`. */
  datatype Txn = Txn(txCreate: bool, txDelete: bool, txReply: bool,
                     rxCreate: bool, rxDelete: bool, rxReply: bool)

  /** A header: `rev` is DMSGF_REVTRANS.  Message id 0 is a one-off message. */
  datatype Msg = Msg(id: nat, create: bool, delete: bool, reply: bool, rev: bool)

  type Tree = map<nat, Txn>

  datatype Endpoint = Endpoint(rd: Tree, wr: Tree)

  /** The error returns and failed assertions of message reception. */
  datatype Error = Duplicate | MissingState | ReusedState | NoState | ReplyMismatch | DoubleDelete | WrongTree

  datatype Result<T> = Ok(value: T) | Err(error: Error)

  /** A state as `dmsg_msg_alloc` leaves it: inserted, nothing sent yet. */
  const ALLOCATED := Txn(false, false, false, false, false, true)

  function Get(t: Tree, id: nat): Option<Txn> {
    if id in t then Some(t[id]) else None
  }

  function Put(t: Tree, id: nat, s: Option<Txn>): Tree {
    if s.None? then t - {id} else t[id := s.value]
  }

  // ----- one end -----

  /** `dmsg_msg_write` with `dmsg_state_cleanuptx`, as `dmsg_state_reply` (with
      `delete`) and `dmsg_state_result` (without) call it: CREATE is set on the
      first message of a direction, a message to a state whose transmit side is
      already closed is dropped, and a DELETE that completes the transaction
      takes the state out of the tree its REPLY bit names. */
  function Write(e: Endpoint, own: bool, id: nat, delete: bool): (Endpoint, Option<Msg>)
    requires id in (if own then e.wr else e.rd)
  {
    var s := if own then e.wr[id] else e.rd[id];
    if s.txDelete then (e, None)
    else
      var m := Msg(id, !s.txCreate, delete, s.txReply, !own);
      var s' := s.(txCreate := true, txDelete := delete);
      var e' := if own then e.(wr := e.wr[id := s']) else e.(rd := e.rd[id := s']);
      if delete && s.rxDelete then
        (if s.txReply then e'.(rd := e'.rd - {id}) else e'.(wr := e'.wr - {id}), Some(m))
      else
        (e', Some(m))
  }

  /** The switch of `dmsg_state_msgrx` on CREATE, DELETE and REPLY. */
  function Admit(found: Option<Txn>, m: Msg): Result<Option<Txn>> {
    if m.create && !m.reply then
      if found.Some? then Err(Duplicate)
      else Ok(Some(Txn(false, false, true, true, false, false)))
    else if m.create then
      if found.None? then Err(NoState)
      else if !found.value.rxReply then Err(ReplyMismatch)
      else Ok(Some(found.value.(rxCreate := true, rxDelete := false)))
    else if m.delete then
      if found.None? then Err(MissingState)
      else if !found.value.rxCreate then Err(ReusedState)
      else Ok(found)
    else Ok(found)
  }

  /** `dmsg_state_msgrx`. */
  function Receive(e: Endpoint, m: Msg): Result<Endpoint> {
    var admitted := Admit(Get(if m.rev then e.wr else e.rd, m.id), m);
    if admitted.Err? then Err(admitted.error)
    else if admitted.value.None? then Ok(e)
    else
      var s := admitted.value.value;
      var own := m.rev && !(m.create && !m.reply);
      if m.delete && s.rxDelete then Err(DoubleDelete)
      else
        var s' := s.(rxDelete := s.rxDelete || m.delete);
        var e' := if own then e.(wr := e.wr[m.id := s']) else e.(rd := e.rd[m.id := s']);
        if m.delete && s.txDelete then
          if s.rxReply != m.reply || s.rxReply != own then Err(WrongTree)
          else if s.rxReply then Ok(e'.(wr := e'.wr - {m.id}))
          else Ok(e'.(rd := e'.rd - {m.id}))
        else Ok(e')
  }

  // ----- the link -----

  datatype Link = Link(a: Endpoint, b: Endpoint, ab: seq<Msg>, ba: seq<Msg>)

  datatype Action =
    | Alloc(id: nat)
    | Send(own: bool, id: nat, delete: bool)
    | OneOff(reply: bool)
    | Take

  function Flip(l: Link): Link {
    Link(l.b, l.a, l.ba, l.ab)
  }

  /** One step of end `a`; a step that is not possible does nothing.  A msgid
      may be allocated again as soon as it is out of the initiator's own tree. */
  function StepA(l: Link, act: Action): Result<Link> {
    match act
    case Alloc(id) =>
      if id == 0 || id in l.a.wr then Ok(l)
      else Ok(l.(a := l.a.(wr := l.a.wr[id := ALLOCATED])))
    case Send(own, id, delete) =>
      if id !in (if own then l.a.wr else l.a.rd) then Ok(l)
      else
        var (e, m) := Write(l.a, own, id, delete);
        Ok(l.(a := e, ab := if m.Some? then l.ab + [m.value] else l.ab))
    case OneOff(reply) =>
      Ok(l.(ab := l.ab + [Msg(0, false, false, reply, false)]))
    case Take =>
      if l.ba == [] then Ok(l)
      else
        var r := Receive(l.a, l.ba[0]);
        if r.Err? then Err(r.error) else Ok(l.(a := r.value, ba := l.ba[1..]))
  }

  function Step(l: Link, byA: bool, act: Action): Result<Link> {
    if byA then StepA(l, act)
    else
      var r := StepA(Flip(l), act);
      if r.Err? then r else Ok(Flip(r.value))
  }

  function Run(l: Link, acts: seq<(bool, Action)>): Result<Link>
    decreases acts
  {
    if acts == [] then Ok(l)
    else
      var r := Step(l, acts[0].0, acts[0].1);
      if r.Err? then r else Run(r.value, acts[1..])
  }

  const IDLE := Link(Endpoint(map[], map[]), Endpoint(map[], map[]), [], [])

  // ----- one transaction id, seen by initiator x and responder y -----

  /** The messages of one transaction id and direction in a channel. */
  function Only(ms: seq<Msg>, rev: bool, id: nat): seq<Msg> {
    if ms == [] then []
    else (if ms[0].rev == rev && ms[0].id == id then [ms[0]] else []) + Only(ms[1..], rev, id)
  }

  /** Reading `ms` from a receiver that has seen CREATE (`c`) and DELETE (`d`). */
  function Reading(c: bool, d: bool, ms: seq<Msg>): Option<(bool, bool)>
    decreases ms
  {
    if ms == [] then Some((c, d))
    else if d || ms[0].create == c then None
    else Reading(true, ms[0].delete, ms[1..])
  }

  /** The responder taking one command message, when that is no error and the
      message belongs to the transaction it finds. */
  function Accept(y: Option<Txn>, m: Msg): Option<Option<Txn>> {
    if m.create then
      if y.Some? then None else Some(Some(Txn(false, false, true, true, m.delete, false)))
    else if y.None? || !y.value.rxCreate || y.value.rxDelete then None
    else if m.delete && y.value.txDelete then Some(None)
    else Some(Some(y.value.(rxDelete := m.delete)))
  }

  function Deliver(y: Option<Txn>, ms: seq<Msg>): Option<Option<Txn>>
    decreases ms
  {
    if ms == [] then Some(y)
    else
      var y' := Accept(y, ms[0]);
      if y'.None? then None else Deliver(y'.value, ms[1..])
  }

  /** Once every command in flight is delivered, initiator and responder agree,
      up to the replies still in flight. */
  predicate Settled(x: Option<Txn>, y: Option<Txn>, replies: seq<Msg>) {
    match (x, y)
    case (None, None) => replies == []
    case (None, Some(_)) => false
    case (Some(w), None) =>
      (w == ALLOCATED && replies == []) ||
      (w.txCreate && w.txDelete && Reading(w.rxCreate, w.rxDelete, replies) == Some((true, true)))
    case (Some(w), Some(r)) =>
      w.txCreate && w.txDelete == r.rxDelete &&
      Reading(w.rxCreate, w.rxDelete, replies) == Some((r.txCreate, r.txDelete))
  }

  predicate GoodOwn(x: Option<Txn>) {
    x.Some? ==>
      !x.value.txReply && x.value.rxReply && !(x.value.txDelete && x.value.rxDelete) &&
      (x.value.txDelete ==> x.value.txCreate) && (x.value.rxDelete ==> x.value.rxCreate)
  }

  predicate GoodRemote(y: Option<Txn>) {
    y.Some? ==>
      y.value.txReply && !y.value.rxReply && y.value.rxCreate && !(y.value.txDelete && y.value.rxDelete) &&
      (y.value.txDelete ==> y.value.txCreate)
  }

  /** The invariant of one transaction id. */
  predicate PairInv(x: Option<Txn>, y: Option<Txn>, commands: seq<Msg>, replies: seq<Msg>) {
    GoodOwn(x) && GoodRemote(y) &&
    Deliver(y, commands).Some? && Settled(x, Deliver(y, commands).value, replies)
  }

  // ----- sequences of messages -----

  lemma {:induction false} OnlyAppend(ms: seq<Msg>, m: Msg, rev: bool, id: nat)
    ensures Only(ms + [m], rev, id) ==
            if m.rev == rev && m.id == id then Only(ms, rev, id) + [m] else Only(ms, rev, id)
  {
    if ms == [] {
      assert ms + [m] == [m];
    } else {
      assert (ms + [m])[1..] == ms[1..] + [m];
      OnlyAppend(ms[1..], m, rev, id);
    }
  }

  lemma OnlyTail(ms: seq<Msg>, rev: bool, id: nat)
    requires ms != [] && !(ms[0].rev == rev && ms[0].id == id)
    ensures Only(ms[1..], rev, id) == Only(ms, rev, id)
  {
  }

  lemma {:induction false} ReadingAppend(c: bool, d: bool, ms: seq<Msg>, m: Msg)
    ensures Reading(c, d, ms + [m]) ==
            (var r := Reading(c, d, ms); if r.None? then None else Reading(r.value.0, r.value.1, [m]))
    decreases ms
  {
    if ms == [] {
      assert ms + [m] == [m];
    } else {
      assert (ms + [m])[1..] == ms[1..] + [m];
      ReadingAppend(true, ms[0].delete, ms[1..], m);
    }
  }

  lemma {:induction false} DeliverAppend(y: Option<Txn>, ms: seq<Msg>, m: Msg)
    ensures Deliver(y, ms + [m]) ==
            (var r := Deliver(y, ms); if r.None? then None else Accept(r.value, m))
    decreases ms
  {
    if ms == [] {
      assert ms + [m] == [m];
      assert [m][1..] == [];
    } else {
      assert (ms + [m])[1..] == ms[1..] + [m];
      var y' := Accept(y, ms[0]);
      if y'.Some? {
        DeliverAppend(y'.value, ms[1..], m);
      }
    }
  }

  lemma {:induction false} DeliverKeepsGood(y: Option<Txn>, ms: seq<Msg>)
    requires GoodRemote(y) && Deliver(y, ms).Some?
    ensures GoodRemote(Deliver(y, ms).value)
    decreases ms
  {
    if ms != [] {
      DeliverKeepsGood(Accept(y, ms[0]).value, ms[1..]);
    }
  }

  /** A responder that has not closed its side only reads: its transmit bits
      pass through delivery, and closing it commutes with delivery. */
  lemma {:induction false} DeliverOpen(r: Txn, ms: seq<Msg>, delete: bool)
    requires GoodRemote(Some(r)) && !r.txDelete && Deliver(Some(r), ms).Some?
    ensures Deliver(Some(r), ms).value.Some?
    ensures var r' := Deliver(Some(r), ms).value.value;
            r' == r.(rxDelete := r'.rxDelete) && (r.rxDelete ==> ms == [] && r'.rxDelete) &&
            ((r.rxDelete && delete) ||
             Deliver(Some(r.(txCreate := true, txDelete := delete)), ms) ==
             Some(if delete && r'.rxDelete then None else Some(r'.(txCreate := true, txDelete := delete))))
    decreases ms
  {
    if ms != [] {
      var r1 := Accept(Some(r), ms[0]).value.value;
      DeliverOpen(r1, ms[1..], delete);
      if delete && r1.rxDelete {
        assert ms[1..] == [];
      }
    }
  }

  // ----- the five ways a step touches a transaction -----

  /** What a write does to the state it finds, and the message it queues. */
  function Sent(s: Txn, delete: bool): Option<Txn> {
    if delete && s.rxDelete then None else Some(s.(txCreate := true, txDelete := delete))
  }

  lemma InitiatorAllocates(y: Option<Txn>, commands: seq<Msg>, replies: seq<Msg>)
    requires PairInv(None, y, commands, replies)
    ensures PairInv(Some(ALLOCATED), y, commands, replies)
  {
  }

  lemma InitiatorSends(w: Txn, y: Option<Txn>, commands: seq<Msg>, replies: seq<Msg>, m: Msg)
    requires PairInv(Some(w), y, commands, replies) && !w.txDelete && m.create == !w.txCreate
    ensures PairInv(Sent(w, m.delete), y, commands + [m], replies)
  {
    DeliverAppend(y, commands, m);
    DeliverKeepsGood(y, commands);
    if replies != [] {
      assert !w.rxDelete;
    }
  }

  /** The next reply is one the initiator accepts. */
  lemma InitiatorReads(x: Option<Txn>, y: Option<Txn>, commands: seq<Msg>, replies: seq<Msg>)
    requires PairInv(x, y, commands, replies) && replies != []
    ensures x.Some? && !x.value.rxDelete && replies[0].create == !x.value.rxCreate
    ensures var w := x.value;
            var w' := w.(rxCreate := true, rxDelete := replies[0].delete);
            PairInv(if w'.rxDelete && w.txDelete then None else Some(w'), y, commands, replies[1..])
  {
    DeliverKeepsGood(y, commands);
    if replies[0].delete {
      assert Reading(true, true, replies[1..]).Some? ==> replies[1..] == [];
    }
  }

  /** The next command is one the responder accepts. */
  lemma ResponderReads(x: Option<Txn>, y: Option<Txn>, commands: seq<Msg>, replies: seq<Msg>)
    requires PairInv(x, y, commands, replies) && commands != []
    ensures Accept(y, commands[0]).Some?
    ensures PairInv(x, Accept(y, commands[0]).value, commands[1..], replies)
  {
  }

  lemma ResponderSends(x: Option<Txn>, r: Txn, commands: seq<Msg>, replies: seq<Msg>, m: Msg)
    requires PairInv(x, Some(r), commands, replies) && !r.txDelete && m.create == !r.txCreate
    ensures PairInv(x, Sent(r, m.delete), commands, replies + [m])
  {
    DeliverOpen(r, commands, m.delete);
    if x.Some? {
      ReadingAppend(x.value.rxCreate, x.value.rxDelete, replies, m);
    }
  }

  // ----- the invariant of the link -----

  ghost predicate HalfInv(x: Endpoint, y: Endpoint, xy: seq<Msg>, yx: seq<Msg>) {
    forall id: nat | id > 0 :: PairInv(Get(x.wr, id), Get(y.rd, id), Only(xy, false, id), Only(yx, true, id))
  }

  /** Message id 0 belongs to one-off messages, and replies go back on REVTRANS. */
  ghost predicate GoodChannel(ms: seq<Msg>) {
    forall i | 0 <= i < |ms| ::
      if ms[i].id == 0 then !ms[i].create && !ms[i].delete && !ms[i].rev else ms[i].reply == ms[i].rev
  }

  ghost predicate Inv(l: Link) {
    GoodChannel(l.ab) && GoodChannel(l.ba) &&
    0 !in l.a.wr && 0 !in l.a.rd && 0 !in l.b.wr && 0 !in l.b.rd &&
    HalfInv(l.a, l.b, l.ab, l.ba) && HalfInv(l.b, l.a, l.ba, l.ab)
  }

  /** `e'` is `e` with one key of one tree changed to `s`. */
  predicate Changed(e: Endpoint, e': Endpoint, own: bool, id: nat, s: Option<Txn>) {
    if own then e' == e.(wr := Put(e.wr, id, s)) else e' == e.(rd := Put(e.rd, id, s))
  }

  lemma ChangedAt(e: Endpoint, e': Endpoint, own: bool, id: nat, s: Option<Txn>, k: nat)
    requires Changed(e, e', own, id, s)
    ensures Get(e'.wr, k) == if own && k == id then s else Get(e.wr, k)
    ensures Get(e'.rd, k) == if !own && k == id then s else Get(e.rd, k)
  {
  }

  lemma WriteChanges(e: Endpoint, own: bool, id: nat, delete: bool)
    requires id in (if own then e.wr else e.rd)
    requires GoodOwn(Get(e.wr, id)) && GoodRemote(Get(e.rd, id))
    ensures var s := if own then e.wr[id] else e.rd[id];
            var r := Write(e, own, id, delete);
            if s.txDelete then r == (e, None)
            else r.1 == Some(Msg(id, !s.txCreate, delete, !own, !own)) &&
                 Changed(e, r.0, own, id, Sent(s, delete))
  {
  }

  lemma ReceiveChanges(e: Endpoint, m: Msg)
    requires m.id > 0 && m.reply == m.rev
    requires GoodOwn(Get(e.wr, m.id)) && GoodRemote(Get(e.rd, m.id))
    ensures m.rev && m.id in e.wr && !e.wr[m.id].rxDelete && m.create == !e.wr[m.id].rxCreate ==>
              var w := e.wr[m.id];
              var w' := w.(rxCreate := true, rxDelete := m.delete);
              Receive(e, m).Ok? &&
              Changed(e, Receive(e, m).value, true, m.id, if w'.rxDelete && w.txDelete then None else Some(w'))
    ensures !m.rev && Accept(Get(e.rd, m.id), m).Some? ==>
              Receive(e, m).Ok? &&
              Changed(e, Receive(e, m).value, false, m.id, Accept(Get(e.rd, m.id), m).value)
  {
  }

  ghost predicate BothInv(l: Link, id: nat) {
    PairInv(Get(l.a.wr, id), Get(l.b.rd, id), Only(l.ab, false, id), Only(l.ba, true, id)) &&
    PairInv(Get(l.b.wr, id), Get(l.a.rd, id), Only(l.ba, false, id), Only(l.ab, true, id))
  }

  lemma WriteKeeps(l: Link, own: bool, id: nat, delete: bool)
    requires Inv(l) && id in (if own then l.a.wr else l.a.rd)
    ensures Inv(StepA(l, Send(own, id, delete)).value)
  {
    var l' := StepA(l, Send(own, id, delete)).value;
    var s := if own then l.a.wr[id] else l.a.rd[id];
    assert BothInv(l, id);
    WriteChanges(l.a, own, id, delete);
    if !s.txDelete {
      var m := Msg(id, !s.txCreate, delete, !own, !own);
      assert l' == l.(a := l'.a, ab := l.ab + [m]);
      ChangedAt(l.a, l'.a, own, id, Sent(s, delete), 0);
      forall k: nat | k > 0
        ensures BothInv(l', k)
      {
        hide PairInv, Only, Put;
        OnlyAppend(l.ab, m, false, k);
        OnlyAppend(l.ab, m, true, k);
        ChangedAt(l.a, l'.a, own, id, Sent(s, delete), k);
        assert BothInv(l, k);
        if k == id {
          if own {
            InitiatorSends(s, Get(l.b.rd, k), Only(l.ab, false, k), Only(l.ba, true, k), m);
          } else {
            ResponderSends(Get(l.b.wr, k), s, Only(l.ba, false, k), Only(l.ab, true, k), m);
          }
        }
      }
      HalvesFromBoth(l');
    }
  }

  lemma HalvesFromBoth(l: Link)
    requires forall k: nat | k > 0 :: BothInv(l, k)
    ensures HalfInv(l.a, l.b, l.ab, l.ba) && HalfInv(l.b, l.a, l.ba, l.ab)
  {
    forall k: nat | k > 0
      ensures PairInv(Get(l.a.wr, k), Get(l.b.rd, k), Only(l.ab, false, k), Only(l.ba, true, k))
      ensures PairInv(Get(l.b.wr, k), Get(l.a.rd, k), Only(l.ba, false, k), Only(l.ab, true, k))
    {
      assert BothInv(l, k);
    }
  }

  /** What end `a` makes of the head of its channel. */
  lemma TakeChanges(l: Link) returns (s: Option<Txn>)
    requires Inv(l) && l.ba != [] && l.ba[0].id > 0
    ensures var m := l.ba[0];
            Receive(l.a, m).Ok? && Changed(l.a, Receive(l.a, m).value, m.rev, m.id, s) &&
            if m.rev then
              PairInv(s, Get(l.b.rd, m.id), Only(l.ab, false, m.id), Only(l.ba[1..], true, m.id))
            else
              PairInv(Get(l.b.wr, m.id), s, Only(l.ba[1..], false, m.id), Only(l.ab, true, m.id))
  {
    var m := l.ba[0];
    assert BothInv(l, m.id);
    ReceiveChanges(l.a, m);
    assert Only(l.ba, m.rev, m.id) == [m] + Only(l.ba[1..], m.rev, m.id);
    if m.rev {
      InitiatorReads(Get(l.a.wr, m.id), Get(l.b.rd, m.id), Only(l.ab, false, m.id), Only(l.ba, true, m.id));
      var w := l.a.wr[m.id];
      s := if m.delete && w.txDelete then None else Some(w.(rxCreate := true, rxDelete := m.delete));
    } else {
      ResponderReads(Get(l.b.wr, m.id), Get(l.a.rd, m.id), Only(l.ba, false, m.id), Only(l.ab, true, m.id));
      s := Accept(Get(l.a.rd, m.id), m).value;
    }
  }

  lemma TakeKeeps(l: Link)
    requires Inv(l) && l.ba != []
    ensures StepA(l, Take).Ok? && Inv(StepA(l, Take).value)
  {
    var m := l.ba[0];
    if m.id == 0 {
      assert Receive(l.a, m) == Ok(l.a);
      var l' := l.(ba := l.ba[1..]);
      forall k: nat | k > 0
        ensures BothInv(l', k)
      {
        hide PairInv, Only;
        assert BothInv(l, k);
        OnlyTail(l.ba, false, k);
        OnlyTail(l.ba, true, k);
      }
      HalvesFromBoth(l');
    } else {
      var s := TakeChanges(l);
      var l' := l.(a := Receive(l.a, m).value, ba := l.ba[1..]);
      ChangedAt(l.a, l'.a, m.rev, m.id, s, 0);
      forall k: nat | k > 0
        ensures BothInv(l', k)
      {
        hide PairInv, Put, Only;
        assert BothInv(l, k);
        if m.rev || m.id != k {
          OnlyTail(l.ba, false, k);
        }
        if !m.rev || m.id != k {
          OnlyTail(l.ba, true, k);
        }
        ChangedAt(l.a, l'.a, m.rev, m.id, s, k);
      }
      HalvesFromBoth(l');
    }
  }

  lemma StepKeeps(l: Link, act: Action)
    requires Inv(l)
    ensures StepA(l, act).Ok? && Inv(StepA(l, act).value)
  {
    match act
    case Alloc(id) =>
      var l' := StepA(l, act).value;
      forall k: nat | k > 0
        ensures PairInv(Get(l'.a.wr, k), Get(l'.b.rd, k), Only(l'.ab, false, k), Only(l'.ba, true, k))
      {
        assert PairInv(Get(l.a.wr, k), Get(l.b.rd, k), Only(l.ab, false, k), Only(l.ba, true, k));
        if k == id && id !in l.a.wr {
          InitiatorAllocates(Get(l.b.rd, k), Only(l.ab, false, k), Only(l.ba, true, k));
        }
      }
    case Send(own, id, delete) =>
      if id in (if own then l.a.wr else l.a.rd) {
        WriteKeeps(l, own, id, delete);
      }
    case OneOff(reply) =>
      var m := Msg(0, false, false, reply, false);
      forall k: nat | k > 0
        ensures Only(l.ab + [m], false, k) == Only(l.ab, false, k)
        ensures Only(l.ab + [m], true, k) == Only(l.ab, true, k)
      {
        OnlyAppend(l.ab, m, false, k);
        OnlyAppend(l.ab, m, true, k);
      }
    case Take =>
      if l.ba != [] {
        TakeKeeps(l);
      }
  }

  /** No run of the two ends, with any interleaving and with msgids reused as
      soon as their initiator drops them, reaches a protocol error. */
  lemma {:induction false} NoRunFails(l: Link, acts: seq<(bool, Action)>)
    requires Inv(l)
    ensures Run(l, acts).Ok? && Inv(Run(l, acts).value)
    decreases acts
  {
    if acts != [] {
      if acts[0].0 {
        StepKeeps(l, acts[0].1);
      } else {
        StepKeeps(Flip(l), acts[0].1);
      }
      NoRunFails(Step(l, acts[0].0, acts[0].1).value, acts[1..]);
    }
  }

  lemma IdleIsGood()
    ensures Inv(IDLE)
  {
    forall id: nat
      ensures PairInv(Get(map[], id), Get(map[], id), Only([], false, id), Only([], true, id))
    {
    }
  }

  /** Protocol safety: from an idle link no run ends in an error. */
  lemma ProtocolIsSafe(acts: seq<(bool, Action)>)
    ensures Run(IDLE, acts).Ok?
  {
    IdleIsGood();
    NoRunFails(IDLE, acts);
  }

  /** Once both channels are empty the two ends hold the same open
      transactions: each one the initiator has started is open at the responder
      with mirrored directions, and the responder holds no other. */
  lemma QuietEndsAgree(acts: seq<(bool, Action)>)
    ensures var r := Run(IDLE, acts);
            r.Ok? &&
            (r.value.ab == [] && r.value.ba == [] ==> Mirrors(r.value.a, r.value.b) && Mirrors(r.value.b, r.value.a))
  {
    IdleIsGood();
    NoRunFails(IDLE, acts);
    var l := Run(IDLE, acts).value;
    if l.ab == [] && l.ba == [] {
      forall id: nat
        ensures MirrorsAt(Get(l.a.wr, id), Get(l.b.rd, id)) && MirrorsAt(Get(l.b.wr, id), Get(l.a.rd, id))
      {
        if id > 0 {
          assert BothInv(l, id);
        }
      }
    }
  }

  predicate MirrorsAt(x: Option<Txn>, y: Option<Txn>) {
    if x.None? || !x.value.txCreate then y.None?
    else y.Some? &&
         x.value.txDelete == y.value.rxDelete && x.value.txCreate == y.value.rxCreate &&
         x.value.rxDelete == y.value.txDelete && x.value.rxCreate == y.value.txCreate
  }

  ghost predicate Mirrors(x: Endpoint, y: Endpoint) {
    forall id: nat :: MirrorsAt(Get(x.wr, id), Get(y.rd, id))
  }

  /** A message inside a transaction always finds that transaction: open at its
      receiver, started in that direction and not yet ended in it. */
  lemma EveryMessageIsExpected(l: Link)
    requires Inv(l) && l.ba != [] && l.ba[0].id > 0
    ensures var m := l.ba[0];
            var s := Get(if m.rev then l.a.wr else l.a.rd, m.id);
            if m.create && !m.rev then s.None?
            else s.Some? && !s.value.rxDelete && s.value.rxCreate == !m.create
  {
    var m := l.ba[0];
    assert BothInv(l, m.id);
    assert Only(l.ba, m.rev, m.id)[0] == m;
    if m.rev {
      InitiatorReads(Get(l.a.wr, m.id), Get(l.b.rd, m.id), Only(l.ab, false, m.id), Only(l.ba, true, m.id));
    } else {
      ResponderReads(Get(l.b.wr, m.id), Get(l.a.rd, m.id), Only(l.ba, false, m.id), Only(l.ab, true, m.id));
    }
  }

  /** A state leaves a tree exactly when its second DELETE is seen, it is the
      tree it was put into, and nothing else in either tree changes. */
  lemma LeavesOnSecondDelete(l: Link, act: Action, id: nat, own: bool)
    requires Inv(l) && id > 0 && id in (if own then l.a.wr else l.a.rd)
    ensures StepA(l, act).Ok?
    ensures var s := if own then l.a.wr[id] else l.a.rd[id];
            var l' := StepA(l, act).value;
            var sends := act == Send(own, id, true) && !s.txDelete;
            var takes := act == Take && l.ba != [] && l.ba[0].id == id && l.ba[0].rev == own && l.ba[0].delete;
            id !in (if own then l'.a.wr else l'.a.rd) <==> (sends && s.rxDelete) || (takes && s.txDelete)
  {
    StepKeeps(l, act);
    assert BothInv(l, id);
    hide PairInv, Only, Inv;
    match act
    case Alloc(_) =>
    case OneOff(_) =>
    case Send(o, k, delete) =>
      if k in (if o then l.a.wr else l.a.rd) {
        WriteLeaves(l, o, k, delete, id, own);
      }
    case Take =>
      if l.ba != [] {
        TakeLeaves(l, id, own);
      }
  }

  lemma WriteLeaves(l: Link, o: bool, k: nat, delete: bool, id: nat, own: bool)
    requires Inv(l) && id > 0 && id in (if own then l.a.wr else l.a.rd)
    requires k in (if o then l.a.wr else l.a.rd)
    ensures var s := if own then l.a.wr[id] else l.a.rd[id];
            var e := Write(l.a, o, k, delete).0;
            id !in (if own then e.wr else e.rd) <==> o == own && k == id && delete && !s.txDelete && s.rxDelete
  {
    assert k > 0 && BothInv(l, k);
    WriteChanges(l.a, o, k, delete);
    hide PairInv, Only, Inv, Write;
    var t := if o then l.a.wr[k] else l.a.rd[k];
    if !t.txDelete {
      ChangedAt(l.a, Write(l.a, o, k, delete).0, o, k, Sent(t, delete), id);
    }
  }

  lemma TakeLeaves(l: Link, id: nat, own: bool)
    requires Inv(l) && id > 0 && id in (if own then l.a.wr else l.a.rd) && l.ba != []
    ensures Receive(l.a, l.ba[0]).Ok?
    ensures var s := if own then l.a.wr[id] else l.a.rd[id];
            var m := l.ba[0];
            var e := Receive(l.a, m).value;
            id !in (if own then e.wr else e.rd) <==> m.id == id && m.rev == own && m.delete && s.txDelete
  {
    var m := l.ba[0];
    if m.id == 0 {
      assert Receive(l.a, m) == Ok(l.a);
    } else {
      EveryMessageIsExpected(l);
      assert BothInv(l, m.id);
      ReceiveChanges(l.a, m);
      hide PairInv, Only, Inv, Receive;
      var s := TakeChanges(l);
      ChangedAt(l.a, Receive(l.a, m).value, m.rev, m.id, s, id);
    }
  }

  // ----- the endpoint, updated in place -----

  class Iocom {
    var rd: Tree
    var wr: Tree
    var txq: seq<Msg>

    constructor ()
      ensures rd == map[] && wr == map[] && txq == []
    {
      rd, wr, txq := map[], map[], [];
    }

    function View(): Endpoint
      reads this
    {
      Endpoint(rd, wr)
    }

    /** `dmsg_msg_alloc` with CREATE: a new state under a msgid not in use. */
    method MsgAlloc(id: nat)
      requires id > 0 && id !in wr
      modifies this
      ensures View() == old(View()).(wr := old(wr)[id := ALLOCATED]) && txq == old(txq)
    {
      wr := wr[id := ALLOCATED];
    }

    method MsgWrite(own: bool, id: nat, delete: bool)
      requires id in (if own then wr else rd)
      modifies this
      ensures var (e, m) := Write(old(View()), own, id, delete);
              View() == e && txq == old(txq) + (if m.Some? then [m.value] else [])
    {
      var s := if own then wr[id] else rd[id];
      if s.txDelete {
        return;
      }
      var m := Msg(id, !s.txCreate, delete, s.txReply, !own);
      var closing := delete && s.rxDelete;
      s := s.(txCreate := true, txDelete := delete);
      if own {
        wr := wr[id := s];
      } else {
        rd := rd[id := s];
      }
      if closing {
        if s.txReply {
          rd := rd - {id};
        } else {
          wr := wr - {id};
        }
      }
      txq := txq + [m];
    }

    /** `dmsg_state_msgrx`; an endpoint is left alone by a message it refuses. */
    method MsgRx(m: Msg) returns (r: Option<Error>)
      modifies this
      ensures txq == old(txq)
      ensures var spec := Receive(old(View()), m);
              if spec.Err? then r == Some(spec.error) && View() == old(View())
              else r == None && View() == spec.value
    {
      var found := Get(if m.rev then wr else rd, m.id);
      var own := m.rev;
      var s;
      if m.create && !m.reply {
        if found.Some? {
          return Some(Duplicate);
        }
        s := Txn(false, false, true, true, false, false);
        own := false;
      } else if m.create {
        if found.None? {
          return Some(NoState);
        }
        if !found.value.rxReply {
          return Some(ReplyMismatch);
        }
        s := found.value.(rxCreate := true, rxDelete := false);
      } else if m.delete {
        if found.None? {
          return Some(MissingState);
        }
        if !found.value.rxCreate {
          return Some(ReusedState);
        }
        s := found.value;
      } else {
        return None;
      }
      if m.delete {
        if s.rxDelete {
          return Some(DoubleDelete);
        }
        if s.txDelete && (s.rxReply != m.reply || s.rxReply != own) {
          return Some(WrongTree);
        }
        s := s.(rxDelete := true);
      }
      if own {
        wr := wr[m.id := s];
      } else {
        rd := rd[m.id := s];
      }
      if m.delete && s.txDelete {
        if s.rxReply {
          wr := wr - {m.id};
        } else {
          rd := rd - {m.id};
        }
      }
      r := None;
    }
  }
}
