/** Framing of mirror records on a pipe: one reader takes as many records as fit
    its buffer, the other takes one, and both share a header read too early. */
module MirrorFraming {
  import opened Common

  const HEAD: nat := 16
  const ALIGN: nat := 8
  const SIGNATURE: Word := 0x4dd97272
  /** Offset of the data length in a record for the B-Tree, and where its data begins. */
  const DATA_LEN: nat := 72
  const REC_SIZE: nat := 80
  /** Record types the mirror-write ioctl takes; all others are for userland. */
  const IOCTL_TYPES: set<nat> := {1, 2, 5, 6}

  /** The CRC, the limit on record sizes and, for a record too short to have a data
      length, what is found where it should be. */
  datatype Codec = Codec(crc32: seq<Byte> -> Word, maxSize: nat, stale: int)

  function DoAlign(n: nat): nat {
    (n + ALIGN - 1) / ALIGN * ALIGN
  }

  /** The same in 32-bit arithmetic. */
  function DoAlign32(n: Word): nat {
    (n + ALIGN - 1) % WORDS / ALIGN * ALIGN
  }

  predicate Signed(head: seq<Byte>) {
    |head| >= HEAD && Get32(head, 0) == SIGNATURE
  }

  function SizeOf(head: seq<Byte>): Word
    requires |head| >= HEAD
  {
    Get32(head, 8)
  }

  function KindOf(head: seq<Byte>): Word
    requires |head| >= HEAD
  {
    Get32(head, 12)
  }

  /** `hammer_crc_test_mrec_head`: the CRC is that of everything behind it. */
  predicate CrcOk(c: Codec, w: seq<Byte>) {
    |w| >= HEAD && 8 <= SizeOf(w) <= |w| && Get32(w, 4) == c.crc32(w[8..SizeOf(w)])
  }

  function DataLen(c: Codec, w: seq<Byte>): int {
    if |w| < DATA_LEN + 4 then c.stale
    else
      var x: int := Get32(w, DATA_LEN);
      if x < WORDS / 2 then x else x - WORDS
  }

  /** The data of a record for the B-Tree lies inside the record; the sum is taken
      in unsigned 64-bit arithmetic. */
  predicate LengthOk(c: Codec, w: seq<Byte>) {
    |w| >= HEAD &&
    (KindOf(w) % 256 == 1 && KindOf(w) < WORDS / 2 ==> 0 <= DataLen(c, w) + REC_SIZE <= SizeOf(w))
  }

  // ----- the writer -----

  /** A record to be written: its type and what follows the header. */
  datatype Mrec = Mrec(kind: Word, body: seq<Byte>)

  function Header(c: Codec, r: Mrec): (h: seq<Byte>)
    ensures |h| == HEAD
  {
    var tail := Put32((HEAD + |r.body|) % WORDS) + Put32(r.kind);
    Put32(SIGNATURE) + Put32(c.crc32(tail + r.body)) + tail
  }

  function Zeros(n: nat): seq<Byte> {
    seq(n, _ => 0)
  }

  /** What `write_mrecord` puts on the pipe, padding included. */
  function Packed(c: Codec, r: Mrec): seq<Byte> {
    Header(c, r) + r.body + Zeros(DoAlign(HEAD + |r.body|) - (HEAD + |r.body|))
  }

  /** Records the readers can be given: of a type, not too big, and with their data inside. */
  predicate Fine(c: Codec, r: Mrec) {
    r.kind != 0 && HEAD + |r.body| <= c.maxSize < WORDS - ALIGN && LengthOk(c, Packed(c, r))
  }

  /** What the readers rely on. */
  predicate Written(c: Codec, w: seq<Byte>) {
    |w| >= HEAD && Signed(w[..HEAD]) && HEAD <= SizeOf(w[..HEAD]) <= c.maxSize < WORDS - ALIGN &&
    |w| == DoAlign(SizeOf(w[..HEAD])) && KindOf(w[..HEAD]) != 0 && CrcOk(c, w) && LengthOk(c, w)
  }

  lemma AlignUp(n: nat)
    ensures n <= DoAlign(n) < n + ALIGN
  {
  }

  /** Where the words of a header are, whatever follows. */
  lemma Layout(a: seq<Byte>, b: seq<Byte>, c: seq<Byte>, d: seq<Byte>, rest: seq<Byte>)
    requires |a| == |b| == |c| == |d| == 4
    ensures var w := a + b + (c + d) + rest;
            w[0..4] == a && w[4..8] == b && w[8..12] == c && w[12..16] == d
  {
    var w := a + b + (c + d) + rest;
    assert w[..16] == a + b + (c + d);
    assert w[..8] == a + b && w[8..16] == c + d;
    assert w[8..16][..4] == w[8..12] && w[8..16][4..] == w[12..16];
    assert w[..8][..4] == w[0..4] && w[..8][4..] == w[4..8];
  }

  /** The header fields of a packed record are what was put there. */
  lemma PackedFields(c: Codec, r: Mrec)
    requires HEAD + |r.body| < WORDS
    ensures var w, h := Packed(c, r), Packed(c, r)[..HEAD];
            Signed(h) && SizeOf(h) == SizeOf(w) == HEAD + |r.body| && KindOf(h) == KindOf(w) == r.kind &&
            |w| == DoAlign(HEAD + |r.body|) && CrcOk(c, w)
  {
    hide Put32, Get32, DoAlign;
    var w, n := Packed(c, r), HEAD + |r.body|;
    var h := w[..HEAD];
    var tail := Put32(n) + Put32(r.kind);
    var crc := c.crc32(tail + r.body);
    var sig, mid := Put32(SIGNATURE), Put32(crc);
    AlignUp(n);
    var pad := Zeros(DoAlign(n) - n);
    Layout(sig, mid, Put32(n), Put32(r.kind), []);
    Layout(sig, mid, Put32(n), Put32(r.kind), r.body + pad);
    assert sig + mid + tail + [] == sig + mid + tail == Header(c, r);
    assert w == sig + mid + tail + (r.body + pad);
    assert h == Header(c, r);
    GetPut(h, 0, SIGNATURE);
    GetPut(h, 8, n);
    GetPut(h, 12, r.kind);
    GetPut(w, 4, crc);
    GetPut(w, 8, n);
    GetPut(w, 12, r.kind);
    assert w[8..n] == tail + r.body;
  }

  /** So a packed record is one the readers accept. */
  lemma PackedIsWritten(c: Codec, r: Mrec)
    requires Fine(c, r)
    ensures Written(c, Packed(c, r))
  {
    hide Packed, CrcOk, LengthOk, Get32;
    PackedFields(c, r);
  }

  method Store(a: array<Byte>, at: nat, s: seq<Byte>)
    requires at + |s| <= a.Length
    modifies a
    ensures a[..] == Patch(old(a[..]), at, s)
  {
    ghost var t := a[..];
    var i := 0;
    while i < |s|
      invariant 0 <= i <= |s|
      invariant forall k | 0 <= k < a.Length :: a[k] == if at <= k < at + i then s[k - at] else t[k]
    {
      a[at + i] := s[i];
      i := i + 1;
    }
    assert forall k | 0 <= k < a.Length :: a[..][k] == Patch(t, at, s)[k];
  }

  /** The steps of making a header: cleared, signature, type and size, then the CRC. */
  lemma PatchHeader(t: seq<Byte>, bytes: nat, sig: seq<Byte>, kind: seq<Byte>, size: seq<Byte>, crc: seq<Byte>)
    requires HEAD <= bytes <= |t| && |sig| == |kind| == |size| == |crc| == 4
    ensures var p := Patch(Patch(Patch(Patch(t, 0, Zeros(HEAD)), 0, sig), 12, kind), 8, size);
            p[8..bytes] == size + kind + t[HEAD..bytes] &&
            Patch(p, 4, crc) == sig + crc + (size + kind) + t[HEAD..]
  {
    var p1 := Patch(t, 0, Zeros(HEAD));
    assert p1 == Zeros(HEAD) + t[HEAD..];
    var p2 := Patch(p1, 0, sig);
    assert p2 == sig + Zeros(12) + t[HEAD..];
    var p3 := Patch(p2, 12, kind);
    assert p3 == sig + Zeros(8) + kind + t[HEAD..];
    var p := Patch(p3, 8, size);
    assert p == sig + Zeros(4) + size + kind + t[HEAD..];
    assert p[8..bytes] == size + kind + t[HEAD..bytes];
  }

  /** `write_mrecord`: the header is made in place, then the record and its padding are written. */
  method WriteMrecord(c: Codec, kind: Word, mrec: array<Byte>, bytes: nat, pipe: seq<Byte>) returns (pipe': seq<Byte>)
    requires HEAD <= bytes <= mrec.Length && bytes < WORDS
    modifies mrec
    ensures pipe' == pipe + Packed(c, Mrec(kind, old(mrec[HEAD..bytes])))
    ensures mrec[..] == Header(c, Mrec(kind, old(mrec[HEAD..bytes]))) + old(mrec[HEAD..])
  {
    hide Put32, Patch;
    ghost var t := mrec[..];
    Store(mrec, 0, Zeros(HEAD));
    Store(mrec, 0, Put32(SIGNATURE));
    Store(mrec, 12, Put32(kind));
    Store(mrec, 8, Put32(bytes));
    var crc := c.crc32(mrec[8..bytes]);
    PatchHeader(t, bytes, Put32(SIGNATURE), Put32(kind), Put32(bytes), Put32(crc));
    assert mrec[..][8..bytes] == mrec[8..bytes];
    Store(mrec, 4, Put32(crc));
    PipeOut(c, kind, t, bytes, mrec[..], pipe);
    assert mrec[..][..bytes] == mrec[..bytes];
    pipe' := pipe + mrec[..bytes];
    pipe' := pipe' + Zeros(DoAlign(bytes) - bytes);
  }

  lemma PipeOut(c: Codec, kind: Word, t: seq<Byte>, bytes: nat, out: seq<Byte>, pipe: seq<Byte>)
    requires HEAD <= bytes <= |t| && bytes < WORDS && out == Header(c, Mrec(kind, t[HEAD..bytes])) + t[HEAD..]
    ensures pipe + out[..bytes] + Zeros(DoAlign(bytes) - bytes) == pipe + Packed(c, Mrec(kind, t[HEAD..bytes]))
  {
    hide Header;
    var r := Mrec(kind, t[HEAD..bytes]);
    assert HEAD + |r.body| == bytes;
    assert out[..bytes] == Header(c, r) + r.body;
  }

  // ----- the readers -----

  predicate AllWritten(c: Codec, ws: seq<seq<Byte>>) {
    forall i | 0 <= i < |ws| :: Written(c, ws[i])
  }

  predicate ForIoctl(w: seq<Byte>) {
    |w| >= HEAD && KindOf(w[..HEAD]) % 256 in IOCTL_TYPES
  }

  /** How many leading records go into `size` bytes: they must fit and be of a type
      for the ioctl, and a new one is begun only with room for a header. */
  function Fit(ws: seq<seq<Byte>>, size: nat): (n: nat)
    ensures n <= |ws|
    decreases |ws|
  {
    if ws == [] || size < HEAD || |ws[0]| > size || !ForIoctl(ws[0]) then 0
    else 1 + Fit(ws[1..], size - |ws[0]|)
  }

  datatype Error = ShortRead | BadSignature | BadSize | BadCrc | BadLength

  /** The front of a stream, to the reader of one record. */
  datatype Parsed = End | Bad(error: Error) | Record(w: seq<Byte>, rest: seq<Byte>)

  function Next(c: Codec, s: seq<Byte>): Parsed {
    if s == [] then End
    else if |s| < HEAD then Bad(ShortRead)
    else if !Signed(s[..HEAD]) then Bad(BadSignature)
    else
      var n := DoAlign32(SizeOf(s[..HEAD]));
      if n < HEAD then Bad(BadSize)
      else if |s| < n then Bad(ShortRead)
      else if !CrcOk(c, s[..n]) then Bad(BadCrc)
      else Record(s[..n], s[n..])
  }

  /** What the reader of many records takes from a stream. */
  datatype Taken = Taken(bytes: seq<Byte>, rest: seq<Byte>, error: Option<Error>)

  /** The header at the front: taken as it is, too big for now or not for the
      ioctl, or wrong. */
  datatype Verdict = Whole(n: nat) | Later | Wrong(error: Error)

  function Judge(c: Codec, head: seq<Byte>, room: nat): (v: Verdict)
    ensures v.Whole? ==> HEAD <= v.n <= room
  {
    if !Signed(head) then Wrong(BadSignature)
    else if SizeOf(head) < HEAD || SizeOf(head) > c.maxSize then Wrong(BadSize)
    else
      var n := DoAlign(SizeOf(head));
      if room < n || KindOf(head) % 256 !in IOCTL_TYPES then Later else Whole(n)
  }

  datatype Bite = Stop | Err(error: Error) | One(w: seq<Byte>)

  function TakeBite(c: Codec, s: seq<Byte>, room: nat): (b: Bite)
    ensures b.One? ==> HEAD <= |b.w| <= room && |b.w| <= |s| && b.w == s[..|b.w|]
  {
    if s == [] then Stop
    else if |s| < HEAD then Err(ShortRead)
    else match Judge(c, s[..HEAD], room)
      case Wrong(e) => Err(e)
      case Later => Stop
      case Whole(n) =>
        if |s| < n then Err(ShortRead)
        else if !CrcOk(c, s[..n]) then Err(BadCrc)
        else if !LengthOk(c, s[..n]) then Err(BadLength)
        else One(s[..n])
  }

  function Take(c: Codec, s: seq<Byte>, room: nat): Taken
    decreases room
  {
    if room < HEAD then Taken([], s, None)
    else match TakeBite(c, s, room)
      case Stop => Taken([], s, None)
      case Err(e) => Taken([], s, Some(e))
      case One(w) =>
        var t := Take(c, s[|w|..], room - |w|);
        Taken(w + t.bytes, t.rest, t.error)
  }

  lemma TakeUnfolds(c: Codec, s: seq<Byte>, room: nat)
    requires room >= HEAD
    ensures Take(c, s, room) ==
              match TakeBite(c, s, room)
              case Stop => Taken([], s, None)
              case Err(e) => Taken([], s, Some(e))
              case One(w) =>
                var t := Take(c, s[|w|..], room - |w|);
                Taken(w + t.bytes, t.rest, t.error)
  {
    hide TakeBite;
  }

  lemma TakeNone(c: Codec, s: seq<Byte>, room: nat)
    requires room < HEAD
    ensures Take(c, s, room) == Taken([], s, None)
  {
  }

  lemma Joined(a: seq<Byte>, b: seq<Byte>, x: seq<Byte>)
    ensures a + (b + x) == a + b + x
  {
  }

  lemma WireAppend(ws: seq<seq<Byte>>, w: seq<Byte>)
    ensures WireOf(ws + [w]) == WireOf(ws) + w
  {
    WireJoin(ws, [w]);
    assert [w][1..] == [];
    assert w + [] == w;
  }

  /** Reads until `n` bytes are there or the pipe has ended, whatever the pieces. */
  method ReadFull(n: nat, input: seq<Byte>, piece: nat -> nat) returns (got: seq<Byte>, rest: seq<Byte>)
    requires forall i: nat :: piece(i) > 0
    ensures got + rest == input && |got| <= n && (|got| < n ==> rest == [])
  {
    got, rest := [], input;
    var k := 0;
    while |got| < n
      invariant got + rest == input && |got| <= n
      decreases n - |got|
    {
      if rest == [] {
        return;
      }
      var i := piece(k);
      i := if i < n - |got| then i else n - |got|;
      i := if i < |rest| then i else |rest|;
      assert got + rest == (got + rest[..i]) + rest[i..];
      got, rest := got + rest[..i], rest[i..];
      k := k + 1;
    }
  }

  // ----- what was written is what is read -----

  lemma SmallAlign(n: Word)
    requires n < WORDS - ALIGN
    ensures DoAlign32(n) == DoAlign(n) >= n
  {
  }

  lemma FirstOnWire(c: Codec, ws: seq<seq<Byte>>)
    requires AllWritten(c, ws) && ws != []
    ensures var s, n := WireOf(ws), |ws[0]|;
            Written(c, ws[0]) && n <= |s| && s[..HEAD] == ws[0][..HEAD] && s[..n] == ws[0] && s[n..] == WireOf(ws[1..])
  {
    assert Written(c, ws[0]);
    hide Written;
  }

  lemma ReadsOne(c: Codec, ws: seq<seq<Byte>>)
    requires AllWritten(c, ws)
    ensures ws == [] ==> Next(c, WireOf(ws)) == End
    ensures ws != [] ==> Next(c, WireOf(ws)) == Record(ws[0], WireOf(ws[1..]))
  {
    hide Get32, CrcOk, LengthOk, DoAlign, DoAlign32, WireOf;
    if ws == [] {
      EmptyWire();
    } else {
      FirstOnWire(c, ws);
      SmallAlign(SizeOf(ws[0][..HEAD]));
    }
  }

  lemma {:induction false} ReadsMany(c: Codec, ws: seq<seq<Byte>>, room: nat)
    requires AllWritten(c, ws)
    ensures var k := Fit(ws, room);
            Take(c, WireOf(ws), room) == Taken(WireOf(ws[..k]), WireOf(ws[k..]), None)
    decreases |ws|
  {
    hide Take, TakeBite, WireOf, Written;
    var k := Fit(ws, room);
    EmptyWire();
    if room < HEAD {
      TakeNone(c, WireOf(ws), room);
      assert ws[0..] == ws && ws[..0] == [];
    } else if ws == [] {
      TakeUnfolds(c, WireOf(ws), room);
      assert ws[k..] == ws && ws[..k] == [];
    } else {
      BiteOfWritten(c, ws, room);
      TakeUnfolds(c, WireOf(ws), room);
      if k > 0 {
        ReadsMany(c, ws[1..], room - |ws[0]|);
        assert ws[..k][1..] == ws[1..][..k - 1] && ws[1..][k - 1..] == ws[k..];
        FirstWire(ws[..k]);
      } else {
        assert ws[k..] == ws && ws[..k] == [];
      }
    }
  }

  lemma EmptyWire()
    ensures WireOf([]) == [] && forall c, room: nat :: TakeBite(c, [], room) == Stop
  {
  }

  lemma FirstWire(ws: seq<seq<Byte>>)
    requires ws != []
    ensures WireOf(ws) == ws[0] + WireOf(ws[1..])
  {
  }

  lemma BiteOfWritten(c: Codec, ws: seq<seq<Byte>>, room: nat)
    requires AllWritten(c, ws) && ws != []
    ensures TakeBite(c, WireOf(ws), room) == if |ws[0]| > room || !ForIoctl(ws[0]) then Stop else One(ws[0])
    ensures |ws[0]| <= |WireOf(ws)| && WireOf(ws)[|ws[0]|..] == WireOf(ws[1..])
  {
    hide Get32, CrcOk, LengthOk, DoAlign, WireOf;
    FirstOnWire(c, ws);
  }

  class Reader {
    var pickup: Option<seq<Byte>>

    ghost predicate Valid(c: Codec)
      reads this
    {
      pickup.Some? ==> |pickup.value| == HEAD && Signed(pickup.value)
    }

    /** The stream that has not been returned yet. */
    ghost function Unread(input: seq<Byte>): seq<Byte>
      reads this
    {
      if pickup.Some? then pickup.value + input else input
    }

    constructor ()
      ensures pickup == None
    {
      pickup := None;
    }

    /** Makes sure that the next header is at hand; false at the end of the stream. */
    method Pickup(c: Codec, input: seq<Byte>, piece: nat -> nat)
      returns (more: bool, error: Option<Error>, rest: seq<Byte>)
      requires Valid(c) && forall i: nat :: piece(i) > 0
      modifies this
      ensures more ==> Valid(c) && pickup.Some? && error == None && Unread(rest) == old(Unread(input))
      ensures !more && error == None ==> old(Unread(input)) == [] && pickup == None && rest == []
      ensures error.Some? ==> !more && old(Unread(input)) != [] &&
                              error.value == if |old(Unread(input))| < HEAD then ShortRead else BadSignature
      ensures error == Some(BadSignature) ==> !Signed(old(Unread(input))[..HEAD])
    {
      if pickup.Some? {
        return true, None, input;
      }
      var head;
      head, rest := ReadFull(HEAD, input, piece);
      if head == [] {
        return false, None, rest;
      }
      if |head| != HEAD {
        return false, Some(ShortRead), rest;
      }
      assert input[..HEAD] == head;
      if !Signed(head) {
        return false, Some(BadSignature), rest;
      }
      pickup := Some(head);
      return true, None, rest;
    }

    /** The rest of the record whose header is at hand. */
    method ReadBody(c: Codec, n: nat, input: seq<Byte>, piece: nat -> nat)
      returns (w: seq<Byte>, error: Option<Error>, rest: seq<Byte>)
      requires Valid(c) && pickup.Some? && n >= HEAD && forall i: nat :: piece(i) > 0
      modifies this
      ensures var s := old(Unread(input));
              error == if |s| < n then Some(ShortRead) else if !CrcOk(c, s[..n]) then Some(BadCrc) else None
      ensures error == None ==> pickup == None && w == old(Unread(input))[..n] && rest == old(Unread(input))[n..]
    {
      var head := pickup.value;
      var body;
      body, rest := ReadFull(n - HEAD, input, piece);
      ghost var s := head + input;
      assert s == head + body + rest;
      if |body| != n - HEAD {
        return [], Some(ShortRead), rest;
      }
      assert s[..n] == head + body && s[n..] == rest;
      pickup := None;
      if !CrcOk(c, head + body) {
        return [], Some(BadCrc), rest;
      }
      return head + body, None, rest;
    }

    /** One record for the buffer, if the next is for it. */
    method ReadBite(c: Codec, room: nat, input: seq<Byte>, piece: nat -> nat) returns (b: Bite, rest: seq<Byte>)
      requires Valid(c) && forall i: nat :: piece(i) > 0
      modifies this
      ensures b == TakeBite(c, old(Unread(input)), room)
      ensures b == Stop ==> Valid(c) && Unread(rest) == old(Unread(input))
      ensures b.One? ==> pickup == None && |b.w| <= |old(Unread(input))| && rest == old(Unread(input))[|b.w|..]
    {
      ghost var s := Unread(input);
      var more, error;
      more, error, rest := Pickup(c, input, piece);
      if error.Some? {
        return Err(error.value), rest;
      }
      if !more {
        return Stop, rest;
      }
      assert s[..HEAD] == pickup.value;
      var v := Judge(c, pickup.value, room);
      if v.Wrong? {
        return Err(v.error), rest;
      }
      if v.Later? {
        return Stop, rest;
      }
      var w;
      w, error, rest := ReadBody(c, v.n, rest, piece);
      if error.Some? {
        return Err(error.value), rest;
      }
      if !LengthOk(c, w) {
        return Err(BadLength), rest;
      }
      return One(w), rest;
    }

    /** `read_mrecords`: takes exactly what the stream and the room allow, for any
        stream; the header it stops at is kept. */
    method ReadMany(c: Codec, room: nat, input: seq<Byte>, piece: nat -> nat)
      returns (bytes: seq<Byte>, error: Option<Error>, rest: seq<Byte>)
      requires Valid(c) && forall i: nat :: piece(i) > 0
      modifies this
      ensures var t := Take(c, old(Unread(input)), room);
              error == t.error && (error == None ==> bytes == t.bytes && Valid(c) && Unread(rest) == t.rest)
    {
      hide Take, TakeBite;
      bytes, rest, error := [], input, None;
      ghost var whole := Take(c, Unread(input), room);
      assert [] + whole.bytes == whole.bytes;
      while room - |bytes| >= HEAD
        invariant |bytes| <= room && Valid(c) && error == None
        invariant var t := Take(c, Unread(rest), room - |bytes|);
                  whole == Taken(bytes + t.bytes, t.rest, t.error)
        decreases room - |bytes|
      {
        ghost var all := Unread(rest);
        TakeUnfolds(c, all, room - |bytes|);
        var b;
        b, rest := ReadBite(c, room - |bytes|, rest, piece);
        match b
        case Err(e) =>
          return bytes, Some(e), rest;
        case Stop =>
          return;
        case One(w) =>
          Joined(bytes, w, Take(c, rest, room - |bytes| - |w|).bytes);
          bytes := bytes + w;
      }
      TakeNone(c, Unread(rest), room - |bytes|);
    }

    /** `read_mrecord`: one record of any type.  A header of type 0 that was read
        before is not seen; any other is where it begins. */
    method ReadOne(c: Codec, input: seq<Byte>, piece: nat -> nat) returns (r: Parsed, rest: seq<Byte>)
      requires Valid(c) && forall i: nat :: piece(i) > 0
      modifies this
      ensures var s := if old(pickup).Some? && KindOf(old(pickup).value) == 0 then input else old(Unread(input));
              match Next(c, s)
              case End => r == End
              case Bad(e) => r == Bad(e)
              case Record(w, t) => r.Record? && r.w == w && rest == t &&
                                   (s == old(Unread(input)) ==> Valid(c) && Unread(rest) == t)
    {
      var head;
      if pickup.Some? && KindOf(pickup.value) != 0 {
        head, rest := pickup.value, input;
        pickup := None;
      } else {
        head, rest := ReadFull(HEAD, input, piece);
        if head == [] {
          return End, rest;
        }
        if |head| != HEAD {
          return Bad(ShortRead), rest;
        }
      }
      ghost var s := head + rest;
      assert s[..HEAD] == head;
      if !Signed(head) {
        return Bad(BadSignature), rest;
      }
      var n := DoAlign32(SizeOf(head));
      if n < HEAD {
        return Bad(BadSize), rest;
      }
      var body;
      body, rest := ReadFull(n - HEAD, rest, piece);
      assert s == head + body + rest;
      if |body| != n - HEAD {
        return Bad(ShortRead), rest;
      }
      assert s[..n] == head + body && s[n..] == rest;
      if !CrcOk(c, head + body) {
        return Bad(BadCrc), rest;
      }
      r := Record(head + body, rest);
    }
  }

  /** A call: many records into so much room, or one. */
  datatype Call = Many(room: nat) | Single

  /** How many records a call takes. */
  function Takes(ws: seq<seq<Byte>>, call: Call): (k: nat)
    ensures k <= |ws|
  {
    match call
    case Single => if ws == [] then 0 else 1
    case Many(room) => Fit(ws, room)
  }

  /** How many records a series of calls takes, and whether one of them meets the end. */
  function Consumed(ws: seq<seq<Byte>>, calls: seq<Call>): (n: nat)
    ensures n <= |ws|
    decreases |calls|
  {
    if calls == [] || (calls[0] == Single && ws == []) then 0
    else
      var k := Takes(ws, calls[0]);
      k + Consumed(ws[k..], calls[1..])
  }

  predicate Ends(ws: seq<seq<Byte>>, calls: seq<Call>)
    decreases |calls|
  {
    calls != [] && ((calls[0] == Single && ws == []) || Ends(ws[Takes(ws, calls[0])..], calls[1..]))
  }

  function Singles(calls: seq<Call>): nat {
    if calls == [] then 0 else (if calls[0].Single? then 1 else 0) + Singles(calls[1..])
  }

  /** The end is met once there are more calls for one record than records, and then
      every record has been taken. */
  lemma {:induction false} EnoughSingles(ws: seq<seq<Byte>>, calls: seq<Call>)
    ensures Singles(calls) > |ws| ==> Ends(ws, calls)
    ensures Ends(ws, calls) ==> Consumed(ws, calls) == |ws|
    decreases |calls|
  {
    if calls != [] {
      match calls[0]
      case Single =>
        if ws != [] {
          EnoughSingles(ws[1..], calls[1..]);
        }
      case Many(room) =>
        EnoughSingles(ws[Fit(ws, room)..], calls[1..]);
    }
  }

  /** A call for many records takes the next one if it is for the ioctl and fits. */
  lemma TakesNext(ws: seq<seq<Byte>>, room: nat)
    requires ws != [] && ForIoctl(ws[0]) && |ws[0]| <= room
    ensures Fit(ws, room) > 0
  {
  }

  function Packs(c: Codec, ms: seq<Mrec>): (ws: seq<seq<Byte>>)
    ensures |ws| == |ms| && forall i | 0 <= i < |ms| :: ws[i] == Packed(c, ms[i])
  {
    if ms == [] then [] else [Packed(c, ms[0])] + Packs(c, ms[1..])
  }

  lemma PacksWritten(c: Codec, ms: seq<Mrec>)
    requires forall i | 0 <= i < |ms| :: Fine(c, ms[i])
    ensures AllWritten(c, Packs(c, ms))
  {
    hide Fine, Written, Packed;
    var ws := Packs(c, ms);
    forall i | 0 <= i < |ws|
      ensures Written(c, ws[i])
    {
      assert Fine(c, ms[i]);
      PackedIsWritten(c, ms[i]);
    }
  }

  /** Writes records one after the other. */
  method Send(c: Codec, ms: seq<Mrec>) returns (pipe: seq<Byte>)
    requires forall i | 0 <= i < |ms| :: Fine(c, ms[i])
    ensures pipe == WireOf(Packs(c, ms))
  {
    hide Packed, WireOf, LengthOk;
    EmptyWire();
    pipe := [];
    ghost var ws := Packs(c, ms);
    assert ws[..0] == [];
    for i := 0 to |ms|
      invariant pipe == WireOf(ws[..i])
    {
      var r := ms[i];
      assert Fine(c, r);
      var bytes := HEAD + |r.body|;
      var mrec := new Byte[bytes];
      Store(mrec, HEAD, r.body);
      StoredBody(mrec[..], r.body);
      pipe := WriteMrecord(c, r.kind, mrec, bytes, pipe);
      assert ws[..i + 1] == ws[..i] + [ws[i]];
      WireAppend(ws[..i], ws[i]);
    }
    assert ws[..|ms|] == ws;
  }

  lemma StoredBody(t: seq<Byte>, body: seq<Byte>)
    requires |t| == HEAD + |body| && exists u: seq<Byte> :: |u| == |t| && t == Patch(u, HEAD, body)
    ensures t[HEAD..] == body
  {
  }

  /** One record, with `left` still to come. */
  method OneCall(rx: Reader, c: Codec, ghost left: seq<seq<Byte>>, input: seq<Byte>, piece: nat -> nat)
    returns (r: Parsed, rest: seq<Byte>)
    requires AllWritten(c, left) && At(c, rx, left, input) && forall i: nat :: piece(i) > 0
    modifies rx
    ensures if left == [] then r == End else r.Record? && r.w == left[0] && At(c, rx, left[1..], rest)
  {
    hide WireOf, Next, Written;
    ReadsOne(c, left);
    r, rest := rx.ReadOne(c, input, piece);
    if left != [] {
      KindKept(c, left, 1, rx.pickup, rest);
    }
  }

  /** Many records, with `left` still to come. */
  method ManyCall(rx: Reader, c: Codec, room: nat, ghost left: seq<seq<Byte>>, input: seq<Byte>, piece: nat -> nat)
    returns (bytes: seq<Byte>, rest: seq<Byte>)
    requires AllWritten(c, left) && At(c, rx, left, input) && forall i: nat :: piece(i) > 0
    modifies rx
    ensures var k := Fit(left, room); bytes == WireOf(left[..k]) && At(c, rx, left[k..], rest)
  {
    hide WireOf, Take, Written, Fit;
    ReadsMany(c, left, room);
    var error;
    bytes, error, rest := rx.ReadMany(c, room, input, piece);
    KindKept(c, left, Fit(left, room), rx.pickup, rest);
  }

  /** The reader is between records, with `left` still to come. */
  ghost predicate At(c: Codec, rx: Reader, left: seq<seq<Byte>>, rest: seq<Byte>)
    reads rx
  {
    rx.Valid(c) && rx.Unread(rest) == WireOf(left) && (rx.pickup.Some? ==> KindOf(rx.pickup.value) != 0)
  }

  lemma PutTogether(ws: seq<seq<Byte>>, n: nat, k: nat)
    requires n + k <= |ws|
    ensures WireOf(ws[..n]) + WireOf(ws[n..][..k]) == WireOf(ws[..n + k]) && ws[n..][k..] == ws[n + k..]
  {
    hide WireOf;
    assert ws[..n + k] == ws[..n] + ws[n..][..k];
    WireJoin(ws[..n], ws[n..][..k]);
  }

  lemma LeftWritten(c: Codec, ws: seq<seq<Byte>>, n: nat)
    requires AllWritten(c, ws) && n <= |ws|
    ensures AllWritten(c, ws[n..])
  {
    hide Written;
  }

  /** One call of either kind; `over` tells that it met the end. */
  method Serve(rx: Reader, c: Codec, call: Call, ghost left: seq<seq<Byte>>, input: seq<Byte>, piece: nat -> nat)
    returns (bytes: seq<Byte>, over: bool, rest: seq<Byte>)
    requires AllWritten(c, left) && At(c, rx, left, input) && forall i: nat :: piece(i) > 0
    modifies rx
    ensures over == (call == Single && left == [])
    ensures bytes == WireOf(left[..Takes(left, call)])
    ensures !over ==> At(c, rx, left[Takes(left, call)..], rest)
  {
    hide WireOf, At, Fit, AllWritten;
    if call == Single {
      var r;
      r, rest := OneCall(rx, c, left, input, piece);
      over := !r.Record?;
      bytes := if over then [] else r.w;
      if left == [] {
        EmptyWire();
      } else {
        OneWire(left);
      }
    } else {
      bytes, rest := ManyCall(rx, c, call.room, left, input, piece);
      over := false;
    }
  }

  method Start(c: Codec, ms: seq<Mrec>) returns (rx: Reader, rest: seq<Byte>)
    requires forall i | 0 <= i < |ms| :: Fine(c, ms[i])
    ensures fresh(rx) && At(c, rx, Packs(c, ms), rest)
  {
    hide WireOf, Packs, Fine;
    rx := new Reader();
    rest := Send(c, ms);
  }

  /** Any mix of calls, on any pieces, gives the records written back in order, none
      lost and none twice: as many as the calls ask for. */
  method Session(c: Codec, ms: seq<Mrec>, calls: seq<Call>, piece: nat -> nat)
    returns (got: seq<Byte>, ended: bool)
    requires (forall i | 0 <= i < |ms| :: Fine(c, ms[i])) && forall i: nat :: piece(i) > 0
    ensures var ws := Packs(c, ms); got == WireOf(ws[..Consumed(ws, calls)]) && ended == Ends(ws, calls)
  {
    hide WireOf, AllWritten, Fine, Packs, Consumed, Ends, At, Takes;
    var rx, rest := Start(c, ms);
    PacksWritten(c, ms);
    EmptyWire();
    ghost var ws := Packs(c, ms);
    ghost var n: nat := 0;
    got, ended := [], false;
    var i := 0;
    assert ws[..0] == [] && ws[0..] == ws && calls[0..] == calls;
    while i < |calls|
      invariant 0 <= i <= |calls| && n <= |ws| && got == WireOf(ws[..n]) && fresh(rx) && At(c, rx, ws[n..], rest)
      invariant !ended && Consumed(ws, calls) == n + Consumed(ws[n..], calls[i..])
      invariant Ends(ws, calls) == Ends(ws[n..], calls[i..])
    {
      ghost var left, k := ws[n..], Takes(ws[n..], calls[i]);
      LeftWritten(c, ws, n);
      CallTaken(left, calls, i);
      PutTogether(ws, n, k);
      var bytes;
      bytes, ended, rest := Serve(rx, c, calls[i], left, rest, piece);
      got, n := got + bytes, n + k;
      if ended {
        return;
      }
      i := i + 1;
    }
    NoCalls(ws[n..], calls[|calls|..]);
  }

  lemma OneWire(ws: seq<seq<Byte>>)
    requires ws != []
    ensures WireOf(ws[..1]) == ws[0]
  {
    var one := ws[..1];
    assert one[1..] == [] && one[0] == ws[0];
    assert WireOf(one) == one[0] + WireOf(one[1..]);
  }

  lemma NoCalls(ws: seq<seq<Byte>>, calls: seq<Call>)
    requires calls == []
    ensures Consumed(ws, calls) == 0 && !Ends(ws, calls)
  {
  }

  lemma CallTaken(ws: seq<seq<Byte>>, calls: seq<Call>, i: nat)
    requires i < |calls|
    ensures var k := Takes(ws, calls[i]);
            if calls[i] == Single && ws == [] then k == 0 && Consumed(ws, calls[i..]) == 0 && Ends(ws, calls[i..])
            else Consumed(ws, calls[i..]) == k + Consumed(ws[k..], calls[i + 1..]) &&
                 Ends(ws, calls[i..]) == Ends(ws[k..], calls[i + 1..])
  {
    hide Fit;
    assert calls[i..][1..] == calls[i + 1..];
  }

  /** A header that is kept is the one of the next record. */
  lemma KindKept(c: Codec, ws: seq<seq<Byte>>, k: nat, pickup: Option<seq<Byte>>, rest: seq<Byte>)
    requires AllWritten(c, ws) && k <= |ws|
    requires pickup.Some? ==> |pickup.value| == HEAD && pickup.value + rest == WireOf(ws[k..])
    ensures pickup.Some? ==> KindOf(pickup.value) != 0
  {
    if pickup.Some? {
      var left := ws[k..];
      assert left != [];
      assert Written(c, ws[k]) && left[0] == ws[k];
      assert (pickup.value + rest)[..HEAD] == pickup.value;
      assert WireOf(left)[..HEAD] == ws[k][..HEAD];
    }
  }
}
