/** The byte stream under a dmsg link: a writer that resumes after partial
    writes and a parser over a compacting FIFO that resumes after partial
    reads.  Unencrypted link, same byte order at both ends. */
module Stream {
  import opened Common

  const ALIGN: nat := 64
  const HDR_MAX: nat := 2048
  const AUX_MAX: nat := 1024 * 1024
  const BUF_SIZE: nat := 8192
  const MAX_IOVEC: nat := 16

  /** A message as it travels: extended header and padded auxiliary data. */
  datatype Wire = Wire(head: seq<Byte>, aux: seq<Byte>)

  /** What is read out of a header.  `magic`, `units` (header size in 64-byte
      units), `auxBytes` and `salt` look at the 64-byte core header. */
  datatype Codec = Codec(magic: seq<Byte> -> bool, units: seq<Byte> -> nat, auxBytes: seq<Byte> -> nat,
                         salt: seq<Byte> -> nat, headCrc: seq<Byte> -> bool,
                         auxCrc: (seq<Byte>, seq<Byte>) -> bool)

  function Align(n: nat): nat {
    (n + ALIGN - 1) / ALIGN * ALIGN
  }

  /** A message sealed by `dmsg_iocom_flush1` as number `n` of the connection. */
  predicate Sealed(c: Codec, w: Wire, n: nat) {
    ALIGN <= |w.head| <= HDR_MAX && |w.aux| <= AUX_MAX &&
    var core := w.head[..ALIGN];
    c.magic(core) && c.units(core) * ALIGN == |w.head| && Align(c.auxBytes(core)) == |w.aux| &&
    c.salt(core) % 256 == n % 256 && c.headCrc(w.head) && (w.aux != [] ==> c.auxCrc(w.head, w.aux))
  }

  predicate AllSealed(c: Codec, ms: seq<Wire>, n: nat) {
    forall i | 0 <= i < |ms| :: Sealed(c, ms[i], n + i)
  }

  function StreamOf(ms: seq<Wire>): seq<Byte> {
    if ms == [] then [] else ms[0].head + ms[0].aux + StreamOf(ms[1..])
  }

  // ----- the writer -----

  /** What is still to be written when the first message is partly out. */
  function Pending(q: seq<Wire>, hoff: nat, aoff: nat): seq<Byte>
    requires q != [] ==> hoff <= |q[0].head| && aoff <= |q[0].aux|
  {
    if q == [] then [] else q[0].head[hoff..] + q[0].aux[aoff..] + StreamOf(q[1..])
  }

  function Flat(iov: seq<seq<Byte>>): seq<Byte> {
    if iov == [] then [] else Flat(iov[..|iov| - 1]) + iov[|iov| - 1]
  }

  lemma FlatAppend(iov: seq<seq<Byte>>, x: seq<Byte>)
    ensures Flat(iov + [x]) == Flat(iov) + x
  {
    assert (iov + [x])[..|iov|] == iov;
  }

  lemma SliceAdvances(d: seq<Byte>, off: nat, n: nat, t: seq<Byte>)
    requires off + n <= |d|
    ensures (d[off..] + t)[n..] == d[off + n..] + t && (d[off..] + t)[..n] == d[off..off + n]
  {
  }

  lemma PendingFresh(q: seq<Wire>)
    ensures Pending(q, 0, 0) == StreamOf(q)
  {
  }

  lemma HeadAdvances(q: seq<Wire>, h: nat, a: nat, n: nat)
    requires q != [] && h + n <= |q[0].head| && a <= |q[0].aux|
    ensures n <= |Pending(q, h, a)| && Pending(q, h, a)[n..] == Pending(q, h + n, a)
    ensures Pending(q, h, a)[..n] == q[0].head[h..h + n]
  {
    hide StreamOf, Pending;
    PendingHead(q, h, a);
    PendingHead(q, h + n, a);
    SliceAdvances(q[0].head, h, n, q[0].aux[a..] + StreamOf(q[1..]));
  }

  lemma PendingHead(q: seq<Wire>, h: nat, a: nat)
    requires q != [] && h <= |q[0].head| && a <= |q[0].aux|
    ensures Pending(q, h, a) == q[0].head[h..] + (q[0].aux[a..] + StreamOf(q[1..]))
  {
    hide StreamOf;
    Assoc3(q[0].head[h..], q[0].aux[a..], StreamOf(q[1..]));
  }

  lemma Assoc3(x: seq<Byte>, y: seq<Byte>, z: seq<Byte>)
    ensures x + y + z == x + (y + z)
  {
  }

  lemma AuxAdvances(q: seq<Wire>, a: nat, n: nat)
    requires q != [] && a + n <= |q[0].aux|
    ensures var h := |q[0].head|;
            n <= |Pending(q, h, a)| && Pending(q, h, a)[n..] == Pending(q, h, a + n) &&
            Pending(q, h, a)[..n] == q[0].aux[a..a + n]
  {
    hide StreamOf, Pending;
    PendingAux(q, a);
    PendingAux(q, a + n);
    SliceAdvances(q[0].aux, a, n, StreamOf(q[1..]));
  }

  lemma PendingAux(q: seq<Wire>, a: nat)
    requires q != [] && a <= |q[0].aux|
    ensures Pending(q, |q[0].head|, a) == q[0].aux[a..] + StreamOf(q[1..])
  {
    assert q[0].head[|q[0].head|..] == [];
  }

  lemma FirstDone(q: seq<Wire>)
    requires q != []
    ensures Pending(q, |q[0].head|, |q[0].aux|) == Pending(q[1..], 0, 0)
  {
    PendingFresh(q[1..]);
  }

  lemma DropTwice(x: seq<Byte>, i: nat, j: nat)
    requires i + j <= |x|
    ensures x[i..][j..] == x[i + j..]
  {
  }

  /** One more piece of the iovec: `data` from `off` on, `stop` when the vector
      is full or the piece was cut short. */
  method AddPiece(iov: seq<seq<Byte>>, data: seq<Byte>, off: nat)
    returns (iov': seq<seq<Byte>>, len: nat, stop: bool)
    requires |iov| < MAX_IOVEC && off < |data|
    ensures 0 < len <= |data| - off && (!stop ==> |iov'| < MAX_IOVEC && off + len == |data|)
    ensures |iov'| <= MAX_IOVEC && Flat(iov') == Flat(iov) + data[off..off + len]
  {
    len := if |data| - off > BUF_SIZE / 2 then BUF_SIZE / 2 else |data| - off;
    iov' := iov + [data[off..off + len]];
    FlatAppend(iov, data[off..off + len]);
    stop := |iov'| == MAX_IOVEC || len != |data| - off;
  }

  /** `done` has been collected and `rest` is still to come. */
  ghost predicate Splits(all: seq<Byte>, done: seq<Byte>, rest: seq<Byte>) {
    all == done + rest
  }

  lemma SplitMoves(all: seq<Byte>, done: seq<Byte>, rest: seq<Byte>, n: nat)
    requires Splits(all, done, rest) && n <= |rest|
    ensures Splits(all, done + rest[..n], rest[n..]) && done + rest[..n] <= all
  {
    assert rest == rest[..n] + rest[n..];
  }

  lemma Resplit(all: seq<Byte>, done: seq<Byte>, rest: seq<Byte>, x: seq<Byte>, y: seq<Byte>)
    requires Splits(all, done, rest) && rest == x + y
    ensures Splits(all, done + x, y)
  {
  }

  lemma PendingLeft(q: seq<Wire>, h: nat, a: nat)
    requires q != [] ==> h <= |q[0].head| && a <= |q[0].aux| && h + a < |q[0].head| + |q[0].aux|
    ensures Pending(q, h, a) == [] <==> q == []
  {
  }

  lemma SplitStarts(q: seq<Wire>, h: nat, a: nat)
    requires q != [] ==> h <= |q[0].head| && a <= |q[0].aux|
    ensures Splits(Pending(q, h, a), Flat([]), Pending(q[0..], h, a))
  {
    assert q[0..] == q;
  }

  lemma SplitEnds(q: seq<Wire>, h: nat, a: nat, iov: seq<seq<Byte>>)
    requires q != [] ==> h <= |q[0].head| && a <= |q[0].aux|
    requires Splits(Pending(q, h, a), Flat(iov), Pending(q[|q|..], 0, 0))
    ensures Flat(iov) == Pending(q, h, a)
  {
  }

  class Writer {
    var q: seq<Wire>
    var hoff: nat
    var aoff: nat

    /** Headers are never empty, and auxiliary data starts after the whole header is out. */
    ghost predicate Valid()
      reads this
    {
      (forall w <- q :: |w.head| >= ALIGN) &&
      (q == [] ==> hoff == 0 && aoff == 0) &&
      (q != [] ==> hoff <= |q[0].head| && aoff <= |q[0].aux| && (aoff > 0 ==> hoff == |q[0].head|) &&
                   hoff + aoff < |q[0].head| + |q[0].aux|)
    }

    ghost function Rest(): seq<Byte>
      reads this
      requires Valid()
    {
      Pending(q, hoff, aoff)
    }

    constructor (ms: seq<Wire>)
      requires forall w <- ms :: |w.head| >= ALIGN
      ensures Valid() && q == ms && Rest() == StreamOf(ms)
    {
      q, hoff, aoff := ms, 0, 0;
    }

    /** Collects the iovec: at most 16 pieces, each at most half a buffer. */
    method Gather() returns (iov: seq<seq<Byte>>)
      requires Valid()
      ensures |iov| <= MAX_IOVEC && Flat(iov) <= Rest() && (Rest() != [] ==> Flat(iov) != [])
    {
      hide Pending, StreamOf, Flat, Splits;
      iov := [];
      var h: nat, a: nat, i, stop, len := hoff, aoff, 0, false, 0;
      SplitStarts(q, hoff, aoff);
      while i < |q|
        invariant 0 <= i <= |q| && |iov| < MAX_IOVEC
        invariant i < |q| ==> h <= |q[i].head| && a <= |q[i].aux| && h + a < |q[i].head| + |q[i].aux|
        invariant i == |q| ==> h == 0 && a == 0
        invariant Splits(Rest(), Flat(iov), Pending(q[i..], h, a))
        invariant i > 0 ==> Flat(iov) != []
      {
        var w := q[i];
        ghost var qi := q[i..];
        assert qi[0] == w && qi[1..] == q[i + 1..];
        if h < |w.head| {
          iov, len, stop := AddPiece(iov, w.head, h);
          HeadAdvances(qi, h, a, len);
          SplitMoves(Rest(), Flat(iov)[..|Flat(iov)| - len], Pending(qi, h, a), len);
          if stop {
            return;
          }
        }
        if a < |w.aux| {
          iov, len, stop := AddPiece(iov, w.aux, a);
          AuxAdvances(qi, a, len);
          SplitMoves(Rest(), Flat(iov)[..|Flat(iov)| - len], Pending(qi, |w.head|, a), len);
          if stop {
            return;
          }
        }
        FirstDone(qi);
        h, a, i := 0, 0, i + 1;
      }
      SplitEnds(q, hoff, aoff, iov);
    }

    /** Accounts `nact` written bytes to the header of the first message. */
    method ConsumeHead(nact: nat) returns (left: nat, done: bool)
      requires Valid() && q != [] && nact <= |Rest()|
      modifies this`hoff
      ensures q != [] && hoff <= |q[0].head| && aoff <= |q[0].aux|
      ensures left <= |Pending(q, hoff, aoff)| && Pending(q, hoff, aoff)[left..] == old(Rest())[nact..]
      ensures if done then Valid() && left == 0 else hoff == |q[0].head|
    {
      hide Pending, StreamOf;
      var n := |q[0].head| - hoff;
      if nact < n {
        HeadAdvances(q, hoff, aoff, nact);
        hoff := hoff + nact;
        return 0, true;
      }
      HeadAdvances(q, hoff, aoff, n);
      DropTwice(Rest(), n, nact - n);
      hoff := |q[0].head|;
      return nact - n, false;
    }

    /** Accounts `nact` written bytes to the first message; `done` when they end inside it. */
    method ConsumeFirst(nact: nat) returns (left: nat, done: bool)
      requires Valid() && q != [] && nact <= |Rest()|
      modifies this
      ensures Valid() && left <= |Rest()| && Rest()[left..] == old(Rest())[nact..]
      ensures if done then left == 0 && q == old(q) else q == old(q)[1..]
    {
      hide Pending, StreamOf;
      left, done := ConsumeHead(nact);
      if done {
        return;
      }
      var n := |q[0].aux| - aoff;
      if left < n {
        AuxAdvances(q, aoff, left);
        aoff := aoff + left;
        return 0, true;
      }
      AuxAdvances(q, aoff, n);
      DropTwice(Pending(q, hoff, aoff), n, left - n);
      FirstDone(q);
      q, hoff, aoff := q[1..], 0, 0;
      return left - n, false;
    }

    /** Drops what was written from the front of the queue; every byte is accounted for. */
    method Consume(n: nat) returns (nact: nat)
      requires Valid() && n <= |Rest()|
      modifies this
      ensures Valid() && nact == 0 && Rest() == old(Rest())[n..]
      ensures exists k :: 0 <= k <= |old(q)| && q == old(q)[k..]
    {
      nact := n;
      ghost var k := 0;
      while q != []
        invariant Valid() && 0 <= k <= |old(q)| && q == old(q)[k..]
        invariant nact <= |Rest()| && Rest()[nact..] == old(Rest())[n..]
        decreases |q|
      {
        var done;
        nact, done := ConsumeFirst(nact);
        if done {
          return;
        }
        k := k + 1;
      }
    }

    /** One `dmsg_iocom_flush2`: the socket takes `want` bytes or what there is of them. */
    method Flush2(want: nat) returns (sent: seq<Byte>)
      requires Valid()
      modifies this
      ensures Valid() && sent + Rest() == old(Rest())
      ensures want > 0 && old(Rest()) != [] ==> sent != []
      ensures exists k :: 0 <= k <= |old(q)| && q == old(q)[k..]
    {
      var iov := Gather();
      var bytes := Flat(iov);
      var n := if want < |bytes| then want else |bytes|;
      sent := bytes[..n];
      assert Rest() == sent + Rest()[n..];
      var nact := Consume(n);
    }
  }

  // ----- the parser -----

  datatype Phase = Header1 | Header2 | AuxData2

  /** The errors of a queue; `HeadCrc` stands for the assert that follows a bad
      header CRC and ends the program. */
  datatype Error = Sync | Field | HeadCrc | AuxCrc | MsgSeq

  /** What the front of a byte stream is: too short to tell, a message, or wrong. */
  datatype Parsed = More | Message(w: Wire, rest: seq<Byte>) | Bad(error: Error)

  /** What a call of the parser ends with. */
  datatype Outcome = Wait | Got(w: Wire) | Fail(error: Error)

  /** The stream starts with a core header that announces `h` header and `a` auxiliary bytes. */
  predicate Announces(c: Codec, s: seq<Byte>, h: nat, a: nat) {
    |s| >= ALIGN && c.magic(s[..ALIGN]) && h == c.units(s[..ALIGN]) * ALIGN &&
    a == Align(c.auxBytes(s[..ALIGN])) && ALIGN <= h <= HDR_MAX && a <= AUX_MAX
  }

  /** The meaning of a whole byte stream, whatever the reads that deliver it:
      the first message of `s` if its number is to be `n`. */
  function Next(c: Codec, s: seq<Byte>, n: nat): (r: Parsed)
    ensures r.Message? ==> s == r.w.head + r.w.aux + r.rest && |r.rest| < |s|
  {
    if |s| < ALIGN then More
    else if !c.magic(s[..ALIGN]) then Bad(Sync)
    else
      var h, a := c.units(s[..ALIGN]) * ALIGN, Align(c.auxBytes(s[..ALIGN]));
      if h < ALIGN || h > HDR_MAX || a > AUX_MAX then Bad(Field)
      else if |s| < h then More
      else if !c.headCrc(s[..h]) then Bad(HeadCrc)
      else if |s| < h + a then More
      else if a > 0 && !c.auxCrc(s[..h], s[h..h + a]) then Bad(AuxCrc)
      else if c.salt(s[..ALIGN]) % 256 != n % 256 then Bad(MsgSeq)
      else Message(Wire(s[..h], s[h..h + a]), s[h + a..])
  }

  /** All messages of a stream, up to the first defect. */
  function Messages(c: Codec, s: seq<Byte>, n: nat): seq<Wire>
    decreases |s|
  {
    match Next(c, s, n)
    case Message(w, rest) => [w] + Messages(c, rest, n + 1)
    case _ => []
  }

  /** What is left of a stream after its messages: cut short, or wrong. */
  function Ending(c: Codec, s: seq<Byte>, n: nat): (r: Parsed)
    ensures !r.Message?
    decreases |s|
  {
    match Next(c, s, n)
    case Message(w, rest) => Ending(c, rest, n + 1)
    case other => other
  }

  lemma AnnouncedEarly(c: Codec, content: seq<Byte>, tail: seq<Byte>, h: nat, a: nat)
    requires |content| >= ALIGN
    ensures Announces(c, content, h, a) == Announces(c, content + tail, h, a)
    ensures (content + tail)[..ALIGN] == content[..ALIGN]
  {
    assert (content + tail)[..ALIGN] == content[..ALIGN];
  }

  /** A core header that is in is judged like the whole stream. */
  lemma CoreJudged(c: Codec, content: seq<Byte>, tail: seq<Byte>, n: nat)
    requires |content| >= ALIGN
    ensures var core := content[..ALIGN];
            !c.magic(core) ==> Next(c, content + tail, n) == Bad(Sync)
    ensures var core := content[..ALIGN];
            var h, a := c.units(core) * ALIGN, Align(c.auxBytes(core));
            c.magic(core) && (h < ALIGN || h > HDR_MAX || a > AUX_MAX) ==> Next(c, content + tail, n) == Bad(Field)
  {
    assert (content + tail)[..ALIGN] == content[..ALIGN];
  }

  /** A header and auxiliary data that are in are judged like the whole stream. */
  lemma Judged(c: Codec, head: seq<Byte>, aux: seq<Byte>, tail: seq<Byte>, n: nat)
    requires Announces(c, head, |head|, |aux|)
    ensures Next(c, head + aux + tail, n) ==
              if !c.headCrc(head) then Bad(HeadCrc)
              else if aux != [] && !c.auxCrc(head, aux) then Bad(AuxCrc)
              else if c.salt(head[..ALIGN]) % 256 != n % 256 then Bad(MsgSeq)
              else Message(Wire(head, aux), tail)
  {
    var s := head + aux + tail;
    assert s[..ALIGN] == head[..ALIGN];
    assert s[..|head|] == head && s[|head|..|head| + |aux|] == aux && s[|head| + |aux|..] == tail;
  }

  /** A bad header is found bad before its auxiliary data is in. */
  lemma HeadJudged(c: Codec, head: seq<Byte>, tail: seq<Byte>, a: nat, n: nat)
    requires Announces(c, head, |head|, a) && !c.headCrc(head)
    ensures Next(c, head + tail, n) == Bad(HeadCrc)
  {
    assert (head + tail)[..ALIGN] == head[..ALIGN] && (head + tail)[..|head|] == head;
  }

  lemma HeaderBounds(c: Codec, s: seq<Byte>, h: nat, a: nat)
    requires Announces(c, s, h, a)
    ensures ALIGN <= h
  {
  }

  lemma HeaderShort(c: Codec, s: seq<Byte>, content: seq<Byte>, h: nat, a: nat, n: nat)
    requires Announces(c, content, h, a) && |content| < h
    ensures s == content ==> Next(c, s, n) == More
  {
  }

  lemma Unfinished(c: Codec, head: seq<Byte>, part: seq<Byte>, tail: seq<Byte>, a: nat, n: nat)
    requires Announces(c, head, |head|, a) && c.headCrc(head) && |part| < a
    ensures tail == [] ==> Next(c, head + part + tail, n) == More
  {
    assert head + part + [] == head + part;
    assert (head + part)[..ALIGN] == head[..ALIGN] && (head + part)[..|head|] == head;
  }

  lemma ReadsFirst(c: Codec, w: Wire, rest: seq<Byte>, n: nat)
    requires Sealed(c, w, n)
    ensures Messages(c, w.head + w.aux + rest, n) == [w] + Messages(c, rest, n + 1)
    ensures Ending(c, w.head + w.aux + rest, n) == Ending(c, rest, n + 1)
  {
    Judged(c, w.head, w.aux, rest, n);
    hide Next;
  }

  lemma StreamFirst(ms: seq<Wire>, tail: seq<Byte>)
    requires ms != []
    ensures StreamOf(ms) + tail == ms[0].head + ms[0].aux + (StreamOf(ms[1..]) + tail)
  {
    Assoc3(ms[0].head + ms[0].aux, StreamOf(ms[1..]), tail);
  }

  /** Reading back what was sealed: the messages, all of them, in order, whatever follows. */
  lemma {:induction false} ReadsBack(c: Codec, ms: seq<Wire>, tail: seq<Byte>, n: nat)
    requires AllSealed(c, ms, n)
    ensures Messages(c, StreamOf(ms) + tail, n) == ms + Messages(c, tail, n + |ms|)
    ensures Ending(c, StreamOf(ms) + tail, n) == Ending(c, tail, n + |ms|)
    decreases ms
  {
    if ms == [] {
      hide Messages, Ending;
      assert StreamOf(ms) + tail == tail;
      assert ms + Messages(c, tail, n + |ms|) == Messages(c, tail, n);
    } else {
      hide Messages, Ending, StreamOf, Sealed;
      TailSealed(c, ms, n);
      StreamFirst(ms, tail);
      ReadsFirst(c, ms[0], StreamOf(ms[1..]) + tail, n);
      ReadsBack(c, ms[1..], tail, n + 1);
      assert [ms[0]] + (ms[1..] + Messages(c, tail, n + |ms|)) == ms + Messages(c, tail, n + |ms|);
    }
  }

  lemma TailSealed(c: Codec, ms: seq<Wire>, n: nat)
    requires AllSealed(c, ms, n) && ms != []
    ensures Sealed(c, ms[0], n) && AllSealed(c, ms[1..], n + 1)
  {
    assert Sealed(c, ms[0], n + 0);
    forall i | 0 <= i < |ms| - 1
      ensures Sealed(c, ms[1..][i], n + 1 + i)
    {
      assert Sealed(c, ms[i + 1], n + (i + 1));
    }
  }

  lemma HeaderStays(c: Codec, x: seq<Byte>, input: seq<Byte>, y: seq<Byte>, rest: seq<Byte>, h: nat, a: nat)
    requires x + input == y + rest && ALIGN <= |x| <= |y|
    ensures Announces(c, x, h, a) == Announces(c, y, h, a)
  {
    AnnouncedEarly(c, x, input, h, a);
    AnnouncedEarly(c, y, rest, h, a);
  }

  lemma Assoc(x: seq<Byte>, y: seq<Byte>, z: seq<Byte>, t: seq<Byte>)
    ensures x + (y + z + t) == x + y + (z + t)
  {
  }

  lemma Regroup(a1: seq<Byte>, a0: seq<Byte>, c1: seq<Byte>, r1: seq<Byte>, c0: seq<Byte>, r0: seq<Byte>,
                m: seq<Byte>)
    requires a1 + m == a0 + c0 && c1 + r1 == m + r0
    ensures a1 + c1 + r1 == a0 + c0 + r0
  {
    assert a1 + c1 + r1 == a1 + (c1 + r1) == a1 + (m + r0) == (a1 + m) + r0;
  }

  /** bcopy(): the ranges may overlap. */
  method Bcopy(buf: array<Byte>, src: nat, dst: nat, n: nat)
    requires dst <= src && src + n <= buf.Length
    modifies buf
    ensures buf[dst..dst + n] == old(buf[src..src + n])
    ensures buf[..dst] == old(buf[..dst]) && buf[dst + n..] == old(buf[dst + n..])
  {
    forall i | dst <= i < dst + n {
      buf[i] := buf[src + (i - dst)];
    }
  }

  /** The bytes at [lo, hi) of an array whose part from `k` on did not change. */
  lemma KeptSlice(x: seq<Byte>, y: seq<Byte>, k: nat, lo: nat, hi: nat)
    requires |x| == |y| && k <= lo <= hi <= |x| && x[k..] == y[k..]
    ensures x[lo..hi] == y[lo..hi]
  {
    forall i | lo <= i < hi
      ensures x[i] == y[i]
    {
      assert x[k..][i - k] == y[k..][i - k];
    }
  }

  class Reader {
    const buf: array<Byte>
    var beg: nat
    var cdx: nat
    var cdn: nat
    var end: nat
    var phase: Phase
    var hbytes: nat
    var abytes: nat
    var head: seq<Byte>
    var aux: seq<Byte>
    var seqno: nat

    ghost predicate Indices()
      reads this
    {
      buf.Length == BUF_SIZE && beg <= cdx <= cdn <= end <= BUF_SIZE
    }

    /** An unencrypted link has nothing waiting to be decrypted. */
    ghost predicate Plain()
      reads this
    {
      Indices() && cdx == cdn == end
    }

    ghost function Content(): seq<Byte>
      reads this, buf
      requires Indices()
    {
      buf[beg..cdx]
    }

    /** What the parser remembers between two calls. */
    ghost predicate Valid(c: Codec)
      reads this, buf
    {
      Plain() &&
      match phase
      case Header1 => true
      case Header2 => Announces(c, Content(), hbytes, abytes) && beg + hbytes <= BUF_SIZE
      case AuxData2 => HeaderIn(c) && |aux| < abytes && Content() == []
    }

    /** The extended header has been copied out and is good. */
    ghost predicate HeaderIn(c: Codec)
      reads this
    {
      Announces(c, head, hbytes, abytes) && |head| == hbytes && c.headCrc(head)
    }

    /** Nothing is lost, and with an empty socket the message really is incomplete. */
    ghost predicate Waits(c: Codec, unread: seq<Byte>, rest: seq<Byte>)
      reads this, buf
    {
      Valid(c) && Unread(rest) == unread && (rest == [] ==> Next(c, unread, seqno) == More)
    }

    /** The bytes that belong to messages not yet returned, `input` being in the socket. */
    ghost function Unread(input: seq<Byte>): seq<Byte>
      reads this, buf
      requires Indices()
    {
      if phase == AuxData2 then head + aux + input else Content() + input
    }

    constructor ()
      ensures fresh(buf) && seqno == 0 && phase == Header1 && Plain() && Content() == []
    {
      buf := new Byte[BUF_SIZE](_ => 0);
      beg, cdx, cdn, end, phase := 0, 0, 0, 0, Header1;
      hbytes, abytes, head, aux, seqno := 0, 0, [], [], 0;
    }

    /** `dmsg_ioq_makeroom`: compaction moves both the decoded and the raw bytes
        and loses none of them. */
    method MakeRoom(needed: nat) returns (nmax: nat)
      requires Indices()
      modifies this`beg, this`cdx, this`cdn, this`end, buf
      ensures Indices() && nmax == BUF_SIZE - end
      ensures Content() == old(Content()) && buf[cdn..end] == old(buf[cdn..end])
      ensures old(cdx == cdn == end) ==> cdx == cdn == end
      ensures (cdx - beg) + nmax / 2 >= needed || (beg == 0 && cdx == cdn)
    {
      var bytes := cdx - beg;
      nmax := BUF_SIZE - end;
      if bytes + nmax / 2 < needed {
        ghost var before := buf[..];
        Bcopy(buf, beg, 0, bytes);
        KeptSlice(before, buf[..], bytes, cdn, end);
        cdx := bytes;
        beg := 0;
        Bcopy(buf, cdn, cdx, end - cdn);
        end := end - (cdn - cdx);
        cdn := cdx;
        nmax := BUF_SIZE - end;
      }
    }

    /** One read() into the FIFO: the socket has `input` and yields `want` bytes
        of it, less if there is less or no room; 0 is EAGAIN. */
    method Fill(want: nat, input: seq<Byte>) returns (rest: seq<Byte>)
      requires Plain()
      modifies this`cdx, this`cdn, this`end, buf
      ensures Plain() && Content() + rest == old(Content()) + input
      ensures end < BUF_SIZE || |Content()| >= old(|Content()|)
      ensures |Content()| >= old(|Content()|) && |rest| <= |input|
      ensures want > 0 && input != [] && old(end) < BUF_SIZE ==> |rest| < |input|
    {
      var n := if want < |input| then want else |input|;
      n := if n < BUF_SIZE - end then n else BUF_SIZE - end;
      forall i | 0 <= i < n {
        buf[end + i] := input[i];
      }
      rest := input[n..];
      assert buf[beg..end + n] == old(buf[beg..end]) + input[..n];
      assert input == input[..n] + rest;
      end := end + n;
      cdx, cdn := end, end;
    }
  
    /** Makes room for a core header and reads unless it is already in. */
    method LoadCore(want: nat, input: seq<Byte>) returns (rest: seq<Byte>)
      requires Plain()
      modifies this`beg, this`cdx, this`cdn, this`end, buf
      ensures Plain() && Content() + rest == old(Content()) + input && |rest| <= |input|
      ensures |Content()| < ALIGN && want > 0 && input != [] ==> |rest| < |input|
    {
      var bytes := cdx - beg;
      var nmax := MakeRoom(ALIGN);
      rest := input;
      if bytes < ALIGN {
        rest := Fill(want, input);
      }
    }

    /** The HEADER1 state: `next` when the core header is in and checks out. */
    method ReadHeader1(c: Codec, want: nat, input: seq<Byte>)
      returns (next: bool, error: Option<Error>, rest: seq<Byte>)
      requires phase == Header1 && Valid(c)
      modifies this, buf
      ensures Valid(c) && seqno == old(seqno) && Unread(rest) == old(Unread(input)) && |rest| <= |input|
      ensures error.Some? ==> Next(c, Unread(rest), seqno) == Bad(error.value)
      ensures error.None? ==> if next then phase == Header2 else phase == Header1 && |Content()| < ALIGN
      ensures error.None? && !next && want > 0 && input != [] ==> |rest| < |input|
    {
      hide Next;
      rest := LoadCore(want, input);
      if cdx - beg < ALIGN {
        return false, None, rest;
      }
      var core := buf[beg..beg + ALIGN];
      assert core == Content()[..ALIGN];
      CoreJudged(c, Content(), rest, seqno);
      if !c.magic(core) {
        return false, Some(Sync), rest;
      }
      hbytes := c.units(core) * ALIGN;
      abytes := Align(c.auxBytes(core));
      if hbytes < ALIGN || hbytes > HDR_MAX || abytes > AUX_MAX {
        return false, Some(Field), rest;
      }
      var nmax := MakeRoom(hbytes);
      phase := Header2;
      next := true;
      error := None;
    }

    /** Reads for the extended header unless it is already in. */
    method LoadHeader(c: Codec, want: nat, input: seq<Byte>) returns (rest: seq<Byte>)
      requires phase == Header2 && Valid(c)
      modifies this`cdx, this`cdn, this`end, buf
      ensures Valid(c) && Unread(rest) == old(Unread(input)) && |rest| <= |input|
      ensures |Content()| < hbytes && want > 0 && input != [] ==> |rest| < |input|
    {
      rest := input;
      if cdx - beg < hbytes {
        assert end < BUF_SIZE;
        rest := Fill(want, input);
      }
      HeaderStays(c, old(Content()), input, Content(), rest, hbytes, abytes);
    }

    /** The HEADER2 state: `next` when the extended header has been copied out. */
    method ReadHeader2(c: Codec, want: nat, input: seq<Byte>)
      returns (next: bool, error: Option<Error>, rest: seq<Byte>)
      requires phase == Header2 && Valid(c)
      modifies this, buf
      ensures Plain() && phase == Header2 && seqno == old(seqno) && |rest| <= |input|
      ensures error.Some? ==> Next(c, old(Unread(input)), seqno) == Bad(error.value)
      ensures error.None? && !next ==>
                Valid(c) && Unread(rest) == old(Unread(input)) && |Content()| < hbytes
      ensures error.None? && !next && want > 0 && input != [] ==> |rest| < |input|
      ensures error.None? && next ==>
                HeaderIn(c) && head + Content() + rest == old(Unread(input))
    {
      hide Next, Announces;
      rest := LoadHeader(c, want, input);
      if cdx - beg < hbytes {
        return false, None, rest;
      }
      error := TakeHeader(c, rest);
      next := error.None?;
    }

    /** Checks the extended header and copies it out. */
    method TakeHeader(c: Codec, ghost rest: seq<Byte>) returns (error: Option<Error>)
      requires phase == Header2 && Valid(c) && cdx - beg >= hbytes
      modifies this`head, this`beg
      ensures Plain()
      ensures error.Some? ==> Next(c, old(Unread(rest)), seqno) == Bad(error.value)
      ensures error.None? ==> HeaderIn(c) && head + Content() + rest == old(Unread(rest))
    {
      hide Next, Announces;
      HeaderBounds(c, Content(), hbytes, abytes);
      var h := buf[beg..beg + hbytes];
      ghost var more := buf[beg + hbytes..cdx];
      assert Content() == h + more;
      AnnouncedEarly(c, h, more, hbytes, abytes);
      if !c.headCrc(h) {
        HeadJudged(c, h, more + rest, abytes, seqno);
        assert h + (more + rest) == Content() + rest;
        return Some(HeadCrc);
      }
      head := h;
      beg := beg + hbytes;
      error := None;
    }

    /** AUXDATA1 and AUXDATA2: takes what the FIFO has, then reads for the rest. */
    method ReadAux(c: Codec, want: nat, input: seq<Byte>)
      returns (whole: bool, error: Option<Error>, rest: seq<Byte>)
      requires Plain() && |aux| < abytes && |head| == hbytes && (phase == AuxData2 ==> Content() == [])
      modifies this`beg, this`cdx, this`cdn, this`end, this`phase, this`aux, buf
      ensures Plain() && phase == AuxData2 && |rest| <= |input|
      ensures aux + Content() + rest == old(aux + Content()) + input
      ensures if whole then |aux| == abytes else |aux| < abytes && Content() == []
      ensures error == if whole && !c.auxCrc(head, aux) then Some(AuxCrc) else None
      ensures !whole && want > 0 && input != [] ==> |rest| < |input|
    {
      if phase != AuxData2 {
        TakeAux(abytes);
        phase := AuxData2;
      }
      ghost var mid := Content();
      rest := LoadAux(want, input);
      Regroup(aux, old(aux), Content(), rest, old(Content()), input, mid);
      TakeAux(abytes);
      whole := |aux| == abytes;
      error := if whole && !c.auxCrc(head, aux) then Some(AuxCrc) else None;
    }

    /** Makes room for missing auxiliary data and reads if any is missing. */
    method LoadAux(want: nat, input: seq<Byte>) returns (rest: seq<Byte>)
      requires Plain() && |aux| <= abytes && (|aux| < abytes ==> Content() == [])
      modifies this`beg, this`cdx, this`cdn, this`end, buf
      ensures Plain() && Content() + rest == old(Content()) + input && |rest| <= |input|
      ensures |aux| < abytes && want > 0 && input != [] ==> |rest| < |input|
    {
      rest := input;
      var nmax := MakeRoom(abytes - |aux|);
      if |aux| < abytes {
        assert nmax > 0;
        rest := Fill(want, input);
      }
    }

    /** Moves FIFO bytes into the auxiliary data, up to `limit` of them. */
    method TakeAux(limit: nat)
      requires Plain() && |aux| <= limit
      modifies this`beg, this`aux
      ensures Plain() && aux + Content() == old(aux + Content()) && |aux| <= limit
      ensures |aux| < limit ==> Content() == []
      ensures old(Content()) == [] ==> aux == old(aux)
    {
      var bytes := if cdx - beg > limit - |aux| then limit - |aux| else cdx - beg;
      assert buf[beg..cdx] == buf[beg..beg + bytes] + buf[beg + bytes..cdx];
      aux := aux + buf[beg..beg + bytes];
      beg := beg + bytes;
    }

    /** Back to HEADER1; an empty FIFO starts over at index 0. */
    method Complete()
      requires Plain()
      modifies this`beg, this`cdx, this`cdn, this`end, this`phase
      ensures Plain() && phase == Header1 && Content() == old(Content())
    {
      if beg == cdx && cdn == end {
        beg, cdx, cdn, end := 0, 0, 0, 0;
      }
      phase := Header1;
    }

    /** Both header states; None when the header is in and auxiliary data may follow. */
    method ReadHeaders(c: Codec, input: seq<Byte>, w1: nat, w2: nat) returns (stop: Option<Outcome>, rest: seq<Byte>)
      requires Valid(c) && phase != AuxData2
      modifies this, buf
      ensures |rest| <= |input| && seqno == old(seqno)
      ensures match stop
              case None => Plain() && HeaderIn(c) && phase == Header2 && aux == [] &&
                           head + Content() + rest == old(Unread(input))
              case Some(Got(_)) => false
              case Some(Fail(e)) => Next(c, old(Unread(input)), seqno) == Bad(e)
              case Some(Wait) => Waits(c, old(Unread(input)), rest) &&
                                 (w1 > 0 && w2 > 0 && input != [] ==> |rest| < |input|)
    {
      rest := input;
      var error: Option<Error>, next: bool;
      if phase == Header1 {
        next, error, rest := ReadHeader1(c, w1, rest);
        if error.Some? {
          return Some(Fail(error.value)), rest;
        }
        if !next {
          return Some(Wait), rest;
        }
      }
      hide Next;
      next, error, rest := ReadHeader2(c, w2, rest);
      if error.Some? {
        return Some(Fail(error.value)), rest;
      }
      if !next {
        HeaderShort(c, Content() + rest, Content(), hbytes, abytes, seqno);
        return Some(Wait), rest;
      }
      aux := [];
      stop := None;
    }

    /** The message is in: checks its number and returns it, or reports the defect. */
    method Deliver(c: Codec, error: Option<Error>, ghost rest: seq<Byte>) returns (out: Outcome)
      requires Plain() && HeaderIn(c) && |aux| == abytes
      requires error == if aux != [] && !c.auxCrc(head, aux) then Some(AuxCrc) else None
      modifies this`beg, this`cdx, this`cdn, this`end, this`phase, this`seqno
      ensures out.Fail? || (Valid(c) && phase == Header1)
      ensures match out
              case Fail(e) => Next(c, old(head + aux + (Content() + rest)), old(seqno)) == Bad(e)
              case Got(w) => seqno == old(seqno) + 1 &&
                             Next(c, old(head + aux + (Content() + rest)), old(seqno)) == Message(w, Unread(rest))
              case Wait => false
    {
      hide Next;
      Judged(c, head, aux, Content() + rest, seqno);
      if error.Some? {
        return Fail(error.value);
      }
      if c.salt(head[..ALIGN]) % 256 != seqno % 256 {
        return Fail(MsgSeq);
      }
      seqno := seqno + 1;
      Complete();
      out := Got(Wire(head, aux));
    }

    /** The states after the header, on the stream `all`. */
    method ReadBody(c: Codec, input: seq<Byte>, want: nat, ghost all: seq<Byte>) returns (out: Outcome, rest: seq<Byte>)
      requires Plain() && HeaderIn(c) && |aux| <= abytes
      requires phase == AuxData2 ==> |aux| < abytes && Content() == []
      requires |aux| == abytes ==> aux == []
      requires all == head + (aux + Content() + input)
      modifies this, buf
      ensures |rest| <= |input| && Reads(c, all, old(seqno), out, rest)
      ensures out.Wait? && input != [] && want > 0 ==> |rest| < |input|
    {
      hide Next, Announces;
      rest := input;
      var error: Option<Error> := None;
      if |aux| < abytes {
        var whole;
        whole, error, rest := ReadAux(c, want, rest);
        if !whole {
          assert all == head + aux + rest;
          Unfinished(c, head, aux, rest, abytes, seqno);
          return Wait, rest;
        }
      }
      Assoc(head, aux, Content(), rest);
      out := Deliver(c, error, rest);
    }

    /** A call on the stream `all` with next number `n` ended with `out`. */
    ghost predicate Reads(c: Codec, all: seq<Byte>, n: nat, out: Outcome, rest: seq<Byte>)
      reads this, buf
    {
      match out
      case Fail(e) => Next(c, all, n) == Bad(e)
      case Got(w) => Valid(c) && seqno == n + 1 && Next(c, all, n) == Message(w, Unread(rest))
      case Wait => Waits(c, all, rest) && seqno == n
    }

    /** `dmsg_ioq_read`: one call, with up to three reads of `w1`, `w2`, `w3` bytes.
        A message or a defect is the one at the front of the stream, and waiting
        loses nothing. */
    method IoqRead(c: Codec, input: seq<Byte>, w1: nat, w2: nat, w3: nat) returns (out: Outcome, rest: seq<Byte>)
      requires Valid(c)
      modifies this, buf
      ensures |rest| <= |input| && Reads(c, old(Unread(input)), old(seqno), out, rest)
      ensures out.Wait? && input != [] && w1 > 0 && w2 > 0 && w3 > 0 ==> |rest| < |input|
    {
      hide Next, Announces;
      rest := input;
      ghost var all := Unread(input);
      if phase != AuxData2 {
        var stop;
        stop, rest := ReadHeaders(c, input, w1, w2);
        if stop.Some? {
          return stop.value, rest;
        }
        assert head + Content() + rest == head + (aux + Content() + rest);
      } else {
        assert head + aux + rest == head + (aux + Content() + rest);
      }
      out, rest := ReadBody(c, rest, w3, all);
    }

    /** One call, and what it adds to the messages got so far out of `stream`. */
    method Poll(c: Codec, input: seq<Byte>, w: (nat, nat, nat), ghost stream: seq<Byte>, got: seq<Wire>)
      returns (last: Outcome, got': seq<Wire>, rest: seq<Byte>)
      requires Valid(c) && Tracks(c, stream, got, Unread(input), seqno)
      modifies this, buf
      ensures last.Fail? ==> got' == Messages(c, stream, 0) && Ending(c, stream, 0) == Bad(last.error)
      ensures !last.Fail? ==> Valid(c) && Tracks(c, stream, got', Unread(rest), seqno)
      ensures last.Got? ==> |Unread(rest)| < old(|Unread(input)|)
      ensures last.Wait? && rest == [] ==> got' == Messages(c, stream, 0) && Ending(c, stream, 0) == More
      ensures last.Wait? ==> |Unread(rest)| == old(|Unread(input)|)
      ensures last.Wait? && rest != [] && w.0 > 0 && w.1 > 0 && w.2 > 0 ==> |rest| < |input|
    {
      hide Next, Announces, Messages, Ending, Tracks;
      Advances(c, stream, got, Unread(input), seqno);
      last, rest := IoqRead(c, input, w.0, w.1, w.2);
      got' := if last.Got? then got + [last.w] else got;
    }
  }

  // ----- whole connections -----

  /** Flushing with any sequence of partial writes puts exactly the queue on the wire. */
  method SendAll(ms: seq<Wire>, sizes: seq<nat>) returns (stream: seq<Byte>)
    requires forall w <- ms :: |w.head| >= ALIGN
    ensures stream == StreamOf(ms)
  {
    hide StreamOf, Pending;
    var tx := new Writer(ms);
    stream := [];
    var i := 0;
    while tx.q != []
      invariant tx.Valid() && Splits(StreamOf(ms), stream, tx.Rest()) && 0 <= i <= |sizes|
      decreases |sizes| - i, |tx.Rest()|
    {
      var want := if i < |sizes| then sizes[i] else BUF_SIZE;
      PendingLeft(tx.q, tx.hoff, tx.aoff);
      ghost var before := tx.Rest();
      var sent := tx.Flush2(want);
      Resplit(StreamOf(ms), stream, before, sent, tx.Rest());
      stream := stream + sent;
      i := if i < |sizes| then i + 1 else i;
    }
    PendingLeft(tx.q, tx.hoff, tx.aoff);
  }

  /** `got` came out of `stream` so far and `all` is what is left of it. */
  ghost predicate Tracks(c: Codec, stream: seq<Byte>, got: seq<Wire>, all: seq<Byte>, n: nat) {
    Messages(c, stream, 0) == got + Messages(c, all, n) && Ending(c, stream, 0) == Ending(c, all, n)
  }

  lemma TracksFresh(c: Codec, stream: seq<Byte>)
    ensures Tracks(c, stream, [], stream, 0)
  {
  }

  lemma Advances(c: Codec, stream: seq<Byte>, got: seq<Wire>, all: seq<Byte>, n: nat)
    requires Tracks(c, stream, got, all, n)
    ensures match Next(c, all, n)
            case Message(w, rest) => Tracks(c, stream, got + [w], rest, n + 1) && |rest| < |all|
            case other => got == Messages(c, stream, 0) && Ending(c, stream, 0) == other
  {
  }

  /** Reading any byte stream in any pieces gives the messages it means, and
      ends the way it ends. */
  method ReceiveAll(c: Codec, stream: seq<Byte>, sizes: seq<(nat, nat, nat)>) returns (got: seq<Wire>, last: Outcome)
    ensures got == Messages(c, stream, 0) && !last.Got?
    ensures last.Fail? ==> Ending(c, stream, 0) == Bad(last.error)
    ensures last.Wait? ==> Ending(c, stream, 0) == More
  {
    hide Next, Messages, Ending, Announces, Tracks;
    var rx := new Reader();
    got, last := [], Wait;
    var rest, i := stream, 0;
    TracksFresh(c, stream);
    assert rx.Unread(rest) == stream;
    while true
      invariant fresh(rx) && fresh(rx.buf) && rx.Valid(c) && 0 <= i <= |sizes|
      invariant Tracks(c, stream, got, rx.Unread(rest), rx.seqno)
      decreases |sizes| - i, |rx.Unread(rest)|, |rest|
    {
      var w := if i < |sizes| then sizes[i] else (BUF_SIZE, BUF_SIZE, BUF_SIZE);
      last, got, rest := rx.Poll(c, rest, w, stream, got);
      if last.Fail? || (last.Wait? && rest == []) {
        return;
      }
      i := if i < |sizes| then i + 1 else i;
    }
  }
}
