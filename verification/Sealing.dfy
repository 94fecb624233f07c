/** The header of a dmsg message and what `dmsg_iocom_flush1` fills in before a
    message is written, held against the parser at the other end. */
module Sealing {
  import opened Common
  import opened Stream

  /** Offsets in the 64-byte core header. */
  const SALT: nat := 0x04
  const CMD: nat := 0x20
  const AUX_CRC: nat := 0x24
  const AUX_BYTES: nat := 0x28
  const HDR_CRC: nat := 0x3c

  const MAGIC: seq<Byte> := [0x32, 0x48]
  const MAGIC_REV: seq<Byte> := [0x48, 0x32]

  /** A 32-bit field of a header, in the byte order its magic tells. */
  function Field(head: seq<Byte>, at: nat): Word
    requires at + 4 <= |head|
  {
    if head[..2] == MAGIC_REV then Get32([head[at + 3], head[at + 2], head[at + 1], head[at]], 0) else Get32(head, at)
  }

  function FieldOf(head: seq<Byte>, at: nat): Word {
    if |head| < at + 4 then 0 else Field(head, at)
  }

  /** The header with its own CRC field cleared, over which the CRC is taken. */
  function Cleared(head: seq<Byte>): seq<Byte> {
    if |head| < ALIGN then head else Patch(head, HDR_CRC, Put32(0))
  }

  /** The length of the auxiliary data; rounding it up is done in 32 bits. */
  function AuxBytes(x: Word): nat {
    if x + ALIGN - 1 < WORDS then x else 0
  }

  /** The header as the parser reads it. */
  function Dmsg(icrc: seq<Byte> -> Word): Codec {
    Codec(core => |core| >= 2 && (core[..2] == MAGIC || core[..2] == MAGIC_REV),
          core => FieldOf(core, CMD) % 256,
          core => AuxBytes(FieldOf(core, AUX_BYTES)),
          core => FieldOf(core, SALT),
          head => FieldOf(head, HDR_CRC) == icrc(Cleared(head)),
          (head, aux) => FieldOf(head, AUX_CRC) == icrc(aux))
  }

  // ----- sealing -----

  /** A message in the transmit queue: its header, and its auxiliary data with the
      padding behind it. */
  datatype Raw = Raw(head: seq<Byte>, auxSize: nat, aux: seq<Byte>)

  /** What is taken to be so of every message that is built. */
  predicate WellSized(m: Raw) {
    ALIGN <= |m.head| <= HDR_MAX && Get32(m.head, CMD) % 256 * ALIGN == |m.head| &&
    |m.aux| == Align(m.auxSize) <= AUX_MAX
  }

  /** The CRC of the auxiliary data, if it was set beforehand, is the right one. */
  predicate PresetOk(icrc: seq<Byte> -> Word, m: Raw)
    requires WellSized(m)
  {
    m.auxSize == 0 || Get32(m.head, AUX_CRC) == 0 || Get32(m.head, AUX_CRC) == icrc(m.aux)
  }

  /** `(random() << 8) | (seq & 255)`. */
  function Salt(random: nat, seqno: nat): Word {
    (random * 256 + seqno % 256) % WORDS
  }

  /** Magic, salt, CRC and length of the auxiliary data. */
  function Filled(icrc: seq<Byte> -> Word, m: Raw, random: nat, seqno: nat): (h: seq<Byte>)
    requires WellSized(m)
    ensures |h| == |m.head|
  {
    var h := Patch(Patch(m.head, 0, MAGIC), SALT, Put32(Salt(random, seqno)));
    var h' := if m.auxSize > 0 && Get32(h, AUX_CRC) == 0 then Patch(h, AUX_CRC, Put32(icrc(m.aux))) else h;
    Patch(h', AUX_BYTES, Put32(m.auxSize))
  }

  /** Then the CRC of the header. */
  function Seal(icrc: seq<Byte> -> Word, m: Raw, random: nat, seqno: nat): Wire
    requires WellSized(m)
  {
    var h := Patch(Filled(icrc, m, random, seqno), HDR_CRC, Put32(0));
    Wire(Patch(h, HDR_CRC, Put32(icrc(h))), m.aux)
  }

  /** The fields before the header's own CRC. */
  lemma FilledFields(icrc: seq<Byte> -> Word, m: Raw, random: nat, seqno: nat)
    requires WellSized(m)
    ensures var h := Filled(icrc, m, random, seqno);
            h[..2] == MAGIC && Get32(h, SALT) == Salt(random, seqno) && Get32(h, CMD) == Get32(m.head, CMD) &&
            Get32(h, AUX_BYTES) == m.auxSize &&
            Get32(h, AUX_CRC) == if m.auxSize > 0 && Get32(m.head, AUX_CRC) == 0 then icrc(m.aux) else Get32(m.head, AUX_CRC)
  {
    hide Put32, Get32, Patch, Salt;
    AuxFits(m);
    var h0 := Patch(m.head, 0, MAGIC);
    var h1 := Patch(h0, SALT, Put32(Salt(random, seqno)));
    var h2 := if m.auxSize > 0 && Get32(h1, AUX_CRC) == 0 then Patch(h1, AUX_CRC, Put32(icrc(m.aux))) else h1;
    var h3 := Patch(h2, AUX_BYTES, Put32(m.auxSize));
    MagicKept(m.head, Salt(random, seqno));
    Words(m.head, h0);
    OtherWords(h0, SALT, Salt(random, seqno));
    OtherWords(h1, AUX_CRC, icrc(m.aux));
    OtherWords(h2, AUX_BYTES, m.auxSize);
  }

  lemma AuxFits(m: Raw)
    requires WellSized(m)
    ensures m.auxSize <= AUX_MAX < WORDS && (m.aux == [] <==> m.auxSize == 0)
  {
  }

  lemma MagicKept(head: seq<Byte>, salt: Word)
    requires |head| >= ALIGN
    ensures Patch(head, 0, MAGIC)[..2] == MAGIC
  {
  }

  /** Writing the magic leaves the words behind it. */
  lemma Words(head: seq<Byte>, h: seq<Byte>)
    requires |head| >= ALIGN && h == Patch(head, 0, MAGIC)
    ensures Get32(h, CMD) == Get32(head, CMD) && Get32(h, AUX_CRC) == Get32(head, AUX_CRC)
  {
    hide Get32;
    PatchSlice(head, 0, MAGIC, CMD, CMD + 4);
    PatchSlice(head, 0, MAGIC, AUX_CRC, AUX_CRC + 4);
    SliceGet(h, head, CMD);
    SliceGet(h, head, AUX_CRC);
  }

  /** Writing one of the words leaves the magic and the others. */
  lemma OtherWords(h: seq<Byte>, at: nat, x: Word)
    requires |h| >= ALIGN && at in {SALT, AUX_CRC, AUX_BYTES, HDR_CRC}
    ensures var r := Patch(h, at, Put32(x));
            r[..2] == h[..2] && Get32(r, at) == x &&
            forall i | i in {SALT, CMD, AUX_CRC, AUX_BYTES, HDR_CRC} && i != at :: Get32(r, i) == Get32(h, i)
  {
    hide Put32, Get32;
    PatchGet(h, at, x, SALT);
    PatchGet(h, at, x, CMD);
    PatchGet(h, at, x, AUX_CRC);
    PatchGet(h, at, x, AUX_BYTES);
    PatchGet(h, at, x, HDR_CRC);
    PatchSlice(h, at, Put32(x), 0, 2);
  }

  lemma PatchTwice(h: seq<Byte>, at: nat, a: seq<Byte>, b: seq<Byte>)
    requires |a| == |b| && at + |a| <= |h|
    ensures Patch(Patch(h, at, a), at, b) == Patch(h, at, b)
  {
  }

  /** Everything the parser asks of a sealed header. */
  lemma SealedFields(icrc: seq<Byte> -> Word, m: Raw, random: nat, seqno: nat)
    requires WellSized(m)
    ensures var w := Seal(icrc, m, random, seqno);
            |w.head| == |m.head| && w.head[..2] == MAGIC && Get32(w.head, SALT) == Salt(random, seqno) &&
            Get32(w.head, CMD) == Get32(m.head, CMD) && Get32(w.head, AUX_BYTES) == m.auxSize &&
            Get32(w.head, HDR_CRC) == icrc(Cleared(w.head)) &&
            Get32(w.head, AUX_CRC) ==
              if m.auxSize > 0 && Get32(m.head, AUX_CRC) == 0 then icrc(m.aux) else Get32(m.head, AUX_CRC)
  {
    hide Put32, Get32, Patch, Filled, Salt;
    var f := Filled(icrc, m, random, seqno);
    var h := Patch(f, HDR_CRC, Put32(0));
    FilledFields(icrc, m, random, seqno);
    OtherWords(f, HDR_CRC, 0);
    OtherWords(h, HDR_CRC, icrc(h));
    PatchTwice(f, HDR_CRC, Put32(0), Put32(icrc(h)));
    PatchTwice(f, HDR_CRC, Put32(icrc(h)), Put32(0));
  }

  lemma CoreFields(head: seq<Byte>)
    requires |head| >= ALIGN && head[..2] == MAGIC
    ensures var core := head[..ALIGN];
            core[..2] == MAGIC && FieldOf(core, CMD) == Get32(head, CMD) && FieldOf(core, SALT) == Get32(head, SALT) &&
            FieldOf(core, AUX_BYTES) == Get32(head, AUX_BYTES) && FieldOf(head, HDR_CRC) == Get32(head, HDR_CRC) &&
            FieldOf(head, AUX_CRC) == Get32(head, AUX_CRC)
  {
    var core := head[..ALIGN];
    assert core[..2] == head[..2];
    hide Get32;
    SliceGet(core, head, CMD);
    SliceGet(core, head, SALT);
    SliceGet(core, head, AUX_BYTES);
  }

  lemma SaltLow(random: nat, seqno: nat)
    ensures Salt(random, seqno) % 256 == seqno % 256
  {
    var x := random * 256 + seqno % 256;
    assert x % WORDS == x - x / WORDS * WORDS;
    assert x % 256 == seqno % 256;
    Multiple(x, x / WORDS);
  }

  lemma Multiple(x: nat, q: nat)
    requires x >= q * WORDS
    ensures (x - q * WORDS) % 256 == x % 256
  {
    assert q * WORDS == q * 16777216 * 256;
    assert (x - q * 16777216 * 256) % 256 == x % 256;
  }

  /** A well-sized message is sealed as the parser wants it exactly when a CRC of its
      auxiliary data that was set beforehand is the right one. */
  lemma SealExact(icrc: seq<Byte> -> Word, m: Raw, random: nat, seqno: nat)
    requires WellSized(m)
    ensures Sealed(Dmsg(icrc), Seal(icrc, m, random, seqno), seqno) <==> PresetOk(icrc, m)
    ensures var w := Seal(icrc, m, random, seqno); Announces(Dmsg(icrc), w.head, |w.head|, |w.aux|)
  {
    hide Seal, Get32, FieldOf, Salt, Align, Cleared;
    var w := Seal(icrc, m, random, seqno);
    SealedFields(icrc, m, random, seqno);
    CoreFields(w.head);
    SaltLow(random, seqno);
    AuxFits(m);
    assert w.aux == m.aux by {
      SealAux(icrc, m, random, seqno);
    }
  }

  lemma SealAux(icrc: seq<Byte> -> Word, m: Raw, random: nat, seqno: nat)
    requires WellSized(m)
    ensures Seal(icrc, m, random, seqno).aux == m.aux
  {
    hide Filled;
  }

  // ----- a whole queue -----

  /** The queue sealed, its first message as number `n` of the connection. */
  function SealAll(icrc: seq<Byte> -> Word, q: seq<Raw>, random: nat -> nat, n: nat): (ws: seq<Wire>)
    requires forall i | 0 <= i < |q| :: WellSized(q[i])
    ensures |ws| == |q| && forall i | 0 <= i < |q| :: ws[i] == Seal(icrc, q[i], random(n + i), n + i)
  {
    seq(|q|, i requires 0 <= i < |q| && WellSized(q[i]) => Seal(icrc, q[i], random(n + i), n + i))
  }

  /** `dmsg_iocom_flush1`: every message of the queue is filled in, field by field. */
  method Flush1(icrc: seq<Byte> -> Word, q: seq<Raw>, random: nat -> nat, seqno: nat)
    returns (ws: seq<Wire>, seqno': nat)
    requires forall i | 0 <= i < |q| :: WellSized(q[i])
    ensures ws == SealAll(icrc, q, random, seqno) && seqno' == seqno + |q|
  {
    hide Patch, Put32, Get32, WellSized;
    ws, seqno' := [], seqno;
    for i := 0 to |q|
      invariant seqno' == seqno + i && |ws| == i
      invariant forall j | 0 <= j < i :: ws[j] == Seal(icrc, q[j], random(seqno + j), seqno + j)
    {
      var m := q[i];
      var head := Fill(icrc, m, random(seqno'), seqno');
      ws := ws + [Wire(head, m.aux)];
      seqno' := seqno' + 1;
    }
  }

  method Fill(icrc: seq<Byte> -> Word, m: Raw, random: nat, seqno: nat) returns (head: seq<Byte>)
    requires WellSized(m)
    ensures Wire(head, m.aux) == Seal(icrc, m, random, seqno)
  {
    AuxFits(m);
    hide Patch, Put32, Get32;
    head := Patch(m.head, 0, MAGIC);
    head := Patch(head, SALT, Put32((random * 256 + seqno % 256) % WORDS));
    if m.auxSize > 0 && Get32(head, AUX_CRC) == 0 {
      head := Patch(head, AUX_CRC, Put32(icrc(m.aux)));
    }
    head := Patch(head, AUX_BYTES, Put32(m.auxSize));
    head := Patch(head, HDR_CRC, Put32(0));
    head := Patch(head, HDR_CRC, Put32(icrc(head)));
  }

  /** The number of messages before the first whose CRC was set wrong beforehand. */
  function Good(icrc: seq<Byte> -> Word, q: seq<Raw>): (k: nat)
    requires forall i | 0 <= i < |q| :: WellSized(q[i])
    ensures k <= |q| && (forall i | 0 <= i < k :: PresetOk(icrc, q[i])) && (k < |q| ==> !PresetOk(icrc, q[k]))
    decreases |q|
  {
    if q == [] || !PresetOk(icrc, q[0]) then 0
    else
      var k := Good(icrc, q[1..]);
      assert forall i | 0 <= i < k :: PresetOk(icrc, q[1..][i]);
      assert forall i | 0 < i < k + 1 :: q[i] == q[1..][i - 1];
      1 + k
  }

  /** A message whose CRC was set wrong is refused for it. */
  lemma WrongPreset(icrc: seq<Byte> -> Word, m: Raw, random: nat, seqno: nat, rest: seq<Byte>, n: nat)
    requires WellSized(m) && !PresetOk(icrc, m)
    ensures var w := Seal(icrc, m, random, seqno);
            Next(Dmsg(icrc), w.head + w.aux + rest, n) == Bad(AuxCrc)
  {
    hide Seal, Get32, FieldOf, Salt, Align, Cleared;
    var w := Seal(icrc, m, random, seqno);
    SealExact(icrc, m, random, seqno);
    SealedFields(icrc, m, random, seqno);
    SealAux(icrc, m, random, seqno);
    CoreFields(w.head);
    AuxFits(m);
    Judged(Dmsg(icrc), w.head, w.aux, rest, n);
  }

  lemma SealedUntil(icrc: seq<Byte> -> Word, q: seq<Raw>, random: nat -> nat, k: nat)
    requires (forall i | 0 <= i < |q| :: WellSized(q[i])) && k == Good(icrc, q)
    ensures AllSealed(Dmsg(icrc), SealAll(icrc, q, random, 0)[..k], 0)
  {
    hide Sealed, Seal, WellSized;
    var ws := SealAll(icrc, q, random, 0);
    forall i | 0 <= i < k
      ensures Sealed(Dmsg(icrc), ws[..k][i], 0 + i)
    {
      assert ws[..k][i] == ws[i] == Seal(icrc, q[i], random(0 + i), 0 + i);
      SealExact(icrc, q[i], random(i), i);
    }
  }

  /** What a sealed queue means as a byte stream: its messages up to the first whose
      CRC was set wrong, and that one is refused. */
  lemma QueueReads(icrc: seq<Byte> -> Word, q: seq<Raw>, random: nat -> nat)
    requires forall i | 0 <= i < |q| :: WellSized(q[i])
    ensures var c, ws, k := Dmsg(icrc), SealAll(icrc, q, random, 0), Good(icrc, q);
            Messages(c, StreamOf(ws), 0) == ws[..k] &&
            Ending(c, StreamOf(ws), 0) == if k == |q| then More else Bad(AuxCrc)
  {
    hide SealAll, Good, Dmsg, StreamOf, Messages, Ending, AllSealed, WellSized, Seal, PresetOk, Next;
    var ws, k := SealAll(icrc, q, random, 0), Good(icrc, q);
    SealedUntil(icrc, q, random, k);
    RestReads(icrc, q, random, k);
    ReadsUntil(Dmsg(icrc), ws, k);
  }

  lemma ReadsUntil(c: Codec, ws: seq<Wire>, k: nat)
    requires k <= |ws| && AllSealed(c, ws[..k], 0) && Messages(c, StreamOf(ws[k..]), k) == []
    ensures Messages(c, StreamOf(ws), 0) == ws[..k] && Ending(c, StreamOf(ws), 0) == Ending(c, StreamOf(ws[k..]), k)
  {
    hide StreamOf, Messages, Ending, AllSealed;
    StreamSplit(ws, k);
    ReadsBack(c, ws[..k], StreamOf(ws[k..]), 0);
    assert 0 + |ws[..k]| == k;
    assert ws[..k] + [] == ws[..k];
  }

  lemma RestReads(icrc: seq<Byte> -> Word, q: seq<Raw>, random: nat -> nat, k: nat)
    requires (forall i | 0 <= i < |q| :: WellSized(q[i])) && k == Good(icrc, q)
    ensures var c, rest := Dmsg(icrc), StreamOf(SealAll(icrc, q, random, 0)[k..]);
            Messages(c, rest, k) == [] && Ending(c, rest, k) == if k == |q| then More else Bad(AuxCrc)
  {
    hide Seal, WellSized, Dmsg, StreamOf, Next, Messages, Ending;
    var c, left := Dmsg(icrc), SealAll(icrc, q, random, 0)[k..];
    if k == |q| {
      NothingLeft(c, left, k);
    } else {
      assert left[0] == Seal(icrc, q[k], random(0 + k), 0 + k);
      FirstOfStream(left);
      WrongPreset(icrc, q[k], random(k), k, StreamOf(left[1..]), k);
      RefusedAtOnce(c, StreamOf(left), k);
    }
  }

  lemma {:induction false} StreamSplit(ws: seq<Wire>, k: nat)
    requires k <= |ws|
    ensures StreamOf(ws) == StreamOf(ws[..k]) + StreamOf(ws[k..])
  {
    if k == 0 {
      assert ws[k..] == ws && ws[..k] == [];
      assert StreamOf(ws) == [] + StreamOf(ws);
    } else {
      StreamSplit(ws[1..], k - 1);
      assert ws[..k][1..] == ws[1..][..k - 1] && ws[1..][k - 1..] == ws[k..];
      FirstOfStream(ws);
      FirstOfStream(ws[..k]);
      hide StreamOf;
      Assoc3(ws[0].head + ws[0].aux, StreamOf(ws[..k][1..]), StreamOf(ws[k..]));
    }
  }

  lemma NothingLeft(c: Codec, ws: seq<Wire>, n: nat)
    requires ws == []
    ensures Messages(c, StreamOf(ws), n) == [] && Ending(c, StreamOf(ws), n) == More
  {
  }

  lemma FirstOfStream(ws: seq<Wire>)
    requires ws != []
    ensures StreamOf(ws) == ws[0].head + ws[0].aux + StreamOf(ws[1..])
  {
  }

  lemma RefusedAtOnce(c: Codec, s: seq<Byte>, n: nat)
    requires Next(c, s, n).Bad?
    ensures Messages(c, s, n) == [] && Ending(c, s, n) == Next(c, s, n)
  {
    hide Next;
  }

  /** Queued, sealed, written and read, under any splitting of the writes and of the
      reads: the messages arrive in order and without an error exactly up to the
      first whose CRC was set wrong. */
  method Session(icrc: seq<Byte> -> Word, q: seq<Raw>, random: nat -> nat, writes: seq<nat>, pieces: seq<(nat, nat, nat)>)
    returns (got: seq<Wire>, last: Outcome)
    requires forall i | 0 <= i < |q| :: WellSized(q[i])
    ensures var k := Good(icrc, q);
            got == SealAll(icrc, q, random, 0)[..k] && last == if k == |q| then Wait else Fail(AuxCrc)
  {
    hide Dmsg, Messages, Ending, Seal;
    var ws, n := Flush1(icrc, q, random, 0);
    SealedLengths(icrc, q, random);
    var stream := SendAll(ws, writes);
    got, last := ReceiveAll(Dmsg(icrc), stream, pieces);
    QueueReads(icrc, q, random);
  }

  lemma SealedLengths(icrc: seq<Byte> -> Word, q: seq<Raw>, random: nat -> nat)
    requires forall i | 0 <= i < |q| :: WellSized(q[i])
    ensures forall w <- SealAll(icrc, q, random, 0) :: |w.head| >= ALIGN
  {
    hide Seal, Get32;
    var ws := SealAll(icrc, q, random, 0);
    forall w <- ws
      ensures |w.head| >= ALIGN
    {
      var i :| 0 <= i < |ws| && ws[i] == w;
      assert w == Seal(icrc, q[i], random(0 + i), 0 + i);
      SealedFields(icrc, q[i], random(i), i);
    }
  }
}
