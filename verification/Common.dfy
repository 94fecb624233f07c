/** Small things several modules need. */
module Common {

  datatype Option<T> = None | Some(value: T)

  function Pow2(n: nat): nat {
    if n == 0 then 1 else 2 * Pow2(n - 1)
  }

  type Byte = x: int | 0 <= x < 256

  const WORDS: nat := 4294967296

  type Word = x: int | 0 <= x < WORDS

  /** A 32-bit word in memory, low byte first. */
  function Put32(x: Word): (s: seq<Byte>)
    ensures |s| == 4
  {
    [x % 256, x / 256 % 256, x / 65536 % 256, x / 16777216]
  }

  function Get32(s: seq<Byte>, at: nat): Word
    requires at + 4 <= |s|
  {
    var a, b, c, d: int := s[at], s[at + 1], s[at + 2], s[at + 3];
    a + 256 * b + 65536 * c + 16777216 * d
  }

  lemma GetPut(s: seq<Byte>, at: nat, x: Word)
    requires at + 4 <= |s| && s[at..at + 4] == Put32(x)
    ensures Get32(s, at) == x
  {
    var t := s[at..at + 4];
    assert t[0] == s[at] && t[1] == s[at + 1] && t[2] == s[at + 2] && t[3] == s[at + 3];
    Digits(x);
  }

  lemma Digits(x: Word)
    ensures x == x % 256 + 256 * (x / 256 % 256) + 65536 * (x / 65536 % 256) + 16777216 * (x / 16777216)
  {
    assert x / 256 == x / 65536 * 256 + x / 256 % 256;
    assert x / 65536 == x / 16777216 * 256 + x / 65536 % 256;
  }

  /** `t` with `s` written over it. */
  function Patch(t: seq<Byte>, at: nat, s: seq<Byte>): (r: seq<Byte>)
    requires at + |s| <= |t|
    ensures |r| == |t|
  {
    t[..at] + s + t[at + |s|..]
  }

  /** A patch changes nothing before and behind it. */
  lemma PatchSlice(t: seq<Byte>, at: nat, s: seq<Byte>, a: nat, b: nat)
    requires at + |s| <= |t| && a <= b <= |t|
    ensures a == at && b == at + |s| ==> Patch(t, at, s)[a..b] == s
    ensures b <= at || at + |s| <= a ==> Patch(t, at, s)[a..b] == t[a..b]
  {
    var r := Patch(t, at, s);
    assert forall k | 0 <= k < |t| :: r[k] == if at <= k < at + |s| then s[k - at] else t[k];
    if b <= at || at + |s| <= a {
      assert forall k | a <= k < b :: r[k] == t[k];
    }
  }

  lemma SliceGet(s: seq<Byte>, t: seq<Byte>, at: nat)
    requires at + 4 <= |s| && at + 4 <= |t| && s[at..at + 4] == t[at..at + 4]
    ensures Get32(s, at) == Get32(t, at)
  {
    var x, y := s[at..at + 4], t[at..at + 4];
    assert x[0] == s[at] && x[1] == s[at + 1] && x[2] == s[at + 2] && x[3] == s[at + 3];
    assert y[0] == t[at] && y[1] == t[at + 1] && y[2] == t[at + 2] && y[3] == t[at + 3];
  }

  /** A word written is the word read, and the others stay. */
  lemma PatchGet(t: seq<Byte>, at: nat, x: Word, i: nat)
    requires at + 4 <= |t| && i + 4 <= |t|
    ensures i == at ==> Get32(Patch(t, at, Put32(x)), i) == x
    ensures i + 4 <= at || at + 4 <= i ==> Get32(Patch(t, at, Put32(x)), i) == Get32(t, i)
  {
    hide Put32, Get32;
    PatchSlice(t, at, Put32(x), i, i + 4);
    var r := Patch(t, at, Put32(x));
    if i == at {
      GetPut(r, at, x);
    } else if i + 4 <= at || at + 4 <= i {
      SliceGet(r, t, i);
    }
  }

  /** Pieces put on a wire one after the other. */
  function WireOf(ws: seq<seq<Byte>>): seq<Byte> {
    if ws == [] then [] else ws[0] + WireOf(ws[1..])
  }

  lemma {:induction false} WireSplit(ws: seq<seq<Byte>>, k: nat)
    requires k <= |ws|
    ensures WireOf(ws) == WireOf(ws[..k]) + WireOf(ws[k..])
  {
    if k == 0 {
      assert ws[k..] == ws;
    } else {
      WireSplit(ws[1..], k - 1);
      assert ws[..k][1..] == ws[1..][..k - 1] && ws[1..][k - 1..] == ws[k..];
    }
  }

  lemma WireJoin(a: seq<seq<Byte>>, b: seq<seq<Byte>>)
    ensures WireOf(a + b) == WireOf(a) + WireOf(b)
  {
    WireSplit(a + b, |a|);
    assert (a + b)[..|a|] == a && (a + b)[|a|..] == b;
  }
}
