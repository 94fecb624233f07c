/** The CRC range of a memory-limited dedup pass: [start, end), halved when the
    memory runs out. */
module CrcRange {

  /** CRCs are 32 bits; an end of 0 stands for no upper bound. */
  const CRCS: nat := 4294967296

  function Bound(end: nat): nat {
    if end == 0 then CRCS else end
  }

  /** The new end of the range, in 32-bit arithmetic. */
  function Halved(start: nat, end: nat): nat {
    (start + (end - start - 1) % CRCS / 2) % CRCS
  }

  /** No wrap-around shows: the new end is half way. */
  lemma HalvedInside(start: nat, end: nat)
    requires start < Bound(end) <= CRCS
    ensures start <= Halved(start, end) == start + (Bound(end) - start - 1) / 2 < Bound(end)
  {
    assert (end - start - 1) % CRCS == Bound(end) - start - 1;
  }
}
