/** Splitting a bulk mirror transfer: a histogram over the transaction id range,
    reduced to slices of at least a given size. */
module Histogram {

  const N: nat := 1048576
  const U64: nat := 18446744073709551616
  /** Spans from here on overflow the 64-bit products. */
  const SPAN: nat := 17592186044416

  /** A transaction id with the bytes to be transferred for it. */
  datatype Event = Event(tid: nat, len: nat)

  /** The low 64 bits. */
  function Wrap(x: nat): nat {
    x % U64
  }

  function Div(x: nat, y: nat): nat
    requires y > 0
  {
    x / y
  }

  /** Where bucket `i` begins: it holds the transaction ids above this. */
  function Edge(beg: nat, end: nat, i: nat): nat
    requires beg < end
  {
    beg + Div(Wrap(i * (end - beg)), N)
  }

  /** The bucket computation, in 64-bit arithmetic. */
  function Index(beg: nat, end: nat, tid: nat): nat
    requires beg < end && beg <= tid <= end
  {
    var i := Div(Wrap((tid - beg) * N), end - beg);
    if tid == Edge(beg, end, i) && i > 0 then i - 1 else i
  }

  /** Bucket `i` is everything above this: the first one has the first id too. */
  function Floor(beg: nat, end: nat, i: nat): int
    requires beg < end
  {
    if i == 0 then beg - 1 else Edge(beg, end, i)
  }

  lemma DivBounds(x: nat, y: nat)
    requires y > 0
    ensures Div(x, y) * y <= x < Div(x, y) * y + y
  {
  }

  lemma MulLess(a: nat, b: nat, n: nat)
    requires n > 0 && a * n < b * n + n
    ensures a <= b
  {
    assert a > b ==> a * n >= (b + 1) * n;
  }

  lemma Product(x: nat, s: nat)
    requires x <= N && s < SPAN
    ensures Wrap(x * s) == x * s && s * x == x * s
  {
    hide Wrap;
    MulRises(x, N, s);
    assert N * s < U64;
    Unwrapped(x * s);
  }

  lemma MulRises(a: nat, b: nat, n: nat)
    requires a <= b
    ensures a * n <= b * n
  {
  }

  lemma Unwrapped(x: nat)
    requires x < U64
    ensures Wrap(x) == x
  {
  }

  lemma EdgeIs(beg: nat, end: nat, i: nat)
    requires beg < end && end - beg < SPAN && i <= N
    ensures var b, s := Edge(beg, end, i) - beg, end - beg;
            b >= 0 && b * N <= i * s < b * N + N
  {
    hide Div, Wrap;
    Product(i, end - beg);
    DivBounds(i * (end - beg), N);
  }

  lemma EdgeEnds(beg: nat, end: nat)
    requires beg < end && end - beg < SPAN
    ensures Edge(beg, end, 0) == beg && Edge(beg, end, N) == end
  {
    EdgeIs(beg, end, 0);
    EdgeIs(beg, end, N);
    MulLess(end - beg, Edge(beg, end, N) - beg, N);
    MulLess(Edge(beg, end, N) - beg, end - beg, N);
  }

  lemma EdgesRise(beg: nat, end: nat, i: nat, j: nat)
    requires beg < end && end - beg < SPAN && i <= j <= N
    ensures Edge(beg, end, i) <= Edge(beg, end, j)
    ensures Edge(beg, end, 0) == beg && Edge(beg, end, N) == end
  {
    hide Edge;
    EdgeIs(beg, end, i);
    EdgeIs(beg, end, j);
    EdgeEnds(beg, end);
    MulRises(i, j, end - beg);
    MulLess(Edge(beg, end, i) - beg, Edge(beg, end, j) - beg, N);
  }

  /** Without the adjustment: the quotient's bucket is closed on both sides. */
  lemma Quotient(beg: nat, end: nat, d: nat, i: nat)
    requires beg < end && end - beg < SPAN && d <= end - beg && i == Div(d * N, end - beg)
    ensures i <= N && (i == N <==> d == end - beg) && i * (end - beg) <= d * N
    ensures Edge(beg, end, i) <= beg + d && (i < N ==> beg + d <= Edge(beg, end, i + 1))
  {
    hide Div, Edge;
    var s := end - beg;
    DivBounds(d * N, s);
    assert i * s <= d * N < i * s + s;
    assert d * N <= s * N;
    MulLess(i, N, s);
    if i == N {
      MulLess(s, d, N);
    }
    if d == s {
      MulLess(N, i, s);
    }
    EdgeIs(beg, end, i);
    MulLess(Edge(beg, end, i) - beg, d, N);
    if i < N {
      EdgeIs(beg, end, i + 1);
      assert (i + 1) * s == i * s + s;
      MulLess(d, Edge(beg, end, i + 1) - beg, N);
    }
  }

  lemma StepDown(beg: nat, end: nat, d: nat, i: nat)
    requires beg < end && end - beg < SPAN && 0 < i <= N && i * (end - beg) <= d * N
    ensures Edge(beg, end, i - 1) < beg + d
  {
    var s := end - beg;
    EdgeIs(beg, end, i - 1);
    var b := Edge(beg, end, i - 1) - beg;
    assert (i - 1) * s == i * s - s;
    assert b * N < d * N;
  }

  lemma IndexIs(beg: nat, end: nat, tid: nat)
    requires beg < end && end - beg < SPAN && beg <= tid <= end
    ensures var i := Div((tid - beg) * N, end - beg);
            Index(beg, end, tid) == if tid == Edge(beg, end, i) && i > 0 then i - 1 else i
  {
    hide Edge, Div, Wrap;
    Product(N, tid - beg);
  }

  /** Below a span of 2^44 every transaction id falls in bounds and into exactly
      the bucket whose half-open range has it. */
  lemma IndexExact(beg: nat, end: nat, tid: nat)
    requires beg < end && end - beg < SPAN && beg <= tid <= end
    ensures var i := Index(beg, end, tid);
            i < N && Floor(beg, end, i) < tid <= Edge(beg, end, i + 1)
  {
    hide Edge, Index, Div;
    var d, s := tid - beg, end - beg;
    var i := Div(d * N, s);
    IndexIs(beg, end, tid);
    Quotient(beg, end, d, i);
    EdgesRise(beg, end, 0, N);
    if tid == Edge(beg, end, i) && i > 0 {
      StepDown(beg, end, d, i);
    }
  }

  /** From a span of 2^44 on the last transaction id no longer falls into the last
      bucket: the range is sound exactly below that. */
  lemma WrapIff(beg: nat, end: nat)
    requires beg < end < U64
    ensures Index(beg, end, end) == N - 1 <==> end - beg < SPAN
  {
    var s := end - beg;
    if s < SPAN {
      IndexExact(beg, end, end);
      LastBucket(beg, end, Index(beg, end, end));
    } else {
      Wrapped(s);
    }
  }

  lemma LastBucket(beg: nat, end: nat, i: nat)
    requires beg < end && end - beg < SPAN && i < N && Edge(beg, end, i + 1) >= end
    ensures i == N - 1
  {
    var s := end - beg;
    EdgeIs(beg, end, i + 1);
    assert s * N <= (i + 1) * s;
    MulLess(N, i + 1, s);
  }

  lemma Wrapped(s: nat)
    requires SPAN <= s < U64
    ensures Div(Wrap(s * N), s) < N - 1
  {
    hide Div;
    var r := Wrap(s * N);
    Remainder(s * N);
    assert r < s * N - s == s * (N - 1);
    QuotientBelow(r, s, N - 1);
  }

  lemma Remainder(x: nat)
    requires x >= U64
    ensures Wrap(x) <= x - U64
  {
    assert x == x / U64 * U64 + x % U64;
  }

  lemma QuotientBelow(r: nat, s: nat, k: nat)
    requires 0 < s && r < s * k
    ensures Div(r, s) < k
  {
    hide Div;
    DivBounds(r, s);
    MulSmaller(Div(r, s), k, s);
  }

  lemma MulSmaller(a: nat, b: nat, n: nat)
    requires a * n < b * n
    ensures a < b
  {
    assert a >= b ==> a * n >= b * n;
  }

  /** No two buckets share a transaction id. */
  lemma OnlyBucket(beg: nat, end: nat, tid: nat, i: nat)
    requires beg < end && end - beg < SPAN && beg <= tid <= end && i < N
    ensures Floor(beg, end, i) < tid <= Edge(beg, end, i + 1) <==> i == Index(beg, end, tid)
  {
    hide Edge, Index;
    IndexExact(beg, end, tid);
    var j := Index(beg, end, tid);
    if i < j {
      EdgesRise(beg, end, i + 1, j);
    } else if j < i {
      EdgesRise(beg, end, j + 1, i);
    }
  }

  // ----- byte counts -----

  predicate Counts(e: Event, lo: int, hi: int) {
    e.tid != 0 && lo < e.tid <= hi
  }

  /** Bytes of the events with transaction ids in (lo, hi]; id 0 means none. */
  function Sum(evs: seq<Event>, lo: int, hi: int): nat {
    if evs == [] then 0
    else Sum(evs[..|evs| - 1], lo, hi) + if Counts(evs[|evs| - 1], lo, hi) then evs[|evs| - 1].len else 0
  }

  lemma SumAppend(evs: seq<Event>, e: Event, lo: int, hi: int)
    ensures Sum(evs + [e], lo, hi) == Sum(evs, lo, hi) + if Counts(e, lo, hi) then e.len else 0
  {
    assert (evs + [e])[..|evs|] == evs;
  }

  lemma {:induction false} SumSplit(evs: seq<Event>, lo: int, mid: int, hi: int)
    requires lo <= mid <= hi
    ensures Sum(evs, lo, hi) == Sum(evs, lo, mid) + Sum(evs, mid, hi)
  {
    if evs != [] {
      SumSplit(evs[..|evs| - 1], lo, mid, hi);
    }
  }

  lemma {:induction false} SumNone(evs: seq<Event>, lo: int, hi: int)
    requires hi <= lo
    ensures Sum(evs, lo, hi) == 0
  {
    if evs != [] {
      SumNone(evs[..|evs| - 1], lo, hi);
    }
  }

  /** What bucket `i` holds of the events. */
  ghost function Bucket(evs: seq<Event>, beg: nat, end: nat, i: nat): nat
    requires beg < end
  {
    Sum(evs, Floor(beg, end, i), Edge(beg, end, i + 1))
  }

  lemma BucketStep(evs: seq<Event>, e: Event, beg: nat, end: nat, i: nat)
    requires beg < end && end - beg < SPAN && i < N
    ensures Bucket(evs + [e], beg, end, i) ==
              Bucket(evs, beg, end, i) +
              if e.tid != 0 && beg <= e.tid <= end && i == Index(beg, end, e.tid) then e.len else 0
  {
    hide Edge, Index;
    SumAppend(evs, e, Floor(beg, end, i), Edge(beg, end, i + 1));
    EdgesRise(beg, end, 0, i);
    EdgesRise(beg, end, i + 1, N);
    if beg <= e.tid <= end {
      OnlyBucket(beg, end, e.tid, i);
    }
  }

  /** The prescan: every bucket and the total add up the events that belong there. */
  method Prescan(beg: nat, end: nat, evs: seq<Event>) returns (tidBytes: array<nat>, total: nat)
    requires beg < end && end - beg < SPAN
    ensures fresh(tidBytes) && tidBytes.Length == N + 2 && total == Sum(evs, beg - 1, end)
    ensures forall i | 0 <= i < N :: tidBytes[i] == Bucket(evs, beg, end, i)
  {
    hide Edge, Index, Bucket;
    tidBytes := new nat[N + 2](_ => 0);
    total := 0;
    var k := 0;
    forall i | 0 <= i < N
      ensures Bucket(evs[..0], beg, end, i) == 0
    {
      BucketEmpty(beg, end, i);
    }
    while k < |evs|
      invariant 0 <= k <= |evs| && total == Sum(evs[..k], beg - 1, end)
      invariant forall i | 0 <= i < N :: tidBytes[i] == Bucket(evs[..k], beg, end, i)
    {
      var e := evs[k];
      assert evs[..k + 1] == evs[..k] + [e];
      SumAppend(evs[..k], e, beg - 1, end);
      forall i | 0 <= i < N
        ensures Bucket(evs[..k + 1], beg, end, i) ==
                  Bucket(evs[..k], beg, end, i) +
                  if e.tid != 0 && beg <= e.tid <= end && i == Index(beg, end, e.tid) then e.len else 0
      {
        BucketStep(evs[..k], e, beg, end, i);
      }
      if e.tid != 0 && beg <= e.tid <= end {
        var i := Index(beg, end, e.tid);
        IndexExact(beg, end, e.tid);
        tidBytes[i] := tidBytes[i] + e.len;
        total := total + e.len;
      }
      k := k + 1;
    }
    assert evs[..k] == evs;
  }

  lemma BucketEmpty(beg: nat, end: nat, i: nat)
    requires beg < end
    ensures Bucket([], beg, end, i) == 0
  {
  }

  // ----- slices -----

  /** A slice begins at `tid` (exclusive, but for the first) and has `bytes` bytes. */
  datatype Slice = Slice(tid: nat, bytes: int)

  /** Bytes of the buckets [lo, hi). */
  function Total(tb: seq<nat>, lo: nat, hi: nat): nat
    requires lo <= hi <= |tb|
    decreases hi
  {
    if lo == hi then 0 else Total(tb, lo, hi - 1) + tb[hi - 1]
  }

  /** A slice of the buckets [lo, hi). */
  ghost predicate Holds(x: Slice, lo: nat, hi: nat, tb: seq<nat>, beg: nat, end: nat)
    requires beg < end
  {
    lo < hi <= |tb| && x == Slice(Edge(beg, end, lo), Total(tb, lo, hi))
  }

  /** The slices so far: `cuts` are the buckets they begin with and the last one
      has been filled up to bucket `i`. */
  ghost predicate Cut(hist: seq<Slice>, cuts: seq<nat>, tb: seq<nat>, beg: nat, end: nat, split: nat, i: nat)
    requires beg < end
  {
    0 < |hist| == |cuts| <= i && cuts[0] == 0 &&
    (forall k | 0 <= k < |cuts| - 1 :: Holds(hist[k], cuts[k], cuts[k + 1], tb, beg, end) && hist[k].bytes >= split) &&
    Holds(hist[|cuts| - 1], cuts[|cuts| - 1], i, tb, beg, end)
  }

  lemma CutGrow(hist: seq<Slice>, cuts: seq<nat>, tb: seq<nat>, beg: nat, end: nat, split: nat, i: nat)
    requires beg < end && i < |tb| && Cut(hist, cuts, tb, beg, end, split, i)
    ensures var r := |hist| - 1;
            Cut(hist[r := hist[r].(bytes := hist[r].bytes + tb[i])], cuts, tb, beg, end, split, i + 1)
  {
    hide Edge;
  }

  lemma CutNew(hist: seq<Slice>, cuts: seq<nat>, tb: seq<nat>, beg: nat, end: nat, split: nat, i: nat)
    requires beg < end && i < |tb| && Cut(hist, cuts, tb, beg, end, split, i) && hist[|hist| - 1].bytes >= split
    ensures Cut(hist + [Slice(Edge(beg, end, i), tb[i])], cuts + [i], tb, beg, end, split, i + 1)
  {
    hide Edge;
    assert Total(tb, i, i) == 0;
    var h, c := hist + [Slice(Edge(beg, end, i), tb[i])], cuts + [i];
    assert Holds(h[|hist|], i, i + 1, tb, beg, end);
    hide Holds;
    forall k | 0 <= k < |c| - 1
      ensures Holds(h[k], c[k], c[k + 1], tb, beg, end) && h[k].bytes >= split
    {
      assert h[k] == hist[k] && c[k] == cuts[k];
    }
  }

  /** Reduces the buckets to slices: a new one once the last has the split amount. */
  method Reduce(beg: nat, end: nat, tb: seq<nat>, split: nat) returns (hist: seq<Slice>, ghost cuts: seq<nat>)
    requires beg < end && |tb| == N
    ensures 2 <= |hist| <= N + 1 && hist[|hist| - 1] == Slice(end, -1)
    ensures Cut(hist[..|hist| - 1], cuts, tb, beg, end, split, N)
  {
    hide Edge, Holds, Total;
    hist, cuts := [Slice(beg, tb[0])], [0];
    CutStart(tb, beg, end, split);
    var i := 1;
    while i < N
      invariant 1 <= i <= N && |hist| > 0 && Cut(hist, cuts, tb, beg, end, split, i)
    {
      var r := |hist| - 1;
      if hist[r].bytes >= split {
        CutNew(hist, cuts, tb, beg, end, split, i);
        hist := hist + [Slice(Edge(beg, end, i), tb[i])];
        cuts := cuts + [i];
      } else {
        CutGrow(hist, cuts, tb, beg, end, split, i);
        hist := hist[r := hist[r].(bytes := hist[r].bytes + tb[i])];
      }
      i := i + 1;
    }
    ghost var body := hist;
    hist := hist + [Slice(end, -1)];
    assert hist[..|hist| - 1] == body;
  }

  lemma CutStart(tb: seq<nat>, beg: nat, end: nat, split: nat)
    requires beg < end && |tb| > 0
    ensures Cut([Slice(beg, tb[0])], [0], tb, beg, end, split, 1)
  {
    assert Total(tb, 0, 0) == 0;
    assert Edge(beg, end, 0) == beg;
  }

  // ----- what the slices are -----

  /** The transaction ids of slice `k` are those above this, up to the next slice's. */
  function Low(hist: seq<Slice>, k: nat): int
    requires k < |hist|
  {
    if k == 0 then hist[0].tid - 1 else hist[k].tid
  }

  lemma {:induction false} BucketsAddUp(evs: seq<Event>, tb: seq<nat>, beg: nat, end: nat, lo: nat, hi: nat)
    requires beg < end && end - beg < SPAN && lo < hi <= N && |tb| == N
    requires forall i | 0 <= i < N :: tb[i] == Bucket(evs, beg, end, i)
    ensures Total(tb, lo, hi) == Sum(evs, Floor(beg, end, lo), Edge(beg, end, hi))
    decreases hi
  {
    hide Edge;
    if lo + 1 < hi {
      BucketsAddUp(evs, tb, beg, end, lo, hi - 1);
      EdgesRise(beg, end, lo, hi - 1);
      EdgesRise(beg, end, hi - 1, hi);
      SumSplit(evs, Floor(beg, end, lo), Edge(beg, end, hi - 1), Edge(beg, end, hi));
    } else {
      assert Total(tb, lo, lo) == 0;
    }
  }

  /** The slices partition the transaction ids: each has exactly the bytes of its
      own ids, every slice but the last has the split amount, and each begins
      below where it ends. */
  lemma SliceExact(evs: seq<Event>, tb: seq<nat>, beg: nat, end: nat, split: nat, hist: seq<Slice>,
                   cuts: seq<nat>, k: nat)
    requires beg < end && end - beg < SPAN && |tb| == N && 2 <= |hist| && k < |hist| - 1
    requires forall i | 0 <= i < N :: tb[i] == Bucket(evs, beg, end, i)
    requires hist[|hist| - 1].tid == end && Cut(hist[..|hist| - 1], cuts, tb, beg, end, split, N)
    ensures hist[0].tid == beg
    ensures hist[k].bytes == Sum(evs, Low(hist, k), hist[k + 1].tid)
    ensures k < |hist| - 2 ==> hist[k].bytes >= split
    ensures Low(hist, k) <= hist[k + 1].tid && (split > 0 ==> Low(hist, k) < hist[k + 1].tid)
  {
    hide Edge, Bucket, Total;
    var n := |hist| - 1;
    var body := hist[..n];
    var hi := if k == n - 1 then N else cuts[k + 1];
    assert Holds(body[k], cuts[k], hi, tb, beg, end) && hist[k] == body[k];
    assert Holds(body[0], cuts[0], if n == 1 then N else cuts[1], tb, beg, end) && hist[0] == body[0];
    EdgesRise(beg, end, 0, N);
    assert hist[k + 1].tid == Edge(beg, end, hi) by {
      if k < n - 1 {
        assert Holds(body[k + 1], hi, if k + 1 == n - 1 then N else cuts[k + 2], tb, beg, end);
        assert hist[k + 1] == body[k + 1];
      }
    }
    BucketsAddUp(evs, tb, beg, end, cuts[k], hi);
    CutsRise(body, cuts, tb, beg, end, split, k);
    EdgesRise(beg, end, cuts[k], hi);
    if k < n - 1 {
      if hist[k + 1].tid <= Low(hist, k) {
        SumNone(evs, Low(hist, k), hist[k + 1].tid);
      }
    } else {
      LastEdge(beg, end, cuts[k]);
    }
  }

  lemma {:induction false} CutsRise(hist: seq<Slice>, cuts: seq<nat>, tb: seq<nat>, beg: nat, end: nat, split: nat,
                                    k: nat)
    requires beg < end && Cut(hist, cuts, tb, beg, end, split, N) && k < |cuts|
    ensures cuts[k] >= k
  {
    if k > 0 {
      CutsRise(hist, cuts, tb, beg, end, split, k - 1);
      assert Holds(hist[k - 1], cuts[k - 1], cuts[k - 1 + 1], tb, beg, end);
    }
  }

  lemma LastEdge(beg: nat, end: nat, i: nat)
    requires beg < end && end - beg < SPAN && i < N
    ensures Edge(beg, end, i) < end
  {
    hide Edge;
    StepDown(beg, end, end - beg, N);
    EdgesRise(beg, end, i, N - 1);
  }

  /** Every transaction id of the range is in exactly one slice. */
  lemma {:induction false} SlicesCover(hist: seq<Slice>, tid: nat, k: nat) returns (i: nat)
    requires |hist| >= 2 && k < |hist| - 1
    requires forall j | 0 <= j < |hist| - 1 :: Low(hist, j) <= hist[j + 1].tid
    requires Low(hist, k) < tid <= hist[|hist| - 1].tid
    ensures k <= i < |hist| - 1 && Low(hist, i) < tid <= hist[i + 1].tid
    ensures forall j | k <= j < |hist| - 1 && Low(hist, j) < tid <= hist[j + 1].tid :: j == i
    decreases |hist| - k
  {
    if tid <= hist[k + 1].tid {
      i := k;
      forall j | k < j < |hist| - 1
        ensures hist[k + 1].tid <= Low(hist, j)
      {
        SlicesRise(hist, k + 1, j);
      }
    } else {
      i := SlicesCover(hist, tid, k + 1);
    }
  }

  lemma {:induction false} SlicesRise(hist: seq<Slice>, i: nat, j: nat)
    requires |hist| >= 2 && 0 < i <= j < |hist|
    requires forall j | 0 <= j < |hist| - 1 :: Low(hist, j) <= hist[j + 1].tid
    ensures hist[i].tid <= hist[j].tid
    decreases j
  {
    if i < j {
      SlicesRise(hist, i, j - 1);
      assert Low(hist, j - 1) <= hist[j - 1 + 1].tid;
    }
  }

  /** `generate_histogram`: the number of slices, with the range and bytes of each. */
  method Generate(beg: nat, end: nat, evs: seq<Event>, split: nat) returns (res: nat, hist: seq<Slice>, total: nat)
    requires beg < end && end - beg < SPAN
    ensures 1 <= res <= N && |hist| == res + 1 && hist[0].tid == beg && hist[res].tid == end
    ensures total == Sum(evs, beg - 1, end) == SliceBytes(hist, res)
    ensures forall k | 0 <= k < res ::
              hist[k].bytes == Sum(evs, Low(hist, k), hist[k + 1].tid) && Low(hist, k) <= hist[k + 1].tid
    ensures split > 0 ==> forall k | 0 <= k < res :: Low(hist, k) < hist[k + 1].tid
    ensures forall k | 0 <= k < res - 1 :: hist[k].bytes >= split
  {
    hide Edge, Bucket, Cut;
    var tidBytes;
    tidBytes, total := Prescan(beg, end, evs);
    var tb := tidBytes[..N];
    ghost var cuts;
    hist, cuts := Reduce(beg, end, tb, split);
    res := |hist| - 1;
    forall k | 0 <= k < res
      ensures hist[k].bytes == Sum(evs, Low(hist, k), hist[k + 1].tid) && Low(hist, k) <= hist[k + 1].tid
      ensures split > 0 ==> Low(hist, k) < hist[k + 1].tid
      ensures k < res - 1 ==> hist[k].bytes >= split
    {
      SliceExact(evs, tb, beg, end, split, hist, cuts, k);
    }
    SliceExact(evs, tb, beg, end, split, hist, cuts, 0);
    SlicesAddUp(evs, hist, res);
  }

  /** Bytes of the first `n` slices. */
  function SliceBytes(hist: seq<Slice>, n: nat): int
    requires n <= |hist|
  {
    if n == 0 then 0 else SliceBytes(hist, n - 1) + hist[n - 1].bytes
  }

  lemma {:induction false} SlicesAddUp(evs: seq<Event>, hist: seq<Slice>, n: nat)
    requires 0 < n < |hist|
    requires forall k | 0 <= k < |hist| - 1 ::
               hist[k].bytes == Sum(evs, Low(hist, k), hist[k + 1].tid) && Low(hist, k) <= hist[k + 1].tid
    ensures SliceBytes(hist, n) == Sum(evs, Low(hist, 0), hist[n].tid) && Low(hist, 0) <= hist[n].tid
  {
    if n > 1 {
      SlicesAddUp(evs, hist, n - 1);
      assert Low(hist, n - 1) == hist[n - 1].tid;
      SumSplit(evs, Low(hist, 0), hist[n - 1].tid, hist[n].tid);
    } else {
      assert SliceBytes(hist, 0) == 0;
    }
  }
}
