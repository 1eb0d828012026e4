/** Element ranges at 64 bits: the second backend's saturating overlap, the
    first backend's wrapping overlap with its whole-object sentinel, and the
    extent a growing subscription is made against, which keeps the two equal. */
module Ranges {

  const TWO_64 := 0x1_0000_0000_0000_0000
  const UINT64_MAX := TWO_64 - 1
  const TWO_62 := 0x4000_0000_0000_0000

  type uint64 = x: int | 0 <= x < TWO_64

  function Min(a: int, b: int): int { if a <= b then a else b }

  function Max(a: int, b: int): int { if a >= b then a else b }

  /** A half-open range of flat element indices, named by its first element. */
  datatype Run = Run(start: nat, count: nat) {
    ghost predicate Has(e: int) { start <= e < start + count }
  }

  /** e is an element of both ranges that a uint64 end can bound. */
  ghost predicate InBoth(write: Run, sub: Run, e: int) {
    write.Has(e) && sub.Has(e) && e < UINT64_MAX
  }

  function ClippedEnd(r: Run): nat { Min(r.start + r.count, UINT64_MAX) }

  /** The interval intersection, over unbounded integers. */
  function Intersection(write: Run, sub: Run): (hit: Run)
    ensures forall e :: hit.Has(e) <==> InBoth(write, sub, e)
  {
    var lo := Max(write.start, sub.start);
    var hi := Min(ClippedEnd(write), ClippedEnd(sub));
    Run(lo, Max(hi - lo, 0))
  }

  /** The saturating overlap. Every intermediate value stays within 64 bits. */
  method Overlap(wStart: uint64, wCount: uint64, sStart: uint64, sCount: uint64)
    returns (found: bool, oStart: uint64, oCount: uint64)
    ensures found <==> exists e :: InBoth(Run(wStart, wCount), Run(sStart, sCount), e)
    ensures found ==> Run(oStart, oCount) == Intersection(Run(wStart, wCount), Run(sStart, sCount))
  {
    oStart, oCount := 0, 0;
    var wEnd: uint64 := if wCount > UINT64_MAX - wStart then UINT64_MAX else wStart + wCount;
    var sEnd: uint64 := if sCount > UINT64_MAX - sStart then UINT64_MAX else sStart + sCount;
    var lo: uint64 := if wStart > sStart then wStart else sStart;
    var hi: uint64 := if wEnd < sEnd then wEnd else sEnd;
    if lo >= hi {
      return false, oStart, oCount;
    }
    assert InBoth(Run(wStart, wCount), Run(sStart, sCount), lo);
    return true, lo, hi - lo;
  }

  /** The writer's own arithmetic: ends wrap modulo 2^64, and a count of
      UINT64_MAX keeps the subscription's end at the sentinel. An empty run
      means the write does not touch the subscription. */
  function SentinelOverlap(wStart: uint64, wCount: uint64, sStart: uint64, sCount: uint64): Run
  {
    var wEnd := (wStart + wCount) % TWO_64;
    var sEnd := if sCount == UINT64_MAX then UINT64_MAX else (sStart + sCount) % TWO_64;
    var lo := if sStart > wStart then sStart else wStart;
    var hi := if sEnd < wEnd then sEnd else wEnd;
    if lo >= hi then Run(lo, 0) else Run(lo, hi - lo)
  }

  /** Whatever the writer sends lies in the write, wrapped or not. */
  lemma SentinelInside(wStart: uint64, wCount: uint64, sStart: uint64, sCount: uint64)
    ensures var hit := SentinelOverlap(wStart, wCount, sStart, sCount);
      hit.count > 0 ==> wStart <= hit.start && hit.start + hit.count <= wStart + wCount
  {
  }

  predicate Wraps(wStart: uint64, wCount: uint64, sStart: uint64, sCount: uint64) {
    wStart + wCount > UINT64_MAX || (sCount != UINT64_MAX && sStart + sCount > UINT64_MAX)
  }

  /** The writer's arithmetic is the true intersection exactly when neither end
      wraps, or the ranges (clipped to 64 bits) do not meet anyway. */
  lemma SentinelExact(wStart: uint64, wCount: uint64, sStart: uint64, sCount: uint64)
    ensures SentinelOverlap(wStart, wCount, sStart, sCount) == Intersection(Run(wStart, wCount), Run(sStart, sCount))
       <==> (!Wraps(wStart, wCount, sStart, sCount)
             || Max(wStart, sStart) >= Min(ClippedEnd(Run(wStart, wCount)), ClippedEnd(Run(sStart, sCount))))
  {
    EndWraps(wStart + wCount);
    EndWraps(sStart + sCount);
  }

  lemma EndWraps(x: nat)
    requires x < 2 * TWO_64
    ensures x % TWO_64 == if x > UINT64_MAX then x - TWO_64 else x
  {
  }

  /** A subscription whose end wraps loses an ordinary write: eight of its ten
      elements are subscribed to, and none is found. */
  lemma SentinelLosesWrappedSubscription()
    ensures Intersection(Run(0, 10), Run(2, UINT64_MAX - 1)) == Run(2, 8)
    ensures SentinelOverlap(0, 10, 2, UINT64_MAX - 1) == Run(2, 0)
  {
  }

  /** A two-element write whose end wraps is lost to everyone. */
  lemma SentinelLosesWrappedWrite()
    ensures Intersection(Run(UINT64_MAX - 1, 2), Run(0, UINT64_MAX)) == Run(UINT64_MAX - 1, 1)
    ensures SentinelOverlap(UINT64_MAX - 1, 2, 0, UINT64_MAX) == Run(UINT64_MAX - 1, 0)
  {
  }

  // ----- Division -----

  lemma DivRem(n: int, q: int, d: int, r: int)
    requires 0 <= r < d && n == q * d + r
    ensures n / d == q && n % d == r
  {
    var e := n / d - q;
    assert n % d == r - e * d;
    SpansApart(e, d);
  }

  lemma SpansApart(e: int, d: int)
    requires d >= 0
    ensures (e > 0 ==> e * d >= d) && (e < 0 ==> e * d <= -d)
  {
  }

  lemma MulAssociative(a: int, b: int, c: int)
    ensures a * (b * c) == (a * b) * c
  {
  }

  // ----- Shapes -----

  function Product(dims: seq<nat>): nat {
    if dims == [] then 1 else dims[0] * Product(dims[1..])
  }

  /** The extent a growing subscription names: dimension 0 as large as keeps
      the whole within 2^62 elements. */
  function GrowingExtent(shape: seq<nat>): (extent: seq<nat>)
  {
    if shape == [] then shape
    else
      var rest := Product(shape[1..]);
      var trailing := if rest == 0 then 1 else rest;
      [Max(shape[0], TWO_62 / trailing)] + shape[1..]
  }

  /** The product is kept within 2^62 exactly when the shape itself was within
      it; no row that would fit is left outside; and only dimension 0 changes,
      so no flat index changes its meaning. */
  lemma GrowingExtentBound(shape: seq<nat>)
    requires shape != []
    ensures var extent := GrowingExtent(shape);
      && |extent| == |shape| && extent[1..] == shape[1..]
      && shape[0] <= extent[0]
      && (Product(extent) <= TWO_62 <==> Product(shape) <= TWO_62)
      && forall row: nat {:trigger (row + 1) * Product(shape[1..])} ::
           0 < (row + 1) * Product(shape[1..]) <= TWO_62 ==> row < extent[0]
  {
    var rest := Product(shape[1..]);
    var extent := GrowingExtent(shape);
    assert extent[1..] == shape[1..];
    assert Product(extent) == extent[0] * rest;
    if rest == 0 {
      assert Product(extent) == 0 == Product(shape);
    } else {
      var q := TWO_62 / rest;
      FloorBounds(TWO_62, rest, q);
      if shape[0] <= q {
        MulMonotone(shape[0], q, rest);
      }
      forall row: nat {:trigger (row + 1) * rest} | 0 < (row + 1) * rest <= TWO_62
        ensures row < extent[0]
      {
        if row + 1 > q { MulMonotone(q + 1, row + 1, rest); }
      }
    }
  }

  lemma FloorBounds(n: nat, d: nat, q: nat)
    requires d > 0 && q == n / d
    ensures q * d <= n < (q + 1) * d
  {
  }

  lemma MulMonotone(a: nat, b: nat, c: nat)
    requires a <= b
    ensures a * c <= b * c
  {
  }

  /** A subscription and a write that lie within an extent of at most 2^62
      elements never wrap, so both backends route the same elements. */
  lemma GrowingExtentNeverWraps(shape: seq<nat>, wStart: uint64, wCount: uint64, sStart: uint64, sCount: uint64)
    requires shape != [] && Product(shape) <= TWO_62
    requires wStart + wCount <= Product(GrowingExtent(shape))
    requires sCount == UINT64_MAX || sStart + sCount <= Product(GrowingExtent(shape))
    ensures SentinelOverlap(wStart, wCount, sStart, sCount) == Intersection(Run(wStart, wCount), Run(sStart, sCount))
  {
    GrowingExtentBound(shape);
    SentinelExact(wStart, wCount, sStart, sCount);
  }
}
