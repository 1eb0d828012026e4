/** Row-major flat indices of unbounded rank. Dimension 0 may grow, so a
    coordinate is in an extent when every trailing coordinate is. */
module RowMajor {
  import opened Ranges

  predicate Positive(dims: seq<nat>) { forall k | 0 <= k < |dims| :: dims[k] > 0 }

  /** The extent of an object that has elements, dimension 0 aside. */
  predicate Shaped(dims: seq<nat>) { dims != [] && Positive(dims[1..]) }

  /** Elements from one index of dimension k to the next. */
  function Stride(dims: seq<nat>, k: nat): nat
    requires k < |dims|
  {
    Product(dims[k + 1..])
  }

  function Flat(g: seq<int>, dims: seq<nat>): int
    requires |g| == |dims|
  {
    if g == [] then 0 else g[0] * Product(dims[1..]) + Flat(g[1..], dims[1..])
  }

  predicate Inside(g: seq<int>, dims: seq<nat>) {
    |g| == |dims| && forall k | 0 <= k < |g| :: 0 <= g[k] < dims[k]
  }

  predicate InExtent(g: seq<int>, dims: seq<nat>) {
    |g| == |dims| > 0 && g[0] >= 0 && Inside(g[1..], dims[1..])
  }

  lemma {:induction false} ProductPositive(dims: seq<nat>)
    ensures Product(dims) > 0 <==> Positive(dims)
  {
    if dims != [] {
      ProductPositive(dims[1..]);
      assert Product(dims) > 0 <==> dims[0] > 0 && Product(dims[1..]) > 0 by { MulPositive(dims[0], Product(dims[1..])); }
      assert Positive(dims) <==> dims[0] > 0 && Positive(dims[1..]) by {
        if dims[0] > 0 && Positive(dims[1..]) {
          forall k | 0 <= k < |dims| ensures dims[k] > 0 { if k > 0 { assert dims[k] == dims[1..][k - 1]; } }
        }
      }
    }
  }

  lemma MulPositive(a: nat, b: nat)
    ensures a * b > 0 <==> a > 0 && b > 0
  {
  }

  lemma StridePositive(dims: seq<nat>, k: nat)
    requires Shaped(dims) && k < |dims|
    ensures Stride(dims, k) > 0
  {
    var inner := dims[k + 1..];
    forall i | 0 <= i < |inner| ensures inner[i] > 0 {
      assert inner[i] == dims[1..][k + i];
    }
    ProductPositive(inner);
  }

  /** One coordinate of a flat index, as the reader computes it. */
  function Coord(f: nat, dims: seq<nat>, k: nat): (c: nat)
    requires Shaped(dims) && k < |dims|
  {
    StridePositive(dims, k);
    assert k > 0 ==> dims[k] == dims[1..][k - 1];
    if k == 0 then f / Stride(dims, k) else f / Stride(dims, k) % dims[k]
  }

  function Coords(f: nat, dims: seq<nat>): (g: seq<int>)
    requires Shaped(dims)
    ensures |g| == |dims|
  {
    seq(|dims|, k requires 0 <= k < |dims| => Coord(f, dims, k))
  }

  lemma {:induction false} FlatBounds(g: seq<int>, dims: seq<nat>)
    requires Inside(g, dims)
    ensures 0 <= Flat(g, dims) < Product(dims)
  {
    if g != [] {
      FlatBounds(g[1..], dims[1..]);
      var p := Product(dims[1..]);
      MulMonotone(g[0] + 1, dims[0], p);
      assert (g[0] + 1) * p == g[0] * p + p;
      MulMonotone(0, g[0], p);
    }
  }

  lemma {:induction false} ProductSplit(dims: seq<nat>, k: nat)
    requires k <= |dims|
    ensures Product(dims) == Product(dims[..k]) * Product(dims[k..])
  {
    if k == 0 {
      assert dims[..0] == [] && dims[0..] == dims;
    } else {
      ProductSplit(dims[1..], k - 1);
      assert dims[..k][1..] == dims[1..][..k - 1] && dims[k..] == dims[1..][k - 1..];
      MulAssociative(dims[0], Product(dims[..k][1..]), Product(dims[k..]));
    }
  }

  /** A flat index, seen from dimension k: whole spans of dimension k above it,
      its own coordinate, and a remainder below it. */
  lemma {:induction false} FlatSplit(g: seq<int>, dims: seq<nat>, k: nat) returns (above: int, below: int)
    requires InExtent(g, dims) && 0 < k < |dims|
    ensures above >= 0 && 0 <= below < Stride(dims, k)
    ensures Flat(g, dims) == (above * dims[k] + g[k]) * Stride(dims, k) + below
  {
    var p := Product(dims[1..]);
    if k == 1 {
      above, below := g[0], Flat(g[2..], dims[2..]);
      assert g[1..][1..] == g[2..] && dims[1..][1..] == dims[2..];
      FlatBounds(g[2..], dims[2..]);
      Regroup(g[0], dims[1], Product(dims[2..]), g[1]);
    } else {
      var a, b := FlatSplit(g[1..], dims[1..], k - 1);
      assert dims[1..][k - 1..] == dims[k..] && dims[1..][k..] == dims[k + 1..];
      ProductSplit(dims[1..], k - 1);
      var m := Product(dims[1..][..k - 1]);
      var st := Stride(dims, k);
      assert p == m * (dims[k] * st);
      above, below := g[0] * m + a, b;
      calc {
        g[0] * p;
        g[0] * (m * (dims[k] * st));
        { MulAssociative(g[0], m, dims[k] * st); MulAssociative(g[0] * m, dims[k], st); }
        (g[0] * m * dims[k]) * st;
      }
      Distribute(g[0] * m, a, dims[k], g[k], st);
      MulPositive(g[0], m);
    }
  }

  lemma Regroup(a: int, d: int, p: int, b: int)
    ensures a * (d * p) + b * p == (a * d + b) * p
  {
  }

  lemma Distribute(x: int, a: int, d: int, c: int, st: int)
    ensures (x * d) * st + (a * d + c) * st == ((x + a) * d + c) * st
  {
  }

  /** In an extent, the reader's divisions recover the coordinate. */
  lemma CoordsOfFlat(g: seq<int>, dims: seq<nat>)
    requires InExtent(g, dims) && Shaped(dims)
    ensures Flat(g, dims) >= 0 && Coords(Flat(g, dims), dims) == g
  {
    FlatBounds(g[1..], dims[1..]);
    MulMonotone(0, g[0], Product(dims[1..]));
    var f := Flat(g, dims);
    forall k | 0 <= k < |dims| ensures Coord(f, dims, k) == g[k] {
      if k == 0 {
        DivRem(f, g[0], Stride(dims, 0), Flat(g[1..], dims[1..]));
      } else {
        assert g[k] == g[1..][k - 1] && dims[k] == dims[1..][k - 1];
        var above, below := FlatSplit(g, dims, k);
        DivRem(f, above * dims[k] + g[k], Stride(dims, k), below);
        DivRem(above * dims[k] + g[k], above, dims[k], g[k]);
      }
    }
  }

  /** A coordinate in an extent whose first index is bounded too is inside. */
  lemma InsideOf(g: seq<int>, dims: seq<nat>)
    requires InExtent(g, dims) && g[0] < dims[0]
    ensures Inside(g, dims)
  {
  }

  lemma ShapedTail(dims: seq<nat>)
    requires Shaped(dims) && |dims| > 1
    ensures Shaped(dims[1..])
  {
  }

  lemma {:induction false} Unflatten(f: nat, dims: seq<nat>) returns (g: seq<int>)
    requires Shaped(dims)
    ensures InExtent(g, dims) && Flat(g, dims) == f
    ensures f < Product(dims) ==> g[0] < dims[0]
  {
    var p := Product(dims[1..]);
    StridePositive(dims, 0);
    var q, r := f / p, f % p;
    var tail := [];
    if |dims| > 1 {
      ShapedTail(dims);
      tail := Unflatten(r, dims[1..]);
      InsideOf(tail, dims[1..]);
    }
    g := [q] + tail;
    assert g[1..] == tail;
    assert f == q * p + r;
    if f < Product(dims) && q >= dims[0] {
      MulMonotone(dims[0], q, p);
    }
  }

  /** Every flat index is the index of exactly its own coordinates. */
  lemma FlatOfCoords(f: nat, dims: seq<nat>)
    requires Shaped(dims)
    ensures InExtent(Coords(f, dims), dims) && Flat(Coords(f, dims), dims) == f
    ensures f < Product(dims) ==> Inside(Coords(f, dims), dims)
  {
    var g := Unflatten(f, dims);
    CoordsOfFlat(g, dims);
    if f < Product(dims) {
      InsideOf(g, dims);
    }
  }

  // ----- Contiguous boxes -----

  function Plus(a: seq<int>, b: seq<int>): (c: seq<int>)
    requires |a| == |b|
    ensures |c| == |a|
  {
    seq(|a|, k requires 0 <= k < |a| => a[k] + b[k])
  }

  /** The last coordinate of a box of that many elements each way. */
  function LastOf(count: seq<nat>): (g: seq<int>)
    ensures |g| == |count|
  {
    seq(|count|, k requires 0 <= k < |count| => var c: int := count[k]; c - 1)
  }

  lemma {:induction false} FlatPlus(a: seq<int>, b: seq<int>, dims: seq<nat>)
    requires |a| == |b| == |dims|
    ensures Flat(Plus(a, b), dims) == Flat(a, dims) + Flat(b, dims)
  {
    if a != [] {
      assert Plus(a, b)[1..] == Plus(a[1..], b[1..]);
      FlatPlus(a[1..], b[1..], dims[1..]);
      assert (a[0] + b[0]) * Product(dims[1..]) == a[0] * Product(dims[1..]) + b[0] * Product(dims[1..]);
    }
  }

  /** The box fits the trailing dimensions. */
  predicate Fits(count: seq<nat>, dims: seq<nat>) {
    |count| == |dims| && forall k | 0 < k < |count| :: count[k] <= dims[k]
  }

  lemma {:induction false} ProductMonotone(count: seq<nat>, dims: seq<nat>)
    requires |count| == |dims| && forall k | 0 <= k < |count| :: count[k] <= dims[k]
    ensures Product(count) <= Product(dims)
  {
    if count != [] {
      ProductMonotone(count[1..], dims[1..]);
      MulMonotone(count[0], dims[0], Product(count[1..]));
      MulMonotone(Product(count[1..]), Product(dims[1..]), dims[0]);
    }
  }

  lemma {:induction false} LastIsProduct(count: seq<nat>)
    ensures Flat(LastOf(count), count) == Product(count) - 1
  {
    if count != [] {
      assert LastOf(count)[1..] == LastOf(count[1..]);
      LastIsProduct(count[1..]);
      assert (count[0] - 1) * Product(count[1..]) == count[0] * Product(count[1..]) - Product(count[1..]);
    }
  }

  /** How far the object's strides carry a coordinate past where the box's own
      strides do: never back, and never further than for the last coordinate. */
  lemma {:induction false} Drift(x: seq<int>, count: seq<nat>, dims: seq<nat>)
    requires Inside(x, count) && Fits(count, dims)
    ensures 0 <= Flat(x, dims) - Flat(x, count) <= Flat(LastOf(count), dims) - Flat(LastOf(count), count)
  {
    if x != [] {
      var inner, outer := count[1..], dims[1..];
      forall k | 0 <= k < |inner| ensures inner[k] <= outer[k] {
        assert inner[k] == count[k + 1] && outer[k] == dims[k + 1];
      }
      assert LastOf(count)[1..] == LastOf(inner);
      Drift(x[1..], inner, outer);
      ProductMonotone(inner, outer);
      RowDrift(x[0], count[0] - 1, Product(inner), Product(outer));
    }
  }

  lemma RowDrift(x: int, last: int, c: nat, d: nat)
    requires 0 <= x <= last && c <= d
    ensures 0 <= x * d - x * c <= last * d - last * c
  {
  }

  /** The reader's one-line test: the box's flat span has as many elements as
      the box. It holds exactly when the box's elements, in row-major order,
      are consecutive in the object -- at any rank. */
  lemma ContiguousIffConsecutive(count: seq<nat>, dims: seq<nat>)
    requires Positive(count) && Fits(count, dims)
    ensures Flat(LastOf(count), dims) + 1 == Product(count)
       <==> forall x | Inside(x, count) :: Flat(x, dims) == Flat(x, count)
  {
    LastIsProduct(count);
    assert Inside(LastOf(count), count);
    forall x | Inside(x, count)
      ensures Flat(LastOf(count), dims) + 1 == Product(count) ==> Flat(x, dims) == Flat(x, count)
    {
      Drift(x, count, dims);
    }
  }
}
