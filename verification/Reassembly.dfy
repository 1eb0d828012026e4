/** A step's pushes for one path, scattered into the subscribed box. */
module Reassembly {
  import opened Ranges
  import opened RowMajor
  import opened Delivery

  /** One payload: data[0] is flat element `start` of the whole object. */
  datatype Block<T> = Block(start: nat, data: seq<T>, delivery: Fallbacks)

  /** matches is the subscription's value test, true of everything when it has
      no predicate or one that does not apply to the type. */
  datatype Subscription<!T> = Subscription(
    dims: seq<nat>, start: seq<nat>, count: seq<nat>, grow: bool, tail: bool, matches: T -> bool)
  {
    /** A box of the object's rank, of an object that has elements. */
    predicate Valid() {
      |start| == |count| == |dims| && (dims != [] ==> Shaped(dims))
    }
  }

  /** got[q] is false where the array is masked; plain is false if any is. */
  datatype Array<T> = Array(shape: seq<nat>, values: seq<T>, got: seq<bool>, plain: bool, firstRow: Option<int>)

  datatype Outcome<T> = Ready(result: Array<T>) | BadShape

  datatype Cell<T> = Cell(value: T, got: bool)

  datatype Box = Box(origin: seq<int>, count: seq<nat>, firstRow: Option<int>)

  function MaxEnd<T>(pushes: seq<Block<T>>): int
    requires pushes != []
  {
    var p := pushes[|pushes| - 1];
    var end := p.start + |p.data|;
    if |pushes| == 1 then end else Max(MaxEnd(pushes[..|pushes| - 1]), end)
  }

  function MinStart<T>(pushes: seq<Block<T>>): (s: nat)
    requires pushes != []
  {
    var p := pushes[|pushes| - 1];
    if |pushes| == 1 then p.start else Min(MinStart(pushes[..|pushes| - 1]), p.start)
  }

  /** Where the result starts and how far it reaches: the subscription's box,
      all rows so far if it grows, only this step's rows with tail. */
  function BoxOf<T>(sub: Subscription<T>, pushes: seq<Block<T>>): (box: Box)
    requires sub.Valid() && sub.dims != [] && pushes != []
    ensures |box.origin| == |box.count| == |sub.dims|
  {
    StridePositive(sub.dims, 0);
    var rowLength := Stride(sub.dims, 0);
    if !sub.grow then Box(sub.start, sub.count, None)
    else
      var lastRow := (MaxEnd(pushes) - 1) / rowLength;
      if sub.tail then
        var firstRow := Max(sub.start[0], MinStart(pushes) / rowLength);
        Box([firstRow] + sub.start[1..], [Max(0, lastRow - firstRow + 1)] + sub.count[1..], Some(firstRow))
      else
        Box(sub.start, [Max(sub.count[0], lastRow - sub.start[0] + 1)] + sub.count[1..], Some(sub.start[0]))
  }

  predicate Covers<T>(p: Block<T>, dims: seq<nat>, g: seq<int>)
    requires |g| == |dims|
  {
    InExtent(g, dims) && p.start <= Flat(g, dims) < p.start + |p.data|
  }

  /** Does v count as received in p? A predicate bit makes the reader test it. */
  predicate Passes<T>(sub: Subscription<T>, p: Block<T>, v: T) {
    p.delivery * PREDICATE == {} || sub.matches(v)
  }

  /** What a push that covers g says of it. */
  function CellFrom<T>(sub: Subscription<T>, p: Block<T>, g: seq<int>): Cell<T>
    requires |g| == |sub.dims| && Covers(p, sub.dims, g)
  {
    var v := p.data[Flat(g, sub.dims) - p.start];
    Cell(v, Passes(sub, p, v))
  }

  /** The object coordinate g as the pushes leave it, scattered in order. */
  function Seen<T>(sub: Subscription<T>, zero: T, pushes: seq<Block<T>>, g: seq<int>): Cell<T>
    requires |g| == |sub.dims|
  {
    if pushes == [] then Cell(zero, false)
    else
      var p := pushes[|pushes| - 1];
      if Covers(p, sub.dims, g) then CellFrom(sub, p, g)
      else Seen(sub, zero, pushes[..|pushes| - 1], g)
  }

  lemma ShapedCount(count: seq<nat>)
    requires count != [] && Product(count) > 0
    ensures Shaped(count)
  {
  }

  /** The object coordinate that element q of the box's storage holds. */
  function At(box: Box, q: nat): (g: seq<int>)
    requires |box.origin| == |box.count| > 0 && q < Product(box.count)
    ensures |g| == |box.origin|
  {
    ShapedCount(box.count);
    Plus(box.origin, Coords(q, box.count))
  }

  /** What assembly means, cell by cell. */
  function Assembled<T>(sub: Subscription<T>, zero: T, pushes: seq<Block<T>>): (a: Array<T>)
    requires sub.Valid() && sub.dims != [] && pushes != []
  {
    var box := BoxOf(sub, pushes);
    var n := Product(box.count);
    var got := seq(n, q requires 0 <= q < n => Seen(sub, zero, pushes, At(box, q)).got);
    Array(box.count, seq(n, q requires 0 <= q < n => Seen(sub, zero, pushes, At(box, q)).value), got,
          false !in got, box.firstRow)
  }

  predicate Contiguous<T>(sub: Subscription<T>)
    requires sub.Valid()
  {
    && Product(sub.count) > 0
    && Flat(Plus(sub.start, LastOf(sub.count)), sub.dims) - Flat(sub.start, sub.dims) + 1 == Product(sub.count)
  }

  predicate TakesFastPath<T>(sub: Subscription<T>, pushes: seq<Block<T>>)
    requires sub.Valid()
  {
    && |pushes| == 1
    && pushes[0].delivery * PREDICATE == {}
    && Contiguous(sub)
    && pushes[0].start == Flat(sub.start, sub.dims)
    && |pushes[0].data| == Product(sub.count)
  }

  function FastArray<T>(sub: Subscription<T>, p: Block<T>): Array<T>
    requires sub.grow ==> sub.start != []
  {
    Array(sub.count, p.data, seq(|p.data|, _ => true), true, if sub.grow then Some(sub.start[0]) else None)
  }

  /** What comes back: the one push as it is where that is taken to be right, and
      else what scattering makes. */
  function ArrayFor<T>(sub: Subscription<T>, zero: T, pushes: seq<Block<T>>): Array<T>
    requires sub.Valid() && sub.dims != [] && pushes != []
  {
    if TakesFastPath(sub, pushes) then FastArray(sub, pushes[0]) else Assembled(sub, zero, pushes)
  }

  method Assemble<T>(sub: Subscription<T>, zero: T, pushes: seq<Block<T>>) returns (r: Outcome<T>)
    requires sub.Valid() && pushes != []
    ensures sub.dims == [] ==>
      var data := pushes[|pushes| - 1].data;
      r == if |data| == 1 then Ready(Array([], data, [true], true, None)) else BadShape
    ensures sub.dims != [] ==> r == Ready(ArrayFor(sub, zero, pushes))
  {
    if sub.dims == [] {
      var data := pushes[|pushes| - 1].data;
      return if |data| == 1 then Ready(Array([], data, [true], true, None)) else BadShape;
    }
    if TakesFastPath(sub, pushes) {
      return Ready(FastArray(sub, pushes[0]));
    }
    var box := BoxOf(sub, pushes);
    var n := Product(box.count);
    var out := new T[n](_ => zero);
    var got := new bool[n](_ => false);
    for i := 0 to |pushes|
      invariant fresh(out) && fresh(got)
      invariant forall q: nat | q < n :: Cell(out[q], got[q]) == Seen(sub, zero, pushes[..i], At(box, q))
    {
      Scatter(sub, box, pushes[i], out, got);
      assert pushes[..i + 1][..i] == pushes[..i];
    }
    assert pushes[..|pushes|] == pushes;
    r := Ready(Array(box.count, out[..], got[..], false !in got[..], box.firstRow));
    assert r.result.values == Assembled(sub, zero, pushes).values;
    assert r.result.got == Assembled(sub, zero, pushes).got;
  }

  /** What a push leaves at g over c. */
  function Over<T>(sub: Subscription<T>, p: Block<T>, g: seq<int>, c: Cell<T>): Cell<T>
    requires |g| == |sub.dims|
  {
    if Covers(p, sub.dims, g) then CellFrom(sub, p, g) else c
  }

  /** Write one push's elements over what the box holds. */
  method Scatter<T>(sub: Subscription<T>, box: Box, p: Block<T>, out: array<T>, got: array<bool>)
    requires sub.Valid() && sub.dims != [] && |box.origin| == |box.count| == |sub.dims|
    requires out.Length == got.Length == Product(box.count) && out as object != got
    modifies out, got
    ensures forall q: nat | q < out.Length ::
      Cell(out[q], got[q]) == Over(sub, p, At(box, q), old(Cell(out[q], got[q])))
  {
    hide Over, At, Flat, Product, Coords, Passes;
    forall q: nat, c | q < out.Length
      ensures Over(sub, Upto(p, 0), At(box, q), c) == c
    {
      OverNothing(sub, p, At(box, q), c);
    }
    for j := 0 to |p.data|
      invariant forall q: nat | q < out.Length ::
        Cell(out[q], got[q]) == Over(sub, Upto(p, j), At(box, q), old(Cell(out[q], got[q])))
    {
      var keep, local := Locate(sub.dims, box, p.start + j);
      forall q: nat, c | q < out.Length
        ensures Over(sub, Upto(p, j + 1), At(box, q), c) ==
          if keep && q == Flat(local, box.count) then Cell(p.data[j], Passes(sub, p, p.data[j]))
          else Over(sub, Upto(p, j), At(box, q), c)
      {
        OverStep(sub, box, p, j, q, c);
      }
      if keep {
        FlatBounds(local, box.count);
        var at := Flat(local, box.count);
        out[at], got[at] := p.data[j], Passes(sub, p, p.data[j]);
      }
    }
    assert Upto(p, |p.data|) == p;
  }

  lemma OverNothing<T>(sub: Subscription<T>, p: Block<T>, g: seq<int>, c: Cell<T>)
    requires |g| == |sub.dims|
    ensures Over(sub, Upto(p, 0), g, c) == c
  {
  }

  lemma OverStep<T>(sub: Subscription<T>, box: Box, p: Block<T>, j: nat, q: nat, c: Cell<T>)
    requires sub.Valid() && sub.dims != [] && |box.origin| == |box.count| == |sub.dims|
    requires j < |p.data| && q < Product(box.count)
    ensures var local := Minus(Coords(p.start + j, sub.dims), box.origin);
      Over(sub, Upto(p, j + 1), At(box, q), c) ==
        if Inside(local, box.count) && q == Flat(local, box.count) then Cell(p.data[j], Passes(sub, p, p.data[j]))
        else Over(sub, Upto(p, j), At(box, q), c)
  {
    hide Flat, Product, Coord, Coords, Shaped, At;
    PlaceOf(sub.dims, box, p.start + j, q);
  }

  /** The first j elements of a push. */
  function Upto<T>(p: Block<T>, j: nat): Block<T>
    requires j <= |p.data|
  {
    p.(data := p.data[..j])
  }

  function Minus(a: seq<int>, b: seq<int>): (c: seq<int>)
    requires |a| == |b|
    ensures |c| == |a|
  {
    seq(|a|, k requires 0 <= k < |a| => a[k] - b[k])
  }

  /** One element's place in the box, axis by axis, and whether it has one. */
  method Locate(dims: seq<nat>, box: Box, f: nat) returns (keep: bool, local: seq<int>)
    requires Shaped(dims) && |box.origin| == |box.count| == |dims|
    ensures local == Minus(Coords(f, dims), box.origin)
    ensures keep <==> Inside(local, box.count)
  {
    keep, local := true, [];
    for k := 0 to |dims|
      invariant |local| == k && forall i | 0 <= i < k :: local[i] == Coord(f, dims, i) - box.origin[i]
      invariant keep <==> forall i | 0 <= i < k :: 0 <= local[i] < box.count[i]
    {
      var coord := Coord(f, dims, k) - box.origin[k];
      keep := keep && 0 <= coord < box.count[k];
      local := local + [coord];
    }
  }

  /** Element f of the object is at storage place q exactly when its local
      coordinate is inside the box and flattens to q. */
  lemma PlaceOf(dims: seq<nat>, box: Box, f: nat, q: nat)
    requires Shaped(dims) && |box.origin| == |box.count| == |dims|
    requires q < Product(box.count)
    ensures InExtent(At(box, q), dims) && Flat(At(box, q), dims) == f
       <==> var local := Minus(Coords(f, dims), box.origin);
            Inside(local, box.count) && q == Flat(local, box.count)
  {
    hide Flat, Product, Coord, Shaped;
    var local := Minus(Coords(f, dims), box.origin);
    FlatOfCoords(f, dims);
    if InExtent(At(box, q), dims) && Flat(At(box, q), dims) == f {
      PlacedInside(dims, box, f, q);
    }
    if Inside(local, box.count) && q == Flat(local, box.count) {
      ShapedCount(box.count);
      InsideIsInExtent(local, box.count);
      CoordsOfFlat(local, box.count);
      assert At(box, q) == Coords(f, dims);
    }
  }

  lemma PlacedInside(dims: seq<nat>, box: Box, f: nat, q: nat)
    requires Shaped(dims) && |box.origin| == |box.count| == |dims|
    requires q < Product(box.count)
    requires InExtent(At(box, q), dims) && Flat(At(box, q), dims) == f
    ensures var local := Minus(Coords(f, dims), box.origin);
      Inside(local, box.count) && Flat(local, box.count) == q
  {
    ShapedCount(box.count);
    hide Flat, Product, Coord, Shaped, Positive, Inside, InExtent;
    FlatOfCoords(q, box.count);
    CoordsOfFlat(At(box, q), dims);
    assert Coords(f, dims) == Plus(box.origin, Coords(q, box.count));
    hide Coords;
    MinusPlus(box.origin, Coords(q, box.count));
  }

  lemma MinusPlus(a: seq<int>, b: seq<int>)
    requires |a| == |b|
    ensures Minus(Plus(a, b), a) == b
  {
  }

  lemma InsideIsInExtent(g: seq<int>, dims: seq<nat>)
    requires Inside(g, dims) && g != []
    ensures InExtent(g, dims)
  {
  }

  // ----- What the result says -----

  ghost predicate Sized<T>(a: Array<T>) { |a.values| == |a.got| == Product(a.shape) }

  /** The result at a box coordinate. */
  ghost function CellOf<T>(a: Array<T>, x: seq<int>): Cell<T>
    requires Sized(a) && Inside(x, a.shape)
  {
    FlatBounds(x, a.shape);
    Cell(a.values[Flat(x, a.shape)], a.got[Flat(x, a.shape)])
  }

  /** The push at j covers g and no later one does. */
  ghost predicate LastCover<T>(pushes: seq<Block<T>>, dims: seq<nat>, g: seq<int>, j: nat)
    requires |g| == |dims| && j < |pushes|
  {
    Covers(pushes[j], dims, g) && forall i | j < i < |pushes| :: !Covers(pushes[i], dims, g)
  }

  ghost predicate NoCover<T>(pushes: seq<Block<T>>, dims: seq<nat>, g: seq<int>)
    requires |g| == |dims|
  {
    forall i | 0 <= i < |pushes| :: !Covers(pushes[i], dims, g)
  }

  /** c is what the last push covering g says of it, or blank if none does. */
  ghost predicate LastWins<T>(sub: Subscription<T>, zero: T, pushes: seq<Block<T>>, g: seq<int>, c: Cell<T>)
    requires |g| == |sub.dims|
  {
    || (NoCover(pushes, sub.dims, g) && c == Cell(zero, false))
    || (exists j: nat | j < |pushes| :: LastCover(pushes, sub.dims, g, j) && c == CellFrom(sub, pushes[j], g))
  }

  lemma {:induction false} LastCoverOf<T>(sub: Subscription<T>, zero: T, pushes: seq<Block<T>>, g: seq<int>)
    returns (j: int)
    requires |g| == |sub.dims|
    ensures -1 <= j < |pushes| && forall i | j < i < |pushes| :: !Covers(pushes[i], sub.dims, g)
    ensures j == -1 ==> Seen(sub, zero, pushes, g) == Cell(zero, false)
    ensures j >= 0 ==> Covers(pushes[j], sub.dims, g) && Seen(sub, zero, pushes, g) == CellFrom(sub, pushes[j], g)
  {
    hide Covers, CellFrom;
    j := |pushes| - 1;
    if j >= 0 && !Covers(pushes[j], sub.dims, g) {
      j := LastCoverOf(sub, zero, pushes[..j], g);
    }
  }

  lemma SeenIsLastCover<T>(sub: Subscription<T>, zero: T, pushes: seq<Block<T>>, g: seq<int>)
    requires |g| == |sub.dims|
    ensures LastWins(sub, zero, pushes, g, Seen(sub, zero, pushes, g))
  {
    hide Covers, CellFrom;
    var j := LastCoverOf(sub, zero, pushes, g);
    if j >= 0 {
      assert LastCover(pushes, sub.dims, g, j);
    }
  }

  lemma AssembledAt<T>(sub: Subscription<T>, zero: T, pushes: seq<Block<T>>, x: seq<int>)
    requires sub.Valid() && sub.dims != [] && pushes != []
    requires Inside(x, BoxOf(sub, pushes).count)
    ensures Sized(Assembled(sub, zero, pushes))
    ensures CellOf(Assembled(sub, zero, pushes), x)
         == Seen(sub, zero, pushes, Plus(BoxOf(sub, pushes).origin, x))
  {
    var box := BoxOf(sub, pushes);
    FlatBounds(x, box.count);
    ShapedCount(box.count);
    assert InExtent(x, box.count);
    CoordsOfFlat(x, box.count);
  }

  /** Reassembly is correct at any rank: at each coordinate of the box the
      array holds the element of the last push covering that coordinate's flat
      index, unmasked exactly if that push passes, and is blank and masked where
      no push covers it; a plain array comes back exactly when nothing is masked. */
  lemma AssembleCorrect<T>(sub: Subscription<T>, zero: T, pushes: seq<Block<T>>)
    requires sub.Valid() && sub.dims != [] && pushes != []
    ensures Sized(Assembled(sub, zero, pushes))
    ensures Assembled(sub, zero, pushes).shape == BoxOf(sub, pushes).count
    ensures forall x | Inside(x, BoxOf(sub, pushes).count) ::
      LastWins(sub, zero, pushes, Plus(BoxOf(sub, pushes).origin, x), CellOf(Assembled(sub, zero, pushes), x))
    ensures Assembled(sub, zero, pushes).plain
       <==> forall x | Inside(x, BoxOf(sub, pushes).count) :: CellOf(Assembled(sub, zero, pushes), x).got
  {
    var a := Assembled(sub, zero, pushes);
    var box := BoxOf(sub, pushes);
    forall x | Inside(x, box.count)
      ensures LastWins(sub, zero, pushes, Plus(box.origin, x), CellOf(a, x))
    {
      AssembledAt(sub, zero, pushes, x);
      SeenIsLastCover(sub, zero, pushes, Plus(box.origin, x));
    }
    PlainIffNothingMasked(a);
  }

  lemma PlainIffNothingMasked<T>(a: Array<T>)
    requires Sized(a) && a.shape != []
    ensures false !in a.got <==> forall x | Inside(x, a.shape) :: CellOf(a, x).got
  {
    if false in a.got {
      var q: nat :| q < |a.got| && !a.got[q];
      ShapedCount(a.shape);
      FlatOfCoords(q, a.shape);
      assert !CellOf(a, Coords(q, a.shape)).got;
    } else {
      forall x | Inside(x, a.shape) ensures CellOf(a, x).got {
        FlatBounds(x, a.shape);
      }
    }
  }

  // ----- The one-push shortcut -----

  /** The subscribed box lies inside the object's trailing dimensions. */
  predicate InTrailing<T>(sub: Subscription<T>)
    requires sub.Valid()
  {
    forall k | 0 < k < |sub.dims| :: sub.start[k] + sub.count[k] <= sub.dims[k]
  }

  lemma FastPathBox<T>(sub: Subscription<T>, pushes: seq<Block<T>>)
    requires sub.Valid() && sub.dims != [] && TakesFastPath(sub, pushes) && InTrailing(sub)
    ensures BoxOf(sub, pushes) == Box(sub.start, sub.count, if sub.grow then Some(sub.start[0]) else None)
  {
    ProductPositive(sub.count);
    var last := Plus(sub.start, LastOf(sub.count));
    assert InExtent(sub.start, sub.dims) && InExtent(last, sub.dims);
    CoordsOfFlat(sub.start, sub.dims);
    CoordsOfFlat(last, sub.dims);
    assert Coord(Flat(sub.start, sub.dims), sub.dims, 0) == sub.start[0];
    assert Coord(Flat(last, sub.dims), sub.dims, 0) == last[0];
    assert MaxEnd(pushes) - 1 == Flat(last, sub.dims);
    assert [sub.start[0]] + sub.start[1..] == sub.start && [sub.count[0]] + sub.count[1..] == sub.count;
  }

  lemma FastPathCell<T>(sub: Subscription<T>, zero: T, p: Block<T>, q: nat)
    requires sub.Valid() && sub.dims != [] && TakesFastPath(sub, [p]) && InTrailing(sub)
    requires q < Product(sub.count)
    ensures Seen(sub, zero, [p], At(Box(sub.start, sub.count, None), q)) == Cell(p.data[q], true)
  {
    ProductPositive(sub.count);
    var x := Coords(q, sub.count);
    FlatOfCoords(q, sub.count);
    FlatPlus(sub.start, LastOf(sub.count), sub.dims);
    ContiguousIffConsecutive(sub.count, sub.dims);
    hide Flat, Product;
    FlatPlus(sub.start, x, sub.dims);
    assert Flat(Plus(sub.start, x), sub.dims) == p.start + q;
    assert InExtent(Plus(sub.start, x), sub.dims);
  }

  /** The shortcut returns what the general path builds, growing and tail
      included, exactly when the box lies inside the trailing dimensions. */
  lemma FastPathAgrees<T>(sub: Subscription<T>, zero: T, pushes: seq<Block<T>>)
    requires sub.Valid() && sub.dims != [] && TakesFastPath(sub, pushes)
    ensures FastArray(sub, pushes[0]) == Assembled(sub, zero, pushes) <==> InTrailing(sub)
  {
    var p := pushes[0];
    var fast, slow := FastArray(sub, p), Assembled(sub, zero, pushes);
    var box := BoxOf(sub, pushes);
    if InTrailing(sub) {
      FastPathBox(sub, pushes);
      assert pushes == [p];
      forall q: nat | q < Product(sub.count)
        ensures slow.values[q] == fast.values[q] && slow.got[q] == fast.got[q]
      {
        FastPathCell(sub, zero, p, q);
        assert At(box, q) == At(Box(sub.start, sub.count, None), q);
      }
      assert slow.values == fast.values && slow.got == fast.got;
    } else if fast == slow {
      ProductPositive(sub.count);
      var x := LastOf(sub.count);
      assert Inside(x, sub.count);
      AssembledAt(sub, zero, pushes, x);
      var g := Plus(box.origin, x);
      var k :| 0 < k < |sub.dims| && sub.start[k] + sub.count[k] > sub.dims[k];
      assert g[k] == g[1..][k - 1] == sub.start[k] + sub.count[k] - 1 && sub.dims[k] == sub.dims[1..][k - 1];
      assert !CellOf(slow, x).got;
      FlatBounds(x, sub.count);
      assert false;
    }
  }

  lemma ArrayForIsAssembled<T>(sub: Subscription<T>, zero: T, pushes: seq<Block<T>>)
    requires sub.Valid() && sub.dims != [] && pushes != []
    ensures ArrayFor(sub, zero, pushes) == Assembled(sub, zero, pushes)
       <==> (TakesFastPath(sub, pushes) ==> InTrailing(sub))
  {
    if TakesFastPath(sub, pushes) { FastPathAgrees(sub, zero, pushes); }
  }

  lemma AssembledShape<T>(sub: Subscription<T>, zero: T, pushes: seq<Block<T>>)
    requires sub.Valid() && sub.dims != [] && pushes != []
    ensures Assembled(sub, zero, pushes).shape == BoxOf(sub, pushes).count
  {
  }

  // ----- Shape -----

  /** Rows of the object, in elements, are numbered by the place they start at. */
  predicate InRow(f: int, row: int, rowLength: nat) { row * rowLength <= f < (row + 1) * rowLength }

  /** row holds the last element of some push, and no push reaches past it. */
  ghost predicate IsLastRow<T>(pushes: seq<Block<T>>, rowLength: nat, row: int) {
    && (exists p | p in pushes :: InRow(p.start + |p.data| - 1, row, rowLength))
    && (forall p | p in pushes :: p.start + |p.data| <= (row + 1) * rowLength)
  }

  /** row holds the first element of some push, and no push starts before it. */
  ghost predicate IsFirstRow<T>(pushes: seq<Block<T>>, rowLength: nat, row: int) {
    && (exists p | p in pushes :: InRow(p.start, row, rowLength))
    && (forall p | p in pushes :: row * rowLength <= p.start)
  }

  lemma {:induction false} EndsAreReached<T>(pushes: seq<Block<T>>)
    requires pushes != []
    ensures exists p | p in pushes :: p.start + |p.data| == MaxEnd(pushes)
    ensures exists p | p in pushes :: p.start == MinStart(pushes)
    ensures forall p | p in pushes :: MinStart(pushes) <= p.start && p.start + |p.data| <= MaxEnd(pushes)
  {
    var front, last := pushes[..|pushes| - 1], pushes[|pushes| - 1];
    assert forall p :: p in pushes <==> p in front || p == last;
    if |pushes| > 1 {
      EndsAreReached(front);
    }
  }

  lemma RowOf(f: int, rowLength: nat)
    requires rowLength > 0
    ensures InRow(f, f / rowLength, rowLength)
  {
    assert f == f / rowLength * rowLength + f % rowLength;
    assert (f / rowLength + 1) * rowLength == f / rowLength * rowLength + rowLength;
  }

  /** What the box is, from the pushes alone. A plain subscription's own; a growing
      one's rows go on to the last that any push reaches, if that is further; with
      tail they begin with the first that any push starts in, or the subscription's
      own if that is later. The other axes are the subscription's. */
  lemma BoxIs<T>(sub: Subscription<T>, pushes: seq<Block<T>>) returns (first: int, last: int)
    requires sub.Valid() && sub.dims != [] && pushes != []
    ensures IsFirstRow(pushes, Stride(sub.dims, 0), first) && IsLastRow(pushes, Stride(sub.dims, 0), last)
    ensures var from, own := Max(sub.start[0], first), sub.start[0];
      BoxOf(sub, pushes) ==
        if !sub.grow then Box(sub.start, sub.count, None)
        else if sub.tail then Box([from] + sub.start[1..], [Max(0, last + 1 - from)] + sub.count[1..], Some(from))
        else Box(sub.start, [Max(sub.count[0], last + 1 - own)] + sub.count[1..], Some(own))
  {
    var st := Stride(sub.dims, 0);
    StridePositive(sub.dims, 0);
    EndsAreReached(pushes);
    first, last := MinStart(pushes) / st, (MaxEnd(pushes) - 1) / st;
    RowOf(MinStart(pushes), st);
    RowOf(MaxEnd(pushes) - 1, st);
    hide MaxEnd, MinStart, Stride, Shaped;
  }

  /** Those rows are the only ones like that. */
  lemma OneSuchRow<T>(pushes: seq<Block<T>>, rowLength: nat, a: int, b: int)
    requires rowLength > 0
    ensures IsFirstRow(pushes, rowLength, a) && IsFirstRow(pushes, rowLength, b) ==> a == b
    ensures IsLastRow(pushes, rowLength, a) && IsLastRow(pushes, rowLength, b) ==> a == b
  {
    if IsFirstRow(pushes, rowLength, a) && IsFirstRow(pushes, rowLength, b) {
      RowOrder(a, b, rowLength);
      RowOrder(b, a, rowLength);
    }
    if IsLastRow(pushes, rowLength, a) && IsLastRow(pushes, rowLength, b) {
      RowOrder(a, b, rowLength);
      RowOrder(b, a, rowLength);
    }
  }

  lemma RowOrder(a: int, b: int, rowLength: nat)
    requires rowLength > 0
    ensures a * rowLength < (b + 1) * rowLength ==> a <= b
  {
    if a > b {
      MulMonotone(0, a - (b + 1), rowLength);
      assert (a - (b + 1)) * rowLength == a * rowLength - (b + 1) * rowLength;
    }
  }

  /** The array's frame: its shape and first row as the pushes and the subscription
      say, and each position the object's at that offset. */
  lemma FrameIs<T>(sub: Subscription<T>, zero: T, pushes: seq<Block<T>>) returns (first: int, last: int)
    requires sub.Valid() && sub.dims != [] && pushes != []
    ensures IsFirstRow(pushes, Stride(sub.dims, 0), first) && IsLastRow(pushes, Stride(sub.dims, 0), last)
    ensures var a, own := Assembled(sub, zero, pushes), sub.start[0];
      var from := if sub.grow && sub.tail then Max(own, first) else own;
      && Sized(a) && |a.shape| == |sub.dims| && a.shape[1..] == sub.count[1..]
      && a.shape[0] == (if !sub.grow then sub.count[0] else if sub.tail then Max(0, last + 1 - from)
                        else Max(sub.count[0], last + 1 - own))
      && a.firstRow == (if sub.grow then Some(from) else None)
      && forall x | Inside(x, a.shape) :: CellOf(a, x) == Seen(sub, zero, pushes, Plus([from] + sub.start[1..], x))
  {
    first, last := BoxIs(sub, pushes);
    var a := Assembled(sub, zero, pushes);
    var box := BoxOf(sub, pushes);
    FrameSized(sub, zero, pushes);
    assert sub.start == [sub.start[0]] + sub.start[1..] && sub.count == [sub.count[0]] + sub.count[1..];
    forall x | Inside(x, a.shape) ensures CellOf(a, x) == Seen(sub, zero, pushes, Plus(box.origin, x)) {
      AssembledAt(sub, zero, pushes, x);
    }
    hide BoxOf, Assembled, CellOf, Seen, IsFirstRow, IsLastRow, Stride, Shaped, Inside, Plus;
  }

  lemma FrameSized<T>(sub: Subscription<T>, zero: T, pushes: seq<Block<T>>)
    requires sub.Valid() && sub.dims != [] && pushes != []
    ensures var a, box := Assembled(sub, zero, pushes), BoxOf(sub, pushes);
      Sized(a) && a.shape == box.count && a.firstRow == box.firstRow
  {
  }

  /** Inside the trailing extents the shortcut is taken exactly if the one push is the
      box's elements in their order, none to be tested again. */
  lemma FastPathIff<T>(sub: Subscription<T>, p: Block<T>)
    requires sub.Valid() && sub.dims != [] && InTrailing(sub) && Positive(sub.count)
    ensures TakesFastPath(sub, [p])
       <==> p.delivery * PREDICATE == {} && |p.data| == Product(sub.count)
            && forall x | Inside(x, sub.count) :: Flat(Plus(sub.start, x), sub.dims) == p.start + Flat(x, sub.count)
  {
    ProductPositive(sub.count);
    ContiguousIffConsecutive(sub.count, sub.dims);
    FlatPlus(sub.start, LastOf(sub.count), sub.dims);
    var from := Flat(sub.start, sub.dims);
    assert Contiguous(sub) <==> forall x | Inside(x, sub.count) :: Flat(x, sub.dims) == Flat(x, sub.count);
    hide Flat, Product, Contiguous, InTrailing, Shaped;
    PlacesFrom(sub, from);
    if forall x | Inside(x, sub.count) :: Flat(Plus(sub.start, x), sub.dims) == p.start + Flat(x, sub.count) {
      BoxOrigin(sub);
    }
  }

  lemma PlacesFrom<T>(sub: Subscription<T>, from: int)
    requires sub.Valid() && from == Flat(sub.start, sub.dims)
    ensures forall x | Inside(x, sub.count) :: Flat(Plus(sub.start, x), sub.dims) == from + Flat(x, sub.dims)
  {
    forall x | Inside(x, sub.count) ensures Flat(Plus(sub.start, x), sub.dims) == from + Flat(x, sub.dims) {
      FlatPlus(sub.start, x, sub.dims);
    }
  }

  /** The box's first element. */
  lemma BoxOrigin<T>(sub: Subscription<T>)
    requires sub.Valid() && Positive(sub.count)
    ensures var x := seq(|sub.count|, _ => 0);
      Inside(x, sub.count) && Plus(sub.start, x) == sub.start && Flat(x, sub.count) == 0 == Flat(x, sub.dims)
  {
    FlatOrigin(sub.count);
    FlatOrigin(sub.dims);
  }

  lemma {:induction false} FlatOrigin(dims: seq<nat>)
    ensures Flat(seq(|dims|, _ => 0), dims) == 0
  {
    if dims != [] {
      FlatOrigin(dims[1..]);
      assert seq(|dims|, _ => 0)[1..] == seq(|dims[1..]|, _ => 0);
    }
  }

  /** The failing case: in a 2 by 2 object, the second element of the first row and
      the one past its end have consecutive flat indices. The shortcut returns the
      first element of the second row there; scattering leaves the cell masked. */
  lemma WrappingBoxDiffers<T>(a: T, b: T, zero: T, matches: T -> bool)
    ensures var sub := Subscription([2, 2], [0, 1], [1, 2], false, false, matches);
      var pushes := [Block(1, [a, b], {})];
      && sub.Valid() && TakesFastPath(sub, pushes) && !InTrailing(sub)
      && ArrayFor(sub, zero, pushes) == Array([1, 2], [a, b], [true, true], true, None)
      && ArrayFor(sub, zero, pushes) != Assembled(sub, zero, pushes)
  {
    var sub := Subscription([2, 2], [0, 1], [1, 2], false, false, matches);
    var pushes := [Block(1, [a, b], {})];
    assert sub.start[1] + sub.count[1] > sub.dims[1];
    assert Plus(sub.start, LastOf(sub.count)) == [0, 2];
    assert Flat([0, 2], [2, 2]) == 2 && Flat([0, 1], [2, 2]) == 1 && Product([1, 2]) == 2;
    FastPathAgrees(sub, zero, pushes);
    assert seq(2, _ => true) == [true, true];
  }

  // ----- Tail -----

  lemma {:induction false} EndsBound<T>(pushes: seq<Block<T>>)
    requires pushes != []
    ensures forall p | p in pushes :: MinStart(pushes) <= p.start && p.start + |p.data| <= MaxEnd(pushes)
  {
    if |pushes| > 1 {
      EndsBound(pushes[..|pushes| - 1]);
    }
  }

  /** A row no push reaches into is masked. */
  lemma {:induction false} RowsSeen<T>(sub: Subscription<T>, zero: T, pushes: seq<Block<T>>, g: seq<int>)
    requires sub.Valid() && sub.dims != [] && pushes != [] && |g| == |sub.dims| && g[0] >= 0
    requires Stride(sub.dims, 0) > 0
    requires g[0] < MinStart(pushes) / Stride(sub.dims, 0) || g[0] > (MaxEnd(pushes) - 1) / Stride(sub.dims, 0)
    ensures !Seen(sub, zero, pushes, g).got
  {
    var st := Stride(sub.dims, 0);
    forall p | p in pushes ensures !Covers(p, sub.dims, g) {
      EndsBound(pushes);
      if Covers(p, sub.dims, g) {
        var f := Flat(g, sub.dims);
        CoordsOfFlat(g, sub.dims);
        assert Coord(f, sub.dims, 0) == g[0] == f / st;
        DivMonotone(MinStart(pushes), f, st);
        DivMonotone(f, MaxEnd(pushes) - 1, st);
        assert false;
      }
    }
    SeenIsLastCover(sub, zero, pushes, g);
  }

  lemma DivMonotone(a: int, b: int, d: int)
    requires a <= b && d > 0
    ensures a / d <= b / d
  {
    assert a == a / d * d + a % d && b == b / d * d + b % d;
    SpansApart(b / d - a / d, d);
    assert (b / d - a / d) * d == b / d * d - a / d * d;
  }

  lemma {:induction false} SeenIgnoresTail<T>(sub: Subscription<T>, zero: T, pushes: seq<Block<T>>, g: seq<int>)
    requires |g| == |sub.dims|
    ensures Seen(sub.(tail := true), zero, pushes, g) == Seen(sub.(tail := false), zero, pushes, g)
  {
    if pushes != [] {
      SeenIgnoresTail(sub, zero, pushes[..|pushes| - 1], g);
    }
  }

  /** The rows of the full array that the tail array is. */
  function FullPlace(x: seq<int>, shift: int): seq<int>
    requires x != []
  {
    [x[0] + shift] + x[1..]
  }

  lemma TailRow<T>(sub: Subscription<T>, pushes: seq<Block<T>>, x: seq<int>)
    requires sub.Valid() && sub.dims != [] && pushes != [] && sub.grow
    requires Inside(x, BoxOf(sub.(tail := true), pushes).count)
    ensures var full, tail := BoxOf(sub.(tail := false), pushes), BoxOf(sub.(tail := true), pushes);
      var y := FullPlace(x, tail.origin[0] - sub.start[0]);
      && full.count[1..] == tail.count[1..] && tail.origin[0] >= sub.start[0]
      && Inside(y, full.count) && Plus(full.origin, y) == Plus(tail.origin, x)
  {
  }

  /** The tail array is a window of rows of the growing array ... */
  lemma TailIsRowWindow<T>(sub: Subscription<T>, zero: T, pushes: seq<Block<T>>, x: seq<int>)
    requires sub.Valid() && sub.dims != [] && pushes != [] && sub.grow
    requires Inside(x, BoxOf(sub.(tail := true), pushes).count)
    ensures var full, tail := Assembled(sub.(tail := false), zero, pushes), Assembled(sub.(tail := true), zero, pushes);
      && Sized(full) && Sized(tail) && tail.shape[1..] == full.shape[1..]
      && tail.firstRow.Some? && tail.firstRow.value >= sub.start[0]
      && var y := FullPlace(x, tail.firstRow.value - sub.start[0]);
         Inside(y, full.shape) && CellOf(full, y) == CellOf(tail, x)
  {
    assert x != [];
    hide Seen, CellOf, Flat, Product, Shaped, Inside, Plus;
    TailRow(sub, pushes, x);
    var tail := BoxOf(sub.(tail := true), pushes);
    AssembledAt(sub.(tail := false), zero, pushes, FullPlace(x, tail.origin[0] - sub.start[0]));
    AssembledAt(sub.(tail := true), zero, pushes, x);
    SeenIgnoresTail(sub, zero, pushes, Plus(tail.origin, x));
  }

  /** ... and every element of the growing array outside that window is masked. */
  lemma OutsideTailIsMasked<T>(sub: Subscription<T>, zero: T, pushes: seq<Block<T>>, y: seq<int>)
    requires sub.Valid() && sub.dims != [] && pushes != [] && sub.grow
    requires Inside(y, BoxOf(sub.(tail := false), pushes).count)
    requires var tbox := BoxOf(sub.(tail := true), pushes);
      !(tbox.origin[0] - sub.start[0] <= y[0] < tbox.origin[0] - sub.start[0] + tbox.count[0])
    ensures Sized(Assembled(sub.(tail := false), zero, pushes))
    ensures !CellOf(Assembled(sub.(tail := false), zero, pushes), y).got
  {
    var fsub := sub.(tail := false);
    AssembledAt(fsub, zero, pushes, y);
    StridePositive(sub.dims, 0);
    RowsSeen(fsub, zero, pushes, Plus(BoxOf(fsub, pushes).origin, y));
  }
}
