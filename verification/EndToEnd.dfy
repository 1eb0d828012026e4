/** From a write at the writer to one cell of the subscriber's array. */
module EndToEnd {
  import opened Delivery
  import opened Ranges
  import opened RowMajor
  import opened ValueTest
  import WriterTables
  import N = Narrowing
  import A = Reassembly

  /** The bytes of a push's elements once the receiver has undone its pipeline. */
  ghost function Unfiltered(mean: N.Meaning, p: N.Push): N.Bytes {
    if p.dcpl == [] then p.payload else mean.decode(p.dcpl, p.payload)
  }

  /** A push as the receiver reads it, element by element. */
  ghost function Received<T>(mean: N.Meaning, v: N.View, value: N.Bytes -> T, p: N.Push): (q: A.Block<T>)
    requires v.Valid() && N.Carries(mean, v, p)
    ensures q.start == p.start && |q.data| == p.count && q.delivery == p.delivery
  {
    A.Block(p.start, seq(p.count, i requires 0 <= i < p.count =>
      N.SliceElement(v, p.start, p.count, i);
      value(N.Element(Unfiltered(mean, p), v.elemSize, i))), p.delivery)
  }

  ghost function ReceivedAll<T>(mean: N.Meaning, v: N.View, value: N.Bytes -> T, ps: seq<N.Push>): (qs: seq<A.Block<T>>)
    requires v.Valid() && forall p | p in ps :: N.Carries(mean, v, p)
    ensures |qs| == |ps|
  {
    seq(|ps|, i requires 0 <= i < |ps| => assert ps[i] in ps; Received(mean, v, value, ps[i]))
  }

  lemma ReceivedAt<T>(mean: N.Meaning, v: N.View, value: N.Bytes -> T, p: N.Push, e: nat)
    requires v.Valid() && N.Carries(mean, v, p) && p.Has(e)
    ensures v.Spans(e, 1) && Received(mean, v, value, p).data[e - p.start] == value(v.Slice(e, 1))
  {
    N.SliceElement(v, p.start, p.count, e - p.start);
    assert Unfiltered(mean, p) == v.Slice(p.start, p.count) && v.Spans(e, 1);
    hide N.Carries, N.View.Slice, N.Element;
  }

  // ----- What arrives -----

  /** Requests in flight together are queued in any order, and some are lost: what
      arrives is any sequence of what was sent. */
  ghost predicate From<T>(came: seq<A.Block<T>>, sent: seq<A.Block<T>>) { forall q | q in came :: q in sent }

  /** Something that arrived holds the element at g. */
  ghost predicate Arrived<T>(came: seq<A.Block<T>>, dims: seq<nat>, g: seq<int>)
    requires |g| == |dims|
  {
    exists q | q in came :: A.Covers(q, dims, g)
  }

  /** The push a block that covers g was. */
  lemma PushOf<T>(mean: N.Meaning, v: N.View, value: N.Bytes -> T, ps: seq<N.Push>, q: A.Block<T>, dims: seq<nat>,
                  g: seq<int>)
    returns (p: N.Push)
    requires v.Valid() && (forall p | p in ps :: N.Carries(mean, v, p))
    requires |g| == |dims| && q in ReceivedAll(mean, v, value, ps) && A.Covers(q, dims, g)
    ensures p in ps && p.Has(Flat(g, dims)) && q.delivery == p.delivery && v.Spans(Flat(g, dims), 1)
    ensures q.data[Flat(g, dims) - q.start] == value(v.Slice(Flat(g, dims), 1))
  {
    var i :| 0 <= i < |ps| && ReceivedAll(mean, v, value, ps)[i] == q;
    p := ps[i];
    assert p in ps;
    ReceivedAt(mean, v, value, p, Flat(g, dims));
    hide N.Carries, Flat, InExtent, N.View.Slice;
  }

  /** What the receiver sees of a cell: the value the view holds there, if a push
      that sends it arrived, tested again only if that push was not filtered exactly. */
  lemma SeenIsSent<T>(mean: N.Meaning, v: N.View, value: N.Bytes -> T, ps: seq<N.Push>, came: seq<A.Block<T>>,
                      box: A.Subscription<T>, zero: T, g: seq<int>)
    requires v.Valid() && (forall p | p in ps :: N.Carries(mean, v, p)) && From(came, ReceivedAll(mean, v, value, ps))
    requires |g| == |box.dims| && InExtent(g, box.dims) && Flat(g, box.dims) >= 0
    ensures var f, cell := Flat(g, box.dims), A.Seen(box, zero, came, g);
      if Arrived(came, box.dims, g) then
        && v.Spans(f, 1) && cell.value == value(v.Slice(f, 1))
        && exists p | p in ps :: p.Has(f) && cell.got == (p.delivery * PREDICATE == {} || box.matches(cell.value))
      else cell == A.Cell(zero, false)
  {
    hide N.Carries, Flat, InExtent, A.Seen, ReceivedAll;
    var j := A.LastCoverOf(box, zero, came, g);
    if j >= 0 {
      assert came[j] in came;
      var p := PushOf(mean, v, value, ps, came[j], box.dims, g);
    }
  }

  // ----- One write -----

  /** What one write sends, as the receiver reads it. */
  ghost function Pushed<T>(cb: N.Callbacks, mean: N.Meaning, w: N.Write, sub: WriterTables.Entry,
                           value: N.Bytes -> T): seq<A.Block<T>>
    requires N.Honest(cb, mean) && w.Valid()
  {
    if N.OverlapOf(w, sub).count == 0 then []
    else
      N.PlanIsSound(cb, mean, w, sub);
      ReceivedAll(mean, N.ViewOf(cb, w, sub, N.OverlapOf(w, sub)), value, N.Plan(cb, mean, w, sub))
  }

  /** Element f is sent under a bit that makes the reader test it again. */
  ghost predicate Retested(ps: seq<N.Push>, f: int) {
    exists p | p in ps :: p.Has(f) && p.delivery * PREDICATE != {}
  }

  /** Element f is sent, and passes the reader's own test if it is tested again. */
  ghost predicate Accepted<T>(v: N.View, ps: seq<N.Push>, value: N.Bytes -> T, box: A.Subscription<T>, f: nat)
    requires v.Valid()
  {
    N.Sends(ps, f) && v.Spans(f, 1) && (Retested(ps, f) ==> box.matches(value(v.Slice(f, 1))))
  }

  /** The reader's test of the value it reads says what the writer's predicate
      says of the element in the form it was sent. */
  ghost predicate TestsAgree<T>(mean: N.Meaning, sub: WriterTables.Entry, v: N.View, value: N.Bytes -> T,
                                box: A.Subscription<T>, f: nat)
    requires v.Valid()
  {
    v.Spans(f, 1) ==> (box.matches(value(v.Slice(f, 1))) <==> N.Holds(mean, sub, v, f))
  }

  lemma {:induction false} TilesAbove(ps: seq<N.Push>, lo: int, hi: int)
    requires N.Tiles(ps, lo, hi)
    ensures forall p | p in ps :: lo <= p.start
  {
    if ps != [] {
      TilesAbove(ps[1..], ps[0].start + ps[0].count, hi);
      assert forall p | p in ps :: p == ps[0] || p in ps[1..];
    }
  }

  /** No element is sent by two pushes of a plan. */
  lemma {:induction false} OnePushEach(ps: seq<N.Push>, lo: int, hi: int, p: N.Push, q: N.Push, f: int)
    requires N.Tiles(ps, lo, hi) && p in ps && q in ps && p.Has(f) && q.Has(f)
    ensures p == q
  {
    var end := ps[0].start + ps[0].count;
    TilesAbove(ps[1..], end, hi);
    assert forall x | x in ps :: x == ps[0] || x in ps[1..];
    if p in ps[1..] && q in ps[1..] {
      OnePushEach(ps[1..], end, hi, p, q, f);
    }
  }

  /** From what was sent to what is received, for one element. */
  lemma CellIsAccepted<T>(v: N.View, ps: seq<N.Push>, lo: int, hi: int, value: N.Bytes -> T, box: A.Subscription<T>,
                          f: nat, cell: A.Cell<T>)
    requires v.Valid() && N.Tiles(ps, lo, hi) && v.Spans(f, 1) && cell.value == value(v.Slice(f, 1))
    requires exists p | p in ps :: p.Has(f) && cell.got == (p.delivery * PREDICATE == {} || box.matches(cell.value))
    ensures N.Sends(ps, f) && (cell.got <==> Accepted(v, ps, value, box, f))
  {
    var p :| p in ps && p.Has(f) && cell.got == (p.delivery * PREDICATE == {} || box.matches(cell.value));
    assert N.Sends(ps, f);
    if Retested(ps, f) {
      var q :| q in ps && q.Has(f) && q.delivery * PREDICATE != {};
      OnePushEach(ps, lo, hi, p, q, f);
    }
  }

  /** A selected element is accepted as the predicate says, exactly if it is not
      tested again or the two tests agree on it. */
  lemma AcceptedIff<T>(mean: N.Meaning, sub: WriterTables.Entry, v: N.View, ov: Run, ps: seq<N.Push>,
                       value: N.Bytes -> T, box: A.Subscription<T>, f: nat)
    requires v.Valid() && N.Selected(mean, sub, f)
    requires N.Wanted(mean, sub, v, ov, f) ==> N.Sends(ps, f)
    requires forall p | p in ps && p.Has(f) :: ov.Has(f) && v.Spans(f, 1) && N.Honoured(mean, sub, v, p, f)
    ensures (Accepted(v, ps, value, box, f) <==> ov.Has(f) && N.Holds(mean, sub, v, f))
       <==> (Retested(ps, f) ==> TestsAgree(mean, sub, v, value, box, f))
    ensures !N.Sends(ps, f) ==> !(ov.Has(f) && N.Holds(mean, sub, v, f))
  {
    hide N.Holds, N.Selected;
    if N.Sends(ps, f) {
      var p :| p in ps && p.Has(f);
      assert N.Honoured(mean, sub, v, p, f);
    }
  }

  lemma ArrivedCell<T>(cb: N.Callbacks, mean: N.Meaning, w: N.Write, sub: WriterTables.Entry, value: N.Bytes -> T,
                       came: seq<A.Block<T>>, box: A.Subscription<T>, zero: T, g: seq<int>)
    requires N.Honest(cb, mean) && w.Valid() && N.OverlapOf(w, sub).count > 0
    requires From(came, Pushed(cb, mean, w, sub, value))
    requires |g| == |box.dims| && InExtent(g, box.dims) && Flat(g, box.dims) >= 0
    ensures var f, ov, ps := Flat(g, box.dims), N.OverlapOf(w, sub), N.Plan(cb, mean, w, sub);
      var v := N.ViewOf(cb, w, sub, ov);
      var cell, arrived := A.Seen(box, zero, came, g), Arrived(came, box.dims, g);
      && v.Valid() && (cell.got <==> arrived && Accepted(v, ps, value, box, f))
      && (arrived ==> N.Sends(ps, f) && ov.Has(f) && v.Spans(f, 1) && cell.value == value(v.Slice(f, 1)))
      && (arrived ==> N.NativeView(w).Spans(f, 1) && N.Represents(mean, w, sub, v, f))
  {
    hide N.Honest, N.Plan, N.ViewOf, N.OverlapOf, N.Selected, N.Carries, Flat, InExtent, A.Seen, N.Tiles, N.Holds,
      N.Represents, N.Honoured, ReceivedAll, Accepted, Arrived, From;
    N.PlanIsSound(cb, mean, w, sub);
    var f, ov := Flat(g, box.dims), N.OverlapOf(w, sub);
    var v, ps := N.ViewOf(cb, w, sub, ov), N.Plan(cb, mean, w, sub);
    assert From(came, ReceivedAll(mean, v, value, ps));
    SeenIsSent(mean, v, value, ps, came, box, zero, g);
    if Arrived(came, box.dims, g) {
      CellIsAccepted(v, ps, ov.start, ov.start + ov.count, value, box, f, A.Seen(box, zero, came, g));
      N.ViewRepresents(cb, mean, w, sub, ov, f - ov.start);
      assert ov.start + (f - ov.start) == f;
    }
  }

  lemma PlanAccepts<T>(cb: N.Callbacks, mean: N.Meaning, w: N.Write, sub: WriterTables.Entry, value: N.Bytes -> T,
                       box: A.Subscription<T>, f: nat)
    requires N.Honest(cb, mean) && w.Valid() && N.OverlapOf(w, sub).count > 0
    ensures var ov, ps := N.OverlapOf(w, sub), N.Plan(cb, mean, w, sub);
      var v := N.ViewOf(cb, w, sub, ov);
      && v.Valid()
      && (N.Selected(mean, sub, f) ==>
            && (!N.Sends(ps, f) ==> !(ov.Has(f) && N.Holds(mean, sub, v, f)))
            && ((Accepted(v, ps, value, box, f) <==> ov.Has(f) && N.Holds(mean, sub, v, f))
                <==> (Retested(ps, f) ==> TestsAgree(mean, sub, v, value, box, f))))
  {
    hide N.Honest, N.Plan, N.ViewOf, N.OverlapOf, N.Selected, N.Carries, N.Tiles, N.Holds, N.Honoured, Accepted,
      Retested, TestsAgree;
    N.PlanIsSound(cb, mean, w, sub);
    if N.Selected(mean, sub, f) {
      var ov := N.OverlapOf(w, sub);
      if ov.Has(f) {
        N.ViewRepresents(cb, mean, w, sub, ov, f - ov.start);
        assert ov.start + (f - ov.start) == f;
      }
      AcceptedIff(mean, sub, N.ViewOf(cb, w, sub, ov), ov, N.Plan(cb, mean, w, sub), value, box, f);
    }
  }

  /** Narrowing and reassembly together, whichever callbacks are there, whatever
      they decline, and in whatever order whichever of the pushes arrive. A cell is
      received exactly if a push of its element arrives and the element passes any
      second test; it then has the element of the write, cast if the writer granted
      another type. A selected cell is received exactly if the write has it, it
      satisfies the predicate in the form sent, and its push, if any, arrives -- if
      and only if what arrives is not tested again or the second test agrees with
      the first. */
  lemma OneWriteEndToEnd<T>(cb: N.Callbacks, mean: N.Meaning, w: N.Write, sub: WriterTables.Entry,
                            value: N.Bytes -> T, came: seq<A.Block<T>>, box: A.Subscription<T>, zero: T, g: seq<int>)
    requires N.Honest(cb, mean) && w.Valid() && N.OverlapOf(w, sub).count > 0
    requires From(came, Pushed(cb, mean, w, sub, value))
    requires |g| == |box.dims| && InExtent(g, box.dims) && Flat(g, box.dims) >= 0
    ensures var f, ov, ps := Flat(g, box.dims), N.OverlapOf(w, sub), N.Plan(cb, mean, w, sub);
      var v := N.ViewOf(cb, w, sub, ov);
      var cell, arrived := A.Seen(box, zero, came, g), Arrived(came, box.dims, g);
      && v.Valid()
      && (cell.got <==> arrived && Accepted(v, ps, value, box, f))
      && (arrived ==> N.Sends(ps, f) && ov.Has(f) && v.Spans(f, 1) && cell.value == value(v.Slice(f, 1)))
      && (arrived ==> N.NativeView(w).Spans(f, 1) && N.Represents(mean, w, sub, v, f))
      && (N.Selected(mean, sub, f) ==>
            ((cell.got <==> ov.Has(f) && N.Holds(mean, sub, v, f) && (N.Sends(ps, f) ==> arrived))
             <==> (arrived && Retested(ps, f) ==> TestsAgree(mean, sub, v, value, box, f))))
  {
    hide *;
    ArrivedCell(cb, mean, w, sub, value, came, box, zero, g);
    PlanAccepts(cb, mean, w, sub, value, box, Flat(g, box.dims));
  }

  /** If nothing is lost, what arrives holds an element exactly if it is sent. */
  lemma AllArrives<T>(cb: N.Callbacks, mean: N.Meaning, w: N.Write, sub: WriterTables.Entry, value: N.Bytes -> T,
                      came: seq<A.Block<T>>, dims: seq<nat>, g: seq<int>)
    requires N.Honest(cb, mean) && w.Valid() && From(Pushed(cb, mean, w, sub, value), came)
    requires |g| == |dims| && InExtent(g, dims) && N.Sends(N.Plan(cb, mean, w, sub), Flat(g, dims))
    ensures N.OverlapOf(w, sub).count > 0 && Arrived(came, dims, g)
  {
    var ps, qs := N.Plan(cb, mean, w, sub), Pushed(cb, mean, w, sub, value);
    var f := Flat(g, dims);
    OutsideSendsNothing(cb, mean, w, sub);
    N.PlanIsSound(cb, mean, w, sub);
    hide N.Honest, N.Plan, N.ViewOf, N.OverlapOf, N.Carries, Flat, InExtent, N.Tiles;
    var p :| p in ps && p.Has(f);
    var i :| 0 <= i < |ps| && ps[i] == p;
    assert A.Covers(qs[i], dims, g) && qs[i] in qs;
  }

  /** A write outside the subscribed range sends nothing. */
  lemma OutsideSendsNothing(cb: N.Callbacks, mean: N.Meaning, w: N.Write, sub: WriterTables.Entry)
    requires N.Honest(cb, mean) && w.Valid()
    ensures N.OverlapOf(w, sub).count == 0 ==> N.Plan(cb, mean, w, sub) == []
  {
  }

  // ----- Several writes in one step -----

  /** A block in the reader's queue, and the write it is of. */
  datatype Queued<T> = Queued(write: nat, block: A.Block<T>)

  function BlocksOf<T>(came: seq<Queued<T>>): (qs: seq<A.Block<T>>)
    ensures |qs| == |came|
  {
    seq(|came|, i requires 0 <= i < |came| => came[i].block)
  }

  function OfWrite<T>(came: seq<Queued<T>>, k: nat): seq<A.Block<T>> {
    if came == [] then []
    else
      var last := came[|came| - 1];
      OfWrite(came[..|came| - 1], k) + (if last.write == k then [last.block] else [])
  }

  /** Every block is of some write of the step. */
  ghost predicate StepFrom<T>(cb: N.Callbacks, mean: N.Meaning, ws: seq<N.Write>, sub: WriterTables.Entry,
                              value: N.Bytes -> T, came: seq<Queued<T>>)
    requires N.Honest(cb, mean) && forall w | w in ws :: w.Valid()
  {
    forall x | x in came :: x.write < |ws| && x.block in Pushed(cb, mean, ws[x.write], sub, value)
  }

  lemma {:induction false} OfWriteHas<T>(came: seq<Queued<T>>, k: nat)
    ensures forall q | q in OfWrite(came, k) :: Queued(k, q) in came
    ensures forall x | x in came && x.write == k :: x.block in OfWrite(came, k)
  {
    if came != [] {
      var rest, last := came[..|came| - 1], came[|came| - 1];
      OfWriteHas(rest, k);
      assert came == rest + [last];
    }
  }

  lemma OfWriteFrom<T>(cb: N.Callbacks, mean: N.Meaning, ws: seq<N.Write>, sub: WriterTables.Entry,
                       value: N.Bytes -> T, came: seq<Queued<T>>, k: nat)
    requires N.Honest(cb, mean) && (forall w | w in ws :: w.Valid()) && k < |ws|
    requires StepFrom(cb, mean, ws, sub, value, came)
    ensures From(OfWrite(came, k), Pushed(cb, mean, ws[k], sub, value))
  {
    OfWriteHas(came, k);
    hide N.Honest, Pushed, OfWrite;
    forall q | q in OfWrite(came, k) ensures q in Pushed(cb, mean, ws[k], sub, value) {
      assert Queued(k, q) in came;
    }
  }

  /** Which write the last block over g is of. */
  ghost function LastOver<T>(came: seq<Queued<T>>, dims: seq<nat>, g: seq<int>): Option<nat>
    requires |g| == |dims|
  {
    if came == [] then None
    else if A.Covers(came[|came| - 1].block, dims, g) then Some(came[|came| - 1].write)
    else LastOver(came[..|came| - 1], dims, g)
  }

  /** A block of another write over g is queued after all those of write k. */
  ghost predicate Overtaken<T>(came: seq<Queued<T>>, k: nat, dims: seq<nat>, g: seq<int>)
    requires |g| == |dims|
  {
    exists i :: OvertakesAt(came, k, dims, g, i)
  }

  ghost predicate OvertakesAt<T>(came: seq<Queued<T>>, k: nat, dims: seq<nat>, g: seq<int>, i: int)
    requires |g| == |dims|
  {
    && 0 <= i < |came| && came[i].write != k && A.Covers(came[i].block, dims, g)
    && forall j | i < j < |came| && came[j].write == k :: !A.Covers(came[j].block, dims, g)
  }

  /** The last write over a cell is the one whose block over it arrives and is not
      overtaken by another's. */
  lemma {:induction false} LastOverIff<T>(came: seq<Queued<T>>, k: nat, dims: seq<nat>, g: seq<int>)
    requires |g| == |dims|
    ensures LastOver(came, dims, g) == Some(k) <==> Arrived(OfWrite(came, k), dims, g) && !Overtaken(came, k, dims, g)
    ensures LastOver(came, dims, g) == None <==> forall x | x in came :: !A.Covers(x.block, dims, g)
  {
    hide A.Covers;
    if came != [] {
      var n := |came| - 1;
      var rest, last := came[..n], came[n];
      LastOverIff(rest, k, dims, g);
      assert forall x :: x in came <==> x in rest || x == last;
      ArrivedNext(rest, last, k, dims, g);
      assert came == rest + [last];
      OvertakenNext(rest, last, k, dims, g);
      hide Arrived, Overtaken, OfWrite;
    }
  }

  lemma ArrivedNext<T>(rest: seq<Queued<T>>, last: Queued<T>, k: nat, dims: seq<nat>, g: seq<int>)
    requires |g| == |dims|
    ensures Arrived(OfWrite(rest + [last], k), dims, g)
       <==> Arrived(OfWrite(rest, k), dims, g) || (last.write == k && A.Covers(last.block, dims, g))
  {
    hide A.Covers;
    assert (rest + [last])[..|rest|] == rest;
    var was := OfWrite(rest, k);
    assert forall q :: q in was + [last.block] <==> q in was || q == last.block;
  }

  lemma OvertakenNext<T>(rest: seq<Queued<T>>, last: Queued<T>, k: nat, dims: seq<nat>, g: seq<int>)
    requires |g| == |dims|
    ensures Overtaken(rest + [last], k, dims, g)
       <==> if A.Covers(last.block, dims, g) then last.write != k else Overtaken(rest, k, dims, g)
  {
    hide A.Covers;
    var came, n := rest + [last], |rest|;
    assert came[n] == last && forall i | 0 <= i < n :: came[i] == rest[i];
    if A.Covers(last.block, dims, g) {
      if last.write != k { assert OvertakesAt(came, k, dims, g, n); }
    } else {
      if Overtaken(rest, k, dims, g) {
        var i :| OvertakesAt(rest, k, dims, g, i);
        assert OvertakesAt(came, k, dims, g, i);
      }
      if Overtaken(came, k, dims, g) {
        var i :| OvertakesAt(came, k, dims, g, i);
        assert forall j | i < j < n && rest[j].write == k :: came[j] == rest[j];
        assert OvertakesAt(rest, k, dims, g, i);
      }
    }
  }

  /** What is seen of a cell is what is seen of the last write over it alone. */
  lemma {:induction false} SeenOfLast<T>(came: seq<Queued<T>>, box: A.Subscription<T>, zero: T, g: seq<int>)
    requires |g| == |box.dims|
    ensures var last := LastOver(came, box.dims, g);
      A.Seen(box, zero, BlocksOf(came), g)
      == if last == None then A.Cell(zero, false) else A.Seen(box, zero, OfWrite(came, last.value), g)
  {
    hide A.Covers, A.CellFrom;
    if came != [] {
      var n := |came| - 1;
      SeenOfLast(came[..n], box, zero, g);
      assert BlocksOf(came)[..n] == BlocksOf(came[..n]);
      var last := LastOver(came, box.dims, g);
      if last.Some? { OfWriteNext(came, last.value); }
    }
  }

  lemma OfWriteNext<T>(came: seq<Queued<T>>, k: nat)
    requires came != []
    ensures var all, before, last := OfWrite(came, k), OfWrite(came[..|came| - 1], k), came[|came| - 1];
      if last.write == k then all != [] && all[|all| - 1] == last.block && all[..|all| - 1] == before else all == before
  {
  }

  /** What one write makes of a cell its push over it arrives for. */
  ghost function OwnCell<T>(cb: N.Callbacks, mean: N.Meaning, w: N.Write, sub: WriterTables.Entry,
                            value: N.Bytes -> T, box: A.Subscription<T>, zero: T, f: nat): A.Cell<T>
    requires N.Honest(cb, mean) && w.Valid()
  {
    if N.OverlapOf(w, sub).count == 0 then A.Cell(zero, false)
    else
      var v, ps := N.ViewOf(cb, w, sub, N.OverlapOf(w, sub)), N.Plan(cb, mean, w, sub);
      if v.Valid() && v.Spans(f, 1) then A.Cell(value(v.Slice(f, 1)), Accepted(v, ps, value, box, f))
      else A.Cell(zero, false)
  }

  /** One write's cell is its own exactly as far as its push over it arrives. */
  lemma SeenIsOwn<T>(cb: N.Callbacks, mean: N.Meaning, w: N.Write, sub: WriterTables.Entry, value: N.Bytes -> T,
                     came: seq<A.Block<T>>, box: A.Subscription<T>, zero: T, g: seq<int>)
    requires N.Honest(cb, mean) && w.Valid() && From(came, Pushed(cb, mean, w, sub, value))
    requires |g| == |box.dims| && InExtent(g, box.dims) && Flat(g, box.dims) >= 0 && Arrived(came, box.dims, g)
    ensures N.OverlapOf(w, sub).count > 0 && N.Sends(N.Plan(cb, mean, w, sub), Flat(g, box.dims))
    ensures A.Seen(box, zero, came, g) == OwnCell(cb, mean, w, sub, value, box, zero, Flat(g, box.dims))
  {
    assert Pushed(cb, mean, w, sub, value) != [];
    hide N.Honest, N.Plan, N.ViewOf, N.OverlapOf, Flat, InExtent, A.Seen, Accepted, Arrived, From;
    OneWriteEndToEnd(cb, mean, w, sub, value, came, box, zero, g);
  }

  /** Any number of writes in a step, their pushes queued in any order and any of
      them lost: a cell is what the write of the last block over it makes of it. */
  lemma LastWriteDecides<T>(cb: N.Callbacks, mean: N.Meaning, ws: seq<N.Write>, sub: WriterTables.Entry,
                            value: N.Bytes -> T, came: seq<Queued<T>>, box: A.Subscription<T>, zero: T, g: seq<int>)
    requires N.Honest(cb, mean) && forall w | w in ws :: w.Valid()
    requires StepFrom(cb, mean, ws, sub, value, came)
    requires |g| == |box.dims| && InExtent(g, box.dims) && Flat(g, box.dims) >= 0
    ensures var f, cell, last := Flat(g, box.dims), A.Seen(box, zero, BlocksOf(came), g), LastOver(came, box.dims, g);
      if last == None then cell == A.Cell(zero, false)
      else
        && last.value < |ws| && N.Sends(N.Plan(cb, mean, ws[last.value], sub), f)
        && cell == OwnCell(cb, mean, ws[last.value], sub, value, box, zero, f)
  {
    var last := LastOver(came, box.dims, g);
    SeenOfLast(came, box, zero, g);
    if last.Some? {
      LastOverIff(came, last.value, box.dims, g);
      LastIsOfStep(came, |ws|, box.dims, g) by { assert forall x | x in came :: x.write < |ws|; }
      OfWriteFrom(cb, mean, ws, sub, value, came, last.value);
      hide *;
      SeenIsOwn(cb, mean, ws[last.value], sub, value, OfWrite(came, last.value), box, zero, g);
    }
  }

  lemma {:induction false} LastIsOfStep<T>(came: seq<Queued<T>>, n: nat, dims: seq<nat>, g: seq<int>)
    requires |g| == |dims| && forall x | x in came :: x.write < n
    ensures LastOver(came, dims, g).Some? ==> LastOver(came, dims, g).value < n
  {
    hide A.Covers;
    if came != [] {
      assert came[|came| - 1] in came && forall x | x in came[..|came| - 1] :: x in came;
      LastIsOfStep(came[..|came| - 1], n, dims, g);
    }
  }

  /** A write whose push over a cell arrives decides it exactly if no other write's
      is queued after that, or the two make the same of it. */
  lemma DecidesIff<T>(cb: N.Callbacks, mean: N.Meaning, ws: seq<N.Write>, sub: WriterTables.Entry,
                      value: N.Bytes -> T, came: seq<Queued<T>>, box: A.Subscription<T>, zero: T, g: seq<int>, k: nat)
    requires N.Honest(cb, mean) && (forall w | w in ws :: w.Valid()) && k < |ws|
    requires StepFrom(cb, mean, ws, sub, value, came)
    requires |g| == |box.dims| && InExtent(g, box.dims) && Flat(g, box.dims) >= 0
    requires Arrived(OfWrite(came, k), box.dims, g)
    ensures var f, last := Flat(g, box.dims), LastOver(came, box.dims, g);
      && last.Some? && last.value < |ws|
      && (A.Seen(box, zero, BlocksOf(came), g) == OwnCell(cb, mean, ws[k], sub, value, box, zero, f)
          <==> !Overtaken(came, k, box.dims, g)
               || OwnCell(cb, mean, ws[last.value], sub, value, box, zero, f)
                  == OwnCell(cb, mean, ws[k], sub, value, box, zero, f))
  {
    LastWriteDecides(cb, mean, ws, sub, value, came, box, zero, g);
    LastOverIff(came, k, box.dims, g);
    InSomeWrite(came, k, box.dims, g);
    hide *;
  }

  lemma {:induction false} InSomeWrite<T>(came: seq<Queued<T>>, k: nat, dims: seq<nat>, g: seq<int>)
    requires |g| == |dims| && Arrived(OfWrite(came, k), dims, g)
    ensures LastOver(came, dims, g).Some?
  {
    hide A.Covers;
    if came != [] && !A.Covers(came[|came| - 1].block, dims, g) {
      OfWriteNext(came, k);
      InSomeWrite(came[..|came| - 1], k, dims, g);
    }
  }

  /** Two guards a caller can keep. Where no other write of the step reaches the
      element, none overtakes ... */
  lemma ApartIsNotOvertaken<T>(cb: N.Callbacks, mean: N.Meaning, ws: seq<N.Write>, sub: WriterTables.Entry,
                               value: N.Bytes -> T, came: seq<Queued<T>>, dims: seq<nat>, g: seq<int>, k: nat)
    requires N.Honest(cb, mean) && (forall w | w in ws :: w.Valid()) && StepFrom(cb, mean, ws, sub, value, came)
    requires |g| == |dims| && Flat(g, dims) >= 0
    requires forall j | 0 <= j < |ws| && j != k :: !N.OverlapOf(ws[j], sub).Has(Flat(g, dims))
    ensures !Overtaken(came, k, dims, g)
  {
    if Overtaken(came, k, dims, g) {
      var i :| OvertakesAt(came, k, dims, g, i);
      var x := came[i];
      assert x in came;
      CoversIsInside(cb, mean, ws[x.write], sub, value, x.block, dims, g);
      assert false;
    }
  }

  lemma CoversIsInside<T>(cb: N.Callbacks, mean: N.Meaning, w: N.Write, sub: WriterTables.Entry, value: N.Bytes -> T,
                          q: A.Block<T>, dims: seq<nat>, g: seq<int>)
    requires N.Honest(cb, mean) && w.Valid() && q in Pushed(cb, mean, w, sub, value)
    requires |g| == |dims| && Flat(g, dims) >= 0 && A.Covers(q, dims, g)
    ensures N.OverlapOf(w, sub).Has(Flat(g, dims))
  {
    hide N.Honest, N.Plan, N.ViewOf, N.OverlapOf, N.Carries, N.Tiles, ReceivedAll;
    N.PlanIsSound(cb, mean, w, sub);
    var ov := N.OverlapOf(w, sub);
    var p := PushOf(mean, N.ViewOf(cb, w, sub, ov), value, N.Plan(cb, mean, w, sub), q, dims, g);
  }

  /** ... and where each write's pushes are queued before the next write's begin, as
      when the writer completes them in between, the last one is not overtaken. */
  lemma DrainedIsNotOvertaken<T>(came: seq<Queued<T>>, dims: seq<nat>, g: seq<int>, k: nat)
    requires |g| == |dims| && (forall i, j | 0 <= i < j < |came| :: came[i].write <= came[j].write)
    requires forall j | j > k :: !Arrived(OfWrite(came, j), dims, g)
    requires Arrived(OfWrite(came, k), dims, g)
    ensures !Overtaken(came, k, dims, g)
  {
    hide A.Covers, OfWrite;
    OfWriteHas(came, k);
    var q :| q in OfWrite(came, k) && A.Covers(q, dims, g);
    var j :| 0 <= j < |came| && came[j] == Queued(k, q);
    forall i | 0 <= i < |came| && A.Covers(came[i].block, dims, g) ensures came[i].write <= k {
      OfWriteHas(came, came[i].write);
      assert came[i] == Queued(came[i].write, came[i].block) && came[i] in came;
      assert Arrived(OfWrite(came, came[i].write), dims, g);
    }
    assert forall i :: !OvertakesAt(came, k, dims, g, i);
  }

  /** What a second write of the step makes of a cell, however its pushes and the
      first's are queued. If it sends the element and that push arrives, the cell is
      its own exactly if no push of the first over it is queued after that, or the
      two make the same of it. Of the selected elements it has, it filters out only
      ones that fail the predicate, and sends such only to be tested again. */
  lemma SecondWriteDecides<T>(cb: N.Callbacks, mean: N.Meaning, first: N.Write, second: N.Write,
                              sub: WriterTables.Entry, value: N.Bytes -> T, came: seq<Queued<T>>,
                              box: A.Subscription<T>, zero: T, g: seq<int>)
    requires N.Honest(cb, mean) && first.Valid() && second.Valid() && N.OverlapOf(second, sub).count > 0
    requires StepFrom(cb, mean, [first, second], sub, value, came)
    requires |g| == |box.dims| && InExtent(g, box.dims) && Flat(g, box.dims) >= 0
    ensures var f, ov, ps := Flat(g, box.dims), N.OverlapOf(second, sub), N.Plan(cb, mean, second, sub);
      var v, cell := N.ViewOf(cb, second, sub, ov), A.Seen(box, zero, BlocksOf(came), g);
      var his := OwnCell(cb, mean, first, sub, value, box, zero, f);
      var own := OwnCell(cb, mean, second, sub, value, box, zero, f);
      && v.Valid()
      && (Arrived(OfWrite(came, 1), box.dims, g) ==>
            && N.Sends(ps, f) && cell == (if Overtaken(came, 1, box.dims, g) then his else own)
            && (cell == own <==> !Overtaken(came, 1, box.dims, g) || his == own))
      && (!Arrived(OfWrite(came, 1), box.dims, g) ==> cell == A.Seen(box, zero, OfWrite(came, 0), g))
      && (N.Selected(mean, sub, f) && ov.Has(f) && !N.Sends(ps, f) ==> !N.Holds(mean, sub, v, f))
      && (N.Sends(ps, f) && !N.Holds(mean, sub, v, f) ==> Retested(ps, f))
  {
    PlanFilters(cb, mean, second, sub, Flat(g, box.dims));
    TwoWrites(cb, mean, first, second, sub, value, came, box, zero, g);
    LastOverIff(came, 1, box.dims, g);
    SeenOfLast(came, box, zero, g);
    hide *;
    if Arrived(OfWrite(came, 1), box.dims, g) {
      InSomeWrite(came, 1, box.dims, g);
    } else if LastOver(came, box.dims, g) == None {
      NothingOver(came, box, zero, g);
    }
  }

  /** Of two writes, the one whose block over the cell is last decides it. */
  lemma TwoWrites<T>(cb: N.Callbacks, mean: N.Meaning, first: N.Write, second: N.Write, sub: WriterTables.Entry,
                     value: N.Bytes -> T, came: seq<Queued<T>>, box: A.Subscription<T>, zero: T, g: seq<int>)
    requires N.Honest(cb, mean) && first.Valid() && second.Valid()
    requires StepFrom(cb, mean, [first, second], sub, value, came)
    requires |g| == |box.dims| && InExtent(g, box.dims) && Flat(g, box.dims) >= 0
    ensures var f, cell, last := Flat(g, box.dims), A.Seen(box, zero, BlocksOf(came), g), LastOver(came, box.dims, g);
      && (last == None || last == Some(0) || last == Some(1))
      && (last == Some(0) ==>
            && N.Sends(N.Plan(cb, mean, first, sub), f)
            && cell == OwnCell(cb, mean, first, sub, value, box, zero, f))
      && (last == Some(1) ==> cell == OwnCell(cb, mean, second, sub, value, box, zero, f))
      && (Arrived(OfWrite(came, 1), box.dims, g) ==> N.Sends(N.Plan(cb, mean, second, sub), f))
  {
    var ws := [first, second];
    assert forall w | w in ws :: w.Valid();
    assert ws[0] == first && ws[1] == second;
    LastWriteDecides(cb, mean, ws, sub, value, came, box, zero, g);
    OfWriteFrom(cb, mean, ws, sub, value, came, 1);
    hide *;
    if Arrived(OfWrite(came, 1), box.dims, g) {
      SeenIsOwn(cb, mean, second, sub, value, OfWrite(came, 1), box, zero, g);
    }
  }

  lemma NothingOver<T>(came: seq<Queued<T>>, box: A.Subscription<T>, zero: T, g: seq<int>)
    requires |g| == |box.dims| && LastOver(came, box.dims, g) == None
    ensures A.Seen(box, zero, OfWrite(came, 0), g) == A.Cell(zero, false)
  {
    LastOverIff(came, 0, box.dims, g);
    OfWriteHas(came, 0);
    hide OfWrite, A.Covers;
    var qs := OfWrite(came, 0);
    forall i | 0 <= i < |qs| ensures !A.Covers(qs[i], box.dims, g) {
      assert qs[i] in qs && Queued(0, qs[i]) in came;
    }
    var j := A.LastCoverOf(box, zero, qs, g);
  }

  lemma PlanFilters(cb: N.Callbacks, mean: N.Meaning, w: N.Write, sub: WriterTables.Entry, f: nat)
    requires N.Honest(cb, mean) && w.Valid() && N.OverlapOf(w, sub).count > 0
    ensures var ov, ps := N.OverlapOf(w, sub), N.Plan(cb, mean, w, sub);
      var v := N.ViewOf(cb, w, sub, ov);
      && v.Valid()
      && (N.Selected(mean, sub, f) && ov.Has(f) && !N.Sends(ps, f) ==> !N.Holds(mean, sub, v, f))
      && (N.Sends(ps, f) && !N.Holds(mean, sub, v, f) ==> Retested(ps, f))
  {
    hide N.Honest, N.Plan, N.ViewOf, N.OverlapOf, N.Selected, N.Holds, N.Tiles, N.Carries;
    N.PlanIsSound(cb, mean, w, sub);
    var ps := N.Plan(cb, mean, w, sub);
    if N.Sends(ps, f) {
      var p :| p in ps && p.Has(f);
      assert N.Honoured(mean, sub, N.ViewOf(cb, w, sub, N.OverlapOf(w, sub)), p, f);
    }
  }

  function Tagged<T>(qs: seq<A.Block<T>>, k: nat): (came: seq<Queued<T>>)
    ensures |came| == |qs|
  {
    seq(|qs|, i requires 0 <= i < |qs| => Queued(k, qs[i]))
  }

  /** The second write's cell stands in every order of arrival exactly if the first
      does not send the element, or the two make the same of it. */
  ghost predicate StandsAlways<T(!new)>(cb: N.Callbacks, mean: N.Meaning, first: N.Write, second: N.Write,
                                  sub: WriterTables.Entry, value: N.Bytes -> T, box: A.Subscription<T>, zero: T,
                                  g: seq<int>)
    requires N.Honest(cb, mean) && first.Valid() && second.Valid() && |g| == |box.dims| && Flat(g, box.dims) >= 0
  {
    forall came: seq<Queued<T>> | StepFrom(cb, mean, [first, second], sub, value, came)
        && Arrived(OfWrite(came, 1), box.dims, g) ::
      A.Seen(box, zero, BlocksOf(came), g) == OwnCell(cb, mean, second, sub, value, box, zero, Flat(g, box.dims))
  }

  lemma StandsAlwaysIff<T(!new)>(cb: N.Callbacks, mean: N.Meaning, first: N.Write, second: N.Write,
                                 sub: WriterTables.Entry, value: N.Bytes -> T, box: A.Subscription<T>, zero: T,
                                 g: seq<int>)
    requires N.Honest(cb, mean) && first.Valid() && second.Valid() && |g| == |box.dims| && InExtent(g, box.dims)
    requires Flat(g, box.dims) >= 0 && N.Sends(N.Plan(cb, mean, second, sub), Flat(g, box.dims))
    ensures var f := Flat(g, box.dims);
      StandsAlways(cb, mean, first, second, sub, value, box, zero, g)
      <==> !N.Sends(N.Plan(cb, mean, first, sub), f)
           || OwnCell(cb, mean, first, sub, value, box, zero, f) == OwnCell(cb, mean, second, sub, value, box, zero, f)
  {
    var f := Flat(g, box.dims);
    if N.Sends(N.Plan(cb, mean, first, sub), f) {
      StaleOrder(cb, mean, first, second, sub, value, box, zero, g);
    }
    forall came: seq<Queued<T>> | StepFrom(cb, mean, [first, second], sub, value, came)
        && Arrived(OfWrite(came, 1), box.dims, g)
      ensures OneOfTwo(cb, mean, first, second, sub, value, came, box, zero, g)
    {
      IsOneOfTwo(cb, mean, first, second, sub, value, came, box, zero, g);
    }
    hide N.Honest, N.Plan, Flat, InExtent, A.Seen, OwnCell, StepFrom, Arrived, OfWrite, N.Sends, Tagged, Pushed,
      BlocksOf;
  }

  /** A cell the second write's push arrives for is its own, or the first's if that
      sends the element. */
  ghost predicate OneOfTwo<T>(cb: N.Callbacks, mean: N.Meaning, first: N.Write, second: N.Write,
                              sub: WriterTables.Entry, value: N.Bytes -> T, came: seq<Queued<T>>,
                              box: A.Subscription<T>, zero: T, g: seq<int>)
    requires N.Honest(cb, mean) && first.Valid() && second.Valid() && |g| == |box.dims| && Flat(g, box.dims) >= 0
  {
    var f, cell := Flat(g, box.dims), A.Seen(box, zero, BlocksOf(came), g);
    || cell == OwnCell(cb, mean, second, sub, value, box, zero, f)
    || (N.Sends(N.Plan(cb, mean, first, sub), f) && cell == OwnCell(cb, mean, first, sub, value, box, zero, f))
  }

  lemma IsOneOfTwo<T>(cb: N.Callbacks, mean: N.Meaning, first: N.Write, second: N.Write, sub: WriterTables.Entry,
                      value: N.Bytes -> T, came: seq<Queued<T>>, box: A.Subscription<T>, zero: T, g: seq<int>)
    requires N.Honest(cb, mean) && first.Valid() && second.Valid() && |g| == |box.dims| && InExtent(g, box.dims)
    requires Flat(g, box.dims) >= 0
    requires StepFrom(cb, mean, [first, second], sub, value, came) && Arrived(OfWrite(came, 1), box.dims, g)
    ensures OneOfTwo(cb, mean, first, second, sub, value, came, box, zero, g)
  {
    hide N.Honest, N.Plan, Flat, InExtent, A.Seen, OwnCell, StepFrom, Arrived, OfWrite, N.Sends, Pushed, BlocksOf,
      LastOver;
    InSomeWrite(came, 1, box.dims, g);
    TwoWrites(cb, mean, first, second, sub, value, came, box, zero, g);
  }

  /** The order in which the first write wins: all of the second's pushes queued
      before all of its own, and none lost. */
  lemma StaleOrder<T>(cb: N.Callbacks, mean: N.Meaning, first: N.Write, second: N.Write, sub: WriterTables.Entry,
                      value: N.Bytes -> T, box: A.Subscription<T>, zero: T, g: seq<int>)
    requires N.Honest(cb, mean) && first.Valid() && second.Valid() && |g| == |box.dims| && InExtent(g, box.dims)
    requires Flat(g, box.dims) >= 0 && N.Sends(N.Plan(cb, mean, second, sub), Flat(g, box.dims))
    requires N.Sends(N.Plan(cb, mean, first, sub), Flat(g, box.dims))
    ensures var early, late := Pushed(cb, mean, second, sub, value), Pushed(cb, mean, first, sub, value);
      var came := Tagged(early, 1) + Tagged(late, 0);
      && StepFrom(cb, mean, [first, second], sub, value, came) && Arrived(OfWrite(came, 1), box.dims, g)
      && A.Seen(box, zero, BlocksOf(came), g) == OwnCell(cb, mean, first, sub, value, box, zero, Flat(g, box.dims))
  {
    var early, late := Pushed(cb, mean, second, sub, value), Pushed(cb, mean, first, sub, value);
    var came := Tagged(early, 1) + Tagged(late, 0);
    AllArrives(cb, mean, second, sub, value, early, box.dims, g);
    AllArrives(cb, mean, first, sub, value, late, box.dims, g);
    assert forall w | w in [first, second] :: w.Valid();
    hide N.Honest, N.Plan, Flat, InExtent, A.Seen, OwnCell, Pushed;
    LateIsLast(early, late, box.dims, g);
    LastWriteDecides(cb, mean, [first, second], sub, value, came, box, zero, g);
  }

  lemma LateIsLast<T>(early: seq<A.Block<T>>, late: seq<A.Block<T>>, dims: seq<nat>, g: seq<int>)
    requires |g| == |dims| && Arrived(early, dims, g) && Arrived(late, dims, g)
    ensures var came := Tagged(early, 1) + Tagged(late, 0);
      Arrived(OfWrite(came, 1), dims, g) && LastOver(came, dims, g) == Some(0)
  {
    hide A.Covers, OfWrite, LastOver;
    var came := Tagged(early, 1) + Tagged(late, 0);
    OfWriteHas(came, 1);
    OfWriteHas(came, 0);
    var p :| p in early && A.Covers(p, dims, g);
    var q :| q in late && A.Covers(q, dims, g);
    var i :| 0 <= i < |early| && early[i] == p;
    var j :| 0 <= j < |late| && late[j] == q;
    assert came[i] == Queued(1, p) && came[|early| + j] == Queued(0, q);
    LastOverIff(came, 0, dims, g);
    assert forall o | |early| <= o < |came| :: came[o].write == 0;
    assert forall o :: !OvertakesAt(came, 0, dims, g, o);
  }

  // ----- The array -----

  /** Each position of the array that comes back is what is seen of its place: the
      shortcut is taken only where it is right, inside the trailing extents. */
  lemma ArrayIsSeen<T>(box: A.Subscription<T>, zero: T, came: seq<A.Block<T>>, x: seq<int>)
    requires box.Valid() && box.dims != [] && came != [] && Inside(x, A.BoxOf(box, came).count)
    requires A.TakesFastPath(box, came) ==> A.InTrailing(box)
    ensures var a := A.ArrayFor(box, zero, came);
      && A.Sized(a) && Inside(x, a.shape)
      && A.CellOf(a, x) == A.Seen(box, zero, came, Plus(A.BoxOf(box, came).origin, x))
  {
    A.AssembledAt(box, zero, came, x);
    A.ArrayForIsAssembled(box, zero, came);
    A.AssembledShape(box, zero, came);
    hide A.Assembled, A.ArrayFor, A.CellOf, A.BoxOf, A.Seen;
  }

  /** What one write makes of that array, whatever arrives of it and in whatever
      order. */
  lemma ArrayOfOneWrite<T>(cb: N.Callbacks, mean: N.Meaning, w: N.Write, sub: WriterTables.Entry,
                           value: N.Bytes -> T, came: seq<A.Block<T>>, box: A.Subscription<T>, zero: T, x: seq<int>)
    requires N.Honest(cb, mean) && w.Valid() && N.OverlapOf(w, sub).count > 0
    requires From(came, Pushed(cb, mean, w, sub, value))
    requires box.Valid() && box.dims != [] && came != [] && Inside(x, A.BoxOf(box, came).count)
    requires var g := Plus(A.BoxOf(box, came).origin, x); InExtent(g, box.dims) && Flat(g, box.dims) >= 0
    requires A.TakesFastPath(box, came) ==> A.InTrailing(box)
    ensures var ps, g, a := N.Plan(cb, mean, w, sub), Plus(A.BoxOf(box, came).origin, x), A.ArrayFor(box, zero, came);
      var f, ov := Flat(g, box.dims), N.OverlapOf(w, sub);
      var v, arrived := N.ViewOf(cb, w, sub, ov), Arrived(came, box.dims, g);
      && v.Valid() && A.Sized(a) && Inside(x, a.shape)
      && (A.CellOf(a, x).got <==> arrived && Accepted(v, ps, value, box, f))
      && (arrived ==> N.Sends(ps, f) && ov.Has(f) && v.Spans(f, 1) && A.CellOf(a, x).value == value(v.Slice(f, 1)))
      && (arrived ==> N.NativeView(w).Spans(f, 1) && N.Represents(mean, w, sub, v, f))
      && (N.Selected(mean, sub, f) ==>
            ((A.CellOf(a, x).got <==> ov.Has(f) && N.Holds(mean, sub, v, f) && (N.Sends(ps, f) ==> arrived))
             <==> (arrived && Retested(ps, f) ==> TestsAgree(mean, sub, v, value, box, f))))
  {
    hide N.Honest, N.Plan, N.ViewOf, N.OverlapOf, N.Selected, Flat, InExtent, A.Seen, N.Holds, N.Represents, A.BoxOf,
      A.ArrayFor, A.CellOf, Pushed, Accepted, Retested, TestsAgree, N.Sends, From, Arrived, A.TakesFastPath;
    OneWriteEndToEnd(cb, mean, w, sub, value, came, box, zero, Plus(A.BoxOf(box, came).origin, x));
    ArrayIsSeen(box, zero, came, x);
  }

  /** What any number of writes make of it. */
  lemma ArrayOfStep<T>(cb: N.Callbacks, mean: N.Meaning, ws: seq<N.Write>, sub: WriterTables.Entry,
                       value: N.Bytes -> T, came: seq<Queued<T>>, box: A.Subscription<T>, zero: T, x: seq<int>)
    requires N.Honest(cb, mean) && (forall w | w in ws :: w.Valid()) && StepFrom(cb, mean, ws, sub, value, came)
    requires box.Valid() && box.dims != [] && came != [] && Inside(x, A.BoxOf(box, BlocksOf(came)).count)
    requires var g := Plus(A.BoxOf(box, BlocksOf(came)).origin, x); InExtent(g, box.dims) && Flat(g, box.dims) >= 0
    requires A.TakesFastPath(box, BlocksOf(came)) ==> A.InTrailing(box)
    ensures var a, g := A.ArrayFor(box, zero, BlocksOf(came)), Plus(A.BoxOf(box, BlocksOf(came)).origin, x);
      var last := LastOver(came, box.dims, g);
      && A.Sized(a) && Inside(x, a.shape)
      && if last == None then A.CellOf(a, x) == A.Cell(zero, false)
         else
           && last.value < |ws| && N.Sends(N.Plan(cb, mean, ws[last.value], sub), Flat(g, box.dims))
           && A.CellOf(a, x) == OwnCell(cb, mean, ws[last.value], sub, value, box, zero, Flat(g, box.dims))
  {
    hide N.Honest, N.Plan, Flat, InExtent, A.Seen, A.BoxOf, A.ArrayFor, A.CellOf, OwnCell, StepFrom, A.TakesFastPath,
      LastOver;
    LastWriteDecides(cb, mean, ws, sub, value, came, box, zero, Plus(A.BoxOf(box, BlocksOf(came)).origin, x));
    ArrayIsSeen(box, zero, BlocksOf(came), x);
  }

  // ----- When the two tests are the same -----

  /** The type the subscription asks for: its own wish, or the object's type. */
  function AskedType(w: N.Write, sub: WriterTables.Entry): WriterTables.Blob {
    if sub.wantType == [] then w.typ else sub.wantType
  }

  /** On data of the type asked for, of `size` bytes an element, the reader's
      test is the predicate it sent -- or always true, if it sent none. */
  ghost predicate SameTest<T>(mean: N.Meaning, sub: WriterTables.Entry, asked: WriterTables.Blob, size: nat,
                              value: N.Bytes -> T, box: A.Subscription<T>)
  {
    forall b: N.Bytes | |b| == size :: box.matches(value(b)) <==> sub.pred == [] || mean.holds(sub.pred, asked, b)
  }

  /** No push of f both fell back on the type and must be tested again. */
  ghost predicate TypeOrTest(ps: seq<N.Push>, f: int) {
    forall p | p in ps && p.Has(f) :: TypeNative !in p.delivery || p.delivery * PREDICATE == {}
  }

  lemma ViewType(cb: N.Callbacks, w: N.Write, sub: WriterTables.Entry, ov: Run)
    requires w.Valid() && N.NativeView(w).Spans(ov.start, ov.count)
    ensures var v := N.ViewOf(cb, w, sub, ov);
      v.converted || sub.wantType == [] ==> v.typ == AskedType(w, sub)
  {
  }

  /** In the type asked for, the tests agree. */
  lemma AgreeAsAsked<T>(mean: N.Meaning, w: N.Write, sub: WriterTables.Entry, v: N.View, ps: seq<N.Push>, size: nat,
                        value: N.Bytes -> T, box: A.Subscription<T>, f: nat)
    requires v.Valid() && SameTest(mean, sub, AskedType(w, sub), size, value, box)
    requires v.converted || sub.wantType == [] ==> v.typ == AskedType(w, sub) && v.elemSize == size
    requires forall p | p in ps && p.Has(f) :: N.Honoured(mean, sub, v, p, f)
    requires TypeOrTest(ps, f) && Retested(ps, f)
    ensures TestsAgree(mean, sub, v, value, box, f)
  {
    var p :| p in ps && p.Has(f) && p.delivery * PREDICATE != {};
    assert N.Honoured(mean, sub, v, p, f);
    if v.Spans(f, 1) {
      assert |v.Slice(f, 1)| == size;
    }
  }

  /** What the subscription promises, on a guard the delivery bits show: unless
      its push both fell back on the type and must be tested again, a selected
      cell is received exactly if the write has its element, the element satisfies
      the predicate and its push, if any, arrives, and with the written value --
      provided the two ends test values of the type asked for alike. */
  lemma ExactUnlessDeclined<T>(cb: N.Callbacks, mean: N.Meaning, w: N.Write, sub: WriterTables.Entry,
                               value: N.Bytes -> T, size: nat, came: seq<A.Block<T>>, box: A.Subscription<T>,
                               zero: T, g: seq<int>)
    requires N.Honest(cb, mean) && w.Valid() && N.OverlapOf(w, sub).count > 0
    requires From(came, Pushed(cb, mean, w, sub, value))
    requires |g| == |box.dims| && InExtent(g, box.dims) && Flat(g, box.dims) >= 0
    requires N.Selected(mean, sub, Flat(g, box.dims))
    requires SameTest(mean, sub, AskedType(w, sub), size, value, box)
    requires var v := N.ViewOf(cb, w, sub, N.OverlapOf(w, sub));
      v.converted || sub.wantType == [] ==> v.elemSize == size
    requires TypeOrTest(N.Plan(cb, mean, w, sub), Flat(g, box.dims))
    ensures var f, ov, ps := Flat(g, box.dims), N.OverlapOf(w, sub), N.Plan(cb, mean, w, sub);
      var v := N.ViewOf(cb, w, sub, ov);
      var cell, arrived := A.Seen(box, zero, came, g), Arrived(came, box.dims, g);
      && v.Valid()
      && (cell.got <==> ov.Has(f) && N.Holds(mean, sub, v, f) && (N.Sends(ps, f) ==> arrived))
      && (cell.got ==> v.Spans(f, 1) && cell.value == value(v.Slice(f, 1)))
      && (cell.got ==> N.NativeView(w).Spans(f, 1) && N.Represents(mean, w, sub, v, f))
  {
    hide N.Honest, N.Plan, N.ViewOf, N.OverlapOf, N.Selected, Flat, InExtent, A.Seen, N.Tiles, N.Holds, N.Represents,
      N.Honoured, Pushed, Retested, TestsAgree, SameTest, TypeOrTest, From, Arrived;
    N.PlanIsSound(cb, mean, w, sub);
    var f, ov := Flat(g, box.dims), N.OverlapOf(w, sub);
    ViewType(cb, w, sub, ov);
    OneWriteEndToEnd(cb, mean, w, sub, value, came, box, zero, g);
    if Retested(N.Plan(cb, mean, w, sub), f) {
      AgreeAsAsked(mean, w, sub, N.ViewOf(cb, w, sub, ov), N.Plan(cb, mean, w, sub), size, value, box, f);
    }
  }

  // ----- When the two tests are the same: value tests -----

  /** A subscription to elements that compare with c as op says: how each end tests
      `size` bytes of the type asked for, read as a number. */
  ghost predicate TestsValue(mean: N.Meaning, sub: WriterTables.Entry, asked: WriterTables.Blob, size: nat,
                             value: N.Bytes -> Number, box: A.Subscription<Number>, cls: Class, op: Op, c: Number)
  {
    && sub.pred != []
    && (forall b: N.Bytes | |b| == size ::
          && HasValue(cls, value(b))
          && (mean.holds(sub.pred, asked, b) <==> Compare(op, value(b), WriterConstant(cls, c))))
    && (forall x :: box.matches(x) <==> Compare(op, x, ReaderConstant(cls, c)))
  }

  /** The two ends' tests are the same exactly if the constant is rounded
      harmlessly; some bytes hold the rounded constant. */
  lemma SameTestIff(mean: N.Meaning, sub: WriterTables.Entry, asked: WriterTables.Blob, size: nat,
                    value: N.Bytes -> Number, box: A.Subscription<Number>, cls: Class, op: Op, c: Number, held: N.Bytes)
    requires TestsValue(mean, sub, asked, size, value, box, cls, op, c) && Rounds(cls)
    requires cls.Float? ==> |held| == size && value(held) == cls.round(c)
    ensures SameTest(mean, sub, asked, size, value, box) <==> RoundsHarmlessly(cls, op, c)
  {
    TestsAlikeIff(cls, op, c);
    if SameTest(mean, sub, asked, size, value, box) && cls.Float? {
      var r := cls.round(c);
      assert box.matches(value(held)) <==> mean.holds(sub.pred, asked, held);
      assert Compare(op, r, c) <==> Compare(op, r, r);
    }
  }

  lemma HarmlessIsSame(mean: N.Meaning, sub: WriterTables.Entry, asked: WriterTables.Blob, size: nat,
                       value: N.Bytes -> Number, box: A.Subscription<Number>, cls: Class, op: Op, c: Number)
    requires TestsValue(mean, sub, asked, size, value, box, cls, op, c) && Rounds(cls)
    requires RoundsHarmlessly(cls, op, c)
    ensures SameTest(mean, sub, asked, size, value, box)
  {
    TestsAlikeIff(cls, op, c);
  }

  /** So a value test is honoured, on what the delivery bits show and on a guard its
      caller can check beforehand: the type asked for holds whole numbers, or has
      the constant, or rounds it the harmless way. */
  lemma ExactWhenHarmless(cb: N.Callbacks, mean: N.Meaning, w: N.Write, sub: WriterTables.Entry,
                          value: N.Bytes -> Number, size: nat, came: seq<A.Block<Number>>,
                          box: A.Subscription<Number>, zero: Number, g: seq<int>, cls: Class, op: Op, c: Number)
    requires N.Honest(cb, mean) && w.Valid() && N.OverlapOf(w, sub).count > 0
    requires From(came, Pushed(cb, mean, w, sub, value))
    requires |g| == |box.dims| && InExtent(g, box.dims) && Flat(g, box.dims) >= 0
    requires N.Selected(mean, sub, Flat(g, box.dims))
    requires TestsValue(mean, sub, AskedType(w, sub), size, value, box, cls, op, c)
    requires Rounds(cls) && RoundsHarmlessly(cls, op, c)
    requires var v := N.ViewOf(cb, w, sub, N.OverlapOf(w, sub));
      v.converted || sub.wantType == [] ==> v.elemSize == size
    requires TypeOrTest(N.Plan(cb, mean, w, sub), Flat(g, box.dims))
    ensures var f, ov, ps := Flat(g, box.dims), N.OverlapOf(w, sub), N.Plan(cb, mean, w, sub);
      var v := N.ViewOf(cb, w, sub, ov);
      var cell, arrived := A.Seen(box, zero, came, g), Arrived(came, box.dims, g);
      && v.Valid()
      && (cell.got <==> ov.Has(f) && N.Holds(mean, sub, v, f) && (N.Sends(ps, f) ==> arrived))
      && (cell.got ==> v.Spans(f, 1) && cell.value == value(v.Slice(f, 1)))
      && (cell.got ==> N.NativeView(w).Spans(f, 1) && N.Represents(mean, w, sub, v, f))
  {
    HarmlessIsSame(mean, sub, AskedType(w, sub), size, value, box, cls, op, c);
    hide *;
    ExactUnlessDeclined(cb, mean, w, sub, value, size, came, box, zero, g);
  }

  // ----- Elements of a declined conversion -----

  /** How the reader reads one element's bytes: as the type it asked for if they
      have its size, and otherwise as the object's own type, cast. */
  datatype Dtypes<!T> = Dtypes(askedSize: nat, asAsked: N.Bytes -> T, asNative: N.Bytes -> T)

  function Values<T>(d: Dtypes<T>): N.Bytes -> T {
    (b: N.Bytes) => if |b| == d.askedSize then d.asAsked(b) else d.asNative(b)
  }

  /** A cell an unconverted element arrives for has the element, cast, whatever the
      two types mean and in whatever order the pushes come, exactly if the types'
      sizes differ. */
  lemma DeclinedIsReadRightIff(cb: N.Callbacks, mean: N.Meaning, w: N.Write, sub: WriterTables.Entry,
                               askedSize: nat, box: A.Subscription<int>, zero: int, g: seq<int>)
    requires N.Honest(cb, mean) && w.Valid() && N.OverlapOf(w, sub).count > 0
    requires |g| == |box.dims| && InExtent(g, box.dims) && Flat(g, box.dims) >= 0
    requires N.Sends(N.Plan(cb, mean, w, sub), Flat(g, box.dims))
    requires !N.ViewOf(cb, w, sub, N.OverlapOf(w, sub)).converted
    ensures N.NativeView(w).Spans(Flat(g, box.dims), 1)
    ensures (forall d: Dtypes<int>, came | d.askedSize == askedSize
               && From(came, Pushed(cb, mean, w, sub, Values(d))) && Arrived(came, box.dims, g) ::
               A.Seen(box, zero, came, g).value == d.asNative(N.NativeView(w).Slice(Flat(g, box.dims), 1)))
       <==> w.elemSize != askedSize
  {
    var f, d := Flat(g, box.dims), Dtypes(askedSize, (b: N.Bytes) => 1, (b: N.Bytes) => 0);
    var all := Pushed(cb, mean, w, sub, Values(d));
    assert From(all, all);
    AllArrives(cb, mean, w, sub, Values(d), all, box.dims, g);
    DeclinedCell(cb, mean, w, sub, d, all, box, zero, g);
    hide *;
    if w.elemSize != askedSize {
      forall d: Dtypes<int>, came | d.askedSize == askedSize
        && From(came, Pushed(cb, mean, w, sub, Values(d))) && Arrived(came, box.dims, g)
        ensures A.Seen(box, zero, came, g).value == d.asNative(N.NativeView(w).Slice(f, 1))
      {
        DeclinedCell(cb, mean, w, sub, d, came, box, zero, g);
      }
    }
  }

  lemma DeclinedCell<T>(cb: N.Callbacks, mean: N.Meaning, w: N.Write, sub: WriterTables.Entry, d: Dtypes<T>,
                        came: seq<A.Block<T>>, box: A.Subscription<T>, zero: T, g: seq<int>)
    requires N.Honest(cb, mean) && w.Valid() && N.OverlapOf(w, sub).count > 0
    requires |g| == |box.dims| && InExtent(g, box.dims) && Flat(g, box.dims) >= 0
    requires From(came, Pushed(cb, mean, w, sub, Values(d))) && Arrived(came, box.dims, g)
    requires !N.ViewOf(cb, w, sub, N.OverlapOf(w, sub)).converted
    ensures var f := Flat(g, box.dims);
      && N.NativeView(w).Spans(f, 1)
      && A.Seen(box, zero, came, g).value
         == if w.elemSize == d.askedSize then d.asAsked(N.NativeView(w).Slice(f, 1))
            else d.asNative(N.NativeView(w).Slice(f, 1))
  {
    UnconvertedView(cb, w, sub);
    hide N.Plan, N.Honest, N.Holds, N.Represents, N.Selected, N.ViewOf, N.OverlapOf, N.Sends, N.View.Slice, A.Seen,
      Pushed, Flat, InExtent, Accepted, Retested, TestsAgree, From, Arrived;
    OneWriteEndToEnd(cb, mean, w, sub, Values(d), came, box, zero, g);
  }

  lemma UnconvertedView(cb: N.Callbacks, w: N.Write, sub: WriterTables.Entry)
    requires w.Valid() && N.OverlapOf(w, sub).count > 0
    requires !N.ViewOf(cb, w, sub, N.OverlapOf(w, sub)).converted
    ensures N.ViewOf(cb, w, sub, N.OverlapOf(w, sub)) == N.NativeView(w)
  {
  }

  // ----- Inputs on which the promise fails -----

  /** A writer whose callbacks are all missing sends the first element of an object
      whole, as it is, with the bits of what was asked for. */
  const DECLINING := N.Callbacks(None, None, None, None, None)

  function FirstElement(data: N.Bytes, typ: WriterTables.Blob): N.Write { N.Write(0, 1, |data|, data, typ, []) }

  function Asking(pred: WriterTables.Blob, wantType: WriterTables.Blob): WriterTables.Entry {
    WriterTables.Entry(WriterTables.Key(1, "x"), 0, UINT64_MAX, [], pred, [], wantType, Live)
  }

  function BitsOf(pred: WriterTables.Blob, wantType: WriterTables.Blob): Fallbacks {
    (if wantType == [] then {} else {TypeNative}) + (if pred == [] then {} else {PredicateUnevaluated})
  }

  lemma DecliningPlan(mean: N.Meaning, data: N.Bytes, typ: WriterTables.Blob, pred: WriterTables.Blob,
                      wantType: WriterTables.Blob)
    requires data != []
    ensures var w, sub := FirstElement(data, typ), Asking(pred, wantType);
      && N.Honest(DECLINING, mean) && w.Valid() && N.OverlapOf(w, sub) == Run(0, 1)
      && N.ViewOf(DECLINING, w, sub, Run(0, 1)) == N.NativeView(w) && N.NativeView(w).Slice(0, 1) == data
      && N.Plan(DECLINING, mean, w, sub) == [N.Push(0, 1, data, [], typ, BitsOf(pred, wantType))]
  {
    var w, sub, whole := FirstElement(data, typ), Asking(pred, wantType), [Run(0, 1)];
    var v, d := N.NativeView(w), BitsOf(pred, wantType);
    var span: Fallbacks := if wantType == [] then {} else {TypeNative};
    N.PlanUnfold(DECLINING, mean, w, sub);
    N.SelectionUnfold(DECLINING, mean, sub, v, 0, whole, span);
    assert whole[1..] == [] && v.Slice(0, 1) == data;
    assert N.RunPushes(DECLINING, sub, v, 0, 1, d) == [N.Push(0, 1, data, [], typ, d)];
    assert N.PredicatePushes(DECLINING, sub, v, 0, whole, d) == N.RunPushes(DECLINING, sub, v, 0, 1, d);
    assert {} + span == span;
  }

  /** A scalar's worth of one row, under the reader's own test. */
  function Line<T>(matches: T -> bool): A.Subscription<T> { A.Subscription([1], [0], [1], false, false, matches) }

  /** What the reader makes of that element. */
  lemma DecliningCell<T>(mean: N.Meaning, data: N.Bytes, typ: WriterTables.Blob, pred: WriterTables.Blob,
                         wantType: WriterTables.Blob, value: N.Bytes -> T, matches: T -> bool, zero: T)
    requires data != []
    ensures var w, sub := FirstElement(data, typ), Asking(pred, wantType);
      && N.Honest(DECLINING, mean) && w.Valid() && N.OverlapOf(w, sub).count > 0
      && (N.Holds(mean, sub, N.NativeView(w), 0) <==> pred == [] || mean.holds(pred, typ, data))
      && InExtent([0], [1]) && Flat([0], [1]) == 0
      && A.Seen(Line(matches), zero, Pushed(DECLINING, mean, w, sub, value), [0])
         == A.Cell(value(data), pred == [] || matches(value(data)))
  {
    DecliningPlan(mean, data, typ, pred, wantType);
    var w, sub, box := FirstElement(data, typ), Asking(pred, wantType), Line(matches);
    var p := N.Push(0, 1, data, [], typ, BitsOf(pred, wantType));
    var all := Pushed(DECLINING, mean, w, sub, value);
    assert From(all, all);
    assert p in [p] && p.Has(0) && N.Sends([p], 0);
    OneWriteEndToEnd(DECLINING, mean, w, sub, value, all, box, zero, [0]);
    AllArrives(DECLINING, mean, w, sub, value, all, box.dims, [0]);
    assert Retested([p], 0) <==> pred != [] by {
      if pred != [] { assert PredicateUnevaluated in p.delivery * PREDICATE; }
    }
    hide N.Plan, N.Honest, A.Seen, Pushed;
  }

  const TENTHS: WriterTables.Blob := [1]
  const WHOLE: WriterTables.Blob := [2]

  /** Native elements are two bytes, units and tenths, and whole numbers were
      asked for, one byte each; both are read as their units. */
  const UNITS := Dtypes(1, (b: N.Bytes) => Units(b), (b: N.Bytes) => Units(b))

  function Units(b: N.Bytes): nat { if b == [] then 0 else b[0] }

  /** Is an element of the type above one half? Against whole numbers the
      constant is cut to zero. */
  predicate AboveHalf(typ: WriterTables.Blob, b: N.Bytes) {
    if typ == TENTHS && |b| == 2 then 10 * b[0] + b[1] > 5 else Units(b) > 0
  }

  /** The predicate asks for elements above one half, or for those not above it. */
  function Halves(above: bool): N.Meaning {
    N.Meaning((space: WriterTables.Blob, i: int) => true,
              (b: N.Bytes, from: WriterTables.Blob, to: WriterTables.Blob) => b[..if b == [] then 0 else 1],
              (pred: WriterTables.Blob, typ: WriterTables.Blob, b: N.Bytes) => AboveHalf(typ, b) == above,
              (dcpl: WriterTables.Blob, b: N.Bytes) => b)
  }

  /** With the type and the predicate both declined, 0.7 is masked though asked
      for by "above 0.5", and received though excluded by "not above 0.5": the
      reader tests the 0 it casts to. On whole numbers the tests are the same. */
  lemma DeclinedTypeMistests(above: bool)
    ensures var w, sub, box := FirstElement([0, 7], TENTHS), Asking([5], WHOLE), Line((x: nat) => (x > 0) == above);
      && N.Honest(DECLINING, Halves(above)) && w.Valid() && N.OverlapOf(w, sub).count > 0
      && SameTest(Halves(above), sub, AskedType(w, sub), 1, Values(UNITS), box)
      && (N.Holds(Halves(above), sub, N.NativeView(w), 0) <==> above)
      && InExtent([0], box.dims) && Flat([0], box.dims) == 0
      && (A.Seen(box, 0, Pushed(DECLINING, Halves(above), w, sub, Values(UNITS)), [0]).got <==> !above)
  {
    var mean, matches := Halves(above), (x: nat) => (x > 0) == above;
    WholesTestedAlike(above, FirstElement([0, 7], TENTHS), Asking([5], WHOLE), Line(matches));
    assert mean.holds([5], TENTHS, [0, 7]) == above && matches(Values(UNITS)([0, 7])) == !above;
    hide *;
    DecliningCell(mean, [0, 7], TENTHS, [5], WHOLE, Values(UNITS), matches, 0);
  }

  lemma WholesTestedAlike(above: bool, w: N.Write, sub: WriterTables.Entry, box: A.Subscription<nat>)
    requires sub.pred != [] && sub.wantType == WHOLE && box.matches == ((x: nat) => (x > 0) == above)
    ensures SameTest(Halves(above), sub, AskedType(w, sub), 1, Values(UNITS), box)
  {
  }

  /** An element of binary32 compares with the constant as op says. */
  function Tenths(op: Op): N.Meaning {
    N.Meaning((space: WriterTables.Blob, i: int) => true,
              (b: N.Bytes, from: WriterTables.Blob, to: WriterTables.Blob) => b,
              (pred: WriterTables.Blob, typ: WriterTables.Blob, b: N.Bytes) => Compare(op, Real(b), TENTH),
              (dcpl: WriterTables.Blob, b: N.Bytes) => b)
  }

  function Real(b: N.Bytes): Number { if |b| == 4 then Float32(b) else NaN }

  /** The type has no part in this one: no type is asked for. The nearest binary32
      to 0.1 is above the double 0.1, which is what the writer compares with; the
      reader's constant is that binary32. So with the predicate unevaluated the
      element is masked though asked for by "> 0.1", and received though excluded
      by "<= 0.1". */
  lemma RoundedConstantMistests(op: Op)
    requires op == Gt || op == Le
    ensures var w, sub := FirstElement(TENTH32, [3]), Asking([5], []);
      var box := Line((x: Number) => Compare(op, x, ReaderConstant(GRID, TENTH)));
      && Rounds(GRID) && !RoundsHarmlessly(GRID, op, TENTH) && HasValue(GRID, Real(TENTH32))
      && N.Honest(DECLINING, Tenths(op)) && w.Valid() && N.OverlapOf(w, sub).count > 0
      && TypeOrTest(N.Plan(DECLINING, Tenths(op), w, sub), 0)
      && (N.Holds(Tenths(op), sub, N.NativeView(w), 0) <==> op == Gt)
      && InExtent([0], box.dims) && Flat([0], box.dims) == 0
      && (A.Seen(box, NaN, Pushed(DECLINING, Tenths(op), w, sub, Real), [0]).got <==> op == Le)
  {
    TenthRoundsUp();
    GridRounds();
    hide OnGrid, ToGrid, Float32;
    var matches := (x: Number) => Compare(op, x, ReaderConstant(GRID, TENTH));
    assert Tenths(op).holds([5], [3], TENTH32) == (op == Gt) && matches(Real(TENTH32)) == (op == Le);
    assert !RoundsHarmlessly(GRID, op, TENTH);
    DecliningPlan(Tenths(op), TENTH32, [3], [5], []);
    assert TypeOrTest([N.Push(0, 1, TENTH32, [], [3], BitsOf([5], []))], 0);
    hide *;
    DecliningCell(Tenths(op), TENTH32, [3], [5], [], Real, matches, NaN);
  }

  /** Two writes of one element in a step, 1 and then 2, the second queued first, as
      when the first has to be pulled and the second travels with its request: the
      cell comes back as 1, unmasked. In the order written it comes back as 2. */
  lemma StaleFirstWins(mean: N.Meaning)
    ensures var first, second, sub := FirstElement([1], []), FirstElement([2], []), Asking([], []);
      var value, box := (b: N.Bytes) => Units(b), Line((x: nat) => true);
      && N.Honest(DECLINING, mean) && first.Valid() && second.Valid()
      && var a, b := Pushed(DECLINING, mean, first, sub, value), Pushed(DECLINING, mean, second, sub, value);
      && StepFrom(DECLINING, mean, [first, second], sub, value, Tagged(b, 1) + Tagged(a, 0))
      && A.Seen(box, 0, BlocksOf(Tagged(b, 1) + Tagged(a, 0)), [0]) == A.Cell(1, true)
      && A.Seen(box, 0, BlocksOf(Tagged(a, 0) + Tagged(b, 1)), [0]) == A.Cell(2, true)
  {
    var first, second, sub := FirstElement([1], []), FirstElement([2], []), Asking([], []);
    var value, matches := (b: N.Bytes) => Units(b), (x: nat) => true;
    assert value([1]) == 1 && value([2]) == 2;
    FirstIsSent(mean, [1], value, matches, 0);
    FirstIsSent(mean, [2], value, matches, 0);
    hide *;
    StaleOrder(DECLINING, mean, first, second, sub, value, Line(matches), 0, [0]);
    StaleOrder(DECLINING, mean, second, first, sub, value, Line(matches), 0, [0]);
    SameBlocks(Pushed(DECLINING, mean, first, sub, value), Pushed(DECLINING, mean, second, sub, value));
  }

  lemma SameBlocks<T>(a: seq<A.Block<T>>, b: seq<A.Block<T>>)
    ensures BlocksOf(Tagged(a, 0) + Tagged(b, 1)) == BlocksOf(Tagged(a, 1) + Tagged(b, 0)) == a + b
  {
  }

  lemma FirstIsSent<T>(mean: N.Meaning, data: N.Bytes, value: N.Bytes -> T, matches: T -> bool, zero: T)
    requires data != []
    ensures var w, sub, box := FirstElement(data, []), Asking([], []), Line(matches);
      && N.Honest(DECLINING, mean) && w.Valid() && box.dims == [1] && InExtent([0], [1]) && Flat([0], [1]) == 0
      && N.Sends(N.Plan(DECLINING, mean, w, sub), 0)
      && OwnCell(DECLINING, mean, w, sub, value, box, zero, 0) == A.Cell(value(data), true)
  {
    var w, sub := FirstElement(data, []), Asking([], []);
    DecliningPlan(mean, data, [], [], []);
    DecliningCell(mean, data, [], [], [], value, matches, zero);
    var all := Pushed(DECLINING, mean, w, sub, value);
    assert From(all, all);
    var p := N.Push(0, 1, data, [], [], BitsOf([], []));
    assert p in [p] && p.Has(0) && N.Sends([p], 0);
    hide N.Plan, N.Honest, A.Seen, Pushed, OwnCell;
    AllArrives(DECLINING, mean, w, sub, value, all, [1], [0]);
    SeenIsOwn(DECLINING, mean, w, sub, value, all, Line(matches), zero, [0]);
  }

  /** Binary32 cast to whole numbers, and 32-bit whole numbers as they are. */
  const FLOAT_AS_INT := Dtypes(4, (b: N.Bytes) => if |b| == 4 then Signed32(b) else 0,
                                  (b: N.Bytes) => AsWhole(Real(b)))

  function AsWhole(a: Number): int { if a.Finite? then TowardZero(a).x.Floor else 0 }

  /** Two types of one size: 32-bit whole numbers asked of a binary32 object whose
      writer declines. The element 1.0 is delivered unmasked as 1065353216. */
  lemma SameSizeIsMisread(mean: N.Meaning)
    ensures var w, sub, box := FirstElement(ONE32, [3]), Asking([], [4]), Line((x: int) => true);
      && N.Honest(DECLINING, mean) && w.Valid() && N.OverlapOf(w, sub).count > 0
      && Float32(ONE32) == Finite(1.0) && FLOAT_AS_INT.asNative(ONE32) == 1
      && A.Seen(box, 0, Pushed(DECLINING, mean, w, sub, Values(FLOAT_AS_INT)), [0]) == A.Cell(1065353216, true)
  {
    OneAsBinary32();
    hide Word, Float32;
    DecliningCell(mean, ONE32, [3], [], [4], Values(FLOAT_AS_INT), (x: int) => true, 0);
    hide *;
  }
}
