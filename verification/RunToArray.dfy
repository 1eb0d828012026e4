/** From a run of the step protocol to the cells of the arrays its steps return. */
module RunToArray {
  import opened Delivery
  import opened RowMajor
  import opened HeldPush
  import opened StepProtocol
  import WriterTables
  import N = Narrowing
  import A = Reassembly
  import E = EndToEnd

  function OfPath(ps: seq<Arrival>, path: string): seq<Arrival> {
    if ps == [] then []
    else
      var last := ps[|ps| - 1];
      OfPath(ps[..|ps| - 1], path) + (if last.path == path then [last] else [])
  }

  lemma {:induction false} OfPathHas(ps: seq<Arrival>, path: string)
    ensures forall x :: x in OfPath(ps, path) <==> x in ps && x.path == path
  {
    if ps != [] {
      OfPathHas(ps[..|ps| - 1], path);
      assert ps == ps[..|ps| - 1] + [ps[|ps| - 1]];
    }
  }

  /** What the pushes hold, in the order they were queued. */
  ghost function Contents<T>(ps: seq<Arrival>, content: Arrival -> E.Queued<T>): (came: seq<E.Queued<T>>)
    ensures |came| == |ps| && forall i | 0 <= i < |came| :: came[i] == content(ps[i])
  {
    seq(|ps|, i requires 0 <= i < |ps| => content(ps[i]))
  }

  /** Each push issued for the path in the step is of one of the writes. */
  ghost predicate IssuedFrom<T>(f: Stream, step: nat, path: string, content: Arrival -> E.Queued<T>, cb: N.Callbacks,
                                mean: N.Meaning, ws: seq<N.Write>, sub: WriterTables.Entry, value: N.Bytes -> T)
    requires N.Honest(cb, mean) && forall w | w in ws :: w.Valid()
  {
    forall x: Arrival | x in f.issued && x.step == step && x.path == path ::
      content(x).write < |ws| && content(x).block in E.Pushed(cb, mean, ws[content(x).write], sub, value)
  }

  /** A push of write k that holds the element at g was issued and not lost. */
  ghost predicate Survives<T>(f: Stream, step: nat, path: string, content: Arrival -> E.Queued<T>, k: nat,
                              dims: seq<nat>, g: seq<int>)
    requires |g| == |dims|
  {
    exists x: Arrival :: SurvivesAs(f, step, path, content, k, dims, g, x)
  }

  ghost predicate SurvivesAs<T>(f: Stream, step: nat, path: string, content: Arrival -> E.Queued<T>, k: nat,
                                dims: seq<nat>, g: seq<int>, x: Arrival)
    requires |g| == |dims|
  {
    && x.step == step && x.path == path && f.lost[x] < f.issued[x]
    && content(x).write == k && A.Covers(content(x).block, dims, g)
  }

  /** What came for the path in the i-th step returned. */
  ghost function Came<T>(f: Stream, i: nat, path: string, content: Arrival -> E.Queued<T>): seq<E.Queued<T>>
    requires i < |f.returned|
  {
    Contents(OfPath(f.returned[i].pushes, path), content)
  }

  lemma ReturnedHas(f: Stream, i: nat, path: string, x: Arrival)
    requires Exact(f) && i < |f.returned|
    ensures x in OfPath(f.returned[i].pushes, path)
       <==> x.step == f.returned[i].step && x.path == path && f.lost[x] < f.issued[x]
  {
    OfPathHas(f.returned[i].pushes, path);
    assert GivenExactly(f, f.returned[i], x);
    hide OfPath;
  }

  /** On every careful run, the pushes a step returns are of the step's writes, and
      hold what was issued for it and not lost. */
  lemma ReturnedStep<T>(acts: seq<Action>, m: Member, i: nat, path: string, content: Arrival -> E.Queued<T>,
                        cb: N.Callbacks, mean: N.Meaning, ws: seq<N.Write>, sub: WriterTables.Entry,
                        value: N.Bytes -> T, dims: seq<nat>, g: seq<int>)
    requires N.Honest(cb, mean) && (forall w | w in ws :: w.Valid()) && |g| == |dims|
    requires IsRun(INIT, acts) && m in After(INIT, acts).readers
    requires i < |After(INIT, acts).readers[m].stream.returned|
    requires var f := After(INIT, acts).readers[m].stream;
      IssuedFrom(f, f.returned[i].step, path, content, cb, mean, ws, sub, value)
    ensures var f := After(INIT, acts).readers[m].stream;
      var came := Came(f, i, path, content);
      && E.StepFrom(cb, mean, ws, sub, value, came)
      && forall k: nat :: E.Arrived(E.OfWrite(came, k), dims, g)
                     <==> Survives(f, f.returned[i].step, path, content, k, dims, g)
  {
    WholeRunDelivery(acts, m);
    var f := After(INIT, acts).readers[m].stream;
    hide N.Honest, E.Pushed, IsRun, After, Delivering;
    CameFrom(f, i, path, content, cb, mean, ws, sub, value);
    forall k: nat
      ensures E.Arrived(E.OfWrite(Came(f, i, path, content), k), dims, g)
         <==> Survives(f, f.returned[i].step, path, content, k, dims, g)
    {
      CameIsSurvivors(f, i, path, content, k, dims, g);
    }
  }

  lemma CameFrom<T>(f: Stream, i: nat, path: string, content: Arrival -> E.Queued<T>, cb: N.Callbacks,
                    mean: N.Meaning, ws: seq<N.Write>, sub: WriterTables.Entry, value: N.Bytes -> T)
    requires N.Honest(cb, mean) && (forall w | w in ws :: w.Valid()) && Exact(f) && i < |f.returned|
    requires IssuedFrom(f, f.returned[i].step, path, content, cb, mean, ws, sub, value)
    ensures E.StepFrom(cb, mean, ws, sub, value, Came(f, i, path, content))
  {
    hide N.Honest, E.Pushed, Exact;
    var ps := OfPath(f.returned[i].pushes, path);
    forall j | 0 <= j < |ps| ensures ps[j] in f.issued && ps[j].step == f.returned[i].step && ps[j].path == path {
      assert ps[j] in ps;
      ReturnedHas(f, i, path, ps[j]);
    }
  }

  lemma CameIsSurvivors<T>(f: Stream, i: nat, path: string, content: Arrival -> E.Queued<T>, k: nat, dims: seq<nat>,
                           g: seq<int>)
    requires |g| == |dims| && Exact(f) && i < |f.returned|
    ensures E.Arrived(E.OfWrite(Came(f, i, path, content), k), dims, g)
       <==> Survives(f, f.returned[i].step, path, content, k, dims, g)
  {
    hide Exact, A.Covers, E.OfWrite;
    var ps, came, step := OfPath(f.returned[i].pushes, path), Came(f, i, path, content), f.returned[i].step;
    E.OfWriteHas(came, k);
    if E.Arrived(E.OfWrite(came, k), dims, g) {
      var q :| q in E.OfWrite(came, k) && A.Covers(q, dims, g);
      var j :| 0 <= j < |came| && came[j] == E.Queued(k, q);
      ReturnedHas(f, i, path, ps[j]);
      assert SurvivesAs(f, step, path, content, k, dims, g, ps[j]);
    }
    if Survives(f, step, path, content, k, dims, g) {
      var x :| SurvivesAs(f, step, path, content, k, dims, g, x);
      ReturnedHas(f, i, path, x);
      var j :| 0 <= j < |ps| && ps[j] == x;
      assert came[j] in came && came[j].block in E.OfWrite(came, k);
    }
  }

  /** Writer to array, over every careful run, whatever is lost and in whatever order
      pushes are queued. In a returned step whose path was written once: where the
      two ends test alike, and unless the cell's push both fell back on the type and
      must be tested again, a selected cell is received exactly if the write has its
      element, the element satisfies the predicate, and its push, if it has one, was
      issued to this reader and not lost. */
  lemma ReturnedCell<T>(acts: seq<Action>, m: Member, i: nat, path: string, content: Arrival -> E.Queued<T>,
                        cb: N.Callbacks, mean: N.Meaning, w: N.Write, sub: WriterTables.Entry, value: N.Bytes -> T,
                        size: nat, box: A.Subscription<T>, zero: T, g: seq<int>)
    requires N.Honest(cb, mean) && w.Valid() && N.OverlapOf(w, sub).count > 0
    requires IsRun(INIT, acts) && m in After(INIT, acts).readers
    requires i < |After(INIT, acts).readers[m].stream.returned|
    requires var f := After(INIT, acts).readers[m].stream;
      IssuedFrom(f, f.returned[i].step, path, content, cb, mean, [w], sub, value)
    requires |g| == |box.dims| && InExtent(g, box.dims) && Flat(g, box.dims) >= 0
    requires N.Selected(mean, sub, Flat(g, box.dims))
    requires E.SameTest(mean, sub, E.AskedType(w, sub), size, value, box)
    requires var v := N.ViewOf(cb, w, sub, N.OverlapOf(w, sub));
      v.converted || sub.wantType == [] ==> v.elemSize == size
    requires E.TypeOrTest(N.Plan(cb, mean, w, sub), Flat(g, box.dims))
    ensures var f, e := After(INIT, acts).readers[m].stream, Flat(g, box.dims);
      var ov, ps := N.OverlapOf(w, sub), N.Plan(cb, mean, w, sub);
      var v, cell := N.ViewOf(cb, w, sub, ov), A.Seen(box, zero, E.BlocksOf(Came(f, i, path, content)), g);
      && v.Valid()
      && (cell.got <==> (ov.Has(e) && N.Holds(mean, sub, v, e)
                         && (N.Sends(ps, e) ==> Survives(f, f.returned[i].step, path, content, 0, box.dims, g))))
      && (cell.got ==> v.Spans(e, 1) && cell.value == value(v.Slice(e, 1)))
      && (cell.got ==> N.NativeView(w).Spans(e, 1) && N.Represents(mean, w, sub, v, e))
  {
    var f := After(INIT, acts).readers[m].stream;
    var came := Came(f, i, path, content);
    assert forall x | x in [w] :: x.Valid();
    ReturnedStep(acts, m, i, path, content, cb, mean, [w], sub, value, box.dims, g);
    OneWriteOnly(cb, mean, w, sub, value, came);
    hide *;
    E.ExactUnlessDeclined(cb, mean, w, sub, value, size, E.BlocksOf(came), box, zero, g);
  }

  lemma OneWriteOnly<T>(cb: N.Callbacks, mean: N.Meaning, w: N.Write, sub: WriterTables.Entry, value: N.Bytes -> T,
                        came: seq<E.Queued<T>>)
    requires N.Honest(cb, mean) && w.Valid() && E.StepFrom(cb, mean, [w], sub, value, came)
    ensures E.BlocksOf(came) == E.OfWrite(came, 0) && E.From(E.BlocksOf(came), E.Pushed(cb, mean, w, sub, value))
  {
    hide N.Honest, E.Pushed;
    assert forall i | 0 <= i < |came| :: came[i] in came && came[i].write == 0;
    AllOfOne(came);
    E.OfWriteFrom(cb, mean, [w], sub, value, came, 0);
  }

  lemma {:induction false} AllOfOne<T>(came: seq<E.Queued<T>>)
    requires forall i | 0 <= i < |came| :: came[i].write == 0
    ensures E.BlocksOf(came) == E.OfWrite(came, 0)
  {
    if came != [] {
      AllOfOne(came[..|came| - 1]);
      assert E.BlocksOf(came) == E.BlocksOf(came[..|came| - 1]) + [came[|came| - 1].block];
    }
  }
}
