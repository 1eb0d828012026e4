/** One write, cut for each subscriber to what it asked for: range overlap,
    selection runs, datatype conversion, predicate runs, chunk slices. Each
    narrowing may decline, and then more is sent and the push says so. */
module Narrowing {
  import opened Delivery
  import opened Ranges
  import opened WriterTables

  type Bytes = seq<nat>

  /** A write of count elements from element start. */
  datatype Write = Write(start: uint64, count: uint64, elemSize: nat, buf: Bytes, typ: Blob, space: Blob) {
    predicate Valid() { elemSize > 0 && |buf| == count * elemSize }
  }

  /** One payload: dcpl is empty for raw bytes, else the pipeline they went through. */
  datatype Push = Push(start: nat, count: nat, payload: Bytes, dcpl: Blob, typ: Blob, delivery: Fallbacks) {
    ghost predicate Has(e: int) { start <= e < start + count }
  }

  // ----- The writer's callbacks and what they owe -----

  datatype Converted = Converted(buf: Bytes, elemSize: nat)
  datatype Filtered = Filtered(runs: seq<Run>, coalesced: bool)

  type SelectionFn = (Blob, Blob, nat, nat) -> Option<seq<Run>>
  type ConvertFn = (Bytes, nat, Blob, Blob) -> Option<Converted>
  type PredicateFn = (Bytes, nat, nat, Blob, Blob) -> Option<Filtered>
  type ShapeFn = (Blob, nat, nat) -> nat
  type RefilterFn = (Bytes, nat, nat, Blob, Blob, bool) -> Option<Bytes>

  datatype Callbacks = Callbacks(selection: Option<SelectionFn>, convert: Option<ConvertFn>,
    predicateOf: Option<PredicateFn>, shape: Option<ShapeFn>, refilter: Option<RefilterFn>)

  /** What the blobs mean: which flat elements a selection holds, one element
      cast to another type, whether an element of a type satisfies a predicate,
      and the bytes a filtered payload stands for. */
  datatype Meaning = Meaning(
    selects: (Blob, int) -> bool,
    cast: (Bytes, Blob, Blob) -> Bytes,
    holds: (Blob, Blob, Bytes) -> bool,
    decode: (Blob, Bytes) -> Bytes)

  /** Ascending, disjoint, non-empty runs within [lo, hi). */
  ghost predicate Within(runs: seq<Run>, lo: int, hi: int)
    decreases |runs|
  {
    if runs == [] then lo <= hi
    else lo <= runs[0].start && runs[0].count > 0 && Within(runs[1..], runs[0].start + runs[0].count, hi)
  }

  ghost predicate InRuns(runs: seq<Run>, i: int) { exists r :: r in runs && r.Has(i) }

  function Element(buf: Bytes, elemSize: nat, i: nat): Bytes
    requires (i + 1) * elemSize <= |buf|
  {
    MulMonotone(i, i + 1, elemSize);
    buf[i * elemSize..(i + 1) * elemSize]
  }

  /** The runs name exactly the selected elements of the range. */
  ghost predicate SelectionExact(mean: Meaning, space: Blob, start: nat, count: nat, runs: seq<Run>) {
    Within(runs, 0, count) && forall i | 0 <= i < count :: InRuns(runs, i) <==> mean.selects(space, start + i)
  }

  /** Each element of the result is that element of the input, cast. */
  ghost predicate ConvertExact(mean: Meaning, raw: Bytes, elemSize: nat, count: nat, from: Blob, to: Blob, c: Converted) {
    && |c.buf| == count * c.elemSize
    && forall i: nat | i < count && (i + 1) * elemSize <= |raw| && (i + 1) * c.elemSize <= |c.buf| ::
         Element(c.buf, c.elemSize, i) == mean.cast(Element(raw, elemSize, i), from, to)
  }

  /** The runs hold every match, and nothing else unless coalesced. */
  ghost predicate PredicateExact(mean: Meaning, raw: Bytes, elemSize: nat, count: nat, pred: Blob, typ: Blob, f: Filtered) {
    && Within(f.runs, 0, count)
    && forall i: nat | i < count && (i + 1) * elemSize <= |raw| ::
         && (mean.holds(pred, typ, Element(raw, elemSize, i)) ==> InRuns(f.runs, i))
         && (InRuns(f.runs, i) && !f.coalesced ==> mean.holds(pred, typ, Element(raw, elemSize, i)))
  }

  /** The contracts in the transport's header, of callbacks that do not decline. */
  ghost predicate Honest(cb: Callbacks, mean: Meaning) {
    && (cb.selection.Some? ==> forall sp, wsp, s: nat, n: nat ::
          var out := cb.selection.value(sp, wsp, s, n);
          out.Some? ==> SelectionExact(mean, sp, s, n, out.value))
    && (cb.convert.Some? ==> forall raw, n: nat, from, to, es: nat ::
          var out := cb.convert.value(raw, n, from, to);
          out.Some? && |raw| == n * es ==> ConvertExact(mean, raw, es, n, from, to, out.value))
    && (cb.predicateOf.Some? ==> forall raw, es: nat, n: nat, pred, typ ::
          var out := cb.predicateOf.value(raw, es, n, pred, typ);
          out.Some? ==> PredicateExact(mean, raw, es, n, pred, typ, out.value))
    && (cb.refilter.Some? ==> forall raw, es: nat, n: nat, dcpl, typ, native ::
          var out := cb.refilter.value(raw, es, n, dcpl, typ, native);
          out.Some? ==> mean.decode(dcpl, out.value) == raw)
  }

  // ----- The plan: what one subscriber is to be sent -----

  /** A subscriber's view of the data: buf's first element is element base. */
  datatype View = View(buf: Bytes, base: nat, count: nat, elemSize: nat, typ: Blob, converted: bool) {
    predicate Valid() { elemSize > 0 && |buf| == count * elemSize }

    predicate Spans(s: nat, n: nat) { base <= s && s + n <= base + count }

    /** The bytes of elements [s, s + n). */
    function Slice(s: nat, n: nat): (out: Bytes)
      requires Valid() && Spans(s, n)
      ensures |out| == n * elemSize
    {
      MulMonotone(s - base, s - base + n, elemSize);
      MulMonotone(s - base + n, count, elemSize);
      assert (s - base + n) * elemSize == (s - base) * elemSize + n * elemSize;
      buf[(s - base) * elemSize..(s - base + n) * elemSize]
    }
  }

  function NativeView(w: Write): View
    requires w.Valid()
  {
    View(w.buf, w.start, w.count, w.elemSize, w.typ, false)
  }

  /** The part of the write the subscription's range names, as the writer's own
      64-bit arithmetic finds it. */
  function OverlapOf(w: Write, sub: Entry): Run
  {
    SentinelOverlap(w.start, w.count, sub.selStart, sub.selCount)
  }

  /** Where no end wraps, those are the elements the write has and the subscription's
      range names: all from its first on, if it is for the whole object. */
  lemma OverlapIs(w: Write, sub: Entry, e: int)
    requires w.start + w.count <= UINT64_MAX
    requires sub.selCount == UINT64_MAX || sub.selStart + sub.selCount <= UINT64_MAX
    ensures OverlapOf(w, sub).Has(e)
       <==> w.start <= e < w.start + w.count && sub.selStart <= e
            && (sub.selCount == UINT64_MAX || e < sub.selStart + sub.selCount)
  {
    EndWraps(w.start + w.count);
    EndWraps(sub.selStart + sub.selCount);
  }

  function SelectionRuns(cb: Callbacks, w: Write, sub: Entry, ov: Run): (seq<Run>, Fallbacks) {
    if sub.space == [] then ([Run(0, ov.count)], {})
    else if cb.selection == None then ([Run(0, ov.count)], {SelectionSpan})
    else match cb.selection.value(sub.space, w.space, ov.start, ov.count)
      case Some(runs) => (runs, {})
      case None => ([Run(0, ov.count)], {SelectionSpan})
  }

  /** The data as this subscriber asked for it: re-based at the overlap once it
      is converted. */
  function ViewOf(cb: Callbacks, w: Write, sub: Entry, ov: Run): View
    requires w.Valid() && NativeView(w).Spans(ov.start, ov.count)
  {
    if sub.wantType == [] || cb.convert == None then NativeView(w)
    else match cb.convert.value(NativeView(w).Slice(ov.start, ov.count), ov.count, w.typ, sub.wantType)
      case Some(c) =>
        if c.elemSize > 0 then View(c.buf, ov.start, ov.count, c.elemSize, sub.wantType, true) else NativeView(w)
      case None => NativeView(w)
  }

  function PredicateRuns(cb: Callbacks, sub: Entry, v: View, s: nat, n: nat): (seq<Run>, Fallbacks)
    requires v.Valid() && v.Spans(s, n)
  {
    if sub.pred == [] then ([Run(0, n)], {})
    else if cb.predicateOf == None then ([Run(0, n)], {PredicateUnevaluated})
    else match cb.predicateOf.value(v.Slice(s, n), v.elemSize, n, sub.pred, v.typ)
      case Some(f) => (f.runs, if f.coalesced then {PredicateSpan} else {})
      case None => ([Run(0, n)], {PredicateUnevaluated})
  }

  /** One push of elements [s, s + n): through the subscriber's pipeline, or raw
      where there is none or it declines. */
  function OnePush(cb: Callbacks, sub: Entry, v: View, s: nat, n: nat, d: Fallbacks): Push
    requires v.Valid() && v.Spans(s, n)
  {
    var raw := Push(s, n, v.Slice(s, n), [], v.typ, d);
    if sub.dcpl == [] || cb.refilter == None then raw
    else match cb.refilter.value(v.Slice(s, n), v.elemSize, n, sub.dcpl, v.typ, !v.converted)
      case Some(out) => Push(s, n, out, sub.dcpl, v.typ, d)
      case None => raw
  }

  function Slices(cb: Callbacks, sub: Entry, v: View, s: nat, n: nat, chunk: nat, d: Fallbacks): seq<Push>
    requires v.Valid() && v.Spans(s, n) && chunk > 0
    decreases n
  {
    if n == 0 then []
    else
      var k := if n < chunk then n else chunk;
      [OnePush(cb, sub, v, s, k, d)] + Slices(cb, sub, v, s + k, n - k, chunk, d)
  }

  function ChunkOf(cb: Callbacks, sub: Entry, v: View, n: nat): nat {
    if sub.dcpl == [] || cb.shape == None then 0 else cb.shape.value(sub.dcpl, n, v.elemSize)
  }

  function RunPushes(cb: Callbacks, sub: Entry, v: View, s: nat, n: nat, d: Fallbacks): seq<Push>
    requires v.Valid() && v.Spans(s, n)
  {
    var chunk := ChunkOf(cb, sub, v, n);
    if 0 < chunk < n then Slices(cb, sub, v, s, n, chunk, d) else [OnePush(cb, sub, v, s, n, d)]
  }

  ghost predicate AllSpanned(v: View, s: nat, runs: seq<Run>) {
    forall i | 0 <= i < |runs| :: v.Spans(s + runs[i].start, runs[i].count)
  }

  function PredicatePushes(cb: Callbacks, sub: Entry, v: View, s: nat, runs: seq<Run>, d: Fallbacks): seq<Push>
    requires v.Valid() && AllSpanned(v, s, runs)
  {
    if runs == [] then []
    else
      RunPushes(cb, sub, v, s + runs[0].start, runs[0].count, d)
      + PredicatePushes(cb, sub, v, s, runs[1..], d)
  }

  /** Each selection run's own predicate runs stay within it. */
  lemma {:induction false} WithinSpans(v: View, s: nat, n: nat, runs: seq<Run>, lo: nat)
    requires v.Spans(s, n) && Within(runs, lo, n)
    ensures AllSpanned(v, s, runs)
  {
    if runs != [] {
      WithinUpper(runs, lo, n);
      WithinSpans(v, s, n, runs[1..], runs[0].start + runs[0].count);
      forall i | 0 <= i < |runs| ensures v.Spans(s + runs[i].start, runs[i].count) {
        if i > 0 { assert runs[i] == runs[1..][i - 1]; }
      }
    }
  }

  lemma {:induction false} WithinUpper(runs: seq<Run>, lo: int, hi: int)
    requires Within(runs, lo, hi)
    ensures lo <= hi && (runs != [] ==> runs[0].start + runs[0].count <= hi)
  {
    if runs != [] {
      WithinUpper(runs[1..], runs[0].start + runs[0].count, hi);
    }
  }

  lemma PredicateRunsWithin(cb: Callbacks, mean: Meaning, sub: Entry, v: View, s: nat, n: nat)
    requires Honest(cb, mean) && v.Valid() && v.Spans(s, n) && n > 0
    ensures Within(PredicateRuns(cb, sub, v, s, n).0, 0, n)
    ensures AllSpanned(v, s, PredicateRuns(cb, sub, v, s, n).0)
  {
    WithinSpans(v, s, n, PredicateRuns(cb, sub, v, s, n).0, 0);
  }

  function SelectionPushes(cb: Callbacks, ghost mean: Meaning, sub: Entry, v: View, s: nat, runs: seq<Run>, d: Fallbacks)
    : seq<Push>
    requires Honest(cb, mean) && v.Valid() && AllSpanned(v, s, runs)
    requires forall r | r in runs :: r.count > 0
  {
    if runs == [] then []
    else
      var start, n := s + runs[0].start, runs[0].count;
      var (hits, fallback) := PredicateRuns(cb, sub, v, start, n);
      PredicateRunsWithin(cb, mean, sub, v, start, n);
      PredicatePushes(cb, sub, v, start, hits, d + fallback)
      + SelectionPushes(cb, mean, sub, v, s, runs[1..], d)
  }

  /** The first selection run's pushes come first. */
  lemma SelectionUnfold(cb: Callbacks, mean: Meaning, sub: Entry, v: View, s: nat, runs: seq<Run>, d: Fallbacks)
    requires Honest(cb, mean) && v.Valid() && AllSpanned(v, s, runs) && runs != []
    requires forall r | r in runs :: r.count > 0
    ensures var (hits, fallback) := PredicateRuns(cb, sub, v, s + runs[0].start, runs[0].count);
      && AllSpanned(v, s + runs[0].start, hits) && Within(hits, 0, runs[0].count)
      && AllSpanned(v, s, runs[1..])
      && SelectionPushes(cb, mean, sub, v, s, runs, d)
         == PredicatePushes(cb, sub, v, s + runs[0].start, hits, d + fallback)
            + SelectionPushes(cb, mean, sub, v, s, runs[1..], d)
  {
    PredicateRunsWithin(cb, mean, sub, v, s + runs[0].start, runs[0].count);
    assert forall i | 0 <= i < |runs[1..]| :: runs[1..][i] == runs[i + 1];
  }

  lemma OverlapSpans(w: Write, sub: Entry)
    requires w.Valid()
    ensures var ov := OverlapOf(w, sub);
      ov.count > 0 ==> NativeView(w).Spans(ov.start, ov.count)
  {
  }

  lemma ViewSpans(cb: Callbacks, mean: Meaning, w: Write, sub: Entry, ov: Run)
    requires Honest(cb, mean) && w.Valid() && NativeView(w).Spans(ov.start, ov.count)
    ensures ViewOf(cb, w, sub, ov).Valid() && ViewOf(cb, w, sub, ov).Spans(ov.start, ov.count)
    ensures ViewOf(cb, w, sub, ov).converted ==> cb.convert.Some? && ConvertExact(mean,
      NativeView(w).Slice(ov.start, ov.count), w.elemSize, ov.count, w.typ, sub.wantType,
      Converted(ViewOf(cb, w, sub, ov).buf, ViewOf(cb, w, sub, ov).elemSize))
  {
    var raw := NativeView(w).Slice(ov.start, ov.count);
    var es := w.elemSize;
    if cb.convert.Some? && cb.convert.value(raw, ov.count, w.typ, sub.wantType).Some? {
      assert |raw| == ov.count * es;
      assert ConvertExact(mean, raw, es, ov.count, w.typ, sub.wantType,
                          cb.convert.value(raw, ov.count, w.typ, sub.wantType).value);
    }
  }

  lemma {:induction false} WithinPositive(runs: seq<Run>, lo: int, hi: int)
    requires Within(runs, lo, hi)
    ensures forall r | r in runs :: r.count > 0 && lo <= r.start && r.start + r.count <= hi
  {
    if runs != [] {
      WithinUpper(runs, lo, hi);
      WithinPositive(runs[1..], runs[0].start + runs[0].count, hi);
    }
  }

  lemma SelectionRunsWithin(cb: Callbacks, mean: Meaning, w: Write, sub: Entry, ov: Run)
    requires Honest(cb, mean) && ov.count > 0
    ensures Within(SelectionRuns(cb, w, sub, ov).0, 0, ov.count)
    ensures forall r | r in SelectionRuns(cb, w, sub, ov).0 :: r.count > 0
  {
    WithinPositive(SelectionRuns(cb, w, sub, ov).0, 0, ov.count);
  }

  /** Everything a write sends one subscriber, in order. */
  function Plan(cb: Callbacks, ghost mean: Meaning, w: Write, sub: Entry): seq<Push>
    requires Honest(cb, mean) && w.Valid()
  {
    var ov := OverlapOf(w, sub);
    if ov.count == 0 then []
    else
      OverlapSpans(w, sub);
      ViewSpans(cb, mean, w, sub, ov);
      SelectionRunsWithin(cb, mean, w, sub, ov);
      var (runs, span) := SelectionRuns(cb, w, sub, ov);
      var v := ViewOf(cb, w, sub, ov);
      WithinSpans(v, ov.start, ov.count, runs, 0);
      SelectionPushes(cb, mean, sub, v, ov.start, runs, span + TypeFallback(sub, v))
  }

  function TypeFallback(sub: Entry, v: View): Fallbacks {
    if sub.wantType != [] && !v.converted then {TypeNative} else {}
  }

  // ----- Order: the plan's pushes ascend, disjoint, in the overlap -----

  ghost predicate Tiles(ps: seq<Push>, lo: int, hi: int)
    decreases |ps|
  {
    if ps == [] then lo <= hi
    else lo <= ps[0].start && ps[0].count > 0 && Tiles(ps[1..], ps[0].start + ps[0].count, hi)
  }

  lemma {:induction false} TilesAppend(a: seq<Push>, b: seq<Push>, lo: int, mid: int, mid': int, hi: int)
    requires Tiles(a, lo, mid) && Tiles(b, mid', hi) && mid <= mid'
    ensures Tiles(a + b, lo, hi)
  {
    if a == [] {
      assert a + b == b;
      TilesLower(b, lo, mid', hi);
    } else {
      assert (a + b)[1..] == a[1..] + b;
      TilesAppend(a[1..], b, a[0].start + a[0].count, mid, mid', hi);
    }
  }

  lemma TilesLower(b: seq<Push>, lo: int, mid: int, hi: int)
    requires Tiles(b, mid, hi) && lo <= mid
    ensures Tiles(b, lo, hi)
  {
  }

  lemma OneLabel(cb: Callbacks, sub: Entry, v: View, s: nat, n: nat, d: Fallbacks)
    requires v.Valid() && v.Spans(s, n)
    ensures OnePush(cb, sub, v, s, n, d).start == s && OnePush(cb, sub, v, s, n, d).count == n
  {
  }

  lemma {:induction false} SlicesTile(cb: Callbacks, sub: Entry, v: View, s: nat, n: nat, chunk: nat, d: Fallbacks)
    requires v.Valid() && v.Spans(s, n) && chunk > 0
    ensures Tiles(Slices(cb, sub, v, s, n, chunk, d), s, s + n)
    decreases n
  {
    if n > 0 {
      var k := if n < chunk then n else chunk;
      hide OnePush;
      OneLabel(cb, sub, v, s, k, d);
      SlicesTile(cb, sub, v, s + k, n - k, chunk, d);
      var ps := Slices(cb, sub, v, s, n, chunk, d);
      assert ps[1..] == Slices(cb, sub, v, s + k, n - k, chunk, d);
    }
  }

  lemma RunTiles(cb: Callbacks, sub: Entry, v: View, s: nat, n: nat, d: Fallbacks)
    requires v.Valid() && v.Spans(s, n) && n > 0
    ensures Tiles(RunPushes(cb, sub, v, s, n, d), s, s + n)
  {
    var chunk := ChunkOf(cb, sub, v, n);
    if 0 < chunk < n {
      SlicesTile(cb, sub, v, s, n, chunk, d);
    } else {
      assert [OnePush(cb, sub, v, s, n, d)][1..] == [];
    }
  }

  lemma {:induction false} PredicateTiles(cb: Callbacks, sub: Entry, v: View, s: nat, n: nat, runs: seq<Run>, lo: nat,
                                          d: Fallbacks)
    requires v.Valid() && v.Spans(s, n) && AllSpanned(v, s, runs) && Within(runs, lo, n)
    ensures Tiles(PredicatePushes(cb, sub, v, s, runs, d), s + lo, s + n)
  {
    if runs != [] {
      var end := runs[0].start + runs[0].count;
      PredicateTiles(cb, sub, v, s, n, runs[1..], end, d);
      var head := RunPushes(cb, sub, v, s + runs[0].start, runs[0].count, d);
      RunTiles(cb, sub, v, s + runs[0].start, runs[0].count, d);
      TilesLower(head, s + lo, s + runs[0].start, s + end);
      TilesAppend(head, PredicatePushes(cb, sub, v, s, runs[1..], d), s + lo, s + end, s + end, s + n);
    }
  }

  lemma {:induction false} SelectionTiles(cb: Callbacks, mean: Meaning, sub: Entry, v: View, s: nat, n: nat,
                                          runs: seq<Run>, lo: nat, d: Fallbacks)
    requires Honest(cb, mean) && v.Valid() && v.Spans(s, n) && AllSpanned(v, s, runs) && Within(runs, lo, n)
    requires forall r | r in runs :: r.count > 0
    ensures Tiles(SelectionPushes(cb, mean, sub, v, s, runs, d), s + lo, s + n)
  {
    if runs != [] {
      WithinUpper(runs[1..], runs[0].start + runs[0].count, n);
      assert AllSpanned(v, s, runs[1..]) by { SelectionUnfold(cb, mean, sub, v, s, runs, d); }
      hide Honest, PredicateRuns, PredicatePushes, SelectionPushes, AllSpanned, Tiles;
      SelectionTiles(cb, mean, sub, v, s, n, runs[1..], runs[0].start + runs[0].count, d);
      FirstSelectionTiles(cb, mean, sub, v, s, n, runs, lo, d);
    }
  }

  lemma FirstSelectionTiles(cb: Callbacks, mean: Meaning, sub: Entry, v: View, s: nat, n: nat, runs: seq<Run>, lo: nat,
                            d: Fallbacks)
    requires Honest(cb, mean) && v.Valid() && AllSpanned(v, s, runs) && runs != [] && lo <= runs[0].start
    requires forall r | r in runs :: r.count > 0
    requires AllSpanned(v, s, runs[1..])
    requires Tiles(SelectionPushes(cb, mean, sub, v, s, runs[1..], d), s + (runs[0].start + runs[0].count), s + n)
    ensures Tiles(SelectionPushes(cb, mean, sub, v, s, runs, d), s + lo, s + n)
  {
    hide *;
    var start, k := s + runs[0].start, runs[0].count;
    FirstSpans(v, s, runs);
    assert runs[0] in runs;
    SelectionUnfold(cb, mean, sub, v, s, runs, d);
    var (hits, fallback) := PredicateRuns(cb, sub, v, start, k);
    PredicateTiles(cb, sub, v, start, k, hits, 0, d + fallback);
    TilesJoin(PredicatePushes(cb, sub, v, start, hits, d + fallback),
              SelectionPushes(cb, mean, sub, v, s, runs[1..], d), s + lo, start, start + k, s + n);
  }

  lemma FirstSpans(v: View, s: nat, runs: seq<Run>)
    requires AllSpanned(v, s, runs) && runs != []
    ensures v.Spans(s + runs[0].start, runs[0].count)
  {
  }

  lemma TilesJoin(a: seq<Push>, b: seq<Push>, lo: int, start: int, mid: int, hi: int)
    requires Tiles(a, start, mid) && Tiles(b, mid, hi) && lo <= start
    ensures Tiles(a + b, lo, hi)
  {
    TilesLower(a, lo, start, mid);
    TilesAppend(a, b, lo, mid, mid, hi);
  }

  // ----- Coverage, labels and payloads -----

  ghost predicate Sends(ps: seq<Push>, e: int) { exists p :: p in ps && p.Has(e) }

  /** The payload is exactly the labelled elements of the subscriber's view. */
  ghost predicate Carries(mean: Meaning, v: View, p: Push)
    requires v.Valid()
  {
    && v.Spans(p.start, p.count) && p.typ == v.typ
    && v.Slice(p.start, p.count) == if p.dcpl == [] then p.payload else mean.decode(p.dcpl, p.payload)
  }

  /** Does element e, as it would be sent, satisfy the subscription's predicate? */
  ghost predicate Holds(mean: Meaning, sub: Entry, v: View, e: int)
    requires v.Valid()
  {
    e >= 0 && v.Spans(e, 1) && (sub.pred == [] || mean.holds(sub.pred, v.typ, v.Slice(e, 1)))
  }

  ghost predicate Selected(mean: Meaning, sub: Entry, e: int) {
    sub.space == [] || mean.selects(sub.space, e)
  }

  lemma OneCarries(cb: Callbacks, mean: Meaning, sub: Entry, v: View, s: nat, n: nat, d: Fallbacks)
    requires Honest(cb, mean) && v.Valid() && v.Spans(s, n)
    ensures var p := OnePush(cb, sub, v, s, n, d);
      Carries(mean, v, p) && p.start == s && p.count == n && p.delivery == d
  {
  }

  /** The pushes of one run cover it, stay in it, and carry what they are labelled. */
  ghost predicate RunSent(mean: Meaning, v: View, ps: seq<Push>, s: int, n: int, d: Fallbacks)
    requires v.Valid()
  {
    && (forall e | s <= e < s + n :: Sends(ps, e))
    && (forall p | p in ps :: Carries(mean, v, p) && p.delivery == d && s <= p.start && p.start + p.count <= s + n)
  }

  lemma JoinRun(mean: Meaning, v: View, a: seq<Push>, b: seq<Push>, s: int, k: nat, n: int, d: Fallbacks)
    requires v.Valid() && k <= n && RunSent(mean, v, a, s, k, d) && RunSent(mean, v, b, s + k, n - k, d)
    ensures RunSent(mean, v, a + b, s, n, d)
  {
    hide Carries;
    forall e | s <= e < s + n ensures Sends(a + b, e) {
      if e < s + k {
        assert Sends(a, e);
        var p :| p in a && p.Has(e);
        assert p in a + b;
      } else {
        assert Sends(b, e);
        var p :| p in b && p.Has(e);
        assert p in a + b;
      }
    }
  }

  lemma OneSent(cb: Callbacks, mean: Meaning, sub: Entry, v: View, s: nat, n: nat, d: Fallbacks)
    requires Honest(cb, mean) && v.Valid() && v.Spans(s, n)
    ensures RunSent(mean, v, [OnePush(cb, sub, v, s, n, d)], s, n, d)
  {
    var p := OnePush(cb, sub, v, s, n, d);
    OneCarries(cb, mean, sub, v, s, n, d);
    hide Honest, OnePush, Carries;
    forall e | s <= e < s + n ensures Sends([p], e) { assert p in [p] && p.Has(e); }
  }

  lemma {:induction false} SlicesSent(cb: Callbacks, mean: Meaning, sub: Entry, v: View, s: nat, n: nat, chunk: nat,
                                      d: Fallbacks)
    requires Honest(cb, mean) && v.Valid() && v.Spans(s, n) && chunk > 0
    ensures RunSent(mean, v, Slices(cb, sub, v, s, n, chunk, d), s, n, d)
    decreases n
  {
    if n > 0 {
      var k := if n < chunk then n else chunk;
      assert v.Spans(s, k) && v.Spans(s + k, n - k);
      assert Slices(cb, sub, v, s, n, chunk, d)
          == [OnePush(cb, sub, v, s, k, d)] + Slices(cb, sub, v, s + k, n - k, chunk, d);
      hide *;
      OneSent(cb, mean, sub, v, s, k, d);
      SlicesSent(cb, mean, sub, v, s + k, n - k, chunk, d);
      JoinRun(mean, v, [OnePush(cb, sub, v, s, k, d)], Slices(cb, sub, v, s + k, n - k, chunk, d), s, k, n, d);
    }
  }

  /** Chunk slices partition a run into as many pieces as chunks fit it, the
      last one short if they do not fit evenly. */
  lemma {:induction false} SlicesCount(cb: Callbacks, sub: Entry, v: View, s: nat, n: nat, chunk: nat, d: Fallbacks)
    requires v.Valid() && v.Spans(s, n) && chunk > 0
    ensures |Slices(cb, sub, v, s, n, chunk, d)| == (n + chunk - 1) / chunk
    ensures forall i | 0 <= i < |Slices(cb, sub, v, s, n, chunk, d)| ::
      var p := Slices(cb, sub, v, s, n, chunk, d)[i];
      p.start == s + i * chunk && p.count == (if n - i * chunk < chunk then n - i * chunk else chunk)
    decreases n
  {
    if n > 0 {
      var k := if n < chunk then n else chunk;
      var rest := Slices(cb, sub, v, s + k, n - k, chunk, d);
      var all := Slices(cb, sub, v, s, n, chunk, d);
      assert all == [OnePush(cb, sub, v, s, k, d)] + rest;
      OneLabel(cb, sub, v, s, k, d);
      hide OnePush, Slices;
      SlicesCount(cb, sub, v, s + k, n - k, chunk, d);
      CeilStep(n, chunk);
      forall i | 0 <= i < |all|
        ensures all[i].start == s + i * chunk
        ensures all[i].count == if n - i * chunk < chunk then n - i * chunk else chunk
      {
        if i > 0 {
          assert all[i] == rest[i - 1];
          assert (i - 1) * chunk == i * chunk - chunk;
        }
      }
    } else {
      DivRem(chunk - 1, 0, chunk, chunk - 1);
    }
  }

  lemma CeilStep(n: nat, chunk: nat)
    requires n > 0 && chunk > 0
    ensures (n + chunk - 1) / chunk == 1 + ((if n < chunk then 0 else n - chunk) + chunk - 1) / chunk
  {
    var m := n + chunk - 1;
    if n < chunk {
      DivRem(m, 1, chunk, n - 1);
      DivRem(chunk - 1, 0, chunk, chunk - 1);
    } else {
      DivRem(m, 1 + (m - chunk) / chunk, chunk, (m - chunk) % chunk);
    }
  }

  lemma RunIsSent(cb: Callbacks, mean: Meaning, sub: Entry, v: View, s: nat, n: nat, d: Fallbacks)
    requires Honest(cb, mean) && v.Valid() && v.Spans(s, n)
    ensures RunSent(mean, v, RunPushes(cb, sub, v, s, n, d), s, n, d)
  {
    var chunk := ChunkOf(cb, sub, v, n);
    if 0 < chunk < n {
      SlicesSent(cb, mean, sub, v, s, n, chunk, d);
    } else {
      OneSent(cb, mean, sub, v, s, n, d);
    }
  }

  /** The pushes of some runs send exactly the elements of those runs. */
  ghost predicate RunsSent(mean: Meaning, v: View, ps: seq<Push>, s: int, runs: seq<Run>, d: Fallbacks)
    requires v.Valid()
  {
    && (forall i | InRuns(runs, i) :: Sends(ps, s + i))
    && (forall p | p in ps :: Carries(mean, v, p) && p.delivery == d)
    && (forall p: Push, e: int | p in ps && p.Has(e) :: InRuns(runs, e - s))
  }

  lemma InRunsSplit(runs: seq<Run>, i: int)
    requires runs != []
    ensures InRuns(runs, i) <==> runs[0].Has(i) || InRuns(runs[1..], i)
  {
  }

  lemma JoinRuns(mean: Meaning, v: View, head: seq<Push>, rest: seq<Push>, s: nat, runs: seq<Run>, d: Fallbacks)
    requires v.Valid() && runs != []
    requires RunSent(mean, v, head, s + runs[0].start, runs[0].count, d) && RunsSent(mean, v, rest, s, runs[1..], d)
    ensures RunsSent(mean, v, head + rest, s, runs, d)
  {
    hide Carries, InRuns;
    forall i | InRuns(runs, i) ensures Sends(head + rest, s + i) {
      InRunsSplit(runs, i);
      if runs[0].Has(i) {
        assert Sends(head, s + i);
        var p :| p in head && p.Has(s + i);
        assert p in head + rest;
      } else {
        var p :| p in rest && p.Has(s + i);
        assert p in head + rest;
      }
    }
    forall p: Push, e: int | p in head + rest && p.Has(e) ensures InRuns(runs, e - s) {
      InRunsSplit(runs, e - s);
      if p in head {
        assert runs[0].Has(e - s);
      }
    }
  }

  lemma {:induction false} PredicateSent(cb: Callbacks, mean: Meaning, sub: Entry, v: View, s: nat, runs: seq<Run>,
                                         d: Fallbacks)
    requires Honest(cb, mean) && v.Valid() && AllSpanned(v, s, runs)
    ensures RunsSent(mean, v, PredicatePushes(cb, sub, v, s, runs, d), s, runs, d)
  {
    if runs != [] {
      hide Honest, RunPushes, RunSent, RunsSent;
      RunIsSent(cb, mean, sub, v, s + runs[0].start, runs[0].count, d);
      PredicateSent(cb, mean, sub, v, s, runs[1..], d);
      JoinRuns(mean, v, RunPushes(cb, sub, v, s + runs[0].start, runs[0].count, d),
               PredicatePushes(cb, sub, v, s, runs[1..], d), s, runs, d);
    }
  }

  lemma SliceElement(v: View, s: nat, n: nat, i: nat)
    requires v.Valid() && v.Spans(s, n) && i < n
    ensures (i + 1) * v.elemSize <= |v.Slice(s, n)|
    ensures Element(v.Slice(s, n), v.elemSize, i) == v.Slice(s + i, 1)
  {
    var es := v.elemSize;
    MulMonotone(i + 1, n, es);
    Scale(i, 1, es);
    Scale(s - v.base, i, es);
    Scale(s - v.base, n, es);
    Scale(s - v.base + i, 1, es);
    SubSlice(v.buf, (s - v.base) * es, n * es, i * es, es);
    MulMonotone(s - v.base + n, v.count, es);
  }

  lemma Scale(a: int, b: int, es: int)
    ensures (a + b) * es == a * es + b * es
  {
  }

  lemma SubSlice(buf: Bytes, at: int, len: int, from: int, k: int)
    requires 0 <= at && 0 <= from && 0 <= k && from + k <= len && at + len <= |buf|
    ensures buf[at..at + len][from..from + k] == buf[at + from..at + from + k]
  {
    var a, b := buf[at..at + len][from..from + k], buf[at + from..at + from + k];
    assert |a| == |b| && forall t | 0 <= t < k :: a[t] == b[t];
  }

  /** What the predicate runs of [s, s + n) say about each element in it. */
  lemma PredicateRunsExact(cb: Callbacks, mean: Meaning, sub: Entry, v: View, s: nat, n: nat, i: nat)
    requires Honest(cb, mean) && v.Valid() && v.Spans(s, n) && i < n
    ensures var (runs, fallback) := PredicateRuns(cb, sub, v, s, n);
      && fallback <= PREDICATE
      && (Holds(mean, sub, v, s + i) ==> InRuns(runs, i))
      && (InRuns(runs, i) && fallback == {} ==> Holds(mean, sub, v, s + i))
  {
    SliceElement(v, s, n, i);
    var (runs, fallback) := PredicateRuns(cb, sub, v, s, n);
    if runs == [Run(0, n)] {
      assert Run(0, n) in runs && Run(0, n).Has(i);
    }
    if sub.pred != [] && cb.predicateOf.Some? {
      var out := cb.predicateOf.value(v.Slice(s, n), v.elemSize, n, sub.pred, v.typ);
      if out.Some? {
        assert PredicateExact(mean, v.Slice(s, n), v.elemSize, n, sub.pred, v.typ, out.value);
      }
    }
  }

  /** What the pushes of a subscriber's selection runs send, and what they say. */
  ghost predicate SelectionSent(mean: Meaning, sub: Entry, v: View, ps: seq<Push>, s: int, runs: seq<Run>, d: Fallbacks)
    requires v.Valid()
  {
    && (forall i | InRuns(runs, i) && Holds(mean, sub, v, s + i) :: Sends(ps, s + i))
    && (forall p | p in ps :: Carries(mean, v, p) && d <= p.delivery <= d + PREDICATE)
    && (forall p: Push, e: int | p in ps && p.Has(e) ::
          InRuns(runs, e - s) && (p.delivery * PREDICATE == {} ==> Holds(mean, sub, v, e)))
  }

  /** One selection run, cut by the predicate. */
  lemma OneSelectionSent(cb: Callbacks, mean: Meaning, sub: Entry, v: View, s: nat, r: Run, d: Fallbacks)
    requires Honest(cb, mean) && v.Valid() && v.Spans(s + r.start, r.count) && r.count > 0 && d * PREDICATE == {}
    requires AllSpanned(v, s + r.start, PredicateRuns(cb, sub, v, s + r.start, r.count).0)
    ensures var (hits, fallback) := PredicateRuns(cb, sub, v, s + r.start, r.count);
      SelectionSent(mean, sub, v, PredicatePushes(cb, sub, v, s + r.start, hits, d + fallback), s, [r], d)
  {
    hide Honest, PredicateRuns, PredicatePushes, Within, Holds, Carries, InRuns;
    var start := s + r.start;
    var (hits, fallback) := PredicateRuns(cb, sub, v, start, r.count);
    var ps := PredicatePushes(cb, sub, v, start, hits, d + fallback);
    PredicateRunsWithin(cb, mean, sub, v, start, r.count);
    WithinPositive(hits, 0, r.count);
    PredicateSent(cb, mean, sub, v, start, hits, d + fallback);
    forall i: nat | i < r.count
      ensures Holds(mean, sub, v, start + i) ==> InRuns(hits, i)
      ensures InRuns(hits, i) && fallback == {} ==> Holds(mean, sub, v, start + i)
    {
      PredicateRunsExact(cb, mean, sub, v, start, r.count, i);
    }
    PredicateRunsExact(cb, mean, sub, v, start, r.count, 0);
    hide RunsSent, SelectionSent;
    HitsSent(mean, sub, v, ps, s, r, hits, fallback, d);
  }

  lemma PredicatePart(d: Fallbacks, fallback: Fallbacks)
    requires d * PREDICATE == {} && fallback <= PREDICATE
    ensures (d + fallback) * PREDICATE == fallback
  {
    assert (d + fallback) * PREDICATE == d * PREDICATE + fallback * PREDICATE;
  }

  lemma HitsSent(mean: Meaning, sub: Entry, v: View, ps: seq<Push>, s: nat, r: Run, hits: seq<Run>,
                 fallback: Fallbacks, d: Fallbacks)
    requires v.Valid() && d * PREDICATE == {} && fallback <= PREDICATE
    requires RunsSent(mean, v, ps, s + r.start, hits, d + fallback)
    requires forall x | x in hits :: x.start + x.count <= r.count
    requires forall i: nat | i < r.count :: Holds(mean, sub, v, s + r.start + i) ==> InRuns(hits, i)
    requires forall i: nat | i < r.count :: InRuns(hits, i) && fallback == {} ==> Holds(mean, sub, v, s + r.start + i)
    ensures SelectionSent(mean, sub, v, ps, s, [r], d)
  {
    hide Carries, Holds;
    PredicatePart(d, fallback);
    forall i | InRuns([r], i) && Holds(mean, sub, v, s + i) ensures Sends(ps, s + i) {
      InRunsOne(r, i);
      assert s + r.start + (i - r.start) == s + i;
      assert InRuns(hits, i - r.start);
    }
    forall p: Push, e: int | p in ps && p.Has(e)
      ensures InRuns([r], e - s) && (p.delivery * PREDICATE == {} ==> Holds(mean, sub, v, e))
    {
      InRunsOne(r, e - s);
      var i := e - (s + r.start);
      assert InRuns(hits, i) && s + r.start + i == e;
    }
  }

  lemma {:induction false} SelectionIsSent(cb: Callbacks, mean: Meaning, sub: Entry, v: View, s: nat, runs: seq<Run>,
                                           d: Fallbacks)
    requires Honest(cb, mean) && v.Valid() && AllSpanned(v, s, runs) && d * PREDICATE == {}
    requires forall r | r in runs :: r.count > 0
    ensures SelectionSent(mean, sub, v, SelectionPushes(cb, mean, sub, v, s, runs, d), s, runs, d)
  {
    if runs != [] {
      var r := runs[0];
      var (hits, fallback) := PredicateRuns(cb, sub, v, s + r.start, r.count);
      SelectionUnfold(cb, mean, sub, v, s, runs, d);
      hide Honest, PredicatePushes, PredicateRuns, SelectionPushes, SelectionSent;
      OneSelectionSent(cb, mean, sub, v, s, r, d);
      SelectionIsSent(cb, mean, sub, v, s, runs[1..], d);
      JoinSent(mean, sub, v, PredicatePushes(cb, sub, v, s + r.start, hits, d + fallback),
               SelectionPushes(cb, mean, sub, v, s, runs[1..], d), s, runs, d);
    }
  }

  lemma JoinSent(mean: Meaning, sub: Entry, v: View, head: seq<Push>, rest: seq<Push>, s: nat, runs: seq<Run>,
                 d: Fallbacks)
    requires v.Valid() && runs != []
    requires SelectionSent(mean, sub, v, head, s, [runs[0]], d) && SelectionSent(mean, sub, v, rest, s, runs[1..], d)
    ensures SelectionSent(mean, sub, v, head + rest, s, runs, d)
  {
    hide Carries, Holds, InRuns;
    forall i | InRuns(runs, i) && Holds(mean, sub, v, s + i) ensures Sends(head + rest, s + i) {
      InRunsSplit(runs, i);
      InRunsOne(runs[0], i);
      var p :| (p in head || p in rest) && p.Has(s + i);
      assert p in head + rest;
    }
    forall p: Push, e: int | p in head + rest && p.Has(e)
      ensures InRuns(runs, e - s) && (p.delivery * PREDICATE == {} ==> Holds(mean, sub, v, e))
    {
      InRunsSplit(runs, e - s);
      InRunsOne(runs[0], e - s);
    }
  }

  lemma InRunsOne(r: Run, i: int)
    ensures InRuns([r], i) <==> r.Has(i)
  {
  }

  /** e is what the subscription asks of this write: in the routed range, in the
      selection, and satisfying the predicate in the form it would be sent. */
  ghost predicate Wanted(mean: Meaning, sub: Entry, v: View, ov: Run, e: int)
    requires v.Valid()
  {
    ov.Has(e) && Selected(mean, sub, e) && Holds(mean, sub, v, e)
  }

  lemma SelectionRunsExact(cb: Callbacks, mean: Meaning, w: Write, sub: Entry, ov: Run, i: nat)
    requires Honest(cb, mean) && i < ov.count
    ensures var (runs, span) := SelectionRuns(cb, w, sub, ov);
      && (span == {} || span == {SelectionSpan})
      && (Selected(mean, sub, ov.start + i) ==> InRuns(runs, i))
      && (InRuns(runs, i) && span == {} ==> Selected(mean, sub, ov.start + i))
  {
    var (runs, span) := SelectionRuns(cb, w, sub, ov);
    if runs == [Run(0, ov.count)] {
      assert Run(0, ov.count) in runs && Run(0, ov.count).Has(i);
    }
    if sub.space != [] && cb.selection.Some? && cb.selection.value(sub.space, w.space, ov.start, ov.count).Some? {
      assert SelectionExact(mean, sub.space, ov.start, ov.count,
                            cb.selection.value(sub.space, w.space, ov.start, ov.count).value);
    }
  }

  /** Each element of the view is that element of the write, cast if the
      subscriber's type was granted. */
  ghost predicate Represents(mean: Meaning, w: Write, sub: Entry, v: View, e: nat)
    requires w.Valid() && v.Valid() && NativeView(w).Spans(e, 1) && v.Spans(e, 1)
  {
    v.Slice(e, 1) == if v.converted then mean.cast(NativeView(w).Slice(e, 1), w.typ, sub.wantType)
                     else NativeView(w).Slice(e, 1)
  }

  lemma ViewRepresents(cb: Callbacks, mean: Meaning, w: Write, sub: Entry, ov: Run, i: nat)
    requires Honest(cb, mean) && w.Valid() && NativeView(w).Spans(ov.start, ov.count) && i < ov.count
    ensures var v := ViewOf(cb, w, sub, ov);
      v.Valid() && v.Spans(ov.start + i, 1) && Represents(mean, w, sub, v, ov.start + i)
  {
    ViewSpans(cb, mean, w, sub, ov);
    var v := ViewOf(cb, w, sub, ov);
    ViewIsOverlap(cb, w, sub, ov);
    hide Honest, ViewOf;
    if v.converted {
      ConvertedElement(mean, w, sub, ov, v, i);
    }
  }

  lemma ViewIsOverlap(cb: Callbacks, w: Write, sub: Entry, ov: Run)
    requires w.Valid() && NativeView(w).Spans(ov.start, ov.count)
    ensures var v := ViewOf(cb, w, sub, ov);
      if v.converted then v.base == ov.start && v.count == ov.count else v == NativeView(w)
  {
  }

  lemma ConvertedElement(mean: Meaning, w: Write, sub: Entry, ov: Run, v: View, i: nat)
    requires w.Valid() && NativeView(w).Spans(ov.start, ov.count) && i < ov.count
    requires v.Valid() && v.converted && v.base == ov.start && v.count == ov.count
    requires ConvertExact(mean, NativeView(w).Slice(ov.start, ov.count), w.elemSize, ov.count, w.typ, sub.wantType,
                          Converted(v.buf, v.elemSize))
    ensures Represents(mean, w, sub, v, ov.start + i)
  {
    var raw := NativeView(w).Slice(ov.start, ov.count);
    SliceElement(NativeView(w), ov.start, ov.count, i);
    SliceElement(v, ov.start, ov.count, i);
    hide Element;
    assert v.Slice(ov.start, ov.count) == v.buf;
    assert Element(v.buf, v.elemSize, i) == mean.cast(Element(raw, w.elemSize, i), w.typ, sub.wantType);
  }

  /** The label of a push is honest for element e: a missing bit is a promise. */
  ghost predicate Honoured(mean: Meaning, sub: Entry, v: View, p: Push, e: int)
    requires v.Valid()
  {
    && (SelectionSpan !in p.delivery ==> Selected(mean, sub, e))
    && (p.delivery * PREDICATE == {} ==> Holds(mean, sub, v, e))
    && (TypeNative !in p.delivery ==> sub.wantType == [] || v.converted)
  }

  /** Narrowing is sound and honestly labelled. What one write sends one
      subscriber ascends, disjoint, inside the routed range; every element the
      subscription asks for is sent; every push carries exactly the elements it
      is labelled with, native or converted, raw or through the pipeline; and an
      element the subscription did not ask for travels only under a delivery bit
      that says which narrowing fell back. */
  lemma PlanIsSound(cb: Callbacks, mean: Meaning, w: Write, sub: Entry)
    requires Honest(cb, mean) && w.Valid()
    requires OverlapOf(w, sub).count > 0
    ensures var ov, ps := OverlapOf(w, sub), Plan(cb, mean, w, sub);
      NativeView(w).Spans(ov.start, ov.count) && Tiles(ps, ov.start, ov.start + ov.count)
    ensures var ov, ps := OverlapOf(w, sub), Plan(cb, mean, w, sub);
      var v := ViewOf(cb, w, sub, ov);
      && v.Valid()
      && (forall e | Wanted(mean, sub, v, ov, e) :: Sends(ps, e))
      && (forall p | p in ps :: Carries(mean, v, p))
      && (forall p: Push, e: int | p in ps && p.Has(e) :: ov.Has(e) && Honoured(mean, sub, v, p, e))
  {
    var ov := OverlapOf(w, sub);
    PlanUnfold(cb, mean, w, sub);
    var (runs, span) := SelectionRuns(cb, w, sub, ov);
    var v := ViewOf(cb, w, sub, ov);
    var d := span + TypeFallback(sub, v);
    var ps := Plan(cb, mean, w, sub);
    SelectionRunsExact(cb, mean, w, sub, ov, 0);
    hide Plan, ViewOf, OverlapOf, PredicateRuns, SelectionPushes, AllSpanned;
    SelectionTiles(cb, mean, sub, v, ov.start, ov.count, runs, 0, d);
    SelectionIsSent(cb, mean, sub, v, ov.start, runs, d);
    forall i: nat | i < ov.count
      ensures Selected(mean, sub, ov.start + i) ==> InRuns(runs, i)
      ensures InRuns(runs, i) && span == {} ==> Selected(mean, sub, ov.start + i)
    {
      SelectionRunsExact(cb, mean, w, sub, ov, i);
    }
    hide Honest, SelectionRuns, Within, Tiles;
    SoundFromRuns(mean, sub, v, ov, ps, runs, span);
  }

  lemma PlanUnfold(cb: Callbacks, mean: Meaning, w: Write, sub: Entry)
    requires Honest(cb, mean) && w.Valid()
    requires OverlapOf(w, sub).count > 0
    ensures var ov := OverlapOf(w, sub);
      && NativeView(w).Spans(ov.start, ov.count)
      && var (runs, span) := SelectionRuns(cb, w, sub, ov);
      var v := ViewOf(cb, w, sub, ov);
      && v.Valid() && v.Spans(ov.start, ov.count) && Within(runs, 0, ov.count) && AllSpanned(v, ov.start, runs)
      && (forall r | r in runs :: r.count > 0 && r.start + r.count <= ov.count)
      && Plan(cb, mean, w, sub)
         == SelectionPushes(cb, mean, sub, v, ov.start, runs, span + TypeFallback(sub, v))
  {
    var ov := OverlapOf(w, sub);
    OverlapSpans(w, sub);
    ViewSpans(cb, mean, w, sub, ov);
    SelectionRunsWithin(cb, mean, w, sub, ov);
    var runs := SelectionRuns(cb, w, sub, ov).0;
    WithinSpans(ViewOf(cb, w, sub, ov), ov.start, ov.count, runs, 0);
    WithinPositive(runs, 0, ov.count);
  }

  lemma SoundFromRuns(mean: Meaning, sub: Entry, v: View, ov: Run, ps: seq<Push>, runs: seq<Run>, span: Fallbacks)
    requires v.Valid() && (span == {} || span == {SelectionSpan})
    requires forall r | r in runs :: r.start + r.count <= ov.count
    requires forall i: nat | i < ov.count :: Selected(mean, sub, ov.start + i) ==> InRuns(runs, i)
    requires forall i: nat | i < ov.count :: InRuns(runs, i) && span == {} ==> Selected(mean, sub, ov.start + i)
    requires SelectionSent(mean, sub, v, ps, ov.start, runs, span + TypeFallback(sub, v))
    ensures forall e | Wanted(mean, sub, v, ov, e) :: Sends(ps, e)
    ensures forall p: Push, e: int | p in ps && p.Has(e) :: ov.Has(e) && Honoured(mean, sub, v, p, e)
  {
    hide Carries, Holds, Selected;
    forall e | Wanted(mean, sub, v, ov, e) ensures Sends(ps, e) {
      assert InRuns(runs, e - ov.start);
      assert ov.start + (e - ov.start) == e;
    }
    forall p: Push, e: int | p in ps && p.Has(e) ensures ov.Has(e) && Honoured(mean, sub, v, p, e) {
      assert InRuns(runs, e - ov.start);
      assert ov.start + (e - ov.start) == e;
    }
  }

  /** With no delivery bit on any push, exactly what was asked for is sent. */
  lemma ExactWithoutBits(cb: Callbacks, mean: Meaning, w: Write, sub: Entry, e: int)
    requires Honest(cb, mean) && w.Valid()
    requires OverlapOf(w, sub).count > 0
    requires forall p | p in Plan(cb, mean, w, sub) :: p.delivery == {}
    ensures ViewOf(cb, w, sub, OverlapOf(w, sub)).Valid()
    ensures Sends(Plan(cb, mean, w, sub), e)
       <==> Wanted(mean, sub, ViewOf(cb, w, sub, OverlapOf(w, sub)), OverlapOf(w, sub), e)
  {
    PlanIsSound(cb, mean, w, sub);
    hide Plan, ViewOf, Holds, Selected;
    if Sends(Plan(cb, mean, w, sub), e) {
      var p :| p in Plan(cb, mean, w, sub) && p.Has(e);
      assert Honoured(mean, sub, ViewOf(cb, w, sub, OverlapOf(w, sub)), p, e);
    }
  }

  // ----- What is sent, push by push -----

  ghost predicate SelectionDeclined(cb: Callbacks, w: Write, sub: Entry, ov: Run) {
    cb.selection == None || cb.selection.value(sub.space, w.space, ov.start, ov.count) == None
  }

  ghost predicate ConversionDeclined(cb: Callbacks, w: Write, sub: Entry, ov: Run)
    requires w.Valid() && NativeView(w).Spans(ov.start, ov.count)
  {
    cb.convert == None ||
    var out := cb.convert.value(NativeView(w).Slice(ov.start, ov.count), ov.count, w.typ, sub.wantType);
    out == None || out.value.elemSize == 0
  }

  /** The predicate was not evaluated on elements [s, s + n). */
  ghost predicate PredicateDeclined(cb: Callbacks, sub: Entry, v: View, s: nat, n: nat)
    requires v.Valid() && v.Spans(s, n)
  {
    cb.predicateOf == None || cb.predicateOf.value(v.Slice(s, n), v.elemSize, n, sub.pred, v.typ) == None
  }

  /** A run of the selection's own, or the whole overlap where there is no selection
      or the callback declines it. */
  ghost predicate IsSelectionRun(cb: Callbacks, w: Write, sub: Entry, ov: Run, r: Run) {
    if sub.space == [] || SelectionDeclined(cb, w, sub, ov) then r == Run(0, ov.count)
    else r in cb.selection.value(sub.space, w.space, ov.start, ov.count).value
  }

  /** A run of the predicate's answer for [s, s + n), or all of it where there is no
      predicate or the callback declines it. */
  ghost predicate IsPredicateRun(cb: Callbacks, sub: Entry, v: View, s: nat, n: nat, h: Run)
    requires v.Valid() && v.Spans(s, n)
  {
    if sub.pred == [] || PredicateDeclined(cb, sub, v, s, n) then h == Run(0, n)
    else h in cb.predicateOf.value(v.Slice(s, n), v.elemSize, n, sub.pred, v.typ).value.runs
  }

  /** Of [s, s + n), the part p is labelled with: a slice, if the pipeline's shape asks
      for slices shorter than that, and else all of it. */
  ghost predicate IsPiece(cb: Callbacks, sub: Entry, v: View, s: nat, n: nat, p: Push) {
    if sub.dcpl != [] && cb.shape.Some? && 0 < cb.shape.value(sub.dcpl, n, v.elemSize) < n then
      var chunk := cb.shape.value(sub.dcpl, n, v.elemSize);
      SomeSlice(s, n, chunk, p)
    else p.start == s && p.count == n
  }

  ghost predicate IsSlice(s: nat, n: nat, chunk: nat, k: nat, p: Push) {
    p.start == s + k * chunk && p.count == Min(chunk, n - k * chunk)
  }

  /** The payload is what the pipeline makes of the labelled elements, if it takes
      them, and else those elements as they are. */
  ghost predicate IsFilled(cb: Callbacks, sub: Entry, v: View, p: Push)
    requires v.Valid() && v.Spans(p.start, p.count)
  {
    var raw := v.Slice(p.start, p.count);
    var out := if sub.dcpl == [] || cb.refilter == None then None
               else cb.refilter.value(raw, v.elemSize, p.count, sub.dcpl, v.typ, !v.converted);
    p.typ == v.typ
    && if out.Some? then p.dcpl == sub.dcpl && p.payload == out.value else p.dcpl == [] && p.payload == raw
  }

  /** A bit is set exactly if the narrowing it names was asked for and not applied. */
  ghost predicate IsLabelled(cb: Callbacks, w: Write, sub: Entry, ov: Run, v: View, s: nat, n: nat, p: Push)
    requires w.Valid() && NativeView(w).Spans(ov.start, ov.count) && v.Valid() && v.Spans(s, n)
  {
    && (SelectionSpan in p.delivery <==> sub.space != [] && SelectionDeclined(cb, w, sub, ov))
    && (TypeNative in p.delivery <==> sub.wantType != [] && ConversionDeclined(cb, w, sub, ov))
    && (PredicateUnevaluated in p.delivery <==> sub.pred != [] && PredicateDeclined(cb, sub, v, s, n))
    && (PredicateSpan in p.delivery
        <==> sub.pred != [] && !PredicateDeclined(cb, sub, v, s, n)
             && cb.predicateOf.value(v.Slice(s, n), v.elemSize, n, sub.pred, v.typ).value.coalesced)
  }

  /** p is a piece of run h of the predicate's in run r of the selection's. */
  ghost predicate IsOwed(cb: Callbacks, w: Write, sub: Entry, ov: Run, v: View, r: Run, h: Run, p: Push)
    requires w.Valid() && NativeView(w).Spans(ov.start, ov.count) && v.Valid()
  {
    && IsSelectionRun(cb, w, sub, ov, r) && v.Spans(ov.start + r.start, r.count)
    && IsPredicateRun(cb, sub, v, ov.start + r.start, r.count, h)
    && v.Spans(ov.start + r.start + h.start, h.count)
    && IsPiece(cb, sub, v, ov.start + r.start + h.start, h.count, p)
    && v.Spans(p.start, p.count) && IsFilled(cb, sub, v, p)
    && IsLabelled(cb, w, sub, ov, v, ov.start + r.start, r.count, p)
  }

  lemma SliceOf(s: nat, n: nat, chunk: nat, k: nat, p: Push)
    requires chunk > 0 && k > 0 && chunk <= n
    ensures IsSlice(s, n, chunk, k, p) <==> IsSlice(s + chunk, n - chunk, chunk, k - 1, p)
    ensures k * chunk < n <==> (k - 1) * chunk < n - chunk
  {
    assert k * chunk == (k - 1) * chunk + chunk;
  }

  lemma OneIs(cb: Callbacks, sub: Entry, v: View, s: nat, n: nat, d: Fallbacks, p: Push)
    requires v.Valid() && v.Spans(s, n)
    ensures p == OnePush(cb, sub, v, s, n, d) <==> p.start == s && p.count == n && p.delivery == d && IsFilled(cb, sub, v, p)
  {
  }

  lemma {:induction false} SlicesAre(cb: Callbacks, sub: Entry, v: View, s: nat, n: nat, chunk: nat, d: Fallbacks,
                                     p: Push)
    requires v.Valid() && v.Spans(s, n) && chunk > 0
    ensures p in Slices(cb, sub, v, s, n, chunk, d)
       <==> SomeSlice(s, n, chunk, p) && v.Spans(p.start, p.count) && p.delivery == d && IsFilled(cb, sub, v, p)
    decreases n
  {
    if n > 0 {
      var k := Min(n, chunk);
      assert Slices(cb, sub, v, s, n, chunk, d)
          == [OnePush(cb, sub, v, s, k, d)] + Slices(cb, sub, v, s + k, n - k, chunk, d);
      OneIs(cb, sub, v, s, k, d, p);
      SlicesAre(cb, sub, v, s + k, n - k, chunk, d, p);
      hide *;
      SlicesFrom(s, n, chunk, p);
    }
  }

  ghost predicate SomeSlice(s: nat, n: nat, chunk: nat, p: Push) {
    exists k: nat :: k * chunk < n && IsSlice(s, n, chunk, k, p)
  }

  /** The first slice, or one of the rest. */
  lemma SlicesFrom(s: nat, n: nat, chunk: nat, p: Push)
    requires chunk > 0 && n > 0
    ensures var k := Min(n, chunk);
      SomeSlice(s, n, chunk, p) <==> (p.start == s && p.count == k) || SomeSlice(s + k, n - k, chunk, p)
  {
    var first := Min(n, chunk);
    if SomeSlice(s, n, chunk, p) {
      var k: nat :| k * chunk < n && IsSlice(s, n, chunk, k, p);
      if k > 0 {
        MulMonotone(1, k, chunk);
        SliceOf(s, n, chunk, k, p);
      }
    }
    if p.start == s && p.count == first {
      assert 0 * chunk < n && IsSlice(s, n, chunk, 0, p);
    }
    if SomeSlice(s + first, n - first, chunk, p) {
      var j: nat :| j * chunk < n - first && IsSlice(s + first, n - first, chunk, j, p);
      MulMonotone(0, j, chunk);
      SliceOf(s, n, chunk, j + 1, p);
      assert (j + 1) * chunk < n;
    }
  }

  lemma RunIs(cb: Callbacks, sub: Entry, v: View, s: nat, n: nat, d: Fallbacks, p: Push)
    requires v.Valid() && v.Spans(s, n)
    ensures p in RunPushes(cb, sub, v, s, n, d)
       <==> IsPiece(cb, sub, v, s, n, p) && v.Spans(p.start, p.count) && p.delivery == d && IsFilled(cb, sub, v, p)
  {
    var chunk := ChunkOf(cb, sub, v, n);
    hide OnePush, IsFilled;
    if 0 < chunk < n {
      SlicesAre(cb, sub, v, s, n, chunk, d, p);
    } else {
      OneIs(cb, sub, v, s, n, d, p);
    }
  }

  ghost predicate InRunPushes(cb: Callbacks, sub: Entry, v: View, s: nat, h: Run, d: Fallbacks, p: Push)
    requires v.Valid()
  {
    v.Spans(s + h.start, h.count) && p in RunPushes(cb, sub, v, s + h.start, h.count, d)
  }

  ghost predicate InSomeRun(cb: Callbacks, sub: Entry, v: View, s: nat, runs: seq<Run>, d: Fallbacks, p: Push)
    requires v.Valid()
  {
    exists h :: h in runs && InRunPushes(cb, sub, v, s, h, d, p)
  }

  lemma {:induction false} PredicateAre(cb: Callbacks, sub: Entry, v: View, s: nat, runs: seq<Run>, d: Fallbacks, p: Push)
    requires v.Valid() && AllSpanned(v, s, runs)
    ensures p in PredicatePushes(cb, sub, v, s, runs, d) <==> InSomeRun(cb, sub, v, s, runs, d, p)
  {
    hide RunPushes;
    if runs != [] {
      PredicateAre(cb, sub, v, s, runs[1..], d, p);
      assert v.Spans(s + runs[0].start, runs[0].count);
      assert forall h :: h in runs <==> h == runs[0] || h in runs[1..];
      assert p in PredicatePushes(cb, sub, v, s, runs, d)
        <==> InRunPushes(cb, sub, v, s, runs[0], d, p) || p in PredicatePushes(cb, sub, v, s, runs[1..], d);
      hide PredicatePushes, InRunPushes;
    }
  }

  /** p is sent for run r of the selection's. */
  ghost predicate IsSentForRun(cb: Callbacks, sub: Entry, v: View, s: nat, d: Fallbacks, r: Run, p: Push)
    requires v.Valid()
  {
    && v.Spans(s + r.start, r.count)
    && var (hits, fallback) := PredicateRuns(cb, sub, v, s + r.start, r.count);
    InSomeRun(cb, sub, v, s + r.start, hits, d + fallback, p)
  }

  lemma {:induction false} SelectionAre(cb: Callbacks, mean: Meaning, sub: Entry, v: View, s: nat, runs: seq<Run>,
                                        d: Fallbacks, p: Push)
    requires Honest(cb, mean) && v.Valid() && AllSpanned(v, s, runs)
    requires forall r | r in runs :: r.count > 0
    ensures p in SelectionPushes(cb, mean, sub, v, s, runs, d)
       <==> exists r | r in runs :: IsSentForRun(cb, sub, v, s, d, r, p)
  {
    hide Honest, PredicateRuns, PredicatePushes, Within, InSomeRun;
    if runs != [] {
      var r := runs[0];
      var (hits, fallback) := PredicateRuns(cb, sub, v, s + r.start, r.count);
      SelectionUnfold(cb, mean, sub, v, s, runs, d);
      hide SelectionPushes;
      SelectionAre(cb, mean, sub, v, s, runs[1..], d, p);
      PredicateAre(cb, sub, v, s + r.start, hits, d + fallback, p);
      FirstSpans(v, s, runs);
      assert p in PredicatePushes(cb, sub, v, s + r.start, hits, d + fallback) <==> IsSentForRun(cb, sub, v, s, d, r, p);
      hide IsSentForRun;
      assert forall x :: x in runs <==> x == r || x in runs[1..];
    }
  }

  lemma HitsAre(cb: Callbacks, sub: Entry, v: View, s: nat, n: nat, h: Run)
    requires v.Valid() && v.Spans(s, n)
    ensures var (hits, fallback) := PredicateRuns(cb, sub, v, s, n);
      && (h in hits <==> IsPredicateRun(cb, sub, v, s, n, h))
      && fallback <= PREDICATE
      && (PredicateUnevaluated in fallback <==> sub.pred != [] && PredicateDeclined(cb, sub, v, s, n))
      && (PredicateSpan in fallback
          <==> sub.pred != [] && !PredicateDeclined(cb, sub, v, s, n)
               && cb.predicateOf.value(v.Slice(s, n), v.elemSize, n, sub.pred, v.typ).value.coalesced)
  {
    hide View.Slice;
  }

  lemma SelectionsAre(cb: Callbacks, w: Write, sub: Entry, ov: Run, r: Run)
    ensures var (runs, span) := SelectionRuns(cb, w, sub, ov);
      && (r in runs <==> IsSelectionRun(cb, w, sub, ov, r))
      && (span == if sub.space != [] && SelectionDeclined(cb, w, sub, ov) then {SelectionSpan} else {})
  {
  }

  /** A subscriber's view of the data is what the conversion makes of the overlap, if
      a type was asked for and granted, and else the write as it is. */
  lemma ViewIs(cb: Callbacks, w: Write, sub: Entry, ov: Run)
    requires w.Valid() && NativeView(w).Spans(ov.start, ov.count)
    ensures var v := ViewOf(cb, w, sub, ov);
      if sub.wantType == [] || ConversionDeclined(cb, w, sub, ov) then v == View(w.buf, w.start, w.count, w.elemSize, w.typ, false)
      else
        var c := cb.convert.value(NativeView(w).Slice(ov.start, ov.count), ov.count, w.typ, sub.wantType).value;
        v == View(c.buf, ov.start, ov.count, c.elemSize, sub.wantType, true)
  {
    hide View.Slice;
  }

  lemma LabelsMatch(cb: Callbacks, w: Write, sub: Entry, ov: Run, v: View, s: nat, n: nat, span: Fallbacks,
                    fallback: Fallbacks, p: Push)
    requires w.Valid() && NativeView(w).Spans(ov.start, ov.count) && v.Valid() && v.Spans(s, n)
    requires v.converted <==> sub.wantType != [] && !ConversionDeclined(cb, w, sub, ov)
    requires span == if sub.space != [] && SelectionDeclined(cb, w, sub, ov) then {SelectionSpan} else {}
    requires fallback == PredicateRuns(cb, sub, v, s, n).1
    ensures p.delivery == span + TypeFallback(sub, v) + fallback <==> IsLabelled(cb, w, sub, ov, v, s, n, p)
  {
    HitsAre(cb, sub, v, s, n, Run(0, 0));
    hide View.Slice, PredicateRuns, SelectionDeclined, ConversionDeclined, PredicateDeclined;
    if IsLabelled(cb, w, sub, ov, v, s, n, p) {
      forall b: Fallback ensures b in p.delivery <==> b in span + TypeFallback(sub, v) + fallback {
        match b
        case SelectionSpan =>
        case TypeNative =>
        case PredicateUnevaluated =>
        case PredicateSpan =>
      }
    }
  }

  /** The plan, push by push. A push is in it exactly if it is a piece of a run of the
      predicate's answer in a run of the selection's -- of all there is wherever the
      subscription does not narrow or the callback declines, and only there; holds
      what the pipeline makes of it, if it takes it; and has exactly the bits of the
      narrowings asked for and not applied. With the order PlanIsSound states, this
      leaves one plan. */
  lemma PlanIsExactly(cb: Callbacks, mean: Meaning, w: Write, sub: Entry, p: Push)
    requires Honest(cb, mean) && w.Valid() && OverlapOf(w, sub).count > 0
    ensures var ov := OverlapOf(w, sub);
      var v := ViewOf(cb, w, sub, ov);
      && NativeView(w).Spans(ov.start, ov.count) && v.Valid()
      && (p in Plan(cb, mean, w, sub) <==> exists r :: IsOwedFor(cb, w, sub, ov, v, r, p))
  {
    var ov := OverlapOf(w, sub);
    PlanUnfold(cb, mean, w, sub);
    ViewIs(cb, w, sub, ov);
    var (runs, span) := SelectionRuns(cb, w, sub, ov);
    var v := ViewOf(cb, w, sub, ov);
    var d := span + TypeFallback(sub, v);
    SelectionsAre(cb, w, sub, ov, Run(0, 0));
    hide *;
    SelectionAre(cb, mean, sub, v, ov.start, runs, d, p);
    forall r ensures r in runs && IsSentForRun(cb, sub, v, ov.start, d, r, p) <==> IsOwedFor(cb, w, sub, ov, v, r, p) {
      OwedForIs(cb, w, sub, ov, v, r, p);
    }
  }

  ghost predicate IsOwedFor(cb: Callbacks, w: Write, sub: Entry, ov: Run, v: View, r: Run, p: Push)
    requires w.Valid() && NativeView(w).Spans(ov.start, ov.count) && v.Valid()
  {
    exists h :: IsOwed(cb, w, sub, ov, v, r, h, p)
  }

  lemma OwedForIs(cb: Callbacks, w: Write, sub: Entry, ov: Run, v: View, r: Run, p: Push)
    requires w.Valid() && NativeView(w).Spans(ov.start, ov.count) && v.Valid()
    requires v.converted <==> sub.wantType != [] && !ConversionDeclined(cb, w, sub, ov)
    ensures var (runs, span) := SelectionRuns(cb, w, sub, ov);
      r in runs && IsSentForRun(cb, sub, v, ov.start, span + TypeFallback(sub, v), r, p)
      <==> IsOwedFor(cb, w, sub, ov, v, r, p)
  {
    var (runs, span) := SelectionRuns(cb, w, sub, ov);
    var start, d := ov.start + r.start, span + TypeFallback(sub, v);
    SelectionsAre(cb, w, sub, ov, r);
    if r in runs && v.Spans(start, r.count) {
      var (hits, fallback) := PredicateRuns(cb, sub, v, start, r.count);
      forall h
        ensures h in hits && InRunPushes(cb, sub, v, start, h, d + fallback, p) <==> IsOwed(cb, w, sub, ov, v, r, h, p)
      {
        OwedIs(cb, w, sub, ov, v, r, h, p);
      }
      hide IsOwed, InRunPushes, SelectionRuns, TypeFallback, ConversionDeclined, PredicateRuns;
    }
  }

  lemma OwedIs(cb: Callbacks, w: Write, sub: Entry, ov: Run, v: View, r: Run, h: Run, p: Push)
    requires w.Valid() && NativeView(w).Spans(ov.start, ov.count) && v.Valid() && v.Spans(ov.start + r.start, r.count)
    requires v.converted <==> sub.wantType != [] && !ConversionDeclined(cb, w, sub, ov)
    requires r in SelectionRuns(cb, w, sub, ov).0
    ensures var d := SelectionRuns(cb, w, sub, ov).1 + TypeFallback(sub, v);
      var (hits, fallback) := PredicateRuns(cb, sub, v, ov.start + r.start, r.count);
      h in hits && InRunPushes(cb, sub, v, ov.start + r.start, h, d + fallback, p) <==> IsOwed(cb, w, sub, ov, v, r, h, p)
  {
    SelectionsAre(cb, w, sub, ov, r);
    var (hits, fallback) := PredicateRuns(cb, sub, v, ov.start + r.start, r.count);
    HitsAre(cb, sub, v, ov.start + r.start, r.count, h);
    hide SelectionDeclined, ConversionDeclined, PredicateRuns, IsSelectionRun, IsPredicateRun, IsLabelled, IsPiece,
      IsFilled, View.Slice;
    var span := SelectionRuns(cb, w, sub, ov).1;
    hide SelectionRuns;
    LabelsMatch(cb, w, sub, ov, v, ov.start + r.start, r.count, span, fallback, p);
    hide TypeFallback;
    InRunIs(cb, sub, v, ov.start + r.start, h, span + TypeFallback(sub, v) + fallback, p);
    hide InRunPushes;
  }

  lemma InRunIs(cb: Callbacks, sub: Entry, v: View, s: nat, h: Run, d: Fallbacks, p: Push)
    requires v.Valid()
    ensures InRunPushes(cb, sub, v, s, h, d, p)
       <==> v.Spans(s + h.start, h.count) && IsPiece(cb, sub, v, s + h.start, h.count, p)
            && v.Spans(p.start, p.count) && p.delivery == d && IsFilled(cb, sub, v, p)
  {
    if v.Spans(s + h.start, h.count) { RunIs(cb, sub, v, s + h.start, h.count, d, p); }
    hide RunPushes, IsPiece, IsFilled, View.Spans;
  }
}
