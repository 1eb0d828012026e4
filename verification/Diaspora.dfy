/** The second transport: one log of events for every reader, narrowed by a
    selector that sees only metadata, and split again by the reader. */
module Diaspora {
  import opened Delivery
  import opened Ranges
  import Base64
  import opened Narrowing

  type Binary = seq<Base64.byte>

  /** A write as its event carries it: the encoded dataspace if it had one, and
      the whole payload, which stays at the broker. */
  datatype Written = Written(start: uint64, count: uint64, elemSize: nat, space: Option<Base64.text>,
                             typ: Option<Base64.text>, full: Bytes)
  {
    predicate Valid() { elemSize > 0 && |full| == count * elemSize }
  }

  datatype Sub = Sub(selStart: uint64, selCount: uint64, pred: Binary, hasType: bool, space: Binary)

  /** An event as it reaches the reader, with the segments its selector asked for. */
  datatype TopicEvent =
    | Marker(step: nat, wall: nat)
    | Data(step: nat, path: string, written: Written, segments: seq<Bytes>)
    | Unknown

  datatype Item = Item(step: nat, path: string, buf: Bytes, start: nat, count: nat, typ: Binary, delivery: Fallbacks)

  ghost predicate HonestSelection(sel: Option<SelectionFn>, mean: Meaning) {
    sel.Some? ==> forall sp, wsp, s: nat, n: nat ::
      var out := sel.value(sp, wsp, s, n); out.Some? ==> SelectionExact(mean, sp, s, n, out.value)
  }

  // ----- The runs of a write that a subscription names -----

  function Shifted(runs: seq<Run>, at: nat): (out: seq<Run>)
    ensures |out| == |runs|
  {
    seq(|runs|, i requires 0 <= i < |runs| => Run(at + runs[i].start, runs[i].count))
  }

  /** The runs, in elements of the dataset, and whether they had to stay the
      bounding span of a selection. */
  function RunsOf(sel: Option<SelectionFn>, sub: Sub, w: Written): (seq<Run>, bool) {
    var hit := Intersection(Run(w.start, w.count), Run(sub.selStart, sub.selCount));
    if hit.count == 0 then ([], false)
    else if sub.space == [] then ([hit], false)
    else if sel == None || w.space == None then ([hit], true)
    else
      var wsp := Base64.Decoded(w.space.value);
      if wsp == [] then ([hit], true)
      else
        match sel.value(sub.space, wsp, hit.start, hit.count)
        case None => ([hit], true)
        case Some(runs) => (Shifted(runs, hit.start), false)
  }

  method RunsFor(sel: Option<SelectionFn>, sub: Sub, w: Written) returns (runs: seq<Run>, span: bool)
    ensures (runs, span) == RunsOf(sel, sub, w)
  {
    hide Base64.Decoded;
    var found, os, oc := Overlap(w.start, w.count, sub.selStart, sub.selCount);
    OverlapFound(w, sub);
    if !found {
      return [], false;
    }
    var bounding := Run(os, oc);
    if sub.space == [] {
      return [bounding], false;
    }
    if sel == None || w.space == None {
      return [bounding], true;
    }
    var wsp := Base64.Decode(w.space.value);
    if wsp == [] {
      return [bounding], true;
    }
    var out := sel.value(sub.space, wsp, os, oc);
    if out == None {
      return [bounding], true;
    }
    runs, span := [], false;
    for i := 0 to |out.value|
      invariant runs == Shifted(out.value, os)[..i]
    {
      runs := runs + [Run(os + out.value[i].start, out.value[i].count)];
    }
    assert Shifted(out.value, os)[..|out.value|] == Shifted(out.value, os);
  }

  lemma OverlapFound(w: Written, sub: Sub)
    ensures (exists e :: InBoth(Run(w.start, w.count), Run(sub.selStart, sub.selCount), e))
       <==> Intersection(Run(w.start, w.count), Run(sub.selStart, sub.selCount)).count > 0
  {
    var hit := Intersection(Run(w.start, w.count), Run(sub.selStart, sub.selCount));
    assert hit.count > 0 ==> hit.Has(hit.start);
  }

  lemma {:induction false} WithinWider(runs: seq<Run>, lo: int, hi: int, lo': int, hi': int)
    requires Within(runs, lo, hi) && lo' <= lo && hi <= hi'
    ensures Within(runs, lo', hi')
    decreases |runs|
  {
    if runs != [] {
      WithinWider(runs[1..], runs[0].start + runs[0].count, hi, runs[0].start + runs[0].count, hi');
    }
  }

  lemma {:induction false} ShiftedWithin(runs: seq<Run>, lo: nat, hi: nat, at: nat)
    requires Within(runs, lo, hi)
    ensures Within(Shifted(runs, at), at + lo, at + hi)
    decreases |runs|
  {
    if runs != [] {
      ShiftedWithin(runs[1..], runs[0].start + runs[0].count, hi, at);
      assert Shifted(runs, at)[1..] == Shifted(runs[1..], at);
    }
  }

  lemma ShiftedHas(runs: seq<Run>, at: nat, e: int)
    ensures InRuns(Shifted(runs, at), e) <==> InRuns(runs, e - at)
  {
    var out := Shifted(runs, at);
    if InRuns(runs, e - at) {
      var r :| r in runs && r.Has(e - at);
      var i :| 0 <= i < |runs| && runs[i] == r;
      assert out[i].Has(e) && out[i] in out;
    }
    if InRuns(out, e) {
      var r :| r in out && r.Has(e);
      var i :| 0 <= i < |out| && out[i] == r;
      assert runs[i].Has(e - at) && runs[i] in runs;
    }
  }

  /** The runs ascend, disjoint, inside the write, and name exactly the elements
      subscribed to -- those of the range, and of the selection too unless the
      result says it is only a span. */
  lemma RunsExact(sel: Option<SelectionFn>, mean: Meaning, sub: Sub, w: Written, e: int)
    requires HonestSelection(sel, mean)
    ensures var (runs, span) := RunsOf(sel, sub, w);
      && Within(runs, w.start, w.start + w.count)
      && (InRuns(runs, e) <==> InBoth(Run(w.start, w.count), Run(sub.selStart, sub.selCount), e)
                               && (span || sub.space == [] || mean.selects(sub.space, e)))
  {
    var hit := Intersection(Run(w.start, w.count), Run(sub.selStart, sub.selCount));
    assert hit.Has(e) <==> InBoth(Run(w.start, w.count), Run(sub.selStart, sub.selCount), e);
    var (runs, span) := RunsOf(sel, sub, w);
    hide InBoth, Base64.Decoded;
    if hit.count == 0 {
    } else if runs == [hit] && (span || sub.space == []) {
      assert hit in runs;
    } else {
      var out := sel.value(sub.space, Base64.Decoded(w.space.value), hit.start, hit.count).value;
      assert SelectionExact(mean, sub.space, hit.start, hit.count, out) && runs == Shifted(out, hit.start);
      hide SelectionExact, HonestSelection, RunsOf, Within, InRuns;
      SelectedRuns(mean, sub.space, hit, out, e);
      WithinWider(runs, hit.start, hit.start + hit.count, w.start, w.start + w.count);
    }
  }

  lemma SelectedRuns(mean: Meaning, space: Binary, hit: Run, out: seq<Run>, e: int)
    requires SelectionExact(mean, space, hit.start, hit.count, out)
    ensures Within(Shifted(out, hit.start), hit.start, hit.start + hit.count)
    ensures InRuns(Shifted(out, hit.start), e) <==> hit.Has(e) && mean.selects(space, e)
  {
    ShiftedWithin(out, 0, hit.count, hit.start);
    ShiftedHas(out, hit.start, e);
    WithinPositive(out, 0, hit.count);
    if hit.Has(e) {
      assert InRuns(out, e - hit.start) <==> mean.selects(space, hit.start + (e - hit.start));
    }
  }

  // ----- What the writer puts in an event -----

  /** The blobs of a write travel as text in the event's metadata, or not at all. */
  function Carried(start: uint64, count: uint64, es: nat, space: Binary, typ: Binary, full: Bytes): Written {
    Written(start, count, es, if space == [] then None else Some(Base64.Encoded(space)),
            if typ == [] then None else Some(Base64.Encoded(typ)), full)
  }

  /** The runs a subscription names of a write, from the write's own dataspace. */
  function RunsAsked(sel: Option<SelectionFn>, sub: Sub, start: uint64, count: uint64, space: Binary)
    : (seq<Run>, bool)
  {
    var hit := Intersection(Run(start, count), Run(sub.selStart, sub.selCount));
    if hit.count == 0 then ([], false)
    else if sub.space == [] then ([hit], false)
    else if sel == None || space == [] then ([hit], true)
    else
      match sel.value(sub.space, space, hit.start, hit.count)
      case None => ([hit], true)
      case Some(runs) => (Shifted(runs, hit.start), false)
  }

  /** Nothing is lost in the text: the reader resolves its selection against the
      dataspace the writer had, and delivers the type the writer had. */
  lemma BlobsSurvive(sel: Option<SelectionFn>, sub: Sub, start: uint64, count: uint64, es: nat, space: Binary, typ: Binary,
                     full: Bytes)
    ensures var w := Carried(start, count, es, space, typ, full);
      && w.start == start && w.count == count && w.elemSize == es && w.full == full
      && RunsOf(sel, sub, w) == RunsAsked(sel, sub, start, count, space) && TypeOf(w) == typ
  {
    Base64.RoundTrip(space);
    Base64.RoundTrip(typ);
    hide Base64.Encoded, Base64.Decoded;
  }

  // ----- What the selector asks for, and what that gathers -----

  datatype Piece = Piece(offset: nat, size: nat)

  /** What to move of a payload: all of it, one view, several, or nothing. */
  datatype Ask = Decline | Whole | SubView(piece: Piece) | Unstructured(pieces: seq<Piece>)

  function PieceOf(r: Run, ws: nat, es: nat): Piece
    requires ws <= r.start
  {
    Piece((r.start - ws) * es, r.count * es)
  }

  function Pieces(runs: seq<Run>, ws: nat, es: nat): seq<Piece>
    requires forall r | r in runs :: ws <= r.start
  {
    seq(|runs|, i requires 0 <= i < |runs| => assert runs[i] in runs; PieceOf(runs[i], ws, es))
  }

  /** The selector, called for an event's metadata before any payload moves. */
  method Select(sel: Option<SelectionFn>, ghost mean: Meaning, sub: Option<Sub>, w: Written) returns (ask: Ask)
    requires HonestSelection(sel, mean)
    ensures sub == None ==> ask == Decline
    ensures sub.Some? ==> InWrite(RunsOf(sel, sub.value, w).0, w) && ask == Asked(RunsOf(sel, sub.value, w).0, w)
  {
    if sub == None {
      return Decline;
    }
    var runs, span := RunsFor(sel, sub.value, w);
    RunsInside(sel, mean, sub.value, w);
    hide RunsOf;
    if |runs| == 0 {
      return Decline;
    }
    if |runs| == 1 {
      if runs[0].start == w.start && runs[0].count == w.count {
        return Whole;
      }
      return SubView(PieceOf(runs[0], w.start, w.elemSize));
    }
    var segs := [];
    for i := 0 to |runs|
      invariant segs == Pieces(runs, w.start, w.elemSize)[..i]
    {
      segs := segs + [PieceOf(runs[i], w.start, w.elemSize)];
    }
    assert Pieces(runs, w.start, w.elemSize)[..|runs|] == Pieces(runs, w.start, w.elemSize);
    return Unstructured(segs);
  }

  ghost predicate InWrite(runs: seq<Run>, w: Written) {
    forall r | r in runs :: w.start <= r.start && r.start + r.count <= w.start + w.count && r.count > 0
  }

  lemma RunsInside(sel: Option<SelectionFn>, mean: Meaning, sub: Sub, w: Written)
    requires HonestSelection(sel, mean)
    ensures InWrite(RunsOf(sel, sub, w).0, w)
  {
    RunsExact(sel, mean, sub, w, 0);
    WithinPositive(RunsOf(sel, sub, w).0, w.start, w.start + w.count);
  }

  /** The request for some runs of a write. */
  ghost function Asked(runs: seq<Run>, w: Written): Ask
    requires InWrite(runs, w)
  {
    if runs == [] then Decline
    else if |runs| == 1 then
      (if runs[0] == Run(w.start, w.count) then Whole else SubView(PieceOf(runs[0], w.start, w.elemSize)))
    else Unstructured(Pieces(runs, w.start, w.elemSize))
  }

  /** The form of a request says how much it asks for. */
  lemma AskedForm(runs: seq<Run>, w: Written)
    requires InWrite(runs, w)
    ensures Asked(runs, w).Decline? <==> runs == []
    ensures Asked(runs, w).Whole? <==> runs == [Run(w.start, w.count)]
    ensures Asked(runs, w).Unstructured? <==> |runs| > 1
  {
  }

  /** The bytes a request moves; a piece past the end is cut. */
  function Cut(full: Bytes, p: Piece): Bytes {
    if p.offset + p.size <= |full| then full[p.offset..p.offset + p.size] else []
  }

  function Cuts(full: Bytes, ps: seq<Piece>): seq<Bytes> {
    seq(|ps|, i requires 0 <= i < |ps| => Cut(full, ps[i]))
  }

  function Concat(segments: seq<Bytes>): Bytes {
    if segments == [] then [] else Concat(segments[..|segments| - 1]) + segments[|segments| - 1]
  }

  function Gathered(ask: Ask, full: Bytes): Bytes {
    match ask
    case Decline => []
    case Whole => full
    case SubView(p) => Cut(full, p)
    case Unstructured(ps) => Concat(Cuts(full, ps))
  }

  /** Whatever its form, a request for runs moves exactly their bytes, in order. */
  lemma GatherIsRuns(runs: seq<Run>, w: Written)
    requires w.Valid() && InWrite(runs, w)
    ensures Gathered(Asked(runs, w), w.full) == Concat(Cuts(w.full, Pieces(runs, w.start, w.elemSize)))
  {
    var ps := Pieces(runs, w.start, w.elemSize);
    hide Concat;
    if |runs| == 1 {
      ConcatOne(Cuts(w.full, ps));
      assert Cuts(w.full, ps)[0] == Cut(w.full, PieceOf(runs[0], w.start, w.elemSize));
      assert w.full[0..|w.full|] == w.full;
    } else if runs == [] {
      ConcatOne(Cuts(w.full, ps));
    }
  }

  // ----- Splitting what arrived -----

  function Total(runs: seq<Run>, es: nat): nat {
    if runs == [] then 0 else Total(runs[..|runs| - 1], es) + runs[|runs| - 1].count * es
  }

  /** The first total bytes, or all there are and then zeros. */
  function Padded(got: Bytes, total: nat): (out: Bytes)
    ensures |out| == total
  {
    seq(total, i requires 0 <= i < total => if i < |got| then got[i] else 0)
  }

  lemma {:induction false} TotalAt(runs: seq<Run>, es: nat, i: nat)
    requires i < |runs|
    ensures Total(runs[..i + 1], es) == Total(runs[..i], es) + runs[i].count * es <= Total(runs, es)
    decreases |runs|
  {
    assert runs[..i + 1][..i] == runs[..i];
    if i + 1 == |runs| {
      assert runs[..i + 1] == runs;
    } else {
      TotalAt(runs[..|runs| - 1], es, i);
      assert runs[..|runs| - 1][..i + 1] == runs[..i + 1] && runs[..|runs| - 1][..i] == runs[..i];
    }
  }

  /** Copy the segments into one buffer of the size the runs need. */
  method Flatten(segments: seq<Bytes>, total: nat) returns (flat: array<nat>)
    ensures fresh(flat) && flat[..] == Padded(Concat(segments), total)
    ensures forall i | 0 <= i < total ::
      flat[i] == if i < |Concat(segments)| then Concat(segments)[i] else 0
  {
    flat := new nat[total](_ => 0);
    var off, sg := 0, 0;
    while sg < |segments| && off < total
      invariant sg <= |segments| && flat.Length == total && fresh(flat)
      invariant off == Min(total, |Concat(segments[..sg])|)
      invariant flat[..] == Padded(Concat(segments[..sg]), total)
    {
      assert segments[..sg + 1][..sg] == segments[..sg];
      var take := if |segments[sg]| > total - off then total - off else |segments[sg]|;
      var was := flat[..];
      forall j | 0 <= j < take {
        flat[off + j] := segments[sg][j];
      }
      off, sg := off + take, sg + 1;
      assert forall i | 0 <= i < total :: flat[i] == Padded(Concat(segments[..sg]), total)[i];
    }
    ConcatPrefix(segments, sg);
  }

  lemma {:induction false} ConcatPrefix(segments: seq<Bytes>, k: nat)
    requires k <= |segments|
    ensures Concat(segments[..k]) <= Concat(segments)
    ensures k == |segments| ==> Concat(segments[..k]) == Concat(segments)
    decreases |segments|
  {
    if k < |segments| {
      assert segments[..|segments| - 1][..k] == segments[..k];
      ConcatPrefix(segments[..|segments| - 1], k);
    } else {
      assert segments[..k] == segments;
    }
  }

  lemma ConcatOne(segments: seq<Bytes>)
    ensures segments == [] ==> Concat(segments) == []
    ensures |segments| == 1 ==> Concat(segments) == segments[0]
  {
  }

  lemma ConcatNext(segments: seq<Bytes>, i: nat)
    requires i < |segments|
    ensures Concat(segments[..i + 1]) == Concat(segments[..i]) + segments[i]
  {
    assert segments[..i + 1][..i] == segments[..i];
  }

  /** One item per run: the i-th takes the bytes that follow the earlier runs'. */
  function ItemsOf(runs: seq<Run>, es: nat, flat: Bytes, it: Item): (items: seq<Item>)
    requires |flat| == Total(runs, es)
    ensures |items| == |runs|
  {
    seq(|runs|, i requires 0 <= i < |runs| =>
      TotalAt(runs, es, i);
      it.(buf := flat[Total(runs[..i], es)..Total(runs[..i + 1], es)], start := runs[i].start, count := runs[i].count))
  }

  /** Cut the buffer at the runs' sizes, an item for each. The guard that would
      stop early never fires: the buffer is as long as the runs together. */
  method Split(runs: seq<Run>, es: nat, flat: array<nat>, it: Item) returns (items: seq<Item>)
    requires flat.Length == Total(runs, es)
    ensures items == ItemsOf(runs, es, flat[..], it)
  {
    items := [];
    var cursor := 0;
    var i := 0;
    assert Total(runs[..0], es) == 0;
    ghost var bytes := flat[..];
    hide ItemsOf, Total, SizeOf, Labelled;
    while i < |runs|
      invariant i <= |runs| && cursor == Total(runs[..i], es)
      invariant |items| == i && forall j | 0 <= j < i :: items[j] == ItemsOf(runs, es, bytes, it)[j]
    {
      ItemsOfAt(runs, es, bytes, it, i);
      var nb := SizeOf(runs[i], es);
      if cursor + nb > flat.Length {
        break;
      }
      var buf := flat[cursor..cursor + nb];
      assert buf == bytes[cursor..cursor + nb];
      items := items + [Labelled(it, runs[i], buf)];
      cursor, i := cursor + nb, i + 1;
    }
  }

  function SizeOf(r: Run, es: nat): nat { r.count * es }

  lemma ItemsOfAt(runs: seq<Run>, es: nat, flat: Bytes, it: Item, i: nat)
    requires |flat| == Total(runs, es) && i < |runs|
    ensures var from, nb := Total(runs[..i], es), SizeOf(runs[i], es);
      && from + nb == Total(runs[..i + 1], es) <= |flat|
      && ItemsOf(runs, es, flat, it)[i] == Labelled(it, runs[i], flat[from..from + nb])
  {
    TotalAt(runs, es, i);
  }

  function Labelled(it: Item, r: Run, buf: Bytes): Item { it.(start := r.start, count := r.count, buf := buf) }

  lemma {:induction false} CutTotal(runs: seq<Run>, w: Written, i: nat)
    requires w.Valid() && InWrite(runs, w) && i <= |runs|
    ensures |Concat(Cuts(w.full, Pieces(runs, w.start, w.elemSize))[..i])| == Total(runs[..i], w.elemSize)
  {
    if i > 0 {
      var cuts := Cuts(w.full, Pieces(runs, w.start, w.elemSize));
      CutTotal(runs, w, i - 1);
      ConcatNext(cuts, i - 1);
      TotalAt(runs, w.elemSize, i - 1);
      CutIsElements(runs[i - 1], w);
      assert cuts[i - 1] == Cut(w.full, PieceOf(runs[i - 1], w.start, w.elemSize));
    }
  }

  /** The bytes of elements [s, s + n) of the write. */
  function ElementsOf(w: Written, s: nat, n: nat): Bytes
    requires w.Valid() && w.start <= s && s + n <= w.start + w.count
  {
    MulMonotone(s - w.start, s - w.start + n, w.elemSize);
    MulMonotone(s - w.start + n, w.count, w.elemSize);
    w.full[(s - w.start) * w.elemSize..(s - w.start + n) * w.elemSize]
  }

  lemma CutIsElements(r: Run, w: Written)
    requires w.Valid() && w.start <= r.start && r.start + r.count <= w.start + w.count
    ensures Cut(w.full, PieceOf(r, w.start, w.elemSize)) == ElementsOf(w, r.start, r.count)
    ensures |ElementsOf(w, r.start, r.count)| == r.count * w.elemSize
  {
  }

  /** While the subscription is as the selector saw it, splitting undoes
      gathering: one item per run, in order, each with exactly the bytes of the
      elements it is labelled with -- however the payload was segmented. */
  lemma SplitUndoesGather(runs: seq<Run>, w: Written, segments: seq<Bytes>, it: Item)
    requires w.Valid() && InWrite(runs, w) && Concat(segments) == Gathered(Asked(runs, w), w.full)
    ensures var items := ItemsOf(runs, w.elemSize, Padded(Concat(segments), Total(runs, w.elemSize)), it);
      forall i | 0 <= i < |runs| :: items[i] == it.(start := runs[i].start, count := runs[i].count,
                                                    buf := ElementsOf(w, runs[i].start, runs[i].count))
  {
    GatheredWhole(runs, w);
    var got := Concat(segments);
    assert Padded(got, |got|) == got;
    forall i | 0 <= i < |runs|
      ensures ItemsOf(runs, w.elemSize, got, it)[i] == it.(start := runs[i].start, count := runs[i].count,
                                                           buf := ElementsOf(w, runs[i].start, runs[i].count))
    {
      hide *;
      ItemAt(runs, w, it, i);
    }
  }

  lemma GatheredWhole(runs: seq<Run>, w: Written)
    requires w.Valid() && InWrite(runs, w)
    ensures Gathered(Asked(runs, w), w.full) == Concat(Cuts(w.full, Pieces(runs, w.start, w.elemSize)))
    ensures |Gathered(Asked(runs, w), w.full)| == Total(runs, w.elemSize)
  {
    GatherIsRuns(runs, w);
    CutTotal(runs, w, |runs|);
    hide Asked, Gathered, Cut, ElementsOf, Total;
    assert Cuts(w.full, Pieces(runs, w.start, w.elemSize))[..|runs|] == Cuts(w.full, Pieces(runs, w.start, w.elemSize));
    assert runs[..|runs|] == runs;
  }

  lemma ItemAt(runs: seq<Run>, w: Written, it: Item, i: nat)
    requires w.Valid() && InWrite(runs, w) && i < |runs|
    requires |Gathered(Asked(runs, w), w.full)| == Total(runs, w.elemSize)
    ensures ItemsOf(runs, w.elemSize, Gathered(Asked(runs, w), w.full), it)[i]
      == it.(start := runs[i].start, count := runs[i].count, buf := ElementsOf(w, runs[i].start, runs[i].count))
  {
    GatheredWhole(runs, w);
    RunBytesAt(runs, w, i);
    TotalAt(runs, w.elemSize, i);
    hide Gathered, Asked, Concat, Cuts, Pieces, Total, ElementsOf;
  }

  lemma RunBytesAt(runs: seq<Run>, w: Written, i: nat)
    requires w.Valid() && InWrite(runs, w) && i < |runs|
    ensures var all, from, to := Concat(Cuts(w.full, Pieces(runs, w.start, w.elemSize))), Total(runs[..i], w.elemSize),
                                 Total(runs[..i + 1], w.elemSize);
      from <= to <= |all| && all[from..to] == ElementsOf(w, runs[i].start, runs[i].count)
  {
    var es := w.elemSize;
    var cuts := Cuts(w.full, Pieces(runs, w.start, es));
    assert cuts[i] == Cut(w.full, PieceOf(runs[i], w.start, es));
    CutIsElements(runs[i], w);
    CutTotal(runs, w, i);
    CutTotal(runs, w, i + 1);
    hide Cuts, Pieces, Cut, PieceOf, ElementsOf, Total;
    ConcatNext(cuts, i);
    ConcatPrefix(cuts, i + 1);
    hide Concat;
    Middle(Concat(cuts[..i]), ElementsOf(w, runs[i].start, runs[i].count), Concat(cuts));
  }

  // ----- If the subscription changes between selecting and splitting -----

  function Span(p: Piece): seq<nat> { seq(p.size, i requires 0 <= i => p.offset + i) }

  /** The payload offsets some pieces name, in order. */
  function Offsets(ps: seq<Piece>): seq<nat> {
    if ps == [] then [] else Offsets(ps[..|ps| - 1]) + Span(ps[|ps| - 1])
  }

  ghost predicate InPayload(ps: seq<Piece>, n: nat) { forall p | p in ps :: p.offset + p.size <= n }

  /** bytes are those of full at the offsets. */
  ghost predicate ByOffset(full: Bytes, bytes: Bytes, offsets: seq<nat>) {
    |bytes| == |offsets| && forall k | 0 <= k < |offsets| :: offsets[k] < |full| && bytes[k] == full[offsets[k]]
  }

  lemma ByOffsetJoin(full: Bytes, a: Bytes, oa: seq<nat>, b: Bytes, ob: seq<nat>)
    requires ByOffset(full, a, oa) && ByOffset(full, b, ob)
    ensures ByOffset(full, a + b, oa + ob)
  {
  }

  lemma CutUnfold(ps: seq<Piece>, full: Bytes)
    requires ps != []
    ensures var front, p := ps[..|ps| - 1], ps[|ps| - 1];
      Concat(Cuts(full, ps)) == Concat(Cuts(full, front)) + Cut(full, p) && Offsets(ps) == Offsets(front) + Span(p)
  {
    assert Cuts(full, ps)[..|ps| - 1] == Cuts(full, ps[..|ps| - 1]);
  }

  lemma {:induction false} CutByOffset(ps: seq<Piece>, full: Bytes)
    requires InPayload(ps, |full|)
    ensures ByOffset(full, Concat(Cuts(full, ps)), Offsets(ps))
  {
    if ps != [] {
      var front, p := ps[..|ps| - 1], ps[|ps| - 1];
      assert p in ps;
      CutByOffset(front, full);
      CutUnfold(ps, full);
      assert ByOffset(full, Cut(full, p), Span(p));
      hide *;
      ByOffsetJoin(full, Concat(Cuts(full, front)), Offsets(front), Cut(full, p), Span(p));
    }
  }

  /** For this payload, the buffer the split works on, filled from what was asked
      for, holds what the split expects. */
  ghost predicate SplitsRight(asked: seq<Piece>, split: seq<Piece>, full: Bytes) {
    Padded(Concat(Cuts(full, asked)), |Offsets(split)|) == Concat(Cuts(full, split))
  }

  /** If the subscription changes between the selector and the split, the items
      are right for every payload exactly if the bytes the split expects begin
      those the selector asked for. */
  lemma ChangedIsExactIff(asked: seq<Piece>, split: seq<Piece>, n: nat)
    requires InPayload(asked, n) && InPayload(split, n)
    ensures (forall full | |full| == n :: SplitsRight(asked, split, full)) <==> Offsets(split) <= Offsets(asked)
  {
    hide Offsets, Cuts, Concat;
    if Offsets(split) <= Offsets(asked) {
      forall full | |full| == n ensures SplitsRight(asked, split, full) {
        CutByOffset(asked, full);
        CutByOffset(split, full);
      }
    } else {
      WrongPayload(asked, split, n);
    }
  }

  lemma WrongPayload(asked: seq<Piece>, split: seq<Piece>, n: nat)
    requires InPayload(asked, n) && InPayload(split, n) && !(Offsets(split) <= Offsets(asked))
    ensures exists full: Bytes :: |full| == n && !SplitsRight(asked, split, full)
  {
    hide Offsets, Cuts, Concat;
    var k := FirstDifference(Offsets(split), Offsets(asked));
    var at := Offsets(split)[k];
    var full: Bytes := seq(n, i => if i == at then 1 else 0);
    CutByOffset(asked, full);
    CutByOffset(split, full);
    assert Padded(Concat(Cuts(full, asked)), |Offsets(split)|)[k] == 0 && Concat(Cuts(full, split))[k] == 1;
  }

  lemma {:induction false} FirstDifference(a: seq<nat>, b: seq<nat>) returns (k: nat)
    requires !(a <= b)
    ensures k < |a| && (k < |b| ==> a[k] != b[k])
  {
    if b == [] || a[0] != b[0] {
      k := 0;
    } else {
      k := FirstDifference(a[1..], b[1..]);
      k := k + 1;
    }
  }

  /** The pieces of runs inside a write lie inside its payload, and the split's
      buffer has their size. */
  lemma {:induction false} PiecesFit(runs: seq<Run>, w: Written)
    requires w.Valid() && InWrite(runs, w)
    ensures InPayload(Pieces(runs, w.start, w.elemSize), |w.full|)
    ensures |Offsets(Pieces(runs, w.start, w.elemSize))| == Total(runs, w.elemSize)
  {
    var ps := Pieces(runs, w.start, w.elemSize);
    forall p | p in ps ensures p.offset + p.size <= |w.full| {
      var i :| 0 <= i < |ps| && ps[i] == p;
      assert runs[i] in runs;
      Scale(runs[i].start - w.start, runs[i].count, w.elemSize);
      MulMonotone(runs[i].start - w.start + runs[i].count, w.count, w.elemSize);
    }
    CutByOffset(ps, w.full);
    GatheredWhole(runs, w);
  }

  lemma Middle(a: Bytes, b: Bytes, all: Bytes)
    requires a + b <= all
    ensures all[|a|..|a| + |b|] == b
  {
  }

  // ----- Events, in order, each once -----

  type Subs = map<string, Sub>

  function DeliveryOf(sub: Sub, span: bool): Fallbacks {
    (if span then {SelectionSpan} else {}) + (if sub.pred != [] then {PredicateUnevaluated} else {})
    + (if sub.hasType then {TypeNative} else {})
  }

  function TypeOf(w: Written): Binary { if w.typ.Some? then Base64.Decoded(w.typ.value) else [] }

  /** The items one event leaves for the reader. */
  function ItemsFrom(sel: Option<SelectionFn>, subs: Subs, e: TopicEvent): seq<Item> {
    if !e.Data? || e.path !in subs then []
    else
      var (runs, span) := RunsOf(sel, subs[e.path], e.written);
      ItemsOf(runs, e.written.elemSize, Padded(Concat(e.segments), Total(runs, e.written.elemSize)),
              Item(e.step, e.path, [], 0, 0, TypeOf(e.written), DeliveryOf(subs[e.path], span)))
  }

  function Parked(sel: Option<SelectionFn>, subs: Subs, es: seq<TopicEvent>): seq<Item> {
    if es == [] then [] else Parked(sel, subs, es[..|es| - 1]) + ItemsFrom(sel, subs, es[|es| - 1])
  }

  lemma {:induction false} ParkedAppend(sel: Option<SelectionFn>, subs: Subs, a: seq<TopicEvent>, b: seq<TopicEvent>)
    ensures Parked(sel, subs, a + b) == Parked(sel, subs, a) + Parked(sel, subs, b)
    decreases |b|
  {
    hide ItemsFrom;
    if b == [] {
      assert a + b == a;
    } else {
      assert (a + b)[..|a + b| - 1] == a + b[..|b| - 1];
      ParkedAppend(sel, subs, a, b[..|b| - 1]);
    }
  }

  lemma ParkedOne(sel: Option<SelectionFn>, subs: Subs, e: TopicEvent)
    ensures Parked(sel, subs, [e]) == ItemsFrom(sel, subs, e)
  {
    assert [e][..0] == [] && Parked(sel, subs, []) == [];
    hide ItemsFrom;
  }

  /** The event carries what the selector asked for under this subscription. */
  ghost predicate Faithful(sel: Option<SelectionFn>, sub: Sub, e: TopicEvent)
    requires e.Data?
  {
    var runs := RunsOf(sel, sub, e.written).0;
    e.written.Valid() && InWrite(runs, e.written) && Concat(e.segments) == Gathered(Asked(runs, e.written), e.written.full)
  }

  /** A selection was asked for, and the write or the callback did not say which
      elements of the range it holds. */
  ghost predicate Unresolved(sel: Option<SelectionFn>, sub: Sub, w: Written) {
    sub.space != [] &&
    (sel == None || w.space == None ||
     var space, hit := Base64.Decoded(w.space.value), Intersection(Run(w.start, w.count), Run(sub.selStart, sub.selCount));
     space == [] || sel.value(sub.space, space, hit.start, hit.count) == None)
  }

  /** A bit is set exactly if what it names was asked for: this transport evaluates
      no predicate and converts nothing. */
  ghost predicate SaysWhatIsLeft(sel: Option<SelectionFn>, sub: Sub, w: Written, it: Item) {
    && (SelectionSpan in it.delivery <==> Unresolved(sel, sub, w))
    && (PredicateUnevaluated in it.delivery <==> sub.pred != [])
    && (TypeNative in it.delivery <==> sub.hasType)
    && PredicateSpan !in it.delivery
  }

  lemma SpanIsUnresolved(sel: Option<SelectionFn>, sub: Sub, w: Written)
    ensures var (runs, span) := RunsOf(sel, sub, w); runs != [] ==> (span <==> Unresolved(sel, sub, w))
  {
    hide Base64.Decoded;
  }

  /** An event selected and split under one subscription yields one item for
      each run the subscription names, in order, with exactly its elements; its bits
      say what the reader has left to do, its type is the event's, and without the
      selection's bit all its elements are selected. */
  lemma FaithfulItems(sel: Option<SelectionFn>, mean: Meaning, subs: Subs, e: TopicEvent)
    requires HonestSelection(sel, mean)
    requires e.Data? && e.path in subs && Faithful(sel, subs[e.path], e)
    ensures var sub, runs, items := subs[e.path], RunsOf(sel, subs[e.path], e.written).0, ItemsFrom(sel, subs, e);
      && |items| == |runs|
      && forall i | 0 <= i < |items| ::
           && Run(items[i].start, items[i].count) == runs[i] && items[i].step == e.step && items[i].path == e.path
           && e.written.start <= items[i].start && items[i].start + items[i].count <= e.written.start + e.written.count
           && items[i].buf == ElementsOf(e.written, items[i].start, items[i].count)
           && items[i].typ == TypeOf(e.written) && SaysWhatIsLeft(sel, sub, e.written, items[i])
           && forall k | items[i].start <= k < items[i].start + items[i].count ::
                && InBoth(Run(e.written.start, e.written.count), Run(sub.selStart, sub.selCount), k)
                && (SelectionSpan in items[i].delivery || sub.space == [] || mean.selects(sub.space, k))
  {
    var sub := subs[e.path];
    var (runs, span) := RunsOf(sel, sub, e.written);
    SpanIsUnresolved(sel, sub, e.written);
    var blank := Item(e.step, e.path, [], 0, 0, TypeOf(e.written), DeliveryOf(sub, span));
    assert runs != [] ==> SaysWhatIsLeft(sel, sub, e.written, blank);
    forall k ensures InRuns(runs, k) ==>
      && InBoth(Run(e.written.start, e.written.count), Run(sub.selStart, sub.selCount), k)
      && (span || sub.space == [] || mean.selects(sub.space, k))
    {
      RunsExact(sel, mean, sub, e.written, k);
    }
    assert SelectionSpan in blank.delivery <==> span;
    hide RunsOf;
    SplitUndoesGather(runs, e.written, e.segments, blank);
    hide ElementsOf, Gathered, Asked, Concat, Total, Padded, ItemsOf, InBoth, DeliveryOf, Unresolved, TypeOf;
    var items := ItemsFrom(sel, subs, e);
    forall i, k | 0 <= i < |items| && items[i].start <= k < items[i].start + items[i].count ensures InRuns(runs, k) {
      assert runs[i] in runs && runs[i].Has(k);
    }
    hide InRuns;
  }

  /** If the subscription changes in between, an item can carry elements other
      than its label says: here element 0's byte is delivered as element 1's. */
  lemma ChangedSubscriptionMislabels()
    ensures var w := Written(0, 2, 1, None, None, [10, 20]);
      var before, after := Sub(0, 1, [], false, []), Sub(1, 1, [], false, []);
      var e := Data(0, "x", w, [[10]]);
      && w.Valid() && Faithful(None, before, e)
      && ItemsFrom(None, map["x" := after], e) == [Item(0, "x", [10], 1, 1, [], {})] && ElementsOf(w, 1, 1) == [20]
  {
    OneRun(0);
    OneRun(1);
    SplitOne(Run(1, 1), [10], Item(0, "x", [], 0, 0, [], {}));
    ConcatOne([[10 as nat]]);
    var w := Written(0, 2, 1, None, None, [10, 20]);
    assert ElementsOf(w, 1, 1) == [20];
    hide RunsOf, ItemsOf, Concat, Total, Padded;
    assert Gathered(Asked([Run(0, 1)], w), w.full) == [10];
  }

  lemma OneRun(start: nat)
    requires start < 2
    ensures RunsOf(None, Sub(start, 1, [], false, []), Written(0, 2, 1, None, None, [10, 20])) == ([Run(start, 1)], false)
  {
  }

  lemma SplitOne(r: Run, buf: Bytes, it: Item)
    requires r.count == |buf|
    ensures Total([r], 1) == |buf|
    ensures ItemsOf([r], 1, Padded(buf, |buf|), it) == [it.(start := r.start, count := r.count, buf := buf)]
  {
    var runs := [r];
    assert runs[..0] == [] && runs[..1] == runs;
    assert Padded(buf, |buf|) == buf && buf[0..|buf|] == buf;
  }

  class Reader {
    const sel: Option<SelectionFn>
    /** All the topic will ever hold, in order. */
    const log: seq<TopicEvent>
    var subs: Subs
    var ready: seq<Item>
    /** Pulls issued: the k-th is answered by the k-th event. */
    var issued: nat
    var pending: Option<nat>
    var curStep: Option<(nat, nat)>
    /** Events answered so far, all items ever parked, all ever handed out. */
    ghost var returned: nat
    ghost var parked: seq<Item>
    ghost var delivered: seq<Item>

    /** At most one pull is unanswered, and it is kept; nothing parked is lost
        or handed out out of order. */
    ghost predicate Valid()
      reads this
    {
      && (if pending.Some? then pending.value == returned && issued == returned + 1 else issued == returned)
      && returned <= |log|
      && parked == delivered + ready
    }

    constructor (sel: Option<SelectionFn>, log: seq<TopicEvent>)
      ensures Valid() && this.sel == sel && this.log == log && subs == map[] && returned == 0 && parked == []
    {
      this.sel, this.log, subs, ready, issued, pending, curStep := sel, log, map[], [], 0, None, None;
      returned, parked, delivered := 0, [], [];
    }

    /** Wait on the unanswered pull, issuing one only if there is none: each
        event comes back exactly once, in order, whatever timed out before. */
    method PullRetained(arrived: nat) returns (e: Option<TopicEvent>)
      requires Valid() && arrived <= |log|
      modifies this`issued, this`pending, this`returned
      ensures Valid()
      ensures e == if old(returned) < arrived then Some(log[old(returned)]) else None
      ensures returned == if e.Some? then old(returned) + 1 else old(returned)
    {
      if pending == None {
        pending, issued := Some(issued), issued + 1;
      }
      e := None;
      if pending.value < arrived {
        e := Some(log[pending.value]);
        pending := None;
        returned := returned + 1;
      }
    }

    /** Take events until a step marker, or until data, parking data either way. */
    method Pump(arrived: nat, wantStep: bool) returns (ok: bool)
      requires Valid() && arrived <= |log|
      modifies this`issued, this`pending, this`returned, this`ready, this`parked, this`curStep
      ensures Valid() && old(returned) <= returned
      ensures parked == old(parked) + Parked(sel, subs, log[old(returned)..returned])
      ensures !ok ==> arrived <= returned
      ensures wantStep ==> forall k | old(returned) <= k < returned :: log[k].Marker? <==> ok && k == returned - 1
      ensures wantStep && ok ==>
        old(returned) < returned && curStep == Some((log[returned - 1].step, log[returned - 1].wall))
      ensures !wantStep ==> (ready == old(ready) <==> !ok)
      ensures !wantStep ==> forall k | old(returned) <= k < returned ::
        ItemsFrom(sel, subs, log[k]) != [] <==> ok && k == returned - 1
    {
      hide Parked, ItemsFrom;
      NoneParked(sel, subs, log[old(returned)..returned]);
      while true
        invariant Valid() && old(returned) <= returned
        invariant parked == old(parked) + Parked(sel, subs, log[old(returned)..returned])
        invariant wantStep ==> forall k | old(returned) <= k < returned :: !log[k].Marker?
        invariant !wantStep ==> ready == old(ready)
        invariant !wantStep ==> forall k | old(returned) <= k < returned :: ItemsFrom(sel, subs, log[k]) == []
        decreases |log| - returned
      {
        if returned < |log| { ParkedNext(sel, subs, log, old(returned), returned); }
        var ev, some := PumpOne(arrived);
        if ev == None {
          return false;
        }
        if (if wantStep then ev.value.Marker? else some) {
          return true;
        }
      }
    }

    /** Take one event: a marker is the current step, data is parked. */
    method PumpOne(arrived: nat) returns (e: Option<TopicEvent>, some: bool)
      requires Valid() && arrived <= |log|
      modifies this`issued, this`pending, this`returned, this`ready, this`parked, this`curStep
      ensures Valid() && e == if old(returned) < arrived then Some(log[old(returned)]) else None
      ensures returned == if e.Some? then old(returned) + 1 else old(returned)
      ensures var items := if e.Some? then ItemsFrom(sel, subs, e.value) else [];
        parked == old(parked) + items && ready == old(ready) + items && (some <==> items != [])
      ensures curStep == if e.Some? && e.value.Marker? then Some((e.value.step, e.value.wall)) else old(curStep)
    {
      some := false;
      e := PullRetained(arrived);
      if e == None {
        return;
      }
      match e.value
      case Marker(step, wall) => curStep := Some((step, wall));
      case Unknown =>
      case Data(step, path, w, segments) => some := Park(e.value);
    }

    /** Split one data event into items, if its path is subscribed to. */
    method Park(e: TopicEvent) returns (some: bool)
      requires Valid() && e.Data?
      modifies this`ready, this`parked
      ensures Valid() && parked == old(parked) + ItemsFrom(sel, subs, e) && ready == old(ready) + ItemsFrom(sel, subs, e)
      ensures some <==> ItemsFrom(sel, subs, e) != []
    {
      if e.path !in subs {
        return false;
      }
      var sub := subs[e.path];
      var runs, span := RunsFor(sel, sub, e.written);
      hide RunsOf, ItemsOf, Total, Padded, Concat;
      if |runs| == 0 {
        return false;
      }
      var typ := DecodeType(e.written);
      var items := SplitEvent(e, runs, Item(e.step, e.path, [], 0, 0, typ, DeliveryOf(sub, span)));
      assert items == ItemsFrom(sel, subs, e);
      ready, parked := ready + items, parked + items;
      some := true;
    }

    /** The next item: the oldest parked, or, if none is, what the log brings. */
    method WaitData(arrived: nat) returns (item: Option<Item>)
      requires Valid() && arrived <= |log|
      modifies this`issued, this`pending, this`returned, this`ready, this`parked, this`delivered, this`curStep
      ensures Valid() && old(returned) <= returned
      ensures parked == old(parked) + Parked(sel, subs, log[old(returned)..returned])
      ensures delivered == if item.Some? then old(delivered) + [item.value] else old(delivered)
      ensures item == None ==> ready == [] && arrived <= returned
      ensures old(ready) != [] ==> item.Some? && returned == old(returned)
    {
      hide Parked, ItemsFrom;
      item := None;
      if ready == [] {
        var ok := Pump(arrived, false);
        if !ok {
          return;
        }
      } else {
        NoneParked(sel, subs, log[old(returned)..returned]);
      }
      item := Some(ready[0]);
      delivered, ready := delivered + [ready[0]], ready[1..];
    }

    method WaitStep(arrived: nat) returns (step: Option<(nat, nat)>)
      requires Valid() && arrived <= |log|
      modifies this`issued, this`pending, this`returned, this`ready, this`parked, this`curStep
      ensures Valid() && old(returned) <= returned
      ensures parked == old(parked) + Parked(sel, subs, log[old(returned)..returned])
      ensures step == None ==> arrived <= returned
      ensures step.Some? ==> old(returned) < returned && log[returned - 1].Marker?
                             && step.value == (log[returned - 1].step, log[returned - 1].wall)
      ensures forall k | old(returned) <= k < returned :: log[k].Marker? <==> step.Some? && k == returned - 1
    {
      var ok := Pump(arrived, true);
      return if ok then curStep else None;
    }

    /** Over any run of waits, however they interleave and whatever times out,
        while the subscriptions stay as they are: what was handed out, and then
        what is still parked, is exactly what the events taken so far yield. A wait
        for data comes back without an item only once all that had arrived is taken,
        and one for a step stops before that only at a marker. */
    method Serve(waits: seq<(bool, nat)>) returns (outs: seq<Option<Item>>)
      requires Valid() && forall x | x in waits :: x.1 <= |log|
      modifies this`issued, this`pending, this`returned, this`ready, this`parked, this`delivered, this`curStep
      ensures Valid() && old(returned) <= returned && |outs| == |waits|
      ensures delivered == old(delivered) + HandedOut(outs)
      ensures HandedOut(outs) + ready == old(ready) + Parked(sel, subs, log[old(returned)..returned])
      ensures forall i | 0 <= i < |waits| && !waits[i].0 && outs[i] == None :: waits[i].1 <= returned
      ensures forall i | 0 <= i < |waits| && waits[i].0 ::
        && outs[i] == None
        && (waits[i].1 <= returned || exists k | old(returned) <= k < returned :: log[k].Marker?)
    {
      hide Parked;
      outs := [];
      NoneParked(sel, subs, log[old(returned)..returned]);
      for i := 0 to |waits|
        invariant Valid() && old(returned) <= returned && |outs| == i
        invariant delivered == old(delivered) + HandedOut(outs)
        invariant parked == old(parked) + Parked(sel, subs, log[old(returned)..returned])
        invariant forall j | 0 <= j < i && !waits[j].0 && outs[j] == None :: waits[j].1 <= returned
        invariant forall j | 0 <= j < i && waits[j].0 ::
          && outs[j] == None
          && (waits[j].1 <= returned || exists k | old(returned) <= k < returned :: log[k].Marker?)
      {
        ghost var k := returned;
        var out := ServeOne(waits[i].0, waits[i].1);
        ParkedJoin(sel, subs, log, old(returned), k, returned);
        HandedOutNext(outs, out);
        outs := outs + [out];
      }
      Cancel(old(delivered), HandedOut(outs), ready, old(ready), Parked(sel, subs, log[old(returned)..returned]));
    }

    method ServeOne(forStep: bool, arrived: nat) returns (out: Option<Item>)
      requires Valid() && arrived <= |log|
      modifies this`issued, this`pending, this`returned, this`ready, this`parked, this`delivered, this`curStep
      ensures Valid() && old(returned) <= returned
      ensures delivered == old(delivered) + if out.Some? then [out.value] else []
      ensures parked == old(parked) + Parked(sel, subs, log[old(returned)..returned])
      ensures !forStep && out == None ==> arrived <= returned
      ensures forStep ==> out == None && (arrived <= returned || (old(returned) < returned && log[returned - 1].Marker?))
    {
      out := None;
      if forStep {
        var step := WaitStep(arrived);
      } else {
        out := WaitData(arrived);
      }
    }
  }

  /** The items a run of waits came back with. */
  function HandedOut(outs: seq<Option<Item>>): seq<Item> {
    if outs == [] then []
    else
      var last := outs[|outs| - 1];
      HandedOut(outs[..|outs| - 1]) + (if last.Some? then [last.value] else [])
  }

  lemma HandedOutNext(outs: seq<Option<Item>>, out: Option<Item>)
    ensures HandedOut(outs + [out]) == HandedOut(outs) + if out.Some? then [out.value] else []
  {
    assert (outs + [out])[..|outs|] == outs;
  }

  lemma NoneParked(sel: Option<SelectionFn>, subs: Subs, es: seq<TopicEvent>)
    ensures es == [] ==> Parked(sel, subs, es) == []
  {
  }

  lemma ParkedJoin(sel: Option<SelectionFn>, subs: Subs, log: seq<TopicEvent>, from: nat, k: nat, to: nat)
    requires from <= k <= to <= |log|
    ensures Parked(sel, subs, log[from..to]) == Parked(sel, subs, log[from..k]) + Parked(sel, subs, log[k..to])
  {
    ParkedAppend(sel, subs, log[from..k], log[k..to]);
    assert log[from..k] + log[k..to] == log[from..to];
  }

  lemma ParkedNext(sel: Option<SelectionFn>, subs: Subs, log: seq<TopicEvent>, from: nat, k: nat)
    requires from <= k < |log|
    ensures Parked(sel, subs, log[from..k + 1]) == Parked(sel, subs, log[from..k]) + ItemsFrom(sel, subs, log[k])
  {
    hide ItemsFrom;
    assert log[from..k + 1][..k - from] == log[from..k];
  }

  lemma Cancel(done: seq<Item>, got: seq<Item>, ready: seq<Item>, was: seq<Item>, parked: seq<Item>)
    requires done + got + ready == done + was + parked
    ensures got + ready == was + parked
  {
    assert got + ready == (done + got + ready)[|done|..];
    assert was + parked == (done + was + parked)[|done|..];
  }

  method DecodeType(w: Written) returns (typ: Binary)
    ensures typ == TypeOf(w)
  {
    typ := [];
    if w.typ.Some? {
      typ := Base64.Decode(w.typ.value);
    }
  }

  method SplitEvent(e: TopicEvent, runs: seq<Run>, it: Item) returns (items: seq<Item>)
    requires e.Data?
    ensures items == ItemsOf(runs, e.written.elemSize, Padded(Concat(e.segments), Total(runs, e.written.elemSize)), it)
  {
    var total := TotalSize(runs, e.written.elemSize);
    var flat := Flatten(e.segments, total);
    items := Split(runs, e.written.elemSize, flat, it);
  }

  method TotalSize(runs: seq<Run>, es: nat) returns (total: nat)
    ensures total == Total(runs, es)
  {
    total := 0;
    for i := 0 to |runs|
      invariant total == Total(runs[..i], es)
    {
      TotalAt(runs, es, i);
      total := total + runs[i].count * es;
    }
    assert runs[..|runs|] == runs;
  }

  // ----- The control topic -----

  /** What readers tell the writer. */
  datatype Control = Subscribed(rid: string, path: string) | Acked(rid: string, step: nat) | OtherKind(rid: string)
                   | Malformed

  /** What the writer knows of its readers. */
  datatype Known = Known(seen: set<string>, acked: map<string, nat>, paths: set<string>)

  /** e is an acknowledgement by a reader that gave its identity. */
  predicate AckBy(e: Control, rid: string) { e.Acked? && e.rid == rid && rid != "" }

  /** acked holds, for each reader that ever acknowledged, its greatest step. */
  ghost predicate GreatestAcks(acked: map<string, nat>, es: seq<Control>) {
    && (forall rid | rid in acked :: exists e | e in es :: AckBy(e, rid) && e.step == acked[rid])
    && (forall e | e in es && e.Acked? && e.rid != "" :: e.rid in acked && e.step <= acked[e.rid])
  }

  /** A reader is known once it subscribed or acknowledged; a path, once subscribed to. */
  ghost predicate Knows(k: Known, es: seq<Control>) {
    && GreatestAcks(k.acked, es)
    && (forall rid :: rid in k.seen <==> rid != "" && exists e | e in es :: (e.Acked? || e.Subscribed?) && e.rid == rid)
    && (forall p :: p in k.paths <==> p != "" && exists e | e in es :: e.Subscribed? && e.rid != "" && e.path == p)
  }

  function Learned(k: Known, e: Control): Known {
    match e
    case Subscribed(rid, path) =>
      if rid == "" then k else k.(seen := k.seen + {rid}, paths := if path == "" then k.paths else k.paths + {path})
    case Acked(rid, step) =>
      if rid == "" then k
      else k.(seen := k.seen + {rid},
              acked := if rid !in k.acked || step > k.acked[rid] then k.acked[rid := step] else k.acked)
    case _ => k
  }

  /** Learning from one more event keeps the knowledge exact. */
  lemma LearnedKnows(k: Known, es: seq<Control>, e: Control)
    requires Knows(k, es)
    ensures Knows(Learned(k, e), es + [e])
  {
  }

  lemma OneMore(log: seq<Control>, from: nat, k: nat)
    requires from <= k < |log|
    ensures log[from..k + 1] == log[from..k] + [log[k]]
  {
  }

  class ControlTopic {
    const log: seq<Control>
    var issued: nat
    var pending: Option<nat>
    var seenSubs: set<string>
    var acked: map<string, nat>
    var subPaths: set<string>
    ghost var returned: nat
    /** Events before this one were left by an earlier run. */
    ghost var since: nat

    ghost predicate Valid()
      reads this
    {
      && (if pending.Some? then pending.value == returned && issued == returned + 1 else issued == returned)
      && since <= returned <= |log|
      && Knows(Known(seenSubs, acked, subPaths), log[since..returned])
    }

    constructor (log: seq<Control>)
      ensures Valid() && this.log == log && returned == 0
    {
      this.log, issued, pending, seenSubs, acked, subPaths, returned, since := log, 0, None, {}, map[], {}, 0, 0;
    }

    method PullRetained(arrived: nat) returns (e: Option<Control>)
      requires arrived <= |log| && returned <= |log|
      requires if pending.Some? then pending.value == returned && issued == returned + 1 else issued == returned
      modifies this`issued, this`pending, this`returned
      ensures if pending.Some? then pending.value == returned && issued == returned + 1 else issued == returned
      ensures e == if old(returned) < arrived then Some(log[old(returned)]) else None
      ensures returned == if e.Some? then old(returned) + 1 else old(returned)
    {
      if pending == None {
        pending, issued := Some(issued), issued + 1;
      }
      e := None;
      if pending.value < arrived {
        e := Some(log[pending.value]);
        pending := None;
        returned := returned + 1;
      }
    }

    /** Absorb every control event that has arrived. */
    method PumpControl(arrived: nat)
      requires Valid() && arrived <= |log|
      modifies this`issued, this`pending, this`returned, this`seenSubs, this`acked, this`subPaths
      ensures Valid() && returned == if arrived < old(returned) then old(returned) else arrived
    {
      hide Knows;
      while true
        invariant Valid() && old(returned) <= returned
        invariant returned == old(returned) || returned <= arrived
        decreases |log| - returned
      {
        ghost var es := log[since..returned];
        ghost var was := Known(seenSubs, acked, subPaths);
        var e := PullRetained(arrived);
        if e == None {
          break;
        }
        LearnedKnows(was, es, e.value);
        OneMore(log, since, returned - 1);
        Absorb(e.value);
      }
    }

    method Absorb(e: Control)
      modifies this`seenSubs, this`acked, this`subPaths
      ensures Known(seenSubs, acked, subPaths) == Learned(old(Known(seenSubs, acked, subPaths)), e)
    {
      match e
      case Subscribed(rid, path) =>
        if rid == "" {
          return;
        }
        seenSubs := seenSubs + {rid};
        if path != "" {
          subPaths := subPaths + {path};
        }
      case Acked(rid, step) =>
        if rid == "" {
          return;
        }
        if rid !in acked || step > acked[rid] {
          acked := acked[rid := step];
        }
        seenSubs := seenSubs + {rid};
      case OtherKind(rid) =>
      case Malformed =>
    }

    /** A writer starting up forgets what an earlier run left on the topic. */
    method StartGroup(arrived: nat)
      requires Valid() && arrived <= |log|
      modifies this
      ensures Valid() && since == returned && returned >= arrived
    {
      PumpControl(arrived);
      seenSubs, acked, subPaths := {}, map[], {};
      since := returned;
    }

    /** Put a write on the topic -- unless paths are subscribed to and this one
        is not, as far as the control topic has told. */
    method PushData(path: string, start: uint64, count: uint64, es: nat, space: Binary, typ: Binary, full: Bytes,
                    arrived: nat)
      returns (sent: Option<Written>)
      requires Valid() && arrived <= |log|
      modifies this`issued, this`pending, this`returned, this`seenSubs, this`acked, this`subPaths
      ensures Valid() && returned >= arrived
      ensures sent == None || sent == Some(Carried(start, count, es, space, typ, full))
      ensures sent == None <==> (subPaths != {} && path !in subPaths)
      ensures sent == None && path != "" ==>
        forall e | e in log[since..returned] && e.Subscribed? && e.rid != "" :: e.path != path
    {
      PumpControl(arrived);
      hide GreatestAcks, Base64.Encoded;
      if subPaths != {} && path !in subPaths {
        return None;
      }
      var sp, t := None, None;
      if space != [] {
        var text := Base64.Encode(space);
        sp := Some(text);
      }
      if typ != [] {
        var text := Base64.Encode(typ);
        t := Some(text);
      }
      sent := Some(Written(start, count, es, sp, t, full));
    }

    /** The least of all readers' greatest acknowledged steps -- of every reader
        that ever acknowledged, for nothing here says who has left. */
    method MinAcked(arrived: nat) returns (least: Option<nat>)
      requires Valid() && arrived <= |log|
      modifies this`issued, this`pending, this`returned, this`seenSubs, this`acked, this`subPaths
      ensures Valid() && returned >= arrived && GreatestAcks(acked, log[since..returned])
      ensures least == None <==> acked == map[]
      ensures least.Some? ==> exists rid | rid in acked :: acked[rid] == least.value
      ensures least.Some? ==> forall rid | rid in acked :: least.value <= acked[rid]
    {
      PumpControl(arrived);
      hide GreatestAcks;
      least := LeastOf(acked);
    }
  }

  method LeastOf(acked: map<string, nat>) returns (least: Option<nat>)
    ensures least == None <==> acked == map[]
    ensures least.Some? ==> exists rid | rid in acked :: acked[rid] == least.value
    ensures least.Some? ==> forall rid | rid in acked :: least.value <= acked[rid]
  {
    least := None;
    var todo := acked.Keys;
    while todo != {}
      invariant todo <= acked.Keys && (least == None ==> todo == acked.Keys)
      invariant least.Some? ==> forall rid | rid in acked && rid !in todo :: least.value <= acked[rid]
      invariant least.Some? ==> exists rid | rid in acked :: acked[rid] == least.value
      decreases |todo|
    {
      var rid :| rid in todo;
      if least == None || acked[rid] < least.value {
        least := Some(acked[rid]);
      }
      todo := todo - {rid};
    }
  }
}
