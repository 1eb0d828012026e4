/** The step protocol as a transition system: one writer, any number of readers.
    An action is one mutex-held section, one message, or one reader call. */
module StepProtocol {
  import opened Delivery
  import opened HeldPush

  datatype Returned = Returned(step: nat, pushes: seq<Arrival>)

  /** What flows to one reader, and what has flowed since its first
      subscription. waiting is the held push in front of the data queue. */
  datatype Stream = Stream(
    sent: multiset<Arrival>,      // forwarded, not yet queued at the reader
    landed: multiset<Arrival>,    // queued at the reader, response on its way
    waiting: seq<Arrival>,
    pending: seq<nat>,         // announced, not yet returned
    issued: multiset<Arrival>,
    lost: multiset<Arrival>,
    returned: seq<Returned>,
    announced: seq<nat>,
    backlog: seq<nat>,         // announcements already queued at that time
    base: nat,                 // the first step due to it
    open: nat,                 // the step whose announcement is due next
    missed: set<nat>,          // steps whose announcement was lost
    dropped: multiset<Arrival>) // their pushes, passed over when a later step was read

  /** One reader: its entries in the writer's table and its stream. */
  datatype Reader = Reader(
    present: bool,
    entries: map<string, EntryState>,
    discarded: bool,           // the backlog before the first subscription is gone
    active: bool,              // a subscription has reached the writer
    subscribed: bool,          // the reader's own record that its first call is done
    stream: Stream)

  const EMPTY := Stream(multiset{}, multiset{}, [], [], multiset{}, multiset{}, [], [], [], 0, 0, {}, multiset{})
  const NEWCOMER := Reader(true, map[], false, false, false, EMPTY)

  datatype Phase =
    | Idle                                                    // between step boundaries
    | Serving(member: Member, paths: set<string>, next: nat)  // a backfill, step by step
    | Committing                                              // the step's pushes go out
    | Announcing(todo: seq<Member>)                           // the snapshot's rest

  datatype State = State(cur: nat, phase: Phase, last: Option<nat>, readers: map<Member, Reader>)

  const INIT := State(0, Idle, None, map[])

  datatype Action =
    | Join(m: Member)
    | Seed(m: Member)
    | Discard(m: Member)
    | Subscribe(m: Member, path: string)
    | Stage(m: Member, path: string, from: nat)
    | EndCall(m: Member)
    | Release(m: Member)
    | Leave(m: Member)
    | TakeBackfill(m: Member, from: nat)
    | ServePush(p: Arrival)
    | ServeAnnounce(heard: bool)
    | BeginCommit
    | LivePush(m: Member, p: Arrival)
    | BeginAnnounce(snapshot: seq<Member>)
    | AnnounceNext(heard: bool)
    | EndCommit
    | Deliver(m: Member, p: Arrival)
    | Respond(m: Member, p: Arrival)
    | Lose(m: Member, p: Arrival)
    | NextStep(m: Member)

  predicate Backfilling(r: Reader) {
    exists path | path in r.entries :: !r.entries[path].Live?
  }

  /** Every request has completed. */
  ghost predicate AllComplete(s: State) {
    forall m | m in s.readers ::
      s.readers[m].stream.sent == multiset{} && s.readers[m].stream.landed == multiset{}
  }

  /** The step whose announcement a live reader is due next. */
  function Due(s: State, m: Member): nat {
    if s.phase.Announcing? && m !in s.phase.todo then s.cur + 1 else s.cur
  }

  function ReleasedPaths(r: Reader): set<string> {
    set path | path in r.entries && r.entries[path].Released?
  }

  ghost predicate Enabled(s: State, a: Action) {
    match a
    case Join(m) => m !in s.readers
    case Seed(m) => m in s.readers && s.readers[m].present && !s.readers[m].discarded && s.last.Some?
    case Discard(m) => m in s.readers && !s.readers[m].active
    case Subscribe(m, path) =>
      && m in s.readers && s.readers[m].present && s.readers[m].discarded
      && (s.readers[m].subscribed || s.readers[m].entries == map[])
    case Stage(m, path, from) =>
      m in s.readers && s.readers[m].present && s.readers[m].discarded && !s.readers[m].subscribed
    case EndCall(m) =>
      m in s.readers && s.readers[m].present && !s.readers[m].subscribed && s.readers[m].entries != map[]
    case Release(m) =>
      && m in s.readers && s.readers[m].present && s.readers[m].subscribed
      && exists path | path in s.readers[m].entries :: s.readers[m].entries[path].Staged?
    case Leave(m) => m in s.readers
    case TakeBackfill(m, from) =>
      && s.phase.Idle? && m in s.readers
      && (exists path | path in ReleasedPaths(s.readers[m]) :: s.readers[m].entries[path].from == from)
      && (forall path | path in ReleasedPaths(s.readers[m]) :: from <= s.readers[m].entries[path].from)
    case ServePush(p) =>
      && s.phase.Serving? && p.step == s.phase.next && p.path in s.phase.paths
      && s.phase.member in s.readers && s.readers[s.phase.member].present
      && p.path in s.readers[s.phase.member].entries && s.readers[s.phase.member].entries[p.path].Live?
    case ServeAnnounce(_) => s.phase.Serving? && s.phase.member in s.readers && AllComplete(s)
    case BeginCommit => s.phase.Idle?
    case LivePush(m, p) =>
      && s.phase.Committing? && p.step == s.cur && m in s.readers && s.readers[m].present
      && p.path in s.readers[m].entries && s.readers[m].entries[p.path].Live?
    case BeginAnnounce(snapshot) =>
      && s.phase.Committing? && AllComplete(s)
      && (forall m :: m in snapshot <==> m in s.readers && s.readers[m].present)
      && (forall i, j | 0 <= i < j < |snapshot| :: snapshot[i] != snapshot[j])
    case AnnounceNext(_) => s.phase.Announcing? && s.phase.todo != [] && s.phase.todo[0] in s.readers
    case EndCommit => s.phase == Announcing([])
    case Deliver(m, p) => m in s.readers && p in s.readers[m].stream.sent
    case Respond(m, p) => m in s.readers && p in s.readers[m].stream.landed
    case Lose(m, p) => m in s.readers && p in s.readers[m].stream.sent
    case NextStep(m) => m in s.readers && s.readers[m].subscribed && s.readers[m].stream.pending != []
  }

  /** An announcement goes out, and is heard or lost on the way. */
  function Announced(f: Stream, active: bool, step: nat, heard: bool): Stream {
    f.(pending := if heard then f.pending + [step] else f.pending,
       announced := if active then f.announced + [step] else f.announced,
       missed := if active && !heard then f.missed + {step} else f.missed,
       open := if active then step + 1 else f.open)
  }

  function Issued(f: Stream, p: Arrival): Stream {
    f.(sent := f.sent + multiset{p}, issued := f.issued + multiset{p})
  }

  function Delivered(f: Stream, p: Arrival): Stream {
    f.(sent := f.sent - multiset{p}, landed := f.landed + multiset{p}, waiting := f.waiting + [p])
  }

  function Lost(f: Stream, p: Arrival): Stream {
    f.(sent := f.sent - multiset{p}, lost := f.lost + multiset{p})
  }

  function Stepped(f: Stream): Stream
    requires f.pending != []
  {
    var step := f.pending[0];
    f.(pending := f.pending[1..], waiting := Later(f.waiting, step),
       dropped := f.dropped + multiset(Stale(f.waiting, step)),
       returned := f.returned + [Returned(step, Taken(f.waiting, step))])
  }

  /** A first subscription makes the reader active, due `due` next. */
  function Activate(r: Reader, due: nat): Reader {
    if r.active then r
    else r.(active := true, stream := r.stream.(backlog := r.stream.pending, base := due, open := due))
  }

  function Subscribed(r: Reader, path: string, due: nat): Reader {
    var a := Activate(r, due);
    a.(entries := if path in a.entries then a.entries else a.entries[path := Live], subscribed := true)
  }

  function StagedAt(r: Reader, path: string, from: nat, due: nat): Reader {
    Activate(r, due).(entries := r.entries[path := Staged(from)])
  }

  /** The reader has staged what it wanted, as far as that arrived. Its release goes
      out after that, and may never arrive. */
  function Called(r: Reader): Reader { r.(subscribed := true) }

  function ReleasedAll(r: Reader): Reader {
    r.(entries := map path | path in r.entries ::
         if r.entries[path].Staged? then Released(r.entries[path].from) else r.entries[path])
  }

  /** The released entries go live, and the reader is due `start` next. */
  function Taking(r: Reader, start: nat): Reader {
    r.(entries := map path | path in r.entries ::
         if r.entries[path].Released? then Live else r.entries[path],
       stream := r.stream.(base := start, open := start))
  }

  function Flowing(r: Reader, f: Stream): Reader { r.(stream := f) }

  function ToldIf(r: Reader, told: bool, step: nat, heard: bool): Reader {
    if told then Flowing(r, Announced(r.stream, r.active, step, heard)) else r
  }

  function WithReader(s: State, m: Member, r: Reader): State { s.(readers := s.readers[m := r]) }

  ghost function Apply(s: State, a: Action): State
    requires Enabled(s, a)
  {
    match a
    case Join(m) => WithReader(s, m, NEWCOMER)
    case Seed(m) =>
      var f := s.readers[m].stream;
      WithReader(s, m, Flowing(s.readers[m], f.(pending := f.pending + [s.last.value])))
    case Discard(m) =>
      WithReader(s, m, Flowing(s.readers[m], s.readers[m].stream.(pending := [])).(discarded := true))
    case Subscribe(m, path) => WithReader(s, m, Subscribed(s.readers[m], path, Due(s, m)))
    case Stage(m, path, from) => WithReader(s, m, StagedAt(s.readers[m], path, from, Due(s, m)))
    case EndCall(m) => WithReader(s, m, Called(s.readers[m]))
    case Release(m) => WithReader(s, m, ReleasedAll(s.readers[m]))
    case Leave(m) => WithReader(s, m, s.readers[m].(present := false, entries := map[]))
    case TakeBackfill(m, from) =>
      WithReader(s, m, Taking(s.readers[m], if from < s.cur then from else s.cur))
        .(phase := if from < s.cur then Serving(m, ReleasedPaths(s.readers[m]), from) else Idle)
    case ServePush(p) =>
      var r := s.readers[s.phase.member];
      WithReader(s, s.phase.member, Flowing(r, Issued(r.stream, p)))
    case ServeAnnounce(_) =>
      var m, k := s.phase.member, s.phase.next;
      var r := s.readers[m];
      WithReader(s, m, ToldIf(r, r.present, k, a.heard))
        .(phase := if k + 1 < s.cur then s.phase.(next := k + 1) else Idle)
    case BeginCommit => s.(phase := Committing)
    case LivePush(m, p) => WithReader(s, m, Flowing(s.readers[m], Issued(s.readers[m].stream, p)))
    case BeginAnnounce(snapshot) => s.(phase := Announcing(snapshot), last := Some(s.cur))
    case AnnounceNext(_) =>
      var m := s.phase.todo[0];
      var r := s.readers[m];
      WithReader(s, m, ToldIf(r, r.present && !Backfilling(r), s.cur, a.heard))
        .(phase := Announcing(s.phase.todo[1..]))
    case EndCommit => s.(cur := s.cur + 1, phase := Idle)
    case Deliver(m, p) => WithReader(s, m, Flowing(s.readers[m], Delivered(s.readers[m].stream, p)))
    case Respond(m, p) =>
      var f := s.readers[m].stream;
      WithReader(s, m, Flowing(s.readers[m], f.(landed := f.landed - multiset{p})))
    case Lose(m, p) => WithReader(s, m, Flowing(s.readers[m], Lost(s.readers[m].stream, p)))
    case NextStep(m) => WithReader(s, m, Flowing(s.readers[m], Stepped(s.readers[m].stream)))
  }

  /** What the protocol needs of its callers: no live subscription is added
      while a backfill is owed, and no announcement of a step to be served, or
      of a later one, is waiting when a staged subscription reaches the writer. */
  ghost predicate Careful(s: State, a: Action)
    requires Enabled(s, a)
  {
    match a
    case Subscribe(m, path) => path in s.readers[m].entries || !Backfilling(s.readers[m])
    case Stage(m, path, from) => forall k | k in s.readers[m].stream.pending :: k < from
    case _ => true
  }

  // ----- The invariant -----

  ghost predicate Increasing(xs: seq<nat>) { forall i, j | 0 <= i < j < |xs| :: xs[i] < xs[j] }

  function AllPushes(rs: seq<Returned>): multiset<Arrival> {
    if rs == [] then multiset{}
    else AllPushes(rs[..|rs| - 1]) + multiset(rs[|rs| - 1].pushes)
  }

  function Steps(rs: seq<Returned>): (steps: seq<nat>)
    ensures |steps| == |rs|
  {
    seq(|rs|, i requires 0 <= i < |rs| => rs[i].step)
  }

  ghost predicate Consecutive(xs: seq<nat>, lo: nat, hi: nat) {
    lo <= hi && |xs| == hi - lo && forall i | 0 <= i < |xs| :: xs[i] == lo + i
  }

  /** Nothing has been sent since the first subscription. */
  ghost predicate Calm(f: Stream) {
    && f.sent == multiset{} && f.waiting == [] && f.issued == multiset{} && f.lost == multiset{}
    && f.announced == [] && f.missed == {} && f.dropped == multiset{}
  }

  /** Nor has anything been read. */
  ghost predicate Quiet(f: Stream) {
    Calm(f) && f.returned == []
  }

  /** The announcements that were not lost. */
  function Heard(steps: seq<nat>, missed: set<nat>): seq<nat> {
    if steps == [] then []
    else
      var k := steps[|steps| - 1];
      Heard(steps[..|steps| - 1], missed) + (if k in missed then [] else [k])
  }

  /** Pushes wait in step order, each of a step announced or due next. */
  ghost predicate WaitingInOrder(f: Stream) {
    && InOrder(f.waiting)
    && (forall q | q in f.waiting :: q.step == f.open || (q.step < f.open && (q.step in f.pending || q.step in f.missed)))
    && (forall p | p in f.sent :: p.step == f.open)
  }

  /** Announcements go out one by one from base, and those not lost are returned
      in that order. */
  ghost predicate AnnouncedInOrder(f: Stream) {
    && Increasing(f.pending)
    && (forall k | k in f.pending :: k < f.open && k !in f.missed)
    && (forall k | k in f.missed :: f.base <= k < f.open)
    && Consecutive(f.announced, f.base, f.open)
    && Steps(f.returned) + f.pending == f.backlog + Heard(f.announced, f.missed)
  }

  ghost predicate ReturnedInOrder(f: Stream) {
    && Increasing(Steps(f.returned))
    && (forall x | x in f.returned :: x.step < f.open && x.step !in f.missed && forall k | k in f.pending :: x.step < k)
    && (forall x | x in f.returned :: forall p | p in x.pushes :: p.step == x.step)
  }

  /** Every push issued is lost, on the wire, waiting, or returned -- once -- or
      dropped because the announcement of its step was lost. */
  ghost predicate Balanced(f: Stream) {
    && f.issued == f.lost + f.sent + multiset(f.waiting) + AllPushes(f.returned) + f.dropped
    && forall p | p in f.dropped :: p.step in f.missed
  }

  ghost predicate Ordered(f: Stream) {
    WaitingInOrder(f) && AnnouncedInOrder(f) && ReturnedInOrder(f) && Balanced(f)
  }

  ghost predicate AllLive(r: Reader) { forall path | path in r.entries :: r.entries[path].Live? }
  ghost predicate AllStaged(r: Reader) { forall path | path in r.entries :: r.entries[path].Staged? }
  ghost predicate AllReleased(r: Reader) { forall path | path in r.entries :: r.entries[path].Released? }

  /** What was announced before is of earlier steps than a backfill will serve. */
  ghost predicate BacklogIsEarlier(r: Reader) {
    forall path, k | path in r.entries && !r.entries[path].Live? && k in r.stream.backlog :: k < r.entries[path].from
  }

  /** The table half: a reader's entries are all staged, then all released, then
      all live, and nothing flows before that. If the release never arrives they
      stay staged. */
  ghost predicate Tabled(r: Reader) {
    && (!r.present ==> r.entries == map[])
    && (!r.active ==> Quiet(r.stream) && r.entries == map[] && !r.subscribed)
    && (r.active ==> r.discarded)
    && (!r.subscribed ==> AllStaged(r))
    && (r.subscribed ==> AllLive(r) || AllReleased(r) || AllStaged(r))
    && (!r.subscribed ==> r.stream.returned == [])
    && (Backfilling(r) ==> Calm(r.stream) && BacklogIsEarlier(r))
    && (r.active && r.present ==> r.entries != map[])
  }

  /** One reader's part of the invariant; due is what a live one is due next. */
  ghost predicate Fine(r: Reader, due: nat) {
    && Tabled(r)
    && (!r.active && r.discarded ==> Increasing(r.stream.pending) && forall k | k in r.stream.pending :: k < due)
    && (r.active ==> Ordered(r.stream))
    && (r.active && r.present && !Backfilling(r) ==> r.stream.open == due)
    && (Backfilling(r) ==> r.stream.open <= due)
  }

  function DueTo(s: State, m: Member): nat {
    if s.phase.Serving? && s.phase.member == m then s.phase.next else Due(s, m)
  }

  ghost predicate Inv(s: State) {
    && (forall m | m in s.readers :: Fine(s.readers[m], DueTo(s, m)))
    && (s.phase.Serving? ==>
          && s.phase.next < s.cur && s.phase.member in s.readers
          && s.readers[s.phase.member].active && s.readers[s.phase.member].subscribed
          && AllLive(s.readers[s.phase.member]))
    && (s.phase.Announcing? ==>
          && (forall m | m in s.readers :: s.readers[m].stream.sent == multiset{})
          && (forall m | m in s.phase.todo :: m in s.readers)
          && (forall i, j | 0 <= i < j < |s.phase.todo| :: s.phase.todo[i] != s.phase.todo[j]))
  }

  // ----- Each action keeps its stream ordered -----

  lemma OrderedStart(f: Stream, due: nat)
    requires Quiet(f) && Increasing(f.pending) && forall k | k in f.pending :: k < due
    ensures Ordered(f.(backlog := f.pending, base := due, open := due))
  {
  }

  /** A backfill starts over from its first step. */
  lemma OrderedRestart(f: Stream, start: nat)
    requires Ordered(f) && Calm(f) && forall k | k in f.backlog :: k < start
    ensures Ordered(f.(base := start, open := start))
    ensures (forall k | k in f.pending :: k in f.backlog) && forall x | x in f.returned :: x.step in f.backlog
  {
    var all := Steps(f.returned) + f.pending;
    assert all == f.backlog;
    forall k | k in f.pending ensures k in f.backlog { assert k in all; }
    forall x | x in f.returned ensures x.step in f.backlog {
      var i :| 0 <= i < |f.returned| && f.returned[i] == x;
      assert all[i] == x.step;
    }
  }

  lemma OrderedIssue(f: Stream, p: Arrival)
    requires Ordered(f) && p.step == f.open
    ensures Ordered(Issued(f, p))
  {
  }

  lemma DeliverKeepsWaiting(f: Stream, p: Arrival)
    requires WaitingInOrder(f) && p in f.sent
    ensures WaitingInOrder(Delivered(f, p))
  {
  }

  lemma DeliverKeepsBalance(f: Stream, p: Arrival)
    requires Balanced(f) && p in f.sent
    ensures Balanced(Delivered(f, p))
  {
    assert f.sent == f.sent - multiset{p} + multiset{p};
    hide AllPushes;
  }

  lemma DeliverKeepsSteps(f: Stream, p: Arrival)
    requires AnnouncedInOrder(f) && ReturnedInOrder(f)
    ensures AnnouncedInOrder(Delivered(f, p)) && ReturnedInOrder(Delivered(f, p))
  {
    hide Steps, Heard, Increasing, Consecutive;
  }

  lemma OrderedDeliver(f: Stream, p: Arrival)
    requires Ordered(f) && p in f.sent
    ensures Ordered(Delivered(f, p))
  {
    DeliverKeepsWaiting(f, p);
    DeliverKeepsBalance(f, p);
    DeliverKeepsSteps(f, p);
    hide WaitingInOrder, AnnouncedInOrder, ReturnedInOrder, Balanced;
  }

  lemma OrderedLose(f: Stream, p: Arrival)
    requires Ordered(f) && p in f.sent
    ensures Ordered(Lost(f, p))
  {
  }

  lemma IncreasingAppend(xs: seq<nat>, x: nat)
    requires Increasing(xs) && forall k | k in xs :: k < x
    ensures Increasing(xs + [x])
  {
    forall i | 0 <= i < |xs| ensures xs[i] < x { assert xs[i] in xs; }
  }

  lemma HeardIgnores(steps: seq<nat>, missed: set<nat>, k: nat)
    requires k !in steps
    ensures Heard(steps, missed + {k}) == Heard(steps, missed)
  {
    if steps != [] {
      HeardIgnores(steps[..|steps| - 1], missed, k);
    }
  }

  lemma HeardNext(steps: seq<nat>, missed: set<nat>, k: nat, heard: bool)
    requires k !in missed && k !in steps
    ensures var after := if heard then missed else missed + {k};
      Heard(steps + [k], after) == Heard(steps, missed) + if heard then [k] else []
  {
    assert (steps + [k])[..|steps|] == steps;
    HeardIgnores(steps, missed, k);
  }

  lemma AnnounceAppends(f: Stream, more: seq<nat>)
    requires Steps(f.returned) + f.pending == f.backlog + Heard(f.announced, f.missed)
    ensures Steps(f.returned) + (f.pending + more) == f.backlog + (Heard(f.announced, f.missed) + more)
  {
    hide Heard, Steps;
    var before := Heard(f.announced, f.missed);
    assert Steps(f.returned) + (f.pending + more) == (Steps(f.returned) + f.pending) + more;
    assert f.backlog + (before + more) == (f.backlog + before) + more;
  }

  lemma AnnounceKeepsAnnounced(f: Stream, heard: bool)
    requires AnnouncedInOrder(f)
    ensures AnnouncedInOrder(Announced(f, true, f.open, heard))
  {
    IncreasingAppend(f.pending, f.open);
    HeardNext(f.announced, f.missed, f.open, heard);
    AnnounceAppends(f, if heard then [f.open] else []);
    hide Heard, Steps, Increasing;
    assert f.pending + [] == f.pending;
  }

  lemma OrderedAnnounce(f: Stream, heard: bool)
    requires Ordered(f) && f.sent == multiset{}
    ensures Ordered(Announced(f, true, f.open, heard))
  {
    AnnounceKeepsAnnounced(f, heard);
    hide AnnouncedInOrder;
  }

  ghost predicate InOrder(ps: seq<Arrival>) { forall i, j | 0 <= i < j < |ps| :: ps[i].step <= ps[j].step }

  /** What is left of a queue in step order is of later steps, and in order. */
  lemma {:induction false} LaterInOrder(ps: seq<Arrival>, step: nat)
    requires InOrder(ps)
    ensures InOrder(Later(ps, step)) && forall p | p in Later(ps, step) :: p.step > step
  {
    if ps != [] && ps[0].step <= step {
      LaterInOrder(ps[1..], step);
    }
  }

  lemma FirstIsLeast(xs: seq<nat>)
    requires Increasing(xs) && xs != []
    ensures forall k | k in xs :: xs[0] == k || (xs[0] < k && k in xs[1..])
  {
  }

  /** The step read is the least heard of, so the drain drops only what was missed. */
  lemma StepSplits(f: Stream)
    requires WaitingInOrder(f) && AnnouncedInOrder(f) && f.pending != []
    ensures var step := f.pending[0];
      && InOrder(Later(f.waiting, step)) && (forall p | p in Later(f.waiting, step) :: p.step > step && p in f.waiting)
      && forall p | p in Stale(f.waiting, step) :: p.step in f.missed
  {
    FirstIsLeast(f.pending);
    ReadingSplits(f.waiting, f.pending[0]);
    LaterInOrder(f.waiting, f.pending[0]);
    hide Taken, Later, Stale;
    assert f.pending[0] in f.pending;
  }

  lemma StepKeepsWaiting(f: Stream)
    requires WaitingInOrder(f) && AnnouncedInOrder(f) && f.pending != []
    ensures WaitingInOrder(Stepped(f))
  {
    hide Taken, Later, Stale;
    FirstIsLeast(f.pending);
    StepSplits(f);
    forall q | q in Later(f.waiting, f.pending[0])
      ensures q.step == f.open || (q.step < f.open && (q.step in f.pending[1..] || q.step in f.missed))
    {
      assert q in f.waiting;
    }
  }

  lemma StepKeepsAnnounced(f: Stream)
    requires AnnouncedInOrder(f) && f.pending != []
    ensures AnnouncedInOrder(Stepped(f))
  {
    hide Taken, Later, Stale, Heard;
    var g := Stepped(f);
    assert Steps(g.returned) == Steps(f.returned) + [f.pending[0]];
    assert Steps(g.returned) + g.pending == Steps(f.returned) + f.pending;
    FirstIsLeast(f.pending);
    forall k | k in g.pending ensures k in f.pending { }
    forall i, j | 0 <= i < j < |g.pending| ensures g.pending[i] < g.pending[j] {
      assert f.pending[i + 1] < f.pending[j + 1];
    }
  }

  lemma StepIncreases(f: Stream)
    requires ReturnedInOrder(f) && f.pending != []
    ensures Increasing(Steps(Stepped(f).returned))
  {
    var step, g := f.pending[0], Stepped(f);
    hide Taken, Later, Stale;
    assert step in f.pending;
    forall k | k in Steps(f.returned) ensures k < step {
      var i :| 0 <= i < |f.returned| && f.returned[i].step == k;
      assert f.returned[i] in f.returned;
    }
    IncreasingAppend(Steps(f.returned), step);
    assert Steps(g.returned) == Steps(f.returned) + [step];
  }

  /** What holds of a step once it has been returned. */
  ghost predicate WellReturned(f: Stream, x: Returned) {
    && x.step < f.open && x.step !in f.missed && (forall k | k in f.pending :: x.step < k)
    && forall p | p in x.pushes :: p.step == x.step
  }

  lemma StepReturnsWell(f: Stream)
    requires AnnouncedInOrder(f) && f.pending != []
    ensures WellReturned(Stepped(f), Returned(f.pending[0], Taken(f.waiting, f.pending[0])))
  {
    hide Heard, Steps, Consecutive, Later, Stale;
    ReadingSplits(f.waiting, f.pending[0]);
    hide Taken;
    RestIsLater(f.pending);
    assert f.pending[0] in f.pending;
  }

  lemma StepKeepsReturned(f: Stream)
    requires WaitingInOrder(f) && AnnouncedInOrder(f) && ReturnedInOrder(f) && f.pending != []
    ensures ReturnedInOrder(Stepped(f))
  {
    StepIncreases(f);
    StepReturnsWell(f);
    RestIsLater(f.pending);
    hide Taken, Later, Stale, Increasing, Steps, WaitingInOrder, AnnouncedInOrder;
    var g := Stepped(f);
    forall x | x in g.returned ensures WellReturned(g, x) {
      assert x in f.returned ==> WellReturned(f, x);
    }
  }

  lemma RestIsLater(xs: seq<nat>)
    requires Increasing(xs) && xs != []
    ensures forall k | k in xs[1..] :: k in xs && xs[0] < k
  {
  }

  lemma StepKeepsBalance(f: Stream)
    requires WaitingInOrder(f) && AnnouncedInOrder(f) && Balanced(f) && f.pending != []
    ensures Balanced(Stepped(f))
  {
    var step := f.pending[0];
    StepSplits(f);
    ReadingSplits(f.waiting, step);
    ReturnedGrows(f.returned, Returned(step, Taken(f.waiting, step)));
    hide Taken, Later, Stale, WaitingInOrder, AnnouncedInOrder, InOrder, AllPushes;
  }

  lemma ReturnedGrows(rs: seq<Returned>, r: Returned)
    ensures AllPushes(rs + [r]) == AllPushes(rs) + multiset(r.pushes)
  {
    assert (rs + [r])[..|rs|] == rs;
  }

  lemma OrderedStep(f: Stream)
    requires Ordered(f) && f.pending != []
    ensures Ordered(Stepped(f))
  {
    StepKeepsWaiting(f);
    StepKeepsAnnounced(f);
    StepKeepsReturned(f);
    StepKeepsBalance(f);
  }

  // ----- Each action keeps its reader fine -----

  lemma FineSubscribe(r: Reader, path: string, due: nat)
    requires Fine(r, due) && r.present && r.discarded && (r.subscribed || r.entries == map[])
    requires path in r.entries || !Backfilling(r)
    ensures Fine(Subscribed(r, path, due), due)
  {
  }

  lemma FineStage(r: Reader, path: string, from: nat, due: nat)
    requires Fine(r, due) && r.present && r.discarded && !r.subscribed
    requires forall k | k in r.stream.pending :: k < from
    ensures Fine(StagedAt(r, path, from, due), due)
  {
    var r' := StagedAt(r, path, from, due);
    assert r'.entries[path].Staged?;
    if r.active {
      var q :| q in r.entries;
      assert !r.entries[q].Live?;
      NoneReturned(r.stream);
    } else {
      OrderedStart(r.stream, due);
    }
    hide Ordered;
  }

  lemma NoneReturned(f: Stream)
    requires AnnouncedInOrder(f) && Calm(f) && f.returned == []
    ensures f.pending == f.backlog
  {
    assert Steps(f.returned) + f.pending == f.pending && f.backlog + f.announced == f.backlog;
  }

  lemma FineCall(r: Reader, due: nat)
    requires Fine(r, due) && r.present && !r.subscribed && r.entries != map[]
    ensures Fine(Called(r), due)
  {
  }

  lemma FineRelease(r: Reader, due: nat)
    requires Fine(r, due) && r.present && r.subscribed && Backfilling(r)
    ensures Fine(ReleasedAll(r), due)
  {
  }

  lemma FineTake(r: Reader, was: nat, start: nat, path: string)
    requires Fine(r, was) && path in ReleasedPaths(r)
    requires start == if r.entries[path].from < was then r.entries[path].from else was
    ensures Fine(Taking(r, start), start)
    ensures Taking(r, start).active && Taking(r, start).subscribed && AllLive(Taking(r, start))
    ensures Calm(r.stream) && Taking(r, start).stream.backlog == r.stream.backlog
    ensures forall k | k in r.stream.backlog :: k < start
  {
    assert Backfilling(r) && r.subscribed && AllReleased(r);
    BacklogIsPast(r.stream);
    OrderedRestart(r.stream, start);
    hide Ordered, Quiet, ReleasedPaths;
    assert AllLive(Taking(r, start));
    NotBackfilling(Taking(r, start));
    hide Backfilling;
  }

  lemma BacklogIsPast(f: Stream)
    requires Ordered(f) && Calm(f)
    ensures forall k | k in f.backlog :: k < f.open
  {
    var all := Steps(f.returned) + f.pending;
    assert all == f.backlog;
    forall k | k in f.backlog ensures k < f.open {
      var i :| 0 <= i < |all| && all[i] == k;
      if i < |f.returned| { assert f.returned[i] in f.returned; } else { assert f.pending[i - |f.returned|] == k; }
    }
  }

  /** A reader owed a backfill may still read what was announced before. */
  lemma FineReadsBacklog(r: Reader, due: nat)
    requires Fine(r, due) && r.subscribed && r.stream.pending != [] && Backfilling(r)
    ensures Fine(Flowing(r, Stepped(r.stream)), due)
  {
    hide Taken, Stale, Later, Ordered;
    OrderedStep(r.stream);
    Unfold(r.stream.waiting, r.stream.pending[0]);
  }

  lemma FineFlow(r: Reader, f: Stream, due: nat)
    requires Fine(r, due) && r.active && !Backfilling(r)
    requires Ordered(f) && f.open == r.stream.open && (r.subscribed || f.returned == r.stream.returned)
    ensures Fine(Flowing(r, f), due)
  {
  }

  lemma FineIssue(r: Reader, p: Arrival, due: nat)
    requires Fine(r, due) && r.present && p.path in r.entries && r.entries[p.path].Live? && p.step == due
    ensures Fine(Flowing(r, Issued(r.stream, p)), due)
  {
    assert AllLive(r) && !Backfilling(r);
    OrderedIssue(r.stream, p);
    FineFlow(r, Issued(r.stream, p), due);
  }

  lemma FineAnnounce(r: Reader, step: nat, heard: bool)
    requires Fine(r, step) && r.present && !Backfilling(r) && r.stream.sent == multiset{}
    ensures Fine(Flowing(r, Announced(r.stream, r.active, step, heard)), step + 1)
  {
    if r.active {
      OrderedAnnounce(r.stream, heard);
    } else if r.discarded {
      IncreasingAppend(r.stream.pending, step);
    }
  }

  /** Whoever is not announced to may be due later. */
  lemma FineLater(r: Reader, due: nat, later: nat)
    requires Fine(r, due) && due <= later && (!r.present || Backfilling(r))
    ensures Fine(r, later)
  {
  }

  // ----- Each action keeps the invariant -----

  lemma WithReaderKeepsInv(s: State, m: Member, r: Reader)
    requires Inv(s) && Fine(r, DueTo(s, m))
    requires s.phase.Serving? && s.phase.member == m ==> r.active && r.subscribed && AllLive(r)
    requires s.phase.Announcing? ==> r.stream.sent == multiset{}
    ensures Inv(WithReader(s, m, r))
  {
    hide Fine, AllLive;
    var s' := WithReader(s, m, r);
    forall x | x in s'.readers ensures Fine(s'.readers[x], DueTo(s', x)) {
      assert DueTo(s', x) == DueTo(s, x);
    }
  }

  lemma NotBackfilling(r: Reader)
    ensures AllLive(r) ==> !Backfilling(r)
    ensures r.entries == map[] ==> AllLive(r) && AllStaged(r)
  {
  }

  lemma FineJoin(due: nat)
    ensures Fine(NEWCOMER, due)
  {
  }

  lemma FineBacklog(r: Reader, k: nat, due: nat)
    requires Fine(r, due) && !r.active
    ensures !r.discarded ==> Fine(Flowing(r, r.stream.(pending := r.stream.pending + [k])), due)
    ensures Fine(Flowing(r, r.stream.(pending := [])).(discarded := true), due)
  {
  }

  lemma TableStepKeepsInv(s: State, a: Action)
    requires Inv(s) && Enabled(s, a) && Careful(s, a)
    requires a.Join? || a.Seed? || a.Discard? || a.Subscribe? || a.Stage? || a.EndCall? || a.Release? || a.Leave?
    ensures Inv(Apply(s, a))
  {
    hide Ordered, Quiet;
    var m := a.m;
    var r := Apply(s, a).readers[m];
    match a {
      case Join(_) => FineJoin(DueTo(s, m));
      case Seed(_) =>
        ActiveIsDiscarded(s.readers[m], DueTo(s, m));
        FineBacklog(s.readers[m], s.last.value, DueTo(s, m));
      case Discard(_) => FineBacklog(s.readers[m], 0, DueTo(s, m));
      case Subscribe(_, path) =>
        if s.phase.Serving? && s.phase.member == m {
          ServedSubscribe(s.readers[m], path, Due(s, m), s.phase.next);
        } else {
          FineSubscribe(s.readers[m], path, Due(s, m));
        }
      case Stage(_, path, from) => FineStage(s.readers[m], path, from, DueTo(s, m));
      case EndCall(_) => FineCall(s.readers[m], DueTo(s, m));
      case Release(_) => FineRelease(s.readers[m], DueTo(s, m));
      case Leave(_) => FineLeave(s.readers[m], DueTo(s, m));
    }
    hide Fine;
    WithReaderKeepsInv(s, m, r);
  }

  lemma ActiveIsDiscarded(r: Reader, due: nat)
    requires Fine(r, due)
    ensures !r.discarded ==> !r.active
  {
  }

  lemma FineLeave(r: Reader, due: nat)
    requires Fine(r, due)
    ensures Fine(r.(present := false, entries := map[]), due)
  {
  }

  lemma ServedSubscribe(r: Reader, path: string, due: nat, next: nat)
    requires Fine(r, next) && r.present && r.active && r.subscribed && AllLive(r)
    ensures Fine(Subscribed(r, path, due), next) && AllLive(Subscribed(r, path, due))
  {
  }

  lemma IssueKeepsInv(s: State, a: Action)
    requires Inv(s) && Enabled(s, a) && (a.ServePush? || a.LivePush?)
    ensures Inv(Apply(s, a))
  {
    hide Fine;
    var m := if a.ServePush? then s.phase.member else a.m;
    var r := s.readers[m];
    FineIssue(r, a.p, DueTo(s, m));
    WithReaderKeepsInv(s, m, Flowing(r, Issued(r.stream, a.p)));
  }

  lemma FineReader(r: Reader, f: Stream, due: nat)
    requires Fine(r, due) && (r.stream.sent != multiset{} || r.subscribed)
    ensures r.active && Ordered(r.stream) && (r.stream.sent != multiset{} ==> !Backfilling(r))
  {
  }

  lemma FlowStepKeepsInv(s: State, a: Action)
    requires Inv(s) && Enabled(s, a) && (a.Deliver? || a.Lose? || a.NextStep?)
    ensures Inv(Apply(s, a))
  {
    hide Ordered, Backfilling;
    var r, due := s.readers[a.m], DueTo(s, a.m);
    var f := Apply(s, a).readers[a.m].stream;
    FineReader(r, f, due);
    match a {
      case Deliver(_, p) => OrderedDeliver(r.stream, p);
      case Lose(_, p) => OrderedLose(r.stream, p);
      case NextStep(_) => OrderedStep(r.stream);
    }
    if Backfilling(r) { FineReadsBacklog(r, due); } else { FineFlow(r, f, due); }
    hide Fine;
    WithReaderKeepsInv(s, a.m, Flowing(r, f));
  }

  lemma RespondStepKeepsInv(s: State, a: Action)
    requires Inv(s) && Enabled(s, a) && a.Respond?
    ensures Inv(Apply(s, a))
  {
    hide Fine;
    RespondKeepsFine(s.readers[a.m], a.p, DueTo(s, a.m));
    WithReaderKeepsInv(s, a.m, Apply(s, a).readers[a.m]);
  }

  lemma RespondKeepsFine(r: Reader, p: Arrival, due: nat)
    requires Fine(r, due)
    ensures Fine(Flowing(r, r.stream.(landed := r.stream.landed - multiset{p})), due)
  {
  }

  lemma PhaseStepKeepsInv(s: State, a: Action)
    requires Inv(s) && Enabled(s, a) && (a.BeginCommit? || a.BeginAnnounce? || a.EndCommit?)
    ensures Inv(Apply(s, a))
  {
    hide Tabled, Ordered;
    var s' := Apply(s, a);
    forall m | m in s'.readers ensures Fine(s'.readers[m], DueTo(s', m)) {
      if a.BeginAnnounce? && !s.readers[m].present {
        FineLater(s.readers[m], s.cur, s.cur + 1);
      } else {
        assert DueTo(s', m) == DueTo(s, m);
      }
    }
  }

  /** A reader and the phase change together, and nobody else's due step moves. */
  lemma WithReaderAndPhase(s: State, m: Member, r: Reader, phase: Phase)
    requires Inv(s) && m in s.readers
    requires var s' := WithReader(s, m, r).(phase := phase);
      && Fine(r, DueTo(s', m))
      && (forall k | k in s.readers && k != m :: DueTo(s', k) == DueTo(s, k))
      && (phase.Serving? ==> phase.next < s.cur && phase.member == m && r.active && r.subscribed && AllLive(r))
      && (phase.Announcing? ==> s.phase.Announcing? && s.phase.todo != [] && phase.todo == s.phase.todo[1..])
      && (phase.Announcing? ==> r.stream.sent == multiset{})
    ensures Inv(WithReader(s, m, r).(phase := phase))
  {
    var s' := WithReader(s, m, r).(phase := phase);
    hide Fine;
    forall k | k in s'.readers ensures Fine(s'.readers[k], DueTo(s', k)) {
    }
    hide DueTo;
  }

  lemma TakePath(s: State, m: Member, from: nat) returns (path: string)
    requires Enabled(s, TakeBackfill(m, from))
    ensures s.phase.Idle? && m in s.readers && path in ReleasedPaths(s.readers[m])
    ensures s.readers[m].entries[path].from == from
  {
    path :| path in ReleasedPaths(s.readers[m]) && s.readers[m].entries[path].from == from;
  }

  lemma TakeFine(s: State, m: Member, from: nat)
    requires Inv(s) && Enabled(s, TakeBackfill(m, from))
    ensures s.phase.Idle? && m in s.readers && Calm(s.readers[m].stream)
    ensures var start := if from < s.cur then from else s.cur;
      var t := Taking(s.readers[m], start);
      && Fine(t, start) && t.active && t.subscribed && AllLive(t)
      && t.stream.base == start && t.stream.backlog == s.readers[m].stream.backlog
      && forall k | k in s.readers[m].stream.backlog :: k < start
  {
    hide Enabled, ReleasedPaths, Backfilling, Fine;
    var path := TakePath(s, m, from);
    FineTake(s.readers[m], DueTo(s, m), if from < s.cur then from else s.cur, path);
  }

  /** A reader and the phase change together, nobody else's due step moves, and
      the reader's own becomes due. */
  ghost predicate ChangesTo(s: State, t: State, m: Member, r: Reader, phase: Phase, due: nat) {
    && m in s.readers && t == WithReader(s, m, r).(phase := phase) && DueTo(t, m) == due
    && (forall k | k in s.readers && k != m :: DueTo(t, k) == DueTo(s, k))
    && (phase.Serving? ==> phase.next < s.cur && phase.member == m)
    && (phase.Announcing? ==> s.phase.Announcing? && s.phase.todo != [] && phase.todo == s.phase.todo[1..])
  }

  lemma ChangeKeepsInv(s: State, t: State, m: Member, r: Reader, phase: Phase, due: nat)
    requires Inv(s) && ChangesTo(s, t, m, r, phase, due) && Fine(r, due)
    requires phase.Serving? ==> r.active && r.subscribed && AllLive(r)
    requires phase.Announcing? ==> r.stream.sent == multiset{}
    ensures Inv(t)
  {
    hide Fine, AllLive, Due;
    WithReaderAndPhase(s, m, r, phase);
  }

  lemma TakeChanges(s: State, a: Action)
    requires Enabled(s, a) && a.TakeBackfill?
    ensures var r, start := s.readers[a.m], if a.from < s.cur then a.from else s.cur;
      ChangesTo(s, Apply(s, a), a.m, Taking(r, start),
                if a.from < s.cur then Serving(a.m, ReleasedPaths(r), a.from) else Idle, start)
  {
    hide Taking, ReleasedPaths;
  }

  lemma TakeKeepsInv(s: State, a: Action)
    requires Inv(s) && Enabled(s, a) && a.TakeBackfill?
    ensures Inv(Apply(s, a))
  {
    TakeFine(s, a.m, a.from);
    TakeChanges(s, a);
    hide Inv, Enabled, Apply, ChangesTo, ReleasedPaths, Fine, Taking, AllLive;
    var start := if a.from < s.cur then a.from else s.cur;
    ChangeKeepsInv(s, Apply(s, a), a.m, Taking(s.readers[a.m], start),
                   if a.from < s.cur then Serving(a.m, ReleasedPaths(s.readers[a.m]), a.from) else Idle, start);
  }

  lemma ServeChanges(s: State, a: Action)
    requires s.phase.Serving? && s.phase.member in s.readers && s.phase.next < s.cur
    requires Enabled(s, a) && a.ServeAnnounce?
    ensures var m, k := s.phase.member, s.phase.next;
      ChangesTo(s, Apply(s, a), m, ToldIf(s.readers[m], s.readers[m].present, k, a.heard),
                if k + 1 < s.cur then s.phase.(next := k + 1) else Idle, k + 1)
  {
    hide Announced;
  }

  lemma ServedIs(s: State)
    requires Inv(s) && s.phase.Serving? && AllComplete(s)
    ensures s.phase.member in s.readers && s.phase.next < s.cur
    ensures var r := s.readers[s.phase.member];
      r.active && r.subscribed && AllLive(r) && !Backfilling(r) && r.stream.sent == multiset{} && Fine(r, s.phase.next)
  {
    NotBackfilling(s.readers[s.phase.member]);
    hide Fine;
    assert DueTo(s, s.phase.member) == s.phase.next;
  }

  /** Told of a step or not, a reader is then due the next. */
  lemma ToldIsFine(r: Reader, step: nat, heard: bool)
    requires Fine(r, step) && r.stream.sent == multiset{}
    ensures Fine(ToldIf(r, r.present && !Backfilling(r), step, heard), step + 1)
  {
    hide Fine, Backfilling, Announced;
    if r.present && !Backfilling(r) { FineAnnounce(r, step, heard); } else { FineLater(r, step, step + 1); }
  }

  lemma ServeAnnounceKeepsInv(s: State, a: Action)
    requires Inv(s) && Enabled(s, a) && a.ServeAnnounce?
    ensures Inv(Apply(s, a))
  {
    ServeEnabled(s, a);
    ServedIs(s);
    ServeChanges(s, a);
    hide Inv, Enabled, Apply, ChangesTo, Fine, AllLive, Backfilling, Announced;
    var m, k := s.phase.member, s.phase.next;
    var r := s.readers[m];
    ToldIsFine(r, k, a.heard);
    var told := ToldIf(r, r.present, k, a.heard);
    LiveStays(r, told);
    ChangeKeepsInv(s, Apply(s, a), m, told, if k + 1 < s.cur then s.phase.(next := k + 1) else Idle, k + 1);
  }

  lemma ServeEnabled(s: State, a: Action)
    requires Enabled(s, a) && a.ServeAnnounce?
    ensures s.phase.Serving? && s.phase.member in s.readers && AllComplete(s)
  {
  }

  lemma LiveStays(r: Reader, told: Reader)
    requires AllLive(r) && told.entries == r.entries
    ensures AllLive(told)
  {
  }

  lemma AnnounceEnabled(s: State, a: Action)
    requires Enabled(s, a) && a.AnnounceNext?
    ensures s.phase.Announcing? && s.phase.todo != [] && s.phase.todo[0] in s.readers
  {
  }

  lemma NextIsDue(s: State)
    requires Inv(s) && s.phase.Announcing? && s.phase.todo != [] && s.phase.todo[0] in s.readers
    ensures var r := s.readers[s.phase.todo[0]]; Fine(r, s.cur) && r.stream.sent == multiset{}
  {
    assert s.phase.todo[0] in s.phase.todo;
    hide Fine;
    assert DueTo(s, s.phase.todo[0]) == s.cur;
  }

  lemma AnnounceChanges(s: State, a: Action)
    requires s.phase.Announcing? && s.phase.todo != [] && s.phase.todo[0] in s.readers
    requires (forall i, j | 0 <= i < j < |s.phase.todo| :: s.phase.todo[i] != s.phase.todo[j])
    requires Enabled(s, a) && a.AnnounceNext?
    ensures var m := s.phase.todo[0];
      ChangesTo(s, Apply(s, a), m,
                ToldIf(s.readers[m], s.readers[m].present && !Backfilling(s.readers[m]), s.cur, a.heard),
                Announcing(s.phase.todo[1..]), s.cur + 1)
  {
    hide Announced, Backfilling;
  }

  lemma TodoIsDistinct(s: State)
    requires Inv(s) && s.phase.Announcing?
    ensures forall i, j | 0 <= i < j < |s.phase.todo| :: s.phase.todo[i] != s.phase.todo[j]
  {
  }

  lemma AnnounceNextKeepsInv(s: State, a: Action)
    requires Inv(s) && Enabled(s, a) && a.AnnounceNext?
    ensures Inv(Apply(s, a))
  {
    AnnounceEnabled(s, a);
    NextIsDue(s);
    TodoIsDistinct(s);
    AnnounceChanges(s, a);
    hide Inv, Enabled, Apply, ChangesTo, Fine, Backfilling, Announced;
    var m := s.phase.todo[0];
    var r := s.readers[m];
    ToldIsFine(r, s.cur, a.heard);
    ChangeKeepsInv(s, Apply(s, a), m, ToldIf(r, r.present && !Backfilling(r), s.cur, a.heard),
                   Announcing(s.phase.todo[1..]), s.cur + 1);
  }

  lemma StepKeepsInv(s: State, a: Action)
    requires Inv(s) && Enabled(s, a) && Careful(s, a)
    ensures Inv(Apply(s, a))
  {
    hide Inv, Enabled, Careful, Apply;
    match a
    case Join(_) => TableStepKeepsInv(s, a);
    case Seed(_) => TableStepKeepsInv(s, a);
    case Discard(_) => TableStepKeepsInv(s, a);
    case Subscribe(_, _) => TableStepKeepsInv(s, a);
    case Stage(_, _, _) => TableStepKeepsInv(s, a);
    case EndCall(_) => TableStepKeepsInv(s, a);
    case Release(_) => TableStepKeepsInv(s, a);
    case Leave(_) => TableStepKeepsInv(s, a);
    case TakeBackfill(_, _) => TakeKeepsInv(s, a);
    case ServeAnnounce(_) => ServeAnnounceKeepsInv(s, a);
    case AnnounceNext(_) => AnnounceNextKeepsInv(s, a);
    case BeginCommit => PhaseStepKeepsInv(s, a);
    case BeginAnnounce(_) => PhaseStepKeepsInv(s, a);
    case EndCommit => PhaseStepKeepsInv(s, a);
    case ServePush(_) => IssueKeepsInv(s, a);
    case LivePush(_, _) => IssueKeepsInv(s, a);
    case Respond(_, _) => RespondStepKeepsInv(s, a);
    case Deliver(_, _) => FlowStepKeepsInv(s, a);
    case Lose(_, _) => FlowStepKeepsInv(s, a);
    case NextStep(_) => FlowStepKeepsInv(s, a);
  }

  // ----- Whole runs -----

  /** A run of enabled actions from s that keeps to what callers owe. */
  ghost predicate IsRun(s: State, acts: seq<Action>)
    decreases |acts|, 0
  {
    acts == [] ||
    var front, a := acts[..|acts| - 1], acts[|acts| - 1];
    && IsRun(s, front)
    && Enabled(After(s, front), a)
    && Careful(After(s, front), a)
  }

  ghost function After(s: State, acts: seq<Action>): State
    requires IsRun(s, acts)
    decreases |acts|, 1
  {
    if acts == [] then s else Apply(After(s, acts[..|acts| - 1]), acts[|acts| - 1])
  }

  lemma {:induction false} RunKeepsInv(s: State, acts: seq<Action>)
    requires Inv(s) && IsRun(s, acts)
    ensures Inv(After(s, acts))
  {
    hide Inv, Enabled, Careful, Apply;
    if acts != [] {
      RunKeepsInv(s, acts[..|acts| - 1]);
      StepKeepsInv(After(s, acts[..|acts| - 1]), acts[|acts| - 1]);
    }
  }

  /** x is in the returned step as often as it was issued and not lost, if it is
      of that step, and not at all if it is not. */
  ghost predicate GivenExactly(f: Stream, r: Returned, x: Arrival) {
    && (x.step == r.step ==> f.issued[x] == f.lost[x] + multiset(r.pushes)[x])
    && (x.step != r.step ==> x !in r.pushes)
  }

  /** Each returned step is given exactly the pushes issued to this reader for
      that step that were not lost: none is left behind, repeated, or moved. */
  ghost predicate Exact(f: Stream) {
    forall i, x: Arrival | 0 <= i < |f.returned| :: GivenExactly(f, f.returned[i], x)
  }

  lemma {:induction false} PushesOfOneStep(rs: seq<Returned>, i: int, x: Arrival)
    requires Increasing(Steps(rs))
    requires forall r | r in rs :: forall p | p in r.pushes :: p.step == r.step
    ensures 0 <= i < |rs| && rs[i].step == x.step ==> AllPushes(rs)[x] == multiset(rs[i].pushes)[x]
    ensures (forall j | 0 <= j < |rs| :: rs[j].step != x.step) ==> AllPushes(rs)[x] == 0
  {
    if rs != [] {
      var n := |rs| - 1;
      var front := rs[..n];
      assert Steps(front) == Steps(rs)[..n];
      PushesOfOneStep(front, i, x);
      assert rs[n] in rs;
      if 0 <= i < |rs| && rs[i].step == x.step {
        if i < n {
          assert Steps(rs)[i] < Steps(rs)[n];
          assert x !in rs[n].pushes;
        } else {
          forall j | 0 <= j < n ensures front[j].step != x.step { assert Steps(rs)[j] < Steps(rs)[n]; }
        }
      }
    }
  }

  lemma OrderedIsExact(f: Stream)
    requires Ordered(f)
    ensures Exact(f)
  {
    forall i, x: Arrival | 0 <= i < |f.returned|
      ensures GivenExactly(f, f.returned[i], x)
    {
      var r := f.returned[i];
      assert r in f.returned;
      if x.step == r.step {
        PushesOfOneStep(f.returned, i, x);
        assert x !in f.sent && x !in f.waiting;
      }
    }
  }

  lemma {:induction false} HeardMembers(steps: seq<nat>, missed: set<nat>, k: nat)
    ensures k in Heard(steps, missed) <==> k in steps && k !in missed
  {
    if steps != [] {
      HeardMembers(steps[..|steps| - 1], missed, k);
      assert steps == steps[..|steps| - 1] + [steps[|steps| - 1]];
    }
  }

  /** A step announced is missing from what was and will be returned exactly if
      its announcement was lost. */
  lemma MissingIsLost(f: Stream, k: nat)
    requires Ordered(f) && f.base <= k < f.open
    ensures k !in Steps(f.returned) + f.pending <==> k in f.missed
  {
    var all, heard := Steps(f.returned) + f.pending, Heard(f.announced, f.missed);
    assert f.announced[k - f.base] == k;
    HeardMembers(f.announced, f.missed, k);
    assert forall x | x in f.returned :: x.step !in f.missed;
    assert forall i | 0 <= i < |f.returned| :: f.returned[i] in f.returned;
    assert forall i | 0 <= i < |all| ::
      all[i] !in f.missed && (i < |f.returned| || all[i] == f.pending[i - |f.returned|]);
    hide Heard, Ordered, Steps;
    assert k in heard ==> k in f.backlog + heard;
  }

  /** What an ordered stream has delivered. */
  ghost predicate Delivering(f: Stream) {
    && Steps(f.returned) + f.pending == f.backlog + Heard(f.announced, f.missed)
    && Consecutive(f.announced, f.base, f.open)
    && (forall k | f.base <= k < f.open :: k !in Steps(f.returned) + f.pending <==> k in f.missed)
    && Balanced(f)
  }

  lemma OrderedDelivers(f: Stream)
    requires Ordered(f)
    ensures Exact(f) && Delivering(f)
  {
    OrderedIsExact(f);
    forall k | f.base <= k < f.open ensures k !in Steps(f.returned) + f.pending <==> k in f.missed {
      MissingIsLost(f, k);
    }
    hide Exact, Heard, WaitingInOrder, ReturnedInOrder, Balanced;
  }

  /** Whole-run delivery. Over every run in which callers are careful, whatever
      pushes and announcements are lost: a reader is returned the steps whose
      announcement reached it, in that order, with each exactly that step's
      pushes that were not lost; a step announced to it is missing exactly if its
      announcement was lost, and only pushes of such steps are dropped; and the
      announcements since its first subscription are consecutive, up to the
      writer's current step whenever it is between steps and nothing is owed. */
  lemma WholeRunDelivery(acts: seq<Action>, m: Member)
    requires IsRun(INIT, acts) && m in After(INIT, acts).readers
    ensures var s := After(INIT, acts);
      var r := s.readers[m];
      && Exact(r.stream)
      && (r.active ==> Delivering(r.stream))
      && (r.active && r.present && !Backfilling(r) && s.phase.Idle? ==> r.stream.open == s.cur)
  {
    RunKeepsInv(INIT, acts);
    var s := After(INIT, acts);
    assert Fine(s.readers[m], DueTo(s, m));
    hide Inv, IsRun, After;
    if s.readers[m].active {
      OrderedDelivers(s.readers[m].stream);
    }
    hide Delivering, Ordered;
  }

  // ----- Late joiners -----

  /** The last step committed: the current one once its announcement has begun. */
  function Committed(s: State): Option<nat> {
    if s.phase.Announcing? then Some(s.cur) else if s.cur == 0 then None else Some((s.cur - 1) as nat)
  }

  lemma StepKeepsLast(s: State, a: Action)
    requires s.last == Committed(s) && Enabled(s, a)
    ensures Apply(s, a).last == Committed(Apply(s, a))
  {
  }

  lemma {:induction false} LastIsCommitted(acts: seq<Action>)
    requires IsRun(INIT, acts)
    ensures After(INIT, acts).last == Committed(After(INIT, acts))
  {
    if acts != [] {
      hide Apply, Enabled, Careful, Committed;
      LastIsCommitted(acts[..|acts| - 1]);
      StepKeepsLast(After(INIT, acts[..|acts| - 1]), acts[|acts| - 1]);
    } else {
      assert INIT.last == Committed(INIT);
    }
  }

  /** A late joiner is told of the last step committed, and nobody else of anything. */
  lemma LateJoinerIsTold(acts: seq<Action>, m: Member)
    requires IsRun(INIT, acts) && Enabled(After(INIT, acts), Seed(m))
    ensures var s := After(INIT, acts);
      var t := Apply(s, Seed(m));
      && Committed(s).Some? && m in t.readers
      && t.readers[m].stream.pending == s.readers[m].stream.pending + [Committed(s).value]
      && forall k | k in s.readers && k != m :: k in t.readers && t.readers[k] == s.readers[k]
  {
    LastIsCommitted(acts);
    hide Committed, IsRun, After;
  }

  // ----- Backfill -----

  /** Once nothing is owed to an active reader, its first due step is settled. */
  ghost predicate Settled(s: State, m: Member, base: nat, backlog: seq<nat>) {
    && m in s.readers && s.readers[m].active && s.readers[m].subscribed && AllLive(s.readers[m])
    && s.readers[m].stream.base == base && s.readers[m].stream.backlog == backlog
  }

  lemma StepKeepsSettled(s: State, a: Action, m: Member, base: nat, backlog: seq<nat>)
    requires Settled(s, m, base, backlog) && Enabled(s, a)
    ensures Settled(Apply(s, a), m, base, backlog)
  {
  }

  lemma {:induction false} RunKeepsSettled(s: State, acts: seq<Action>, m: Member, base: nat, backlog: seq<nat>)
    requires Settled(s, m, base, backlog) && IsRun(s, acts)
    ensures Settled(After(s, acts), m, base, backlog)
  {
    if acts != [] {
      RunKeepsSettled(s, acts[..|acts| - 1], m, base, backlog);
      StepKeepsSettled(After(s, acts[..|acts| - 1]), acts[|acts| - 1], m, base, backlog);
    }
  }

  /** Backfill is exactly-once and in order. Nothing is sent to the reader while
      it is staged; from then on the announcements sent to it are the earliest
      step it asked for and every later one, with no gap, repeat or live step in
      between, and they are returned in that order, after announcements of
      earlier steps if any were waiting. If it asked for a step not yet committed
      when it is served, they begin with the next live step. */
  lemma BackfillExactlyOnce(before: seq<Action>, m: Member, from: nat, after: seq<Action>)
    requires IsRun(INIT, before)
    requires Enabled(After(INIT, before), TakeBackfill(m, from))
    requires IsRun(Apply(After(INIT, before), TakeBackfill(m, from)), after)
    ensures var s0 := After(INIT, before);
      var s := After(Apply(s0, TakeBackfill(m, from)), after);
      var start := if from < s0.cur then from else s0.cur;
      && Calm(s0.readers[m].stream)
      && Settled(s, m, start, s0.readers[m].stream.backlog)
      && var f := s.readers[m].stream;
      && Exact(f)
      && Consecutive(f.announced, start, f.open)
      && Steps(f.returned) + f.pending == f.backlog + Heard(f.announced, f.missed)
      && (forall k | k in f.backlog :: k < start)
      && (s.readers[m].present && s.phase.Idle? ==> f.open == s.cur)
  {
    var s0 := After(INIT, before);
    var a := TakeBackfill(m, from);
    var start := if from < s0.cur then from else s0.cur;
    RunKeepsInv(INIT, before);
    TakeSettles(s0, m, from);
    hide Inv, Enabled, IsRun, After, Exact, Apply, Settled, Calm;
    var s1, backlog := Apply(s0, a), s0.readers[m].stream.backlog;
    RunKeepsInv(s1, after);
    RunKeepsSettled(s1, after, m, start, backlog);
    SettledIsExact(After(s1, after), m, start, backlog);
  }

  lemma TakeSettles(s: State, m: Member, from: nat)
    requires Inv(s) && Enabled(s, TakeBackfill(m, from))
    ensures m in s.readers && Calm(s.readers[m].stream)
    ensures var t, start := Apply(s, TakeBackfill(m, from)), if from < s.cur then from else s.cur;
      && Inv(t) && Settled(t, m, start, s.readers[m].stream.backlog)
      && forall k | k in s.readers[m].stream.backlog :: k < start
  {
    hide Inv, Enabled, Fine, Calm;
    StepKeepsInv(s, TakeBackfill(m, from));
    TakeFine(s, m, from);
    TakeIsTaking(s, m, from);
    hide Apply, Taking, AllLive;
  }

  lemma TakeIsTaking(s: State, m: Member, from: nat)
    requires Enabled(s, TakeBackfill(m, from))
    ensures var t := Apply(s, TakeBackfill(m, from));
      m in t.readers && t.readers[m] == Taking(s.readers[m], if from < s.cur then from else s.cur)
  {
  }

  lemma SettledIsExact(s: State, m: Member, base: nat, backlog: seq<nat>)
    requires Inv(s) && Settled(s, m, base, backlog)
    ensures var f := s.readers[m].stream;
      && Exact(f) && Consecutive(f.announced, base, f.open)
      && Steps(f.returned) + f.pending == backlog + Heard(f.announced, f.missed)
      && (s.readers[m].present && s.phase.Idle? ==> f.open == s.cur)
  {
    assert Fine(s.readers[m], DueTo(s, m));
    NotBackfilling(s.readers[m]);
    OrderedIsExact(s.readers[m].stream);
  }

  // ----- Departures -----

  /** Whose reader an action touches. */
  ghost predicate Touches(s: State, a: Action, m: Member)
    requires Enabled(s, a)
  {
    match a
    case ServePush(_) => m == s.phase.member
    case ServeAnnounce(_) => m == s.phase.member
    case AnnounceNext(_) => m == s.phase.todo[0]
    case BeginCommit => false
    case BeginAnnounce(_) => false
    case EndCommit => false
    case _ => m == a.m
  }

  /** An action moves nothing of a reader it is not about, and a departure at
      any moment leaves the writer where it was: the snapshot's rest, the
      backfill being served and the step are as before. */
  lemma OthersUntouched(s: State, a: Action, m: Member)
    requires Enabled(s, a) && m in s.readers && !Touches(s, a, m)
    ensures m in Apply(s, a).readers && Apply(s, a).readers[m] == s.readers[m]
    ensures a.Leave? ==> Apply(s, a).phase == s.phase && Apply(s, a).cur == s.cur && Apply(s, a).last == s.last
  {
  }
}
