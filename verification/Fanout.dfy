/** One write and one announcement, sent to their readers while the group and
    the subscription table change under the loop. */
module Fanout {
  import opened Delivery
  import opened Ranges
  import opened WriterTables
  import opened Narrowing
  import B = BulkSources

  // ----- Who is given up -----

  /** How one push turns out: its request is refused, or forwarded and recorded --
      and then answered or lost -- or forwarded but not recorded. */
  datatype PushOutcome = Refused | Recorded(lost: bool) | Unrecorded

  /** The outcome of the k-th push of a write to a member. */
  type Net = (Member, nat) -> PushOutcome

  datatype InFlight = InFlight(member: Member, lost: bool)

  /** The requests outstanding, and whom this write has found gone. */
  datatype Link = Link(inflight: seq<InFlight>, failed: set<Member>)

  /** A full list completes its oldest request, and a lost one tells on its member. */
  function Roomed(l: Link): Link {
    if |l.inflight| < B.MAX_INFLIGHT then l
    else
      var e := l.inflight[0];
      Link(l.inflight[1..], if e.lost then l.failed + {e.member} else l.failed)
  }

  function Posted(l: Link, m: Member, o: PushOutcome): Link {
    var r := Roomed(l);
    if o.Recorded? then Link(r.inflight + [InFlight(m, o.lost)], r.failed) else r
  }

  predicate GivesUp(l: Link, m: Member, o: PushOutcome) { o.Refused? || m in Posted(l, m, o).failed }

  /** The link as the transport keeps it; lost says which requests will be. */
  ghost function LinkOf(inflight: seq<B.Transfer>, failed: seq<Member>, lost: nat -> bool): Link {
    Link(seq(|inflight|, i requires 0 <= i < |inflight| => InFlight(inflight[i].member, lost(inflight[i].handle))),
         set m | m in failed)
  }

  /** One push, as its contract in BulkSources leaves the transport, is one step
      of the link. */
  lemma PostRefines(inflight: seq<B.Transfer>, failed: seq<Member>, lost: nat -> bool, m: Member, reached: bool,
                    recorded: bool, after: seq<B.Transfer>)
    requires |inflight| <= B.MAX_INFLIGHT && (recorded ==> reached)
    requires recorded ==>
      after != [] && after == B.Kept(inflight) + [after[|after| - 1]] && after[|after| - 1].member == m
    requires !recorded ==> after == B.Kept(inflight)
    ensures var failed' := B.FailedAfter(failed, inflight, lost);
      var o := if !reached then Refused else if recorded then Recorded(lost(after[|after| - 1].handle)) else Unrecorded;
      && LinkOf(after, failed', lost) == Posted(LinkOf(inflight, failed, lost), m, o)
      && (GivesUp(LinkOf(inflight, failed, lost), m, o) <==> !reached || m in failed')
  {
    var kept, l := B.Kept(inflight), LinkOf(inflight, failed, lost);
    assert LinkOf(kept, B.FailedAfter(failed, inflight, lost), lost) == Roomed(l);
    if recorded {
      assert LinkOf(after, [], lost).inflight
          == LinkOf(kept, [], lost).inflight + [InFlight(m, lost(after[|after| - 1].handle))];
    }
  }

  /** A push moves the link as said: a member is given up for its own refused push
      or its own lost requests, and for nothing else. */
  method PostOne(src: B.Sources, m: Member, payload: B.Extent, owned: bool, env: B.Env)
    returns (unreachable: bool, ghost o: PushOutcome)
    requires src.Valid() && (payload.len > 0 ==> B.InSome(src.live, src.State().Lendable(), payload))
    requires owned ==> B.Mine(src.State(), payload, None)
    requires !env.dropped
    modifies src
    ensures src.Valid()
    ensures LinkOf(src.inflight, src.failed, env.lost) == Posted(old(LinkOf(src.inflight, src.failed, env.lost)), m, o)
    ensures unreachable <==> GivesUp(old(LinkOf(src.inflight, src.failed, env.lost)), m, o)
    ensures o.Refused? <==> !env.creates || !env.forwards
  {
    ghost var inflight, failed := src.inflight, src.failed;
    ghost var byBulk, recorded;
    unreachable, byBulk, recorded := src.PushOneItem(m, payload, owned, env);
    var reached := env.creates && env.forwards;
    PostRefines(inflight, failed, env.lost, m, reached, recorded, src.inflight);
    o := if !reached then Refused
         else if recorded then Recorded(env.lost(src.inflight[|src.inflight| - 1].handle)) else Unrecorded;
  }

  // ----- One subscriber -----

  /** What has been sent to one subscriber, on which link, and whether it was given up. */
  datatype Sent = Sent(pushes: seq<Push>, link: Link, unreachable: bool)

  function Start(l: Link): Sent { Sent([], l, false) }

  function SendOne(s: Sent, p: Push, m: Member, net: Net): Sent {
    var o := net(m, |s.pushes|);
    Sent(s.pushes + [p], Posted(s.link, m, o), GivesUp(s.link, m, o))
  }

  /** The plan sent in order, up to the push that found the member gone. */
  function Deliver(s: Sent, plan: seq<Push>, m: Member, net: Net): Sent
    decreases |plan|
  {
    if plan == [] || s.unreachable then s else Deliver(SendOne(s, plan[0], m, net), plan[1..], m, net)
  }

  lemma {:induction false} DeliverAppend(s: Sent, a: seq<Push>, b: seq<Push>, m: Member, net: Net)
    ensures Deliver(s, a + b, m, net) == Deliver(Deliver(s, a, m, net), b, m, net)
    decreases |a|
  {
    hide SendOne;
    if a == [] {
      assert a + b == b;
    } else if !s.unreachable {
      assert (a + b)[1..] == a[1..] + b;
      DeliverAppend(SendOne(s, a[0], m, net), a[1..], b, m, net);
    }
  }

  lemma DeliverNothing(s: Sent, m: Member, net: Net)
    ensures Deliver(s, [], m, net) == s
  {
  }

  /** What is sent is the plan itself, or its pushes up to the one that found
      the member gone: never out of order, never past it, none left out. */
  lemma {:induction false} DeliverIsPrefix(s: Sent, plan: seq<Push>, m: Member, net: Net)
    requires !s.unreachable
    ensures var out := Deliver(s, plan, m, net);
      && |s.pushes| <= |out.pushes| <= |s.pushes| + |plan| && out.pushes == (s.pushes + plan)[..|out.pushes|]
      && (if out.unreachable then |out.pushes| > |s.pushes| else out.pushes == s.pushes + plan)
    decreases |plan|
  {
    if plan != [] {
      assert s.pushes + plan == s.pushes + [plan[0]] + plan[1..];
      var next := SendOne(s, plan[0], m, net);
      if !next.unreachable { DeliverIsPrefix(next, plan[1..], m, net); }
    }
  }

  /** Each chunk of a run as a push of its own. */
  method PushSlices(cb: Callbacks, sub: Entry, v: View, s: nat, n: nat, chunk: nat, d: Fallbacks, net: Net, so: Sent)
    returns (out: Sent)
    requires v.Valid() && v.Spans(s, n) && chunk > 0
    ensures out == Deliver(so, Slices(cb, sub, v, s, n, chunk, d), sub.key.member, net)
  {
    var m := sub.key.member;
    hide OnePush, SendOne;
    out := so;
    var off := 0;
    while off < n && !out.unreachable
      invariant off <= n
      invariant Deliver(so, Slices(cb, sub, v, s, n, chunk, d), m, net)
             == Deliver(out, Slices(cb, sub, v, s + off, n - off, chunk, d), m, net)
    {
      var k := if n - off < chunk then n - off else chunk;
      ghost var rest := Slices(cb, sub, v, s + off, n - off, chunk, d);
      assert rest[1..] == Slices(cb, sub, v, s + off + k, n - off - k, chunk, d);
      out := SendOne(out, OnePush(cb, sub, v, s + off, k, d), m, net);
      off := off + k;
    }
  }

  method PushRun(cb: Callbacks, sub: Entry, v: View, s: nat, n: nat, d: Fallbacks, net: Net, so: Sent)
    returns (out: Sent)
    requires v.Valid() && v.Spans(s, n) && !so.unreachable
    ensures out == Deliver(so, RunPushes(cb, sub, v, s, n, d), sub.key.member, net)
  {
    hide OnePush, SendOne;
    var chunk := ChunkOf(cb, sub, v, n);
    if 0 < chunk < n {
      out := PushSlices(cb, sub, v, s, n, chunk, d, net, so);
    } else {
      var p := OnePush(cb, sub, v, s, n, d);
      out := SendOne(so, p, sub.key.member, net);
      assert [p][1..] == [];
      DeliverNothing(out, sub.key.member, net);
    }
  }

  method PushHits(cb: Callbacks, sub: Entry, v: View, s: nat, hits: seq<Run>, d: Fallbacks, net: Net, so: Sent)
    returns (out: Sent)
    requires v.Valid() && AllSpanned(v, s, hits)
    ensures out == Deliver(so, PredicatePushes(cb, sub, v, s, hits, d), sub.key.member, net)
  {
    var m := sub.key.member;
    hide RunPushes, SendOne;
    out := so;
    var r := 0;
    assert hits[0..] == hits;
    while r < |hits| && !out.unreachable
      invariant r <= |hits|
      invariant Deliver(so, PredicatePushes(cb, sub, v, s, hits, d), m, net)
             == Deliver(out, PredicatePushes(cb, sub, v, s, hits[r..], d), m, net)
    {
      assert hits[r..][1..] == hits[r + 1..];
      DeliverAppend(out, RunPushes(cb, sub, v, s + hits[r].start, hits[r].count, d),
                    PredicatePushes(cb, sub, v, s, hits[r + 1..], d), m, net);
      out := PushRun(cb, sub, v, s + hits[r].start, hits[r].count, d, net, out);
      r := r + 1;
    }
  }

  /** One selection run, narrowed by the predicate. */
  method PushSelectionRun(cb: Callbacks, ghost mean: Meaning, sub: Entry, v: View, s: nat, n: nat, d: Fallbacks,
                          net: Net, so: Sent)
    returns (out: Sent)
    requires Honest(cb, mean) && v.Valid() && v.Spans(s, n) && n > 0
    ensures var (hits, fallback) := PredicateRuns(cb, sub, v, s, n);
      && AllSpanned(v, s, hits)
      && out == Deliver(so, PredicatePushes(cb, sub, v, s, hits, d + fallback), sub.key.member, net)
  {
    PredicateRunsWithin(cb, mean, sub, v, s, n);
    hide *;
    var (hits, fallback) := PredicateRuns(cb, sub, v, s, n);
    out := PushHits(cb, sub, v, s, hits, d + fallback, net, so);
  }

  method PushSelection(cb: Callbacks, ghost mean: Meaning, sub: Entry, v: View, s: nat, runs: seq<Run>, d: Fallbacks,
                       net: Net, so: Sent)
    returns (out: Sent)
    requires Honest(cb, mean) && v.Valid() && AllSpanned(v, s, runs)
    requires forall r | r in runs :: r.count > 0
    ensures out == Deliver(so, SelectionPushes(cb, mean, sub, v, s, runs, d), sub.key.member, net)
  {
    var m := sub.key.member;
    hide Honest, PredicateRuns, PredicatePushes, SelectionPushes, Within, SendOne;
    out := so;
    var sr := 0;
    assert runs[0..] == runs;
    while sr < |runs| && !out.unreachable
      invariant sr <= |runs|
      invariant AllSpanned(v, s, runs[sr..]) && forall r | r in runs[sr..] :: r.count > 0
      invariant Deliver(so, SelectionPushes(cb, mean, sub, v, s, runs, d), m, net)
             == Deliver(out, SelectionPushes(cb, mean, sub, v, s, runs[sr..], d), m, net)
    {
      assert runs[sr..][0] == runs[sr] && runs[sr..][1..] == runs[sr + 1..];
      SelectionUnfold(cb, mean, sub, v, s, runs[sr..], d);
      var start, n := s + runs[sr].start, runs[sr].count;
      ghost var (hits, fallback) := PredicateRuns(cb, sub, v, start, n);
      DeliverAppend(out, PredicatePushes(cb, sub, v, start, hits, d + fallback),
                    SelectionPushes(cb, mean, sub, v, s, runs[sr + 1..], d), m, net);
      out := PushSelectionRun(cb, mean, sub, v, start, n, d, net, out);
      sr := sr + 1;
    }
    NoSelectionPushes(cb, mean, sub, v, s, d);
  }

  lemma NoSelectionPushes(cb: Callbacks, mean: Meaning, sub: Entry, v: View, s: nat, d: Fallbacks)
    requires Honest(cb, mean) && v.Valid()
    ensures AllSpanned(v, s, []) && SelectionPushes(cb, mean, sub, v, s, [], d) == []
  {
  }

  /** Everything one write owes one subscriber, until it is found gone. */
  method PushSubscriber(cb: Callbacks, ghost mean: Meaning, w: Write, sub: Entry, net: Net, link: Link)
    returns (out: Sent)
    requires Honest(cb, mean) && w.Valid()
    ensures out == Deliver(Start(link), Plan(cb, mean, w, sub), sub.key.member, net)
  {
    var ov := OverlapOf(w, sub);
    if ov.count == 0 {
      return Start(link);
    }
    PlanUnfold(cb, mean, w, sub);
    hide *;
    var (runs, span) := SelectionRuns(cb, w, sub, ov);
    var v := ViewOf(cb, w, sub, ov);
    out := PushSelection(cb, mean, sub, v, ov.start, runs, span + TypeFallback(sub, v), net, Start(link));
  }

  // ----- What happens meanwhile -----

  /** One locked section: a member enters or leaves the member table, loses its
      subscriptions, or sends a request. */
  datatype Change = Enters(member: Member) | Exits(member: Member) | Purged(member: Member) | Asks(request: Request)

  function By(c: Change): Member { if c.Asks? then c.request.key.member else c.member }

  /** What happens just before the i-th member is looked up. */
  type World = nat -> seq<Change>

  function ChangesUpto(world: World, i: nat): seq<Change> {
    if i == 0 then world(0) else ChangesUpto(world, i - 1) + world(i)
  }

  /** What has happened when the i-th member's turn comes. */
  function Before(world: World, i: nat): seq<Change> { if i == 0 then [] else ChangesUpto(world, i - 1) }

  lemma BeforeNext(world: World, i: nat)
    ensures Before(world, i + 1) == ChangesUpto(world, i) == Before(world, i) + world(i)
  {
  }

  function MembersStep(members: seq<Member>, self: Member, c: Change): seq<Member> {
    match c
    case Enters(m) => Added(members, self, m)
    case Exits(m) => Removed(members, m)
    case _ => members
  }

  function MembersThrough(members: seq<Member>, self: Member, cs: seq<Change>): seq<Member> {
    if cs == [] then members else MembersStep(MembersThrough(members, self, cs[..|cs| - 1]), self, cs[|cs| - 1])
  }

  type Table = map<Key, Entry>

  ghost function TableStep(t: Table, c: Change): Table {
    match c
    case Asks(r) => Requested(t, r)
    case Purged(m) => map k | k in t && k.member != m :: t[k]
    case _ => t
  }

  ghost function TableThrough(t: Table, cs: seq<Change>): Table {
    if cs == [] then t else TableStep(TableThrough(t, cs[..|cs| - 1]), cs[|cs| - 1])
  }

  lemma {:induction false} ThroughAppend(members: seq<Member>, self: Member, t: Table, a: seq<Change>, b: seq<Change>)
    ensures MembersThrough(members, self, a + b) == MembersThrough(MembersThrough(members, self, a), self, b)
    ensures TableThrough(t, a + b) == TableThrough(TableThrough(t, a), b)
    decreases |b|
  {
    hide MembersStep, TableStep;
    if b == [] {
      assert a + b == a;
    } else {
      assert (a + b)[..|a + b| - 1] == a + b[..|b| - 1];
      ThroughAppend(members, self, t, a, b[..|b| - 1]);
    }
  }

  lemma NothingYet(members: seq<Member>, self: Member, t: Table, world: World)
    ensures MembersThrough(members, self, Before(world, 0)) == members && TableThrough(t, Before(world, 0)) == t
  {
  }

  /** Let one change happen. */
  method ElapseOne(wr: Writer, c: Change)
    requires wr.Valid()
    modifies wr`members, wr`subs
    ensures wr.Valid()
    ensures wr.members == MembersStep(old(wr.members), wr.self, c)
    ensures AsMap(wr.subs) == TableStep(old(AsMap(wr.subs)), c)
  {
    match c
    case Asks(r) => var matched := wr.Subscribe(r);
    case Enters(m) => wr.AddMember(m);
    case Exits(m) => wr.RemoveMember(m);
    case Purged(m) =>
      WithoutMap(wr.subs, m);
      hide AsMap, Without;
      wr.PurgeSubscriptions(m);
  }

  method Elapse(wr: Writer, cs: seq<Change>)
    requires wr.Valid()
    modifies wr`members, wr`subs
    ensures wr.Valid()
    ensures wr.members == MembersThrough(old(wr.members), wr.self, cs)
    ensures AsMap(wr.subs) == TableThrough(old(AsMap(wr.subs)), cs)
  {
    hide Unique, Distinct, LagIsGreatest, MembersStep, TableStep, AsMap;
    for i := 0 to |cs|
      invariant wr.Valid()
      invariant wr.members == MembersThrough(old(wr.members), wr.self, cs[..i])
      invariant AsMap(wr.subs) == TableThrough(old(AsMap(wr.subs)), cs[..i])
    {
      assert cs[..i + 1][..i] == cs[..i];
      ElapseOne(wr, cs[i]);
    }
    assert cs[..|cs|] == cs;
  }

  ghost predicate PresentAt(members: seq<Member>, self: Member, world: World, i: nat, m: Member) {
    m in MembersThrough(members, self, ChangesUpto(world, i))
  }

  // ----- One write -----

  /** What the i-th subscriber of the snapshot is sent, on the link it finds. */
  ghost function SentTo(cb: Callbacks, mean: Meaning, w: Write, members: seq<Member>, self: Member, world: World,
                        net: Net, e: Entry, i: nat, link: Link): Sent
    requires Honest(cb, mean) && w.Valid()
  {
    if e.key.member == self || !PresentAt(members, self, world, i, e.key.member) then Start(link)
    else Deliver(Start(link), Plan(cb, mean, w, e), e.key.member, net)
  }

  /** The link as the i-th subscriber finds it. */
  ghost function LinkAt(cb: Callbacks, mean: Meaning, w: Write, members: seq<Member>, self: Member, world: World,
                        net: Net, snapshot: seq<Entry>, i: nat, link: Link): Link
    requires Honest(cb, mean) && w.Valid() && i <= |snapshot|
  {
    if i == 0 then link
    else SentTo(cb, mean, w, members, self, world, net, snapshot[i - 1], i - 1,
                LinkAt(cb, mean, w, members, self, world, net, snapshot, i - 1, link)).link
  }

  /** What the i-th subscriber of a snapshot is sent by the whole write. */
  ghost function SentAt(cb: Callbacks, mean: Meaning, w: Write, members: seq<Member>, self: Member, world: World,
                        net: Net, snapshot: seq<Entry>, i: nat, link: Link): seq<Push>
    requires Honest(cb, mean) && w.Valid() && i < |snapshot|
  {
    SentTo(cb, mean, w, members, self, world, net, snapshot[i], i,
           LinkAt(cb, mean, w, members, self, world, net, snapshot, i, link)).pushes
  }

  lemma LinkNext(cb: Callbacks, mean: Meaning, w: Write, members: seq<Member>, self: Member, world: World, net: Net,
                 snapshot: seq<Entry>, i: nat, link: Link)
    requires Honest(cb, mean) && w.Valid() && i < |snapshot|
    ensures var at := LinkAt(cb, mean, w, members, self, world, net, snapshot, i, link);
      && LinkAt(cb, mean, w, members, self, world, net, snapshot, i + 1, link)
         == SentTo(cb, mean, w, members, self, world, net, snapshot[i], i, at).link
      && SentAt(cb, mean, w, members, self, world, net, snapshot, i, link)
         == SentTo(cb, mean, w, members, self, world, net, snapshot[i], i, at).pushes
  {
  }

  /** One subscriber, if it is another process and still there. */
  method PushEntry(wr: Writer, cb: Callbacks, ghost mean: Meaning, w: Write, e: Entry, net: Net, link: Link)
    returns (out: Sent)
    requires Honest(cb, mean) && w.Valid()
    ensures out == if e.key.member == wr.self || e.key.member !in wr.members then Start(link)
                   else Deliver(Start(link), Plan(cb, mean, w, e), e.key.member, net)
  {
    var present := wr.IsPresent(e.key.member);
    if e.key.member == wr.self || !present {
      return Start(link);
    }
    out := PushSubscriber(cb, mean, w, e, net, link);
  }

  /** Let the world change, then serve the i-th subscriber. */
  method PushAt(wr: Writer, cb: Callbacks, ghost mean: Meaning, w: Write, world: World, net: Net, e: Entry, i: nat,
                link: Link, ghost members: seq<Member>)
    returns (out: Sent)
    requires wr.Valid() && Honest(cb, mean) && w.Valid()
    requires wr.members == MembersThrough(members, wr.self, Before(world, i))
    modifies wr`members, wr`subs
    ensures wr.Valid() && wr.members == MembersThrough(members, wr.self, Before(world, i + 1))
    ensures out == SentTo(cb, mean, w, members, wr.self, world, net, e, i, link)
  {
    hide Honest, Plan, Deliver, Unique, Distinct, LagIsGreatest, MembersThrough, TableThrough, AsMap;
    ThroughAppend(members, wr.self, map[], Before(world, i), world(i));
    BeforeNext(world, i);
    Elapse(wr, world(i));
    out := PushEntry(wr, cb, mean, w, e, net, link);
  }

  /** Send one write to every live subscriber of its path. Nobody is given up at
      its start; requests of earlier writes may still be in flight. */
  method PushData(wr: Writer, cb: Callbacks, ghost mean: Meaning, w: Write, path: string, only: Option<Member>,
                  world: World, net: Net, inflight: seq<InFlight>)
    returns (snapshot: seq<Entry>, sent: seq<seq<Push>>)
    requires wr.Valid() && Honest(cb, mean) && w.Valid()
    modifies wr`members, wr`subs
    ensures wr.Valid()
    ensures snapshot == LiveFor(old(wr.subs), path, only) && |sent| == |snapshot|
    ensures forall i | 0 <= i < |sent| ::
      sent[i] == SentAt(cb, mean, w, old(wr.members), wr.self, world, net, snapshot, i, Link(inflight, {}))
  {
    hide *;
    ghost var members, first := wr.members, Link(inflight, {});
    var link := Link(inflight, {});
    snapshot := wr.Snapshot(path, only);
    sent := [];
    LinkFirst(cb, mean, w, members, wr.self, world, net, snapshot, first);
    NothingYet(members, wr.self, map[], world);
    for i := 0 to |snapshot|
      invariant wr.Valid() && |sent| == i && wr.members == MembersThrough(members, wr.self, Before(world, i))
      invariant link == LinkAt(cb, mean, w, members, wr.self, world, net, snapshot, i, first)
      invariant forall j | 0 <= j < i ::
        sent[j] == SentAt(cb, mean, w, members, wr.self, world, net, snapshot, j, first)
    {
      var out := PushAt(wr, cb, mean, w, world, net, snapshot[i], i, link, members);
      LinkNext(cb, mean, w, members, wr.self, world, net, snapshot, i, first);
      sent, link := sent + [out.pushes], out.link;
    }
  }

  lemma LinkFirst(cb: Callbacks, mean: Meaning, w: Write, members: seq<Member>, self: Member, world: World, net: Net,
                  snapshot: seq<Entry>, link: Link)
    requires Honest(cb, mean) && w.Valid()
    ensures LinkAt(cb, mean, w, members, self, world, net, snapshot, 0, link) == link
  {
  }

  // ----- One announcement -----

  ghost predicate HeldBack(t: Table, m: Member) { exists k | k in t :: k.member == m && !t[k].state.Live? }

  lemma HeldBackIsIt(subs: seq<Entry>, m: Member)
    requires Unique(subs)
    ensures HeldBack(AsMap(subs), m) <==> exists e | e in subs :: e.key.member == m && !e.state.Live?
  {
    AsMapHolds(subs);
    hide AsMap;
    if exists e | e in subs :: e.key.member == m && !e.state.Live? {
      var e :| e in subs && e.key.member == m && !e.state.Live?;
      var i :| 0 <= i < |subs| && subs[i] == e;
    }
  }

  /** Whether the i-th member of the snapshot is told of a step. */
  ghost predicate Told(members: seq<Member>, t: Table, self: Member, world: World, i: nat, m: Member) {
    !HeldBack(TableThrough(t, ChangesUpto(world, i)), m) && PresentAt(members, self, world, i, m)
  }

  /** Let the world change, then see whether the i-th member is to be told. */
  method TellAt(wr: Writer, world: World, i: nat, m: Member, ghost members: seq<Member>, ghost t: Table)
    returns (told: bool)
    requires wr.Valid() && wr.members == MembersThrough(members, wr.self, Before(world, i))
    requires AsMap(wr.subs) == TableThrough(t, Before(world, i))
    modifies wr`members, wr`subs
    ensures wr.Valid() && wr.members == MembersThrough(members, wr.self, Before(world, i + 1))
    ensures AsMap(wr.subs) == TableThrough(t, Before(world, i + 1))
    ensures told <==> Told(members, t, wr.self, world, i, m)
  {
    hide Unique, Distinct, LagIsGreatest, MembersThrough, TableThrough, AsMap, HeldBack;
    ThroughAppend(members, wr.self, t, Before(world, i), world(i));
    BeforeNext(world, i);
    Elapse(wr, world(i));
    HeldBackIsIt(wr.subs, m);
    var held := wr.MemberBackfilling(m);
    var present := wr.IsPresent(m);
    told := !held && present;
  }

  /** Announce a step to every member that no backfill holds back. */
  method Broadcast(wr: Writer, world: World) returns (snapshot: seq<Member>, told: seq<bool>)
    requires wr.Valid()
    modifies wr`members, wr`subs
    ensures wr.Valid()
    ensures snapshot == old(wr.members) && |told| == |snapshot|
    ensures forall i | 0 <= i < |told| ::
      told[i] <==> Told(old(wr.members), old(AsMap(wr.subs)), wr.self, world, i, snapshot[i])
  {
    hide *;
    ghost var members, table := wr.members, AsMap(wr.subs);
    NothingYet(members, wr.self, table, world);
    snapshot := wr.SnapshotMembers();
    told := [];
    for i := 0 to |snapshot|
      invariant wr.Valid() && |told| == i
      invariant wr.members == MembersThrough(members, wr.self, Before(world, i))
      invariant AsMap(wr.subs) == TableThrough(table, Before(world, i))
      invariant forall j | 0 <= j < i :: told[j] <==> Told(members, table, wr.self, world, j, snapshot[j])
    {
      var tell := TellAt(wr, world, i, snapshot[i], members, table);
      told := told + [tell];
    }
  }

  // ----- A notice from the group -----

  datatype Update = Joined | Left | Died | Moved | Other

  /** The locked sections a notice about m goes through. */
  function Sections(u: Update, m: Member): seq<Change> {
    match u
    case Joined => [Enters(m)]
    case Moved => [Exits(m), Enters(m), Purged(m)]
    case Other => []
    case _ => [Exits(m), Purged(m)]
  }

  /** Sections with other changes after each. */
  function Among(own: seq<Change>, world: World): seq<Change> {
    if own == [] then [] else Among(own[..|own| - 1], world) + [own[|own| - 1]] + world(|own| - 1)
  }

  method Section(wr: Writer, c: Change, world: World, own: seq<Change>, ghost members: seq<Member>, ghost t: Table)
    requires wr.Valid() && wr.members == MembersThrough(members, wr.self, Among(own, world))
    requires AsMap(wr.subs) == TableThrough(t, Among(own, world))
    modifies wr`members, wr`subs
    ensures wr.Valid() && wr.members == MembersThrough(members, wr.self, Among(own + [c], world))
    ensures AsMap(wr.subs) == TableThrough(t, Among(own + [c], world))
  {
    hide Unique, Distinct, LagIsGreatest, MembersStep, TableStep, AsMap;
    assert (own + [c])[..|own|] == own;
    ghost var before := Among(own, world);
    assert (before + [c])[..|before|] == before;
    ElapseOne(wr, c);
    ThroughAppend(members, wr.self, t, before + [c], world(|own|));
    Elapse(wr, world(|own|));
  }

  /** Follow a notice: one locked section after the other, and anything may happen
      after each of them. */
  method MembershipUpdate(wr: Writer, u: Update, m: Member, world: World)
    requires wr.Valid()
    modifies wr`members, wr`subs
    ensures wr.Valid()
    ensures wr.members == MembersThrough(old(wr.members), wr.self, Among(Sections(u, m), world))
    ensures AsMap(wr.subs) == TableThrough(old(AsMap(wr.subs)), Among(Sections(u, m), world))
  {
    ghost var members, t := wr.members, AsMap(wr.subs);
    NothingBetween(members, wr.self, t, world);
    SectionsAre(u, m);
    hide *;
    assert [] + [Exits(m)] == [Exits(m)] && [] + [Enters(m)] == [Enters(m)];
    assert [Exits(m)] + [Enters(m)] == [Exits(m), Enters(m)] && [Exits(m)] + [Purged(m)] == [Exits(m), Purged(m)];
    assert [Exits(m), Enters(m)] + [Purged(m)] == [Exits(m), Enters(m), Purged(m)];
    match u
    case Other =>
    case Joined => Section(wr, Enters(m), world, [], members, t);
    case Moved =>
      Section(wr, Exits(m), world, [], members, t);
      Section(wr, Enters(m), world, [Exits(m)], members, t);
      Section(wr, Purged(m), world, [Exits(m), Enters(m)], members, t);
    case _ =>
      Section(wr, Exits(m), world, [], members, t);
      Section(wr, Purged(m), world, [Exits(m)], members, t);
  }

  lemma SectionsAre(u: Update, m: Member)
    ensures Sections(u, m) == if u.Joined? then [Enters(m)] else if u.Moved? then [Exits(m), Enters(m), Purged(m)]
                              else if u.Other? then [] else [Exits(m), Purged(m)]
  {
  }

  lemma NothingBetween(members: seq<Member>, self: Member, t: Table, world: World)
    ensures MembersThrough(members, self, Among([], world)) == members && TableThrough(t, Among([], world)) == t
  {
  }

  // ----- Isolation: changes -----

  /** The changes that concern m. */
  function About(cs: seq<Change>, m: Member): seq<Change> {
    if cs == [] then []
    else About(cs[..|cs| - 1], m) + (if By(cs[|cs| - 1]) == m then [cs[|cs| - 1]] else [])
  }

  lemma {:induction false} AboutAppend(a: seq<Change>, b: seq<Change>, m: Member)
    ensures About(a + b, m) == About(a, m) + About(b, m)
    decreases |b|
  {
    if b == [] {
      assert a + b == a;
    } else {
      assert (a + b)[..|a + b| - 1] == a + b[..|b| - 1];
      AboutAppend(a, b[..|b| - 1], m);
    }
  }

  lemma AboutUnfold(cs: seq<Change>, m: Member)
    requires cs != []
    ensures var c, before := cs[|cs| - 1], About(cs[..|cs| - 1], m);
      if By(c) != m then About(cs, m) == before
      else About(cs, m) != [] && About(cs, m)[|About(cs, m)| - 1] == c && About(cs, m)[..|About(cs, m)| - 1] == before
  {
  }

  lemma ChangeMembers(members: seq<Member>, self: Member, c: Change, m: Member)
    requires Distinct(members)
    ensures var after := MembersStep(members, self, c);
      && Distinct(after)
      && (m in after <==> if c == Enters(m) then m in members || m != self else m in members && c != Exits(m))
  {
    if c.Exits? { RemovedMembers(members, c.member); }
    hide Removed;
  }

  /** Only m's own changes decide whether m is present ... */
  lemma {:induction false} PresenceIsOwn(members: seq<Member>, self: Member, cs: seq<Change>, m: Member)
    requires Distinct(members)
    ensures Distinct(MembersThrough(members, self, cs)) && Distinct(MembersThrough(members, self, About(cs, m)))
    ensures m in MembersThrough(members, self, cs) <==> m in MembersThrough(members, self, About(cs, m))
    decreases |cs|
  {
    if cs != [] {
      var c, before := cs[|cs| - 1], cs[..|cs| - 1];
      PresenceIsOwn(members, self, before, m);
      AboutUnfold(cs, m);
      hide About, Distinct, MembersStep;
      ChangeMembers(MembersThrough(members, self, before), self, c, m);
      ChangeMembers(MembersThrough(members, self, About(before, m)), self, c, m);
    }
  }

  ghost predicate Keyed(t: Table) { forall k | k in t :: t[k].key == k }

  /** m's part of the table. */
  ghost function EntriesOf(t: Table, m: Member): Table { map k | k in t && k.member == m :: t[k] }

  lemma OthersChange(t: Table, c: Change, m: Member)
    requires Keyed(t)
    ensures Keyed(TableStep(t, c))
    ensures By(c) != m ==> EntriesOf(TableStep(t, c), m) == EntriesOf(t, m)
  {
    if c.Asks? { RequestIsLocal(t, c.request); }
    hide Requested;
  }

  lemma OwnChange(t: Table, u: Table, c: Change, m: Member)
    requires Keyed(t) && Keyed(u) && EntriesOf(t, m) == EntriesOf(u, m) && By(c) == m
    ensures EntriesOf(TableStep(t, c), m) == EntriesOf(TableStep(u, c), m)
  {
    EntriesAt(t, u, m);
    var a, b := TableStep(t, c), TableStep(u, c);
    hide EntriesOf;
    forall k: Key | k.member == m ensures (k in a <==> k in b) && (k in a ==> a[k] == b[k]) { }
    hide TableStep;
    EqualEntries(a, b, m);
  }

  lemma EqualEntries(t: Table, u: Table, m: Member)
    requires forall k: Key | k.member == m :: (k in t <==> k in u) && (k in t ==> t[k] == u[k])
    ensures EntriesOf(t, m) == EntriesOf(u, m)
  {
  }

  lemma EntriesAt(t: Table, u: Table, m: Member)
    requires EntriesOf(t, m) == EntriesOf(u, m)
    ensures forall k: Key | k.member == m :: (k in t <==> k in u) && (k in t ==> t[k] == u[k])
  {
    forall k: Key | k.member == m ensures (k in t <==> k in u) && (k in t ==> t[k] == u[k]) {
      assert k in EntriesOf(t, m) <==> k in t;
      assert k in EntriesOf(u, m) <==> k in u;
    }
  }

  /** ... and which of its subscriptions the table holds, in what state. */
  lemma {:induction false} EntriesAreOwn(t: Table, cs: seq<Change>, m: Member)
    requires Keyed(t)
    ensures Keyed(TableThrough(t, cs)) && Keyed(TableThrough(t, About(cs, m)))
    ensures EntriesOf(TableThrough(t, cs), m) == EntriesOf(TableThrough(t, About(cs, m)), m)
    decreases |cs|
  {
    if cs != [] {
      var c, before := cs[|cs| - 1], cs[..|cs| - 1];
      EntriesAreOwn(t, before, m);
      AboutUnfold(cs, m);
      hide About, Keyed, EntriesOf, TableStep;
      OthersChange(TableThrough(t, before), c, m);
      OthersChange(TableThrough(t, About(before, m)), c, m);
      if By(c) == m { OwnChange(TableThrough(t, before), TableThrough(t, About(before, m)), c, m); }
    }
  }

  ghost predicate NothingAbout(world: World, m: Member) { forall j: nat :: About(world(j), m) == [] }

  predicate AllBy(cs: seq<Change>, m: Member) { forall c | c in cs :: By(c) == m }

  ghost predicate SameFor(world: World, world': World, m: Member) {
    forall j: nat :: About(world(j), m) == About(world'(j), m)
  }

  lemma {:induction false} SameChangesUpto(world: World, world': World, m: Member, i: nat)
    requires SameFor(world, world', m)
    ensures About(ChangesUpto(world, i), m) == About(ChangesUpto(world', i), m)
  {
    if i > 0 {
      SameChangesUpto(world, world', m, i - 1);
      AboutAppend(ChangesUpto(world, i - 1), world(i), m);
      AboutAppend(ChangesUpto(world', i - 1), world'(i), m);
    }
  }

  /** Announcements are isolated: whoever else joins, leaves or subscribes, and
      whenever, a member is told of the same steps. */
  lemma AnnouncementsAreIsolated(members: seq<Member>, t: Table, self: Member, world: World, world': World, i: nat,
                                 m: Member)
    requires Distinct(members) && Keyed(t) && SameFor(world, world', m)
    ensures Told(members, t, self, world, i, m) <==> Told(members, t, self, world', i, m)
  {
    SameChangesUpto(world, world', m, i);
    var cs, cs' := ChangesUpto(world, i), ChangesUpto(world', i);
    PresenceIsOwn(members, self, cs, m);
    PresenceIsOwn(members, self, cs', m);
    EntriesAreOwn(t, cs, m);
    EntriesAreOwn(t, cs', m);
    EntriesAt(TableThrough(t, cs), TableThrough(t, cs'), m);
    hide TableThrough, MembersThrough, EntriesOf, Keyed;
  }

  /** A member that stays, owed no backfill, is told; one that is owed one when its
      turn comes is not. */
  lemma StayersAreTold(members: seq<Member>, t: Table, self: Member, world: World, i: nat, m: Member)
    requires Distinct(members) && Keyed(t) && m in members && NothingAbout(world, m)
    ensures Told(members, t, self, world, i, m) <==> forall k | k in t && k.member == m :: t[k].state.Live?
  {
    SameChangesUpto(world, NothingChanges, m, i);
    NothingHappens(m, i);
    var cs := ChangesUpto(world, i);
    PresenceIsOwn(members, self, cs, m);
    EntriesAreOwn(t, cs, m);
    assert MembersThrough(members, self, []) == members && TableThrough(t, []) == t;
    EntriesAt(TableThrough(t, cs), t, m);
    hide TableThrough, MembersThrough, EntriesOf, Keyed, About;
  }

  /** A member whose last change was to stage a subscription is not told, and neither
      is one that has left. */
  lemma HeldBackIsNotTold(members: seq<Member>, t: Table, self: Member, world: World, i: nat, m: Member)
    requires Distinct(members) && Keyed(t) && About(ChangesUpto(world, i), m) != []
    ensures var own := About(ChangesUpto(world, i), m);
      var last := own[|own| - 1];
      || last == Exits(m)
      || (last.Asks? && last.request.from.Some? && !Amends(last.request) && !last.request.fromOnly)
      ==> !Told(members, t, self, world, i, m)
  {
    var cs := ChangesUpto(world, i);
    var own := About(cs, m);
    OwnOnly(cs, m);
    PresenceIsOwn(members, self, cs, m);
    EntriesAreOwn(t, cs, m);
    EntriesAt(TableThrough(t, cs), TableThrough(t, own), m);
    LastChange(members, t, self, own, m);
    hide About, EntriesOf, MembersThrough, TableThrough, By, ChangesUpto, Keyed, Distinct;
  }

  lemma LastChange(members: seq<Member>, t: Table, self: Member, own: seq<Change>, m: Member)
    requires Distinct(members) && Keyed(t) && own != [] && AllBy(own, m)
    ensures var last := own[|own| - 1];
      && (last == Exits(m) ==> m !in MembersThrough(members, self, own))
      && (last.Asks? && last.request.from.Some? && !Amends(last.request) && !last.request.fromOnly ==>
            HeldBack(TableThrough(t, own), m))
  {
    var last, before := own[|own| - 1], own[..|own| - 1];
    assert last in own && By(last) == m;
    PresenceIsOwn(members, self, before, m);
    EntriesAreOwn(t, before, m);
    ChangeMembers(MembersThrough(members, self, before), self, last, m);
    hide About, EntriesOf, Added, Removed, Requested, Distinct, AllBy;
    if last.Asks? { RequestRecords(TableThrough(t, before), last.request); }
  }

  lemma {:induction false} OwnOnly(cs: seq<Change>, m: Member)
    ensures AllBy(About(cs, m), m)
  {
    if cs != [] { OwnOnly(cs[..|cs| - 1], m); }
  }

  // ----- What a notice comes to -----

  lemma AboutNext(own: seq<Change>, c: Change, world: World, o: Member)
    ensures By(c) == o && About(world(|own|), o) == [] ==>
      About(Among(own + [c], world), o) == About(Among(own, world), o) + [c]
    ensures By(c) != o ==> About(Among(own + [c], world), o) == About(Among(own, world), o) + About(world(|own|), o)
  {
    assert (own + [c])[..|own|] == own;
    AboutOne(c, o);
    AboutAppend(Among(own, world) + [c], world(|own|), o);
    AboutAppend(Among(own, world), [c], o);
    hide About, By;
  }

  lemma OwnParts(own: seq<Change>, world: World, m: Member)
    requires own != [] && AllBy(own, m) && NothingAbout(world, m)
    ensures By(own[|own| - 1]) == m && About(world(|own| - 1), m) == [] && AllBy(own[..|own| - 1], m)
  {
    hide By, About;
    assert own[|own| - 1] in own;
  }

  /** m's own part of them is own ... */
  lemma {:induction false} OwnAmong(own: seq<Change>, world: World, m: Member)
    requires AllBy(own, m) && NothingAbout(world, m)
    ensures About(Among(own, world), m) == own
    decreases |own|
  {
    if own != [] {
      var k := |own| - 1;
      var before, c := own[..k], own[k];
      OwnParts(own, world, m);
      assert own == before + [c];
      hide *;
      OwnAmong(before, world, m);
      AboutNext(before, c, world, m);
    }
  }

  lemma AboutBefore(world: World, k: nat, o: Member)
    ensures About(Before(world, k + 1), o) == About(Before(world, k), o) + About(world(k), o)
  {
    BeforeNext(world, k);
    AboutAppend(Before(world, k), world(k), o);
  }

  /** ... and everyone else's is what happens in between. */
  lemma {:induction false} OthersAmong(own: seq<Change>, world: World, m: Member, o: Member)
    requires AllBy(own, m) && o != m
    ensures About(Among(own, world), o) == About(Before(world, |own|), o)
    decreases |own|
  {
    if own != [] {
      var k := |own| - 1;
      var before, c := own[..k], own[k];
      assert own == before + [c] && c in own && By(c) == m && AllBy(before, m);
      hide *;
      OthersAmong(before, world, m, o);
      AboutNext(before, c, world, o);
      AboutBefore(world, k, o);
    }
  }

  lemma AboutOne(c: Change, o: Member)
    ensures About([c], o) == if By(c) == o then [c] else []
  {
  }

  /** Whatever others do between its sections, a notice about m puts m in the
      group or out of it and takes its subscriptions, as it says ... */
  lemma NoticeTakesEffect(members: seq<Member>, self: Member, t: Table, u: Update, m: Member, world: World)
    requires Distinct(members) && self !in members && Keyed(t) && NothingAbout(world, m)
    ensures var cs := Among(Sections(u, m), world);
      && (m in MembersThrough(members, self, cs)
          <==> m != self && (u.Joined? || u.Moved? || (u.Other? && m in members)))
      && EntriesOf(TableThrough(t, cs), m) == if u.Joined? || u.Other? then EntriesOf(t, m) else map[]
  {
    var own := Sections(u, m);
    OwnAmong(own, world, m);
    PresenceIsOwn(members, self, Among(own, world), m);
    EntriesAreOwn(t, Among(own, world), m);
    SectionsAlone(members, self, t, u, m);
  }

  lemma SectionsAlone(members: seq<Member>, self: Member, t: Table, u: Update, m: Member)
    requires Distinct(members) && self !in members
    ensures m in MembersThrough(members, self, Sections(u, m))
       <==> m != self && (u.Joined? || u.Moved? || (u.Other? && m in members))
    ensures EntriesOf(TableThrough(t, Sections(u, m)), m) == if u.Joined? || u.Other? then EntriesOf(t, m) else map[]
  {
    StepAfter(members, self, t, [], Exits(m), m);
    StepAfter(members, self, t, [], Enters(m), m);
    StepAfter(members, self, t, [Exits(m)], Enters(m), m);
    StepAfter(members, self, t, [Exits(m)], Purged(m), m);
    StepAfter(members, self, t, [Exits(m), Enters(m)], Purged(m), m);
    assert MembersThrough(members, self, []) == members && TableThrough(t, []) == t;
    hide MembersThrough, TableThrough, EntriesOf;
    assert [] + [Exits(m)] == [Exits(m)] && [] + [Enters(m)] == [Enters(m)];
    assert [Exits(m)] + [Enters(m)] == [Exits(m), Enters(m)] && [Exits(m)] + [Purged(m)] == [Exits(m), Purged(m)];
    assert [Exits(m), Enters(m)] + [Purged(m)] == [Exits(m), Enters(m), Purged(m)];
  }

  /** One more of m's sections. */
  lemma StepAfter(members: seq<Member>, self: Member, t: Table, cs: seq<Change>, c: Change, m: Member)
    requires Distinct(members) && !c.Asks? && By(c) == m
    ensures m in MembersThrough(members, self, cs + [c])
       <==> if c.Enters? then m in MembersThrough(members, self, cs) || m != self
            else m in MembersThrough(members, self, cs) && !c.Exits?
    ensures EntriesOf(TableThrough(t, cs + [c]), m) == if c.Purged? then map[] else EntriesOf(TableThrough(t, cs), m)
  {
    assert (cs + [c])[..|cs|] == cs;
    PresenceIsOwn(members, self, cs, m);
    ChangeMembers(MembersThrough(members, self, cs), self, c, m);
    hide Added, Removed, Distinct;
  }

  /** ... and leaves everyone else as without it. */
  lemma NoticeIsLocal(members: seq<Member>, self: Member, t: Table, u: Update, m: Member, world: World, o: Member)
    requires Distinct(members) && Keyed(t) && o != m && NothingAbout(world, m)
    ensures var own := Sections(u, m);
      var cs, others := Among(own, world), Before(world, |own|);
      && (o in MembersThrough(members, self, cs) <==> o in MembersThrough(members, self, others))
      && EntriesOf(TableThrough(t, cs), o) == EntriesOf(TableThrough(t, others), o)
  {
    var own := Sections(u, m);
    var cs, others := Among(own, world), Before(world, |own|);
    OthersAmong(own, world, m, o);
    PresenceIsOwn(members, self, cs, o);
    PresenceIsOwn(members, self, others, o);
    EntriesAreOwn(t, cs, o);
    EntriesAreOwn(t, others, o);
  }

  // ----- Isolation: failures -----

  /** None of m's requests in flight is lost, and nobody told on it. */
  ghost predicate Spared(l: Link, m: Member) { m !in l.failed && InFlight(m, true) !in l.inflight }

  /** None of m's requests of this write is lost. */
  ghost predicate Unlost(net: Net, m: Member) { forall k: nat :: net(m, k) != Recorded(true) }

  /** Nor is any of its pushes refused. */
  ghost predicate Reachable(net: Net, m: Member) { Unlost(net, m) && forall k: nat :: !net(m, k).Refused? }

  /** The plan up to its first refused push, counting from the k-th. */
  ghost function UpToRefused(plan: seq<Push>, m: Member, net: Net, k: nat): seq<Push> {
    if plan == [] then []
    else [plan[0]] + if net(m, k).Refused? then [] else UpToRefused(plan[1..], m, net, k + 1)
  }

  lemma {:induction false} NoneRefused(plan: seq<Push>, m: Member, net: Net, k: nat)
    requires Reachable(net, m)
    ensures UpToRefused(plan, m, net, k) == plan
    decreases |plan|
  {
    if plan != [] { NoneRefused(plan[1..], m, net, k + 1); }
  }

  lemma PostSpares(l: Link, other: Member, o: PushOutcome, m: Member)
    requires Spared(l, m) && (other == m ==> o != Recorded(true))
    ensures Spared(Posted(l, other, o), m) && (other == m ==> (GivesUp(l, m, o) <==> o.Refused?))
  {
    var r := Roomed(l);
    assert forall e | e in r.inflight :: e in l.inflight;
    assert l.inflight != [] ==> l.inflight[0] in l.inflight;
  }

  /** Sending to anyone leaves m spared. */
  lemma {:induction false} DeliverSpares(s: Sent, plan: seq<Push>, other: Member, net: Net, m: Member)
    requires Spared(s.link, m) && Unlost(net, m)
    ensures Spared(Deliver(s, plan, other, net).link, m)
    decreases |plan|
  {
    hide Spared, GivesUp, Posted;
    if plan != [] && !s.unreachable {
      PostSpares(s.link, other, net(other, |s.pushes|), m);
      DeliverSpares(SendOne(s, plan[0], other, net), plan[1..], other, net, m);
    }
  }

  lemma {:induction false} DeliverUnlost(s: Sent, plan: seq<Push>, m: Member, net: Net)
    requires Spared(s.link, m) && Unlost(net, m) && !s.unreachable
    ensures Deliver(s, plan, m, net).pushes == s.pushes + UpToRefused(plan, m, net, |s.pushes|)
    decreases |plan|
  {
    hide Spared, GivesUp, Posted;
    if plan != [] {
      PostSpares(s.link, m, net(m, |s.pushes|), m);
      var next := SendOne(s, plan[0], m, net);
      if next.unreachable {
        assert Deliver(next, plan[1..], m, net) == next;
      } else {
        DeliverUnlost(next, plan[1..], m, net);
      }
    }
  }

  lemma {:induction false} LinkSpares(cb: Callbacks, mean: Meaning, w: Write, members: seq<Member>, self: Member,
                                      world: World, net: Net, snapshot: seq<Entry>, i: nat, link: Link, m: Member)
    requires Honest(cb, mean) && w.Valid() && i <= |snapshot| && Spared(link, m) && Unlost(net, m)
    ensures Spared(LinkAt(cb, mean, w, members, self, world, net, snapshot, i, link), m)
  {
    hide Honest, Plan, Deliver, Spared, Unlost, PresentAt;
    if i > 0 {
      LinkSpares(cb, mean, w, members, self, world, net, snapshot, i - 1, link, m);
      DeliverSpares(Start(LinkAt(cb, mean, w, members, self, world, net, snapshot, i - 1, link)),
                    Plan(cb, mean, w, snapshot[i - 1]), snapshot[i - 1].key.member, net, m);
    }
  }

  /** A member that loses no request is sent its plan up to the first refused push
      if it is present when looked up, and nothing if not -- whoever else leaves,
      joins, subscribes or cannot be reached. */
  lemma UnlostGetsPlan(cb: Callbacks, mean: Meaning, w: Write, members: seq<Member>, self: Member, world: World,
                       net: Net, snapshot: seq<Entry>, i: nat, link: Link)
    requires Honest(cb, mean) && w.Valid() && i < |snapshot|
    requires Unlost(net, snapshot[i].key.member) && Spared(link, snapshot[i].key.member)
    ensures var m, plan := snapshot[i].key.member, Plan(cb, mean, w, snapshot[i]);
      SentAt(cb, mean, w, members, self, world, net, snapshot, i, link)
      == if m != self && PresentAt(members, self, world, i, m) then UpToRefused(plan, m, net, 0) else []
  {
    hide Honest, Plan, Deliver, Spared, Unlost, PresentAt;
    var m := snapshot[i].key.member;
    LinkSpares(cb, mean, w, members, self, world, net, snapshot, i, link, m);
    DeliverUnlost(Start(LinkAt(cb, mean, w, members, self, world, net, snapshot, i, link)),
                  Plan(cb, mean, w, snapshot[i]), m, net);
  }

  /** A member that is found to have left is sent nothing, and one that has come back
      is served like any other. */
  lemma LeaversGetNothing(cb: Callbacks, mean: Meaning, w: Write, members: seq<Member>, self: Member, world: World,
                          net: Net, snapshot: seq<Entry>, i: nat, link: Link)
    requires Honest(cb, mean) && w.Valid() && Distinct(members) && i < |snapshot|
    requires About(ChangesUpto(world, i), snapshot[i].key.member) != []
    ensures var m := snapshot[i].key.member;
      var own := About(ChangesUpto(world, i), m);
      var sent := SentAt(cb, mean, w, members, self, world, net, snapshot, i, link);
      && (own[|own| - 1] == Exits(m) ==> sent == [])
      && (own[|own| - 1] == Enters(m) && m != self ==>
            sent == Deliver(Start(LinkAt(cb, mean, w, members, self, world, net, snapshot, i, link)),
                            Plan(cb, mean, w, snapshot[i]), m, net).pushes)
  {
    hide Honest, Plan, Deliver, About, LinkAt;
    var m, cs := snapshot[i].key.member, ChangesUpto(world, i);
    var own := About(cs, m);
    PresenceIsOwn(members, self, cs, m);
    PresenceIsOwn(members, self, own[..|own| - 1], m);
    ChangeMembers(MembersThrough(members, self, own[..|own| - 1]), self, own[|own| - 1], m);
    hide Distinct, MembersStep;
  }

  /** A member that never leaves and can be reached is sent its whole plan. */
  lemma StayersGetEverything(cb: Callbacks, mean: Meaning, w: Write, members: seq<Member>, self: Member,
                             world: World, net: Net, snapshot: seq<Entry>, i: nat, link: Link)
    requires Honest(cb, mean) && w.Valid() && Distinct(members) && i < |snapshot|
    requires var m := snapshot[i].key.member;
      m in members && m != self && Reachable(net, m) && Spared(link, m) && NothingAbout(world, m)
    ensures SentAt(cb, mean, w, members, self, world, net, snapshot, i, link) == Plan(cb, mean, w, snapshot[i])
  {
    hide Honest, Plan, SentAt, Spared, Unlost;
    var m := snapshot[i].key.member;
    SameChangesUpto(world, NothingChanges, m, i);
    NothingHappens(m, i);
    PresenceIsOwn(members, self, ChangesUpto(world, i), m);
    UnlostGetsPlan(cb, mean, w, members, self, world, net, snapshot, i, link);
    NoneRefused(Plan(cb, mean, w, snapshot[i]), m, net, 0);
  }

  /** A world in which nothing happens. */
  function NothingChanges(j: nat): seq<Change> { [] }

  lemma {:induction false} NothingHappens(m: Member, i: nat)
    ensures About(ChangesUpto(NothingChanges, i), m) == []
  {
    if i > 0 {
      NothingHappens(m, i - 1);
      AboutAppend(ChangesUpto(NothingChanges, i - 1), NothingChanges(i), m);
    }
  }

  // ----- Isolation: whatever m loses itself -----

  /** The list ends with m's requests of this write, none of m's ahead of them lost. */
  ghost predicate EndsIn(l: Link, m: Member, own: seq<InFlight>) {
    && |own| <= |l.inflight| <= B.MAX_INFLIGHT
    && l.inflight[|l.inflight| - |own|..] == own
    && InFlight(m, true) !in l.inflight[..|l.inflight| - |own|]
  }

  /** Two links that tell m the same. */
  ghost predicate Alike(a: Link, b: Link, m: Member, own: seq<InFlight>) {
    EndsIn(a, m, own) && EndsIn(b, m, own) && (m in a.failed <==> m in b.failed)
  }

  ghost function OwnRoomed(own: seq<InFlight>): seq<InFlight> {
    if |own| == B.MAX_INFLIGHT then own[1..] else own
  }

  ghost function OwnPosted(own: seq<InFlight>, m: Member, o: PushOutcome): seq<InFlight> {
    OwnRoomed(own) + if o.Recorded? then [InFlight(m, o.lost)] else []
  }

  lemma RoomedEnds(l: Link, m: Member, own: seq<InFlight>)
    requires EndsIn(l, m, own)
    ensures EndsIn(Roomed(l), m, OwnRoomed(own)) && |Roomed(l).inflight| < B.MAX_INFLIGHT
    ensures m in Roomed(l).failed
       <==> m in l.failed || (|own| == B.MAX_INFLIGHT && own[0] == InFlight(m, true))
  {
    var r, k := Roomed(l), |l.inflight| - |own|;
    if |l.inflight| < B.MAX_INFLIGHT {
      assert r == l && OwnRoomed(own) == own;
    } else if k > 0 {
      var ahead := l.inflight[..k];
      assert l.inflight[0] == ahead[0] && ahead[0] in ahead;
      assert r.inflight[..k - 1] == ahead[1..] && r.inflight[k - 1..] == own && OwnRoomed(own) == own;
    } else {
      assert l.inflight == own && r.inflight == own[1..] == OwnRoomed(own);
    }
  }

  lemma PostedEnds(l: Link, m: Member, own: seq<InFlight>, o: PushOutcome)
    requires EndsIn(l, m, own)
    ensures EndsIn(Posted(l, m, o), m, OwnPosted(own, m, o))
    ensures m in Posted(l, m, o).failed
       <==> m in l.failed || (|own| == B.MAX_INFLIGHT && own[0] == InFlight(m, true))
  {
    RoomedEnds(l, m, own);
    var r, kept := Roomed(l), OwnRoomed(own);
    hide Roomed, OwnRoomed;
    if o.Recorded? {
      AppendEnds(r, m, kept, InFlight(m, o.lost));
    }
  }

  lemma AppendEnds(l: Link, m: Member, own: seq<InFlight>, e: InFlight)
    requires EndsIn(l, m, own) && |l.inflight| < B.MAX_INFLIGHT
    ensures EndsIn(l.(inflight := l.inflight + [e]), m, own + [e])
  {
    var k := |l.inflight| - |own|;
    assert (l.inflight + [e])[k..] == l.inflight[k..] + [e] && (l.inflight + [e])[..k] == l.inflight[..k];
  }

  /** Two such links see m through the same pushes. */
  lemma {:induction false} DeliverAlike(s: Sent, s': Sent, plan: seq<Push>, m: Member, net: Net, net': Net,
                                        own: seq<InFlight>)
    requires s.pushes == s'.pushes && s.unreachable == s'.unreachable && Alike(s.link, s'.link, m, own)
    requires forall k: nat :: net(m, k) == net'(m, k)
    ensures Deliver(s, plan, m, net).pushes == Deliver(s', plan, m, net').pushes
    decreases |plan|
  {
    hide EndsIn, Posted;
    if plan != [] && !s.unreachable {
      var o := net(m, |s.pushes|);
      PostedEnds(s.link, m, own, o);
      PostedEnds(s'.link, m, own, o);
      DeliverAlike(SendOne(s, plan[0], m, net), SendOne(s', plan[0], m, net'), plan[1..], m, net, net',
                   OwnPosted(own, m, o));
    }
  }

  lemma SparedAlike(a: Link, b: Link, m: Member)
    requires Spared(a, m) && Spared(b, m) && |a.inflight| <= B.MAX_INFLIGHT && |b.inflight| <= B.MAX_INFLIGHT
    ensures Alike(a, b, m, [])
  {
    assert a.inflight[..|a.inflight|] == a.inflight && b.inflight[..|b.inflight|] == b.inflight;
  }

  /** One push to a member, and how it turns out. */
  datatype Posting = Posting(member: Member, outcome: PushOutcome)

  function PostAll(l: Link, ps: seq<Posting>): Link {
    if ps == [] then l
    else var p := ps[|ps| - 1]; Posted(PostAll(l, ps[..|ps| - 1]), p.member, p.outcome)
  }

  predicate NoneTo(ps: seq<Posting>, m: Member) { forall p | p in ps :: p.member != m }

  lemma {:induction false} PostAllAppend(l: Link, a: seq<Posting>, b: seq<Posting>)
    ensures PostAll(l, a + b) == PostAll(PostAll(l, a), b)
    decreases |b|
  {
    hide Posted;
    if b == [] {
      assert a + b == a;
    } else {
      assert (a + b)[..|a + b| - 1] == a + b[..|b| - 1];
      PostAllAppend(l, a, b[..|b| - 1]);
    }
  }

  /** What a delivery does to the link. */
  lemma {:induction false} DeliverPosts(s: Sent, plan: seq<Push>, to: Member, net: Net) returns (ps: seq<Posting>)
    ensures Deliver(s, plan, to, net).link == PostAll(s.link, ps) && forall p | p in ps :: p.member == to
    decreases |plan|
  {
    hide Posted, GivesUp;
    ps := [];
    if plan != [] && !s.unreachable {
      var next := SendOne(s, plan[0], to, net);
      var rest := DeliverPosts(next, plan[1..], to, net);
      var first := [Posting(to, net(to, |s.pushes|))];
      PostAllOne(s.link, first[0]);
      PostAllAppend(s.link, first, rest);
      ps := first + rest;
    }
  }

  lemma PostAllOne(l: Link, p: Posting)
    ensures PostAll(l, [p]) == Posted(l, p.member, p.outcome)
  {
    assert [p][..0] == [];
    assert PostAll(l, []) == l;
  }

  /** The link m finds is the first one after pushes to others. */
  lemma {:induction false} LinkIsPosts(cb: Callbacks, mean: Meaning, w: Write, members: seq<Member>, self: Member,
                                       world: World, net: Net, snapshot: seq<Entry>, i: nat, link: Link, m: Member)
    returns (ps: seq<Posting>)
    requires Honest(cb, mean) && w.Valid() && i <= |snapshot|
    requires forall j | 0 <= j < i :: snapshot[j].key.member != m
    ensures LinkAt(cb, mean, w, members, self, world, net, snapshot, i, link) == PostAll(link, ps) && NoneTo(ps, m)
  {
    hide Honest, Plan, Deliver, PresentAt, Posted;
    ps := [];
    if i > 0 {
      ps := LinkIsPosts(cb, mean, w, members, self, world, net, snapshot, i - 1, link, m);
      var at := LinkAt(cb, mean, w, members, self, world, net, snapshot, i - 1, link);
      var more := DeliverPosts(Start(at), Plan(cb, mean, w, snapshot[i - 1]), snapshot[i - 1].key.member, net);
      if SentTo(cb, mean, w, members, self, world, net, snapshot[i - 1], i - 1, at) != Start(at) {
        PostAllAppend(link, ps, more);
        ps := ps + more;
      }
    }
  }

  /** Pushes to others keep the list within its bound, and m spared if it is. */
  lemma {:induction false} OthersSpare(l: Link, ps: seq<Posting>, m: Member)
    requires |l.inflight| <= B.MAX_INFLIGHT && NoneTo(ps, m)
    ensures |PostAll(l, ps).inflight| <= B.MAX_INFLIGHT && l.failed <= PostAll(l, ps).failed
    ensures Spared(l, m) ==> Spared(PostAll(l, ps), m)
  {
    hide Spared;
    if ps != [] {
      var p, before := ps[|ps| - 1], ps[..|ps| - 1];
      OthersSpare(l, before, m);
      if Spared(l, m) { PostSpares(PostAll(l, before), p.member, p.outcome, m); }
    }
  }

  /** Departures are isolated: of two writes that differ only in what happens to
      others -- their changes, their failures, requests of earlier writes still in
      flight -- a member is sent the same, whatever becomes of its own requests,
      unless an earlier write left one of them in flight and it is lost. */
  lemma PushesAreIsolated(cb: Callbacks, mean: Meaning, w: Write, members: seq<Member>, self: Member,
                          world: World, world': World, net: Net, net': Net, snapshot: seq<Entry>, i: nat,
                          link: Link, link': Link)
    requires Honest(cb, mean) && w.Valid() && Distinct(members) && OneEach(snapshot) && i < |snapshot|
    requires |link.inflight| <= B.MAX_INFLIGHT && |link'.inflight| <= B.MAX_INFLIGHT
    requires var m := snapshot[i].key.member;
      SameFor(world, world', m) && (forall k: nat :: net(m, k) == net'(m, k)) && Spared(link, m) && Spared(link', m)
    ensures SentAt(cb, mean, w, members, self, world, net, snapshot, i, link)
         == SentAt(cb, mean, w, members, self, world', net', snapshot, i, link')
  {
    hide Honest, Plan, Deliver, Spared, Distinct, NoneTo, LinkAt, Alike;
    var m := snapshot[i].key.member;
    SameChangesUpto(world, world', m, i);
    PresenceIsOwn(members, self, ChangesUpto(world, i), m);
    PresenceIsOwn(members, self, ChangesUpto(world', i), m);
    var ps := LinkIsPosts(cb, mean, w, members, self, world, net, snapshot, i, link, m);
    var ps' := LinkIsPosts(cb, mean, w, members, self, world', net', snapshot, i, link', m);
    OthersSpare(link, ps, m);
    OthersSpare(link', ps', m);
    SparedAlike(PostAll(link, ps), PostAll(link', ps'), m);
    var s, s' := Start(PostAll(link, ps)), Start(PostAll(link', ps'));
    DeliverAlike(s, s', Plan(cb, mean, w, snapshot[i]), m, net, net', []);
  }

  // ----- When isolation fails -----

  /** Pushes to others first change nothing of what m is sent. */
  ghost predicate Isolated(l: Link, plan: seq<Push>, m: Member, net: Net) {
    forall ps | NoneTo(ps, m) ::
      Deliver(Start(PostAll(l, ps)), plan, m, net).pushes == Deliver(Start(l), plan, m, net).pushes
  }

  /** m is sent one push at most, whoever else is served: there is no second one, or
      the first finds m given up -- it is refused, m was given up before, or the list
      is full and its oldest request is m's and lost. */
  predicate OverAtOnce(l: Link, plan: seq<Push>, m: Member, net: Net) {
    || |plan| <= 1 || net(m, 0).Refused? || m in l.failed
    || (|l.inflight| == B.MAX_INFLIGHT && l.inflight[0] == InFlight(m, true))
  }

  lemma OnlyFirst(l: Link, plan: seq<Push>, m: Member, net: Net)
    requires |plan| <= 1 || GivesUp(l, m, net(m, 0))
    ensures Deliver(Start(l), plan, m, net).pushes == if plan == [] then [] else [plan[0]]
  {
    hide GivesUp;
    if plan != [] {
      var next := SendOne(Start(l), plan[0], m, net);
      assert Deliver(next, plan[1..], m, net) == next;
    }
  }

  lemma MoreThanFirst(l: Link, plan: seq<Push>, m: Member, net: Net)
    requires |plan| > 1 && !GivesUp(l, m, net(m, 0))
    ensures |Deliver(Start(l), plan, m, net).pushes| > 1
  {
    hide GivesUp, Posted;
    var next := SendOne(Start(l), plan[0], m, net);
    var after := SendOne(next, plan[1], m, net);
    assert plan[1..] != [] && plan[1..][0] == plan[1];
    assert Deliver(Start(l), plan, m, net) == Deliver(after, plan[1..][1..], m, net);
    PushesGrow(after, plan[1..][1..], m, net);
  }

  lemma {:induction false} PushesGrow(s: Sent, plan: seq<Push>, m: Member, net: Net)
    ensures |Deliver(s, plan, m, net).pushes| >= |s.pushes|
    decreases |plan|
  {
    hide GivesUp, Posted;
    if plan != [] && !s.unreachable { PushesGrow(SendOne(s, plan[0], m, net), plan[1..], m, net); }
  }

  /** n pushes to one member, each recorded and answered. */
  function Answered(to: Member, n: nat): (ps: seq<Posting>)
    ensures |ps| == n
  {
    if n == 0 then [] else Answered(to, n - 1) + [Posting(to, Recorded(false))]
  }

  lemma AnsweredNext(l: Link, to: Member, m: Member)
    requires |l.inflight| <= B.MAX_INFLIGHT
    ensures var out := Posted(l, to, Recorded(false));
      if |l.inflight| < B.MAX_INFLIGHT then out == l.(inflight := l.inflight + [InFlight(to, false)])
      else
        && out.inflight == l.inflight[1..] + [InFlight(to, false)] && l.failed <= out.failed
        && (l.inflight[0] == InFlight(m, true) ==> m in out.failed)
  {
  }

  /** The link after n of them: the oldest requests the list had no room for are
      completed, and a lost one of m's among them has told on m. */
  ghost predicate DrainedBy(l: Link, n: nat, out: Link, m: Member) {
    var gone := Max(0, |l.inflight| + n - B.MAX_INFLIGHT);
    && n <= B.MAX_INFLIGHT && |out.inflight| == |l.inflight| + n - gone
    && (forall j | gone <= j < |l.inflight| :: out.inflight[j - gone] == l.inflight[j])
    && (forall j | 0 <= j < gone && l.inflight[j] == InFlight(m, true) :: m in out.failed)
  }

  lemma DrainsOneMore(l: Link, n: nat, was: Link, to: Member, m: Member)
    requires |l.inflight| <= B.MAX_INFLIGHT && n < B.MAX_INFLIGHT && DrainedBy(l, n, was, m)
    ensures DrainedBy(l, n + 1, Posted(was, to, Recorded(false)), m)
  {
    AnsweredNext(was, to, m);
    hide Posted;
  }

  lemma {:induction false} AnsweredDrains(l: Link, to: Member, n: nat, m: Member)
    requires |l.inflight| <= B.MAX_INFLIGHT && n <= B.MAX_INFLIGHT && to != m
    ensures NoneTo(Answered(to, n), m) && DrainedBy(l, n, PostAll(l, Answered(to, n)), m)
  {
    hide Posted;
    if n > 0 {
      AnsweredDrains(l, to, n - 1, m);
      var before, last := Answered(to, n - 1), Posting(to, Recorded(false));
      assert Answered(to, n) == before + [last];
      PostAllAppend(l, before, [last]);
      PostAllOne(PostAll(l, before), last);
      hide PostAll, Answered, DrainedBy;
      DrainsOneMore(l, n - 1, PostAll(l, before), to, m);
    } else {
      assert PostAll(l, []) == l;
    }
  }

  /** Isolation holds of a delivery exactly if no earlier write left a lost request
      of m's in flight, or m is sent one push at most in any case. */
  lemma IsolatedIff(l: Link, plan: seq<Push>, m: Member, net: Net)
    requires |l.inflight| <= B.MAX_INFLIGHT
    ensures Isolated(l, plan, m, net) <==> InFlight(m, true) !in l.inflight || OverAtOnce(l, plan, m, net)
  {
    if OverAtOnce(l, plan, m, net) {
      forall ps | NoneTo(ps, m)
        ensures Deliver(Start(PostAll(l, ps)), plan, m, net).pushes == Deliver(Start(l), plan, m, net).pushes
      {
        OverEither(l, plan, m, net, ps);
      }
    } else if InFlight(m, true) !in l.inflight {
      forall ps | NoneTo(ps, m)
        ensures Deliver(Start(PostAll(l, ps)), plan, m, net).pushes == Deliver(Start(l), plan, m, net).pushes
      {
        OthersSpare(l, ps, m);
        SparedAlike(PostAll(l, ps), l, m);
        DeliverAlike(Start(PostAll(l, ps)), Start(l), plan, m, net, net, []);
      }
    } else {
      var ps := Answered(m + 1, B.MAX_INFLIGHT);
      AnsweredDrains(l, m + 1, B.MAX_INFLIGHT, m);
      OnlyFirst(PostAll(l, ps), plan, m, net);
      MoreThanFirst(l, plan, m, net);
      assert NoneTo(ps, m);
    }
  }

  lemma OverEither(l: Link, plan: seq<Push>, m: Member, net: Net, ps: seq<Posting>)
    requires |l.inflight| <= B.MAX_INFLIGHT && OverAtOnce(l, plan, m, net) && NoneTo(ps, m)
    ensures Deliver(Start(PostAll(l, ps)), plan, m, net).pushes == Deliver(Start(l), plan, m, net).pushes
  {
    if ps != [] {
      PostAllAppend(l, ps[..1], ps[1..]);
      assert ps == ps[..1] + ps[1..];
      PostAllOne(l, ps[0]);
      assert ps[..1] == [ps[0]];
      var first := Posted(l, ps[0].member, ps[0].outcome);
      OthersSpare(first, ps[1..], m);
      OnlyFirst(PostAll(l, ps), plan, m, net);
      OnlyFirst(l, plan, m, net);
    }
  }

  const SECOND_LOST := Link([InFlight(3, false), InFlight(2, true)] + seq(254, _ => InFlight(3, false)), {})

  /** The failing case: member 2 lost the second-oldest of 256 requests. By itself
      it is sent both pushes; after one push to member 3, only the first. */
  lemma LostRequestLeaks(a: Push, b: Push)
    ensures var l := SECOND_LOST;
      var net: Net := (m: Member, k: nat) => Recorded(false);
      && Deliver(Start(l), [a, b], 2, net).pushes == [a, b]
      && Deliver(Start(Posted(l, 3, Recorded(false))), [a, b], 2, net).pushes == [a]
  {
    var l := SECOND_LOST;
    var net: Net := (m: Member, k: nat) => Recorded(false);
    var s := SendOne(Start(l), a, 2, net);
    assert [a, b][1..] == [b] && [b][1..] == [];
    assert s.link.failed == {} && s.link.inflight[0] == InFlight(2, true) && |s.link.inflight| == B.MAX_INFLIGHT;
    var t := SendOne(s, b, 2, net);
    assert Deliver(Start(l), [a, b], 2, net) == Deliver(s, [b], 2, net) == Deliver(t, [], 2, net) == t;
    assert Posted(l, 3, Recorded(false)).inflight[0] == InFlight(2, true);
    OnlyFirst(Posted(l, 3, Recorded(false)), [a, b], 2, net);
  }
}
