/** Why the step protocol's callers must be careful: from any state in which an
    action is careless, some careful continuation loses or moves a push. */
module Carelessness {
  import opened Delivery
  import opened HeldPush
  import opened StepProtocol

  /** Whatever carefully happens from s on, delivery stays exact. */
  ghost predicate SafeFrom(s: State) {
    forall acts, m | IsRun(s, acts) && m in After(s, acts).readers ::
      Exact(After(s, acts).readers[m].stream)
  }

  /** t is reached from s by a careful run. */
  ghost predicate Leads(s: State, t: State) {
    exists acts :: IsRun(s, acts) && After(s, acts) == t
  }

  lemma LeadsNowhere(s: State)
    ensures Leads(s, s)
  {
    assert IsRun(s, []) && After(s, []) == s;
  }

  lemma LeadsStep(s: State, t: State, a: Action) returns (u: State)
    requires Leads(s, t) && Enabled(t, a) && Careful(t, a)
    ensures u == Apply(t, a) && Leads(s, u)
  {
    var acts :| IsRun(s, acts) && After(s, acts) == t;
    u := Apply(t, a);
    assert (acts + [a])[..|acts|] == acts;
    assert IsRun(s, acts + [a]) && After(s, acts + [a]) == u;
  }

  // ----- Any state can be brought to rest -----

  /** r with no response outstanding. */
  function Rest(r: Reader): Reader { Flowing(r, r.stream.(landed := multiset{})) }

  /** m is owed a backfill, and what is going on is not about it. */
  ghost predicate Aside(s: State, m: Member) {
    && m in s.readers && s.readers[m].present && Backfilling(s.readers[m]) && s.readers[m].stream.sent == multiset{}
    && (s.phase.Serving? ==> s.phase.member in s.readers && s.phase.member != m && s.phase.next < s.cur)
    && (s.phase.Announcing? ==> forall x | x in s.phase.todo :: x in s.readers)
  }

  /** From t to u nothing happened to m but responses. */
  ghost predicate Untouched(t: State, u: State, m: Member) {
    m in t.readers && m in u.readers && Rest(u.readers[m]) == Rest(t.readers[m]) && t.cur <= u.cur
  }

  lemma SameRest(a: Reader, b: Reader)
    requires Rest(a) == Rest(b)
    ensures a.present == b.present && a.entries == b.entries && Backfilling(a) == Backfilling(b)
    ensures a.subscribed == b.subscribed && a.active == b.active && ReleasedPaths(a) == ReleasedPaths(b)
    ensures var f, g := a.stream, b.stream;
      && f.sent == g.sent && f.pending == g.pending && f.waiting == g.waiting && f.issued == g.issued && f.lost == g.lost
  {
    assert Rest(a).entries == a.entries && Rest(a).stream == a.stream.(landed := multiset{});
    assert Rest(b).entries == b.entries && Rest(b).stream == b.stream.(landed := multiset{});
  }

  /** One reader's requests complete: the forwarded ones are lost. */
  lemma DrainReader(s: State, t: State, x: Member) returns (u: State)
    requires Leads(s, t) && x in t.readers
    ensures Leads(s, u) && x in u.readers && u.readers.Keys == t.readers.Keys
    ensures u.phase == t.phase && u.cur == t.cur
    ensures u.readers[x].stream.sent == multiset{} && u.readers[x].stream.landed == multiset{}
    ensures t.readers[x].stream.sent == multiset{} ==> Rest(u.readers[x]) == Rest(t.readers[x])
    ensures forall y | y in t.readers && y != x :: u.readers[y] == t.readers[y]
    decreases |t.readers[x].stream.sent| + |t.readers[x].stream.landed|
  {
    hide Leads, Backfilling;
    var f := t.readers[x].stream;
    if f.sent != multiset{} {
      var p :| p in f.sent;
      assert f.sent == f.sent - multiset{p} + multiset{p};
      u := LeadsStep(s, t, Lose(x, p));
      u := DrainReader(s, u, x);
    } else if f.landed != multiset{} {
      var p :| p in f.landed;
      assert f.landed == f.landed - multiset{p} + multiset{p};
      u := LeadsStep(s, t, Respond(x, p));
      u := DrainReader(s, u, x);
    } else {
      u := t;
    }
  }

  /** So do all of them. */
  lemma DrainReaders(s: State, t: State, todo: set<Member>, m: Member) returns (u: State)
    requires Leads(s, t) && todo <= t.readers.Keys && m in t.readers && t.readers[m].stream.sent == multiset{}
    requires forall x | x in t.readers && x !in todo ::
      t.readers[x].stream.sent == multiset{} && t.readers[x].stream.landed == multiset{}
    ensures Leads(s, u) && AllComplete(u) && u.readers.Keys == t.readers.Keys
    ensures u.phase == t.phase && u.cur == t.cur && Untouched(t, u, m)
    decreases |todo|
  {
    hide Leads;
    if todo == {} {
      u := t;
    } else {
      var x :| x in todo;
      u := DrainReader(s, t, x);
      u := DrainReaders(s, u, todo - {x}, m);
    }
  }

  lemma Enumerate(all: set<Member>) returns (xs: seq<Member>)
    ensures forall x :: x in xs <==> x in all
    ensures forall i, j | 0 <= i < j < |xs| :: xs[i] != xs[j]
    decreases |all|
  {
    if all == {} {
      xs := [];
    } else {
      var x :| x in all;
      xs := Enumerate(all - {x});
      assert forall i | 0 <= i < |xs| :: xs[i] in xs;
      xs := [x] + xs;
    }
  }

  lemma ServeOn(s: State, t: State, m: Member) returns (u: State)
    requires Leads(s, t) && Aside(t, m) && t.phase.Serving?
    ensures Leads(s, u) && Aside(u, m) && Untouched(t, u, m) && u.cur == t.cur
    ensures u.phase.Idle? || (u.phase.Serving? && u.phase.next == t.phase.next + 1)
  {
    hide Leads, Backfilling;
    u := DrainReaders(s, t, t.readers.Keys, m);
    SameRest(u.readers[m], t.readers[m]);
    u := LeadsStep(s, u, ServeAnnounce(true));
  }

  lemma AnnounceOn(s: State, t: State, m: Member) returns (u: State)
    requires Leads(s, t) && Aside(t, m) && t.phase.Announcing?
    ensures Leads(s, u) && Aside(u, m) && Untouched(t, u, m)
    ensures if t.phase.todo == [] then u.phase.Idle? && u.cur == t.cur + 1
            else u.phase == Announcing(t.phase.todo[1..]) && u.cur == t.cur
  {
    hide Leads, Backfilling;
    if t.phase.todo == [] {
      u := LeadsStep(s, t, EndCommit);
    } else {
      assert t.phase.todo[0] in t.phase.todo;
      u := LeadsStep(s, t, AnnounceNext(true));
    }
  }

  lemma CommitOn(s: State, t: State, m: Member) returns (u: State)
    requires Leads(s, t) && Aside(t, m) && t.phase.Committing?
    ensures Leads(s, u) && Aside(u, m) && Untouched(t, u, m) && u.phase.Announcing? && u.cur == t.cur
  {
    hide Leads, Backfilling;
    u := DrainReaders(s, t, t.readers.Keys, m);
    SameRest(u.readers[m], t.readers[m]);
    var xs := Enumerate(set x | x in u.readers && u.readers[x].present);
    u := LeadsStep(s, u, BeginAnnounce(xs));
  }

  /** Whatever is going on comes to an end, and m is left out of it. */
  lemma {:induction false} ComeToRest(s: State, t: State, m: Member) returns (u: State)
    requires Leads(s, t) && Aside(t, m)
    ensures Leads(s, u) && Aside(u, m) && u.phase.Idle? && Untouched(t, u, m)
    ensures t.phase.Committing? || t.phase.Announcing? ==> u.cur > t.cur
    decreases t.phase.Serving?, t.phase.Committing?, match t.phase
      case Serving(_, _, next) => t.cur - next
      case Announcing(todo) => |todo|
      case _ => 0
  {
    AsideMeans(t, m);
    hide Leads, Aside;
    if t.phase.Idle? {
      u := t;
    } else if t.phase.Serving? {
      u := ServeOn(s, t, m);
      u := ComeToRest(s, u, m);
    } else if t.phase.Committing? {
      u := CommitOn(s, t, m);
      u := ComeToRest(s, u, m);
    } else {
      u := AnnounceOn(s, t, m);
      if t.phase.todo != [] { u := ComeToRest(s, u, m); }
    }
  }

  lemma AsideMeans(t: State, m: Member)
    requires Aside(t, m)
    ensures m in t.readers && (t.phase.Serving? ==> t.phase.next < t.cur)
  {
  }

  /** Steps can be committed with m left out, as many as it takes. */
  lemma {:induction false} CommitPast(s: State, t: State, m: Member, k: nat) returns (u: State)
    requires Leads(s, t) && Aside(t, m) && t.phase.Idle?
    ensures Leads(s, u) && Aside(u, m) && u.phase.Idle? && Untouched(t, u, m) && u.cur > k
    decreases k + 1 - t.cur
  {
    AsideMeans(t, m);
    if t.cur > k {
      u := t;
    } else {
      u := LeadsStep(s, t, BeginCommit);
      hide Leads;
      assert Aside(u, m);
      hide Aside;
      u := ComeToRest(s, u, m);
      u := CommitPast(s, u, m, k);
    }
  }

  // ----- What the reader is then served, and reads -----

  /** m's backfill is served: one push of its first step, then the announcement. */
  lemma ServeOut(s: State, t: State, m: Member, path: string, from: nat) returns (u: State)
    requires Leads(s, t) && t.phase.Idle? && from < t.cur && m in t.readers
    requires var r := t.readers[m];
      && r.present && r.subscribed && r.active && r.stream.sent == multiset{}
      && path in r.entries && r.entries[path] == Released(from)
      && forall q | q in ReleasedPaths(r) :: from <= r.entries[q].from
    ensures Leads(s, u) && m in u.readers && u.readers[m].subscribed
    ensures var f, g, early := t.readers[m].stream, u.readers[m].stream, Arrival(from, path, 0);
      && g.pending == f.pending + [from] && g.waiting == f.waiting + [early]
      && g.issued == f.issued + multiset{early} && g.lost == f.lost
  {
    hide Leads;
    var early := Arrival(from, path, 0);
    assert path in ReleasedPaths(t.readers[m]);
    u := LeadsStep(s, t, TakeBackfill(m, from));
    hide ReleasedPaths;
    u := LeadsStep(s, u, ServePush(early));
    u := LeadsStep(s, u, Deliver(m, early));
    var v := DrainReaders(s, u, u.readers.Keys, m);
    assert Rest(v.readers[m]).stream.pending == v.readers[m].stream.pending;
    u := LeadsStep(s, v, ServeAnnounce(true));
  }

  /** What still waits once the steps ps have been read. */
  function LeftOf(waiting: seq<Arrival>, ps: seq<nat>): seq<Arrival>
    decreases |ps|
  {
    if ps == [] then waiting else LeftOf(Later(waiting, ps[0]), ps[1..])
  }

  /** m reads every step announced to it. */
  lemma {:induction false} ReadOn(s: State, t: State, m: Member) returns (u: State)
    requires Leads(s, t) && m in t.readers && t.readers[m].subscribed && t.readers[m].stream.pending != []
    ensures Leads(s, u) && m in u.readers
    ensures var f, g := t.readers[m].stream, u.readers[m].stream;
      var n := |f.pending| - 1;
      && g.issued == f.issued && g.lost == f.lost && g.returned != []
      && g.returned[|g.returned| - 1]
         == Returned(f.pending[n], Taken(LeftOf(f.waiting, f.pending[..n]), f.pending[n]))
    decreases |t.readers[m].stream.pending|
  {
    hide Leads, Taken, Later;
    var f := t.readers[m].stream;
    u := LeadsStep(s, t, NextStep(m));
    if |f.pending| > 1 {
      var n := |f.pending| - 1;
      assert f.pending[..n][1..] == f.pending[1..][..n - 1];
      u := ReadOn(s, u, m);
    }
  }

  /** A later push in front stays, with all behind it. */
  lemma {:induction false} BlockedStays(ps: seq<nat>, late: Arrival, rest: seq<Arrival>)
    requires forall k | k in ps :: k < late.step
    ensures LeftOf([late] + rest, ps) == [late] + rest
    decreases |ps|
  {
    if ps != [] {
      assert ps[0] in ps && forall k | k in ps[1..] :: k in ps;
      BlockedStays(ps[1..], late, rest);
    }
  }

  /** A push is gone once its own step or a later one has been read. */
  lemma {:induction false} PassedIsGone(ps: seq<nat>, early: Arrival)
    ensures LeftOf([], ps) == []
    ensures (exists k | k in ps :: k >= early.step) ==> LeftOf([early], ps) == []
    decreases |ps|
  {
    if ps != [] {
      PassedIsGone(ps[1..], early);
      assert [early][1..] == [];
      if exists k | k in ps :: k >= early.step {
        var k :| k in ps && k >= early.step;
        assert k == ps[0] || k in ps[1..];
      }
    }
  }

  /** A push of the last step read, issued once and never lost, but not in it. */
  lemma Missing(s: State, u: State, m: Member, x: Arrival)
    requires Leads(s, u) && m in u.readers
    requires var f := u.readers[m].stream;
      && f.returned != [] && f.returned[|f.returned| - 1] == Returned(x.step, [])
      && f.issued[x] > f.lost[x]
    ensures !SafeFrom(s)
  {
    var f := u.readers[m].stream;
    var i := |f.returned| - 1;
    assert !GivenExactly(f, f.returned[i], x);
    assert !Exact(f);
  }

  /** A released path with the earliest start. */
  lemma Earliest(r: Reader, q: string) returns (path: string)
    requires q in ReleasedPaths(r)
    ensures path in ReleasedPaths(r) && r.entries[path].from <= r.entries[q].from
    ensures forall x | x in ReleasedPaths(r) :: r.entries[path].from <= r.entries[x].from
    decreases r.entries[q].from
  {
    if exists x | x in ReleasedPaths(r) :: r.entries[x].from < r.entries[q].from {
      var x :| x in ReleasedPaths(r) && r.entries[x].from < r.entries[q].from;
      path := Earliest(r, x);
    } else {
      path := q;
    }
  }

  // ----- Careless actions -----

  /** Nothing was sent to r since its first subscription, and its backfill is to
      start at from, with q. */
  ghost predicate AwaitsBackfill(r: Reader, q: string, from: nat) {
    && r.present && r.subscribed && r.active
    && r.stream.sent == multiset{} && r.stream.waiting == [] && r.stream.issued == multiset{}
    && r.stream.lost == multiset{}
    && q in r.entries && r.entries[q] == Released(from)
    && forall x | x in ReleasedPaths(r) :: from <= r.entries[x].from
  }

  lemma StillAwaits(t: State, u: State, m: Member, q: string, from: nat)
    requires Untouched(t, u, m) && AwaitsBackfill(t.readers[m], q, from)
    ensures AwaitsBackfill(u.readers[m], q, from)
    ensures u.readers[m].stream.pending == t.readers[m].stream.pending && u.readers[m].entries == t.readers[m].entries
  {
    SameRest(u.readers[m], t.readers[m]);
  }

  lemma SameEntries(a: Reader, b: Reader)
    requires a.entries == b.entries
    ensures Backfilling(a) == Backfilling(b) && ReleasedPaths(a) == ReleasedPaths(b)
  {
  }

  /** A live push queued ahead of the backfill. */
  lemma PushLive(s: State, t: State, m: Member, path: string, q: string, from: nat) returns (u: State)
    requires Leads(s, t) && Aside(t, m) && t.phase.Idle? && AwaitsBackfill(t.readers[m], q, from)
    requires path in t.readers[m].entries && t.readers[m].entries[path].Live?
    ensures Leads(s, u) && Aside(u, m) && u.phase.Committing? && u.cur == t.cur
    ensures var late, f, g := Arrival(t.cur, path, 0), t.readers[m].stream, u.readers[m].stream;
      && u.readers[m] == Flowing(t.readers[m], g)
      && g.sent == multiset{} && g.pending == f.pending && g.waiting == [late] && g.issued == multiset{late}
      && g.lost == multiset{}
  {
    hide Leads, Backfilling, ReleasedPaths;
    var late := Arrival(t.cur, path, 0);
    u := LeadsStep(s, t, BeginCommit);
    u := LeadsStep(s, u, LivePush(m, late));
    u := LeadsStep(s, u, Deliver(m, late));
    assert [] + [late] == [late];
    assert Backfilling(u.readers[m]) by { SameEntries(t.readers[m], u.readers[m]); }
  }

  lemma LateThenEarly(s: State, t: State, m: Member, path: string, q: string, from: nat)
    requires Leads(s, t) && Aside(t, m) && t.phase.Idle? && from < t.cur && AwaitsBackfill(t.readers[m], q, from)
    requires path in t.readers[m].entries && t.readers[m].entries[path].Live?
    requires forall k | k in t.readers[m].stream.pending :: k < from
    ensures !SafeFrom(s)
  {
    var late, early := Arrival(t.cur, path, 0), Arrival(from, q, 0);
    var u := PushLive(s, t, m, path, q, from);
    SameEntries(t.readers[m], u.readers[m]);
    hide Leads, Aside, ReleasedPaths, SafeFrom, Taken, Later, LeftOf;
    var v := ComeToRest(s, u, m);
    SameRest(v.readers[m], u.readers[m]);
    var w := ServeOut(s, v, m, q, from);
    var ps := t.readers[m].stream.pending;
    assert w.readers[m].stream.waiting == [late] + [early] && w.readers[m].stream.pending == ps + [from];
    var z := ReadOn(s, w, m);
    assert (ps + [from])[..|ps|] == ps;
    BlockedStays(ps, late, [early]);
    Unfold([late] + [early], from);
    Missing(s, z, m, early);
  }

  /** What the invariant says of a reader that is owed a backfill. */
  lemma OwedMeans(s: State, m: Member)
    requires Inv(s) && m in s.readers && s.readers[m].present && Backfilling(s.readers[m])
    ensures Aside(s, m) && Calm(s.readers[m].stream) && s.readers[m].active
    ensures s.readers[m].subscribed ==> AllReleased(s.readers[m]) || AllStaged(s.readers[m])
    ensures forall path, k | path in s.readers[m].entries && !s.readers[m].entries[path].Live?
      && k in s.readers[m].stream.pending :: k < s.readers[m].entries[path].from
  {
    var r := s.readers[m];
    assert Fine(r, DueTo(s, m));
    NotBackfilling(r);
    BacklogIsPast(r.stream);
    OrderedRestart(r.stream, r.stream.open);
    hide Ordered;
  }

  /** The reader after it joined a live path to what it is owed, once its release
      has arrived too. */
  lemma JoinedReader(r: Reader, path: string, due: nat) returns (q: string, from: nat)
    requires r.present && r.subscribed && r.active && path !in r.entries && Backfilling(r)
    requires Calm(r.stream) && (AllReleased(r) || AllStaged(r))
    ensures var joined := Subscribed(r, path, due);
      var owed := ReleasedAll(joined);
      && Backfilling(joined) && joined.stream == r.stream && joined.present && joined.subscribed
      && AwaitsBackfill(owed, q, from) && Backfilling(owed) && owed.stream == r.stream && owed.present
      && path in owed.entries && owed.entries[path].Live? && q in r.entries && !r.entries[q].Live?
      && r.entries[q].from == from && (AllReleased(r) ==> owed == joined)
      && (AllStaged(r) ==> joined.entries[q].Staged?)
  {
    var joined := Subscribed(r, path, due);
    var owed := ReleasedAll(joined);
    var any :| any in r.entries && !r.entries[any].Live?;
    assert joined.entries == r.entries[path := Live] && !joined.entries[any].Live? && owed.entries[any].Released?;
    q := Earliest(owed, any);
    from := owed.entries[q].from;
    assert q != path;
  }

  lemma JoinsOwed(s: State, m: Member, path: string) returns (t: State, q: string, from: nat)
    requires Inv(s) && Enabled(s, Subscribe(m, path)) && !Careful(s, Subscribe(m, path))
    ensures Leads(Apply(s, Subscribe(m, path)), t) && Aside(t, m) && AwaitsBackfill(t.readers[m], q, from)
    ensures path in t.readers[m].entries && t.readers[m].entries[path].Live?
    ensures forall k | k in t.readers[m].stream.pending :: k < from
  {
    SubscribeIs(s, m, path);
    OwedMeans(s, m);
    q, from := JoinedReader(s.readers[m], path, Due(s, m));
    t := Apply(s, Subscribe(m, path));
    LeadsNowhere(t);
    hide Inv, Backfilling, Calm, Aside, Careful, AwaitsBackfill, Subscribed, Leads;
    AsideStays(s, t, m);
    if !AllReleased(s.readers[m]) {
      var u := LeadsStep(t, t, Release(m));
      hide Enabled, AllReleased, AllStaged;
      AsideStays(t, u, m);
      t := u;
    }
  }

  lemma SubscribeIs(s: State, m: Member, path: string)
    requires Enabled(s, Subscribe(m, path))
    ensures Apply(s, Subscribe(m, path)) == WithReader(s, m, Subscribed(s.readers[m], path, Due(s, m)))
    ensures !Careful(s, Subscribe(m, path)) ==>
      path !in s.readers[m].entries && Backfilling(s.readers[m]) && s.readers[m].present && s.readers[m].subscribed
  {
    if !Careful(s, Subscribe(m, path)) {
      NotBackfilling(s.readers[m]);
    }
  }

  lemma AsideStays(s: State, t: State, m: Member)
    requires Aside(s, m) && t.phase == s.phase && t.cur == s.cur && s.readers.Keys <= t.readers.Keys
    requires t.readers[m].present && Backfilling(t.readers[m]) && t.readers[m].stream.sent == multiset{}
    ensures Aside(t, m)
  {
  }

  /** A plain subscription added while a backfill is owed: the live push of a
      later step queues ahead of the first backfilled one, and is held there. */
  lemma CarelessSubscribe(s: State, m: Member, path: string)
    requires Inv(s) && Enabled(s, Subscribe(m, path)) && !Careful(s, Subscribe(m, path))
    ensures !SafeFrom(Apply(s, Subscribe(m, path)))
  {
    var t := Apply(s, Subscribe(m, path));
    var owed, q, from := JoinsOwed(s, m, path);
    AsideMeans(owed, m);
    hide Inv, Enabled, Careful, Apply, Leads, Aside, AwaitsBackfill;
    var u := ComeToRest(t, owed, m);
    StillAwaits(owed, u, m, q, from);
    var v := CommitPast(t, u, m, from);
    StillAwaits(u, v, m, q, from);
    LateThenEarly(t, v, m, path, q, from);
  }

  /** The reader after it staged a path, ended its call and released all it staged. */
  lemma ReleasedReader(r: Reader, path: string, from: nat, due: nat) returns (q: string, first: nat)
    requires r.present && !r.subscribed && AllStaged(r)
    requires var f := r.stream;
      f.sent == multiset{} && f.waiting == [] && f.issued == multiset{} && f.lost == multiset{}
    ensures var released := ReleasedAll(Called(StagedAt(r, path, from, due)));
      && AwaitsBackfill(released, q, first) && Backfilling(released) && first <= from
      && released.stream.pending == r.stream.pending
  {
    var released := ReleasedAll(Called(StagedAt(r, path, from, due)));
    assert released.entries[path] == Released(from);
    q := Earliest(released, path);
    first := released.entries[q].from;
  }

  lemma ThenRelease(s: State, t: State, m: Member, path: string, from: nat) returns (q: string, first: nat, u: State)
    requires Inv(s) && Enabled(s, Stage(m, path, from)) && !Careful(s, Stage(m, path, from))
    requires t == Apply(s, Stage(m, path, from)) && Leads(t, t)
    ensures Leads(t, u) && Aside(u, m) && AwaitsBackfill(u.readers[m], q, first)
    ensures exists k | k in u.readers[m].stream.pending :: k >= first
  {
    var r := s.readers[m];
    StagedMeans(s, m);
    LateWaits(s, m, path, from);
    hide Leads, Inv, Careful, Backfilling, AwaitsBackfill, AllStaged;
    q, first := ReleasedReader(r, path, from, Due(s, m));
    assert t.readers[m] == StagedAt(r, path, from, Due(s, m)) && t.readers[m].entries[path].Staged?;
    hide StagedAt;
    u := LeadsStep(t, t, EndCall(m));
    u := LeadsStep(t, u, Release(m));
    assert u.readers[m] == ReleasedAll(Called(t.readers[m]));
    hide ReleasedAll, Apply, Enabled;
  }

  lemma LateWaits(s: State, m: Member, path: string, from: nat)
    requires Enabled(s, Stage(m, path, from)) && !Careful(s, Stage(m, path, from))
    ensures exists k | k in s.readers[m].stream.pending :: k >= from
  {
  }

  /** What the invariant says of a reader that has not released anything. */
  lemma StagedMeans(s: State, m: Member)
    requires Inv(s) && m in s.readers && s.readers[m].present && !s.readers[m].subscribed
    ensures AllStaged(s.readers[m])
    ensures var f := s.readers[m].stream;
      f.sent == multiset{} && f.waiting == [] && f.issued == multiset{} && f.lost == multiset{}
    ensures s.phase.Serving? ==> s.phase.member in s.readers && s.phase.member != m && s.phase.next < s.cur
    ensures s.phase.Announcing? ==> forall x | x in s.phase.todo :: x in s.readers
  {
    var r := s.readers[m];
    assert Fine(r, DueTo(s, m));
    if r.active {
      var path :| path in r.entries;
      assert Backfilling(r);
    }
    hide Ordered;
  }

  lemma EarlyThenPassed(s: State, t: State, m: Member, q: string, from: nat)
    requires Leads(s, t) && Aside(t, m) && t.phase.Idle? && from < t.cur && AwaitsBackfill(t.readers[m], q, from)
    requires exists k | k in t.readers[m].stream.pending :: k >= from
    ensures !SafeFrom(s)
  {
    AsideMeans(t, m);
    hide Leads, Aside, ReleasedPaths, SafeFrom, Taken, Later, LeftOf;
    var early, ps := Arrival(from, q, 0), t.readers[m].stream.pending;
    var u := ServeOut(s, t, m, q, from);
    assert [] + [early] == [early];
    assert u.readers[m].stream.waiting == [early] && u.readers[m].stream.pending == ps + [from];
    var z := ReadOn(s, u, m);
    assert (ps + [from])[..|ps|] == ps;
    PassedIsGone(ps, early);
    Unfold([], from);
    Missing(s, z, m, early);
  }

  /** A staged subscription made while an announcement of a step to be served, or
      of a later one, still waits: reading that takes or drops the first
      backfilled push, and its own step then comes back without it. */
  lemma CarelessStage(s: State, m: Member, path: string, from: nat)
    requires Inv(s) && Enabled(s, Stage(m, path, from)) && !Careful(s, Stage(m, path, from))
    ensures !SafeFrom(Apply(s, Stage(m, path, from)))
  {
    var t := Apply(s, Stage(m, path, from));
    LeadsNowhere(t);
    var q, first, u := ThenRelease(s, t, m, path, from);
    hide Inv, Enabled, Careful, Apply, Leads, Aside, AwaitsBackfill, SafeFrom, LeftOf, Taken;
    var v := ComeToRest(t, u, m);
    StillAwaits(u, v, m, q, first);
    var w := CommitPast(t, v, m, first);
    StillAwaits(v, w, m, q, first);
    EarlyThenPassed(t, w, m, q, first);
  }

  // ----- The exact guard -----

  lemma InvIsExact(s: State, m: Member)
    requires Inv(s) && m in s.readers
    ensures Exact(s.readers[m].stream)
  {
    assert Fine(s.readers[m], DueTo(s, m));
    if s.readers[m].active {
      OrderedIsExact(s.readers[m].stream);
    }
  }

  /** Care is exactly what it takes. In any state a careful run reaches, an
      action is careful if and only if delivery stays exact to every reader
      whatever carefully happens afterwards. */
  lemma CareIsExact(before: seq<Action>, a: Action)
    requires IsRun(INIT, before) && Enabled(After(INIT, before), a)
    ensures Careful(After(INIT, before), a) <==> SafeFrom(Apply(After(INIT, before), a))
  {
    var s := After(INIT, before);
    RunKeepsInv(INIT, before);
    if Careful(s, a) {
      StepKeepsInv(s, a);
      var t := Apply(s, a);
      hide Inv, Enabled, Careful, Apply, Exact;
      forall acts, m | IsRun(t, acts) && m in After(t, acts).readers
        ensures Exact(After(t, acts).readers[m].stream)
      {
        RunKeepsInv(t, acts);
        InvIsExact(After(t, acts), m);
      }
    } else if a.Subscribe? {
      CarelessSubscribe(s, a.m, a.path);
    } else {
      CarelessStage(s, a.m, a.path, a.from);
    }
  }

  const ALONE: Member := 7

  lemma ReachDiscarded() returns (s: State)
    ensures Leads(INIT, s) && s == State(0, Idle, None, map[ALONE := NEWCOMER.(discarded := true)])
  {
    hide Leads;
    LeadsNowhere(INIT);
    s := LeadsStep(INIT, INIT, Join(ALONE));
    s := LeadsStep(INIT, s, Discard(ALONE));
  }

  /** It takes four actions to reach a state where a plain subscription is not
      safe: join, discard the backlog, stage a path, end the call. */
  lemma SubscribeCanLose() returns (s: State)
    ensures Leads(INIT, s) && Enabled(s, Subscribe(ALONE, "c")) && !SafeFrom(Apply(s, Subscribe(ALONE, "c")))
  {
    hide Leads, SafeFrom;
    s := ReachDiscarded();
    s := LeadsStep(INIT, s, Stage(ALONE, "a", 0));
    assert s.readers[ALONE].entries["a"].Staged?;
    s := LeadsStep(INIT, s, EndCall(ALONE));
    assert !s.readers[ALONE].entries["a"].Live?;
    ReachedIsInv(s);
    CarelessSubscribe(s, ALONE, "c");
  }

  /** And five to one where staging is not: join, discard, and the announcement
      of the step the backfill is to start from. */
  lemma StageCanLose() returns (s: State)
    ensures Leads(INIT, s) && Enabled(s, Stage(ALONE, "a", 0)) && !SafeFrom(Apply(s, Stage(ALONE, "a", 0)))
  {
    hide Leads, SafeFrom;
    s := ReachAnnounced();
    ReachedIsInv(s);
    hide Inv, Apply;
    CarelessStage(s, ALONE, "a", 0);
  }

  lemma ReachAnnounced() returns (s: State)
    ensures Leads(INIT, s) && Enabled(s, Stage(ALONE, "a", 0)) && 0 in s.readers[ALONE].stream.pending
  {
    hide Leads;
    s := ReachDiscarded();
    s := LeadsStep(INIT, s, BeginCommit);
    s := LeadsStep(INIT, s, BeginAnnounce([ALONE]));
    s := LeadsStep(INIT, s, AnnounceNext(true));
  }

  lemma ReachedIsInv(s: State)
    requires Leads(INIT, s)
    ensures Inv(s)
  {
    var acts :| IsRun(INIT, acts) && After(INIT, acts) == s;
    RunKeepsInv(INIT, acts);
  }
}
