/** The writer's subscription table does what the step protocol says of each
    reader's entries. */
module TableRefinement {
  import opened Delivery
  import opened WriterTables
  import P = StepProtocol

  /** One reader's entries in the table: the state of each path. */
  ghost function StatesOf(t: map<Key, Entry>, m: Member): map<string, EntryState> {
    map k | k in t && k.member == m :: k.path := t[k].state
  }

  lemma StatesAt(t: map<Key, Entry>, m: Member, path: string)
    ensures path in StatesOf(t, m) <==> Key(m, path) in t
    ensures path in StatesOf(t, m) ==> StatesOf(t, m)[path] == t[Key(m, path)].state
  {
  }

  /** What the protocol makes of the requesting reader's entries. */
  ghost function Expected(r: P.Reader, q: Request): map<string, EntryState> {
    if q.fromOnly then P.ReleasedAll(r).entries
    else if Amends(q) then r.entries
    else if q.from.Some? then P.StagedAt(r, q.key.path, q.from.value, 0).entries
    else P.Subscribed(r, q.key.path, 0).entries
  }

  /** States agree where the entries do. */
  lemma SameStates(t: map<Key, Entry>, u: map<Key, Entry>, m: Member)
    requires forall k: Key | k.member == m :: (k in t <==> k in u) && (k in t ==> t[k].state == u[k].state)
    ensures StatesOf(t, m) == StatesOf(u, m)
  {
  }

  /** What a request makes of one entry's state, if it had one: the entry the
      request names or another, the sender's or not. */
  function Next(q: Request, was: Option<EntryState>, named: bool, own: bool): EntryState {
    if q.fromOnly && own && was.Some? && was.value.Staged? then Released(was.value.from)
    else if named && !q.fromOnly && !Amends(q) && q.from.Some? then Staged(q.from.value)
    else if was.Some? then was.value
    else Live
  }

  lemma ExpectedAt(r: P.Reader, q: Request, path: string)
    ensures path in Expected(r, q) <==> path in r.entries || (path == q.key.path && !q.fromOnly && !Amends(q))
    ensures path in Expected(r, q) ==>
      Expected(r, q)[path] == Next(q, if path in r.entries then Some(r.entries[path]) else None, path == q.key.path, true)
  {
  }

  /** A request changes its sender's entries as the protocol's subscribe, stage
      or release does, an amendment changes none, and nobody else's change. */
  lemma RequestRefines(t: map<Key, Entry>, q: Request, r: P.Reader)
    requires (forall k | k in t :: t[k].key == k) && r.entries == StatesOf(t, q.key.member)
    ensures StatesOf(Requested(t, q), q.key.member) == Expected(r, q)
    ensures forall m | m != q.key.member :: StatesOf(Requested(t, q), m) == StatesOf(t, m)
  {
    var me, after := q.key.member, Requested(t, q);
    RequestedKeys(t, q);
    forall k: Key ensures RequestedState(t, q, k) { RequestedAt(t, q, k); }
    hide Requested, StatesOf, Expected;
    forall path
      ensures path in StatesOf(after, me) <==> path in Expected(r, q)
      ensures path in StatesOf(after, me) ==> StatesOf(after, me)[path] == Expected(r, q)[path]
    {
      StatesAt(t, me, path);
      StatesAt(after, me, path);
      ExpectedAt(r, q, path);
      assert RequestedState(t, q, Key(me, path));
    }
    assert StatesOf(after, me) == Expected(r, q);
    forall m | m != me ensures StatesOf(after, m) == StatesOf(t, m) {
      forall k: Key | k.member == m ensures (k in t <==> k in after) && (k in t ==> t[k].state == after[k].state) {
        assert RequestedState(t, q, k);
      }
      SameStates(after, t, m);
    }
  }

  /** The state a request leaves an entry in. */
  ghost predicate RequestedState(t: map<Key, Entry>, q: Request, k: Key) {
    k in Requested(t, q) ==>
      Requested(t, q)[k].state
      == Next(q, if k in t then Some(t[k].state) else None, k == q.key, k.member == q.key.member)
  }

  lemma RequestedKeys(t: map<Key, Entry>, q: Request)
    ensures forall k :: k in Requested(t, q) <==> k in t || (k == q.key && !q.fromOnly && !Amends(q))
  {
  }

  lemma RequestedAt(t: map<Key, Entry>, q: Request, k: Key)
    requires forall x | x in t :: t[x].key == x
    ensures RequestedState(t, q, k)
  {
  }

  /** A departure takes exactly the member's entries. */
  lemma DepartureRefines(subs: seq<Entry>, m: Member)
    requires Unique(subs)
    ensures StatesOf(AsMap(Without(subs, m)), m) == map[]
    ensures forall o | o != m :: StatesOf(AsMap(Without(subs, m)), o) == StatesOf(AsMap(subs), o)
  {
    WithoutMap(subs, m);
    var t := AsMap(subs);
    var after := map k | k in t && k.member != m :: t[k];
    forall o | o != m ensures StatesOf(after, o) == StatesOf(t, o) {
    }
  }

  /** Taking a member's backfill is what the protocol's step is: enabled for the
      step the table names, it makes the released entries live. */
  lemma TakeBackfillRefines(subs: seq<Entry>, m: Member, start: nat, s: P.State)
    requires Unique(subs) && IsEarliest(subs, m, start)
    requires m in s.readers && s.phase.Idle? && s.readers[m].entries == StatesOf(AsMap(subs), m)
    ensures P.Enabled(s, P.TakeBackfill(m, start))
    ensures Unique(Served(subs, m))
    ensures StatesOf(AsMap(Served(subs, m)), m) == P.Taking(s.readers[m], start).entries
    ensures forall o | o != m :: StatesOf(AsMap(Served(subs, m)), o) == StatesOf(AsMap(subs), o)
  {
    ServedMap(subs, m);
    EarliestInMap(subs, m, start);
    var t, r := AsMap(subs), s.readers[m];
    AsMapHolds(subs);
    hide AsMap, Served, Unique, IsEarliest;
    ServedStates(t, m, r, start);
    MayTake(t, m, start, s);
  }

  lemma MayTake(t: map<Key, Entry>, m: Member, start: nat, s: P.State)
    requires m in s.readers && s.phase.Idle? && s.readers[m].entries == StatesOf(t, m)
    requires exists path :: Key(m, path) in t && t[Key(m, path)].state == Released(start)
    requires forall path | Key(m, path) in t && t[Key(m, path)].state.Released? :: start <= t[Key(m, path)].state.from
    ensures P.Enabled(s, P.TakeBackfill(m, start))
  {
    var r := s.readers[m];
    var path :| Key(m, path) in t && t[Key(m, path)].state == Released(start);
    StatesAt(t, m, path);
    hide StatesOf;
    assert path in P.ReleasedPaths(r);
    forall p | p in P.ReleasedPaths(r) ensures start <= r.entries[p].from { StatesAt(t, m, p); }
  }

  lemma ServedStates(t: map<Key, Entry>, m: Member, r: P.Reader, start: nat)
    requires (forall k | k in t :: t[k].key == k) && r.entries == StatesOf(t, m)
    ensures var u := map k | k in t :: ServedEntry(t[k], m);
      && StatesOf(u, m) == P.Taking(r, start).entries
      && forall o | o != m :: StatesOf(u, o) == StatesOf(t, o)
  {
  }

  /** The earliest released start, read off the map. */
  lemma EarliestInMap(subs: seq<Entry>, m: Member, start: nat)
    requires Unique(subs) && IsEarliest(subs, m, start)
    ensures exists path :: Key(m, path) in AsMap(subs) && AsMap(subs)[Key(m, path)].state == Released(start)
    ensures forall path | Key(m, path) in AsMap(subs) && AsMap(subs)[Key(m, path)].state.Released? ::
      start <= AsMap(subs)[Key(m, path)].state.from
  {
    AsMapHolds(subs);
    var t := AsMap(subs);
    hide AsMap;
    var i :| 0 <= i < |subs| && Owed(subs[i], m) && subs[i].state.from == start;
    assert Key(m, subs[i].key.path) == subs[i].key && t[subs[i].key] == subs[i];
    forall path | Key(m, path) in t && t[Key(m, path)].state.Released? ensures start <= t[Key(m, path)].state.from {
      var j :| 0 <= j < |subs| && subs[j] == t[Key(m, path)];
      assert Owed(subs[j], m);
    }
  }

  function ServedEntry(e: Entry, m: Member): Entry { if Owed(e, m) then e.(state := Live) else e }

  lemma ServedMap(subs: seq<Entry>, m: Member)
    requires Unique(subs)
    ensures Unique(Served(subs, m))
    ensures AsMap(Served(subs, m)) == map k | k in AsMap(subs) :: ServedEntry(AsMap(subs)[k], m)
  {
    ServedUnique(subs, m);
    AsMapHolds(subs);
    var t, after := AsMap(subs), Served(subs, m);
    var u := map k | k in t :: ServedEntry(t[k], m);
    forall k | k in u ensures u[k].key == k && u[k] in after {
      var j :| 0 <= j < |subs| && subs[j] == t[k];
      assert after[j] == u[k];
    }
    AsMapUnique(after, u);
  }

  /** The table's answer to "is this member held back?" is the protocol's. */
  lemma BackfillingRefines(subs: seq<Entry>, m: Member, r: P.Reader)
    requires Unique(subs) && r.entries == StatesOf(AsMap(subs), m)
    ensures P.Backfilling(r) <==> exists e | e in subs :: e.key.member == m && !e.state.Live?
  {
    var t := AsMap(subs);
    AsMapHolds(subs);
    hide AsMap;
    if P.Backfilling(r) {
      var path :| path in r.entries && !r.entries[path].Live?;
      StatesAt(t, m, path);
      assert t[Key(m, path)] in subs;
    }
    if exists e | e in subs :: e.key.member == m && !e.state.Live? {
      var e :| e in subs && e.key.member == m && !e.state.Live?;
      var i :| 0 <= i < |subs| && subs[i] == e;
      assert Key(m, e.key.path) == e.key;
      StatesAt(t, m, e.key.path);
    }
  }
}
