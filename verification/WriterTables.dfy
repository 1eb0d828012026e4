/** The writer's three tables: who is in the group, who subscribed to what, and
    how far each reader has acknowledged. Each method is one locked section. */
module WriterTables {
  import opened Delivery
  import opened Ranges

  type Blob = seq<nat>
  datatype Key = Key(member: Member, path: string)

  /** One subscription. An empty blob is none; selCount is UINT64_MAX for the
      whole object. */
  datatype Entry = Entry(key: Key, selStart: uint64, selCount: uint64, dcpl: Blob, pred: Blob, space: Blob,
                         wantType: Blob, state: EntryState)

  datatype Request = Request(key: Key, selStart: uint64, selCount: uint64, dcpl: Blob, pred: Blob, space: Blob,
                             wantType: Blob, predOnly: bool, typeOnly: bool, fromOnly: bool, from: Option<nat>)

  datatype Ack = Ack(member: Member, step: nat)

  // ----- The subscription table as a map -----

  ghost predicate Unique(subs: seq<Entry>) {
    forall i, j | 0 <= i < j < |subs| :: subs[i].key != subs[j].key
  }

  ghost function AsMap(subs: seq<Entry>): map<Key, Entry> {
    if subs == [] then map[]
    else AsMap(subs[..|subs| - 1])[subs[|subs| - 1].key := subs[|subs| - 1]]
  }

  /** m holds exactly the entries of subs, each under its own key. */
  ghost predicate Tabulates(m: map<Key, Entry>, subs: seq<Entry>) {
    && (forall i | 0 <= i < |subs| :: subs[i].key in m && m[subs[i].key] == subs[i])
    && (forall k | k in m :: m[k].key == k && m[k] in subs)
  }

  lemma {:induction false} AsMapHolds(subs: seq<Entry>)
    requires Unique(subs)
    ensures Tabulates(AsMap(subs), subs)
  {
    if subs != [] {
      AsMapHolds(subs[..|subs| - 1]);
    }
  }

  /** A table without repeated keys is the one map that holds its entries. */
  lemma AsMapUnique(subs: seq<Entry>, m: map<Key, Entry>)
    requires Unique(subs) && Tabulates(m, subs)
    ensures AsMap(subs) == m
  {
    AsMapHolds(subs);
  }

  /** What a request makes of the entry it names. */
  function Amended(e: Entry, r: Request): Entry {
    if r.predOnly then e.(pred := r.pred)
    else if r.typeOnly then e.(wantType := r.wantType)
    else e.(selStart := r.selStart, selCount := r.selCount, dcpl := r.dcpl, space := r.space, pred := [],
            wantType := [], state := if r.from.Some? then Staged(r.from.value) else e.state)
  }

  function NewEntry(r: Request): Entry {
    Entry(r.key, r.selStart, r.selCount, r.dcpl, [], r.space, [],
          if r.from.Some? then Staged(r.from.value) else Live)
  }

  function ReleasedIfStaged(e: Entry): Entry {
    if e.state.Staged? then e.(state := Released(e.state.from)) else e
  }

  /** One entry of the table after releasing r's member. */
  function ReleasedFor(e: Entry, r: Request): (out: Entry)
    ensures out.key == e.key
  {
    if e.key.member == r.key.member then ReleasedIfStaged(e) else e
  }

  predicate StagedFor(e: Entry, r: Request) { e.key.member == r.key.member && e.state.Staged? }

  predicate Amends(r: Request) { r.predOnly || r.typeOnly }

  /** The map a request leads to. */
  ghost function Requested(m: map<Key, Entry>, r: Request): map<Key, Entry> {
    if r.fromOnly then map k | k in m :: ReleasedFor(m[k], r)
    else if r.key in m then m[r.key := Amended(m[r.key], r)]
    else if Amends(r) then m
    else m[r.key := NewEntry(r)]
  }

  /** Whether the request found or made something to act on. */
  ghost predicate Matches(m: map<Key, Entry>, r: Request) {
    if r.fromOnly then exists k | k in m :: StagedFor(m[k], r)
    else r.key in m || !Amends(r)
  }

  lemma AmendedMap(subs: seq<Entry>, i: nat, r: Request)
    requires Unique(subs) && i < |subs| && subs[i].key == r.key && !r.fromOnly
    ensures Unique(subs[i := Amended(subs[i], r)])
    ensures AsMap(subs[i := Amended(subs[i], r)]) == Requested(AsMap(subs), r) && Matches(AsMap(subs), r)
  {
    AsMapHolds(subs);
    var after, m := subs[i := Amended(subs[i], r)], Requested(AsMap(subs), r);
    forall k | k in m ensures m[k].key == k && m[k] in after {
      if k == r.key {
        assert after[i] == m[k];
      } else {
        var j :| 0 <= j < |subs| && subs[j] == m[k];
        assert after[j] == m[k];
      }
    }
    AsMapUnique(after, m);
  }

  lemma NewEntryMap(subs: seq<Entry>, r: Request)
    requires Unique(subs) && !r.fromOnly && forall i | 0 <= i < |subs| :: subs[i].key != r.key
    ensures r.key !in AsMap(subs)
    ensures !Amends(r) ==> Unique(subs + [NewEntry(r)]) && AsMap(subs + [NewEntry(r)]) == Requested(AsMap(subs), r)
  {
    AsMapHolds(subs);
    var after := subs + [NewEntry(r)];
    assert after[..|after| - 1] == subs;
    assert r.key !in AsMap(subs);
  }

  lemma NoMatch(m: map<Key, Entry>, r: Request)
    requires r.key !in m && !r.fromOnly
    ensures Matches(m, r) <==> !Amends(r)
    ensures Amends(r) ==> Requested(m, r) == m
  {
  }

  lemma ReleasedHolds(m: map<Key, Entry>, subs: seq<Entry>, after: seq<Entry>, r: Request)
    requires Tabulates(m, subs) && |after| == |subs|
    requires forall i | 0 <= i < |subs| :: after[i] == ReleasedFor(subs[i], r)
    ensures Tabulates(map k | k in m :: ReleasedFor(m[k], r), after)
  {
  }

  lemma ReleasedMap(subs: seq<Entry>, after: seq<Entry>, r: Request)
    requires Unique(subs) && r.fromOnly && |after| == |subs|
    requires forall i | 0 <= i < |subs| :: after[i] == ReleasedFor(subs[i], r)
    ensures Unique(after) && AsMap(after) == Requested(AsMap(subs), r)
  {
    hide ReleasedFor;
    forall i, j | 0 <= i < j < |after| ensures after[i].key != after[j].key {
      assert subs[i].key != subs[j].key;
    }
    AsMapHolds(subs);
    ReleasedHolds(AsMap(subs), subs, after, r);
    AsMapUnique(after, Requested(AsMap(subs), r));
  }

  lemma ReleasedMatches(subs: seq<Entry>, r: Request)
    requires Unique(subs) && r.fromOnly
    ensures Matches(AsMap(subs), r) <==> exists i | 0 <= i < |subs| :: StagedFor(subs[i], r)
  {
    AsMapHolds(subs);
    if Matches(AsMap(subs), r) {
      var k :| k in AsMap(subs) && StagedFor(AsMap(subs)[k], r);
      var j :| 0 <= j < |subs| && subs[j] == AsMap(subs)[k];
      assert StagedFor(subs[j], r);
    }
  }

  /** What a request does to the map: it adds at most the key it names, and only
      if it is a plain one; it changes no other member's entries and, unless it
      releases, no other key's; and a plain one clears predicate and type. */
  lemma RequestIsLocal(m: map<Key, Entry>, r: Request)
    requires forall k | k in m :: m[k].key == k
    ensures var after := Requested(m, r);
      && m.Keys <= after.Keys <= m.Keys + {r.key}
      && (Amends(r) || r.fromOnly ==> after.Keys == m.Keys)
      && (forall k | k in m && (k.member != r.key.member || (!r.fromOnly && k != r.key)) :: after[k] == m[k])
      && (!Amends(r) && !r.fromOnly ==> r.key in after && after[r.key].pred == [] && after[r.key].wantType == [])
      && (forall k | k in after :: after[k].key == k)
  {
  }

  /** What the named entry then records. A plain request: its range, pipeline and
      selection, whether the entry was there or not. One for the predicate or the
      type: that, and everything else as before. A release: nothing but states, of
      the sender's entries. */
  lemma RequestRecords(m: map<Key, Entry>, r: Request)
    requires forall k | k in m :: m[k].key == k
    ensures var after := Requested(m, r);
      && (!Amends(r) && !r.fromOnly ==>
            && r.key in after && after[r.key].selStart == r.selStart && after[r.key].selCount == r.selCount
            && after[r.key].dcpl == r.dcpl && after[r.key].space == r.space
            && (r.from.Some? ==> after[r.key].state == Staged(r.from.value))
            && (r.from == None ==> after[r.key].state == if r.key in m then m[r.key].state else Live))
      && (r.predOnly && !r.fromOnly && r.key in m ==> DiffersAt(m[r.key], after[r.key], true, false, false))
      && (r.predOnly && !r.fromOnly && r.key in m ==> after[r.key].pred == r.pred)
      && (r.typeOnly && !r.predOnly && !r.fromOnly && r.key in m ==> DiffersAt(m[r.key], after[r.key], false, true, false))
      && (r.typeOnly && !r.predOnly && !r.fromOnly && r.key in m ==> after[r.key].wantType == r.wantType)
      && (r.fromOnly ==> forall k | k in m ::
            && k in after && DiffersAt(m[k], after[k], false, false, true)
            && (after[k].state == if k.member == r.key.member && m[k].state.Staged? then Released(m[k].state.from)
                                  else m[k].state))
  {
  }

  /** A release matches exactly if it changes something, an amendment exactly if its
      entry is there, and a plain request always. */
  lemma MatchesMeans(m: map<Key, Entry>, r: Request)
    ensures r.fromOnly ==> (Matches(m, r) <==> Requested(m, r) != m)
    ensures !r.fromOnly ==> (Matches(m, r) <==> r.key in m || !(r.predOnly || r.typeOnly))
  {
    if r.fromOnly && Matches(m, r) {
      var k :| k in m && StagedFor(m[k], r);
      assert Requested(m, r)[k] != m[k];
    }
  }

  /** Two entries differ at most in the fields said to. */
  predicate DiffersAt(a: Entry, b: Entry, pred: bool, wantType: bool, state: bool) {
    && a.key == b.key && a.selStart == b.selStart && a.selCount == b.selCount && a.dcpl == b.dcpl && a.space == b.space
    && (pred || a.pred == b.pred) && (wantType || a.wantType == b.wantType) && (state || a.state == b.state)
  }

  function Without(subs: seq<Entry>, m: Member): seq<Entry> {
    if subs == [] then []
    else if subs[0].key.member == m then Without(subs[1..], m)
    else [subs[0]] + Without(subs[1..], m)
  }

  function Removed(members: seq<Member>, m: Member): seq<Member> {
    if members == [] then []
    else if members[0] == m then members[1..]
    else [members[0]] + Removed(members[1..], m)
  }

  ghost predicate Distinct(members: seq<Member>) {
    forall i, j | 0 <= i < j < |members| :: members[i] != members[j]
  }

  /** The entries a push of path goes to: live, and the one member only if set. */
  function LiveFor(subs: seq<Entry>, path: string, only: Option<Member>): seq<Entry> {
    if subs == [] then []
    else
      var e := subs[|subs| - 1];
      LiveFor(subs[..|subs| - 1], path, only)
      + (if e.key.path == path && (only == None || only == Some(e.key.member)) && e.state.Live? then [e] else [])
  }

  function MembersOf(lag: seq<Ack>): (ms: seq<Member>)
    ensures |ms| == |lag|
  {
    seq(|lag|, i requires 0 <= i < |lag| => lag[i].member)
  }

  /** k is the greatest step m ever acknowledged. */
  ghost predicate AckedTo(acks: seq<Ack>, m: Member, k: nat) {
    Ack(m, k) in acks && forall a | a in acks && a.member == m :: a.step <= k
  }

  /** The members that hold at least one subscription. */
  function Subscribers(subs: seq<Entry>): set<Member> { set e | e in subs :: e.key.member }

  lemma SubscribersStep(subs: seq<Entry>, i: nat)
    requires i < |subs|
    ensures (forall k | 0 <= k < i :: subs[k].key.member != subs[i].key.member)
       ==> |Subscribers(subs[..i + 1])| == |Subscribers(subs[..i])| + 1
    ensures (exists k | 0 <= k < i :: subs[..i][k].key.member == subs[i].key.member)
       ==> Subscribers(subs[..i + 1]) == Subscribers(subs[..i])
  {
    var m := subs[i].key.member;
    assert subs[..i + 1] == subs[..i] + [subs[i]];
    assert Subscribers(subs[..i + 1]) == Subscribers(subs[..i]) + {m};
    if m in Subscribers(subs[..i]) {
      var e :| e in subs[..i] && e.key.member == m;
      var k :| 0 <= k < i && subs[..i][k] == e;
    }
  }

  ghost predicate OneEach(es: seq<Entry>) {
    forall i, j | 0 <= i < j < |es| :: es[i].key.member != es[j].key.member
  }

  /** A push goes to the live entries of its path, of the one member only if set,
      in table order, and to no member twice. */
  lemma {:induction false} LiveForExact(subs: seq<Entry>, path: string, only: Option<Member>)
    requires Unique(subs)
    ensures forall e :: e in LiveFor(subs, path, only) <==>
      e in subs && e.key.path == path && (only == None || only == Some(e.key.member)) && e.state.Live?
    ensures OneEach(LiveFor(subs, path, only))
  {
    if subs != [] {
      var e, rest := subs[|subs| - 1], subs[..|subs| - 1];
      LiveForExact(rest, path, only);
      assert forall x :: x in subs <==> x in rest || x == e;
      var live := LiveFor(rest, path, only);
      forall i | 0 <= i < |live| ensures e.key.path == path ==> live[i].key.member != e.key.member {
        assert live[i] in live;
        var j :| 0 <= j < |rest| && rest[j] == live[i];
        assert subs[j].key != subs[|subs| - 1].key;
        assert live[i].key.path == path;
      }
      var all := LiveFor(subs, path, only);
      assert all == live || (all == live + [e] && e.key.path == path);
    }
  }

  /** They keep the table's order. */
  lemma {:induction false} LiveForKeepsOrder(subs: seq<Entry>, path: string, only: Option<Member>, k: nat)
    returns (i: nat)
    requires k < |LiveFor(subs, path, only)|
    ensures i < |subs| && subs[i] == LiveFor(subs, path, only)[k]
    ensures k == |LiveFor(subs[..i], path, only)|
  {
    var n := |subs| - 1;
    var before := LiveFor(subs[..n], path, only);
    if k < |before| {
      i := LiveForKeepsOrder(subs[..n], path, only, k);
      assert subs[..n][..i] == subs[..i];
    } else {
      i := n;
    }
  }

  // ----- Backfill -----

  function FirstReleased(subs: seq<Entry>): Option<Member> {
    if subs == [] then None
    else
      var before := FirstReleased(subs[..|subs| - 1]);
      var e := subs[|subs| - 1];
      if before == None && e.state.Released? then Some(e.key.member) else before
  }

  /** It is the member of the first entry that is released. */
  lemma {:induction false} FirstReleasedIs(subs: seq<Entry>)
    ensures FirstReleased(subs) == None <==> forall i | 0 <= i < |subs| :: !subs[i].state.Released?
    ensures FirstReleased(subs).Some? ==> exists i | 0 <= i < |subs| :: IsFirstReleased(subs, i)
    ensures forall i | IsFirstReleased(subs, i) :: FirstReleased(subs) == Some(subs[i].key.member)
  {
    if subs != [] {
      var before := subs[..|subs| - 1];
      FirstReleasedIs(before);
      if FirstReleased(before).Some? {
        var i :| 0 <= i < |before| && IsFirstReleased(before, i);
        assert IsFirstReleased(subs, i);
      } else if subs[|subs| - 1].state.Released? {
        assert IsFirstReleased(subs, |subs| - 1);
      }
    }
  }

  predicate IsFirstReleased(subs: seq<Entry>, i: int) {
    0 <= i < |subs| && subs[i].state.Released? && forall j | 0 <= j < i :: !subs[j].state.Released?
  }

  predicate Owed(e: Entry, m: Member) { e.key.member == m && e.state.Released? }

  /** The paths the member's released entries name, in table order. */
  function OwedPaths(subs: seq<Entry>, m: Member): seq<string> {
    if subs == [] then []
    else
      var e := subs[|subs| - 1];
      OwedPaths(subs[..|subs| - 1], m) + (if Owed(e, m) then [e.key.path] else [])
  }

  /** The k-th of them is the path of the owed entry with k owed ones before it ... */
  lemma {:induction false} OwedPathsAre(subs: seq<Entry>, m: Member, k: nat) returns (i: nat)
    requires k < |OwedPaths(subs, m)|
    ensures i < |subs| && Owed(subs[i], m) && subs[i].key.path == OwedPaths(subs, m)[k]
    ensures k == |OwedPaths(subs[..i], m)|
  {
    var n := |subs| - 1;
    var before := OwedPaths(subs[..n], m);
    if k < |before| {
      i := OwedPathsAre(subs[..n], m, k);
      assert subs[..n][..i] == subs[..i];
    } else {
      i := n;
    }
  }

  /** ... and each owed entry's is among them. */
  lemma {:induction false} OwedIsAmong(subs: seq<Entry>, m: Member, i: nat)
    requires i < |subs| && Owed(subs[i], m)
    ensures |OwedPaths(subs[..i], m)| < |OwedPaths(subs, m)|
  {
    var n := |subs| - 1;
    if i < n {
      assert subs[..n][..i] == subs[..i];
      OwedIsAmong(subs[..n], m, i);
    }
  }

  /** start is asked for by a released entry of m, and none asks for an earlier one. */
  ghost predicate IsEarliest(subs: seq<Entry>, m: Member, start: nat) {
    && (exists i | 0 <= i < |subs| :: Owed(subs[i], m) && subs[i].state.from == start)
    && (forall i | 0 <= i < |subs| && Owed(subs[i], m) :: start <= subs[i].state.from)
  }

  function Served(subs: seq<Entry>, m: Member): (out: seq<Entry>)
    ensures |out| == |subs|
  {
    seq(|subs|, i requires 0 <= i < |subs| => if Owed(subs[i], m) then subs[i].(state := Live) else subs[i])
  }

  lemma {:induction false} NoneReleased(subs: seq<Entry>, m: Member)
    requires FirstReleased(subs) == None
    ensures forall i | 0 <= i < |subs| :: !subs[i].state.Released?
    ensures OwedPaths(subs, m) == [] && Served(subs, m) == subs
  {
    if subs != [] {
      NoneReleased(subs[..|subs| - 1], m);
    }
  }

  lemma ServedUnique(subs: seq<Entry>, m: Member)
    requires Unique(subs)
    ensures Unique(Served(subs, m))
  {
  }

  /** One more entry in the scan. */
  lemma TakeStep(subs: seq<Entry>, i: nat, m: Member)
    requires i < |subs|
    ensures var e, before, upto := subs[i], subs[..i], subs[..i + 1];
      && FirstReleased(upto) == (if FirstReleased(before) == None && e.state.Released? then Some(e.key.member)
                                 else FirstReleased(before))
      && OwedPaths(upto, m) == OwedPaths(before, m) + (if Owed(e, m) then [e.key.path] else [])
      && Served(upto, m) == Served(before, m) + [if Owed(e, m) then e.(state := Live) else e]
      && (!Owed(e, m) ==> forall start :: IsEarliest(before, m, start) ==> IsEarliest(upto, m, start))
      && (Owed(e, m) ==> forall start :: IsEarliest(before, m, start) ==>
            IsEarliest(upto, m, if e.state.from < start then e.state.from else start))
      && (Owed(e, m) && (forall j | 0 <= j < i :: !Owed(subs[j], m)) ==> IsEarliest(upto, m, e.state.from))
  {
    var upto := subs[..i + 1];
    assert upto[..i] == subs[..i] && upto[i] == subs[i];
    forall start | IsEarliest(subs[..i], m, start)
      ensures IsEarliest(upto, m, if Owed(subs[i], m) && subs[i].state.from < start then subs[i].state.from else start)
    {
      var j :| 0 <= j < i && Owed(subs[..i][j], m) && subs[..i][j].state.from == start;
      assert Owed(upto[j], m);
    }
    if Owed(subs[i], m) { assert Owed(upto[i], m); }
  }

  /** What taking a backfill has found and changed after the first i entries. */
  ghost predicate Scanned(subs: seq<Entry>, i: nat, now: seq<Entry>, member: Option<Member>, paths: seq<string>,
                          start: nat)
  {
    && i <= |subs| == |now| && now[i..] == subs[i..]
    && member == FirstReleased(subs[..i])
    && (member == None ==> paths == [] && now == subs)
    && (member.Some? ==> paths == OwedPaths(subs[..i], member.value))
    && (member.Some? ==> IsEarliest(subs[..i], member.value, start))
    && (member.Some? ==> now[..i] == Served(subs[..i], member.value))
  }

  lemma ScanStep(subs: seq<Entry>, i: nat, now: seq<Entry>, member: Option<Member>, paths: seq<string>, start: nat)
    requires i < |subs| && Scanned(subs, i, now, member, paths, start)
    ensures |now| == |subs| && now[i] == subs[i]
    ensures var e := now[i];
      if e.state.Released? && (member == None || e.key.member == member.value) then
        Scanned(subs, i + 1, now[i := e.(state := Live)], Some(e.key.member), paths + [e.key.path],
                if member == None || e.state.from < start then e.state.from else start)
      else Scanned(subs, i + 1, now, member, paths, start)
  {
    assert now[i] == now[i..][0];
    if member == None {
      ScanNone(subs, i, now, member, paths, start);
    } else {
      ScanMore(subs, i, now, member, paths, start);
    }
  }

  lemma ScanNone(subs: seq<Entry>, i: nat, now: seq<Entry>, member: Option<Member>, paths: seq<string>, start: nat)
    requires i < |subs| && Scanned(subs, i, now, member, paths, start) && member == None && now[i] == subs[i]
    ensures var e := now[i];
      if e.state.Released? then
        Scanned(subs, i + 1, now[i := e.(state := Live)], Some(e.key.member), paths + [e.key.path], e.state.from)
      else Scanned(subs, i + 1, now, member, paths, start)
  {
    var e := subs[i];
    NoneReleased(subs[..i], e.key.member);
    assert forall j | 0 <= j < i :: subs[j] == subs[..i][j];
    TakeStep(subs, i, e.key.member);
    hide FirstReleased, IsEarliest, OwedPaths, Served;
    assert now[i := e.(state := Live)][..i + 1] == now[..i] + [e.(state := Live)];
    assert now[i := e.(state := Live)][i + 1..] == now[i..][1..];
  }

  lemma ScanMore(subs: seq<Entry>, i: nat, now: seq<Entry>, member: Option<Member>, paths: seq<string>, start: nat)
    requires i < |subs| && Scanned(subs, i, now, member, paths, start) && member.Some? && now[i] == subs[i]
    ensures var e := now[i];
      if Owed(e, member.value) then
        Scanned(subs, i + 1, now[i := e.(state := Live)], member, paths + [e.key.path],
                if e.state.from < start then e.state.from else start)
      else Scanned(subs, i + 1, now, member, paths, start)
  {
    var e := subs[i];
    TakeStep(subs, i, member.value);
    hide FirstReleased, IsEarliest, OwedPaths, Served;
    assert now[i := e.(state := Live)][..i + 1] == now[..i] + [e.(state := Live)];
    assert now[i := e.(state := Live)][i + 1..] == now[i..][1..];
    assert now[..i + 1] == now[..i] + [e] && now[i + 1..] == now[i..][1..];
  }

  /** The lag table keeps exactly the greatest step of whoever acknowledged. */
  ghost predicate LagIsGreatest(lag: seq<Ack>, acks: seq<Ack>) {
    && (forall i, j | 0 <= i < j < |lag| :: lag[i].member != lag[j].member)
    && (forall i | 0 <= i < |lag| :: AckedTo(acks, lag[i].member, lag[i].step))
    && (forall a | a in acks :: a.member in MembersOf(lag))
  }

  class Writer {
    const self: Member
    var members: seq<Member>
    var subs: seq<Entry>
    var lag: seq<Ack>
    /** Every acknowledgement received, in order. */
    ghost var acks: seq<Ack>

    ghost predicate Valid()
      reads this
    {
      && Distinct(members) && self !in members
      && Unique(subs)
      && LagIsGreatest(lag, acks)
    }

    constructor (self: Member)
      ensures Valid() && this.self == self && members == [] && subs == [] && lag == [] && acks == []
    {
      this.self := self;
      members, subs, lag, acks := [], [], [], [];
    }

    // ----- Subscriptions -----

    method Subscribe(r: Request) returns (matched: bool)
      requires Valid()
      modifies this`subs
      ensures Valid()
      ensures AsMap(subs) == Requested(old(AsMap(subs)), r)
      ensures matched <==> Matches(old(AsMap(subs)), r)
      ensures |old(subs)| <= |subs| <= |old(subs)| + 1
      ensures forall i | 0 <= i < |old(subs)| :: subs[i].key == old(subs)[i].key
    {
      hide AsMap, Requested, Matches, LagIsGreatest;
      matched := false;
      if r.fromOnly {
        matched := ReleaseStaged(r);
      } else {
        var i := 0;
        while i < |subs| && subs[i].key != r.key
          invariant i <= |subs| && forall j | 0 <= j < i :: subs[j].key != r.key
        {
          i := i + 1;
        }
        if i < |subs| {
          AmendedMap(subs, i, r);
          subs := subs[i := Amended(subs[i], r)];
          matched := true;
        } else {
          NewEntryMap(subs, r);
          NoMatch(AsMap(subs), r);
          if !r.predOnly && !r.typeOnly {
            subs := subs + [NewEntry(r)];
            matched := true;
          }
        }
      }
    }

    /** Whatever the sender has set aside may be backfilled from now on. */
    method ReleaseStaged(r: Request) returns (matched: bool)
      requires Valid() && r.fromOnly
      modifies this`subs
      ensures Valid()
      ensures AsMap(subs) == Requested(old(AsMap(subs)), r)
      ensures matched <==> Matches(old(AsMap(subs)), r)
      ensures |subs| == |old(subs)| && forall i | 0 <= i < |subs| :: subs[i].key == old(subs)[i].key
    {
      hide AsMap, Requested, Matches, LagIsGreatest;
      matched := false;
      for i := 0 to |subs|
        invariant |subs| == |old(subs)|
        invariant forall j | 0 <= j < i :: subs[j] == ReleasedFor(old(subs)[j], r)
        invariant forall j | i <= j < |subs| :: subs[j] == old(subs)[j]
        invariant matched <==> exists j | 0 <= j < i :: StagedFor(old(subs)[j], r)
      {
        if subs[i].key.member == r.key.member && subs[i].state.Staged? {
          subs := subs[i := subs[i].(state := Released(subs[i].state.from))];
          matched := true;
        }
      }
      ReleasedMap(old(subs), subs, r);
      ReleasedMatches(old(subs), r);
    }

    /** Pick the first member with a released entry, and make all its released
        entries live; start is the least step among them. */
    method TakeBackfill() returns (member: Option<Member>, paths: seq<string>, start: nat)
      requires Valid()
      modifies this`subs
      ensures Valid()
      ensures member == FirstReleased(old(subs))
      ensures member == None ==> paths == [] && subs == old(subs)
      ensures member.Some? ==> paths == OwedPaths(old(subs), member.value)
      ensures member.Some? ==> IsEarliest(old(subs), member.value, start)
      ensures member.Some? ==> subs == Served(old(subs), member.value)
    {
      member, paths, start := None, [], 0;
      assert FirstReleased(subs[..0]) == None;
      hide FirstReleased, IsEarliest, OwedPaths, Served, LagIsGreatest, Unique;
      for i := 0 to |subs|
        invariant Scanned(old(subs), i, subs, member, paths, start)
      {
        ScanStep(old(subs), i, subs, member, paths, start);
        hide Scanned, Owed;
        var e := subs[i];
        if e.state.Released? && (member == None || e.key.member == member.value) {
          start := if member == None || e.state.from < start then e.state.from else start;
          member := Some(e.key.member);
          paths := paths + [e.key.path];
          subs := subs[i := e.(state := Live)];
        }
      }
      assert old(subs)[..|subs|] == old(subs) && subs[..|subs|] == subs;
      if member.Some? {
        ServedUnique(old(subs), member.value);
      }
    }

    /** Whether some entry of m is not live yet. */
    method MemberBackfilling(m: Member) returns (yes: bool)
      ensures yes <==> exists e | e in subs :: e.key.member == m && !e.state.Live?
    {
      var i := 0;
      yes := false;
      while i < |subs| && !yes
        invariant i <= |subs|
        invariant yes <==> exists e | e in subs[..i] :: e.key.member == m && !e.state.Live?
      {
        assert subs[..i + 1] == subs[..i] + [subs[i]];
        yes := subs[i].key.member == m && !subs[i].state.Live?;
        i := i + 1;
      }
    }

    /** The entries a push goes to, copied out under the lock. */
    method Snapshot(path: string, only: Option<Member>) returns (out: seq<Entry>)
      ensures out == LiveFor(subs, path, only)
    {
      out := [];
      for i := 0 to |subs|
        invariant out == LiveFor(subs[..i], path, only)
      {
        assert subs[..i + 1][..i] == subs[..i];
        var e := subs[i];
        if e.key.path != path || (only.Some? && e.key.member != only.value) || !e.state.Live? {
          continue;
        }
        out := out + [e];
      }
      assert subs[..|subs|] == subs;
    }

    /** Distinct subscribers: an entry counts if no earlier one has its member. */
    method DistinctSubscribers() returns (n: nat)
      ensures n == |Subscribers(subs)|
    {
      n := 0;
      for i := 0 to |subs|
        invariant n == |Subscribers(subs[..i])|
      {
        var j := 0;
        while j < i && subs[j].key.member != subs[i].key.member
          invariant j <= i && forall k | 0 <= k < j :: subs[k].key.member != subs[i].key.member
        {
          j := j + 1;
        }
        SubscribersStep(subs, i);
        if j == i {
          n := n + 1;
        } else {
          assert subs[..i][j].key.member == subs[i].key.member;
        }
      }
      assert subs[..|subs|] == subs;
    }

    // ----- Membership -----

    /** Whoever left has no subscription any more. */
    method PurgeSubscriptions(m: Member)
      requires Unique(subs)
      modifies this`subs
      ensures subs == Without(old(subs), m) && Unique(subs)
    {
      WithoutUnique(subs, m);
      hide Unique, Without;
      var i := 0;
      assert subs[0..] == subs;
      while i < |subs|
        invariant i <= |subs|
        invariant Without(old(subs), m) == subs[..i] + Without(subs[i..], m)
        decreases |subs| - i
      {
        PurgeStep(subs, i, m);
        if subs[i].key.member == m {
          subs := subs[..i] + subs[i + 1..];
        } else {
          i := i + 1;
        }
      }
      PurgeEnd(subs, m);
    }

    method AddMember(m: Member)
      requires Distinct(members) && self !in members
      modifies this`members
      ensures members == Added(old(members), self, m)
      ensures Distinct(members) && self !in members
    {
      if m == self {
        return;
      }
      for i := 0 to |members|
        invariant m !in members[..i]
      {
        if members[i] == m {
          return;
        }
        assert members[..i + 1] == members[..i] + [members[i]];
      }
      assert members[..|members|] == members;
      members := members + [m];
    }

    method RemoveMember(m: Member)
      requires Distinct(members) && self !in members
      modifies this`members
      ensures members == Removed(old(members), m)
      ensures Distinct(members) && self !in members
    {
      RemovedMembers(members, m);
      for i := 0 to |members|
        invariant members == old(members) && m !in members[..i]
      {
        assert members[..i + 1] == members[..i] + [members[i]];
        if members[i] == m {
          RemovedAt(members, m, i);
          members := members[..i] + members[i + 1..];
          return;
        }
      }
      assert members[..|members|] == members;
      RemovedAbsent(members, m);
    }

    /** Every member but this process, as stable identities. */
    method SnapshotMembers() returns (out: seq<Member>)
      requires Valid()
      ensures out == members
    {
      out := [];
      for i := 0 to |members|
        invariant out == members[..i]
      {
        if members[i] == self {
          continue;
        }
        out := out + [members[i]];
      }
    }

    // ----- Backpressure -----

    /** Record how far a reader has consumed; a stale report changes nothing. */
    method ReceiveAck(m: Member, step: nat)
      requires Valid()
      modifies this`lag, this`acks
      ensures Valid()
      ensures acks == old(acks) + [Ack(m, step)]
      ensures (exists a | a in old(acks) :: a.member == m && a.step >= step) ==> lag == old(lag)
    {
      acks := acks + [Ack(m, step)];
      assert acks[..|acks| - 1] == old(acks);
      var i := 0;
      while i < |lag| && lag[i].member != m
        invariant i <= |lag| && forall j | 0 <= j < i :: lag[j].member != m
      {
        i := i + 1;
      }
      if i < |lag| {
        if step > lag[i].step {
          lag := lag[i := Ack(m, step)];
        }
        assert MembersOf(lag) == MembersOf(old(lag)) && MembersOf(lag)[i] == m;
      } else {
        assert forall a | a in old(acks) :: a.member != m;
        lag := lag + [Ack(m, step)];
        assert MembersOf(lag) == MembersOf(old(lag)) + [m];
      }
    }

    /** The least, over members present now that ever acknowledged, of each
        one's greatest acknowledged step; nothing exactly if there is none. */
    method MinAcked() returns (least: Option<nat>)
      requires Valid()
      ensures least == None <==> forall a | a in acks :: a.member !in members
      ensures least.Some? ==> exists m | m in members :: AckedTo(acks, m, least.value)
      ensures least.Some? ==> forall m, k | m in members && AckedTo(acks, m, k) :: least.value <= k
    {
      least := None;
      for i := 0 to |lag|
        invariant least == None ==> forall j | 0 <= j < i :: lag[j].member !in members
        invariant least.Some? ==> exists m | m in members :: AckedTo(acks, m, least.value)
        invariant least.Some? ==> forall j | 0 <= j < i && lag[j].member in members :: least.value <= lag[j].step
      {
        var present := IsPresent(lag[i].member);
        if !present {
          continue;
        }
        if least == None || lag[i].step < least.value {
          least := Some(lag[i].step);
          assert AckedTo(acks, lag[i].member, least.value);
        }
      }
      forall a | a in acks ensures exists j :: 0 <= j < |lag| && lag[j].member == a.member {
        assert exists j :: 0 <= j < |lag| && MembersOf(lag)[j] == a.member;
      }
    }

    method IsPresent(m: Member) returns (present: bool)
      ensures present <==> m in members
    {
      for i := 0 to |members|
        invariant m !in members[..i]
      {
        if members[i] == m {
          return true;
        }
        assert members[..i + 1] == members[..i] + [members[i]];
      }
      assert members[..|members|] == members;
      return false;
    }
  }

  lemma PurgeStep(subs: seq<Entry>, i: nat, m: Member)
    requires i < |subs|
    ensures subs[i].key.member == m ==>
      var after := subs[..i] + subs[i + 1..];
      after[..i] == subs[..i] && Without(after[i..], m) == Without(subs[i..], m)
    ensures subs[i].key.member != m ==>
      subs[..i + 1] + Without(subs[i + 1..], m) == subs[..i] + Without(subs[i..], m)
  {
  }

  lemma PurgeEnd(subs: seq<Entry>, m: Member)
    ensures subs[..|subs|] + Without(subs[|subs|..], m) == subs
  {
  }

  // ----- What the specification says -----

  function Added(members: seq<Member>, self: Member, m: Member): seq<Member> {
    if m == self || m in members then members else members + [m]
  }

  lemma {:induction false} RemovedAt(members: seq<Member>, m: Member, i: nat)
    requires i < |members| && members[i] == m && m !in members[..i]
    ensures Removed(members, m) == members[..i] + members[i + 1..]
  {
    if i == 0 {
    } else {
      assert members[0] in members[..i];
      assert members[1..][..i - 1] == members[..i][1..];
      RemovedAt(members[1..], m, i - 1);
      assert members[..i] == [members[0]] + members[1..][..i - 1];
    }
  }

  lemma {:induction false} RemovedAbsent(members: seq<Member>, m: Member)
    requires m !in members
    ensures Removed(members, m) == members
  {
    if members != [] {
      RemovedAbsent(members[1..], m);
    }
  }

  /** A departure removes that member alone. */
  lemma {:induction false} RemovedMembers(members: seq<Member>, m: Member)
    requires Distinct(members)
    ensures Distinct(Removed(members, m))
    ensures forall x :: x in Removed(members, m) <==> x in members && x != m
  {
    if members != [] {
      assert members[0] !in members[1..];
      RemovedMembers(members[1..], m);
    }
  }

  lemma {:induction false} WithoutUnique(subs: seq<Entry>, m: Member)
    requires Unique(subs)
    ensures Unique(Without(subs, m))
    ensures forall e :: e in Without(subs, m) <==> e in subs && e.key.member != m
  {
    if subs != [] {
      WithoutUnique(subs[1..], m);
    }
  }

  /** As a map, a departure takes away exactly the member's keys. */
  lemma WithoutMap(subs: seq<Entry>, m: Member)
    requires Unique(subs)
    ensures AsMap(Without(subs, m)) == map k | k in AsMap(subs) && k.member != m :: AsMap(subs)[k]
  {
    AsMapHolds(subs);
    WithoutUnique(subs, m);
    AsMapUnique(Without(subs, m), map k | k in AsMap(subs) && k.member != m :: AsMap(subs)[k]);
  }

  /** ... and the survivors keep their order. */
  lemma {:induction false} WithoutKeepsOrder(subs: seq<Entry>, m: Member, i: nat, j: nat)
    returns (i': nat, j': nat)
    requires i < j < |subs| && subs[i].key.member != m && subs[j].key.member != m
    ensures i' < j' < |Without(subs, m)| && Without(subs, m)[i'] == subs[i] && Without(subs, m)[j'] == subs[j]
  {
    if i > 0 {
      i', j' := WithoutKeepsOrder(subs[1..], m, i - 1, j - 1);
      if subs[0].key.member != m { i', j' := i' + 1, j' + 1; }
    } else {
      assert subs[j] in subs[1..] by { assert subs[1..][j - 1] == subs[j]; }
      j' := WithoutHas(subs[1..], m, subs[j]);
      i', j' := 0, j' + 1;
    }
  }

  lemma {:induction false} WithoutHas(subs: seq<Entry>, m: Member, e: Entry) returns (k: nat)
    requires e in subs && e.key.member != m
    ensures k < |Without(subs, m)| && Without(subs, m)[k] == e
  {
    if subs[0] == e {
      k := 0;
    } else {
      k := WithoutHas(subs[1..], m, e);
      if subs[0].key.member != m { k := k + 1; }
    }
  }
}
