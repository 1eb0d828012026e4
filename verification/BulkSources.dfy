/** Memory that pushes in flight pull from: regions registered on first use,
    requests counted while they borrow, frees put off until nothing pulls. */
module BulkSources {
  import opened Delivery

  type Address = nat

  /** At most this many pushes in flight at once. */
  const MAX_INFLIGHT := 256

  datatype Extent = Extent(base: Address, len: nat) {
    predicate In(o: Extent) { o.base <= base && base + len <= o.base + o.len }
  }

  /** Memory pushes may pull from, registered once one does. */
  datatype Region = Region(extent: Extent, bulk: Option<nat>)

  /** One issued push: the buffer it frees when it completes, the registration
      that is its alone, and whether it pulls from memory it does not own. */
  datatype Transfer = Transfer(handle: nat, owned: Option<Address>, member: Member, bulk: Option<nat>, borrowed: bool)

  /** What a request in flight reads: len bytes at offset of a registration. */
  datatype Pull = Pull(use: nat, offset: nat, payload: Extent)

  /** How the calls a push makes turn out. */
  datatype Env = Env(dropped: bool, threshold: nat, regionRegisters: bool, registers: bool, creates: bool,
                     forwards: bool, grows: bool, lost: nat -> bool)

  // ----- What holds between calls -----

  type Heap = map<Address, nat>
  type Bulks = map<nat, Extent>
  type Pulls = map<nat, Pull>

  /** Allocated blocks do not overlap. */
  ghost predicate Disjoint(live: Heap) {
    && (forall a | a in live :: live[a] > 0)
    && (forall a, b | a in live && b in live && a != b :: a + live[a] <= b || b + live[b] <= a)
  }

  ghost predicate InBlock(live: Heap, b: Address, x: Extent) {
    b in live && x.len > 0 && x.In(Extent(b, live[b]))
  }

  ghost predicate InSome(live: Heap, blocks: set<Address>, x: Extent) { exists b | b in blocks :: InBlock(live, b, x) }

  lemma OneBlock(live: Heap, a: Address, b: Address, x: Extent)
    requires Disjoint(live) && InBlock(live, a, x) && InBlock(live, b, x)
    ensures a == b
  {
  }

  ghost function Owned(inflight: seq<Transfer>): set<Address> {
    set e | e in inflight && e.owned.Some? :: e.owned.value
  }

  ghost function Private(inflight: seq<Transfer>): set<nat> { set e | e in inflight && e.bulk.Some? :: e.bulk.value }

  ghost function Handles(inflight: seq<Transfer>): set<nat> { set e | e in inflight :: e.handle }

  ghost function Shared(regions: seq<Region>): set<nat> { set r | r in regions && r.bulk.Some? :: r.bulk.value }

  ghost function Elements(s: seq<Address>): set<Address> { set a | a in s }

  function Borrowed(inflight: seq<Transfer>): nat {
    if inflight == [] then 0
    else (if inflight[0].borrowed then 1 else 0) + Borrowed(inflight[1..])
  }

  lemma {:induction false} BorrowedAppend(a: seq<Transfer>, e: Transfer)
    ensures Borrowed(a + [e]) == Borrowed(a) + if e.borrowed then 1 else 0
  {
    if a == [] {
      assert a + [e] == [e];
    } else {
      assert (a + [e])[1..] == a[1..] + [e];
      BorrowedAppend(a[1..], e);
    }
  }

  lemma {:induction false} NoneBorrowed(inflight: seq<Transfer>)
    requires Borrowed(inflight) == 0
    ensures forall e | e in inflight :: !e.borrowed
  {
    if inflight != [] {
      NoneBorrowed(inflight[1..]);
    }
  }

  /** No two requests share a handle, a buffer or a registration. */
  ghost predicate Separate(inflight: seq<Transfer>) {
    forall i, j | 0 <= i < j < |inflight| ::
      && inflight[i].handle != inflight[j].handle
      && (inflight[i].owned.Some? ==> inflight[i].owned != inflight[j].owned)
      && (inflight[i].bulk.Some? ==> inflight[i].bulk != inflight[j].bulk)
  }

  ghost predicate SeparateRegions(regions: seq<Region>) {
    forall i, j | 0 <= i < j < |regions| :: regions[i].bulk.Some? ==> regions[i].bulk != regions[j].bulk
  }

  ghost predicate SeparateBlocks(deferred: seq<Address>) {
    forall i, j | 0 <= i < j < |deferred| :: deferred[i] != deferred[j]
  }

  /** Every block is held by a caller, or put off, or owned by one request. */
  ghost predicate Blocks(live: Heap, held: set<Address>, inflight: seq<Transfer>, deferred: seq<Address>) {
    && Disjoint(live) && SeparateBlocks(deferred)
    && live.Keys == held + Elements(deferred) + Owned(inflight)
    && held !! Elements(deferred) && held !! Owned(inflight) && Elements(deferred) !! Owned(inflight)
  }

  /** A region names memory that is allocated, and its registration is exactly it. */
  ghost predicate RegionsLive(live: Heap, lendable: set<Address>, bulks: Bulks, regions: seq<Region>) {
    forall r | r in regions ::
      InSome(live, lendable, r.extent) && (r.bulk.Some? ==> r.bulk.value in bulks && bulks[r.bulk.value] == r.extent)
  }

  /** A request's own registration is over the buffer it owns or one it borrows. */
  ghost predicate PrivateLive(live: Heap, lendable: set<Address>, bulks: Bulks, inflight: seq<Transfer>) {
    forall e | e in inflight ::
      && (e.borrowed ==> e.owned == None)
      && (e.bulk.Some? ==> e.bulk.value in bulks)
      && (e.bulk.Some? && !e.borrowed ==> e.owned.Some? && InBlock(live, e.owned.value, bulks[e.bulk.value]))
      && (e.bulk.Some? && e.borrowed ==> InSome(live, lendable, bulks[e.bulk.value]))
  }

  /** What a request in flight pulls is exactly its payload, inside a live
      registration: its own, or a region's if it borrows. */
  ghost predicate PullsSafe(bulks: Bulks, pulls: Pulls, inflight: seq<Transfer>, regions: seq<Region>) {
    forall e | e in inflight && e.handle in pulls :: PullSafe(bulks, pulls[e.handle], e.bulk, e.borrowed, regions)
  }

  ghost predicate PullSafe(bulks: Bulks, p: Pull, own: Option<nat>, borrowed: bool, regions: seq<Region>) {
    && ReadsExactly(bulks, p)
    && if own.Some? then p.use == own.value else borrowed && p.use in Shared(regions)
  }

  ghost predicate ReadsExactly(bulks: Bulks, p: Pull) {
    p.use in bulks && bulks[p.use].base + p.offset == p.payload.base && p.payload.In(bulks[p.use])
  }

  ghost function BulkNamed(r: Region): set<nat> { if r.bulk.Some? then {r.bulk.value} else {} }

  /** The i-th region gone, the last one in its place. */
  function MovedUp(regions: seq<Region>, i: nat): seq<Region>
    requires i < |regions|
  {
    regions[i := regions[|regions| - 1]][..|regions| - 1]
  }

  // ----- One request leaves -----

  ghost function OwnedBy(e: Transfer): set<Address> { if e.owned.Some? then {e.owned.value} else {} }

  ghost function BulkOf(e: Transfer): set<nat> { if e.bulk.Some? then {e.bulk.value} else {} }

  lemma HeadParts(inflight: seq<Transfer>)
    requires inflight != []
    ensures var e, rest := inflight[0], inflight[1..];
      && Owned(inflight) == OwnedBy(e) + Owned(rest)
      && Private(inflight) == BulkOf(e) + Private(rest)
      && Handles(inflight) == {e.handle} + Handles(rest)
    ensures Separate(inflight) ==> var e, rest := inflight[0], inflight[1..];
      Separate(rest) && OwnedBy(e) !! Owned(rest) && BulkOf(e) !! Private(rest) && e.handle !in Handles(rest)
  {
  }

  /** Blocks freed are in use nowhere else, so what lies in others stays. */
  lemma StillInSome(live: Heap, gone: set<Address>, blocks: set<Address>, x: Extent)
    requires InSome(live, blocks, x) && gone !! blocks
    ensures InSome(live - gone, blocks, x)
  {
  }

  lemma StillLive(live: Heap, gone: set<Address>, lendable: set<Address>, bulks: Bulks, freed: set<nat>,
                  regions: seq<Region>, inflight: seq<Transfer>)
    requires RegionsLive(live, lendable, bulks, regions) && PrivateLive(live, lendable, bulks, inflight)
    requires gone !! lendable + Owned(inflight) && freed !! Shared(regions) + Private(inflight)
    ensures RegionsLive(live - gone, lendable, bulks - freed, regions)
    ensures PrivateLive(live - gone, lendable, bulks - freed, inflight)
  {
  }

  lemma StillSafe(bulks: Bulks, freed: set<nat>, pulls: Pulls, done: set<nat>, inflight: seq<Transfer>,
                  regions: seq<Region>)
    requires PullsSafe(bulks, pulls, inflight, regions) && freed !! Shared(regions) + Private(inflight)
    ensures PullsSafe(bulks - freed, pulls - done, inflight, regions)
  {
  }

  lemma Suffix(live: Heap, lendable: set<Address>, bulks: Bulks, pulls: Pulls, inflight: seq<Transfer>,
               regions: seq<Region>)
    requires inflight != [] && PrivateLive(live, lendable, bulks, inflight)
             && PullsSafe(bulks, pulls, inflight, regions)
    ensures PrivateLive(live, lendable, bulks, inflight[1..]) && PullsSafe(bulks, pulls, inflight[1..], regions)
  {
  }

  /** Nothing but the oldest request pulls through its own registration. */
  lemma OnlyPull(bulks: Bulks, pulls: Pulls, inflight: seq<Transfer>, regions: seq<Region>)
    requires inflight != [] && Separate(inflight) && PullsSafe(bulks, pulls, inflight, regions)
    requires pulls.Keys <= Handles(inflight) && Shared(regions) !! Private(inflight)
    ensures forall h | h in pulls && h != inflight[0].handle :: pulls[h].use !in BulkOf(inflight[0])
  {
  }

  /** Nothing but its own registration lies in the buffer the oldest request owns. */
  lemma OnlyUse(live: Heap, held: set<Address>, bulks: Bulks, inflight: seq<Transfer>, deferred: seq<Address>,
                regions: seq<Region>, loose: set<nat>)
    requires inflight != [] && inflight[0].owned.Some? && Separate(inflight) && Blocks(live, held, inflight, deferred)
    requires var lendable := held + Elements(deferred);
      && RegionsLive(live, lendable, bulks, regions) && PrivateLive(live, lendable, bulks, inflight)
      && (forall b | b in loose && b in bulks :: InSome(live, lendable, bulks[b]))
    requires bulks.Keys == Shared(regions) + Private(inflight) + loose
    ensures var p := inflight[0].owned.value;
      && p in live
      && (forall b | b in bulks && b !in BulkOf(inflight[0]) :: !InBlock(live, p, bulks[b]))
      && (forall r | r in regions :: !InBlock(live, p, r.extent))
  {
  }

  /** Nothing registered, and nothing a region names, lies in the block. */
  ghost predicate Unused(live: Heap, bulks: Bulks, regions: seq<Region>, p: Address) {
    && (forall b | b in bulks :: !InBlock(live, p, bulks[b]))
    && (forall r | r in regions :: !InBlock(live, p, r.extent))
  }

  ghost predicate Unread(pulls: Pulls, b: nat) { forall h | h in pulls :: pulls[h].use != b }

  // ----- The whole state, as one value -----

  /** Every identity below next is live or was given back, never both. */
  ghost predicate Spent(live: set<nat>, freed: set<nat>, next: nat) {
    live !! freed && forall n: nat :: n in live + freed <==> n < next
  }

  lemma SpentOneMore(live: set<nat>, freed: set<nat>, next: nat)
    requires Spent(live, freed, next)
    ensures next !in live && Spent(live + {next}, freed, next + 1)
  {
    assert next !in live + freed;
    forall n: nat ensures n in live + {next} + freed <==> n < next + 1 {
      assert n in live + freed <==> n < next;
    }
  }

  lemma SpentBack(live: set<nat>, freed: set<nat>, next: nat, back: set<nat>)
    requires Spent(live, freed, next) && back <= live
    ensures Spent(live - back, freed + back, next)
  {
    assert live - back + (freed + back) == live + freed;
  }

  /** What the transport records, and the process's memory around it: allocated
      blocks, registrations, outstanding requests' handles and what each reads;
      the blocks that are not the transport's to free; what the push now being
      made holds besides; and every identity given back so far. */
  datatype Memory = Memory(inflight: seq<Transfer>, regions: seq<Region>, deferred: seq<Address>, live: Heap,
    bulks: Bulks, pulls: Pulls, handles: set<nat>, held: set<Address>, looseBulks: set<nat>, looseHandles: set<nat>,
    freedBulks: set<nat>, freedHandles: set<nat>, nextBulk: nat, nextHandle: nat)
  {
    ghost function Lendable(): set<Address> { held + Elements(deferred) }

    /** Nothing leaks and nothing is given back twice: every registration and
        handle ever made is live, in exactly one place, or was given back. */
    ghost predicate Ledger() {
      && Separate(inflight) && SeparateRegions(regions)
      && bulks.Keys == Shared(regions) + Private(inflight) + looseBulks
      && Shared(regions) !! Private(inflight) && looseBulks !! Shared(regions) + Private(inflight)
      && handles == Handles(inflight) + looseHandles && looseHandles !! Handles(inflight)
      && pulls.Keys <= handles
    }

    ghost predicate Once() {
      Spent(bulks.Keys, freedBulks, nextBulk) && Spent(handles, freedHandles, nextHandle)
    }

    ghost predicate Backed() {
      && Blocks(live, held, inflight, deferred)
      && RegionsLive(live, Lendable(), bulks, regions)
      && PrivateLive(live, Lendable(), bulks, inflight)
      && forall b | b in looseBulks && b in bulks :: InSome(live, Lendable(), bulks[b])
    }

    ghost predicate Consistent() {
      Ledger() && Once() && Backed() && PullsSafe(bulks, pulls, inflight, regions)
    }

    /** The oldest request completed. */
    ghost function Drained(): Memory
      requires inflight != []
    {
      var e := inflight[0];
      this.(inflight := inflight[1..], live := live - OwnedBy(e), bulks := bulks - BulkOf(e),
            pulls := pulls - {e.handle}, handles := handles - {e.handle},
            freedBulks := freedBulks + BulkOf(e), freedHandles := freedHandles + {e.handle})
    }

    /** Region i registered. */
    ghost function Registered(i: nat): Memory
      requires i < |regions|
    {
      var x := regions[i].extent;
      this.(regions := regions[i := Region(x, Some(nextBulk))], bulks := bulks[nextBulk := x], nextBulk := nextBulk + 1)
    }

    /** A registration of x for the push being made. */
    ghost function OwnRegistered(x: Extent): Memory {
      this.(bulks := bulks[nextBulk := x], looseBulks := looseBulks + {nextBulk}, nextBulk := nextBulk + 1)
    }

    ghost function OwnFreed(b: nat): Memory {
      this.(bulks := bulks - {b}, looseBulks := looseBulks - {b}, freedBulks := freedBulks + {b})
    }

    ghost function Created(): Memory {
      this.(handles := handles + {nextHandle}, looseHandles := looseHandles + {nextHandle}, nextHandle := nextHandle + 1)
    }

    ghost function Destroyed(h: nat): Memory {
      this.(handles := handles - {h}, looseHandles := looseHandles - {h}, freedHandles := freedHandles + {h})
    }

    /** A request added to those in flight, with all it holds and reads. */
    ghost function Recorded(e: Transfer): Memory {
      this.(inflight := inflight + [e], looseBulks := looseBulks - BulkOf(e), looseHandles := looseHandles - {e.handle},
            held := held - OwnedBy(e))
    }

    ghost function HeldFreed(p: Address): Memory { this.(live := live - {p}, held := held - {p}) }

    ghost function Deferred(p: Address): Memory { this.(deferred := deferred + [p], held := held - {p}) }

    ghost function Named(x: Extent): Memory { this.(regions := regions + [Region(x, None)]) }

    /** Region i forgotten, the last one in its place. */
    ghost function Dropped(i: nat): Memory
      requires i < |regions|
    {
      var freed := BulkNamed(regions[i]);
      this.(regions := MovedUp(regions, i), bulks := bulks - freed, freedBulks := freedBulks + freed)
    }

    ghost function Released(): Memory {
      this.(regions := [], bulks := bulks - Shared(regions), freedBulks := freedBulks + Shared(regions),
            live := live - Elements(deferred), deferred := [])
    }
  }

  // ----- Each change keeps the state consistent -----

  lemma SharedAt(regions: seq<Region>, i: nat, r: Region)
    requires i < |regions| && regions[i].bulk == None && r.bulk.Some? && SeparateRegions(regions)
    requires r.bulk.value !in Shared(regions)
    ensures Shared(regions[i := r]) == Shared(regions) + {r.bulk.value} && SeparateRegions(regions[i := r])
  {
    var after := regions[i := r];
    assert after[i] == r;
    forall x | x in regions && x.bulk.Some? ensures x in after {
      var j :| 0 <= j < |regions| && regions[j] == x;
      assert after[j] == x;
    }
    forall j | 0 <= j < |regions| && j != i ensures regions[j].bulk != r.bulk {
      assert regions[j] in regions;
    }
  }

  lemma NewBulk(m: Memory, x: Extent)
    requires m.Once()
    ensures m.nextBulk !in m.bulks && m.OwnRegistered(x).Once()
  {
    SpentOneMore(m.bulks.Keys, m.freedBulks, m.nextBulk);
    assert m.bulks[m.nextBulk := x].Keys == m.bulks.Keys + {m.nextBulk};
  }

  lemma RegisteredIsBacked(m: Memory, i: nat)
    requires m.Ledger() && m.Once() && m.Backed() && i < |m.regions| && m.regions[i].bulk == None
    ensures m.Registered(i).Backed()
  {
    assert m.regions[i] in m.regions;
    NewBulk(m, m.regions[i].extent);
    hide Owned, Private, Shared, Handles, Separate, SeparateRegions, Blocks, InSome, InBlock, Spent;
  }

  lemma RegisteredIsConsistent(m: Memory, i: nat)
    requires m.Consistent() && i < |m.regions| && m.regions[i].bulk == None
    ensures m.Registered(i).Consistent()
  {
    var x := m.regions[i].extent;
    NewBulk(m, x);
    SharedAt(m.regions, i, Region(x, Some(m.nextBulk)));
    RegisteredIsBacked(m, i);
    hide Owned, Private, Shared, Handles, Separate, SeparateRegions, Memory.Backed, Spent;
  }

  lemma OwnRegisteredIsBacked(m: Memory, x: Extent)
    requires m.Ledger() && m.Once() && m.Backed() && InSome(m.live, m.Lendable(), x)
    ensures m.OwnRegistered(x).Backed()
  {
    NewBulk(m, x);
    hide Owned, Private, Shared, Handles, Separate, SeparateRegions, Blocks, InSome, InBlock, Spent;
  }

  lemma OwnRegisteredIsConsistent(m: Memory, x: Extent)
    requires m.Consistent() && InSome(m.live, m.Lendable(), x)
    ensures m.OwnRegistered(x).Consistent()
  {
    NewBulk(m, x);
    OwnRegisteredIsBacked(m, x);
    hide Owned, Private, Shared, Handles, Separate, SeparateRegions, Memory.Backed, Spent;
  }

  lemma OwnFreedIsConsistent(m: Memory, b: nat)
    requires m.Consistent() && b in m.looseBulks
    ensures m.OwnFreed(b).Consistent()
  {
    SpentBack(m.bulks.Keys, m.freedBulks, m.nextBulk, {b});
    assert (m.bulks - {b}).Keys == m.bulks.Keys - {b};
    StillSafe(m.bulks, {b}, m.pulls, {}, m.inflight, m.regions);
    StillLive(m.live, {}, m.Lendable(), m.bulks, {b}, m.regions, m.inflight);
    assert m.live - {} == m.live && m.pulls - {} == m.pulls;
    hide Owned, Private, Shared, Handles, Separate, SeparateRegions, Blocks, InSome, InBlock, Spent, PullsSafe,
      PrivateLive, RegionsLive;
  }

  lemma HandlesAreConsistent(m: Memory, h: nat)
    requires m.Consistent()
    ensures m.Created().Consistent()
    ensures h in m.looseHandles && h !in m.pulls ==> m.Destroyed(h).Consistent()
  {
    SpentOneMore(m.handles, m.freedHandles, m.nextHandle);
    if h in m.looseHandles { SpentBack(m.handles, m.freedHandles, m.nextHandle, {h}); }
    hide Owned, Private, Shared, Handles, Separate, SeparateRegions, Memory.Backed, Spent, PullsSafe;
  }

  /** What must hold of a request to be recorded, and of what it reads. */
  ghost predicate Recordable(m: Memory, e: Transfer) {
    && e.handle in m.looseHandles && BulkOf(e) <= m.looseBulks && OwnedBy(e) <= m.held
    && (e.borrowed ==> e.owned == None)
    && (e.bulk.Some? && !e.borrowed ==>
          e.owned.Some? && e.bulk.value in m.bulks && InBlock(m.live, e.owned.value, m.bulks[e.bulk.value]))
    && (e.handle in m.pulls ==> PullSafe(m.bulks, m.pulls[e.handle], e.bulk, e.borrowed, m.regions))
    && (e.owned.Some? ==> forall r | r in m.regions :: !InBlock(m.live, e.owned.value, r.extent))
    && (e.owned.Some? ==> forall b | b in m.bulks && b !in BulkOf(e) :: !InBlock(m.live, e.owned.value, m.bulks[b]))
  }

  lemma InOther(live: Heap, blocks: set<Address>, p: Address, x: Extent)
    requires InSome(live, blocks, x) && !InBlock(live, p, x)
    ensures InSome(live, blocks - {p}, x)
  {
  }

  lemma RecordedBlocks(m: Memory, e: Transfer)
    requires Blocks(m.live, m.held, m.inflight, m.deferred) && OwnedBy(e) <= m.held
    ensures Blocks(m.live, m.held - OwnedBy(e), m.inflight + [e], m.deferred)
  {
  }

  /** What lay in a block that can still be lent, other than the one now owned. */
  lemma RecordedKeeps(m: Memory, e: Transfer, x: Extent)
    requires Blocks(m.live, m.held, m.inflight, m.deferred) && OwnedBy(e) <= m.held
    requires InSome(m.live, m.Lendable(), x) && (e.owned.Some? ==> !InBlock(m.live, e.owned.value, x))
    ensures InSome(m.live, m.held - OwnedBy(e) + Elements(m.deferred), x)
  {
  }

  lemma RecordedRegions(m: Memory, e: Transfer)
    requires m.Ledger() && m.Backed() && Recordable(m, e)
    ensures var d := m.Recorded(e); RegionsLive(d.live, d.Lendable(), d.bulks, d.regions)
  {
    hide Owned, Private, Shared, Handles, Separate, SeparateRegions, InBlock, PullSafe, InSome, Blocks, PrivateLive;
    forall r | r in m.regions ensures InSome(m.live, m.Recorded(e).Lendable(), r.extent) {
      RecordedKeeps(m, e, r.extent);
    }
  }

  lemma RecordedPrivate(m: Memory, e: Transfer)
    requires m.Ledger() && m.Backed() && Recordable(m, e)
    ensures var d := m.Recorded(e); PrivateLive(d.live, d.Lendable(), d.bulks, d.inflight)
    ensures var d := m.Recorded(e); forall b | b in d.looseBulks && b in d.bulks :: InSome(d.live, d.Lendable(), d.bulks[b])
  {
    var d := m.Recorded(e);
    assert forall x | x in m.inflight && x.bulk.Some? :: x.bulk.value in Private(m.inflight);
    hide Owned, Private, Shared, Handles, Separate, SeparateRegions, InBlock, PullSafe, InSome, Blocks, RegionsLive;
    forall b | b in m.bulks && b !in BulkOf(e) && InSome(m.live, m.Lendable(), m.bulks[b])
      ensures InSome(d.live, d.Lendable(), m.bulks[b])
    {
      RecordedKeeps(m, e, m.bulks[b]);
    }
    if e.bulk.Some? && e.borrowed {
      RecordedKeeps(m, e, m.bulks[e.bulk.value]);
    }
  }

  lemma RecordedIsBacked(m: Memory, e: Transfer)
    requires m.Ledger() && m.Backed() && Recordable(m, e)
    ensures m.Recorded(e).Backed()
  {
    RecordedBlocks(m, e);
    RecordedRegions(m, e);
    RecordedPrivate(m, e);
    hide Blocks, RegionsLive, PrivateLive, Recordable, Memory.Ledger;
  }

  lemma RecordedPulls(m: Memory, e: Transfer)
    requires m.Ledger() && PullsSafe(m.bulks, m.pulls, m.inflight, m.regions) && Recordable(m, e)
    ensures var d := m.Recorded(e); PullsSafe(d.bulks, d.pulls, d.inflight, d.regions)
  {
  }

  lemma RecordedLedger(m: Memory, e: Transfer)
    requires m.Ledger() && Blocks(m.live, m.held, m.inflight, m.deferred) && Recordable(m, e)
    ensures m.Recorded(e).Ledger()
  {
  }

  lemma RecordedIsConsistent(m: Memory, e: Transfer)
    requires m.Consistent() && Recordable(m, e)
    ensures m.Recorded(e).Consistent()
  {
    RecordedIsBacked(m, e);
    RecordedPulls(m, e);
    RecordedLedger(m, e);
  }

  lemma HeldFreedIsConsistent(m: Memory, p: Address)
    requires m.Consistent() && p in m.held && Unused(m.live, m.bulks, m.regions, p)
    ensures m.HeldFreed(p).Consistent()
  {
    hide Owned, Private, Shared, Handles, Separate, SeparateRegions, InBlock, PullSafe;
    var d := m.HeldFreed(p);
    HeldFreedIsBacked(m, p);
  }

  lemma HeldFreedIsBacked(m: Memory, p: Address)
    requires m.Ledger() && m.Backed() && p in m.held && Unused(m.live, m.bulks, m.regions, p)
    ensures m.HeldFreed(p).Backed()
  {
    var d := m.HeldFreed(p);
    hide Owned, Private, Shared, Handles, Separate, SeparateRegions, InBlock;
    forall x | InSome(m.live, m.Lendable(), x) && !InBlock(m.live, p, x)
      ensures InSome(d.live, d.Lendable(), x)
    {
      InOther(m.live, m.Lendable(), p, x);
      assert m.Lendable() - {p} == d.Lendable();
      StillInSome(m.live, {p}, d.Lendable(), x);
    }
    StillOwned(m, p);
    hide InSome;
  }

  lemma StillOwned(m: Memory, p: Address)
    requires m.Backed() && p in m.held
    ensures forall e | e in m.inflight && e.bulk.Some? && !e.borrowed ::
      InBlock(m.live - {p}, e.owned.value, m.bulks[e.bulk.value])
  {
  }

  lemma DeferredIsConsistent(m: Memory, p: Address)
    requires m.Consistent() && p in m.held
    ensures m.Deferred(p).Consistent()
  {
  }

  lemma NamedIsConsistent(m: Memory, x: Extent)
    requires m.Consistent() && InSome(m.live, m.Lendable(), x)
    ensures m.Named(x).Consistent()
  {
  }

  lemma DroppedParts(regions: seq<Region>, i: nat)
    requires i < |regions| && SeparateRegions(regions)
    ensures var rest := MovedUp(regions, i);
      && SeparateRegions(rest)
      && (forall r | r in rest :: r in regions)
      && (forall r | r in regions :: r in rest || r == regions[i])
      && Shared(rest) == Shared(regions) - BulkNamed(regions[i])
  {
    var rest := MovedUp(regions, i);
    forall r | r in regions ensures r in rest || r == regions[i] {
      var j :| 0 <= j < |regions| && regions[j] == r;
      if j == |regions| - 1 && i < j { assert rest[i] == r; } else if j != i { assert rest[j] == r; }
    }
    forall r | r in rest && r.bulk.Some? ensures r.bulk != regions[i].bulk {
      var j :| 0 <= j < |rest| && rest[j] == r;
    }
  }

  lemma DroppedIsBacked(m: Memory, i: nat)
    requires m.Ledger() && m.Backed() && i < |m.regions|
    ensures m.Dropped(i).Backed()
  {
  }

  lemma DroppedLedger(m: Memory, i: nat)
    requires m.Ledger() && m.Once() && i < |m.regions|
    ensures m.Dropped(i).Ledger() && m.Dropped(i).Once()
  {
    var d, freed := m.Dropped(i), BulkNamed(m.regions[i]);
    DroppedParts(m.regions, i);
    assert m.regions[i] in m.regions;
    assert forall b | b in freed :: b in Shared(m.regions);
    SpentBack(m.bulks.Keys, m.freedBulks, m.nextBulk, freed);
    hide Owned, Private, Shared, Handles, Separate, SeparateRegions, Spent;
    assert d.bulks.Keys == m.bulks.Keys - freed;
  }

  /** With nothing borrowed, a region can go, and nothing reads through it. */
  lemma DroppedIsConsistent(m: Memory, i: nat)
    requires m.Consistent() && i < |m.regions| && m.looseHandles == {} && Borrowed(m.inflight) == 0
    ensures m.Dropped(i).Consistent()
    ensures forall b | b in BulkNamed(m.regions[i]) :: b in m.bulks && Unread(m.pulls, b)
    ensures |m.Dropped(i).regions| == |m.regions| - 1 && forall r | r in m.Dropped(i).regions :: r in m.regions
  {
    var d, freed := m.Dropped(i), BulkNamed(m.regions[i]);
    DroppedIsBacked(m, i);
    DroppedLedger(m, i);
    OnlyOwnPulls(m);
    OwnSafe(m, d.regions);
    assert m.regions[i] in m.regions;
    assert forall b | b in freed :: b in Shared(m.regions);
    assert m.pulls - {} == m.pulls;
    assert freed !! Shared(d.regions) && forall r | r in d.regions :: r in m.regions by { DroppedParts(m.regions, i); }
    hide Owned, Private, Shared, Handles, Separate, SeparateRegions, Memory.Backed, Memory.Once, PullsSafe;
    StillSafe(m.bulks, freed, m.pulls, {}, m.inflight, d.regions);
  }

  /** With nothing borrowed, the regions do not matter to what is read. */
  lemma OwnSafe(m: Memory, regions: seq<Region>)
    requires m.Consistent() && Borrowed(m.inflight) == 0
    ensures PullsSafe(m.bulks, m.pulls, m.inflight, regions)
  {
    NoneBorrowed(m.inflight);
  }

  /** With nothing borrowed, requests read only through their own registrations. */
  lemma OnlyOwnPulls(m: Memory)
    requires m.Consistent() && m.looseHandles == {} && Borrowed(m.inflight) == 0
    ensures forall h | h in m.pulls :: m.pulls[h].use in Private(m.inflight)
  {
    NoneBorrowed(m.inflight);
    forall h | h in m.pulls ensures m.pulls[h].use in Private(m.inflight) {
      var e :| e in m.inflight && e.handle == h;
      assert PullSafe(m.bulks, m.pulls[e.handle], e.bulk, e.borrowed, m.regions);
    }
  }

  /** With nothing borrowed, a block no region names is nowhere in use. */
  lemma NoRegionNoUse(m: Memory, p: Address)
    requires m.Consistent() && m.looseBulks == {} && Borrowed(m.inflight) == 0 && p in m.Lendable()
    requires forall r | r in m.regions :: !InBlock(m.live, p, r.extent)
    ensures Unused(m.live, m.bulks, m.regions, p)
  {
    NoneBorrowed(m.inflight);
    forall b | b in m.bulks ensures !InBlock(m.live, p, m.bulks[b]) {
      if b in Private(m.inflight) {
        var e :| e in m.inflight && e.bulk == Some(b);
        if InBlock(m.live, p, m.bulks[b]) { OneBlock(m.live, p, e.owned.value, m.bulks[b]); }
      } else {
        var r :| r in m.regions && r.bulk == Some(b);
      }
    }
  }

  lemma ReleasedIsBacked(m: Memory)
    requires m.Ledger() && m.Backed() && m.looseBulks == {} && Borrowed(m.inflight) == 0
    ensures m.Released().Backed()
  {
    var d := m.Released();
    NoneBorrowed(m.inflight);
    assert Elements([]) == {};
    assert PrivateLive(m.live, m.held, m.bulks, m.inflight);
    StillLive(m.live, Elements(m.deferred), m.held, m.bulks, Shared(m.regions), [], m.inflight);
    assert d.Lendable() == m.held;
    hide Owned, Private, Shared, Handles, Separate, InSome, SeparateRegions, PrivateLive, RegionsLive, InBlock;
  }

  lemma ReleasedLedger(m: Memory)
    requires m.Ledger() && m.Once() && m.looseBulks == {}
    ensures m.Released().Ledger() && m.Released().Once()
  {
    var d := m.Released();
    assert Shared([]) == {};
    SpentBack(m.bulks.Keys, m.freedBulks, m.nextBulk, Shared(m.regions));
    hide Owned, Private, Shared, Handles, Separate, Spent;
    assert d.bulks.Keys == m.bulks.Keys - Shared(m.regions);
  }

  /** Once nothing borrows, all regions and all put-off blocks can go. */
  lemma ReleasedIsConsistent(m: Memory)
    requires m.Consistent() && m.looseBulks == {} && Borrowed(m.inflight) == 0
    ensures m.Released().Consistent()
  {
    ReleasedIsBacked(m);
    ReleasedLedger(m);
    OwnSafe(m, []);
    assert Shared([]) == {} && m.pulls - {} == m.pulls;
    hide Owned, Private, Shared, Handles, Separate, Memory.Backed, PullsSafe, Memory.Once;
    StillSafe(m.bulks, Shared(m.regions), m.pulls, {}, m.inflight, []);
  }

  lemma DrainedBlocks(m: Memory)
    requires Separate(m.inflight) && Blocks(m.live, m.held, m.inflight, m.deferred) && m.inflight != []
    ensures var d := m.Drained(); Blocks(d.live, d.held, d.inflight, d.deferred)
  {
  }

  lemma DrainedIsBacked(m: Memory)
    requires m.Ledger() && m.Backed() && m.inflight != []
    ensures m.Drained().Backed()
  {
    var e, d := m.inflight[0], m.Drained();
    HeadParts(m.inflight);
    DrainedBlocks(m);
    assert OwnedBy(e) !! m.Lendable();
    hide Owned, Private, Shared, Handles, Blocks, InSome, InBlock, Separate, SeparateRegions;
    Suffix(m.live, m.Lendable(), m.bulks, map[], m.inflight, m.regions);
    StillLive(m.live, OwnedBy(e), m.Lendable(), m.bulks, BulkOf(e), m.regions, d.inflight);
    forall b | b in m.looseBulks && b in d.bulks ensures InSome(d.live, d.Lendable(), d.bulks[b]) {
      StillInSome(m.live, OwnedBy(e), m.Lendable(), m.bulks[b]);
    }
  }

  lemma DrainedLedger(m: Memory)
    requires m.Ledger() && m.inflight != []
    ensures m.inflight[0].handle in m.handles && BulkOf(m.inflight[0]) <= m.bulks.Keys
    ensures m.Drained().Ledger()
  {
  }

  lemma DrainedPulls(m: Memory)
    requires m.Ledger() && m.inflight != [] && PullsSafe(m.bulks, m.pulls, m.inflight, m.regions)
    ensures var d := m.Drained(); PullsSafe(d.bulks, d.pulls, d.inflight, d.regions)
  {
  }

  /** What the oldest request gives back, nothing else was using. */
  lemma DrainedUnused(m: Memory)
    requires m.Consistent() && m.inflight != [] && m.looseHandles == {}
    ensures var e := m.inflight[0];
      && OwnedBy(e) <= m.live.Keys
      && (forall b | b in BulkOf(e) :: Unread(m.pulls - {e.handle}, b))
      && (forall p | p in OwnedBy(e) :: Unused(m.live, m.bulks - BulkOf(e), m.regions, p))
  {
    hide Owned, Private, Shared, Separate, SeparateRegions, RegionsLive, PrivateLive, Blocks, PullsSafe, InSome, InBlock;
    OnlyPull(m.bulks, m.pulls, m.inflight, m.regions);
    if m.inflight[0].owned.Some? {
      OnlyUse(m.live, m.held, m.bulks, m.inflight, m.deferred, m.regions, m.looseBulks);
    }
  }

  /** Completing the oldest request keeps everything in order. */
  lemma DrainedIsConsistent(m: Memory)
    requires m.Consistent() && m.inflight != []
    ensures m.Drained().Consistent()
  {
    DrainedIsBacked(m);
    DrainedLedger(m);
    DrainedPulls(m);
    GivenBackOnce(m);
  }

  lemma GivenBackOnce(m: Memory)
    requires m.Once() && m.inflight != [] && m.inflight[0].handle in m.handles && BulkOf(m.inflight[0]) <= m.bulks.Keys
    ensures m.Drained().Once()
  {
    SpentBack(m.bulks.Keys, m.freedBulks, m.nextBulk, BulkOf(m.inflight[0]));
    SpentBack(m.handles, m.freedHandles, m.nextHandle, {m.inflight[0].handle});
    assert (m.bulks - BulkOf(m.inflight[0])).Keys == m.bulks.Keys - BulkOf(m.inflight[0]);
  }

  /** In a consistent state nothing dangles: what a request in flight reads is
      its payload, at the address it was pushed from, inside allocated memory;
      every region names allocated memory; and a block is a caller's, or put
      off once, or owned by one request, never two of these. */
  lemma NothingDangles(m: Memory)
    requires m.Consistent() && m.looseHandles == {}
    ensures forall h | h in m.pulls && m.pulls[h].payload.len > 0 ::
      var p := m.pulls[h];
      && p.use in m.bulks && m.bulks[p.use].base + p.offset == p.payload.base
      && exists b | b in m.live :: InBlock(m.live, b, p.payload)
    ensures forall r | r in m.regions :: exists b | b in m.live :: InBlock(m.live, b, r.extent)
    ensures forall b | b in m.live :: b in m.held || b in m.deferred || exists e | e in m.inflight :: e.owned == Some(b)
    ensures forall e | e in m.inflight && e.owned.Some? :: e.owned.value !in m.held && e.owned.value !in m.deferred
  {
  }

  // ----- What draining leaves -----

  ghost function DrainAll(m: Memory): Memory
    decreases |m.inflight|
  {
    if m.inflight == [] then m else DrainAll(m.Drained())
  }

  ghost function DrainBorrows(m: Memory): Memory
    decreases |m.inflight|
  {
    if Borrowed(m.inflight) == 0 then m else DrainBorrows(m.Drained())
  }

  /** What is completed is no more than it takes: the requests up to the last that
      pulls from borrowed memory. */
  lemma {:induction false} DrainBorrowsIs(m: Memory) returns (k: nat)
    ensures k <= |m.inflight| && DrainBorrows(m).inflight == m.inflight[k..]
    ensures forall i | k <= i < |m.inflight| :: !m.inflight[i].borrowed
    ensures k > 0 ==> m.inflight[k - 1].borrowed
    ensures DrainBorrows(m).regions == m.regions && DrainBorrows(m).deferred == m.deferred
    ensures DrainBorrows(m).held == m.held
    decreases |m.inflight|
  {
    if Borrowed(m.inflight) == 0 {
      NoneBorrowed(m.inflight);
      k := 0;
      assert m.inflight[0..] == m.inflight;
    } else {
      var d := m.Drained();
      k := DrainBorrowsIs(d);
      k := k + 1;
      assert d.inflight == m.inflight[1..];
      if k == 1 { NoBorrows(m.inflight[1..]); }
    }
  }

  lemma {:induction false} NoBorrows(inflight: seq<Transfer>)
    requires forall i | 0 <= i < |inflight| :: !inflight[i].borrowed
    ensures Borrowed(inflight) == 0
  {
    if inflight != [] { NoBorrows(inflight[1..]); }
  }

  /** Making room completes the oldest request of a full list, which may fail. */
  function FailedAfter(failed: seq<Member>, inflight: seq<Transfer>, lost: nat -> bool): seq<Member> {
    if |inflight| == MAX_INFLIGHT && lost(inflight[0].handle) then WithFailed(failed, inflight[0].member) else failed
  }

  function WithFailed(failed: seq<Member>, m: Member): seq<Member> { if m in failed then failed else failed + [m] }

  /** The region a push is a slice of: the first added that covers it. */
  function FirstCovering(regions: seq<Region>, x: Extent): Option<nat> {
    if regions == [] then None
    else
      match FirstCovering(regions[..|regions| - 1], x)
      case Some(i) => Some(i)
      case None => if x.In(regions[|regions| - 1].extent) then Some(|regions| - 1) else None
  }

  lemma {:induction false} FirstCoveringIs(regions: seq<Region>, x: Extent)
    ensures match FirstCovering(regions, x)
      case Some(i) => i < |regions| && x.In(regions[i].extent) && forall j | 0 <= j < i :: !x.In(regions[j].extent)
      case None => forall j | 0 <= j < |regions| :: !x.In(regions[j].extent)
  {
    if regions != [] {
      FirstCoveringIs(regions[..|regions| - 1], x);
    }
  }

  ghost function Only(b: Option<nat>): set<nat> { if b.Some? then {b.value} else {} }

  ghost predicate SameExtents(a: seq<Region>, b: seq<Region>) {
    |a| == |b| && forall i | 0 <= i < |a| :: a[i].extent == b[i].extent
  }

  /** A registration in no request's hands yet is read by none. */
  lemma LooseUnread(m: Memory, b: nat)
    requires m.Consistent() && m.looseHandles == {} && b in m.looseBulks
    ensures Unread(m.pulls, b)
  {
  }

  class Sources {
    var inflight: seq<Transfer>
    var capInflight: nat
    var nBorrowed: nat
    var failed: seq<Member>
    var regions: seq<Region>
    var deferred: seq<Address>
    var capDeferred: nat
    var bytesPushed: nat
    var nextBulk: nat
    var nextHandle: nat
    ghost var live: Heap
    ghost var bulks: Bulks
    ghost var pulls: Pulls
    ghost var handles: set<nat>
    ghost var held: set<Address>
    ghost var looseBulks: set<nat>
    ghost var looseHandles: set<nat>
    ghost var freedBulks: set<nat>
    ghost var freedHandles: set<nat>

    ghost function State(): Memory
      reads this
    {
      Memory(inflight, regions, deferred, live, bulks, pulls, handles, held, looseBulks, looseHandles, freedBulks,
             freedHandles, nextBulk, nextHandle)
    }

    /** The borrowed count is exact, and the list is bounded. */
    ghost predicate Accounted()
      reads this
    {
      nBorrowed == Borrowed(inflight) && |inflight| <= MAX_INFLIGHT && |inflight| <= capInflight
      && |deferred| <= capDeferred
    }

    ghost predicate Valid()
      reads this
    {
      Accounted() && State().Consistent() && looseBulks == {} && looseHandles == {}
    }

    constructor ()
      ensures Valid() && inflight == [] && regions == [] && deferred == [] && held == {}
    {
      inflight, capInflight, nBorrowed, failed, regions, deferred, capDeferred := [], 0, 0, [], [], [], 0;
      bytesPushed, nextBulk, nextHandle, live, bulks, pulls := 0, 0, 0, map[], map[], map[];
      handles, held, looseBulks, looseHandles, freedBulks, freedHandles := {}, {}, {}, {}, {}, {};
    }

    // ----- The calls that take and give resources -----

    /** A block comes to the caller: memory it lends, a converted copy, a
        filtered payload. */
    ghost method Allocate(p: Address, len: nat)
      requires Valid() && len > 0 && forall a | a in live :: a + live[a] <= p || p + len <= a
      modifies this`live, this`held
      ensures Valid() && live == old(live)[p := len] && held == old(held) + {p}
      ensures Unused(live, bulks, regions, p)
    {
      AllocatedIsConsistent(State(), p, len);
      live, held := live[p := len], held + {p};
    }

    method Free(p: Address)
      requires p in live && Unused(live, bulks, regions, p)
      modifies this`live
      ensures live == old(live) - {p}
    {
      live := live - {p};
    }

    method BulkCreate(x: Extent, ok: bool) returns (bulk: Option<nat>)
      modifies this`bulks, this`nextBulk
      ensures if ok then bulk == Some(old(nextBulk)) && bulks == old(bulks)[old(nextBulk) := x]
                         && nextBulk == old(nextBulk) + 1
              else bulk == None && bulks == old(bulks) && nextBulk == old(nextBulk)
    {
      if !ok {
        return None;
      }
      bulk, bulks, nextBulk := Some(nextBulk), bulks[nextBulk := x], nextBulk + 1;
    }

    method BulkFree(b: nat)
      requires b in bulks && Unread(pulls, b)
      modifies this`bulks, this`freedBulks
      ensures bulks == old(bulks) - {b} && freedBulks == old(freedBulks) + {b}
    {
      bulks, freedBulks := bulks - {b}, freedBulks + {b};
    }

    method Destroy(h: nat)
      requires h in handles && h !in pulls
      modifies this`handles, this`freedHandles
      ensures handles == old(handles) - {h} && freedHandles == old(freedHandles) + {h}
    {
      handles, freedHandles := handles - {h}, freedHandles + {h};
    }

    /** The request is over, or given up: nothing reads for it any more. */
    method Wait(h: nat)
      modifies this`pulls
      ensures pulls == old(pulls) - {h}
    {
      pulls := pulls - {h};
    }

    // ----- Requests in flight -----

    /** Wait for a request, note whom it could not reach, and give back all it
        holds. */
    method Complete(e: Transfer, lost: bool)
      requires e.handle in handles && BulkOf(e) <= bulks.Keys && OwnedBy(e) <= live.Keys
      requires forall b | b in BulkOf(e) :: Unread(pulls - {e.handle}, b)
      requires forall p | p in OwnedBy(e) :: Unused(live, bulks - BulkOf(e), regions, p)
      requires e.borrowed ==> nBorrowed > 0
      modifies this`nBorrowed, this`failed, this`live, this`bulks, this`pulls, this`handles, this`freedBulks,
               this`freedHandles
      ensures nBorrowed == old(nBorrowed) - if e.borrowed then 1 else 0
      ensures failed == if lost then WithFailed(old(failed), e.member) else old(failed)
      ensures live == old(live) - OwnedBy(e)
      ensures bulks == old(bulks) - BulkOf(e) && freedBulks == old(freedBulks) + BulkOf(e)
      ensures pulls == old(pulls) - {e.handle}
      ensures handles == old(handles) - {e.handle} && freedHandles == old(freedHandles) + {e.handle}
    {
      hide Unused, Unread;
      if lost {
        failed := WithFailed(failed, e.member);
      }
      Wait(e.handle);
      Destroy(e.handle);
      if e.bulk.Some? {
        BulkFree(e.bulk.value);
      }
      assert bulks == old(bulks) - BulkOf(e);
      if e.borrowed {
        nBorrowed := nBorrowed - 1;
      }
      if e.owned.Some? {
        Free(e.owned.value);
      }
    }

    /** Complete the oldest push, and give back everything it holds. */
    method DrainOne(lost: nat -> bool)
      requires Accounted() && State().Consistent() && looseHandles == {} && inflight != []
      modifies this`inflight, this`nBorrowed, this`failed, this`live, this`bulks, this`pulls, this`handles,
               this`freedBulks, this`freedHandles
      ensures Accounted() && State().Consistent() && State() == old(State()).Drained()
      ensures failed == if lost(old(inflight)[0].handle) then WithFailed(old(failed), old(inflight)[0].member)
                        else old(failed)
    {
      hide Memory.Consistent, Unused, Unread, OwnedBy, BulkOf;
      ghost var m := State();
      MayGiveBack(m);
      Complete(inflight[0], lost(inflight[0].handle));
      inflight := inflight[1..];
      assert State() == m.Drained();
    }

    /** Complete every outstanding push. */
    method DrainPushes(lost: nat -> bool)
      requires Valid()
      modifies this`inflight, this`nBorrowed, this`failed, this`live, this`bulks, this`pulls, this`handles,
               this`freedBulks, this`freedHandles
      ensures Valid() && inflight == [] && State() == DrainAll(old(State()))
    {
      hide Memory.Consistent, Borrowed, Memory.Drained;
      while |inflight| > 0
        invariant Valid() && DrainAll(State()) == DrainAll(old(State()))
        decreases |inflight|
      {
        DrainedShorter(State());
        DrainOne(lost);
      }
    }

    /** Complete the oldest pushes until none pulls from borrowed memory. */
    method DrainBorrowed(lost: nat -> bool)
      requires Valid()
      modifies this`inflight, this`nBorrowed, this`failed, this`live, this`bulks, this`pulls, this`handles,
               this`freedBulks, this`freedHandles
      ensures Valid() && nBorrowed == 0 && State() == DrainBorrows(old(State()))
      ensures forall a | a in live :: a in old(live) && live[a] == old(live)[a]
    {
      hide Memory.Consistent, Memory.Drained;
      while nBorrowed > 0 && |inflight| > 0
        invariant Valid() && DrainBorrows(State()) == DrainBorrows(old(State()))
        invariant forall a | a in live :: a in old(live) && live[a] == old(live)[a]
        decreases |inflight|
      {
        DrainedShorter(State());
        DrainOne(lost);
      }
    }

    // ----- Regions -----

    /** Name memory pushes may pull from, once. */
    method RegionAdd(x: Extent)
      requires Valid() && (x.len > 0 ==> InSome(live, State().Lendable(), x))
      modifies this`regions
      ensures Valid()
      ensures State() == if x.len == 0 || (exists r | r in old(regions) :: r.extent == x) then old(State())
                         else old(State()).Named(x)
      ensures x.len > 0 ==> exists r | r in regions :: r.extent == x
      ensures old(regions) <= regions
    {
      if x.len == 0 {
        return;
      }
      var i := 0;
      while i < |regions|
        invariant i <= |regions| && forall r | r in regions[..i] :: r.extent != x
      {
        if regions[i].extent == x {
          return;
        }
        assert regions[..i + 1] == regions[..i] + [regions[i]];
        i := i + 1;
      }
      assert regions[..i] == regions;
      NamedIsConsistent(State(), x);
      hide Memory.Consistent;
      regions := regions + [Region(x, None)];
      assert regions[i] in regions;
    }

    /** Register region i, if it is not yet. */
    method Register(i: nat, ok: bool) returns (bulk: Option<nat>)
      requires Accounted() && State().Consistent() && i < |regions|
      modifies this`regions, this`bulks, this`nextBulk
      ensures Accounted() && State().Consistent()
      ensures SameExtents(regions, old(regions)) && regions[i].bulk == bulk
      ensures (State(), bulk) == RegisteredUse(old(State()), i, ok)
    {
      bulk := regions[i].bulk;
      if bulk == None {
        RegisteredIsConsistent(State(), i);
        hide Memory.Consistent;
        bulk := BulkCreate(regions[i].extent, ok);
        if bulk.Some? {
          regions := regions[i := Region(regions[i].extent, bulk)];
        } else {
          assert State() == old(State());
        }
      }
    }

    /** A write begins: its pushes share one region, and nobody is given up yet. */
    method StartWrite(data: Extent)
      requires Valid() && (data.len > 0 ==> InSome(live, State().Lendable(), data))
      modifies this`regions, this`failed
      ensures Valid() && failed == []
      ensures State() == if data.len == 0 || (exists r | r in old(regions) :: r.extent == data) then old(State())
                         else old(State()).Named(data)
      ensures data.len > 0 ==> exists r | r in regions :: r.extent == data
    {
      hide Memory.Consistent, Borrowed, InSome;
      RegionAdd(data);
      failed := [];
    }

    /** Find the first region around x and its registration, creating that on first
        use; offset is the distance from the region's base to x. */
    method RegionBulk(x: Extent, ok: bool) returns (use: Option<nat>, offset: nat)
      requires Accounted() && State().Consistent()
      modifies this`regions, this`bulks, this`nextBulk
      ensures Accounted() && State().Consistent()
      ensures (State(), use) == RegionUsed(old(State()), x, ok) && SameExtents(regions, old(regions))
      ensures use.Some? ==> PullSafe(bulks, Pull(use.value, offset, x), None, true, regions)
    {
      hide Memory.Consistent, FirstCovering, PullSafe, RegisteredUse;
      FirstCoveringIs(regions, x);
      use, offset := None, 0;
      var i := 0;
      while i < |regions|
        invariant i <= |regions| && forall j | 0 <= j < i :: !x.In(regions[j].extent)
        invariant State() == old(State()) && use == None
      {
        if x.In(regions[i].extent) {
          use := Register(i, ok);
          if use.Some? {
            offset := x.base - regions[i].extent.base;
            SliceIsSafe(State(), i, x);
          }
          return;
        }
        i := i + 1;
      }
    }

    /** Deregister every region, and forget them. */
    method ForgetRegions()
      requires SeparateRegions(regions) && forall b | b in Shared(regions) :: b in bulks && Unread(pulls, b)
      modifies this`regions, this`bulks, this`freedBulks
      ensures regions == []
      ensures bulks == old(bulks) - Shared(old(regions)) && freedBulks == old(freedBulks) + Shared(old(regions))
    {
      hide Unread;
      for i := 0 to |regions|
        invariant regions == old(regions)
        invariant bulks == old(bulks) - Shared(regions[..i]) && freedBulks == old(freedBulks) + Shared(regions[..i])
      {
        SharedUpto(regions, i);
        Deregister(regions[i]);
      }
      assert regions[..|regions|] == regions;
      regions := [];
    }

    /** Free every put-off block. */
    method FreeDeferred()
      requires SeparateBlocks(deferred)
      requires forall p | p in deferred :: p in live && Unused(live, bulks, regions, p)
      modifies this`deferred, this`live
      ensures deferred == [] && live == old(live) - Elements(old(deferred))
    {
      for i := 0 to |deferred|
        invariant deferred == old(deferred) && live == old(live) - Elements(deferred[..i])
      {
        assert deferred[..i + 1] == deferred[..i] + [deferred[i]];
        Free(deferred[i]);
      }
      assert deferred[..|deferred|] == deferred;
      deferred := [];
    }

    /** Room for one more; false if the list cannot grow. */
    method Reserve(grows: bool) returns (ok: bool)
      requires Accounted()
      modifies this`capInflight
      ensures ok <==> old(|inflight| < capInflight) || grows
      ensures Accounted() && (ok ==> |inflight| < capInflight)
    {
      if |inflight| == capInflight {
        if !grows {
          return false;
        }
        capInflight := if capInflight > 0 then capInflight * 2 else 8;
      }
      ok := true;
    }

    /** Record an issued push, with all it holds; false if the list cannot grow. */
    method InflightAdd(e: Transfer, grows: bool) returns (ok: bool)
      requires Accounted() && State().Consistent() && |inflight| < MAX_INFLIGHT
      requires Recordable(State(), e)
      modifies this`inflight, this`capInflight, this`nBorrowed, this`held, this`looseBulks, this`looseHandles
      ensures Accounted() && State().Consistent()
      ensures ok <==> old(|inflight| < capInflight) || grows
      ensures State() == if ok then old(State()).Recorded(e) else old(State())
    {
      hide Memory.Consistent, Recordable, Borrowed;
      ok := Reserve(grows);
      if !ok {
        return;
      }
      Append(e);
    }

    method Append(e: Transfer)
      requires Accounted() && State().Consistent() && |inflight| < MAX_INFLIGHT && |inflight| < capInflight
      requires Recordable(State(), e)
      modifies this`inflight, this`nBorrowed, this`held, this`looseBulks, this`looseHandles
      ensures Accounted() && State().Consistent() && State() == old(State()).Recorded(e)
    {
      hide Memory.Consistent, OwnedBy, BulkOf, Recordable, Borrowed;
      ghost var m := State();
      RecordedIsConsistent(m, e);
      BorrowedAppend(inflight, e);
      inflight := inflight + [e];
      nBorrowed := if e.borrowed then nBorrowed + 1 else nBorrowed;
      held, looseBulks, looseHandles := held - OwnedBy(e), looseBulks - BulkOf(e), looseHandles - {e.handle};
      assert State() == m.Recorded(e);
    }

    // ----- One push -----

    /** Where a large payload is read from: a slice of a region if it is
        borrowed, else, or failing that, a registration of its own. */
    method SourceOf(payload: Extent, owned: bool, env: Env) returns (use: Option<nat>, offset: nat, own: Option<nat>)
      requires Valid() && (payload.len > 0 ==> InSome(live, State().Lendable(), payload))
      requires !env.dropped && (owned ==> Mine(State(), payload, None))
      modifies this`regions, this`bulks, this`nextBulk, this`looseBulks
      ensures Accounted() && State().Consistent() && Sendable(State(), payload, owned, use, offset, own)
      ensures SameExtents(regions, old(regions))
      ensures (use.Some?, own) == BulkSource(old(State()), payload, owned, env)
    {
      hide Memory.Consistent, InSome, FirstCovering, PullSafe, InBlock, Unused;
      assert bulks - Only(None) == bulks;
      use, offset, own := None, 0, None;
      if payload.len == 0 || payload.len < env.threshold {
        return;
      }
      if !owned {
        use, offset := RegionBulk(payload, env.regionRegisters);
      }
      if use == None {
        own := OwnSource(payload, env.registers);
        use, offset := own, 0;
      }
    }

    method OwnSource(x: Extent, ok: bool) returns (own: Option<nat>)
      requires Accounted() && State().Consistent() && looseBulks == {} && InSome(live, State().Lendable(), x)
      modifies this`bulks, this`nextBulk, this`looseBulks
      ensures Accounted() && State().Consistent() && looseBulks == Only(own) && bulks - Only(own) == old(bulks)
      ensures own == if ok then Some(old(nextBulk)) else None
      ensures ok ==> own.value in bulks && bulks[own.value] == x
      ensures ok ==> PullSafe(bulks, Pull(own.value, 0, x), own, false, regions)
      ensures ok ==> PullSafe(bulks, Pull(own.value, 0, x), own, true, regions)
    {
      hide Memory.Consistent, InSome, PullSafe;
      ghost var m := State();
      OwnSendable(m, x);
      own := BulkCreate(x, ok);
      looseBulks := Only(own);
      assert State() == if ok then m.OwnRegistered(x) else m;
    }

    /** Bound the outstanding requests before adding one. */
    method MakeRoom(payload: Extent, owned: bool, use: Option<nat>, offset: nat, own: Option<nat>, lost: nat -> bool)
      requires Accounted() && State().Consistent() && looseHandles == {}
      requires Sendable(State(), payload, owned, use, offset, own)
      modifies this`inflight, this`nBorrowed, this`failed, this`live, this`bulks, this`pulls, this`handles,
               this`freedBulks, this`freedHandles
      ensures Accounted() && State().Consistent() && Sendable(State(), payload, owned, use, offset, own)
      ensures State() == if |old(inflight)| == MAX_INFLIGHT then old(State()).Drained() else old(State())
      ensures |inflight| < MAX_INFLIGHT && failed == FailedAfter(old(failed), old(inflight), lost)
    {
      if |inflight| >= MAX_INFLIGHT {
        DrainedSendable(State(), payload, owned, use, offset, own);
        hide Memory.Consistent, Sendable, Borrowed;
        DrainOne(lost);
      }
    }

    /** Create, forward and record one request. What is not recorded is over. */
    method Forward(m: Member, payload: Extent, owned: bool, use: Option<nat>, offset: nat, own: Option<nat>, env: Env)
      returns (reached: bool, recorded: bool)
      requires Accounted() && State().Consistent() && looseHandles == {}
      requires Sendable(State(), payload, owned, use, offset, own)
      requires |inflight| < MAX_INFLIGHT
      modifies this`inflight, this`capInflight, this`nBorrowed, this`pulls, this`handles, this`held, this`looseBulks,
               this`looseHandles, this`freedHandles, this`nextHandle
      ensures Accounted() && State().Consistent() && looseHandles == {}
      ensures reached <==> env.creates && env.forwards
      ensures recorded <==> reached && (old(|inflight| < capInflight) || env.grows)
      ensures recorded ==> State() == AfterIssue(old(State()), m, payload, owned, use, offset, own)
      ensures !recorded ==> State() == if env.creates then old(State()).Created().Destroyed(old(nextHandle))
                                       else old(State())
      ensures Sendable(State(), payload, owned, use, offset, own) || recorded
    {
      hide Memory.Consistent, Sendable, Borrowed;
      ghost var was := State();
      if !env.creates {
        return false, false;
      }
      CreatedSendable(was, payload, owned, use, offset, own);
      var h := Create();
      reached := env.forwards;
      recorded := false;
      if reached {
        recorded := Post(h, m, payload, owned, use, offset, own, env.grows);
      }
      if !recorded {
        Abandon(h);
      }
    }

    method Abandon(h: nat)
      requires Accounted() && State().Consistent() && looseHandles == {h} && h !in pulls
      modifies this`handles, this`looseHandles, this`freedHandles
      ensures Accounted() && State().Consistent() && looseHandles == {} && State() == old(State()).Destroyed(h)
    {
      HandlesAreConsistent(State(), h);
      LooseIsLive(State(), h);
      hide Memory.Consistent, Borrowed;
      ghost var was := State();
      Destroy(h);
      looseHandles := looseHandles - {h};
      assert State() == was.Destroyed(h);
    }

    method Create() returns (h: nat)
      requires Accounted() && State().Consistent() && looseHandles == {}
      modifies this`handles, this`looseHandles, this`nextHandle
      ensures Accounted() && State().Consistent() && State() == old(State()).Created()
      ensures looseHandles == {h} && h !in pulls
    {
      hide Memory.Consistent, Borrowed;
      ghost var was := State();
      CreatedIsFresh(was);
      h, nextHandle := nextHandle, nextHandle + 1;
      handles, looseHandles := handles + {h}, looseHandles + {h};
      assert State() == was.Created();
    }

    /** Hand a forwarded request to the list of those in flight, or wait for it
        here if the list cannot grow. */
    method Post(h: nat, m: Member, payload: Extent, owned: bool, use: Option<nat>, offset: nat, own: Option<nat>,
                grows: bool)
      returns (recorded: bool)
      requires Accounted() && State().Consistent() && looseHandles == {h} && h !in pulls && |inflight| < MAX_INFLIGHT
      requires Sendable(State(), payload, owned, use, offset, own)
      modifies this`inflight, this`capInflight, this`nBorrowed, this`pulls, this`held, this`looseBulks, this`looseHandles
      ensures Accounted() && State().Consistent()
      ensures recorded <==> old(|inflight| < capInflight) || grows
      ensures !recorded ==> State() == old(State())
      ensures recorded ==> var e := TransferOf(h, m, payload, owned, use, own);
        State() == old(State()).(pulls := Reading(old(pulls), h, payload, use, offset)).Recorded(e)
    {
      hide Memory.Consistent, Sendable, Recordable, Borrowed, ReadsExactly;
      ghost var was := State();
      ReadyToPost(was, h, m, payload, owned, use, offset, own);
      pulls := Reading(pulls, h, payload, use, offset);
      assert State() == was.(pulls := Reading(was.pulls, h, payload, use, offset));
      recorded := InflightAdd(TransferOf(h, m, payload, owned, use, own), grows);
      if !recorded {
        Wait(h);
        assert pulls == was.pulls;
        assert State() == was;
      }
    }

    /** Give back what a push that is not in flight holds. */
    method Finish(payload: Extent, owned: bool, use: Option<nat>, offset: nat, own: Option<nat>)
      requires Accounted() && State().Consistent() && looseHandles == {}
      requires Sendable(State(), payload, owned, use, offset, own)
      modifies this`live, this`held, this`bulks, this`freedBulks, this`looseBulks
      ensures Valid() && held == old(held) - if owned then {payload.base} else {}
    {
      hide Memory.Consistent, Sendable, Unused, Unread, Borrowed;
      ghost var m := State();
      SendableFinish(m, payload, owned, use, offset, own);
      if own.Some? {
        BulkFree(own.value);
        looseBulks := looseBulks - {own.value};
        assert State() == m.OwnFreed(own.value);
      }
      if owned {
        ghost var d := State();
        Free(payload.base);
        held := held - {payload.base};
        assert State() == d.HeldFreed(payload.base);
      }
    }

    /** One payload to one member. An owned payload is the push's to free, when
        the request completes or at once if none is in flight; a borrowed one
        stays its lender's. True if the member is not worth more of this write. */
    method PushOneItem(m: Member, payload: Extent, owned: bool, env: Env)
      returns (unreachable: bool, ghost byBulk: bool, ghost recorded: bool)
      requires Valid() && (payload.len > 0 ==> InSome(live, State().Lendable(), payload))
      requires owned ==> Mine(State(), payload, None)
      modifies this
      ensures Valid() && deferred == old(deferred) && SameExtents(regions, old(regions))
      ensures held == old(held) - if owned then {payload.base} else {}
      ensures bytesPushed == old(bytesPushed) + if env.dropped then 0 else payload.len
      ensures unreachable <==> !env.dropped && (!env.creates || !env.forwards || m in failed)
      ensures failed == if env.dropped then old(failed) else FailedAfter(old(failed), old(inflight), env.lost)
      ensures byBulk == BulkSource(old(State()), payload, owned, env).0
      ensures env.dropped ==> !recorded && inflight == old(inflight)
      ensures !env.dropped ==> (recorded <==>
        env.creates && env.forwards && (|Kept(old(inflight))| < old(capInflight) || env.grows))
      ensures recorded ==> inflight != [] && inflight == Kept(old(inflight)) + [inflight[|inflight| - 1]]
      ensures !recorded && !env.dropped ==> inflight == Kept(old(inflight))
      ensures recorded ==>
        IsNewest(State(), old(nextHandle), m, payload, owned, byBulk, BulkSource(old(State()), payload, owned, env).1)
    {
      hide Memory.Consistent, Sendable, Mine, Borrowed, IsNewest, InSome;
      byBulk, recorded := false, false;
      if env.dropped {
        NothingSendable(State(), payload, owned);
        Finish(payload, owned, None, 0, None);
        return false, false, false;
      }
      bytesPushed := bytesPushed + payload.len;
      var use, offset, own := SourceOf(payload, owned, env);
      byBulk := use.Some?;
      unreachable, recorded := Issue(m, payload, owned, use, offset, own, env);
    }

    method Issue(m: Member, payload: Extent, owned: bool, use: Option<nat>, offset: nat, own: Option<nat>, env: Env)
      returns (unreachable: bool, ghost recorded: bool)
      requires Accounted() && State().Consistent() && looseHandles == {}
      requires Sendable(State(), payload, owned, use, offset, own)
      modifies this`inflight, this`nBorrowed, this`failed, this`live, this`bulks, this`pulls, this`handles,
               this`freedBulks, this`freedHandles, this`capInflight, this`held, this`looseBulks, this`looseHandles,
               this`nextHandle
      ensures Valid() && held == old(held) - if owned then {payload.base} else {}
      ensures unreachable <==> !env.creates || !env.forwards || m in failed
      ensures failed == FailedAfter(old(failed), old(inflight), env.lost)
      ensures recorded <==> env.creates && env.forwards && (|Kept(old(inflight))| < old(capInflight) || env.grows)
      ensures if recorded then inflight != [] && inflight == Kept(old(inflight)) + [inflight[|inflight| - 1]]
              else inflight == Kept(old(inflight))
      ensures recorded ==> IsNewest(State(), old(nextHandle), m, payload, owned, use.Some?, own)
    {
      hide Memory.Consistent, Sendable, Mine, Borrowed, IsNewest, AfterIssue, TransferOf;
      MakeRoom(payload, owned, use, offset, own, env.lost);
      ghost var was := State();
      var reached, issued := Forward(m, payload, owned, use, offset, own, env);
      recorded := issued;
      if issued {
        AfterIssueParts(was, m, payload, owned, use, offset, own);
      } else {
        Finish(payload, owned, use, offset, own);
      }
      unreachable := !reached || m in failed;
    }

    /** Free p at the next release, and never earlier -- unless that cannot be
        recorded: then complete the pulls, forget its regions, and free it. */
    method DeferFree(p: Address, grows: bool, lost: nat -> bool)
      requires Valid() && p in held
      requires forall r | r in regions && InBlock(live, p, r.extent) :: r.extent.base == p
      modifies this
      ensures Valid()
      ensures State() == if old(|deferred| < capDeferred) || grows then old(State()).Deferred(p)
                         else DroppedFrom(DrainBorrows(old(State())), p, 0).HeldFreed(p)
      ensures p in live ==> deferred == old(deferred) + [p]
      ensures p !in live ==> forall r | r in regions :: !InBlock(old(live), p, r.extent)
    {
      if |deferred| == capDeferred {
        if !grows {
          FreeNow(p, lost);
          return;
        }
        capDeferred := if capDeferred > 0 then capDeferred * 2 else 8;
      }
      PutOff(p);
    }

    method PutOff(p: Address)
      requires Valid() && p in held && |deferred| < capDeferred
      modifies this`deferred, this`held
      ensures Valid() && State() == old(State()).Deferred(p) && p in live
    {
      hide Memory.Consistent;
      ghost var m := State();
      HeldIsLive(m, p);
      DeferredIsConsistent(m, p);
      deferred, held := deferred + [p], held - {p};
      assert State() == m.Deferred(p);
    }

    method FreeNow(p: Address, lost: nat -> bool)
      requires Valid() && p in held
      requires forall r | r in regions && InBlock(live, p, r.extent) :: r.extent.base == p
      modifies this
      ensures Valid() && p !in live && deferred == old(deferred)
      ensures State() == DroppedFrom(DrainBorrows(old(State())), p, 0).HeldFreed(p)
      ensures forall r | r in regions :: !InBlock(old(live), p, r.extent)
    {
      hide Memory.Consistent, Memory.Drained;
      DrainBorrowed(lost);
      HeldIsLive(State(), p);
      DropRegions(p);
      NoRegionNoUse(State(), p);
      FreeHeld(p);
    }

    /** A holder frees a block of its own, nowhere in use; what was not in use
        elsewhere stays so, and can be freed next. */
    method FreeHeld(p: Address)
      requires Valid() && p in held && Unused(live, bulks, regions, p)
      modifies this`live, this`held
      ensures Valid() && State() == old(State()).HeldFreed(p)
      ensures forall q | q in held && Unused(old(live), bulks, regions, q) :: Unused(live, bulks, regions, q)
    {
      hide Memory.Consistent, Borrowed;
      HeldIsLive(State(), p);
      HeldFreedIsConsistent(State(), p);
      Free(p);
      held := held - {p};
    }

    /** Forget the regions that start at p, each time moving the last one up. */
    method DropRegions(p: Address)
      requires Valid() && nBorrowed == 0
      modifies this`regions, this`bulks, this`freedBulks
      ensures Valid() && State() == DroppedFrom(old(State()), p, 0)
      ensures forall r | r in regions :: r in old(regions) && r.extent.base != p
    {
      hide Memory.Consistent, Borrowed;
      var i := 0;
      while i < |regions|
        invariant i <= |regions| && Valid()
        invariant DroppedFrom(State(), p, i) == DroppedFrom(old(State()), p, 0)
        invariant forall j | 0 <= j < i :: regions[j].extent.base != p
        invariant forall r | r in regions :: r in old(regions)
        decreases |regions| - i
      {
        if regions[i].extent.base == p {
          DropRegion(i);
        } else {
          i := i + 1;
        }
      }
    }

    method Deregister(r: Region)
      requires forall b | b in BulkNamed(r) :: b in bulks && Unread(pulls, b)
      modifies this`bulks, this`freedBulks
      ensures bulks == old(bulks) - BulkNamed(r) && freedBulks == old(freedBulks) + BulkNamed(r)
    {
      if r.bulk.Some? {
        BulkFree(r.bulk.value);
      }
    }

    method DropRegion(i: nat)
      requires Valid() && nBorrowed == 0 && i < |regions|
      modifies this`regions, this`bulks, this`freedBulks
      ensures Valid() && State() == old(State()).Dropped(i)
      ensures |regions| < |old(regions)| && forall r | r in regions :: r in old(regions)
    {
      hide Memory.Consistent, Unread, Borrowed, MovedUp, BulkNamed;
      ghost var m := State();
      DroppedIsConsistent(m, i);
      Deregister(regions[i]);
      regions := MovedUp(regions, i);
      assert State() == m.Dropped(i);
    }

    /** Let go of every region and every put-off block. */
    method ReleaseSources(lost: nat -> bool)
      requires Valid()
      modifies this
      ensures Valid() && State() == DrainBorrows(old(State())).Released()
      ensures regions == [] && deferred == [] && nBorrowed == 0 && held == old(held)
      ensures forall p | p in held :: Unused(live, bulks, regions, p)
    {
      DrainBorrowed(lost);
      LetGo();
    }

    method LetGo()
      requires Valid() && nBorrowed == 0
      modifies this`regions, this`bulks, this`freedBulks, this`deferred, this`live
      ensures Valid() && State() == old(State()).Released()
      ensures forall p | p in held :: Unused(live, bulks, regions, p)
    {
      hide Memory.Consistent, Unused, Unread, Borrowed, Shared, Elements, SeparateBlocks, SeparateRegions;
      ghost var m := State();
      MayRelease(m);
      ForgetRegions();
      FreeDeferred();
      assert State() == m.Released();
    }
  }

  // ----- Giving sources back -----

  /** A push ready to be forwarded: what it is to read, exactly, and what it
      holds that no one else uses. */
  ghost predicate Sendable(m: Memory, payload: Extent, owned: bool, use: Option<nat>, offset: nat, own: Option<nat>) {
    && m.looseBulks == Only(own)
    && (own.Some? ==> use == own && own.value in m.bulks && m.bulks[own.value] == payload && payload.len > 0)
    && (use.Some? ==> PullSafe(m.bulks, Pull(use.value, offset, payload), own, !owned, m.regions))
    && (owned ==> Mine(m, payload, own))
  }

  /** The payload's block is the push's alone. */
  ghost predicate Mine(m: Memory, payload: Extent, own: Option<nat>) {
    && payload.base in m.held && Unused(m.live, m.bulks - Only(own), m.regions, payload.base)
    && (payload.len > 0 ==> InBlock(m.live, payload.base, payload))
  }

  lemma DrainedSendable(m: Memory, payload: Extent, owned: bool, use: Option<nat>, offset: nat, own: Option<nat>)
    requires m.Consistent() && m.inflight != [] && m.looseHandles == {} && Sendable(m, payload, owned, use, offset, own)
    ensures Sendable(m.Drained(), payload, owned, use, offset, own)
  {
  }

  lemma NothingSendable(m: Memory, payload: Extent, owned: bool)
    requires m.looseBulks == {} && (owned ==> Mine(m, payload, None))
    ensures Sendable(m, payload, owned, None, 0, None)
  {
  }

  /** The request a push becomes. */
  function TransferOf(h: nat, m: Member, payload: Extent, owned: bool, use: Option<nat>, own: Option<nat>): Transfer {
    Transfer(h, if owned then Some(payload.base) else None, m, own, use.Some? && !owned)
  }

  /** From when it is forwarded, a bulk push is read. */
  ghost function Reading(pulls: Pulls, h: nat, payload: Extent, use: Option<nat>, offset: nat): Pulls {
    if use.Some? then pulls[h := Pull(use.value, offset, payload)] else pulls
  }

  lemma CreatedSendable(m: Memory, payload: Extent, owned: bool, use: Option<nat>, offset: nat, own: Option<nat>)
    requires Sendable(m, payload, owned, use, offset, own)
    ensures Sendable(m.Created(), payload, owned, use, offset, own)
    ensures Sendable(m.Created().Destroyed(m.nextHandle), payload, owned, use, offset, own)
  {
  }

  lemma LooseIsLive(m: Memory, h: nat)
    requires m.Consistent() && h in m.looseHandles
    ensures h in m.handles
  {
  }

  /** The state once a push is in flight. */
  ghost function AfterIssue(m: Memory, who: Member, payload: Extent, owned: bool, use: Option<nat>, offset: nat,
                        own: Option<nat>): Memory
  {
    var h := m.nextHandle;
    m.Created().(pulls := Reading(m.pulls, h, payload, use, offset)).Recorded(TransferOf(h, who, payload, owned, use, own))
  }

  lemma FreshHandle(m: Memory)
    requires m.Consistent()
    ensures m.nextHandle !in m.pulls && m.nextHandle !in m.handles
  {
    SpentOneMore(m.handles, m.freedHandles, m.nextHandle);
  }

  lemma CreatedIsFresh(m: Memory)
    requires m.Consistent() && m.looseHandles == {}
    ensures m.Created().Consistent() && m.Created().looseHandles == {m.nextHandle} && m.nextHandle !in m.pulls
  {
    HandlesAreConsistent(m, 0);
    FreshHandle(m);
    hide Memory.Consistent;
  }

  lemma ReadyToPost(m: Memory, h: nat, who: Member, payload: Extent, owned: bool, use: Option<nat>, offset: nat,
                    own: Option<nat>)
    requires m.Consistent() && h in m.looseHandles && h !in m.pulls && Sendable(m, payload, owned, use, offset, own)
    ensures var d := m.(pulls := Reading(m.pulls, h, payload, use, offset));
      d.Consistent() && Recordable(d, TransferOf(h, who, payload, owned, use, own))
  {
  }

  /** Whether a payload travels by bulk, and the registration made for it alone:
      none if a region serves, or if it is small or nothing can be registered. */
  ghost function BulkSource(m: Memory, payload: Extent, owned: bool, env: Env): (bool, Option<nat>) {
    if env.dropped || payload.len == 0 || payload.len < env.threshold then (false, None)
    else if !owned && RegionUsed(m, payload, env.regionRegisters).1.Some? then (true, None)
    else if env.registers then (true, Some(m.nextBulk))
    else (false, None)
  }

  /** The first region around x is registered, or can be. */
  ghost predicate RegionServes(m: Memory, x: Extent, ok: bool) {
    exists i | 0 <= i < |m.regions| :: ServesAt(m, x, ok, i)
  }

  ghost predicate ServesAt(m: Memory, x: Extent, ok: bool, i: nat)
    requires i < |m.regions|
  {
    x.In(m.regions[i].extent) && (forall j | 0 <= j < i :: !x.In(m.regions[j].extent)) && (m.regions[i].bulk.Some? || ok)
  }

  lemma RegionUsedIff(m: Memory, x: Extent, ok: bool)
    ensures RegionUsed(m, x, ok).1.Some? <==> RegionServes(m, x, ok)
  {
    FirstCoveringIs(m.regions, x);
    var i := FirstCovering(m.regions, x);
    if i.Some? { assert RegionUsed(m, x, ok).1.Some? <==> ServesAt(m, x, ok, i.value); }
  }

  /** A payload travels by bulk exactly if it reaches the threshold and can be
      registered, as a slice of a region if it is borrowed or by itself; and it gets a
      registration of its own exactly if no region serves. */
  lemma BulkSourceIff(m: Memory, payload: Extent, owned: bool, env: Env)
    ensures var (byBulk, own) := BulkSource(m, payload, owned, env);
      var region := !owned && RegionServes(m, payload, env.regionRegisters);
      && (byBulk <==> !env.dropped && payload.len > 0 && payload.len >= env.threshold && (region || env.registers))
      && (own.Some? <==> byBulk && !region)
  {
    RegionUsedIff(m, payload, env.regionRegisters);
    hide RegionUsed, RegionServes;
  }

  /** The requests that stay in flight when room is made for one more. */
  function Kept(inflight: seq<Transfer>): seq<Transfer> {
    if |inflight| == MAX_INFLIGHT then inflight[1..] else inflight
  }

  /** The newest request is this push, and reads exactly its payload if by bulk. */
  ghost predicate IsNewest(m: Memory, since: nat, who: Member, payload: Extent, owned: bool, byBulk: bool,
                       own: Option<nat>)
  {
    && m.inflight != []
    && var e := m.inflight[|m.inflight| - 1];
      && e.handle >= since && e.member == who && e.borrowed == (byBulk && !owned) && e.bulk == own
      && e.owned == (if owned then Some(payload.base) else None)
      && (e.handle in m.pulls <==> byBulk)
      && (byBulk ==> m.pulls[e.handle].payload == payload && ReadsExactly(m.bulks, m.pulls[e.handle]))
  }

  lemma AfterIssueParts(m: Memory, who: Member, payload: Extent, owned: bool, use: Option<nat>, offset: nat,
                    own: Option<nat>)
    requires m.Consistent() && Sendable(m, payload, owned, use, offset, own) && m.looseHandles == {}
    ensures var d := AfterIssue(m, who, payload, owned, use, offset, own);
      && d.looseBulks == {} && d.looseHandles == {}
      && d.inflight == m.inflight + [TransferOf(m.nextHandle, who, payload, owned, use, own)]
      && d.held == m.held - (if owned then {payload.base} else {})
      && IsNewest(d, m.nextHandle, who, payload, owned, use.Some?, own)
  {
    FreshHandle(m);
    hide Memory.Consistent;
  }

  lemma SendableFinish(m: Memory, payload: Extent, owned: bool, use: Option<nat>, offset: nat, own: Option<nat>)
    requires m.Consistent() && m.looseHandles == {} && Sendable(m, payload, owned, use, offset, own)
    ensures m.looseBulks == Only(own)
    ensures own.Some? ==> own.value in m.bulks && Unread(m.pulls, own.value) && m.OwnFreed(own.value).Consistent()
    ensures var d := if own.Some? then m.OwnFreed(own.value) else m;
      owned ==> && payload.base in d.live && Unused(d.live, d.bulks, d.regions, payload.base)
                && d.HeldFreed(payload.base).Consistent()
  {
    hide Unused, PullSafe;
    if own.Some? {
      LooseUnread(m, own.value);
      OwnFreedIsConsistent(m, own.value);
    }
    var d := if own.Some? then m.OwnFreed(own.value) else m;
    hide Memory.Consistent;
    if owned {
      assert d.bulks == m.bulks - Only(own);
      HeldIsLive(d, payload.base);
      HeldFreedIsConsistent(d, payload.base);
    }
  }

  /** A new registration of x is the push's own, and reads x exactly. */
  lemma OwnSendable(m: Memory, x: Extent)
    requires m.Consistent() && m.looseBulks == {} && InSome(m.live, m.Lendable(), x)
    ensures var d, b := m.OwnRegistered(x), m.nextBulk;
      && d.Consistent() && d.looseBulks == {b} && d.bulks - {b} == m.bulks && m.bulks - {} == m.bulks
      && PullSafe(d.bulks, Pull(b, 0, x), Some(b), false, m.regions)
      && PullSafe(d.bulks, Pull(b, 0, x), Some(b), true, m.regions)
  {
    FreshBulk(m);
    OwnRegisteredIsConsistent(m, x);
    hide Memory.Consistent, InSome;
  }

  lemma FreshBulk(m: Memory)
    requires m.Consistent()
    ensures m.nextBulk !in m.bulks
  {
    NewBulk(m, Extent(0, 0));
  }

  lemma HeldIsLive(m: Memory, p: Address)
    requires m.Consistent() && p in m.held
    ensures p in m.live
  {
  }

  lemma SharedUpto(regions: seq<Region>, i: nat)
    requires i < |regions|
    ensures Shared(regions[..i + 1]) == Shared(regions[..i]) + BulkNamed(regions[i])
  {
  }

  /** With nothing borrowed, regions and put-off blocks are safe to let go, and
      then nothing lent is in use. */
  lemma MayRelease(m: Memory)
    requires m.Consistent() && m.looseHandles == {} && m.looseBulks == {} && Borrowed(m.inflight) == 0
    ensures m.Released().Consistent() && m.Released().held == m.held
    ensures SeparateRegions(m.regions) && forall b | b in Shared(m.regions) :: b in m.bulks && Unread(m.pulls, b)
    ensures SeparateBlocks(m.deferred)
    ensures forall p | p in m.deferred :: p in m.live && Unused(m.live, m.bulks - Shared(m.regions), [], p)
    ensures forall p | p in m.held :: Unused(m.Released().live, m.Released().bulks, [], p)
  {
    ReleasedIsConsistent(m);
    OnlyOwnPulls(m);
    assert forall p | p in m.deferred :: p in Elements(m.deferred);
    hide Owned, Private, Shared, SeparateRegions, SeparateBlocks, Memory.Released, PullsSafe, RegionsLive, PrivateLive;
    forall p | p in m.Lendable() ensures Unused(m.live, m.bulks - Shared(m.regions), [], p) {
      NotInUse(m, p);
    }
    ReleasedParts(m);
    hide Memory.Consistent;
  }

  lemma ReleasedParts(m: Memory)
    ensures m.Released().held == m.held && m.Released().bulks == m.bulks - Shared(m.regions)
    ensures forall p: Address, x :: InBlock(m.Released().live, p, x) ==> InBlock(m.live, p, x)
  {
  }

  lemma NotInUse(m: Memory, p: Address)
    requires m.Consistent() && m.looseBulks == {} && Borrowed(m.inflight) == 0 && p in m.Lendable()
    ensures Unused(m.live, m.bulks - Shared(m.regions), [], p)
  {
    NoneBorrowed(m.inflight);
    forall b | b in m.bulks && b !in Shared(m.regions) ensures !InBlock(m.live, p, m.bulks[b]) {
      var e :| e in m.inflight && e.bulk == Some(b);
      if InBlock(m.live, p, m.bulks[b]) { OneBlock(m.live, p, e.owned.value, m.bulks[b]); }
    }
  }

  /** The regions with base p forgotten, from the i-th on. */
  ghost function DroppedFrom(m: Memory, p: Address, i: nat): Memory
    requires i <= |m.regions|
    decreases |m.regions| - i
  {
    if i == |m.regions| then m
    else if m.regions[i].extent.base == p then DroppedFrom(m.Dropped(i), p, i)
    else DroppedFrom(m, p, i + 1)
  }

  /** Of the regions, exactly those that start elsewhere are left. */
  lemma {:induction false} DroppedFromIs(m: Memory, p: Address, i: nat)
    requires i <= |m.regions| && forall j | 0 <= j < i :: m.regions[j].extent.base != p
    ensures forall r :: r in DroppedFrom(m, p, i).regions <==> r in m.regions && r.extent.base != p
    ensures DroppedFrom(m, p, i).inflight == m.inflight && DroppedFrom(m, p, i).deferred == m.deferred
    decreases |m.regions| - i
  {
    if i < |m.regions| {
      if m.regions[i].extent.base == p {
        DroppedRegions(m, i);
        DroppedFromIs(m.Dropped(i), p, i);
      } else {
        DroppedFromIs(m, p, i + 1);
      }
    }
  }

  lemma DroppedRegions(m: Memory, i: nat)
    requires i < |m.regions|
    ensures var after := m.Dropped(i).regions;
      && |after| == |m.regions| - 1 && (forall j | 0 <= j < i :: after[j] == m.regions[j])
      && (forall r | r != m.regions[i] :: r in after <==> r in m.regions)
      && (forall r | r in after :: r in m.regions)
  {
    var n, after := |m.regions| - 1, m.Dropped(i).regions;
    forall r | r in m.regions && r != m.regions[i] ensures r in after {
      var j :| 0 <= j <= n && m.regions[j] == r;
      assert j < n ==> after[j] == r;
      assert j == n ==> after[i] == r;
    }
  }

  /** What using a region for x does, and the registration it finds. */
  ghost function RegionUsed(m: Memory, x: Extent, ok: bool): (Memory, Option<nat>)
  {
    FirstCoveringIs(m.regions, x);
    match FirstCovering(m.regions, x)
    case None => (m, None)
    case Some(i) => RegisteredUse(m, i, ok)
  }

  ghost function RegisteredUse(m: Memory, i: nat, ok: bool): (Memory, Option<nat>)
    requires i < |m.regions|
  {
    if m.regions[i].bulk.Some? then (m, m.regions[i].bulk)
    else if ok then (m.Registered(i), Some(m.nextBulk))
    else (m, None)
  }

  lemma SliceIsSafe(m: Memory, i: nat, x: Extent)
    requires m.Consistent() && i < |m.regions| && m.regions[i].bulk.Some? && x.In(m.regions[i].extent)
    ensures PullSafe(m.bulks, Pull(m.regions[i].bulk.value, x.base - m.regions[i].extent.base, x), None, true, m.regions)
  {
  }

  lemma MayGiveBack(m: Memory)
    requires m.Consistent() && m.inflight != [] && m.looseHandles == {}
    ensures m.Drained().Consistent()
    ensures var e := m.inflight[0];
      && e.handle in m.handles && OwnedBy(e) <= m.live.Keys && BulkOf(e) <= m.bulks.Keys
      && (forall b | b in BulkOf(e) :: Unread(m.pulls - {e.handle}, b))
      && (forall p | p in OwnedBy(e) :: Unused(m.live, m.bulks - BulkOf(e), m.regions, p))
  {
    DrainedIsConsistent(m);
    DrainedUnused(m);
    DrainedLedger(m);
  }

  lemma DrainedShorter(m: Memory)
    requires m.inflight != []
    ensures m.Drained().inflight == m.inflight[1..]
    ensures m.Drained().looseBulks == m.looseBulks && m.Drained().looseHandles == m.looseHandles
    ensures forall a | a in m.Drained().live :: a in m.live && m.Drained().live[a] == m.live[a]
    ensures DrainAll(m) == DrainAll(m.Drained())
    ensures Borrowed(m.inflight) > 0 ==> DrainBorrows(m) == DrainBorrows(m.Drained())
  {
  }

  lemma AllocatedIsBacked(m: Memory, p: Address, len: nat)
    requires m.Backed() && len > 0 && forall a | a in m.live :: a + m.live[a] <= p || p + len <= a
    ensures m.(live := m.live[p := len], held := m.held + {p}).Backed() && p !in m.live
  {
  }

  lemma AllocatedIsConsistent(m: Memory, p: Address, len: nat)
    requires m.Consistent() && len > 0 && forall a | a in m.live :: a + m.live[a] <= p || p + len <= a
    ensures var d := m.(live := m.live[p := len], held := m.held + {p});
      d.Consistent() && Unused(d.live, d.bulks, d.regions, p)
  {
    AllocatedIsBacked(m, p, len);
    InUse(m);
    var d := m.(live := m.live[p := len], held := m.held + {p});
    hide Memory.Backed, Memory.Ledger, PullsSafe;
    forall x, b | b in m.live && InBlock(m.live, b, x) ensures !InBlock(d.live, p, x) {
    }
  }

  /** Everything registered or named lies in some allocated block. */
  lemma InUse(m: Memory)
    requires m.Consistent()
    ensures forall b | b in m.bulks :: exists p | p in m.live :: InBlock(m.live, p, m.bulks[b])
    ensures forall r | r in m.regions :: exists p | p in m.live :: InBlock(m.live, p, r.extent)
  {
  }
}
