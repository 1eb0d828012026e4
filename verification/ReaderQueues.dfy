/** The reader's side: the steps announced to it, the data pushed to it, and
    whether every writer it ever heard from has left. */
module ReaderQueues {
  import opened Delivery

  type Step = nat

  /** What happens at the reader, each a locked section of its own. A departure is
      two: one marks the writer, and if that leaves none the other ends the data. */
  datatype Event =
    | Hear(writer: Member, grows: bool)
    | Announce(step: Step)
    | Receive(item: nat)
    | Depart(member: Member)
    | EndData
    | Stop

  /** The same, as the reader recorded it: a writer heard from may be missed. */
  datatype LogEntry = Noted(writer: Member) | Missed(writer: Member) | Departed(member: Member)

  // ----- What the record says -----

  ghost predicate OnRecord(log: seq<LogEntry>, w: Member) { Noted(w) in log }

  /** w left after it was first recorded. */
  ghost predicate LeftSince(log: seq<LogEntry>, w: Member) {
    exists i, j | 0 <= i < j < |log| :: log[i] == Noted(w) && log[j] == Departed(w)
  }

  ghost predicate AnyMissed(log: seq<LogEntry>) { exists e | e in log :: e.Missed? }

  /** At least one writer is recorded, each has since left, none was missed. */
  ghost predicate AllGone(log: seq<LogEntry>) {
    (exists w :: OnRecord(log, w)) && (forall w | OnRecord(log, w) :: LeftSince(log, w)) && !AnyMissed(log)
  }

  ghost predicate EverAllGone(log: seq<LogEntry>) { exists k | 0 <= k <= |log| :: AllGone(log[..k]) }

  // ----- The record grows -----

  lemma RecordMore(log: seq<LogEntry>, e: LogEntry, w: Member)
    ensures OnRecord(log + [e], w) <==> OnRecord(log, w) || e == Noted(w)
    ensures AnyMissed(log + [e]) <==> AnyMissed(log) || e.Missed?
    ensures LeftSince(log + [e], w) <==> LeftSince(log, w) || (OnRecord(log, w) && e == Departed(w))
  {
    var all := log + [e];
    assert forall x :: x in all <==> x in log || x == e;
    if LeftSince(log, w) {
      var i, j :| 0 <= i < j < |log| && log[i] == Noted(w) && log[j] == Departed(w);
      assert all[i] == Noted(w) && all[j] == Departed(w);
    }
    if OnRecord(log, w) && e == Departed(w) {
      var i :| 0 <= i < |log| && log[i] == Noted(w);
      assert all[i] == Noted(w) && all[|log|] == Departed(w);
    }
    if LeftSince(all, w) {
      var i, j :| 0 <= i < j < |all| && all[i] == Noted(w) && all[j] == Departed(w);
      assert log[i] == Noted(w);
      if j < |log| { assert log[j] == Departed(w); }
    }
  }

  /** Only a departure can complete the end. */
  lemma OnlyDepartureEnds(log: seq<LogEntry>, e: LogEntry)
    requires AllGone(log + [e]) && !AllGone(log)
    ensures e.Departed?
  {
    forall w ensures
      && (OnRecord(log + [e], w) <==> OnRecord(log, w) || e == Noted(w))
      && (LeftSince(log + [e], w) <==> LeftSince(log, w) || (OnRecord(log, w) && e == Departed(w)))
      && (AnyMissed(log + [e]) <==> AnyMissed(log) || e.Missed?)
    {
      RecordMore(log, e, w);
    }
    hide OnRecord, LeftSince, AnyMissed;
    if e.Noted? {
      LeftWasRecorded(log, e.writer);
    }
  }

  lemma LeftWasRecorded(log: seq<LogEntry>, w: Member)
    requires LeftSince(log, w)
    ensures OnRecord(log, w)
  {
  }

  lemma EverMore(log: seq<LogEntry>, e: LogEntry)
    ensures EverAllGone(log + [e]) <==> EverAllGone(log) || AllGone(log + [e])
  {
    hide AllGone;
    var all := log + [e];
    if EverAllGone(log) {
      var k :| 0 <= k <= |log| && AllGone(log[..k]);
      assert all[..k] == log[..k];
    }
    assert all[..|all|] == all;
    if EverAllGone(all) {
      var k :| 0 <= k <= |all| && AllGone(all[..k]);
      if k < |all| { assert all[..k] == log[..k]; }
    }
  }

  // ----- What is promised, and what is not -----

  /** w leaves after the c-th entry. */
  ghost predicate LeavesAfter(log: seq<LogEntry>, c: nat, w: Member) {
    exists j | c < j < |log| :: log[j] == Departed(w)
  }

  /** Every note of a recorded writer is followed by its departure. */
  ghost predicate LeftForGood(log: seq<LogEntry>) {
    && (exists w :: OnRecord(log, w)) && !AnyMissed(log)
    && forall c, w | 0 <= c < |log| && log[c] == Noted(w) :: LeavesAfter(log, c, w)
  }

  /** No writer was heard from after it left, without leaving again. */
  ghost predicate NoneCameBack(log: seq<LogEntry>) {
    forall c, w | 0 <= c < |log| && log[c] == Noted(w) && LeftSince(log[..c], w) :: LeavesAfter(log, c, w)
  }

  /** All writers count as gone exactly when all have left for good, unless one
      was heard from again after leaving: its first departure still stands. */
  lemma GoneForGoodIff(log: seq<LogEntry>)
    ensures LeftForGood(log) <==> AllGone(log) && NoneCameBack(log)
  {
    if LeftForGood(log) {
      forall w | OnRecord(log, w) ensures LeftSince(log, w) {
        var i :| 0 <= i < |log| && log[i] == Noted(w);
        assert LeavesAfter(log, i, w);
      }
    }
    if AllGone(log) && NoneCameBack(log) {
      forall c, w | 0 <= c < |log| && log[c] == Noted(w) ensures LeavesAfter(log, c, w) {
        assert OnRecord(log, w);
        GoneAfter(log, c, w);
      }
    }
  }

  lemma GoneAfter(log: seq<LogEntry>, c: nat, w: Member)
    requires c < |log| && log[c] == Noted(w) && LeftSince(log, w)
    requires LeftSince(log[..c], w) ==> LeavesAfter(log, c, w)
    ensures LeavesAfter(log, c, w)
  {
  }

  /** A writer that left and announces again still counts as gone. */
  lemma ReturnedStillGone(w: Member)
    ensures var log := [Noted(w), Departed(w), Noted(w)]; AllGone(log) && !LeftForGood(log)
  {
    var log := [Noted(w), Departed(w), Noted(w)];
    assert log[0] == Noted(w) && log[1] == Departed(w) && log[2] == Noted(w);
    assert OnRecord(log, w) && LeftSince(log, w);
    assert !LeavesAfter(log, 2, w);
  }

  /** The data queue's mark outlives the condition that set it. */
  lemma MarkOutlivesEnd(a: Member, b: Member)
    requires a != b
    ensures var log := [Noted(a), Departed(a), Noted(b)]; EverAllGone(log) && !AllGone(log)
  {
    var log := [Noted(a), Departed(a), Noted(b)];
    var first := log[..2];
    assert first == [Noted(a), Departed(a)];
    assert first[0] == Noted(a) && first[1] == Departed(a);
    assert OnRecord(first, a) && LeftSince(first, a) && AllGone(first);
    assert log[2] == Noted(b) && OnRecord(log, b) && !LeftSince(log, b);
  }

  // ----- The table the reader keeps -----

  /** Each writer heard from once, marked if it has since left. */
  ghost predicate Tracked(log: seq<LogEntry>, writers: seq<Member>, gone: seq<bool>, untracked: bool) {
    && |writers| == |gone|
    && (forall i, j | 0 <= i < j < |writers| :: writers[i] != writers[j])
    && (forall w :: w in writers <==> OnRecord(log, w))
    && (forall i | 0 <= i < |writers| :: gone[i] <==> LeftSince(log, writers[i]))
    && (untracked <==> AnyMissed(log))
  }

  lemma LogMore(log: seq<LogEntry>, e: LogEntry)
    ensures forall w ::
      && (OnRecord(log + [e], w) <==> OnRecord(log, w) || e == Noted(w))
      && (LeftSince(log + [e], w) <==> LeftSince(log, w) || (OnRecord(log, w) && e == Departed(w)))
    ensures AnyMissed(log + [e]) <==> AnyMissed(log) || e.Missed?
  {
    RecordMore(log, e, 0);
    forall w ensures
      && (OnRecord(log + [e], w) <==> OnRecord(log, w) || e == Noted(w))
      && (LeftSince(log + [e], w) <==> LeftSince(log, w) || (OnRecord(log, w) && e == Departed(w)))
    {
      RecordMore(log, e, w);
    }
  }

  lemma TrackNoted(log: seq<LogEntry>, writers: seq<Member>, gone: seq<bool>, untracked: bool, w: Member)
    requires Tracked(log, writers, gone, untracked)
    ensures w in writers ==> Tracked(log + [Noted(w)], writers, gone, untracked)
    ensures w !in writers ==> Tracked(log + [Noted(w)], writers + [w], gone + [false], untracked)
    ensures Tracked(log + [Missed(w)], writers, gone, true)
  {
    LogMore(log, Noted(w));
    LogMore(log, Missed(w));
    if w !in writers && LeftSince(log, w) { LeftWasRecorded(log, w); }
    hide OnRecord, LeftSince, AnyMissed;
  }

  lemma TrackedLengths(log: seq<LogEntry>, writers: seq<Member>, gone: seq<bool>, untracked: bool)
    requires Tracked(log, writers, gone, untracked)
    ensures |writers| == |gone|
  {
  }

  lemma TrackDeparted(log: seq<LogEntry>, writers: seq<Member>, gone: seq<bool>, after: seq<bool>, untracked: bool,
                      m: Member)
    requires Tracked(log, writers, gone, untracked) && |after| == |gone|
    requires forall i | 0 <= i < |gone| :: after[i] == (gone[i] || writers[i] == m)
    ensures Tracked(log + [Departed(m)], writers, after, untracked)
  {
    LogMore(log, Departed(m));
    assert forall i | 0 <= i < |writers| :: writers[i] in writers;
    hide OnRecord, LeftSince, AnyMissed;
  }

  lemma TrackedGone(log: seq<LogEntry>, writers: seq<Member>, gone: seq<bool>, untracked: bool)
    requires Tracked(log, writers, gone, untracked)
    ensures AllGone(log) <==> |writers| > 0 && !untracked && forall i | 0 <= i < |gone| :: gone[i]
  {
    hide OnRecord, LeftSince, AnyMissed;
    if |writers| > 0 { assert writers[0] in writers && OnRecord(log, writers[0]); }
    forall i | 0 <= i < |gone| ensures OnRecord(log, writers[i]) { assert writers[i] in writers; }
    if forall i | 0 <= i < |gone| :: gone[i] {
      forall w | OnRecord(log, w) ensures LeftSince(log, w) {
        var i :| 0 <= i < |writers| && writers[i] == w;
        assert gone[i];
      }
    }
  }

  /** What happens during each sleep of a wait; after the last comes the timeout. */
  type Wakes = seq<seq<Event>>

  class Reader {
    var eosWriters: seq<Member>
    var eosGone: seq<bool>
    var capWriters: nat
    var eosUntracked: bool
    var pending: seq<Step>
    var dataQueue: seq<nat>
    var dataEos: bool
    var stopped: bool
    /** Some departure has found every writer gone, so it ends the data next, or has. */
    var ending: bool

    ghost var log: seq<LogEntry>
    /** All that ever arrived, and all that was ever taken. */
    ghost var announced: seq<Step>
    ghost var received: seq<nat>
    ghost var stepsTaken: seq<Step>
    ghost var itemsTaken: seq<nat>

    /** Both queues are first in, first out, and lose nothing; the data queue is
        marked ended only after a departure has found every writer gone. */
    ghost predicate Valid()
      reads this
    {
      && Tracked(log, eosWriters, eosGone, eosUntracked) && |eosWriters| <= capWriters
      && announced == stepsTaken + pending
      && received == itemsTaken + dataQueue
      && (ending <==> EverAllGone(log)) && (dataEos ==> ending)
    }

    constructor ()
      ensures Valid() && log == [] && announced == [] && received == []
    {
      eosWriters, eosGone, capWriters, eosUntracked, pending, dataQueue := [], [], 0, false, [], [];
      dataEos, stopped, ending, log := false, false, false, [];
      announced, received, stepsTaken, itemsTaken := [], [], [], [];
    }

    /** Remember a writer; if it cannot be recorded, the stream never ends. */
    method NoteWriter(w: Member, grows: bool)
      requires Valid()
      modifies this`eosWriters, this`eosGone, this`capWriters, this`eosUntracked, this`log
      ensures Valid()
      ensures log == old(log) + [if w in old(eosWriters) || old(|eosWriters| < capWriters) || grows then Noted(w)
                                 else Missed(w)]
    {
      TrackNoted(log, eosWriters, eosGone, eosUntracked, w);
      NoteEndsNothing(log, w);
      hide Tracked, EverAllGone;
      var i := 0;
      while i < |eosWriters|
        invariant i <= |eosWriters| && w !in eosWriters[..i]
      {
        if eosWriters[i] == w {
          log := log + [Noted(w)];
          return;
        }
        assert eosWriters[..i + 1] == eosWriters[..i] + [eosWriters[i]];
        i := i + 1;
      }
      assert eosWriters[..i] == eosWriters;
      if |eosWriters| == capWriters && grows {
        capWriters := if capWriters > 0 then capWriters * 2 else 8;
      }
      if |eosWriters| < capWriters {
        eosWriters, eosGone := eosWriters + [w], eosGone + [false];
        log := log + [Noted(w)];
      } else {
        eosUntracked := true;
        log := log + [Missed(w)];
      }
    }

    /** Every recorded writer has left -- never before one is known, and never
        once one was missed. */
    method AllWritersGone() returns (gone: bool)
      requires Tracked(log, eosWriters, eosGone, eosUntracked)
      ensures gone <==> AllGone(log)
    {
      TrackedGone(log, eosWriters, eosGone, eosUntracked);
      if |eosWriters| == 0 || eosUntracked {
        return false;
      }
      for i := 0 to |eosWriters|
        invariant forall j | 0 <= j < i :: eosGone[j]
      {
        if !eosGone[i] {
          return false;
        }
      }
      return true;
    }

    /** A member left or died: mark it, and see whether that was the last writer. */
    method MemberLeft(m: Member) returns (allGone: bool)
      requires Valid()
      modifies this`eosGone, this`log, this`ending
      ensures Valid() && log == old(log) + [Departed(m)] && (allGone <==> AllGone(log))
    {
      hide Tracked, AllGone, EverAllGone;
      assert |eosGone| == |eosWriters| by { TrackedLengths(log, eosWriters, eosGone, eosUntracked); }
      for i := 0 to |eosWriters|
        invariant |eosGone| == |eosWriters| && log == old(log) && ending == old(ending)
        invariant forall j | 0 <= j < i :: eosGone[j] == (old(eosGone)[j] || eosWriters[j] == m)
        invariant forall j | i <= j < |eosGone| :: eosGone[j] == old(eosGone)[j]
      {
        if eosWriters[i] == m {
          eosGone := eosGone[i := true];
        }
      }
      TrackDeparted(log, eosWriters, old(eosGone), eosGone, eosUntracked, m);
      EverMore(log, Departed(m));
      log := log + [Departed(m)];
      allGone := AllWritersGone();
      ending := ending || allGone;
    }

    /** A departure that found every writer gone marks the data queue. */
    method MarkDataEnded()
      requires Valid()
      modifies this`dataEos
      ensures Valid() && dataEos == (old(dataEos) || EverAllGone(log))
    {
      hide Tracked, EverAllGone;
      if ending {
        dataEos := true;
      }
    }

    method PushPending(step: Step)
      requires Valid()
      modifies this`pending, this`announced
      ensures Valid() && pending == old(pending) + [step] && announced == old(announced) + [step]
    {
      pending, announced := pending + [step], announced + [step];
    }

    method PushData(item: nat)
      requires Valid()
      modifies this`dataQueue, this`received
      ensures Valid() && dataQueue == old(dataQueue) + [item] && received == old(received) + [item]
    {
      dataQueue, received := dataQueue + [item], received + [item];
    }

    ghost function Now(): Past
      reads this
    {
      Past(log, announced, received, dataEos, stopped)
    }

    method Happen(e: Event)
      requires Valid()
      modifies this`eosWriters, this`eosGone, this`capWriters, this`eosUntracked, this`log, this`dataEos, this`stopped,
               this`ending, this`pending, this`announced, this`dataQueue, this`received
      ensures Valid() && Happened(e, old(Now()), Now())
    {
      hide Tracked, EverAllGone;
      match e
      case Hear(w, grows) => NoteWriter(w, grows);
      case Announce(step) => PushPending(step);
      case Receive(item) => PushData(item);
      case Depart(m) => var allGone := MemberLeft(m);
      case EndData => MarkDataEnded();
      case Stop => stopped := true;
    }

    method HappenAll(es: seq<Event>)
      requires Valid()
      modifies this`eosWriters, this`eosGone, this`capWriters, this`eosUntracked, this`log, this`dataEos, this`stopped,
               this`ending, this`pending, this`announced, this`dataQueue, this`received
      ensures Valid() && AllHappened(es, old(Now()), Now())
    {
      hide Tracked, EverAllGone, Happened, AllHappened;
      NothingHappened(es[..0], Now());
      for i := 0 to |es|
        invariant Valid() && AllHappened(es[..i], old(Now()), Now())
      {
        ghost var was := Now();
        Happen(es[i]);
        HappenedNext(es, i, old(Now()), was, Now());
      }
      assert es[..|es|] == es;
    }

    /** Wait for the next announced step. It is the oldest not yet taken; none
        comes back only if none is queued, and then the reader was stopped, or
        every writer is gone or marked done, or the time is up. */
    method WaitStepReady(wakes: Wakes, marked: nat -> bool) returns (step: Option<Step>, ghost naps: nat)
      requires Valid()
      modifies this
      ensures Valid() && naps <= |wakes| && AllHappened(AllEvents(wakes[..naps]), old(Now()), Now())
      ensures step.Some? ==> stepsTaken == old(stepsTaken) + [step.value]
      ensures step == None ==> stepsTaken == old(stepsTaken) && pending == []
      ensures step == None ==> stopped || AllGone(log) || marked(naps) || naps == |wakes|
      ensures itemsTaken == old(itemsTaken)
    {
      hide Tracked, EverAllGone, AllHappened;
      naps := 0;
      var k := 0;
      NothingHappened(AllEvents(wakes[..0]), Now());
      while true
        invariant Valid() && k == naps <= |wakes| && stepsTaken == old(stepsTaken) && itemsTaken == old(itemsTaken)
        invariant AllHappened(AllEvents(wakes[..k]), old(Now()), Now())
        decreases |wakes| - k
      {
        var gone := AllWritersGone();
        if |pending| > 0 || stopped || gone || marked(k) || k == |wakes| {
          break;
        }
        ghost var was := Now();
        HappenAll(wakes[k]);
        HappenedWakes(wakes, k, old(Now()), was, Now());
        k := k + 1;
        naps := k;
      }
      if |pending| > 0 {
        step := Some(pending[0]);
        stepsTaken, pending := stepsTaken + [pending[0]], pending[1..];
      } else {
        step := None;
      }
    }

    /** Wait for the next item pushed. */
    method WaitData(wakes: Wakes) returns (item: Option<nat>, ghost naps: nat)
      requires Valid()
      modifies this
      ensures Valid() && naps <= |wakes| && AllHappened(AllEvents(wakes[..naps]), old(Now()), Now())
      ensures item.Some? ==> itemsTaken == old(itemsTaken) + [item.value]
      ensures item == None ==> itemsTaken == old(itemsTaken) && dataQueue == []
      ensures item == None ==> stopped || (dataEos && EverAllGone(log)) || naps == |wakes|
      ensures stepsTaken == old(stepsTaken)
    {
      hide Tracked, EverAllGone, AllHappened;
      naps := 0;
      var k := 0;
      NothingHappened(AllEvents(wakes[..0]), Now());
      while |dataQueue| == 0 && !stopped && !dataEos && k < |wakes|
        invariant Valid() && k == naps <= |wakes| && stepsTaken == old(stepsTaken) && itemsTaken == old(itemsTaken)
        invariant AllHappened(AllEvents(wakes[..k]), old(Now()), Now())
        decreases |wakes| - k
      {
        ghost var was := Now();
        HappenAll(wakes[k]);
        HappenedWakes(wakes, k, old(Now()), was, Now());
        k := k + 1;
        naps := k;
      }
      if |dataQueue| > 0 {
        item := Some(dataQueue[0]);
        itemsTaken, dataQueue := itemsTaken + [dataQueue[0]], dataQueue[1..];
      } else {
        item := None;
      }
    }

    /** The stream is over: every writer is gone, or marked done, and every step
        announced has been taken. */
    method EndOfStream(marked: bool) returns (over: bool)
      requires Valid()
      ensures over <==> (AllGone(log) || marked) && announced == stepsTaken
    {
      var gone := AllWritersGone();
      over := (gone || marked) && !(|pending| > 0);
    }
  }

  /** Everything that has reached a reader so far. */
  datatype Past = Past(log: seq<LogEntry>, announced: seq<Step>, received: seq<nat>, ended: bool, stopped: bool)

  /** What one event adds: a writer heard from is missed only if the record
      could not grow. */
  ghost predicate Happened(e: Event, was: Past, now: Past) {
    match e
    case Hear(w, grows) =>
      now == was.(log := was.log + [Noted(w)]) || (now == was.(log := was.log + [Missed(w)]) && !grows)
    case Announce(step) => now == was.(announced := was.announced + [step])
    case Receive(item) => now == was.(received := was.received + [item])
    case Depart(m) => now == was.(log := was.log + [Departed(m)])
    case EndData => now == was.(ended := was.ended || EverAllGone(was.log))
    case Stop => now == was.(stopped := true)
  }

  ghost predicate AllHappened(es: seq<Event>, was: Past, now: Past) {
    if es == [] then now == was
    else
      var init, last := es[..|es| - 1], es[|es| - 1];
      exists mid :: AllHappened(init, was, mid) && Happened(last, mid, now)
  }

  function AllEvents(wakes: Wakes): seq<Event> {
    if wakes == [] then [] else AllEvents(wakes[..|wakes| - 1]) + wakes[|wakes| - 1]
  }

  lemma NothingHappened(es: seq<Event>, now: Past)
    ensures es == [] ==> AllHappened(es, now, now)
  {
  }

  lemma HappenedNext(es: seq<Event>, i: nat, was: Past, mid: Past, now: Past)
    requires i < |es| && AllHappened(es[..i], was, mid) && Happened(es[i], mid, now)
    ensures AllHappened(es[..i + 1], was, now)
  {
    assert es[..i + 1][..i] == es[..i];
  }

  lemma {:induction false} HappenedAppend(a: seq<Event>, b: seq<Event>, was: Past, mid: Past, now: Past)
    requires AllHappened(a, was, mid) && AllHappened(b, mid, now)
    ensures AllHappened(a + b, was, now)
    decreases |b|
  {
    hide Happened;
    if b == [] {
      assert a + b == a;
    } else {
      var m :| AllHappened(b[..|b| - 1], mid, m) && Happened(b[|b| - 1], m, now);
      HappenedAppend(a, b[..|b| - 1], was, mid, m);
      assert (a + b)[..|a + b| - 1] == a + b[..|b| - 1];
    }
  }

  lemma HappenedWakes(wakes: Wakes, k: nat, was: Past, mid: Past, now: Past)
    requires k < |wakes| && AllHappened(AllEvents(wakes[..k]), was, mid) && AllHappened(wakes[k], mid, now)
    ensures AllHappened(AllEvents(wakes[..k + 1]), was, now)
  {
    hide AllHappened;
    assert wakes[..k + 1][..k] == wakes[..k];
    HappenedAppend(AllEvents(wakes[..k]), wakes[k], was, mid, now);
  }

  function Announcements(es: seq<Event>): seq<Step> {
    if es == [] then []
    else
      var e := es[|es| - 1];
      Announcements(es[..|es| - 1]) + (if e.Announce? then [e.step] else [])
  }

  function Items(es: seq<Event>): seq<nat> {
    if es == [] then []
    else
      var e := es[|es| - 1];
      Items(es[..|es| - 1]) + (if e.Receive? then [e.item] else [])
  }

  lemma HappenedAdds(e: Event, was: Past, now: Past)
    requires Happened(e, was, now)
    ensures now.announced == was.announced + Announcements([e]) && now.received == was.received + Items([e])
    ensures now.stopped == (was.stopped || e.Stop?)
    ensures now.ended == (was.ended || (e.EndData? && EverAllGone(was.log)))
    ensures EverAllGone(was.log) ==> EverAllGone(now.log)
  {
    assert [e][..0] == [] && Announcements([]) == [] && Items([]) == [];
    if now.log != was.log { EverMore(was.log, now.log[|was.log|]); }
    hide EverAllGone;
  }

  /** Every announcement and item that reaches the reader is queued, in order. */
  lemma {:induction false} EverythingArrives(es: seq<Event>, was: Past, now: Past)
    requires AllHappened(es, was, now)
    ensures now.announced == was.announced + Announcements(es) && now.received == was.received + Items(es)
    ensures now.stopped == (was.stopped || Stop in es)
  {
    if es != [] {
      var init, last := es[..|es| - 1], es[|es| - 1];
      var mid :| AllHappened(init, was, mid) && Happened(last, mid, now);
      HappenedAdds(last, mid, now);
      hide AllHappened, Happened;
      EverythingArrives(init, was, mid);
      assert [last][..0] == [] && Announcements([]) == [] && Items([]) == [];
      assert Stop in es <==> Stop in init || last.Stop? by { assert es == init + [last]; }
    }
  }

  /** Once every writer was gone, the next mark ends the data queue, and nothing
      that happens takes it back; nothing else sets it. */
  lemma {:induction false} EndArrives(es: seq<Event>, was: Past, now: Past)
    requires AllHappened(es, was, now)
    ensures EverAllGone(was.log) ==> EverAllGone(now.log)
    ensures was.ended || (EverAllGone(was.log) && EndData in es) ==> now.ended
    ensures now.ended ==> was.ended || (EverAllGone(now.log) && EndData in es)
  {
    if es != [] {
      var init, last := es[..|es| - 1], es[|es| - 1];
      var mid :| AllHappened(init, was, mid) && Happened(last, mid, now);
      HappenedAdds(last, mid, now);
      hide EverAllGone, AllHappened, Happened;
      EndArrives(init, was, mid);
      assert EndData in es <==> EndData in init || last.EndData? by { assert es == init + [last]; }
    }
  }

  /** So is every departure, and every writer heard from -- as missed only if
      there was no room for it. */
  lemma {:induction false} EverythingIsRecorded(es: seq<Event>, was: Past, now: Past)
    requires AllHappened(es, was, now)
    ensures was.log <= now.log
    ensures Logged(es, now.log[|was.log|..])
  {
    if es != [] {
      var init, last := es[..|es| - 1], es[|es| - 1];
      var mid :| AllHappened(init, was, mid) && Happened(last, mid, now);
      EverythingIsRecorded(init, was, mid);
      var before, after := mid.log[|was.log|..], now.log[|was.log|..];
      assert es == init + [last];
      assert after == before + now.log[|mid.log|..];
      LoggedNext(init, last, before, now.log[|mid.log|..]);
    }
  }

  ghost predicate Logged(es: seq<Event>, added: seq<LogEntry>) {
    && (forall m :: Departed(m) in added <==> Depart(m) in es)
    && (forall w | Hear(w, true) in es :: Noted(w) in added)
    && (forall w | Hear(w, false) in es :: Noted(w) in added || Missed(w) in added)
    && (forall w | Noted(w) in added :: Hear(w, true) in es || Hear(w, false) in es)
    && (forall w | Missed(w) in added :: Hear(w, false) in es)
  }

  lemma LoggedNext(es: seq<Event>, e: Event, before: seq<LogEntry>, more: seq<LogEntry>)
    requires Logged(es, before)
    requires match e
      case Hear(w, grows) => more == [Noted(w)] || (more == [Missed(w)] && !grows)
      case Depart(m) => more == [Departed(m)]
      case _ => more == []
    ensures Logged(es + [e], before + more)
  {
  }

  /** Hearing from a writer, or missing one, never ends the stream. */
  lemma NoteEndsNothing(log: seq<LogEntry>, w: Member)
    ensures EverAllGone(log + [Noted(w)]) <==> EverAllGone(log)
    ensures EverAllGone(log + [Missed(w)]) <==> EverAllGone(log)
  {
    EverMore(log, Noted(w));
    EverMore(log, Missed(w));
    assert log[..|log|] == log;
    if AllGone(log + [Noted(w)]) && !AllGone(log) { OnlyDepartureEnds(log, Noted(w)); }
    if AllGone(log + [Missed(w)]) && !AllGone(log) { OnlyDepartureEnds(log, Missed(w)); }
  }
}
