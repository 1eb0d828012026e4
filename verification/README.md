# vol-stream's push protocol, verified

A Dafny model of how vol-stream moves data from a writer to the arrays its
subscribers get, and proofs of what that promises.

A writer keeps a table of subscriptions. Each write is cut for each subscriber to
the part it asked for, and sent as pushes; when a step ends, it is announced. A
reader cuts its queue of pushes into steps and scatters each step's pushes into an
array. A late joiner is first sent the steps it missed. Large payloads are not
copied: the subscriber pulls them from the writer's memory while the request is out.
A second transport does the same over a log of events.

| file | what it holds |
|---|---|
| `Ranges.dfy` | overlap arithmetic at 64 bits, the extent of a growing subscription |
| `Base64.dfy` | the text codec of the second transport |
| `RowMajor.dfy` | flat indices, strides and contiguity at any rank |
| `Delivery.dfy` | delivery bits, entry states, `Option` |
| `Narrowing.dfy` | one write cut for one subscriber: range, selection, type, predicate, chunks |
| `Fanout.dfy` | the sending loops, while members leave and subscribe under them |
| `WriterTables.dfy` | the writer's subscription, member and acknowledgement tables (class `Writer`) |
| `StepProtocol.dfy` | the step protocol as a transition system, over all interleavings |
| `Carelessness.dfy` | the protocol's guard is exact: without it, some continuation loses a push |
| `TableRefinement.dfy` | the table's requests are the protocol's steps |
| `HeldPush.dfy` | `next_step()` and its one held push (class `File`) |
| `Reassembly.dfy` | `assemble()` at any rank, with growing and tail boxes |
| `ValueTest.dfy` | a predicate's value test, as the writer and the reader each make it |
| `EndToEnd.dfy` | from a write to a cell of the subscriber's array |
| `RunToArray.dfy` | from a run of the step protocol to the arrays its steps return |
| `ReaderQueues.dfy` | the reader's queues and end of stream (class `Reader`) |
| `BulkSources.dfy` | memory that requests in flight pull from (class `Sources`, with a ghost heap) |
| `Diaspora.dfy` | the second transport: selector, splitting, retained pulls, control topic |

`dafny verify dfyconfig.toml` checks everything.

## How the model is set up

- **Atomic steps.** Each mutex-held section is one step. A group notice is its
  sections, one step each, and anything may happen between them, at the writer
  (`Fanout.MembershipUpdate`) and at the reader (`ReaderQueues.Event`). Taken as one
  step although the source locks more than once: the broadcast's "is it
  backfilling?" check, its lookup and its forward; a departure in `StepProtocol`,
  which takes the reader out of the group and its subscriptions with it; and the
  walk of `MinAcked`, which looks members up one by one. `next_step()` drains in one
  step; `HeldPush.LateArrival` shows that a later push arriving during the drain
  makes no difference. A push is queued at the reader before its response is sent.
- **Order of arrival.** Requests in flight together are queued at the reader in any
  order: a large payload has to be pulled first, a small one travels with its request.
  Arrays are assembled from any sequence of the pushes sent.
- **Failed pushes and announcements.** A push whose wait fails is lost and its request
  is over; it is not delivered late. An announcement is forwarded once and may be lost
  too, in the broadcast and in a backfill.
- **Lost requests.** A staged subscription that does not reach the writer is as if not
  made. The release after it may come late, or never (`StepProtocol.EndCall` ends the
  reader's call, `StepProtocol.Release` is its release reaching the writer), and plain
  subscriptions may follow either way.
- **The link of the sending loops.** `Fanout.PushData` takes how each push turns out
  from a parameter (`Fanout.Net`). `Fanout.PostOne` shows that a push of
  `BulkSources.Sources` is one step of that link; the loop does not call it. The
  requests that `vs_tr_defer_free()` completes between two subscribers when it cannot
  grow its list (`src/tr_mercury.c:3213-3218`) are in `BulkSources.Sources.DeferFree`,
  and not in the link.
- **Callbacks.** The writer's selection, conversion, predicate and filter callbacks
  are functions that satisfy the contracts of `src/tr_mercury.h:120-208` and
  `src/tr_mercury.h:333-396` (`Narrowing.Honest`). Any of them may be missing, and
  each may decline any call. A predicate is evaluated on the representation sent,
  that is after conversion. A callback never reports an empty run. The filter
  mask is part of the payload, and a pipeline is taken to be lossless: undoing it gives
  the bytes that went in. The headers promise neither.
- **The outside world.** Whether a member can be reached, whether a registration, a
  forward or a list growth succeeds, which group changes and which subscription
  requests happen between two sends, and which events arrive during a wait, are
  parameters, and every result holds for all of them.
- **Widths.** Element ranges are 64-bit unsigned where the source's arithmetic can
  wrap; the base64 decoder's accumulator is 32 bits and wraps.
- **Bit operations** of the base64 loops are written as division and remainder.

## Where the code does less than one might read

Each of these is proved, with the exact condition under which the promise holds.

- The writer's sentinel arithmetic (`src/tr_mercury.c:3463`, `:3620-3653`) loses
  elements when an end is 2^64 or more: an ordinary write to a subscription whose end
  wraps (`Ranges.SentinelLosesWrappedSubscription`), or a write whose own end does
  (`Ranges.SentinelLosesWrappedWrite`). It equals the true intersection exactly when
  neither end wraps, or the two ranges, cut off at 2^64-1, do not meet anyway
  (`Ranges.SentinelExact`). A growing subscription made by the Python reader never
  makes one wrap (`Ranges.GrowingExtentNeverWraps`).
- A predicate need not be honoured where the writer could not apply it and the reader
  tests again. A selected cell is received exactly as the predicate says if and only if
  it is not tested again or the two tests agree on it (`EndToEnd.OneWriteEndToEnd`).
  They disagree in two ways:
  - the writer declined the type too. It evaluates predicates on the elements as sent,
    but the reader casts what it was sent to the type it asked for and tests that
    (`python/volstream/_file.py:155-178`). With whole numbers asked for, 0.7 is masked
    by "above 0.5" and received by "not above 0.5" (`EndToEnd.DeclinedTypeMistests`);
  - the constant is rounded. The writer compares in double (`src/H5VLstream.c:3660-3770`),
    the reader in the type of the data. The binary32 nearest to 0.1 satisfies the
    writer's "> 0.1" and not the reader's, with no type asked for
    (`EndToEnd.RoundedConstantMistests`). The two tests are the same exactly if the
    type holds integers or the constant is rounded the harmless way for the operator
    (`ValueTest.TestsAlikeIff`, `EndToEnd.SameTestIff`); under every operator, exactly
    if the type has the constant (`ValueTest.AlikeUnderAllIff`).

  So the promise holds unless the cell's push has both the type bit and a predicate bit,
  provided the two ends test values of the type asked for alike (`EndToEnd.SameTest`,
  required by `EndToEnd.ExactUnlessDeclined`); for a value test, provided its constant
  is rounded harmlessly (`EndToEnd.ExactWhenHarmless`).
- A declined conversion is recognised by its size alone
  (`python/volstream/_file.py:155-162`), so the cells it fills are right, whatever the
  two types, exactly if these differ in size (`EndToEnd.DeclinedIsReadRightIff`). With
  32-bit integers asked of a binary32 object, 1.0 arrives unmasked as 1065353216
  (`EndToEnd.SameSizeIsMisread`).
- `assemble()`'s one-push shortcut equals the scatter loop exactly when the box lies
  inside the trailing extents (`Reassembly.FastPathAgrees`). The contiguity test of
  `python/volstream/_file.py:147` can also be true of a box that wraps around a row:
  in a 2 by 2 object, the shortcut fills the place past the end of the first row with
  the second row's first element, and the loop masks it (`Reassembly.WrappingBoxDiffers`).
- What others do can change what a member is sent, if an earlier write left one of the
  member's requests in flight and that one is lost: others' pushes then decide when the
  loss is noticed. A full list of 256 whose second request is such is sent two pushes if
  nobody is served first, and one if another member is sent a push first
  (`Fanout.LostRequestLeaks`). Otherwise it cannot (`Fanout.PushesAreIsolated`), and for
  a delivery it cannot exactly if no such request is there, or at most one push is sent
  in any case (`Fanout.IsolatedIff`).
- Delivery is exact on every run in which callers are careful
  (`StepProtocol.WholeRunDelivery`), and care is exactly what it takes
  (`Carelessness.CareIsExact`): in any state so reached, an action is careful if and
  only if everything that can carefully follow stays exact. Two actions can be
  careless:
  - a plain subscription added while a backfill is owed to the same reader
    (`Carelessness.CarelessSubscribe`): a live push queues ahead of the backfill and
    is held in front of it, so the backfilled step comes back empty. The header only
    forbids an earlier live subscription;
  - a staged subscription made while an announcement of its start step, or of a later
    one, waits at the reader (`Carelessness.CarelessStage`): the header has callers
    discard earlier announcements first, but one can slip in after that.
- A backfill asked from a step not yet committed starts at the next live one
  (`StepProtocol.BackfillExactlyOnce` states the first step as the lesser of the two).
- An element written twice in one step is decided by whichever write's push over it is
  queued last, which need not be the later write's: pushes are completed only before
  the announcement (`src/tr_mercury.c:2417`), and a small one can overtake a large one.
  Of 1 and then 2 written to an element, 1 comes back if the second push is queued first
  (`EndToEnd.StaleFirstWins`). A second write that sends the element stands in every
  order exactly if the first does not send it, or both make the same of it
  (`EndToEnd.StandsAlwaysIff`); in one order, exactly if it is not overtaken or the same
  (`EndToEnd.SecondWriteDecides`). It is not overtaken where no other write reaches the
  element (`EndToEnd.ApartIsNotOvertaken`), or where each write's pushes are queued
  before the next write's (`EndToEnd.DrainedIsNotOvertaken`).
- Nor does a second value stand that fails the predicate and is filtered out by the
  writer: the element keeps its first value. If the writer had to send it anyway, the
  reader's own test decides (`EndToEnd.SecondWriteDecides`).
- A lost announcement loses its step: the step is never returned, and its pushes are
  dropped when a later one is read. Every step that is returned is still exact
  (`StepProtocol.WholeRunDelivery`, `StepProtocol.MissingIsLost`).
- A writer that left and announces again still counts as gone
  (`ReaderQueues.ReturnedStillGone`); "all gone" means "left for good" exactly when
  none did (`ReaderQueues.GoneForGoodIff`). The data queue's end mark outlives the
  condition that set it (`ReaderQueues.MarkOutlivesEnd`).
- The comment at `src/tr_diaspora.cpp:903-904` speaks of a short payload whose
  whole runs are delivered. The guard never fires: the buffer is sized from the runs
  and padded with zeros (`Diaspora.Split`). If the subscription changes between the
  selector and the split, items can carry other elements than their labels say
  (`Diaspora.ChangedSubscriptionMislabels`); they are right for every payload exactly
  if the bytes now expected begin those asked for (`Diaspora.ChangedIsExactIff`).

## Model

| member | source | states |
|---|---|---|
| Ranges.Overlap | src/tr_diaspora.cpp:211-224 | the saturating overlap finds something exactly if the two intervals share an element below 2^64-1, and then it is their true intersection |
| Ranges.SentinelExact | src/tr_mercury.c:3620-3653 | the sentinel arithmetic equals the true intersection if and only if neither end wraps, or the clipped ranges do not meet anyway |
| Ranges.SentinelInside | src/tr_mercury.c:3640-3653 | whatever it finds lies in the write, wrapped or not |
| Ranges.SentinelLosesWrappedSubscription | src/tr_mercury.c:3620-3625 | a ten-element write eight elements of which are subscribed to, and none found, because the subscription's end wraps |
| Ranges.SentinelLosesWrappedWrite | src/tr_mercury.c:3463 | a two-element write that wraps and is sent to nobody |
| Ranges.GrowingExtentBound | python/volstream/_file.py:269-283 | the extent subscribed to stays within 2^62 elements exactly for a shape that already is |
| Ranges.GrowingExtentNeverWraps | python/volstream/_file.py:276-283 | such a subscription never makes the writer's arithmetic wrap |
| Base64.Encode | src/tr_diaspora.cpp:115-133 | the encoder loop builds the text the specification function defines, padding included |
| Base64.Decode | src/tr_diaspora.cpp:135-160 | the decoder loop, with its unmasked 32-bit accumulator, is the fold over the digits |
| Base64.RoundTrip | src/tr_diaspora.cpp:115-160 | decoding an encoded byte string of any length returns it (section 4 of RFC 4648) |
| Base64.SymbolIsInAlphabet | src/tr_diaspora.cpp:113 | a digit's symbol is the character at its place in the standard's alphabet |
| Base64.EncodedIs | src/tr_diaspora.cpp:115-133 | the text has four characters for each three bytes begun: their four digits, highest bits first, and padding for digits that would hold none |
| Base64.DecodeSkips | src/tr_diaspora.cpp:146-157 | decoding skips what is not in the alphabet and ends at the padding |
| RowMajor.CoordsOfFlat | python/volstream/_file.py:213-219 | taking a flat index apart by strides and extents gives back the coordinates it was made from |
| RowMajor.FlatOfCoords | python/volstream/_file.py:213-219 | and the other way round |
| RowMajor.ContiguousIffConsecutive | python/volstream/_file.py:142-147 | for a box inside the extent, the last-minus-first test holds exactly if the box's flat indices are consecutive, at any rank |
| Narrowing.PlanIsSound | src/tr_mercury.c:3581-3913 | what one write sends one subscriber ascends, disjoint, inside the overlap; covers every element asked for; each push carries exactly the elements of its label; and an element not asked for travels only under the delivery bit of the narrowing that fell back |
| Narrowing.PlanIsExactly | src/tr_mercury.c:3653-3905 | a push is in the plan exactly if it is a piece of the callbacks' own answers -- of all there is where the subscription does not narrow or a callback is missing or declines, and only there -- cut as the pipeline's shape asks, through the pipeline exactly if that takes it, and with each delivery bit exactly if the narrowing it names was asked for and not applied |
| Narrowing.OverlapIs | src/tr_mercury.c:3620-3653 | where no end wraps, the overlap is the elements the write has and the subscription's range names |
| Narrowing.ViewIs | src/tr_mercury.c:3696-3733 | the subscriber's view is the conversion's result exactly if a type was asked for and granted, and else the write as it is |
| Narrowing.ExactWithoutBits | src/tr_mercury.h:293-303 | with no delivery bit set, exactly what was asked for is sent |
| Narrowing.ViewRepresents | src/tr_mercury.c:3716-3732 | through re-basing, each element of the subscriber's view is that element of the write, cast if its type was granted |
| Narrowing.SlicesCount | src/tr_mercury.c:3816-3856 | chunk slices partition a run into ceil(run/chunk) pieces of which only the last may be short |
| Narrowing.SlicesSent | src/tr_mercury.c:3816-3856 | the slices of a run send each of its elements, and nothing else, with what they are labelled |
| Narrowing.PredicateSent | src/tr_mercury.c:3803-3899 | the pushes of the predicate's runs send exactly those runs |
| Narrowing.SelectionTiles | src/tr_mercury.c:3736-3905 | the nested loops' pushes ascend without overlapping |
| Fanout.PushSlices | src/tr_mercury.c:3824-3856 | the chunk loop sends its slices in order until the member is found gone |
| Fanout.PushSelectionRun | src/tr_mercury.c:3736-3905 | the run loop sends the predicate's runs in order until then |
| Fanout.PushSubscriber | src/tr_mercury.c:3640-3913 | one subscriber is sent the plan of its own entry, up to the push that found it gone |
| Fanout.DeliverIsPrefix | src/tr_mercury.c:3757-3793 | what is sent is a prefix of the plan ending with the push that found the member gone, and the whole plan if none did |
| Fanout.PostOne | src/tr_mercury.c:3060-3111 | a push gives its member up exactly if it was refused or one of the member's own requests has been completed as lost |
| Fanout.PostRefines | src/tr_mercury.c:3389-3441 | the push's contract leaves the list of requests and the failed members as one step of the link model does |
| Fanout.PushData | src/tr_mercury.c:3557-3701 | with the group and the table changing before each lookup, each snapshot member still present is sent its own plan, and an absent one nothing |
| Fanout.Broadcast | src/tr_mercury.c:2391-2470 | each snapshot member is told exactly if it is present when looked up and no backfill, staged meanwhile or before, holds it back |
| Fanout.MembershipUpdate | src/tr_mercury.c:1088-1157 | join, leave, death and move each run their locked sections in order, with anything happening after each |
| Fanout.NoticeTakesEffect | src/tr_mercury.c:1088-1157 | whatever others do between its sections, a notice leaves its member present or not, and its subscriptions there or gone, as the update says |
| Fanout.NoticeIsLocal | src/tr_mercury.c:1088-1157 | and everyone else's presence and subscriptions as without it |
| Fanout.UnlostGetsPlan | src/tr_mercury.c:3557-3701 | a member that loses no request is sent its plan up to its first refused push if present when looked up, whatever becomes of the others |
| Fanout.PushesAreIsolated | src/tr_mercury.c:3557-3580 | who else leaves, joins, subscribes or cannot be reached, and when, never changes what a member is sent, whatever becomes of its own pushes, provided no earlier write left a request of its own in flight that is lost |
| Fanout.IsolatedIff | src/tr_mercury.c:3094-3112 | pushes to others cannot change what a delivery sends, if and only if no such request is in flight or the member is sent at most one push anyway |
| Fanout.LostRequestLeaks | src/tr_mercury.c:3389-3391 | with such a request second in a full list, one push to another member turns two pushes sent into one |
| Fanout.AnnouncementsAreIsolated | src/tr_mercury.c:2434-2446 | who else leaves, joins or subscribes, and when, never changes whether a member is told of a step |
| Fanout.StayersAreTold | src/tr_mercury.c:2434-2446 | a member that stays is told exactly if all its subscriptions are live |
| Fanout.HeldBackIsNotTold | src/tr_mercury.c:2434-2446 | a member that left, or staged a subscription last, is not told |
| Fanout.LeaversGetNothing | src/tr_mercury.c:3696-3701 | a member found to have left is sent nothing, and one that has come back is served like any other |
| Fanout.StayersGetEverything | src/tr_mercury.c:3557-3580 | a member that stays and whose own requests go through is sent its whole plan |
| WriterTables.Writer.Subscribe | src/tr_mercury.c:1478-1610 | a subscribe request takes the table to the map the request defines, and reports whether it matched |
| WriterTables.Writer.ReleaseStaged | src/tr_mercury.c:1467-1477 | releasing moves all of the member's staged entries at once |
| WriterTables.RequestIsLocal | src/tr_mercury.c:1478-1610 | no request makes a second entry for a pair, an amendment makes none, a plain one clears predicate and type, other members' entries stay |
| WriterTables.RequestRecords | src/tr_mercury.c:1478-1610 | a plain request leaves its own range, pipeline, selection and start in its entry, there before or not; one for the predicate or the type changes that field alone; a release changes states alone |
| WriterTables.MatchesMeans | src/tr_mercury.c:1467-1610 | a release matches exactly if it changes something, an amendment exactly if its entry is there, a plain request always |
| WriterTables.AsMapUnique | src/tr_mercury.c:357-372 | the table is the one map that holds its entries |
| WriterTables.Writer.TakeBackfill | src/tr_mercury.c:2930-2970 | takes the first released member's requests, all of them in table order, with the earliest start any asked for, and makes them live |
| WriterTables.FirstReleasedIs | src/tr_mercury.c:2944-2958 | the member served is that of the first released entry |
| WriterTables.OwedPathsAre | src/tr_mercury.c:2944-2966 | the paths taken are those of its released entries, in table order |
| WriterTables.OwedIsAmong | src/tr_mercury.c:2944-2966 | and none of them is left out |
| WriterTables.Writer.MemberBackfilling | src/tr_mercury.c:2378-2389 | true exactly if the member has an entry that is not live |
| WriterTables.Writer.Snapshot | src/tr_mercury.c:3502-3555 | copies the live entries of the path, in order |
| WriterTables.LiveForExact | src/tr_mercury.c:3502-3510 | those are exactly the live entries of the path, of the one member if set, none twice |
| WriterTables.LiveForKeepsOrder | src/tr_mercury.c:3502-3510 | and they are in table order |
| WriterTables.Writer.DistinctSubscribers | src/tr_mercury.c:1164-1177 | the quadratic count is the number of distinct member ids |
| WriterTables.Writer.PurgeSubscriptions | src/tr_mercury.c:1139-1157 | removes exactly the member's entries by shifting |
| WriterTables.WithoutMap | src/tr_mercury.c:1139-1157 | as a map, a departure takes away exactly the member's keys |
| WriterTables.WithoutKeepsOrder | src/tr_mercury.c:1145-1152 | survivors keep their order |
| WriterTables.RemovedMembers | src/tr_mercury.c:667-692 | a departure removes that member alone from the member table |
| WriterTables.Writer.ReceiveAck | src/tr_mercury.c:1326-1387 | the lag table keeps each reader's greatest acknowledged step; a stale one changes nothing |
| WriterTables.Writer.MinAcked | src/tr_mercury.c:2659-2695 | the least of present readers' greatest acknowledged steps, none exactly if none of them ever acknowledged |
| StepProtocol.StepKeepsInv | src/tr_mercury.c:1424-1680 | every careful action of writer, reader or network keeps the invariant |
| StepProtocol.WholeRunDelivery | python/volstream/_file.py:512-560 | on every careful run, whatever pushes and announcements are lost, each returned step has exactly the pushes issued for it that were not lost; the steps returned and waiting are those whose announcements arrived, in order; only pushes of missed steps are dropped; and announcements go out consecutively |
| StepProtocol.MissingIsLost | src/tr_mercury.c:2448-2463 | a step announced is missing exactly if its announcement was lost |
| StepProtocol.OrderedIsExact | src/tr_mercury.c:2391-2470 | queues in order suffice for exact delivery |
| StepProtocol.OrderedStep | python/volstream/_file.py:522-544 | reading the next step with one held push keeps the reader's queues in order, and drops only pushes of missed steps |
| StepProtocol.BackfillExactlyOnce | src/tr_mercury.h:221-251 | nothing is sent while staged; once a backfill is taken, the announcements sent to that reader are consecutive from its first step, live ones following with no gap or repeat, and those that arrive are returned in order, each with its pushes |
| StepProtocol.OthersUntouched | src/tr_mercury.c:2434-2466 | an action moves nothing of a reader it is not about, and a departure leaves the writer's loop where it was |
| StepProtocol.LateJoinerIsTold | src/tr_mercury.c:1250-1275 | in every reachable state a late joiner is told of the last step committed, and nobody else of anything |
| Carelessness.CareIsExact | src/H5VLstream.h:866-875 | in every reachable state, an action keeps all that can follow exact if and only if it is careful |
| Carelessness.CarelessSubscribe | src/tr_mercury.c:1584-1610 | after any plain subscription added while a backfill is owed, some continuation returns a step without its push |
| Carelessness.CarelessStage | src/H5VLstream.h:873-875 | after any staged subscription made while an announcement of its start step or a later one waits, some continuation does too |
| Carelessness.SubscribeCanLose | src/tr_mercury.c:1584-1610 | four actions -- joining, discarding the backlog, staging, ending that call -- reach a state where the first is possible |
| Carelessness.StageCanLose | src/H5VLstream.h:873-875 | five reach one where the second is |
| TableRefinement.RequestRefines | src/tr_mercury.c:1467-1610 | a request does to its sender's entries what the protocol's subscribe, stage or release does, and nothing to anyone else's |
| TableRefinement.TakeBackfillRefines | src/tr_mercury.c:2930-2970 | taking a backfill from the table is the protocol's step, with its start |
| TableRefinement.DepartureRefines | src/tr_mercury.c:1139-1157 | the purge does to the entries what the protocol's departure does |
| TableRefinement.BackfillingRefines | src/tr_mercury.c:2378-2389 | both mean the same by "held back" |
| HeldPush.File.NextStep | python/volstream/_file.py:512-544 | takes the oldest announcement with the pushes of its step met before a later one, and holds at most that one |
| HeldPush.TakenIsExact | python/volstream/_file.py:522-544 | holding one push is enough exactly for a queue in step order |
| HeldPush.LateArrival | python/volstream/_file.py:533-544 | a later push arriving during the drain is left waiting wherever the drain was |
| Reassembly.Assemble | python/volstream/_file.py:182-226 | the method, shortcut and scatter loop together, returns the array the specification defines, or fails where NumPy's reshape does |
| Reassembly.Scatter | python/volstream/_file.py:210-223 | the in-place scatter of all pushes leaves each cell as the pushes over it say |
| Reassembly.AssembleCorrect | python/volstream/_file.py:182-226 | each cell has the value of the last push that covers its flat index, is unmasked exactly if some push does and the last one passes any re-test, and the array is plain exactly if nothing is masked |
| Reassembly.FrameIs | python/volstream/_file.py:198-208 | the array's rows, from the pushes alone: a growing array's go on to the last row any push reaches, a tail array's begin with the first any starts in; other axes are the subscription's; each position is the object's at that offset |
| Reassembly.OneSuchRow | python/volstream/_file.py:198-208 | those two rows are determined by the pushes |
| Reassembly.SeenIsLastCover | python/volstream/_file.py:210-223 | scattering in order is "the last push that covers it wins" |
| Reassembly.FastPathAgrees | python/volstream/_file.py:188-196 | the one-push reshape equals the general result exactly if the box lies inside the trailing extents, growing and tail included |
| Reassembly.FastPathIff | python/volstream/_file.py:188-196 | inside the trailing extents the shortcut is taken exactly if the one push is the box's elements in their order, none to be tested again |
| Reassembly.WrappingBoxDiffers | python/volstream/_file.py:142-147 | a box that wraps around a row, on which the two differ |
| Reassembly.PlaceOf | python/volstream/_file.py:213-220 | the loop's coordinate arithmetic puts a flat index at a box position exactly if the position's coordinate has that index |
| Reassembly.TailIsRowWindow | python/volstream/_file.py:198-208 | the tail array is the growing array's rows from its first row on |
| Reassembly.OutsideTailIsMasked | python/volstream/_file.py:198-208 | every growing cell outside that window is masked |
| EndToEnd.OneWriteEndToEnd | src/tr_mercury.c:3581-3913 | for every callback behaviour, every test of the reader's, and whichever pushes arrive in whatever order, a cell is received exactly if a push of its element arrives and the element passes any second test, then with the written value, cast if the type was granted; and a selected cell is received exactly as the predicate says, unless its push is lost, if and only if what arrives is not tested again or the two tests agree on it |
| EndToEnd.OutsideSendsNothing | src/tr_mercury.c:3640-3650 | a write that does not meet the subscribed range sends nothing |
| ValueTest.TestsAlikeIff | src/H5VLstream.c:3698-3770 | the writer's comparison in a common type and the reader's in the type of the data agree on every number of the type exactly if the type holds integers or the constant is not rounded past the numbers the operator sets apart |
| ValueTest.AlikeUnderAllIff | python/volstream/_file.py:167-178 | they agree under every operator exactly if the type holds integers or has the constant |
| ValueTest.CompareIs | src/H5VLstream.c:3588-3629 | the six operators on numbers, infinities and what is not a number |
| ValueTest.TowardZeroIs | src/H5VLstream.c:3698-3722 | a constant against integers is cut to the whole number next to it toward zero |
| EndToEnd.SameTestIff | python/volstream/_file.py:167-178 | for a value test of any element encoding, the two ends' tests are the same exactly if the constant is rounded harmlessly |
| EndToEnd.ExactUnlessDeclined | python/volstream/_file.py:155-178 | if both ends test values of the type asked for alike, then unless its push has both the type bit and a predicate bit, and whatever arrives in whatever order, a selected cell is received exactly if the write has the element, it satisfies the predicate, and its push, if any, arrives |
| EndToEnd.ExactWhenHarmless | python/volstream/_file.py:155-178 | the same for a value test, with the condition on the two tests replaced by one its caller can check beforehand: the type asked for holds integers, or rounds the constant harmlessly |
| EndToEnd.RoundedConstantMistests | src/H5VLstream.c:3698-3770 | with no type asked for and the predicate unevaluated, the binary32 nearest to 0.1 is masked by "> 0.1", which it satisfies, and received by "<= 0.1", which it fails |
| EndToEnd.DeclinedTypeMistests | python/volstream/_file.py:167-178 | with both declined, an element that satisfies the predicate is masked, and one that fails it received |
| EndToEnd.DeclinedIsReadRightIff | python/volstream/_file.py:149-166 | a cell filled by a declined conversion has the element, cast, whatever the two types mean and in whatever order the pushes come, exactly if they differ in size |
| EndToEnd.SameSizeIsMisread | python/volstream/_file.py:155-162 | 32-bit integers asked of a binary32 object: 1.0 is delivered as 1065353216 |
| EndToEnd.ArrayOfOneWrite | python/volstream/_file.py:182-226 | what `OneWriteEndToEnd` says of a cell, of the array `assemble()` returns from whatever arrived, at each of its positions, if the shortcut is taken at most inside the trailing extents |
| EndToEnd.LastWriteDecides | python/volstream/_file.py:210-223 | of any number of writes in a step, their pushes queued in any order and any of them lost, the one whose push over a cell is queued last makes it what it makes of it alone; a cell no push arrives for stays masked |
| EndToEnd.ArrayOfStep | python/volstream/_file.py:182-226 | the same of the array `assemble()` returns, at each of its positions |
| EndToEnd.SecondWriteDecides | src/tr_mercury.c:286-300 | a second write of a step whose push over a cell arrives decides it, however the pushes are queued, exactly if none of the first's over it is queued later or the two make the same of it; where it sends nothing the first's stays; it filters out only elements that fail the predicate |
| EndToEnd.StandsAlwaysIff | src/tr_mercury.c:1621-1668 | the second write's cell stands in every order of arrival exactly if the first does not send the element or both make the same of it |
| EndToEnd.StaleFirstWins | src/tr_mercury.c:1621-1668 | 1 and then 2 written to an element come back as 1 if the second push is queued first |
| EndToEnd.LastOverIff | python/volstream/_file.py:210-223 | the write decided by is the one whose push over the cell arrives and is overtaken by no other's |
| EndToEnd.ApartIsNotOvertaken | src/tr_mercury.c:3640-3653 | a write is not overtaken where no other write of the step reaches the element |
| EndToEnd.DrainedIsNotOvertaken | src/tr_mercury.c:3127-3141 | nor, if it is the last to arrive for the element, where each write's pushes are queued before the next one's |
| EndToEnd.SeenIsSent | python/volstream/_file.py:210-226 | a cell of the array is the value of the view at its index, if a push of it arrives |
| RunToArray.ReturnedStep | python/volstream/_file.py:522-560 | on every careful run of the step protocol, the blocks a returned step has for a path are of that step's writes, and each write's block over a cell is among them exactly if it was issued and not lost |
| RunToArray.ReturnedCell | python/volstream/_file.py:522-560 | on every careful run, in a returned step whose path was written once and under the guard of `ExactUnlessDeclined`, a selected cell is received exactly if the write has the element, it satisfies the predicate, and its push, if any, was issued and not lost |
| ReaderQueues.Reader.NoteWriter | src/tr_mercury.c:885-915 | a writer is recorded once, and if it cannot be, that is remembered |
| ReaderQueues.Reader.AllWritersGone | src/tr_mercury.c:917-928 | true exactly if a writer is recorded, each has left since, and none was missed |
| ReaderQueues.Reader.MemberLeft | src/tr_mercury.c:1119-1127 | a departure marks the writer, and finds all gone exactly if every recorded writer has left and none was missed |
| ReaderQueues.Reader.MarkDataEnded | src/tr_mercury.c:1128-1133 | the data queue is marked ended by a departure that found all gone, and by no other |
| ReaderQueues.EndArrives | src/tr_mercury.c:1114-1133 | over any events, the data queue is marked ended once all were gone and a departure has come to mark it, and then stays so |
| ReaderQueues.Reader.WaitStepReady | src/tr_mercury.c:2494-2539 | returns the oldest announced step, and fails only with none queued and the reader stopped, the writers gone or done, or the time up |
| ReaderQueues.Reader.WaitData | src/tr_mercury.c:4033-4094 | the same for data; nothing received is lost or reordered |
| ReaderQueues.Reader.EndOfStream | src/tr_mercury.c:2541-2553 | reported exactly if all writers are gone or one is marked done, and every announced step was taken |
| ReaderQueues.GoneForGoodIff | src/tr_mercury.c:881-928 | "all gone" and "none was heard from after leaving" together are "all left for good" |
| ReaderQueues.EverythingArrives | src/tr_mercury.c:955-1015 | every announcement and item that reaches the reader is queued, in order, whatever else happens in between |
| ReaderQueues.EverythingIsRecorded | src/tr_mercury.c:885-915 | every departure and every writer heard from is recorded, as missed only if there was no room |
| ReaderQueues.OnlyDepartureEnds | src/tr_mercury.c:1114-1133 | only a departure can complete the end |
| ReaderQueues.ReturnedStillGone | src/tr_mercury.c:890-892 | a writer that returns under its identity still counts as gone |
| ReaderQueues.MarkOutlivesEnd | src/tr_mercury.c:1128-1132 | the data queue's end mark can be set with a writer present |
| BulkSources.NothingDangles | src/tr_mercury.c:3033-3258 | in every consistent state, each outstanding pull reads its payload at its address inside a live registration and allocated memory, regions name allocated memory, and each block has one owner |
| BulkSources.Sources.Allocate | src/tr_mercury.c:3716-3726 | a block a callback hands over is the caller's, and nowhere in use yet |
| BulkSources.Sources.FreeHeld | src/tr_mercury.h:271-284 | a lender may free its block once nothing uses it, and blocks not in use elsewhere stay so |
| BulkSources.Sources.StartWrite | src/tr_mercury.c:3465-3471 | a write names its own region and starts with nobody given up |
| BulkSources.Sources.DrainOne | src/tr_mercury.c:3094-3123 | completing the oldest request gives back all it holds, once, none of it in use |
| BulkSources.Sources.DrainBorrowed | src/tr_mercury.c:3136-3141 | ends with no borrowed request in flight and the count exact |
| BulkSources.DrainBorrowsIs | src/tr_mercury.c:3136-3141 | it completes the requests up to the last that borrows, and no more |
| BulkSources.Sources.DrainPushes | src/tr_mercury.c:3127-3132 | ends with nothing in flight |
| BulkSources.Sources.RegionAdd | src/tr_mercury.c:3145-3168 | names a region once |
| BulkSources.Sources.RegionBulk | src/tr_mercury.c:3174-3198 | finds the first covering region, registers it on first use, and returns base plus offset equal to the payload's address |
| BulkSources.FirstCoveringIs | src/tr_mercury.c:3174-3198 | the region chosen covers the payload and no earlier one does |
| BulkSources.Sources.InflightAdd | src/tr_mercury.c:3033-3057 | records the request with all it holds, or changes nothing if the list cannot grow |
| BulkSources.Sources.PushOneItem | src/tr_mercury.c:3285-3443 | keeps everything in order on every outcome; the request in flight, if any, reads exactly this payload; an owned payload is freed once, a borrowed one never |
| BulkSources.BulkSourceIff | src/tr_mercury.c:3335-3370 | a payload travels by bulk exactly if it reaches the threshold and a region serves or it can be registered itself, and gets a registration of its own exactly if no region serves |
| BulkSources.Sources.DeferFree | src/tr_mercury.c:3204-3234 | puts the free off, or, if it cannot, completes the pulls, forgets the regions of the block and frees it |
| BulkSources.DroppedFromIs | src/tr_mercury.c:3213-3228 | the regions forgotten are exactly those that start at the block |
| BulkSources.Sources.ReleaseSources | src/tr_mercury.c:3242-3258 | afterwards no region is left, nothing is put off, nothing is borrowed, and whatever was lent is nowhere in use |
| BulkSources.DrainedUnused | src/tr_mercury.c:3094-3123 | nothing else used what the oldest request gives back |
| BulkSources.DroppedIsConsistent | src/tr_mercury.c:3218-3228 | forgetting a region, the last one moved into its place, is safe once nothing borrows |
| BulkSources.ReleasedIsConsistent | src/tr_mercury.c:3242-3258 | letting everything go keeps the state consistent once nothing borrows |
| BulkSources.NoneBorrowed | src/tr_mercury.c:3136-3141 | a borrowed count of zero means no request borrows |
| Diaspora.RunsFor | src/tr_diaspora.cpp:355-410 | the method returns the runs the specification defines, and whether they are only a span |
| Diaspora.RunsExact | src/tr_diaspora.cpp:355-410 | the runs ascend inside the write and name exactly the elements in range and selected, unless marked a span |
| Diaspora.BlobsSurvive | src/tr_diaspora.cpp:1123-1136 | through the text in the metadata, the reader resolves its selection against the writer's own dataspace and delivers the writer's own type |
| Diaspora.Select | src/tr_diaspora.cpp:703-739 | the selector asks for everything, one view or several, or nothing, according to the runs |
| Diaspora.AskedForm | src/tr_diaspora.cpp:703-739 | nothing is asked for exactly if there are no runs, the whole exactly if the one run is the write, and several views exactly if there are several runs |
| Diaspora.GatherIsRuns | src/tr_diaspora.cpp:716-734 | whatever form the request takes, it moves the runs' bytes in order |
| Diaspora.Flatten | src/tr_diaspora.cpp:877-891 | the segments are copied into one buffer of the runs' size, zero beyond what arrived |
| Diaspora.Split | src/tr_diaspora.cpp:893-908 | one item per run; the short-payload guard never fires |
| Diaspora.SplitUndoesGather | src/tr_diaspora.cpp:872-908 | while the subscription is as the selector saw it, each item has exactly the bytes of its elements, however the payload was segmented |
| Diaspora.FaithfulItems | src/tr_diaspora.cpp:843-908 | the same for a whole event, with step, path, type and order; an item has the bit of a selection exactly if that was asked for and could not be resolved, of a predicate or a type exactly if one was asked for; and without the first all its elements are selected |
| Diaspora.ChangedIsExactIff | src/tr_diaspora.cpp:852-908 | if the subscription changes between selecting and splitting, the items are right for every payload exactly if the bytes the split expects begin those the selector asked for |
| Diaspora.PiecesFit | src/tr_diaspora.cpp:877-879 | the split's buffer has the size of the bytes its runs name |
| Diaspora.ChangedSubscriptionMislabels | src/tr_diaspora.cpp:852-857 | a subscription changed in between mislabels an item |
| Diaspora.Reader.PullRetained | src/tr_diaspora.cpp:416-427 | each event comes back once, in order, whatever timed out before |
| Diaspora.Reader.Pump | src/tr_diaspora.cpp:816-917 | parks the items of every event it takes; stops at the first marker, or the first event with items, as asked, and at no other |
| Diaspora.ParkedAppend | src/tr_diaspora.cpp:816-917 | what events leave parked is what each leaves, one event after the other |
| Diaspora.ParkedOne | src/tr_diaspora.cpp:843-908 | and one event leaves its own items |
| Diaspora.Reader.WaitData | src/tr_diaspora.cpp:1181-1210 | hands out the oldest parked item |
| Diaspora.Reader.Serve | src/tr_diaspora.cpp:816-926 | over any run of waits, items handed out and then parked are exactly those of the events taken, in order; a wait comes back empty only once all that had arrived is taken |
| Diaspora.ControlTopic.PumpControl | src/tr_diaspora.cpp:431-474 | the writer's knowledge is exact for the events absorbed since it started |
| Diaspora.ControlTopic.StartGroup | src/tr_diaspora.cpp:645-648 | a starting writer forgets what an earlier run left |
| Diaspora.ControlTopic.PushData | src/tr_diaspora.cpp:1115-1176 | a write is declined exactly if paths are subscribed to and its own is not, as far as told |
| Diaspora.LearnedKnows | src/tr_diaspora.cpp:448-467 | one more event keeps it exact: greatest step per reader, distinct readers, paths |
| Diaspora.ControlTopic.MinAcked | src/tr_diaspora.cpp:1017-1035 | the least over every reader that ever acknowledged, present or not |

## Left out

- Mercury, Margo, Flock and BAKE themselves: address lookup, transport retries and timeouts. A push arrives or is lost; membership is a list of changes.
- HDF5 and `src/H5VLstream.c`, the value test apart: encoding of types and spaces, filters, replay, retention, queue policies. The backfill's serving loop is taken from the headers' description of it; a backfilled push is any push of that step and path.
- `python/_volstream.c`, `tools/h5stream.c`, `src/tr_bake.c`, statistics, environment variables, deadlines and sleeps.
- Schema publishing: a copied blob behind a lock.
- `vs_tr_writer_push_opaque` (`src/tr_mercury.c:3934-4012`): one payload to every live entry, with no narrowing to prove about.
- Allocation failure where the code merely carries on with less: the snapshot and table growth, and the reader's queues. It is modelled for the record of writers, the in-flight list and deferred frees.
- A member that leaves and joins again under the same identity is not followed through `StepProtocol`; `Fanout.MembershipUpdate` has its effect on the tables.
- `get()` without steps, and discarding of announcements by it (`python/volstream/_file.py:497-510`).
- A push whose size matches neither the asked nor the native type (`python/volstream/_file.py:163-166`): the reader raises.
- `ValueTest`: no constant that is infinite, not a number or beyond 64 bits against integers, and an integer constant against floating-point data counts as the double it becomes; the two zeros are one. Which rounding a type has is a parameter; types whose predicates the writer never evaluates (unsigned 64-bit, wider than double, compound) are tested by the reader alone.
- Zero-sized trailing extents: `Reassembly` takes an object that has elements. Dimension 0 may be anything.
- Diaspora's re-subscription keeps an earlier predicate and type (`src/tr_diaspora.cpp:1039-1053`), unlike the first transport's; only what a fixed subscription does is modelled.
- The bounded run lists (`VS_TR_MAX_PRED_RUNS`, `DSA_MAX_RUNS`): what a callback returns already fits, by its contract.
- StepProtocol.WholeRunDelivery: within one step the pushes are a multiset, because requests in flight together may be queued in any order; a lost push is excluded from what must be returned.
- BulkSources.Sources.RegionAdd: growth failure of the region list is not modelled; a push then registers its own memory, which `PushOneItem` covers.
- Diaspora.Reader.WaitStep: step markers met while waiting for data are passed over, as in the source, so no claim is made that every marker is returned.
- What the selection, type, predicate and pipeline blobs encode: a selection or predicate is an arbitrary test on elements, a conversion an arbitrary map.
