# Dusk indexer and API: a verified model

Models of the stateful and algorithmic core of the Dusk indexer, gRPC gateway
and API, with proofs of what they promise. One module a component:

- **Streams.** `ChangeStream` is the gateway's database listener with its
  generations, its coalescing watch channel and any number of subscribers;
  `ChangeFeed` is the API's single-flight, rate-limited feed with its timer,
  its asynchronous send and its close paths; `PayloadBridge` rebuilds
  server-sent frames from arbitrary byte chunks; `DedupBuffer` holds inserted
  swaps until they are enriched or overdue. Each is a step system, and the
  properties are about every step and every run: what all of them keep, exactly
  when a stream ends or refuses, and what a healthy environment delivers.
- **Projection.** `ActivityProjection` joins the coalesced drain, the worker's
  loop and the lock-serialised batch, with any number of workers.
- **History and aggregation.** `Paging`, `EventKeys` and `EventHistory` are
  the watermark and cursor walk over canonical events and its role-split query;
  `MarketActivity` is the paged fold with a per-page price memo; `Candles` is
  the gap-filled chart query; `Backfill` lists newest first and replays oldest
  first.
- **Arithmetic, searches, encodings.** `CanonicalJson` and
  `DeploymentIdentity` (the shape of RFC 8785, sections 3.2.2 and 3.2.3),
  `LeverageSearch`, `CashFlows`, `EntryOrder`, `ActivityMath`.
- **Shared.** `Options`, `Payloads`, `TextOrder`, `Decimal`, `Sequences`,
  `Arithmetic`.

Objects that the program updates in place are classes whose methods are proved
against functions on their state (`Bridge`, `Feed`, `Registry`, `Observation`,
`ActivityTables`, `CoalescedDrain`, `Listener`); loops stay loops
(`SearchMaximum`, `SearchSize`, `Accumulate`, `Read`, `CountPage`, `Enumerate`,
`ReadPage`, `Replay`). Run the verifier with `dafny verify dfyconfig.toml`.
Automatic induction is switched off on every lemma, so each inductive step is
written out; `hide` keeps definitions out of proofs that do not need them.

What the environment supplies is a parameter: JSON validity of a frame, a
deployment observation, the native evaluator (deterministic), price projection,
public-key syntax, clocks and the order in which events arrive. A table is
assumed to be appended to only where a theorem says so, a primary key to be
unique, and a node's listing never to lose an old entry.

Where the code does less than its documentation or a reader may expect, the
model follows the code, a lemma gives an input that shows it, and another says
exactly when it does not happen:

- a notice, of any slot, that lands between the two lines of a heartbeat's check
  is taken as seen and told to nobody (`SplitCheckSwallows`,
  `StepLosesExactly`);
- `MAX_FRAME` bounds the buffer plus one chunk, not a frame
  (`LimitDependsOnChunks`, `OversizeEnds`, `ChunkingDoesNotMatter`);
- a canonical event moved to a newer observation between any two pages is
  missing from the walk if it lies below the cursor held then (`ReplacementHides`,
  `ReplacedBetweenPages`, `ReplacedBelowCursorIsMissed`, `AWalkMissesAnEvent`),
  and one whose canonical row is committed between two pages is missing unless
  it lies below that cursor (`LateRowIsReturnedBelow`);
- an inserted version whose signature is notified again before a tick finds it
  overdue is never emitted, so of two swaps of one transaction only the second
  goes out (`FatesDecide`, `NeverEmittedExactly`, `SecondInsertHidesFirst`);
- a stop request after a full batch settles a wake early (`StopLeavesRest`), and
  leaves events unprojected exactly when more than one batch of them was left at
  the selection (`StopLeavesNothingExactly`);
- `NaN` and infinities print as `null` (`NonFiniteCollidesWithNull`), and no
  other values share a text (`CanonicalIsInjective`);
- candle volumes leave out trades without a price (`EmptyReserveIsDropped`,
  `VolumeIsWhole`);
- when a full page above the floor ends on a signature that does not parse, the
  backfill starts over: it never ends on a ledger that stands still, and on a
  growing one it never lists exactly what it owes (`UnreadableEndRepeats`,
  `RestartIsNeverExact`, `ListsExactlyIff`).

## Model

| member | source | states |
|---|---|---|
| PayloadBridge.Bridge.Receive | grpc/src/dusk_payloads.rs:130-152 | The nested read loops, byte buffer and locals updated in place, leave exactly the state that splitting the buffer at leftmost blank lines and reading the frames in order leaves; without a chunk the stream ends as unavailable with what it had delivered |
| PayloadBridge.BytesAreConserved | grpc/src/dusk_payloads.rs:138-140 | Drained frames followed by the remaining buffer are the bytes received, none lost or invented |
| PayloadBridge.DelimitersEndFrames | grpc/src/dusk_payloads.rs:139-140 | Every frame holds one blank line, at its end, and the buffer between reads holds none |
| PayloadBridge.FramesExtend | grpc/src/dusk_payloads.rs:138-140 | Bytes that arrive later never change a frame that is complete |
| PayloadBridge.ChunkingDoesNotMatter | grpc/src/dusk_payloads.rs:134-152 | Every way of cutting a stream into chunks under the limit yields the payloads and the error of the uncut stream |
| PayloadBridge.OversizeEnds | grpc/src/dusk_payloads.rs:137 | A chunk over the limit ends the stream with the size error after everything complete before it |
| PayloadBridge.FitsExactly | grpc/src/dusk_payloads.rs:137 | A cutting is under the limit exactly when every chunk fits beside the unfinished frame of all that came before it |
| PayloadBridge.LimitDependsOnChunks | grpc/src/dusk_payloads.rs:137 | The same tiny frames pass one at a time and are refused in one large chunk, since the limit is on buffer plus chunk |
| PayloadBridge.DeliveredIsNumbered | grpc/src/dusk_payloads.rs:146-150 | Whatever the upstream sends, delivered payloads are numbered 1, 2, 3 on one stream under one identity |
| PayloadBridge.PrintedFrames | grpc/src/dusk_payloads.rs:139-143 | Printed events and comments split back into exactly the printed frames |
| PayloadBridge.PrintedStreamRoundTrip | grpc/src/dusk_payloads.rs:130-152 | Printed frames, cut in any way, come back as exactly their bodies when numbered 1..n, else continuity is lost after a proper prefix |
| PayloadBridge.NextFrameDecides | grpc/src/dusk_payloads.rs:139-150 | After frames that show readable, numbered items: with no further frame the stream goes on with exactly their bodies, an unreadable frame ends it there as unavailable, and a readable one out of order ends it there with continuity lost |
| PayloadBridge.UnavailableExactly | grpc/src/dusk_payloads.rs:139-148 | A stream of fitting chunks ends as unavailable with these payloads if and only if its frames begin with readable items of exactly these bodies, numbered, and the next frame is no comment and no event with a valid payload in UTF-8 |
| PayloadBridge.MissingChunkEnds | grpc/src/dusk_payloads.rs:135-136 | The end of the body, a transport error or a missed deadline ends a stream still reading as unavailable, and keeps what was delivered |
| ChangeStream.Observation.Envelope | grpc/src/dusk_stream.rs:210-227 | A cached failure, or a success that covers the floor, younger than a batch is answered without reading; otherwise the answer is the one fresh read, which is cached |
| ChangeStream.ListenKeeps | grpc/src/dusk_stream.rs:120-165 | Every listener event appends to the channel and keeps each generation ready over one stretch with rising slots |
| ChangeStream.NotifiedSlots | grpc/src/dusk_stream.rs:133-147 | While it is up, a listener's notice is ready, of its generation, at the highest slot notified since |
| ChangeStream.ListenerReports | grpc/src/dusk_stream.rs:120-165 | Every listener event sends one notice: of a new generation at a start and else of the same, ready exactly when the connection listens or is notified, at slot 0 but for a notification |
| ChangeStream.SubStepKeeps | grpc/src/dusk_stream.rs:269-313 | Every stream step keeps frames numbered from 1 under one identity, opened by a resync, none ahead of its envelope |
| ChangeStream.FramesLieInOneInterval | grpc/src/dusk_stream.rs:269-313 | Between the opening read and any frame the listener never left the stream's generation nor stopped being ready |
| ChangeStream.ToldAtItsSlot | grpc/src/dusk_stream.rs:292-313 | The change frame that tells a notice carries at least its slot |
| ChangeStream.StepLosesExactly | grpc/src/dusk_stream.rs:292-313 | A stream step leaves a notice of its generation untold if and only if it is a heartbeat's read of a notice that landed after its check, whatever slots were told before |
| ChangeStream.AtomicCheckLosesNothing | grpc/src/dusk_stream.rs:292-293 | Taken as one step, check and read never leave a notice untold |
| ChangeStream.ActKeeps | grpc/src/dusk_stream.rs:120-313 | In every interleaving of listener and streams continuity is kept, and notices are lost exactly by that read |
| ChangeStream.RunKeeps | grpc/src/dusk_stream.rs:120-313 | Over whole runs with any number of streams, every notice of a stream's generation is unseen, absorbed by the opening resync, held by an iteration or told by a change frame that read it or a later one, unless that read happens |
| ChangeStream.EndsExactly | grpc/src/dusk_stream.rs:269-313 | A step ends a stream if and only if its client dropped it, the observation failed, the listener left its ready generation at a read or a yield, or the deployment has another identity |
| ChangeStream.SubscriberIsOpened | grpc/src/dusk_stream.rs:269-313 | A stream that may subscribe, whose listener stays, takes each step to its opening resync, number 1 at slot 0, and then waits |
| ChangeStream.ChangeIsDelivered | grpc/src/dusk_stream.rs:292-313 | A waiting stream with an unseen notice, whose listener stays, takes each step to one more frame, a change at the latest slot under the covering deployment, which tells every notice seen, and then waits |
| ChangeStream.TickIsDelivered | grpc/src/dusk_stream.rs:292-313 | A tick yields a heartbeat at slot 0 when the stream had seen everything, and the change when it had not |
| ChangeStream.SplitCheckSwallows | grpc/src/dusk_stream.rs:292-293 | A reachable run in which a notice between the two lines is told to nobody |
| ChangeFeed.Registry.Open | api/src/services/duskChangeStream.ts:57-60 | A feed is opened and counted only below the capacity of 128 |
| ChangeFeed.Feed.Close | api/src/services/duskChangeStream.ts:74-83 | Closing is idempotent: timers dropped, the sink closed once, the feed out of the active set |
| ChangeFeed.Feed.Write | api/src/services/duskChangeStream.ts:102-129 | A frame is written only for the feed's identity at or above the hinted slot, numbered next; anything else closes the feed and takes it out of the active set |
| ChangeFeed.Feed.Schedule | api/src/services/duskChangeStream.ts:130-144 | Hints coalesce to the strongest kind and the highest slot, and the timer is armed no sooner than 250 ms after the last frame |
| ChangeFeed.Feed.OnTimer | api/src/services/duskChangeStream.ts:136-151 | The timer takes the pending hint into flight |
| ChangeFeed.Feed.OnSendSettled | api/src/services/duskChangeStream.ts:152-159 | A settled send writes or closes, then re-arms for what arrived meanwhile; the feed leaves the active set exactly when it closes |
| ChangeFeed.Feed.OnOpeningSettled | api/src/services/duskChangeStream.ts:169-193 | The opening either writes the first resync and starts, or fails closed and leaves the active set |
| ChangeFeed.Feed.OnUnavailable | api/src/services/duskChangeStream.ts:164-167 | A lost listener closes an initialised feed, which leaves the active set |
| ChangeFeed.StepKeeps | api/src/services/duskChangeStream.ts:102-195 | Every event in every state keeps the feed's invariant: frames 1..n of one identity, paced, no hint lost, nothing stuck, sink closed at most once |
| ChangeFeed.RunKeeps | api/src/services/duskChangeStream.ts:53-195 | The invariant over every run: each published hint is pending, in flight, or told by a frame begun after it at or above its slot, a resync only by a resync; pending work has a timer or a send, never both |
| ChangeFeed.FramesOnlyGrow | api/src/services/duskChangeStream.ts:74-129 | Frames are only added, and none after close |
| ChangeFeed.UnavailableEnds | api/src/services/duskChangeStream.ts:164-167 | After an unavailable notice on an initialised feed no run writes another frame |
| ChangeFeed.StartGoesOn | api/src/services/duskChangeStream.ts:168-171 | A listener that starts leaves an open feed open, waiting for its first observation, and changes nothing else |
| ChangeFeed.OpeningOpens | api/src/services/duskChangeStream.ts:171-186 | A good first observation opens the feed: one resync, number 1 at slot 0, the heartbeat on, and the timer armed exactly when a hint came before |
| ChangeFeed.ClosesExactly | api/src/services/duskChangeStream.ts:102-195 | An event closes an open feed if and only if it is a lost listener after the opening, a failed start or opening, a failed or refused send, one of another identity or behind its slot, or the client's going |
| ChangeFeed.AnswersExactly | api/src/services/duskChangeStream.ts:169-194 | The opening answers once: 503 if and only if it failed before the client left, otherwise it resolves when its awaits are over |
| ChangeFeed.HearsExactly | api/src/services/duskChangeStream.ts:161-190 | An open feed hears hints and the listener's loss, and its heartbeat once it is opened; a closed one none of them, nor its timer |
| ChangeFeed.HintIsHeld | api/src/services/duskChangeStream.ts:130-144 | A hint given to an open feed is on record as given after the last frame begun, is pending, and changes nothing else but the timer |
| ChangeFeed.ScheduleCoalesces | api/src/services/duskChangeStream.ts:130-144 | Of two hints the stronger kind and the higher slot are kept; a free feed's timer is for now or for the end of the batch after its last frame, whichever is later |
| ChangeFeed.PendingIsDelivered | api/src/services/duskChangeStream.ts:130-160 | With a healthy upstream the armed timer and its send append exactly one frame, next in number, of the pending kind at the pending slot, after which every published hint is told by a frame begun after it |
| ChangeFeed.AwaitedIsDelivered | api/src/services/duskChangeStream.ts:145-160 | A well-settled send appends exactly its frame; every hint is then told by a frame begun after it or pending with the timer armed |
| ChangeFeed.HeartbeatIsDelivered | api/src/services/duskChangeStream.ts:130-190 | A heartbeat tick of an idle open feed ends, after its timer and a well-settled send, in one heartbeat frame at slot 0 |
| ChangeFeed.ActKeeps | api/src/services/duskChangeStream.ts:53-83 | Over all feeds, at most 128 are open and the active set is exactly those |
| DedupBuffer.Listener.OnNotification | grpc/src/db_listener.rs:81-115 | An insert waits in place of any earlier version; an update or other notification drops the waiting version and is emitted |
| DedupBuffer.Listener.OnTick | grpc/src/db_listener.rs:156-173 | A tick emits exactly the overdue versions, once each, and keeps the rest |
| DedupBuffer.SwapsAreConserved | grpc/src/db_listener.rs:84-173 | In every run, received swaps are emitted, waiting or superseded, with multiplicity |
| DedupBuffer.BufferIsPending | grpc/src/db_listener.rs:84-173 | What waits for a signature is its last notification, if that was an insert no tick has found overdue since |
| DedupBuffer.FatesDecide | grpc/src/db_listener.rs:81-173 | In every run, what was emitted, what waits and what was superseded are, swap by swap and with multiplicity, the notifications whose own fate that is: not an insert, or first met by a tick, by nothing, or by another notification |
| DedupBuffer.NeverEmittedExactly | grpc/src/db_listener.rs:84-173 | An insert of a swap received once is in what was emitted if and only if a tick finds it overdue before its signature is notified again, and in what was superseded if and only if the notification comes first; with neither it still waits |
| DedupBuffer.SecondInsertHidesFirst | database/migrations/023_dusk_swap_notify_trigger.sql:25-60 | Of two swaps inserted under one transaction signature the first is superseded and only the second is emitted |
| DedupBuffer.TickLeavesNothingOverdue | grpc/src/db_listener.rs:156-173 | After a tick exactly the versions that had waited less than the timeout are left, unchanged |
| DedupBuffer.RawNeverFollowsEnriched | grpc/src/db_listener.rs:91-109 | After an update, a later tick emits for that signature only versions inserted after it |
| ActivityProjection.ActivityTables.ProjectBatch | api/src/services/duskMarketActivity.ts:28-59 | One batch adds, in the index's order, exactly the unprojected events with fewer than `limit` unprojected ones before them, and counts them; it throws and leaves the table as it was exactly when the limit is bad or one of those rows is unsound |
| ActivityProjection.ActivityTables.Drain | api/src/scripts/duskMarketActivityWorker.ts:8-14 | Whenever a pass ends it has added exactly the oldest events in order; it fails exactly at the first batch with an unsound row, is cut by the first stop after a full batch, and otherwise leaves every event in the index projected |
| ActivityProjection.OldestFirst | api/src/services/duskMarketActivity.ts:43-48 | When an event is added, every unprojected event before it in the index is added too and stands before it |
| ActivityProjection.EarlierSlotsFirst | api/src/services/duskMarketActivity.ts:48 | ... and so with an index in order of slot and key, every unprojected event of an earlier slot, or of the same slot with a smaller key |
| ActivityProjection.ShortBatchExhausts | api/src/services/duskMarketActivity.ts:43-48 | A batch under the limit leaves nothing unprojected |
| ActivityProjection.CoalescedDrain.Wake | api/src/services/duskEventDrain.ts:10-23 | A wake marks work and starts a pass only when none runs |
| ActivityProjection.CoalescedDrain.PassSettled | api/src/services/duskEventDrain.ts:10-23 | A settled pass repeats when woken meanwhile, and a failed one ends the run |
| ActivityProjection.ActKeeps | api/src/services/duskMarketActivity.ts:28-69 | Any worker's step, ingestion or failure keeps one lock holder, rows new to the table and short batches that cover earlier wakes |
| ActivityProjection.FailKeeps | api/src/services/duskMarketActivity.ts:60-69 | A pass may fail waiting for the lock or holding it; it leaves nothing in the tables, gives the lock back and ends the run |
| ActivityProjection.CommitAddsOldest | api/src/services/duskMarketActivity.ts:28-69 | Whatever happens between a selection and its commit, the commit appends exactly the oldest events unprojected at the selection |
| ActivityProjection.WakeIsHeard | api/src/services/duskEventDrain.ts:10-23 | A wake begins a pass of a worker at rest and leaves another one due for a worker at work |
| ActivityProjection.SettlesExactly | api/src/scripts/duskMarketActivityWorker.ts:8-14 | After a batch the worker goes on, with another batch, another pass or not at all, exactly by the batch's size, the stop request and the pending wake |
| ActivityProjection.RunKeeps | api/src/services/duskMarketActivity.ts:28-69 | Over every run projection is append-only and holds no event twice |
| ActivityProjection.SettledWakeIsProjected | api/src/services/duskEventDrain.ts:10-23 | A settling run without a cutting stop has every event committed before its wakes in the table exactly once |
| ActivityProjection.EveryRunProjects | api/src/services/duskEventDrain.ts:10-23 | The same from resting workers over every interleaving of passes, ingestion, failures and wakes |
| ActivityProjection.WakesCollapse | api/src/services/duskEventDrain.ts:12-20 | Wakes during a pass become one more pass, and the run cannot settle before it |
| ActivityProjection.StopLeavesRest | api/src/scripts/duskMarketActivityWorker.ts:8-14 | From a resting worker, a wake, one full batch and a stop settle the wake with later events unprojected |
| ActivityProjection.StopLeavesNothingExactly | api/src/scripts/duskMarketActivityWorker.ts:8-14 | A run that a stop ends after a batch has projected everything the index held at the selection if and only if at most one batch of it was unprojected then, whatever happens until the commit |
| Paging.MergeIsUnion | api/src/services/duskEventHistory.ts:139-151 | Merging two ordered disjoint branches is ordering their union |
| Paging.LimitBranches | api/src/services/duskEventHistory.ts:139-151 | Limiting each branch before the merge loses no row of the limited merge |
| Paging.OneExtraRowDecides | api/src/services/duskEventHistory.ts:164-170 | Asking for one row more tells exactly whether another page exists |
| Paging.WalkDescends | api/src/services/duskEventHistory.ts:119-170 | Whatever happens between pages, a walk goes strictly down and repeats nothing |
| Paging.WalkReturnsHeld | api/src/services/duskEventHistory.ts:119-170 | Every returned position was held by some page's snapshot |
| Paging.WalkReturnsLasting | api/src/services/duskEventHistory.ts:119-170 | A position held by every page's snapshot is returned by a finished walk |
| Paging.FrozenWalkIsWhole | api/src/services/duskEventHistory.ts:119-170 | Over one set a finished walk is the set in order, for any limits |
| Paging.FrozenWalkFinishes | api/src/services/duskEventHistory.ts:119-170 | Over one set every walk ends after at most one page a position and one more |
| Paging.WalkSplits | api/src/services/duskEventHistory.ts:119-170 | A walk is its first pages followed, when they leave a cursor, by the walk from that cursor |
| Paging.GoneIsReturnedBefore | api/src/services/duskEventHistory.ts:119-170 | A position gone between any two pages is returned exactly when an earlier page returned it |
| Paging.ReturnedIsNotBelow | api/src/services/duskEventHistory.ts:119-170 | A walk that goes on has returned, of a position its pages all held, exactly what does not lie below its cursor |
| Paging.LateIsReturnedBelow | api/src/services/duskEventHistory.ts:119-170 | A position that appears between two pages and stays is returned exactly when it lies below the cursor |
| EventKeys.StableKeyInjective | indexer/crates/dusk-ingestion/src/lib.rs:219-238 | Different events never share a stable key |
| EventKeys.CursorKeyAccepts | api/src/services/duskEventHistory.ts:39-47 | A stable key is accepted back in a cursor exactly when its signature and path fit the cursor's bounds |
| EventKeys.AcceptsExactlyPrintedKeys | api/src/services/duskEventHistory.ts:39-47 | The validator accepts a text if and only if the indexer prints it for some event of the pinned identity with a base58 signature of 64 to 88 characters, at most 64 instructions deep, in at most 1024 characters |
| EventHistory.SplitQueryIsSingleQuery | api/src/services/duskEventHistory.ts:119-149 | The two limited branches merged and limited are the top rows of the one role condition, null actors and double roles included |
| EventHistory.NoEventTwice | api/src/services/duskEventHistory.ts:119-149 | No event appears twice in a page, even when both roles match |
| EventHistory.PageIsNextRows | api/src/services/duskEventHistory.ts:154-182 | Over any table a page is the next matching rows below its cursor, with a cursor exactly when more follow, and it throws exactly when one of the rows it reads is inconsistent |
| EventHistory.RefusedExactly | api/src/services/duskEventHistory.ts:49-79 | A page is refused if and only if its selection is out of range or its cursor is of another selection, beyond the latest observation, before the pinned start, too long, or with a key the indexer does not print |
| EventHistory.PageHoldsExactly | api/src/services/duskEventHistory.ts:119-170 | An event is in a page that is read if and only if its own fields are what the selection asks for (time from `since` to `until`, market, event name, who acted or liquidated, watermark) and it lies below the cursor and not below the one issued |
| EventHistory.IssuedCursorIsAccepted | api/src/services/duskEventHistory.ts:39-79 | An issued cursor is accepted by the same selection at any page size exactly when its row's key is one a cursor may carry |
| EventHistory.AppendsAreInvisible | api/src/services/duskEventHistory.ts:119-124 | Observations above the watermark change no page of a walk |
| EventHistory.FollowIsWalk | api/src/services/duskEventHistory.ts:154-182 | Following the issued cursors is the keyset walk over the matches of the visited tables, whatever happens to them between pages; it stops early only at the throw of an inconsistent row |
| EventHistory.WalkUnderAnyChange | api/src/services/duskEventHistory.ts:154-182 | Whatever ingestion does between pages, a walk is newest first, returns no event twice and none that no visited table matched, and with its cursor at null every event that matched in all of them |
| EventHistory.WalkReturnsEverything | api/src/services/duskEventHistory.ts:154-182 | While the tables only gain events observed above the first watermark, following the cursor to null returns every event of the first watermark once, newest first, for every limit, and null is reached |
| EventHistory.ReplacementHides | indexer/crates/dusk-daemon/src/persist.rs:266-290 | A canonical event repointed above the watermark takes its event out of the walk's matches |
| EventHistory.ReplacedBetweenPages | api/src/services/duskEventHistory.ts:119-170 | An event gone, or so moved, between any two pages is returned if and only if an earlier page returned it, whatever else changes |
| EventHistory.ReplacedBelowCursorIsMissed | api/src/services/duskEventHistory.ts:119-170 | An event that matched up to some page and is then gone or so moved is returned by the walk if and only if it does not lie below the cursor held when that happens |
| EventHistory.LateRowIsReturnedBelow | indexer/crates/dusk-daemon/src/persist.rs:264-290 | A canonical row committed between two pages for an observation under the watermark is returned by a walk that goes on to its end if and only if it lies below the cursor |
| EventHistory.AWalkMissesAnEvent | indexer/crates/dusk-daemon/src/persist.rs:266-290 | Two events with keys as the indexer prints them, one repointed between two pages of one: the walk ends without it although it was canonical in every table read |
| MarketActivity.Basis | api/src/services/duskMarketActivity.ts:159-175 | The memoised basis of a row is the one projecting its own snapshot gives |
| MarketActivity.PageIsNext | api/src/services/duskMarketActivity.ts:153-157 | The rows past the last cursor, limited, are the next rows of the whole listing |
| MarketActivity.CountPage | api/src/services/duskMarketActivity.ts:158-194 | One page with its memo continues the memo-free fold, or throws exactly where it does |
| MarketActivity.Read | api/src/services/duskMarketActivity.ts:120-197 | For every page size the paged read with its memo is thrown exactly when some row cannot be valued, and else gives every figure as the sum of what the rows add, overall and market by market, exactly the rows' markets, and the slots of the first and the last row |
| MarketActivity.FoldReports | api/src/services/duskMarketActivity.ts:180-191 | The same of the unpaged fold, for any one figure and market |
| MarketActivity.RowIsValued | api/src/services/duskMarketActivity.ts:158-179 | A row is valued exactly when its basis, its snapshot's or else its market's, is projected, its event is of its market and its amounts have values at its own time |
| MarketActivity.GlobalIsSumOfMarkets | api/src/services/duskMarketActivity.ts:180-190 | Every global figure, per metric and for events and swaps, is the sum of the markets' figures |
| MarketActivity.WithheldTogether | api/src/services/duskMarketActivity.ts:76-82 | The overall observed dollars are withheld exactly when some market's are |
| Candles.ChartIsContinuous | api/src/controllers/swapController.ts:90-150 | Every candle is the least range around its open, close and trades; each opens at the close before it, bucket after bucket, to the end of the window; a quiet bucket repeats the close |
| Candles.ChartStarts | api/src/controllers/swapController.ts:104-132 | The chart starts at the window's first bucket with an earlier price, else at the first priced bucket, and is empty exactly with neither |
| Candles.ChartDepictsTrades | api/src/controllers/swapController.ts:90-150 | On the raw trades: the close carried in is the latest earlier price, each candle on the grid encloses exactly the priced trades of its own bucket, its extremes are reached and its close is a latest trade's or the one before it, and the chart is empty exactly when no trade up to its end has a price |
| Candles.VolumeIsPricedVolume | api/src/controllers/swapController.ts:92-128 | Candle volumes add up to the volume of the priced trades in the window |
| Candles.VolumeIsWhole | api/src/controllers/swapController.ts:92-103 | They add up to all trades' volume exactly when the unpriced trades carry none between them |
| Candles.EmptyReserveIsDropped | api/src/controllers/swapController.ts:101-102 | A trade with an empty reserve is charted nowhere, nor is its volume |
| Backfill.ReadPage | indexer/src/datasources.rs:527-541 | One page is read up to the first entry below the floor, keeping exactly the readable signatures |
| Backfill.Enumerate | indexer/src/datasources.rs:494-552 | Over any listings, up to any number of requests: it fails or is cancelled exactly at the first request made that is, and else lists what the requests made list; where every full page above the floor ends readable it ends, with exactly the signatures at or above the floor that existed at the first request, for any page size and while newer ones arrive |
| Backfill.GoesOnExactly | indexer/src/datasources.rs:494-552 | On a growing ledger whose full pages above the floor end readable, a request is made exactly when the pages before it were full and above the floor |
| Backfill.UnreadableEndRepeats | indexer/src/datasources.rs:543-546 | Once a full page above the floor ends on a signature that does not parse, on a ledger that stands still every request lists one of the same pages again |
| Backfill.RestartIsNeverExact | indexer/src/datasources.rs:543-552 | On a growing ledger a listing that started over and came to an end is never exactly what was owed |
| Backfill.ListsExactlyIff | indexer/src/datasources.rs:494-552 | On every growing ledger the listing comes to an end that is exactly what was owed if and only if no full page above the floor ends on a signature that does not parse |
| Backfill.Replay | indexer/src/datasources.rs:587-623 | What is sent is every decodable update in order up to a cancellation or a failed send |
| Backfill.ReplayIsChronological | indexer/src/datasources.rs:561-623 | The sent updates are a subsequence of the listing from older to newer, all at or above the floor |
| Backfill.NothingIsSkipped | indexer/src/datasources.rs:587-623 | Uninterrupted, every listed transaction that decodes is sent once |
| Backfill.Consume | indexer/src/datasources.rs:473-635 | The three phases together over any listings: the error of a request made, a listing cancelled at a request made, one still going on, or the replay of what was listed; without trouble and where full pages above the floor end readable, the replay of exactly the owed signatures |
| CanonicalJson.ThrowsExactlyOnUndefined | api/src/config/duskProtocol.ts:54-57 | Printing throws exactly on values holding undefined somewhere |
| CanonicalJson.TextRoundTrip | api/src/config/duskProtocol.ts:51-54 | A quoted string reads back to its code units, whatever follows |
| CanonicalJson.EscapedIsSpelled | api/src/config/duskProtocol.ts:51-54 | A string is written unit by unit, each in its one spelling: paired surrogates and plain units as they are, five short escapes, and four lower-case hexadecimal digits for other controls and lone surrogates |
| CanonicalJson.MembersAreWrittenAscending | api/src/config/duskProtocol.ts:47-52 | An object's members are written in ascending order of their keys' code units, whatever order they were given in |
| CanonicalJson.BracesAround | api/src/config/duskProtocol.ts:47-52 | An object is its members in ascending order, joined by commas, in braces |
| CanonicalJson.BracketsAround | api/src/config/duskProtocol.ts:46 | An array is its items' own texts in order, joined by commas, in brackets |
| TextOrder.FirstDifferenceDecides | api/src/config/duskProtocol.ts:49-50 | The order of keys is decided by the first code unit that differs, and a text comes before its extensions |
| CanonicalJson.CanonicalReadsBack | api/src/config/duskProtocol.ts:44-59 | A parser inverts the printer on every printable value, up to member order |
| CanonicalJson.CanonicalIsInjective | api/src/config/duskProtocol.ts:44-59 | Two values have the same text exactly when they are equal up to object member order |
| CanonicalJson.NonFiniteCollidesWithNull | api/src/config/duskProtocol.ts:54 | A non-finite number prints as null and so shares null's text |
| DeploymentIdentity.PreimageIsIdentity | api/src/services/duskDeploymentService.ts:53-80 | Two envelopes share the digest input exactly when they agree on every listed field |
| DeploymentIdentity.BoundHolds | api/src/services/duskDeploymentService.ts:57-77 | The digest input has nineteen members, each a listed field's value under that field's own name |
| LeverageSearch.SearchMaximum | api/src/services/duskLeverageMaximumEngine.ts:143-153 | For any evaluator the result is accepted and is the grid limit or has a rejected successor, within 15 readings |
| LeverageSearch.BoundaryIsMaximum | api/src/services/duskLeverageMaximumEngine.ts:143-153 | With upward-closed rejections that boundary is the unique greatest accepted value |
| LeverageSearch.SearchSize | api/src/services/duskLeverageMaximumEngine.ts:156-181 | The margin is within u64, its collateral or notional, as asked, reaches the target and its predecessor's does not, within 130 readings; non-convergence and a refusal without a rejection are unreachable |
| LeverageSearch.DoublingFits | api/src/services/duskLeverageMaximumEngine.ts:160-170 | Doubling a positive margin reaches the u64 cap in at most 64 steps, which bounds the readings |
| LeverageSearch.BoundaryIsMinimum | api/src/services/duskLeverageMaximumEngine.ts:156-181 | For a monotone evaluator that margin is the least that reaches the target |
| LeverageSearch.RefusalIsFinal | api/src/services/duskLeverageMaximumEngine.ts:160-178 | For a monotone evaluator with upward-closed rejections a refusal means no margin reaches the target |
| CashFlows.FlowReadsBack | api/src/services/duskLeverageCashFlows.ts:14-55 | A valid row's debit, credit and post-state, printed, are its own payload fields, per event kind |
| CashFlows.FlowIsItsFields | api/src/services/duskLeverageCashFlows.ts:14-55 | A row has a flow exactly when its payload's fields, printed, give it, field by field and per event kind |
| CashFlows.Accumulate | api/src/services/duskLeverageCashFlows.ts:40-58 | The loop gives up exactly when a row is invalid or a total exceeds u128, else holds the sums and the post-states of the highest slot |
| CashFlows.OverflowGivesUp | api/src/services/duskLeverageCashFlows.ts:53 | A running total overflows only if the whole total does |
| CashFlows.Fold | api/src/services/duskLeverageCashFlows.ts:30-64 | The fold equals the order-free closed form: one matching opening, valid rows, totals within u128 and a last state that is the account's |
| CashFlows.AvailableExactly | api/src/services/duskLeverageCashFlows.ts:30-64 | Totals are available if and only if exactly one of the position's rows is an opening, at the opened slot with the account's margin, every row has a flow, a row of the highest slot leaves the account's own collateral and debt, and the totals, these, fit u128 |
| CashFlows.ArrivalDoesNotMatter | api/src/services/duskLeverageCashFlows.ts:24-64 | The result depends only on which events of the position arrived, not on their order or on other events |
| CashFlows.StrangersDoNotMatter | api/src/services/duskLeverageCashFlows.ts:35 | An event of another position or an earlier life inserted anywhere changes nothing |
| EntryOrder.RoundingNeverTriggers | api/src/services/duskEntryOrderPreview.ts:42-69 | For all raw amounts, decimals and limits the rounded price triggers exactly when the exact ratio does |
| EntryOrder.PriceExists | api/src/services/duskEntryOrderPreview.ts:49-68 | A price is given exactly for valid raw amounts whose exact ratio rounds within u64 |
| EntryOrder.OtherRoundingTriggers | api/src/services/duskEntryOrderPreview.ts:66-67 | Rounded the other way, a concrete order would trigger below its limit |
| ActivityMath.ParsedOnce | api/src/services/duskActivityMath.ts:55-127 | A parsed event counts no metric twice, every amount is a u64, and a swap's four amounts are a consistent trade |
| ActivityMath.ParsesExactly | api/src/services/duskActivityMath.ts:55-127 | An event is parsed to something if and only if its own printed fields give it, field by field and per event kind: market, metadata, trade, credit, margin and interest |
| ActivityMath.SwapSource | api/src/services/duskActivityMath.ts:58-71 | Which events count as a swap under each volume source |
| ActivityMath.LateQuotesDoNotMatter | api/src/services/duskActivityMath.ts:151-173 | Quotes sourced or observed after the event, inserted anywhere, change no price |
| ActivityMath.LateQuotesNeverReprice | api/src/services/duskActivityMath.ts:151-211 | ... and so no value and no refusal of any event |
| ActivityMath.TimelyQuotePrices | api/src/services/duskActivityMath.ts:151-163 | When provider quotes for an asset are in time the first of them is its one price, with that quote's units, quality and observation |
| ActivityMath.StablecoinKeepsItsPeg | api/src/services/duskActivityMath.ts:145-170 | A stablecoin without a quote of its own keeps its captured price whatever the curve or the other asset's quotes say |
| ActivityMath.AsOfExactly | api/src/services/duskActivityMath.ts:151-173 | A basis at an event's time holds, for base and then quote, the first timely quote, else the curve over the other asset's price, else the captured prices; there is none exactly when one of them cannot be computed within range |
| ActivityMath.SwapReadsBack | api/src/services/duskActivityMath.ts:74-92 | The amounts of an accepted swap, printed, are the event's own fields, and its fee is the sum of the three printed parts |
| ActivityMath.MarginReadsBack | api/src/services/duskActivityMath.ts:98-116 | Turnover is the event's own collateral figure in the collateral asset, the side opposite a settlement's debt |
| ActivityMath.InterestReadsBack | api/src/services/duskActivityMath.ts:117-125 | Interest is the event's own printed figure, for a settlement that of its loss record, in the debt asset or on the side that funds a closed target |
| ActivityMath.TradeIsValuedByItsCash | api/src/services/duskActivityMath.ts:204-210 | A trade is valued from its priced stablecoin output when only that leg is a stablecoin, else from its input |
| ActivityMath.ValuesAreFromBefore | api/src/services/duskActivityMath.ts:178-211 | An accepted value from a snapshot or over a curve has that snapshot at an earlier slot and no later time |
| ActivityMath.ValuesExactly | api/src/services/duskActivityMath.ts:178-211 | Amounts have these values if and only if the event's slot and time are valid, its snapshot is from before, and each value is what its own legs' first quotes give, rounded down |
| ActivityMath.SwapFeesNest | api/src/services/duskActivityMath.ts:72-211 | For every accepted swap the retained and compounded dollars never exceed the fee's, and a positive part is unpriced exactly when the fee is |

## Left out

- Sockets, HTTP, Server-Sent Events headers, Postgres, Solana RPC, LiteSVM, Borsh: pages, tables, observations and the native evaluator are sequences, maps or functions.
- SHA-256: identity is stated on the digest's input.
- JSON and envelope validation inside the stream loops: an abstract check per frame at a fixed clock.
- The text of numbers in JSON: any text of number characters; which text a double prints is not modelled.
- The gateway's streams are modelled on values as a step system; only its shared observation is a class updated in place. The permits that bound the number of its streams are not modelled.
- The flag that `sink.close` is given is not modelled. A sink that throws is a sink that refuses; a `drain` that throws before its first await, or wakes again from inside, is not modelled.
- `ActivityTables.Drain` and `Worker` passes take the index as it is at each batch; event-time checks of a batch are one success or failure.
- MarketActivity.Read: the price projections and key syntax are parameters; coverage counts and the selection hash are not modelled.
- ActivityMath.LateQuotesDoNotMatter: USD text is an integer of 10^-36 dollars, since formatting is lossless.
- Candles.ChartIsContinuous: exact quotients instead of Postgres numeric rounding; of several trades at one instant the last in scan order closes the bucket, where the database may take any.
- Backfill.Enumerate: takes the number of requests to look at, since the program's loop has no bound and need not end; Backfill.Consume likewise.
- Backfill.ListsExactlyIff: a node that forgets the cursor's signature or reorders its listing; concurrency of the fetches, which keep their order.
- DedupBuffer.Listener.OnNotification: upper-casing of `op`, the floating-point price and reconnects.
- `buildSwapHistoryQuery`, the controllers' APR, TVL and ticker arithmetic, quote caches, portfolio valuation, capture services, rate limits, logging, HTML and SVG.
