# Dafny model of the train data platform

A model of the protocols and algorithms that carry passenger and alarm data from the train to the
operators, with proofs of what they guarantee and, where a stated guarantee does not hold, of exactly
when it does.

| file | what it models |
|---|---|
| `Keys.dfy` | the order every queue query uses (`timestamp`, then `event_id`), cursors, limits |
| `Collections.dfy`, `Reals.dfy` | lists of distinct keys, set sizes; products and quotients |
| `EventStore.dfy`, `Subscriptions.dfy` | event-store's events table: idempotent insert, filtered pages, replay; live subscriptions, register first, replay, then stream |
| `Queue.dfy` | cloud-sync's SQLite queue: rows, cursors, the contiguous published prefix |
| `SyncProtocol.dfy`, `SyncTheorems.dfy` | cloud-sync's three coroutines over one queue with crashes, appends and truncation, as a step system; what holds of every run |
| `Drain.dfy`, `Payloads.dfy` | how the queue empties; what its rows carry |
| `PullProgress.dfy`, `PullRuns.dfy`, `Truncation.dfy`, `SyncWitness.dfy` | how far the pull loop gets, alone and among the other coroutines; what truncation does to events not yet pulled; one run that loses events |
| `PullLoop.dfy`, `AckLoop.dfy`, `PublishLoop.dfy` | the code of the three coroutines between two awaits, proved against the steps |
| `Publisher.dfy` | the token bucket and the reconnect backoff |
| `Tripwire.dfy` | gangway crossing detection with a confidence gate and a bounded table |
| `Ledger.dfy`, `LedgerLaws.dfy`, `LedgerDrift.dfy`, `LedgerReports.dfy` | the closed passenger ledger, its conservation laws, its correction to the cameras, what its observations account for |
| `PassengerFlow.dfy`, `DeliveryOrder.dfy` | tripwire and ledger together; events that arrive in any order |
| `ZoneCounter.dfy`, `Hysteresis.dfy` | per-car occupancy: in-flight guard; threshold events against an automaton |
| `Escalation.dfy`, `IngestEffects.dfy` | ingest, escalation transitions and the audit log; what a committed batch leaves behind |
| `EscalationRuns.dfy`, `EscalationHistory.dfy` | interleavings of the requests and their lifecycle frames; which escalations and audit rows exist |
| `Thresholds.dfy` | the generation-counted threshold cache |
| `SnmpPoller.dfy` | SNMP alarm transitions with failing emits |
| `Geometry.dfy`, `GeometryLaws.dfy`, `ConvexZones.dfy` | ray casting with an edge tolerance, intersection over union; which points a convex zone accepts |

Code that updates objects in place is a class whose methods are proved equal to a function of the old
state; the laws are lemmas about those functions. Concurrency is a step system: a step is what one
coroutine does between two awaits, a committed database statement sequence, an environment action, or
a crash that forgets the coroutines and keeps the tables. Every sequence of steps is a run; steps that
are not enabled are skipped.

## Hypotheses

- Event ids, track ids and alarm ids are integers, and so are timestamps; only their order matters.
- An SQLite statement sequence up to its commit does not fail and is atomic; so is a guarded update with its audit insert.
- `late` names the events appended with a key below one that is in the queue, has been, or is in the page in hand. Appends come in any order; a result that does not hold of late events excepts them by name.
- A publish that fails on the client side counts as not PUBACKed, and an alarm emit that raises counts as not accepted, even if the far side took it.
- Clocks do not go back. Times and confidences are exact reals.

## Where the code and its descriptions differ

The code is what is modelled; each difference is a lemma below.

- event-store derives `next_cursor` before withholding so that cloud-sync cannot stall on a gap (event-store/src/event_store/routes/events.py:119-123), but the pull loop only tests it for None and moves its cursor by the data it can use: an event is reached exactly when no page worth of consecutive rows that cannot be used lies before it (`QueuedIff`, `QueuedInRunIff`, `CatchesUpIff`, `StallsBehindOneWithheldEvent`).
- Acknowledging a cursor truncates by journey and looks at no cursor (event-store/src/event_store/sync/cursor.py:22-44). An event not yet pulled is delivered afterwards exactly when its journey is kept, the event the pull cursor names is kept, and nothing blocks it; otherwise it can be lost for good, also an event of a kept journey (`TruncationDeliversIff`, `TruncationDeliversInRunIff`, `TruncationLosesNothingIff`, `LostForGood`, `TruncationLosesUnpulledEvents`).
- The ack loop deletes a row only in the tick that acknowledges it. A crash between the two writes (cloud-sync/src/cloud_sync/ack_loop.py:108-109) leaves the rows acknowledged, and later ticks return early (cloud-sync/src/cloud_sync/ack_loop.py:70-71), so they stay until the published prefix ends in another row (`AckCrashLeavesRows`, `QueueEmptiesIff`).
- The rate limit's design (_bmad-output/implementation-artifacts/4-cs1-cloud-sync-container.md:51) asks for at most `rate` publishes in any rolling second; a bucket with more than one token in hand grants more (`RollingSecondIff`, `ThreeInHalfASecond`).
- The publisher's description (cloud-sync/src/cloud_sync/mqtt_client.py:7-10 and 273-276) resets the backoff on the first successful publish; the code does so only after 30 s of uptime (`FirstPublishResetIff`).
- The tripwire's description (inference/src/inference/tripwire.py:298-299) puts a centroid on the line on the "to" side; the code puts it on the "from" side (`VerticalLineIff`).
- "Bucket 0 means within threshold" (fusion/src/fusion/ledger.py:219) holds exactly for narrow buckets, and a silent drift check means an unchanged bucket, not a small drift (`BucketZeroIsWithinThresholdIff`, `SilenceMeansWithinThresholdIff`, `SilentDrift`).
- Wagon events carry a direction that the ledger ignores: a passenger who walks back is counted forward twice (`CountsFollowPassengerIff`, `ThereAndBack`). An exit that arrives while an earlier one of its track still waits is dropped, so the order in which the two cameras' events arrive matters from two forward crossings of a track on (`CountIsExactIff`, `OrderIsIrrelevantIff`, `SecondExitDropped`).
- A failed occupancy POST skips the threshold check of that update (`FailedPostSwallowsCrossingIff`); the crossing may come late or not at all (`SwallowedThenLate`).
- An alert is fanned out while its ingest transaction is still open, and survives a rollback (`AlertsAreBackedIff`, `AlertWithoutEvent`). Lifecycle frames go out after the commit and can overtake each other (`PanelConvergesIff`).
- An alarm may be CLEARED twice in a row (`UnpairedClearIff`, `ClearedTwice`), and after a restart of the poller be ACTIVE twice in a row or stay on (`DoubleActiveIff`, `StaleAfterRestartIff`).

## Model

| member | source | states |
|---|---|---|
| Keys.AfterCursor | event-store/src/event_store/database.py:104-117 | keeping the rows above the n-th listed one drops exactly the first n + 1 of the listing |
| Keys.DescIsReversedAsc | event-store/src/event_store/database.py:238-263 | the descending listing is the ascending one backwards |
| EventStore.Database.InsertEvent | event-store/src/event_store/database.py:50-73 | an event is stored unless its id or its (journey, type, timestamp) is taken or its version is unsupported; nothing else changes |
| EventStore.Database.BuildFilterClauses | event-store/src/event_store/database.py:89-139 | the conjunction built by appending clauses selects exactly the events the request asks for, severities told by name; it refuses exactly unknown cursors and severities |
| EventStore.Database.GetEventsPage | event-store/src/event_store/database.py:142-185 | a page is the first `limit` wanted events in key order, with the refusals in the order they are made |
| EventStore.Database.GetFilteredEventsForReplay | event-store/src/event_store/database.py:188-263 | the replay query returns the last `limit` elements of the ascending listing under the coach filter, nothing when SQLite cannot run it, and refuses exactly an empty coach list and an unknown severity |
| EventStore.SeverityFilterByName | event-store/src/event_store/database.py:24-34 | with "critical" a read keeps exactly the critical events of the same read without the filter, with "warning" the warnings and criticals, with "info" the three known severities and no other |
| EventStore.AcceptedFilters | event-store/src/event_store/database.py:128-137 | a read is refused for its severity exactly when nothing else refuses it and the filter is neither unset, empty, nor one of the three names |
| EventStore.PageIsChronological | event-store/src/event_store/database.py:142-185 | a page holds wanted events in order of time, ties by id; a wanted event is missing only from a full page, all of which comes before it |
| EventStore.ReplayKeys | event-store/src/event_store/database.py:238-263 | DESC, LIMIT, reverse equals the tail of ASC, for every row set and limit |
| EventStore.NextListing | event-store/src/event_store/database.py:104-117 | restarting from the n-th listed event lists exactly what came after it, and fewer rows remain |
| EventStore.CrawlIsLossless | event-store/src/event_store/database.py:142-185 | following last-id cursors ends, and the pages concatenate to the whole filtered listing without gap or repeat, all but the last of them full |
| Subscriptions.ReplayMirrorsLiveIff | shared/src/oebb_shared/ws/subscription.py:13-33 | of the subscriptions whose replay runs, the replay passes the same events as the live filter exactly for those with a type and a severity |
| Subscriptions.ReplayIsTailOfLive | event-store/src/event_store/websocket/handler.py:76-117 | for every subscription the handler accepts the replay lists the stored events the live path would have sent |
| Subscriptions.SentOnce | event-store/src/event_store/websocket/handler.py:39-54 | however storing, broadcasting, replaying and writing interleave, no event is sent twice, only stored matching ones are, and each one replayed or broadcast to the subscriber is sent, queued, or met a full queue |
| Subscriptions.NothingIsMissed | event-store/src/event_store/websocket/handler.py:167-180 | after a replay deep enough for what was stored, once everything is broadcast and written, every matching event has been sent but for those that met a full queue |
| Queue.PrefixIsSafe | cloud-sync/src/cloud_sync/db.py:162-212 | the prefix id names a row with every row at or below it published; there is none exactly when the queue is empty or its first row pending |
| Queue.TwoQueriesRefineWalk | cloud-sync/src/cloud_sync/db.py:162-212 | for every queue the two queries return what a walk in key order to the first pending row returns |
| Queue.Connection.ContiguousPublishedPrefix | cloud-sync/src/cloud_sync/db.py:162-212 | the method with the two queries meets the walk specification |
| Queue.Connection.EnqueueEvent | cloud-sync/src/cloud_sync/db.py:48-71 | inserts a pending row unless the id is there, and says which |
| Queue.Connection.DeleteUpTo | cloud-sync/src/cloud_sync/db.py:215-237 | removes exactly the published rows at or below the given row, nothing when that row is gone, and returns how many they were |
| Queue.DeleteAckedTwice | cloud-sync/src/cloud_sync/db.py:215-237 | deletion is idempotent and never removes a pending row |
| Queue.DeletesThePrefix | cloud-sync/src/cloud_sync/db.py:215-237 | afterwards the queue holds, unchanged, exactly the pending rows and the rows published past the acknowledged one; an id that is not queued removes nothing |
| Queue.FailureIsCounted | cloud-sync/src/cloud_sync/db.py:97-108 | a failed publish adds one attempt and the newest error and changes nothing else |
| PullLoop.LastWellFormedEventId | cloud-sync/src/cloud_sync/pull_loop.py:41-51 | finds the last envelope with all required keys, if there is one |
| PullLoop.HandlePage | cloud-sync/src/cloud_sync/pull_loop.py:76-100 | enqueues the well-formed envelopes and then moves the cursor, as the step system's pull step does |
| PullLoop.PullOnce | cloud-sync/src/cloud_sync/pull_loop.py:63-100 | one iteration against a store that answers: unchanged when the cursor is refused, otherwise the page above the cursor absorbed |
| PullLoop.AnonymisePage | event-store/src/event_store/egress_privacy.py:35-44 | the egress loop drops withheld rows and keeps the order |
| AckLoop.TickBegin | cloud-sync/src/cloud_sync/ack_loop.py:66-71 | a cursor is sent exactly when the prefix exists and differs from the acknowledged one |
| AckLoop.TickEnd | cloud-sync/src/cloud_sync/ack_loop.py:74-110 | on success or drift the cursor is set and exactly the published rows up to it deleted; on failure nothing changes; pending rows are always kept |
| Drain.AckClearsThePrefix | cloud-sync/src/cloud_sync/ack_loop.py:66-109 | an acknowledgement of the cursor just sent uses the published prefix up: pending rows and rows published past one stay, and there is nothing left to acknowledge |
| Drain.RoundPublishesTheOldest | cloud-sync/src/cloud_sync/mqtt_client.py:219-261 | a round the broker takes publishes exactly the oldest pending rows up to the limit, and changes nothing else in the queue |
| Drain.QueueEmptiesIff | cloud-sync/src/cloud_sync/ack_loop.py:66-109 | with nothing more pulled, as many rounds as there are pending rows and one acknowledgement empty the queue exactly unless its newest row is already called acknowledged |
| Drain.AckCrashLeavesRows | cloud-sync/src/cloud_sync/ack_loop.py:70-109 | a crash between the cursor write and the deletion brings that about |
| PublishLoop.DrainBatch | cloud-sync/src/cloud_sync/mqtt_client.py:219-261 | one pass over a batch does to the tables what the corresponding publisher steps do, marks only PUBACKed rows, in order, and ends at the first failure or stop |
| SyncProtocol.NextKeeps | cloud-sync/src/cloud_sync/pull_loop.py:63-100 | every step of every coroutine, crash and environment action keeps the protocol invariant |
| SyncProtocol.RunKeeps | cloud-sync/src/cloud_sync/ack_loop.py:39-57 | so does every run |
| SyncProtocol.AckSendIsSafe | cloud-sync/src/cloud_sync/ack_loop.py:66-75 | in a state of the invariant the cursor about to be sent covers only delivered, late or already truncated events |
| SyncTheorems.NoLoss | cloud-sync/src/cloud_sync/db.py:48-94 | in every reachable state each event ever enqueued is a pending row or was PUBACKed, and a published row was PUBACKed |
| Payloads.QueueIsGenuine | cloud-sync/src/cloud_sync/pull_loop.py:76-94 | in every reachable state each queued row carries the timestamp and the redacted payload of its own event |
| SyncTheorems.AckSafety | cloud-sync/src/cloud_sync/ack_loop.py:66-109 | whenever there is a cursor to send, every forwardable event at or below it has been PUBACKed, unless it was appended below one already pulled or truncated before it was pulled |
| SyncTheorems.AckStaysSafe | cloud-sync/src/cloud_sync/ack_loop.py:66-109 | and it remains so whatever happens afterwards |
| SyncTheorems.PubacksAscend | cloud-sync/src/cloud_sync/db.py:74-86 | first PUBACKs come in ascending key order, late events apart, in every run, crashes included |
| SyncTheorems.InOrderRuns | cloud-sync/src/cloud_sync/ack_loop.py:66-109 | when every append is above all earlier ones nothing is late: first PUBACKs ascend and the acknowledged prefix is PUBACKed without the late exception |
| SyncTheorems.PassedIsNeverPulled | cloud-sync/src/cloud_sync/pull_loop.py:63-100 | an event below the cursor that is not queued never will be: what the late exception means |
| Truncation.TruncatedIsLost | event-store/src/event_store/sync/cursor.py:22-44 | an unpulled event that leaves the store is never queued or published in any continuation |
| Truncation.LostForGood | event-store/src/event_store/sync/cursor.py:22-44 | an unpulled event is never published in any continuation when its journey is dropped, or when neither the pull cursor's event nor the one the page in hand leads to is kept |
| Truncation.TruncationDeliversIff | event-store/src/event_store/sync/cursor.py:22-44 | after the truncation the pull loop, its page in hand committed or forgotten by a crash, queues a waiting event exactly when its journey and the cursor's event are kept and no page worth of unusable kept rows lies before it |
| Truncation.TruncationDeliversInRunIff | event-store/src/event_store/sync/cursor.py:22-44 | the same over every such run after the truncation |
| Truncation.TruncationLosesNothingIff | event-store/src/event_store/sync/cursor.py:22-44 | every waiting event is queued after the truncation exactly when all are kept and free and, if there is one, the cursor's event is kept |
| Truncation.TruncatedCursorFreezesPull | event-store/src/event_store/database.py:104-117 | once the pulled cursor's event is truncated, no run enqueues anything again |
| PullProgress.RoundsConsume | cloud-sync/src/cloud_sync/pull_loop.py:63-100 | n rounds consume exactly the computed number of rows ahead and queue exactly the usable ones among them |
| PullProgress.QueuedIff | cloud-sync/src/cloud_sync/pull_loop.py:96-109 | left alone the pull loop queues a forwardable event ahead exactly when no page worth of consecutive unusable rows lies before it |
| PullRuns.QueuedInRunIff | cloud-sync/src/cloud_sync/pull_loop.py:63-109 | the same over every run in which publisher steps, acknowledgements and appends on top interleave and enough pages are committed |
| PullProgress.CatchesUpIff | cloud-sync/src/cloud_sync/pull_loop.py:96-109 | and forwards everything ahead exactly when there is no such gap |
| PullProgress.StallsBehindOneWithheldEvent | event-store/src/event_store/routes/events.py:119-123 | a store of two events, the first withheld, and pages of one: the second is never queued |
| SyncWitness.TruncationLosesUnpulledEvents | event-store/src/event_store/routes/sync.py:90-94 | a concrete in-order run after which four forwardable events, three of them of kept journeys and still stored, are never published in any continuation |
| Publisher.TokenBucket.TryAcquire | cloud-sync/src/cloud_sync/mqtt_client.py:125-139 | one turn of the loop: the new bucket, whether a token was taken, and a sleep after which exactly one token is there |
| Publisher.WindowBound | cloud-sync/src/cloud_sync/mqtt_client.py:110-139 | for any callers and any clock, grants in a window number at most rate times its length plus rate |
| Publisher.RollingSecondIff | cloud-sync/src/cloud_sync/mqtt_client.py:125-139 | every continuation grants at most `rate` in the coming second, its end not included, exactly when at most one token is in hand |
| Publisher.ThreeInHalfASecond | cloud-sync/src/cloud_sync/mqtt_client.py:117-139 | a full bucket of two per second grants three within half a second |
| Publisher.SleeperIsServed | cloud-sync/src/cloud_sync/mqtt_client.py:136-139 | a sole caller that sleeps the computed wait is granted on its next pass |
| Publisher.MqttPublisher.OnDisconnect | cloud-sync/src/cloud_sync/mqtt_client.py:293-307 | the wait and the attempt counter after a broken session |
| Publisher.FlappingEscalates | cloud-sync/src/cloud_sync/mqtt_client.py:142-171 | sessions shorter than 30 s never lower the next wait, and after five of them it is the maximum |
| Publisher.WaitsFollowSchedule | cloud-sync/src/cloud_sync/mqtt_client.py:142-171 | the waits of a run are 1, 2, 5, 10, 30, 60, 60, ... seconds, started over by every session of at least 30 s |
| Tripwire.TripwireHandler.HandleDetection | inference/src/inference/tripwire.py:180-288 | the new side table and the event, if any, of one detection |
| Tripwire.TableIsLru | inference/src/inference/tripwire.py:196-219 | along every run the table holds at most 2000 tracks in order of last write |
| Tripwire.FullTableDropsOldest | inference/src/inference/tripwire.py:312-319 | a new track in a full table drops exactly the 500 tracks not written for longest and keeps the sides of the others |
| Tripwire.DroppedOnlyWhenStale | inference/src/inference/tripwire.py:312-319 | a track is dropped only when at least 1501 other tracks were written since its own last write |
| Tripwire.CrossingsAreConfidentChanges | inference/src/inference/tripwire.py:191-227 | whatever other tracks do, the crossings of a track that is not evicted are the side changes of its confident frames |
| Tripwire.UncrowdedIsNeverEvicted | inference/src/inference/tripwire.py:312-319 | a track is not evicted while fewer than 1501 other tracks are detected since its last confident detection |
| Tripwire.UncrowdedTrackIsDebounced | inference/src/inference/tripwire.py:191-227 | so its crossings, from an empty table, are the side changes of its confident frames, with the hypothesis told from the detections |
| Tripwire.EventsTellCrossings | inference/src/inference/tripwire.py:219-262 | and its events are, one for one, those changes: exits or entries by the camera's zone, with their direction, an exit an expected orphan exactly when it goes back |
| Tripwire.TraversalsAlternate | inference/src/inference/tripwire.py:221-227 | traversals alternate, and their balance is the last side minus the first |
| Tripwire.SideOfOffset | inference/src/inference/tripwire.py:291-310 | for every line a centroid's side is the sign of its offset across the line, wherever along it, and further vertices do not matter |
| Ledger.CoachLedger.constructor | fusion/src/fusion/ledger.py:152-175 | a restart keeps the counts and zeroes positive unreconciled exits, in memory and in the table |
| Ledger.CoachLedger.OnWagonExit | fusion/src/fusion/ledger.py:248-329 | the state after an exit: redacted, duplicate, expected orphan or pending |
| Ledger.CoachLedger.OnWagonEntry | fusion/src/fusion/ledger.py:331-388 | the state after an entry, matched or orphan |
| Ledger.CoachLedger.HandlePendingTimeout | fusion/src/fusion/ledger.py:390-409 | a timeout pops whatever is pending for its track and touches no count |
| Ledger.CoachLedger.CheckDriftOf | fusion/src/fusion/ledger.py:411-482 | the correction and the observation of one drift check, which `ReportIsConsistent` tells from the count before it |
| LedgerLaws.LedgerIsConserved | fusion/src/fusion/ledger.py:248-482 | over any run the total is the starting total plus corrections and orphan entries, minus expected orphans, pending and timed-out exits; unreconciled exits are pending plus timed out per coach; the table mirrors memory |
| LedgerLaws.BooksBalance | fusion/src/fusion/ledger.py:248-482 | the same from any state whose books balance |
| LedgerLaws.GuardHolds | fusion/src/fusion/ledger.py:368-379 | the test for a positive counter before it is decremented never fails |
| LedgerLaws.RestartRestores | fusion/src/fusion/ledger.py:152-175 | a restart keeps every count, zeroes every unreconciled counter and re-establishes the accounts |
| LedgerLaws.MatchedPairMovesOne | fusion/src/fusion/ledger.py:248-388 | a matched exit and entry move one passenger and nothing else; a repeated pending exit changes nothing |
| LedgerDrift.DriftIsBounded | fusion/src/fusion/ledger.py:429-482 | after a check of a seen coach the ledger is within the threshold or the last bucket's span, and equal to the camera on an observation |
| LedgerDrift.ObservationsChangeBucket | fusion/src/fusion/ledger.py:445-450 | adjacent observations of a coach never share a bucket, whatever happens between them short of a restart |
| LedgerDrift.ObservationsAcrossRestarts | fusion/src/fusion/ledger.py:445-450 | over runs with restarts an observation differs from the one before it, and right after a restart it is of a bucket other than 0 |
| LedgerDrift.AtMostTwoObservations | fusion/src/fusion/ledger.py:445-482 | over any run without wagon events, with other coaches' checks, timeouts, new rows and restarts, a constant camera count is reported at most twice |
| LedgerDrift.SilenceLasts | fusion/src/fusion/ledger.py:445-447 | over any such run one silent check against the count means silence for ever |
| LedgerDrift.OnlyDriftsAreReported | fusion/src/fusion/ledger.py:439-450 | in every reachable state a last bucket other than 0 came from a drift above the threshold |
| LedgerDrift.BucketZeroIsWithinThresholdIff | fusion/src/fusion/ledger.py:218-223 | bucket 0 means within threshold exactly when the bucket size is at most the threshold plus one |
| LedgerDrift.SilenceMeansWithinThresholdIff | fusion/src/fusion/ledger.py:439-447 | over all camera counts, which are not negative, silence means within threshold exactly when the row's count and last bucket leave none to be overlooked |
| LedgerDrift.SilentDrift | fusion/src/fusion/ledger.py:439-447 | a ledger of 20 overlooks a camera count of 16 with threshold 2 and bucket size 5 |
| Ledger.ReportIsConsistent | fusion/src/fusion/ledger.py:449-482 | an observation is made exactly on a bucket change; it names the coach, threshold and approach of the check, the camera's count, and the coach's count before the check, or after it when the drift cleared; its difference is that of the two, and the row then equals the camera |
| LedgerReports.ReportsExplainCorrections | fusion/src/fusion/ledger.py:449-482 | between restarts the corrections are the negated sum of the reported differences, plus what drifts that cleared were off by |
| LedgerReports.TotalFollowsReports | fusion/src/fusion/ledger.py:248-482 | so the total of the counts can be told from the starting total, the observations and the wagon events |
| LedgerReports.SeenIff | fusion/src/fusion/ledger.py:272-275 | drift is checked of exactly the coaches that a wagon event, not redacted, has named on either side since the last restart |
| LedgerReports.ReconciledIsLastEntry | fusion/src/fusion/ledger.py:354-375 | a coach's reconciliation time is that of the last entry into it, across restarts, and of nothing else |
| PassengerFlow.EveryCrossingMovesForward | fusion/src/fusion/ledger.py:248-388 | n crossings, each reported as exit and then entry, take n from the one coach and add n to the other, whatever their direction, and touch nothing else |
| DeliveryOrder.CountsFollowMessages | fusion/src/fusion/ledger.py:248-409 | wagon events and timeouts of any tracks in any order move a coach's count by arrivals less departures, except for dropped exits, and an exit is pending exactly when the last of its track's messages left it waiting |
| DeliveryOrder.CountIsExactIff | fusion/src/fusion/ledger.py:276-290 | for one order of arrival a coach's count moves by exactly arrivals less departures when no exit from it is dropped as a duplicate in that order, and only then |
| DeliveryOrder.OrderIsIrrelevantIff | fusion/src/fusion/ledger.py:276-290 | all interleavings of the two cameras' events leave the near coach with the same count exactly when no crossing is forward, or exactly one is and the track has no exit waiting before |
| DeliveryOrder.AnyMergeMovesForwardIff | fusion/src/fusion/ledger.py:248-388 | for every interleaving of the two cameras' events n crossings add n to the far coach, and take n from the near one exactly when no exit comes while an earlier one waits |
| DeliveryOrder.CountsFollowPassengerIff | inference/src/inference/tripwire.py:221-288 | for every such interleaving the far coach's count follows a passenger exactly when that passenger never crosses back |
| DeliveryOrder.ThereAndBack | inference/src/inference/tripwire.py:221-288 | there and back adds two to the far coach |
| DeliveryOrder.SecondExitDropped | fusion/src/fusion/ledger.py:276-290 | two exits before the first entry: the second is dropped |
| ZoneCounter.Counter.BeginUpdate | inference/src/inference/zone_counter.py:130-167 | an update is accepted exactly when its car is known, idle and a second has passed; then the count is the number of distinct person tracks |
| ZoneCounter.Counter.CheckThreshold | inference/src/inference/zone_counter.py:237-262 | rising fires exactly on passing the threshold share of the capacity plus the deadband from below, falling on reaching it less the deadband from above, unless the last direction committed is the same; what fires is committed |
| ZoneCounter.UpdatesAreSequential | inference/src/inference/zone_counter.py:140-193 | every interleaving leaves each car where its accepted updates applied one after the other would |
| ZoneCounter.InFlightExclusion | inference/src/inference/zone_counter.py:140-193 | one update per car in flight, its count untouched while posted, updates a second apart, each `prev` the previously accepted count |
| ZoneCounter.StartAcceptedIff | inference/src/inference/zone_counter.py:140-167 | in every run an update is accepted exactly when none of its car is running and a second has passed since the last accepted one |
| ZoneCounter.PersonTracksStep | inference/src/inference/zone_counter.py:153-162 | one more detection counts exactly if it is of a person with a track id not counted yet |
| Hysteresis.EventsOfTrace | inference/src/inference/zone_counter.py:237-262 | the events of a sequential run, cut anywhere, are those before the cut and those from the state reached |
| Hysteresis.RefinesAutomaton | inference/src/inference/zone_counter.py:237-262 | after the first crossing, with successful POSTs, the events are those of a two-level automaton that looks at the new count only |
| Hysteresis.FailedPostSwallowsCrossingIff | inference/src/inference/zone_counter.py:171-173 | for any updates and any failures the counter does at each update what the automaton does exactly when the automaton trips at none of the failed ones |
| Hysteresis.AlignedEvents | inference/src/inference/zone_counter.py:237-262 | the traces aligned with the updates carry the events of the counter and of the automaton |
| Hysteresis.SwallowedThenLate | inference/src/inference/zone_counter.py:171-173 | a swallowed rise that is committed two updates late |
| Hysteresis.DirectionsAlternate | inference/src/inference/zone_counter.py:246-262 | committed directions alternate, whatever POSTs fail |
| Hysteresis.EventsAreApart | inference/src/inference/zone_counter.py:237-262 | consecutive events are at least two deadbands of people apart, whatever POSTs fail |
| Hysteresis.DeliveredAlternateIff | inference/src/inference/zone_counter.py:246-290 | delivered directions alternate exactly when every run of lost events between two deliveries is even |
| Escalation.Decide | cloud-backend/src/cloud_backend/routes/escalations.py:71-204 | the answer to every request by the status it read: not found, conflict, unprocessable, reported, nothing to do, or on to its write |
| Escalation.Backend.IngestEvents | cloud-backend/src/cloud_backend/routes/ingest.py:41-195 | one transaction per batch: all of it or nothing; the alerts sent by then stay sent; `CommittedBatchEscalates` and `CommittedBatchReplies` tell its effect from the request |
| Escalation.Backend.GuardedWrite | cloud-backend/src/cloud_backend/routes/escalations.py:76-98 | the row and its audit entry change together, or neither |
| Escalation.EveryEventIsAccountedFor | cloud-backend/src/cloud_backend/routes/ingest.py:49-113 | accepted plus duplicates is the number of supported events |
| Escalation.CommitsIff | cloud-backend/src/cloud_backend/routes/ingest.py:84-113 | a batch commits exactly when no new event's id is stored or that of an earlier new event; new means that no stored or earlier supported event has its natural key |
| IngestEffects.CommittedBatchEscalates | cloud-backend/src/cloud_backend/routes/ingest.py:115-177 | after a committed batch an escalation exists exactly if it did or a new event raised a complete alert under its id; new ones are unacknowledged with exactly one audit row more, `raised`, the others unchanged |
| IngestEffects.CommittedBatchReplies | cloud-backend/src/cloud_backend/routes/ingest.py:49-195 | the reply counts the new events and names the other supported ones in order, alerts go out in order, and exactly the new events are stored |
| Escalation.AlertsAreBackedIff | cloud-backend/src/cloud_backend/routes/ingest.py:178-194 | every alert sent is backed by a stored event exactly when the batch has no such clash or no new event before the first one is of an alert class |
| Escalation.AlertWithoutEvent | cloud-backend/src/cloud_backend/routes/ingest.py:178-194 | a batch of two events whose alert is sent and nothing is stored |
| Escalation.LanguageIsReplay | cloud-backend/src/cloud_backend/services/escalation_audit.py:1-15 | the logs that lead to a status are exactly those of the history language ending in it |
| EscalationRuns.HistoryLanguage | cloud-backend/src/cloud_backend/services/escalation_audit.py:64-144 | after any interleaving every audit log is raised, dismissed*, then acknowledged and resolved as far as the status says, and the status is a function of the log |
| EscalationHistory.EscalatedIff | cloud-backend/src/cloud_backend/routes/ingest.py:115-177 | under any interleaving an escalation exists exactly if a committed batch had a new, complete alert under its id |
| EscalationHistory.RowsAreTransitions | cloud-backend/src/cloud_backend/services/escalation_audit.py:64-144 | an audit log has one `raised` row and exactly as many rows of each other kind as commits carried that transition out, dismissals included |
| EscalationRuns.NothingAfterAcknowledge | cloud-backend/src/cloud_backend/services/escalation_audit.py:117-121 | after an acknowledged row comes at most one row, the resolved one: never a dismissal |
| EscalationRuns.ReplyIsTrue | cloud-backend/src/cloud_backend/routes/escalations.py:75-107 | the status that a request reports after its commit has been reached, whoever wrote in between; a reported resolve is the status, a reported acknowledge may be past |
| EscalationRuns.FramesAreOneToOne | cloud-backend/src/cloud_backend/routes/escalations.py:91-100 | each acknowledged and each resolved transition has exactly one frame: sent, owed or lost |
| EscalationRuns.OnlyLifecycleFrames | cloud-backend/src/cloud_backend/routes/escalations.py:37-52 | no other frame is ever sent |
| EscalationRuns.FrameOrder | cloud-backend/src/cloud_backend/routes/escalations.py:98-100 | the orders in which an escalation's frames can go out, and the overtaking that explains a swap |
| EscalationRuns.PanelConvergesIff | cloud-backend/src/cloud_backend/routes/escalations.py:37-52 | once its frames are out, other panels show an escalation's status exactly when the resolving request did not send its frame between the acknowledging request's commit and that request's frame |
| Thresholds.ThresholdStore.Fill | cloud-backend/src/cloud_backend/config/confidence_thresholds.py:96-109 | the loop's result is, per key, the last usable row or the default |
| Thresholds.ThresholdStore.FinishLoad | cloud-backend/src/cloud_backend/config/confidence_thresholds.py:110-118 | an overtaken snapshot is returned but left stale |
| Thresholds.ReadIsFailSafe | cloud-backend/src/cloud_backend/config/confidence_thresholds.py:38-53 | whatever the table holds: the default classes, values in [0, 1], a floor in (0, 1] |
| Thresholds.ReadHonours | cloud-backend/src/cloud_backend/config/confidence_thresholds.py:38-109 | a class has the value of its last row within [0, 1], the floor that of its last row within (0, 1], and what no such row sets has its default |
| Thresholds.NextKeeps | cloud-backend/src/cloud_backend/config/confidence_thresholds.py:80-118 | a trusted cache was read after the last invalidate, through every step |
| Thresholds.LoadsAreCoherent | cloud-backend/src/cloud_backend/config/confidence_thresholds.py:84-118 | in every interleaving from start-up a load that starts after an invalidate returns a version no older than the one announced, a cached reply younger than the TTL, and a fail-safe one |
| Thresholds.CacheIsUsed | cloud-backend/src/cloud_backend/config/confidence_thresholds.py:84-95 | an answer that was not overtaken is given to every load that starts within the TTL, without a query, until the next answer or invalidate; an overtaken one is not |
| Thresholds.AnswerIsTrustedIff | cloud-backend/src/cloud_backend/config/confidence_thresholds.py:110-118 | an answer is cached exactly when nothing was invalidated since its query began |
| SnmpPoller.Poller.ProcessAlarms | vlan-pollers/src/vlan_pollers/snmp_poller.py:120-169 | the table of remembered alarms and the accepted events after a poll with any outcomes, cut short or not |
| SnmpPoller.NoDoubleActive | vlan-pollers/src/vlan_pollers/snmp_poller.py:126-162 | over any polls of one life an alarm is remembered as active exactly when its last accepted event is ACTIVE, and two ACTIVEs always have a CLEARED between them |
| SnmpPoller.DoubleActiveIff | vlan-pollers/src/vlan_pollers/snmp_poller.py:57-58 | over polls and restarts an ACTIVE meets an ACTIVE exactly when an alarm left on in an earlier life, with no event in this one, is accepted as active |
| SnmpPoller.EachLifeAlternates | vlan-pollers/src/vlan_pollers/snmp_poller.py:126-162 | within one life of the poller two ACTIVEs have a CLEARED between them |
| SnmpPoller.StaleAfterRestartIff | vlan-pollers/src/vlan_pollers/snmp_poller.py:150-162 | after a whole poll without failing emits, in any life, the event log and the table agree on an alarm unless it was left on in an earlier life and had no event in this one, and only then do they not |
| SnmpPoller.LogMatchesTableIff | vlan-pollers/src/vlan_pollers/snmp_poller.py:131-169 | after a whole poll the event log and the table agree on an alarm exactly when the emit for its last row, or for its vanishing, was accepted or not needed |
| SnmpPoller.CleanPollSynchronises | vlan-pollers/src/vlan_pollers/snmp_poller.py:120-169 | one poll without failing emits repairs whatever earlier failures left |
| SnmpPoller.CutShort | vlan-pollers/src/vlan_pollers/snmp_poller.py:120-147 | a poll that an exception ends has decided exactly about the alarms of the rows handled by then, each by its last such row; the others keep their events and memory |
| SnmpPoller.UnpairedClearIff | vlan-pollers/src/vlan_pollers/snmp_poller.py:129-136 | a row clears an alarm that is not on exactly when it is inactive, accepted and the poller has no memory of it |
| SnmpPoller.ClearedTwice | vlan-pollers/src/vlan_pollers/snmp_poller.py:150-162 | three polls after which an alarm's events are ACTIVE, CLEARED, CLEARED |
| Geometry.PointInPolygon | inference/src/inference/callback.py:66-93 | the loops decide edge contact and the parity of crossings over the closed chain |
| GeometryLaws.RotationInvariant | inference/src/inference/callback.py:66-93 | membership does not depend on the vertex the list starts with |
| GeometryLaws.ReversalInvariant | inference/src/inference/callback.py:66-93 | nor on the direction the vertices run |
| GeometryLaws.EdgePointIsInsideIff | inference/src/inference/callback.py:66-83 | a point of an edge is inside exactly when there are at least three vertices |
| GeometryLaws.ChangesAreEven | inference/src/inference/callback.py:85-93 | a closed chain passes the height of the point an even number of times |
| GeometryLaws.InsideIsWithinBounds | inference/src/inference/callback.py:66-93 | no point beyond the tolerance outside the bounding box is inside, for any polygon, self-crossing ones included |
| GeometryLaws.RectangleMembership | inference/src/inference/callback.py:51-93 | an upright rectangle accepts all its points, nothing beyond the tolerance, and off the tolerance exactly its interior |
| ConvexZones.CrossedIffOnItsLeft | inference/src/inference/callback.py:87-92 | the ray crosses an edge that passes the point's height exactly when the point is strictly on the left of it going up, or on the right of it going down |
| ConvexZones.ConvexMembership | inference/src/inference/callback.py:66-93 | off the tolerance band a zone whose corners all turn left accepts exactly the points strictly on the left of all its edges |
| ConvexZones.ClockwiseMembership | inference/src/inference/callback.py:66-93 | one whose corners all turn right, exactly those strictly on the right of all of them |
| ConvexZones.TriangleMembership | inference/src/inference/callback.py:66-93 | every triangle that is not flat, whichever way it runs: exactly the points strictly on its side of all three edges |
| ConvexZones.BandOfSlantedEdge | inference/src/inference/callback.py:51-64 | between the heights of its ends an edge's tolerance band reaches exactly a billionth over its rise to either side |
| GeometryLaws.IouRange | inference/src/inference/callback.py:206-220 | for all boxes, inverted ones included, the ratio is symmetric, in [0, 1], positive exactly on overlap and 1 exactly for the same proper box |
| GeometryLaws.IouOfNested | inference/src/inference/callback.py:206-220 | of a box within another the ratio is that of the two areas |
| Publisher.FirstPublishResetIff | cloud-sync/src/cloud_sync/mqtt_client.py:293-307 | when the described and the coded reset choose the same wait |
| Tripwire.ReversedLineSwapsSides | inference/src/inference/tripwire.py:291-310 | reversing the line swaps the sides of exactly the points not on it |
| Tripwire.VerticalLineIff | inference/src/inference/tripwire.py:291-310 | the described vertical line agrees with the code exactly off the line |
| Geometry.CrossesFlips | inference/src/inference/callback.py:87-92 | an edge is crossed whichever end it is given from |
| Hysteresis.EventSettles | inference/src/inference/zone_counter.py:237-262 | every event leaves the car in the state the refinement starts from |

The last five rows are facts of one function each.

## Left out

- HTTP, MQTT, SNMP and SSE transport, retries, authentication, logging and configuration parsing: nondeterministic outcomes of steps.
- SQLite errors while enqueueing (cloud-sync/src/cloud_sync/pull_loop.py:89): the envelope would be skipped and the cursor still advance.
- The order of `last_acked` values across crashes: a crash before the cursor write can enqueue rows again that were acknowledged and deleted, so no monotonicity holds.
- PostgreSQL read-committed snapshots: a dismissal's `INSERT ... SELECT` that reads its snapshot before a concurrent acknowledge commits can append its row after it; each guarded write is atomic here.
- Coach ids that are not strings, and a subscriber that disconnects: the first differ between the replay query and the live filter, the second ends the run.
- Journey rows, heartbeats and the filter behind `fanOut` in ingest: one flag of an event each.
- The contents of the egress redaction and of the event payloads: an event is withheld, malformed, or forwarded with some text.
- The set of fields of an alarm row other than its id and its state, and the context updates after each row, except that they may end a poll.
- Emission of wagon events, the tripwire's orphan timers, `close()` of the ledger, and ledger tables that store a negative number of unreconciled exits.
- The slip and vestibule checks after the threshold check: one stage during which an update is still in flight.
- Floating-point rounding: the geometry, the rate limiter and the thresholds are over exact reals.
- The zone test by box centroid and the door handlers around `PointInPolygon` and `Iou`: single branches over these two.
- Fusion context and comfort rules, the journey tracker, analytics and the user interfaces.
- Convex zones are those without three vertices on a line; of other zones, that cross themselves or have dents, only the laws of `GeometryLaws` are proved.
- Geometry.PointInPolygon: its two loops are two methods it calls, and the successor of the last index is written as a test instead of a remainder.
- Ledger.CoachLedger.constructor: it starts from the table as a map, in no particular row order.
- PublishLoop.DrainBatch: one pass with its outcomes given in advance and no other coroutine in between; the interleavings are the steps of `SyncProtocol`.
- Tripwire.TripwireHandler.HandleDetection: the pending exits and orphan timers after the event has been decided are not in its state.
- EscalationRuns.NothingAfterAcknowledge: rests on atomic guarded writes, which PostgreSQL's read-committed `INSERT ... SELECT` does not promise.
- EscalationRuns.HistoryLanguage: rests on the same.
