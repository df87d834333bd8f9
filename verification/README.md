# Verified model of the DDAE exporter's durable pipelines

The exporter collects alerts, serviceability logs and query records from a DDAE system and delivers them at
least once to Kafka. What makes it hard is not the HTTP and metrics plumbing but a handful of persistent or
concurrent state machines. This project models them in Dafny and proves what they guarantee over every run:

* **History backfill** (`Instants`, `HistoryState`, `HistoryScan`, `HistoryPlanning`, `HistoryCoverage`, `HistoryExpiry`, `HistoryPending`,
  `HistoryWorker`, `HistoryPages`, `HistoryOverlap`):
  a crash-resumable, depth-first interval bisection with concurrent record workers.
* **Durable outbox and publisher** (`Outbox`, `OutboxRuns`, `OutboxDelivery`, `OutboxMerge`, `OutboxPresence`, `OutboxRoom`, `OutboxValidator`, `OutboxStore`, `Collapse`):
  the alert store and the log store are one protocol; `Limits.logs` switches on what only the log store does.
* **Query state** (`QueryState`, `QueryRuns`, `QueryQueue`, `QueryRoom`, `QueryStore`): exactly-once counting under a retention floor.
* **Fair detail scheduler** (`FairScheduler`, `FairnessBounds`, `FairPipeline`, `FairTightness`): a two-class quota with a rotating waiting order.
* **Token coalescing** (`TokenProtocol`, `TokenClient`): single-flight refresh with generations for the password grant of
  section 4.3 of RFC 6749, and the request loop above it.

`Runs`, `Sets`, `Options` and `Integers` are shared. Each component has the same three layers. Pure functions say what one transaction or critical section does.
A `Trace` of actions and a function `Run` give all runs: an action that is not enabled changes nothing, so every
trace is a run, and interleavings, failures, crashes and restarts are just traces. Classes with loops hold the fields
the program updates in place; their methods are proved against the functions, and `HistoryWorker.Worker`,
`OutboxStore.Publisher` and `TokenClient.TokenManager` carry a ghost trace, so the theorems about runs apply to the
code that produces them. Lengthening a run never needs new proofs: invariants are shown for every action once.

Abstractions: bbolt is a set of ordered maps with atomic transactions; SHA-256 is injective and its result is not
empty; JSON round-trips; encoded sizes are arbitrary numbers; an RFC 3339 timestamp is an optional instant;
time is integer nanoseconds since Go's zero time; float sums are reals; what the network, the clock, the context and
Kafka do is a nondeterministic choice.

## Where the code does less than one might expect

Each of these comes with the exact condition and with the runs or the calls in which it happens.

* An acknowledgement out of queue order can break a checkpoint: `Acknowledge` keeps the store consistent if and only if it
  does not remove the newest record of an id that still has older ones queued (`AckKeepsStoreExactlyWhenSafe`), and two
  details of one id are enough to get there (`NewestFirstBreaksStore`). Both publishers acknowledge the queue head only, so
  every run of theirs stays consistent.
* The log store lets a late older detail in behind newer content when a marker does not parse. While all markers
  submitted for an id parse, everything ever queued for it is in marker order (`NewerContentWins`). The pipeline passes an
  empty marker for a missing or malformed update time, and marking the id as seen with any marker that does not parse
  erases the stored one (`LostMarkerLetsOlderContentIn`). Older content can get in if and only if the stored marker does
  not parse or is itself older (`OlderGetsInExactlyWhenMarkerIsLost`).
* Configurations that are accepted can plan an incremental sweep that is expired before its first listing, which
  blocks the scan. That is possible exactly when `RetentionReaches` fails (`PlannedSweepIsWithinRetention`,
  `IncrementalSweepCanStartExpired`); `rescan + overlap <= retention` excludes it.
* A sweep that takes too long expires. A full sweep has until its plan time plus what the retention exceeds the lookback
  by (`FullSweepSurvives`), and not a second more (`FullSweepCanBeExpelled`); with equal lookback and retention, which is accepted,
  a sweep that needs another poll can block for good. The exact time is the sweep start's (`SweepSurvivesExactlyUntil`).
* A scan can stall without a block. A complete page with more items than may be pending is refused at every poll and never
  split (`PageFitsExactlyWhen`, `ListNext`). Items that keep failing hold up the items behind them if and only if they are as
  many as a poll may try (`RecordedExactlyWhenFewFailAhead`).
* `Record` accepts a terminal query observed before the last fetch of its unfinished checkpoint and drops it without an
  error; exactly that guard decides whether an accepted terminal event leaves its query final (`StaleTerminalIsDropped`), and
  any such pair of events can lose the query (`OvertakenTerminalIsLost`). The counters account for every accepted query if
  and only if each had a terminal event that was not overtaken (`AllAreCountedExactlyWhenNoneIsLost`). Counting also needs one
  completion time per query: any two different ones can be counted twice (`TwoCompletionsCanCountTwice`).
* At a quota of one, an id that changes class can starve, from a new pipeline and at the head of the line
  (`ChangingClassCanStarve`). What decides is in how many cycles the class the id then has gets a share, which depends on
  the class sizes and the turn only. The head of the line is selected if and only if that happens once
  (`HeadIsSelectedExactlyWhenServed`); with p ids ahead, p + 1 times is enough (`ServedMeansSelected`) and p times is not
  (`ServedAsOftenAsAheadIsNotEnough`). The two starvation bounds follow from this.
* A token call that rejects a generation the manager never issued can be handed one that is no newer
  (`UnknownRejectionIsNotHonoured`), exactly when the manager had not reached it (`FreshLeaseExactlyWhenKnown`); the client
  never does that.
* `ReconcileListed` does not clear the absence mark of a listed id, so a forgotten id need not have been absent all the time
  (`ForgottenExactlyWhenLongMissed`, `ListingInBetweenIsNoReprieve`).
* The log store's `ReconcileListed` can report a full store although it has just made room (`RoomCanBeReportedFull`): exactly
  when the bucket statistics still count deleted checkpoints and reach the limit with them (`StatusIsRightExactlyWhen`).

## Model

| member | source | states |
|---|---|---|
| `HistoryState.Validate` | internal/historystate/store.go:112-132 | the validator reports full exactly when a cap is exceeded, and accepts exactly the well-formed progress records within the caps |
| `HistoryState.Store.Update` | internal/historystate/store.go:140-182 | a transaction commits the changed progress, which is then valid, or leaves the old one |
| `HistoryPlanning.NewLookbackStartsOver` | internal/historyscan/scan.go:100-125 | after a plan under a changed lookback the scan is unblocked, has forgotten all progress and a full sweep of one lookback is under way |
| `HistoryPlanning.UnfinishedScanKeepsItsPlan` | internal/historyscan/scan.go:107-110 | under the same lookback a blocked scan, or one with anything unfinished, is left as it is |
| `HistoryPlanning.IdleScanPlansNextSweep` | internal/historyscan/scan.go:110-123 | an idle scan plans exactly one window up to the next whole second, full when none was completed or the rescan interval has passed, else from the overlap behind the last-completed time, and nothing before that time has passed |
| `HistoryCoverage.SplitIsStrict` | internal/historyscan/scan.go:246-266 | every window longer than a second splits at a whole second strictly inside it, also with an unaligned start, so neither fallback is reached; the seconds are halved |
| `HistoryCoverage.ShortWindowIsOneSecond` | internal/historyscan/scan.go:246-251 | the saturation test is true exactly for windows of one second |
| `HistoryCoverage.StepKeepsInv` | internal/historyscan/scan.go:96-275 | every plan, listing, record, acknowledgement, close, expiry and worker death keeps the chain of unfinished windows, the page bookkeeping, the coverage and the bounds |
| `HistoryCoverage.RunKeepsInv` | internal/historyscan/scan.go:93-275 | that invariant holds after every run |
| `HistoryCoverage.CompletionMeansCoverage` | internal/historyscan/scan.go:208-219 | whenever the last-completed time moves it moves to the sweep end, and every instant of the sweep lies in a window listed complete during this sweep whose every item was recorded |
| `HistoryCoverage.NoGapsBetweenSweeps` | internal/historyscan/scan.go:107-123 | after any number of sweeps, everything from one lookback before the last plan up to the last-completed time is covered |
| `HistoryCoverage.WindowStackIsLogarithmic` | internal/historyscan/scan.go:245-266 | a sweep of n seconds never stacks more than 1 + ceil(log2 n) windows, at most 23 under the configured bounds, so the cap of 4096 is never met |
| `HistoryCoverage.SweepEndsWithinTwiceItsSeconds` | internal/historyscan/scan.go:230-274 | a sweep of n seconds has at most 2n - 1 committed listings, and while windows remain strictly fewer |
| `HistoryCoverage.PlannedSweepIsWithinRetention` | internal/historyscan/scan.go:110-123 | after every run, a full sweep never starts expired, nor does an incremental one when the retention reaches |
| `HistoryCoverage.SimpleRetentionCondition` | internal/config/backfill.go:36-38 | rescan interval plus overlap within the retention is enough |
| `HistoryCoverage.IncrementalSweepCanStartExpired` | internal/historyscan/scan.go:110-123 | under every other accepted configuration some run plans a sweep that is already expired |
| `HistoryCoverage.BlockedScanStandsStill` | internal/historyscan/scan.go:107-109 | once blocked, no sequence of events changes progress or audit log until the lookback changes |
| `HistoryCoverage.BlockedMeansNoWorkers` | internal/historyscan/scan.go:152-203 | a block is never set while a record worker is live |
| `HistoryExpiry.SweepSurvivesExactlyUntil` | internal/historyscan/scan.go:140-145 | in every run no unfinished window of the sweep is before the retention if and only if the clock is before the sweep start's whole second plus one second plus the retention |
| `HistoryExpiry.HeadIsNewestUnfinished` | internal/historyscan/scan.go:140-145 | the retention test looks at the open page, else at the newest window |
| `HistoryExpiry.FullSweepSurvives` | internal/historyscan/scan.go:224-229 | a full sweep planned at P is not expelled by the retention test up to P plus retention minus lookback |
| `HistoryExpiry.FullSweepCanBeExpelled` | internal/historyscan/scan.go:224-229 | under every accepted configuration a run is expelled one second after that and stays blocked |
| `HistoryPending.RecordedExactlyWhenFewFailAhead` | internal/historyscan/scan.go:146-207 | while the same items keep failing, another pending item is recorded by some poll if and only if fewer of them are ahead of it than the detail budget |
| `HistoryPending.RecordedInTime` | internal/historyscan/scan.go:146-207 | then it takes at most as many polls as items ahead of it, plus one |
| `HistoryPending.PageFitsExactlyWhen` | internal/historystate/store.go:112-116 | a complete page fits the caps if and only if it has no more items than may be pending |
| `HistoryCoverage.WithoutIdRemovesOne` | internal/historyscan/scan.go:163-173 | removing a pending item by id removes exactly that item |
| `HistoryWorker.CheckPage` | internal/historyscan/scan.go:238-244 | the page check with its running set accepts exactly pages of distinct non-empty ids within the window's whole seconds |
| `HistoryWorker.Worker.Open` | internal/historyscan/scan.go:38-47 | a changed overlap is refused; otherwise the worker continues whatever run the store holds |
| `HistoryWorker.Worker.Commit` | internal/historyscan/scan.go:67-73 | a transaction either makes its event happen durably or changes nothing |
| `HistoryWorker.Worker.Record` | internal/historyscan/scan.go:159-163 | a successful record of a pending item is an event of the run; a failed one changes nothing |
| `HistoryWorker.Worker.Acknowledge` | internal/historyscan/scan.go:161-174 | an acknowledgement takes exactly the recorded item off the pending list |
| `HistoryWorker.Worker.RecordBatch` | internal/historyscan/scan.go:151-196 | any interleaving of concurrent workers over a batch: nothing is acknowledged unrecorded, and exactly the dispatched items that did not fail are off the pending list, which keeps its order |
| `HistoryWorker.Worker.RecordPending` | internal/historyscan/scan.go:146-207 | a batch within the detail budget: if all were sent, the list is one attempt in which exactly the failing items stay; a last failure for a too-old item blocks the scan as expired unless the store refuses; every other outcome leaves it unblocked |
| `HistoryWorker.Worker.ListNext` | internal/historyscan/scan.go:233-275 | no answer, a page that fails its check and a refusing store change nothing; a complete page is opened with exactly its items; an incomplete one is split at a whole second strictly inside, or blocks when its window is at most a second; the run records the same items and flag; a complete page beyond the pending limit is refused |
| `HistoryWorker.Worker.Expel` | internal/historyscan/scan.go:140-145 | the retention test blocks the scan, or the store refuses and nothing changes |
| `HistoryWorker.Worker.Turn` | internal/historyscan/scan.go:130-275 | one turn of the loop: stopped, it can only end; otherwise it tries as many pending items as the budget allows, closes an empty page, or lists the newest window, and ends only when idle, out of budget, cancelled or failed |
| `HistoryWorker.Worker.Cycle` | internal/historyscan/scan.go:93-276 | a cycle terminates, stays within its page and detail budgets, leaves no worker behind, only continues the run, does nothing when blocked, ends without error only when idle or out of budget, reports expiry only when the retention test holds, and neither lists nor records when it holds after planning |
| `HistoryPages.LogPage` | internal/historyscan/adapters.go:42-61 | a log page is refused exactly for bad metadata, ids or times; otherwise one item per entry and the completeness flag from the totals |
| `HistoryPages.CompleteLogPageHoldsAll` | internal/historyscan/adapters.go:59-59 | against a truthful upstream a log page is called complete exactly when it holds every matching log and they are fewer than the threshold |
| `HistoryPages.QueryPage` | internal/historyscan/adapters.go:118-128 | a query page is refused exactly for invalid, repeated or too many entries, and complete exactly under the cap of 1000 |
| `HistoryPages.PageUnderCapHoldsAll` | internal/historyscan/adapters.go:123-123 | if the route returns all matching queries up to its cap, a page under the cap holds all of them |
| `HistoryPages.CompletedSweepRecordsEverything` | internal/historyscan/scan.go:208-219 | if every page listed complete in a sweep held every upstream record of its window, then when the last-completed time moves every upstream record with a time in the sweep was recorded in this sweep |
| `HistoryOverlap.OverlapCatchesLateRecords` | internal/historyscan/scan.go:110-123 | a record that became visible within the overlap less a second of its time, not older than the last full sweep, has been recorded once the last-completed time passed it by the overlap |
| `OutboxRuns.AckKeepsStoreExactlyWhenSafe` | internal/outbox/store.go:258-327 | an acknowledgement of a queued record succeeds, and keeps the store invariant if and only if it is not the newest of an id with older records queued |
| `OutboxRuns.NewestFirstBreaksStore` | internal/outbox/store.go:284-310 | after any two different contents of one id, acknowledging the newer first succeeds and breaks the invariant |
| `OutboxRuns.StepKeepsStore` | internal/outbox/store.go:137-391 | every action keeps: pending hash is the newest queued hash of the id, every record has a checkpoint, records are in sequence order, counters are true |
| `OutboxRuns.RunKeepsStore` | internal/outbox/store.go:137-391 | that invariant holds after every run of both stores, restarts included |
| `OutboxRuns.HeadAcksCleanly` | internal/outbox/store.go:258-327 | in every run acknowledging the queue head succeeds and removes exactly the head |
| `OutboxRuns.StepStaysWithinLimits` | internal/outbox/store.go:153-195 | a store within its limits stays within them |
| `OutboxRuns.RunStaysWithinLimits` | internal/outbox/store.go:137-391 | after every run real records, real bytes and checkpoints are within the limits |
| `OutboxRoom.EnqueueRefusesExactlyBeyondLimits` | internal/outbox/store.go:137-198 | in every run a valid detail is refused as full if and only if its id needs a checkpoint beyond the limit, or new content would exceed records or bytes; otherwise the id is known, and a record is queued exactly for content that is neither older nor a repeat |
| `OutboxRoom.MarkSeenRefusesExactlyBeyondLimits` | internal/logstate/store.go:203-223 | marking as seen is refused if and only if the id needs a checkpoint beyond the limit; otherwise the id is known |
| `OutboxRoom.AckRefusesExactlyDisagreement` | internal/outbox/store.go:258-300 | over any stored contents an acknowledgement is corruption if and only if the record is malformed, has no checkpoint or is not agreed with, and then changes nothing |
| `OutboxRoom.AlertMarkerIsLastSubmitted` | internal/outbox/store.go:155-155 | in the alert store a checkpoint's marker is the last one submitted for its id |
| `OutboxDelivery.SameContentMeansRepeat` | internal/outbox/store.go:157-160 | the checkpoint takes content for a repeat exactly when it is the last one observed |
| `OutboxDelivery.DeliveryRefinesObservation` | internal/outbox/store.go:153-195 | while a checkpoint lives, acknowledged then queued hashes are the observed ones with consecutive duplicates removed |
| `Collapse.CollapsedHasNoRepeats` | internal/outbox/store.go:157-160 | collapsing leaves no two equal neighbours |
| `Collapse.CollapsedAppend` | internal/outbox/store.go:157-160 | appending to a collapsed history either repeats its last element or adds one, so A,B,A is kept and A,A collapsed |
| `OutboxDelivery.WireIsInOrder` | internal/kafka/producer.go:198-256 | with publishes that succeed, fail or fail after delivery, the wire never steps back in sequence and, repeats collapsed, is a prefix of what was queued |
| `OutboxDelivery.DrainedQueueDeliveredNewest` | internal/kafka/producer.go:198-256 | once the queue is drained the last value on the wire of every id is the newest queued for it |
| `OutboxMerge.NewerContentWins` | internal/logstate/store.go:139-201 | while every marker submitted for an id since its checkpoint was created parses, the marker is the latest of them, and all content ever acknowledged or queued for the id is in marker order and no newer than the marker |
| `OutboxMerge.OlderGetsInExactlyWhenMarkerIsLost` | internal/logstate/store.go:155-160 | a detail older than given content can be queued if and only if the stored marker does not parse or is itself older |
| `OutboxMerge.LostMarkerLetsOlderContentIn` | internal/logstate/store.go:203-223 | for every marker that does not parse, a run marks the id as seen with it and then queues older content behind newer |
| `OutboxMerge.EnqueuePutsMarker` | internal/logstate/store.go:155-160 | whatever the log store does with a detail that fits, the checkpoint keeps the later of the two markers |
| `OutboxPresence.CheckpointTimesAreTold` | internal/outbox/store.go:137-218 | after every run a checkpoint's fetch, seen and absence times are those of the actions of the run since the id became known |
| `OutboxPresence.ForgottenExactlyWhenLongMissed` | internal/outbox/store.go:346-391 | an id is evicted exactly when a complete list lacks it, nothing of it is queued, and the first such list since it was last fetched or seen is at least the retention ago |
| `OutboxPresence.ListingInBetweenIsNoReprieve` | internal/outbox/store.go:362-364 | an id that was listed between two misses is evicted all the same |
| `OutboxPresence.StatusIsRightExactlyWhen` | internal/logstate/store.go:386-396 | the returned status is right if and only if the log store's key count does not reach a limit that the remaining checkpoints are below; a full store is always reported |
| `OutboxPresence.RoomCanBeReportedFull` | internal/logstate/store.go:386-396 | a run of a log store evicts its one checkpoint and can still report it full |
| `OutboxValidator.ValidateRecords` | internal/outbox/store.go:453-487 | the record walk accepts exactly well-formed entries whose bytes fit, and tallies count, bytes, newest hashes and ids |
| `OutboxValidator.ValidateCheckpoints` | internal/outbox/store.go:529-562 | the checkpoint walk accepts exactly when every checkpoint is well-formed and agrees with the newest hash, and no record is left without one |
| `OutboxValidator.ValidateAndMigrate` | internal/outbox/store.go:425-451 | over arbitrary stored contents it accepts exactly the acceptable ones, and writes the true count and bytes |
| `OutboxValidator.ReachableStoreReopensUnchanged` | internal/logstate/store.go:398-524 | every reachable store passes the startup check and the restart changes nothing |
| `OutboxStore.Store.Enqueue` | internal/outbox/store.go:137-198 | the transaction as the model's `Enqueue`: full, stale, repeat or inserted, with the whole new state |
| `OutboxStore.Store.MarkSeen` | internal/logstate/store.go:203-223 | the new state of `MarkSeen`, keeping a later marker in the log store |
| `OutboxStore.Store.Records` | internal/logstate/store.go:246-263 | the oldest records up to the limit, in order; the log store refuses a limit below one |
| `OutboxStore.Store.NewestPending` | internal/outbox/store.go:284-304 | the cursor walk finds the newest queued hash of the id and whether this record is that one |
| `OutboxStore.Store.Acknowledge` | internal/outbox/store.go:258-327 | the new state of an acknowledgement: unknown is a no-op, disagreement is corruption, else exactly one record goes |
| `OutboxStore.Store.MarkAbsent` | internal/outbox/store.go:356-376 | the pass over checkpoints marks absences and collects exactly the evictable ids |
| `OutboxStore.Store.ReconcileListed` | internal/outbox/store.go:346-391 | an incomplete list changes nothing; otherwise marks and evictions as specified, and the status by the count that is left or, in the log store, by the key count of the bucket statistics |
| `OutboxStore.Publisher.Publish` | internal/kafka/producer.go:221-237 | a publish of the head is confirmed, lost or uncertain; a confirmed one is on the wire |
| `OutboxStore.Publisher.AckHead` | internal/kafka/producer.go:238-243 | after a confirmed publish the acknowledgement removes the head unless the database is unavailable |
| `OutboxStore.Publisher.Deliver` | internal/logpublisher/publisher.go:70-93 | one record is acknowledged exactly when publish and acknowledgement succeeded, whatever collectors do before, between and after the two |
| `OutboxStore.Publisher.Flush` | internal/kafka/producer.go:198-256 | a flush acknowledges a prefix of its snapshot, all of it when it succeeds, and leaves the rest queued; a failing store makes recovery required, a failed publish leaves that as it was, success takes it back |
| `QueryStore.AddValue` | internal/querystate/store.go:263-277 | a uint64 histogram update that does not wrap: count, sum and every cumulative bucket |
| `QueryStore.CountTerminal` | internal/querystate/store.go:250-279 | counting a terminal query into validated statistics wraps nowhere and updates phase and durations |
| `QueryStore.Store.Record` | internal/querystate/store.go:193-290 | the transaction with its checks in order: invalid, corrupt, too old, ignored, full or stored with the whole new state |
| `QueryStore.Store.Prune` | internal/querystate/store.go:154-179 | the floor moves up only and exactly the checkpoints below it go |
| `QueryStore.Store.Ack` | internal/querystate/store.go:332-358 | removes one event and its bytes in any order, or reports corruption |
| `QueryStore.Store.Validate` | internal/querystate/validation.go:246-281 | the startup walk accepts exactly the stores that satisfy the stored relation |
| `QueryRuns.RunKeepsBooks` | internal/querystate/validation.go:223-281 | after every run events are ordered, pending and bytes are true, and each queued terminal event not older than the floor still has its final checkpoint with the same hash, completion and observation time |
| `QueryQueue.QueuedIsStoredCollapsed` | internal/querystate/store.go:232-249 | with an event outbox, the events ever queued for a query while its checkpoint lives are the stored ones with consecutive equal contents collapsed |
| `QueryQueue.NothingQueuedWithoutEvents` | internal/querystate/store.go:233-234 | without an event outbox nothing is ever queued |
| `QueryQueue.QueueIsUnacknowledged` | internal/querystate/store.go:332-358 | the queue is everything ever queued without what was acknowledged, in order |
| `QueryQueue.CheckpointIsLastStored` | internal/querystate/store.go:280-285 | a checkpoint tells finality, content, observation and time of the last event stored for its query |
| `QueryQueue.FloorIsTold` | internal/querystate/store.go:154-165 | a time is below the floor if and only if some prune of the run came more than its retention after it |
| `QueryQueue.ForgottenExactlyWhenPast` | internal/querystate/store.go:154-179 | a query is forgotten by a prune if and only if some prune so far came more than its retention after the completion, or else submission, of its last stored event |
| `QueryRoom.RecordOutcomeIsTold` | internal/querystate/store.go:193-290 | in every run a valid event is too old, ignored, refused, failed on an exhausted counter or stored exactly as the prunes, the last stored event, the real sizes and the counts tell |
| `QueryRoom.QueuedEventIsAcknowledged` | internal/querystate/store.go:332-358 | in every run the acknowledgement of a queued event succeeds and takes exactly it out, while the revision can move |
| `QueryRuns.HistogramsAreExact` | internal/querystate/store.go:250-279 | after every run each histogram is the direct count, sum and cumulative buckets of the counted durations, and the elapsed count is the completed count |
| `QueryRuns.RunKeepsTally` | internal/querystate/store.go:250-279 | counters and histograms refine the list of counted events over every run |
| `QueryRuns.ReachableStoreIsValid` | internal/querystate/validation.go:167-281 | every state reachable through record, prune, acknowledge and reopen passes the startup validator |
| `QueryRuns.EveryQueryCountsOnce` | internal/querystate/store.go:193-290 | with one completion time per query the completed counters add up to the distinct queries with an accepted terminal event that was not overtaken, each still final or completed before the floor |
| `QueryRuns.AllAreCountedExactlyWhenNoneIsLost` | internal/querystate/store.go:219-228 | the counters reach the number of queries with an accepted terminal event if and only if each had one that was not overtaken |
| `QueryRuns.TotalIsCounted` | internal/querystate/store.go:250-256 | the completed counters add up to the counted events |
| `QueryRuns.FloorNeverDrops` | internal/querystate/store.go:154-165 | no action lowers the floor |
| `QueryRuns.StaleTerminalIsDropped` | internal/querystate/store.go:219-228 | an accepted terminal event leaves its query final if and only if the checkpoint is missing, final or not fetched after the observation; otherwise nothing changes |
| `QueryRuns.OvertakenTerminalIsLost` | internal/querystate/store.go:219-228 | any terminal event observed before a running one of its query can be accepted and never counted |
| `QueryRuns.TwoCompletionsCanCountTwice` | internal/querystate/store.go:193-290 | any two valid terminal events of one query with different completion times can both be counted |
| `FairScheduler.Shares` | internal/alerts/pipeline.go:222-254 | the quota is used up exactly, within what each class has; from two on no waiting class is left out; at one the turn alternates |
| `FairScheduler.RefreshesGetAQuarter` | internal/alerts/pipeline.go:240-250 | when both classes share, refreshes get a quarter, at least one, or what the new ones leave, if there are as many; the turn moves only at a contended quota of one |
| `FairnessBounds.SelectionIsExact` | internal/alerts/pipeline.go:222-254 | exactly min(quota, eligible) distinct eligible tasks, a prefix of each class in waiting order, both classes when the quota allows |
| `FairnessBounds.SelectedHasBetterClaim` | internal/alerts/pipeline.go:185-200 | of two ids of one class, one selected and one not, the selected one waits longer, or waits and the other does not, or, both new in line, was fetched less recently, ties by id |
| `FairnessBounds.SelectionIsInOrder` | internal/alerts/pipeline.go:251-254 | a selection lists new ones first and each class by claim |
| `FairScheduler.LessIsLexicographic` | internal/alerts/pipeline.go:199-199 | ids are compared lexicographically |
| `FairnessBounds.WaitingOrderIsExact` | internal/alerts/pipeline.go:203-221 | the new waiting order is a bijection from the eligible ids onto 0..n-1 with the selected ids last |
| `FairnessBounds.UnselectedKeepTheirOrder` | internal/alerts/pipeline.go:203-217 | of two ids not selected the one with the better claim gets the lower number, newcomers included |
| `FairnessBounds.SelectedAreNumberedLast` | internal/alerts/pipeline.go:217-220 | the selected ids get the last numbers in the order of their selection |
| `FairnessBounds.WaitingMovesUp` | internal/alerts/pipeline.go:203-221 | an unselected id gets a number no larger than its position, smaller if someone ahead was selected |
| `FairnessBounds.RankIsAtMostNumber` | internal/alerts/pipeline.go:185-200 | newcomers line up behind ids already waiting |
| `FairnessBounds.ShareIsTakenAhead` | internal/alerts/pipeline.go:222-254 | if the class of an unselected task got a share, someone ahead of it was selected |
| `FairnessBounds.ServedMeansSelected` | internal/alerts/pipeline.go:175-255 | for every quota and any class changes, an eligible id with p ids ahead whose class was served more than p times has been selected |
| `FairnessBounds.SelectedMeansServed` | internal/alerts/pipeline.go:175-255 | an id is selected only if some cycle served the class it then had |
| `FairnessBounds.HeadIsSelectedExactlyWhenServed` | internal/alerts/pipeline.go:232-239 | the head of the line is selected if and only if some cycle serves its class |
| `FairTightness.ServedAsOftenAsAheadIsNotEnough` | internal/alerts/pipeline.go:203-231 | for every p there is a run in which the class of an id with p ids ahead is served p times and the id is not selected |
| `FairnessBounds.NoStarvation` | internal/alerts/pipeline.go:175-255 | at a quota of two or more an eligible id with p ids ahead is selected within p + 1 cycles, whatever arrives, leaves, fails or changes class |
| `FairnessBounds.NoStarvationAtQuotaOne` | internal/serviceability/pipeline.go:183-263 | at a quota of one it is selected within 2(p + 1) cycles if its own class does not change |
| `FairnessBounds.ChangingClassCanStarve` | internal/alerts/pipeline.go:232-239 | from a new pipeline, an eligible id at the head of the line that changes class every cycle is never selected at a quota of one |
| `FairPipeline.SortIsDetermined` | internal/alerts/pipeline.go:185-202 | sorting distinct tasks by the comparison has exactly one outcome, although the sort is unstable |
| `FairPipeline.Pipeline.Partition` | internal/alerts/pipeline.go:176-184 | the loop splits the tasks by class, in order |
| `FairPipeline.Pipeline.Take` | internal/alerts/pipeline.go:222-254 | the branches and borrowing compute the specified shares, and the turn |
| `FairPipeline.Pipeline.Rotate` | internal/alerts/pipeline.go:203-221 | the deferred loops renumber the rest in order and the attempted ids behind them |
| `FairPipeline.Pipeline.SelectFair` | internal/serviceability/pipeline.go:183-263 | one call computes the specified selection and scheduler state, passes no task over for one of its class with a lesser claim, and keeps the waiting order a numbering of the eligible ids |
| `TokenProtocol.StepKeepsInv` | internal/ddae/auth.go:49-88 | every critical section and wake-up of every caller keeps the protocol invariant |
| `TokenProtocol.SingleFlight` | internal/ddae/auth.go:58-70 | in no run are two refreshes under way, and every waiting call has a refresh that somebody runs or that has ended |
| `TokenProtocol.OnlySuccessChangesToken` | internal/ddae/auth.go:72-80 | a successful refresh raises the generation by one and nothing else touches token or generation |
| `TokenProtocol.GenerationCountsGrants` | internal/ddae/auth.go:72-80 | the generation is the number of successful refreshes of the run |
| `TokenProtocol.TokenIsLastGrant` | internal/ddae/auth.go:76-80 | token and refresh time are those of the last successful refresh |
| `TokenProtocol.EntryIsAnsweredExactlyWhenGrantStands` | internal/ddae/auth.go:49-71 | in every run a call is answered at once, with the token last granted, if and only if its refresh time is absent or to come and the rejected generation is 0 or older; otherwise it waits for the refresh under way or begins one when there is none |
| `TokenProtocol.WaiterSharesTheGrant` | internal/ddae/auth.go:58-67 | a call that waits for a refresh returns the same lease as the call that ran it |
| `TokenProtocol.FreshLeaseExactlyWhenKnown` | internal/ddae/auth.go:49-88 | a successful call's generation exceeds the rejected one if and only if the manager's generation had reached it; every lease carries the token issued for its generation |
| `TokenProtocol.RejectedLeaseNeverReturns` | internal/ddae/auth.go:49-88 | when callers reject only what they were handed, no successful call returns the rejected generation or an older one |
| `TokenProtocol.UnknownRejectionIsNotHonoured` | internal/ddae/auth.go:53-57 | a rejection of a generation never issued can be answered with an older one |
| `TokenProtocol.BurstRefreshesOnce` | internal/ddae/auth.go:49-88 | any number of callers that reject one generation refresh successfully at most once, expiry or not, as long as whoever comes after the new grant comes before its refresh time |
| `TokenProtocol.ExpiryEndsTheBurst` | internal/ddae/auth.go:52-71 | with none in flight, a caller that comes after the refresh time begins a refresh that raises the generation again |
| `TokenClient.TokenManager.Begin` | internal/ddae/auth.go:49-71 | the first critical section hands out the token exactly before its refresh time and if it was not rejected, else joins the refresh in flight or begins one |
| `TokenClient.TokenManager.Finish` | internal/ddae/auth.go:74-86 | the second critical section publishes the result to every waiting call and changes the token only on success |
| `TokenClient.TokenManager.RequestWithRetry` | internal/ddae/auth.go:90-104 | between one and retryMax + 1 token requests; only a 429, a 5xx or a missing answer for want of time or transport is followed by another, and always while attempts are left and the wait is not cancelled |
| `TokenClient.TokenManager.Get` | internal/ddae/auth.go:49-88 | a call among any others: its lease is genuine, newer than the rejected generation exactly when that one was known, and the current one exactly before its refresh time and if not rejected |
| `TokenClient.Client.GetJSON` | internal/ddae/client.go:213-244 | at most retryMax + 2 requests, at most one re-authentication, a newer lease after a 401 and the same one otherwise, and each outcome told from the exchanges |
| `TokenClient.OnlyTransientRepliesAreRetried` | internal/ddae/client.go:303-320 | another request follows only a 401, with a newer lease, or a failure with 429, 502, 503 or 504 or without an answer in time, with the same lease |
| `TokenClient.TransientFailureUsesAllAttempts` | internal/ddae/client.go:236-238 | a call that fails on such a reply has used all its attempts |

## Left out

- HTTP, TLS, the OIDC login form of the query client and the Kafka client: only success, failure and uncertain outcomes are modelled.
- bbolt: files, locking, permissions and cursors are replaced by atomic ordered maps; a failing transaction changes nothing.
- JSON decoding, duplicate-key scanning, UTF-8 validity and SHA-256 digits: abstracted to decoded values, a `canonical` flag, a `payloadOk` or `textOk` flag and injective hashes.
- Event normalisation and field allowlists: long lists of one-branch checks that would only add easy members.
- Configuration loading: the bounds of the backfill settings appear as `Config.Valid`, the other settings are arbitrary.
- The priority classification of the pollers: a task arrives already classified; the bounds hold for any classification.
- Snapshot store, readiness, metrics, logging and app wiring: flag conjunctions and plumbing.
- Clocks, tickers and backoff timers: time is an input of each step, and saturation of Go durations at 292 years is not modelled.
- HistoryState.Store.Update: the 32 MiB cap over all keys is a nondeterministic full error, because it depends on the encoding.
- OutboxStore.Store.Enqueue: the int64 overflow of bytes plus encoded size is not modelled, because a single record is far below it.
- OutboxStore.Store.Acknowledge: the log store reports an error where the alert store clamps a byte underflow; the counters are true in every run, so neither branch is reached.
- HistoryPages.CompletedSweepRecordsEverything: that complete pages hold every upstream record of their window is an assumption about the upstream; `CompleteLogPageHoldsAll` and `PageUnderCapHoldsAll` say what the sources need from it.
- OutboxStore.Store.Records: a record that does not decode is not modelled; the startup check refuses such a store.
- HistoryOverlap.OverlapCatchesLateRecords: the clock does not step back between the plan of a sweep and its listings, and pages hold what is visible; how long a record stays visible is not modelled.
- HistoryPending.RecordedExactlyWhenFewFailAhead: is about polls that dispatch their whole batch and whose acknowledgements succeed.
- QueryStore.AddValue: sums are reals, so float rounding is not modelled.
- TokenProtocol.OnlySuccessChangesToken: generations are unbounded, the wrap-around of a uint64 is not modelled.
- TokenClient.TokenManager.RequestWithRetry: the expiry computation of a token answer is not modelled; any refresh time may come back.
- The query event publisher and the foreground query poller: they use the same record and acknowledge operations in ways covered by the runs.
