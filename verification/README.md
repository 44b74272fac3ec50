# Proofs about the RabbitMQ clients and the shared data service

The project models four parts of the repository and proves what they promise over every run.

1. **The ack-frontier consumer** of the benchmark's hybrid client (`AckFrontier`, `AckProtocol`, `AckResults`). Deliveries are handled by overlapping tasks, acks are batched with `multiple=True`, poison messages are nacked one by one, a quota is reserved before any await, and one acker task wakes on an event or a timeout.
2. **Event ingestion** in the shared data service: the micro-batcher (`Batcher`, `BatcherRuns`), the service and its unit of work (`Service`, `UnitOfWork`, `StateStore`), what its two writes promise (`Writes`), batching (`Batching`), replica convergence (`Convergence`) and the whole path from a message to its ack (`Delivery`).
3. **Reconnect and recovery** in the two client libraries: the TypeScript epoch guard (`EpochGuard`) and shared cancel (`CancelLatch`), and the Python consumer watchdog (`Watchdog`).
4. **The list endpoint**: LIKE patterns (`LikeFilter`), the query engine (`ListQuery`, `ListTheorems`) and scoped routes (`Scoping`).

`Options` and `Sequences` hold shared basics.

## How the model is built

Objects whose methods update their fields are classes (`ConsumeRun`, `Batcher`, `UnitOfWork`, `RabbitClient`, `ConsumerHandles`); the class `Database` stands for PostgreSQL and the event exchange, and `ChannelWrapper` for the wrapper around an AMQP channel. One method is one stretch of source code between two suspension points, so it is atomic on the event loop; its contract equates the new fields with a function of the old ones. The protocol modules take those functions as the steps of a transition system, let the environment choose the order of steps and how every awaited call ends, and prove invariants of every reachable state.

Where the code does not do what its documentation says, the model follows the code, a lemma gives a run that shows it, and another lemma gives the exact condition:

- `batcher.py` says that shutdown never hangs. A waiting `close` never returns, short of a further `close`, exactly when an `apply_batch` outlived the cancellation that `close` sent, by returning or by raising an ordinary exception (`CloseCanHang`, `CloseNeverReturnsIffApplyOutlivedCancel`, `CloseReturnsWhenCancelsGetThrough`). Once the runner is idle no future is left pending even then (`CloseHangsIffRunnerIdleAgain`).
- The watchdog comment says that a slow restore is never mistaken for a cancel. It is mistaken exactly when the tag is still absent at both of the first two polls on the adopted channel: the two after the poll that adopted it, or the watch's own first two when it starts on that channel (`SlowRestoreMistakenIffTwoMisses`).
- `_consume_forever` is described as running until its task is cancelled. It also ends when re-establishing the consumer raises (`AtMostOneRegisteredTag`).
- A replayed `create` is promised to return the stored row. Repeated after any run of calls it does exactly when the row's newest content is the payload, and is refused otherwise (`CreateReplaysIffContentIsPayload`, `RepeatedCreateReplays`). An update in between breaks it (`UpdateBreaksReplay`), and so does a per-field rule that rewrites the payload (`CreateReplaysIffRulesKeepPayload`, `RewritingRuleBreaksReplay`).
- A replica is meant to end up with the authority's state. The per-field rules are applied by the authority and again by the replica, so it does exactly when each rule leaves its own results alone; the default, no rules, does (`ReplicaConvergesIffRulesSettle`, `UnsettledRuleDiverges`).

The hybrid consumer returns the number of handlers that finished successfully, as it promises. That number is not always the number of acked messages: `ResultIsAckedIffNoneWaited` says exactly when it is, and `DryExitMayCountUnacked` gives a run where it is not.

## Assumptions

- AMQP: delivery tags are at least 1 and consecutive on a channel, callbacks enter in tag order, and the hybrid consumer's channel owes nothing when its run starts. `basic.ack`, `basic.nack`, `basic.cancel` and `basic.consume` are atomic, and sending an ack is atomic with updating `acked`. The acker takes no step once it is cancelled.
- The TypeScript channel wrapper installs a channel and runs the setup functions in one turn, then re-establishes consumers, then emits `connect`. Its `cancel` reports failure through the promise it returns. The broker counts unacked deliveries against the prefetch of the consumer they went to, and a prefetch of 0 sets no limit.
- Transactions are atomic and serialised by the row locks and conflict clauses, and a commit takes effect when its apply ends. A failing commit may or may not have reached the database.
- CloudEvents 1.0: one (source, id) pair always carries one payload, and new events get new ids. Where a theorem needs this it is a hypothesis; `BatchIsOneByOneIffRepeatsNotNewer` says exactly how much of it batching needs.
- A per-field rule is a function of the field's name and value that does not raise.
- List queries: the database orders the non-null values of a column strictly and totally, lower-casing works character by character and fixes the three LIKE metacharacters, and the text of a scope value parses back to it.

## Model

| member | source | states |
|---|---|---|
| `AckFrontier.Start` | rabbit-benchmark/benchmark/clients/hybrid_client.py:127-128 | nothing is consumed exactly for a quota that is not positive; otherwise the settings are valid and the ack batch is half the prefetch, at least one |
| `AckFrontier.ConsumeRun.constructor` | rabbit-benchmark/benchmark/clients/hybrid_client.py:133-143 | the run starts with every counter at zero, nothing finished and not closing |
| `AckFrontier.ConsumeRun.AdvanceFrontier` | rabbit-benchmark/benchmark/clients/hybrid_client.py:145-156 | the in-place loop terminates and computes the recursive frontier function, which `AdvanceReachesRunEnd` ties to its closed form |
| `AckFrontier.ConsumeRun.Settle` | rabbit-benchmark/benchmark/clients/hybrid_client.py:173-183 | marks the tag, moves the frontier, counts, wakes the acker and ends the quota |
| `AckFrontier.ConsumeRun.Tally` | rabbit-benchmark/benchmark/clients/hybrid_client.py:176-183 | the counters, the wake-up threshold and the quota test after the frontier moved |
| `AckFrontier.ConsumeRun.EnterCallback` | rabbit-benchmark/benchmark/clients/hybrid_client.py:185-207 | the quota slot is taken, or the tag becomes the largest extra, before anything is awaited |
| `AckFrontier.ConsumeRun.HandlerFinished` | rabbit-benchmark/benchmark/clients/hybrid_client.py:196-207 | a success is settled at once; a failure changes nothing yet and sends the nack of its own tag, unless the run is closing |
| `AckResults.PoisonIsNackedBeforeFrontierPasses` | rabbit-benchmark/benchmark/clients/hybrid_client.py:199-206 | a raise nacks exactly its own tag, still awaited by the broker and still ahead of the frontier; in the exit block it sends nothing |
| `AckResults.NackedStaysRejected` | rabbit-benchmark/benchmark/clients/hybrid_client.py:202-205 | a message nacked for its handler's failure is rejected at the broker and never acked, and the frontier waits for its nack |
| `AckFrontier.ConsumeRun.AckerWake` | rabbit-benchmark/benchmark/clients/hybrid_client.py:158-171 | one pass of the acker: clears the event and acks up to the ack reference if it moved |
| `AckFrontier.ConsumeRun.BeginExit` | rabbit-benchmark/benchmark/clients/hybrid_client.py:222-223 | only the closing flag changes |
| `AckFrontier.ConsumeRun.FinalAck` | rabbit-benchmark/benchmark/clients/hybrid_client.py:230-232 | the exit block acks what became ackable since the last ack |
| `AckResults.SweepRequeuesTheRest` | rabbit-benchmark/benchmark/clients/hybrid_client.py:233-236 | with an extra delivery the final nack leaves nothing owed up to the last entered callback and requeues what was neither acked nor nacked; without one it changes nothing |
| `AckProtocol.AdvanceReachesRunEnd` | rabbit-benchmark/benchmark/clients/hybrid_client.py:145-156 | whatever order tags finish in, the loop stops at the end of the longest settled run and the ack reference is the largest success in it |
| `AckProtocol.RunEndIsUnique` | rabbit-benchmark/benchmark/clients/hybrid_client.py:138-139 | that closed form determines the frontier and the ack reference |
| `AckProtocol.StepKeepsInv` | rabbit-benchmark/benchmark/clients/hybrid_client.py:145-237 | every step keeps the invariant: slots, counters, frontier, the broker's ledger of tags, increasing acks, wake-up and phase |
| `AckProtocol.RunKeepsInv` | rabbit-benchmark/benchmark/clients/hybrid_client.py:127-237 | the invariant holds after every run of deliveries, callbacks, completions, failures, acker wake-ups and the exit block |
| `AckProtocol.AcksAreSafe` | rabbit-benchmark/benchmark/clients/hybrid_client.py:158-171 | in every run a multiple-ack settles only tags whose handlers succeeded; every other tag up to it was nacked alone or acked before; acks strictly increase |
| `AckProtocol.FramesNameOutstandingTags` | rabbit-benchmark/benchmark/clients/hybrid_client.py:158-236 | no frame the client sends names a tag the broker no longer awaits |
| `AckProtocol.FrontierIsSettledRun` | rabbit-benchmark/benchmark/clients/hybrid_client.py:145-156 | in every reachable state the incremental frontier is the closed form; the finished sets are disjoint and above it |
| `AckProtocol.CountersStayOrdered` | rabbit-benchmark/benchmark/clients/hybrid_client.py:185-207 | completed <= settled <= reserved <= count, so at most `count` handlers start |
| `AckProtocol.AckerIsWoken` | rabbit-benchmark/benchmark/clients/hybrid_client.py:158-183 | before closing, the acker's event is set exactly while a full ack batch is ackable: no lost wake-up and no idle one |
| `AckProtocol.FullWindowHasAckPending` | rabbit-benchmark/benchmark/clients/hybrid_client.py:69 | with half the prefetch as ack batch, a window full of successes always has an ack pending without the idle timer, unless the tag that holds the frontier is being nacked |
| `AckResults.NackSentWakesAcker` | rabbit-benchmark/benchmark/clients/hybrid_client.py:173-205 | in that case the end of the nack wakes the acker or hands the frontier to another nack; a single nack always wakes it |
| `AckResults.NackMayHandOver` | rabbit-benchmark/benchmark/clients/hybrid_client.py:200-205 | a run in which two nacks are on their way and the end of the first wakes nobody |
| `AckProtocol.QuotaExitSettlesEverything` | rabbit-benchmark/benchmark/clients/hybrid_client.py:209-237 | after a quota exit every entered tag is settled exactly once by its outcome and the result is the quota minus the failures |
| `AckProtocol.CompletedIsAckedIffNothingWaits` | rabbit-benchmark/benchmark/clients/hybrid_client.py:173-183 | at every moment the running count equals the acked messages if and only if no success waits behind the frontier or for an ack |
| `AckResults.FinalAckFixes` | rabbit-benchmark/benchmark/clients/hybrid_client.py:230-232 | after the final ack no tag is acked any more and no finished handler's outcome changes |
| `AckResults.ResultIsAckedIffNoneWaited` | rabbit-benchmark/benchmark/clients/hybrid_client.py:209-237 | the returned number equals the acked messages if and only if every success it counts had no unsettled handler before it at the final ack; a quota exit always meets that |
| `AckProtocol.DryExitMayCountUnacked` | rabbit-benchmark/benchmark/clients/hybrid_client.py:216-221 | a run that returns one message and acks none |
| `Batcher.Batcher.constructor` | shared_data_service/app/messaging/batcher.py:49-54 | an open batcher with an empty queue and no runner |
| `Batcher.Batcher.Submit` | shared_data_service/app/messaging/batcher.py:60-68 | a closed batcher refuses; otherwise the item is queued with a new future and a runner is alive |
| `Batcher.Batcher.DrainQueue` | shared_data_service/app/messaging/batcher.py:84-92 | empties the queue and fails exactly the pending futures of its tickets |
| `Batcher.Batcher.TakeBatch` | shared_data_service/app/messaging/batcher.py:94-101 | takes tickets from the front until the batch holds max(1, max_batch) or the queue is empty, and changes nothing else |
| `Batcher.Batcher.SettleBatch` | shared_data_service/app/messaging/batcher.py:135-137 | gives every still pending future of the batch the outcome and leaves the others |
| `Batcher.Batcher.Abort` | shared_data_service/app/messaging/batcher.py:124-134 | an unwound runner fails its whole batch, ends and drains the queue |
| `Batcher.Batcher.FinishApply` | shared_data_service/app/messaging/batcher.py:105-137 | success resolves the batch, an error fails a single item or starts the retries, an unwind aborts |
| `Batcher.Batcher.FinishRetry` | shared_data_service/app/messaging/batcher.py:139-158 | one retry settles its own item only; an unwind aborts |
| `Batcher.Batcher.DeliverCancel` | shared_data_service/app/messaging/batcher.py:94-103 | a cancelled idle runner drains; one that never started skips its body |
| `Batcher.Batcher.BeginClose` | shared_data_service/app/messaging/batcher.py:70-75 | `close` marks the batcher closed and cancels a live runner, or drains at once |
| `Batcher.Batcher.ResumeClose` | shared_data_service/app/messaging/batcher.py:75-82 | `close` drains once more after the runner ended |
| `BatcherRuns.StepKeepsInv` | shared_data_service/app/messaging/batcher.py:60-158 | every step keeps the invariant on the queue, the runner, the futures and the history |
| `BatcherRuns.RunKeepsInv` | shared_data_service/app/messaging/batcher.py:60-158 | the invariant holds in every state of every interleaving |
| `BatcherRuns.NoFutureIsStranded` | shared_data_service/app/messaging/batcher.py:60-103 | before close a pending future has a live runner; once close has returned every future has an outcome |
| `BatcherRuns.CloseWaitsOnlyForARunner` | shared_data_service/app/messaging/batcher.py:70-82 | a close that finds a live runner cancels it and waits; one that finds none, and one whose runner has ended, returns at once and leaves no future pending |
| `BatcherRuns.TicketsLeaveInOrder` | shared_data_service/app/messaging/batcher.py:94-103 | FIFO and conservation: batches, drains and the queue make up the submissions in order; batches are contiguous and bounded |
| `BatcherRuns.OutcomesAreEarned` | shared_data_service/app/messaging/batcher.py:105-158 | a submitter succeeds if and only if a committed apply held its item; an apply error comes from an apply of its item alone |
| `BatcherRuns.PoisonFailsAlone` | shared_data_service/app/messaging/batcher.py:16-17 | when applies fail exactly on bad items, only bad items fail with an apply error and only good ones succeed |
| `BatcherRuns.BatcherClosedHasCause` | shared_data_service/app/messaging/batcher.py:70-92 | a submitter gets the closed error only if the batcher was closed or an apply was unwound |
| `BatcherRuns.LateSubmitDoesNothing` | shared_data_service/app/messaging/batcher.py:60-64 | a submission after close is refused and changes nothing, in particular it starts no runner |
| `BatcherRuns.PoisonBlocksNobody` | shared_data_service/app/messaging/batcher.py:16-17 | with neither, a settled submitter succeeded if and only if its item is good, and otherwise failed with the error of an apply of its item alone |
| `BatcherRuns.CancelledMoveFinishes` | shared_data_service/app/messaging/batcher.py:70-82 | the runner's next move after a cancellation ends it, unless an apply outlives the cancellation |
| `BatcherRuns.CloseEndsUnlessSwallowed` | shared_data_service/app/messaging/batcher.py:70-82 | a waiting close can always finish as long as no apply outlived a cancellation |
| `BatcherRuns.OutlivingDooms` | shared_data_service/app/messaging/batcher.py:112-134 | an apply that outlives the cancellation dooms the waiting close at once |
| `BatcherRuns.DoomedForever` | shared_data_service/app/messaging/batcher.py:70-103 | over every continuation short of a further close or a stray unwind a doomed close stays unable to return |
| `BatcherRuns.CloseNeverReturnsIffApplyOutlivedCancel` | shared_data_service/app/messaging/batcher.py:70-82 | a waiting close can never return if and only if an apply outlived the cancellation it sent and the runner is still alive |
| `BatcherRuns.CloseReturnsWhenCancelsGetThrough` | shared_data_service/app/messaging/batcher.py:70-82 | in every run whose applies let cancellations through, a waiting close can return |
| `BatcherRuns.CloseCanHang` | shared_data_service/app/messaging/batcher.py:18-23 | a run in which an apply turns the cancellation into an ordinary exception and close never returns |
| `UnitOfWork.UnitOfWork.constructor` | shared_data_service/app/database/unit_of_work.py:49-58 | a session on the database, nothing staged, not committed |
| `UnitOfWork.UnitOfWork.StageEvent` | shared_data_service/app/database/unit_of_work.py:83-84 | appends one event to the staged list |
| `UnitOfWork.UnitOfWork.MarkEventsProcessed` | shared_data_service/app/database/unit_of_work.py:129-148 | adds the pairs to the inbox and returns exactly those that were not there |
| `UnitOfWork.UnitOfWork.Commit` | shared_data_service/app/database/unit_of_work.py:86-127 | a failed commit publishes nothing, keeps the staged list and may or may not have reached the database; a successful one clears the list, publishes in order, and raises a cancellation exactly when one landed on an event; the ledger of where events went advances with it |
| `UnitOfWork.UnitOfWork.Exit` | shared_data_service/app/database/unit_of_work.py:66-81 | leaving without a commit rolls the session back |
| `UnitOfWork.PublishInOrder` | shared_data_service/app/database/unit_of_work.py:104-127 | published and refused events are the staged ones up to the first interruption, each in staging order |
| `UnitOfWork.PublishLosesNothing` | shared_data_service/app/database/unit_of_work.py:104-127 | no event is lost or attempted twice |
| `UnitOfWork.StagedSplitsExactly` | shared_data_service/app/database/unit_of_work.py:104-127 | after a commit the staged list splits exactly into published, failed and logged, and the suffix reported on cancellation |
| `UnitOfWork.ReportPicks` | shared_data_service/app/database/unit_of_work.py:104-127 | a commit's report is a three-way split of the staged events, each part in staging order |
| `UnitOfWork.CutShortIffInterrupted` | shared_data_service/app/database/unit_of_work.py:104-127 | the caller sees a cancellation exactly when one landed on a staged event |
| `UnitOfWork.PublishedOnlyAfterCommit` | shared_data_service/app/database/unit_of_work.py:83-127 | over all sequences of stagings and commits, events leave only after a successful commit that covered them, each exactly one way, and each way in staging order |
| `Service.NewModule` | shared_data_service/app/modules/shared/service.py:296-306 | the row holds one prepared value per mutable field |
| `Service.InsertIfAbsent` | shared_data_service/app/modules/shared/repository.py:99-109 | inserts exactly when the id is free |
| `Service.CreateModule` | shared_data_service/app/modules/shared/service.py:105-144 | an answered create says created exactly when the id was free and answers with the stored row; a refused one leaves the database and the published events alone; the whole effect for every commit and publish outcome |
| `Service.ApplyChanges` | shared_data_service/app/modules/shared/service.py:325-329 | every sent mutable field holds its prepared value and every other column is as it was |
| `Service.UpdateModule` | shared_data_service/app/modules/shared/service.py:146-190 | exactly when each of the three refusals is raised, that a refusal changes and publishes nothing, and that otherwise exactly the sent fields of the one row change and its version is one higher; the whole effect for every commit and publish outcome |
| `Writes.UpdateIsExact` | shared_data_service/app/modules/shared/service.py:146-190 | an update is refused for nothing set, then for a row that is missing or outside the guard, then for another version than expected, and a refusal changes and announces nothing; otherwise exactly the set fields change, the version is one higher and that row is announced |
| `Writes.NoLostUpdate` | shared_data_service/app/modules/shared/service.py:174-178 | of two updates that expect the same version of a row at most one changes it |
| `Writes.CreateIsExact` | shared_data_service/app/modules/shared/service.py:105-144 | a free id gets one row at version 1 with each mutable field prepared from the payload; a taken one is announced again exactly when its content is the payload and refused otherwise, with nothing changed |
| `Service.UpsertIfNewerMany` | shared_data_service/app/modules/shared/repository.py:111-127 | inserts missing rows, overwrites older ones, skips the rest |
| `Service.ApplyStateEvents` | shared_data_service/app/modules/shared/service.py:224-251 | the loop over the batch and the two statements are the batch function of the store; nothing is published |
| `Batching.WinnerIsHighest` | shared_data_service/app/modules/shared/service.py:236-248 | per id the winner has the highest version of the fresh payloads and is the first of them to have it |
| `Batching.ProcessedChangesNothing` | shared_data_service/app/database/unit_of_work.py:138-148 | an event already in the inbox changes nothing |
| `Batching.NewItemCommutes` | shared_data_service/app/modules/shared/service.py:236-251 | a new event has the same effect inside a batch or right after it |
| `Batching.RepeatChangesNothing` | shared_data_service/app/modules/shared/service.py:236-251 | a repeated delivery in a batch that is not newer changes nothing |
| `Batching.BatchIsOneByOne` | shared_data_service/app/modules/shared/service.py:224-251 | a batch gives the table and inbox of applying its events one by one, version ties included |
| `Batching.BatchingIsInvisible` | shared_data_service/app/modules/shared/service.py:224-251 | any cut of a sequence of events into batches gives the same table and inbox |
| `Batching.BatchIsOneByOneIffRepeatsNotNewer` | shared_data_service/app/modules/shared/service.py:236-251 | a batch agrees with one-by-one application on every database if and only if no repeat in it is newer than its first copy |
| `Convergence.ServeKeepsSound` | shared_data_service/app/modules/shared/service.py:105-190 | for every spec every API call keeps one content per (id, version), gapless versions, and events that tell committed contents |
| `Convergence.VersionsAreGapless` | shared_data_service/app/modules/shared/service.py:105-190 | for every spec and every sequence of calls the versions of an id are 1..n and a committed content is never replaced |
| `Convergence.ReplicaHoldsHighest` | shared_data_service/app/modules/shared/service.py:224-251 | for every spec, order, duplication and batching the replica holds the authority's content of the highest version delivered, put through the field rules once more, and nothing else |
| `Convergence.ReplicaConverges` | shared_data_service/app/modules/shared/service.py:224-251 | when the rules settle, the replica holds exactly that content, and equals the authority once the newest event arrived |
| `Convergence.ReplicaConvergesIffRulesSettle` | shared_data_service/app/modules/shared/service.py:272-306 | every replica agrees with the authority on every run and delivery if and only if each mutable field's rule leaves its own results alone |
| `Convergence.UnsettledRuleDiverges` | shared_data_service/app/modules/shared/service.py:296-306 | a rule that does not settle on a value: one create, delivered once, makes the replica differ |
| `Convergence.DistinctIdsAreUnambiguous` | shared_data_service/app/modules/shared/service.py:317-323 | calls with event ids of their own never publish one identity with two states |
| `Convergence.NewIdsConvergeIffRulesSettle` | shared_data_service/app/modules/shared/service.py:224-251 | the same exact condition for convergence over all runs whose calls have event ids of their own, with no hypothesis on the state |
| `Convergence.CreateReplaysIffContentIsPayload` | shared_data_service/app/modules/shared/service.py:118-136 | at any point of any run a create of an existing id is a replay if and only if the content committed under its current version is the payload, and a clash otherwise |
| `Convergence.RepeatedCreateReplays` | shared_data_service/app/modules/shared/service.py:105-144 | a committed create repeated after any further calls: while no update was committed it is a replay if and only if the rules keep the payload, after updates if and only if the newest content is the payload |
| `Convergence.UpdateBreaksReplay` | shared_data_service/app/modules/shared/service.py:308-315 | without any rule, create, update and the same create again: the repeat clashes |
| `Convergence.CreateReplaysIffRulesKeepPayload` | shared_data_service/app/modules/shared/service.py:105-144 | an immediate repeat of a create is a replay if and only if the field rules leave the payload as it is |
| `Convergence.RewritingRuleBreaksReplay` | shared_data_service/app/modules/shared/service.py:308-315 | a rule and a payload for which the replay clashes |
| `Delivery.ApplyCovers` | shared_data_service/app/modules/shared/service.py:224-251 | after any batch every event in the inbox is reflected in the table in its version or a newer one |
| `Delivery.StepKeepsInv` | shared_data_service/app/messaging/batcher.py:105-158 | batcher steps, other instances' batches and API writes keep: what an apply made durable is in the inbox, and the inbox is covered |
| `Delivery.AckedIsStoredOrRejectedAlone` | shared_data_service/app/messaging/consumer.py:86-132 | at every moment an acked event is stored in its version or newer, or an apply of it alone failed permanently |
| `Delivery.EveryMessageIsDecided` | shared_data_service/app/messaging/consumer.py:3-15 | malformed, unknown and invalid messages are acked; an event is acked when its apply was committed or its own error is permanent, and requeued on any other error, on a closed batcher and on a refused submission; what is acked is stored or hopeless alone, what is requeued has no committed apply, and only a pending or given-up one is undecided |
| `Delivery.GoodEventIsStoredWhenAcked` | shared_data_service/app/messaging/consumer.py:118-130 | when permanent errors come only from applies that hold a bad item, the ack of a good item means it is stored, whatever shared its batches |
| `Delivery.StoredStaysStored` | shared_data_service/app/modules/shared/repository.py:111-127 | a stored event stays stored, and a database left by one process is a sound start for the next |
| `Delivery.RedeliveryIsNoOp` | shared_data_service/app/messaging/batcher.py:24-28 | redelivering a stored event changes nothing |
| `EpochGuard.RabbitClient.constructor` | rabbit-client-typescript/src/rabbit-client.ts:171 | the epoch starts at zero |
| `EpochGuard.RabbitClient.EpochSetup` | rabbit-client-typescript/src/rabbit-client.ts:230-232 | the setup function bumps the epoch by one |
| `EpochGuard.RabbitClient.SettleIfSameEpoch` | rabbit-client-typescript/src/rabbit-client.ts:453-455 | in every state the client can be in, with any number of consumers, a frame is sent exactly when the delivery's own channel still lives, and it names a tag which that channel awaits |
| `EpochGuard.StepKeepsInv` | rabbit-client-typescript/src/rabbit-client.ts:214-232 | drops, reconnects, replacements, consumes, cancels, broker cancels, re-consumes, deliveries and settles of any number of consumers keep epoch and incarnation in step and the owed tags with running handlers |
| `EpochGuard.SettleReachesOwnChannel` | rabbit-client-typescript/src/rabbit-client.ts:380-396 | a captured epoch is current exactly for deliveries of the current channel; a settle reaches its own channel, with a tag it awaits for that consumer, or nothing |
| `EpochGuard.WindowIsRunningHandlers` | rabbit-client-typescript/src/rabbit-client.ts:398-405 | each consumer's window holds exactly the tags of its own running handlers, so a consumer without any can always be served, whatever the others do |
| `EpochGuard.ReconsumeStrandsNothing` | rabbit-client-typescript/src/rabbit-client.ts:226-229 | after a broker cancel the handle can be re-consumed, its old deliveries are still owed and still settled, and the new consumer can be served at once |
| `EpochGuard.HandlesOutliveChannels` | rabbit-client-typescript/src/rabbit-client.ts:214-232 | no step but its own cancel or a new wrapper takes a handle or its prefetch from the wrapper |
| `EpochGuard.ReconnectRestoresConsumers` | rabbit-client-typescript/src/rabbit-client.ts:214-232 | after a reconnect every handle is consumed again with its own window and can be served at once |
| `EpochGuard.EventBumpWedges` | rabbit-client-typescript/src/rabbit-client.ts:162-170 | bumping on the connect event has, for every window size, a run that wedges a consumer |
| `EpochGuard.ReconsumeBumpWedges` | rabbit-client-typescript/src/rabbit-client.ts:226-229 | bumping on re-consume has, for every window size, a run in which re-consuming one consumer wedges another |
| `EpochGuard.SetupBumpNeverWedges` | rabbit-client-typescript/src/rabbit-client.ts:221-232 | bumping in the setup function never wedges any consumer |
| `CancelLatch.ConsumerHandles.constructor` | rabbit-client-typescript/src/rabbit-client.ts:150-153 | no handles and an empty registry |
| `CancelLatch.ConsumerHandles.RegisterConsumer` | rabbit-client-typescript/src/rabbit-client.ts:479-486 | adds the handle to those already under its queue |
| `CancelLatch.ConsumerHandles.DeregisterConsumer` | rabbit-client-typescript/src/rabbit-client.ts:488-493 | removes the handle, and the queue with its last handle |
| `CancelLatch.ConsumerHandles.AddHandle` | rabbit-client-typescript/src/rabbit-client.ts:411-425 | a new handle has a clear latch and is registered |
| `CancelLatch.ConsumerHandles.Cancel` | rabbit-client-typescript/src/rabbit-client.ts:411-423 | the RPC is issued exactly when the latch is clear; other callers join |
| `CancelLatch.ConsumerHandles.CancelRpcEnded` | rabbit-client-typescript/src/rabbit-client.ts:413-421 | success deregisters and latches, failure clears the latch |
| `CancelLatch.StepKeepsInv` | rabbit-client-typescript/src/rabbit-client.ts:411-425 | consume, cancel calls, RPC ends, queue deletion and close keep latch, RPC history, answers and registry consistent |
| `CancelLatch.CallsAreAlwaysPossible` | rabbit-client-typescript/src/rabbit-client.ts:412-422 | a call on a handle always finds a clear latch or an RPC to join |
| `CancelLatch.CancelIsShared` | rabbit-client-typescript/src/rabbit-client.ts:407-423 | at most one cancel RPC in flight, none after a success, one retry per failure, and every joined caller gets its RPC's outcome |
| `CancelLatch.RegistryHoldsOnlyLive` | rabbit-client-typescript/src/rabbit-client.ts:479-493 | the registry never holds an empty set or a handle whose cancel succeeded |
| `CancelLatch.LiveHandlesAreRegistered` | rabbit-client-typescript/src/rabbit-client.ts:479-493 | in every run a consumed handle is in the registry under its queue exactly until a cancel of it succeeded or its registration was dropped with the queue or by close |
| `CancelLatch.StepMovesOneRegistration` | rabbit-client-typescript/src/rabbit-client.ts:479-493 | what each step does to the registration of each handle: consume adds its own, a successful cancel removes its own, the end of a queue its queue's, close all, and nothing else moves |
| `Watchdog.WatchConsumer` | rabbit-client-python/src/hs_rabbit_client/client.py:431-470 | over any poll trace it raises exactly at the first two consecutive polls that see the adopted live channel without the tag |
| `Watchdog.RaiseIsOnOldChannel` | rabbit-client-python/src/hs_rabbit_client/client.py:439-446 | a raise never falls on a reconnect or an adoption |
| `Watchdog.AdoptedIsLastSeen` | rabbit-client-python/src/hs_rabbit_client/client.py:451-461 | the adopted channel is the one of the last poll that saw a channel, else the one the watch started on |
| `Watchdog.SlowRestoreMistakenIffTwoMisses` | rabbit-client-python/src/hs_rabbit_client/client.py:439-470 | once the new channel is adopted, a slow restore is mistaken for a cancel exactly when the tag is absent at both of the first two polls |
| `Watchdog.SlowRestoreMistakenIffPastTwoPolls` | rabbit-client-python/src/hs_rabbit_client/client.py:449-470 | the same for a channel adopted at a poll: the first two polls after it |
| `Watchdog.SlowRestoreAtStartMistakenIffPastTwoPolls` | rabbit-client-python/src/hs_rabbit_client/client.py:440-470 | the same for a watch that starts on the new channel: its first two polls |
| `Watchdog.AtMostOneRegisteredTag` | rabbit-client-python/src/hs_rabbit_client/client.py:402-481 | over all recoveries a handle has exactly its current tag registered, or none; it ends only by cancel or a failed re-establishment |
| `LikeFilter.MatchIffSplits` | shared_data_service/app/modules/shared/filters.py:150-151 | the LIKE matcher accepts a text if and only if the text splits into pieces that fit the pattern's tokens |
| `LikeFilter.WildcardsAreWild` | shared_data_service/app/modules/shared/filters.py:86-91 | outside an escape the percent sign matches every text and the underscore every single character; escaped they match themselves only |
| `LikeFilter.UnescapeUndoes` | shared_data_service/app/modules/shared/filters.py:86-91 | unescaping an escaped value gives it back |
| `LikeFilter.EscapeIsInjective` | shared_data_service/app/modules/shared/filters.py:86-91 | different values have different escaped patterns |
| `LikeFilter.EscapedMatchesItself` | shared_data_service/app/modules/shared/filters.py:86-91 | an escaped value matches itself and nothing else |
| `LikeFilter.ContainsIsPart` | shared_data_service/app/modules/shared/filters.py:121 | the contains pattern matches exactly the texts with the raw value as a substring |
| `LikeFilter.StartsWithIsPrefix` | shared_data_service/app/modules/shared/filters.py:123 | the startswith pattern matches exactly the texts with the raw value as a prefix |
| `LikeFilter.EndsWithIsSuffix` | shared_data_service/app/modules/shared/filters.py:125 | the endswith pattern matches exactly the texts with the raw value as a suffix |
| `LikeFilter.FoldEscape` | shared_data_service/app/modules/shared/filters.py:86-91 | lower-casing and escaping commute |
| `LikeFilter.TextLookupIsLiteral` | shared_data_service/app/modules/shared/filters.py:119-151 | each of the seven text lookups is the substring, prefix, suffix or equality its name says on the raw value, up to case for the i-variants |
| `LikeFilter.PatternsAreWellFormed` | shared_data_service/app/modules/shared/filters.py:119-127 | no value makes a pattern with a malformed escape |
| `ListQuery.MakePageRequest` | shared_data_service/app/modules/shared/query.py:47-54 | accepted exactly for limits from 1 to the maximum and offsets from 0, and refused by the first of the three bounds that fails |
| `ListQuery.ParseSort` | shared_data_service/app/modules/shared/query.py:57-67 | nothing means the default; otherwise accepted exactly for an allowed field or a minus sign and an allowed field, which is what it returns, and refused with the field that is not allowed |
| `ListQuery.FirstSeparator` | shared_data_service/app/modules/shared/filters.py:71 | the first double underscore of a parameter name, or none when there is none |
| `ListQuery.EachReadsAll` | shared_data_service/app/modules/shared/filters.py:69-83 | reading a list of parameters succeeds exactly when every one can be read, and otherwise gives the first error |
| `ListQuery.ParseFilterParams` | shared_data_service/app/modules/shared/filters.py:63-83 | the loop gives one clause per parameter or the error of the first that has to be refused |
| `ListQuery.BuildWheres` | shared_data_service/app/modules/shared/repository.py:134-138 | one condition per clause or the error of the first that has to be refused |
| `ListQuery.List` | shared_data_service/app/modules/shared/repository.py:129-154 | the count, the ordered page and the errors in the source's order |
| `ListQuery.PrecedesIsStrictTotal` | shared_data_service/app/modules/shared/repository.py:147-149 | sort column then id is a strict total order, ascending and descending, nulls included |
| `ListQuery.PrecedesAsAsked` | shared_data_service/app/modules/shared/repository.py:147-149 | rows follow the column's order, or its reverse when descending, with nulls last ascending and first descending and equal cells by id |
| `ListQuery.OrderedIsInOrder` | shared_data_service/app/modules/shared/repository.py:147-149 | the returned list has exactly the selected rows, in that order |
| `ListQuery.OrderedIsUnique` | shared_data_service/app/modules/shared/repository.py:148 | any list of the same rows in that order is the same list, so page order is deterministic |
| `ListTheorems.SplitIsExact` | shared_data_service/app/modules/shared/filters.py:155-168 | comma-separated operands are exactly the values between the commas |
| `ListTheorems.KeyReadsAsWritten` | shared_data_service/app/modules/shared/filters.py:71-72 | for a field without a double underscore and not ending in one underscore, field__op is read as that field and that operator, and field__ or the field alone as exact |
| `ListTheorems.FilterIsAccepted` | shared_data_service/app/modules/shared/filters.py:63-83 | a filter is accepted exactly when its field may be filtered, its operator is one of the seventeen, and its operands fit: a text column for text lookups, values the column can parse, and two of them for range |
| `ListTheorems.RefusalNamesTheFault` | shared_data_service/app/modules/shared/filters.py:63-168 | a refused filter names its fault: the field, then the operator, then the text column, the range or the first value that the column cannot parse |
| `ListTheorems.PassedIsAdmitted` | shared_data_service/app/modules/shared/repository.py:134-138 | a row passes an accepted filter exactly when its own cell of that field passes the operator |
| `ListTheorems.ComparisonsAgree` | shared_data_service/app/modules/shared/filters.py:128-134 | on a value that is not null exact is equality, gt and lt are the column's order either way, gte and lte are their opposites |
| `ListTheorems.RangeIsBothBounds` | shared_data_service/app/modules/shared/filters.py:162-168 | range is gte of the first value and lte of the second |
| `ListTheorems.ListsAgree` | shared_data_service/app/modules/shared/filters.py:154-157 | in means exact with one of the listed values; not_in is its opposite |
| `ListTheorems.NullIsOnlyAbsent` | shared_data_service/app/modules/shared/filters.py:158-161 | null is found by the two null operators, which are opposites, and by no other |
| `ListTheorems.ReadingsAreOneByOne` | shared_data_service/app/modules/shared/repository.py:134-138 | the conditions of a request are those of its parameters, one by one |
| `ListTheorems.TextFilterMeans` | shared_data_service/app/modules/shared/filters.py:137-151 | a text filter passes exactly the rows whose text is related to the raw value as the operator says |
| `ListTheorems.ListPageIsSliceOfWhole` | shared_data_service/app/modules/shared/service.py:199-220 | a request is answered exactly when every part is acceptable, with a slice of the ordered list of exactly the rows that pass every filter, and its length as total |
| `ListTheorems.PagesTileTheList` | shared_data_service/app/modules/shared/repository.py:140-154 | pages at offsets 0, L, 2L, ... concatenate to the list with no gap or overlap, all with the same total |
| `ListTheorems.OffsetIsMultiple` | shared_data_service/app/modules/shared/query.py:19-22 | the k-th of those offsets is k times the limit |
| `ListTheorems.FilterOrderIsIrrelevant` | shared_data_service/app/modules/shared/repository.py:134-138 | reordering the filters changes neither rows, order nor total |
| `ListTheorems.ScopedListIsListOfSubTable` | shared_data_service/app/modules/shared/routes.py:202-231 | for all client parameters a scoped list equals the unscoped list over the scope's rows without the client's filters on the scope column, errors included |
| `ListTheorems.RouteListsExactly` | shared_data_service/app/modules/shared/routes.py:202-231 | an answered list shows a slice of the ordered list of exactly the rows of the scope, or of the table without one, that pass every client parameter that is not limit, offset, sort or on the scope column |
| `ListTheorems.WithoutKeepsTheRest` | shared_data_service/app/modules/shared/routes.py:212-224 | dropping fields from the parameters drops exactly the parameters on those fields |
| `ListTheorems.ScopedListShowsOnlyTheScope` | shared_data_service/app/modules/shared/routes.py:217-226 | no client filter reaches a row outside the scope |
| `Scoping.UnnamedColumnIsKept` | shared_data_service/app/modules/shared/service.py:288-294 | an update leaves every column it does not name |
| `Scoping.ScopeColumnNeverChanges` | shared_data_service/app/modules/user.py:95-101 | over any run of API creates and updates a row keeps its scope column, because the update schema does not offer it |
| `Scoping.ScopedCallStaysInside` | shared_data_service/app/modules/shared/routes.py:157-200 | a scoped call changes nothing outside its scope, adds only inside it and answers only from inside it |
| `Scoping.OutsideIsNotFound` | shared_data_service/app/modules/shared/routes.py:180-200 | a scoped get or update cannot tell a row outside the scope from a missing one |
| `Scoping.ForeignIdClashes` | shared_data_service/app/modules/shared/routes.py:157-175 | a scoped create of an id held by another scope is refused |
| `Scoping.InsideIsUnscoped` | shared_data_service/app/modules/shared/routes.py:187-200 | on a row inside its scope an update does what the unscoped one does, expected version included |
| `Scoping.CreateStoresThePayload` | shared_data_service/app/modules/shared/routes.py:157-175 | a create of a free id stores the client's payload, with the scope column set to the scope's value |

## Left out

- Wire protocol and library internals of aio-pika, aiormq, amqplib and amqp-connection-manager: a channel is its outstanding tags and the documented order of setups, consumers and the connect event.
- SQL generation, sessions, reflection and migrations: the statements are modelled by what they do to a map of rows. Timestamps kept by the server are not in the rows of `StateStore`; in list queries they are columns like any other.
- Payload validation, email rules, CloudEvents parsing and id generation: payloads are valid and event ids are inputs.
- Parsing of filter values of non-text columns, flag words and the collation: parameters of the list model.
- Text the database cannot store or compare, such as a value with a NUL character.
- Context-sensitive lower-casing (a character whose lower case depends on its neighbours): `Fold` works on one character at a time.
- Object identity of ORM rows: payloads and rows are values, so a later change to a returned row through a second reference is not modelled.
- The kind of an event (created or updated): consumers treat both alike.
- Wall-clock time, back-off and throughput: a timeout is a step that may happen at any moment.
- Cancellation that lands inside a half-finished RPC, and a second consumer on a channel that still owes tags.
- Declare caches, their behaviour when a setup function fails, and calls that race `deleteQueue`.
- Logging, correlation ids, settings, health checks, OpenAPI and HTTP wiring, the other benchmark adapters, benchmark orchestration, statistics and reports.
- Watchdog.AtMostOneRegisteredTag: re-establishing a consumer is one atomic step.
- Delivery.AckedIsStoredOrRejectedAlone: an ack is stated as the handler's decision; the broker's redelivery of requeued messages is a new submission of the same event.
- Scoping.ScopeColumnNeverChanges: speaks of API writes; an event applied by the consumer carries the scope column of its authority and may set another value.
- Per-field rules that raise, and rules that depend on anything but the value.
