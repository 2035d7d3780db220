# A verified model of the traffic booking service

This project models the booking saga of a distributed road-booking system and proves what its protocols
guarantee. Drivers book routes; a route is a list of road segments, each with a capacity; a booking is
approved when every segment of its route has room for a time window. Four services cooperate through
transactional outboxes and at-least-once streams.

Check it with `dafny verify dfyconfig.toml`.

## What is modelled

**Conflict detection.** `Reservations` relates the overlap count the SQL computes to the load at each
instant. `Assessment` gives the decision and the windows it writes as functions. `ConflictService` holds the
repositories and the service as classes (module `ConflictDetection`), with the code's loops and early exits.
`Allocator` is the same assessment under concurrency: a step machine in which transactions lock one
row, count one segment, and commit, while releases delete rows from a statement snapshot without locks and
routes and orders keep arriving. `AllocatorProofs` keeps its invariants; `AllocatorTheorems` states what
every run guarantees. A transaction's steps are not atomic, yet on the committed reservations each
step is a move of a serial allocator (`StepIsSerial`), and `AllocatorSaga` matches every run with a run of the saga
below that has the same rows and the same verdicts: there an assessment may be one step. Rows have ids, so a DELETE
takes the rows of its snapshot and spares equal ones inserted since.

**The event protocol.** `Bookings` is the booking service: a class with the bookings table, its outbox log and its
processed-event marks. `Saga` is the protocol as one step machine: bookings, log, reservations, the
consumers' keys, and the code paths that span several transactions (the Go consumer's check, write and mark;
a cancel after its `CanTransition` check; an expiry pass; a release between DELETE and commit), any of which may crash.
An event may be applied any time after it is logged, in any order, by consumers under any number of names: where it waits
(outbox, stream, pending list, dead-letter stream) makes no difference to safety. `SagaProofs`, `SagaTheorems` and
`SagaHoldings` prove the properties of runs: `Sound` holds in all of them, `Inv` as long as repeated assessments of a creation
agree. `SagaFinality` says exactly when a terminal status is final, and `SagaLimits` shows where the properties end. `Outbox` runs any number of Go and Python relays over one table, and
`OutboxRelays` has their publishing passes as code. `Handlers` says what the three Python handlers do to their tables,
`Delivery` what retries, duplicate keys, lost commits, dead letters and acknowledgements make of that, and `Consumers` is
the code: handlers, retry loop and entry loop. `GoConsumer` is the booking service's own consumer.

`GoRefinement`, `PythonRefinement`, `BookingRefinement` and `OutboxRefinement` tie code to machines: what the Go retry loop, the
Python deliveries, cancel requests and expiry passes, the publishing passes and cleanup do to their tables is what some steps of
the saga and of the outbox machine do.

**Segments.** `Segmentation` specifies `_create_segments` as the growth of a partition of road edges; `RouteService` has the
loops that implement it and the route cache around them. `StepExtraction` and `EdgeIds` cut an OSRM leg into steps with edge
ids; steps of distance zero are skipped, and `StepsTilePath` says exactly when the rest still cover the path.
`AllocatorTheorems.EdgeCapacity` joins this with the allocator: the capacity of a segment is the capacity of each of its edges.

**Arithmetic.** `Polyline` is the integer split of a route line; `RateLimiter` is the gateway's fixed-window counter.

Time is in whole microseconds and windows are half-open. Ids are natural numbers; uuids are only ever compared. Faults (a failing
query, XADD, acknowledgement or Redis connection, and a commit that fails or that takes effect and reports failure) are parameters
of the methods and steps of the machines.

## Where the code differs from what it promises

- `services/booking-service/README.md` calls terminal booking states final. `UpdateStatus` and `Cancel` do not look at the
  current status, so a late assessment revives a cancelled booking (`LateAssessmentRevives`). `FinalExactlyWhenFrozen` says, for
  every reachable state, exactly when a terminal status stays for good as long as no creation is assessed twice from then on. An
  event without a mark counts as deliverable again, dead-letter entries included. Once a creation may be delivered to a further
  replica, no CANCELLED or EXPIRED status is final (`FurtherNameOverwrites`).
- Deduplication is keyed by a consumer name that contains the hostname, so a creation delivered again to another replica is assessed
  again. Replicas assessing different events do no harm, and neither do repeated assessments that agree: no-orphans needs no more
  (`NoOrphans`). What breaks it is the opposite verdict: from every state where a booking holds rows and has a negative assessment
  pending, with no release due and nothing in flight, failure-free handling leads to a REJECTED booking that keeps its place with
  no event left to free it (`SecondAssessmentOrphans`), and such states are reached (`SecondNameLeavesOrphan`). The whole-route results need each creation assessed once; capacity is never exceeded either way.
- The availability preview compares with the set of segment ids, the assessment with the list, so they differ on routes that repeat a
  segment (`PreviewOverlooksRepeats`); on all others they agree.
- The Go consumer acknowledges even when the dead-letter write failed, so a message can vanish
  (`AckedWithoutTrace` says exactly when, `LostMessage` shows it).

## Model

| member | source | states |
|---|---|---|
| `AllocatorTheorems.CapacityNeverExceeded` | services/conflict-detection-service/src/application/conflict_service.py:54-80 | in every state of every interleaving of assessments (repeated ones included), releases, orders and route creations, no segment's load exceeds its capacity at any instant |
| `AllocatorTheorems.WholeRouteOrNothing` | services/conflict-detection-service/src/application/conflict_service.py:57-86 | in every state of every run that assesses no creation twice, a booking holds nothing, or exactly the staggered windows of its whole route, and then that route repeats no segment |
| `AllocatorTheorems.VerdictIsAtomic` | services/conflict-detection-service/src/application/conflict_service.py:54-86 | the verdict of a transaction equals the answer of one atomic assessment of its order on the rows committed at the step of its own last count (or its own beginning, if there was nothing to count), with the route and the segment rows of the state in which it itself began |
| `AllocatorTheorems.DecidedOnce` | services/conflict-detection-service/src/application/conflict_service.py:64-86 | a verdict is given in one step of the transaction itself, as the atomic answer on that step's rows, and never again |
| `AllocatorTheorems.StepIsSerial` | services/conflict-detection-service/src/application/conflict_service.py:29-89 | in runs that assess no creation twice, each interleaved step changes the committed reservations like one move of a serial allocator: nothing, one atomic approval by current capacities, or one whole release |
| `AllocatorTheorems.CommitEffect` | services/conflict-detection-service/src/infrastructure/consumer/consumer.py:101-110 | a commit leaves its booking, if not assessed before, with its full windows or with none, leaves others' rows alone, and does nothing for an already processed key |
| `AllocatorTheorems.FoundWhenBegun` | services/conflict-detection-service/src/infrastructure/postgres/segment_repository.py:10-18 | departure, route and capacities a transaction works with are those of the order and the catalogue in the very state in which it began |
| `AllocatorTheorems.FoundIsCurrent` | services/conflict-detection-service/src/infrastructure/postgres/segment_repository.py:10-18 | when every segment was known, the dictionary found earlier equals the one today's catalogue would give |
| `AllocatorTheorems.DeadlockFree` | services/conflict-detection-service/src/infrastructure/postgres/segment_repository.py:11-17 | while an assessment is open, some assessment can lock, count or commit, because rows are locked in ascending id |
| `AllocatorTheorems.TransactionsFinish` | services/conflict-detection-service/src/application/conflict_service.py:54-86 | once no assessment begins, the assessments' steps are bounded by the work left, whatever else interleaves |
| `AllocatorTheorems.EdgeCapacity` | services/routes-service/src/application/use_cases.py:64-89 | a booking on a route over an edge holds exactly one window on the edge's one owning segment, and at most that segment's capacity of bookings are active there at any instant (no creation assessed twice) |
| `AllocatorTheorems.ActiveWithinCapacity` | services/conflict-detection-service/src/application/conflict_service.py:64-80 | at every instant at most a segment's capacity of bookings are active on it, repeated assessments or not |
| `AllocatorProofs.StepKeepsInv` | services/conflict-detection-service/src/application/conflict_service.py:54-89 | every step, under any consumer names, keeps capacity, exclusive locks and still-valid counts |
| `AllocatorProofs.StepKeepsHoldings` | services/conflict-detection-service/src/application/conflict_service.py:76-89 | every step that does not assess a creation again keeps whole-route holdings and complete release snapshots |
| `AllocatorProofs.ApprovalStillHolds` | services/conflict-detection-service/src/application/conflict_service.py:64-80 | counts that passed one by one amount to a full atomic approval at commit time, with every segment of the route locked |
| `AllocatorProofs.PassedSurvivesInsert` | services/conflict-detection-service/src/application/conflict_service.py:76-80 | another transaction's insert on rows this one has not locked cannot spoil its passed counts |
| `AllocatorProofs.PassedSurvivesRemoval` | services/conflict-detection-service/src/infrastructure/postgres/reservation_repository.py:42-47 | a release without locks cannot spoil a passed count |
| `AllocatorProofs.RowsAfterRemoval` | services/conflict-detection-service/src/infrastructure/postgres/reservation_repository.py:42-47 | a committed release takes all of its booking's rows or none, and no other booking's |
| `AllocatorSaga.CommitIsAssess` | services/conflict-detection-service/src/application/use_cases.py:47-64 | a commit of the interleaved allocator that is not a duplicate is the saga's assessment step for that creation: same rows under the same id, same key, same verdict event |
| `AllocatorSaga.EveryRunIsASagaRun` | services/conflict-detection-service/src/application/use_cases.py:47-85 | every run of the interleaved allocator, of any length and with releases in flight, is matched by a run of the saga: the same committed rows, and the same verdicts in the order of their commits |
| `AllocatorSaga.SimulateStep` | services/conflict-detection-service/src/application/use_cases.py:47-85 | each allocator step is a stretch of saga steps that keeps the tables equal and every open release paired with a saga release of the same snapshot, under a name of its own; only a deciding commit adds a verdict |
| `AllocatorSaga.ReleaseStep` | services/conflict-detection-service/src/application/use_cases.py:83-85 | the commit of a release in flight removes the same rows in both machines, whatever was inserted since its DELETE |
| `SagaTheorems.NoOrphans` | services/booking-service/internal/infrastructure/postgres/booking_repository.go:142-219 | with any number of consumers, in every run whose repeated assessments of a creation agree, a booking holding rows has an unapplied positive assessment, or is APPROVED, or has a later unapplied CANCELLED/EXPIRED update; cancels, expiries, late and repeated handling included |
| `SagaHoldings.GrantHeldUntilReleased` | services/conflict-detection-service/src/application/use_cases.py:47-85 | as long as no creation is assessed twice, a granted booking holds exactly its route's windows, from its departure cut to whole seconds, until a CANCELLED or EXPIRED update of it is applied |
| `SagaTheorems.LogExplainsTable` | services/booking-service/internal/infrastructure/postgres/booking_repository.go:142-181 | replaying the outbox log rebuilds every status, in every reachable state |
| `SagaTheorems.ReplayIsLastUpdate` | services/booking-service/internal/infrastructure/postgres/booking_repository.go:166-171 | the replayed status is that of the booking's last update |
| `SagaTheorems.ReplayIsPending` | services/booking-service/internal/infrastructure/postgres/booking_repository.go:48-77 | without an update a logged booking replays as PENDING, and only created bookings replay at all |
| `SagaTheorems.OneMessagePerUpdate` | services/messaging-service/src/consumer.py:71-98 | each update has at most one inbox message per consumer name, for its driver and booking, with the text of its status |
| `SagaTheorems.OrderlyLowers` | services/conflict-detection-service/src/infrastructure/consumer/consumer.py:87-136 | in every reachable state, whatever was assessed twice, a failure-free handling step lowers a weight in which a creation outweighs its assessment, and that its update |
| `SagaTheorems.HandlingTerminates` | services/conflict-detection-service/src/infrastructure/consumer/consumer.py:87-136 | in every run, any stretch of failure-free handling steps is no longer than the weight it starts with |
| `SagaTheorems.UnsettledCanGoOn` | services/booking-service/internal/infrastructure/redisconsumer/consumer.go:134-165 | in every reachable state, while an event is unapplied or a code path unfinished, some failure-free handling step is possible |
| `SagaTheorems.SettledHoldersAreApproved` | services/conflict-detection-service/src/infrastructure/consumer/consumer.py:113-136 | in a run whose repeated assessments of a creation agree, once every event is applied, only APPROVED bookings hold reservations |
| `SagaTheorems.ExpiryPassReleasesDeparted` | services/booking-service/internal/application/booking_service.go:70-96 | in a run whose repeated assessments of a creation agree, from a settled state, an expiry pass and the handling it causes leave no booking past departure with reservations |
| `SagaProofs.StepKeepsInv` | services/conflict-detection-service/src/infrastructure/consumer/consumer.py:87-136 | every step that does not contradict an earlier assessment of the same creation keeps every row explained |
| `SagaProofs.StepKeepsSound` | services/conflict-detection-service/src/infrastructure/consumer/consumer.py:87-136 | every step, repeated assessments included, keeps one creation per booking, every row traced to a positive assessment of its booking, and what each code path in flight relies on |
| `SagaProofs.StatusWritten` | services/booking-service/internal/infrastructure/postgres/booking_repository.go:142-181 | any unguarded status write, from an assessment, a cancel or an expiry, leaves every row explained |
| `SagaProofs.StartedRelease` | services/conflict-detection-service/src/infrastructure/postgres/reservation_repository.py:42-47 | a release that starts covers every row its booking was granted before the update, and no other booking's rows |
| `SagaProofs.ReleaseExplained` | services/conflict-detection-service/src/application/use_cases.py:83-85 | a row that survives a release's commit was not waiting for it: it is still explained without the release just spent |
| `SagaProofs.UnassessedHoldsNothing` | services/conflict-detection-service/src/application/use_cases.py:47-64 | a booking whose creation nobody has assessed holds no rows |
| `SagaLimits.SecondNameLeavesOrphan` | services/conflict-detection-service/src/infrastructure/consumer/consumer.py:32-34 | it happens: consuming booking.created under two names, the second assessment rightly refuses, and the booking ends REJECTED holding its place with nothing left to explain it |
| `SagaLimits.SecondAssessmentOrphans` | services/conflict-detection-service/src/infrastructure/consumer/consumer.py:139-148 | in every state where a booking holds rows and has an unconsumed assessment of the opposite verdict besides, with no release due and nothing in flight, failure-free handling drives it to REJECTED, still holding its rows, an orphan |
| `SagaLimits.LateAssessmentRevives` | services/booking-service/internal/infrastructure/postgres/booking_repository.go:146-151 | a late positive assessment turns a CANCELLED booking APPROVED |
| `SagaFinality.FinalExactlyWhenFrozen` | services/booking-service/internal/infrastructure/postgres/booking_repository.go:142-181 | in every reachable state, as long as no creation is assessed twice from then on, a terminal status survives every continuation if and only if the booking's creation is assessed, its assessment is marked or agrees with the status, and no handler, cancel or expiry in flight would write another |
| `SagaFinality.FrozenStays` | services/booking-service/internal/infrastructure/postgres/booking_repository.go:142-219 | while nothing is left that could write another status, every step that does not assess a creation again keeps the status and keeps it so |
| `SagaFinality.UnfrozenCanChange` | services/booking-service/internal/infrastructure/postgres/booking_repository.go:146-151 | otherwise some continuation that assesses no creation twice, by the code's own verdicts, does overwrite the terminal status |
| `SagaFinality.FurtherNameOverwrites` | services/conflict-detection-service/src/infrastructure/consumer/consumer.py:32-34 | with a further consumer name no CANCELLED or EXPIRED status is ever final: in every reachable state, frozen or not, a repeated assessment with the code's own verdict can overwrite it |
| `Outbox.NothingLost` | services/booking-service/internal/infrastructure/outboxrelay/relay.go:51-89 | with any number of Go and Python relays, a committed event is unpublished in the table or copied to its stream, and its copies number its aborted publishes or one more |
| `OutboxRefinement.PassIsMachineSteps` | services/booking-service/internal/infrastructure/outboxrelay/relay.go:51-89 | under any combination of query, XADD, flag and commit faults, and whatever rows other relays hold, what a Go or Python pass leaves in table and streams is what some steps of its relay leave in the outbox machine, so conservation holds around the code |
| `OutboxRefinement.FetchedIsBatch` | services/booking-service/internal/infrastructure/postgres/outbox_repository.go:28-52 | the rows a pass fetches, passing over those other relays hold, are the batch of the locking query: available, in id order, no available older one left behind |
| `OutboxRefinement.CleanupIsMachineStep` | services/conflict-detection-service/src/infrastructure/outbox_relay/relay.py:69-82 | what cleanup leaves in the table is what the machine's cleanup leaves |
| `Outbox.NoRowHeldTwice` | services/booking-service/internal/infrastructure/postgres/outbox_repository.go:28-52 | no outbox row is locked by two relays at once |
| `Outbox.CleanupDeletesOnlyCopied` | services/conflict-detection-service/src/infrastructure/outbox_relay/relay.py:69-82 | a row that cleanup deletes already has a copy in its stream |
| `Outbox.StepKeepsInv` | services/conflict-detection-service/src/infrastructure/outbox_relay/relay.py:35-56 | every insert, fetch, XADD, failure, commit, abort and cleanup keeps the exact count of copies against aborts, published rows and rows in flight |
| `OutboxRelays.Outbox.FetchUnpublished` | services/booking-service/internal/infrastructure/postgres/outbox_repository.go:28-52 | the fetch loop returns the oldest unpublished rows that nobody else has locked, up to the limit, and all of them if they are fewer |
| `OutboxRelays.Outbox.DeleteOldPublished` | services/booking-service/internal/infrastructure/postgres/outbox_repository.go:62-71 | cleanup removes exactly the published rows older than the cutoff and no pending one, whoever has locked what |
| `OutboxRelays.Outbox.PublishBatchGo` | services/booking-service/internal/infrastructure/outboxrelay/relay.go:51-89 | the Go pass copies up to the first failing XADD and flags exactly what it copied; a failed flag or commit, after a stop or not, flags nothing; a lost commit flags but reports failure |
| `OutboxRelays.Outbox.PublishBatchPython` | services/conflict-detection-service/src/infrastructure/outbox_relay/relay.py:35-56 | the Python pass flags its whole batch or, on any failure before its commit, nothing, though copies already sent stay sent; a lost commit flags but raises |
| `OutboxRelays.Outbox.CopyRows` | services/booking-service/internal/infrastructure/outboxrelay/relay.go:66-77 | the XADD loop sends the rows before the first failure, in order, and no other |
| `OutboxRelays.UndisturbedCopies` | services/booking-service/internal/infrastructure/outboxrelay/relay.go:51-89 | an undisturbed pass copies the first rows there are to publish, up to fifty |
| `OutboxRelays.Outbox.Drain` | services/booking-service/internal/infrastructure/outboxrelay/relay.go:31-49 | without faults the drain loop empties the outbox of rows nobody else has locked, copying each exactly once in id order |
| `OutboxRelays.FlaggingFirst` | services/booking-service/internal/infrastructure/postgres/outbox_repository.go:54-60 | flagging the first rows of the pending list leaves exactly the rest pending, for any set of rows locked elsewhere |
| `OutboxRelays.KeptLosesOnlyPublished` | services/conflict-detection-service/src/infrastructure/outbox_relay/relay.py:69-82 | cleanup keeps a row exactly if it is unpublished or young enough |
| `OutboxRelays.KeptKeepsPending` | services/conflict-detection-service/src/infrastructure/outbox_relay/relay.py:69-82 | cleanup leaves the pending list as it was |
| `Delivery.EffectsExactlyOnce` | services/conflict-detection-service/src/infrastructure/consumer/consumer.py:158-188 | over any deliveries and redeliveries the tables end up as if the jobs that ever committed had each taken effect exactly once: distinct keys, none present before, none missing |
| `Delivery.KeysAreDelivered` | services/conflict-detection-service/src/infrastructure/consumer/consumer.py:139-155 | a key is present exactly if it was before or some delivery of its event to its consumer committed |
| `Delivery.AckedIsAppliedOrDead` | services/conflict-detection-service/src/infrastructure/consumer/consumer.py:171-188 | what is acknowledged has been applied or stands in the dead-letter stream |
| `Delivery.DeadLettersAreFailures` | services/conflict-detection-service/src/infrastructure/consumer/consumer.py:171-188 | the dead-letter stream grows by exactly the entries that could not be dealt with, while it is up; an entry stays unacknowledged exactly if a needed dead-letter copy or the ack itself fails |
| `Delivery.RetryAppliesOnce` | services/conflict-detection-service/src/infrastructure/consumer/consumer.py:139-155 | the retry loop applies the handler's effect exactly once if its key was missing and some commit went through, changes nothing otherwise, and a normal return means the effect is there |
| `Delivery.ReturnsWhenDealtWith` | services/conflict-detection-service/src/infrastructure/consumer/consumer.py:139-155 | the loop returns normally exactly if an insert runs into a key that was there, or some commit succeeds and says so, or a later attempt runs into the key a lost commit left |
| `Delivery.RaisedEffectIsLostCommit` | services/conflict-detection-service/src/infrastructure/consumer/consumer.py:139-155 | an effect applied by a call that still raised came from a commit that succeeded and reported failure |
| `Delivery.KeyEndsIt` | services/conflict-detection-service/src/infrastructure/consumer/consumer.py:146-152 | once the key is in nothing changes any more, and the loop returns normally if and only if some attempt gets as far as the insert |
| `Consumers.Runner.ProcessWithRetry` | services/messaging-service/src/consumer.py:106-122 | the loop over the real handlers computes the specified retry of three attempts on the tables, returns normally exactly if the job is dealt with, and then the effect is applied |
| `Consumers.Runner.ConsumeBatch` | services/conflict-detection-service/src/infrastructure/consumer/consumer.py:170-188 | the loop over entries delivers a prefix of the batch, stopping after a failed dead-letter write or ack, and everything acknowledged was applied or dead-lettered |
| `Consumers.ConflictConsumer.HandleBookingCreated` | services/conflict-detection-service/src/infrastructure/consumer/consumer.py:87-110 | assessment, reservations, key and verdict event commit together (even if the commit then reports failure) or, on a duplicate key or a fault, not at all, and the row locks end with the transaction |
| `Consumers.ConflictConsumer.HandleBookingUpdated` | services/conflict-detection-service/src/infrastructure/consumer/consumer.py:113-136 | CANCELLED and EXPIRED free all of the booking's rows, other statuses none, and every update is marked in the same transaction |
| `Consumers.MessagingConsumer.HandleBookingUpdated` | services/messaging-service/src/consumer.py:71-98 | a message to the booking's driver, in the service's words for the status, and the key are written together or not at all |
| `PythonRefinement.DeliveriesAreSagaSteps` | services/conflict-detection-service/src/infrastructure/consumer/consumer.py:158-188 | any deliveries and redeliveries to the three Python consumers, under any names and faults, leave their tables as some stretch of saga steps does; soundness, the log and inbox facts survive them, and the no-orphan invariant does if they assess no creation under a second name |
| `PythonRefinement.RetryIsSagaSteps` | services/conflict-detection-service/src/infrastructure/consumer/consumer.py:139-155 | the same for one retry loop |
| `PythonRefinement.EffectIsSagaSteps` | services/conflict-detection-service/src/application/use_cases.py:47-85 | the committed effect of each handler is a stretch of saga steps on the same tables, and keeps what the saga keeps |
| `PythonRefinement.OneMessagePerAppliedUpdate` | services/messaging-service/src/consumer.py:71-122 | after any deliveries from any reachable state the inbox holds exactly one message per applied update and consumer name, the one for that update, and an update is applied exactly if it was before or one of its deliveries committed |
| `GoConsumer.RetryRepeatsOneUpdate` | services/booking-service/internal/infrastructure/redisconsumer/consumer.go:120-165 | retrying an unmarked event logs the same update once per attempt whose write committed before the mark, sets the status once and for all, and marks the event exactly if some attempt's mark committed, reported or not |
| `GoRefinement.RetryIsSagaSteps` | services/booking-service/internal/infrastructure/redisconsumer/consumer.go:120-165 | under any faults, commits that report failure included, the tables the retry loop leaves are those some stretch of saga steps leaves, so the saga's invariant survives the loop |
| `GoRefinement.AttemptIsSagaSteps` | services/booking-service/internal/infrastructure/redisconsumer/consumer.go:134-165 | the same for one attempt, crash points included |
| `GoConsumer.MarkedEventIsSkipped` | services/booking-service/internal/infrastructure/redisconsumer/consumer.go:147-153 | an event already marked changes nothing, whatever fails, and the loop returns exactly if some lookup works |
| `GoConsumer.UnknownBookingGivenUp` | services/booking-service/internal/application/booking_service.go:45-47 | an assessment of an unknown booking changes nothing and is given up on |
| `GoConsumer.AckedWithoutTrace` | services/booking-service/internal/infrastructure/redisconsumer/consumer.go:104-114 | a message is acknowledged whenever the XACK gets through, however it fared, and leaves a mark or a dead-letter copy if and only if the dead-letter stream is up or the booking is known and some attempt's mark committed |
| `GoConsumer.DeadLettersAreFailures` | services/booking-service/internal/infrastructure/redisconsumer/consumer.go:104-114 | the dead-letter stream grows by exactly the messages that could not be dealt with, while it is up, and every message is acknowledged if the XACK gets through |
| `GoConsumer.LostMessage` | services/booking-service/internal/infrastructure/redisconsumer/consumer.go:182-189 | three failed writes and a dead-letter stream that is down lose an acknowledged message |
| `GoConsumer.Consumer.HandleMessage` | services/booking-service/internal/infrastructure/redisconsumer/consumer.go:134-165 | check, handling and mark act on the tables as three separate transactions, in that order, each of which may fail or commit and report failure |
| `GoConsumer.Consumer.HandleMessageWithRetry` | services/booking-service/internal/infrastructure/redisconsumer/consumer.go:120-132 | up to three attempts, ending at the first success; it returns exactly if a lookup finds the event marked before, or the booking is known and a mark reports success or is found by a later attempt |
| `GoConsumer.Consumer.ConsumeMessage` | services/booking-service/internal/infrastructure/redisconsumer/consumer.go:104-114 | a message that could not be dealt with goes once to the dead-letter stream if that is up, one that was dealt with does not; the acknowledgement follows in any case and its own failure is ignored |
| `Bookings.BookingRepository.Create` | services/booking-service/internal/infrastructure/postgres/booking_repository.go:48-77 | the booking, whatever its status, and its created event, whose departure is cut to whole seconds, are written together; a taken id or a rollback writes neither; the log goes on explaining the table exactly if the booking is PENDING |
| `Bookings.BookingRepository.UpdateStatus` | services/booking-service/internal/infrastructure/postgres/booking_repository.go:142-181 | whatever the current status, row and update event change together, even if the commit then reports failure; an unknown id or a rollback changes nothing |
| `Bookings.BookingRepository.Cancel` | services/booking-service/internal/infrastructure/postgres/booking_repository.go:183-219 | cancels exactly the driver's own booking, with its event, whatever its status |
| `Bookings.BookingRepository.FindExpired` | services/booking-service/internal/infrastructure/postgres/booking_repository.go:221-254 | lists, once each, exactly the bookings whose departure is past and whose status is PENDING or APPROVED |
| `Bookings.BookingRepository.MarkEventProcessed` | services/booking-service/internal/infrastructure/postgres/booking_repository.go:274-285 | adds the mark, reporting whether it was new |
| `Bookings.BookingService.CreateBooking` | services/booking-service/internal/application/booking_service.go:98-115 | the caller's booking under a fresh id and its event, with the departure cut to whole seconds, or neither |
| `Bookings.BookingService.HandleRouteAssessed` | services/booking-service/internal/application/booking_service.go:23-51 | writes APPROVED or REJECTED with its event; an unknown booking is an error that changes nothing |
| `Bookings.BookingService.CancelBooking` | services/booking-service/internal/application/booking_service.go:125-151 | cancels if and only if the booking is the driver's own and PENDING or APPROVED, and tells the other cases apart |
| `Bookings.LiveBookingsMove` | services/booking-service/internal/domain/booking.go:23-31 | a booking may be cancelled or expired exactly while PENDING or APPROVED, and assessed exactly while PENDING; nothing leads back to PENDING |
| `Bookings.BookingService.ExpireBookings` | services/booking-service/internal/application/booking_service.go:70-96 | after a pass every PENDING or APPROVED booking past departure is EXPIRED, but for those whose write failed; every other booking is as it was; and there is one event for each change |
| `Bookings.BookingService.ExpireAll` | services/booking-service/internal/application/booking_service.go:76-93 | the loop passes over a booking whose write fails, or commits and reports failure, and goes on with the rest |
| `Bookings.UpdateKeepsReplay` | services/booking-service/internal/infrastructure/postgres/booking_repository.go:145-173 | writing a status and its event together keeps the table equal to the replayed log |
| `BookingRefinement.CancelIsSagaSteps` | services/booking-service/internal/application/booking_service.go:125-151 | cancelling a live booking leaves table and log as the saga's check and write do |
| `BookingRefinement.ExpiryIsSagaSteps` | services/booking-service/internal/application/booking_service.go:70-96 | an expiry pass, in whatever order it finds the bookings and whichever writes fail, leaves table and log as some stretch of saga steps does |
| `ConflictDetection.ConflictService.AssessAndReserve` | services/conflict-detection-service/src/application/conflict_service.py:29-86 | approves a known route without repeats exactly if each segment is known and, when the trip gets there (five minutes per segment after departure), fewer rows than places are in its way; then adds exactly its windows, otherwise nothing |
| `ConflictDetection.ConflictService.AllHaveRoom` | services/conflict-detection-service/src/application/conflict_service.py:64-74 | the counting loop answers whether at every position of the route fewer rows than places are in the way |
| `ConflictDetection.ConflictService.ReserveAll` | services/conflict-detection-service/src/application/conflict_service.py:76-80 | the inserting loop appends one window per segment, 300 s apart |
| `ConflictDetection.ConflictService.ReleaseReservations` | services/conflict-detection-service/src/application/conflict_service.py:88-89 | the booking keeps nothing, the others keep everything, and the result counts the rows freed |
| `ConflictDetection.ConflictService.GetSegmentUtilization` | services/conflict-detection-service/src/application/conflict_service.py:91-101 | each requested segment gets the overlap count of its last requested window |
| `ConflictDetection.ConflictService.CheckRoutesAvailability` | services/conflict-detection-service/src/application/conflict_service.py:103-137 | for a candidate whose id is not repeated later, the answer is whether all its segments are known and none is crowded when the trip gets there, which without repeated segments is what an assessment would decide; reservations are untouched |
| `ConflictDetection.ConflictService.CheckCandidate` | services/conflict-detection-service/src/application/conflict_service.py:110-135 | a candidate is available exactly if every segment is known and none is crowded when the trip gets there |
| `ConflictDetection.SegmentRepository.GetCapacities` | services/conflict-detection-service/src/infrastructure/postgres/segment_repository.py:10-18 | the dictionary loop returns the known segments with their capacities, a null one leaving no place, and locks exactly those rows in ascending id |
| `ConflictDetection.RouteRepository.GetById` | services/conflict-detection-service/src/infrastructure/postgres/route_repository.py:10-19 | a known route with its segments, none if the column is null, and its duration, an hour if that is null or zero |
| `ConflictDetection.ReservationRepository.Create` | services/conflict-detection-service/src/infrastructure/postgres/reservation_repository.py:26-40 | appends one window |
| `ConflictDetection.ReservationRepository.DeleteByBooking` | services/conflict-detection-service/src/infrastructure/postgres/reservation_repository.py:42-47 | deletes exactly the booking's rows and counts them |
| `ConflictDetection.ReservationRepository.GetUtilization` | services/conflict-detection-service/src/infrastructure/postgres/reservation_repository.py:66-88 | every id asked for is in the answer with its overlap count, zero included |
| `Assessment.CapacitiesComplete` | services/conflict-detection-service/src/application/conflict_service.py:54-62 | the size test holds exactly when all segments are known and none is repeated; the preview's test exactly when all are known |
| `Assessment.FitMeansRoom` | services/conflict-detection-service/src/application/conflict_service.py:64-74 | the checks pass exactly if each segment is known and fewer rows than places, counted as positions in the table, overlap the five-minutes-later window there |
| `Assessment.RoomIsApproved` | services/conflict-detection-service/src/application/conflict_service.py:54-86 | a route without repeats on which every segment has fewer rows than places, whenever they are, is approved |
| `Assessment.RefusalIsHalfFull` | services/conflict-detection-service/src/application/conflict_service.py:64-74 | a refusal of known segments without repeats means as many rows as places in the way of some segment's window, and an instant of it at least half full where the rows are as long as the trip |
| `Assessment.ApprovalKeepsCapacity` | services/conflict-detection-service/src/application/conflict_service.py:64-80 | an approval's inserts keep every segment within capacity at every instant |
| `Assessment.OneWindowPerSegment` | services/conflict-detection-service/src/application/conflict_service.py:76-80 | an approved booking gets exactly one window on each segment of its route and none elsewhere |
| `Assessment.PreviewOverlooksRepeats` | services/conflict-detection-service/src/application/conflict_service.py:118-123 | a route that repeats a segment passes the preview and is refused by the assessment |
| `Reservations.LoadWithinOverlap` | services/conflict-detection-service/src/infrastructure/postgres/reservation_repository.py:14-24 | an overlap count bounds the load at every instant of its window |
| `Reservations.InsertKeepsCapacity` | services/conflict-detection-service/src/application/conflict_service.py:64-80 | windows on distinct segments, each counted below capacity, keep every instant within capacity |
| `Reservations.RemoveKeepsCapacity` | services/conflict-detection-service/src/infrastructure/postgres/reservation_repository.py:42-47 | deleting the rows of any set of ids keeps every instant within capacity |
| `Reservations.RemoveLowersOverlap` | services/conflict-detection-service/src/infrastructure/postgres/reservation_repository.py:42-47 | deleting the rows of any set of ids only lowers an overlap count |
| `Reservations.RejectionIsHalfFull` | services/conflict-detection-service/src/application/conflict_service.py:64-74 | if the check fails and the windows there are at least as long as the new one, some instant of the new window is at least half full |
| `Reservations.HalfFullIsTight` | services/conflict-detection-service/src/application/conflict_service.py:64-74 | half is the best possible bound for every capacity n: a table of n trips as long as the new one fails its check, though no instant is loaded above n/2 rounded up |
| `Reservations.SinglePlaceCheckIsExact` | services/conflict-detection-service/src/application/conflict_service.py:64-74 | with one place the check fails exactly when the new window meets an occupied instant |
| `Segmentation.SegmentedKeepsPartition` | services/routes-service/src/application/use_cases.py:64-89 | edge sets stay pairwise disjoint, ids unique, and existing segments unaltered |
| `Segmentation.SegmentedCovers` | services/routes-service/src/application/use_cases.py:78-85 | new segments own only edges nobody owned, at least one each, and afterwards every edge of the steps is owned |
| `Segmentation.LeftoversPartition` | services/routes-service/src/application/use_cases.py:68-87 | what the steps leave over splits the unowned edges into disjoint non-empty sets |
| `Segmentation.EveryEdgeOwnedOnce` | services/routes-service/src/application/use_cases.py:64-89 | each step edge has exactly one owner, which the call returns, and each returned id owns a step edge |
| `Segmentation.SharedEdgeSharesSegment` | services/routes-service/src/application/use_cases.py:64-89 | two routes over a common edge share a segment id, however far apart they were created |
| `Segmentation.SegmentedAgain` | services/routes-service/src/application/use_cases.py:64-89 | repeating a call at any later time creates nothing and returns the same ids |
| `Segmentation.OwnersStay` | services/routes-service/src/infrastructure/repositories/route_repository.py:82-93 | a table that grows keeps the owners of edges already owned |
| `Segmentation.CapacityOfRow` | services/conflict-detection-service/src/infrastructure/postgres/segment_repository.py:10-18 | with unique ids, every row is found with its own capacity, a null one as zero |
| `RouteService.RouteUseCases.CreateSegments` | services/routes-service/src/application/use_cases.py:64-89 | the loops meet the segmentation specification: distinct ids, exactly the owners of the step edges, one new segment per non-empty leftover, listed in the order in which they are first driven over, whatever order the table scan has |
| `RouteService.RouteUseCases.SegmentStep` | services/routes-service/src/application/use_cases.py:68-87 | one step lists every overlapping segment once and creates one for its unowned edges, if any |
| `RouteService.RouteUseCases.CreateRoutes` | services/routes-service/src/application/use_cases.py:32-62 | a known pair answers from the table and changes nothing; a new pair records one route per alternative, whose ids are exactly the owners of its edges in driving order |
| `RouteService.IdsInOrderLater` | services/routes-service/src/application/use_cases.py:64-89 | segments created for other routes never change a route's list |
| `RouteService.RouteReadsBack` | services/routes-service/src/application/use_cases.py:99-109 | a recorded route reads back as all its segments, in route order |
| `RouteService.UnknownIdsAreSkipped` | services/routes-service/src/application/use_cases.py:105-109 | ids without a row are passed over, wherever in the list they stand |
| `RouteService.SegmentRepository.FindAllOverlapping` | services/routes-service/src/infrastructure/repositories/route_repository.py:82-93 | returns exactly the segments sharing an edge, each once |
| `RouteService.SegmentRepository.Create` | services/routes-service/src/infrastructure/repositories/route_repository.py:95-112 | appends one row with a fresh id |
| `RouteService.RouteRepository.FindByOriginDestination` | services/routes-service/src/infrastructure/repositories/route_repository.py:20-26 | returns exactly the routes of the pair |
| `RouteService.RouteRepository.Create` | services/routes-service/src/infrastructure/repositories/route_repository.py:28-46 | appends one row with a fresh id |
| `StepExtraction.ExtractStepsWithEdges` | services/routes-service/src/application/use_cases.py:112-144 | returns the steps of positive distance that have edges on the path, each with the edges along its own nodes: it begins at the node where the step before it ended and passes as many nodes as it has coordinates |
| `StepExtraction.ExtractedIsDriven` | services/routes-service/src/application/use_cases.py:120-142 | cutting the path at the cursors gives each step exactly the edges between its own nodes, clipped to the path |
| `StepExtraction.OneChain` | services/routes-service/src/application/use_cases.py:120-142 | every list of steps has exactly one chain of starting nodes |
| `StepExtraction.StepHasItsEdges` | services/routes-service/src/application/use_cases.py:122-142 | a step that fits on the path has one edge fewer than coordinates, from its first node to its last, where the next step begins |
| `StepExtraction.EdgesBetween` | services/routes-service/src/application/use_cases.py:127-131 | the inner loop collects exactly the clipped slice of the path |
| `StepExtraction.SlicesTilePrefix` | services/routes-service/src/application/use_cases.py:120-144 | the kept slices concatenate to the path up to the cursor when every zero-distance step has an empty slice, and to something shorter otherwise |
| `StepExtraction.StepsTilePath` | services/routes-service/src/application/use_cases.py:112-144 | the kept steps put together are the whole path if and only if the steps reach its last node and no zero-distance step has edges |
| `StepExtraction.WayBack` | services/routes-service/src/application/use_cases.py:128-131 | reversing the nodes reverses the edge list |
| `EdgeIds.EdgeIdReadsBack` | services/routes-service/src/application/use_cases.py:130-131 | an edge id read at its first dash past the start gives its two node numbers back, smaller first |
| `EdgeIds.EdgeIdsNamePairs` | services/routes-service/src/application/use_cases.py:130-131 | two edge ids are the same string if and only if they name the same unordered pair of nodes |
| `Polyline.PiecesTile` | services/bff/traffic-frontend/src/components/RouteMap.tsx:451-471 | with at least as many edges as pieces, pieces tile the line, neighbours share endpoints, and sizes are the share rounded down or up |
| `Polyline.PiecesAreSingleEdges` | services/bff/traffic-frontend/src/components/RouteMap.tsx:451-471 | with fewer edges than pieces, every piece is exactly one edge |
| `Polyline.Bounds` | services/bff/traffic-frontend/src/components/RouteMap.tsx:460-465 | every piece has at least one edge and lies on the line |
| `Polyline.StartIsFloor` | services/bff/traffic-frontend/src/components/RouteMap.tsx:459-460 | a piece starts at the last coordinate not beyond its proportion of the edges |
| `Polyline.AllEdgesDrawn` | services/bff/traffic-frontend/src/components/RouteMap.tsx:451-471 | every edge of the line is in some piece |
| `Polyline.PiecesMeet` | services/bff/traffic-frontend/src/components/RouteMap.tsx:467-470 | on the coordinates, neighbouring pieces meet in a shared point |
| `Polyline.PieceEnds` | services/bff/traffic-frontend/src/components/RouteMap.tsx:459-470 | there is one piece per segment, of at least two points, from its start coordinate to its end coordinate |
| `RateLimiter.AnyMinuteAdmitsTwiceLimit` | services/api-gateway/src/main.py:48-56 | over any request sequence, any 60 s interval admits at most 200 requests |
| `RateLimiter.WindowAdmitsLimit` | services/api-gateway/src/main.py:48-56 | each window admits at most 100 requests, and the current one exactly its count up to 100 |
| `RateLimiter.WindowsApart` | services/api-gateway/src/main.py:50-53 | two windows start at least 60 s apart, the later after every request of the earlier |
| `RateLimiter.OnlyTwoWindows` | services/api-gateway/src/main.py:50-53 | requests less than 60 s apart have only their own two windows between them |
| `RateLimiter.Limiter.CheckRateLimit` | services/api-gateway/src/main.py:48-56 | counts the request and admits it up to 100; an unreachable Redis admits it uncounted |

## Left out

- OSRM and Mapbox answers are arbitrary inputs; fetching them, geometry, and the SHA-256 `osm_way_id` are not modelled.
- A segment's name, region and the order of its `edge_ids` are not modelled: an edge list is a set of edges.
- JSON, event envelopes, timestamps as text and uuid syntax: events are datatypes, so a malformed message appears only as a failing attempt.
- Sleeps, back-off times and poll intervals: only the order and number of attempts are kept.
- HTTP, authentication, passwords, proxying and the web pages other than the polyline split.
- Redis and Postgres: only append, delivery, acknowledgement, row locks, SKIP LOCKED, unique keys, and atomic commit and rollback. An IntegrityError is taken to mean a duplicate processed-event key.
- Liveness after crashes: consumers never read pending entries again, so the saga's termination results are for failure-free handling, and safety for all runs.
- Concurrent runs of `_create_segments`: they take no locks, so the partition results are for sequential calls.
- Availability requests with several candidates lock each candidate's rows in turn; they are not transactions of the `Allocator` machine, so `DeadlockFree` does not cover them.
- A failing query for expired bookings or for a booking by id: both return an error before anything is written.
- A negative value in the `capacity` column: capacities are natural numbers, null counting as zero.
- Changing or deleting a segment or route row: no code path does, so the catalogue only grows.
- In `Allocator` a created event is named by its booking; `Saga` shows that a booking has one created event, and `AllocatorSaga` relates the two.
- In `Saga` an assessment may also refuse a booking that would fit; runs of the code are among the runs allowed. The termination results use the exact decision.
- A release's DELETE removes the rows its statement saw; the row locks that DELETE itself takes are not modelled.
- Primary keys: the rows of one assessment share an id, which no other assessment has; no code path tells them apart.
- A failing XADD is taken to add nothing; one that adds its entry and reports failure is not modelled.
- `get_by_booking`, `GetAll`, the `expires_at` and `estimated_arrival` columns and the route geometry: plain reads and unused data.
- Polyline.PiecesTile: the line's indices are exact integers; the rounding of a floating-point quotient beyond 2^53 is not modelled.
- RateLimiter.AnyMinuteAdmitsTwiceLimit: the expiry is taken to be set with the first increment, and Redis to be reachable throughout.
