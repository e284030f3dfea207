# Notification delivery: a Dafny model and its proofs

Three services move a notification from an API request to an external provider. The API
stores rows and publishes ready or scheduled events; the delivery scheduler keeps a table of
future deliveries and publishes those that are due; the processor takes ready messages from
three priority subjects, calls the provider and reports the result, which the API writes
back to the row. They share a NATS JetStream broker, PostgreSQL and Redis. This project
models the hand-written protocol between those parts and proves what it keeps.

`dafny verify dfyconfig.toml` checks everything.

## How the model is laid out

| file | what it models |
|---|---|
| `RedisLock.dfy` | the per-notification lock, as a timed key space, and any number of workers using it under a clock |
| `DeliveryPipeline.dfy` | one delivery: lock, rate limit, provider, status event, unlock, then Ack, Nak or delayed Nak |
| `MessageLifecycle.dfy` | all deliveries of one message under the broker's delivery cap |
| `MessageTimeline.dfy` | the same deliveries on the clock, against the message's own lock key |
| `Backoff.dfy` | the retry delay |
| `PriorityRouter.dfy`, `RouterInterleaving.dfy` | the weighted router: one undisturbed call, and many workers, producers and closes, one atomic operation at a time |
| `ScheduleRepository.dfy`, `Dispatcher.dfy`, `BatchPublisher.dfy` | the schedule table's statements, the dispatcher's `Tick`, the pipelined publish |
| `ScheduleConsumers.dfy`, `SchedulerProtocol.dfy` | the schedule and cancel consumers, and many dispatchers with them at one table |
| `DueConsumer.dfy` | the batch consumer that turns due events into ready events |
| `NotificationStatus.dfy`, `NotificationService.dfy`, `StatusRaces.dfy` | the status graph, `Cancel` and `UpdateStatus`, the status event consumer, and their races |
| `CrossService.dfy` | the whole loop: workers, broker, status events and API operations in any interleaving |
| `BatchCreate.dfy` | creating a batch, in the service and in the handler around it |
| `Listings.dfy`, `Pagination.dfy` | what ORDER BY promises; keyset and offset listing over a table that changes between fetches |
| `Subscriber.dfy` | the two fetch loops and the attempt number |
| `Ports.dfy`, `Events.dfy`, `Traces.dfy`, `Division.dfy` | shared vocabulary, the events between the services, runs of a state machine, division facts |

Objects that the services update in place (locker, pipeline, router, repositories,
publisher, services) are classes whose methods are proved against functions of the old
state; concurrent behaviour is a state machine over the atomic steps of those methods, and
its theorems quantify over every run (`Traces.Trace`, in which a step that is not enabled
changes nothing).

Clocks, random draws, generated ids, rate limiter, provider and every failure of Redis,
PostgreSQL or NATS are parameters, so the theorems hold for all of them. A publish that is
not confirmed may have been stored all the same. SQL statements are
atomic steps: a claim may return any set of rows that its `WHERE`, `ORDER BY`, `LIMIT` and
`SKIP LOCKED` allow.

## Where the code and its comments disagree

The model follows the code.

- The attempt number is the broker's delivery count (`shared/messaging/nats/subscriber.go:179-184`).
  A rate-limited delivery therefore uses up an attempt, although
  `processor/internal/delivery/pipeline.go:80-82` says it does not (`MessageLifecycle.DenialsConsumeAttempts`).
- The backoff exponent is attempt − 2 (`processor/internal/service/retry.go:19`), not attempt − 1 as in line 16.
- `UpdateStatus` filters by primary key only (`api/internal/db/postgres/notification_repo.go:61-66`);
  the optimistic locking of `api/README.md:134` is not there (`StatusRaces.DeliveredCanBecomeCancelled`).
- A transition to the same status succeeds (`api/internal/domain/notification/models.go:89-91`), so a
  repeated status event is acked, contrary to `api/internal/transport/messaging/delivery_result_consumer_test.go:181`
  (`NotificationService.RepeatedEventPasses`).
- A missed lock acks the message without a status event (`processor/internal/delivery/pipeline.go:64-68`),
  and the lock is released before the Ack or Nak is sent.
- The lock value names no owner (`shared/lock/redis.go:34`), so an overrun breaks exclusion (`LockProtocol.OverrunBreaksExclusion`).
- The cancel consumer's "the dispatcher never publishes it"
  (`deliveryscheduler/internal/transport/messaging/notification_schedule_cancelled_consumer.go:14`) holds
  for a row in the table, not for one a dispatcher is publishing (`SchedulerProtocol.CancelFinalIff`).
- `Next` draws its ticket with `Add`, which yields the counter after the increment, so a new router begins
  at slot 1 of its table, not at slot 0 (`Router.PriorityRouter.Next`).

## Properties that fail, and exactly when they hold

- The backoff stays in its documented band on every platform iff the attempt number is at
  most 29 (`Backoff.BandHoldsIffBelowThirty`).
- A provider that keeps failing is reported as failed iff the notification's attempt limit is
  within the broker's delivery cap (`MessageLifecycle.ExhaustionReportedIffWithinCap`); with the
  default configuration limits from six on are beyond it (`MessageLifecycle.DefaultCapReportsUpToFive`).
- As long as no further delivery stores a status event without being acked, a message keeps to one
  event iff no delivery did so before, or one did and the message has since died or missed the lock (`MessageLifecycle.SingleEventIff`). A worker that
  dies between its event and its Ack can leave "delivered" and then "failed" in the stream
  (`MessageLifecycle.LateCrashReportsTwice`).
- A message is acked by a missed lock iff a delivery finds a lock key that an earlier delivery of
  it left less than ten seconds before (`MessageTimeline.SilentAckIffCollision`); an Unlock that is not
  executed, or a lost TryLock reply, followed by a plain Nak suffices
  (`MessageTimeline.FailedUnlockLosesReport`, `MessageTimeline.LostLockReplyDropsMessage`).
- A ready event is published for a due message that is not acked iff the broker stored it and the
  confirmation was lost (`DueConsumer.AckedIffConfirmed`).
- A second worker gets a held lock iff the holder overran ten seconds (`LockProtocol.SecondHolderIffOverrun`).
- A cancel is final iff no dispatcher holds the row and its schedule event is not consumed again
  (`SchedulerProtocol.CancelFinalIff`, `SchedulerProtocol.RescheduleUndoesCancel`).
- An id is published at most once for each delivery of its schedule event and once more for each failed
  publish (`SchedulerProtocol.PublicationBound`); scheduled twice, it can be with two dispatchers
  (`SchedulerProtocol.RescheduledIsHeldTwice`).
- A retry's backoff outlasts the lock key for every draw and platform iff the attempt it follows is number
  28 or below (`MessageTimeline.BackoffOutlastsKeyIff`).
- A row keeps its status in every continuation iff it has left pending and no operation that
  read an older status is still to write another one (`StatusRaces.FrozenIffDecided`).
- A newest-first page followed by cursor pages is complete, whatever the order of tied rows, iff the rows
  fit on one page or the row that ends the page ties with no other and the rows created no earlier are
  those whose ids are no lower (`Pagination.MixedWalkCompleteIff`). The rows of one batch insert tie, so a
  batch larger than a page fails (`Pagination.TiedRowsDoNotPage`).
- Offset pages show each row exactly once for every order the queries can give tied rows iff no tie
  straddles a page boundary (`Pagination.ListPagesCompleteIff`).
- The index that `Next` computes is negative iff the incremented counter is negative and no multiple of
  the table size (`Router.IndexPanicsIff`); one of the two calls after the counter wraps panics iff
  there is more than one slot (`Router.WrapPanicsIff`).

## Model

| member | source | states |
|---|---|---|
| RedisLock.RedisLocker.TryLock | shared/lock/redis.go:28-41 | acquired exactly when the key is absent or expired and the reply arrives; then the key expires ten seconds from now; a lost reply is an error that may still have set the key |
| RedisLock.RedisLocker.Unlock | shared/lock/redis.go:43-54 | every executed call deletes the key, whoever set it |
| RedisLock.LockKeyInjective | shared/lock/redis.go:33 | different notifications have different keys |
| LockProtocol.MutualExclusion | shared/lock/redis.go:14-54 | for any workers, faults and clock: while every holder releases within the expiry time, no two hold one notification |
| LockProtocol.UnlockDeletesOwnKey | shared/lock/redis.go:43-54 | in such a run an Unlock deletes the key its own worker set and every other holder keeps its key |
| LockProtocol.SecondHolderIffOverrun | shared/lock/redis.go:28-41 | after any wait, a second worker gets a held lock iff the holder has then overrun ten seconds |
| LockProtocol.ExpiryBounded | shared/lock/redis.go:34 | in every run at all, no key expires more than ten seconds from now |
| LockProtocol.BlockedAtMostTtl | shared/lock/redis.go:14-41 | a key nobody deletes blocks for at most ten seconds |
| LockProtocol.OverrunBreaksExclusion | shared/lock/redis.go:43-54 | a run in which a late Unlock removes another worker's key and two workers hold one notification |
| DeliveryPipeline.NotificationDeliveryPipeline.ApplyRateLimit | processor/internal/delivery/pipeline.go:83-97 | allowed, limiter error, or a retry after the limiter's delay, one second when that is not positive |
| DeliveryPipeline.NotificationDeliveryPipeline.HandleDeliveryResult | processor/internal/delivery/pipeline.go:102-133 | a retryable failure below the limit publishes nothing and asks for the backoff of the next attempt; any other result is published, and completes iff the publish is confirmed; the event carries the notification's id, the attempt, the answer's HTTP code and latency, "delivered" with the provider's message id if it accepted and "failed" with its error text if not |
| DeliveryPipeline.NotificationDeliveryPipeline.PublishStatus | processor/internal/delivery/pipeline.go:135-141 | the event is in the stream iff the broker stored it, confirmed or not; the outcome is nil iff it was confirmed |
| DeliveryPipeline.NotificationDeliveryPipeline.RunLocked | processor/internal/delivery/pipeline.go:71-77 | one provider call exactly when the limiter allows it; a status event that tells the answer iff the answer was final and the publish was stored; the outcome follows from how the run ended |
| DeliveryPipeline.NotificationDeliveryPipeline.Run | processor/internal/delivery/pipeline.go:57-78 | provider calls, the status event and what it tells, outcome and lock table of a run for every combination of answers; a run that got the lock gives it back on every path |
| DeliveryPipeline.RetryIsBackedOff | processor/internal/delivery/pipeline.go:117-120 | a retry of attempt n waits for 60s 2^(n-1), at most 480s, and up to a fifth more |
| DeliveryPipeline.NotificationReadyConsumer.ProcessOne | processor/internal/transport/messaging/notification_ready_consumer.go:15-30 | Ack iff lock miss or confirmed status, delayed Nak iff rate limit or retry (with which delay), plain Nak iff error; provider calls, status events and lock table of the run |
| MessageLifecycle.DeliveryBudget | processor/internal/delivery/pipeline.go:57-133 | with no lock miss and at most maxDeliver - M wasted deliveries, the message ends acked and its last status event tells the answer of its last provider call; it is the only event iff no earlier delivery stored one without being acked |
| MessageLifecycle.BudgetIsTight | processor/internal/delivery/pipeline.go:57-133 | with one wasted delivery more there is a run that dies unreported |
| MessageLifecycle.SendBound | processor/internal/delivery/pipeline.go:57-141 | at most min(maxDeliver, M + F) provider calls, one fewer if the message was not acked for an event; F counts the deliveries with a final answer that were not acked |
| MessageLifecycle.SendBoundIsTight | processor/internal/delivery/pipeline.go:57-141 | for every F that the cap leaves room for, deliveries with exactly M + F provider calls |
| MessageLifecycle.EventsPerMessage | processor/internal/delivery/pipeline.go:57-141 | the status events are that of the acked delivery, unless it missed the lock, and one for each delivery that stored an event without being acked; no other |
| MessageLifecycle.SingleEventIff | processor/internal/delivery/pipeline.go:135-141 | at most one event in every continuation that stores no further unacked event iff no delivery stored one without being acked, or one did and the message has since died or missed the lock |
| MessageLifecycle.LateCrashReportsTwice | processor/internal/transport/messaging/notification_ready_consumer.go:15-30 | a worker that dies between its status event and its Ack: the message is sent again and the stream says delivered and then failed |
| MessageLifecycle.SettledWithinCap | shared/messaging/nats/subscriber.go:120-124 | a message still waiting has used exactly as many deliveries as were made, fewer than the cap |
| MessageLifecycle.ExhaustionReportedIffWithinCap | processor/internal/delivery/pipeline.go:143-148 | for any deliveries that all fail retryably: the message is reported failed at attempt M iff M is within the delivery cap, after min(M, cap) provider calls; otherwise it dies silently |
| MessageLifecycle.DenialsConsumeAttempts | processor/internal/delivery/pipeline.go:80-97 | for any order of rate-limit denials and retryable failures: the message is reported failed at the first provider call on or after attempt M, iff the cap leaves one; provider calls are deliveries minus denials |
| MessageLifecycle.DefaultCapReportsUpToFive | processor/internal/app/app.go:66-76 | with the default cap of MAX_ATTEMPTS + 1 deliveries, exhaustion is reported at the notification's limit, or at the fourth attempt if it has none; for limits above five never |
| MessageLifecycle.LifeKeepsInv | processor/internal/delivery/pipeline.go:57-148 | after every sequence of deliveries: counts, phases, events, retries and provider calls agree, and calls without a final answer number at most M - 1 |
| MessageTimeline.MissIffKeyLeft | shared/lock/redis.go:28-54 | with one delivery outstanding, a TryLock that is answered misses iff an earlier delivery of the same message left its key less than ten seconds before (lost reply, Unlock not executed, or death) |
| MessageTimeline.SilentAckIffCollision | processor/internal/delivery/pipeline.go:58-69 | the message is acked by a lock miss iff one of its deliveries finds such a key |
| MessageTimeline.BudgetWhenSpaced | processor/internal/delivery/pipeline.go:57-133 | the delivery budget without a hypothesis on the lock, when deliveries that leave their key are ten seconds from the next |
| MessageTimeline.RetryOutlastsKey | processor/internal/delivery/pipeline.go:117-120 | a visit that ended in a retry on attempt 28 or below, with its backoff waited for: the next TryLock comes after the key it left has expired |
| MessageTimeline.RetriesNeverCollide | processor/internal/delivery/pipeline.go:64-69 | when only such retries leave their key, no delivery misses the lock |
| MessageTimeline.BackoffOutlastsKeyIff | processor/internal/service/retry.go:17-25 | the backoff that attempt n asks for outlasts the key for every draw and platform iff n <= 28 |
| MessageTimeline.FailedUnlockLosesReport | processor/internal/delivery/pipeline.go:64-69 | an accepted call whose event is not stored and whose Unlock is not executed: the next delivery misses the lock and the message is acked with no event |
| MessageTimeline.LostLockReplyDropsMessage | processor/internal/delivery/pipeline.go:58-68 | a TryLock whose reply is lost: the next delivery misses the lock and the message is acked without any provider call |
| MessageTimeline.VisitIsRun | processor/internal/delivery/pipeline.go:57-78 | the lock table after a visit that is not cut short is the one the contract of Run gives |
| MessageTimeline.LifeIsPlanned | processor/internal/delivery/pipeline.go:57-78 | the message on the clock lives the life of the deliveries the lock lets it have |
| Backoff.BandHoldsIffBelowThirty | processor/internal/service/retry.go:17-25 | the delay is within [base, 1.2 base], base = min(60s 2^(n-2), 480s), for every draw and platform iff n <= 29 |
| Backoff.BaseIsNominal | processor/internal/service/retry.go:17-22 | for 2 <= n <= 29 the product fits int64 nanoseconds and the capped base is the nominal one |
| Backoff.DelayInBand | processor/internal/service/retry.go:17-25 | the delay of attempts 2..29 is in that band and does not wrap |
| Backoff.EveryDelayOccurs | processor/internal/service/retry.go:23-24 | every whole delay from the base up to 1.2 times the base comes out for some draw |
| Backoff.OverflowLeavesBand | processor/internal/service/retry.go:19-24 | from attempt 30 on there is a platform answer that leaves the band |
| Backoff.DelaysIncreaseUntilCap | processor/internal/service/retry.go:17-25 | delays strictly increase up to attempt 5 whatever the two jitters |
| Backoff.TotalBackoffBounds | processor/internal/service/retry.go:17-25 | the waits before deliveries 2..M sum to between S and 1.2 S, S = 60s (2^(M-1) - 1) up to M = 5 and 900s + 480s (M - 5) after |
| Router.PriorityRouter.constructor | processor/internal/delivery/priorityrouter.go:30-58 | the slot table has each source as often as its weight, in source order, and nothing else; the counter starts at zero |
| Router.PriorityPicksSource | processor/internal/transport/messaging/notification_ready_consumer.go:55-69 | high, normal and low priority go to the topics of sources 0, 1 and 2, an unknown priority to none of them |
| Router.PriorityRouter.Next | processor/internal/delivery/priorityrouter.go:63-102 | one undisturbed call takes one ticket and the head of the chosen source, no other channel changes; with all empty, what the wait on the first source brings |
| Router.PriorityRouter.TryReceive | processor/internal/delivery/priorityrouter.go:67-83 | the head of a non-empty channel, or nothing |
| Router.ChosenMeaning | processor/internal/delivery/priorityrouter.go:66-84 | the chosen source is the scheduled one if it has a value, else the first that has, and none iff all are empty |
| Router.IndexPanicsIff | processor/internal/delivery/priorityrouter.go:64 | for every int64 counter: the index is negative iff the incremented counter is negative and no multiple of W; it is never out of range above, and (cursor + 1) mod W while the counter has not wrapped |
| Router.WrapPanicsIff | processor/internal/delivery/priorityrouter.go:64 | one of the two calls after the counter wraps panics iff W > 1 |
| Router.FullRound | processor/internal/delivery/priorityrouter.go:42-64 | any W consecutive tickets, wherever they begin, schedule each source as often as the table has it |
| Router.Share | processor/internal/delivery/priorityrouter.go:42-64 | among n tickets source i is scheduled floor(n/W) w_i times and at most min(w_i, n mod W) more |
| Router.EnoughSlots | processor/internal/delivery/priorityrouter.go:42-64 | ceil((p+1)/w_i) W tickets schedule source i at least p + 1 times |
| RouterInterleaving.AfterInv | processor/internal/delivery/priorityrouter.go:63-102 | in every interleaving: tickets are unique, each drawn ticket is pending, was served by its slot or found it empty, and received counts equal tickets served |
| RouterInterleaving.NothingLostOrReordered | processor/internal/delivery/priorityrouter.go:63-102 | for every source, received values followed by the buffer are what was sent, in order |
| RouterInterleaving.FalseMeansIdle | processor/internal/delivery/priorityrouter.go:85-101 | a call that returns false took nothing and saw every source empty at some moment of the call |
| RouterInterleaving.WindowFairness | processor/internal/delivery/priorityrouter.go:42-73 | of any W consecutive tickets, a source never found empty at its scheduled receives serves at least its weight |
| RouterInterleaving.WindowIsExact | processor/internal/delivery/priorityrouter.go:42-73 | when no source was found empty in the window, each serves exactly its weight |
| RouterInterleaving.UndisturbedCallIsNext | processor/internal/delivery/priorityrouter.go:63-102 | run without interference and through the wait, the atomic steps of a call do what the contract of Next says: the chosen source's head, or the value that arrives on source 0, or false with everything unchanged |
| RouterInterleaving.WokenCallReceives | processor/internal/delivery/priorityrouter.go:92-96 | a parked call woken while source 0 has a value receives exactly its head and does not return false |
| RouterInterleaving.FalseNeedsInterruption | processor/internal/delivery/priorityrouter.go:92-101 | in every run a call that returned false was interrupted in its wait or found source 0 closed and empty |
| RouterInterleaving.MissedIffFoundEmpty | processor/internal/delivery/priorityrouter.go:67-73 | a ticket counts as missed exactly when its scheduled receive came when the source was empty |
| RouterInterleaving.DrawAndTry | processor/internal/delivery/priorityrouter.go:64-73 | a ticket draw and its scheduled receive take the head of the slot's source, or start the scan |
| RouterInterleaving.BoundedWait | processor/internal/delivery/priorityrouter.go:42-102 | a value with p values ahead in its source has been received once ceil((p+1)/w_i) W further tickets did their scheduled receive |
| ScheduleRepository.Repository.UpsertAll | deliveryscheduler/internal/db/postgres/repository.go:21-34 | all rows or none; a statement that names a row twice is refused; a conflict changes the time and keeps the stored metadata |
| ScheduleRepository.Repository.DeleteByNotificationID | deliveryscheduler/internal/db/postgres/repository.go:36-45 | exactly that row is gone |
| ScheduleRepository.Repository.DeleteByScheduledAtBeforeReturning | deliveryscheduler/internal/db/postgres/repository.go:47-69 | a claim: distinct due rows, up to the limit, none due later than a due row left, removed from the table |
| ScheduleRepository.UpsertFresh | deliveryscheduler/internal/db/postgres/repository.go:21-34 | upserting rows that are not in the table adds exactly them |
| ScheduleRepository.ClaimThenUpsertRestores | deliveryscheduler/internal/db/postgres/repository.go:21-69 | re-enqueueing a claimed batch restores the table exactly |
| BatchPublisher.Publisher.PublishBatch | shared/messaging/nats/publisher.go:44-84 | no error iff the batch is empty or all messages were acknowledged before the context ended; the stream grows by what landed |
| BatchPublisher.LandedStops | shared/messaging/nats/publisher.go:50-64 | nothing after a message that cannot be handed over is sent |
| BatchPublisher.LandedIsPartOfBatch | shared/messaging/nats/publisher.go:44-84 | what lands is part of the batch, whatever fails |
| BatchPublisher.AckedBatchLands | shared/messaging/nats/publisher.go:67-83 | with all acknowledged exactly the batch lands, in order |
| BatchPublisher.LandedAt | shared/messaging/nats/publisher.go:50-83 | of distinct messages, number k lands iff it is acknowledged, or stored without that, and none before it is refused |
| Dispatcher.ScheduledNotificationDispatcher.constructor | deliveryscheduler/internal/scheduled_notification_dispatcher/dispatcher.go:25-34 | a batch size below one becomes 100 |
| Dispatcher.ScheduledNotificationDispatcher.Tick | deliveryscheduler/internal/scheduled_notification_dispatcher/dispatcher.go:36-63 | terminates; the rows removed are the rows published (and those of a batch whose re-enqueue failed, as it does when the context ended), each once; batches are due rows in order of time; how it ended follows from the answers; drained means nothing was due at the last claim |
| Dispatcher.RunRound | deliveryscheduler/internal/scheduled_notification_dispatcher/dispatcher.go:38-61 | one round: claim, publish, and re-enqueue unless all was acknowledged; table, stream and how it ended for every answer |
| Dispatcher.SplitsMeaning | deliveryscheduler/internal/scheduled_notification_dispatcher/dispatcher.go:36-63 | "before consists of after and removed" means: disjoint keys, together all keys, every row unchanged |
| Dispatcher.ClaimExtendsSplit | deliveryscheduler/internal/scheduled_notification_dispatcher/dispatcher.go:38-46 | a further claim moves exactly its rows from the table to the removed ones |
| Dispatcher.ClaimIsEarliest | deliveryscheduler/internal/db/postgres/repository.go:52-61 | the rows of a claim are due and none is later than a row left in the table |
| Dispatcher.BatchExtends | deliveryscheduler/internal/scheduled_notification_dispatcher/dispatcher.go:36-63 | rows of a later batch are scheduled no earlier than those of the batches before |
| Dispatcher.PublishedOnceEach | deliveryscheduler/internal/scheduled_notification_dispatcher/dispatcher.go:36-63 | each removed row is published once, each other row not at all and untouched |
| SchedulerProtocol.AfterInv | deliveryscheduler/internal/scheduled_notification_dispatcher/dispatcher.go:36-63 | in every interleaving of dispatchers, cancels and any number of deliveries of schedule events: copies, schedulings and publications of every id agree |
| SchedulerProtocol.HoldingsAreDisjoint | deliveryscheduler/internal/db/postgres/repository.go:47-69 | claims never share a row; an id that was scheduled once is with one dispatcher at most, and not in the table while a dispatcher that deleted it holds it |
| SchedulerProtocol.RescheduledIsHeldTwice | deliveryscheduler/internal/transport/messaging/notifications_scheduled_consumer.go:47-61 | a redelivered schedule event while a row is being published: two dispatchers hold it |
| SchedulerProtocol.ScheduledIdIsSomewhere | deliveryscheduler/internal/scheduled_notification_dispatcher/dispatcher.go:36-63 | an id was scheduled iff it is in the table, held, withdrawn, lost by a crash or failed re-enqueue, or published |
| SchedulerProtocol.PublishedExactlyOnce | deliveryscheduler/internal/scheduled_notification_dispatcher/dispatcher.go:36-63 | an id scheduled once, with no failed publish of its batch, is published once if settled and not at all otherwise |
| SchedulerProtocol.PublicationBound | deliveryscheduler/internal/scheduled_notification_dispatcher/dispatcher.go:36-63 | however often the schedule event is consumed: publications plus the copies waiting, withdrawn or lost are at most schedulings plus failed publishes |
| SchedulerProtocol.DuplicatesAttained | deliveryscheduler/internal/scheduled_notification_dispatcher/dispatcher.go:55-60 | the bound is attained: for every n a run in which an id scheduled once is part of n failed publishes and is published n + 1 times |
| SchedulerProtocol.FailedPublishCounts | deliveryscheduler/internal/scheduled_notification_dispatcher/dispatcher.go:55-60 | a failed publish counts id k of the batch as published iff its send reached the stream, stated on the replies |
| SchedulerProtocol.FailedRoundIsRunRound | deliveryscheduler/internal/scheduled_notification_dispatcher/dispatcher.go:38-60 | an undisturbed round whose publish fails leaves the table and the stream that the contract of RunRound gives, put back or lost |
| SchedulerProtocol.SuccessfulRoundIsRunRound | deliveryscheduler/internal/scheduled_notification_dispatcher/dispatcher.go:38-62 | the same for a publish that succeeds |
| SchedulerProtocol.CancelFinalIff | deliveryscheduler/internal/transport/messaging/notification_schedule_cancelled_consumer.go:31-44 | the id can be published after a cancel without a further schedule event iff a dispatcher held it at the cancel |
| SchedulerProtocol.RescheduleUndoesCancel | deliveryscheduler/internal/transport/messaging/notifications_scheduled_consumer.go:47-61 | one more delivery of the schedule event after the cancel and the id can be published |
| SchedulerProtocol.CancelInTableIsFinal | deliveryscheduler/internal/transport/messaging/notification_schedule_cancelled_consumer.go:31-44 | after a cancel that finds an id scheduled once in the table, no continuation that schedules it no more publishes it or brings it back |
| SchedulerProtocol.HeldCanBePublished | deliveryscheduler/internal/scheduled_notification_dispatcher/dispatcher.go:47-61 | whatever a dispatcher holds can still be published, even after a failed publish and with others holding locks |
| SchedulerProtocol.TableRowCanBePublished | deliveryscheduler/internal/scheduled_notification_dispatcher/dispatcher.go:36-63 | a row nobody has locked can still be claimed and published |
| SchedulerProtocol.RoundPublishes | deliveryscheduler/internal/scheduled_notification_dispatcher/dispatcher.go:38-62 | an undisturbed claim, delete and publish remove exactly the batch and publish it once |
| ScheduleConsumers.HandleScheduledEvents | deliveryscheduler/internal/transport/messaging/notifications_scheduled_consumer.go:32-62 | one event stores all its items or none, and is acked iff they are stored |
| ScheduleConsumers.StoredItems | deliveryscheduler/internal/transport/messaging/notifications_scheduled_consumer.go:36-47 | a stored event leaves each item due at its own time and no other row changed |
| ScheduleConsumers.HandleCancelEvent | deliveryscheduler/internal/transport/messaging/notification_schedule_cancelled_consumer.go:31-44 | acked iff the row is gone |
| DueConsumer.HandleBatch | api/internal/transport/messaging/scheduled_due_consumer.go:43-108 | a message is acked iff it speaks for its id, the row is there and the publish was confirmed; nak'ed iff it does not parse or speaks for an id not served; the stream gets one ready event, field by field that of the row and on the topic of its priority, for exactly the messages whose publish was stored |
| DueConsumer.IndexBatch | api/internal/transport/messaging/scheduled_due_consumer.go:45-58 | unparseable messages are nak'ed; the last message to name an id is the one that will be settled for it |
| DueConsumer.NakAll | api/internal/transport/messaging/scheduled_due_consumer.go:65-73 | a failed fetch naks every message that speaks for an id and acks none |
| DueConsumer.FanOut | api/internal/transport/messaging/scheduled_due_consumer.go:75-107 | each id's message is acked after its publish or nak'ed |
| DueConsumer.SettlementCount | api/internal/transport/messaging/scheduled_due_consumer.go:43-108 | Acks + Naks = unparseable messages + distinct ids |
| DueConsumer.DistinctBatchIsOneByOne | api/internal/transport/messaging/scheduled_due_consumer.go:43-108 | with distinct ids the Acks, Naks and publications of the batch are, message by message, those of the handler run on that message alone |
| DueConsumer.BulkIsOneByOne | api/internal/transport/messaging/scheduled_due_consumer.go:43-108 | on any batch, every message that is not shadowed is acked, nak'ed and published for exactly as by the handler run on it alone |
| DueConsumer.ShadowedGetsNothing | api/internal/transport/messaging/scheduled_due_consumer.go:45-58 | a message whose id a later one names gets no Ack, no Nak and no publication |
| DueConsumer.AckedIffConfirmed | api/internal/transport/messaging/scheduled_due_consumer.go:97-106 | acked iff published and confirmed; what is published without confirmation is nak'ed |
| DueConsumer.OnePublicationPerId | api/internal/transport/messaging/scheduled_due_consumer.go:57-106 | two publications for the same id are the same publication |
| Pagination.ListWithCursor | api/internal/db/postgres/notification_repo.go:119-146 | whatever page, sort and order the request names, List with a cursor answers the highest matching ids below it in descending order, as many as fit; no next cursor iff none is left |
| Pagination.WalkNeverRepeats | api/internal/db/postgres/notification_repo.go:119-146 | however the table changes between the calls, a client that calls List with each next cursor sees strictly decreasing ids below its first one |
| Pagination.WalkMissesNothing | api/internal/db/postgres/notification_repo.go:119-146 | such a walk that came to its end showed every id below the cursor that was there and matched at each of its calls |
| Pagination.FixedTableWalk | api/internal/db/postgres/notification_repo.go:119-146 | on a fixed table enough calls give exactly the filtered list below the cursor, in descending order |
| Pagination.OffsetPageMeaning | api/internal/db/postgres/notification_repo.go:130-146 | an offset page is its slice of the list; no next cursor iff the list ends with it |
| Pagination.ListPagesComplete | api/internal/transport/http/notification.go:98-145 | without ties, pages 1..totalPages, each a query of its own, concatenate to the sorted list; the handler computes totalPages with the page size that List uses |
| Pagination.ListPagesCompleteIff | api/internal/db/postgres/notification_repo.go:105-148 | with an order of tied rows chosen by each page query, pages 1..totalPages show every matching row exactly once for every choice iff no tie straddles a page boundary |
| Pagination.LastPageHasNoNext | api/internal/transport/http/notification.go:141-154 | the last page told of is the first without a next cursor |
| Listings.TieFreeRankingUnique | api/internal/db/postgres/notification_repo.go:122-134 | without ties the sorted list is determined, so separate fetches agree |
| Listings.CleanCutMeaning | api/internal/db/postgres/notification_repo.go:122-134 | no tie straddles the place after n rows iff in any listing row n and row n + 1 differ in the sort column |
| Pagination.MixedWalkCompleteIff | api/internal/db/postgres/notification_repo.go:105-148 | a newest-first page followed by cursor pages shows each matching row exactly once, whatever the order of tied rows, iff the rows fit on one page or the page-size-th newest row is the only one of its creation time and the rows created no earlier are those with ids no lower |
| Pagination.TiedRowsDoNotPage | api/internal/db/postgres/notification_repo.go:28-34 | rows that share one creation time, as those of a batch insert do, and do not fit on a page can come in an order in which the client does not see each once |
| Pagination.MixedWalkSkipsTied | api/internal/db/postgres/notification_repo.go:119-146 | a table of two tied rows on which it misses one |
| Pagination.MixedWalkIsFollowed | api/internal/db/postgres/notification_repo.go:105-148 | the client's calls of List, the first without and the others with a cursor, show the first page and then all ids below its last one |
| Pagination.MixedWalkWhenOrdersAgree | api/internal/db/postgres/notification_repo.go:105-148 | it is the whole list when creation order agrees with id order |
| Pagination.MixedWalkCanSkip | api/internal/db/postgres/notification_repo.go:119-146 | a two-row table without ties on which it misses a row |
| Pagination.CriteriaSelect | api/internal/db/postgres/notification_repo.go:86-103 | each criterion selects, out of what the others select, the rows that meet it, date bounds inclusive; with none every row is selected |
| Pagination.ListingIsSorted | api/internal/db/postgres/notification_repo.go:122-134 | the sorted query lists each row once by the column and in the direction asked |
| Pagination.FirstPageHolds | api/internal/transport/http/notification.go:98-101 | a page number below two is the first page; it holds as many rows as asked for, at most 100, 20 by default |
| Pagination.SizelessIsTwenty | api/internal/db/postgres/notification_repo.go:106-109 | a page size below one counts as twenty |
| NotificationStatus.Notification.Transition | api/internal/domain/notification/models.go:88-102 | legal iff same status or an edge of the graph; an unknown status and an illegal edge are told apart and change nothing |
| NotificationService.NotificationRepo.GetByID | api/internal/db/postgres/notification_repo.go:36-45 | the row's status, not found, or a database error |
| NotificationService.NotificationRepo.UpdateStatus | api/internal/db/postgres/notification_repo.go:56-71 | writes by key alone; a missing row is an error |
| NotificationService.Service.Cancel | api/internal/service/notification.go:66-91 | the row becomes cancelled iff legal and written; the cancel event is stored only after the write; which error the caller gets, an unconfirmed publish among them |
| NotificationService.Service.UpdateStatus | api/internal/service/notification.go:93-106 | the status is written iff the row exists and its transition is legal |
| NotificationService.ProcessStatusEvent | api/internal/transport/messaging/delivery_result_consumer.go:29-54 | acked iff the event's id parses, its status was legal for the row and is now on it |
| CrossService.EventDecidesRow | api/internal/transport/messaging/delivery_result_consumer.go:29-54 | a status event that tells the provider's answer makes a pending row delivered iff the provider accepted, failed otherwise |
| StatusRaces.AfterInv | api/internal/service/notification.go:66-106 | in every interleaving of reads and writes: each history starts at pending, each write was legal from an earlier status, each pending write is justified by a status it read |
| StatusRaces.EveryWriteWasLegalOnce | api/internal/service/notification.go:66-106 | each status of a row after the first was legal from one it held earlier; pending never returns |
| StatusRaces.DecidedStays | api/internal/service/notification.go:66-106 | a decided row keeps its status in every continuation |
| StatusRaces.FrozenIffDecided | api/internal/service/notification.go:66-106 | a row's status can never change again iff it left pending and no operation past its read is about to write another one |
| StatusRaces.WriteLegalIff | api/internal/service/notification.go:80-104 | whenever the row still has the status an operation read, its write is legal, so the documented guard would suffice; in general it is legal iff the row is pending or already has the target |
| StatusRaces.UndisturbedOpIsUpdateStatus | api/internal/service/notification.go:93-106 | a read and a write with nobody in between are one UpdateStatus |
| StatusRaces.DeliveredCanBecomeCancelled | api/internal/db/postgres/notification_repo.go:56-71 | a cancel that read pending overwrites a recorded delivery |
| CrossService.AfterInv | processor/internal/delivery/pipeline.go:102-133 | in every interleaving of workers, crashes, broker and API: every status event, write in flight and row is backed by a provider answer |
| CrossService.RowsTellTheProvidersAnswer | processor/internal/delivery/pipeline.go:102-133 | a row is delivered only after a successful provider call for it, failed only after a refusal that was final or on a delivery count at or above M |
| CrossService.DeliveryReachesProvider | processor/internal/delivery/pipeline.go:57-75 | an undisturbed delivery gets to the provider's answer with the delivery count as its attempt number |
| CrossService.AnswerReachesRow | processor/internal/delivery/pipeline.go:102-133 | a final answer, published, settled and consumed, acks the message and makes its pending row delivered iff the provider accepted, failed otherwise |
| CrossService.OtherEndingsReportNothing | processor/internal/delivery/pipeline.go:58-73 | a missed lock acks without call or event; lock errors, limiter errors and denials leave the message to be fetched again |
| CrossService.ApiRunsAreRaces | api/internal/transport/messaging/delivery_result_consumer.go:29-54 | the API side of every such run is a run of the status races |
| BatchCreate.Service.CreateBatch | api/internal/service/notification.go:108-179 | results[i].Index = i; accepted iff an id is present iff no error iff stored; stored rows have the items' fields in input order; the stream gets one event listing the scheduled rows with their times, then one ready event per other row on the topic of its priority, all in order, up to the first publish that is not confirmed (with it, if stored), all of it iff no error |
| BatchCreate.Service.Announce | api/internal/service/notification.go:147-178 | first one event that lists exactly the scheduled rows with their times, if there are any, then exactly one ready event per other row, in order, up to the first publish that is not confirmed |
| BatchCreate.Service.PublishScheduled | api/internal/service/notification.go:162-168 | one event for all scheduled rows, in the stream iff the broker stored it |
| BatchCreate.Service.PublishReady | api/internal/service/notification.go:170-178 | ready events in order on the topic of their priority, up to the first that is not confirmed |
| BatchCreate.ToEntities | api/internal/service/notification.go:112-133 | a result at each index, an entity for each item that got an id, in input order |
| BatchCreate.RejectAll | api/internal/service/notification.go:136-144 | a failed insert rejects the accepted items and leaves the other results alone |
| BatchCreate.Separate | api/internal/service/notification.go:147-160 | scheduled rows become items of one event, the others are immediate, both in input order |
| BatchCreate.AgendaAnnouncesEachRow | api/internal/service/notification.go:147-176 | what is to be announced is that list: each stored row once, in order |
| BatchCreate.EntitiesByPlace | api/internal/service/notification.go:112-133 | the stored rows are those of the items that got an id, in input order, with their fields and a limit of one where none is given |
| BatchCreate.CreateBatchHandler | api/internal/transport/http/notification.go:218-283 | more than 1000 items change nothing; otherwise each request index has exactly one result, an accepted one names the id under which that very item is stored, as many are accepted as rows were stored and the others are rejected, and a service error means that the first publish not confirmed ended the announcements |
| BatchCreate.CollectValid | api/internal/transport/http/notification.go:233-253 | rejected and remembered indices partition the request |
| BatchCreate.MergeResults | api/internal/transport/http/notification.go:260-272 | service result j stands, with its status and id, behind the invalid items for the request index it came from |
| BatchCreate.UptoOnce | api/internal/transport/http/notification.go:255-280 | "one result for each index" means every index below n exactly once |
| Subscriber.Forward | shared/messaging/nats/subscriber.go:140-168 | messages are handed over in order until the context ends; undecodable ones and the interrupted one are nak'ed |
| Subscriber.ForwardBatch | shared/messaging/nats/subscriber.go:63-104 | every message of a slice is handed over or nak'ed, not both, and all or none of the decoded ones are handed over |
| Subscriber.InterruptedSliceSettledIff | shared/messaging/nats/subscriber.go:151-166 | an interrupted slice is settled completely iff no message is left behind the interrupted one |

## Left out

- Backoff.RetryDelay: floating point is modelled by exact reals; the rounding of a float64 product below 2^63 and of the jitter is not modelled, and an out-of-range conversion is a parameter.
- Pagination.OffsetPageMeaning: the overflow of (page - 1) * pageSize in a machine integer is not modelled.
- SchedulerProtocol.CancelFinalIff: the order in which schedule and cancel events arrive is not established by the code; a cancel before its schedule event withdraws nothing.
- MessageLifecycle.DeliveryBudget: assumes one outstanding delivery of a message at a time; overlapping deliveries are covered by CrossService and LockProtocol, without a budget.
- MessageTimeline.MissIffKeyLeft: assumes that no other ready message carries the same notification id; LockProtocol has any number of workers on one id.
- DeliveryPipeline.NotificationDeliveryPipeline.Run: a provider that panics, and the timing of a run against the lock's expiry, are not part of the run; LockProtocol has the clock.
- Router.PriorityRouter.Next: stated below the int64 bound of the ticket counter, at which Router.IndexPanicsIff says what happens; the one-second idle timer and the cancelled context are one outcome of the wait, and an unbuffered hand-over counts as a value in the buffer; channel capacity and blocking producers are not modelled.
- BatchCreate.CreateBatchHandler: the ready event is announced as the stored row it copies; a batch id and the texts of error messages are not modelled; row columns that nothing in the protocol reads are left out.
- DueConsumer.HandleBatch: Go's random map order is any order; two spellings of one id are two strings with the same parse.
- NATS, Redis and PostgreSQL themselves: an Ack or Nak takes effect, SET NX and DEL are atomic, statements are atomic apart from the claim's lock-then-delete. A statement that is executed while its reply is lost is not modelled, except that a dispatcher can lose what it claimed (SchedulerProtocol's Drop).
- The broker's ack wait and redelivery timing: a delivery that nobody settles simply counts.
- The worker loop of the ready consumer: each worker alternates Router.Next and ProcessOne, both modelled; their composition is CrossService's Fetch to Settle.
- The rate limiter's token bucket: a library not part of this model; its answer is a parameter.
- Create and persist of a single notification: the one-item case of the batch.
- GetByIDs and FindScheduledDue: a plain lookup, and a query nothing calls any more.
- Setters and field validators of the domain model, RFC 3339 and UUID parsing (a parse function is a parameter), DTO mapping, JSON: single-branch facts.
- HTTP routing, configuration, wiring, migrations, health checks: plumbing.
- OpenTelemetry spans, trace propagation, metrics and logging: no effect on the protocol, except that an upsert keeps a row's stored trace metadata.
