/** One delivery of one notification: the gates of processor/internal/delivery/pipeline.go
    and the settlement of processor/internal/transport/messaging/notification_ready_consumer.go. */
module DeliveryPipeline {
  import opened Backoff
  import opened Events
  import opened Ports
  import opened RedisLock

  datatype LimitReply = LimitError | Allowed | Denied(retryAfter: int)

  datatype DeliveryResult = DeliveryResult(success: bool, retryable: bool, statusCode: int,
                                           latencyMs: int, providerMsgId: string, errorMessage: string)

  datatype SendCall = SendCall(recipient: string, channel: string, content: string)

  /** nil, ErrRetryAfter, and any other error, in the terms of Run's caller. */
  datatype Outcome = Completed | RetryAfter(delay: int) | InfraError

  /** What the outside world answers during one run. */
  datatype Replies = Replies(lockFault: Fault, limit: LimitReply, result: DeliveryResult,
                             publish: PublishReply, unlockFault: Fault, random: real, platform: Duration)

  function MaxAttemptsFor(evt: ReadyEvent): (m: int)
    ensures m >= 1
  {
    if evt.maxAttempts > 0 then evt.maxAttempts else MAX_ATTEMPTS
  }

  /** A result after which the notification is not tried again. */
  predicate Terminal(result: DeliveryResult, attempt: int, maxAttempts: int) {
    result.success || !result.retryable || attempt >= maxAttempts
  }

  predicate Sends(lock: LockReply, limit: LimitReply) {
    lock.LockAcquired? && limit.Allowed?
  }

  /** The event tells the provider's answer on this attempt: whether it accepted, and with it
      its message id or its error text, its HTTP code and its latency. */
  ghost predicate Tells(e: StatusEvent, id: string, result: DeliveryResult, attempt: int) {
    && e.notificationId == id && e.attemptNumber == attempt
    && (e.status == "delivered" <==> result.success) && (e.status == "failed" <==> !result.success)
    && (result.success ==> e.providerMessageId == result.providerMsgId && e.errorMessage == "")
    && (!result.success ==> e.providerMessageId == "" && e.errorMessage == result.errorMessage)
    && e.httpStatusCode == result.statusCode && e.latencyMs == result.latencyMs
  }

  function EventFor(id: string, result: DeliveryResult, attempt: int): (e: StatusEvent)
    ensures Tells(e, id, result, attempt)
  {
    assert "delivered"[0] == 'd' && "failed"[0] == 'f';
    if result.success then
      StatusEvent(id, "delivered", attempt, result.statusCode, result.providerMsgId, "", result.latencyMs)
    else
      StatusEvent(id, "failed", attempt, result.statusCode, "", result.errorMessage, result.latencyMs)
  }

  /** The stream grew by one event that tells the answer if there is something to report, and
      not otherwise. */
  ghost predicate StreamTells(before: seq<StatusEvent>, after: seq<StatusEvent>, reports: bool,
                            id: string, result: DeliveryResult, attempt: int)
  {
    if reports then |after| == |before| + 1 && before <= after && Tells(after[|before|], id, result, attempt)
    else after == before
  }

  /** How a run ends, apart from the length of a delay. */
  datatype Ending = AckedMiss | Reported | Retried | Limited | Errored

  function EndingOf(lock: LockReply, limit: LimitReply, result: DeliveryResult, publish: PublishReply,
                    attempt: int, maxAttempts: int): Ending
  {
    if lock.LockMiss? then AckedMiss
    else if lock.LockError? || limit.LimitError? then Errored
    else if limit.Denied? then Limited
    else if !Terminal(result, attempt, maxAttempts) then Retried
    else if publish.Confirmed? then Reported
    else Errored
  }

  /** The run leaves a status event in the stream. */
  predicate Reports(lock: LockReply, limit: LimitReply, result: DeliveryResult, publish: PublishReply,
                    attempt: int, maxAttempts: int)
  {
    Sends(lock, limit) && Terminal(result, attempt, maxAttempts) && Stores(publish)
  }

  predicate OutcomeMatches(outcome: Outcome, ending: Ending, attempt: int, env: Replies) {
    match ending
    case AckedMiss => outcome.Completed?
    case Reported => outcome.Completed?
    case Errored => outcome.InfraError?
    case Limited => env.limit.Denied? && outcome ==
                    RetryAfter(if env.limit.retryAfter <= 0 then SECOND else env.limit.retryAfter)
    case Retried => outcome == RetryAfter(RetryDelay(attempt + 1, env.random, env.platform))
  }

  class NotificationDeliveryPipeline {
    const locker: RedisLocker
    var sent: seq<SendCall>
    var published: seq<StatusEvent>

    constructor (locker: RedisLocker)
      ensures this.locker == locker && sent == [] && published == []
    {
      this.locker := locker;
      sent, published := [], [];
    }

    method ApplyRateLimit(limit: LimitReply) returns (outcome: Outcome)
      ensures outcome.Completed? <==> limit.Allowed?
      ensures outcome.InfraError? <==> limit.LimitError?
      ensures limit.Denied? && limit.retryAfter > 0 ==> outcome == RetryAfter(limit.retryAfter)
      ensures limit.Denied? && limit.retryAfter <= 0 ==> outcome == RetryAfter(SECOND)
    {
      match limit
      case LimitError => return InfraError;
      case Allowed => return Completed;
      case Denied(retryAfter) =>
        var delay := retryAfter;
        if delay <= 0 {
          delay := SECOND;
        }
        return RetryAfter(delay);
    }

    method PublishStatus(event: StatusEvent, reply: PublishReply) returns (outcome: Outcome)
      modifies this`published
      ensures published == if Stores(reply) then old(published) + [event] else old(published)
      ensures outcome == if reply.Confirmed? then Completed else InfraError
    {
      if Stores(reply) {
        published := published + [event];
      }
      outcome := if reply.Confirmed? then Completed else InfraError;
    }

    method HandleDeliveryResult(evt: ReadyEvent, result: DeliveryResult, attemptNumber: int, env: Replies)
      returns (outcome: Outcome)
      modifies this`published
      ensures !Terminal(result, attemptNumber, MaxAttemptsFor(evt)) ==>
                published == old(published)
                && outcome == RetryAfter(RetryDelay(attemptNumber + 1, env.random, env.platform))
      ensures Terminal(result, attemptNumber, MaxAttemptsFor(evt)) ==>
                && outcome == (if env.publish.Confirmed? then Completed else InfraError)
                && StreamTells(old(published), published, Stores(env.publish),
                               evt.notificationId, result, attemptNumber)
    {
      var maxAttempts := MaxAttemptsFor(evt);
      assert "delivered"[0] == 'd' && "failed"[0] == 'f';
      if result.success {
        outcome := PublishStatus(
          StatusEvent(evt.notificationId, "delivered", attemptNumber, result.statusCode,
                      result.providerMsgId, "", result.latencyMs), env.publish);
      } else if result.retryable && attemptNumber < maxAttempts {
        outcome := RetryAfter(RetryDelay(attemptNumber + 1, env.random, env.platform));
      } else {
        outcome := PublishStatus(
          StatusEvent(evt.notificationId, "failed", attemptNumber, result.statusCode,
                      "", result.errorMessage, result.latencyMs), env.publish);
      }
    }

    /** The part of Run that the deferred Unlock encloses. */
    method RunLocked(evt: ReadyEvent, attemptNumber: int, env: Replies) returns (outcome: Outcome)
      modifies this
      ensures sent == old(sent) +
                (if env.limit.Allowed? then [SendCall(evt.recipient, evt.channel, evt.content)] else [])
      ensures var ending := EndingOf(LockAcquired, env.limit, env.result, env.publish,
                                     attemptNumber, MaxAttemptsFor(evt));
              && StreamTells(old(published), published,
                             Reports(LockAcquired, env.limit, env.result, env.publish,
                                     attemptNumber, MaxAttemptsFor(evt)),
                             evt.notificationId, env.result, attemptNumber)
              && OutcomeMatches(outcome, ending, attemptNumber, env)
    {
      outcome := ApplyRateLimit(env.limit);
      if !outcome.Completed? {
        return;
      }
      sent := sent + [SendCall(evt.recipient, evt.channel, evt.content)];
      outcome := HandleDeliveryResult(evt, env.result, attemptNumber, env);
    }

    /** One message through lock, rate limit, provider and status event. Whatever path is
        taken, a run that got the lock gives it back. */
    method Run(evt: ReadyEvent, attemptNumber: int, env: Replies) returns (outcome: Outcome)
      modifies this, locker`keys
      ensures var id := evt.notificationId;
              var lock := TryLockReply(old(locker.keys), id, locker.now, env.lockFault);
              var ending := EndingOf(lock, env.limit, env.result, env.publish,
                                     attemptNumber, MaxAttemptsFor(evt));
              && sent == old(sent) + (if Sends(lock, env.limit)
                                      then [SendCall(evt.recipient, evt.channel, evt.content)] else [])
              && StreamTells(old(published), published,
                             Reports(lock, env.limit, env.result, env.publish, attemptNumber, MaxAttemptsFor(evt)),
                             evt.notificationId, env.result, attemptNumber)
              && OutcomeMatches(outcome, ending, attemptNumber, env)
              && locker.keys == (if lock.LockAcquired? && !env.unlockFault.NotExecuted?
                                 then old(locker.keys) - {LockKey(id)}
                                 else AfterTryLock(old(locker.keys), id, locker.now, env.lockFault))
    {
      var lockReply := locker.TryLock(evt.notificationId, env.lockFault);
      if lockReply.LockError? {
        return InfraError;
      }
      if lockReply.LockMiss? {
        return Completed;
      }
      outcome := RunLocked(evt, attemptNumber, env);
      var _ := locker.Unlock(evt.notificationId, env.unlockFault);
    }
  }

  /** A run that ends in a retry on attempt n asks for 60s * 2^(n-1), at most 480s, and up to
      a fifth more. */
  lemma RetryIsBackedOff(outcome: Outcome, n: int, env: Replies)
    requires OutcomeMatches(outcome, Retried, n, env) && 1 <= n <= 28 && IsRandom(env.random)
    ensures var uncapped := 60_000_000_000 * Pow2(n - 1);
            var base := if uncapped > 480_000_000_000 then 480_000_000_000 else uncapped;
            outcome.RetryAfter? && base <= outcome.delay && 5 * outcome.delay <= 6 * base
  {
    DelayInBand(n + 1, env.random, env.platform);
  }

  // ------------------------------------------------------------------ message settlement

  datatype Settlement = Unsettled | Ack | Nak | NakWithDelay(delay: int)

  class Message {
    const event: ReadyEvent
    const attemptNumber: int
    var settlement: Settlement

    constructor (event: ReadyEvent, attemptNumber: int)
      ensures this.event == event && this.attemptNumber == attemptNumber && settlement.Unsettled?
    {
      this.event, this.attemptNumber, settlement := event, attemptNumber, Unsettled;
    }
  }

  class NotificationReadyConsumer {
    const pipeline: NotificationDeliveryPipeline

    constructor (pipeline: NotificationDeliveryPipeline)
      ensures this.pipeline == pipeline
    {
      this.pipeline := pipeline;
    }

    /** Ack exactly after a lock miss or a confirmed status event; a delayed Nak exactly after
        a rate limit or a retryable failure with attempts left; a plain Nak otherwise, even
        when the event was stored and only the confirmation is missing. */
    method ProcessOne(msg: Message, env: Replies)
      modifies msg`settlement, pipeline, pipeline.locker`keys
      ensures var lock := TryLockReply(old(pipeline.locker.keys), msg.event.notificationId,
                                       pipeline.locker.now, env.lockFault);
              var ending := EndingOf(lock, env.limit, env.result, env.publish,
                                     msg.attemptNumber, MaxAttemptsFor(msg.event));
              && (msg.settlement.Ack? <==> ending.AckedMiss? || ending.Reported?)
              && (msg.settlement.Nak? <==> ending.Errored?)
              && (msg.settlement.NakWithDelay? <==> ending.Limited? || ending.Retried?)
              && (ending.Retried? ==>
                    msg.settlement.delay == RetryDelay(msg.attemptNumber + 1, env.random, env.platform))
              && (ending.Limited? && env.limit.retryAfter > 0 ==> msg.settlement.delay == env.limit.retryAfter)
              && (ending.Limited? && env.limit.retryAfter <= 0 ==> msg.settlement.delay == SECOND)
              && StreamTells(old(pipeline.published), pipeline.published,
                             Reports(lock, env.limit, env.result, env.publish, msg.attemptNumber,
                                     MaxAttemptsFor(msg.event)),
                             msg.event.notificationId, env.result, msg.attemptNumber)
              && pipeline.sent == old(pipeline.sent) +
                   (if Sends(lock, env.limit)
                    then [SendCall(msg.event.recipient, msg.event.channel, msg.event.content)] else [])
              && pipeline.locker.keys ==
                   (if lock.LockAcquired? && !env.unlockFault.NotExecuted?
                    then old(pipeline.locker.keys) - {LockKey(msg.event.notificationId)}
                    else AfterTryLock(old(pipeline.locker.keys), msg.event.notificationId,
                                      pipeline.locker.now, env.lockFault))
    {
      var outcome := pipeline.Run(msg.event, msg.attemptNumber, env);
      match outcome
      case RetryAfter(delay) => msg.settlement := NakWithDelay(delay);
      case InfraError => msg.settlement := Settlement.Nak;
      case Completed => msg.settlement := Settlement.Ack;
    }
  }
}
