/** The life of one ready message, from its first delivery to Ack or to the broker's
    delivery cap, with one outstanding delivery at a time. The attempt number of a run is
    the broker's delivery count (shared/messaging/nats/subscriber.go). */
module MessageLifecycle {
  import opened Ports
  import opened Backoff
  import opened RedisLock
  import opened DeliveryPipeline
  import opened Events
  import opened NotificationStatus
  import opened Subscriber

  /** MaxDeliver, a Go int. */
  type DeliveryCap = n: nat | n <= MAX_INT

  /** A message: the notification it is about, and the limits it lives under. */
  datatype Setting = Setting(id: string, maxAttempts: int, maxDeliver: DeliveryCap)

  /** What becomes of one delivery. `Lost` is a delivery no pipeline run settles: a payload
      that does not decode, a cancelled context, a crash before the provider call.
      `LostAfterSend` is one whose worker called the provider and whose Ack or Nak never
      arrived; `stored` says whether its status event, if it got that far, is in the stream. */
  datatype Delivery =
    | Lost
    | LostAfterSend(result: DeliveryResult, stored: bool)
    | Ran(lock: LockReply, limit: LimitReply, result: DeliveryResult, publish: PublishReply)

  datatype Phase = Waiting | Acked | Dead

  datatype Sending = Sending(attempt: nat, result: DeliveryResult)

  /** What a status event in the stream says to its consumer. */
  datatype Report = Report(id: string, attempt: int, status: Status)

  function ReportOf(e: StatusEvent): Report {
    Report(e.notificationId, e.attemptNumber, StatusOf(e.status))
  }

  /** `reports` are the status events in the stream, `orphans` counts the deliveries that
      stored one without being acked, `unacked` those that got a final answer from the
      provider without being acked. */
  datatype Life = Life(count: nat, phase: Phase, sends: seq<Sending>, reports: seq<Report>,
                       misses: nat, wasted: nat, orphans: nat, unacked: nat)

  const BORN := Life(0, Waiting, [], [], 0, 0, 0, 0)

  function EndingAt(d: Delivery, attempt: nat, maxAttempts: int): Ending {
    if d.Ran? then EndingOf(d.lock, d.limit, d.result, d.publish, attempt, maxAttempts) else Errored
  }

  /** A delivery that ends in an error, in a rate-limit denial, or without a run. */
  predicate Wasted(d: Delivery, attempt: nat, maxAttempts: int) {
    EndingAt(d, attempt, maxAttempts).Errored? || EndingAt(d, attempt, maxAttempts).Limited?
  }

  predicate Acks(d: Delivery, attempt: nat, maxAttempts: int) {
    EndingAt(d, attempt, maxAttempts).Reported? || EndingAt(d, attempt, maxAttempts).AckedMiss?
  }

  predicate SendsIn(d: Delivery) {
    d.LostAfterSend? || (d.Ran? && Sends(d.lock, d.limit))
  }

  /** The provider is called and its answer is not to be retried. */
  predicate IsFinal(d: Delivery, attempt: nat, maxAttempts: int) {
    SendsIn(d) && Terminal(d.result, attempt, maxAttempts)
  }

  predicate ReportsIn(d: Delivery, attempt: nat, maxAttempts: int) {
    IsFinal(d, attempt, maxAttempts) && if d.Ran? then Stores(d.publish) else d.stored
  }

  function One(b: bool): nat { if b then 1 else 0 }

  function Deliver(life: Life, d: Delivery, c: Setting): Life {
    if !life.phase.Waiting? || life.count >= c.maxDeliver then life else
    var n := AttemptNumber(Some(life.count + 1));
    var acks := Acks(d, n, c.maxAttempts);
    var reports := ReportsIn(d, n, c.maxAttempts);
    Life(life.count + 1,
         if acks then Acked else if life.count + 1 == c.maxDeliver then Dead else Waiting,
         life.sends + (if SendsIn(d) then [Sending(n, d.result)] else []),
         life.reports + (if reports then [ReportOf(EventFor(c.id, d.result, n))] else []),
         life.misses + One(EndingAt(d, n, c.maxAttempts).AckedMiss?),
         life.wasted + One(Wasted(d, n, c.maxAttempts)),
         life.orphans + One(reports && !acks),
         life.unacked + One(IsFinal(d, n, c.maxAttempts) && !acks))
  }

  /** The message after the deliveries of `plan`; those after its end do not happen. */
  function LifeOf(plan: seq<Delivery>, c: Setting): Life {
    if plan == [] then BORN
    else Deliver(LifeOf(plan[..|plan| - 1], c), plan[|plan| - 1], c)
  }

  /** The message was acked for a status event of its last delivery. */
  predicate AckedReport(life: Life) { life.phase.Acked? && life.misses == 0 }

  /** The last event in the stream tells the answer of the last provider call, which was the
      last delivery's. */
  ghost predicate LastReportTellsLastSend(life: Life, c: Setting) {
    && |life.sends| > 0 && |life.reports| > 0
    && var last := life.sends[|life.sends| - 1];
       && life.reports[|life.reports| - 1]
            == Report(c.id, last.attempt, if last.result.success then Delivered else Failed)
       && last.attempt == life.count && Terminal(last.result, last.attempt, c.maxAttempts)
  }

  /** The deliveries that were not retries. */
  function Ended(life: Life): nat {
    life.wasted + life.misses + One(AckedReport(life))
  }

  function Min(a: int, b: int): int { if a < b then a else b }

  /** The phase fits the delivery count, and the events in the stream the deliveries. */
  ghost predicate Coherent(life: Life, c: Setting) {
    && life.count <= c.maxDeliver
    && (life.phase.Dead? ==> life.count == c.maxDeliver)
    && (life.phase.Waiting? && c.maxDeliver > 0 ==> life.count < c.maxDeliver)
    && life.misses <= One(life.phase.Acked?)
    && |life.reports| == life.orphans + One(AckedReport(life))
    && life.orphans <= life.unacked <= life.wasted
    && (AckedReport(life) ==> LastReportTellsLastSend(life, c))
  }

  /** Every delivery ended the message, was wasted, or was a retry; retries and provider
      calls with an answer that is not final happen below the attempt limit only. */
  ghost predicate Bounded(life: Life, maxAttempts: int) {
    && Ended(life) <= life.count < Ended(life) + maxAttempts
    && |life.sends| <= life.count
    && |life.sends| <= Min(life.count, maxAttempts - 1) + One(AckedReport(life)) + life.unacked
  }

  ghost predicate Inv(life: Life, c: Setting) {
    Coherent(life, c) && Bounded(life, c.maxAttempts)
  }

  lemma DeliverKeepsInv(life: Life, d: Delivery, c: Setting)
    requires Inv(life, c) && c.maxAttempts >= 1
    ensures Inv(Deliver(life, d, c), c)
  {
  }

  lemma BornCoherent(c: Setting)
    ensures Coherent(BORN, c)
  {
    assert !AckedReport(BORN);
  }

  lemma BornBounded(maxAttempts: int)
    requires maxAttempts >= 1
    ensures Bounded(BORN, maxAttempts)
  {
  }

  lemma BornInv(c: Setting)
    requires c.maxAttempts >= 1
    ensures Inv(BORN, c)
  {
    BornCoherent(c);
    BornBounded(c.maxAttempts);
  }

  lemma {:induction false} LifeKeepsInv(plan: seq<Delivery>, c: Setting)
    requires c.maxAttempts >= 1
    ensures Inv(LifeOf(plan, c), c)
    decreases |plan|
  {
    if plan == [] {
      BornInv(c);
    } else {
      LifeKeepsInv(plan[..|plan| - 1], c);
      DeliverKeepsInv(LifeOf(plan[..|plan| - 1], c), plan[|plan| - 1], c);
    }
  }

  /** The broker redelivers until the message is settled or the cap is reached. */
  lemma {:induction false} SettledWithinCap(plan: seq<Delivery>, c: Setting)
    requires c.maxDeliver > 0
    ensures var life := LifeOf(plan, c);
            life.phase.Waiting? ==> life.count == |plan| < c.maxDeliver
    decreases |plan|
  {
    if plan == [] {
    } else {
      SettledWithinCap(plan[..|plan| - 1], c);
    }
  }

  /** Delivery budget: with no lock miss and at most maxDeliver - maxAttempts wasted
      deliveries, a message that has its deliveries ends acked, and the last status event
      tells the answer of its last provider call. It is the only one exactly when no earlier
      delivery stored an event without being acked. */
  lemma DeliveryBudget(plan: seq<Delivery>, c: Setting)
    requires 1 <= c.maxAttempts <= c.maxDeliver <= |plan|
    requires var life := LifeOf(plan, c);
             life.misses == 0 && life.wasted <= c.maxDeliver - c.maxAttempts
    ensures var life := LifeOf(plan, c);
            && life.phase.Acked? && LastReportTellsLastSend(life, c)
            && (|life.reports| == 1 <==> life.orphans == 0)
  {
    LifeKeepsInv(plan, c);
    SettledWithinCap(plan, c);
  }

  /** Send bound: the provider is called at most min(maxDeliver, maxAttempts + F) times,
      where F counts the deliveries that got a final answer and were not acked for it. */
  lemma SendBound(plan: seq<Delivery>, c: Setting)
    requires c.maxAttempts >= 1
    ensures var life := LifeOf(plan, c);
            && |life.sends| <= c.maxDeliver
            && |life.sends| <= c.maxAttempts + life.unacked
            && (!AckedReport(life) ==> |life.sends| <= c.maxAttempts - 1 + life.unacked)
  {
    LifeKeepsInv(plan, c);
  }

  // ------------------------------------------------------------- how many status events

  /** One status event for the acked delivery, unless it missed the lock, and one for each
      delivery that stored an event without being acked; no other. */
  lemma {:induction false} EventsPerMessage(plan: seq<Delivery>, c: Setting)
    requires c.maxAttempts >= 1
    ensures var life := LifeOf(plan, c);
            && |life.reports| == life.orphans + (if life.phase.Acked? && life.misses == 0 then 1 else 0)
            && life.misses <= 1 && (life.misses == 1 ==> life.phase.Acked?)
            && (life.phase.Acked? && life.misses == 0 ==> LastReportTellsLastSend(life, c))
  {
    LifeKeepsInv(plan, c);
  }

  lemma {:induction false} FinishedStays(plan: seq<Delivery>, more: seq<Delivery>, c: Setting)
    requires !LifeOf(plan, c).phase.Waiting?
    ensures LifeOf(plan + more, c) == LifeOf(plan, c)
    decreases |more|
  {
    if more == [] {
      assert plan + more == plan;
    } else {
      var init := more[..|more| - 1];
      FinishedStays(plan, init, c);
      assert (plan + more)[..|plan + more| - 1] == plan + init;
    }
  }

  /** As long as no further delivery stores an event without being acked, there is at most one. */
  ghost predicate SingleEventForGood(plan: seq<Delivery>, c: Setting) {
    var orphans := LifeOf(plan, c).orphans;
    forall more | LifeOf(plan + more, c).orphans == orphans ::
      |LifeOf(plan + more, c).reports| <= 1
  }

  const ACCEPTED := DeliveryResult(true, false, 202, 0, "", "")

  const REFUSED := DeliveryResult(false, false, 400, 0, "", "")

  const ACCEPTED_RUN := Ran(LockAcquired, Allowed, ACCEPTED, Confirmed)

  lemma OneMore(plan: seq<Delivery>, d: Delivery, c: Setting)
    ensures LifeOf(plan + [d], c) == Deliver(LifeOf(plan, c), d, c)
  {
    assert (plan + [d])[..|plan + [d]| - 1] == plan;
  }

  /** The message keeps to one status event exactly when no delivery has stored one without
      being acked, or one did and the message has since died or missed the lock. */
  lemma SingleEventIff(plan: seq<Delivery>, c: Setting)
    requires c.maxAttempts >= 1 && c.maxDeliver > 0
    ensures var life := LifeOf(plan, c);
            SingleEventForGood(plan, c) <==>
            life.orphans == 0 || (life.orphans == 1 && (life.phase.Dead? || life.misses == 1))
  {
    var life := LifeOf(plan, c);
    LifeKeepsInv(plan, c);
    if life.orphans == 0 || (life.orphans == 1 && (life.phase.Dead? || life.misses == 1)) {
      forall more | LifeOf(plan + more, c).orphans == life.orphans
        ensures |LifeOf(plan + more, c).reports| <= 1
      {
        LifeKeepsInv(plan + more, c);
        if life.orphans == 1 { FinishedStays(plan, more, c); }
      }
    } else if life.phase.Waiting? {
      OneMore(plan, ACCEPTED_RUN, c);
      assert |LifeOf(plan + [ACCEPTED_RUN], c).reports| > 1;
    } else {
      assert plan + [] == plan;
      assert |LifeOf(plan + [], c).reports| > 1;
    }
  }

  /** A worker that dies between its status event and its Ack: the redelivered message is
      sent again, and the stream says delivered and then failed. */
  lemma LateCrashReportsTwice(c: Setting)
    requires c.maxAttempts >= 1 && c.maxDeliver >= 2
    ensures var plan := [LostAfterSend(ACCEPTED, true), Ran(LockAcquired, Allowed, REFUSED, Confirmed)];
            var life := LifeOf(plan, c);
            life.phase.Acked? && life.reports == [Report(c.id, 1, Delivered), Report(c.id, 2, Failed)]
  {
    var crashed := LostAfterSend(ACCEPTED, true);
    OneMore([], crashed, c);
    assert [] + [crashed] == [crashed];
    OneMore([crashed], Ran(LockAcquired, Allowed, REFUSED, Confirmed), c);
  }

  // ------------------------------------------------- providers that fail, limits that deny

  predicate RetryableSend(d: Delivery) {
    d.Ran? && d.lock.LockAcquired? && d.limit.Allowed? && d.publish.Confirmed?
    && !d.result.success && d.result.retryable
  }

  predicate RateLimited(d: Delivery) {
    d.Ran? && d.lock.LockAcquired? && d.limit.Denied?
  }

  function Denials(plan: seq<Delivery>): nat {
    if plan == [] then 0 else Denials(plan[..|plan| - 1]) + One(RateLimited(plan[|plan| - 1]))
  }

  ghost predicate NeverAccepted(plan: seq<Delivery>) {
    forall k | 0 <= k < |plan| :: RetryableSend(plan[k]) || RateLimited(plan[k])
  }

  /** No delivery from the attempt limit up to number n called the provider. */
  ghost predicate OnlyDenied(plan: seq<Delivery>, maxAttempts: int, n: nat)
    requires maxAttempts >= 1 && n <= |plan|
  {
    forall k | maxAttempts - 1 <= k < n :: RateLimited(plan[k])
  }

  /** Where a message stands that was never accepted. */
  ghost predicate Unaccepted(life: Life, plan: seq<Delivery>, c: Setting)
    requires c.maxAttempts >= 1
  {
    && life.count <= |plan| && life.misses == life.orphans == life.unacked == 0
    && life.wasted == Denials(plan[..life.count]) && |life.sends| == life.count - life.wasted
    && if life.phase.Acked? then
         && c.maxAttempts <= life.count && life.reports == [Report(c.id, life.count, Failed)]
         && RetryableSend(plan[life.count - 1])
         && OnlyDenied(plan, c.maxAttempts, life.count - 1)
       else
         && life.reports == [] && life.count == Min(|plan|, c.maxDeliver)
         && (life.phase.Dead? <==> life.count == c.maxDeliver)
         && OnlyDenied(plan, c.maxAttempts, life.count)
  }

  lemma UnacceptedStep(life: Life, init: seq<Delivery>, d: Delivery, c: Setting)
    requires c.maxAttempts >= 1 && c.maxDeliver >= 1 && (RetryableSend(d) || RateLimited(d))
    requires Unaccepted(life, init, c)
    ensures Unaccepted(Deliver(life, d, c), init + [d], c)
  {
    var plan := init + [d];
    assert init[..life.count] == plan[..life.count];
    if life.phase.Waiting? && life.count < c.maxDeliver {
      assert plan[..|plan|] == plan;
      assert plan[..|plan| - 1] == init == init[..|init|];
    }
  }

  lemma {:induction false} NeverAcceptedLife(plan: seq<Delivery>, c: Setting)
    requires NeverAccepted(plan) && c.maxAttempts >= 1 && c.maxDeliver >= 1
    ensures Unaccepted(LifeOf(plan, c), plan, c)
    decreases |plan|
  {
    if plan == [] {
    } else {
      var init, d := plan[..|plan| - 1], plan[|plan| - 1];
      NeverAcceptedLife(init, c);
      UnacceptedStep(LifeOf(init, c), init, d, c);
      assert init + [d] == plan;
    }
  }

  /** Rate-limited deliveries do use up attempts. Whatever the order in which a provider
      that keeps failing and a limiter that denies alternate, the message is reported failed
      at the first provider call on or after the attempt limit, if the delivery cap allows
      one; each denial until then is a provider call the notification does not get. */
  lemma DenialsConsumeAttempts(plan: seq<Delivery>, c: Setting)
    requires NeverAccepted(plan) && c.maxAttempts >= 1 && 1 <= c.maxDeliver <= |plan|
    ensures var life := LifeOf(plan, c);
            && life.count <= |plan| && |life.sends| == life.count - Denials(plan[..life.count])
            && (life.phase.Acked? <==> exists k :: c.maxAttempts - 1 <= k < c.maxDeliver && RetryableSend(plan[k]))
            && (life.phase.Acked? ==>
                  && c.maxAttempts <= life.count && RetryableSend(plan[life.count - 1])
                  && OnlyDenied(plan, c.maxAttempts, life.count - 1)
                  && life.reports == [Report(c.id, life.count, Failed)])
            && (!life.phase.Acked? ==> life.phase.Dead? && life.reports == [])
  {
    NeverAcceptedLife(plan, c);
    LifeKeepsInv(plan, c);
  }

  lemma {:induction false} NoDenials(plan: seq<Delivery>)
    requires forall k | 0 <= k < |plan| :: RetryableSend(plan[k])
    ensures Denials(plan) == 0
  {
    if plan == [] {
    } else {
      NoDenials(plan[..|plan| - 1]);
    }
  }

  /** A provider that keeps failing is reported as failed exactly when the notification's
      attempt limit is within the broker's delivery cap. Beyond it the message dies and its
      notification stays pending, although no delivery was wasted. */
  lemma ExhaustionReportedIffWithinCap(plan: seq<Delivery>, c: Setting)
    requires forall k | 0 <= k < |plan| :: RetryableSend(plan[k])
    requires c.maxAttempts >= 1 && 1 <= c.maxDeliver <= |plan|
    ensures var life := LifeOf(plan, c);
            && life.wasted == 0 && |life.sends| == life.count == Min(c.maxAttempts, c.maxDeliver)
            && (life.reports == [Report(c.id, c.maxAttempts, Failed)] <==> c.maxAttempts <= c.maxDeliver)
            && (life.phase.Dead? && life.reports == [] <==> c.maxAttempts > c.maxDeliver)
  {
    NeverAcceptedLife(plan, c);
    var life := LifeOf(plan, c);
    NoDenials(plan[..life.count]);
    if c.maxAttempts <= c.maxDeliver { assert RetryableSend(plan[c.maxAttempts - 1]); }
  }

  /** The processor's own cap: its configured attempts plus one. */
  const DEFAULT_MAX_DELIVER: DeliveryCap := MAX_ATTEMPTS + 1

  function DefaultSetting(evt: ReadyEvent): Setting {
    Setting(evt.notificationId, MaxAttemptsFor(evt), DEFAULT_MAX_DELIVER)
  }

  /** With the default configuration, a notification whose provider keeps failing is reported
      at its own limit, or at the fourth attempt if it has none. Limits of six and more, which
      the API accepts, are beyond the cap: they are never reported. */
  lemma DefaultCapReportsUpToFive(plan: seq<Delivery>, evt: ReadyEvent)
    requires (forall k | 0 <= k < |plan| :: RetryableSend(plan[k])) && |plan| >= DEFAULT_MAX_DELIVER
    ensures LifeOf(plan, DefaultSetting(evt)).reports
            == if evt.maxAttempts > 5 then []
               else [Report(evt.notificationId, if evt.maxAttempts >= 1 then evt.maxAttempts else 4, Failed)]
  {
    ExhaustionReportedIffWithinCap(plan, DefaultSetting(evt));
  }

  // --------------------------------------------------------- plans that exhaust the budget

  function Times(k: nat, d: Delivery): seq<Delivery> { seq(k, _ => d) }

  lemma LostStep(life: Life, c: Setting)
    requires life.phase.Waiting? && life.count < c.maxDeliver
    ensures Deliver(life, Lost, c)
            == life.(count := life.count + 1, wasted := life.wasted + 1,
                     phase := if life.count + 1 == c.maxDeliver then Dead else Waiting)
  {
  }

  lemma {:induction false} ThenLost(first: seq<Delivery>, k: nat, c: Setting)
    requires var life := LifeOf(first, c);
             life.phase.Waiting? && life.count + k <= c.maxDeliver && life.count < c.maxDeliver
    ensures var before := LifeOf(first, c);
            LifeOf(first + Times(k, Lost), c)
            == before.(count := before.count + k, wasted := before.wasted + k,
                       phase := if before.count + k == c.maxDeliver then Dead else Waiting)
  {
    if k == 0 {
      assert first + Times(0, Lost) == first;
    } else {
      ThenLost(first, k - 1, c);
      OneMore(first + Times(k - 1, Lost), Lost, c);
      assert first + Times(k - 1, Lost) + [Lost] == first + Times(k, Lost);
      LostStep(LifeOf(first + Times(k - 1, Lost), c), c);
    }
  }

  /** The budget is exact: one wasted delivery more and a message can die unreported. */
  lemma BudgetIsTight(d: Delivery, c: Setting)
    requires RetryableSend(d) && 1 <= c.maxAttempts <= c.maxDeliver
    ensures var plan := Times(c.maxAttempts - 1, d) + Times(c.maxDeliver - c.maxAttempts + 1, Lost);
            var life := LifeOf(plan, c);
            && |plan| == c.maxDeliver && life.misses == 0
            && life.wasted == c.maxDeliver - c.maxAttempts + 1
            && life.phase.Dead? && life.reports == []
  {
    var first := Times(c.maxAttempts - 1, d);
    NeverAcceptedLife(first, c);
    NoDenials(first);
    assert first[..|first|] == first;
    ThenLost(first, c.maxDeliver - c.maxAttempts + 1, c);
  }

  const UNHEARD := LostAfterSend(ACCEPTED, false)

  lemma {:induction false} ThenUnheard(first: seq<Delivery>, k: nat, c: Setting)
    requires var life := LifeOf(first, c); life.phase.Waiting? && life.count + k < c.maxDeliver
    ensures var before, life := LifeOf(first, c), LifeOf(first + Times(k, UNHEARD), c);
            && life.phase.Waiting? && life.count == before.count + k
            && |life.sends| == |before.sends| + k && life.unacked == before.unacked + k
  {
    if k == 0 {
      assert first + Times(0, UNHEARD) == first;
    } else {
      ThenUnheard(first, k - 1, c);
      OneMore(first + Times(k - 1, UNHEARD), UNHEARD, c);
      assert first + Times(k - 1, UNHEARD) + [UNHEARD] == first + Times(k, UNHEARD);
    }
  }

  /** The send bound is exact: for every F that the cap leaves room for there are deliveries
      with maxAttempts + F provider calls, F of them with a final answer nobody acked. */
  lemma SendBoundIsTight(d: Delivery, f: nat, c: Setting)
    requires RetryableSend(d) && c.maxAttempts >= 1 && c.maxAttempts + f <= c.maxDeliver
    ensures var plan := Times(c.maxAttempts - 1, d) + Times(f, UNHEARD) + [ACCEPTED_RUN];
            var life := LifeOf(plan, c);
            life.phase.Acked? && |life.sends| == c.maxAttempts + f && life.unacked == f
  {
    var first := Times(c.maxAttempts - 1, d);
    NeverAcceptedLife(first, c);
    NoDenials(first);
    assert first[..|first|] == first;
    ThenUnheard(first, f, c);
    OneMore(first + Times(f, UNHEARD), ACCEPTED_RUN, c);
  }
}
