/** The deliveries of one message on the clock, against its own lock key. One delivery is
    outstanding at a time, so a missed lock can only be a key an earlier delivery left. */
module MessageTimeline {
  import opened Ports
  import opened Backoff
  import opened RedisLock
  import opened DeliveryPipeline
  import opened MessageLifecycle

  /** A worker settles the delivery after the deferred Unlock, or dies without either. */
  datatype Fate = Finishes(unlockFault: Fault) | Dies(afterSend: bool, stored: bool)

  /** A delivery that reaches TryLock `gap` after the one before ended and ends `held` later. */
  datatype Visit = Visit(gap: nat, lockFault: Fault, limit: LimitReply, result: DeliveryResult,
                         publish: PublishReply, held: nat, fate: Fate)

  datatype Timeline = Timeline(now: int, keys: KeySpace, life: Life)

  const DAWN := Timeline(0, map[], BORN)

  predicate Open(s: Timeline, c: Setting) {
    s.life.phase.Waiting? && s.life.count < c.maxDeliver
  }

  function Reply(s: Timeline, v: Visit, c: Setting): LockReply {
    TryLockReply(s.keys, c.id, s.now + v.gap, v.lockFault)
  }

  function DeliveryOf(v: Visit, lock: LockReply): Delivery {
    match v.fate
    case Finishes(_) => Ran(lock, v.limit, v.result, v.publish)
    case Dies(afterSend, stored) =>
      if afterSend && Sends(lock, v.limit) then LostAfterSend(v.result, stored) else Lost
  }

  function KeysAfter(s: Timeline, v: Visit, c: Setting): KeySpace {
    var keys := AfterTryLock(s.keys, c.id, s.now + v.gap, v.lockFault);
    if Reply(s, v, c).LockAcquired? && v.fate.Finishes? then AfterUnlock(keys, c.id, v.fate.unlockFault) else keys
  }

  function Visited(s: Timeline, v: Visit, c: Setting): Timeline {
    if !Open(s, c) then s
    else Timeline(s.now + v.gap + v.held, KeysAfter(s, v, c),
                  Deliver(s.life, DeliveryOf(v, Reply(s, v, c)), c))
  }

  function TimelineOf(visits: seq<Visit>, c: Setting): Timeline {
    if visits == [] then DAWN
    else Visited(TimelineOf(visits[..|visits| - 1], c), visits[|visits| - 1], c)
  }

  /** When visit k reached TryLock. */
  function StartOf(visits: seq<Visit>, k: nat, c: Setting): int
    requires k < |visits|
  {
    TimelineOf(visits[..k], c).now + visits[k].gap
  }

  /** The visit sets the key and does not remove it: the reply to its TryLock was lost, its
      Unlock was not executed, or it died in between. */
  predicate LeavesKey(s: Timeline, v: Visit, c: Setting) {
    && Open(s, c) && !v.lockFault.NotExecuted? && !Live(s.keys, LockKey(c.id), s.now + v.gap)
    && (v.lockFault.ReplyLost? || v.fate.Dies? || v.fate.unlockFault.NotExecuted?)
  }

  predicate Left(visits: seq<Visit>, k: nat, c: Setting)
    requires k < |visits|
  {
    LeavesKey(TimelineOf(visits[..k], c), visits[k], c)
  }

  /** Some earlier visit left a key that has not expired at time t. */
  ghost predicate KeyLeftAt(visits: seq<Visit>, t: int, c: Setting) {
    exists k: nat :: k < |visits| && Left(visits, k, c) && t < StartOf(visits, k, c) + LOCK_TTL
  }

  /** The lock table of a visit that is not cut short is the one Run promises. */
  lemma VisitIsRun(s: Timeline, v: Visit, c: Setting)
    requires v.fate.Finishes?
    ensures KeysAfter(s, v, c) ==
            if Reply(s, v, c).LockAcquired? && !v.fate.unlockFault.NotExecuted?
            then s.keys - {LockKey(c.id)}
            else AfterTryLock(s.keys, c.id, s.now + v.gap, v.lockFault)
  {
    if Reply(s, v, c).LockAcquired? {
      var key := LockKey(c.id);
      assert s.keys[key := s.now + v.gap + LOCK_TTL] - {key} == s.keys - {key};
    }
  }

  lemma KeyLeftGrows(init: seq<Visit>, v: Visit, t: int, c: Setting)
    ensures var s := TimelineOf(init, c);
            KeyLeftAt(init + [v], t, c) <==>
            KeyLeftAt(init, t, c) || (LeavesKey(s, v, c) && t < s.now + v.gap + LOCK_TTL)
  {
    var visits := init + [v];
    assert visits[..|init|] == init;
    forall k: nat | k < |init|
      ensures Left(visits, k, c) == Left(init, k, c) && StartOf(visits, k, c) == StartOf(init, k, c)
    {
      assert visits[..k] == init[..k];
    }
    if KeyLeftAt(init, t, c) {
      var k: nat :| k < |init| && Left(init, k, c) && t < StartOf(init, k, c) + LOCK_TTL;
      assert Left(visits, k, c);
    }
    if LeavesKey(TimelineOf(init, c), v, c) { assert Left(visits, |init|, c); }
  }

  lemma StillExpired(visits: seq<Visit>, t: int, later: int, c: Setting)
    requires t <= later
    ensures KeyLeftAt(visits, later, c) ==> KeyLeftAt(visits, t, c)
  {
    if KeyLeftAt(visits, later, c) {
      var k: nat :| k < |visits| && Left(visits, k, c) && later < StartOf(visits, k, c) + LOCK_TTL;
      assert Left(visits, k, c) && t < StartOf(visits, k, c) + LOCK_TTL;
    }
  }

  lemma KeyAfterVisit(s: Timeline, v: Visit, t: int, c: Setting)
    requires Open(s, c) && t >= s.now + v.gap
    ensures var key, start := LockKey(c.id), s.now + v.gap;
            Live(KeysAfter(s, v, c), key, t) <==>
            if LeavesKey(s, v, c) then t < start + LOCK_TTL
            else Live(s.keys, key, t)
  {
  }

  /** From now on the key is live exactly as long as the latest one left has not expired. */
  lemma {:induction false} LiveIffLeft(visits: seq<Visit>, t: int, c: Setting)
    requires t >= TimelineOf(visits, c).now
    ensures Live(TimelineOf(visits, c).keys, LockKey(c.id), t) <==> KeyLeftAt(visits, t, c)
    decreases |visits|
  {
    if visits == [] {
    } else {
      var init, v := visits[..|visits| - 1], visits[|visits| - 1];
      var s := TimelineOf(init, c);
      assert visits == init + [v];
      LiveIffLeft(init, t, c);
      KeyLeftGrows(init, v, t, c);
      if Open(s, c) {
        LiveIffLeft(init, s.now + v.gap, c);
        KeyAfterVisit(s, v, t, c);
        StillExpired(init, s.now + v.gap, t, c);
      }
    }
  }

  /** A delivery misses the lock exactly when its reply arrives and an earlier delivery of
      the same message left its key less than ten seconds before. */
  lemma MissIffKeyLeft(visits: seq<Visit>, v: Visit, c: Setting)
    ensures var s := TimelineOf(visits, c);
            Reply(s, v, c).LockMiss? <==> v.lockFault.NoFault? && KeyLeftAt(visits, s.now + v.gap, c)
  {
    LiveIffLeft(visits, TimelineOf(visits, c).now + v.gap, c);
  }

  /** Visit j is handled to its end and finds the key of an earlier one. */
  ghost predicate Collides(visits: seq<Visit>, j: nat, c: Setting)
    requires j < |visits|
  {
    && Open(TimelineOf(visits[..j], c), c) && visits[j].lockFault.NoFault? && visits[j].fate.Finishes?
    && KeyLeftAt(visits[..j], StartOf(visits, j, c), c)
  }

  /** The plan of deliveries that these visits make, as the lock lets them. */
  function PlanOf(visits: seq<Visit>, c: Setting): (plan: seq<Delivery>)
    ensures |plan| == |visits|
  {
    if visits == [] then []
    else
      var init := visits[..|visits| - 1];
      var v := visits[|visits| - 1];
      PlanOf(init, c) + [DeliveryOf(v, Reply(TimelineOf(init, c), v, c))]
  }

  lemma {:induction false} LifeIsPlanned(visits: seq<Visit>, c: Setting)
    ensures TimelineOf(visits, c).life == LifeOf(PlanOf(visits, c), c)
  {
    if visits == [] {
    } else {
      var init := visits[..|visits| - 1];
      var v := visits[|visits| - 1];
      LifeIsPlanned(init, c);
      OneMore(PlanOf(init, c), DeliveryOf(v, Reply(TimelineOf(init, c), v, c)), c);
    }
  }

  predicate MissesIn(s: Timeline, v: Visit, c: Setting) {
    Open(s, c) && Reply(s, v, c).LockMiss? && v.fate.Finishes?
  }

  lemma TimelineInv(visits: seq<Visit>, c: Setting)
    requires c.maxAttempts >= 1
    ensures Inv(TimelineOf(visits, c).life, c)
  {
    LifeIsPlanned(visits, c);
    LifeKeepsInv(PlanOf(visits, c), c);
  }

  lemma MissesStep(s: Timeline, v: Visit, c: Setting)
    requires Inv(s.life, c)
    ensures Visited(s, v, c).life.misses == 1 <==> s.life.misses == 1 || MissesIn(s, v, c)
  {
  }

  lemma LastCollides(init: seq<Visit>, v: Visit, c: Setting)
    ensures Collides(init + [v], |init|, c) <==> MissesIn(TimelineOf(init, c), v, c)
  {
    assert (init + [v])[..|init|] == init;
    MissIffKeyLeft(init, v, c);
  }

  lemma CollisionsGrow(visits: seq<Visit>, c: Setting)
    requires visits != []
    ensures var init, last := visits[..|visits| - 1], |visits| - 1;
            (exists j: nat :: j < |visits| && Collides(visits, j, c)) <==>
            (exists j: nat :: j < |init| && Collides(init, j, c)) || Collides(visits, last, c)
  {
    var init := visits[..|visits| - 1];
    forall j: nat | j < |init| ensures Collides(visits, j, c) == Collides(init, j, c) {
      assert visits[..j] == init[..j];
    }
    if exists j: nat :: j < |init| && Collides(init, j, c) {
      var j: nat :| j < |init| && Collides(init, j, c);
      assert Collides(visits, j, c);
    }
  }

  /** A message is acked by a missed lock exactly when one of its deliveries collides with a
      key an earlier one left. */
  lemma {:induction false} SilentAckIffCollision(visits: seq<Visit>, c: Setting)
    requires c.maxAttempts >= 1
    ensures TimelineOf(visits, c).life.misses == 1 <==> exists j: nat :: j < |visits| && Collides(visits, j, c)
    decreases |visits|
  {
    if visits == [] {
    } else {
      var init, v := visits[..|visits| - 1], visits[|visits| - 1];
      assert visits == init + [v];
      SilentAckIffCollision(init, c);
      TimelineInv(init, c);
      MissesStep(TimelineOf(init, c), v, c);
      LastCollides(init, v, c);
      CollisionsGrow(visits, c);
    }
  }

  /** Whenever a delivery leaves its key, the next TryLock comes ten seconds later. */
  ghost predicate Spaced(visits: seq<Visit>, c: Setting) {
    forall j: nat, k: nat | k < j < |visits| && Left(visits, k, c) ::
      StartOf(visits, j, c) >= StartOf(visits, k, c) + LOCK_TTL
  }

  lemma SamePast(visits: seq<Visit>, j: nat, k: nat, c: Setting)
    requires k < j <= |visits|
    ensures Left(visits[..j], k, c) == Left(visits, k, c)
    ensures StartOf(visits[..j], k, c) == StartOf(visits, k, c)
  {
    assert visits[..j][..k] == visits[..k];
  }

  lemma SpacedNeverCollides(visits: seq<Visit>, j: nat, c: Setting)
    requires Spaced(visits, c) && j < |visits|
    ensures !Collides(visits, j, c)
  {
    forall k: nat | k < j
      ensures Left(visits[..j], k, c) == Left(visits, k, c)
      ensures StartOf(visits[..j], k, c) == StartOf(visits, k, c)
    {
      SamePast(visits, j, k, c);
    }
  }

  /** The delivery budget without an assumption on the lock: deliveries that leave their key
      are ten seconds from the next, at most maxDeliver - maxAttempts are wasted, and the
      message ends acked with a status event for its last provider call. */
  lemma BudgetWhenSpaced(visits: seq<Visit>, c: Setting)
    requires 1 <= c.maxAttempts <= c.maxDeliver <= |visits| && Spaced(visits, c)
    requires TimelineOf(visits, c).life.wasted <= c.maxDeliver - c.maxAttempts
    ensures var life := TimelineOf(visits, c).life;
            && life.phase.Acked? && LastReportTellsLastSend(life, c)
            && (|life.reports| == 1 <==> life.orphans == 0)
  {
    var plan := PlanOf(visits, c);
    LifeIsPlanned(visits, c);
    SilentAckIffCollision(visits, c);
    forall j: nat | j < |visits| ensures !Collides(visits, j, c) { SpacedNeverCollides(visits, j, c); }
    LifeKeepsInv(plan, c);
    DeliveryBudget(plan, c);
  }

  /** The backoff that attempt number n asks for is no shorter than the expiry time. */
  predicate OutlastsKey(n: int, random: real, platform: Duration) {
    RetryDelay(n + 1, random, platform) >= LOCK_TTL
  }

  /** The broker held the message back for the backoff that attempt number n asked for. */
  predicate WaitedFor(gap: nat, n: int, random: real, platform: Duration) {
    IsRandom(random) && gap >= RetryDelay(n + 1, random, platform)
  }

  ghost predicate WaitedBackoff(gap: nat, n: int) {
    exists random: real, platform: Duration :: WaitedFor(gap, n, random, platform)
  }

  /** The backoff before the next attempt is longer than the expiry time, for every draw and
      platform, exactly up to attempt 28; beyond it the delay can be negative. */
  lemma BackoffOutlastsKeyIff(attempt: int)
    requires attempt >= 1
    ensures (forall random: real, platform: Duration | IsRandom(random) :: OutlastsKey(attempt, random, platform))
            <==> attempt <= 28
  {
    if attempt <= 28 {
      forall random: real, platform: Duration | IsRandom(random)
        ensures OutlastsKey(attempt, random, platform)
      {
        DelayInBand(attempt + 1, random, platform);
        Pow2Grows(0, attempt - 1);
        assert NominalBase(attempt + 1) >= RETRY_BASE;
      }
    } else {
      OverflowLeavesBand(attempt + 1);
      assert !OutlastsKey(attempt, 0.0, -TWO_63);
    }
  }

  /** Visit k ended in a retry, and the broker held the message back for its backoff. */
  ghost predicate BackedOff(visits: seq<Visit>, k: nat, c: Setting)
    requires k + 1 < |visits|
  {
    var s := TimelineOf(visits[..k], c);
    var n := s.life.count + 1;
    && EndingAt(DeliveryOf(visits[k], Reply(s, visits[k], c)), n, c.maxAttempts).Retried?
    && n <= 28
    && WaitedBackoff(visits[k + 1].gap, n)
  }

  lemma NextVisit(visits: seq<Visit>, k: nat, c: Setting)
    requires k + 1 < |visits| && Open(TimelineOf(visits[..k], c), c)
    ensures StartOf(visits, k + 1, c) == StartOf(visits, k, c) + visits[k].held + visits[k + 1].gap
  {
    assert visits[..k + 1] == visits[..k] + [visits[k]];
    assert visits[..k + 1][..k] == visits[..k];
  }

  /** A retry does not find the key of the delivery it retries, even if the Unlock was not
      executed. */
  lemma RetryOutlastsKey(visits: seq<Visit>, k: nat, c: Setting)
    requires k + 1 < |visits| && Left(visits, k, c) && BackedOff(visits, k, c)
    ensures StartOf(visits, k + 1, c) >= StartOf(visits, k, c) + LOCK_TTL
  {
    var n := TimelineOf(visits[..k], c).life.count + 1;
    var random: real, platform: Duration :| WaitedFor(visits[k + 1].gap, n, random, platform);
    BackoffOutlastsKeyIff(n);
    assert OutlastsKey(n, random, platform);
    NextVisit(visits, k, c);
  }

  lemma {:induction false} VisitsInOrder(visits: seq<Visit>, k: nat, j: nat, c: Setting)
    requires k <= j < |visits| && Open(TimelineOf(visits[..j], c), c)
    ensures StartOf(visits, k, c) <= StartOf(visits, j, c)
    decreases j
  {
    if k == j {
    } else {
      assert visits[..j][..j - 1] == visits[..j - 1];
      VisitsInOrder(visits, k, j - 1, c);
      NextVisit(visits, j - 1, c);
    }
  }

  lemma RetryDoesNotCollide(visits: seq<Visit>, j: nat, c: Setting)
    requires j < |visits|
    requires forall k: nat | k + 1 < |visits| && Left(visits, k, c) :: BackedOff(visits, k, c)
    ensures !Collides(visits, j, c)
  {
    if Open(TimelineOf(visits[..j], c), c) {
      forall k: nat | k < j && Left(visits[..j], k, c)
        ensures StartOf(visits, j, c) >= StartOf(visits[..j], k, c) + LOCK_TTL
      {
        SamePast(visits, j, k, c);
        RetryOutlastsKey(visits, k, c);
        VisitsInOrder(visits, k + 1, j, c);
      }
    }
  }

  /** When only retried deliveries leave their key, no delivery ever misses the lock. */
  lemma RetriesNeverCollide(visits: seq<Visit>, c: Setting)
    requires c.maxAttempts >= 1
    requires forall k: nat | k + 1 < |visits| && Left(visits, k, c) :: BackedOff(visits, k, c)
    ensures TimelineOf(visits, c).life.misses == 0
  {
    forall j: nat | j < |visits| ensures !Collides(visits, j, c) {
      RetryDoesNotCollide(visits, j, c);
    }
    SilentAckIffCollision(visits, c);
    LifeIsPlanned(visits, c);
    LifeKeepsInv(PlanOf(visits, c), c);
  }

  lemma TwoVisits(v: Visit, w: Visit, c: Setting)
    ensures TimelineOf([v, w], c) == Visited(Visited(DAWN, v, c), w, c)
  {
    assert [v, w][..|[v, w]| - 1] == [v];
    assert TimelineOf([v], c) == Visited(TimelineOf([v][..0], c), v, c);
  }

  /** An accepted call whose status event is not confirmed and whose Unlock is not executed:
      the plain Nak brings the message straight back, the lock is missed, the message is
      acked, and no status event was ever stored. */
  lemma FailedUnlockLosesReport(id: string, maxAttempts: int, maxDeliver: DeliveryCap)
    requires maxAttempts >= 1 && maxDeliver >= 2
    ensures var c := Setting(id, maxAttempts, maxDeliver);
            var first := Visit(0, NoFault, Allowed, ACCEPTED, Unconfirmed(false), 0, Finishes(NotExecuted));
            var life := TimelineOf([first, first.(fate := Finishes(NoFault))], c).life;
            life.phase.Acked? && life.reports == [] && life.sends == [Sending(1, ACCEPTED)]
  {
    var c := Setting(id, maxAttempts, maxDeliver);
    var first := Visit(0, NoFault, Allowed, ACCEPTED, Unconfirmed(false), 0, Finishes(NotExecuted));
    TwoVisits(first, first.(fate := Finishes(NoFault)), c);
  }

  /** A TryLock whose reply is lost: the message is acked without any provider call. */
  lemma LostLockReplyDropsMessage(id: string, maxAttempts: int, maxDeliver: DeliveryCap)
    requires maxAttempts >= 1 && maxDeliver >= 2
    ensures var c := Setting(id, maxAttempts, maxDeliver);
            var first := Visit(0, ReplyLost, Allowed, ACCEPTED, Confirmed, 0, Finishes(NoFault));
            var life := TimelineOf([first, first.(lockFault := NoFault)], c).life;
            life.phase.Acked? && life.reports == [] && life.sends == []
  {
    var c := Setting(id, maxAttempts, maxDeliver);
    var first := Visit(0, ReplyLost, Allowed, ACCEPTED, Confirmed, 0, Finishes(NoFault));
    TwoVisits(first, first.(lockFault := NoFault), c);
  }
}
