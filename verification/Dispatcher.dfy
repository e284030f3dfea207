/** Tick of deliveryscheduler/internal/scheduled_notification_dispatcher/dispatcher.go. */
module Dispatcher {
  import opened Ports
  import opened ScheduleRepository
  import opened BatchPublisher

  /** What one round of the loop meets: the clock, and the answers of table and stream. When
      the context ends during the publish, the re-enqueue fails with it. */
  datatype Round = Round(now: int, claim: DbReply, sends: nat -> SendReply, cancelled: bool, requeue: DbReply)

  datatype End = Drained | ClaimFailed | Requeued | Lost

  function Flatten(batches: seq<seq<Entry>>): seq<Entry> {
    if batches == [] then [] else Flatten(batches[..|batches| - 1]) + batches[|batches| - 1]
  }

  function IdsOf(batch: seq<Entry>): seq<Id> {
    seq(|batch|, k requires 0 <= k < |batch| => batch[k].id)
  }

  /** `before` consists of the rows of `after` and of `removed`, without overlap. */
  ghost predicate Splits(before: Table, after: Table, removed: seq<Entry>) {
    && Distinct(removed) && Ids(removed) !! after.Keys
    && Upserted(after, removed) == before
  }

  lemma SplitsMeaning(before: Table, after: Table, removed: seq<Entry>)
    requires Distinct(removed) && Ids(removed) !! after.Keys
    ensures Splits(before, after, removed) <==>
              && before.Keys == after.Keys + Ids(removed)
              && (forall id | id in after :: id in before && before[id] == after[id])
              && (forall k | 0 <= k < |removed| :: removed[k].id in before && before[removed[k].id] == removed[k].row)
  {
    forall k | 0 <= k < |removed| ensures removed[k].id !in after {
      assert removed[k].id in Ids(removed);
    }
    UpsertFresh(after, removed);
    var sum := Upserted(after, removed);
    if before.Keys == after.Keys + Ids(removed)
       && (forall id | id in after :: id in before && before[id] == after[id])
       && (forall k | 0 <= k < |removed| :: removed[k].id in before && before[removed[k].id] == removed[k].row)
    {
      forall id | id in sum ensures sum[id] == before[id] {
        if id !in after {
          var k :| 0 <= k < |removed| && removed[k].id == id;
          assert sum[removed[k].id] == removed[k].row;
        }
      }
    }
  }

  lemma DistinctJoin(a: seq<Entry>, b: seq<Entry>)
    requires Distinct(a) && Distinct(b) && forall k | 0 <= k < |b| :: b[k].id !in Ids(a)
    ensures Distinct(a + b)
  {
    forall j, k | 0 <= j < k < |a + b| ensures (a + b)[j].id != (a + b)[k].id {
      if j < |a| <= k {
        assert a[j].id in Ids(a);
        assert b[k - |a|].id !in Ids(a);
      }
    }
  }

  lemma IdsJoin(a: seq<Entry>, b: seq<Entry>)
    ensures Ids(a + b) == Ids(a) + Ids(b)
  {
    forall id | id in Ids(a) + Ids(b) ensures id in Ids(a + b) {
      if id in Ids(a) {
        var k :| 0 <= k < |a| && a[k].id == id;
        assert (a + b)[k].id == id;
      } else {
        var k :| 0 <= k < |b| && b[k].id == id;
        assert (a + b)[|a| + k].id == id;
      }
    }
  }

  /** Claiming one more batch moves its rows from the table to the removed ones. */
  lemma ClaimExtendsSplit(before: Table, table: Table, removed: seq<Entry>, now: int, limit: nat, batch: seq<Entry>)
    requires Splits(before, table, removed) && IsClaim(table, now, limit, {}, batch)
    ensures Splits(before, table - Ids(batch), removed + batch)
  {
    SplitsMeaning(before, table, removed);
    forall k | 0 <= k < |batch| ensures batch[k].id !in Ids(removed) {
      assert batch[k].id in table;
    }
    DistinctJoin(removed, batch);
    IdsJoin(removed, batch);
    SplitsMeaning(before, table - Ids(batch), removed + batch);
  }

  lemma {:induction false} StrictSubsetSmaller<T>(a: set<T>, b: set<T>)
    requires a < b
    ensures |a| < |b|
    decreases |a|
  {
    if a == {} {
    } else {
      var x :| x in a;
      var y :| y in b && y !in a;
      assert y in b - {x} && y !in a - {x};
      StrictSubsetSmaller(a - {x}, b - {x});
    }
  }

  lemma ClaimShrinks(table: Table, now: int, limit: nat, batch: seq<Entry>)
    requires IsClaim(table, now, limit, {}, batch) && batch != []
    ensures |table - Ids(batch)| < |table|
  {
    assert batch[0].id in table && batch[0].id !in table - Ids(batch);
    assert (table - Ids(batch)).Keys < table.Keys;
    StrictSubsetSmaller((table - Ids(batch)).Keys, table.Keys);
  }

  /** The answers of table and stream under which Tick ends in a round, and how. */
  predicate Explains(round: Round, n: nat, end: End) {
    match end
    case Drained => round.claim.DbOk?
    case ClaimFailed => round.claim.DbError?
    case Requeued => round.claim.DbOk? && !AllAcked(round.sends, n) && !round.cancelled && round.requeue.DbOk?
    case Lost => round.claim.DbOk? && (round.cancelled || (!AllAcked(round.sends, n) && round.requeue.DbError?))
  }

  lemma EmptyClaim(table: Table)
    ensures table - Ids([]) == table
  {
  }

  predicate Acknowledged(round: Round, n: nat) {
    !round.cancelled && AllAcked(round.sends, n)
  }

  /** A claimed batch is out of the table, unless it was put back. */
  function AfterRound(table: Table, batch: seq<Entry>, stop: Option<End>): Table {
    var rest := table - Ids(batch);
    if stop == Some(Requeued) then Upserted(rest, batch) else rest
  }

  /** One round of the loop: claim, publish, and put the batch back unless the stream
      acknowledged all of it. `stop` is set when Tick returns after this round. */
  method RunRound(repo: Repository, pub: Publisher<Id>, limit: int, round: Round)
    returns (stop: Option<End>, notifications: seq<Entry>)
    requires limit >= 1
    modifies repo, pub
    ensures notifications == [] <==> stop == Some(Drained) || stop == Some(ClaimFailed)
    ensures notifications != [] ==> IsClaim(old(repo.table), round.now, limit, {}, notifications)
    ensures repo.table == AfterRound(old(repo.table), notifications, stop)
    ensures pub.stream == old(pub.stream) + (if stop == None then IdsOf(notifications)
                                             else Landed(IdsOf(notifications), round.sends))
    ensures stop == Some(Drained) ==> forall id :: !Due(repo.table, id, round.now)
    ensures stop.Some? ==> Explains(round, |notifications|, stop.value)
    ensures stop == None ==> Acknowledged(round, |notifications|)
  {
    var claimed;
    claimed, notifications := repo.DeleteByScheduledAtBeforeReturning(round.now, limit, round.claim);
    if !claimed {
      return Some(ClaimFailed), [];
    }
    if |notifications| == 0 {
      EmptyClaim(old(repo.table));
      return Some(Drained), [];
    }
    var msgs := IdsOf(notifications);
    var ok := pub.PublishBatch(msgs, round.sends, round.cancelled);
    if !ok {
      ClaimThenUpsertRestores(old(repo.table), round.now, limit, {}, notifications);
      var back := repo.UpsertAll(notifications, if round.cancelled then DbError else round.requeue);
      return if back then Some(Requeued) else Some(Lost), notifications;
    }
    AckedBatchLands(msgs, round.sends);
    return None, notifications;
  }

  ghost predicate DueBatch(batch: seq<Entry>, now: int, limit: int) {
    1 <= |batch| <= limit && forall k | 0 <= k < |batch| :: batch[k].row.at <= now
  }

  /** Every batch is a claim's worth of rows that were due when they were claimed. */
  ghost predicate ClaimedWhenDue(batches: seq<seq<Entry>>, rounds: nat -> Round, limit: int) {
    forall b | 0 <= b < |batches| :: DueBatch(batches[b], rounds(b).now, limit)
  }

  ghost predicate NotAfter(batch: seq<Entry>, later: seq<Entry>) {
    forall j, k | 0 <= j < |batch| && 0 <= k < |later| :: batch[j].row.at <= later[k].row.at
  }

  /** Rows of earlier batches are scheduled no later than rows of later ones. */
  ghost predicate Ordered(batches: seq<seq<Entry>>) {
    forall b, b' | 0 <= b < b' < |batches| :: NotAfter(batches[b], batches[b'])
  }

  ghost predicate NotAfterRows(batch: seq<Entry>, table: Table) {
    forall k, id | 0 <= k < |batch| && id in table :: batch[k].row.at <= table[id].at
  }

  ghost predicate NoLaterThanRows(batches: seq<seq<Entry>>, table: Table) {
    forall b | 0 <= b < |batches| :: NotAfterRows(batches[b], table)
  }

  /** The rows of `before` are the rows of `after`, the published ones and the lost ones,
      each in one place; published batches hold due rows in the order of their times, none
      later than a row that is left. */
  ghost predicate Accounts(before: Table, after: Table, batches: seq<seq<Entry>>, lost: seq<Entry>,
                           rounds: nat -> Round, limit: int)
  {
    && Splits(before, after, Flatten(batches) + lost)
    && ClaimedWhenDue(batches, rounds, limit) && Ordered(batches) && NoLaterThanRows(batches, after)
  }

  lemma NothingRemoved(table: Table, rounds: nat -> Round, limit: int)
    ensures Accounts(table, table, [], [], rounds, limit)
  {
    UpsertFresh(table, []);
  }

  lemma IdsOfAppend(a: seq<Entry>, b: seq<Entry>)
    ensures IdsOf(a + b) == IdsOf(a) + IdsOf(b)
  {
  }

  lemma FlattenAppend(batches: seq<seq<Entry>>, batch: seq<Entry>)
    ensures Flatten(batches + [batch]) == Flatten(batches) + batch
  {
    assert (batches + [batch])[..|batches|] == batches;
  }

  lemma ClaimIsEarliest(table: Table, now: int, limit: nat, batch: seq<Entry>)
    requires IsClaim(table, now, limit, {}, batch) && batch != []
    ensures DueBatch(batch, now, limit) && NotAfterRows(batch, table - Ids(batch))
  {
    forall k, id | 0 <= k < |batch| && id in table - Ids(batch)
      ensures batch[k].row.at <= table[id].at
    {
      assert Due(table, batch[k].id, now);
      if Due(table, id, now) { assert batch[k].row.at <= table[id].at; }
    }
  }

  lemma EarlierThanClaim(earlier: seq<Entry>, table: Table, now: int, limit: nat, batch: seq<Entry>)
    requires NotAfterRows(earlier, table) && IsClaim(table, now, limit, {}, batch)
    ensures NotAfter(earlier, batch) && NotAfterRows(earlier, table - Ids(batch))
  {
    forall j, k | 0 <= j < |earlier| && 0 <= k < |batch|
      ensures earlier[j].row.at <= batch[k].row.at
    {
      assert batch[k].id in table;
    }
  }

  lemma OrderedAppend(batches: seq<seq<Entry>>, batch: seq<Entry>)
    requires Ordered(batches) && forall b | 0 <= b < |batches| :: NotAfter(batches[b], batch)
    ensures Ordered(batches + [batch])
  {
    var longer := batches + [batch];
    forall b, b' | 0 <= b < b' < |longer| ensures NotAfter(longer[b], longer[b']) {
      if b' < |batches| { assert NotAfter(batches[b], batches[b']); }
    }
  }

  lemma BatchExtends(batches: seq<seq<Entry>>, rounds: nat -> Round, limit: nat, table: Table, batch: seq<Entry>)
    requires ClaimedWhenDue(batches, rounds, limit) && Ordered(batches) && NoLaterThanRows(batches, table)
    requires IsClaim(table, rounds(|batches|).now, limit, {}, batch) && batch != []
    ensures ClaimedWhenDue(batches + [batch], rounds, limit)
    ensures Ordered(batches + [batch])
    ensures NoLaterThanRows(batches + [batch], table - Ids(batch))
  {
    var now := rounds(|batches|).now;
    ClaimIsEarliest(table, now, limit, batch);
    forall b | 0 <= b < |batches|
      ensures NotAfter(batches[b], batch) && NotAfterRows(batches[b], table - Ids(batch))
    {
      EarlierThanClaim(batches[b], table, now, limit, batch);
    }
    OrderedAppend(batches, batch);
  }

  lemma PublishingAccounts(before: Table, table: Table, batches: seq<seq<Entry>>, rounds: nat -> Round,
                           limit: int, batch: seq<Entry>)
    requires limit >= 1 && Accounts(before, table, batches, [], rounds, limit)
    requires IsClaim(table, rounds(|batches|).now, limit, {}, batch) && batch != []
    ensures Accounts(before, table - Ids(batch), batches + [batch], [], rounds, limit)
    ensures IdsOf(Flatten(batches + [batch])) == IdsOf(Flatten(batches)) + IdsOf(batch)
  {
    assert Flatten(batches) + [] == Flatten(batches);
    ClaimExtendsSplit(before, table, Flatten(batches), rounds(|batches|).now, limit, batch);
    BatchExtends(batches, rounds, limit, table, batch);
    FlattenAppend(batches, batch);
    IdsOfAppend(Flatten(batches), batch);
    assert Flatten(batches + [batch]) + [] == Flatten(batches) + batch;
  }

  lemma LosingAccounts(before: Table, table: Table, batches: seq<seq<Entry>>, rounds: nat -> Round,
                       limit: int, batch: seq<Entry>)
    requires limit >= 1 && Accounts(before, table, batches, [], rounds, limit)
    requires IsClaim(table, rounds(|batches|).now, limit, {}, batch)
    ensures Accounts(before, table - Ids(batch), batches, batch, rounds, limit)
  {
    assert Flatten(batches) + [] == Flatten(batches);
    ClaimExtendsSplit(before, table, Flatten(batches), rounds(|batches|).now, limit, batch);
  }

  /** What one round with a claim does to the account, for each way the round can go. */
  lemma RoundAccounts(before: Table, table: Table, batches: seq<seq<Entry>>, rounds: nat -> Round,
                      limit: int, batch: seq<Entry>, stop: Option<End>)
    requires limit >= 1 && Accounts(before, table, batches, [], rounds, limit)
    requires batch != [] ==> IsClaim(table, rounds(|batches|).now, limit, {}, batch)
    requires batch == [] <==> stop == Some(Drained) || stop == Some(ClaimFailed)
    ensures var after := AfterRound(table, batch, stop);
            match stop
            case None =>
              && Accounts(before, after, batches + [batch], [], rounds, limit)
              && IdsOf(Flatten(batches + [batch])) == IdsOf(Flatten(batches)) + IdsOf(batch)
            case Some(end) => Accounts(before, after, batches, if end.Lost? then batch else [], rounds, limit)
  {
    if stop == None {
      PublishingAccounts(before, table, batches, rounds, limit, batch);
    } else if batch == [] {
      EmptyClaim(table);
    } else if stop == Some(Requeued) {
      ClaimThenUpsertRestores(table, rounds(|batches|).now, limit, {}, batch);
    } else {
      LosingAccounts(before, table, batches, rounds, limit, batch);
    }
  }

  lemma Associates<T>(a: seq<T>, b: seq<T>, c: seq<T>)
    ensures a + b + c == a + (b + c)
  {
  }

  class ScheduledNotificationDispatcher {
    const repo: Repository
    const pub: Publisher<Id>
    const batch: int

    constructor (repo: Repository, pub: Publisher<Id>, batch: int)
      ensures this.repo == repo && this.pub == pub
      ensures this.batch == if batch < 1 then 100 else batch
    {
      this.repo := repo;
      this.pub := pub;
      this.batch := if batch < 1 then 100 else batch;
    }

    /** With nobody else at the table, one Tick ends. `batches` are the batches it published,
        `failed` the last one if its publish failed. What leaves the table is exactly what is
        published, unless putting a failed batch back fails too. */
    method Tick(rounds: nat -> Round) returns (end: End, ghost batches: seq<seq<Entry>>, ghost failed: seq<Entry>)
      requires batch >= 1
      modifies repo, pub
      ensures Accounts(old(repo.table), repo.table, batches, if end.Lost? then failed else [], rounds, batch)
      // the stream got the published batches in order, then what landed of the failed one
      ensures pub.stream == old(pub.stream) + IdsOf(Flatten(batches))
                            + Landed(IdsOf(failed), rounds(|batches|).sends)
      ensures failed == [] <==> end.Drained? || end.ClaimFailed?
      ensures Explains(rounds(|batches|), |failed|, end)
      // a context that ends during a publish loses the claimed batch
      ensures rounds(|batches|).cancelled && failed != [] ==> end.Lost?
      // a drained table has nothing that was due at the last claim
      ensures end.Drained? ==> forall id :: !Due(repo.table, id, rounds(|batches|).now)
    {
      batches, failed := [], [];
      var n := 0;
      NothingRemoved(repo.table, rounds, batch);
      while true
        invariant n == |batches| && failed == []
        invariant Accounts(old(repo.table), repo.table, batches, [], rounds, batch)
        invariant pub.stream == old(pub.stream) + IdsOf(Flatten(batches))
        decreases |repo.table|
      {
        ghost var table := repo.table;
        var stop, notifications := RunRound(repo, pub, batch, rounds(n));
        RoundAccounts(old(repo.table), table, batches, rounds, batch, notifications, stop);
        if stop.Some? {
          return stop.value, batches, notifications;
        }
        ClaimShrinks(table, rounds(n).now, batch, notifications);
        Associates(old(pub.stream), IdsOf(Flatten(batches)), IdsOf(notifications));
        batches := batches + [notifications];
        n := n + 1;
      }
    }
  }

  lemma {:induction false} CountIds(batch: seq<Entry>, id: Id)
    requires Distinct(batch)
    ensures multiset(IdsOf(batch))[id] == if id in Ids(batch) then 1 else 0
  {
    if batch == [] {
    } else {
      var init := batch[..|batch| - 1];
      var last := batch[|batch| - 1];
      CountIds(init, id);
      IdsAppend(init, last);
      assert batch == init + [last];
      assert IdsOf(batch) == IdsOf(init) + [last.id];
      assert last.id !in Ids(init) by {
        forall k | 0 <= k < |init| ensures init[k].id != last.id { assert init[k] == batch[k]; }
      }
    }
  }

  /** A Tick that loses nothing publishes each removed row once and touches no other. */
  lemma PublishedOnceEach(before: Table, after: Table, published: seq<Entry>, id: Id)
    requires Splits(before, after, published)
    ensures multiset(IdsOf(published))[id] == if id in before && id !in after then 1 else 0
    ensures id in after ==> id in before && after[id] == before[id]
  {
    SplitsMeaning(before, after, published);
    CountIds(published, id);
  }
}
