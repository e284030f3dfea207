/** The scheduled_notifications table and its statements:
    deliveryscheduler/internal/db/postgres/repository.go. */
module ScheduleRepository {
  import opened Ports

  type Id = string

  /** A row: when it is due, and the trace metadata stored with it. */
  datatype Row = Row(at: int, trace: string)

  datatype Entry = Entry(id: Id, row: Row)

  type Table = map<Id, Row>

  function Ids(batch: seq<Entry>): (ids: set<Id>)
    ensures forall k | 0 <= k < |batch| :: batch[k].id in ids
    ensures forall id | id in ids :: exists k :: 0 <= k < |batch| && batch[k].id == id
  {
    set k | 0 <= k < |batch| :: batch[k].id
  }

  ghost predicate Distinct(batch: seq<Entry>) {
    forall j, k | 0 <= j < k < |batch| :: batch[j].id != batch[k].id
  }

  predicate Due(table: Table, id: Id, before: int) {
    id in table && table[id].at <= before
  }

  /** What DELETE ... WHERE id IN (SELECT ... ORDER BY scheduled_at LIMIT n FOR UPDATE SKIP
      LOCKED) RETURNING * may return while `locked` rows are held by others: distinct due
      rows, as many as there are up to the limit, none due later than a due row left. */
  ghost predicate IsClaim(table: Table, before: int, limit: nat, locked: set<Id>, batch: seq<Entry>) {
    && Distinct(batch) && |batch| <= limit
    && (forall k | 0 <= k < |batch| ::
          && batch[k].id !in locked && Due(table, batch[k].id, before) && batch[k].row == table[batch[k].id])
    && (forall id | Due(table, id, before) && id !in locked && id !in Ids(batch) ::
          && |batch| == limit
          && forall k | 0 <= k < |batch| :: batch[k].row.at <= table[id].at)
  }

  /** INSERT ... ON CONFLICT (notification_id) DO UPDATE SET scheduled_at: a conflicting row
      gets the new time and keeps its trace metadata. */
  function Upserted(table: Table, batch: seq<Entry>): Table {
    if batch == [] then table
    else
      var before := Upserted(table, batch[..|batch| - 1]);
      var e := batch[|batch| - 1];
      before[e.id := if e.id in before then Row(e.row.at, before[e.id].trace) else e.row]
  }

  /** The statement as a whole: refused when it names a row twice. */
  predicate UpsertRefused(batch: seq<Entry>) {
    exists j, k :: 0 <= j < k < |batch| && batch[j].id == batch[k].id
  }

  lemma IdsAppend(batch: seq<Entry>, e: Entry)
    ensures Ids(batch + [e]) == Ids(batch) + {e.id}
  {
    assert forall k | 0 <= k < |batch| :: (batch + [e])[k] == batch[k];
    assert (batch + [e])[|batch|] == e;
  }

  /** The batch only adds rows: it leaves those of the table alone. */
  ghost predicate Adds(table: Table, batch: seq<Entry>, after: Table) {
    && after.Keys == table.Keys + Ids(batch)
    && (forall id | id in table :: after[id] == table[id])
    && (forall k | 0 <= k < |batch| :: after[batch[k].id] == batch[k].row)
  }

  lemma AddsOneMore(table: Table, init: seq<Entry>, e: Entry, before: Table)
    requires Adds(table, init, before) && e.id !in before
    ensures Adds(table, init + [e], before[e.id := e.row])
  {
    IdsAppend(init, e);
    forall k | 0 <= k < |init| ensures init[k].id in before { assert init[k].id in Ids(init); }
  }

  lemma {:induction false} UpsertFresh(table: Table, batch: seq<Entry>)
    requires Distinct(batch) && forall k | 0 <= k < |batch| :: batch[k].id !in table
    ensures Adds(table, batch, Upserted(table, batch))
  {
    if batch == [] {
    } else {
      var init, e := batch[..|batch| - 1], batch[|batch| - 1];
      assert forall k | 0 <= k < |init| :: init[k] == batch[k];
      UpsertFresh(table, init);
      assert e.id !in Ids(init);
      AddsOneMore(table, init, e, Upserted(table, init));
      assert init + [e] == batch;
    }
  }

  predicate Earliest(table: Table, pool: set<Id>, id: Id)
    requires pool <= table.Keys && id in table
  {
    forall other | other in pool :: table[id].at <= table[other].at
  }

  lemma {:induction false} EarliestExists(table: Table, pool: set<Id>)
    requires pool <= table.Keys && pool != {}
    ensures exists id :: id in pool && Earliest(table, pool, id)
    decreases |pool|
  {
    var some :| some in pool;
    var rest := pool - {some};
    if rest == {} {
      assert pool == {some};
      assert Earliest(table, pool, some);
    } else {
      EarliestExists(table, rest);
      var id :| id in rest && Earliest(table, rest, id);
      var best := if table[some].at <= table[id].at then some else id;
      forall other | other in pool
        ensures table[best].at <= table[other].at
      {
        if other != some { assert other in rest; }
      }
      assert Earliest(table, pool, best);
    }
  }

  /** The batch holds due rows, none due later than one in the pool of those not yet chosen. */
  ghost predicate Chosen(table: Table, before: int, pool: set<Id>, batch: seq<Entry>) {
    && Distinct(batch)
    && (forall k | 0 <= k < |batch| :: Due(table, batch[k].id, before) && batch[k].row == table[batch[k].id])
    && (forall id :: id in pool <==> Due(table, id, before) && id !in Ids(batch))
    && (forall id, k | id in pool && 0 <= k < |batch| :: batch[k].row.at <= table[id].at)
  }

  lemma ChooseNext(table: Table, before: int, pool: set<Id>, batch: seq<Entry>, first: Id)
    requires Chosen(table, before, pool, batch) && first in pool && pool <= table.Keys && Earliest(table, pool, first)
    ensures Chosen(table, before, pool - {first}, batch + [Entry(first, table[first])])
  {
    IdsAppend(batch, Entry(first, table[first]));
    assert Due(table, first, before);
  }

  class Repository {
    var table: Table

    constructor ()
      ensures table == map[]
    {
      table := map[];
    }

    method UpsertAll(batch: seq<Entry>, reply: DbReply) returns (ok: bool)
      modifies this
      ensures ok <==> batch == [] || (reply.DbOk? && !UpsertRefused(batch))
      ensures table == if ok then Upserted(old(table), batch) else old(table)
    {
      if |batch| == 0 {
        return true;
      }
      if reply.DbError? || UpsertRefused(batch) {
        return false;
      }
      var k := 0;
      while k < |batch|
        invariant 0 <= k <= |batch|
        invariant table == Upserted(old(table), batch[..k])
      {
        var e := batch[k];
        assert batch[..k + 1][..k] == batch[..k];
        table := table[e.id := if e.id in table then Row(e.row.at, table[e.id].trace) else e.row];
        k := k + 1;
      }
      assert batch[..k] == batch;
      ok := true;
    }

    method DeleteByNotificationID(id: Id, reply: DbReply) returns (ok: bool)
      modifies this
      ensures ok <==> reply.DbOk?
      ensures table == if ok then old(table) - {id} else old(table)
    {
      if reply.DbError? {
        return false;
      }
      table := table - {id};
      ok := true;
    }

    /** The claim with nobody else at the table; a limit below one counts as one. */
    method DeleteByScheduledAtBeforeReturning(before: int, limit: int, reply: DbReply)
      returns (ok: bool, batch: seq<Entry>)
      modifies this
      ensures ok <==> reply.DbOk?
      ensures !ok ==> batch == [] && table == old(table)
      ensures ok ==> IsClaim(old(table), before, if limit < 1 then 1 else limit, {}, batch)
      ensures ok ==> table == old(table) - Ids(batch)
    {
      batch := [];
      if reply.DbError? {
        return false, [];
      }
      var n := if limit < 1 then 1 else limit;
      var pool := set id | id in table && table[id].at <= before;
      while |batch| < n && pool != {}
        invariant table == old(table) && |batch| <= n && Chosen(table, before, pool, batch)
        decreases pool
      {
        EarliestExists(table, pool);
        var first :| first in pool && Earliest(table, pool, first);
        ChooseNext(table, before, pool, batch, first);
        batch := batch + [Entry(first, table[first])];
        pool := pool - {first};
      }
      table := table - Ids(batch);
      ok := true;
    }
  }

  /** Upserting a claimed batch into a table that lacks its rows puts back what was there. */
  lemma ClaimThenUpsertRestores(table: Table, before: int, limit: nat, locked: set<Id>, batch: seq<Entry>)
    requires IsClaim(table, before, limit, locked, batch)
    ensures Upserted(table - Ids(batch), batch) == table
    ensures !UpsertRefused(batch)
  {
    UpsertFresh(table - Ids(batch), batch);
    var after := Upserted(table - Ids(batch), batch);
    assert after.Keys == table.Keys;
    forall id | id in table ensures after[id] == table[id] {
      if id in Ids(batch) {
        var k :| 0 <= k < |batch| && batch[k].id == id;
        assert after[batch[k].id] == batch[k].row;
      }
    }
  }
}
