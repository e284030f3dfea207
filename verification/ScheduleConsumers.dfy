/** The two consumers that feed the schedule table:
    deliveryscheduler/internal/transport/messaging. */
module ScheduleConsumers {
  import opened Ports
  import opened ScheduleRepository

  datatype Item = Item(id: Id, scheduledAt: int)

  function RowsOf(items: seq<Item>, trace: string): seq<Entry> {
    seq(|items|, k requires 0 <= k < |items| => Entry(items[k].id, Row(items[k].scheduledAt, trace)))
  }

  /** One event stores all of its items or none, and is acked exactly when they are stored. */
  method HandleScheduledEvents(repo: Repository, items: seq<Item>, trace: string, reply: DbReply)
    returns (settlement: Settlement)
    modifies repo
    ensures settlement.Ack? <==> items == [] || (reply.DbOk? && !UpsertRefused(RowsOf(items, trace)))
    ensures repo.table == if settlement.Ack? then Upserted(old(repo.table), RowsOf(items, trace)) else old(repo.table)
  {
    var notifications: seq<Entry> := [];
    for i := 0 to |items|
      invariant notifications == RowsOf(items[..i], trace)
    {
      notifications := notifications + [Entry(items[i].id, Row(items[i].scheduledAt, trace))];
    }
    assert items[..|items|] == items;
    var ok := repo.UpsertAll(notifications, reply);
    settlement := if ok then Ack else Nak;
  }

  lemma {:induction false} FirstTrace(table: Table, items: seq<Item>, trace: string, id: Id)
    ensures var after := Upserted(table, RowsOf(items, trace));
            && (id in table ==> id in after)
            && (id in after ==> after[id].trace == if id in table then table[id].trace else trace)
  {
    if items == [] {
    } else {
      var init := items[..|items| - 1];
      FirstTrace(table, init, trace, id);
      assert RowsOf(items, trace)[..|items| - 1] == RowsOf(init, trace);
    }
  }

  /** A stored event leaves each of its items due at its own time; no other row changes. */
  lemma {:induction false} StoredItems(table: Table, items: seq<Item>, trace: string, id: Id)
    ensures var after := Upserted(table, RowsOf(items, trace));
            && (id in after <==> id in table || exists k :: 0 <= k < |items| && items[k].id == id)
            && ((forall k | 0 <= k < |items| :: items[k].id != id) && id in table ==> after[id] == table[id])
            && (forall k | 0 <= k < |items| && items[k].id == id
                           && (forall j | k < j < |items| :: items[j].id != id) ::
                  after[id] == Row(items[k].scheduledAt, if id in table then table[id].trace else trace))
  {
    if items == [] {
    } else {
      var init := items[..|items| - 1];
      StoredItems(table, init, trace, id);
      FirstTrace(table, init, trace, id);
      assert RowsOf(items, trace)[..|items| - 1] == RowsOf(init, trace);
      assert forall k | 0 <= k < |init| :: init[k] == items[k];
      assert items[|items| - 1].id == id ==> exists k :: 0 <= k < |items| && items[k].id == id;
    }
  }

  /** A cancel event is acked exactly when its row, if there was one, is gone. */
  method HandleCancelEvent(repo: Repository, id: Id, reply: DbReply) returns (settlement: Settlement)
    modifies repo
    ensures settlement.Ack? <==> reply.DbOk?
    ensures repo.table == if settlement.Ack? then old(repo.table) - {id} else old(repo.table)
  {
    var ok := repo.DeleteByNotificationID(id, reply);
    settlement := if ok then Ack else Nak;
  }
}
