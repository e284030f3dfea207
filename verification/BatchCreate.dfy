/** CreateBatch of api/internal/service/notification.go and the HTTP handler around it in
    api/internal/transport/http/notification.go. */
module BatchCreate {
  import opened Ports

  datatype Notification = Notification(channel: string, recipient: string, content: string, priority: string,
                                       deliverAfter: Option<int>, maxAttempts: int)

  /** A stored row. */
  datatype Entity = Entity(id: Uuid, notification: Notification)

  datatype Status = Unset | Accepted | Rejected

  datatype BatchResult = BatchResult(index: nat, status: Status, id: Option<Uuid>, error: Option<string>)

  datatype ScheduledItem = ScheduledItem(id: Uuid, at: int)

  /** What the service publishes: one event for all scheduled items, one ready event per
      immediate notification on the topic of its priority. */
  datatype Announcement = ScheduledEvent(items: seq<ScheduledItem>) | ReadyOn(topic: string, entity: Entity)

  /** The answers met on the way: the id made for item k (or the generator's failure), the
      database, and the reply to publish number p. */
  datatype World = World(newId: nat -> Option<Uuid>, dbOk: bool, publish: nat -> PublishReply)

  /** The domain's GetMaxAttempts: an unset limit counts as one. */
  function GetMaxAttempts(maxAttempts: int): int { if maxAttempts == 0 then 1 else maxAttempts }

  function EntityOf(n: Notification, id: Uuid): Entity {
    Entity(id, n.(maxAttempts := GetMaxAttempts(n.maxAttempts)))
  }

  // -------------------------------------------------------- what should be announced

  /** The entities of the items that got an id, in input order. */
  function Entities(ns: seq<Notification>, w: World): seq<Entity> {
    if ns == [] then []
    else
      var k := |ns| - 1;
      Entities(ns[..k], w) + (if w.newId(k).Some? then [EntityOf(ns[k], w.newId(k).value)] else [])
  }

  function ItemsOf(entities: seq<Entity>): seq<ScheduledItem> {
    if entities == [] then []
    else
      var e := entities[|entities| - 1];
      ItemsOf(entities[..|entities| - 1]) +
      (if e.notification.deliverAfter.Some? then [ScheduledItem(e.id, e.notification.deliverAfter.value)] else [])
  }

  function ReadyOf(entities: seq<Entity>): seq<Announcement> {
    if entities == [] then []
    else
      var e := entities[|entities| - 1];
      ReadyOf(entities[..|entities| - 1]) +
      (if e.notification.deliverAfter.None? then [ReadyOn(TopicByPriority(e.notification.priority), e)] else [])
  }

  function Agenda(entities: seq<Entity>): seq<Announcement> {
    (if ItemsOf(entities) == [] then [] else [ScheduledEvent(ItemsOf(entities))]) + ReadyOf(entities)
  }

  ghost predicate AllConfirmed(w: World, from: nat, n: nat) {
    forall p: nat | from <= p < n :: w.publish(p).Confirmed?
  }

  /** Publish number p is the first that is not confirmed. */
  ghost predicate FailsAt(w: World, from: nat, p: nat) {
    from <= p && AllConfirmed(w, from, p) && w.publish(p).Unconfirmed?
  }

  /** What reaches the stream when publish number p fails: p messages, and that one too if
      the broker stored it. */
  function Reached(w: World, p: nat): nat {
    if Stores(w.publish(p)) then p + 1 else p
  }

  /** The announcements are the agenda up to the first publish that is not confirmed. */
  ghost predicate AnnouncedUpToFailure(agenda: seq<Announcement>, announced: seq<Announcement>, w: World, ok: bool) {
    if ok then announced == agenda && AllConfirmed(w, 0, |agenda|)
    else exists p: nat :: FailsAt(w, 0, p) && p < |agenda| && announced == agenda[..Reached(w, p)]
  }

  // ------------------------------------------- what that comes to, row by row and in order

  /** The places, in increasing order, of exactly the entities that are scheduled, or not. */
  ghost predicate ArePlaces(entities: seq<Entity>, places: seq<nat>, scheduled: bool) {
    && (forall j, k | 0 <= j < k < |places| :: places[j] < places[k])
    && (forall k: nat :: k in places <==>
          k < |entities| && entities[k].notification.deliverAfter.Some? == scheduled)
  }

  ghost predicate IsItemOf(item: ScheduledItem, e: Entity) {
    item.id == e.id && Some(item.at) == e.notification.deliverAfter
  }

  ghost predicate IsReadyOf(event: Announcement, e: Entity) {
    event.ReadyOn? && event.entity == e && event.topic == TopicByPriority(e.notification.priority)
  }

  /** The items are those of the entities at these places, with their ids and times. */
  ghost predicate ListsScheduled(entities: seq<Entity>, places: seq<nat>, items: seq<ScheduledItem>) {
    && |items| == |places|
    && forall j | 0 <= j < |places| :: places[j] < |entities| && IsItemOf(items[j], entities[places[j]])
  }

  /** The events are the ready events of the entities at these places, each on the topic of
      its priority. */
  ghost predicate ListsReady(entities: seq<Entity>, places: seq<nat>, events: seq<Announcement>) {
    && |events| == |places|
    && forall j | 0 <= j < |places| :: places[j] < |entities| && IsReadyOf(events[j], entities[places[j]])
  }

  ghost predicate AnnouncesBy(entities: seq<Entity>, sched: seq<nat>, imm: seq<nat>, all: seq<Announcement>) {
    && ArePlaces(entities, sched, true) && ArePlaces(entities, imm, false)
    && if sched == [] then ListsReady(entities, imm, all)
       else
         && |all| > 0 && all[0].ScheduledEvent? && ListsScheduled(entities, sched, all[0].items)
         && ListsReady(entities, imm, all[1..])
  }

  /** First one event that lists the scheduled rows with their times, if there are any, and
      then one ready event for each other row, all in the order of the rows. */
  ghost predicate AnnouncesEachRow(entities: seq<Entity>, all: seq<Announcement>) {
    exists sched, imm :: AnnouncesBy(entities, sched, imm, all)
  }

  /** One more row: its place is last, and what is listed before stays listed. */
  lemma PlacesGrow(init: seq<Entity>, e: Entity, places: seq<nat>, scheduled: bool)
    requires ArePlaces(init, places, scheduled)
    ensures ArePlaces(init + [e], if e.notification.deliverAfter.Some? == scheduled then places + [|init|] else places,
                      scheduled)
    ensures forall j | 0 <= j < |places| :: places[j] < |init| && (init + [e])[places[j]] == init[places[j]]
  {
    forall j | 0 <= j < |places| ensures places[j] < |init| { assert places[j] in places; }
    forall k: nat | k in places ensures (init + [e])[k] == init[k] {}
  }

  ghost predicate ScheduledBy(entities: seq<Entity>, places: seq<nat>, items: seq<ScheduledItem>) {
    ArePlaces(entities, places, true) && ListsScheduled(entities, places, items)
  }

  ghost predicate ReadyBy(entities: seq<Entity>, places: seq<nat>, events: seq<Announcement>) {
    ArePlaces(entities, places, false) && ListsReady(entities, places, events)
  }

  lemma ScheduledListGrows(init: seq<Entity>, e: Entity, places: seq<nat>, items: seq<ScheduledItem>)
    requires ListsScheduled(init, places, items)
    ensures ListsScheduled(init + [e], places, items)
    ensures match e.notification.deliverAfter
            case Some(at) => ListsScheduled(init + [e], places + [|init|], items + [ScheduledItem(e.id, at)])
            case None => true
  {
  }

  lemma ReadyListGrows(init: seq<Entity>, e: Entity, places: seq<nat>, events: seq<Announcement>)
    requires ListsReady(init, places, events)
    ensures ListsReady(init + [e], places, events)
    ensures ListsReady(init + [e], places + [|init|],
                       events + [ReadyOn(TopicByPriority(e.notification.priority), e)])
  {
  }

  lemma ScheduledGrows(init: seq<Entity>, e: Entity, places: seq<nat>, items: seq<ScheduledItem>)
    requires ScheduledBy(init, places, items)
    ensures match e.notification.deliverAfter
            case Some(at) => ScheduledBy(init + [e], places + [|init|], items + [ScheduledItem(e.id, at)])
            case None => ScheduledBy(init + [e], places, items)
  {
    PlacesGrow(init, e, places, true);
    ScheduledListGrows(init, e, places, items);
  }

  lemma ReadyGrows(init: seq<Entity>, e: Entity, places: seq<nat>, events: seq<Announcement>)
    requires ReadyBy(init, places, events)
    ensures var event := ReadyOn(TopicByPriority(e.notification.priority), e);
            if e.notification.deliverAfter.None? then ReadyBy(init + [e], places + [|init|], events + [event])
            else ReadyBy(init + [e], places, events)
  {
    PlacesGrow(init, e, places, false);
    ReadyListGrows(init, e, places, events);
  }

  lemma EntityAppend(entities: seq<Entity>, e: Entity)
    ensures var n := e.notification;
            && ItemsOf(entities + [e]) == ItemsOf(entities) +
                 (if n.deliverAfter.Some? then [ScheduledItem(e.id, n.deliverAfter.value)] else [])
            && ReadyOf(entities + [e]) == ReadyOf(entities) +
                 (if n.deliverAfter.None? then [ReadyOn(TopicByPriority(n.priority), e)] else [])
  {
    assert (entities + [e])[..|entities|] == entities;
  }

  lemma ItemsStep(entities: seq<Entity>, init: seq<Entity>, e: Entity, before: seq<nat>) returns (places: seq<nat>)
    requires entities == init + [e] && ScheduledBy(init, before, ItemsOf(init))
    ensures ScheduledBy(entities, places, ItemsOf(entities))
  {
    ScheduledGrows(init, e, before, ItemsOf(init));
    EntityAppend(init, e);
    places := if e.notification.deliverAfter.Some? then before + [|init|] else before;
  }

  lemma ReadyStep(entities: seq<Entity>, init: seq<Entity>, e: Entity, before: seq<nat>) returns (places: seq<nat>)
    requires entities == init + [e] && ReadyBy(init, before, ReadyOf(init))
    ensures ReadyBy(entities, places, ReadyOf(entities))
  {
    ReadyGrows(init, e, before, ReadyOf(init));
    EntityAppend(init, e);
    places := if e.notification.deliverAfter.None? then before + [|init|] else before;
  }

  lemma {:induction false} ItemsByPlace(entities: seq<Entity>) returns (places: seq<nat>)
    ensures ScheduledBy(entities, places, ItemsOf(entities))
  {
    if entities == [] {
      places := [];
    } else {
      var init := entities[..|entities| - 1];
      var before := ItemsByPlace(init);
      places := ItemsStep(entities, init, entities[|entities| - 1], before);
    }
  }

  lemma {:induction false} ReadyByPlace(entities: seq<Entity>) returns (places: seq<nat>)
    ensures ReadyBy(entities, places, ReadyOf(entities))
  {
    if entities == [] {
      places := [];
    } else {
      var init := entities[..|entities| - 1];
      var before := ReadyByPlace(init);
      places := ReadyStep(entities, init, entities[|entities| - 1], before);
    }
  }

  lemma PlacedAgenda(entities: seq<Entity>, sched: seq<nat>, imm: seq<nat>, items: seq<ScheduledItem>,
                     ready: seq<Announcement>, all: seq<Announcement>)
    requires ScheduledBy(entities, sched, items) && ReadyBy(entities, imm, ready)
    requires all == (if items == [] then [] else [ScheduledEvent(items)]) + ready
    ensures AnnouncesBy(entities, sched, imm, all)
  {
    assert |items| == |sched|;
    if items == [] {
      assert all == ready;
    } else {
      assert all[0] == ScheduledEvent(items) && all[1..] == ready;
    }
  }

  /** The agenda announces each row once, in order. */
  lemma AgendaAnnouncesEachRow(entities: seq<Entity>)
    ensures AnnouncesEachRow(entities, Agenda(entities))
  {
    var sched := ItemsByPlace(entities);
    var imm := ReadyByPlace(entities);
    PlacedAgenda(entities, sched, imm, ItemsOf(entities), ReadyOf(entities), Agenda(entities));
  }

  /** What the stream got for these rows: all that announces them, up to the first publish
      that is not confirmed. */
  ghost predicate AnnouncedRows(entities: seq<Entity>, news: seq<Announcement>, w: World, ok: bool) {
    exists all :: AnnouncesEachRow(entities, all) && AnnouncedUpToFailure(all, news, w, ok)
  }

  lemma AgendaAnnounced(entities: seq<Entity>, news: seq<Announcement>, w: World, ok: bool)
    requires AnnouncedUpToFailure(Agenda(entities), news, w, ok)
    ensures AnnouncedRows(entities, news, w, ok)
  {
    AgendaAnnouncesEachRow(entities);
  }

  /** The row has the item's fields, and an attempt limit of one if the item has none. */
  ghost predicate IsRowOf(row: Entity, n: Notification, id: Option<Uuid>) {
    && Some(row.id) == id
    && row.notification.channel == n.channel && row.notification.recipient == n.recipient
    && row.notification.content == n.content && row.notification.priority == n.priority
    && row.notification.deliverAfter == n.deliverAfter
    && row.notification.maxAttempts == if n.maxAttempts == 0 then 1 else n.maxAttempts
  }

  /** The rows stored for the items at these places, which are the items that got an id. */
  ghost predicate StoredBy(ns: seq<Notification>, w: World, places: seq<nat>, stored: seq<Entity>) {
    && (forall j, k | 0 <= j < k < |places| :: places[j] < places[k])
    && (forall k: nat :: k in places <==> k < |ns| && w.newId(k).Some?)
    && |stored| == |places|
    && forall j | 0 <= j < |places| :: places[j] < |ns| && IsRowOf(stored[j], ns[places[j]], w.newId(places[j]))
  }

  ghost predicate StoredInOrder(ns: seq<Notification>, w: World, stored: seq<Entity>) {
    exists places :: StoredBy(ns, w, places, stored)
  }

  lemma StoredGrows(init: seq<Notification>, n: Notification, w: World, places: seq<nat>, stored: seq<Entity>)
    requires StoredBy(init, w, places, stored)
    ensures var id := w.newId(|init|);
            if id.Some? then StoredBy(init + [n], w, places + [|init|], stored + [EntityOf(n, id.value)])
            else StoredBy(init + [n], w, places, stored)
  {
    forall j | 0 <= j < |places| ensures places[j] < |init| { assert places[j] in places; }
    assert forall j | 0 <= j < |init| :: (init + [n])[j] == init[j];
  }

  lemma {:induction false} EntitiesByPlace(ns: seq<Notification>, w: World) returns (places: seq<nat>)
    ensures StoredBy(ns, w, places, Entities(ns, w))
    decreases |ns|
  {
    if ns == [] {
      places := [];
    } else {
      var k := |ns| - 1;
      var before := EntitiesByPlace(ns[..k], w);
      StoredGrows(ns[..k], ns[k], w, before, Entities(ns[..k], w));
      assert ns == ns[..k] + [ns[k]];
      places := if w.newId(k).Some? then before + [k] else before;
    }
  }

  ghost predicate ResultOk(r: BatchResult, k: nat) {
    && r.index == k && !r.status.Unset?
    && (r.status.Accepted? <==> r.id.Some?) && (r.status.Accepted? <==> r.error.None?)
  }

  /** The ready events follow the scheduled event, if there is one. */
  lemma UpToFailure(before: seq<Announcement>, head: seq<Announcement>, ready: seq<Announcement>,
                    sent: seq<Announcement>, w: World, ok: bool)
    requires AllConfirmed(w, 0, |head|)
    requires if ok then sent == ready && AllConfirmed(w, |head|, |head| + |ready|)
             else exists p: nat ::
               FailsAt(w, |head|, p) && p < |head| + |ready| && sent == ready[..Reached(w, p) - |head|]
    ensures (before + head + sent)[|before|..] == head + sent
    ensures AnnouncedUpToFailure(head + ready, head + sent, w, ok)
  {
    if !ok {
      var p: nat :| FailsAt(w, |head|, p) && p < |head| + |ready| && sent == ready[..Reached(w, p) - |head|];
      assert FailsAt(w, 0, p);
      assert head + sent == (head + ready)[..Reached(w, p)];
    }
  }

  /** First loops: an entity and an accepted result for each item that gets an id. */
  method ToEntities(ns: seq<Notification>, w: World)
    returns (results: seq<BatchResult>, accepted: seq<Entity>, acceptedIndices: seq<nat>)
    ensures |results| == |ns| && forall k | 0 <= k < |ns| :: ResultOk(results[k], k)
    ensures forall k | 0 <= k < |ns| ::
              (results[k].status.Accepted? <==> w.newId(k).Some?) && (results[k].id == w.newId(k))
    ensures accepted == Entities(ns, w)
    ensures forall k: nat :: k in acceptedIndices <==> k < |ns| && w.newId(k).Some?
    ensures |accepted| == 0 <==> |acceptedIndices| == 0
  {
    results, accepted, acceptedIndices := [], [], [];
    for i := 0 to |ns|
      invariant |results| == i && forall k | 0 <= k < i :: ResultOk(results[k], k)
      invariant forall k | 0 <= k < i ::
                  (results[k].status.Accepted? <==> w.newId(k).Some?) && (results[k].id == w.newId(k))
      invariant accepted == Entities(ns[..i], w)
      invariant forall k: nat :: k in acceptedIndices <==> k < i && w.newId(k).Some?
      invariant |accepted| == |acceptedIndices|
    {
      assert ns[..i + 1][..i] == ns[..i];
      var id := w.newId(i);
      if id.None? {
        results := results + [BatchResult(i, Rejected, None, Some("id"))];
      } else {
        results := results + [BatchResult(i, Accepted, id, None)];
        accepted := accepted + [EntityOf(ns[i], id.value)];
        acceptedIndices := acceptedIndices + [i];
      }
    }
    assert ns[..|ns|] == ns;
  }

  /** The database refused: the accepted results become rejections, the others stay. */
  method RejectAll(results: seq<BatchResult>, acceptedIndices: seq<nat>) returns (rejected: seq<BatchResult>)
    requires forall k | k in acceptedIndices :: k < |results|
    ensures |rejected| == |results|
    ensures forall k | 0 <= k < |results| ::
              rejected[k] == if k in acceptedIndices
                             then results[k].(status := Rejected, error := Some("create notifications"), id := None)
                             else results[k]
  {
    rejected := results;
    for j := 0 to |acceptedIndices|
      invariant |rejected| == |results|
      invariant forall k | 0 <= k < |results| ::
                  rejected[k] == if k in acceptedIndices[..j]
                                 then results[k].(status := Rejected, error := Some("create notifications"), id := None)
                                 else results[k]
    {
      var i := acceptedIndices[j];
      assert i in acceptedIndices;
      assert acceptedIndices[..j + 1] == acceptedIndices[..j] + [i];
      rejected := rejected[i := rejected[i].(status := Rejected, error := Some("create notifications"), id := None)];
    }
    assert acceptedIndices[..|acceptedIndices|] == acceptedIndices;
  }

  /** Scheduled notifications become items of one event; the others are immediate. */
  method Separate(entities: seq<Entity>) returns (scheduled: seq<ScheduledItem>, immediate: seq<Entity>)
    ensures scheduled == ItemsOf(entities)
    ensures ReadyOf(immediate) == ReadyOf(entities)
    ensures forall k | 0 <= k < |immediate| :: immediate[k].notification.deliverAfter.None?
  {
    scheduled, immediate := [], [];
    for i := 0 to |entities|
      invariant scheduled == ItemsOf(entities[..i])
      invariant ReadyOf(immediate) == ReadyOf(entities[..i])
      invariant forall k | 0 <= k < |immediate| :: immediate[k].notification.deliverAfter.None?
    {
      var e := entities[i];
      assert entities[..i + 1] == entities[..i] + [e];
      EntityAppend(entities[..i], e);
      if e.notification.deliverAfter.Some? {
        scheduled := scheduled + [ScheduledItem(e.id, e.notification.deliverAfter.value)];
      } else {
        EntityAppend(immediate, e);
        immediate := immediate + [e];
      }
    }
    assert entities[..|entities|] == entities;
  }

  lemma {:induction false} ReadyOfImmediate(immediate: seq<Entity>)
    requires forall k | 0 <= k < |immediate| :: immediate[k].notification.deliverAfter.None?
    ensures |ReadyOf(immediate)| == |immediate|
    ensures forall k | 0 <= k < |immediate| ::
              ReadyOf(immediate)[k] == ReadyOn(TopicByPriority(immediate[k].notification.priority), immediate[k])
  {
    if immediate == [] {
    } else {
      ReadyOfImmediate(immediate[..|immediate| - 1]);
    }
  }

  /** The first publish of all is not confirmed. */
  lemma FirstFails(agenda: seq<Announcement>, sent: seq<Announcement>, w: World)
    requires |agenda| > 0 && w.publish(0).Unconfirmed?
    requires sent == if Stores(w.publish(0)) then [agenda[0]] else []
    ensures AnnouncedUpToFailure(agenda, sent, w, false)
  {
    assert FailsAt(w, 0, 0);
    assert sent == agenda[..Reached(w, 0)];
  }

  class Service {
    var rows: seq<Entity>
    var announced: seq<Announcement>

    constructor ()
      ensures rows == [] && announced == []
    {
      rows, announced := [], [];
    }

    /** Each input gets a result at its own index, accepted exactly when its row is stored;
        the new announcements are the agenda of the stored rows, in order, up to the first
        publish that is not confirmed; and no error exactly when all of them are. */
    method CreateBatch(ns: seq<Notification>, w: World) returns (results: seq<BatchResult>, ok: bool)
      modifies this
      ensures |results| == |ns| && forall k | 0 <= k < |ns| :: ResultOk(results[k], k)
      ensures forall k | 0 <= k < |ns| ::
                && (results[k].status.Accepted? <==> w.newId(k).Some? && w.dbOk)
                && (results[k].id.Some? ==> results[k].id == w.newId(k))
      ensures rows == old(rows) + (if w.dbOk then Entities(ns, w) else [])
      ensures w.dbOk ==> StoredInOrder(ns, w, rows[|old(rows)|..])
      ensures old(announced) <= announced
              && AnnouncedRows(rows[|old(rows)|..], announced[|old(announced)|..], w, ok)
    {
      var accepted: seq<Entity>, acceptedIndices: seq<nat>;
      results, accepted, acceptedIndices := ToEntities(ns, w);
      if |accepted| > 0 {
        if w.dbOk {
          rows := rows + accepted;
        } else {
          results := RejectAll(results, acceptedIndices);
          accepted := [];
        }
      } else {
        assert forall k | 0 <= k < |ns| :: results[k].status.Rejected?;
      }
      ghost var places := EntitiesByPlace(ns, w);
      assert rows[|old(rows)|..] == accepted;
      ok := Announce(accepted, w);
    }

    /** One event for all scheduled rows, if there are any; `head` is what reaches the stream. */
    method PublishScheduled(scheduled: seq<ScheduledItem>, w: World) returns (ok: bool, ghost head: seq<Announcement>)
      modifies this`announced
      ensures announced == old(announced) + head
      ensures head == if scheduled != [] && Stores(w.publish(0)) then [ScheduledEvent(scheduled)] else []
      ensures ok <==> scheduled == [] || w.publish(0).Confirmed?
    {
      head := [];
      if |scheduled| == 0 {
        return true, head;
      }
      var reply := w.publish(0);
      if Stores(reply) {
        head := [ScheduledEvent(scheduled)];
        announced := announced + [ScheduledEvent(scheduled)];
      }
      ok := reply.Confirmed?;
    }

    /** The second half: one event for the scheduled rows, then one for each immediate row. */
    method Announce(accepted: seq<Entity>, w: World) returns (ok: bool)
      modifies this`announced
      ensures old(announced) <= announced
      ensures AnnouncedRows(accepted, announced[|old(announced)|..], w, ok)
    {
      var scheduled, immediate := Separate(accepted);
      ghost var head, ready;
      ok, head := PublishScheduled(scheduled, w);
      if !ok {
        FirstFails(Agenda(accepted), head, w);
        AgendaAnnounced(accepted, head, w, false);
        return;
      }
      ok, ready := PublishReady(immediate, w, if |scheduled| > 0 then 1 else 0);
      UpToFailure(old(announced), head, ReadyOf(accepted), ready, w, ok);
      AgendaAnnounced(accepted, head + ready, w, ok);
    }

    /** The last loop: one ready event after the other until one is not confirmed; `sent` were
        published before, `reached` is what reaches the stream. */
    method PublishReady(immediate: seq<Entity>, w: World, sent: nat)
      returns (ok: bool, ghost reached: seq<Announcement>)
      requires forall k | 0 <= k < |immediate| :: immediate[k].notification.deliverAfter.None?
      modifies this`announced
      ensures |ReadyOf(immediate)| == |immediate|
      ensures announced == old(announced) + reached
      ensures if ok then reached == ReadyOf(immediate) && AllConfirmed(w, sent, sent + |immediate|)
              else exists p: nat :: FailsAt(w, sent, p) && p < sent + |immediate|
                               && reached == ReadyOf(immediate)[..Reached(w, p) - sent]
    {
      ReadyOfImmediate(immediate);
      ghost var ready := ReadyOf(immediate);
      var k := 0;
      reached := [];
      while k < |immediate|
        invariant 0 <= k <= |immediate|
        invariant announced == old(announced) + reached && reached == ready[..k]
        invariant AllConfirmed(w, sent, sent + k)
      {
        var reply := w.publish(sent + k);
        assert ready[..k + 1] == ready[..k] + [ready[k]];
        if Stores(reply) {
          announced := announced + [ReadyOn(TopicByPriority(immediate[k].notification.priority), immediate[k])];
          reached := reached + [ready[k]];
        }
        if !reply.Confirmed? {
          assert FailsAt(w, sent, sent + k);
          return false, reached;
        }
        k := k + 1;
      }
      assert ready[..k] == ready;
      ok := true;
    }
  }

  // ------------------------------------------------------------------------ the handler

  datatype ErrorKind = ValidationError | InternalError

  datatype ItemResult = ItemResult(index: nat, accepted: bool, id: Option<Uuid>, error: Option<ErrorKind>)

  datatype Response = TooMany | ServiceError | Batch(total: nat, accepted: nat, rejected: int, results: seq<ItemResult>)

  const MAX_ITEMS: nat := 1000

  function Upto(n: nat): multiset<nat> {
    if n == 0 then multiset{} else Upto(n - 1) + multiset{n - 1}
  }

  function IndicesOf(results: seq<ItemResult>): multiset<nat> {
    if results == [] then multiset{}
    else IndicesOf(results[..|results| - 1]) + multiset{results[|results| - 1].index}
  }

  function AcceptedIn(results: seq<ItemResult>): nat {
    if results == [] then 0
    else AcceptedIn(results[..|results| - 1]) + (if results[|results| - 1].accepted then 1 else 0)
  }

  function RejectedIn(results: seq<ItemResult>): nat {
    if results == [] then 0
    else RejectedIn(results[..|results| - 1]) + (if results[|results| - 1].accepted then 0 else 1)
  }

  lemma {:induction false} AcceptedOrRejected(results: seq<ItemResult>)
    ensures AcceptedIn(results) + RejectedIn(results) == |results| == |IndicesOf(results)|
  {
    if results == [] {
    } else {
      AcceptedOrRejected(results[..|results| - 1]);
    }
  }

  lemma {:induction false} UptoSize(n: nat)
    ensures |Upto(n)| == n
  {
    if n == 0 {
    } else {
      UptoSize(n - 1);
    }
  }

  /** A result that fits request item r.index: invalid items carry a validation error, an
      accepted one the id under which exactly that item's notification is stored. */
  ghost predicate ItemOk(r: ItemResult, items: seq<Option<Notification>>, rows: seq<Entity>) {
    && r.index < |items|
    && (items[r.index].None? <==> r.error == Some(ValidationError))
    && (r.accepted <==> r.id.Some?) && (r.accepted <==> r.error.None?)
    && (r.accepted ==> EntityOf(items[r.index].value, r.id.value) in rows)
  }

  ghost predicate AllItemsOk(results: seq<ItemResult>, items: seq<Option<Notification>>, rows: seq<Entity>) {
    forall k | 0 <= k < |results| :: ItemOk(results[k], items, rows)
  }

  lemma ResultsAppend(results: seq<ItemResult>, r: ItemResult)
    ensures IndicesOf(results + [r]) == IndicesOf(results) + multiset{r.index}
    ensures AcceptedIn(results + [r]) == AcceptedIn(results) + (if r.accepted then 1 else 0)
  {
    assert (results + [r])[..|results|] == results;
  }

  lemma {:induction false} EntitiesHas(ns: seq<Notification>, w: World, k: nat)
    requires k < |ns| && w.newId(k).Some?
    ensures EntityOf(ns[k], w.newId(k).value) in Entities(ns, w)
    decreases |ns|
  {
    if k == |ns| - 1 {
    } else {
      EntitiesHas(ns[..|ns| - 1], w, k);
    }
  }

  ghost predicate Aligned(items: seq<Option<Notification>>, validIdx: seq<nat>, ns: seq<Notification>) {
    |validIdx| == |ns| && forall j | 0 <= j < |ns| :: validIdx[j] < |items| && items[validIdx[j]] == Some(ns[j])
  }

  ghost predicate AllInvalid(results: seq<ItemResult>, items: seq<Option<Notification>>) {
    forall k | 0 <= k < |results| ::
      var r := results[k];
      r.index < |items| && items[r.index].None? && r == ItemResult(r.index, false, None, Some(ValidationError))
  }

  /** The first n request indices are those with a result and those still to be created. */
  ghost predicate Partition(results: seq<ItemResult>, validIdx: seq<nat>, n: nat) {
    IndicesOf(results) + multiset(validIdx) == Upto(n)
  }

  lemma PartitionGrows(results: seq<ItemResult>, validIdx: seq<nat>, n: nat, rejected: ItemResult)
    requires Partition(results, validIdx, n) && rejected.index == n
    ensures Partition(results + [rejected], validIdx, n + 1)
    ensures Partition(results, validIdx + [n], n + 1)
  {
    ResultsAppend(results, rejected);
    assert multiset(validIdx + [n]) == multiset(validIdx) + multiset{n};
  }

  /** The first loop of the handler: invalid items are rejected, valid ones remembered with
      their place in the request. */
  method CollectValid(items: seq<Option<Notification>>)
    returns (validIdx: seq<nat>, ns: seq<Notification>, itemResults: seq<ItemResult>)
    ensures Aligned(items, validIdx, ns)
    ensures AllInvalid(itemResults, items)
    ensures Partition(itemResults, validIdx, |items|)
  {
    validIdx, ns, itemResults := [], [], [];
    for i := 0 to |items|
      invariant Aligned(items, validIdx, ns)
      invariant AllInvalid(itemResults, items)
      invariant Partition(itemResults, validIdx, i)
    {
      var rejected := ItemResult(i, false, None, Some(ValidationError));
      PartitionGrows(itemResults, validIdx, i, rejected);
      if items[i].None? {
        itemResults := itemResults + [rejected];
      } else {
        validIdx := validIdx + [i];
        ns := ns + [items[i].value];
      }
    }
  }

  lemma {:induction false} NoneAccepted(results: seq<ItemResult>, items: seq<Option<Notification>>)
    requires AllInvalid(results, items)
    ensures AcceptedIn(results) == 0
  {
    if results == [] {
    } else {
      NoneAccepted(results[..|results| - 1], items);
    }
  }

  /** The request item's result, made of the service's. */
  function Merged(index: nat, res: BatchResult): ItemResult {
    ItemResult(index, res.status.Accepted?, res.id, if res.error.Some? then Some(InternalError) else None)
  }

  /** Behind the invalid items' results, result k of the service stands for request item
      validIdx[k], with its status and id. */
  ghost predicate StandsFor(itemResults: seq<ItemResult>, from: nat, index: nat, res: BatchResult, k: nat) {
    && from + k < |itemResults|
    && var item := itemResults[from + k];
       item.index == index && item.id == res.id && (item.accepted <==> res.status.Accepted?)
  }

  ghost predicate InPlace(itemResults: seq<ItemResult>, from: nat, validIdx: seq<nat>,
                          results: seq<BatchResult>, j: nat)
    requires j <= |validIdx| && j <= |results|
  {
    && |itemResults| == from + j
    && forall k | 0 <= k < j :: StandsFor(itemResults, from, validIdx[k], results[k], k)
  }

  lemma StaysInPlace(itemResults: seq<ItemResult>, from: nat, validIdx: seq<nat>, results: seq<BatchResult>, j: nat)
    requires j < |validIdx| && j < |results| && InPlace(itemResults, from, validIdx, results, j)
    ensures InPlace(itemResults + [Merged(validIdx[j], results[j])], from, validIdx, results, j + 1)
  {
    var longer := itemResults + [Merged(validIdx[j], results[j])];
    forall k | 0 <= k < j + 1 ensures StandsFor(longer, from, validIdx[k], results[k], k) {
      if k < j {
        assert StandsFor(itemResults, from, validIdx[k], results[k], k);
        assert longer[from + k] == itemResults[from + k];
      }
    }
  }

  /** What holds after the results of validIdx[..j] were merged. */
  ghost predicate MergedUpTo(items: seq<Option<Notification>>, validIdx: seq<nat>, invalid: seq<ItemResult>,
                             rows: seq<Entity>, j: nat, accepted: nat, itemResults: seq<ItemResult>)
    requires j <= |validIdx|
  {
    && AllItemsOk(itemResults, items, rows) && accepted == AcceptedIn(itemResults)
    && IndicesOf(itemResults) == IndicesOf(invalid) + multiset(validIdx[..j])
  }

  lemma MergedOk(items: seq<Option<Notification>>, index: nat, n: Notification, res: BatchResult, rows: seq<Entity>)
    requires index < |items| && items[index] == Some(n) && ResultOk(res, res.index)
    requires res.id.Some? ==> EntityOf(n, res.id.value) in rows
    ensures ItemOk(Merged(index, res), items, rows) && (Merged(index, res).accepted <==> res.id.Some?)
  {
  }

  lemma AllOkAppend(results: seq<ItemResult>, item: ItemResult, items: seq<Option<Notification>>, rows: seq<Entity>)
    requires AllItemsOk(results, items, rows) && ItemOk(item, items, rows)
    ensures AllItemsOk(results + [item], items, rows)
  {
  }

  lemma MergeOne(items: seq<Option<Notification>>, validIdx: seq<nat>, invalid: seq<ItemResult>,
                 rows: seq<Entity>, j: nat, accepted: nat, itemResults: seq<ItemResult>, n: Notification,
                 res: BatchResult)
    requires j < |validIdx| && MergedUpTo(items, validIdx, invalid, rows, j, accepted, itemResults)
    requires validIdx[j] < |items| && items[validIdx[j]] == Some(n) && ResultOk(res, j)
    requires res.id.Some? ==> EntityOf(n, res.id.value) in rows
    ensures MergedUpTo(items, validIdx, invalid, rows, j + 1, if res.id.Some? then accepted + 1 else accepted,
                       itemResults + [Merged(validIdx[j], res)])
  {
    MergedOk(items, validIdx[j], n, res, rows);
    AllOkAppend(itemResults, Merged(validIdx[j], res), items, rows);
    ResultsAppend(itemResults, Merged(validIdx[j], res));
    assert validIdx[..j + 1] == validIdx[..j] + [validIdx[j]];
  }

  ghost predicate Merging(items: seq<Option<Notification>>, validIdx: seq<nat>, results: seq<BatchResult>,
                          invalid: seq<ItemResult>, rows: seq<Entity>, j: nat, accepted: nat,
                          itemResults: seq<ItemResult>)
    requires j <= |validIdx| && j <= |results|
  {
    && MergedUpTo(items, validIdx, invalid, rows, j, accepted, itemResults)
    && InPlace(itemResults, |invalid|, validIdx, results, j) && invalid <= itemResults
  }

  lemma MergeStep(items: seq<Option<Notification>>, validIdx: seq<nat>, results: seq<BatchResult>,
                  invalid: seq<ItemResult>, rows: seq<Entity>, j: nat, accepted: nat,
                  itemResults: seq<ItemResult>, n: Notification, next: nat, accepted': nat, longer: seq<ItemResult>)
    requires j < |validIdx| && j < |results| && next == j + 1
    requires Merging(items, validIdx, results, invalid, rows, j, accepted, itemResults)
    requires validIdx[j] < |items| && items[validIdx[j]] == Some(n) && ResultOk(results[j], j)
    requires results[j].id.Some? ==> EntityOf(n, results[j].id.value) in rows
    requires longer == itemResults + [Merged(validIdx[j], results[j])]
    requires accepted' == if results[j].id.Some? then accepted + 1 else accepted
    ensures Merging(items, validIdx, results, invalid, rows, next, accepted', longer)
  {
    MergeOne(items, validIdx, invalid, rows, j, accepted, itemResults, n, results[j]);
    StaysInPlace(itemResults, |invalid|, validIdx, results, j);
  }

  lemma MergeStart(items: seq<Option<Notification>>, validIdx: seq<nat>, results: seq<BatchResult>,
                   invalid: seq<ItemResult>, rows: seq<Entity>)
    requires AllInvalid(invalid, items)
    ensures Merging(items, validIdx, results, invalid, rows, 0, 0, invalid)
  {
    NoneAccepted(invalid, items);
  }

  /** The last loop: result j of the service belongs to request item validIdx[j]. */
  method MergeResults(items: seq<Option<Notification>>, validIdx: seq<nat>, ns: seq<Notification>,
                      results: seq<BatchResult>, invalid: seq<ItemResult>, ghost rows: seq<Entity>)
    returns (accepted: nat, itemResults: seq<ItemResult>)
    requires Aligned(items, validIdx, ns) && |results| == |ns|
    requires forall k | 0 <= k < |results| :: ResultOk(results[k], k)
    requires forall k | 0 <= k < |ns| && results[k].id.Some? :: EntityOf(ns[k], results[k].id.value) in rows
    requires AllInvalid(invalid, items)
    ensures AllItemsOk(itemResults, items, rows)
    ensures accepted == AcceptedIn(itemResults)
    ensures IndicesOf(itemResults) == IndicesOf(invalid) + multiset(validIdx)
    ensures InPlace(itemResults, |invalid|, validIdx, results, |results|) && invalid <= itemResults
  {
    accepted, itemResults := 0, invalid;
    MergeStart(items, validIdx, results, invalid, rows);
    for j := 0 to |results|
      invariant Merging(items, validIdx, results, invalid, rows, j, accepted, itemResults)
    {
      ghost var before, count := itemResults, accepted;
      var res := results[j];
      var item := ItemResult(validIdx[j], res.status.Accepted?, None, None);
      if res.id.Some? {
        item := item.(id := res.id);
        accepted := accepted + 1;
      }
      if res.error.Some? {
        item := item.(error := Some(InternalError));
      }
      itemResults := itemResults + [item];
      MergeStep(items, validIdx, results, invalid, rows, j, count, before, ns[j], j + 1, accepted, itemResults);
    }
    assert validIdx[..|results|] == validIdx;
  }

  ghost predicate AcceptedIffStored(itemResults: seq<ItemResult>, from: nat, w: World, k: nat) {
    from + k < |itemResults| && (itemResults[from + k].accepted <==> w.newId(k).Some? && w.dbOk)
  }

  /** As many results are accepted as rows were stored. */
  lemma {:induction false} AcceptedAreStored(ns: seq<Notification>, w: World, itemResults: seq<ItemResult>,
                                             from: nat, j: nat)
    requires j <= |ns| && from + j <= |itemResults| && AcceptedIn(itemResults[..from]) == 0
    requires forall k: nat | k < j :: AcceptedIffStored(itemResults, from, w, k)
    ensures AcceptedIn(itemResults[..from + j]) == if w.dbOk then |Entities(ns[..j], w)| else 0
  {
    if j == 0 {
      assert ns[..0] == [];
    } else {
      AcceptedAreStored(ns, w, itemResults, from, j - 1);
      assert AcceptedIffStored(itemResults, from, w, j - 1);
      assert itemResults[..from + j] == itemResults[..from + j - 1] + [itemResults[from + j - 1]];
      ResultsAppend(itemResults[..from + j - 1], itemResults[from + j - 1]);
      assert ns[..j][..j - 1] == ns[..j - 1];
    }
  }

  lemma AllAcceptedAreStored(items: seq<Option<Notification>>, ns: seq<Notification>, w: World, validIdx: seq<nat>,
                             results: seq<BatchResult>, invalid: seq<ItemResult>, itemResults: seq<ItemResult>)
    requires AllInvalid(invalid, items) && |results| == |ns| == |validIdx|
    requires invalid <= itemResults && InPlace(itemResults, |invalid|, validIdx, results, |results|)
    requires forall k | 0 <= k < |ns| :: results[k].status.Accepted? <==> w.newId(k).Some? && w.dbOk
    ensures AcceptedIn(itemResults) == if w.dbOk then |Entities(ns, w)| else 0
  {
    NoneAccepted(invalid, items);
    assert itemResults[..|invalid|] == invalid && itemResults[..|itemResults|] == itemResults && ns[..|ns|] == ns;
    forall k: nat | k < |ns| ensures AcceptedIffStored(itemResults, |invalid|, w, k) {
      assert StandsFor(itemResults, |invalid|, validIdx[k], results[k], k);
    }
    AcceptedAreStored(ns, w, itemResults, |invalid|, |ns|);
  }

  /** `items` are the request's items after conversion, None where it failed. The response
      has exactly one result for each of them, tagged with its index in the request, and
      its two counts are those of its results. */
  method CreateBatchHandler(service: Service, items: seq<Option<Notification>>, w: World) returns (response: Response)
    modifies service
    ensures old(service.announced) <= service.announced
    ensures response.TooMany? <==> |items| > 1000
    ensures response.TooMany? ==> service.rows == old(service.rows) && service.announced == old(service.announced)
    ensures response.ServiceError? ==>
              exists p: nat :: FailsAt(w, 0, p) && Reached(w, p) == |service.announced| - |old(service.announced)|
    ensures response.Batch? ==> AllConfirmed(w, 0, |service.announced| - |old(service.announced)|)
    ensures response.Batch? ==>
              && response.total == |items|
              && IndicesOf(response.results) == Upto(|items|)
              && AllItemsOk(response.results, items, service.rows)
              && response.accepted == AcceptedIn(response.results)
              && response.accepted == |service.rows| - |old(service.rows)|
              && response.rejected == RejectedIn(response.results)
  {
    if |items| > MAX_ITEMS {
      return TooMany;
    }
    var validIdx, ns, itemResults := CollectValid(items);
    var results, ok := service.CreateBatch(ns, w);
    if !ok {
      return ServiceError;
    }
    forall k | 0 <= k < |ns| && results[k].id.Some?
      ensures EntityOf(ns[k], results[k].id.value) in service.rows
    {
      EntitiesHas(ns, w, k);
    }
    var accepted;
    ghost var invalid := itemResults;
    accepted, itemResults := MergeResults(items, validIdx, ns, results, itemResults, service.rows);
    AllAcceptedAreStored(items, ns, w, validIdx, results, invalid, itemResults);
    AcceptedOrRejected(itemResults);
    UptoSize(|items|);
    response := Batch(|items|, accepted, |items| - accepted, itemResults);
  }

  /** Every request index occurs exactly once among the results. */
  lemma {:induction false} UptoOnce(n: nat, k: nat)
    ensures Upto(n)[k] == if k < n then 1 else 0
  {
    if n == 0 {
    } else {
      UptoOnce(n - 1, k);
    }
  }
}
