/** Cancel and UpdateStatus of api/internal/service/notification.go over the repository of
    api/internal/db/postgres/notification_repo.go, and the status event consumer. */
module NotificationService {
  import opened Events
  import opened NotificationStatus
  import opened Ports

  type Rows = map<Uuid, Status>

  /** The read and the check that precede a status write. */
  datatype Check = NotFound | Rejected(error: TransitionError) | Passed(seen: Status)

  function CheckTransition(rows: Rows, id: Uuid, target: Status): Check {
    if id !in rows then NotFound
    else if Legal(rows[id], target) then Passed(rows[id])
    else Rejected(Judge(rows[id], target))
  }

  /** UPDATE ... WHERE id = ?: no condition on the status the row has now. */
  function WriteStatus(rows: Rows, id: Uuid, target: Status): Rows {
    if id in rows then rows[id := target] else rows
  }

  class NotificationRepo {
    var rows: Rows

    constructor ()
      ensures rows == map[]
    {
      rows := map[];
    }

    method GetByID(id: Uuid, reply: DbReply) returns (found: bool, failed: bool, status: Status)
      ensures failed <==> reply.DbError?
      ensures found <==> reply.DbOk? && id in rows
      ensures found ==> status == rows[id]
    {
      if reply.DbError? {
        return false, true, Pending;
      }
      if id !in rows {
        return false, false, Pending;
      }
      return true, false, rows[id];
    }

    method UpdateStatus(id: Uuid, status: Status, reply: DbReply) returns (ok: bool)
      modifies this`rows
      ensures ok <==> reply.DbOk? && id in old(rows)
      ensures rows == if reply.DbOk? then WriteStatus(old(rows), id, status) else old(rows)
    {
      if reply.DbError? || id !in rows {
        return false;
      }
      rows := rows[id := status];
      ok := true;
    }
  }

  datatype Failure = NoFailure | NotFoundError | ConflictError(cause: TransitionError) | OtherError

  class Service {
    const repo: NotificationRepo
    var cancelEvents: seq<Uuid>

    constructor (repo: NotificationRepo)
      ensures this.repo == repo && cancelEvents == []
    {
      this.repo := repo;
      cancelEvents := [];
    }

    /** Without interference: the row becomes cancelled exactly when its transition is
        legal, and the schedule is told only after the write. A publish that
        is not confirmed is an error and leaves the row cancelled. */
    method Cancel(id: Uuid, read: DbReply, write: DbReply, publish: PublishReply) returns (failure: Failure)
      modifies this, repo
      ensures var check := CheckTransition(old(repo.rows), id, Cancelled);
              var wrote := read.DbOk? && check.Passed? && write.DbOk?;
              && repo.rows == (if wrote then old(repo.rows)[id := Cancelled] else old(repo.rows))
              && cancelEvents == old(cancelEvents) + (if wrote && Stores(publish) then [id] else [])
              && (failure.NoFailure? <==> wrote && publish.Confirmed?)
              && (failure.NotFoundError? <==> read.DbOk? && check.NotFound?)
              && (failure.ConflictError? <==> read.DbOk? && check.Rejected?)
    {
      var found, failed, status := repo.GetByID(id, read);
      if failed {
        return OtherError;
      }
      if !found {
        return NotFoundError;
      }
      var notification := new Notification(status);
      var err := notification.Transition(Cancelled);
      if !err.NoError? {
        return ConflictError(err);
      }
      var ok := repo.UpdateStatus(id, Cancelled, write);
      if !ok {
        return OtherError;
      }
      if Stores(publish) {
        cancelEvents := cancelEvents + [id];
      }
      if !publish.Confirmed? {
        return OtherError;
      }
      failure := NoFailure;
    }

    method UpdateStatus(id: Uuid, target: Status, read: DbReply, write: DbReply) returns (ok: bool)
      modifies repo
      ensures ok <==> read.DbOk? && write.DbOk? && CheckTransition(old(repo.rows), id, target).Passed?
      ensures repo.rows == if ok then old(repo.rows)[id := target] else old(repo.rows)
    {
      var found, failed, status := repo.GetByID(id, read);
      if failed || !found {
        return false;
      }
      var notification := new Notification(status);
      var err := notification.Transition(target);
      if !err.NoError? {
        return false;
      }
      ok := repo.UpdateStatus(id, target, write);
    }
  }

  /** DeliveryResultConsumer.processOne: a status event is acked exactly when its status is
      now on the row through this event; a repeated event is acked again. */
  method ProcessStatusEvent(service: Service, evt: StatusEvent, parse: string -> Option<Uuid>,
                            read: DbReply, write: DbReply)
    returns (settlement: Settlement)
    modifies service.repo
    ensures var id := parse(evt.notificationId);
            && (settlement.Ack? <==>
                  && id.Some? && read.DbOk? && write.DbOk?
                  && CheckTransition(old(service.repo.rows), id.value, StatusOf(evt.status)).Passed?)
            && service.repo.rows ==
                 if settlement.Ack? then old(service.repo.rows)[id.value := StatusOf(evt.status)]
                 else old(service.repo.rows)
  {
    var id := parse(evt.notificationId);
    if id.None? {
      return Nak;
    }
    var ok := service.UpdateStatus(id.value, StatusOf(evt.status), read, write);
    if !ok {
      return Nak;
    }
    settlement := Ack;
  }

  /** A repeated status event passes the check again. */
  lemma RepeatedEventPasses(rows: Rows, id: Uuid, target: Status)
    requires CheckTransition(rows, id, target).Passed?
    ensures CheckTransition(WriteStatus(rows, id, target), id, target) == Passed(target)
  {
  }
}
