/** The status graph of api/internal/domain/notification/models.go. */
module NotificationStatus {
  /** The four named statuses; a row may in principle hold any other string. */
  datatype Status = Pending | Delivered | Failed | Cancelled | Other(text: string)

  /** The status that a text names. */
  function StatusOf(text: string): Status {
    if text == "pending" then Pending
    else if text == "delivered" then Delivered
    else if text == "failed" then Failed
    else if text == "cancelled" then Cancelled
    else Other(text)
  }

  const VALID_TRANSITIONS: map<Status, seq<Status>> :=
    map[Pending := [Delivered, Failed, Cancelled],
        Failed := [Pending],
        Delivered := [],
        Cancelled := []]

  datatype TransitionError = NoError | UnknownStatus | InvalidTransition

  function Judge(from: Status, to: Status): TransitionError {
    if from == to then NoError
    else if from.Other? then UnknownStatus
    else if (from.Pending? && to in {Delivered, Failed, Cancelled}) || (from.Failed? && to.Pending?) then NoError
    else InvalidTransition
  }

  class Notification {
    var status: Status

    constructor (status: Status)
      ensures this.status == status
    {
      this.status := status;
    }

    method Transition(to: Status) returns (err: TransitionError)
      modifies this`status
      ensures err == Judge(old(status), to)
      ensures status == if err.NoError? then to else old(status)
    {
      if status == to {
        return NoError;
      }
      if status !in VALID_TRANSITIONS {
        return UnknownStatus;
      }
      var allowed := VALID_TRANSITIONS[status];
      if to in allowed {
        status := to;
        return NoError;
      }
      err := InvalidTransition;
    }
  }

  predicate Legal(from: Status, to: Status) { Judge(from, to).NoError? }

  /** The statuses the services ever write over an existing row. */
  predicate IsTarget(s: Status) { s.Delivered? || s.Failed? || s.Cancelled? }

  /** A written status is legal from a given one exactly when the row is still pending or
      already has that status; so no service reopens a decided notification. */
  lemma TargetLegalIff(from: Status, to: Status)
    requires IsTarget(to)
    ensures Legal(from, to) <==> from.Pending? || from == to
  {
  }
}
