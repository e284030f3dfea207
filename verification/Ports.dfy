/** Small vocabulary shared by the services. */
module Ports {
  datatype Option<T> = None | Some(value: T)

  /** Row ids: fresh values with a total order. */
  type Uuid = nat

  /** Whether the database executes a statement. */
  datatype DbReply = DbOk | DbError

  /** The answer to a single publish. One that is not confirmed may have been stored by the
      broker all the same, when only its reply was lost. */
  datatype PublishReply = Confirmed | Unconfirmed(stored: bool)

  predicate Stores(reply: PublishReply) { reply.Confirmed? || reply.stored }

  datatype Settlement = Ack | Nak

  /** The topic of a priority; an unknown priority gets the empty topic. */
  function TopicByPriority(priority: string): string {
    if priority == "high" then "notify.high"
    else if priority == "normal" then "notify.normal"
    else if priority == "low" then "notify.low"
    else ""
  }
}
