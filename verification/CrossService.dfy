/** The whole loop: API rows, ready messages, workers, status events and their consumer, in
    any interleaving. Deliveries of one message may overlap, workers may die at any point,
    a status event may be consumed any number of times. */
module CrossService {
  import opened NotificationStatus
  import opened NotificationService
  import opened Ports
  import opened Traces
  import Races = StatusRaces
  import opened RedisLock
  import opened DeliveryPipeline
  import opened Events

  /** A ready message: the row it is about, its event, the deliveries so far. */
  datatype Ready = Ready(id: Uuid, event: ReadyEvent, count: nat, acked: bool)

  datatype Stage =
    | Fetched
    | Locked
    | Admitted
    | Sent(result: DeliveryResult)
    | Ended(ending: Ending)
    | Released(ending: Ending)

  datatype Job = Job(message: nat, attempt: nat, stage: Stage)

  datatype SendRecord = SendRecord(message: nat, attempt: nat, result: DeliveryResult)

  /** A status event as its consumer reads it: the row its id names and the status its text
      names. */
  datatype StatusMessage = StatusMessage(id: Uuid, status: Status)

  function Read(id: Uuid, e: StatusEvent): StatusMessage { StatusMessage(id, StatusOf(e.status)) }

  datatype State = State(messages: map<nat, Ready>, jobs: map<nat, Job>, sendLog: set<SendRecord>,
                         events: set<StatusMessage>, api: Races.State)

  datatype Action =
    | Announce(message: nat, id: Uuid, event: ReadyEvent)
    | Fetch(worker: nat, message: nat)
    | Lock(worker: nat, lock: LockReply)
    | Limit(worker: nat, limit: LimitReply)
    | Send(worker: nat, result: DeliveryResult)
    | Publish(worker: nat, publish: PublishReply)
    | Unlock(worker: nat)
    | Settle(worker: nat)
    | Crash(worker: nat)
    | Api(step: Races.Action)

  const INITIAL := State(map[], map[], {}, {}, Races.INITIAL)

  predicate Running(s: State, w: nat) {
    w in s.jobs && s.jobs[w].message in s.messages
  }

  predicate Enabled(s: State, a: Action) {
    match a
    case Announce(m, id, _) => m !in s.messages && id in s.api.rows
    case Fetch(w, m) => w !in s.jobs && m in s.messages && !s.messages[m].acked
    case Lock(w, _) => Running(s, w) && s.jobs[w].stage.Fetched?
    case Limit(w, _) => Running(s, w) && s.jobs[w].stage.Locked?
    case Send(w, _) => Running(s, w) && s.jobs[w].stage.Admitted?
    case Publish(w, _) => Running(s, w) && s.jobs[w].stage.Sent?
    case Unlock(w) => Running(s, w) && s.jobs[w].stage.Ended?
    case Settle(w) => Running(s, w) && s.jobs[w].stage.Released?
    case Crash(w) => w in s.jobs
    case Api(Begin(_, id, target)) => target.Cancelled? || StatusMessage(id, target) in s.events
    case Api(_) => true
  }

  function MoveTo(s: State, w: nat, stage: Stage): State
    requires w in s.jobs
  {
    s.(jobs := s.jobs[w := s.jobs[w].(stage := stage)])
  }

  function Step(s: State, a: Action): State {
    if !Enabled(s, a) then s else
    match a
    case Announce(m, id, event) =>
      s.(messages := s.messages[m := Ready(id, event, 0, false)])
    case Fetch(w, m) =>
      var count := s.messages[m].count + 1;
      s.(messages := s.messages[m := s.messages[m].(count := count)],
         jobs := s.jobs[w := Job(m, count, Fetched)])
    case Lock(w, lock) =>
      MoveTo(s, w, match lock
                   case LockAcquired => Locked
                   case LockMiss => Released(AckedMiss)
                   case LockError => Released(Errored))
    case Limit(w, limit) =>
      MoveTo(s, w, match limit
                   case Allowed => Admitted
                   case Denied(_) => Ended(Limited)
                   case LimitError => Ended(Errored))
    case Send(w, result) =>
      MoveTo(s, w, Sent(result)).(
        sendLog := s.sendLog + {SendRecord(s.jobs[w].message, s.jobs[w].attempt, result)})
    case Publish(w, publish) =>
      var job := s.jobs[w];
      var ready := s.messages[job.message];
      var m := MaxAttemptsFor(ready.event);
      var ending := EndingOf(LockAcquired, Allowed, job.stage.result, publish, job.attempt, m);
      var event := EventFor(ready.event.notificationId, job.stage.result, job.attempt);
      MoveTo(s, w, Ended(ending)).(
        events := if Reports(LockAcquired, Allowed, job.stage.result, publish, job.attempt, m)
                  then s.events + {Read(ready.id, event)} else s.events)
    case Unlock(w) => MoveTo(s, w, Released(s.jobs[w].stage.ending))
    case Settle(w) =>
      var job := s.jobs[w];
      var acks := job.stage.ending.AckedMiss? || job.stage.ending.Reported?;
      s.(jobs := s.jobs - {w},
         messages := if acks then s.messages[job.message := s.messages[job.message].(acked := true)]
                     else s.messages)
    case Crash(w) => s.(jobs := s.jobs - {w})
    case Api(step) => s.(api := Races.Step(s.api, step))
  }

  function After(t: Trace<Action>): State {
    match t
    case Start => INITIAL
    case Then(before, a) => Step(After(before), a)
  }

  /** A provider call for `id` whose answer allows the row to get `status`. */
  ghost predicate Justifies(s: State, r: SendRecord, id: Uuid, status: Status) {
    && r in s.sendLog && r.message in s.messages
    && var ready := s.messages[r.message];
       && ready.id == id && 1 <= r.attempt <= ready.count
       && match status
          case Delivered => r.result.success
          case Failed => !r.result.success && (!r.result.retryable || r.attempt >= MaxAttemptsFor(ready.event))
          case _ => false
  }

  ghost predicate Justified(s: State, id: Uuid, status: Status) {
    exists r :: Justifies(s, r, id, status)
  }

  ghost predicate JobOk(s: State, job: Job) {
    && job.message in s.messages && 1 <= job.attempt <= s.messages[job.message].count
    && (job.stage.Sent? ==> SendRecord(job.message, job.attempt, job.stage.result) in s.sendLog)
  }

  ghost predicate RowJustified(s: State, id: Uuid)
    requires id in s.api.rows
  {
    s.api.rows[id].Pending? || s.api.rows[id].Cancelled? || Justified(s, id, s.api.rows[id])
  }

  ghost predicate Inv(s: State) {
    && (forall w | w in s.jobs :: JobOk(s, s.jobs[w]))
    && (forall e | e in s.events :: Justified(s, e.id, e.status))
    && (forall op | op in s.api.ops ::
          s.api.ops[op].target.Cancelled? || Justified(s, s.api.ops[op].id, s.api.ops[op].target))
    && (forall id | id in s.api.rows :: RowJustified(s, id))
  }

  /** Later states know at least the calls and messages of earlier ones. */
  ghost predicate Grows(s: State, s': State) {
    && s.sendLog <= s'.sendLog
    && forall m | m in s.messages :: && m in s'.messages && s'.messages[m].id == s.messages[m].id
                                     && s'.messages[m].event == s.messages[m].event
                                     && s'.messages[m].count >= s.messages[m].count
  }

  lemma StepGrows(s: State, a: Action)
    ensures Grows(s, Step(s, a))
  {
  }

  lemma JustifiedStays(s: State, s': State, id: Uuid, status: Status)
    requires Grows(s, s') && Justified(s, id, status)
    ensures Justified(s', id, status)
  {
    var r :| Justifies(s, r, id, status);
    assert Justifies(s', r, id, status);
  }

  lemma JobsStayOk(s: State, a: Action)
    requires Inv(s)
    ensures forall w | w in Step(s, a).jobs :: JobOk(Step(s, a), Step(s, a).jobs[w])
  {
    var s' := Step(s, a);
    forall w | w in s'.jobs
      ensures JobOk(s', s'.jobs[w])
    {
      if w in s.jobs { assert JobOk(s, s.jobs[w]); }
    }
  }

  lemma EventsStayJustified(s: State, a: Action)
    requires Inv(s)
    ensures forall e | e in Step(s, a).events :: Justified(Step(s, a), e.id, e.status)
  {
    var s' := Step(s, a);
    StepGrows(s, a);
    forall e | e in s'.events
      ensures Justified(s', e.id, e.status)
    {
      if e in s.events {
        JustifiedStays(s, s', e.id, e.status);
      } else {
        var job := s.jobs[a.worker];
        assert JobOk(s, job);
        var r := SendRecord(job.message, job.attempt, job.stage.result);
        assert Justifies(s', r, e.id, e.status);
      }
    }
  }

  lemma OpsStayJustified(s: State, a: Action)
    requires Inv(s)
    ensures var s' := Step(s, a);
            forall op | op in s'.api.ops ::
              s'.api.ops[op].target.Cancelled? || Justified(s', s'.api.ops[op].id, s'.api.ops[op].target)
  {
    var s' := Step(s, a);
    StepGrows(s, a);
    forall op | op in s'.api.ops && !s'.api.ops[op].target.Cancelled?
      ensures Justified(s', s'.api.ops[op].id, s'.api.ops[op].target)
    {
      var o := s'.api.ops[op];
      if op in s.api.ops {
        assert s.api.ops[op].id == o.id && s.api.ops[op].target == o.target;
      } else {
        assert StatusMessage(o.id, o.target) in s.events;
      }
      JustifiedStays(s, s', o.id, o.target);
    }
  }

  lemma RowsStayJustified(s: State, a: Action)
    requires Inv(s)
    ensures forall id | id in Step(s, a).api.rows :: RowJustified(Step(s, a), id)
  {
    var s' := Step(s, a);
    StepGrows(s, a);
    forall id | id in s'.api.rows
      ensures RowJustified(s', id)
    {
      if id in s.api.rows && s'.api.rows[id] == s.api.rows[id] {
        assert RowJustified(s, id);
        if !s.api.rows[id].Pending? && !s.api.rows[id].Cancelled? { JustifiedStays(s, s', id, s.api.rows[id]); }
      } else if id in s.api.rows {
        var o := s.api.ops[a.step.op];
        if !o.target.Cancelled? { JustifiedStays(s, s', o.id, o.target); }
      }
    }
  }

  lemma {:induction false} AfterInv(t: Trace<Action>)
    ensures Inv(After(t))
  {
    if t.Start? {
    } else {
      AfterInv(t.before);
      JobsStayOk(After(t.before), t.action);
      EventsStayJustified(After(t.before), t.action);
      OpsStayJustified(After(t.before), t.action);
      RowsStayJustified(After(t.before), t.action);
    }
  }

  /** Causality: in every interleaving, a row says delivered only after the provider
      accepted a call for that notification, and failed only after a call for it was
      refused for good or on a delivery count at or above its attempt limit. */
  lemma RowsTellTheProvidersAnswer(t: Trace<Action>, id: Uuid)
    requires id in After(t).api.rows
    ensures var s := After(t);
            && (s.api.rows[id].Delivered? ==>
                  exists r :: Justifies(s, r, id, Delivered) && r.result.success)
            && (s.api.rows[id].Failed? ==>
                  exists r :: Justifies(s, r, id, Failed) && !r.result.success
                    && (r.result.retryable ==> r.attempt >= MaxAttemptsFor(s.messages[r.message].event)))
            && !s.api.rows[id].Other?
  {
    AfterInv(t);
    var s := After(t);
    assert RowJustified(s, id);
  }

  /** The API side of a run is a run of the status races, so all that holds of them holds
      here: histories start at pending and never return to it. */
  lemma {:induction false} ApiRunsAreRaces(t: Trace<Action>) returns (api: Trace<Races.Action>)
    ensures Races.After(api) == After(t).api
  {
    api := Start;
    if t.Start? {
    } else {
      var before := ApiRunsAreRaces(t.before);
      api := if t.action.Api? && Enabled(After(t.before), t.action) then Then(before, t.action.step) else before;
    }
  }

  /** A status event that tells the provider's answer, given to the consumer while the row is
      pending, decides the row as the provider answered. */
  lemma EventDecidesRow(rows: Rows, id: Uuid, e: StatusEvent, text: string, result: DeliveryResult, attempt: int)
    requires id in rows && rows[id].Pending? && Tells(e, text, result, attempt)
    ensures var status := StatusOf(e.status);
            && CheckTransition(rows, id, status).Passed?
            && WriteStatus(rows, id, status)[id] == if result.success then Delivered else Failed
  {
  }

  /** An API operation of one target on one row, from its start to its write. */
  function Applied(s: State, op: nat, id: Uuid, status: Status): State {
    Step(Step(Step(s, Api(Races.Begin(op, id, status))), Api(Races.Read(op))), Api(Races.Write(op)))
  }

  lemma EventIsApplied(s: State, op: nat, id: Uuid, status: Status)
    requires StatusMessage(id, status) in s.events && op !in s.api.ops && IsTarget(status)
    requires id in s.api.rows && id in s.api.held && s.api.rows[id].Pending?
    ensures Applied(s, op, id, status).api.rows == s.api.rows[id := status]
  {
    var begun := Races.Step(s.api, Races.Begin(op, id, status));
    assert begun == s.api.(ops := s.api.ops[op := Races.Op(id, status, Races.NotRead)]);
    var read := Races.Step(begun, Races.Read(op));
    assert read.ops[op] == Races.Op(id, status, Races.HasRead(Pending));
  }

  /** A final answer of the provider reaches the row: once the worker has published it and
      the consumer has handled the event, a pending row is delivered exactly if the provider
      accepted, and failed otherwise; and the message is acked. */
  lemma AnswerReachesRow(s: State, w: nat, op: nat)
    requires Running(s, w) && s.jobs[w].stage.Sent? && op !in s.api.ops
    requires var ready := s.messages[s.jobs[w].message];
             && Terminal(s.jobs[w].stage.result, s.jobs[w].attempt, MaxAttemptsFor(ready.event))
             && ready.id in s.api.rows && ready.id in s.api.held && s.api.rows[ready.id].Pending?
    ensures var job := s.jobs[w];
            var id := s.messages[job.message].id;
            var status := if job.stage.result.success then Delivered else Failed;
            var settled := Step(Step(Step(s, Publish(w, Confirmed)), Unlock(w)), Settle(w));
            && settled.messages[job.message].acked && w !in settled.jobs
            && Applied(settled, op, id, status).api.rows == s.api.rows[id := status]
  {
    var job := s.jobs[w];
    var ready := s.messages[job.message];
    var status := if job.stage.result.success then Delivered else Failed;
    var reported := Step(s, Publish(w, Confirmed));
    assert reported.jobs[w] == Job(job.message, job.attempt, Ended(Reported));
    assert StatusMessage(ready.id, status) in reported.events;
    var released := Step(reported, Unlock(w));
    assert released.jobs[w].stage == Released(Reported);
    var settled := Step(released, Settle(w));
    EventIsApplied(settled, op, ready.id, status);
  }

  /** An undisturbed delivery of a ready message gets to the provider's answer, with the
      message's delivery count as its attempt number. */
  lemma DeliveryReachesProvider(s: State, w: nat, m: nat, result: DeliveryResult)
    requires w !in s.jobs && m in s.messages && !s.messages[m].acked
    ensures var count := s.messages[m].count + 1;
            var s' := Step(Step(Step(Step(s, Fetch(w, m)), Lock(w, LockAcquired)), Limit(w, Allowed)), Send(w, result));
            && w in s'.jobs && s'.jobs[w] == Job(m, count, Sent(result)) && s'.api == s.api
            && m in s'.messages && s'.messages[m] == s.messages[m].(count := count)
            && s'.sendLog == s.sendLog + {SendRecord(m, count, result)}
  {
    var fetched := Step(s, Fetch(w, m));
    assert fetched.jobs[w] == Job(m, s.messages[m].count + 1, Fetched);
    var locked := Step(fetched, Lock(w, LockAcquired));
    assert locked.jobs[w].stage == Locked;
    var admitted := Step(locked, Limit(w, Allowed));
    assert admitted.jobs[w].stage == Admitted;
  }

  /** A missed lock acks the message without a provider call or a status event; an error, and
      a rate-limit denial once the lock is given back, leave it to be fetched again. */
  lemma OtherEndingsReportNothing(s: State, w: nat, lock: LockReply, limit: LimitReply)
    requires Running(s, w) && s.jobs[w].stage.Fetched? && !s.messages[s.jobs[w].message].acked
    requires !lock.LockAcquired? || !limit.Allowed?
    ensures var m := s.jobs[w].message;
            var locked := Step(s, Lock(w, lock));
            var settled := if lock.LockAcquired? then Step(Step(Step(locked, Limit(w, limit)), Unlock(w)), Settle(w))
                           else Step(locked, Settle(w));
            && settled.events == s.events && settled.sendLog == s.sendLog && settled.api == s.api
            && w !in settled.jobs && (settled.messages[m].acked <==> lock.LockMiss?)
            && (Enabled(settled, Fetch(w, m)) <==> !lock.LockMiss?)
  {
    var locked := Step(s, Lock(w, lock));
    if lock.LockAcquired? {
      assert locked.jobs[w].stage == Locked;
      var limited := Step(locked, Limit(w, limit));
      assert limited.jobs[w].stage == Ended(if limit.Denied? then Limited else Errored);
      var released := Step(limited, Unlock(w));
      assert released.jobs[w].stage == Released(if limit.Denied? then Limited else Errored);
    } else {
      assert locked.jobs[w].stage == Released(if lock.LockMiss? then AckedMiss else Errored);
    }
  }
}
