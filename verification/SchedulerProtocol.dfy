/** Several dispatchers, the schedule consumer and the cancel consumer at one table. A claim
    is two steps, locking the rows it selects and deleting them; every other statement is
    one, and waits for the locks of the rows it writes. A schedule event may be consumed any
    number of times. */
module SchedulerProtocol {
  import opened ScheduleRepository
  import opened BatchPublisher
  import opened Dispatcher
  import opened Ports
  import opened Traces

  /** What a dispatcher is in the middle of: a claim that has locked its rows, a publish of
      rows it deleted, or putting them back after a failed publish. */
  datatype Phase = Claiming(batch: seq<Entry>) | Publishing(batch: seq<Entry>) | Broken(batch: seq<Entry>)

  /** How often each id was stored by the consumer, was published in all, was part of a
      publish that succeeded or of one that failed, was withdrawn by a cancel that found it
      in the table, and was lost by a crash or a failed re-enqueue. */
  datatype State = State(table: Table, phases: map<nat, Phase>, scheduled: multiset<Id>, published: multiset<Id>,
                         done: multiset<Id>, failed: multiset<Id>, withdrawn: multiset<Id>, lost: multiset<Id>)

  datatype Action =
    | Schedule(entries: seq<Entry>)
    | Cancel(id: Id)
    | Claim(dispatcher: nat, now: int, limit: nat, batch: seq<Entry>)
    | Delete(dispatcher: nat)
    | Rollback(dispatcher: nat)
    | Publish(dispatcher: nat)
    | PublishFails(dispatcher: nat, sends: nat -> SendReply)
    | Requeue(dispatcher: nat)
    | Drop(dispatcher: nat)

  const INITIAL := State(map[], map[], multiset{}, multiset{}, multiset{}, multiset{}, multiset{}, multiset{})

  function BatchIds(s: State, d: nat): set<Id>
    requires d in s.phases
  {
    Ids(s.phases[d].batch)
  }

  ghost predicate LockedBy(s: State, d: nat, id: Id) {
    d in s.phases && s.phases[d].Claiming? && id in BatchIds(s, d)
  }

  ghost predicate IsLocked(s: State, id: Id) {
    exists d :: LockedBy(s, d, id)
  }

  ghost function LockedIds(s: State): set<Id> {
    set id | id in s.table && IsLocked(s, id)
  }

  ghost predicate AnyLocked(s: State, ids: set<Id>) {
    exists id :: id in ids && IsLocked(s, id)
  }

  predicate HeldBy(s: State, d: nat, id: Id) {
    d in s.phases && !s.phases[d].Claiming? && id in BatchIds(s, d)
  }

  /** The dispatchers that deleted the id from the table and have not settled it yet. */
  function Holders(s: State, id: Id): set<nat> {
    set d | d in s.phases && HeldBy(s, d, id)
  }

  ghost predicate Enabled(s: State, a: Action) {
    match a
    case Schedule(entries) => Distinct(entries) && !AnyLocked(s, Ids(entries))
    case Cancel(id) => !IsLocked(s, id)
    case Claim(d, now, limit, batch) => d !in s.phases && IsClaim(s.table, now, limit, LockedIds(s), batch)
    case Delete(d) => d in s.phases && s.phases[d].Claiming?
    case Rollback(d) => d in s.phases && s.phases[d].Claiming?
    case Publish(d) => d in s.phases && s.phases[d].Publishing?
    case PublishFails(d, _) => d in s.phases && s.phases[d].Publishing?
    case Requeue(d) => d in s.phases && s.phases[d].Broken? && !AnyLocked(s, BatchIds(s, d))
    case Drop(d) => d in s.phases && !s.phases[d].Claiming?
  }

  function Counts(batch: seq<Entry>): multiset<Id> { multiset(IdsOf(batch)) }

  ghost function Step(s: State, a: Action): State {
    if !Enabled(s, a) then s else
    match a
    case Schedule(entries) =>
      s.(table := Upserted(s.table, entries), scheduled := s.scheduled + Counts(entries))
    case Cancel(id) =>
      s.(table := s.table - {id}, withdrawn := if id in s.table then s.withdrawn + multiset{id} else s.withdrawn)
    case Claim(d, _, _, batch) => s.(phases := s.phases[d := Claiming(batch)])
    case Delete(d) =>
      s.(table := s.table - BatchIds(s, d), phases := s.phases[d := Publishing(s.phases[d].batch)])
    case Rollback(d) => s.(phases := s.phases - {d})
    case Publish(d) =>
      s.(published := s.published + Counts(s.phases[d].batch), done := s.done + Counts(s.phases[d].batch),
         phases := s.phases - {d})
    case PublishFails(d, sends) =>
      s.(published := s.published + multiset(Landed(IdsOf(s.phases[d].batch), sends)),
         failed := s.failed + Counts(s.phases[d].batch),
         phases := s.phases[d := Broken(s.phases[d].batch)])
    case Requeue(d) =>
      s.(table := Upserted(s.table, s.phases[d].batch), phases := s.phases - {d})
    case Drop(d) => s.(lost := s.lost + Counts(s.phases[d].batch), phases := s.phases - {d})
  }

  ghost function After(t: Trace<Action>): State {
    match t
    case Start => INITIAL
    case Then(before, a) => Step(After(before), a)
  }

  function One(b: bool): nat { if b then 1 else 0 }

  /** The copies of an id that are somewhere: in the table, with a dispatcher, or gone. */
  function Copies(s: State, id: Id): nat {
    One(id in s.table) + |Holders(s, id)| + s.done[id] + s.withdrawn[id] + s.lost[id]
  }

  /** Each scheduling makes at most one copy, the last copy never disappears, and only a
      failed publish puts an id into the stream without using up a copy. */
  ghost predicate IdOk(s: State, id: Id) {
    && Copies(s, id) <= s.scheduled[id]
    && (s.scheduled[id] >= 1 ==> Copies(s, id) >= 1)
    && s.done[id] <= s.published[id] <= s.done[id] + s.failed[id]
  }

  /** A claiming dispatcher's rows are in the table as it read them. */
  ghost predicate PhaseOk(s: State, d: nat)
    requires d in s.phases
  {
    var batch := s.phases[d].batch;
    && Distinct(batch)
    && (s.phases[d].Claiming? ==>
          forall k | 0 <= k < |batch| :: batch[k].id in s.table && s.table[batch[k].id] == batch[k].row)
  }

  ghost predicate LocksApart(s: State, d: nat, e: nat) {
    forall id :: !(LockedBy(s, d, id) && LockedBy(s, e, id))
  }

  ghost predicate Inv(s: State) {
    && (forall d | d in s.phases :: PhaseOk(s, d))
    && (forall d, e | d in s.phases && e in s.phases && d != e :: LocksApart(s, d, e))
    && (forall id :: IdOk(s, id))
  }

  // ----------------------------------------------------------------- the invariant holds

  lemma {:induction false} UpsertTouchesOnlyBatch(table: Table, batch: seq<Entry>)
    ensures Upserted(table, batch).Keys == table.Keys + Ids(batch)
    ensures forall id | id in table && id !in Ids(batch) :: Upserted(table, batch)[id] == table[id]
  {
    if batch == [] {
    } else {
      var init, e := batch[..|batch| - 1], batch[|batch| - 1];
      UpsertTouchesOnlyBatch(table, init);
      IdsAppend(init, e);
      assert batch == init + [e];
    }
  }

  lemma ClaimedIdsKnown(table: Table, now: int, limit: nat, locked: set<Id>, batch: seq<Entry>, id: Id)
    requires IsClaim(table, now, limit, locked, batch) && id in Ids(batch)
    ensures id in table && id !in locked
  {
    var k :| 0 <= k < |batch| && batch[k].id == id;
    assert Due(table, batch[k].id, now);
  }

  lemma LockedInTable(s: State, d: nat, id: Id)
    requires Inv(s) && LockedBy(s, d, id)
    ensures id in s.table
  {
    assert PhaseOk(s, d);
    var k :| 0 <= k < |s.phases[d].batch| && s.phases[d].batch[k].id == id;
    assert s.phases[d].batch[k].id in s.table;
  }

  /** Rows that a claim has locked stay as they were read. */
  lemma LockedRowStays(s: State, a: Action, d: nat, id: Id)
    requires Inv(s) && LockedBy(s, d, id) && LockedBy(Step(s, a), d, id)
    ensures id in s.table && id in Step(s, a).table && Step(s, a).table[id] == s.table[id]
  {
    LockedInTable(s, d, id);
    if !Enabled(s, a) { return; }
    match a
    case Schedule(entries) => UpsertTouchesOnlyBatch(s.table, entries);
    case Requeue(e) => UpsertTouchesOnlyBatch(s.table, s.phases[e].batch);
    case Delete(e) => assert d != e && LocksApart(s, d, e);
    case _ =>
  }

  lemma PhaseStaysOk(s: State, a: Action, d: nat)
    requires Inv(s) && d in Step(s, a).phases
    ensures PhaseOk(Step(s, a), d)
  {
    var s' := Step(s, a);
    var batch := s'.phases[d].batch;
    if d in s.phases {
      assert PhaseOk(s, d) && batch == s.phases[d].batch;
      if s'.phases[d].Claiming? {
        forall k | 0 <= k < |batch|
          ensures batch[k].id in s'.table && s'.table[batch[k].id] == batch[k].row
        {
          assert LockedBy(s, d, batch[k].id);
          LockedRowStays(s, a, d, batch[k].id);
        }
      }
    } else {
      forall k | 0 <= k < |batch| ensures batch[k].id in s.table && s.table[batch[k].id] == batch[k].row {
        assert Due(s.table, batch[k].id, a.now);
      }
    }
  }

  lemma NewLocksApart(s: State, a: Action, d: nat, e: nat)
    requires Inv(s) && d !in s.phases && d in Step(s, a).phases && e in s.phases && e in Step(s, a).phases
    ensures LocksApart(Step(s, a), d, e)
  {
    forall id | id in Ids(a.batch)
      ensures !LockedBy(s, e, id)
    {
      ClaimedIdsKnown(s.table, a.now, a.limit, LockedIds(s), a.batch, id);
    }
  }

  lemma StepKeepsPhases(s: State, a: Action)
    requires Inv(s)
    ensures forall d | d in Step(s, a).phases :: PhaseOk(Step(s, a), d)
    ensures forall d, e | d in Step(s, a).phases && e in Step(s, a).phases && d != e :: LocksApart(Step(s, a), d, e)
  {
    var s' := Step(s, a);
    forall d | d in s'.phases
      ensures PhaseOk(s', d)
    {
      PhaseStaysOk(s, a, d);
    }
    forall d, e | d in s'.phases && e in s'.phases && d != e
      ensures LocksApart(s', d, e)
    {
      if d in s.phases && e in s.phases {
        assert LocksApart(s, d, e);
        assert forall id :: LockedBy(s', d, id) ==> LockedBy(s, d, id);
        assert forall id :: LockedBy(s', e, id) ==> LockedBy(s, e, id);
      }
      else if e in s.phases { NewLocksApart(s, a, d, e); }
      else if d in s.phases {
        NewLocksApart(s, a, e, d);
        assert forall id :: !(LockedBy(s', e, id) && LockedBy(s', d, id));
      }
    }
  }

  lemma SizeWithout<T>(a: set<T>, x: T)
    ensures |a| == |a - {x}| + One(x in a)
  {
    if x in a { assert a == a - {x} + {x}; } else { assert a == a - {x}; }
  }

  /** A step of dispatcher d changes who holds an id in d's own place only. */
  lemma HoldersChange(s: State, s': State, d: nat, id: Id)
    requires forall e | e != d :: HeldBy(s', e, id) == HeldBy(s, e, id)
    ensures |Holders(s', id)| - One(HeldBy(s', d, id)) == |Holders(s, id)| - One(HeldBy(s, d, id))
  {
    assert forall e :: e in Holders(s, id) <==> HeldBy(s, e, id);
    assert forall e :: e in Holders(s', id) <==> HeldBy(s', e, id);
    assert Holders(s', id) - {d} == Holders(s, id) - {d};
    SizeWithout(Holders(s, id), d);
    SizeWithout(Holders(s', id), d);
  }

  lemma SameHolders(s: State, s': State, id: Id)
    requires s'.phases == s.phases
    ensures Holders(s', id) == Holders(s, id)
  {
    assert forall d :: HeldBy(s', d, id) == HeldBy(s, d, id);
  }

  lemma TableStepKeepsId(s: State, a: Action, id: Id)
    requires Inv(s) && Enabled(s, a) && (a.Schedule? || a.Cancel?)
    ensures IdOk(Step(s, a), id)
  {
    assert IdOk(s, id);
    SameHolders(s, Step(s, a), id);
    if a.Schedule? {
      UpsertTouchesOnlyBatch(s.table, a.entries);
      CountIds(a.entries, id);
    }
  }

  lemma OwnFailureKeepsId(s: State, a: Action, id: Id)
    requires Inv(s) && Enabled(s, a) && a.PublishFails?
    requires id in BatchIds(s, a.dispatcher)
    ensures IdOk(Step(s, a), id)
  {
    var d := a.dispatcher;
    var batch := s.phases[d].batch;
    assert IdOk(s, id) && PhaseOk(s, d);
    HoldersChange(s, Step(s, a), d, id);
    CountIds(batch, id);
    LandedIsPartOfBatch(IdsOf(batch), a.sends);
  }

  lemma OwnRequeueKeepsId(s: State, a: Action, id: Id)
    requires Inv(s) && Enabled(s, a) && a.Requeue?
    requires id in BatchIds(s, a.dispatcher)
    ensures IdOk(Step(s, a), id)
  {
    var d := a.dispatcher;
    var batch := s.phases[d].batch;
    assert IdOk(s, id) && PhaseOk(s, d);
    HoldersChange(s, Step(s, a), d, id);
    UpsertTouchesOnlyBatch(s.table, batch);
  }

  lemma OwnDeleteKeepsId(s: State, a: Action, id: Id)
    requires Inv(s) && Enabled(s, a) && (a.Delete? || a.Rollback?)
    requires id in BatchIds(s, a.dispatcher)
    ensures IdOk(Step(s, a), id)
  {
    var d := a.dispatcher;
    var batch := s.phases[d].batch;
    assert IdOk(s, id) && PhaseOk(s, d);
    HoldersChange(s, Step(s, a), d, id);
    LockedInTable(s, d, id);
  }

  lemma OwnEndKeepsId(s: State, a: Action, id: Id)
    requires Inv(s) && Enabled(s, a) && (a.Publish? || a.Drop?)
    requires id in BatchIds(s, a.dispatcher)
    ensures IdOk(Step(s, a), id)
  {
    var d := a.dispatcher;
    var batch := s.phases[d].batch;
    assert IdOk(s, id) && PhaseOk(s, d);
    HoldersChange(s, Step(s, a), d, id);
    CountIds(batch, id);
  }

  /** What a dispatcher's step does with the ids of its batch. */
  lemma OwnStepKeepsId(s: State, a: Action, id: Id)
    requires Inv(s) && Enabled(s, a) && !a.Schedule? && !a.Cancel? && !a.Claim?
    requires id in BatchIds(s, a.dispatcher)
    ensures IdOk(Step(s, a), id)
  {
    match a
    case PublishFails(_, _) => OwnFailureKeepsId(s, a, id);
    case Requeue(_) => OwnRequeueKeepsId(s, a, id);
    case Delete(_) => OwnDeleteKeepsId(s, a, id);
    case Rollback(_) => OwnDeleteKeepsId(s, a, id);
    case Publish(_) => OwnEndKeepsId(s, a, id);
    case Drop(_) => OwnEndKeepsId(s, a, id);
  }

  /** A dispatcher's step leaves an id that is not in its batch where it is. */
  lemma OtherStepLeaves(s: State, a: Action, id: Id)
    requires Enabled(s, a) && !a.Schedule? && !a.Cancel?
    requires a.dispatcher in s.phases ==> Distinct(s.phases[a.dispatcher].batch) && id !in BatchIds(s, a.dispatcher)
    ensures var s' := Step(s, a);
            && (id in s'.table <==> id in s.table) && |Holders(s', id)| == |Holders(s, id)|
            && s'.scheduled[id] == s.scheduled[id] && s'.published[id] == s.published[id]
            && s'.done[id] == s.done[id] && s'.failed[id] == s.failed[id]
            && s'.withdrawn[id] == s.withdrawn[id] && s'.lost[id] == s.lost[id]
  {
    var d := a.dispatcher;
    HoldersChange(s, Step(s, a), d, id);
    if d in s.phases {
      var batch := s.phases[d].batch;
      CountIds(batch, id);
      if a.PublishFails? { LandedIsPartOfBatch(IdsOf(batch), a.sends); }
      if a.Requeue? { UpsertTouchesOnlyBatch(s.table, batch); }
    }
  }

  lemma OtherStepKeepsId(s: State, a: Action, id: Id)
    requires Inv(s) && Enabled(s, a) && !a.Schedule? && !a.Cancel?
    requires a.dispatcher in s.phases ==> id !in BatchIds(s, a.dispatcher)
    ensures IdOk(Step(s, a), id)
  {
    assert IdOk(s, id);
    if a.dispatcher in s.phases { assert PhaseOk(s, a.dispatcher); }
    OtherStepLeaves(s, a, id);
  }

  lemma StepKeepsId(s: State, a: Action, id: Id)
    requires Inv(s)
    ensures IdOk(Step(s, a), id)
  {
    assert IdOk(s, id);
    if !Enabled(s, a) { return; }
    if a.Schedule? || a.Cancel? {
      TableStepKeepsId(s, a, id);
    } else if a.dispatcher in s.phases && id in BatchIds(s, a.dispatcher) {
      OwnStepKeepsId(s, a, id);
    } else {
      OtherStepKeepsId(s, a, id);
    }
  }

  lemma {:induction false} AfterInv(t: Trace<Action>)
    ensures Inv(After(t))
  {
    if t.Start? {
    } else {
      AfterInv(t.before);
      StepKeepsPhases(After(t.before), t.action);
      forall id ensures IdOk(After(t), id) { StepKeepsId(After(t.before), t.action, id); }
    }
  }

  // ------------------------------------------------------------------------- the theorems

  lemma SubsetSize<T>(a: set<T>, b: set<T>)
    requires a <= b
    ensures |a| <= |b|
  {
    if a != b { StrictSubsetSmaller(a, b); }
  }

  lemma CopyPerHolding(s: State, d: nat, e: nat, id: Id)
    requires Inv(s) && d in s.phases && e in s.phases && d != e && id in BatchIds(s, d)
    requires s.scheduled[id] <= 1 || (s.phases[d].Claiming? && s.phases[e].Claiming?)
    ensures id !in BatchIds(s, e)
    ensures s.scheduled[id] <= 1 && !s.phases[d].Claiming? ==> id !in s.table
  {
    assert IdOk(s, id) && LocksApart(s, d, e);
    var ours := (if HeldBy(s, d, id) then {d} else {}) + (if HeldBy(s, e, id) then {e} else {});
    assert ours <= Holders(s, id);
    SubsetSize(ours, Holders(s, id));
    if LockedBy(s, d, id) { LockedInTable(s, d, id); }
    if LockedBy(s, e, id) { LockedInTable(s, e, id); }
  }

  /** Row locks keep two claims apart. An id that was scheduled once is at no moment with two
      dispatchers, nor with one that deleted it and in the table. */
  lemma HoldingsAreDisjoint(t: Trace<Action>, d: nat, e: nat, id: Id)
    requires d in After(t).phases && e in After(t).phases && d != e
    requires After(t).scheduled[id] <= 1 || (After(t).phases[d].Claiming? && After(t).phases[e].Claiming?)
    ensures !(id in BatchIds(After(t), d) && id in BatchIds(After(t), e))
    ensures After(t).scheduled[id] <= 1 && !After(t).phases[d].Claiming? ==>
              !(id in BatchIds(After(t), d) && id in After(t).table)
  {
    AfterInv(t);
    if id in BatchIds(After(t), d) { CopyPerHolding(After(t), d, e, id); }
  }

  /** Conservation: an id was scheduled exactly if it is in the table, with a dispatcher,
      withdrawn by a cancel, lost by a failed re-enqueue or crash, or published. */
  lemma ScheduledIdIsSomewhere(t: Trace<Action>, id: Id)
    ensures var s := After(t);
            s.scheduled[id] >= 1 <==>
            id in s.table || Holders(s, id) != {} || s.withdrawn[id] > 0 || s.lost[id] > 0 || s.done[id] > 0
  {
    AfterInv(t);
    assert IdOk(After(t), id);
  }

  /** However often the schedule event of an id is consumed: it is published at most once for
      each scheduling and once more for each failed publish, less the copies still waiting,
      withdrawn or lost. */
  lemma PublicationBound(t: Trace<Action>, id: Id)
    ensures var s := After(t);
            s.published[id] + One(id in s.table) + |Holders(s, id)| + s.withdrawn[id] + s.lost[id]
            <= s.scheduled[id] + s.failed[id]
  {
    AfterInv(t);
    assert IdOk(After(t), id);
  }

  /** Exactly once: an id that was scheduled once and that no failed publish was part of is
      published once if it is settled, and not at all while it waits or after it was
      withdrawn or lost. */
  lemma PublishedExactlyOnce(t: Trace<Action>, id: Id)
    requires After(t).scheduled[id] == 1
    ensures var s := After(t);
            var settled := id !in s.table && Holders(s, id) == {} && s.withdrawn[id] == 0 && s.lost[id] == 0;
            && (s.failed[id] == 0 ==> s.published[id] == if settled then 1 else 0)
            && (settled ==> s.published[id] >= 1)
  {
    AfterInv(t);
    assert IdOk(After(t), id);
  }

  lemma OneRowScheduled(s: State, e: Entry)
    requires s.table == map[] && forall d | d in s.phases :: !s.phases[d].Claiming?
    ensures Step(s, Schedule([e])).table == map[e.id := e.row]
    ensures Step(s, Schedule([e])).phases == s.phases
  {
    assert forall d, id :: !LockedBy(s, d, id);
    assert Upserted(map[], [e][..0]) == map[];
  }

  lemma OneRowClaimed(s: State, d: nat, e: Entry)
    requires s.table == map[e.id := e.row] && d !in s.phases
    requires forall d | d in s.phases :: !s.phases[d].Claiming?
    ensures var s' := Step(Step(s, Claim(d, e.row.at, 1, [e])), Delete(d));
            s'.table == map[] && s'.phases == s.phases[d := Publishing([e])]
  {
    assert forall d, id :: !LockedBy(s, d, id);
    assert [e][0].id in Ids([e]);
    var claimed := Step(s, Claim(d, e.row.at, 1, [e]));
    assert claimed.phases == s.phases[d := Claiming([e])];
  }

  /** A redelivered schedule event breaks both: the row is claimed again while its first
      publication is under way, and two dispatchers hold it. */
  lemma RescheduledIsHeldTwice(id: Id, row: Row)
    ensures var e := [Entry(id, row)];
            var once := Then(Then(Then(Start, Schedule(e)), Claim(0, row.at, 1, e)), Delete(0));
            var twice := Then(Then(Then(once, Schedule(e)), Claim(1, row.at, 1, e)), Delete(1));
            After(twice).phases == map[0 := Publishing(e), 1 := Publishing(e)]
  {
    var e := [Entry(id, row)];
    var t1 := Then(Start, Schedule(e));
    var t3 := Then(Then(t1, Claim(0, row.at, 1, e)), Delete(0));
    var t4 := Then(t3, Schedule(e));
    OneRowScheduled(INITIAL, e[0]);
    assert After(t1).table == map[id := row] && After(t1).phases == map[];
    OneRowClaimed(After(t1), 0, e[0]);
    assert After(t3).table == map[] && After(t3).phases == map[0 := Publishing(e)];
    OneRowScheduled(After(t3), e[0]);
    assert After(t4).table == map[id := row] && After(t4).phases == map[0 := Publishing(e)];
    OneRowClaimed(After(t4), 1, e[0]);
  }

  /** A continuation in which the schedule event of the id is not consumed again publishes
      the id. */
  ghost predicate PublishedAgain(longer: Trace<Action>, t: Trace<Action>, id: Id) {
    && Extends(longer, t) && After(longer).published[id] > After(t).published[id]
    && After(longer).scheduled[id] == After(t).scheduled[id]
  }

  ghost predicate CanBePublished(t: Trace<Action>, id: Id) {
    exists longer :: PublishedAgain(longer, t, id)
  }

  /** The id is neither in the table nor with a dispatcher. */
  ghost predicate Gone(s: State, id: Id) {
    id !in s.table && Holders(s, id) == {}
  }

  lemma GoneIsInNoBatch(s: State, d: nat, id: Id)
    requires Inv(s) && Gone(s, id) && d in s.phases
    ensures id !in BatchIds(s, d) && Distinct(s.phases[d].batch)
  {
    assert PhaseOk(s, d);
    assert d !in Holders(s, id);
    if LockedBy(s, d, id) { LockedInTable(s, d, id); }
  }

  lemma DispatcherKeepsGone(s: State, a: Action, id: Id)
    requires Inv(s) && Gone(s, id) && Enabled(s, a) && !a.Schedule? && !a.Cancel?
    ensures Gone(Step(s, a), id) && Step(s, a).published[id] == s.published[id]
  {
    if a.dispatcher in s.phases { GoneIsInNoBatch(s, a.dispatcher, id); }
    OtherStepLeaves(s, a, id);
  }

  lemma StepKeepsGone(s: State, a: Action, id: Id)
    requires Inv(s) && Gone(s, id)
    ensures Step(s, a).scheduled[id] >= s.scheduled[id]
    ensures Step(s, a).scheduled[id] == s.scheduled[id] ==>
              Gone(Step(s, a), id) && Step(s, a).published[id] == s.published[id]
  {
    var s' := Step(s, a);
    if !Enabled(s, a) { return; }
    if a.Schedule? {
      UpsertTouchesOnlyBatch(s.table, a.entries);
      CountIds(a.entries, id);
      SameHolders(s, s', id);
    } else if a.Cancel? {
      SameHolders(s, s', id);
    } else {
      DispatcherKeepsGone(s, a, id);
    }
  }

  lemma SchedulingsGrow(s: State, a: Action, id: Id)
    ensures Step(s, a).scheduled[id] >= s.scheduled[id]
  {
  }

  lemma {:induction false} GoneStays(longer: Trace<Action>, t: Trace<Action>, id: Id)
    requires Extends(longer, t) && Gone(After(t), id)
    ensures After(longer).scheduled[id] >= After(t).scheduled[id]
    ensures After(longer).scheduled[id] == After(t).scheduled[id] ==>
              Gone(After(longer), id) && After(longer).published[id] == After(t).published[id]
  {
    if longer == t {
    } else {
      GoneStays(longer.before, t, id);
      AfterInv(longer.before);
      SchedulingsGrow(After(longer.before), longer.action, id);
      if After(longer.before).scheduled[id] == After(t).scheduled[id] {
        StepKeepsGone(After(longer.before), longer.action, id);
      }
    }
  }

  // ----------------------------------------------------------- when a cancel comes in time

  lemma DistinctAppend(batch: seq<Entry>, e: Entry)
    requires Distinct(batch) && e.id !in Ids(batch)
    ensures Distinct(batch + [e])
  {
  }

  /** Every row that is due and unlocked can be claimed at once, given a large enough limit. */
  lemma {:induction false} ClaimOf(table: Table, pool: set<Id>) returns (batch: seq<Entry>)
    requires pool <= table.Keys
    ensures Distinct(batch) && Ids(batch) == pool
    ensures forall k | 0 <= k < |batch| :: batch[k].id in table && batch[k].row == table[batch[k].id]
    decreases |pool|
  {
    if pool == {} {
      batch := [];
    } else {
      var id :| id in pool;
      var rest := ClaimOf(table, pool - {id});
      var e := Entry(id, table[id]);
      batch := rest + [e];
      IdsAppend(rest, e);
      DistinctAppend(rest, e);
      forall k | 0 <= k < |batch|
        ensures batch[k].id in table && batch[k].row == table[batch[k].id]
      {
        assert k < |rest| ==> batch[k] == rest[k];
      }
    }
  }

  /** There is a claim that takes a given unlocked row. */
  lemma ClaimWith(s: State, id: Id) returns (now: int, batch: seq<Entry>)
    requires id in s.table && !IsLocked(s, id)
    ensures IsClaim(s.table, now, |batch|, LockedIds(s), batch) && id in Ids(batch)
  {
    now := s.table[id].at;
    var pool := set x | x in s.table && s.table[x].at <= now && x !in LockedIds(s);
    batch := ClaimOf(s.table, pool);
    forall k | 0 <= k < |batch|
      ensures batch[k].id !in LockedIds(s) && Due(s.table, batch[k].id, now)
    {
      assert batch[k].id in Ids(batch);
    }
  }

  lemma ThreeSteps(t: Trace<Action>, a: Action, b: Action, c: Action) returns (longer: Trace<Action>)
    ensures Extends(longer, t) && After(longer) == Step(Step(Step(After(t), a), b), c)
  {
    longer := Then(Then(Then(t, a), b), c);
    assert After(Then(t, a)) == Step(After(t), a);
    assert After(Then(Then(t, a), b)) == Step(Step(After(t), a), b);
    assert Extends(Then(t, a), t);
    assert Extends(Then(Then(t, a), b), t);
  }

  /** An undisturbed round of a dispatcher: claim, delete, publish. */
  lemma RoundPublishes(s: State, d: nat, now: int, batch: seq<Entry>)
    requires d !in s.phases && IsClaim(s.table, now, |batch|, LockedIds(s), batch)
    ensures var s' := Step(Step(Step(s, Claim(d, now, |batch|, batch)), Delete(d)), Publish(d));
            && s'.published == s.published + multiset(IdsOf(batch)) && s'.scheduled == s.scheduled
            && s'.table == s.table - Ids(batch)
  {
    var claimed := Step(s, Claim(d, now, |batch|, batch));
    assert claimed == s.(phases := s.phases[d := Claiming(batch)]);
    var deleted := Step(claimed, Delete(d));
    assert deleted == claimed.(table := s.table - Ids(batch), phases := claimed.phases[d := Publishing(batch)]);
  }

  /** A row in the table that nobody has locked can be claimed, deleted and published. */
  lemma TableRowCanBePublished(t: Trace<Action>, id: Id)
    requires id in After(t).table && !IsLocked(After(t), id)
    ensures CanBePublished(t, id)
  {
    var s := After(t);
    var now, batch := ClaimWith(s, id);
    var d := FreshNat(s.phases.Keys);
    RoundPublishes(s, d, now, batch);
    CountIds(batch, id);
    var longer := ThreeSteps(t, Claim(d, now, |batch|, batch), Delete(d), Publish(d));
    assert PublishedAgain(longer, t, id);
  }

  lemma LaterIsLaterStill(longer: Trace<Action>, mid: Trace<Action>, t: Trace<Action>)
    requires Extends(longer, mid) && Extends(mid, t)
    ensures Extends(longer, t)
  {
    if longer == mid {
    } else {
      LaterIsLaterStill(longer.before, mid, t);
    }
  }

  lemma LaterPublished(mid: Trace<Action>, t: Trace<Action>, id: Id)
    requires Extends(mid, t) && CanBePublished(mid, id)
    requires After(mid).published == After(t).published && After(mid).scheduled == After(t).scheduled
    ensures CanBePublished(t, id)
  {
    var longer :| PublishedAgain(longer, mid, id);
    LaterIsLaterStill(longer, mid, t);
    assert PublishedAgain(longer, t, id);
  }

  lemma PublishingCanBePublished(t: Trace<Action>, d: nat, id: Id)
    requires HeldBy(After(t), d, id) && After(t).phases[d].Publishing?
    ensures CanBePublished(t, id)
  {
    var s := After(t);
    AfterInv(t);
    assert PhaseOk(s, d);
    CountIds(s.phases[d].batch, id);
    var longer := Then(t, Publish(d));
    assert Extends(longer, t);
    assert After(longer) == Step(s, Publish(d));
    assert PublishedAgain(longer, t, id);
  }

  /** Every claim can be rolled back, which gives up all locks and nothing else. */
  lemma {:induction false} ReleaseLocks(t: Trace<Action>, claiming: set<nat>) returns (mid: Trace<Action>)
    requires forall d :: d in claiming <==> d in After(t).phases && After(t).phases[d].Claiming?
    ensures Extends(mid, t) && forall id :: !IsLocked(After(mid), id)
    ensures var s, s' := After(t), After(mid);
            && s'.table == s.table && s'.published == s.published && s'.scheduled == s.scheduled
            && forall d | d in s.phases && !s.phases[d].Claiming? :: d in s'.phases && s'.phases[d] == s.phases[d]
    decreases |claiming|
  {
    if claiming == {} {
      mid := t;
    } else {
      var d :| d in claiming;
      var next := Then(t, Rollback(d));
      mid := ReleaseLocks(next, claiming - {d});
      assert Extends(next, t);
      LaterIsLaterStill(mid, next, t);
    }
  }

  lemma RequeueFrees(s: State, d: nat, id: Id)
    requires HeldBy(s, d, id) && s.phases[d].Broken? && forall x :: !IsLocked(s, x)
    ensures var s' := Step(s, Requeue(d));
            && id in s'.table && !IsLocked(s', id)
            && s'.published == s.published && s'.scheduled == s.scheduled
  {
    UpsertTouchesOnlyBatch(s.table, s.phases[d].batch);
    assert forall e :: LockedBy(Step(s, Requeue(d)), e, id) ==> LockedBy(s, e, id);
  }

  lemma BrokenCanBePublished(t: Trace<Action>, d: nat, id: Id)
    requires HeldBy(After(t), d, id) && After(t).phases[d].Broken?
    ensures CanBePublished(t, id)
  {
    var claiming := set e | e in After(t).phases && After(t).phases[e].Claiming?;
    var mid := ReleaseLocks(t, claiming);
    var back := Then(mid, Requeue(d));
    RequeueFrees(After(mid), d, id);
    assert Extends(back, mid) && After(back) == Step(After(mid), Requeue(d));
    TableRowCanBePublished(back, id);
    LaterIsLaterStill(back, mid, t);
    LaterPublished(back, t, id);
  }

  /** A batch a dispatcher holds can still be published, even after a failed publish. */
  lemma HeldCanBePublished(t: Trace<Action>, id: Id)
    requires Holders(After(t), id) != {}
    ensures CanBePublished(t, id)
  {
    var d :| d in Holders(After(t), id);
    if After(t).phases[d].Publishing? {
      PublishingCanBePublished(t, d, id);
    } else {
      BrokenCanBePublished(t, d, id);
    }
  }

  /** A cancel is the last word exactly when no dispatcher holds the row at that moment and
      no schedule event of the id is consumed afterwards: with a holder there is a
      continuation that publishes the id although no schedule event follows. */
  lemma CancelFinalIff(t: Trace<Action>, id: Id)
    requires Enabled(After(t), Cancel(id))
    ensures CanBePublished(Then(t, Cancel(id)), id) <==> Holders(After(t), id) != {}
  {
    var s := After(t);
    var cancelled := Then(t, Cancel(id));
    SameHolders(s, After(cancelled), id);
    if Holders(s, id) != {} {
      HeldCanBePublished(cancelled, id);
    } else if CanBePublished(cancelled, id) {
      var longer :| PublishedAgain(longer, cancelled, id);
      GoneStays(longer, cancelled, id);
      assert false;
    }
  }

  /** One more delivery of the schedule event, and a cancelled id can be published. */
  lemma RescheduleUndoesCancel(t: Trace<Action>, id: Id, row: Row)
    requires Enabled(After(t), Cancel(id))
    ensures var again := Then(Then(t, Cancel(id)), Schedule([Entry(id, row)]));
            && CanBePublished(again, id)
            && After(again).scheduled[id] == After(t).scheduled[id] + 1
            && After(again).published == After(t).published
  {
    var cancelled := Then(t, Cancel(id));
    var entries := [Entry(id, row)];
    var again := Then(cancelled, Schedule(entries));
    var s := After(cancelled);
    assert s == Step(After(t), Cancel(id));
    assert Ids(entries) == {id} by { assert entries[0].id == id; }
    assert forall d :: LockedBy(s, d, id) ==> LockedBy(After(t), d, id);
    UpsertTouchesOnlyBatch(s.table, entries);
    CountIds(entries, id);
    assert After(again) == Step(s, Schedule(entries));
    assert !IsLocked(After(again), id) by {
      assert forall d :: LockedBy(After(again), d, id) ==> LockedBy(s, d, id);
    }
    TableRowCanBePublished(again, id);
  }

  lemma {:induction false} SchedulingsOnlyGrow(longer: Trace<Action>, t: Trace<Action>, id: Id)
    requires Extends(longer, t)
    ensures After(longer).scheduled[id] >= After(t).scheduled[id]
  {
    if longer == t {
    } else {
      SchedulingsOnlyGrow(longer.before, t, id);
      SchedulingsGrow(After(longer.before), longer.action, id);
    }
  }

  /** In particular: a cancel applied while an id that is scheduled once is in the table. */
  lemma CancelInTableIsFinal(t: Trace<Action>, id: Id, longer: Trace<Action>)
    requires id in After(t).table && Enabled(After(t), Cancel(id)) && Extends(longer, Then(t, Cancel(id)))
    requires After(longer).scheduled[id] == 1
    ensures After(longer).published[id] == After(t).published[id]
    ensures id !in After(longer).table && Holders(After(longer), id) == {}
  {
    var s := After(t);
    var cancelled := Then(t, Cancel(id));
    AfterInv(t);
    assert IdOk(s, id);
    SameHolders(s, After(cancelled), id);
    SchedulingsOnlyGrow(longer, cancelled, id);
    GoneStays(longer, cancelled, id);
  }

  // ------------------------------------------------------------- what failed publishes leave

  lemma LandedCounts(batch: seq<Entry>, sends: nat -> SendReply, k: nat)
    requires Distinct(batch) && k < |batch|
    ensures multiset(Landed(IdsOf(batch), sends))[batch[k].id] == if Reaches(sends, k) then 1 else 0
  {
    LandedAt(IdsOf(batch), sends, k);
  }

  /** A failed publish counts id number k of the batch as published exactly when its send
      reached the stream. */
  lemma FailedPublishCounts(s: State, d: nat, sends: nat -> SendReply, k: nat)
    requires d in s.phases && s.phases[d].Publishing? && Distinct(s.phases[d].batch) && k < |s.phases[d].batch|
    ensures var id := s.phases[d].batch[k].id;
            var s' := Step(s, PublishFails(d, sends));
            && s'.published[id] == s.published[id] + (if Reaches(sends, k) then 1 else 0)
            && s'.failed[id] == s.failed[id] + 1
  {
    var batch := s.phases[d].batch;
    LandedCounts(batch, sends, k);
    CountIds(batch, batch[k].id);
  }

  lemma ClaimedUnlocked(s: State, d: nat, now: int, limit: nat, batch: seq<Entry>)
    requires d !in s.phases && IsClaim(s.table, now, limit, LockedIds(s), batch)
    ensures var s' := Step(Step(s, Claim(d, now, limit, batch)), Delete(d));
            && s' == s.(table := s.table - Ids(batch), phases := s.phases[d := Publishing(batch)])
            && !AnyLocked(s', Ids(batch))
  {
    var claimed := Step(s, Claim(d, now, limit, batch));
    assert claimed == s.(phases := s.phases[d := Claiming(batch)]);
    var s' := Step(claimed, Delete(d));
    forall id | id in Ids(batch) ensures !IsLocked(s', id) {
      ClaimedIdsKnown(s.table, now, limit, LockedIds(s), batch, id);
      assert forall e :: LockedBy(s', e, id) ==> LockedBy(s, e, id);
    }
  }

  lemma FailureKeepsLocks(s: State, d: nat, sends: nat -> SendReply, ids: set<Id>)
    requires d in s.phases && s.phases[d].Publishing? && !AnyLocked(s, ids)
    ensures !AnyLocked(Step(s, PublishFails(d, sends)), ids)
  {
    var broken := Step(s, PublishFails(d, sends));
    forall id | id in ids ensures !IsLocked(broken, id) {
      assert forall e :: LockedBy(broken, e, id) ==> LockedBy(s, e, id);
    }
  }

  lemma AfterFailure(s: State, d: nat, sends: nat -> SendReply)
    requires d in s.phases && s.phases[d].Publishing?
    ensures var batch := s.phases[d].batch;
            Step(s, PublishFails(d, sends))
            == s.(phases := s.phases[d := Broken(batch)], failed := s.failed + Counts(batch),
                  published := s.published + multiset(Landed(IdsOf(batch), sends)))
  {
  }

  /** What either continuation makes of a failed publish. */
  lemma BrokenEnds(s: State, d: nat)
    requires d in s.phases && s.phases[d].Broken? && !AnyLocked(s, BatchIds(s, d))
    ensures var batch := s.phases[d].batch;
            && Step(s, Requeue(d)) == s.(table := Upserted(s.table, batch), phases := s.phases - {d})
            && Step(s, Drop(d)) == s.(lost := s.lost + Counts(batch), phases := s.phases - {d})
  {
  }

  /** An undisturbed round whose publish fails leaves the table and the stream that
      Dispatcher.RunRound promises, whether the batch can be put back or is lost. */
  lemma FailedRoundIsRunRound(s: State, d: nat, now: int, limit: nat, batch: seq<Entry>, sends: nat -> SendReply)
    requires d !in s.phases && IsClaim(s.table, now, limit, LockedIds(s), batch)
    ensures var broken := Step(Step(Step(s, Claim(d, now, limit, batch)), Delete(d)), PublishFails(d, sends));
            var requeued, dropped := Step(broken, Requeue(d)), Step(broken, Drop(d));
            && requeued.table == AfterRound(s.table, batch, Some(Requeued))
            && dropped.table == AfterRound(s.table, batch, Some(Lost))
            && requeued.published == dropped.published == s.published + multiset(Landed(IdsOf(batch), sends))
            && requeued.failed == dropped.failed == s.failed + Counts(batch)
            && requeued.phases == dropped.phases == s.phases && requeued.scheduled == s.scheduled
  {
    ClaimedUnlocked(s, d, now, limit, batch);
    var deleted := Step(Step(s, Claim(d, now, limit, batch)), Delete(d));
    FailureKeepsLocks(deleted, d, sends, Ids(batch));
    AfterFailure(deleted, d, sends);
    BrokenEnds(Step(deleted, PublishFails(d, sends)), d);
    assert s.phases[d := Publishing(batch)][d := Broken(batch)] - {d} == s.phases;
  }

  /** The same for a publish that succeeds. */
  lemma SuccessfulRoundIsRunRound(s: State, d: nat, now: int, limit: nat, batch: seq<Entry>)
    requires d !in s.phases && IsClaim(s.table, now, limit, LockedIds(s), batch)
    ensures var s' := Step(Step(Step(s, Claim(d, now, limit, batch)), Delete(d)), Publish(d));
            && s'.table == AfterRound(s.table, batch, None) && s'.phases == s.phases
            && s'.published == s.published + multiset(IdsOf(batch))
  {
    ClaimedUnlocked(s, d, now, limit, batch);
    assert s.phases[d := Publishing(batch)] - {d} == s.phases;
  }

  function Unheard(k: nat): SendReply { NotAcked(true) }

  /** A state in which the only row is in the table and nobody is busy. */
  ghost predicate Resting(s: State, e: Entry, n: nat) {
    && s.table == map[e.id := e.row] && s.phases == map[]
    && s.scheduled[e.id] == 1 && s.failed[e.id] == n && s.published[e.id] == n
  }

  lemma OneRowClaim(s: State, e: Entry)
    requires s.table == map[e.id := e.row] && s.phases == map[]
    ensures IsClaim(s.table, e.row.at, 1, LockedIds(s), [e])
  {
    assert forall d, id :: !LockedBy(s, d, id);
    assert [e][0].id in Ids([e]);
  }

  lemma UnheardRound(s: State, e: Entry, n: nat)
    requires Resting(s, e, n)
    ensures var broken := Step(Step(Step(s, Claim(0, e.row.at, 1, [e])), Delete(0)), PublishFails(0, Unheard));
            Resting(Step(broken, Requeue(0)), e, n + 1)
  {
    OneRowClaim(s, e);
    FailedRoundIsRunRound(s, 0, e.row.at, 1, [e], Unheard);
    ClaimThenUpsertRestores(s.table, e.row.at, 1, LockedIds(s), [e]);
    LandedCounts([e], Unheard, 0);
    CountIds([e], e.id);
    assert [e][0].id == e.id && [e][0].id in Ids([e]);
  }

  lemma {:induction false} UnheardRounds(e: Entry, n: nat) returns (t: Trace<Action>)
    ensures Resting(After(t), e, n)
  {
    if n == 0 {
      t := Then(Start, Schedule([e]));
      OneRowScheduled(INITIAL, e);
      CountIds([e], e.id);
      assert [e][0].id in Ids([e]);
      assert After(t) == Step(INITIAL, Schedule([e]));
    } else {
      var before := UnheardRounds(e, n - 1);
      UnheardRound(After(before), e, n - 1);
      var t2 := Then(Then(before, Claim(0, e.row.at, 1, [e])), Delete(0));
      t := Then(Then(t2, PublishFails(0, Unheard)), Requeue(0));
      assert After(t2) == Step(Step(After(before), Claim(0, e.row.at, 1, [e])), Delete(0));
      assert After(t) == Step(Step(After(t2), PublishFails(0, Unheard)), Requeue(0));
    }
  }

  /** The bound on publications is attained: for every n there is a run in which an id that
      is scheduled once is part of n failed publishes and is published n + 1 times. */
  lemma DuplicatesAttained(e: Entry, n: nat) returns (t: Trace<Action>)
    ensures var s := After(t);
            s.scheduled[e.id] == 1 && s.failed[e.id] == n && s.published[e.id] == n + 1
  {
    var waiting := UnheardRounds(e, n);
    var s := After(waiting);
    OneRowClaim(s, e);
    SuccessfulRoundIsRunRound(s, 0, e.row.at, 1, [e]);
    ClaimedUnlocked(s, 0, e.row.at, 1, [e]);
    CountIds([e], e.id);
    assert [e][0].id in Ids([e]);
    t := ThreeSteps(waiting, Claim(0, e.row.at, 1, [e]), Delete(0), Publish(0));
  }
}
