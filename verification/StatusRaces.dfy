/** Any number of concurrent Cancel and UpdateStatus calls, each a read and a later write. */
module StatusRaces {
  import opened NotificationStatus
  import opened NotificationService
  import opened Ports
  import opened Traces

  datatype Call = NotRead | HasRead(seen: Status)

  datatype Op = Op(id: Uuid, target: Status, call: Call)

  /** `held` is the list of statuses each row has had, oldest first. */
  datatype State = State(rows: Rows, ops: map<nat, Op>, held: map<Uuid, seq<Status>>)

  datatype Action =
    | Insert(id: Uuid)
    | Begin(op: nat, id: Uuid, target: Status)
    | Read(op: nat)
    | Write(op: nat)
    | Abandon(op: nat)

  const INITIAL := State(map[], map[], map[])

  predicate Enabled(s: State, a: Action) {
    match a
    case Insert(id) => id !in s.rows
    case Begin(op, _, target) => op !in s.ops && IsTarget(target)
    case Read(op) => op in s.ops && s.ops[op].call.NotRead?
    case Write(op) => op in s.ops && s.ops[op].call.HasRead? && s.ops[op].id in s.rows && s.ops[op].id in s.held
    case Abandon(op) => op in s.ops
  }

  function Step(s: State, a: Action): State {
    if !Enabled(s, a) then s else
    match a
    case Insert(id) => s.(rows := s.rows[id := Pending], held := s.held[id := [Pending]])
    case Begin(op, id, target) => s.(ops := s.ops[op := Op(id, target, NotRead)])
    case Read(op) =>
      var o := s.ops[op];
      var check := CheckTransition(s.rows, o.id, o.target);
      if check.Passed? then s.(ops := s.ops[op := o.(call := HasRead(check.seen))])
      else s.(ops := s.ops - {op})
    case Write(op) =>
      var o := s.ops[op];
      s.(rows := WriteStatus(s.rows, o.id, o.target),
         held := s.held[o.id := s.held[o.id] + [o.target]],
         ops := s.ops - {op})
    case Abandon(op) => s.(ops := s.ops - {op})
  }

  function After(t: Trace<Action>): State {
    match t
    case Start => INITIAL
    case Then(before, a) => Step(After(before), a)
  }

  ghost predicate LegalFromEarlier(history: seq<Status>, k: nat)
    requires k < |history|
  {
    exists j :: 0 <= j < k && Legal(history[j], history[k])
  }

  /** Every status after the first was legal from some status the row held before it. */
  ghost predicate Accounted(history: seq<Status>) {
    && |history| > 0 && history[0] == Pending
    && forall k | 0 < k < |history| :: IsTarget(history[k]) && LegalFromEarlier(history, k)
  }

  ghost predicate RowOk(s: State, id: Uuid) {
    && id in s.rows && id in s.held && Accounted(s.held[id])
    && s.held[id][|s.held[id]| - 1] == s.rows[id]
  }

  /** What an operation in flight knows: the status it read was held, and allows its target. */
  ghost predicate OpOk(s: State, o: Op) {
    && IsTarget(o.target)
    && (o.call.HasRead? ==>
          o.id in s.held && o.call.seen in s.held[o.id] && Legal(o.call.seen, o.target))
  }

  ghost predicate Inv(s: State) {
    && s.rows.Keys == s.held.Keys
    && (forall id | id in s.rows :: RowOk(s, id))
    && (forall op | op in s.ops :: OpOk(s, s.ops[op]))
  }

  lemma AppendAccounted(history: seq<Status>, seen: Status, target: Status)
    requires Accounted(history) && seen in history && Legal(seen, target) && IsTarget(target)
    ensures Accounted(history + [target])
  {
    var longer := history + [target];
    forall k | 0 < k < |longer|
      ensures IsTarget(longer[k]) && LegalFromEarlier(longer, k)
    {
      if k < |history| {
        assert LegalFromEarlier(history, k);
        var j :| 0 <= j < k && Legal(history[j], history[k]);
        assert Legal(longer[j], longer[k]);
      } else {
        var j :| 0 <= j < |history| && history[j] == seen;
        assert Legal(longer[j], longer[k]);
      }
    }
  }

  lemma StepKeepsRow(s: State, a: Action, id: Uuid)
    requires Inv(s) && id in Step(s, a).rows
    ensures RowOk(Step(s, a), id)
  {
    if id in s.rows { assert RowOk(s, id); }
    if a.Write? && Enabled(s, a) {
      var o := s.ops[a.op];
      assert OpOk(s, o) && RowOk(s, o.id);
      AppendAccounted(s.held[o.id], o.call.seen, o.target);
    }
  }

  lemma StepKeepsOp(s: State, a: Action, op: nat)
    requires Inv(s) && op in Step(s, a).ops
    ensures OpOk(Step(s, a), Step(s, a).ops[op])
  {
    if op in s.ops {
      assert OpOk(s, s.ops[op]);
      if s.ops[op].id in s.rows { assert RowOk(s, s.ops[op].id); }
    }
  }

  lemma StepKeepsInv(s: State, a: Action)
    requires Inv(s)
    ensures Inv(Step(s, a))
  {
    forall id | id in Step(s, a).rows ensures RowOk(Step(s, a), id) { StepKeepsRow(s, a, id); }
    forall op | op in Step(s, a).ops ensures OpOk(Step(s, a), Step(s, a).ops[op]) { StepKeepsOp(s, a, op); }
  }

  lemma {:induction false} AfterInv(t: Trace<Action>)
    ensures Inv(After(t))
  {
    if t.Start? {
    } else {
      AfterInv(t.before);
      StepKeepsInv(After(t.before), t.action);
    }
  }

  lemma HistoryIsLegal(s: State, id: Uuid, k: nat)
    requires Inv(s) && id in s.held && 0 < k < |s.held[id]|
    ensures var history := s.held[id];
            && history[0] == Pending && IsTarget(history[k])
            && LegalFromEarlier(history, k)
            && id in s.rows && s.rows[id] == history[|history| - 1]
  {
    assert id in s.rows && RowOk(s, id);
  }

  /** In every interleaving each status a row gets was legal from one it held earlier, and
      pending is held first and never again. */
  lemma EveryWriteWasLegalOnce(t: Trace<Action>, id: Uuid, k: nat)
    requires var held := After(t).held; id in held && 0 < k < |held[id]|
    ensures var history := After(t).held[id];
            && history[0] == Pending && IsTarget(history[k])
            && LegalFromEarlier(history, k)
            && id in After(t).rows && After(t).rows[id] == history[|history| - 1]
  {
    AfterInv(t);
    HistoryIsLegal(After(t), id, k);
  }

  /** No operation past its check is about to write another status over the row. */
  ghost predicate Decided(s: State, id: Uuid) {
    && id in s.rows && !s.rows[id].Pending?
    && forall op | op in s.ops && s.ops[op].id == id && s.ops[op].call.HasRead? :: s.ops[op].target == s.rows[id]
  }

  lemma StepKeepsDecided(s: State, a: Action, id: Uuid)
    requires Inv(s) && Decided(s, id)
    ensures Decided(Step(s, a), id) && Step(s, a).rows[id] == s.rows[id]
  {
    assert RowOk(s, id);
    forall op | op in s.ops
      ensures OpOk(s, s.ops[op])
    {}
  }

  lemma {:induction false} DecidedStays(longer: Trace<Action>, t: Trace<Action>, id: Uuid)
    requires Extends(longer, t) && Decided(After(t), id)
    ensures Decided(After(longer), id) && After(longer).rows[id] == After(t).rows[id]
  {
    if longer == t {
    } else {
      DecidedStays(longer.before, t, id);
      AfterInv(longer.before);
      StepKeepsDecided(After(longer.before), longer.action, id);
    }
  }

  ghost predicate Frozen(t: Trace<Action>, id: Uuid)
    requires id in After(t).rows
  {
    forall longer | Extends(longer, t) ::
      id in After(longer).rows && After(longer).rows[id] == After(t).rows[id]
  }

  /** Exactly the decided rows keep their status in every continuation: once the row has
      left pending and no operation that read an older status is still to write, nothing
      changes it; otherwise some continuation does. */
  lemma FrozenIffDecided(t: Trace<Action>, id: Uuid)
    requires id in After(t).rows
    ensures Frozen(t, id) <==> Decided(After(t), id)
  {
    var s := After(t);
    AfterInv(t);
    assert RowOk(s, id);
    if Decided(s, id) {
      forall longer | Extends(longer, t)
        ensures id in After(longer).rows && After(longer).rows[id] == s.rows[id]
      {
        DecidedStays(longer, t, id);
      }
    } else if !s.rows[id].Pending? {
      var op :| op in s.ops && s.ops[op].id == id && s.ops[op].call.HasRead? && s.ops[op].target != s.rows[id];
      var longer := Then(t, Write(op));
      assert Extends(longer, t);
      assert After(longer) == Step(s, Write(op));
      assert After(longer).rows[id] != s.rows[id];
    } else {
      var op := FreshNat(s.ops.Keys);
      var begun := Then(t, Begin(op, id, Cancelled));
      var read := Then(begun, Read(op));
      var longer := Then(read, Write(op));
      assert Extends(begun, t) && Extends(read, t) && Extends(longer, t);
      assert After(begun).rows == s.rows && After(begun).held == s.held;
      assert CheckTransition(s.rows, id, Cancelled) == Passed(Pending);
      assert After(read).ops[op] == Op(id, Cancelled, HasRead(Pending));
      assert After(longer).rows[id] == Cancelled;
    }
  }

  /** A read and a write with nobody in between are one call of Service.UpdateStatus. */
  lemma UndisturbedOpIsUpdateStatus(s: State, op: nat, id: Uuid, target: Status)
    requires Inv(s) && op !in s.ops && IsTarget(target)
    ensures var begun := Step(s, Begin(op, id, target));
            var s' := Step(Step(begun, Read(op)), Write(op));
            && s'.ops == s.ops
            && s'.rows == if CheckTransition(s.rows, id, target).Passed? then s.rows[id := target] else s.rows
  {
    var begun := Step(s, Begin(op, id, target));
    assert begun == s.(ops := s.ops[op := Op(id, target, NotRead)]);
    var read := Step(begun, Read(op));
    if CheckTransition(s.rows, id, target).Passed? {
      assert read.ops == s.ops[op := Op(id, target, HasRead(s.rows[id]))];
      assert Step(read, Write(op)).ops == s.ops;
    } else {
      assert read.ops == s.ops;
    }
  }

  /** Locking by the status that was read would suffice: whenever the row still has that
      status, the write is legal. In general it is exactly when the row is still pending or
      already has the target. */
  lemma WriteLegalIff(t: Trace<Action>, op: nat)
    requires var s := After(t); op in s.ops && Enabled(s, Write(op))
    ensures var s := After(t);
            var o := s.ops[op];
            && (o.call.seen == s.rows[o.id] ==> Legal(s.rows[o.id], o.target))
            && (Legal(s.rows[o.id], o.target) <==> s.rows[o.id].Pending? || s.rows[o.id] == o.target)
  {
    AfterInv(t);
    assert OpOk(After(t), After(t).ops[op]);
    TargetLegalIff(After(t).rows[After(t).ops[op].id], After(t).ops[op].target);
  }

  /** A cancel and a delivery report have both read pending. */
  function Racing(id: Uuid): Trace<Action> {
    Then(Then(Then(Then(Then(Start, Insert(id)), Begin(0, id, Cancelled)), Read(0)), Begin(1, id, Delivered)), Read(1))
  }

  lemma BothHaveRead(id: Uuid)
    ensures After(Racing(id)) == State(map[id := Pending], map[0 := Op(id, Cancelled, HasRead(Pending)),
                                                               1 := Op(id, Delivered, HasRead(Pending))],
                                       map[id := [Pending]])
  {
    var t1 := Then(Start, Insert(id));
    var t2 := Then(t1, Begin(0, id, Cancelled));
    var t3 := Then(t2, Read(0));
    var t4 := Then(t3, Begin(1, id, Delivered));
    var rows, held := map[id := Pending], map[id := [Pending]];
    var cancel := Op(id, Cancelled, HasRead(Pending));
    assert After(t1) == State(rows, map[], held);
    assert After(t2) == State(rows, map[0 := Op(id, Cancelled, NotRead)], held);
    assert After(t3) == State(rows, map[0 := cancel], held);
    assert After(t4) == State(rows, map[0 := cancel, 1 := Op(id, Delivered, NotRead)], held);
  }

  /** There is no optimistic locking: a cancel that read pending overwrites a delivery that
      was recorded in between. */
  lemma DeliveredCanBecomeCancelled(id: Uuid)
    ensures var t := Then(Then(Racing(id), Write(1)), Write(0));
            && After(t).held == map[id := [Pending, Delivered, Cancelled]]
            && After(t).rows == map[id := Cancelled] && !Legal(Delivered, Cancelled)
  {
    BothHaveRead(id);
    var s6 := Step(After(Racing(id)), Write(1));
    assert s6.held[id] == [Pending, Delivered];
    assert s6 == State(map[id := Delivered], map[0 := Op(id, Cancelled, HasRead(Pending))],
                       map[id := [Pending, Delivered]]);
    var s7 := Step(s6, Write(0));
    assert s7.held[id] == [Pending, Delivered, Cancelled];
    assert s7.held == map[id := [Pending, Delivered, Cancelled]];
    assert After(Then(Then(Racing(id), Write(1)), Write(0))) == s7;
  }
}
