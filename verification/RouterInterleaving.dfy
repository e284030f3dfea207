/** Many workers in PriorityRouter.Next at once, with producers and closes in between. One
    action is one atomic operation: the ticket draw, or one channel receive. */
module RouterInterleaving {
  import opened Ports
  import opened Router
  import opened Traces

  datatype Phase = Drawn | Scanning(next: nat) | Parked

  datatype Call = Call(ticket: nat, phase: Phase)

  /** `pending` has the tickets whose scheduled receive is still to come, `missed` those
      whose scheduled receive found the source empty, `took` the source each successful
      ticket got its value from, `gaveUp` the tickets whose call returned false. */
  datatype State<T> = State(slots: seq<nat>, start: nat, cursor: nat, sources: seq<Channel<T>>,
                            calls: map<nat, Call>, sent: seq<seq<T>>, received: seq<seq<T>>,
                            pending: set<nat>, missed: set<nat>, took: map<nat, nat>, gaveUp: set<nat>)

  datatype Action<T> =
    | Produce(source: nat, value: T)
    | Close(source: nat)
    | Draw(worker: nat)
    | ReceiveScheduled(worker: nat)
    | ScanNext(worker: nat)
    | Wake(worker: nat)
    | GiveUp(worker: nat)

  /** A router with `n` open, empty sources whose counter stands at `start`. */
  function Initial<T>(slots: seq<nat>, n: nat, start: nat): State<T> {
    State(slots, start, start, seq(n, _ => Channel([], false)), map[],
          seq(n, _ => []), seq(n, _ => []), {}, {}, map[], {})
  }

  predicate InPhase<T>(s: State<T>, w: nat, phase: Phase) {
    w in s.calls && s.calls[w].phase == phase
  }

  predicate Enabled<T>(s: State<T>, a: Action<T>)
    requires |s.sources| > 0
  {
    match a
    case Produce(i, _) => i < |s.sources| && !s.sources[i].closed
    case Close(i) => i < |s.sources| && !s.sources[i].closed
    case Draw(w) => w !in s.calls && s.cursor < MAX_INT64
    case ReceiveScheduled(w) => InPhase(s, w, Drawn)
    case ScanNext(w) => w in s.calls && s.calls[w].phase.Scanning?
    case Wake(w) => InPhase(s, w, Parked) && (s.sources[0].buffer != [] || s.sources[0].closed)
    case GiveUp(w) => InPhase(s, w, Parked)
  }

  ghost predicate Shape<T>(s: State<T>) {
    && |s.slots| > 0 && |s.sources| > 0
    && |s.sent| == |s.sources| && |s.received| == |s.sources|
    && (forall k | 0 <= k < |s.slots| :: s.slots[k] < |s.sources|)
    && (forall w | w in s.calls && s.calls[w].phase.Scanning? :: s.calls[w].phase.next < |s.sources|)
  }

  /** The call of worker w receives the head of source i and returns it. */
  ghost function Take<T>(s: State<T>, w: nat, i: nat): State<T>
    requires Shape(s) && w in s.calls && i < |s.sources| && s.sources[i].buffer != []
  {
    var buffer := s.sources[i].buffer;
    s.(sources := s.sources[i := s.sources[i].(buffer := buffer[1..])],
       received := s.received[i := s.received[i] + [buffer[0]]],
       took := s.took[s.calls[w].ticket := i],
       calls := s.calls - {w})
  }

  ghost function Step<T>(s: State<T>, a: Action<T>): (s': State<T>)
    requires Shape(s)
    ensures Shape(s') && s'.slots == s.slots && s'.start == s.start && |s'.sources| == |s.sources|
  {
    if !Enabled(s, a) then s else
    match a
    case Produce(i, v) =>
      s.(sources := s.sources[i := s.sources[i].(buffer := s.sources[i].buffer + [v])],
         sent := s.sent[i := s.sent[i] + [v]])
    case Close(i) => s.(sources := s.sources[i := s.sources[i].(closed := true)])
    case Draw(w) =>
      s.(cursor := s.cursor + 1, calls := s.calls[w := Call(s.cursor + 1, Drawn)],
         pending := s.pending + {s.cursor + 1})
    case ReceiveScheduled(w) =>
      var ticket := s.calls[w].ticket;
      var i := SlotOf(s.slots, ticket);
      var done := s.(pending := s.pending - {ticket});
      if s.sources[i].buffer != [] then Take(done, w, i)
      else done.(missed := s.missed + {ticket}, calls := s.calls[w := Call(ticket, Scanning(0))])
    case ScanNext(w) =>
      var i := s.calls[w].phase.next;
      if s.sources[i].buffer != [] then Take(s, w, i)
      else
        var phase := if i + 1 < |s.sources| then Scanning(i + 1) else Parked;
        s.(calls := s.calls[w := Call(s.calls[w].ticket, phase)])
    case Wake(w) =>
      if s.sources[0].buffer != [] then Take(s, w, 0)
      else s.(calls := s.calls - {w}, gaveUp := s.gaveUp + {s.calls[w].ticket})
    case GiveUp(w) => s.(calls := s.calls - {w}, gaveUp := s.gaveUp + {s.calls[w].ticket})
  }

  /** Tickets lo .. lo + n - 1 that got their value from source i. */
  function Taken(took: map<nat, nat>, lo: nat, n: nat, i: nat): nat {
    if n == 0 then 0
    else Taken(took, lo, n - 1, i) + (if lo + n - 1 in took && took[lo + n - 1] == i then 1 else 0)
  }

  ghost predicate TicketsOk<T>(s: State<T>) {
    && s.start <= s.cursor
    && (forall w | w in s.calls :: && s.start < s.calls[w].ticket <= s.cursor
                                   && s.calls[w].ticket !in s.took && s.calls[w].ticket !in s.gaveUp)
    && (forall v, w | v in s.calls && w in s.calls && v != w :: s.calls[v].ticket != s.calls[w].ticket)
    && (forall k | k in s.took :: s.start < k <= s.cursor && k !in s.gaveUp)
    && (forall k | k in s.gaveUp :: s.start < k <= s.cursor)
    && (forall k | k in s.pending :: k <= s.cursor)
    && (forall w | w in s.calls && s.calls[w].phase.Drawn? :: s.calls[w].ticket !in s.missed)
    && (forall k | k in s.missed :: k <= s.cursor && k !in s.pending)
  }

  ghost predicate ServedBySlot<T>(s: State<T>, k: nat)
    requires |s.slots| > 0
  {
    k in s.pending || k in s.missed || (k in s.took && s.took[k] == SlotOf(s.slots, k))
  }

  ghost predicate Conserved<T>(s: State<T>, i: nat)
    requires Shape(s) && i < |s.sources|
  {
    s.received[i] + s.sources[i].buffer == s.sent[i]
  }

  ghost predicate Counted<T>(s: State<T>, i: nat)
    requires Shape(s) && i < |s.sources| && s.start <= s.cursor
  {
    |s.received[i]| == Taken(s.took, s.start + 1, s.cursor - s.start, i)
  }

  ghost predicate Inv<T>(s: State<T>) {
    && Shape(s) && TicketsOk(s)
    && (forall k | s.start < k <= s.cursor :: ServedBySlot(s, k))
    && (forall i | 0 <= i < |s.sources| :: Conserved(s, i))
    && (forall i | 0 <= i < |s.sources| :: Counted(s, i))
  }

  // ------------------------------------------------------------------- counting tickets

  lemma {:induction false} TakenIgnoresLater(took: map<nat, nat>, lo: nat, n: nat, k: nat, j: nat, i: nat)
    requires k >= lo + n
    ensures Taken(took[k := j], lo, n, i) == Taken(took, lo, n, i)
  {
    if n == 0 {
    } else {
      TakenIgnoresLater(took, lo, n - 1, k, j, i);
    }
  }

  lemma {:induction false} TakenUpdate(took: map<nat, nat>, lo: nat, n: nat, k: nat, j: nat, i: nat)
    requires lo <= k < lo + n && k !in took
    ensures Taken(took[k := j], lo, n, i) == Taken(took, lo, n, i) + (if i == j then 1 else 0)
  {
    if k == lo + n - 1 { TakenIgnoresLater(took, lo, n - 1, k, j, i); }
    else { TakenUpdate(took, lo, n - 1, k, j, i); }
  }

  lemma {:induction false} TakenSplit(took: map<nat, nat>, lo: nat, m: nat, n: nat, i: nat)
    ensures Taken(took, lo, m + n, i) == Taken(took, lo, m, i) + Taken(took, lo + m, n, i)
    decreases n
  {
    if n == 0 {
    } else {
      TakenSplit(took, lo, m, n - 1, i);
    }
  }

  lemma {:induction false} TakenMonotone(took: map<nat, nat>, took': map<nat, nat>, lo: nat, n: nat, i: nat)
    requires forall k | k in took :: k in took' && took'[k] == took[k]
    ensures Taken(took, lo, n, i) <= Taken(took', lo, n, i)
  {
    if n == 0 {
    } else {
      TakenMonotone(took, took', lo, n - 1, i);
    }
  }

  lemma {:induction false} TakenCoversScheduled(slots: seq<nat>, took: map<nat, nat>, lo: nat, n: nat, i: nat)
    requires |slots| > 0
    requires forall k | lo <= k < lo + n && SlotOf(slots, k) == i :: k in took && took[k] == i
    ensures Taken(took, lo, n, i) >= Scheduled(slots, lo, n, i)
  {
    if n == 0 {
    } else {
      TakenCoversScheduled(slots, took, lo, n - 1, i);
    }
  }

  lemma {:induction false} TakenIsScheduled(slots: seq<nat>, took: map<nat, nat>, lo: nat, n: nat, i: nat)
    requires |slots| > 0
    requires forall k | lo <= k < lo + n :: k in took && took[k] == SlotOf(slots, k)
    ensures Taken(took, lo, n, i) == Scheduled(slots, lo, n, i)
  {
    if n == 0 {
    } else {
      TakenIsScheduled(slots, took, lo, n - 1, i);
    }
  }

  // ----------------------------------------------------------------- the invariant holds

  lemma TakeKeepsInv<T>(s: State<T>, w: nat, i: nat)
    requires Shape(s) && TicketsOk(s) && w in s.calls && i < |s.sources| && s.sources[i].buffer != []
    requires forall j | 0 <= j < |s.sources| :: Conserved(s, j) && Counted(s, j)
    requires forall k | s.start < k <= s.cursor :: k == s.calls[w].ticket || ServedBySlot(s, k)
    requires i == SlotOf(s.slots, s.calls[w].ticket) || ServedBySlot(s, s.calls[w].ticket)
    ensures Inv(Take(s, w, i))
  {
    var s' := Take(s, w, i);
    var ticket := s.calls[w].ticket;
    forall j | 0 <= j < |s.sources|
      ensures Conserved(s', j) && Counted(s', j)
    {
      assert Conserved(s, j) && Counted(s, j);
      TakenUpdate(s.took, s.start + 1, s.cursor - s.start, ticket, i, j);
      if j == i {
        assert [s.sources[i].buffer[0]] + s.sources[i].buffer[1..] == s.sources[i].buffer;
      }
    }
    forall k | s'.start < k <= s'.cursor
      ensures ServedBySlot(s', k)
    {
      if k != ticket { assert ServedBySlot(s, k); }
    }
  }

  lemma QuietStepKeepsInv<T>(s: State<T>, s': State<T>)
    requires Inv(s)
    requires Shape(s') && TicketsOk(s')
    requires s'.slots == s.slots && s'.start == s.start && s'.cursor == s.cursor && s'.took == s.took
    requires s'.sources == s.sources && s'.received == s.received && s'.sent == s.sent
    requires forall k | k in s.pending + s.missed :: k in s'.pending + s'.missed
    ensures Inv(s')
  {
    forall i | 0 <= i < |s'.sources| ensures Conserved(s', i) && Counted(s', i) {
      assert Conserved(s, i) && Counted(s, i);
    }
    forall k | s'.start < k <= s'.cursor ensures ServedBySlot(s', k) {
      assert ServedBySlot(s, k);
      if k in s.pending + s.missed { assert k in s'.pending + s'.missed; }
    }
  }

  lemma DrawKeepsInv<T>(s: State<T>, w: nat)
    requires Inv(s) && Enabled(s, Draw(w))
    ensures Inv(Step(s, Draw(w)))
  {
    var s' := Step(s, Draw(w));
    forall i | 0 <= i < |s'.sources| ensures Conserved(s', i) && Counted(s', i) {
      assert Conserved(s, i) && Counted(s, i);
      assert s'.cursor !in s.took;
    }
    forall k | s'.start < k <= s'.cursor ensures ServedBySlot(s', k) {
      if k <= s.cursor { assert ServedBySlot(s, k); }
    }
  }

  lemma ChannelStepKeepsInv<T>(s: State<T>, a: Action<T>)
    requires Inv(s) && Enabled(s, a) && (a.Produce? || a.Close?)
    ensures Inv(Step(s, a))
  {
    var s' := Step(s, a);
    forall i | 0 <= i < |s'.sources| ensures Conserved(s', i) && Counted(s', i) {
      assert Conserved(s, i) && Counted(s, i);
      if a.Produce? && i == a.source {
        assert s.received[i] + (s.sources[i].buffer + [a.value]) == s.sent[i] + [a.value];
      }
    }
    forall k | s'.start < k <= s'.cursor ensures ServedBySlot(s', k) { assert ServedBySlot(s, k); }
  }

  lemma ScanNextKeepsInv<T>(s: State<T>, w: nat)
    requires Inv(s) && Enabled(s, ScanNext(w))
    ensures Inv(Step(s, ScanNext(w)))
  {
    var i := s.calls[w].phase.next;
    assert ServedBySlot(s, s.calls[w].ticket);
    if s.sources[i].buffer != [] { TakeKeepsInv(s, w, i); }
    else { QuietStepKeepsInv(s, Step(s, ScanNext(w))); }
  }

  lemma WakeKeepsInv<T>(s: State<T>, w: nat)
    requires Inv(s) && Enabled(s, Wake(w))
    ensures Inv(Step(s, Wake(w)))
  {
    assert ServedBySlot(s, s.calls[w].ticket);
    if s.sources[0].buffer != [] { TakeKeepsInv(s, w, 0); }
    else { QuietStepKeepsInv(s, Step(s, Wake(w))); }
  }

  lemma GiveUpKeepsInv<T>(s: State<T>, w: nat)
    requires Inv(s) && Enabled(s, GiveUp(w))
    ensures Inv(Step(s, GiveUp(w)))
  {
    QuietStepKeepsInv(s, Step(s, GiveUp(w)));
  }

  lemma ReceiveScheduledKeepsInv<T>(s: State<T>, w: nat)
    requires Inv(s) && Enabled(s, ReceiveScheduled(w))
    ensures Inv(Step(s, ReceiveScheduled(w)))
  {
    var ticket := s.calls[w].ticket;
    var i := SlotOf(s.slots, ticket);
    if s.sources[i].buffer != [] {
      var done := s.(pending := s.pending - {ticket});
      forall j | 0 <= j < |s.sources| ensures Conserved(done, j) && Counted(done, j) {
        assert Conserved(s, j) && Counted(s, j);
      }
      forall k | s.start < k <= s.cursor ensures k == ticket || ServedBySlot(done, k) {
        assert ServedBySlot(s, k);
      }
      TakeKeepsInv(done, w, i);
    } else {
      QuietStepKeepsInv(s, Step(s, ReceiveScheduled(w)));
    }
  }

  lemma StepKeepsInv<T>(s: State<T>, a: Action<T>)
    requires Inv(s)
    ensures Inv(Step(s, a))
  {
    if !Enabled(s, a) { return; }
    match a
    case Produce(_, _) => ChannelStepKeepsInv(s, a);
    case Close(_) => ChannelStepKeepsInv(s, a);
    case Draw(w) => DrawKeepsInv(s, w);
    case ReceiveScheduled(w) => ReceiveScheduledKeepsInv(s, w);
    case ScanNext(w) => ScanNextKeepsInv(s, w);
    case Wake(w) => WakeKeepsInv(s, w);
    case GiveUp(w) => GiveUpKeepsInv(s, w);
  }

  // -------------------------------------------------------------------------- whole runs

  ghost predicate Fits(slots: seq<nat>, n: nat) {
    n > 0 && |slots| > 0 && forall k | 0 <= k < |slots| :: slots[k] < n
  }

  ghost function After<T>(slots: seq<nat>, n: nat, start: nat, t: Trace<Action<T>>): (s: State<T>)
    requires Fits(slots, n)
    ensures Shape(s) && s.slots == slots && |s.sources| == n && s.start == start
  {
    match t
    case Start => Initial(slots, n, start)
    case Then(before, a) => Step(After(slots, n, start, before), a)
  }

  lemma InitialInv<T>(slots: seq<nat>, n: nat, start: nat)
    requires Fits(slots, n)
    ensures Inv(Initial<T>(slots, n, start))
  {
    var s := Initial<T>(slots, n, start);
    forall i | 0 <= i < n ensures Conserved(s, i) && Counted(s, i) {}
  }

  /** What the fairness theorems call missed: the tickets whose scheduled receive came when
      the source was empty, and no other. */
  lemma MissedIffFoundEmpty<T>(s: State<T>, a: Action<T>, k: nat)
    requires Inv(s)
    ensures var tries := a.ReceiveScheduled? && InPhase(s, a.worker, Drawn) && s.calls[a.worker].ticket == k;
            && (k in Step(s, a).missed <==>
                  k in s.missed || (tries && s.sources[s.slots[k % |s.slots|]].buffer == []))
            && (k in Step(s, a).pending <==>
                  (k in s.pending && !tries) || (a.Draw? && Enabled(s, a) && k == s.cursor + 1))
  {
  }

  lemma {:induction false} AfterInv<T>(slots: seq<nat>, n: nat, start: nat, t: Trace<Action<T>>)
    requires Fits(slots, n)
    ensures Inv(After(slots, n, start, t))
  {
    if t.Start? { InitialInv<T>(slots, n, start); }
    else {
      AfterInv(slots, n, start, t.before);
      StepKeepsInv(After(slots, n, start, t.before), t.action);
    }
  }

  /** Conservation: what came out of a source followed by what is still in it is what went
      in, in order, whatever the interleaving. */
  lemma NothingLostOrReordered<T>(slots: seq<nat>, n: nat, start: nat, t: Trace<Action<T>>, i: nat)
    requires Fits(slots, n) && i < n
    ensures var s := After(slots, n, start, t);
            s.received[i] + s.sources[i].buffer == s.sent[i]
  {
    AfterInv(slots, n, start, t);
    assert Conserved(After(slots, n, start, t), i);
  }

  ghost predicate Active<T>(s: State<T>, k: nat) {
    exists w :: w in s.calls && s.calls[w].ticket == k
  }

  ghost predicate EmptyAt<T(!new)>(slots: seq<nat>, n: nat, start: nat, t: Trace<Action<T>>,
                             moment: Trace<Action<T>>, k: nat, i: nat)
    requires Fits(slots, n) && i < n
  {
    && Extends(t, moment) && Active(After(slots, n, start, moment), k)
    && After(slots, n, start, moment).sources[i].buffer == []
  }

  /** At some moment of run t the call with ticket k was under way and source i was empty. */
  ghost predicate SawEmpty<T(!new)>(slots: seq<nat>, n: nat, start: nat, t: Trace<Action<T>>, k: nat, i: nat)
    requires Fits(slots, n) && i < n
  {
    exists moment :: EmptyAt(slots, n, start, t, moment, k, i)
  }

  ghost predicate SawEmptyBelow<T(!new)>(slots: seq<nat>, n: nat, start: nat, t: Trace<Action<T>>, k: nat, m: nat)
    requires Fits(slots, n) && m <= n
  {
    forall i | 0 <= i < m :: SawEmpty(slots, n, start, t, k, i)
  }

  ghost function Scanned(call: Call, n: nat): nat {
    match call.phase
    case Drawn => 0
    case Scanning(next) => if next < n then next else n
    case Parked => n
  }

  lemma SawEmptyStays<T(!new)>(slots: seq<nat>, n: nat, start: nat, t: Trace<Action<T>>, a: Action<T>, k: nat, m: nat)
    requires Fits(slots, n) && m <= n && SawEmptyBelow(slots, n, start, t, k, m)
    ensures SawEmptyBelow(slots, n, start, Then(t, a), k, m)
  {
    forall i | 0 <= i < m
      ensures SawEmpty(slots, n, start, Then(t, a), k, i)
    {
      assert SawEmpty(slots, n, start, t, k, i);
      var moment :| EmptyAt(slots, n, start, t, moment, k, i);
      assert EmptyAt(slots, n, start, Then(t, a), moment, k, i);
    }
  }

  /** The sources the call has scanned, it found empty. */
  ghost predicate CallSawEmpty<T(!new)>(slots: seq<nat>, n: nat, start: nat, t: Trace<Action<T>>, w: nat)
    requires Fits(slots, n) && w in After(slots, n, start, t).calls
  {
    var call := After(slots, n, start, t).calls[w];
    SawEmptyBelow(slots, n, start, t, call.ticket, Scanned(call, n))
  }

  lemma CallKeepsSawEmpty<T(!new)>(slots: seq<nat>, n: nat, start: nat, before: Trace<Action<T>>, a: Action<T>, w: nat)
    requires Fits(slots, n) && w in After(slots, n, start, Then(before, a)).calls
    requires w in After(slots, n, start, before).calls ==> CallSawEmpty(slots, n, start, before, w)
    ensures CallSawEmpty(slots, n, start, Then(before, a), w)
  {
    var s := After(slots, n, start, before);
    if w in s.calls {
      var k := s.calls[w].ticket;
      SawEmptyStays(slots, n, start, before, a, k, Scanned(s.calls[w], n));
      if a == ScanNext(w) && Enabled(s, a) {
        var i := s.calls[w].phase.next;
        assert Active(s, k) && s.sources[i].buffer == [];
        assert EmptyAt(slots, n, start, Then(before, a), before, k, i);
      }
    }
  }

  lemma {:induction false} CallsSawEmpty<T(!new)>(slots: seq<nat>, n: nat, start: nat, t: Trace<Action<T>>)
    requires Fits(slots, n)
    ensures forall w | w in After(slots, n, start, t).calls :: CallSawEmpty(slots, n, start, t, w)
    ensures forall k | k in After(slots, n, start, t).gaveUp :: SawEmptyBelow(slots, n, start, t, k, n)
  {
    if t.Start? { return; }
    CallsSawEmpty(slots, n, start, t.before);
    var s := After(slots, n, start, t.before);
    forall w | w in After(slots, n, start, t).calls
      ensures CallSawEmpty(slots, n, start, t, w)
    {
      CallKeepsSawEmpty(slots, n, start, t.before, t.action, w);
    }
    forall k | k in After(slots, n, start, t).gaveUp
      ensures SawEmptyBelow(slots, n, start, t, k, n)
    {
      if k in s.gaveUp {
        SawEmptyStays(slots, n, start, t.before, t.action, k, n);
      } else {
        assert CallSawEmpty(slots, n, start, t.before, t.action.worker);
        SawEmptyStays(slots, n, start, t.before, t.action, k, Scanned(s.calls[t.action.worker], n));
      }
    }
  }

  /** A call that returns false took nothing, and during the call every source was empty at
      some moment. */
  lemma FalseMeansIdle<T(!new)>(slots: seq<nat>, n: nat, start: nat, t: Trace<Action<T>>, k: nat, i: nat)
    requires Fits(slots, n) && i < n && k in After(slots, n, start, t).gaveUp
    ensures k !in After(slots, n, start, t).took
    ensures SawEmpty(slots, n, start, t, k, i)
  {
    CallsSawEmpty(slots, n, start, t);
    assert SawEmptyBelow(slots, n, start, t, k, n);
    AfterInv(slots, n, start, t);
  }

  /** At this moment of run t the parked call with ticket k leaves with false: it is
      interrupted, or it finds source 0 closed and empty. */
  ghost predicate LeavesWithFalse<T>(slots: seq<nat>, n: nat, start: nat, t: Trace<Action<T>>,
                                     moment: Trace<Action<T>>, k: nat)
    requires Fits(slots, n)
  {
    && Extends(t, moment) && moment.Then? && (moment.action.GiveUp? || moment.action.Wake?)
    && var s, w := After(slots, n, start, moment.before), moment.action.worker;
       && InPhase(s, w, Parked) && s.calls[w].ticket == k
       && (moment.action.Wake? ==> s.sources[0].closed && s.sources[0].buffer == [])
  }

  /** In every run, a call that returned false was interrupted in its wait, or found source 0
      closed and empty. */
  lemma {:induction false} FalseNeedsInterruption<T(!new)>(slots: seq<nat>, n: nat, start: nat,
                                                           t: Trace<Action<T>>, k: nat)
    requires Fits(slots, n) && k in After(slots, n, start, t).gaveUp
    ensures exists moment :: LeavesWithFalse(slots, n, start, t, moment, k)
  {
    if k in After(slots, n, start, t.before).gaveUp {
      FalseNeedsInterruption(slots, n, start, t.before, k);
      var moment :| LeavesWithFalse(slots, n, start, t.before, moment, k);
      assert LeavesWithFalse(slots, n, start, t, moment, k);
    } else {
      assert LeavesWithFalse(slots, n, start, t, t, k);
    }
  }

  /** The tickets of this range that are scheduled for source i have received, and none of
      them found the source empty. */
  ghost predicate AlwaysReady<T>(s: State<T>, lo: nat, n: nat, i: nat)
    requires |s.slots| > 0
  {
    && s.start < lo && lo + n - 1 <= s.cursor
    && forall k | lo <= k < lo + n && SlotOf(s.slots, k) == i :: k !in s.pending && k !in s.missed
  }

  /** Fairness: of any W consecutive tickets, wherever the window begins and however the
      calls interleave, a source that was never found empty serves at least its weight. */
  lemma WindowFairness<T>(slots: seq<nat>, weights: seq<nat>, start: nat, t: Trace<Action<T>>, lo: nat, i: nat)
    requires Fits(slots, |weights|) && IsSlotTable(slots, weights) && i < |weights|
    requires AlwaysReady(After(slots, |weights|, start, t), lo, |slots|, i)
    ensures Taken(After(slots, |weights|, start, t).took, lo, |slots|, i) >= weights[i]
  {
    var s := After(slots, |weights|, start, t);
    AfterInv(slots, |weights|, start, t);
    forall k | lo <= k < lo + |slots| && SlotOf(slots, k) == i
      ensures k in s.took && s.took[k] == i
    {
      assert ServedBySlot(s, k);
    }
    TakenCoversScheduled(slots, s.took, lo, |slots|, i);
    FullRound(slots, lo, i);
  }

  /** When no source was found empty in the window, each serves exactly its weight. */
  lemma WindowIsExact<T>(slots: seq<nat>, weights: seq<nat>, start: nat, t: Trace<Action<T>>, lo: nat, i: nat)
    requires Fits(slots, |weights|) && IsSlotTable(slots, weights) && i < |weights|
    requires forall j | 0 <= j < |weights| :: AlwaysReady(After(slots, |weights|, start, t), lo, |slots|, j)
    ensures Taken(After(slots, |weights|, start, t).took, lo, |slots|, i) == weights[i]
  {
    var s := After(slots, |weights|, start, t);
    AfterInv(slots, |weights|, start, t);
    forall k | lo <= k < lo + |slots|
      ensures k in s.took && s.took[k] == SlotOf(slots, k)
    {
      assert AlwaysReady(s, lo, |slots|, SlotOf(slots, k));
      assert ServedBySlot(s, k);
    }
    TakenIsScheduled(slots, s.took, lo, |slots|, i);
    FullRound(slots, lo, i);
  }

  // ------------------------------------------------------------- one undisturbed call

  ghost function ScanTimes<T>(s: State<T>, w: nat, steps: nat): (s': State<T>)
    requires Shape(s)
    ensures Shape(s') && |s'.sources| == |s.sources|
    decreases steps
  {
    if steps == 0 then s else ScanTimes(Step(s, ScanNext(w)), w, steps - 1)
  }

  lemma {:induction false} FinishedStays<T>(s: State<T>, w: nat, steps: nat)
    requires Shape(s) && (w in s.calls ==> s.calls[w].phase.Parked?)
    ensures ScanTimes(s, w, steps) == s
    decreases steps
  {
    if steps == 0 {
    } else {
      FinishedStays(s, w, steps - 1);
    }
  }

  lemma {:induction false} ScanFindsFirst<T>(s: State<T>, w: nat, next: nat, steps: nat)
    requires Shape(s) && InPhase(s, w, Scanning(next)) && next + steps == |s.sources|
    requires forall j | 0 <= j < next :: s.sources[j].buffer == []
    ensures var s' := ScanTimes(s, w, steps);
            match FirstNonEmpty(s.sources)
            case Some(i) => i < |s.sources| && s.sources[i].buffer != [] && s' == Take(s, w, i)
            case None => s' == s.(calls := s.calls[w := Call(s.calls[w].ticket, Parked)])
    decreases steps
  {
    var s1 := Step(s, ScanNext(w));
    if s.sources[next].buffer != [] {
      FirstIs(s.sources, next);
      FinishedStays(s1, w, steps - 1);
    } else if next + 1 < |s.sources| {
      ScanFindsFirst(s1, w, next + 1, steps - 1);
    } else {
      NoneFirst(s.sources);
      FinishedStays(s1, w, steps - 1);
    }
  }

  /** What is left when the call of a ticket took the head of source i. */
  ghost predicate TookHead<T>(s: State<T>, s': State<T>, w: nat, ticket: nat, i: nat) {
    && i < |s.sources| == |s.received| && s.sources[i].buffer != [] && w !in s'.calls
    && s'.sources == s.sources[i := s.sources[i].(buffer := s.sources[i].buffer[1..])]
    && s'.received == s.received[i := s.received[i] + [s.sources[i].buffer[0]]]
    && s'.took == s.took[ticket := i] && s'.gaveUp == s.gaveUp
  }

  /** Nothing was received so far. */
  ghost predicate TookNothing<T>(s: State<T>, s': State<T>) {
    s'.sources == s.sources && s'.received == s.received && s'.took == s.took && s'.gaveUp == s.gaveUp
  }

  /** The ticket draw and the scheduled receive of one worker, with nobody in between. */
  lemma DrawAndTry<T>(s: State<T>, w: nat)
    requires Inv(s) && w !in s.calls && s.cursor < MAX_INT64
    ensures var ticket := s.cursor + 1;
            var slot := s.slots[ticket % |s.slots|];
            var s' := Step(Step(s, Draw(w)), ReceiveScheduled(w));
            && s'.cursor == ticket && slot < |s.sources|
            && if s.sources[slot].buffer == [] then
                 TookNothing(s, s') && w in s'.calls && s'.calls[w] == Call(ticket, Scanning(0))
               else
                 TookHead(s, s', w, ticket, slot)
  {
    var drawn := Step(s, Draw(w));
    assert InPhase(drawn, w, Drawn) && drawn.calls[w].ticket == s.cursor + 1;
  }

  /** The call of worker w served the chosen source, or is parked. */
  ghost predicate ServedOrParked<T>(s: State<T>, s': State<T>, w: nat, ticket: nat, slot: nat)
    requires slot < |s.sources|
  {
    && s'.cursor == ticket
    && match Chosen(s.sources, slot)
       case Some(i) => TookHead(s, s', w, ticket, i)
       case None => TookNothing(s, s') && w in s'.calls && s'.calls[w] == Call(ticket, Parked)
  }

  lemma ScanServes<T>(s: State<T>, tried: State<T>, w: nat, ticket: nat, slot: nat)
    requires Shape(tried) && slot < |s.sources| && s.sources[slot].buffer == []
    requires TookNothing(s, tried) && tried.cursor == ticket
    requires w in tried.calls && tried.calls[w] == Call(ticket, Scanning(0))
    ensures ServedOrParked(s, ScanTimes(tried, w, |s.sources|), w, ticket, slot)
  {
    ScanFindsFirst(tried, w, 0, |s.sources|);
  }

  /** The two receives without a wait. */
  lemma UndisturbedScan<T>(s: State<T>, w: nat, ticket: nat, slot: nat)
    requires Inv(s) && w !in s.calls && s.cursor < MAX_INT64
    requires ticket == s.cursor + 1 && slot == s.slots[ticket % |s.slots|]
    ensures slot < |s.sources|
    ensures ServedOrParked(s, ScanTimes(Step(Step(s, Draw(w)), ReceiveScheduled(w)), w, |s.sources|), w, ticket, slot)
  {
    var tried := Step(Step(s, Draw(w)), ReceiveScheduled(w));
    DrawAndTry(s, w);
    if s.sources[slot].buffer != [] {
      FinishedStays(tried, w, |s.sources|);
    } else {
      ScanServes(s, tried, w, ticket, slot);
    }
  }

  /** A parked call that is woken while source 0 has a value receives its head and does not
      give up. */
  lemma WokenCallReceives<T>(s: State<T>, w: nat)
    requires Inv(s) && InPhase(s, w, Parked) && s.sources[0].buffer != []
    ensures var s' := Step(s, Wake(w));
            TookHead(s, s', w, s.calls[w].ticket, 0) && s.calls[w].ticket !in s'.gaveUp
  {
  }

  /** What can end the wait of a parked call when nobody else moves. */
  ghost function EndWait<T>(s: State<T>, w: nat, wake: Wake<T>): (s': State<T>)
    requires Shape(s)
  {
    match wake
    case Arrives(v) => Step(Step(s, Produce(0, v)), Wake(w))
    case Interrupted => Step(s, GiveUp(w))
  }

  ghost function CallAlone<T>(s: State<T>, w: nat, wake: Wake<T>): State<T>
    requires Shape(s)
  {
    var scanned := ScanTimes(Step(Step(s, Draw(w)), ReceiveScheduled(w)), w, |s.sources|);
    if InPhase(scanned, w, Parked) then EndWait(scanned, w, wake) else scanned
  }

  lemma WaitEnds<T>(s: State<T>, w: nat, wake: Wake<T>)
    requires Shape(s) && InPhase(s, w, Parked) && s.sources[0].buffer == []
    ensures var s' := EndWait(s, w, wake);
            var ticket := s.calls[w].ticket;
            && s'.cursor == s.cursor && s'.sources == s.sources && w !in s'.calls
            && if wake.Arrives? && !s.sources[0].closed then
                 && s'.received == s.received[0 := s.received[0] + [wake.value]]
                 && s'.took == s.took[ticket := 0] && s'.gaveUp == s.gaveUp
               else
                 s'.received == s.received && s'.took == s.took && s'.gaveUp == s.gaveUp + {ticket}
  {
    if wake.Arrives? && !s.sources[0].closed {
      var filled := Step(s, Produce(0, wake.value));
      assert filled.sources[0].buffer == [wake.value];
      assert EndWait(s, w, wake).sources[0] == s.sources[0];
    }
  }

  /** What Router.Next promises of a call with this ticket: it serves the chosen source; if
      there is none, it yields the value that arrives on the first source, and otherwise
      returns false and leaves everything as it was. */
  ghost predicate AnswersLikeNext<T>(s: State<T>, s': State<T>, w: nat, ticket: nat, slot: nat, wake: Wake<T>)
    requires Shape(s) && slot < |s.sources|
  {
    && s'.cursor == ticket && w !in s'.calls
    && match Chosen(s.sources, slot)
       case Some(i) => TookHead(s, s', w, ticket, i)
       case None =>
         && s'.sources == s.sources
         && if wake.Arrives? && !s.sources[0].closed then
              && s'.received == s.received[0 := s.received[0] + [wake.value]]
              && s'.took == s.took[ticket := 0] && s'.gaveUp == s.gaveUp
            else
              s'.received == s.received && s'.took == s.took && s'.gaveUp == s.gaveUp + {ticket}
  }

  lemma ParkedAnswers<T>(s: State<T>, scanned: State<T>, w: nat, ticket: nat, slot: nat, wake: Wake<T>)
    requires Shape(s) && Shape(scanned) && slot < |s.sources| && ServedOrParked(s, scanned, w, ticket, slot)
    ensures AnswersLikeNext(s, if InPhase(scanned, w, Parked) then EndWait(scanned, w, wake) else scanned,
                            w, ticket, slot, wake)
  {
    ChosenMeaning(s.sources, slot);
    if InPhase(scanned, w, Parked) { WaitEnds(scanned, w, wake); }
  }

  /** Run without interference, the atomic steps of a call do what Router.Next promises. */
  lemma UndisturbedCallIsNext<T>(s: State<T>, w: nat, wake: Wake<T>)
    requires Inv(s) && w !in s.calls && s.cursor < MAX_INT64
    ensures var ticket := s.cursor + 1;
            var slot := s.slots[ticket % |s.slots|];
            slot < |s.sources| && AnswersLikeNext(s, CallAlone(s, w, wake), w, ticket, slot, wake)
  {
    var ticket := s.cursor + 1;
    var slot := s.slots[ticket % |s.slots|];
    UndisturbedScan(s, w, ticket, slot);
    var scanned := ScanTimes(Step(Step(s, Draw(w)), ReceiveScheduled(w)), w, |s.sources|);
    ParkedAnswers(s, scanned, w, ticket, slot, wake);
  }

  // ------------------------------------------------------------------------ waiting time

  ghost predicate NeverMissed<T>(s: State<T>, after: nat, i: nat)
    requires |s.slots| > 0
  {
    forall k | after < k && SlotOf(s.slots, k) == i :: k !in s.missed
  }

  /** From s on: history only grows, and unless source i has since had `goal` values
      received, no later ticket of its own slots found it empty. */
  ghost predicate Continues<T>(s: State<T>, s': State<T>, i: nat, goal: nat)
    requires Shape(s) && Shape(s') && i < |s.sources| && i < |s'.sources|
  {
    && s.cursor <= s'.cursor
    && s.sent[i] <= s'.sent[i]
    && (forall k | k in s.took :: k in s'.took && s'.took[k] == s.took[k])
    && (|s'.received[i]| >= goal || NeverMissed(s', s.cursor, i))
  }

  lemma StepContinues<T>(s0: State<T>, s: State<T>, a: Action<T>, i: nat, goal: nat)
    requires Inv(s) && Shape(s0) && i < |s0.sources| && i < |s.sources|
    requires Continues(s0, s, i, goal) && goal <= |s0.sent[i]|
    ensures Continues(s0, Step(s, a), i, goal)
  {
    assert Conserved(s, i) && TicketsOk(s);
    if a.ReceiveScheduled? && Enabled(s, a) && SlotOf(s.slots, s.calls[a.worker].ticket) == i
       && s.sources[i].buffer == [] {
      assert s.received[i] == s.sent[i];
    }
  }

  lemma {:induction false} RunContinues<T>(slots: seq<nat>, n: nat, start: nat, longer: Trace<Action<T>>,
                                           t: Trace<Action<T>>, i: nat, goal: nat)
    requires Fits(slots, n) && i < n && Extends(longer, t)
    requires goal <= |After(slots, n, start, t).sent[i]|
    ensures Continues(After(slots, n, start, t), After(slots, n, start, longer), i, goal)
  {
    AfterInv(slots, n, start, t);
    if longer == t {
      assert TicketsOk(After(slots, n, start, t));
    } else {
      RunContinues(slots, n, start, longer.before, t, i, goal);
      AfterInv(slots, n, start, longer.before);
      StepContinues(After(slots, n, start, t), After(slots, n, start, longer.before), longer.action, i, goal);
    }
  }

  /** The tickets after + 1 .. after + wait have been drawn and done their scheduled receive. */
  ghost predicate ScheduledReceivesDone<T>(s: State<T>, after: nat, wait: nat) {
    after + wait <= s.cursor && forall k | after < k <= after + wait :: k !in s.pending
  }

  ghost predicate ReceivedSince<T>(s: State<T>, s': State<T>, i: nat, ahead: nat)
    requires i < |s.sources| == |s.received| && i < |s'.received| && ahead < |s.sources[i].buffer|
  {
    var place := |s.received[i]| + ahead;
    place < |s'.received[i]| && s'.received[i][place] == s.sources[i].buffer[ahead]
  }

  lemma InOrder<T>(received: seq<T>, buffer: seq<T>, sent: seq<T>,
                   received': seq<T>, buffer': seq<T>, sent': seq<T>, ahead: nat)
    requires received + buffer == sent && received' + buffer' == sent' && sent <= sent'
    requires ahead < |buffer| && |received| + ahead < |received'|
    ensures received'[|received| + ahead] == buffer[ahead]
  {
    assert sent[|received| + ahead] == buffer[ahead];
    assert sent'[|received| + ahead] == received'[|received| + ahead];
  }

  lemma CountGrows(took: map<nat, nat>, took': map<nat, nat>, lo: nat, m: nat, n: nat, rest: nat, i: nat)
    requires forall k | k in took :: k in took' && took'[k] == took[k]
    ensures Taken(took', lo, m + n + rest, i) >= Taken(took, lo, m, i) + Taken(took', lo + m, n, i)
  {
    TakenMonotone(took, took', lo, m, i);
    TakenSplit(took', lo, m + n, rest, i);
    TakenSplit(took', lo, m, n, i);
  }

  lemma EnoughReceived<T>(s: State<T>, s': State<T>, i: nat, wait: nat)
    requires Shape(s) && Shape(s') && i < |s.sources| == |s'.sources|
    requires s'.slots == s.slots && s'.start == s.start <= s.cursor <= s'.cursor
    requires Counted(s, i) && Counted(s', i)
    requires forall k | s'.start < k <= s'.cursor :: ServedBySlot(s', k)
    requires forall k | k in s.took :: k in s'.took && s'.took[k] == s.took[k]
    requires NeverMissed(s', s.cursor, i)
    requires ScheduledReceivesDone(s', s.cursor, wait)
    ensures |s'.received[i]| >= |s.received[i]| + Scheduled(s.slots, s.cursor + 1, wait, i)
  {
    var lo := s.cursor + 1;
    forall k | lo <= k < lo + wait && SlotOf(s.slots, k) == i
      ensures k in s'.took && s'.took[k] == i
    {
      assert ServedBySlot(s', k);
    }
    TakenCoversScheduled(s.slots, s'.took, lo, wait, i);
    CountGrows(s.took, s'.took, s.start + 1, s.cursor - s.start, wait, s'.cursor - s.cursor - wait, i);
  }

  lemma EnoughTickets<T>(s: State<T>, s': State<T>, i: nat, ahead: nat, wait: nat)
    requires Inv(s) && Inv(s') && s'.slots == s.slots && s'.start == s.start
    requires i < |s.sources| == |s'.sources| && ahead < |s.sources[i].buffer|
    requires Continues(s, s', i, |s.received[i]| + ahead + 1)
    requires ScheduledReceivesDone(s', s.cursor, wait)
    requires Scheduled(s.slots, s.cursor + 1, wait, i) >= ahead + 1
    ensures ReceivedSince(s, s', i, ahead)
  {
    assert Conserved(s, i) && Conserved(s', i);
    if |s'.received[i]| < |s.received[i]| + ahead + 1 {
      assert Counted(s, i) && Counted(s', i);
      EnoughReceived(s, s', i, wait);
    }
    InOrder(s.received[i], s.sources[i].buffer, s.sent[i], s'.received[i], s'.sources[i].buffer, s'.sent[i], ahead);
  }

  lemma EnoughRounds<T>(s: State<T>, s': State<T>, weights: seq<nat>, i: nat, ahead: nat, wait: nat)
    requires Inv(s) && Inv(s') && s'.slots == s.slots && s'.start == s.start
    requires i < |s.sources| == |s'.sources| && ahead < |s.sources[i].buffer|
    requires IsSlotTable(s.slots, weights) && i < |weights| && weights[i] > 0
    requires Continues(s, s', i, |s.received[i]| + ahead + 1)
    requires ScheduledReceivesDone(s', s.cursor, wait)
    requires wait == WaitBound(s.slots, weights[i], ahead)
    ensures ReceivedSince(s, s', i, ahead)
  {
    EnoughSlots(s.slots, weights, s.cursor + 1, ahead, i, wait);
    EnoughTickets(s, s', i, ahead, wait);
  }

  /** Waiting time: a value with `ahead` values before it in its source has been received
      once ceil((ahead + 1) / w) * W further tickets have done their scheduled receive. */
  lemma BoundedWait<T>(slots: seq<nat>, weights: seq<nat>, start: nat, longer: Trace<Action<T>>,
                       t: Trace<Action<T>>, i: nat, ahead: nat)
    requires Fits(slots, |weights|) && IsSlotTable(slots, weights) && i < |weights| && weights[i] > 0
    requires Extends(longer, t)
    ensures var s, s' := After(slots, |weights|, start, t), After(slots, |weights|, start, longer);
            ahead < |s.sources[i].buffer|
            && ScheduledReceivesDone(s', s.cursor, WaitBound(slots, weights[i], ahead))
            ==> ReceivedSince(s, s', i, ahead)
  {
    var s := After(slots, |weights|, start, t);
    var s' := After(slots, |weights|, start, longer);
    var wait := WaitBound(slots, weights[i], ahead);
    if ahead < |s.sources[i].buffer| && ScheduledReceivesDone(s', s.cursor, wait) {
      AfterInv(slots, |weights|, start, t);
      AfterInv(slots, |weights|, start, longer);
      assert Conserved(s, i);
      RunContinues(slots, |weights|, start, longer, t, i, |s.received[i]| + ahead + 1);
      EnoughRounds(s, s', weights, i, ahead, wait);
    }
  }
}
