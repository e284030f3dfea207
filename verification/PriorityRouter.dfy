/** The weighted round-robin of processor/internal/delivery/priorityrouter.go: its slot
    table, its ticket counter, and one undisturbed call of Next. */
module Router {
  import opened Division
  import opened Ports

  const MAX_INT64: int := 0x7fff_ffff_ffff_ffff

  /** The topics whose channels the ready consumer hands to the router, source by source. */
  const SOURCE_TOPICS: seq<string> := ["notify.high", "notify.normal", "notify.low"]

  /** A notification of a higher priority goes to an earlier source; one of an unknown
      priority goes to none. */
  lemma PriorityPicksSource(priority: string)
    ensures var topic := TopicByPriority(priority);
            && (priority == "high" <==> topic == SOURCE_TOPICS[0])
            && (priority == "normal" <==> topic == SOURCE_TOPICS[1])
            && (priority == "low" <==> topic == SOURCE_TOPICS[2])
            && (priority !in {"high", "normal", "low"} <==> topic !in SOURCE_TOPICS)
  {
    assert SOURCE_TOPICS[0][7] == 'h' && SOURCE_TOPICS[1][7] == 'n' && SOURCE_TOPICS[2][7] == 'l';
    assert |SOURCE_TOPICS[0]| == 11;
  }

  datatype Channel<T> = Channel(buffer: seq<T>, closed: bool)

  /** What happens while Next is parked on the first channel. */
  datatype Wake<T> = Arrives(value: T) | Interrupted

  function Total(weights: seq<nat>): nat {
    if weights == [] then 0 else Total(weights[..|weights| - 1]) + weights[|weights| - 1]
  }

  function Occurrences(slots: seq<nat>, i: nat): nat {
    if slots == [] then 0
    else Occurrences(slots[..|slots| - 1], i) + (if slots[|slots| - 1] == i then 1 else 0)
  }

  /** What the slot table is for: every source has as many slots as its weight, sources
      come in order, and there is nothing else in it. */
  ghost predicate IsSlotTable(slots: seq<nat>, weights: seq<nat>) {
    && |slots| == Total(weights)
    && (forall k | 0 <= k < |slots| :: slots[k] < |weights|)
    && (forall j, k | 0 <= j < k < |slots| :: slots[j] <= slots[k])
    && (forall i | 0 <= i < |weights| :: Occurrences(slots, i) == weights[i])
  }

  lemma OccurrencesAppend(slots: seq<nat>, x: nat, i: nat)
    ensures Occurrences(slots + [x], i) == Occurrences(slots, i) + (if x == i then 1 else 0)
  {
    assert (slots + [x])[..|slots|] == slots;
  }

  lemma {:induction false} OccurrencesOfAbsent(slots: seq<nat>, i: nat)
    requires i !in slots
    ensures Occurrences(slots, i) == 0
  {
    if slots == [] {
    } else {
      OccurrencesOfAbsent(slots[..|slots| - 1], i);
    }
  }

  lemma TotalPositive(weights: seq<nat>)
    requires |weights| > 0 && forall i | 0 <= i < |weights| :: weights[i] >= 1
    ensures Total(weights) > 0
  {
  }

  /** The first source in priority order that holds a value. */
  function FirstNonEmpty<T>(sources: seq<Channel<T>>): Option<nat> {
    if sources == [] then None
    else
      var before := FirstNonEmpty(sources[..|sources| - 1]);
      if before.Some? then before
      else if sources[|sources| - 1].buffer != [] then Some(|sources| - 1)
      else None
  }

  function Chosen<T>(sources: seq<Channel<T>>, scheduled: nat): Option<nat>
    requires scheduled < |sources|
  {
    if sources[scheduled].buffer != [] then Some(scheduled) else FirstNonEmpty(sources)
  }

  lemma {:induction false} NoneFirst<T>(sources: seq<Channel<T>>)
    requires forall j | 0 <= j < |sources| :: sources[j].buffer == []
    ensures FirstNonEmpty(sources) == None
  {
    if sources == [] {
    } else {
      NoneFirst(sources[..|sources| - 1]);
    }
  }

  lemma {:induction false} FirstIs<T>(sources: seq<Channel<T>>, i: nat)
    requires i < |sources| && sources[i].buffer != [] && forall j | 0 <= j < i :: sources[j].buffer == []
    ensures FirstNonEmpty(sources) == Some(i)
  {
    var init := sources[..|sources| - 1];
    if i < |init| { FirstIs(init, i); } else { NoneFirst(init); }
  }

  /** Chosen is the scheduled source or the best of those that hold a value; it is None
      exactly when all are empty. */
  lemma {:induction false} ChosenMeaning<T>(sources: seq<Channel<T>>, scheduled: nat)
    requires scheduled < |sources|
    ensures var c := Chosen(sources, scheduled);
            && (c.None? <==> forall j | 0 <= j < |sources| :: sources[j].buffer == [])
            && (c.Some? ==>
                  && c.value < |sources| && sources[c.value].buffer != []
                  && (c.value != scheduled ==>
                        sources[scheduled].buffer == [] && forall j | 0 <= j < c.value :: sources[j].buffer == []))
  {
    var i := 0;
    while i < |sources| && sources[i].buffer == []
      invariant 0 <= i <= |sources|
      invariant forall j | 0 <= j < i :: sources[j].buffer == []
    {
      i := i + 1;
    }
    if i < |sources| { FirstIs(sources, i); } else { NoneFirst(sources); }
  }

  class PriorityRouter<T> {
    const slots: seq<nat>
    var sources: seq<Channel<T>>
    var cursor: int

    ghost predicate Valid()
      reads this
    {
      |sources| > 0 && |slots| > 0 && (forall k | 0 <= k < |slots| :: slots[k] < |sources|) && cursor >= 0
    }

    /** The source panics when there is no source or a weight below one. */
    constructor (channels: seq<Channel<T>>, weights: seq<nat>)
      requires |channels| == |weights| > 0
      requires forall i | 0 <= i < |weights| :: weights[i] >= 1
      ensures Valid() && sources == channels && cursor == 0
      ensures IsSlotTable(slots, weights)
    {
      var table: seq<nat> := [];
      var i := 0;
      while i < |weights|
        invariant 0 <= i <= |weights|
        invariant IsSlotTable(table, weights[..i])
      {
        var n := 0;
        ghost var before := table;
        OccurrencesOfAbsent(table, i);
        while n < weights[i]
          invariant 0 <= n <= weights[i]
          invariant |table| == |before| + n
          invariant forall k | 0 <= k < |table| :: table[k] <= i
          invariant forall j, k | 0 <= j < k < |table| :: table[j] <= table[k]
          invariant Occurrences(table, i) == n
          invariant forall s: nat | s < i :: Occurrences(table, s) == weights[s]
        {
          forall s: nat { OccurrencesAppend(table, i, s); }
          table := table + [i];
          n := n + 1;
        }
        assert weights[..i + 1][..i] == weights[..i];
        i := i + 1;
      }
      assert weights[..i] == weights;
      TotalPositive(weights);
      slots := table;
      sources := channels;
      cursor := 0;
    }

    /** One call with nobody else at the channels. The scheduled source is served if it has
        a value, else the first source that has one, else whatever the wait brings. */
    method Next(wake: Wake<T>) returns (value: Option<T>)
      requires Valid() && cursor < MAX_INT64
      modifies this`cursor, this`sources
      ensures Valid() && cursor == old(cursor) + 1
      ensures var from := Chosen(old(sources), slots[cursor % |slots|]);
              match from
              case Some(i) =>
                && i < |old(sources)| && old(sources)[i].buffer != []
                && value == Some(old(sources)[i].buffer[0])
                && sources == old(sources)[i := old(sources)[i].(buffer := old(sources)[i].buffer[1..])]
              case None =>
                && sources == old(sources)
                && value == (if wake.Arrives? && !sources[0].closed then Some(wake.value) else None)
    {
      ChosenMeaning(sources, slots[(cursor + 1) % |slots|]);
      cursor := cursor + 1;
      var active := slots[cursor % |slots|];
      value := TryReceive(active);
      if value.Some? {
        return;
      }
      var i := 0;
      while i < |sources|
        invariant 0 <= i <= |sources|
        invariant cursor == old(cursor) + 1 && sources == old(sources) && value.None?
        invariant forall j | 0 <= j < i :: sources[j].buffer == []
      {
        value := TryReceive(i);
        if value.Some? {
          FirstIs(old(sources), i);
          return;
        }
        i := i + 1;
      }
      NoneFirst(sources);
      if sources[0].closed || wake.Interrupted? {
        return None;
      }
      value := Some(wake.value);
    }

    /** A receive with a default branch: the head of a non-empty channel, or nothing. */
    method TryReceive(i: nat) returns (value: Option<T>)
      requires i < |sources|
      modifies this`sources
      ensures old(sources)[i].buffer == [] ==> value.None? && sources == old(sources)
      ensures old(sources)[i].buffer != [] ==>
                && value == Some(old(sources)[i].buffer[0])
                && sources == old(sources)[i := old(sources)[i].(buffer := old(sources)[i].buffer[1..])]
    {
      var ch := sources[i];
      if ch.buffer == [] {
        return None;
      }
      sources := sources[i := ch.(buffer := ch.buffer[1..])];
      value := Some(ch.buffer[0]);
    }
  }

  // ---------------------------------------------------------------- the ticket counter

  function Wrap64(x: int): int {
    (x + MAX_INT64 + 1) % (2 * (MAX_INT64 + 1)) - MAX_INT64 - 1
  }

  /** Go's %, which takes the sign of the dividend. */
  function Remainder(x: int, n: nat): int
    requires n > 0
  {
    if x >= 0 then x % n else -((-x) % n)
  }

  /** The index that a call computes from the counter it finds, for every int64 value of the
      counter: below zero, and then the call panics, exactly when the incremented counter is
      negative and no multiple of the table size. */
  lemma IndexPanicsIff(cursor: int, n: nat)
    requires -MAX_INT64 - 1 <= cursor <= MAX_INT64 && n > 0
    ensures var next := Wrap64(cursor + 1);
            var index := Remainder(next, n);
            && index + n > 0 && index < n
            && next == (if cursor == MAX_INT64 then -MAX_INT64 - 1 else cursor + 1)
            && (index < 0 <==> next < 0 && -next % n != 0)
            && (next >= 0 ==> index == next % n)
  {
  }

  lemma ConsecutiveMultiples(a: nat, n: nat)
    requires n > 0 && a % n == 0 && (a + 1) % n == 0
    ensures n == 1
  {
    var q := a / n;
    assert a == q * n;
    if n > 1 { DivModUnique(a + 1, q, 1, n); }
  }

  /** After the counter wraps, one of the next two calls panics, unless there is one slot. */
  lemma WrapPanicsIff(n: nat)
    requires n > 0
    ensures Remainder(Wrap64(MAX_INT64 + 1), n) < 0 || Remainder(Wrap64(Wrap64(MAX_INT64 + 1) + 1), n) < 0 <==> n > 1
  {
    var big := MAX_INT64 + 1;
    assert Wrap64(MAX_INT64 + 1) == -big && Wrap64(Wrap64(MAX_INT64 + 1) + 1) == -(big - 1);
    if big % n == 0 && (big - 1) % n == 0 { ConsecutiveMultiples(big - 1, n); }
  }

  // ---------------------------------------------------------- shares of consecutive tickets

  function SlotOf(slots: seq<nat>, ticket: nat): nat
    requires |slots| > 0
  {
    slots[ticket % |slots|]
  }

  /** Of the tickets lo .. lo + n - 1, how many are scheduled for source i. */
  function Scheduled(slots: seq<nat>, lo: nat, n: nat, i: nat): nat
    requires |slots| > 0
  {
    if n == 0 then 0
    else Scheduled(slots, lo, n - 1, i) + (if SlotOf(slots, lo + n - 1) == i then 1 else 0)
  }

  lemma {:induction false} ScheduledSplit(slots: seq<nat>, lo: nat, m: nat, n: nat, i: nat)
    requires |slots| > 0
    ensures Scheduled(slots, lo, m + n, i) == Scheduled(slots, lo, m, i) + Scheduled(slots, lo + m, n, i)
    decreases n
  {
    if n == 0 {
    } else {
      ScheduledSplit(slots, lo, m, n - 1, i);
    }
  }

  lemma {:induction false} ScheduledFromZero(slots: seq<nat>, n: nat, i: nat)
    requires 0 < |slots| && n <= |slots|
    ensures Scheduled(slots, 0, n, i) == Occurrences(slots[..n], i)
  {
    if n == 0 {
    } else {
      ScheduledFromZero(slots, n - 1, i);
      DivModUnique(n - 1, 0, n - 1, |slots|);
      assert SlotOf(slots, n - 1) == slots[n - 1];
      assert slots[..n] == slots[..n - 1] + [slots[n - 1]];
      OccurrencesAppend(slots[..n - 1], slots[n - 1], i);
    }
  }

  lemma SameSlotNextRound(slots: seq<nat>, ticket: nat)
    requires |slots| > 0
    ensures SlotOf(slots, ticket + |slots|) == SlotOf(slots, ticket)
  {
    ModStep(ticket, |slots|);
  }

  lemma SingleTicket(slots: seq<nat>, lo: nat, i: nat)
    requires |slots| > 0
    ensures Scheduled(slots, lo, 1, i) == if SlotOf(slots, lo) == i then 1 else 0
  {
    assert Scheduled(slots, lo, 0, i) == 0;
  }

  /** A full round has each source as often as the table does, wherever it begins. */
  lemma {:induction false} FullRound(slots: seq<nat>, lo: nat, i: nat)
    requires |slots| > 0
    ensures Scheduled(slots, lo, |slots|, i) == Occurrences(slots, i)
    decreases lo
  {
    if lo == 0 {
      ScheduledFromZero(slots, |slots|, i);
      assert slots[..|slots|] == slots;
    } else {
      FullRound(slots, lo - 1, i);
      ScheduledSplit(slots, lo - 1, 1, |slots| - 1, i);
      ScheduledSplit(slots, lo, |slots| - 1, 1, i);
      SameSlotNextRound(slots, lo - 1);
      SingleTicket(slots, lo - 1, i);
      SingleTicket(slots, lo + |slots| - 1, i);
    }
  }

  lemma {:induction false} ScheduledAtMost(slots: seq<nat>, lo: nat, n: nat, i: nat)
    requires |slots| > 0
    ensures Scheduled(slots, lo, n, i) <= n
  {
    if n == 0 {
    } else {
      ScheduledAtMost(slots, lo, n - 1, i);
    }
  }

  /** Long-run share: among any n consecutive tickets a source of weight w has its w in
      each full round, and at most min(w, n mod W) more. */
  lemma {:induction false} Share(slots: seq<nat>, weights: seq<nat>, lo: nat, n: nat, i: nat)
    requires |slots| > 0 && IsSlotTable(slots, weights) && i < |weights|
    ensures var w := weights[i];
            var rest := Scheduled(slots, lo, n, i) - n / |slots| * w;
            0 <= rest <= w && rest <= n % |slots|
    decreases n
  {
    var round := |slots|;
    if n < round {
      ScheduledSplit(slots, lo, n, round - n, i);
      FullRound(slots, lo, i);
      ScheduledAtMost(slots, lo, n, i);
      DivModUnique(n, 0, n, round);
    } else {
      Share(slots, weights, lo + round, n - round, i);
      ScheduledSplit(slots, lo, round, n - round, i);
      FullRound(slots, lo, i);
      ModStep(n - round, round);
      Distribute(n / round, 1, weights[i]);
    }
  }

  /** ceil((ahead + 1) / w) * W: tickets within which a source has ahead + 1 slots. */
  function WaitBound(slots: seq<nat>, weight: nat, ahead: nat): nat
    requires weight > 0
  {
    (ahead + weight) / weight * |slots|
  }

  lemma CeilingCovers(ahead: nat, w: nat)
    requires w > 0
    ensures (ahead + w) / w * w >= ahead + 1
  {
    assert ahead + w == (ahead + w) / w * w + (ahead + w) % w;
  }

  lemma EnoughSlots(slots: seq<nat>, weights: seq<nat>, lo: nat, ahead: nat, i: nat, wait: nat)
    requires |slots| > 0 && IsSlotTable(slots, weights) && i < |weights| && weights[i] > 0
    requires wait == WaitBound(slots, weights[i], ahead)
    ensures Scheduled(slots, lo, wait, i) >= ahead + 1
  {
    var w := weights[i];
    var rounds := (ahead + w) / w;
    assert wait == rounds * |slots|;
    Share(slots, weights, lo, rounds * |slots|, i);
    DivModUnique(rounds * |slots|, rounds, 0, |slots|);
    CeilingCovers(ahead, w);
  }
}
