/** The per-notification lock of shared/lock/redis.go. Redis is a key space with expiry
    times: SET NX PX sets a key that is absent or expired, DEL removes it unconditionally.
    A command can fail before it is executed, or its reply can be lost afterwards. */
module RedisLock {
  const LOCK_TTL: int := 10 * 1_000_000_000

  type KeySpace = map<string, int>

  datatype Fault = NoFault | NotExecuted | ReplyLost

  datatype LockReply = LockError | LockMiss | LockAcquired

  function LockKey(id: string): string { "notify:lock:" + id }

  predicate Live(keys: KeySpace, key: string, now: int) { key in keys && now < keys[key] }

  function SetIfAbsent(keys: KeySpace, key: string, now: int): KeySpace {
    if Live(keys, key, now) then keys else keys[key := now + LOCK_TTL]
  }

  function AfterTryLock(keys: KeySpace, id: string, now: int, fault: Fault): KeySpace {
    if fault.NotExecuted? then keys else SetIfAbsent(keys, LockKey(id), now)
  }

  function TryLockReply(keys: KeySpace, id: string, now: int, fault: Fault): LockReply {
    if !fault.NoFault? then LockError
    else if Live(keys, LockKey(id), now) then LockMiss
    else LockAcquired
  }

  function AfterUnlock(keys: KeySpace, id: string, fault: Fault): KeySpace {
    if fault.NotExecuted? then keys else keys - {LockKey(id)}
  }

  class RedisLocker {
    var keys: KeySpace
    var now: int

    constructor ()
      ensures keys == map[] && now == 0
    {
      keys, now := map[], 0;
    }

    method TryLock(id: string, fault: Fault) returns (reply: LockReply)
      modifies this`keys
      ensures reply == TryLockReply(old(keys), id, now, fault)
      ensures keys == AfterTryLock(old(keys), id, now, fault)
      ensures reply.LockAcquired? ==> keys == old(keys)[LockKey(id) := now + LOCK_TTL]
      ensures reply.LockMiss? ==> keys == old(keys)
    {
      if fault.NotExecuted? {
        return LockError;
      }
      var key := LockKey(id);
      var acquired := !Live(keys, key, now);
      if acquired {
        keys := keys[key := now + LOCK_TTL];
      }
      if fault.ReplyLost? {
        return LockError;
      }
      reply := if acquired then LockAcquired else LockMiss;
    }

    method Unlock(id: string, fault: Fault) returns (ok: bool)
      modifies this`keys
      ensures ok <==> fault.NoFault?
      ensures keys == AfterUnlock(old(keys), id, fault)
    {
      if fault.NotExecuted? {
        return false;
      }
      keys := keys - {LockKey(id)};
      ok := fault.NoFault?;
    }
  }

  lemma LockKeyInjective(a: string, b: string)
    requires LockKey(a) == LockKey(b)
    ensures a == b
  {
    assert a == LockKey(a)[|"notify:lock:"|..];
    assert b == LockKey(b)[|"notify:lock:"|..];
  }
}

/** Any number of workers sharing the lock under a clock, one Redis command at a time. */
module LockProtocol {
  import opened RedisLock
  import opened Traces

  datatype Hold = Hold(id: string, since: int)

  /** `holders` has the workers that are between a successful TryLock and their Unlock.
      `setBy` remembers which worker last set a key; the stored value does not. */
  datatype State = State(now: int, keys: KeySpace, holders: map<nat, Hold>, setBy: map<string, nat>)

  datatype Action =
    | Acquire(worker: nat, id: string, fault: Fault)
    | Release(worker: nat, fault: Fault)
    | Pass(elapsed: nat)

  const INITIAL := State(0, map[], map[], map[])

  predicate Enabled(s: State, a: Action) {
    match a
    case Acquire(w, _, _) => w !in s.holders
    case Release(w, _) => w in s.holders
    case Pass(_) => true
  }

  function Step(s: State, a: Action): State {
    if !Enabled(s, a) then s else
    match a
    case Acquire(w, id, fault) =>
      var reply := TryLockReply(s.keys, id, s.now, fault);
      s.(keys := AfterTryLock(s.keys, id, s.now, fault),
         holders := if reply.LockAcquired? then s.holders[w := Hold(id, s.now)] else s.holders,
         setBy := if fault.NotExecuted? || Live(s.keys, LockKey(id), s.now) then s.setBy
                  else s.setBy[LockKey(id) := w])
    case Release(w, fault) =>
      s.(keys := AfterUnlock(s.keys, s.holders[w].id, fault), holders := s.holders - {w})
    case Pass(elapsed) =>
      s.(now := s.now + elapsed)
  }

  function After(t: Trace<Action>): State {
    match t
    case Start => INITIAL
    case Then(before, a) => Step(After(before), a)
  }

  /** Every holder has held for less than the expiry time. */
  ghost predicate Timely(s: State) {
    forall w | w in s.holders :: s.now < s.holders[w].since + LOCK_TTL
  }

  /** Every state of the run is timely: each holder unlocks before its key expires. */
  ghost predicate AlwaysTimely(t: Trace<Action>) {
    Timely(After(t)) && (t.Start? || AlwaysTimely(t.before))
  }

  ghost predicate OwnsKey(s: State, w: nat)
    requires w in s.holders
  {
    var key := LockKey(s.holders[w].id);
    && key in s.keys && s.keys[key] == s.holders[w].since + LOCK_TTL
    && key in s.setBy && s.setBy[key] == w
  }

  ghost predicate Inv(s: State) {
    && (forall w | w in s.holders :: OwnsKey(s, w))
    && (forall key | key in s.keys :: s.keys[key] <= s.now + LOCK_TTL)
  }

  lemma StepKeepsInv(s: State, a: Action)
    requires Inv(s) && Timely(s)
    ensures Inv(Step(s, a))
  {
    if !Enabled(s, a) { return; }
    var s' := Step(s, a);
    forall w | w in s'.holders
      ensures OwnsKey(s', w)
    {
      if w in s.holders {
        assert OwnsKey(s, w);
        var id := s.holders[w].id;
        match a
        case Acquire(w', id', _) =>
          if LockKey(id') == LockKey(id) { assert Live(s.keys, LockKey(id), s.now); }
        case Release(w', _) =>
          assert OwnsKey(s, w');
          if LockKey(s.holders[w'].id) == LockKey(id) { assert false; }
        case Pass(_) =>
      }
    }
  }

  lemma {:induction false} TimelyRunInv(t: Trace<Action>)
    requires AlwaysTimely(t)
    ensures Inv(After(t))
  {
    if t.Start? {
    } else {
      TimelyRunInv(t.before);
      StepKeepsInv(After(t.before), t.action);
    }
  }

  /** Mutual exclusion: while everybody releases in time, no two workers hold one id. */
  lemma MutualExclusion(t: Trace<Action>, w1: nat, w2: nat)
    requires AlwaysTimely(t)
    requires var holders := After(t).holders;
             w1 in holders && w2 in holders && holders[w1].id == holders[w2].id
    ensures w1 == w2
  {
    TimelyRunInv(t);
    assert OwnsKey(After(t), w1) && OwnsKey(After(t), w2);
  }

  /** An executed Unlock removes exactly the key its own worker set, and every other hold
      keeps its key. */
  lemma UnlockDeletesOwnKey(t: Trace<Action>, w: nat, fault: Fault)
    requires AlwaysTimely(t) && w in After(t).holders && !fault.NotExecuted?
    ensures var s := After(t);
            var s' := Step(s, Release(w, fault));
            var key := LockKey(s.holders[w].id);
            && key in s.keys && key in s.setBy && s.setBy[key] == w
            && s'.keys == s.keys - {key}
            && forall w' | w' in s'.holders :: LockKey(s'.holders[w'].id) in s'.keys
  {
    var s := After(t);
    TimelyRunInv(t);
    assert OwnsKey(s, w);
    forall w' | w' in s.holders && w' != w
      ensures LockKey(s.holders[w'].id) in s.keys - {LockKey(s.holders[w].id)}
    {
      assert OwnsKey(s, w');
    }
  }

  /** The expiry is the only way in: after any further wait, a second worker gets the lock
      of a held id exactly when the holder has then overrun the ten seconds. */
  lemma SecondHolderIffOverrun(t: Trace<Action>, elapsed: nat, holder: nat)
    requires AlwaysTimely(t) && holder in After(t).holders
    ensures var hold := After(t).holders[holder];
            var later := Step(After(t), Pass(elapsed));
            TryLockReply(later.keys, hold.id, later.now, NoFault).LockAcquired?
            <==> later.now >= hold.since + 10_000_000_000
  {
    TimelyRunInv(t);
    assert OwnsKey(After(t), holder);
  }

  /** Expiry times never lie more than ten seconds ahead, in any run at all. */
  lemma {:induction false} ExpiryBounded(t: Trace<Action>)
    ensures forall key | key in After(t).keys :: After(t).keys[key] <= After(t).now + LOCK_TTL
  {
    if t.Start? {
    } else {
      ExpiryBounded(t.before);
    }
  }

  /** A key nobody deletes, whoever left it behind, stops blocking after ten seconds. */
  lemma BlockedAtMostTtl(t: Trace<Action>, elapsed: nat, id: string)
    requires elapsed >= 10_000_000_000
    ensures var later := Step(After(t), Pass(elapsed));
            TryLockReply(later.keys, id, later.now, NoFault).LockAcquired?
  {
    ExpiryBounded(t);
  }

  /** Without the time assumption the lock has no owner to protect it: worker 0 overruns,
      worker 1 gets in beside it, and the late Unlock of worker 0 lets worker 2 in too. */
  lemma OverrunBreaksExclusion(id: string)
    ensures var overrun := Then(Then(Start, Acquire(0, id, NoFault)), Pass(LOCK_TTL));
            var t := Then(Then(Then(overrun, Acquire(1, id, NoFault)), Release(0, NoFault)),
                          Acquire(2, id, NoFault));
            After(t).holders == map[1 := Hold(id, LOCK_TTL), 2 := Hold(id, LOCK_TTL)]
  {
    var s1 := Step(INITIAL, Acquire(0, id, NoFault));
    var s2 := Step(s1, Pass(LOCK_TTL));
    var s3 := Step(s2, Acquire(1, id, NoFault));
    assert s3.holders == map[0 := Hold(id, 0), 1 := Hold(id, LOCK_TTL)];
    var s4 := Step(s3, Release(0, NoFault));
    var s5 := Step(s4, Acquire(2, id, NoFault));
    assert s5.holders == map[1 := Hold(id, LOCK_TTL), 2 := Hold(id, LOCK_TTL)];
    assert s1 == After(Then(Start, Acquire(0, id, NoFault)));
    assert s3 == After(Then(Then(Then(Start, Acquire(0, id, NoFault)), Pass(LOCK_TTL)), Acquire(1, id, NoFault)));
  }
}
