/** The pipelined publish of shared/messaging/nats/publisher.go. */
module BatchPublisher {
  /** What becomes of one message of a batch: it cannot be encoded, cannot be handed to the
      client, is acknowledged, or is not, although the broker may have stored it. */
  datatype SendReply = MarshalError | AsyncError | Acked | NotAcked(stored: bool)

  predicate Refused(r: SendReply) { r.MarshalError? || r.AsyncError? }

  predicate Lands(r: SendReply) { r.Acked? || (r.NotAcked? && r.stored) }

  predicate RefusedBefore(replies: nat -> SendReply, k: nat) {
    exists j :: 0 <= j < k && Refused(replies(j))
  }

  /** The messages of a batch that reach the stream: those that land, up to the first one
      that is refused. */
  function Landed<T>(messages: seq<T>, replies: nat -> SendReply): seq<T> {
    if messages == [] then []
    else
      var k := |messages| - 1;
      Landed(messages[..k], replies) +
      (if Lands(replies(k)) && !RefusedBefore(replies, k) then [messages[k]] else [])
  }

  predicate AllAcked(replies: nat -> SendReply, n: nat) {
    forall k: nat | k < n :: replies(k).Acked?
  }

  /** Nothing after a refused message is sent. */
  lemma {:induction false} LandedStops<T>(messages: seq<T>, replies: nat -> SendReply, k: nat)
    requires k < |messages| && Refused(replies(k)) && !RefusedBefore(replies, k)
    ensures Landed(messages, replies) == Landed(messages[..k], replies)
    decreases |messages|
  {
    var last := |messages| - 1;
    if k == last {
    } else {
      LandedStops(messages[..last], replies, k);
      assert messages[..last][..k] == messages[..k];
      assert RefusedBefore(replies, last);
    }
  }

  class Publisher<T> {
    var stream: seq<T>

    constructor ()
      ensures stream == []
    {
      stream := [];
    }

    /** No error exactly when every message was acknowledged before the context ended; an
        error may leave some of the messages in the stream. */
    method PublishBatch(messages: seq<T>, replies: nat -> SendReply, cancelled: bool) returns (ok: bool)
      modifies this
      ensures ok <==> messages == [] || (!cancelled && AllAcked(replies, |messages|))
      ensures stream == old(stream) + Landed(messages, replies)
    {
      if |messages| == 0 {
        return true;
      }
      var futures: seq<nat> := [];
      var k := 0;
      while k < |messages|
        invariant 0 <= k <= |messages|
        invariant !RefusedBefore(replies, k)
        invariant futures == seq(k, i => i)
        invariant stream == old(stream) + Landed(messages[..k], replies)
      {
        if Refused(replies(k)) {
          LandedStops(messages, replies, k);
          return false;
        }
        assert messages[..k + 1][..k] == messages[..k];
        if Lands(replies(k)) {
          stream := stream + [messages[k]];
        }
        futures := futures + [k];
        k := k + 1;
      }
      assert messages[..k] == messages;
      if cancelled {
        return false;
      }
      var errs := 0;
      for i := 0 to |futures|
        invariant errs == 0 <==> AllAcked(replies, i)
      {
        if !replies(futures[i]).Acked? {
          errs := errs + 1;
        }
      }
      ok := errs == 0;
    }
  }

  /** Whatever happens, only messages of the batch land, each at most as often as it occurs. */
  lemma {:induction false} LandedIsPartOfBatch<T>(messages: seq<T>, replies: nat -> SendReply)
    ensures multiset(Landed(messages, replies)) <= multiset(messages)
    decreases |messages|
  {
    if messages == [] {
    } else {
      var k := |messages| - 1;
      var init := messages[..k];
      LandedIsPartOfBatch(init, replies);
      assert messages == init + [messages[k]];
      assert multiset(messages) == multiset(init) + multiset{messages[k]};
      if Lands(replies(k)) && !RefusedBefore(replies, k) {
        assert multiset(Landed(messages, replies)) == multiset(Landed(init, replies)) + multiset{messages[k]};
      }
    }
  }

  /** When all are acknowledged, exactly the batch lands, in order. */
  lemma {:induction false} AckedBatchLands<T>(messages: seq<T>, replies: nat -> SendReply)
    requires AllAcked(replies, |messages|)
    ensures Landed(messages, replies) == messages
    decreases |messages|
  {
    if messages == [] {
    } else {
      var k := |messages| - 1;
      AckedBatchLands(messages[..k], replies);
      assert !RefusedBefore(replies, k);
      assert messages == messages[..k] + [messages[k]];
    }
  }

  /** Message k is acknowledged, or stored without an acknowledgement, and no message before
      it cannot be encoded or handed over. */
  ghost predicate Reaches(replies: nat -> SendReply, k: nat) {
    && (replies(k).Acked? || (replies(k).NotAcked? && replies(k).stored))
    && forall j: nat | j < k :: !replies(j).MarshalError? && !replies(j).AsyncError?
  }

  lemma ReachesWhenLands(replies: nat -> SendReply, k: nat)
    ensures Reaches(replies, k) <==> Lands(replies(k)) && !RefusedBefore(replies, k)
  {
    if !RefusedBefore(replies, k) {
      forall j: nat | j < k ensures !replies(j).MarshalError? && !replies(j).AsyncError? {
        assert !Refused(replies(j));
      }
    }
  }

  lemma CountAppend<T>(s: seq<T>, t: seq<T>, x: T)
    ensures multiset(s + t)[x] == multiset(s)[x] + multiset(t)[x]
  {
    assert multiset(s + t) == multiset(s) + multiset(t);
  }

  predicate LandsAt(replies: nat -> SendReply, k: nat) {
    Lands(replies(k)) && !RefusedBefore(replies, k)
  }

  lemma LandedStep<T>(messages: seq<T>, init: seq<T>, m: T, replies: nat -> SendReply, x: T)
    requires messages == init + [m]
    ensures multiset(Landed(messages, replies))[x]
            == multiset(Landed(init, replies))[x] + (if LandsAt(replies, |init|) && x == m then 1 else 0)
  {
    var tail := if LandsAt(replies, |init|) then [m] else [];
    assert messages[..|init|] == init;
    assert Landed(messages, replies) == Landed(init, replies) + tail;
    CountAppend(Landed(init, replies), tail, x);
  }

  lemma NotLandedBefore<T>(init: seq<T>, replies: nat -> SendReply, x: T)
    requires x !in init
    ensures multiset(Landed(init, replies))[x] == 0
  {
    LandedIsPartOfBatch(init, replies);
    assert x !in multiset(init);
  }

  lemma {:induction false} LandedCount<T>(messages: seq<T>, replies: nat -> SendReply, k: nat)
    requires k < |messages| && forall i, j | 0 <= i < j < |messages| :: messages[i] != messages[j]
    ensures multiset(Landed(messages, replies))[messages[k]] == if LandsAt(replies, k) then 1 else 0
    decreases |messages|
  {
    var last := |messages| - 1;
    var init := messages[..last];
    LandedStep(messages, init, messages[last], replies, messages[k]);
    if k < last {
      LandedCount(init, replies, k);
    } else {
      NotLandedBefore(init, replies, messages[k]);
    }
  }

  /** Of a batch without repetitions, exactly the messages that reach the stream are in it. */
  lemma LandedAt<T>(messages: seq<T>, replies: nat -> SendReply, k: nat)
    requires k < |messages| && forall i, j | 0 <= i < j < |messages| :: messages[i] != messages[j]
    ensures multiset(Landed(messages, replies))[messages[k]] == if Reaches(replies, k) then 1 else 0
  {
    LandedCount(messages, replies, k);
    ReachesWhenLands(replies, k);
  }
}
