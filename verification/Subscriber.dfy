/** The two fetch loops of shared/messaging/nats/subscriber.go, one fetched slice at a time.
    Messages are named by their place in the slice. */
module Subscriber {
  import opened Ports

  const MAX_INT: nat := 0x7fff_ffff_ffff_ffff

  /** The attempt number of a delivery: the broker's count, or 1 without metadata. */
  function AttemptNumber(numDelivered: Option<nat>): nat {
    match numDelivered
    case None => 1
    case Some(n) => if n < MAX_INT then n else MAX_INT
  }

  ghost predicate AllBelow(s: seq<nat>, n: nat) {
    forall k | 0 <= k < |s| :: s[k] < n
  }

  ghost predicate Increasing(s: seq<nat>) {
    forall j, k | 0 <= j < k < |s| :: s[j] < s[k]
  }

  /** Subscribe: hand over one message at a time. `cancelled(k)` says that the context ended
      while message k was waiting to be handed over; `stop` is that message, or n. */
  method Forward(n: nat, decodes: nat -> bool, cancelled: nat -> bool)
    returns (forwarded: seq<nat>, naks: seq<nat>, stop: nat)
    ensures Increasing(forwarded) && Increasing(naks)
    ensures stop <= n && (stop < n ==> decodes(stop) && cancelled(stop))
    ensures forall k: nat | k < stop && decodes(k) :: !cancelled(k)
    ensures forall k: nat :: k in forwarded <==> k < stop && decodes(k)
    ensures forall k: nat :: k in naks <==> (k < stop && !decodes(k)) || k == stop < n
  {
    forwarded, naks := [], [];
    var k := 0;
    while k < n
      invariant 0 <= k <= n
      invariant Increasing(forwarded) && Increasing(naks) && AllBelow(forwarded, k) && AllBelow(naks, k)
      invariant forall j: nat :: j in forwarded <==> j < k && decodes(j)
      invariant forall j: nat :: j in naks <==> j < k && !decodes(j)
      invariant forall j: nat | j < k && decodes(j) :: !cancelled(j)
    {
      if !decodes(k) {
        naks := naks + [k];
      } else if cancelled(k) {
        naks := naks + [k];
        return forwarded, naks, k;
      } else {
        forwarded := forwarded + [k];
      }
      k := k + 1;
    }
    stop := n;
  }

  /** SubscribeBatch: hand over all decoded messages at once, or nak them all. Whatever
      happens, every message of the slice is handed over or nak'ed, and not both. */
  method ForwardBatch(n: nat, decodes: nat -> bool, cancelled: bool) returns (forwarded: seq<nat>, naks: seq<nat>)
    ensures Increasing(forwarded)
    ensures forall k: nat :: k in forwarded <==> k < n && decodes(k) && !cancelled
    ensures forall k: nat :: k in naks <==> k < n && (decodes(k) ==> cancelled)
    ensures |forwarded| + |naks| == n
  {
    var batch: seq<nat> := [];
    naks := [];
    for k := 0 to n
      invariant Increasing(batch) && AllBelow(batch, k)
      invariant forall j: nat :: j in batch <==> j < k && decodes(j)
      invariant forall j: nat :: j in naks <==> j < k && !decodes(j)
      invariant |batch| + |naks| == k
    {
      if decodes(k) {
        batch := batch + [k];
      } else {
        naks := naks + [k];
      }
    }
    if |batch| == 0 {
      return [], naks;
    }
    if !cancelled {
      return batch, naks;
    }
    ghost var undecoded := naks;
    for j := 0 to |batch|
      invariant naks == undecoded + batch[..j]
    {
      naks := naks + [batch[j]];
    }
    assert batch[..|batch|] == batch;
    forwarded := [];
  }

  /** When Subscribe is interrupted at message `stop`, exactly the messages behind it are
      neither handed over nor nak'ed: they wait for the broker's ack timeout. The slice is
      settled completely if and only if no message is left behind the interrupted one. */
  lemma InterruptedSliceSettledIff(n: nat, decodes: nat -> bool, forwarded: seq<nat>, naks: seq<nat>, stop: nat)
    requires forall k: nat :: k in forwarded <==> k < stop && decodes(k)
    requires forall k: nat :: k in naks <==> (k < stop && !decodes(k)) || k == stop < n
    ensures forall k: nat | k < n :: k !in forwarded && k !in naks <==> stop < k
    ensures (forall k: nat | k < n :: k in forwarded || k in naks) <==> n <= stop + 1
  {
    if stop + 1 < n { assert n - 1 !in forwarded && n - 1 !in naks; }
  }
}
