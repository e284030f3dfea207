/** Retry backoff of the processor: RetryDelay in processor/internal/service/retry.go.
    Durations are int64 nanoseconds. Floating point is modelled by exact reals; the
    conversion of an out-of-range float to int64, which Go leaves to the platform, is
    the parameter `platform`. */
module Backoff {
  const SECOND: int := 1_000_000_000
  const MAX_ATTEMPTS: int := 4
  const RETRY_BASE: int := 60 * SECOND
  const RETRY_MAX_WAIT: int := 480 * SECOND
  const TWO_63: int := 0x8000_0000_0000_0000

  type Duration = d: int | -TWO_63 <= d < TWO_63

  predicate IsRandom(r: real) { 0.0 <= r < 1.0 }

  /** math.Pow(2, k) for a whole exponent of either sign. */
  function PowerOfTwo(k: int): real
    decreases if k < 0 then -k else k
  {
    if k == 0 then 1.0
    else if k > 0 then 2.0 * PowerOfTwo(k - 1)
    else PowerOfTwo(k + 1) / 2.0
  }

  function Truncate(x: real): int {
    if x >= 0.0 then x.Floor else -((-x).Floor)
  }

  lemma TruncateFits(x: real)
    requires -(TWO_63 as real) <= x < TWO_63 as real
    ensures -TWO_63 <= Truncate(x) < TWO_63
  {
  }

  /** time.Duration(x): truncation when the value fits, the platform's choice when not. */
  function ToDuration(x: real, platform: Duration): Duration {
    if -(TWO_63 as real) <= x < TWO_63 as real then
      TruncateFits(x);
      Truncate(x)
    else platform
  }

  function Wrap64(x: int): Duration {
    (x + TWO_63) % (2 * TWO_63) - TWO_63
  }

  function CappedBase(attempt: int, platform: Duration): Duration {
    var base := ToDuration(RETRY_BASE as real * PowerOfTwo(attempt - 2), platform);
    if base > RETRY_MAX_WAIT then RETRY_MAX_WAIT else base
  }

  lemma FractionOf(random: real, x: real)
    requires 0.0 <= random < 1.0 && 0.0 <= x
    ensures 0.0 <= random * x <= x
  {
  }

  function Scale(random: real, x: real): (y: real)
    ensures IsRandom(random) && 0.0 <= x ==> 0.0 <= y <= x
  {
    if 0.0 <= x && 0.0 <= random < 1.0 then FractionOf(random, x); random * x
    else random * x
  }

  function Jitter(base: Duration, random: real, platform: Duration): Duration {
    ToDuration(Scale(random, base as real) * 0.2, platform)
  }

  /** The wait before delivery number `attempt`; `random` is the rand.Float64() drawn. */
  function RetryDelay(attempt: int, random: real, platform: Duration): Duration {
    var base := CappedBase(attempt, platform);
    Wrap64(base + Jitter(base, random, platform))
  }

  // ---------------------------------------------------------------- reference schedule

  function Pow2(k: nat): nat {
    if k == 0 then 1 else 2 * Pow2(k - 1)
  }

  /** min(60s * 2^(attempt-2), 480s) over the unbounded integers. */
  function NominalBase(attempt: int): int
    requires attempt >= 2
  {
    var uncapped := RETRY_BASE * Pow2(attempt - 2);
    if uncapped > RETRY_MAX_WAIT then RETRY_MAX_WAIT else uncapped
  }

  /** base <= delay <= 1.2 * base. */
  predicate InBand(attempt: int, delay: int)
    requires attempt >= 2
  {
    NominalBase(attempt) <= delay && 5 * delay <= 6 * NominalBase(attempt)
  }

  lemma {:induction false} PowerOfTwoIsPow2(k: nat)
    ensures PowerOfTwo(k) == Pow2(k) as real
  {
    if k == 0 {
    } else {
      PowerOfTwoIsPow2(k - 1);
    }
  }

  lemma {:induction false} Pow2Grows(j: nat, k: nat)
    requires j <= k
    ensures Pow2(j) <= Pow2(k)
    decreases k
  {
    if j == k {
    } else {
      Pow2Grows(j, k - 1);
    }
  }

  lemma Pow2Limits()
    ensures Pow2(3) == 8 && Pow2(27) == 0x800_0000 && Pow2(28) == 0x1000_0000
  {
    assert Pow2(3) == 8;
    assert Pow2(9) == 0x200 by { assert Pow2(6) == 64; }
    assert Pow2(15) == 0x8000 by { assert Pow2(12) == 0x1000; }
    assert Pow2(21) == 0x20_0000 by { assert Pow2(18) == 0x4_0000; }
    assert Pow2(24) == 0x100_0000;
    assert Pow2(27) == 0x800_0000;
  }

  lemma TruncateBounds(x: real, b: int)
    requires 0.0 <= x && 5.0 * x <= b as real
    ensures 0 <= Truncate(x) && 5 * Truncate(x) <= b
  {
    var t := Truncate(x);
    assert t as real <= x;
    assert (5 * t) as real <= b as real;
  }

  lemma JitterOfProduct(product: real, base: Duration, platform: Duration)
    requires 0 <= base <= RETRY_MAX_WAIT && 0.0 <= product <= base as real
    ensures 0 <= ToDuration(product * 0.2, platform)
    ensures 5 * ToDuration(product * 0.2, platform) <= base
  {
    TruncateBounds(product * 0.2, base);
  }

  lemma JitterBand(base: Duration, random: real, platform: Duration)
    requires 0 <= base <= RETRY_MAX_WAIT && IsRandom(random)
    ensures 0 <= Jitter(base, random, platform) && 5 * Jitter(base, random, platform) <= base
  {
    JitterOfProduct(Scale(random, base as real), base, platform);
  }

  lemma Pow2Range(k: nat)
    requires k <= 27
    ensures 1 <= Pow2(k) <= 0x800_0000
  {
    Pow2Limits();
    Pow2Grows(k, 27);
    Pow2Grows(0, k);
  }

  lemma WholeFits(n: int, platform: Duration)
    requires 0 <= n < TWO_63
    ensures ToDuration(n as real, platform) == n
  {
  }

  /** A whole multiple of the base, up to 2^27 times, fits int64. */
  lemma MultipleFits(p: nat, x: real, platform: Duration)
    requires 1 <= p <= 0x800_0000 && x == p as real
    ensures RETRY_BASE * p > 0 && ToDuration(RETRY_BASE as real * x, platform) == RETRY_BASE * p
  {
    assert RETRY_BASE == 60_000_000_000;
    assert RETRY_BASE as real * x == (RETRY_BASE * p) as real;
    WholeFits(RETRY_BASE * p, platform);
  }

  /** On 2..29 the float product fits int64, so the base is the nominal one. */
  lemma BaseIsNominal(attempt: int, platform: Duration)
    requires 2 <= attempt <= 29
    ensures CappedBase(attempt, platform) == NominalBase(attempt)
    ensures 0 < NominalBase(attempt) <= RETRY_MAX_WAIT
  {
    PowerOfTwoIsPow2(attempt - 2);
    Pow2Range(attempt - 2);
    MultipleFits(Pow2(attempt - 2), PowerOfTwo(attempt - 2), platform);
  }

  lemma WrapKeeps(x: int)
    requires -TWO_63 <= x < TWO_63
    ensures Wrap64(x) == x
  {
  }

  lemma DelayInBand(attempt: int, random: real, platform: Duration)
    requires 2 <= attempt <= 29 && IsRandom(random)
    ensures InBand(attempt, RetryDelay(attempt, random, platform))
  {
    BaseIsNominal(attempt, platform);
    JitterBand(NominalBase(attempt), random, platform);
    WrapKeeps(NominalBase(attempt) + Jitter(NominalBase(attempt), random, platform));
  }

  lemma AtLeastOnce(r: real, y: real)
    requires r >= 1.0 && y > 0.0
    ensures r * y >= y
  {
    assert (r - 1.0) * y >= 0.0;
  }

  lemma QuotientTimes(x: real, y: real)
    requires 0.0 <= x < y
    ensures 0.0 <= x / y < 1.0 && x / y * y == x
  {
    assert x / y * y == x;
    if x / y >= 1.0 { AtLeastOnce(x / y, y); }
  }

  lemma JitterOf(base: Duration, extra: int, platform: Duration) returns (random: real)
    requires 0 < base <= RETRY_MAX_WAIT && 0 <= 5 * extra < base
    ensures IsRandom(random) && Jitter(base, random, platform) == extra
  {
    var x := (5 * extra) as real;
    QuotientTimes(x, base as real);
    random := x / base as real;
    assert Scale(random, base as real) == x;
    assert x * 0.2 == extra as real;
    WholeFits(extra, platform);
  }

  /** The jitter is spread over the whole band: every whole delay from the base up to, but
      not including, 1.2 times the base comes out for some draw. */
  lemma EveryDelayOccurs(attempt: int, delay: int, platform: Duration) returns (random: real)
    requires 2 <= attempt <= 29 && NominalBase(attempt) <= delay && 5 * delay < 6 * NominalBase(attempt)
    ensures IsRandom(random) && RetryDelay(attempt, random, platform) == delay
  {
    BaseIsNominal(attempt, platform);
    random := JitterOf(NominalBase(attempt), delay - NominalBase(attempt), platform);
    WrapKeeps(delay);
  }

  /** From attempt 30 on the product leaves int64; a platform that answers with the most
      negative integer then yields a delay outside the band. */
  lemma OverflowLeavesBand(attempt: int)
    requires attempt >= 30
    ensures RetryDelay(attempt, 0.0, -TWO_63) == -TWO_63 && !InBand(attempt, -TWO_63)
  {
    PowerOfTwoIsPow2(attempt - 2);
    Pow2Limits();
    Pow2Grows(28, attempt - 2);
    var product := RETRY_BASE * Pow2(attempt - 2);
    assert RETRY_BASE as real * PowerOfTwo(attempt - 2) == product as real;
    assert product >= TWO_63;
    assert CappedBase(attempt, -TWO_63) == -TWO_63;
  }

  /** The delay is the documented capped backoff on every platform and for every random
      draw exactly when the attempt number is at most 29. */
  lemma BandHoldsIffBelowThirty(attempt: int)
    requires attempt >= 2
    ensures (forall random: real, platform: Duration | IsRandom(random) ::
               InBand(attempt, RetryDelay(attempt, random, platform)))
            <==> attempt <= 29
  {
    if attempt <= 29 {
      forall random: real, platform: Duration | IsRandom(random)
        ensures InBand(attempt, RetryDelay(attempt, random, platform))
      {
        DelayInBand(attempt, random, platform);
      }
    } else {
      OverflowLeavesBand(attempt);
      assert IsRandom(0.0);
    }
  }

  /** Until the cap is reached the next wait is longer, whatever the two jitters are. */
  lemma DelaysIncreaseUntilCap(attempt: int, r: real, r': real, platform: Duration)
    requires 2 <= attempt < 5 && IsRandom(r) && IsRandom(r')
    ensures RetryDelay(attempt, r, platform) < RetryDelay(attempt + 1, r', platform)
  {
    DelayInBand(attempt, r, platform);
    DelayInBand(attempt + 1, r', platform);
    Pow2Limits();
    Pow2Grows(attempt - 1, 3);
    assert NominalBase(attempt + 1) == 2 * NominalBase(attempt);
    BaseIsNominal(attempt, platform);
  }

  /** The waits before deliveries 2..m, with one random draw each. */
  function TotalBackoff(m: int, randoms: seq<real>, platform: Duration): int
    requires m >= 1 && |randoms| == m - 1
  {
    if m == 1 then 0
    else TotalBackoff(m - 1, randoms[..m - 2], platform) + RetryDelay(m, randoms[m - 2], platform)
  }

  function TotalNominal(m: int): int
    requires m >= 1
  {
    if m <= 5 then 60 * SECOND * (Pow2(m - 1) - 1) else 900 * SECOND + 480 * SECOND * (m - 5)
  }

  lemma NominalStep(m: int)
    requires m >= 2
    ensures TotalNominal(m) == TotalNominal(m - 1) + NominalBase(m)
  {
    Pow2Limits();
    assert Pow2(4) == 16;
    if m <= 5 { Pow2Grows(m - 2, 3); } else { Pow2Grows(4, m - 2); }
  }

  lemma {:induction false} TotalBackoffBounds(m: int, randoms: seq<real>, platform: Duration)
    requires 1 <= m <= 29 && |randoms| == m - 1
    requires forall k | 0 <= k < |randoms| :: IsRandom(randoms[k])
    ensures TotalNominal(m) <= TotalBackoff(m, randoms, platform)
    ensures 5 * TotalBackoff(m, randoms, platform) <= 6 * TotalNominal(m)
    decreases m
  {
    if m == 1 {
    } else {
      TotalBackoffBounds(m - 1, randoms[..m - 2], platform);
      DelayInBand(m, randoms[m - 2], platform);
      NominalStep(m);
    }
  }
}
