/** The retry budget: retries in flight, as a share of the requests in flight. */
module RetryBudgets {
  import opened Basics

  /** A Go conversion to an integer drops the fraction. */
  function Truncated(x: real): int {
    if x >= 0.0 then x.Floor else -(-x).Floor
  }

  /** The share of the load that retries may add. */
  function Share(percent: real, load: int): real {
    percent / 100.0 * load as real
  }

  /** How many retries may be in flight when `load` requests are. */
  function LimitAt(percent: real, minimum: int, load: int): int {
    Max(minimum, Truncated(Share(percent, load)))
  }

  lemma LimitGrows(percent: real, minimum: int, low: int, high: int)
    requires percent >= 0.0 && 0 <= low <= high
    ensures LimitAt(percent, minimum, low) <= LimitAt(percent, minimum, high)
  {
    ShareGrows(percent, low, high);
    TruncatedGrows(Share(percent, low), Share(percent, high));
  }

  lemma ShareGrows(percent: real, low: int, high: int)
    requires percent >= 0.0 && 0 <= low <= high
    ensures 0.0 <= Share(percent, low) <= Share(percent, high)
  {
    var p := percent / 100.0;
    NotNegative(p, low as real);
    NotNegative(p, (high - low) as real);
    assert p * high as real == p * low as real + p * (high - low) as real;
  }

  lemma NotNegative(a: real, b: real)
    requires 0.0 <= a && 0.0 <= b
    ensures 0.0 <= a * b
  {
  }

  lemma TruncatedGrows(low: real, high: real)
    requires 0.0 <= low <= high
    ensures Truncated(low) <= Truncated(high)
  {
  }

  /** The limit is the minimum, or the whole retries in that share of the load if they are more. */
  lemma LimitIs(percent: real, minimum: int, load: int, k: nat)
    requires 100.0 * k as real <= percent * load as real < 100.0 * (k + 1) as real
    ensures LimitAt(percent, minimum, load) == if minimum < k then k else minimum
  {
    ShareScales(percent, load);
  }

  lemma ShareScales(percent: real, load: int)
    ensures 100.0 * Share(percent, load) == percent * load as real
  {
    assert 100.0 * (percent / 100.0 * load as real) == 100.0 * (percent / 100.0) * load as real;
  }

  /** Being within the limit, without rounding: within the minimum, or within that share of the load. */
  lemma WithinLimit(percent: real, minimum: int, load: int, n: int)
    ensures 1 <= n ==>
              (n <= LimitAt(percent, minimum, load) <==> n <= minimum || 100.0 * n as real <= percent * load as real)
    ensures n > LimitAt(percent, minimum, load) ==> n > minimum && 100.0 * n as real > percent * load as real
  {
    ShareScales(percent, load);
    var share := Share(percent, load);
    assert n as real <= share <==> 100.0 * n as real <= percent * load as real;
    assert 1 <= n ==> (n <= Truncated(share) <==> n as real <= share);
  }

  class RetryBudget {
    const percent: real
    const minimum: int
    var requests: int
    var retries: int

    constructor (percent: real, minimum: int)
      ensures this.percent == percent && this.minimum == minimum && requests == 0 && retries == 0
    {
      this.percent, this.minimum := percent, minimum;
      requests, retries := 0, 0;
    }

    method RequestStarted()
      modifies `requests
      ensures requests == old(requests) + 1
    {
      requests := requests + 1;
    }

    method RequestFinished()
      modifies `requests
      ensures requests == old(requests) - 1
    {
      requests := requests - 1;
    }

    /** Adds first and weighs afterwards; an addition that weighs too much is taken back. */
    method TryRetry() returns (reserved: bool)
      modifies `retries
      ensures reserved <==> old(retries) < LimitAt(percent, minimum, requests)
      ensures 0 <= old(retries) ==>
                (reserved
                 <==> old(retries) < minimum || 100.0 * (old(retries) + 1) as real <= percent * requests as real)
      ensures retries == old(retries) + if reserved then 1 else 0
    {
      WithinLimit(percent, minimum, requests, retries + 1);
      retries := retries + 1;
      if retries > LimitAt(percent, minimum, requests) {
        retries := retries - 1;
        return false;
      }
      return true;
    }

    method RetryFinished()
      modifies `retries
      ensures retries == old(retries) - 1
    {
      retries := retries - 1;
    }
  }
}
