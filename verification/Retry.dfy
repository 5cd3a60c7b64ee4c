/** Retry policies (src/retry.rs). Durations are in nanoseconds, the clock's reading is a parameter,
    and the random jitter is left to the caller of a policy, who waits for at least the backoff.
    The 32-bit attempt counter wraps around. */
module Backoff {
  import opened Types
  import opened Arithmetic

  const DURATION_MAX: nat := 0x1_0000_0000_0000_0000 * 1_000_000_000 - 1
  const U32_MAX: nat := 0xffff_ffff

  type Duration = d: nat | d <= DURATION_MAX
  type U32 = n: nat | n <= U32_MAX

  function Increment(n: U32): U32 {
    if n == U32_MAX then 0 else n + 1
  }

  function SaturatingDouble(d: Duration): Duration {
    Min(2 * d, DURATION_MAX)
  }

  /** The backoff after `attempts` attempts, the last of which has just been granted. */
  function NextBackoff(attempts: U32, sleep: Duration, maxSleep: Duration): Duration {
    if attempts >= 2 then Min(SaturatingDouble(sleep), maxSleep) else sleep
  }

  function Pow2(n: nat): nat {
    if n == 0 then 1 else 2 * Pow2(n - 1)
  }

  /** What the backoff is said to be: doubled with each attempt, up to the ceiling. */
  function Documented(base: nat, maxSleep: nat, attempts: nat): nat
    requires attempts >= 1
  {
    Min(base * Pow2(attempts - 1), maxSleep)
  }

  /** The backoff after that many attempts. The first one is not capped. */
  function BackoffOf(base: Duration, maxSleep: Duration, attempts: nat): (r: Duration) {
    if attempts <= 1 then base
    else
      Capped(base, maxSleep, attempts);
      Documented(base, maxSleep, attempts)
  }

  lemma Capped(base: nat, maxSleep: nat, attempts: nat)
    requires attempts >= 1
    ensures 0 <= Documented(base, maxSleep, attempts) <= maxSleep
  {
  }

  /** Saturation does not show: the cap is no more than a duration can hold. */
  lemma BackoffDoubles(base: Duration, maxSleep: Duration, attempts: U32)
    requires attempts >= 1
    ensures NextBackoff(attempts, BackoffOf(base, maxSleep, attempts - 1), maxSleep)
         == BackoffOf(base, maxSleep, attempts)
  {
    if attempts >= 2 {
      assert base * Pow2(attempts - 1) == 2 * (base * Pow2(attempts - 2));
    }
  }

  lemma BackoffAtLeast(base: Duration, maxSleep: Duration, attempts: nat)
    ensures Min(base, maxSleep) <= BackoffOf(base, maxSleep, attempts)
  {
    if attempts >= 2 {
      PowPositive(attempts - 1);
      MulMonotone(base, 1, Pow2(attempts - 1));
    }
  }

  lemma {:induction false} PowPositive(n: nat)
    ensures Pow2(n) >= 1
  {
    if n > 0 {
      PowPositive(n - 1);
    }
  }
}

/** Retries bounded by their number (src/retry.rs:141-206). */
module CountedRetry {
  import opened Types
  import opened Backoff

  datatype Policy = Policy(maxSleep: Duration, maxRetries: U32, attempts: U32, currentSleep: Duration)

  function New(base: Duration, maxSleep: Duration, maxRetries: U32): Policy {
    Policy(maxSleep, maxRetries, 0, base)
  }

  predicate Grants(p: Policy) {
    p.attempts == 0 || p.attempts <= p.maxRetries
  }

  function Asked(p: Policy): Policy {
    if !Grants(p) then p
    else
      var attempts := Increment(p.attempts);
      p.(attempts := attempts, currentSleep := NextBackoff(attempts, p.currentSleep, p.maxSleep))
  }

  class ExponentialBackoffRetry {
    const maxSleep: Duration
    const maxRetries: U32
    var attempts: U32
    var currentSleep: Duration

    function View(): Policy
      reads this
    {
      Policy(maxSleep, maxRetries, attempts, currentSleep)
    }

    constructor (base: Duration, maxSleep: Duration, maxRetries: U32)
      ensures View() == New(base, maxSleep, maxRetries)
    {
      this.maxSleep := maxSleep;
      this.maxRetries := maxRetries;
      attempts := 0;
      currentSleep := base;
    }

    method ShouldRetry() returns (granted: bool)
      modifies this
      ensures granted == Grants(old(View()))
      ensures View() == Asked(old(View()))
    {
      if attempts == 0 {
        attempts := 1;
        return true;
      }
      if attempts > maxRetries {
        return false;
      }
      attempts := Increment(attempts);
      if attempts >= 2 {
        currentSleep := Min(SaturatingDouble(currentSleep), maxSleep);
      }
      granted := true;
    }
  }

  /** The policy after it has been asked `n` times. */
  function AskedTimes(p: Policy, n: nat): Policy {
    if n == 0 then p else Asked(AskedTimes(p, n - 1))
  }

  /** After `n` calls the policy has granted `min(n, maxRetries + 1)` attempts, and the backoff is
      that of so many attempts. */
  lemma {:induction false} StateAfter(base: Duration, maxSleep: Duration, maxRetries: U32, n: nat)
    requires maxRetries < U32_MAX
    ensures var granted := Min(n, maxRetries + 1);
      AskedTimes(New(base, maxSleep, maxRetries), n)
        == Policy(maxSleep, maxRetries, granted, BackoffOf(base, maxSleep, granted))
  {
    hide BackoffOf, NextBackoff;
    if n == 0 {
      NoBackoff(base, maxSleep);
    } else {
      StateAfter(base, maxSleep, maxRetries, n - 1);
      if n <= maxRetries + 1 {
        BackoffDoubles(base, maxSleep, n);
      }
    }
  }

  lemma NoBackoff(base: Duration, maxSleep: Duration)
    ensures BackoffOf(base, maxSleep, 0) == base
  {
  }

  /** The backoff after the `n`-th attempt is the documented one exactly from the second attempt on,
      or if the base is under the ceiling. */
  lemma DocumentedExactly(base: Duration, maxSleep: Duration, maxRetries: U32, n: nat)
    requires maxRetries < U32_MAX && 1 <= n <= maxRetries + 1
    ensures AskedTimes(New(base, maxSleep, maxRetries), n).currentSleep == Documented(base, maxSleep, n)
       <==> n >= 2 || base <= maxSleep
  {
    hide AskedTimes;
    StateAfter(base, maxSleep, maxRetries, n);
    assert Pow2(0) == 1 && base * 1 == base;
  }

  /** The first attempt leaves the backoff alone, and every further one doubles it, up to the ceiling. */
  lemma EachAttemptDoubles(base: Duration, maxSleep: Duration, maxRetries: U32, n: nat)
    requires maxRetries < U32_MAX && n <= maxRetries
    ensures
      var before := AskedTimes(New(base, maxSleep, maxRetries), n).currentSleep;
      var after := AskedTimes(New(base, maxSleep, maxRetries), n + 1).currentSleep;
      after == if n == 0 then before else if 2 * before < maxSleep then 2 * before else maxSleep
  {
    StateAfter(base, maxSleep, maxRetries, n);
    var p := AskedTimes(New(base, maxSleep, maxRetries), n);
    assert AskedTimes(New(base, maxSleep, maxRetries), n + 1) == Asked(p);
    hide BackoffOf, AskedTimes;
  }

  /** Exactly the first `maxRetries + 1` calls are granted, as long as that number can be counted
      in 32 bits. Otherwise all are. */
  lemma GrantedExactly(base: Duration, maxSleep: Duration, maxRetries: U32, n: nat)
    ensures Grants(AskedTimes(New(base, maxSleep, maxRetries), n)) <==> n <= maxRetries || maxRetries == U32_MAX
  {
    if maxRetries < U32_MAX {
      StateAfter(base, maxSleep, maxRetries, n);
    } else {
      KeepsRetries(New(base, maxSleep, maxRetries), n);
    }
  }

  lemma {:induction false} KeepsRetries(p: Policy, n: nat)
    ensures AskedTimes(p, n).maxRetries == p.maxRetries
  {
    if n > 0 {
      KeepsRetries(p, n - 1);
    }
  }
}

/** Retries bounded by the time they take (src/retry.rs:65-139). */
module TimedRetry {
  import opened Types
  import opened Arithmetic
  import opened Backoff

  datatype Policy = Policy(maxDuration: Duration, maxSleep: Duration, attempts: U32, currentSleep: Duration)

  function New(maxDuration: Duration, base: Duration, maxSleep: Duration): Policy {
    Policy(maxDuration, maxSleep, 0, base)
  }

  predicate Grants(p: Policy, elapsed: nat) {
    p.attempts == 0 || elapsed < p.maxDuration
  }

  function Asked(p: Policy, elapsed: nat): Policy {
    if !Grants(p, elapsed) then p
    else
      var attempts := Increment(p.attempts);
      p.(attempts := attempts, currentSleep := NextBackoff(attempts, p.currentSleep, p.maxSleep))
  }

  class ExponentialTimeBoundedRetry {
    const maxDuration: Duration
    const maxSleep: Duration
    var attempts: U32
    var currentSleep: Duration

    function View(): Policy
      reads this
    {
      Policy(maxDuration, maxSleep, attempts, currentSleep)
    }

    constructor (maxDuration: Duration, initialSleep: Duration, maxSleep: Duration)
      ensures View() == New(maxDuration, initialSleep, maxSleep)
    {
      this.maxDuration := maxDuration;
      this.maxSleep := maxSleep;
      attempts := 0;
      currentSleep := initialSleep;
    }

    /** `elapsed` is the time since the policy was made. */
    method ShouldRetry(elapsed: nat) returns (granted: bool)
      modifies this
      ensures granted == Grants(old(View()), elapsed)
      ensures View() == Asked(old(View()), elapsed)
    {
      if attempts == 0 {
        attempts := 1;
        return true;
      }
      if elapsed >= maxDuration {
        return false;
      }
      attempts := Increment(attempts);
      if attempts >= 2 {
        currentSleep := Min(SaturatingDouble(currentSleep), maxSleep);
      }
      granted := true;
    }
  }

  /** An attempt is granted if it is the first one or in time. The first one leaves the backoff alone,
      and every further one doubles it, up to the ceiling. */
  lemma EachAttemptDoubles(p: Policy, elapsed: nat)
    requires p.attempts < U32_MAX
    ensures
      var p' := Asked(p, elapsed);
      var granted := p.attempts == 0 || elapsed < p.maxDuration;
      && Grants(p, elapsed) == granted
      && p'.attempts == p.attempts + (if granted then 1 else 0)
      && p'.currentSleep == if !granted || p.attempts == 0 then p.currentSleep
                            else if 2 * p.currentSleep < p.maxSleep then 2 * p.currentSleep else p.maxSleep
  {
  }

  // ----- Callers -----

  /** The policy after calls at these times. */
  function AskedAt(p: Policy, times: seq<nat>): Policy {
    if times == [] then p else Asked(AskedAt(p, times[..|times| - 1]), times[|times| - 1])
  }

  predicate GrantedLast(p: Policy, times: seq<nat>)
    requires times != []
  {
    Grants(AskedAt(p, times[..|times| - 1]), times[|times| - 1])
  }

  function Attempts(p: Policy, times: seq<nat>): nat {
    if times == [] then 0
    else Attempts(p, times[..|times| - 1]) + if GrantedLast(p, times) then 1 else 0
  }

  /** The caller waits as told before it asks again: after a granted attempt for at least the
      backoff (the attempt itself and the jitter may take longer). */
  ghost predicate Waits(p: Policy, times: seq<nat>) {
    |times| <= 1 ||
    (var init := times[..|times| - 1];
     && Waits(p, init)
     && times[|times| - 1] >= init[|init| - 1] + if GrantedLast(p, init) then AskedAt(p, init).currentSleep else 0)
  }

  /** The backoffs after the first `n` attempts, together. */
  function TotalBackoff(base: Duration, maxSleep: Duration, n: nat): nat {
    if n == 0 then 0 else TotalBackoff(base, maxSleep, n - 1) + BackoffOf(base, maxSleep, n)
  }

  /** The caller's situation: how many attempts there were, and what time it is. */
  ghost predicate Accounted(maxDuration: Duration, base: Duration, maxSleep: Duration, limit: nat, times: seq<nat>) {
    var p := New(maxDuration, base, maxSleep);
    var n := Attempts(p, times);
    && n <= limit <= U32_MAX
    && AskedAt(p, times) == Policy(maxDuration, maxSleep, n, BackoffOf(base, maxSleep, n))
    && (times == [] ==> n == 0)
    && (times != [] ==>
          && n >= 1
          && times[|times| - 1] >= if GrantedLast(p, times) then TotalBackoff(base, maxSleep, n - 1) else maxDuration)
  }

  lemma {:induction false} RunAccounted(maxDuration: Duration, base: Duration, maxSleep: Duration, limit: nat,
                                        times: seq<nat>)
    requires 1 <= limit <= U32_MAX && maxDuration <= TotalBackoff(base, maxSleep, limit)
    requires Waits(New(maxDuration, base, maxSleep), times)
    ensures Accounted(maxDuration, base, maxSleep, limit, times)
  {
    hide BackoffOf, NextBackoff, TotalBackoff;
    if times == [] {
      NoBackoff(base, maxSleep);
    } else {
      var p := New(maxDuration, base, maxSleep);
      var init, now := times[..|times| - 1], times[|times| - 1];
      RunAccounted(maxDuration, base, maxSleep, limit, init);
      var n := Attempts(p, init);
      if init == [] {
        NoBackoff(base, maxSleep);
        BackoffDoubles(base, maxSleep, 1);
      } else if GrantedLast(p, init) {
        TotalNext(base, maxSleep, n);
        assert now >= TotalBackoff(base, maxSleep, n);
        if now < maxDuration {
          if n == limit {
            assert false;
          }
          BackoffDoubles(base, maxSleep, n + 1);
        }
      }
    }
  }

  lemma NoBackoff(base: Duration, maxSleep: Duration)
    ensures BackoffOf(base, maxSleep, 0) == base
    ensures TotalBackoff(base, maxSleep, 0) == 0
  {
  }

  lemma TotalNext(base: Duration, maxSleep: Duration, n: nat)
    requires n >= 1
    ensures TotalBackoff(base, maxSleep, n) == TotalBackoff(base, maxSleep, n - 1) + BackoffOf(base, maxSleep, n)
  {
  }

  /** A caller that waits as told makes at most `limit` attempts, if the backoffs after so many
      attempts use up the time. */
  lemma AttemptsBounded(maxDuration: Duration, base: Duration, maxSleep: Duration, limit: nat, times: seq<nat>)
    requires 1 <= limit <= U32_MAX && maxDuration <= TotalBackoff(base, maxSleep, limit)
    requires Waits(New(maxDuration, base, maxSleep), times)
    ensures Attempts(New(maxDuration, base, maxSleep), times) <= limit
  {
    RunAccounted(maxDuration, base, maxSleep, limit, times);
  }

  /** The times of a caller that waits exactly as told. */
  function PromptTimes(base: Duration, maxSleep: Duration, n: nat): (r: seq<nat>)
    ensures |r| == n && forall i :: 0 <= i < n ==> r[i] == TotalBackoff(base, maxSleep, i)
  {
    seq(n, i requires 0 <= i < n => TotalBackoff(base, maxSleep, i))
  }

  /** The bound cannot be improved: while the backoffs do not use up the time, a caller that waits
      exactly as told makes one more attempt. */
  lemma {:induction false} PromptCaller(maxDuration: Duration, base: Duration, maxSleep: Duration, n: nat)
    requires n <= U32_MAX && (n <= 1 || TotalBackoff(base, maxSleep, n - 1) < maxDuration)
    ensures var p, times := New(maxDuration, base, maxSleep), PromptTimes(base, maxSleep, n);
      && Waits(p, times)
      && Attempts(p, times) == n
      && AskedAt(p, times) == Policy(maxDuration, maxSleep, n, BackoffOf(base, maxSleep, n))
      && (n >= 1 ==> GrantedLast(p, times))
  {
    hide BackoffOf, NextBackoff, TotalBackoff;
    NoBackoff(base, maxSleep);
    if n > 0 {
      var times := PromptTimes(base, maxSleep, n);
      assert times[..n - 1] == PromptTimes(base, maxSleep, n - 1);
      if n >= 2 {
        TotalNext(base, maxSleep, n - 1);
      }
      PromptCaller(maxDuration, base, maxSleep, n - 1);
      BackoffDoubles(base, maxSleep, n);
    }
  }

  /** A caller can make `n` attempts exactly if the backoffs after the first `n - 1` do not use up
      the time. */
  lemma AttemptsExactly(maxDuration: Duration, base: Duration, maxSleep: Duration, n: nat)
    requires 2 <= n <= U32_MAX
    ensures (exists times :: Waits(New(maxDuration, base, maxSleep), times)
                          && Attempts(New(maxDuration, base, maxSleep), times) >= n)
       <==> TotalBackoff(base, maxSleep, n - 1) < maxDuration
  {
    hide TotalBackoff, Waits, Attempts;
    if TotalBackoff(base, maxSleep, n - 1) < maxDuration {
      PromptCaller(maxDuration, base, maxSleep, n);
    } else {
      forall times | Waits(New(maxDuration, base, maxSleep), times)
        ensures Attempts(New(maxDuration, base, maxSleep), times) < n
      {
        AttemptsBounded(maxDuration, base, maxSleep, n - 1, times);
      }
    }
  }

  lemma {:induction false} TotalAtLeast(base: Duration, maxSleep: Duration, n: nat)
    ensures n * Min(base, maxSleep) <= TotalBackoff(base, maxSleep, n)
  {
    hide BackoffOf;
    if n > 0 {
      TotalAtLeast(base, maxSleep, n - 1);
      BackoffAtLeast(base, maxSleep, n);
      assert n * Min(base, maxSleep) == (n - 1) * Min(base, maxSleep) + Min(base, maxSleep);
    }
  }

  /** `a / b`, rounded up. */
  function CeilDiv(a: nat, b: nat): nat
    requires b > 0
  {
    (a + b - 1) / b
  }

  lemma CeilCovers(a: nat, b: nat)
    requires b > 0
    ensures a <= CeilDiv(a, b) * b
  {
    DivAtLeast(a + b - 1, b, (a + b - 1) / b + 1);
    var q := (a + b - 1) / b;
    assert b * (q + 1) == q * b + b;
  }

  /** With positive sleeps there are at most `ceil(maxDuration / min(base, maxSleep))` attempts, or one. */
  lemma AttemptsBoundedByCeil(maxDuration: Duration, base: Duration, maxSleep: Duration, times: seq<nat>)
    requires Min(base, maxSleep) > 0 && CeilDiv(maxDuration, Min(base, maxSleep)) <= U32_MAX
    requires Waits(New(maxDuration, base, maxSleep), times)
    ensures Attempts(New(maxDuration, base, maxSleep), times) <= Max(1, CeilDiv(maxDuration, Min(base, maxSleep)))
  {
    hide CeilDiv, TotalBackoff, Waits, Attempts;
    var least := Min(base, maxSleep);
    var limit := Max(1, CeilDiv(maxDuration, least));
    CeilCovers(maxDuration, least);
    MulMonotone(least, CeilDiv(maxDuration, least), limit);
    TotalAtLeast(base, maxSleep, limit);
    AttemptsBounded(maxDuration, base, maxSleep, limit, times);
  }
}
