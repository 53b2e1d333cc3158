/** Inline delivery: the retry schedule, the loop in `dispatch`, and the budget that configuration checks. */
module Webhooks {
  import opened Common

  /** The retry settings: attempts is a u32, the rest are u64 in the units of their names. */
  datatype Retries = Retries(attempts: nat, timeoutSecs: nat, delayMs: nat, maxDelayMs: nat)

  predicate InRange(c: Retries) {
    c.attempts <= U32_MAX && c.timeoutSecs <= U64_MAX && c.delayMs <= U64_MAX && c.maxDelayMs <= U64_MAX
  }

  /** The largest `Duration`, in whole milliseconds. */
  const DURATION_MAX_MS: nat := U64_MAX * 1000 + 999

  lemma {:induction false} Pow2Grows(j: nat, k: nat)
    requires j <= k
    ensures Pow2(j) <= Pow2(k)
  {
    if j < k { Pow2Grows(j, k - 1); }
  }

  function SatAdd64(a: nat, b: nat): nat { Min(a + b, U64_MAX) }

  function SatMul64(a: nat, b: nat): nat { Min(a * b, U64_MAX) }

  // ----- the delay before a retry -----

  /** The longest wait before attempt `attempt + 1`: the factor saturates in 32 bits, the product as a duration. */
  function Ceiling(attempt: nat, base: nat, max: nat): nat {
    var factor := Min(Pow2(if attempt == 0 then 0 else attempt - 1), U32_MAX);
    Min(Min(base * factor, DURATION_MAX_MS), max)
  }

  /** `draw` is the random part. */
  function RetryDelay(attempt: nat, base: nat, max: nat, draw: nat): (ms: nat)
    requires draw <= Ceiling(attempt, base, max) - Ceiling(attempt, base, max) / 2
    ensures Ceiling(attempt, base, max) / 2 <= ms <= Ceiling(attempt, base, max)
  {
    var ceiling := Ceiling(attempt, base, max);
    if ceiling == 0 then 0 else ceiling / 2 + draw
  }

  lemma MulGrows(base: nat, f: nat, g: nat)
    requires f <= g
    ensures base * f <= base * g
  {
  }

  /** Waiting never gets shorter from one retry to the next. */
  lemma CeilingGrows(attempt: nat, base: nat, max: nat)
    ensures Ceiling(attempt, base, max) <= Ceiling(attempt + 1, base, max) <= max
  {
    Pow2Grows(if attempt == 0 then 0 else attempt - 1, attempt);
    MulGrows(base, Min(Pow2(if attempt == 0 then 0 else attempt - 1), U32_MAX), Min(Pow2(attempt), U32_MAX));
    hide Pow2;
  }

  lemma Half(base: nat, f: nat)
    ensures base * (2 * f) == 2 * (base * f)
  {
  }

  lemma {:induction false} SmallPowers(k: nat)
    requires k <= 31
    ensures Pow2(k) <= 0x8000_0000
  {
    Pow2Grows(k, 31);
    assert Pow2(8) == 256 && Pow2(16) == 65536 && Pow2(24) == 0x100_0000 && Pow2(31) == 0x8000_0000;
  }

  predicate IsU64(n: nat) { n <= U64_MAX }

  lemma ProductFits(base: nat, f: nat)
    requires IsU64(base) && f <= U32_MAX
    ensures base * f <= U64_MAX * U32_MAX
  {
    MulGrows(base, f, U32_MAX);
  }

  /** The first ceiling is the base delay, capped; each later one is double the one before, capped, as long as the factor
      fits in 32 bits; then it stays. */
  lemma CeilingDoubles(attempt: nat, base: nat, max: nat)
    requires attempt >= 1 && IsU64(base) && IsU64(max)
    ensures Ceiling(1, base, max) == Min(base, max)
    ensures attempt <= 31 ==> Ceiling(attempt + 1, base, max) == Min(2 * Ceiling(attempt, base, max), max)
    ensures attempt >= 33 ==> Ceiling(attempt + 1, base, max) == Ceiling(attempt, base, max)
  {
    assert Pow2(0) == 1;
    if attempt <= 31 {
      SmallPowers(attempt - 1);
      SmallPowers(attempt);
      Half(base, Pow2(attempt - 1));
      assert Pow2(attempt) == 2 * Pow2(attempt - 1);
      hide Pow2;
      CapOfProduct(base, Pow2(attempt - 1), max);
      CapOfProduct(base, Pow2(attempt), max);
    } else if attempt >= 33 {
      Pow2Grows(32, attempt - 1);
      Pow2Grows(32, attempt);
      assert Pow2(8) == 256 && Pow2(16) == 65536 && Pow2(24) == 0x100_0000 && Pow2(32) == 0x1_0000_0000;
      hide Pow2;
    }
  }

  /** The duration limit never matters: the cap is below it. */
  lemma CapOfProduct(base: nat, f: nat, max: nat)
    requires IsU64(max)
    ensures Min(Min(base * f, DURATION_MAX_MS), max) == Min(base * f, max)
  {
  }

  /** Every delay between half the ceiling and the ceiling is some draw's. */
  lemma EveryDelayIsDrawn(attempt: nat, base: nat, max: nat, ms: nat) returns (draw: nat)
    requires Ceiling(attempt, base, max) / 2 <= ms <= Ceiling(attempt, base, max)
    ensures draw <= Ceiling(attempt, base, max) - Ceiling(attempt, base, max) / 2
    ensures RetryDelay(attempt, base, max, draw) == ms
  {
    hide Ceiling;
    draw := ms - Ceiling(attempt, base, max) / 2;
  }

  // ----- the budget that configuration computes -----

  /** The bound on the gap after attempt `attempt >= 1`, with the factor in 64 bits. */
  function Step(c: Retries, attempt: nat): nat
    requires attempt >= 1
  {
    Min(SatMul64(c.delayMs, Min(Pow2(attempt - 1), U64_MAX)), c.maxDelayMs)
  }

  /** The gaps after attempts 1 to `n - 1`, added without saturation. */
  function Steps(c: Retries, n: nat): nat {
    if n <= 1 then 0 else Steps(c, n - 1) + Step(c, n - 1)
  }

  function CeilDiv(a: nat, b: nat): nat
    requires b > 0
  {
    (a + b - 1) / b
  }

  function Attempts(c: Retries): nat { Max(c.attempts, 1) }

  function DelaySteps(c: Retries): nat { Steps(c, Attempts(c)) }

  /** The longest that a delivery can take, in seconds rounded up, with no limit on the integers. */
  function Budget(c: Retries): nat { Attempts(c) * c.timeoutSecs + CeilDiv(DelaySteps(c), 1000) }

  /** What the same sum is with 64-bit saturation. */
  function SaturatedBudget(c: Retries): (secs: nat)
    ensures secs <= U64_MAX
  {
    SatAdd64(SatMul64(Attempts(c), c.timeoutSecs), CeilDiv(Min(DelaySteps(c), U64_MAX), 1000))
  }

  method WorstCaseInlineDeliverySecs(c: Retries) returns (secs: nat)
    requires InRange(c)
    ensures secs == SaturatedBudget(c)
  {
    hide Pow2, Step;
    var attempts := Max(c.attempts, 1);
    var timeouts := SatMul64(attempts, c.timeoutSecs);
    var delaysMs := 0;
    for attempt := 1 to attempts
      invariant delaysMs == Min(Steps(c, attempt), U64_MAX)
    {
      delaysMs := SatAdd64(delaysMs, Step(c, attempt));
    }
    secs := SatAdd64(timeouts, CeilDiv(delaysMs, 1000));
  }

  /** What the loop really waits is never more than what the budget counts, although it works with 32-bit factors. */
  lemma CeilingWithinStep(c: Retries, attempt: nat)
    requires InRange(c) && attempt >= 1
    ensures Ceiling(attempt, c.delayMs, c.maxDelayMs) <= Step(c, attempt)
  {
    MulGrows(c.delayMs, Min(Pow2(attempt - 1), U32_MAX), Min(Pow2(attempt - 1), U64_MAX));
    hide Pow2;
  }

  /** Within 32 bits it is exactly what the budget counts. */
  lemma CeilingIsStep(c: Retries, attempt: nat)
    requires InRange(c) && 1 <= attempt <= 32
    ensures Ceiling(attempt, c.delayMs, c.maxDelayMs) == Step(c, attempt)
  {
    SmallPowers(attempt - 1);
    hide Pow2;
  }

  // ----- dispatch -----

  predicate DrawsOk(c: Retries, draws: seq<nat>) {
    forall i :: 0 <= i < |draws| ==>
      draws[i] <= Ceiling(i + 1, c.delayMs, c.maxDelayMs) - Ceiling(i + 1, c.delayMs, c.maxDelayMs) / 2
  }

  /** The first `n` requests and the delays between them. */
  function TimeOf(c: Retries, took: seq<nat>, draws: seq<nat>, n: nat): nat
    requires n <= |took| == |draws| && DrawsOk(c, draws)
  {
    if n == 0 then 0
    else
      TimeOf(c, took, draws, n - 1) + DelayBefore(c, draws, n) + took[n - 1]
  }

  /** The delay before request `n`. */
  function DelayBefore(c: Retries, draws: seq<nat>, n: nat): nat
    requires 1 <= n <= |draws| && DrawsOk(c, draws)
  {
    if n == 1 then 0 else RetryDelay(n - 1, c.delayMs, c.maxDelayMs, draws[n - 2])
  }

  datatype Outcome = Succeeded(attempts: nat) | Exhausted(attempts: nat)

  /** The retry loop: `answers[i]` says whether request `i + 1` succeeded, `took[i]` how long it ran, in milliseconds,
      and `draws` are the random parts of the delays. */
  method Dispatch(c: Retries, answers: seq<bool>, took: seq<nat>, draws: seq<nat>) returns (outcome: Outcome, sends: nat, elapsedMs: nat)
    requires InRange(c) && |answers| == |took| == |draws| == Attempts(c)
    requires forall i :: 0 <= i < |took| ==> took[i] <= c.timeoutSecs * 1000
    requires DrawsOk(c, draws)
    ensures sends == outcome.attempts && 1 <= sends <= Attempts(c)
    ensures outcome.Succeeded? ==> answers[sends - 1] && forall i :: 0 <= i < sends - 1 ==> !answers[i]
    ensures outcome.Exhausted? ==> sends == Attempts(c) && forall i :: 0 <= i < |answers| ==> !answers[i]
    ensures elapsedMs == TimeOf(c, took, draws, sends) <= Budget(c) * 1000
  {
    hide Ceiling, Step;
    var attempts := Max(c.attempts, 1);
    sends, elapsedMs := 0, 0;
    for attempt := 1 to attempts + 1
      invariant sends == attempt - 1 && forall i :: 0 <= i < sends ==> !answers[i]
      invariant elapsedMs <= sends * (c.timeoutSecs * 1000) + Steps(c, Min(attempt, attempts))
      invariant elapsedMs == TimeOf(c, took, draws, sends) + (if attempt <= attempts then DelayBefore(c, draws, attempt) else 0)
    {
      sends := sends + 1;
      elapsedMs := elapsedMs + took[attempt - 1];
      OneMoreTimes(attempt, c.timeoutSecs * 1000);
      if answers[attempt - 1] {
        WithinBudget(c, attempt, elapsedMs);
        return Succeeded(attempt), sends, elapsedMs;
      }
      if attempt < attempts {
        CeilingWithinStep(c, attempt);
        elapsedMs := elapsedMs + RetryDelay(attempt, c.delayMs, c.maxDelayMs, draws[attempt - 1]);
      }
    }
    WithinBudget(c, attempts, elapsedMs);
    outcome := Exhausted(attempts);
  }

  /** What the budget counts can happen, to the millisecond: every request times out, and every draw is the largest. */
  lemma BudgetIsAttained(c: Retries) returns (took: seq<nat>, draws: seq<nat>)
    requires InRange(c) && c.attempts <= 32
    ensures |took| == |draws| == Attempts(c) && DrawsOk(c, draws)
    ensures forall i :: 0 <= i < |took| ==> took[i] <= c.timeoutSecs * 1000
    ensures TimeOf(c, took, draws, Attempts(c)) == Attempts(c) * (c.timeoutSecs * 1000) + DelaySteps(c)
    ensures Budget(c) * 1000 - TimeOf(c, took, draws, Attempts(c)) < 1000
  {
    hide Ceiling, Step, TimeOf, Pow2;
    took := seq(Attempts(c), i => c.timeoutSecs * 1000);
    draws := seq(Attempts(c), i requires 0 <= i < Attempts(c) => Largest(c, i + 1));
    FullTime(c, took, draws, Attempts(c));
    ScaleBy1000(Attempts(c), c.timeoutSecs);
  }

  function Largest(c: Retries, attempt: nat): nat {
    Ceiling(attempt, c.delayMs, c.maxDelayMs) - Ceiling(attempt, c.delayMs, c.maxDelayMs) / 2
  }

  lemma {:induction false} FullTime(c: Retries, took: seq<nat>, draws: seq<nat>, n: nat)
    requires InRange(c) && n <= |took| == |draws| <= 32 && DrawsOk(c, draws)
    requires forall i :: 0 <= i < |took| ==> took[i] == c.timeoutSecs * 1000 && draws[i] == Largest(c, i + 1)
    ensures TimeOf(c, took, draws, n) == n * (c.timeoutSecs * 1000) + Steps(c, n)
  {
    hide Ceiling, Step;
    if n > 0 {
      FullTime(c, took, draws, n - 1);
      OneMoreTimes(n, c.timeoutSecs * 1000);
      if n > 1 {
        CeilingIsStep(c, n - 1);
        assert RetryDelay(n - 1, c.delayMs, c.maxDelayMs, draws[n - 2]) == Step(c, n - 1);
      }
    }
  }

  lemma OneMoreTimes(n: nat, x: nat)
    requires n >= 1
    ensures n * x == (n - 1) * x + x
  {
  }

  lemma {:induction false} StepsGrow(c: Retries, m: nat, n: nat)
    requires m <= n
    ensures Steps(c, m) <= Steps(c, n)
  {
    hide Step;
    if m < n { StepsGrow(c, m, n - 1); }
  }

  lemma WithinBudget(c: Retries, n: nat, elapsedMs: nat)
    requires 1 <= n <= Attempts(c) && elapsedMs <= n * (c.timeoutSecs * 1000) + Steps(c, n)
    ensures elapsedMs <= Budget(c) * 1000
  {
    StepsGrow(c, n, Attempts(c));
    hide Steps;
    MulGrows(c.timeoutSecs * 1000, n, Attempts(c));
    ScaleBy1000(Attempts(c), c.timeoutSecs);
  }

  lemma ScaleBy1000(a: nat, b: nat)
    ensures (a * b) * 1000 == a * (b * 1000)
  {
  }

  // ----- the grace check -----

  /** `as i64` */
  function AsI64(n: nat): int
    requires n <= U64_MAX
  {
    if n <= I64_MAX then n else n - (U64_MAX + 1)
  }

  /** The retry part of the checks at start-up. */
  predicate Accepted(c: Retries, graceSecs: int) {
    && c.attempts != 0 && !(c.attempts > 1 && c.delayMs == 0) && c.maxDelayMs >= c.delayMs
    && !(graceSecs < AsI64(SaturatedBudget(c)))
  }

  predicate Settable(c: Retries) { c.attempts != 0 && !(c.attempts > 1 && c.delayMs == 0) && c.maxDelayMs >= c.delayMs }

  predicate IsI64(n: int) { I64_MIN <= n <= I64_MAX }

  /** Delays beyond this no longer count: it is the 64-bit limit, rounded up to whole seconds. */
  const COUNTED_DELAY_MS: nat := 18_446_744_073_709_552_000

  lemma SaturationLosesNothing(c: Retries)
    ensures SaturatedBudget(c) <= Budget(c)
    ensures SaturatedBudget(c) <= I64_MAX ==> (SaturatedBudget(c) == Budget(c) <==> DelaySteps(c) <= COUNTED_DELAY_MS)
  {
    hide DelaySteps;
  }

  /** The start-up check keeps every delivery inside the grace window, whatever window is configured, exactly when
      the computed budget fits in 63 bits and the delays do not run past the 64-bit limit. */
  lemma GraceCheckIsSoundIff(c: Retries)
    requires InRange(c) && Settable(c)
    ensures (forall grace :: IsI64(grace) && Accepted(c, grace) ==> Budget(c) <= grace)
       <==> SaturatedBudget(c) <= I64_MAX && DelaySteps(c) <= COUNTED_DELAY_MS
  {
    hide Budget, SaturatedBudget, DelaySteps;
    SaturationLosesNothing(c);
    var worst := SaturatedBudget(c);
    if worst <= I64_MAX {
      assert IsI64(worst) && Accepted(c, worst);
    } else {
      assert IsI64(0) && Accepted(c, 0);
    }
  }

  /** So, for the settings that meet it, every delivery of an accepted configuration ends within the grace window. */
  lemma DeliveryWithinGrace(c: Retries, graceSecs: int, elapsedMs: nat)
    requires InRange(c) && Accepted(c, graceSecs) && IsI64(graceSecs) && elapsedMs <= Budget(c) * 1000
    requires SaturatedBudget(c) <= I64_MAX && DelaySteps(c) <= COUNTED_DELAY_MS
    ensures elapsedMs <= graceSecs * 1000
  {
    hide Budget, SaturatedBudget, DelaySteps;
    SaturationLosesNothing(c);
  }

  /** A timeout of 2^63 seconds passes the check with no grace at all. */
  lemma HugeTimeoutIsAccepted()
    ensures var c := Retries(1, I64_MAX + 1, 1, 1); InRange(c) && Accepted(c, 0) && Budget(c) > 0
  {
    var c := Retries(1, I64_MAX + 1, 1, 1);
    assert Steps(c, 1) == 0;
    assert SaturatedBudget(c) == I64_MAX + 1;
  }
}
