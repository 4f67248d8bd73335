/** Retry counts, failure actions and the delay before each retry. */
module Resilience {
  import opened Prelude
  import opened Text

  const TWO63: int := 0x8000_0000_0000_0000
  const TWO64: int := 0x1_0000_0000_0000_0000

  newtype Int64 = x: int | -0x8000_0000_0000_0000 <= x < 0x8000_0000_0000_0000

  datatype RetryPolicy = RetryPolicy(
    attempts: int, backoff: string, initialIntervalMs: Int64, maxIntervalMs: Int64, jitter: bool)

  datatype OnFailurePolicy = OnFailurePolicy(action: string, to: string)

  datatype Policy = Policy(retry: RetryPolicy, onFailure: OnFailurePolicy) {

    function Attempts(): (n: nat)
      ensures n >= 1
    {
      if retry.attempts <= 0 then 1 else retry.attempts
    }

    function Action(): FailureAction { ParseAction(ToLower(TrimSpace(onFailure.action))) }
  }

  datatype FailureAction = Default | Stop | Continue | Skip | Jump | Unknown(action: string)

  function ParseAction(action: string): FailureAction {
    if action == "" || action == "default" then Default
    else if action == "stop" then Stop
    else if action == "continue" then Continue
    else if action == "skip" then Skip
    else if action == "jump" then Jump
    else Unknown(action)
  }

  /** A policy as the configuration leaves it when a step says nothing. */
  const PLAIN := Policy(RetryPolicy(0, "", 0, 0, false), OnFailurePolicy("", ""))

  // ----- Durations: nanoseconds in a 64-bit integer that wraps around -----

  const MILLISECOND: int := 1_000_000

  function Wrap(x: int): (w: Int64)
    ensures -TWO63 <= x < TWO63 ==> w as int == x
    ensures x % 64 == 0 ==> w as int % 64 == 0
  {
    var k := (x + TWO63) / TWO64;
    assert x - k * TWO64 == (x + TWO63) % TWO64 - TWO63;
    assert x % 64 == 0 ==> x - k * TWO64 == 64 * (x / 64 - k * (TWO64 / 64));
    (x - k * TWO64) as Int64
  }

  lemma Multiple64(k: int)
    ensures (64 * k) % 64 == 0
  {}

  /** A duration: a multiple of 64 nanoseconds, as every multiple of a millisecond is, even after
      wrapping around. */
  predicate Even64(d: Int64) { d as int % 64 == 0 }

  /** An interval in milliseconds, or its default when it is not positive. */
  function Interval(ms: Int64, fallback: Int64): (d: Int64)
    requires fallback > 0 && Even64(fallback)
    ensures d > 0 && Even64(d)
    ensures 0 < ms as int * MILLISECOND < TWO63 ==> d as int == ms as int * MILLISECOND
  {
    Multiple64(ms as int * 15625);
    assert ms as int * MILLISECOND == 64 * (ms as int * 15625);
    var d := Wrap(ms as int * MILLISECOND);
    if d <= 0 then fallback else d
  }

  function Initial(p: RetryPolicy): Int64 { Interval(p.initialIntervalMs, 100_000_000) }

  function Cap(p: RetryPolicy): Int64 { Interval(p.maxIntervalMs, 1_000_000_000) }

  function Twice(d: Int64): (t: Int64)
    requires Even64(d)
    ensures Even64(t)
    ensures 0 <= d as int < TWO63 / 2 ==> t as int == 2 * d as int
  {
    Multiple64(d as int / 64 * 2);
    assert d as int * 2 == 64 * (d as int / 64 * 2);
    Wrap(d as int * 2)
  }

  /** What the random generator adds is below half of the delay. */
  function Jittered(d: Int64, random: nat): (j: Int64)
    requires d >= 64
    ensures var sum := d as int + random % (d as int / 2);
            (sum < TWO63 ==> j as int == sum) && (sum >= TWO63 ==> j < 0)
  {
    var sum := d as int + random % (d as int / 2);
    assert sum < TWO64;
    WrapsAround(sum);
    Wrap(sum)
  }

  /** The doubling loop, which leaves as soon as the cap is reached. */
  function Doubled(delay: Int64, cap: Int64, rounds: nat): (d: Int64)
    requires Even64(delay) && Even64(cap)
    ensures Even64(d)
    decreases rounds
  {
    if rounds == 0 then delay
    else
      var next := Twice(delay);
      if next >= cap then cap else Doubled(next, cap, rounds - 1)
  }

  /** The delay without jitter. Its bound is the cap, and when it is positive it is at least 64,
      so half of it is a positive bound for the random generator. */
  function BaseDelay(p: RetryPolicy, attempt: nat): (d: Int64)
    ensures d <= Cap(p)
    ensures d > 0 ==> d >= 64
  {
    if attempt <= 1 then 0
    else
      var kind := ToLower(TrimSpace(p.backoff));
      var delay :=
        if kind == "fixed" then Initial(p)
        else if kind == "none" then 0
        else Doubled(Initial(p), Cap(p), attempt - 2);
      if delay > Cap(p) then Cap(p) else delay
  }

  /** The delay before an attempt; `random` stands for the generator, which answers a number
      below its bound. */
  function Delay(p: RetryPolicy, attempt: nat, random: nat): Int64 {
    var delay := BaseDelay(p, attempt);
    if p.jitter && delay > 0 then Jittered(delay, random) else delay
  }

  method BackoffDuration(p: RetryPolicy, attempt: nat, random: nat) returns (delay: Int64)
    ensures delay == Delay(p, attempt, random)
  {
    delay := UnjitteredBackoff(p, attempt);
    if p.jitter && delay > 0 {
      delay := Jittered(delay, random);
    }
  }

  method UnjitteredBackoff(p: RetryPolicy, attempt: nat) returns (delay: Int64)
    ensures delay == BaseDelay(p, attempt)
  {
    if attempt <= 1 {
      return 0;
    }
    var initial := Initial(p);
    var maxInterval := Cap(p);
    var kind := ToLower(TrimSpace(p.backoff));
    if kind == "fixed" {
      delay := initial;
    } else if kind == "none" {
      delay := 0;
    } else {
      delay := DoubleUp(initial, maxInterval, attempt);
    }
    if delay > maxInterval {
      delay := maxInterval;
    }
  }

  /** Its doubling loop. */
  method DoubleUp(initial: Int64, maxInterval: Int64, attempt: nat) returns (delay: Int64)
    requires Even64(initial) && Even64(maxInterval) && attempt >= 2
    ensures delay == Doubled(initial, maxInterval, attempt - 2)
  {
    delay := initial;
    var i := 2;
    while i < attempt
      invariant 2 <= i <= attempt
      invariant Even64(delay)
      invariant Doubled(initial, maxInterval, attempt - 2) == Doubled(delay, maxInterval, attempt - i)
    {
      delay := Twice(delay);
      if delay >= maxInterval {
        delay := maxInterval;
        break;
      }
      i := i + 1;
    }
  }

  // ----- The promised exponential backoff -----

  function Pow2(n: nat): (r: nat)
    ensures r >= 1
  { if n == 0 then 1 else 2 * Pow2(n - 1) }

  predicate Exponential(p: RetryPolicy) {
    ToLower(TrimSpace(p.backoff)) != "fixed" && ToLower(TrimSpace(p.backoff)) != "none"
  }

  /** Doubling from d reaches the cap before it passes 2^63. */
  predicate Safe(d: int, cap: int)
    requires d > 0
    decreases TWO63 - d
  {
    d < TWO63 / 2 && (2 * d >= cap || Safe(2 * d, cap))
  }

  lemma {:induction false} DoubledIsPower(delay: Int64, cap: Int64, rounds: nat)
    requires delay > 0 && cap > 0 && Even64(delay) && Even64(cap) && Safe(delay as int, cap as int)
    ensures Min(Doubled(delay, cap, rounds) as int, cap as int) == Min(delay as int * Pow2(rounds), cap as int)
    decreases rounds
  {
    if rounds > 0 {
      var next := Twice(delay);
      DoubleOnce(delay as int, rounds);
      if next < cap {
        DoubledIsPower(next, cap, rounds - 1);
      } else {
        ScaleMonotone(next as int, 1, Pow2(rounds - 1));
      }
    }
  }

  lemma DoubleOnce(d: int, rounds: nat)
    requires rounds > 0
    ensures d * Pow2(rounds) == 2 * d * Pow2(rounds - 1)
  {}

  lemma TwiceWraps(d: Int64)
    requires d as int >= TWO63 / 2 && Even64(d)
    ensures Twice(d) < 0
  {
    WrapsAround(d as int * 2);
  }

  lemma WrapsAround(x: int)
    requires 0 <= x < TWO64
    ensures x >= TWO63 ==> Wrap(x) as int == x - TWO64
  {
    assert x >= TWO63 ==> (x + TWO63) / TWO64 == 1;
  }

  /** Otherwise some number of rounds makes the delay negative. */
  lemma {:induction false} DoublingWraps(delay: Int64, cap: Int64) returns (rounds: nat)
    requires delay > 0 && cap > 0 && Even64(delay) && Even64(cap) && !Safe(delay as int, cap as int)
    ensures rounds >= 1 && Doubled(delay, cap, rounds) < 0
    decreases TWO63 - delay as int
  {
    if delay as int >= TWO63 / 2 {
      TwiceWraps(delay);
      rounds := 1;
      assert Doubled(Twice(delay), cap, 0) == Twice(delay);
    } else {
      var rest := DoublingWraps(Twice(delay), cap);
      rounds := 1 + rest;
    }
  }

  /** What the documentation of the policy promises before attempt a: initial * 2^(a-2), capped. */
  function Promised(p: RetryPolicy, a: nat): int
    requires a >= 2
  { Min(Initial(p) as int * Pow2(a - 2), Cap(p) as int) }

  /** The exponential delay is the capped power of two before every attempt exactly when doubling the
      initial interval reaches the cap before it passes 2^63 nanoseconds. */
  lemma BackoffIsCappedExponential(p: RetryPolicy)
    requires Exponential(p)
    ensures (forall a: nat | a >= 2 :: BaseDelay(p, a) as int == Promised(p, a))
            <==> Safe(Initial(p) as int, Cap(p) as int)
  {
    if Safe(Initial(p) as int, Cap(p) as int) {
      forall a: nat | a >= 2 ensures BaseDelay(p, a) as int == Promised(p, a) {
        DoubledIsPower(Initial(p), Cap(p), a - 2);
      }
    } else {
      var rounds := DoublingWraps(Initial(p), Cap(p));
      ScaleMonotone(Initial(p) as int, 0, Pow2(rounds));
      assert BaseDelay(p, rounds + 2) as int < 0 <= Promised(p, rounds + 2);
    }
  }

  /** No delay is negative and no later attempt waits less, exactly under the same condition; fixed and
      absent delays need none. */
  lemma BackoffIsMonotone(p: RetryPolicy)
    ensures (forall a: nat, b: nat | a <= b :: 0 <= BaseDelay(p, a) <= BaseDelay(p, b))
            <==> (Exponential(p) ==> Safe(Initial(p) as int, Cap(p) as int))
  {
    if Exponential(p) {
      if Safe(Initial(p) as int, Cap(p) as int) {
        forall a: nat, b: nat | a <= b ensures 0 <= BaseDelay(p, a) <= BaseDelay(p, b) {
          PromisedInOrder(p, a, b);
        }
      } else {
        var rounds := DoublingWraps(Initial(p), Cap(p));
        assert BaseDelay(p, rounds + 2) < 0;
      }
    } else {
      forall a: nat, b: nat | a <= b ensures 0 <= BaseDelay(p, a) <= BaseDelay(p, b) {}
    }
  }

  lemma PromisedInOrder(p: RetryPolicy, a: nat, b: nat)
    requires Exponential(p) && Safe(Initial(p) as int, Cap(p) as int) && a <= b
    ensures 0 <= BaseDelay(p, a) <= BaseDelay(p, b)
  {
    if b >= 2 {
      DoubledIsPower(Initial(p), Cap(p), b - 2);
      if a >= 2 {
        DoubledIsPower(Initial(p), Cap(p), a - 2);
        Pow2Monotone(a - 2, b - 2);
        ScaleMonotone(Initial(p) as int, Pow2(a - 2), Pow2(b - 2));
      } else {
        ScaleMonotone(Initial(p) as int, 1, Pow2(b - 2));
      }
    }
  }

  lemma ScaleMonotone(x: int, k: int, l: int)
    requires x >= 0 && 0 <= k <= l
    ensures 0 <= x * k <= x * l
  {
    assert x * l == x * k + x * (l - k);
  }

  lemma {:induction false} Pow2Monotone(m: nat, n: nat)
    requires m <= n
    ensures Pow2(m) <= Pow2(n)
    decreases n
  {
    if m < n { Pow2Monotone(m, n - 1); }
  }

  /** Jitter adds less than half of a positive base delay, and leaves the others alone. */
  predicate Mild(base: int, delay: int) {
    if base <= 0 then delay == base else base <= delay && 2 * delay < 3 * base
  }

  /** Jitter is mild for every random number exactly when 3/2 of the base delay fits into 2^63
      nanoseconds; the bound of the random generator is always positive. */
  lemma JitterIsBounded(p: RetryPolicy, attempt: nat)
    requires p.jitter
    ensures var base := BaseDelay(p, attempt) as int;
            && (base > 0 ==> base / 2 > 0)
            && ((forall random: nat :: Mild(base, Delay(p, attempt, random) as int)) <==> base + base / 2 <= TWO63)
  {
    var base := BaseDelay(p, attempt) as int;
    if base + base / 2 <= TWO63 {
      forall random: nat ensures Mild(base, Delay(p, attempt, random) as int) {
        if base > 0 { JitterFits(BaseDelay(p, attempt), random); }
      }
    } else {
      JitterSpills(BaseDelay(p, attempt));
      assert !Mild(base, Delay(p, attempt, base / 2 - 1) as int);
    }
  }

  lemma JitterFits(d: Int64, random: nat)
    requires d >= 64 && d as int + d as int / 2 <= TWO63
    ensures Mild(d as int, Jittered(d, random) as int)
  {
    assert 0 <= random % (d as int / 2) < d as int / 2;
  }

  lemma SmallRemainder(a: int, b: int)
    requires 0 <= a < b
    ensures a % b == a
  {}

  lemma JitterSpills(d: Int64)
    requires d >= 64 && d as int + d as int / 2 > TWO63
    ensures Jittered(d, d as int / 2 - 1) < 0
  {
    SmallRemainder(d as int / 2 - 1, d as int / 2);
  }

  /** For instance, an interval of 5 * 10^12 ms under a cap of 9 * 10^12 ms gives a negative delay before
      the third attempt, so the retry does not wait at all. */
  lemma DoublingCanWrap()
    ensures var p := RetryPolicy(3, "", 5_000_000_000_000, 9_000_000_000_000, false);
            Initial(p) as int == 5_000_000_000_000_000_000 && BaseDelay(p, 2) > 0 > BaseDelay(p, 3)
  {
    var p := RetryPolicy(3, "", 5_000_000_000_000, 9_000_000_000_000, false);
    assert Initial(p) as int == 5_000_000_000_000_000_000;
    assert Cap(p) as int == 9_000_000_000_000_000_000;
    assert Wrap(10_000_000_000_000_000_000) as int == 10_000_000_000_000_000_000 - TWO64;
    assert ToLower(TrimSpace("")) == "";
    assert Doubled(Initial(p), Cap(p), 1) == Wrap(10_000_000_000_000_000_000);
  }

  // ----- The kinds of backoff, and the defaults -----

  /** An interval that is configured in milliseconds and fits counts as such; one that is not positive is replaced. */
  predicate IntervalReads(ms: Int64, fallback: int, d: int) {
    && (0 < ms as int * MILLISECOND < TWO63 ==> d == ms as int * MILLISECOND)
    && (-TWO63 <= ms as int * MILLISECOND <= 0 ==> d == fallback)
  }

  /** The first attempt never waits. After it "none" does not wait either, "fixed" waits the initial interval, and every
      other kind the doubled one; the cap bounds them all. The intervals are 100 milliseconds and one second unless
      configured. */
  lemma BackoffKinds(p: RetryPolicy, attempt: nat)
    ensures IntervalReads(p.initialIntervalMs, 100 * MILLISECOND, Initial(p) as int)
    ensures IntervalReads(p.maxIntervalMs, 1000 * MILLISECOND, Cap(p) as int)
    ensures var kind, d := ToLower(TrimSpace(p.backoff)), BaseDelay(p, attempt);
            && (attempt <= 1 || kind == "none" ==> d == 0)
            && (attempt > 1 && kind == "fixed" ==> d == if Initial(p) > Cap(p) then Cap(p) else Initial(p))
            && (attempt == 2 && kind !in {"none", "fixed"} ==> d == if Initial(p) > Cap(p) then Cap(p) else Initial(p))
  {}
}
