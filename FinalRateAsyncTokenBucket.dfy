/** The fixed-rate token bucket of the broker's admission control
    (org.apache.pulsar.broker.qos.FinalRateAsyncTokenBucket): the parameters
    its constructor derives from the raw configuration, and the object whose
    final fields hold them while its token count is updated in place. */
module Qos {
  import opened JavaLong

  /** Nanoseconds in one second; the rate period used when the caller passes
      the `-1` sentinel. */
  const ONE_SECOND_NANOS: int := 1_000_000_000
  /** The `ratePeriodNanos` argument that asks for the default period. */
  const DEFAULT_RATE_PERIOD_SENTINEL: int := -1
  /** DEFAULT_TARGET_FILL_FACTOR_AFTER_THROTTLING is 0.01: the default target
      is capacity / FILL_FACTOR_DIVISOR. */
  const FILL_FACTOR_DIVISOR: int := 100
  /** 2^53: every integer of at most this magnitude is exact as a double. */
  const DOUBLE_EXACT_BOUND: int := 0x20_0000_0000_0000

  /** The capacities for which `(long) (capacity * 0.01d)` equals the
      truncated integer quotient capacity / 100. */
  predicate FillFactorExact(capacity: int) {
    -DOUBLE_EXACT_BOUND <= capacity <= DOUBLE_EXACT_BOUND
  }

  datatype Result<T, E> = Success(value: T) | Failure(error: E)

  /** The exception construction can raise. */
  datatype ConstructionError = DivisionByZero  // java.lang.ArithmeticException

  /** The values held by the final fields of a constructed bucket. */
  datatype BucketParameters = BucketParameters(
    capacity: int,
    rate: int,
    ratePeriodNanos: int,
    nanosForOneToken: int,
    targetAmountOfTokensAfterThrottling: int)

  /** The stored rate period: the argument, except that the sentinel `-1`
      (and only it) stands for one second. */
  function EffectiveRatePeriodNanos(ratePeriodNanos: int): (p: int)
    ensures ratePeriodNanos != DEFAULT_RATE_PERIOD_SENTINEL ==> p == ratePeriodNanos
    ensures ratePeriodNanos == DEFAULT_RATE_PERIOD_SENTINEL ==> p == ONE_SECOND_NANOS
  {
    if ratePeriodNanos != DEFAULT_RATE_PERIOD_SENTINEL then ratePeriodNanos else ONE_SECOND_NANOS
  }

  /** The default throttling target, 1% of the capacity truncated toward
      zero: the largest magnitude whose hundredfold fits in the capacity's,
      with the capacity's sign. */
  function DefaultTargetAfterThrottling(capacity: int): (t: int)
    requires FillFactorExact(capacity)
    ensures FILL_FACTOR_DIVISOR * Abs(t) <= Abs(capacity) < FILL_FACTOR_DIVISOR * (Abs(t) + 1)
    ensures t != 0 ==> (t > 0) == (capacity > 0)
  {
    TruncDiv(capacity, FILL_FACTOR_DIVISOR)
  }

  /** The stored throttling target: a non-negative argument is kept, a
      negative one is replaced by the default. */
  function EffectiveTargetAfterThrottling(target: int, capacity: int): (t: int)
    requires target >= 0 || FillFactorExact(capacity)
    ensures target >= 0 ==> t == target
    ensures target < 0 ==> FILL_FACTOR_DIVISOR * Abs(t) <= Abs(capacity) < FILL_FACTOR_DIVISOR * (Abs(t) + 1)
    ensures target < 0 && capacity >= 0 ==> 0 <= t <= capacity
  {
    if target >= 0 then target else DefaultTargetAfterThrottling(capacity)
  }

  /** nanosForOneToken as the constructor computes it: from the raw
      `ratePeriodNanos` argument, not from the defaulted period. */
  function NanosForOneToken(ratePeriodNanos: int, rate: int): (n: int)
    requires InLong(ratePeriodNanos) && InLong(rate) && rate != 0
    ensures InLong(n)
    ensures ratePeriodNanos != LONG_MIN || rate != -1 ==> n == TruncDiv(ratePeriodNanos, rate)
  {
    LongDiv(ratePeriodNanos, rate)
  }

  /** nanosForOneToken computed from the period the bucket actually stores,
      so that it agrees with getRatePeriodNanos(). */
  function IntendedNanosForOneToken(ratePeriodNanos: int, rate: int): (n: int)
    requires InLong(ratePeriodNanos) && InLong(rate) && rate != 0
    ensures InLong(n)
    ensures ratePeriodNanos != DEFAULT_RATE_PERIOD_SENTINEL ==> n == NanosForOneToken(ratePeriodNanos, rate)
  {
    LongDiv(EffectiveRatePeriodNanos(ratePeriodNanos), rate)
  }

  /** The constructor's computation of its final fields from its arguments;
      a zero rate makes the division on the refill step throw. */
  function Configure(capacity: int, rate: int, ratePeriodNanos: int,
                     targetAmountOfTokensAfterThrottling: int): (r: Result<BucketParameters, ConstructionError>)
    requires InLong(capacity) && InLong(rate) && InLong(ratePeriodNanos)
    requires InLong(targetAmountOfTokensAfterThrottling)
    requires targetAmountOfTokensAfterThrottling >= 0 || FillFactorExact(capacity)
    ensures r.Failure? <==> rate == 0
    ensures r.Success? ==> r.value.capacity == capacity && r.value.rate == rate
  {
    if rate == 0 then
      Failure(DivisionByZero)
    else
      Success(BucketParameters(
        capacity,
        rate,
        EffectiveRatePeriodNanos(ratePeriodNanos),
        NanosForOneToken(ratePeriodNanos, rate),
        EffectiveTargetAfterThrottling(targetAmountOfTokensAfterThrottling, capacity)))
  }

  /** Every derived field fits in a Java long. */
  lemma ConfiguredFieldsAreLongs(capacity: int, rate: int, ratePeriodNanos: int, target: int)
    requires InLong(capacity) && InLong(rate) && InLong(ratePeriodNanos) && InLong(target)
    requires target >= 0 || FillFactorExact(capacity)
    requires rate != 0
    ensures var p := Configure(capacity, rate, ratePeriodNanos, target).value;
      InLong(p.ratePeriodNanos) && InLong(p.nanosForOneToken)
      && InLong(p.targetAmountOfTokensAfterThrottling)
  {
    var t := EffectiveTargetAfterThrottling(target, capacity);
    if target < 0 {
      MulMonotone(1, FILL_FACTOR_DIVISOR, Abs(t));
    }
  }

  /** The stored period keeps every argument but `-1`, other negatives
      included; the refill step always comes from the raw argument. */
  lemma ConfiguredPeriodAndStep(capacity: int, rate: int, ratePeriodNanos: int, target: int)
    requires InLong(capacity) && InLong(rate) && InLong(ratePeriodNanos) && InLong(target)
    requires target >= 0 || FillFactorExact(capacity)
    requires rate != 0
    ensures var p := Configure(capacity, rate, ratePeriodNanos, target).value;
      (p.ratePeriodNanos == ONE_SECOND_NANOS <==> ratePeriodNanos in {-1, ONE_SECOND_NANOS})
      && (ratePeriodNanos != -1 ==> p.ratePeriodNanos == ratePeriodNanos)
      && (ratePeriodNanos == -1 ==> p.nanosForOneToken == (if rate == 1 then -1 else if rate == -1 then 1 else 0))
  {
    if ratePeriodNanos == -1 {
      MinusOneQuotient(rate);
    }
  }

  /** The stored refill step is the stored period divided by the rate exactly
      when no default was substituted, or the rate is so high that both
      quotients are zero. */
  lemma {:induction false} ConfiguredStepMatchesPeriodIff(capacity: int, rate: int, ratePeriodNanos: int, target: int)
    requires InLong(capacity) && InLong(rate) && InLong(ratePeriodNanos) && InLong(target)
    requires target >= 0 || FillFactorExact(capacity)
    requires rate != 0
    ensures var p := Configure(capacity, rate, ratePeriodNanos, target).value;
      p.nanosForOneToken == LongDiv(p.ratePeriodNanos, rate)
      <==> (ratePeriodNanos != -1 || Abs(rate) > ONE_SECOND_NANOS)
  {
    if ratePeriodNanos == -1 {
      MinusOneQuotient(rate);
      var d := LongDiv(ONE_SECOND_NANOS, rate);
      if Abs(rate) > ONE_SECOND_NANOS {
        TruncDivUnique(ONE_SECOND_NANOS, rate, 0);
      } else {
        assert d != 0;
        assert d > 0 <==> rate > 0;
        if Abs(rate) == 1 {
          TruncDivUnique(ONE_SECOND_NANOS, rate, if rate == 1 then ONE_SECOND_NANOS else -ONE_SECOND_NANOS);
        }
      }
    }
  }

  /** Whenever the stored period is positive and holds at least one token's
      worth of the rate, the corrected step is the period split into `rate`
      whole parts: positive, and within one rate of the period. */
  lemma {:induction false} IntendedStepSplitsPeriod(ratePeriodNanos: int, rate: int)
    requires InLong(ratePeriodNanos) && InLong(rate) && rate != 0
    ensures var p := EffectiveRatePeriodNanos(ratePeriodNanos);
      var n := IntendedNanosForOneToken(ratePeriodNanos, rate);
      0 < rate <= p ==> n > 0 && n * rate <= p < (n + 1) * rate
  {
    var p := EffectiveRatePeriodNanos(ratePeriodNanos);
    if 0 < rate <= p {
      var n := IntendedNanosForOneToken(ratePeriodNanos, rate);
      assert n == TruncDiv(p, rate);
      assert Abs(p) == p && Abs(rate) == rate;
    }
  }

  /** The constructor's step does not split the stored period: with the
      sentinel and any rate from 2 to one billion the step is zero. */
  lemma {:induction false} SentinelStepIsZero(rate: int)
    requires 1 < rate <= ONE_SECOND_NANOS
    ensures NanosForOneToken(-1, rate) == 0
    ensures IntendedNanosForOneToken(-1, rate) > 0
  {
    MinusOneQuotient(rate);
    IntendedStepSplitsPeriod(-1, rate);
  }

  /** With the sentinel period and rate 100, the constructor stores a refill
      step of zero nanoseconds where ten milliseconds were meant. */
  lemma SentinelPeriodGivesZeroStep()
    ensures NanosForOneToken(-1, 100) == 0
    ensures IntendedNanosForOneToken(-1, 100) == 10_000_000
  {
    MinusOneQuotient(100);
    TruncDivUnique(ONE_SECOND_NANOS, 100, 10_000_000);
  }

  /** A negative target defaults to 1% of a non-negative capacity, truncated:
      capacity 1000 gives 10, capacity 199 gives 1 and capacity 99 gives 0. */
  lemma DefaultTargetExamples()
    ensures DefaultTargetAfterThrottling(1000) == 10
    ensures DefaultTargetAfterThrottling(199) == 1
    ensures DefaultTargetAfterThrottling(99) == 0
    ensures DefaultTargetAfterThrottling(-250) == -2
  {
    TruncDivUnique(1000, FILL_FACTOR_DIVISOR, 10);
    TruncDivUnique(199, FILL_FACTOR_DIVISOR, 1);
    TruncDivUnique(99, FILL_FACTOR_DIVISOR, 0);
    TruncDivUnique(-250, FILL_FACTOR_DIVISOR, -2);
  }

  /** A token bucket whose capacity and rate are fixed for its whole life.
      The final fields are `const`; only the token count changes. */
  class FinalRateAsyncTokenBucket {
    const capacity: int
    const rate: int
    const ratePeriodNanos: int
    const nanosForOneToken: int
    const targetAmountOfTokensAfterThrottling: int

    /** The token count kept by AsyncTokenBucket; may go negative. */
    var tokens: int

    /** The constructor's arguments that the final fields are derived from. */
    ghost const capacityArg: int
    ghost const rateArg: int
    ghost const ratePeriodNanosArg: int
    ghost const targetArg: int

    /** The token count that the last GetTokens call started from. */
    ghost var tokensBeforeRefill: int

    /** The final fields hold what the constructor derives from its arguments. */
    ghost predicate Valid() {
      InLong(capacityArg) && InLong(rateArg) && InLong(ratePeriodNanosArg) && InLong(targetArg)
      && (targetArg >= 0 || FillFactorExact(capacityArg))
      && Configure(capacityArg, rateArg, ratePeriodNanosArg, targetArg) == Success(Parameters())
    }

    function Parameters(): BucketParameters {
      BucketParameters(capacity, rate, ratePeriodNanos, nanosForOneToken,
                       targetAmountOfTokensAfterThrottling)
    }

    /** The clock source and refill resolution go to AsyncTokenBucket's
        constructor, which is not part of this model. */
    constructor (capacity: int, rate: int, ratePeriodNanos: int, initialTokens: int,
                 targetAmountOfTokensAfterThrottling: int)
      requires InLong(capacity) && InLong(rate) && InLong(ratePeriodNanos)
      requires InLong(initialTokens) && InLong(targetAmountOfTokensAfterThrottling)
      requires targetAmountOfTokensAfterThrottling >= 0 || FillFactorExact(capacity)
      requires rate != 0
      ensures Valid()
      ensures capacityArg == capacity && rateArg == rate && ratePeriodNanosArg == ratePeriodNanos
      ensures targetArg == targetAmountOfTokensAfterThrottling
      ensures this.capacity == capacity && this.rate == rate
      ensures tokensBeforeRefill == initialTokens
    {
      capacityArg, rateArg := capacity, rate;
      ratePeriodNanosArg, targetArg := ratePeriodNanos, targetAmountOfTokensAfterThrottling;
      this.capacity := capacity;
      this.rate := rate;
      this.ratePeriodNanos := EffectiveRatePeriodNanos(ratePeriodNanos);
      this.nanosForOneToken := NanosForOneToken(ratePeriodNanos, rate);
      this.targetAmountOfTokensAfterThrottling :=
        EffectiveTargetAfterThrottling(targetAmountOfTokensAfterThrottling, capacity);
      new;
      tokens := initialTokens;
      var _ := GetTokens();
    }

    /** Stands for the inherited getTokens(), which brings the count up to
        date against the clock. AsyncTokenBucket and its clock are not part
        of this model: the new count is left arbitrary, and nothing but the
        count changes. */
    method GetTokens() returns (t: int)
      modifies this`tokens, this`tokensBeforeRefill
      ensures tokensBeforeRefill == old(tokens)
      ensures t == tokens
    {
      tokensBeforeRefill := tokens;
      tokens := *;
      t := tokens;
    }

    function GetRatePeriodNanos(): (p: int)
      requires Valid()
      ensures p == EffectiveRatePeriodNanos(ratePeriodNanosArg)
      ensures ratePeriodNanosArg != -1 ==> p == ratePeriodNanosArg
    {
      ratePeriodNanos
    }

    function GetTargetAmountOfTokensAfterThrottling(): (t: int)
      requires Valid()
      ensures targetArg >= 0 ==> t == targetArg
      ensures targetArg < 0 ==> t == DefaultTargetAfterThrottling(capacityArg)
    {
      targetAmountOfTokensAfterThrottling
    }

    function GetCapacity(): (c: int)
      requires Valid()
      ensures c == capacityArg
    {
      capacity
    }

    function GetRate(): (r: int)
      requires Valid()
      ensures r == rateArg && r != 0
    {
      rate
    }

    function GetNanosForOneToken(): (n: int)
      requires Valid()
      ensures n == NanosForOneToken(ratePeriodNanosArg, rateArg)
      ensures ratePeriodNanosArg == -1 && Abs(rateArg) > 1 ==> n == 0
    {
      MinusOneQuotient(rateArg);
      nanosForOneToken
    }
  }

  /** The bucket of a worked example: capacity 1000, rate 100 per second
      given through the sentinel, and the default target. */
  method ScenarioSentinelPeriod() returns (b: FinalRateAsyncTokenBucket)
    ensures b.Valid()
    ensures b.GetCapacity() == 1000 && b.GetRate() == 100
    ensures b.GetRatePeriodNanos() == ONE_SECOND_NANOS
    ensures b.GetTargetAmountOfTokensAfterThrottling() == 10
    ensures b.GetNanosForOneToken() == 0
  {
    b := new FinalRateAsyncTokenBucket(1000, 100, -1, 1000, -1);
    DefaultTargetExamples();
  }
}
