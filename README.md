# Fixed-rate token bucket parameters (Apache Pulsar broker QoS)

This project models `FinalRateAsyncTokenBucket`. It is the constant-rate
variant of the broker's admission-control token bucket. Its constructor takes
the raw configuration: capacity, rate, rate period, initial tokens and the
target amount of tokens after throttling. It then does four things:

- It substitutes defaults for sentinel values. A rate period of `-1` means one
  second. A negative target means 1% of the capacity.
- It derives the refill step `nanosForOneToken` with Java `long` division.
- It seeds the inherited token count with the initial tokens.
- It asks the parent class for a refreshed count.

The getters then return the final values for the whole life of the object.

Files:

- `JavaLong.dfy` (module `JavaLong`) covers Java `long` semantics over unbounded
  integers: the 64-bit range, two's-complement wrap-around, and division that
  rounds toward zero. Division follows section 15.17.2 of the Java Language
  Specification, including the overflow of `LONG_MIN / -1`. Dafny's own `/` is
  Euclidean, so it is not used for Java division.
- `FinalRateAsyncTokenBucket.dfy` (module `Qos`) holds the rest:
  - the pure computation of the final fields, `Configure`, which returns a
    `Failure` for the `ArithmeticException` a zero rate raises;
  - the lemmas about that computation;
  - the class `FinalRateAsyncTokenBucket`. Its final fields are `const`. Its
    token count is a mutable field. The ghost constants record the constructor
    arguments that the getters' contracts refer to.

Capacity and rate are `const` fields, and `GetTokens` may modify only the
token count. So the verifier guarantees that capacity, rate and every other
derived parameter stay the same after construction.

## Model

| member | source | states |
|---|---|---|
| JavaLong.TruncDiv | pulsar-broker/src/main/java/org/apache/pulsar/broker/qos/FinalRateAsyncTokenBucket.java:41 | Java's `/` before overflow: the quotient's magnitude is the largest whose product with the divisor fits in the dividend, and a non-zero quotient is positive exactly when the operands share a sign |
| JavaLong.FitCount | pulsar-broker/src/main/java/org/apache/pulsar/broker/qos/FinalRateAsyncTokenBucket.java:41 | schoolbook division by repeated subtraction: the count m of whole divisors in the dividend satisfies m * d <= x < (m + 1) * d |
| JavaLong.NatDivIsFitCount | pulsar-broker/src/main/java/org/apache/pulsar/broker/qos/FinalRateAsyncTokenBucket.java:41 | the quotient magnitude used by TruncDiv equals the schoolbook count for every dividend and positive divisor |
| JavaLong.TruncDivUnique | pulsar-broker/src/main/java/org/apache/pulsar/broker/qos/FinalRateAsyncTokenBucket.java:41 | those two properties determine the quotient uniquely, so TruncDiv is the only function that satisfies them |
| JavaLong.LongDiv | pulsar-broker/src/main/java/org/apache/pulsar/broker/qos/FinalRateAsyncTokenBucket.java:41 | `long / long` always yields a long; it is the truncated quotient except for LONG_MIN / -1, which wraps to LONG_MIN |
| JavaLong.MinusOneQuotient | pulsar-broker/src/main/java/org/apache/pulsar/broker/qos/FinalRateAsyncTokenBucket.java:40-41 | `-1 / rate` is 0 for every rate of magnitude above one, -1 for rate 1 and 1 for rate -1 |
| Qos.EffectiveRatePeriodNanos | pulsar-broker/src/main/java/org/apache/pulsar/broker/qos/FinalRateAsyncTokenBucket.java:40 | the stored period is the argument unless the argument is exactly -1, which becomes ONE_SECOND_NANOS |
| Qos.DefaultTargetAfterThrottling | pulsar-broker/src/main/java/org/apache/pulsar/broker/qos/FinalRateAsyncTokenBucket.java:42-44 | the default target is 1% of the capacity truncated toward zero: 100 times its magnitude fits in the capacity's magnitude, 100 times the next magnitude does not, and it has the capacity's sign |
| Qos.EffectiveTargetAfterThrottling | pulsar-broker/src/main/java/org/apache/pulsar/broker/qos/FinalRateAsyncTokenBucket.java:42-44 | a non-negative target argument is kept; a negative one becomes 1% of the capacity, which lies between 0 and the capacity when the capacity is non-negative |
| Qos.NanosForOneToken | pulsar-broker/src/main/java/org/apache/pulsar/broker/qos/FinalRateAsyncTokenBucket.java:41 | the refill step is the raw period argument divided by the rate with Java truncation, and it is a long |
| Qos.IntendedNanosForOneToken | pulsar-broker/src/main/java/org/apache/pulsar/broker/qos/FinalRateAsyncTokenBucket.java:40-41 | the corrected step, computed from the stored period; it is a long and agrees with the constructor's step for every argument except -1 |
| Qos.Configure | pulsar-broker/src/main/java/org/apache/pulsar/broker/qos/FinalRateAsyncTokenBucket.java:38-44 | construction fails (ArithmeticException) if and only if the rate is zero; on success the capacity and rate are the arguments unchanged |
| Qos.ConfiguredFieldsAreLongs | pulsar-broker/src/main/java/org/apache/pulsar/broker/qos/FinalRateAsyncTokenBucket.java:28-32 | every derived final field (period, step, target) is within the range of a Java long |
| Qos.ConfiguredPeriodAndStep | pulsar-broker/src/main/java/org/apache/pulsar/broker/qos/FinalRateAsyncTokenBucket.java:40-41 | the stored period is one second if and only if the argument is -1 or one second; every other argument, negative ones included, is kept; with -1 the step is `-1 / rate` (0, -1 or 1) |
| Qos.ConfiguredStepMatchesPeriodIff | pulsar-broker/src/main/java/org/apache/pulsar/broker/qos/FinalRateAsyncTokenBucket.java:40-41 | the stored step equals the stored period divided by the rate if and only if the period argument is not -1 or the rate's magnitude exceeds one billion |
| Qos.IntendedStepSplitsPeriod | pulsar-broker/src/main/java/org/apache/pulsar/broker/qos/FinalRateAsyncTokenBucket.java:40-41 | when 0 < rate <= stored period, the corrected step is positive and step * rate <= period < (step + 1) * rate |
| Qos.SentinelStepIsZero | pulsar-broker/src/main/java/org/apache/pulsar/broker/qos/FinalRateAsyncTokenBucket.java:41 | with period argument -1 and a rate from 2 to one billion, the constructor's step is 0 while the corrected step is positive |
| Qos.DefaultTargetExamples | pulsar-broker/src/main/java/org/apache/pulsar/broker/qos/FinalRateAsyncTokenBucket.java:44 | the default target of capacities 1000, 199, 99 and -250 is 10, 1, 0 and -2 |
| Qos.FinalRateAsyncTokenBucket.constructor | pulsar-broker/src/main/java/org/apache/pulsar/broker/qos/FinalRateAsyncTokenBucket.java:34-47 | requires a non-zero rate; the final fields are what Configure derives from the arguments; capacity and rate are the arguments; the refresh starts from the initial tokens |
| Qos.FinalRateAsyncTokenBucket.GetTokens | pulsar-broker/src/main/java/org/apache/pulsar/broker/qos/FinalRateAsyncTokenBucket.java:46 | the inherited refresh changes the token count only, starts from the current count and returns the new count |
| Qos.FinalRateAsyncTokenBucket.GetRatePeriodNanos | pulsar-broker/src/main/java/org/apache/pulsar/broker/qos/FinalRateAsyncTokenBucket.java:49-52 | returns the defaulted period of the constructor's argument, which is the argument itself unless it was -1 |
| Qos.FinalRateAsyncTokenBucket.GetTargetAmountOfTokensAfterThrottling | pulsar-broker/src/main/java/org/apache/pulsar/broker/qos/FinalRateAsyncTokenBucket.java:54-57 | returns the target argument when it is non-negative, else 1% of the constructor's capacity |
| Qos.FinalRateAsyncTokenBucket.GetCapacity | pulsar-broker/src/main/java/org/apache/pulsar/broker/qos/FinalRateAsyncTokenBucket.java:59-62 | returns the constructor's capacity argument |
| Qos.FinalRateAsyncTokenBucket.GetRate | pulsar-broker/src/main/java/org/apache/pulsar/broker/qos/FinalRateAsyncTokenBucket.java:64-67 | returns the constructor's rate argument, which is non-zero |
| Qos.FinalRateAsyncTokenBucket.GetNanosForOneToken | pulsar-broker/src/main/java/org/apache/pulsar/broker/qos/FinalRateAsyncTokenBucket.java:69-72 | returns the raw period argument divided by the rate, which is 0 for the -1 sentinel with any rate of magnitude above one |
| Qos.ScenarioSentinelPeriod | pulsar-broker/src/main/java/org/apache/pulsar/broker/qos/FinalRateAsyncTokenBucket.java:34-72 | a bucket built with capacity 1000, rate 100, period -1 and target -1 reports capacity 1000, rate 100, period one second, target 10 and step 0 |

## Left out

- The parent class `AsyncTokenBucket` is not part of this model. That includes its lock-free refill/consume loop, its clock reads, `MonotonicClock`, and the `clockSource` and `addTokensResolutionNanos` arguments the constructor passes to it unchanged. `GetTokens` stands in for the inherited `getTokens()`: it may set the token count to any value and changes nothing else.
- `ONE_SECOND_NANOS` is declared in the parent class. It is taken as 1,000,000,000, the number of nanoseconds in a second.
- Qos.DefaultTargetAfterThrottling: `(long) (capacity * 0.01d)` is double arithmetic. It is modelled as capacity / 100 truncated toward zero. This is exact only for capacities of magnitude at most 2^53, so a negative target argument requires such a capacity. Larger capacities with a defaulted target are not modelled.
- Qos.FinalRateAsyncTokenBucket.constructor: a zero rate is excluded by a precondition, because a Java constructor that throws yields no object. The `ArithmeticException` path is modelled by `Configure`, which returns `Failure(DivisionByZero)`.
- Concurrency: the Java fields are read by many threads. Their finality is modelled by `const`; nothing else about concurrency is modelled.

## Findings

| source | as written | input that shows it | evidently intended | confidence | as-written member | corrected member |
|---|---|---|---|---|---|---|
| pulsar-broker/src/main/java/org/apache/pulsar/broker/qos/FinalRateAsyncTokenBucket.java:41 | `nanosForOneToken` is divided from the raw `ratePeriodNanos` argument, not from the period after the `-1` default | ratePeriodNanos = -1, rate = 100: the step is 0 while getRatePeriodNanos() reports 1,000,000,000 | ONE_SECOND_NANOS / rate = 10,000,000 ns per token | high that the step and the reported period disagree; not executed | Qos.SentinelStepIsZero | Qos.IntendedStepSplitsPeriod |

The class keeps the step as written, because the model follows the code. The
corrected step is `IntendedNanosForOneToken`. It splits the stored period for
every argument, and it agrees with the class's step everywhere except at the
sentinel.
