# Collatz step counter

A Dafny model of `CollatzUtils.stepsFor(long)` from the `com.ikueb.collatz`
utility. The method takes a starting value and rejects one that is 0 or less
with an invalid-argument error. Otherwise it applies the Collatz rule again and
again: halve an even value, take `3n+1` of an odd one. It counts the
applications until the running value is 1, and returns that count. The
starting value itself is never counted as having reached 1. So a walk from 1
goes round the cycle 1 → 4 → 2 → 1 and answers 3.

Layout:

- `collatz.dfy`, module `CollatzUtils`. It holds the rule `Next` and its
  k-fold iteration `Iter`. The ghost predicate `IsStepCount(value, k)` states
  what the count means: `k >= 1`, `Iter(value, k) == 1`, and no `j` in
  `1..k-1` gives 1. The method `StepsFor` is the counting loop, proved
  against that predicate.
- `collatz_facts.dfy`, module `CollatzFacts`. It holds a recursive,
  executable reading of the count (`ReachesOneIn`), proved equivalent to
  `IsStepCount`. It also proves that the count is unique, the law for powers
  of two, and the expected values for the starting values 1 to 10. The
  predicate `ReachesOneIn` and the function `Pow2` (powers of two) are
  helpers for these proofs.

Whether the loop ends for every positive start is the Collatz conjecture, so
`StepsFor` takes a bound `maxSteps`. It answers `Err(StepLimitReached)` when no
1 is met within that many transitions. Its contract is exact for every bound:
it returns `Ok(k)` exactly when `k` is the step count and `k <= maxSteps`.

## Model

| member | source | states |
|---|---|---|
| CollatzUtils.Next | src/main/java/com/ikueb/collatz/CollatzUtils.java:24-28 | an even value is exactly twice its successor; an odd value goes to 3n+1, which is always even; a positive value stays positive |
| CollatzUtils.Iter | src/main/java/com/ikueb/collatz/CollatzUtils.java:61 | every value of the sequence generated from a positive start is positive |
| CollatzUtils.IsStepCount | src/main/java/com/ikueb/collatz/CollatzUtils.java:37-45 | the meaning of the returned count: k >= 1, k transitions give 1, and no transition before the k-th gives 1 (the start is not counted, so 1 has count 3) |
| CollatzUtils.StepsFor | src/main/java/com/ikueb/collatz/CollatzUtils.java:56-64 | a start of 0 or less, and only such a start, fails with InvalidArgument before any iteration; an Ok(k) result is the least k >= 1 whose k-th transition gives 1 (step 0 never counts); an exhausted bound means no transition up to it gave 1; when the step count exists within the bound, it is what is returned |
| CollatzFacts.IterShift | src/main/java/com/ikueb/collatz/CollatzUtils.java:60-61 | one transition followed by k more is the same as k+1 transitions: the counter grows by one per rule application |
| CollatzFacts.StepCountOne | src/main/java/com/ikueb/collatz/CollatzUtils.java:61-63 | the count is 1 exactly when the first transition gives 1 |
| CollatzFacts.StepCountBack | src/main/java/com/ikueb/collatz/CollatzUtils.java:61-63 | the count is k+1 exactly when the first transition does not give 1 and the count from its result is k |
| CollatzFacts.ReachesOneInIsStepCount | src/main/java/com/ikueb/collatz/CollatzUtils.java:37-39 | following the sequence value by value until it is 1 after k transitions agrees, in both directions, with the step-count predicate |
| CollatzFacts.StepCountUnique | src/main/java/com/ikueb/collatz/CollatzUtils.java:56-64 | a start has at most one step count, so the result is determined by the input alone |
| CollatzFacts.SmallTable | src/test/java/com/ikueb/collatz/CollatzUtilsTest.java:30-39 | the starts 1..10 have step counts 3, 1, 7, 2, 5, 8, 16, 3, 19, 6, including 1 → 3 (the full cycle) and 2 → 1 |
| CollatzFacts.PowerOfTwoIter | src/main/java/com/ikueb/collatz/CollatzUtils.java:26 | from 2^k, j <= k transitions give 2^(k-j) |
| CollatzFacts.PowerOfTwoSteps | src/test/java/com/ikueb/collatz/CollatzUtilsTest.java:48-53 | for every k >= 1 the step count of 2^k is exactly k |

## Left out

- StepsFor: takes an extra bound `maxSteps` and may answer `Err(StepLimitReached)`, which the Java method never does. Termination for every positive start is the open Collatz conjecture and cannot be proved. The contract therefore describes the answer only for counts within the bound.
- Fixed-width arithmetic: values are unbounded integers. The Java `long` computation of `3 * v + 1` wraps for starts whose sequence exceeds 2^63 - 1, and the model does not reproduce that wrap. The power-of-two law is proved for every k, not only for the k = 1..60 the test checks.
- Stream mechanics: the Java code drives `LongStream.iterate` and `anyMatch` with a one-element counter array. With the Java 8 library, whose `iterate` applies the step function before it hands out the current element, the counter runs one element ahead of the tested value, which the final decrement undoes. A library that applies the step lazily would shift the count; the model follows the documented values (CollatzUtils.java:43-44) and the expected table. The guard `result[0] > v` keeps the starting value from counting as reaching 1. The model states this meaning as a plain loop with a local counter. It does not model the stream's evaluation order.
- The large-value expectation, 9780657631 → 1132 (CollatzUtilsTest.java:65-68), is not proved: it needs 1132 concrete transitions.
- The test harness itself (data providers and assertions) is not modelled; it serves only as the source of expected values.
