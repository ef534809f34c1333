/**
 The step counter of the Collatz utility: the transition rule, its k-fold
 iteration, the meaning of "the number of steps to reach 1", and the
 counting loop itself.
 */
module CollatzUtils {

  /** The one error the counter reports, plus the bound the model's loop needs. */
  datatype Error =
    | InvalidArgument    // the starting value is 0 or less
    | StepLimitReached   // no 1 was met within the caller's step bound

  datatype Result<T> = Ok(value: T) | Err(error: Error)

  /** One Collatz transition: halve an even value, take 3n+1 of an odd one. */
  function Next(n: int): (r: int)
    ensures n % 2 == 0 ==> n == 2 * r
    ensures n % 2 == 1 ==> r == 3 * n + 1 && r % 2 == 0
    ensures n >= 1 ==> r >= 1
  {
    if n % 2 == 0 then n / 2
    else
      assert 3 * n + 1 == 2 * (3 * (n / 2) + 2);
      3 * n + 1
  }

  /** The value reached from `n` after `k` transitions. */
  function Iter(n: int, k: nat): (r: int)
    ensures n >= 1 ==> r >= 1
  {
    if k == 0 then n else Next(Iter(n, k - 1))
  }

  /**
   `k` is the step count of `value`: `k` transitions lead to 1, at least one
   transition is taken (the start itself is never counted as reaching 1), and
   no earlier transition produced 1.
   */
  ghost predicate IsStepCount(value: int, k: nat)
  {
    && k >= 1
    && Iter(value, k) == 1
    && forall j :: 1 <= j < k ==> Iter(value, j) != 1
  }

  /**
   Counts the transitions from `value` until the running value is 1 again.
   The loop is cut off after `maxSteps` transitions, since whether it ends
   at all is the Collatz conjecture.
   */
  method StepsFor(value: int, maxSteps: nat) returns (r: Result<nat>)
    ensures r == Err(InvalidArgument) <==> value <= 0
    ensures r.Ok? ==> IsStepCount(value, r.value) && r.value <= maxSteps
    ensures r == Err(StepLimitReached) ==>
              value >= 1 && forall j :: 1 <= j <= maxSteps ==> Iter(value, j) != 1
    ensures forall k: nat :: value >= 1 && k <= maxSteps && IsStepCount(value, k) ==> r == Ok(k)
  {
    if value <= 0 {
      return Err(InvalidArgument);
    }
    var cur := value;
    var steps: nat := 0;
    while steps < maxSteps
      invariant steps <= maxSteps
      invariant cur == Iter(value, steps)
      invariant forall j :: 1 <= j <= steps ==> Iter(value, j) != 1
    {
      cur := Next(cur);
      steps := steps + 1;
      if cur == 1 {
        return Ok(steps);
      }
    }
    return Err(StepLimitReached);
  }
}
