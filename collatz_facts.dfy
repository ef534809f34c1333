/**
 What the step count means beyond one call: its recursive characterisation,
 its uniqueness, powers of two, and the table of small starting values.
 */
module CollatzFacts {
  import opened CollatzUtils

  /** Taking one transition first and then `k` more is `k + 1` transitions. */
  lemma {:induction false} IterShift(n: int, k: nat)
    ensures Iter(n, k + 1) == Iter(Next(n), k)
  {
    if k > 0 {
      IterShift(n, k - 1);
    }
  }

  /**
   The step count satisfies the recursion steps(n) = 1 when the first
   transition gives 1, and 1 + steps(Next(n)) otherwise.
   */
  lemma StepCountOne(n: int)
    ensures IsStepCount(n, 1) <==> Next(n) == 1
  {
    assert Iter(n, 1) == Next(Iter(n, 0));
  }

  lemma StepCountBack(n: int, k: nat)
    requires k >= 1
    ensures IsStepCount(n, k + 1) <==> Next(n) != 1 && IsStepCount(Next(n), k)
  {
    IterShift(n, k);
    assert Iter(n, 1) == Next(n);
    if IsStepCount(n, k + 1) {
      forall j | 1 <= j < k
        ensures Iter(Next(n), j) != 1
      {
        IterShift(n, j);
      }
    }
    if Next(n) != 1 && IsStepCount(Next(n), k) {
      forall j | 1 <= j < k + 1
        ensures Iter(n, j) != 1
      {
        if j > 1 {
          IterShift(n, j - 1);
        }
      }
    }
  }

  /** A starting value has at most one step count, so the counter is deterministic. */
  lemma StepCountUnique(n: int, k1: nat, k2: nat)
    requires IsStepCount(n, k1) && IsStepCount(n, k2)
    ensures k1 == k2
  {
  }

  /**
   A direct recursive reading of the counter: `n` reaches 1 in exactly `k`
   transitions, following the sequence one value at a time.
   */
  predicate ReachesOneIn(n: int, k: nat)
    decreases k
  {
    k >= 1 && if Next(n) == 1 then k == 1 else ReachesOneIn(Next(n), k - 1)
  }

  /** The recursive reading and the step count agree on every input. */
  lemma {:induction false} ReachesOneInIsStepCount(n: int, k: nat)
    ensures ReachesOneIn(n, k) <==> IsStepCount(n, k)
    decreases k
  {
    StepCountOne(n);
    if k >= 2 {
      ReachesOneInIsStepCount(Next(n), k - 1);
      StepCountBack(n, k - 1);
    }
  }

  /**
   The expected counts for the starting values 1 to 10. The walk goes back
   along the sequence 9, 28, 14, 7, 22, 11, 34, 17, 52, 26, 13, 40, 20, 10, 5,
   16, 8, 4, 2, 1, which passes 10, 8, 7, 5, 4 and 2; then 3 goes to 10, 6 to
   3 and 1 to 4.
   */
  lemma SmallTable()
    ensures IsStepCount(1, 3)
    ensures IsStepCount(2, 1)
    ensures IsStepCount(3, 7)
    ensures IsStepCount(4, 2)
    ensures IsStepCount(5, 5)
    ensures IsStepCount(6, 8)
    ensures IsStepCount(7, 16)
    ensures IsStepCount(8, 3)
    ensures IsStepCount(9, 19)
    ensures IsStepCount(10, 6)
  {
    assert ReachesOneIn(2, 1);
    assert ReachesOneIn(4, 2);
    assert ReachesOneIn(8, 3);
    assert ReachesOneIn(16, 4);
    assert ReachesOneIn(5, 5);
    assert ReachesOneIn(10, 6);
    assert ReachesOneIn(20, 7);
    assert ReachesOneIn(40, 8);
    assert ReachesOneIn(13, 9);
    assert ReachesOneIn(26, 10);
    assert ReachesOneIn(52, 11);
    assert ReachesOneIn(17, 12);
    assert ReachesOneIn(34, 13);
    assert ReachesOneIn(11, 14);
    assert ReachesOneIn(22, 15);
    assert ReachesOneIn(7, 16);
    assert ReachesOneIn(14, 17);
    assert ReachesOneIn(28, 18);
    assert ReachesOneIn(9, 19);
    assert ReachesOneIn(3, 7);
    assert ReachesOneIn(6, 8);
    assert ReachesOneIn(1, 3);
    ReachesOneInIsStepCount(1, 3);
    ReachesOneInIsStepCount(2, 1);
    ReachesOneInIsStepCount(3, 7);
    ReachesOneInIsStepCount(4, 2);
    ReachesOneInIsStepCount(5, 5);
    ReachesOneInIsStepCount(6, 8);
    ReachesOneInIsStepCount(7, 16);
    ReachesOneInIsStepCount(8, 3);
    ReachesOneInIsStepCount(9, 19);
    ReachesOneInIsStepCount(10, 6);
  }

  function Pow2(k: nat): (r: nat)
    ensures r >= 1
  {
    if k == 0 then 1 else 2 * Pow2(k - 1)
  }

  /** Each transition from 2^k halves it: after j <= k steps the value is 2^(k-j). */
  lemma {:induction false} PowerOfTwoIter(k: nat, j: nat)
    requires j <= k
    ensures Iter(Pow2(k), j) == Pow2(k - j)
  {
    if j > 0 {
      PowerOfTwoIter(k, j - 1);
      assert Pow2(k - (j - 1)) == 2 * Pow2(k - j);
    }
  }

  /** Starting from 2^k with k >= 1, the step count is exactly k. */
  lemma PowerOfTwoSteps(k: nat)
    requires k >= 1
    ensures IsStepCount(Pow2(k), k)
  {
    PowerOfTwoIter(k, k);
    forall j | 1 <= j < k
      ensures Iter(Pow2(k), j) != 1
    {
      PowerOfTwoIter(k, j);
    }
  }
}
