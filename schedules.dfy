/**
 * Recurrence rules.  An `ISchedule` is reduced to what the queue entry uses of
 * it, `GetNextOccurrence`: a total, deterministic map from a base time to the
 * next time the job should fire.  No concrete rule is modelled, and nothing is
 * assumed about a rule unless a lemma says so in its `requires`.
 */
module Schedules {

  import opened Time

  type Schedule = Ticks -> Ticks

  /** The rule applied `k` times, starting from `t`. */
  function Power(s: Schedule, k: nat, t: Ticks): (r: Ticks)
  {
    if k == 0 then t else s(Power(s, k - 1, t))
  }

  /** The next occurrence is never before its base time. */
  ghost predicate Advancing(s: Schedule)
  {
    forall t :: t <= s(t)
  }

  /** The next occurrence is always strictly after its base time. */
  ghost predicate StrictlyAdvancing(s: Schedule)
  {
    forall t :: t < s(t)
  }

  /** The next occurrence is never after its base time. */
  ghost predicate Stalling(s: Schedule)
  {
    forall t :: s(t) <= t
  }

  /** A later base time never gives an earlier next occurrence. */
  ghost predicate Monotonic(s: Schedule)
  {
    forall t, u :: t <= u ==> s(t) <= s(u)
  }

  /** Applying the rule once more can be done first instead of last. */
  lemma {:induction false} PowerShift(s: Schedule, k: nat, t: Ticks)
    ensures Power(s, k + 1, t) == Power(s, k, s(t))
  {
    if k > 0 {
      PowerShift(s, k - 1, t);
    }
  }

  /** Under an advancing rule the iterates never go back in time. */
  lemma {:induction false} AdvancingPowerNonDecreasing(s: Schedule, i: nat, j: nat, t: Ticks)
    requires Advancing(s)
    requires i <= j
    ensures Power(s, i, t) <= Power(s, j, t)
  {
    if i < j {
      AdvancingPowerNonDecreasing(s, i, j - 1, t);
      assert Power(s, j - 1, t) <= s(Power(s, j - 1, t));
    }
  }

  /** Under a strictly advancing rule every application moves at least one tick. */
  lemma {:induction false} StrictlyAdvancingPowerProgress(s: Schedule, i: nat, j: nat, t: Ticks)
    requires StrictlyAdvancing(s)
    requires i <= j
    ensures Power(s, i, t) + (j - i) <= Power(s, j, t)
  {
    if i < j {
      StrictlyAdvancingPowerProgress(s, i, j - 1, t);
      assert Power(s, j - 1, t) < s(Power(s, j - 1, t));
    }
  }

  /** Under a stalling rule the iterates never pass the starting time. */
  lemma {:induction false} StallingPowerBounded(s: Schedule, k: nat, t: Ticks)
    requires Stalling(s)
    ensures Power(s, k, t) <= t
  {
    if k > 0 {
      StallingPowerBounded(s, k - 1, t);
      assert s(Power(s, k - 1, t)) <= Power(s, k - 1, t);
    }
  }

  /**
   * A monotonic rule whose first step does not go back never goes back later:
   * each iterate is at or after the one before.
   */
  lemma {:induction false} MonotonicPowerStep(s: Schedule, k: nat, t: Ticks)
    requires Monotonic(s)
    requires t <= s(t)
    ensures Power(s, k, t) <= Power(s, k + 1, t)
  {
    if k > 0 {
      MonotonicPowerStep(s, k - 1, t);
      assert s(Power(s, k - 1, t)) <= s(Power(s, k, t));
    }
  }

  /**
   * The same, for any two iterates: under a monotonic rule whose first step
   * does not go back, a later iterate is never earlier.
   */
  lemma {:induction false} MonotonicPowerNonDecreasing(s: Schedule, i: nat, j: nat, t: Ticks)
    requires Monotonic(s)
    requires t <= s(t)
    requires i <= j
    ensures Power(s, i, t) <= Power(s, j, t)
  {
    if i < j {
      MonotonicPowerNonDecreasing(s, i, j - 1, t);
      MonotonicPowerStep(s, j - 1, t);
    }
  }
}
