/**
 * The recurrence a driver produces by firing an entry and re-enqueuing its
 * successor, over and over.  `Iterate(e, k)` is the entry after `k` such
 * rounds.  The lemmas say what the sequence of occurrences is, and what the
 * rule must satisfy for that sequence to move forward in time; the entry
 * itself enforces no such condition.
 */
module Recurrence {

  import opened Time
  import opened Schedules
  import opened Service

  /** The entry `k` firings after `e`. */
  function Iterate<J>(e: QueueEntry<J>, k: nat): (r: QueueEntry<J>)
    ensures r.jobConstructor == e.jobConstructor && r.schedule == e.schedule
    decreases k
  {
    if k == 0 then e else Iterate(GetSubsequentEntry(e), k - 1)
  }

  /** After `k` firings the occurrence is the rule applied `k` times to the first one. */
  lemma {:induction false} IterateOccurrence<J>(e: QueueEntry<J>, k: nat)
    ensures Iterate(e, k).nextOccurrence == Power(e.schedule, k, e.nextOccurrence)
    decreases k
  {
    if k > 0 {
      var next := GetSubsequentEntry(e);
      IterateOccurrence(next, k - 1);
      PowerShift(e.schedule, k - 1, e.nextOccurrence);
    }
  }

  /**
   * An entry built from `baseTime` fires, on its `k`-th re-enqueuing, at the
   * rule applied `k + 1` times to `baseTime`: the wall clock never enters.
   */
  lemma MakeThenIterate<J>(jobConstructor: () -> J, schedule: Schedule, baseTime: Ticks, k: nat)
    ensures Iterate(Make(jobConstructor, schedule, baseTime), k).nextOccurrence
         == Power(schedule, k + 1, baseTime)
  {
    IterateOccurrence(Make(jobConstructor, schedule, baseTime), k);
    PowerShift(schedule, k, baseTime);
  }

  /**
   * Advancing from an intermediate entry continues the same recurrence as
   * advancing from the original: `i + j` firings are `i` then `j`.
   */
  lemma {:induction false} IterateAdd<J>(e: QueueEntry<J>, i: nat, j: nat)
    ensures Iterate(e, i + j) == Iterate(Iterate(e, i), j)
    decreases i
  {
    if i > 0 {
      IterateAdd(GetSubsequentEntry(e), i - 1, j);
    }
  }

  /** Every entry of the recurrence hands out jobs from the same constructor. */
  lemma JobInstanceAlongRecurrence<J>(e: QueueEntry<J>, k: nat)
    ensures GetJobInstance(Iterate(e, k)) == GetJobInstance(e)
  {
  }

  /** With an advancing rule a later firing never sorts before an earlier one. */
  lemma AdvancingRecurrenceNonDecreasing<J>(e: QueueEntry<J>, i: nat, j: nat)
    requires Advancing(e.schedule)
    requires i <= j
    ensures CompareTo(Iterate(e, i), Iterate(e, j)) <= 0
  {
    IterateOccurrence(e, i);
    IterateOccurrence(e, j);
    AdvancingPowerNonDecreasing(e.schedule, i, j, e.nextOccurrence);
  }

  /**
   * With a monotonic rule, one forward first step is enough for the whole
   * recurrence never to go back in time.
   */
  lemma MonotonicRecurrenceNonDecreasing<J>(e: QueueEntry<J>, i: nat, j: nat)
    requires Monotonic(e.schedule)
    requires e.nextOccurrence <= e.schedule(e.nextOccurrence)
    requires i <= j
    ensures CompareTo(Iterate(e, i), Iterate(e, j)) <= 0
  {
    IterateOccurrence(e, i);
    IterateOccurrence(e, j);
    MonotonicPowerNonDecreasing(e.schedule, i, j, e.nextOccurrence);
  }

  /**
   * With a strictly advancing rule every firing sorts after all earlier ones,
   * and after `k` firings the entry is at least `k` ticks later, so the
   * recurrence passes any given instant.
   */
  lemma StrictlyAdvancingRecurrenceProgress<J>(e: QueueEntry<J>, i: nat, j: nat)
    requires StrictlyAdvancing(e.schedule)
    requires i <= j
    ensures Iterate(e, i).nextOccurrence + (j - i) <= Iterate(e, j).nextOccurrence
    ensures i < j ==> CompareTo(Iterate(e, i), Iterate(e, j)) < 0
  {
    IterateOccurrence(e, i);
    IterateOccurrence(e, j);
    StrictlyAdvancingPowerProgress(e.schedule, i, j, e.nextOccurrence);
  }

  /**
   * The hazard the entry does not guard against: with a rule that never
   * moves forward, no later entry of the recurrence sorts after the first,
   * so the recurrence never passes the first occurrence.
   */
  lemma StallingRecurrenceNeverAdvances<J>(e: QueueEntry<J>, k: nat)
    requires Stalling(e.schedule)
    ensures CompareTo(Iterate(e, k), e) <= 0
  {
    IterateOccurrence(e, k);
    StallingPowerBounded(e.schedule, k, e.nextOccurrence);
  }
}
