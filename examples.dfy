/**
 * Worked instances: an interval rule ("every n minutes") driving two entries,
 * and a rule showing that monotonicity alone does not make a recurrence move
 * forward.
 */
module Examples {

  import opened Time
  import opened Schedules
  import opened Service

  const NineOClock: Ticks := 9 * 60 * TicksPerMinute

  /** A rule firing a fixed number of minutes after its base time. */
  function Every(minutes: nat): (s: Schedule)
    ensures minutes > 0 ==> StrictlyAdvancing(s)
  {
    t => t + minutes * TicksPerMinute
  }

  /**
   * A ten-minute entry built at nine fires at 9:10 and its successor at 9:20;
   * a five-minute entry built at nine fires at 9:05 and sorts before both.
   */
  lemma IntervalScenario()
    ensures var a := Make(() => 1, Every(10), NineOClock);
            var b := GetSubsequentEntry(a);
            var c := Make(() => 2, Every(5), NineOClock);
            && a.nextOccurrence == NineOClock + 10 * TicksPerMinute
            && b.nextOccurrence == NineOClock + 20 * TicksPerMinute
            && c.nextOccurrence == NineOClock + 5 * TicksPerMinute
            && CompareTo(a, b) < 0
            && CompareTo(c, a) < 0
            && CompareTo(c, b) < 0
  {
  }

  /**
   * A monotonic rule that answers one tick before its base time: the
   * successor sorts before the entry it came from, because the entry checks
   * nothing about the time the rule returns.
   */
  lemma MonotonicRuleMayRegress()
    ensures var s: Schedule := t => t - 1;
            var e := Make(() => 0, s, NineOClock);
            && Monotonic(s)
            && CompareTo(GetSubsequentEntry(e), e) < 0
  {
  }
}
