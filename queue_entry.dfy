/**
 * The queue entry of the cron service: one job constructor, one recurrence
 * rule, and the instant at which the job fires next.  Its three fields are
 * read-only, so an entry is modelled as an immutable value; moving on to the
 * next firing builds a new entry and leaves the old one as it was.
 *
 * `J` stands for the job type (`ICronJob`); the job constructor is a
 * zero-argument function producing one.
 */
module Service {

  import opened Time
  import opened Schedules

  /**
   * The field `nextOccurrence` is also the `NextOccurence` property.  Entries
   * are meant to be built only by `Make`; the datatype's own constructor
   * stands for the private field layout.
   */
  datatype QueueEntry<J> = QueueEntry(
    jobConstructor: () -> J,
    schedule: Schedule,
    nextOccurrence: Ticks)

  /**
   * The constructor: keeps the job constructor and the rule, and asks the
   * rule, once, for the next occurrence for `baseTime`.
   */
  function Make<J>(jobConstructor: () -> J, schedule: Schedule, baseTime: Ticks): (r: QueueEntry<J>)
    ensures r.jobConstructor == jobConstructor && r.schedule == schedule
    ensures r.nextOccurrence == schedule(baseTime)
  {
    QueueEntry(jobConstructor, schedule, schedule(baseTime))
  }

  /**
   * `IComparable<QueueEntry>.CompareTo`: the sign says which entry fires
   * first; job constructor and rule play no part.
   */
  function CompareTo<J>(e: QueueEntry<J>, other: QueueEntry<J>): (r: int)
    ensures -1 <= r <= 1
    ensures r < 0 <==> e.nextOccurrence < other.nextOccurrence
    ensures r == 0 <==> e.nextOccurrence == other.nextOccurrence
    ensures r > 0 <==> other.nextOccurrence < e.nextOccurrence
  {
    CompareTicks(e.nextOccurrence, other.nextOccurrence)
  }

  /** Invokes the held job constructor; the job is neither kept nor examined. */
  function GetJobInstance<J>(e: QueueEntry<J>): (r: J)
    ensures r == e.jobConstructor()
  {
    e.jobConstructor()
  }

  /**
   * The entry for the following firing: same job constructor, same rule, and
   * this entry's occurrence (not the current time) as the base time.
   */
  function GetSubsequentEntry<J>(e: QueueEntry<J>): (r: QueueEntry<J>)
    ensures r.jobConstructor == e.jobConstructor && r.schedule == e.schedule
    ensures r.nextOccurrence == e.schedule(e.nextOccurrence)
  {
    Make(e.jobConstructor, e.schedule, e.nextOccurrence)
  }

  /**
   * What a priority queue needs of its key: `CompareTo` is reflexive,
   * antisymmetric in sign, total and transitive, both strictly and weakly.
   */
  lemma CompareToIsTotalPreorder<J>(a: QueueEntry<J>, b: QueueEntry<J>, c: QueueEntry<J>)
    ensures CompareTo(a, a) == 0
    ensures CompareTo(a, b) == -CompareTo(b, a)
    ensures CompareTo(a, b) <= 0 || CompareTo(b, a) <= 0
    ensures CompareTo(a, b) <= 0 && CompareTo(b, c) <= 0 ==> CompareTo(a, c) <= 0
    ensures CompareTo(a, b) < 0 && CompareTo(b, c) <= 0 ==> CompareTo(a, c) < 0
    ensures CompareTo(a, b) == 0 && CompareTo(b, c) == 0 ==> CompareTo(a, c) == 0
  {
  }

  /**
   * Replacing either entry by one with the same occurrence, whatever its job
   * constructor or rule, does not change the comparison.
   */
  lemma CompareToDependsOnlyOnOccurrence<J>(a: QueueEntry<J>, a': QueueEntry<J>, b: QueueEntry<J>, b': QueueEntry<J>)
    requires a.nextOccurrence == a'.nextOccurrence
    requires b.nextOccurrence == b'.nextOccurrence
    ensures CompareTo(a, b) == CompareTo(a', b')
  {
  }

  /**
   * The job an entry hands out comes from the constructor it was built with,
   * whatever the rule and base time.
   */
  lemma JobInstanceOfMake<J>(jobConstructor: () -> J, schedule: Schedule, baseTime: Ticks)
    ensures GetJobInstance(Make(jobConstructor, schedule, baseTime)) == jobConstructor()
  {
  }

  /**
   * The successor depends on the entry's occurrence and not on how the entry
   * was obtained: an entry built from any base time that yields the same
   * occurrence has the same successor.
   */
  lemma SubsequentIndependentOfBase<J>(jobConstructor: () -> J, schedule: Schedule, base1: Ticks, base2: Ticks)
    requires schedule(base1) == schedule(base2)
    ensures GetSubsequentEntry(Make(jobConstructor, schedule, base1))
         == GetSubsequentEntry(Make(jobConstructor, schedule, base2))
  {
  }
}
