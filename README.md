# NCron queue entry, modelled in Dafny

NCron runs recurring jobs. Its service keeps the jobs in a priority queue
of `QueueEntry` objects. An entry binds three things: a job constructor
(`Func<ICronJob>`), a recurrence rule (`ISchedule`), and the instant at
which the job fires next. That instant is computed once, in the
constructor, by asking the rule for the next occurrence for a base time.

The queue's driver needs two things from an entry. `CompareTo` orders
entries by next occurrence and by nothing else. `GetSubsequentEntry` gives
the entry for the following firing. It keeps the same constructor and rule
and passes this entry's occurrence as the new base time. The entry's fields
are read-only, so an entry never changes after it is built.

This project models the entry as an immutable value and proves what the
driver relies on:

- construction asks the rule about the given base time;
- comparison is a total preorder that depends only on the occurrences;
- `k` re-enqueuings give the rule applied `k + 1` times to the original
  base time, and the wall clock never enters;
- the recurrence keeps one job constructor and one rule throughout;
- conditional facts show which rules move the recurrence forward and which
  make it stall. The entry itself checks nothing about the rule.

Files:

- `time.dfy` (module `Time`): instants as tick counts and `DateTime.CompareTo`.
- `schedules.dfy` (module `Schedules`): a rule as a total function on ticks,
  its `k`-fold application `Power`, and properties a rule may have.
- `queue_entry.dfy` (module `Service`): the `QueueEntry` datatype and its operations.
- `recurrence.dfy` (module `Recurrence`): `Iterate`, the entry after `k`
  firings, and lemmas about the sequence of occurrences.
- `examples.dfy` (module `Examples`): a worked interval-rule scenario and
  a counterexample.

Modelling choices:

- `DateTime` is an `int` tick count, and `DateTime.CompareTo` answers -1, 0
  or 1 from the tick counts.
- `ISchedule.GetNextOccurrence` is a total function `Ticks -> Ticks`. Being
  a Dafny function, it is deterministic and stateless: the same base time
  always gets the same answer. Nothing else is assumed about it. Any further
  property a lemma needs (advancing, monotonic, stalling) appears in that
  lemma's `requires`.
- `Func<ICronJob>` is a total function `() -> J`, where the type parameter
  `J` stands for `ICronJob`.
- The `NextOccurence` property is the datatype field `nextOccurrence`.
- The C# constructor is the function `Make`. The datatype's own constructor
  stands for the private field layout.
- `GetJobInstance` is the function that invokes the held constructor. Its
  behaviour is stated by the lemmas `JobInstanceOfMake` and
  `JobInstanceAlongRecurrence`.
- `==` on entries means "same job constructor, same rule, same occurrence".
  The C# class does not override `Equals`, and `GetSubsequentEntry` allocates
  a new object (QueueEntry.cs:51), so object identity is not modelled.

The constructor stores whatever the rule returns and does not check it
against the base time (QueueEntry.cs:36). `GetJobInstance` forwards the
constructor's result (QueueEntry.cs:46). The model therefore puts no
precondition on the rule's answer and makes no claim that jobs are fresh. Instead, `StallingRecurrenceNeverAdvances`
states the hazard of a rule that never moves forward, and
`MonotonicRuleMayRegress` shows that a monotonic rule alone does not make
occurrences non-decreasing. The rule must also advance on its first step, as
`MonotonicRecurrenceNonDecreasing` requires.

## Model

| member | source | states |
|---|---|---|
| `Time.CompareTicks` | src/NCron/Service/QueueEntry.cs:41 | `DateTime.CompareTo` on ticks answers -1, 0 or 1, negative exactly when the first instant is earlier, zero exactly when they are equal, positive exactly when it is later |
| `Service.Make` | src/NCron/Service/QueueEntry.cs:32-37 | the new entry keeps exactly the given job constructor and rule, and its occurrence is the rule applied to the base time |
| `Service.CompareTo` | src/NCron/Service/QueueEntry.cs:39-42 | the result is -1, 0 or 1; negative iff this entry's occurrence is earlier, zero iff the occurrences are equal, positive iff later; job constructor and rule play no part |
| `Service.GetSubsequentEntry` | src/NCron/Service/QueueEntry.cs:49-52 | the successor has the same job constructor and rule, and its occurrence is the rule applied to this entry's occurrence (not to the current time) |
| `Service.GetJobInstance` | src/NCron/Service/QueueEntry.cs:44-47 | returns what the held constructor returns; see `JobInstanceOfMake` and `JobInstanceAlongRecurrence` |
| `Service.CompareToIsTotalPreorder` | src/NCron/Service/QueueEntry.cs:41 | `CompareTo` is usable as a heap key: `CompareTo(a, a) == 0`, `CompareTo(a, b) == -CompareTo(b, a)`, any two entries are comparable, and it is transitive for `<=`, for `<` and for `==` |
| `Service.CompareToDependsOnlyOnOccurrence` | src/NCron/Service/QueueEntry.cs:39-42 | replacing either entry by one with the same occurrence, whatever its constructor or rule, leaves the comparison unchanged |
| `Service.JobInstanceOfMake` | src/NCron/Service/QueueEntry.cs:32-47 | an entry's job is exactly what the constructor it was built with returns, whatever the rule and base time |
| `Service.SubsequentIndependentOfBase` | src/NCron/Service/QueueEntry.cs:49-52 | two entries built from different base times with the same occurrence have equal successors: the successor depends on the occurrence alone |
| `Schedules.PowerShift` | src/NCron/Service/QueueEntry.cs:36 | applying the rule `k + 1` times to `t` is applying it `k` times to the rule's answer for `t` |
| `Schedules.AdvancingPowerNonDecreasing` | src/NCron/Service/QueueEntry.cs:36 | if the rule never answers before its base time, later iterates are never earlier than earlier ones |
| `Schedules.StrictlyAdvancingPowerProgress` | src/NCron/Service/QueueEntry.cs:36 | if the rule always answers after its base time, `j - i` further applications move at least `j - i` ticks |
| `Schedules.StallingPowerBounded` | src/NCron/Service/QueueEntry.cs:36 | if the rule never answers after its base time, no iterate passes the starting time |
| `Schedules.MonotonicPowerStep` | src/NCron/Service/QueueEntry.cs:36 | for a monotonic rule whose first answer is not before the start, each iterate is at or after the one before |
| `Schedules.MonotonicPowerNonDecreasing` | src/NCron/Service/QueueEntry.cs:36 | for a monotonic rule whose first answer is not before the start, a later iterate is never earlier than an earlier one |
| `Recurrence.Iterate` | src/NCron/Service/QueueEntry.cs:49-52 | the entry after any number of firings still holds the original job constructor and rule |
| `Recurrence.IterateOccurrence` | src/NCron/Service/QueueEntry.cs:49-52 | after `k` firings the occurrence is the rule applied `k` times to the entry's occurrence |
| `Recurrence.MakeThenIterate` | src/NCron/Service/QueueEntry.cs:32-52 | an entry built from `baseTime` has, after `k` firings, the rule applied `k + 1` times to `baseTime` as its occurrence |
| `Recurrence.IterateAdd` | src/NCron/Service/QueueEntry.cs:49-52 | advancing `i + j` times equals advancing `j` times from the entry reached after `i`; the original entry still denotes the same recurrence |
| `Recurrence.JobInstanceAlongRecurrence` | src/NCron/Service/QueueEntry.cs:44-52 | every entry of the recurrence hands out jobs from the same constructor as the first |
| `Recurrence.AdvancingRecurrenceNonDecreasing` | src/NCron/Service/QueueEntry.cs:36-52 | with a rule that never answers before its base time, a later firing never sorts before an earlier one |
| `Recurrence.MonotonicRecurrenceNonDecreasing` | src/NCron/Service/QueueEntry.cs:36-52 | with a monotonic rule whose first step does not go back, a later firing never sorts before an earlier one |
| `Recurrence.StrictlyAdvancingRecurrenceProgress` | src/NCron/Service/QueueEntry.cs:36-52 | with a rule that always moves forward, later firings sort strictly after earlier ones and `k` firings move at least `k` ticks, so the recurrence passes any instant |
| `Recurrence.StallingRecurrenceNeverAdvances` | src/NCron/Service/QueueEntry.cs:36-52 | with a rule that never moves forward, no later entry sorts after the first: the recurrence never reaches a later time |
| `Examples.IntervalScenario` | src/NCron/Service/QueueEntry.cs:32-52 | a ten-minute entry built at 9:00 fires at 9:10 and its successor at 9:20; a five-minute entry built at 9:00 fires at 9:05 and sorts before both |
| `Examples.MonotonicRuleMayRegress` | src/NCron/Service/QueueEntry.cs:36 | a monotonic rule answering one tick before its base time is accepted at construction, and its successor sorts before the entry |

## Left out

- `GetJobInstance`: the job constructor is a pure function, so the model cannot express that each call yields a fresh `ICronJob` instance. The code only forwards the call, and what the constructor does is not part of this model.
- Running the jobs (`ICronJob.Execute`) is not part of this model. Neither are the concrete `ISchedule` implementations (interval rules, cron expressions), which are not in the modelled file.
- The driver loop and its priority queue are not part of this model. Their atomic pop and push are a concurrency matter.
- `DateTime` kinds, time zones and the representable tick range are not modelled. Ticks are unbounded integers.
- Null arguments and exceptions thrown by the rule or the job constructor are not modelled. The code has no local handling for them and passes them through.
- Immutability after construction is structural, because a datatype value cannot change. No lemma states it separately.
- The datatype constructor `QueueEntry` can build an entry whose occurrence did not come from its rule. The C# fields are private, so only the constructor can set them. Every lemma here holds for any entry, so none depends on how the entry was built.
- A rule whose answer depends on hidden state, on the current time or on how often it was called is not modelled: `GetNextOccurrence` is a pure function of its argument.
