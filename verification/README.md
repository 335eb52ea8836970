# Statsd function timer: the poll step

A model, in Dafny, of the poll step of micrometer's statsd `StatsdFunctionTimer`.
The timer wraps an instrument that exposes only cumulative totals: the number of
timed events so far and their total time in milliseconds. Statsd expects one
line per timing sample, so every poll turns the growth since the previous poll
into lines. It publishes one line per new event, each carrying the mean duration
of the new events. Two registers carry the previous reading between polls:
`lastCount`, starting at 0, and `lastTime`, starting at 0.0.

- `timings.dfy` (module `Timings`): the repeated timing values one poll emits,
  and their sum.
- `function_timer.dfy` (module `FunctionTimer`): the registers, the pure poll
  step `Poll`, the mean with its non-zero-divisor guard, the poll and its
  publishing loop written imperatively, and `Run`, which folds `Poll` over a
  sequence of instrument readings.
- `conservation.dfy` (module `Conservation`): properties of one poll and of
  runs of polls. Every new event becomes exactly one line when the count never
  falls, and the published durations always add up to the growth of the time
  register.
- `emission_loop.dfy` (module `EmissionLoop`): the publishing loop with the
  source's 32-bit `int` counter (see Findings).

The instrument's count and total time are parameters of each poll. A published
line is modelled by the timing value it carries.

## Model

| member | source | states |
|---|---|---|
| FunctionTimer.Initial | implementations/micrometer-registry-statsd/src/main/java/io/micrometer/statsd/StatsdFunctionTimer.java:29-30 | a new timer's registers are (0, 0.0), so its first poll publishes one line for every event the instrument has already counted |
| FunctionTimer.Mean | implementations/micrometer-registry-statsd/src/main/java/io/micrometer/statsd/StatsdFunctionTimer.java:46-54 | the average is only computed for a positive new-event count, and that count times the average gives back the time delta |
| FunctionTimer.Poll | implementations/micrometer-registry-statsd/src/main/java/io/micrometer/statsd/StatsdFunctionTimer.java:41-64 | the count register always takes the count read, even when it did not grow; with no growth nothing is published and the time register is unchanged; with growth k > 0 exactly k lines are published, each the time delta divided by k, and the time register takes the total time read |
| FunctionTimer.EmitTimings | implementations/micrometer-registry-statsd/src/main/java/io/micrometer/statsd/StatsdFunctionTimer.java:55-57 | the publishing loop emits exactly k lines of the average for k > 0 and none otherwise |
| FunctionTimer.PollStep | implementations/micrometer-registry-statsd/src/main/java/io/micrometer/statsd/StatsdFunctionTimer.java:41-64 | the imperative poll, with its register updates and its publishing loop, yields the same registers and lines as `Poll` |
| FunctionTimer.Run | implementations/micrometer-registry-statsd/src/main/java/io/micrometer/statsd/StatsdFunctionTimer.java:42-62 | after a run of polls the count register holds the last count read; an empty run publishes nothing and changes nothing |
| Conservation.PollPublishesTimeDelta | implementations/micrometer-registry-statsd/src/main/java/io/micrometer/statsd/StatsdFunctionTimer.java:47-59 | the lines of one poll add up exactly to how far that poll moved the time register |
| Conservation.PollIgnoresTimeWithoutNewEvents | implementations/micrometer-registry-statsd/src/main/java/io/micrometer/statsd/StatsdFunctionTimer.java:43-62 | a poll whose count did not grow does not depend on the total time; it only stores the count |
| Conservation.PollAgainIsQuiet | implementations/micrometer-registry-statsd/src/main/java/io/micrometer/statsd/StatsdFunctionTimer.java:42-62 | polling again with an unchanged count publishes nothing and leaves both registers as they were |
| Conservation.LinesAreGrowthPlusDrops | implementations/micrometer-registry-statsd/src/main/java/io/micrometer/statsd/StatsdFunctionTimer.java:42-62 | over any run, lines published = growth of the count register + the total amount by which counts fell between polls |
| Conservation.LinesMatchGrowthIffNonDecreasing | implementations/micrometer-registry-statsd/src/main/java/io/micrometer/statsd/StatsdFunctionTimer.java:42-62 | over a run, the lines published equal the growth of the count register if and only if the counts read never fell |
| Conservation.PublishedTimeMatchesGrowth | implementations/micrometer-registry-statsd/src/main/java/io/micrometer/statsd/StatsdFunctionTimer.java:47-59 | over any run, the published durations add up exactly to the growth of the time register |
| Conservation.FreshTimerConserves | implementations/micrometer-registry-statsd/src/main/java/io/micrometer/statsd/StatsdFunctionTimer.java:29-62 | from the initial registers (0, 0.0) and non-decreasing counts, the lines published equal the count register and their sum equals the time register |
| Conservation.ThreePollScenario | implementations/micrometer-registry-statsd/src/main/java/io/micrometer/statsd/StatsdFunctionTimer.java:41-64 | readings (0, 0.0), (3, 30.0), (3, 30.0), (5, 45.0) publish three lines of 10.0 then two of 7.5, ending at (5, 45.0) |
| Conservation.ResetScenario | implementations/micrometer-registry-statsd/src/main/java/io/micrometer/statsd/StatsdFunctionTimer.java:42-62 | readings (10, 100.0), (0, 0.0), (2, 10.0) publish ten lines of 10.0 and then two lines of -45.0, because the fall resets the count register but not the time register |
| EmissionLoop.IncrementInt | implementations/micrometer-registry-statsd/src/main/java/io/micrometer/statsd/StatsdFunctionTimer.java:55 | `i++` on a Java `int` keeps the low 32 bits of i + 1: it adds one below the maximum and wraps to the minimum at it |
| EmissionLoop.IntCounterLoop | implementations/micrometer-registry-statsd/src/main/java/io/micrometer/statsd/StatsdFunctionTimer.java:55-57 | up to `fuel` iterations of the `int`-counter loop: a loop still running has published one line per iteration; a loop that finished from below its bound had a bound within the `int` range and published exactly one line per step up to it |
| EmissionLoop.IntCounterLoopExactBelowIntMax | implementations/micrometer-registry-statsd/src/main/java/io/micrometer/statsd/StatsdFunctionTimer.java:55-57 | with a new-event count that fits in an `int`, the loop as written finishes after publishing exactly that many lines |
| EmissionLoop.IntCounterLoopNeverFinishesAboveIntMax | implementations/micrometer-registry-statsd/src/main/java/io/micrometer/statsd/StatsdFunctionTimer.java:55-57 | with a new-event count above the largest `int`, every iteration publishes a line and the loop never finishes |
| EmissionLoop.IntCounterLoopOverPublishes | implementations/micrometer-registry-statsd/src/main/java/io/micrometer/statsd/StatsdFunctionTimer.java:55-57 | for 2^31 new events, the loop as written has published 2^31 + 1 lines and is still running |
| EmissionLoop.IntCounterLoopMatchesPoll | implementations/micrometer-registry-statsd/src/main/java/io/micrometer/statsd/StatsdFunctionTimer.java:46-57 | for a new-event count from 1 to 2^31 - 1, the loop as written finishes with exactly as many lines as `FunctionTimer.Poll` publishes |

## Left out

- Concurrency: the two registers are `AtomicReference` cells updated with `updateAndGet`, one nested inside the other. The model updates them as plain sequential registers. `updateAndGet` may re-run its update function under contention, which would publish lines again; a sequential model cannot express that.
- Floating point: total time and the average are Java `double`s; the model uses exact reals. With doubles, k times the average need not equal the time delta, so the time conservation lemmas hold only for exact arithmetic.
- The line builder and the publisher: formatting a timing into a statsd line and handing it to the subscriber are external. A published line is modelled as the timing value it carries.
- A line builder or publisher that throws is not modelled. In the source such an exception leaves both update functions before either register is stored, so neither `lastCount` nor `lastTime` moves and the next poll publishes the whole delta again, including lines already sent. `Conservation.FreshTimerConserves`, `Conservation.LinesMatchGrowthIffNonDecreasing` and the other run lemmas assume both collaborators return normally.
- FunctionTimer.Poll: publishes exactly k lines for every k > 0; the source does so only for k up to 2^31 - 1 and otherwise never returns (see Findings).
- FunctionTimer.PollStep: publishes exactly k lines for every k > 0; the source does so only for k up to 2^31 - 1 and otherwise never returns (see Findings).
- FunctionTimer.EmitTimings: publishes exactly k lines for every k > 0; the source's loop does so only for k up to 2^31 - 1 and otherwise never returns (see Findings).
- The base class `CumulativeFunctionTimer` is not part of this model: its `count()` and `totalTime(MILLISECONDS)`, including the unit conversion, become the `count` and `totalTime` parameters of a poll.
- The `(long)` truncation of the instrument's `double` count is not modelled; the count arrives as an integer. Counts are unbounded integers, so 64-bit overflow of `count - prevCount` is not modelled; it cannot occur for counts in the non-negative `long` range.
- The constructor, which only stores its collaborators.
- Falling counts: the source does not guard against a count that goes down (a reset instrument). It publishes nothing and stores the lower count, so the climb back is published again. The model follows the code, and `Conservation.LinesAreGrowthPlusDrops` states the extra lines this produces. The time register is not reset with the count: it keeps the total read before the fall, so the climb-back lines carry (new total - old total) / k, which can be negative. For example, readings (10, 100.0), (0, 0.0), (2, 10.0) publish ten lines of 10.0 and then two lines of -45.0 (`Conservation.ResetScenario`).

## Findings

| source | as written | input that shows it | evidently intended | confidence | as-written member | corrected member |
|---|---|---|---|---|---|---|
| implementations/micrometer-registry-statsd/src/main/java/io/micrometer/statsd/StatsdFunctionTimer.java:55 | the publishing loop counts with a 32-bit `int` against the 64-bit new-event count; `i++` wraps at the largest `int`, so `i < newTimingsCount` stays true forever once the count exceeds 2^31 - 1 | 2^31 new events between two polls | exactly one line per new event, then the poll returns | not executed; high | EmissionLoop.IntCounterLoop, shown by EmissionLoop.IntCounterLoopOverPublishes | FunctionTimer.EmitTimings |

`FunctionTimer.EmitTimings` counts with an integer as wide as the bound and is proved to publish exactly k lines for every k > 0. `FunctionTimer.Poll` and `FunctionTimer.PollStep` use it. `EmissionLoop.IntCounterLoopMatchesPoll` proves that the loop as written publishes as many lines as `FunctionTimer.Poll` for every new-event count up to 2^31 - 1.
