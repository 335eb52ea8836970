/**
 What a sequence of polls conserves: every new event becomes exactly one
 line, and the durations published add up to exactly the time recorded.
 */
module Conservation {
  import opened Timings
  import opened FunctionTimer

  /** The lines of one poll add up to the growth of the time register: the mean times the count is the time delta. */
  lemma PollPublishesTimeDelta(s: PollerState, count: int, totalTime: real)
    ensures Sum(Poll(s, count, totalTime).emitted) == Poll(s, count, totalTime).next.lastTime - s.lastTime
  {
    var k := count - s.lastCount;
    if k > 0 {
      var m := Mean(totalTime - s.lastTime, k);
      SumRepeat(m, k);
    }
  }

  /** A poll that sees no new events neither reads nor depends on the instrument's total time. */
  lemma PollIgnoresTimeWithoutNewEvents(s: PollerState, count: int, t1: real, t2: real)
    requires count <= s.lastCount
    ensures Poll(s, count, t1) == Poll(s, count, t2)
    ensures Poll(s, count, t1) == PollResult(PollerState(count, s.lastTime), [])
  {
  }

  /** Polling again an instrument that has not moved publishes nothing and keeps both registers. */
  lemma PollAgainIsQuiet(s: PollerState, count: int, totalTime: real, laterTime: real)
    ensures var first := Poll(s, count, totalTime).next;
      Poll(first, count, laterTime) == PollResult(first, [])
  {
  }

  /** The recursive form of `CountsNonDecreasing`, for induction over the readings. */
  lemma NonDecreasingUnfold(from: int, samples: seq<Sample>)
    requires |samples| > 0
    ensures CountsNonDecreasing(from, samples) <==>
      from <= samples[0].count && CountsNonDecreasing(samples[0].count, samples[1..])
  {
  }

  /**
   Lines published over any run: one per unit the count rose by overall,
   plus one extra per unit it fell by (a fall resets the register, so the
   climb back is published again).
   */
  lemma {:induction false} LinesAreGrowthPlusDrops(s: PollerState, samples: seq<Sample>)
    ensures |Run(s, samples).emitted| == Run(s, samples).next.lastCount - s.lastCount + Drops(s.lastCount, samples)
    decreases |samples|
  {
    if |samples| > 0 {
      var first := Poll(s, samples[0].count, samples[0].totalTime);
      LinesAreGrowthPlusDrops(first.next, samples[1..]);
    }
  }

  /** The count fell somewhere exactly when the added falls are positive. */
  lemma {:induction false} NoDropsIffNonDecreasing(from: int, samples: seq<Sample>)
    ensures Drops(from, samples) == 0 <==> CountsNonDecreasing(from, samples)
    decreases |samples|
  {
    if |samples| > 0 {
      NonDecreasingUnfold(from, samples);
      NoDropsIffNonDecreasing(samples[0].count, samples[1..]);
    }
  }

  /**
   Count conservation: over a run, the lines published equal the growth of
   the count register exactly when the counts never fell. With a monotone
   instrument no event is lost or published twice, whatever number of polls
   saw no new events.
   */
  lemma LinesMatchGrowthIffNonDecreasing(s: PollerState, samples: seq<Sample>)
    ensures |Run(s, samples).emitted| == Run(s, samples).next.lastCount - s.lastCount
      <==> CountsNonDecreasing(s.lastCount, samples)
  {
    LinesAreGrowthPlusDrops(s, samples);
    NoDropsIffNonDecreasing(s.lastCount, samples);
  }

  /**
   Time conservation: over any run, the published durations add up to the
   growth of the time register. Each poll with new events publishes its
   time delta and moves the register by it; the others do neither.
   */
  lemma {:induction false} PublishedTimeMatchesGrowth(s: PollerState, samples: seq<Sample>)
    ensures Sum(Run(s, samples).emitted) == Run(s, samples).next.lastTime - s.lastTime
    decreases |samples|
  {
    if |samples| > 0 {
      var first := Poll(s, samples[0].count, samples[0].totalTime);
      var rest := Run(first.next, samples[1..]);
      PollPublishesTimeDelta(s, samples[0].count, samples[0].totalTime);
      PublishedTimeMatchesGrowth(first.next, samples[1..]);
      SumConcat(first.emitted, rest.emitted);
    }
  }

  /**
   From a freshly built timer, polling an instrument whose count never falls
   below zero or below an earlier reading: the lines published so far number
   exactly the count register, and their durations add up to exactly the
   time register.
   */
  lemma FreshTimerConserves(samples: seq<Sample>)
    requires CountsNonDecreasing(0, samples)
    ensures |Run(Initial(), samples).emitted| == Run(Initial(), samples).next.lastCount
    ensures Sum(Run(Initial(), samples).emitted) == Run(Initial(), samples).next.lastTime
  {
    LinesMatchGrowthIffNonDecreasing(Initial(), samples);
    PublishedTimeMatchesGrowth(Initial(), samples);
  }

  /**
   A fresh timer polled at (0, 0.0), (3, 30.0), (3, 30.0) and (5, 45.0):
   nothing, then three lines of 10.0, then nothing, then two lines of 7.5.
   */
  lemma ThreePollScenario()
    ensures var r := Run(Initial(), [Sample(0, 0.0), Sample(3, 30.0), Sample(3, 30.0), Sample(5, 45.0)]);
      r.emitted == [10.0, 10.0, 10.0, 7.5, 7.5] && r.next == PollerState(5, 45.0)
  {
  }

  /**
   A reset instrument: readings (10, 100.0), (0, 0.0), (2, 10.0). The fall
   stores the lower count but keeps the time register at 100.0, so the two
   climb-back lines carry a negative duration.
   */
  lemma ResetScenario()
    ensures var r := Run(Initial(), [Sample(10, 100.0), Sample(0, 0.0), Sample(2, 10.0)]);
      r.emitted == Repeat(10.0, 10) + [-45.0, -45.0] && r.next == PollerState(2, 10.0)
  {
  }
}
