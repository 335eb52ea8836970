/**
 The poll step of a statsd function timer.

 A function timer wraps an instrument that only exposes cumulative totals:
 how many timed events have happened so far, and how much time they took in
 all. Statsd has no notion of a pre-aggregated timer, so on every poll the
 timer turns the growth since the previous poll into individual timing
 lines: one line per new event, each carrying the mean duration of the new
 events. Two registers carry the previous reading from one poll to the next.
 */
module FunctionTimer {
  import opened Timings

  /** The registers kept between polls: the last count read, and the last total time read. */
  datatype PollerState = PollerState(lastCount: int, lastTime: real)

  /** One reading of the instrument: events so far, and their total time in milliseconds. */
  datatype Sample = Sample(count: int, totalTime: real)

  /** The registers after a poll, and the timing values it published, in order. */
  datatype PollResult = PollResult(next: PollerState, emitted: seq<real>)

  /**
   A freshly built timer has seen no events and no time, so its first poll
   publishes one line for every event the instrument has already counted.
   */
  function Initial(): (s: PollerState)
    ensures s.lastCount == 0 && s.lastTime == 0.0
    ensures forall count, totalTime :: count > 0 ==> |Poll(s, count, totalTime).emitted| == count
  {
    PollerState(0, 0.0)
  }

  /**
   The mean duration of `k` new events whose durations add up to `sum`.
   Its precondition is the guard that keeps the division away from a zero
   (or negative) event count: every call site has to establish `k > 0`.
   */
  function Mean(sum: real, k: int): (m: real)
    requires k > 0
    ensures k as real * m == sum
  {
    sum / k as real
  }

  /**
   One poll. The count register always takes the count just read. Only when
   that count has grown is the total time consulted: the growth of the total
   time is spread evenly over the new events, one line each, and the time
   register takes the total just read. Otherwise nothing is published and
   the time register keeps its value.
   */
  function Poll(s: PollerState, count: int, totalTime: real): (r: PollResult)
    ensures r.next.lastCount == count
    ensures count <= s.lastCount ==> r.emitted == [] && r.next.lastTime == s.lastTime
    ensures count > s.lastCount ==> |r.emitted| == count - s.lastCount
    ensures count > s.lastCount ==> r.next.lastTime == totalTime
    ensures count > s.lastCount ==>
      forall i :: 0 <= i < |r.emitted| ==>
        r.emitted[i] == (totalTime - s.lastTime) / (count - s.lastCount) as real
  {
    var newTimingsCount := count - s.lastCount;
    if newTimingsCount > 0 then
      var timingAverage := Mean(totalTime - s.lastTime, newTimingsCount);
      PollResult(PollerState(count, totalTime), Repeat(timingAverage, newTimingsCount))
    else
      PollResult(PollerState(count, s.lastTime), [])
  }

  /**
   The publishing loop of a poll with a counter as wide as the bound: one
   line of `timingAverage` for each of the `newTimingsCount` new events, and
   none when the count did not grow.
   */
  method EmitTimings(timingAverage: real, newTimingsCount: int) returns (lines: seq<real>)
    ensures |lines| == if newTimingsCount > 0 then newTimingsCount else 0
    ensures forall j :: 0 <= j < |lines| ==> lines[j] == timingAverage
  {
    lines := [];
    var i := 0;
    while i < newTimingsCount
      invariant i <= if newTimingsCount > 0 then newTimingsCount else 0
      invariant |lines| == i
      invariant forall j :: 0 <= j < |lines| ==> lines[j] == timingAverage
    {
      lines := lines + [timingAverage];
      i := i + 1;
    }
  }

  /**
   The poll step as a sequence of register updates: store the count read,
   and only on growth store the time read and run the publishing loop. The
   loop is `EmitTimings`, whose counter is as wide as its bound: the
   corrected form of the `int` counter in micrometer's
   `StatsdFunctionTimer.poll()` (see `EmissionLoop`). It
   computes exactly what `Poll` describes.
   */
  method PollStep(s: PollerState, count: int, totalTime: real) returns (next: PollerState, lines: seq<real>)
    ensures PollResult(next, lines) == Poll(s, count, totalTime)
  {
    var prevCount := s.lastCount;
    var lastTime := s.lastTime;
    var newTimingsCount := count - prevCount;
    lines := [];
    if newTimingsCount > 0 {
      var prevTime := lastTime;
      var timingAverage := Mean(totalTime - prevTime, newTimingsCount);
      lines := EmitTimings(timingAverage, newTimingsCount);
      assert lines == Repeat(timingAverage, newTimingsCount);
      lastTime := totalTime;
    }
    next := PollerState(count, lastTime);
  }

  /**
   A sequence of polls, one per reading, from state `s`: the registers after
   the last poll and every line published along the way, in order.
   */
  function Run(s: PollerState, samples: seq<Sample>): (r: PollResult)
    ensures |samples| == 0 ==> r == PollResult(s, [])
    ensures |samples| > 0 ==> r.next.lastCount == samples[|samples| - 1].count
    decreases |samples|
  {
    if |samples| == 0 then
      PollResult(s, [])
    else
      var first := Poll(s, samples[0].count, samples[0].totalTime);
      var rest := Run(first.next, samples[1..]);
      PollResult(rest.next, first.emitted + rest.emitted)
  }

  /** The count the poll of reading `i` compares against: the starting register for the first. */
  function PreviousCount(from: int, samples: seq<Sample>, i: int): (c: int)
    requires 0 <= i < |samples|
  {
    if i == 0 then from else samples[i - 1].count
  }

  /** No reading's count is below the one polled before it (the instrument is never reset). */
  predicate CountsNonDecreasing(from: int, samples: seq<Sample>)
  {
    forall i :: 0 <= i < |samples| ==> PreviousCount(from, samples, i) <= samples[i].count
  }

  /** How far the count fell, added up over every poll at which it fell. */
  function Drops(from: int, samples: seq<Sample>): (d: nat)
    decreases |samples|
  {
    if |samples| == 0 then 0
    else
      (if samples[0].count < from then from - samples[0].count else 0)
      + Drops(samples[0].count, samples[1..])
  }
}
