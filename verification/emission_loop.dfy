/**
 The publishing loop of micrometer's `StatsdFunctionTimer.poll()` as it is
 written there: a 32-bit `int`
 counter `i` compared against the 64-bit new-event count `k`, with `i++`
 wrapping from the largest `int` to the smallest. While `k` fits in an
 `int` the loop runs exactly `k` times; once `k` exceeds the largest `int`
 the counter can never reach it, and the loop publishes forever.
 */
module EmissionLoop {
  import FunctionTimer

  const IntMin: int := -0x8000_0000
  const IntMax: int := 0x7fff_ffff

  /** Java's `i++` on an `int`. */
  function IncrementInt(i: int): (j: int)
    requires IntMin <= i <= IntMax
    ensures IntMin <= j <= IntMax
    ensures i < IntMax ==> j == i + 1
    ensures i == IntMax ==> j == IntMin
    ensures j == (i + 1 - IntMin) % 0x1_0000_0000 + IntMin
  {
    if i == IntMax then IntMin else i + 1
  }

  /** How many lines the loop has published, and whether its condition has turned false. */
  datatype LoopProgress = LoopProgress(linesEmitted: nat, finished: bool)

  /**
   At most `fuel` iterations of `for (int i = ...; i < k; i++) publish(...)`,
   started with counter `i`. A loop that does not finish within `fuel`
   iterations reports `finished == false`, having published a line on
   every one of them. A loop that finishes after starting below `k` had a
   bound that fits in an `int`, and published one line per step from `i`
   up to `k`.
   */
  function IntCounterLoop(k: int, i: int, fuel: nat): (p: LoopProgress)
    requires IntMin <= i <= IntMax
    ensures p.linesEmitted <= fuel
    ensures !p.finished ==> p.linesEmitted == fuel
    ensures p.finished && i < k ==> k <= IntMax && p.linesEmitted == k - i
    ensures p.finished && k <= i ==> p.linesEmitted == 0
    decreases fuel
  {
    if !(i < k) then LoopProgress(0, true)
    else if fuel == 0 then LoopProgress(0, false)
    else
      var rest := IntCounterLoop(k, IncrementInt(i), fuel - 1);
      LoopProgress(rest.linesEmitted + 1, rest.finished)
  }

  /** With a bound that fits in an `int`, the loop finishes having published one line per step from `i` to `k`. */
  lemma {:induction false} IntCounterLoopExactBelowIntMax(k: int, i: int, fuel: nat)
    requires IntMin <= i <= IntMax
    requires k <= IntMax
    requires i <= k ==> k - i <= fuel
    ensures IntCounterLoop(k, i, fuel) == LoopProgress(if i < k then k - i else 0, true)
    decreases fuel
  {
    if i < k {
      IntCounterLoopExactBelowIntMax(k, IncrementInt(i), fuel - 1);
    }
  }

  /** With a bound above the largest `int`, every iteration publishes and the loop never finishes. */
  lemma IntCounterLoopNeverFinishesAboveIntMax(k: int, i: int, fuel: nat)
    requires IntMin <= i <= IntMax
    requires k > IntMax
    ensures IntCounterLoop(k, i, fuel) == LoopProgress(fuel, false)
  {
  }

  /**
   The input that shows it: 2^31 new events since the last poll. After
   2^31 + 1 iterations the loop has published more lines than there were
   new events and is still running.
   */
  lemma IntCounterLoopOverPublishes()
    ensures var k := IntMax + 1;
      IntCounterLoop(k, 0, k + 1) == LoopProgress(k + 1, false)
  {
  }

  /**
   Up to the largest `int`, the loop as written publishes exactly as many
   lines as the modelled poll: given one iteration per new event, it
   finishes with `|Poll(...).emitted|` lines.
   */
  lemma IntCounterLoopMatchesPoll(s: FunctionTimer.PollerState, count: int, totalTime: real)
    requires 0 < count - s.lastCount <= IntMax
    ensures var k := count - s.lastCount;
      IntCounterLoop(k, 0, k) == LoopProgress(|FunctionTimer.Poll(s, count, totalTime).emitted|, true)
  {
    var k := count - s.lastCount;
    IntCounterLoopExactBelowIntMax(k, 0, k);
  }
}
