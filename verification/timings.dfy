/**
 Sequences of published timing values: the lines one poll emits, and the sum
 of a run of them, which a statsd server adds into its timer aggregate.
 */
module Timings {

  /** `n` copies of the timing value `v`, in publication order. */
  function Repeat(v: real, n: nat): (r: seq<real>)
    ensures |r| == n
    ensures forall i :: 0 <= i < |r| ==> r[i] == v
  {
    if n == 0 then [] else [v] + Repeat(v, n - 1)
  }

  /** The total of a sequence of timing values. */
  function Sum(xs: seq<real>): (r: real)
  {
    if |xs| == 0 then 0.0 else xs[0] + Sum(xs[1..])
  }

  /** Summing distributes over concatenation of emitted lines. */
  lemma {:induction false} SumConcat(xs: seq<real>, ys: seq<real>)
    ensures Sum(xs + ys) == Sum(xs) + Sum(ys)
  {
    if |xs| == 0 {
      assert xs + ys == ys;
    } else {
      assert (xs + ys)[1..] == xs[1..] + ys;
      SumConcat(xs[1..], ys);
    }
  }

  /** `n` lines of the same value `v` add up to `n * v`. */
  lemma {:induction false} SumRepeat(v: real, n: nat)
    ensures Sum(Repeat(v, n)) == n as real * v
  {
    if n > 0 {
      assert Repeat(v, n)[1..] == Repeat(v, n - 1);
      SumRepeat(v, n - 1);
    }
  }
}
