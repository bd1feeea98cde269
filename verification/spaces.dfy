/** The bounds of the Gymnasium spaces the environments declare: a `Box` with
    per-dimension lower and upper bounds, and a `MultiDiscrete` whose dimension
    i takes the values 0 .. nvec[i]-1. */
module Spaces {

  datatype Box = Box(low: seq<int>, high: seq<int>)

  datatype MultiDiscrete = MultiDiscrete(nvec: seq<nat>)

  /** `Box(low=lo, high=hi, shape=(n,))`: scalar bounds broadcast to every dimension. */
  function UniformBox(lo: int, hi: int, n: nat): (b: Box)
    ensures |b.low| == n && |b.high| == n
    ensures forall i :: 0 <= i < n ==> b.low[i] == lo && b.high[i] == hi
  {
    Box(seq(n, _ => lo), seq(n, _ => hi))
  }

  function BoxShape(b: Box): nat
  {
    |b.low|
  }

  predicate InBox(b: Box, x: seq<int>)
  {
    |x| == |b.low| == |b.high| &&
    forall i :: 0 <= i < |x| ==> b.low[i] <= x[i] <= b.high[i]
  }

  predicate InMultiDiscrete(s: MultiDiscrete, x: seq<int>)
  {
    |x| == |s.nvec| &&
    forall i :: 0 <= i < |x| ==> 0 <= x[i] < s.nvec[i]
  }

  /** A vector of `n` zeros, as `[0]*n` builds it. */
  function Zeros(n: nat): (r: seq<int>)
    ensures |r| == n
    ensures forall i :: 0 <= i < n ==> r[i] == 0
  {
    seq(n, _ => 0)
  }

  function Min(a: nat, b: nat): nat
  {
    if a <= b then a else b
  }

  /** What `step` hands back, leaving out the reward and the empty `info`
      dict: the observation with the `terminated` and `truncated` flags; the
      `IndexError` raised when the action vector is shorter (or longer) than
      the loop over it expects; or the `ZeroDivisionError` raised when the
      average speed is taken over a tick that ended with no vehicle. */
  datatype StepOutcome =
    | Stepped(observation: seq<int>, terminated: bool, truncated: bool)
    | IndexError
    | ZeroDivisionError
}
