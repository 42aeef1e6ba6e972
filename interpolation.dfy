/** Linear interpolation between two latent states (`lerp` in
    neural_canvas/utils/utils.py). Tensors are flat vectors of reals, so
    the arithmetic the source does in floating point is exact here. */
module Interpolation {

  /** A latent state: the sample vector and the shape it is reshaped to. */
  datatype LatentState = LatentState(sample: seq<real>, sampleShape: seq<nat>)

  type Vector = seq<real>

  function Add(u: Vector, v: Vector): (w: Vector)
    requires |u| == |v|
    ensures |w| == |u|
    ensures forall k :: 0 <= k < |w| ==> w[k] == u[k] + v[k]
  {
    seq(|u|, k requires 0 <= k < |u| => u[k] + v[k])
  }

  function Sub(u: Vector, v: Vector): (w: Vector)
    requires |u| == |v|
    ensures |w| == |u|
    ensures forall k :: 0 <= k < |w| ==> w[k] == u[k] - v[k]
  {
    seq(|u|, k requires 0 <= k < |u| => u[k] - v[k])
  }

  function Scale(u: Vector, c: real): (w: Vector)
    ensures |w| == |u|
    ensures forall k :: 0 <= k < |w| ==> w[k] == u[k] * c
  {
    seq(|u|, k requires 0 <= k < |u| => u[k] * c)
  }

  /** The step between consecutive states: `(z2 - z1) / (n + 1)`. */
  function Step(z1: LatentState, z2: LatentState, n: int): (d: Vector)
    requires |z1.sample| == |z2.sample|
    requires n != -1
    ensures |d| == |z1.sample|
  {
    Scale(Sub(z2.sample, z1.sample), 1.0 / (n + 1) as real)
  }

  /** The i-th state `lerp` produces: `z1 + delta * i`, with z1's shape. */
  function LerpState(z1: LatentState, z2: LatentState, n: nat, i: nat): (z: LatentState)
    requires |z1.sample| == |z2.sample|
    ensures |z.sample| == |z1.sample| && z.sampleShape == z1.sampleShape
  {
    LatentState(Add(z1.sample, Scale(Step(z1, z2, n), i as real)), z1.sampleShape)
  }

  /** The first state is z1 itself. */
  lemma LerpStartsAtZ1(z1: LatentState, z2: LatentState, n: nat)
    requires |z1.sample| == |z2.sample|
    ensures LerpState(z1, z2, n, 0).sample == z1.sample
  {
    var z := LerpState(z1, z2, n, 0);
    assert forall k :: 0 <= k < |z.sample| ==> z.sample[k] == z1.sample[k];
  }

  /** State n + 1 is exactly z2: the steps add up to z2 - z1. */
  lemma LerpEndsAtZ2(z1: LatentState, z2: LatentState, n: nat)
    requires |z1.sample| == |z2.sample|
    ensures LerpState(z1, z2, n, n + 1).sample == z2.sample
  {
    var z := LerpState(z1, z2, n, n + 1);
    var d := Step(z1, z2, n);
    forall k | 0 <= k < |z.sample| ensures z.sample[k] == z2.sample[k] {
      assert d[k] == (z2.sample[k] - z1.sample[k]) * (1.0 / (n + 1) as real);
      StepsAddUp(z1.sample[k], z2.sample[k], n);
    }
  }

  /** Neighbouring states differ by the same step, (z2 - z1) / (n + 1). */
  lemma LerpEvenlySpaced(z1: LatentState, z2: LatentState, n: nat, i: nat)
    requires |z1.sample| == |z2.sample|
    ensures Sub(LerpState(z1, z2, n, i + 1).sample, LerpState(z1, z2, n, i).sample) == Step(z1, z2, n)
  {
    var a, b := LerpState(z1, z2, n, i + 1).sample, LerpState(z1, z2, n, i).sample;
    var d := Step(z1, z2, n);
    forall k | 0 <= k < |d| ensures a[k] - b[k] == d[k] {
      OneMoreStep(z1.sample[k], d[k], i);
    }
  }

  /** Coordinate-wise, state i is the affine combination z1 + (z2 - z1) * i / (n + 1). */
  lemma LerpStateCoordinate(z1: LatentState, z2: LatentState, n: nat, i: nat, k: nat)
    requires |z1.sample| == |z2.sample| && k < |z1.sample|
    ensures LerpState(z1, z2, n, i).sample[k]
            == z1.sample[k] + (z2.sample[k] - z1.sample[k]) * (i as real) / ((n + 1) as real)
  {
    var d := Step(z1, z2, n);
    assert d[k] == (z2.sample[k] - z1.sample[k]) * (1.0 / (n + 1) as real);
    StepTimes(z1.sample[k], z2.sample[k], n, i);
  }

  lemma StepTimes(a: real, b: real, n: nat, i: nat)
    ensures a + ((b - a) * (1.0 / (n + 1) as real)) * (i as real) == a + (b - a) * (i as real) / ((n + 1) as real)
  {
  }

  lemma OneMoreStep(a: real, d: real, i: nat)
    ensures (a + d * ((i + 1) as real)) - (a + d * (i as real)) == d
  {
  }

  lemma StepsAddUp(a: real, b: real, n: nat)
    ensures a + ((b - a) * (1.0 / (n + 1) as real)) * ((n + 1) as real) == b
  {
    var m := (n + 1) as real;
    assert (1.0 / m) * m == 1.0;
    assert ((b - a) * (1.0 / m)) * m == (b - a) * ((1.0 / m) * m);
  }

  /** `lerp(z1, z2, n)`: builds the n + 2 states in an append loop (none
      at all when n + 2 is negative, as `range` of a negative count is
      empty). The result starts at z1, ends at z2, advances by the same
      step between any two neighbours, and every state keeps z1's sample
      shape. */
  method Lerp(z1: LatentState, z2: LatentState, n: int) returns (states: seq<LatentState>)
    requires |z1.sample| == |z2.sample|
    requires n != -1
    ensures n < 0 ==> states == []
    ensures n >= 0 ==> |states| == n + 2
    ensures forall i :: 0 <= i < |states| ==> states[i] == LerpState(z1, z2, n as nat, i)
    ensures forall i :: 0 <= i < |states| ==> states[i].sampleShape == z1.sampleShape
    ensures forall i :: 0 <= i < |states| ==> |states[i].sample| == |z1.sample|
    ensures n >= 0 ==> states[0].sample == z1.sample
    ensures n >= 0 ==> states[n + 1].sample == z2.sample
    ensures n >= 0 ==> forall i :: 0 <= i < n + 1 ==>
              Sub(states[i + 1].sample, states[i].sample) == Step(z1, z2, n)
  {
    var delta := Step(z1, z2, n);
    var totalFrames := n + 2;
    states := [];
    var i := 0;
    while i < totalFrames
      invariant 0 <= i && (0 <= totalFrames ==> i <= totalFrames)
      invariant totalFrames < 0 ==> i == 0
      invariant |states| == i
      invariant forall j :: 0 <= j < i ==> states[j] == LerpState(z1, z2, n as nat, j)
    {
      var z := Add(z1.sample, Scale(delta, i as real));
      states := states + [LatentState(z, z1.sampleShape)];
      i := i + 1;
    }
    if n >= 0 {
      LerpStartsAtZ1(z1, z2, n);
      LerpEndsAtZ2(z1, z2, n);
      forall i | 0 <= i < n + 1
        ensures Sub(states[i + 1].sample, states[i].sample) == Step(z1, z2, n)
      {
        LerpEvenlySpaced(z1, z2, n, i);
      }
    }
  }
}
