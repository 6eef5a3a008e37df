/** The random decisions of the transforms, with the random source made an
    explicit argument: the application gate (`torch.randn(1) < self.rate`) and the
    integer draws `torch.randint(low, high)` that pick a blur kernel and a resize
    target. */
module Draws {

  /** Default application rate of every probabilistic transform. */
  const DefaultRate: real := 0.5

  /** Default blur kernel sizes of `gaussian_blur`. */
  const DefaultKernelTargets: seq<int> := [3, 5, 7]

  /** Default size range [300, 1440) of `random_resize`. */
  const DefaultScaleLow: int := 300
  const DefaultScaleHigh: int := 1440

  /** Default factor range (0.3, 1.7) of `adjust_brightness` and `adjust_contrast`. */
  const DefaultFactorLow: real := 0.3
  const DefaultFactorHigh: real := 1.7

  /** The gate in front of every probabilistic transform: the effect is applied
      when the draw is below `rate`. The draw is a standard-normal sample, so
      `rate` acts as a z-score threshold rather than a probability. */
  predicate Applies(draw: real, rate: real) {
    draw < rate
  }

  /** No rate switches a transform off or forces it on: whatever the rate,
      some draws apply the effect and others skip it. In particular rate 0 still
      applies it on every negative draw, and rate 1 skips it on draws of 1 or more. */
  lemma NoRateFixesGate(rate: real)
    ensures Applies(rate - 1.0, rate) && !Applies(rate, rate)
    ensures rate == 0.0 ==> forall draw :: draw < 0.0 ==> Applies(draw, rate)
    ensures rate == 1.0 ==> forall draw :: draw >= 1.0 ==> !Applies(draw, rate)
  {
  }

  /** Raising the rate never turns an applied transform off. */
  lemma GateMonotone(draw: real, rate: real, rate': real)
    requires rate <= rate'
    ensures Applies(draw, rate) ==> Applies(draw, rate')
  {
  }

  /** `torch.randint(low, high)`: one integer of [low, high), chosen by the
      non-negative random source `entropy`. The call raises unless low < high. */
  function RandInt(low: int, high: int, entropy: nat): (v: int)
    requires low < high
    ensures low <= v < high
  {
    low + entropy % (high - low)
  }

  /** Every value of [low, high) is reachable: the model of the draw leaves no
      outcome out. */
  lemma RandIntReaches(low: int, high: int, v: int)
    requires low <= v < high
    ensures RandInt(low, high, v - low) == v
  {
  }

  /** The kernel `gaussian_blur` uses: `kernel_targets[randint(0, len(kernel_targets))]`. */
  function BlurKernel(kernelTargets: seq<int>, entropy: nat): (k: int)
    requires |kernelTargets| > 0
    ensures k in kernelTargets
  {
    kernelTargets[RandInt(0, |kernelTargets|, entropy)]
  }

  /** Every configured kernel can be chosen. */
  lemma BlurKernelReaches(kernelTargets: seq<int>, i: nat)
    requires i < |kernelTargets|
    ensures BlurKernel(kernelTargets, i) == kernelTargets[i]
  {
  }
}
