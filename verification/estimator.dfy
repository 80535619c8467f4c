/** The size of a hold: what a request may use, when only its declared ceiling and past outputs are known. */
module Estimator {
  import opened Basics

  datatype Mode = WorstCase | Adaptive

  datatype Basis = WorstCaseBasis | Observed | ColdStart

  /** The safety factor is at least 1, as the policy schema demands. */
  type Factor = r: real | 1.0 <= r witness 1.0

  datatype Estimate = Estimate(reserveTokens: nat, worstCaseTokens: nat, basis: Basis)

  function EstimateReservation(mode: Mode, safety: Factor, prompt: nat, maxOutput: pos, observed: real): Estimate {
    var worst := prompt + maxOutput;
    if mode == WorstCase then Estimate(worst, worst, WorstCaseBasis)
    else if observed <= 0.0 then Estimate(worst, worst, ColdStart)
    else
      var projected := Ceil(observed * safety);
      var output := Min(maxOutput, Max(projected, 1));
      Estimate(prompt + output, worst, Observed)
  }

  /**
   * Whatever was observed, the hold covers the prompt and one token and never
   * exceeds the declaration, which is held in full in worst-case mode and as
   * long as nothing was observed.
   */
  lemma HoldWithinDeclaration(mode: Mode, safety: Factor, prompt: nat, maxOutput: pos, observed: real)
    ensures prompt + 1
         <= EstimateReservation(mode, safety, prompt, maxOutput, observed).reserveTokens
         <= prompt + maxOutput
    ensures mode == WorstCase || observed <= 0.0 ==>
      EstimateReservation(mode, safety, prompt, maxOutput, observed).reserveTokens == prompt + maxOutput
    ensures EstimateReservation(mode, safety, prompt, maxOutput, observed).worstCaseTokens == prompt + maxOutput
    ensures var basis := EstimateReservation(mode, safety, prompt, maxOutput, observed).basis;
      && (basis == WorstCaseBasis <==> mode == WorstCase)
      && (basis == Observed <==> mode == Adaptive && 0.0 < observed)
  {
  }

  lemma ScaleMonotone(a: real, b: real, factor: Factor)
    requires a <= b
    ensures a * factor <= b * factor
  {
  }

  /** A larger observation never holds less, once something has been observed. */
  lemma HoldMonotone(safety: Factor, prompt: nat, maxOutput: pos, low: real, high: real)
    requires 0.0 < low <= high
    ensures EstimateReservation(Adaptive, safety, prompt, maxOutput, low).reserveTokens
         <= EstimateReservation(Adaptive, safety, prompt, maxOutput, high).reserveTokens
  {
    ScaleMonotone(low, high, safety);
    CeilMonotone(low * safety, high * safety);
  }

  /**
   * Once something has been observed, the output held for is the least whole
   * number of tokens, and one at least, that covers the observation with its
   * safety factor; the declared ceiling is held instead when it is smaller.
   */
  lemma HoldIsLeastCover(safety: Factor, prompt: nat, maxOutput: pos, observed: real)
    requires 0.0 < observed
    ensures var held := EstimateReservation(Adaptive, safety, prompt, maxOutput, observed).reserveTokens - prompt;
      && 1 <= held <= maxOutput
      && (held < maxOutput ==> observed * safety <= held as real)
      && (1 < held ==> held as real - 1.0 < observed * safety)
  {
    var projected := Ceil(observed * safety);
    if projected < maxOutput {
      assert projected as real <= maxOutput as real;
    }
  }

  /** An output no longer than the scaled observation, nor than the ceiling, fits its hold. */
  lemma HoldCoversObserved(safety: Factor, prompt: nat, maxOutput: pos, observed: real, output: nat)
    requires 0.0 < observed && output as real <= observed * safety && output <= maxOutput
    ensures prompt + output <= EstimateReservation(Adaptive, safety, prompt, maxOutput, observed).reserveTokens
  {
    HoldIsLeastCover(safety, prompt, maxOutput, observed);
  }
}
