/** The decision outcomes and the fixed score weights (`infra/Constants.go`). */
module Constants {

  /** `ASPDecison`: the outcome of the three-vote self-sacrifice decision. */
  datatype Decision = SelfSacrifice | NotSelfSacrifice | Inaction

  /** The integer Go's `iota` assigns to each outcome. */
  function Code(d: Decision): nat {
    match d
    case SelfSacrifice => 0
    case NotSelfSacrifice => 1
    case Inaction => 2
  }

  /** The outcome an integer code stands for, if any. */
  function FromCode(c: nat): (d: Decision)
    requires c <= 2
    ensures Code(d) == c
  {
    if c == 0 then SelfSacrifice else if c == 1 then NotSelfSacrifice else Inaction
  }

  /** The three outcomes have three distinct codes, 0, 1 and 2, and decoding inverts encoding. */
  lemma CodesRoundTrip(d: Decision)
    ensures Code(d) <= 2
    ensures FromCode(Code(d)) == d
  {
  }

  // Mortality-salience weights.
  const W1: real := 0.25
  const W2: real := 0.25
  const W3: real := 0.25
  const W4: real := 0.25
  // Worldview-validation weights.
  const W5: real := 0.25
  const W6: real := 0.25
  const W7: real := 0.5
  // Relationship-validation weights.
  const W8: real := 0.25
  const W9: real := 0.25
  const W10: real := 0.5

  /** Within each score the weights are non-negative and sum to 1. */
  lemma WeightsAreConvex()
    ensures W1 + W2 + W3 + W4 == 1.0
    ensures W5 + W6 + W7 == 1.0
    ensures W8 + W9 + W10 == 1.0
    ensures 0.0 <= W1 && 0.0 <= W2 && 0.0 <= W3 && 0.0 <= W4 && 0.0 <= W5
    ensures 0.0 <= W6 && 0.0 <= W7 && 0.0 <= W8 && 0.0 <= W9 && 0.0 <= W10
  {
  }
}
