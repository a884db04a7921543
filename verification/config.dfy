/**
 * Start-up configuration (`config/config.go`): the settings record, its
 * defaults, and the one check `NewConfig` makes, that the four
 * attachment-style proportions sum to 1 within 0.05.
 */
module Settings {
  import opened Common

  datatype Config = Config(
    gridWidth: int,
    gridHeight: int,
    numAgents: int,
    dismissiveProp: real,
    fearfulProp: real,
    preoccupiedProp: real,
    secureProp: real,
    numIterations: int,
    numTurns: int,
    numClusters: int,
    connectionProbability: real,
    populationRho: real,
    initialExpectedChildren: real,
    minExpectedChildren: real,
    maxExpectedChildren: real,
    mutationRate: real,
    aspThreshold: real,
    debug: bool,
    seed: int)

  /** The command-line defaults. */
  const Defaults := Config(50, 50, 40, 0.25, 0.25, 0.25, 0.25, 100, 10, 3, 0.35, 0.2, 2.0, 1.9, 2.1, 0.2, 0.5, false, 42)

  /** The tolerance on the proportion sum. */
  const Epsilon: real := 0.05

  function Abs(x: real): real {
    if x < 0.0 then -x else x
  }

  /** The total of the four attachment-style proportions. */
  function ProportionSum(c: Config): real {
    c.dismissiveProp + c.fearfulProp + c.preoccupiedProp + c.secureProp
  }

  /**
   * The check in `NewConfig`: the settings are rejected (the program
   * panics) exactly when the proportions sum to more than 1.05 or less than
   * 0.95; accepted settings are returned unchanged.
   */
  function Validate(c: Config): (r: Result<Config, string>)
    ensures r.Err? <==> ProportionSum(c) > 1.0 + Epsilon || ProportionSum(c) < 1.0 - Epsilon
    ensures r.Ok? ==> r.value == c
  {
    if Abs(ProportionSum(c) - 1.0) > Epsilon then Err("Proportion of attachment types do not sum to 1.0")
    else Ok(c)
  }

  /** The defaults pass the check, and they hold the documented values. */
  lemma DefaultsValid()
    ensures Validate(Defaults) == Ok(Defaults)
    ensures Defaults.gridWidth == 50 && Defaults.gridHeight == 50 && Defaults.numAgents == 40
    ensures Defaults.populationRho == 0.2 && Defaults.aspThreshold == 0.5
  {
  }

  /**
   * Only the proportions are checked: changing any other setting, including
   * a threshold or quota outside [0,1], never changes the verdict.
   */
  lemma OnlyProportionsChecked(c: Config, d: Config)
    requires c.dismissiveProp == d.dismissiveProp && c.fearfulProp == d.fearfulProp
    requires c.preoccupiedProp == d.preoccupiedProp && c.secureProp == d.secureProp
    ensures Validate(c).Ok? <==> Validate(d).Ok?
  {
  }

  /** A threshold and a quota outside [0,1], or a negative proportion, are accepted. */
  lemma OutOfRangeAccepted()
    ensures Validate(Defaults.(aspThreshold := 2.0, populationRho := -1.0)).Ok?
    ensures Validate(Defaults.(dismissiveProp := -0.25, fearfulProp := 0.75)).Ok?
  {
  }
}
