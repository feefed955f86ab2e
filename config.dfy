/** The compile-time configuration of config.h, with the same names and
    values.  The members that dispatch on a setting take the setting as a
    parameter, and the configured value is passed where the source tests
    the macro. */
module Config {
  const UPON_GENERATION := 0
  const UPON_CONVERGENCE := 1
  const TERMINATE_CONDITION := UPON_GENERATION

  const NO_SCALING := 0
  const RANK := 1
  const DIFFERENCE_SCALING := 2
  const SCALING_SCHEME := DIFFERENCE_SCALING

  const RANK_SELECTION := 0
  const ROULETTE_WHEEL := 1
  const TOURNAMENT := 2
  const SELECTION_SCHEME := ROULETTE_WHEEL

  const LOW_IS_BEST := 0
  const HIGH_IS_BEST := 1
  const HIGH_LOW := LOW_IS_BEST

  const ASC := 0
  const DESC := 1
  const SORT_ORDER := ASC

  const SCORE := 0
  const FITNESS := 1
  const SORT_TYPE := FITNESS

  const total_generations := 200
  const mutation_percentage := 0.01
  const crossover_percentage := 0.9
  const POPULATION_SIZE := 1000

  const TOURNAMENT_SIZE := 500

  /** `Random::randomPercentage`: `rand() % 10000` scaled into [0, 1);
      `d` is the value of `rand()`. */
  function RandomPercentage(d: nat): (p: real)
    ensures 0.0 <= p < 1.0
  {
    (d % 10000) as real / 10000.0
  }

  /** The C++ conversion of a `double` to `int`: truncation toward zero. */
  function TruncateToInt(x: real): (n: int)
    ensures x >= 0.0 ==> n as real <= x < n as real + 1.0
    ensures x < 0.0 ==> n as real - 1.0 < x <= n as real
  {
    if x >= 0.0 then x.Floor else -((-x).Floor)
  }
}
