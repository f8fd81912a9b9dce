/** The EXP configuration and the two lookups that depend on whether a
    record is a past one. Multipliers are exact reals here. */
module Config {
  import opened Common

  datatype ExpConfig = ExpConfig(
    dailyLimit: int,
    pastDaysThreshold: int,
    pastExpMultiplier: real,
    pastLimitMultiplier: real,
    maxExpPerSet: int,
    expCoefficient: real)

  /** `ExpConfig::default`. */
  const DefaultExpConfig: ExpConfig := ExpConfig(50000, 2, 0.25, 0.5, 2000, 1.0)

  /** `x as i32` for a float: rounds toward zero and saturates at the
      bounds of `i32`. */
  function FloatToI32(x: real): (n: int)
    ensures IsI32(n)
    ensures 0.0 <= x < 2147483648.0 ==> n as real <= x < n as real + 1.0
    ensures -2147483648.0 < x <= 0.0 ==> n as real - 1.0 < x <= n as real
  {
    if x >= 2147483647.0 then I32Max
    else if x <= -2147483648.0 then I32Min
    else if x >= 0.0 then x.Floor
    else -((-x).Floor)
  }

  /** `get_daily_limit`: the full limit for current records, the limit
      scaled by the past multiplier and truncated for past ones. */
  function DailyLimit(c: ExpConfig, isPastRecord: bool): (limit: int)
    ensures !isPastRecord ==> limit == c.dailyLimit
    ensures isPastRecord ==> IsI32(limit)
  {
    if isPastRecord then FloatToI32(c.dailyLimit as real * c.pastLimitMultiplier) else c.dailyLimit
  }

  /** `get_exp_multiplier`. */
  function ExpMultiplier(c: ExpConfig, isPastRecord: bool): (m: real)
    ensures !isPastRecord ==> m == 1.0
    ensures isPastRecord ==> m == c.pastExpMultiplier
  {
    if isPastRecord then c.pastExpMultiplier else 1.0
  }

  /** Under the defaults a past record's limit is 25000 and a current one's
      50000, with EXP scaled by a quarter for past records. */
  lemma DefaultLimits()
    ensures DailyLimit(DefaultExpConfig, true) == 25000
    ensures DailyLimit(DefaultExpConfig, false) == 50000
    ensures ExpMultiplier(DefaultExpConfig, true) == 0.25
  {}

  /** With a limit that fits an `i32` and a past multiplier in [0, 1], the
      past limit is never negative and never above the current limit; the
      defaults are such a configuration. */
  lemma PastLimitWithinCurrent(c: ExpConfig)
    requires 0 <= c.dailyLimit <= I32Max
    requires 0.0 <= c.pastLimitMultiplier <= 1.0
    ensures 0 <= DailyLimit(c, true) <= DailyLimit(c, false)
  {
    ScaleWithin(c.dailyLimit as real, c.pastLimitMultiplier);
    FloatToI32Within(c.dailyLimit as real * c.pastLimitMultiplier, c.dailyLimit);
  }

  /** Converting an amount between 0 and an `i32` bound stays between them. */
  lemma FloatToI32Within(x: real, bound: int)
    requires 0 <= bound <= I32Max && 0.0 <= x <= bound as real
    ensures 0 <= FloatToI32(x) <= bound
  {}

  /** Scaling a non-negative amount by a factor in [0, 1] stays in [0, amount]. */
  lemma ScaleWithin(d: real, m: real)
    requires d >= 0.0 && 0.0 <= m <= 1.0
    ensures 0.0 <= d * m <= d
  {
    assert d * m >= 0.0 * m;
    assert d * (1.0 - m) >= 0.0 * (1.0 - m);
  }
}
