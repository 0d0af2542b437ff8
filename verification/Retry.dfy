/** The retry schedule: exponential back-off within bounds, jitter with a floor, and the delivery deadline. */
module Retry {
  import opened Wrappers

  const MIN_INITIAL := 60000.0
  const MIN_MULTIPLIER := 2.0
  const MAX_INTERVAL := 21600000.0
  const MIN_JITTER := 0.1
  const JITTER_FLOOR := 30000
  const DEFAULT_HORIZON := 72 * 60 * 60 * 1000
  const HORIZON_CAP := 7 * 24 * 60 * 60 * 1000

  datatype Config = Config(initial: Option<real>, multiplier: Option<real>, maxInterval: Option<real>,
                           jitter: Option<real>)

  datatype Effective = Effective(initial: real, multiplier: real, maxInterval: real, jitter: real)

  function Max(a: real, b: real): real {
    if a >= b then a else b
  }

  function Min(a: real, b: real): real {
    if a <= b then a else b
  }

  function OrZero(x: Option<real>): real {
    if x.Some? then x.value else 0.0
  }

  /** Every bound the schedule relies on holds after this, whatever was configured. */
  function Sanitize(cfg: Config): (e: Effective)
    ensures e.initial >= 60000.0 && e.multiplier >= 2.0 && 0.0 < e.maxInterval <= 21600000.0 && e.jitter >= 0.1
  {
    var m := OrZero(cfg.maxInterval);
    Effective(Max(OrZero(cfg.initial), MIN_INITIAL), Max(OrZero(cfg.multiplier), MIN_MULTIPLIER),
              if m <= 0.0 || m > MAX_INTERVAL then MAX_INTERVAL else m, Max(OrZero(cfg.jitter), MIN_JITTER))
  }

  /** What is configured within the bounds is kept; what is not gives way to the nearest bound or the default. */
  lemma SanitizeKeeps(cfg: Config)
    ensures var e := Sanitize(cfg);
      && (cfg.initial.Some? && cfg.initial.value >= 60000.0 ==> e.initial == cfg.initial.value)
      && (cfg.initial.None? || cfg.initial.value <= 60000.0 ==> e.initial == 60000.0)
      && (cfg.multiplier.Some? && cfg.multiplier.value >= 2.0 ==> e.multiplier == cfg.multiplier.value)
      && (cfg.multiplier.None? || cfg.multiplier.value <= 2.0 ==> e.multiplier == 2.0)
      && (cfg.maxInterval.Some? && 0.0 < cfg.maxInterval.value <= 21600000.0 ==> e.maxInterval == cfg.maxInterval.value)
      && (cfg.maxInterval.None? || !(0.0 < cfg.maxInterval.value <= 21600000.0) ==> e.maxInterval == 21600000.0)
      && (cfg.jitter.Some? && cfg.jitter.value >= 0.1 ==> e.jitter == cfg.jitter.value)
      && (cfg.jitter.None? || cfg.jitter.value <= 0.1 ==> e.jitter == 0.1)
  {}

  /** Initial times multiplier to the power of the attempt. */
  function Grown(e: Effective, attempt: nat): real {
    if attempt == 0 then e.initial else Grown(e, attempt - 1) * e.multiplier
  }

  /** The interval before jitter: the grown interval, never above the maximum. */
  function BaseInterval(e: Effective, attempt: nat): real {
    Min(Grown(e, attempt), e.maxInterval)
  }

  lemma Scaled(a: real, x: real, p: real)
    ensures a * p * x == a * (x * p)
  {}

  function Power(x: real, n: nat): real {
    if n == 0 then 1.0 else x * Power(x, n - 1)
  }

  lemma {:induction false} GrownIsPower(e: Effective, n: nat)
    ensures Grown(e, n) == e.initial * Power(e.multiplier, n)
  {
    if n > 0 {
      GrownIsPower(e, n - 1);
      Scaled(e.initial, e.multiplier, Power(e.multiplier, n - 1));
    }
  }

  lemma Grows(d: real, x: real)
    requires d > 0.0 && x >= 1.0
    ensures d * x >= d
  {
    assert d * x - d == d * (x - 1.0);
  }

  lemma {:induction false} GrownGrows(e: Effective, i: nat, n: nat)
    requires i <= n && e.initial > 0.0 && e.multiplier >= 1.0
    ensures 0.0 < Grown(e, i) <= Grown(e, n)
    decreases n
  {
    if n > 0 {
      GrownGrows(e, if i < n then i else i - 1, n - 1);
      Grows(Grown(e, n - 1), e.multiplier);
    }
  }

  /** The loop stops at the maximum; what it leaves out would only be cut off. */
  method BaseIntervalMs(cfg: Config, attempt: int) returns (d: real)
    ensures d == BaseInterval(Sanitize(cfg), if attempt < 0 then 0 else attempt)
  {
    var e := Sanitize(cfg);
    var a: nat := if attempt < 0 then 0 else attempt;
    d := e.initial;
    var i: nat := 0;
    while i < a
      invariant i <= a && d == Grown(e, i)
    {
      d := d * e.multiplier;
      i := i + 1;
      if d > e.maxInterval {
        GrownGrows(e, i, a);
        return e.maxInterval;
      }
    }
    d := Min(d, e.maxInterval);
  }

  /** The interval after jitter; None where the source throws. */
  function Jitter(e: Effective, base: real, r: real): Option<int> {
    if base <= 0.0 || r < 0.0 || r >= 1.0 then None
    else
      var jittered := (base * (1.0 - e.jitter + 2.0 * e.jitter * r)).Floor;
      Some(if jittered >= JITTER_FLOOR then jittered else JITTER_FLOOR)
  }

  /** An interval within the jitter of its base, or at the floor where that is above it. */
  ghost predicate Within(base: real, jitter: real, interval: int) {
    && interval >= JITTER_FLOOR && base * (1.0 - jitter) - 1.0 < interval as real
    && (interval == JITTER_FLOOR || interval as real < base * (1.0 + jitter))
  }

  lemma JitterWithin(e: Effective, base: real, r: real)
    requires base > 0.0 && e.jitter > 0.0 && 0.0 <= r < 1.0
    ensures Jitter(e, base, r).Some? && Within(base, e.jitter, Jitter(e, base, r).value)
  {
    JitterSpread(base, e.jitter, r, base * (1.0 - e.jitter + 2.0 * e.jitter * r));
  }

  lemma JitterSpread(base: real, j: real, r: real, x: real)
    requires base > 0.0 && j > 0.0 && 0.0 <= r < 1.0 && x == base * (1.0 - j + 2.0 * j * r)
    ensures base * (1.0 - j) <= x < base * (1.0 + j)
  {
    var w := 2.0 * j * r;
    Product(2.0 * j, r);
    Product(2.0 * j, 1.0 - r);
    assert 0.0 <= w < 2.0 * j;
    Product(base, w);
    Product(base, 2.0 * j - w);
    assert x == base * (1.0 - j) + base * w;
    assert base * (1.0 + j) - x == base * (2.0 * j - w);
  }

  lemma Product(x: real, y: real)
    requires x > 0.0 && y >= 0.0
    ensures x * y >= 0.0 && (y > 0.0 ==> x * y > 0.0)
  {}

  /** The time of the next attempt. */
  function NextAttempt(e: Effective, previous: int, attempt: nat, r: real): Option<int> {
    var j := Jitter(e, BaseInterval(e, attempt), r);
    if j.Some? then Some(previous + j.value) else None
  }

  /** For every configuration and every draw in [0, 1) there is a next attempt, at least the floor away. */
  lemma NextAttemptLater(cfg: Config, previous: int, attempt: nat, r: real)
    requires 0.0 <= r < 1.0
    ensures NextAttempt(Sanitize(cfg), previous, attempt, r).Some?
    ensures NextAttempt(Sanitize(cfg), previous, attempt, r).value >= previous + JITTER_FLOOR
  {
    GrownGrows(Sanitize(cfg), attempt, attempt);
  }

  /** The horizon as it is applied: the default when not positive, and never above the cap. */
  function Horizon(configured: int): (h: int)
    ensures 0 < h <= 7 * 24 * 60 * 60 * 1000
    ensures 0 < configured ==> h <= configured
  {
    var h := if configured <= 0 then DEFAULT_HORIZON else configured;
    if h > HORIZON_CAP then HORIZON_CAP else h
  }

  /** The earlier of the postmark's expiry and the end of the horizon. */
  function EffectiveDeadline(expires: Option<int>, queuedAt: int, horizon: int): int {
    var end := queuedAt + Horizon(horizon);
    if expires.Some? && expires.value < end then expires.value else end
  }

  /**
   * The deadline is not after the expiry nor after the end of the horizon, and is one of the two.  The horizon is the
   * one configured up to seven days, and three days when none is.
   */
  lemma DeadlineIsEarlier(expires: Option<int>, queuedAt: int, horizon: int)
    ensures var d, end := EffectiveDeadline(expires, queuedAt, horizon), queuedAt + Horizon(horizon);
      && d <= end && (expires.Some? ==> d <= expires.value) && (Some(d) == expires || d == end)
    ensures 0 < horizon <= 604800000 ==> Horizon(horizon) == horizon
    ensures horizon <= 0 ==> Horizon(horizon) == 259200000
    ensures horizon > 604800000 ==> Horizon(horizon) == 604800000
  {}

  predicate Recoverable(code: string) {
    code in ["handshake_invalid", "handshake_expired", "no_session", "server_unavailable", "rate_limited",
             "server_at_capacity"]
  }
}
