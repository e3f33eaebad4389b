/**
 The dynamic price engine as values: its integer arithmetic, the update of one resource by one
 print, and the whole stored engine.
 */
module PricingModel {
  import opened Host

  const BPS: int := 10_000
  const MAX_SMOOTHING_BPS: int := 5_000
  const MAX_VOLATILITY_BAND_BPS: int := 5_000
  const MAX_HISTORY_ENTRIES: nat := 24

  datatype PricingError =
    | NotInitialized | Unauthorized | InvalidPrice | InvalidConfig
    | ResourceNotFound | CooldownActive | ArithmeticOverflow

  datatype PricingConfig = PricingConfig(
    smoothing: nat,
    maxDeviation: nat,
    baseBand: nat,
    maxBand: nat,
    minCooldown: nat,
    supplyDemandAdj: nat)

  const DEFAULT_CONFIG := PricingConfig(2_000, 5_000, 3_000, 5_000, 60, 2_500)

  /** `sma` is the source's name for the exponential moving average. */
  datatype PriceState = PriceState(
    sma: int,
    lastAccepted: int,
    lastUpdate: nat,
    volatility: nat,
    rejectedPrints: nat,
    rejectedLast: bool,
    observationCount: nat,
    supplyDemand: int)

  datatype PricePoint = PricePoint(sma: int, raw: int, published: int, volatility: nat, timestamp: nat)

  datatype DynamicPrice = DynamicPrice(sma: int, volatility: nat, band: nat, supplyDemand: int, published: int)

  // ----- integer helpers -----------------------------------------------------------

  /** One averaging step; division truncates toward zero, and a step of zero becomes one unit toward `raw`. */
  function EmaStep(sma: int, raw: int, alpha: nat): int {
    var delta := raw - sma;
    var scaled := TruncDiv(SatI128(delta * alpha), BPS);
    var moved := SatI128(sma + scaled);
    var next := if moved == sma && delta != 0 then SatI128(sma + if delta > 0 then 1 else -1) else moved;
    if next <= 0 then 1 else next
  }

  function DeviationBps(sma: int, raw: int): (dev: nat)
    ensures dev <= U32_MAX
  {
    if sma <= 0 then U32_MAX
    else
      var scaled := SatI128(Abs(SatI128(raw - sma)) * BPS) / sma;
      if scaled >= U32_MAX then U32_MAX else scaled
  }

  function EwmaBps(prev: nat, sample: nat, alpha: nat): (next: nat)
    ensures next <= U32_MAX
  {
    var delta := sample - prev;
    var moved := prev + TruncDiv(delta * alpha, BPS);
    var next := if moved == prev && delta != 0 then prev + (if delta > 0 then 1 else -1) else moved;
    Clamp(next, 0, U32_MAX)
  }

  /** The half-width of a band of `band` basis points around `anchor`. */
  function BandWidth(anchor: int, band: nat): int {
    TruncDiv(SatI128(anchor * band), BPS)
  }

  function ClampToBand(anchor: int, value: int, band: nat): int {
    if anchor <= 0 then Max(value, 1)
    else
      var lower := Max(SatI128(anchor - BandWidth(anchor, band)), 1);
      var upper := SatI128(anchor + BandWidth(anchor, band));
      // The host panics on an empty range; PublishedInBand shows it never is one.
      if lower <= upper then Clamp(value, lower, upper) else value
  }

  function EffectiveBand(config: PricingConfig, volatility: nat): nat {
    var base := Min(config.baseBand, config.maxBand);
    var headroom := config.maxBand - base;
    if headroom == 0 then base
    else
      var scale := if config.maxDeviation == 0 then 0
                   else (Min(volatility, config.maxDeviation) * headroom) / config.maxDeviation;
      Min(base + scale, config.maxBand)
  }

  predicate ValidConfig(c: PricingConfig) {
    && 0 < c.smoothing <= MAX_SMOOTHING_BPS
    && 0 < c.maxDeviation <= 2 * BPS
    && 0 < c.baseBand <= MAX_VOLATILITY_BAND_BPS
    && c.baseBand <= c.maxBand <= MAX_VOLATILITY_BAND_BPS
    && c.supplyDemandAdj <= BPS
  }

  function ClampNudge(config: PricingConfig, bps: int): int {
    Clamp(bps, 0 - config.supplyDemandAdj, config.supplyDemandAdj)
  }

  /** The price the economy reads: average, supply/demand nudge, then the band. */
  function PriceFromState(config: PricingConfig, st: PriceState): DynamicPrice {
    var band := EffectiveBand(config, st.volatility);
    var nudge := ClampNudge(config, st.supplyDemand);
    var nudged := Max(SatI128(st.sma + TruncDiv(SatI128(nudge * st.sma), BPS)), 1);
    DynamicPrice(st.sma, st.volatility, band, nudge, ClampToBand(st.sma, nudged, band))
  }

  // ----- one resource --------------------------------------------------------------

  function Seeded(raw: int, now: nat): PriceState {
    PriceState(raw, raw, now, 0, 0, false, 1, 0)
  }

  predicate CoolingDown(config: PricingConfig, prior: PriceState, now: nat) {
    MinusOrZero(now, prior.lastUpdate) < config.minCooldown
  }

  /** Whether a print is folded into the average rather than discarded. */
  predicate InRange(config: PricingConfig, prior: PriceState, raw: int) {
    DeviationBps(prior.sma, raw) <= config.maxDeviation
  }

  function SatCount(n: nat): nat {
    Min(n + 1, U32_MAX)
  }

  function Reject(prior: PriceState): PriceState {
    prior.(rejectedPrints := SatCount(prior.rejectedPrints), rejectedLast := true)
  }

  function Accept(config: PricingConfig, prior: PriceState, raw: int, now: nat): PriceState {
    prior.(
      sma := EmaStep(prior.sma, raw, config.smoothing),
      lastAccepted := raw,
      lastUpdate := now,
      volatility := EwmaBps(prior.volatility, DeviationBps(prior.sma, raw), config.smoothing),
      observationCount := SatCount(prior.observationCount),
      rejectedLast := false)
  }

  // ----- the engine ------------------------------------------------------------------

  datatype Engine = Engine(
    admin: Option<Address>,
    config: Option<PricingConfig>,
    states: map<Symbol, PriceState>,
    history: map<Symbol, seq<PricePoint>>)

  const NEW_ENGINE := Engine(None, None, map[], map[])

  function ConfigOf(e: Engine): PricingConfig {
    if e.config.Some? then e.config.value else DEFAULT_CONFIG
  }

  function HistoryOf(e: Engine, resource: Symbol): seq<PricePoint> {
    if resource in e.history then e.history[resource] else []
  }

  /** The newest points, at most `MAX_HISTORY_ENTRIES` of them. */
  function Newest(points: seq<PricePoint>): seq<PricePoint> {
    if |points| > MAX_HISTORY_ENTRIES then points[|points| - MAX_HISTORY_ENTRIES..] else points
  }

  function InitConfig(e: Engine, admin: Address, config: PricingConfig): Result<Engine, PricingError> {
    if e.admin.Some? || !ValidConfig(config) then Err(InvalidConfig)
    else Ok(e.(admin := Some(admin), config := Some(config)))
  }

  function SetConfig(e: Engine, admin: Address, config: PricingConfig): Result<Engine, PricingError> {
    if e.admin.None? then Err(NotInitialized)
    else if e.admin.value != admin then Err(Unauthorized)
    else if !ValidConfig(config) then Err(InvalidConfig)
    else Ok(e.(config := Some(config)))
  }

  /** Fold a fresh state into storage and append its history point. */
  function Record(e: Engine, resource: Symbol, st: PriceState, raw: int, now: nat): Engine {
    var point := PricePoint(st.sma, raw, PriceFromState(ConfigOf(e), st).published, st.volatility, now);
    e.(states := e.states[resource := st],
       history := e.history[resource := Newest(HistoryOf(e, resource) + [point])])
  }

  function Observe(e: Engine, source: Address, resource: Symbol, raw: int, now: nat): Result<Engine, PricingError> {
    if e.admin.None? then Err(NotInitialized)
    else if e.admin.value != source then Err(Unauthorized)
    else if raw <= 0 then Err(InvalidPrice)
    else if resource !in e.states then Ok(Record(e, resource, Seeded(raw, now), raw, now))
    else
      var prior := e.states[resource];
      if CoolingDown(ConfigOf(e), prior, now) then Err(CooldownActive)
      else if !InRange(ConfigOf(e), prior, raw) then Ok(e.(states := e.states[resource := Reject(prior)]))
      else Ok(Record(e, resource, Accept(ConfigOf(e), prior, raw, now), raw, now))
  }

  /** The supply/demand ratio in thousandths; balanced when there is no demand. */
  function Ratio(supply: nat, demand: nat): int {
    if demand > 0 then (supply * 1_000) / demand else 1_000
  }

  function ObserveSupplyDemand(e: Engine, source: Address, resource: Symbol, supply: int, demand: int)
    : Result<Engine, PricingError>
  {
    if e.admin.None? then Err(NotInitialized)
    else if e.admin.value != source then Err(Unauthorized)
    else if supply < 0 || demand < 0 then Err(InvalidPrice)
    else if demand > 0 && supply * 1_000 > I128_MAX then Err(ArithmeticOverflow)
    else if resource !in e.states then Err(ResourceNotFound)
    else
      var bps := ClampNudge(ConfigOf(e), SatI128(SatI128(Ratio(supply, demand) - 1_000) * 10));
      Ok(e.(states := e.states[resource := e.states[resource].(supplyDemand := bps)]))
  }
}
