/**
 The price engine as the contract runs it: stored configuration, states and history updated in place.
 */
module PricingContract {
  import opened Host
  import opened PricingModel

  class PricingEngine {
    var admin: Option<Address>
    var config: Option<PricingConfig>
    var states: map<Symbol, PriceState>
    var history: map<Symbol, seq<PricePoint>>

    ghost function Model(): Engine
      reads this
    {
      Engine(admin, config, states, history)
    }

    constructor ()
      ensures Model() == NEW_ENGINE
    {
      admin, config, states, history := None, None, map[], map[];
    }

    function ActiveConfig(): (c: PricingConfig)
      reads this
      ensures c == ConfigOf(Model())
    {
      if config.Some? then config.value else DEFAULT_CONFIG
    }

    method InitPricingConfig(caller: Address, c: PricingConfig) returns (r: Result<(), PricingError>)
      modifies this
      ensures match InitConfig(old(Model()), caller, c)
              case Ok(e) => r == Ok(()) && Model() == e
              case Err(error) => r == Err(error) && Model() == old(Model())
    {
      if admin.Some? {
        return Err(InvalidConfig);
      }
      if !ValidConfig(c) {
        return Err(InvalidConfig);
      }
      admin := Some(caller);
      config := Some(c);
      r := Ok(());
    }

    method SetPricingConfig(caller: Address, c: PricingConfig) returns (r: Result<(), PricingError>)
      modifies this
      ensures match SetConfig(old(Model()), caller, c)
              case Ok(e) => r == Ok(()) && Model() == e
              case Err(error) => r == Err(error) && Model() == old(Model())
    {
      if admin.None? {
        return Err(NotInitialized);
      }
      if admin.value != caller {
        return Err(Unauthorized);
      }
      if !ValidConfig(c) {
        return Err(InvalidConfig);
      }
      config := Some(c);
      r := Ok(());
    }

    /** Feed one raw print. An out-of-band print succeeds and is only counted. */
    method ObservePrice(source: Address, resource: Symbol, raw: int, now: nat)
      returns (r: Result<PriceState, PricingError>)
      modifies this
      ensures match Observe(old(Model()), source, resource, raw, now)
              case Ok(e) => Model() == e && resource in states && r == Ok(states[resource])
              case Err(error) => r == Err(error) && Model() == old(Model())
    {
      hide EmaStep, DeviationBps, EwmaBps, PriceFromState;
      if admin.None? {
        return Err(NotInitialized);
      }
      if admin.value != source {
        return Err(Unauthorized);
      }
      if raw <= 0 {
        return Err(InvalidPrice);
      }
      var c := ActiveConfig();
      var state: PriceState;
      if resource !in states {
        state := Seeded(raw, now);
      } else {
        state := states[resource];
        if MinusOrZero(now, state.lastUpdate) < c.minCooldown {
          return Err(CooldownActive);
        }
        var dev := DeviationBps(state.sma, raw);
        if dev > c.maxDeviation {
          state := state.(rejectedPrints := SatCount(state.rejectedPrints), rejectedLast := true);
          states := states[resource := state];
          return Ok(state);
        }
        state := state.(
          sma := EmaStep(state.sma, raw, c.smoothing),
          lastAccepted := raw,
          lastUpdate := now,
          volatility := EwmaBps(state.volatility, dev, c.smoothing),
          observationCount := SatCount(state.observationCount),
          rejectedLast := false);
      }
      var published := PriceFromState(c, state).published;
      states := states[resource := state];
      PushHistory(resource, PricePoint(state.sma, raw, published, state.volatility, now));
      r := Ok(state);
    }

    method PushHistory(resource: Symbol, point: PricePoint)
      modifies this`history
      ensures history == old(history)[resource := Newest(HistoryOf(old(Model()), resource) + [point])]
    {
      var points := if resource in history then history[resource] else [];
      points := points + [point];
      ghost var all := points;
      while |points| > MAX_HISTORY_ENTRIES
        invariant |points| <= |all| && points == all[|all| - |points|..]
        invariant |points| >= Min(|all|, MAX_HISTORY_ENTRIES)
      {
        points := points[1..];
      }
      history := history[resource := points];
    }

    method ObserveSupplyDemand(source: Address, resource: Symbol, supply: int, demand: int)
      returns (r: Result<int, PricingError>)
      modifies this
      ensures match PricingModel.ObserveSupplyDemand(old(Model()), source, resource, supply, demand)
              case Ok(e) => Model() == e && resource in states && r == Ok(states[resource].supplyDemand)
              case Err(error) => r == Err(error) && Model() == old(Model())
    {
      if admin.None? {
        return Err(NotInitialized);
      }
      if admin.value != source {
        return Err(Unauthorized);
      }
      if supply < 0 || demand < 0 {
        return Err(InvalidPrice);
      }
      var ratio := 1_000;
      if demand > 0 {
        if supply * 1_000 > I128_MAX {
          return Err(ArithmeticOverflow);
        }
        ratio := (supply * 1_000) / demand;
      }
      var clamped := ClampNudge(ActiveConfig(), SatI128(SatI128(ratio - 1_000) * 10));
      if resource !in states {
        return Err(ResourceNotFound);
      }
      states := states[resource := states[resource].(supplyDemand := clamped)];
      r := Ok(clamped);
    }
  }
}
