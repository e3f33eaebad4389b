/**
 What the price engine computes, exactly: the size of every step, the band and the published price, the
 pace at which a repeated print is approached, and the points the history keeps.
 */
module PricingExact {
  import opened Host
  import opened Arith
  import opened PricingModel
  import opened PricingProofs
  import opened PricingRuns

  // ----- the size of a step ----------------------------------------------------------------

  /** `bps` basis points of an amount; the product saturates before it is divided. */
  function Share(amount: nat, bps: nat): nat {
    Min(amount * bps, I128_MAX) / 10_000
  }

  lemma ShareUp(amount: nat, bps: nat)
    ensures TruncDiv(SatI128(amount * bps), BPS) == Share(amount, bps)
    ensures TruncDiv(SatI128(-(amount * bps)), BPS) == 0 - Share(amount, bps)
  {
    MulMono(amount, 0, bps);
    assert I128_MAX / 10_000 == (I128_MAX + 1) / 10_000;
  }

  lemma ShareAtMost(amount: nat, bps: nat)
    requires bps <= BPS
    ensures Share(amount, bps) <= amount
  {
    MulMono(amount, bps, BPS);
    DivMono(Min(amount * bps, I128_MAX), amount * BPS, BPS);
    UniqueRemainder(amount * BPS, BPS, amount, 0);
  }

  lemma ShareMono(amount: nat, a: nat, b: nat)
    requires a <= b
    ensures Share(amount, a) <= Share(amount, b)
  {
    MulMono(amount, a, b);
    DivMono(Min(amount * a, I128_MAX), Min(amount * b, I128_MAX), BPS);
  }

  /** The average moves by the smoothing share of the gap, or by one unit where that is nothing. */
  lemma EmaStepExactly(sma: int, raw: int, alpha: nat)
    requires Price(sma) && Price(raw) && 0 < alpha <= BPS && sma != raw
    ensures var d := Max(1, Share(Abs(raw - sma), alpha));
            EmaStep(sma, raw, alpha) == if raw > sma then sma + d else sma - d
  {
    hide TruncDiv, Share;
    var gap := Abs(raw - sma);
    ShareUp(gap, alpha);
    ShareAtMost(gap, alpha);
    if raw < sma {
      assert (raw - sma) * alpha == -(gap * alpha);
    }
  }

  /** Volatility moves by the smoothing share of the distance to the sample, or by one unit. */
  lemma EwmaStepExactly(prev: nat, sample: nat, alpha: nat)
    requires prev <= U32_MAX && sample <= U32_MAX && alpha <= BPS && prev != sample
    ensures var d := Max(1, Abs(sample - prev) * alpha / 10_000);
            EwmaBps(prev, sample, alpha) == if sample > prev then prev + d else prev - d
  {
    var gap := Abs(sample - prev);
    MulMono(gap, 0, alpha);
    MulMono(gap, alpha, BPS);
    DivMono(gap * alpha, gap * BPS, BPS);
    if sample < prev {
      assert (sample - prev) * alpha == -(gap * alpha);
    }
  }

  // ----- the pace of a repeated print ----------------------------------------------------------

  function Gap(sma: int, raw: int): nat {
    Abs(raw - sma)
  }

  /** What one step leaves of the gap, for the smoothing `alpha`. */
  function Keep(alpha: nat): real {
    1.0 - alpha as real / 10_000.0
  }

  lemma FloorNear(x: nat)
    ensures x as real / 10_000.0 - 1.0 <= (x / 10_000) as real <= x as real / 10_000.0
  {
    assert x == 10_000 * (x / 10_000) + x % 10_000;
    assert x as real == 10_000.0 * (x / 10_000) as real + (x % 10_000) as real;
  }

  /** One step keeps its share of the gap, give or take one unit. */
  lemma GapStep(sma: int, raw: int, alpha: nat)
    requires Price(sma) && Price(raw) && 0 < alpha <= BPS && Gap(sma, raw) * alpha <= I128_MAX
    ensures var gap, next := Gap(sma, raw), Gap(EmaStep(sma, raw, alpha), raw);
            && Price(EmaStep(sma, raw, alpha)) && next <= gap && next * alpha <= I128_MAX
            && Keep(alpha) * gap as real - 1.0 <= next as real <= Keep(alpha) * gap as real + 1.0
  {
    hide EmaStep;
    var gap := Gap(sma, raw);
    EmaStepBetween(sma, raw, alpha);
    if gap > 0 {
      EmaStepExactly(sma, raw, alpha);
      FloorNear(gap * alpha);
      assert (gap * alpha) as real / 10_000.0 == gap as real * (alpha as real / 10_000.0);
      MulMono(gap, 0, alpha);
    }
    MulMono(alpha, Gap(EmaStep(sma, raw, alpha), raw), gap);
  }

  lemma KeepRange(alpha: nat)
    requires 0 < alpha <= BPS
    ensures 0.0 <= Keep(alpha) < 1.0 && Keep(alpha) * (10_000.0 / alpha as real) + 1.0 == 10_000.0 / alpha as real
  {
    var a := alpha as real;
    assert (a / 10_000.0) * (10_000.0 / a) == 1.0;
    assert (1.0 - a / 10_000.0) * (10_000.0 / a) == 10_000.0 / a - (a / 10_000.0) * (10_000.0 / a);
  }

  /** `left` is the gap times the n-th power of what a step keeps, up to the constant 10000 / smoothing. */
  predicate Decayed(left: nat, gap: nat, alpha: nat, n: nat)
    requires alpha > 0
  {
    var target, slack := gap as real * Pow(Keep(alpha), n), 10_000.0 / alpha as real;
    target - slack <= left as real <= target + slack
  }

  /** After n repetitions the gap has decayed geometrically, up to a constant. */
  lemma {:induction false} EmaDecays(sma: int, raw: int, alpha: nat, n: nat)
    requires Price(sma) && Price(raw) && 0 < alpha <= BPS && Gap(sma, raw) * alpha <= I128_MAX
    ensures Decayed(Gap(EmaIter(sma, raw, alpha, n), raw), Gap(sma, raw), alpha, n)
    ensures Price(EmaIter(sma, raw, alpha, n)) && Gap(EmaIter(sma, raw, alpha, n), raw) * alpha <= I128_MAX
    decreases n
  {
    hide EmaStep, Keep, Gap, Decayed, EmaIter, Price;
    if n == 0 {
      EmaIterNone(sma, raw, alpha);
      DecayStart(Gap(sma, raw), alpha);
    } else {
      EmaDecays(sma, raw, alpha, n - 1);
      EmaIterLast(sma, raw, alpha, n - 1);
      var mid := EmaIter(sma, raw, alpha, n - 1);
      GapStep(mid, raw, alpha);
      DecayStep(Gap(sma, raw), alpha, n - 1, Gap(mid, raw), Gap(EmaStep(mid, raw, alpha), raw));
    }
  }

  lemma DecayStart(gap: nat, alpha: nat)
    requires alpha > 0
    ensures Decayed(gap, gap, alpha, 0)
  {}

  lemma DecayStep(gap: nat, alpha: nat, n: nat, mid: nat, next: nat)
    requires 0 < alpha <= BPS && Decayed(mid, gap, alpha, n)
    requires Keep(alpha) * mid as real - 1.0 <= next as real <= Keep(alpha) * mid as real + 1.0
    ensures Decayed(next, gap, alpha, n + 1)
  {
    hide Pow, Keep;
    var keep, slack, target := Keep(alpha), 10_000.0 / alpha as real, gap as real * Pow(Keep(alpha), n);
    KeepRange(alpha);
    PowNext(keep, n);
    Contracts(keep, slack, target, mid as real, next as real);
    Regroup(keep, gap as real, Pow(keep, n));
  }

  lemma Contracts(keep: real, slack: real, target: real, mid: real, next: real)
    requires 0.0 <= keep && keep * slack + 1.0 == slack
    requires target - slack <= mid <= target + slack && keep * mid - 1.0 <= next <= keep * mid + 1.0
    ensures keep * target - slack <= next <= keep * target + slack
  {
    ScaleUp(keep, mid, target + slack);
    ScaleUp(keep, target - slack, mid);
    assert keep * (target + slack) == keep * target + keep * slack;
    assert keep * (target - slack) == keep * target - keep * slack;
  }

  /** While the product saturates, each step takes the same amount off the gap. */
  lemma SaturatedStep(sma: int, raw: int, alpha: nat)
    requires Price(sma) && Price(raw) && 0 < alpha <= BPS && Gap(sma, raw) * alpha > I128_MAX
    ensures Gap(EmaStep(sma, raw, alpha), raw) == Gap(sma, raw) - REACH
  {
    hide EmaStep;
    EmaStepBetween(sma, raw, alpha);
    EmaStepExactly(sma, raw, alpha);
  }

  lemma {:induction false} GapFalls(sma: int, raw: int, alpha: nat, n: nat)
    requires Price(sma) && Price(raw) && 0 < alpha <= BPS
    ensures var left := Gap(EmaIter(sma, raw, alpha, n), raw);
            Price(EmaIter(sma, raw, alpha, n)) && (left * alpha <= I128_MAX || left <= Gap(sma, raw) - n * REACH)
    decreases n
  {
    hide EmaStep, EmaIter, Gap, Price;
    if n == 0 {
      EmaIterNone(sma, raw, alpha);
    } else {
      GapFalls(sma, raw, alpha, n - 1);
      EmaIterLast(sma, raw, alpha, n - 1);
      var mid := EmaIter(sma, raw, alpha, n - 1);
      EmaStepBetween(mid, raw, alpha);
      if Gap(mid, raw) * alpha <= I128_MAX {
        GapStep(mid, raw, alpha);
      } else {
        SaturatedStep(mid, raw, alpha);
      }
    }
  }

  /** Ten thousand repetitions bring every pair of prices out of saturation. */
  lemma SaturationEnds(sma: int, raw: int, alpha: nat)
    requires Price(sma) && Price(raw) && 0 < alpha <= BPS
    ensures Gap(EmaIter(sma, raw, alpha, 10_000), raw) * alpha <= I128_MAX
  {
    hide EmaStep, EmaIter;
    GapFalls(sma, raw, alpha, 10_000);
    var left := Gap(EmaIter(sma, raw, alpha, 10_000), raw);
    if left <= Gap(sma, raw) - 10_000 * REACH {
      MulMono(left, alpha, BPS);
    }
  }

  lemma {:induction false} EmaIterSplit(sma: int, raw: int, alpha: nat, m: nat, n: nat)
    ensures EmaIter(sma, raw, alpha, m + n) == EmaIter(EmaIter(sma, raw, alpha, m), raw, alpha, n)
    decreases m
  {
    hide EmaStep;
    if m > 0 {
      EmaIterSplit(EmaStep(sma, raw, alpha), raw, alpha, m - 1, n);
    }
  }

  /**
   The print is reached as soon as the decayed gap is small: if n steps would shrink the gap to at most k,
   then k + 10000 / smoothing further ones close it.
   */
  lemma EmaReachesSoon(sma: int, raw: int, alpha: nat, n: nat, k: nat)
    requires Price(sma) && Price(raw) && 0 < alpha <= BPS && Gap(sma, raw) * alpha <= I128_MAX
    requires Gap(sma, raw) as real * Pow(Keep(alpha), n) <= k as real
    ensures EmaIter(sma, raw, alpha, n + (k + 10_000 / alpha + 1)) == raw
  {
    hide EmaStep, EmaIter, Pow, Keep, Decayed;
    EmaDecays(sma, raw, alpha, n);
    EmaIterSplit(sma, raw, alpha, n, k + 10_000 / alpha + 1);
    var mid := EmaIter(sma, raw, alpha, n);
    SoonClosed(Gap(mid, raw), Gap(sma, raw), alpha, n, k);
    EmaReachesPrint(mid, raw, alpha, k + 10_000 / alpha + 1);
  }

  lemma SoonClosed(left: nat, gap: nat, alpha: nat, n: nat, k: nat)
    requires alpha > 0 && Decayed(left, gap, alpha, n) && gap as real * Pow(Keep(alpha), n) <= k as real
    ensures left <= k + 10_000 / alpha + 1
  {
    hide Pow, Keep;
    SlackAtMost(alpha);
  }

  lemma SlackAtMost(alpha: nat)
    requires alpha > 0
    ensures 10_000.0 / alpha as real <= (10_000 / alpha + 1) as real
  {
    var q := 10_000 / alpha + 1;
    DivGreatest(10_000, alpha, q);
    assert (q * alpha) as real == q as real * alpha as real;
    QuotientAtMost(10_000.0, alpha as real, q as real);
  }

  lemma QuotientAtMost(x: real, a: real, q: real)
    requires a > 0.0 && x <= q * a
    ensures x / a <= q
  {}

  /** Over runs: a print safe along the way, repeated after each cooldown, is approached at exactly that pace. */
  lemma RepeatsDecay(e: Engine, calls: seq<Call>, resource: Symbol, raw: int)
    requires resource in e.states && e.admin.Some? && ValidConfig(ConfigOf(e))
    requires Price(raw) && Price(e.states[resource].sma) && Repeats(e, calls, resource, raw)
    requires SafeAlong(ConfigOf(e).maxDeviation, e.states[resource].sma, raw, ConfigOf(e).smoothing)
    requires Gap(e.states[resource].sma, raw) * ConfigOf(e).smoothing <= I128_MAX
    ensures resource in Run(e, calls).states
    ensures ConfigOf(e).smoothing > 0
    ensures Decayed(Gap(Run(e, calls).states[resource].sma, raw), Gap(e.states[resource].sma, raw),
                    ConfigOf(e).smoothing, |calls|)
  {
    hide ConfigOf, Run, SafeAlong, Repeats, Gap, Decayed, EmaIter, ValidConfig, AcceptedCount;
    SmoothingRange(ConfigOf(e));
    RepeatedPrintConverges(e, calls, resource, raw);
    EmaDecays(e.states[resource].sma, raw, ConfigOf(e).smoothing, |calls|);
  }

  // ----- the band and the published price ----------------------------------------------------------

  /** Above its base the band takes the largest whole part of the headroom that volatility calls for. */
  lemma BandExactly(config: PricingConfig, v: nat)
    requires ValidConfig(config)
    ensures var wider, headroom := EffectiveBand(config, v) - config.baseBand, config.maxBand - config.baseBand;
            var called := Min(v, config.maxDeviation) * headroom;
            wider * config.maxDeviation <= called < (wider + 1) * config.maxDeviation
  {
    var d, h := config.maxDeviation, config.maxBand - config.baseBand;
    var m := Min(v, d);
    MulMono(h, 0, m);
    MulMono(h, m, d);
    DivMono(m * h, d * h, d);
    UniqueRemainder(d * h, d, h, 0);
    DivGreatest(m * h, d, m * h / d);
    DivGreatest(m * h, d, m * h / d + 1);
  }

  /** An average moved by a nudge of at most the band. */
  function Leaned(sma: nat, nudge: int, band: nat): int {
    var share := Share(sma, Min(Abs(nudge), band));
    if nudge >= 0 then Min(sma + share, I128_MAX) else sma - share
  }

  /** The published price is the average moved by the nudge, which is capped by its own limit and by the band. */
  lemma PublishedExactly(config: PricingConfig, st: PriceState)
    requires ValidConfig(config) && Price(st.sma)
    ensures PriceFromState(config, st).supplyDemand ==
            Max(0 - config.supplyDemandAdj, Min(st.supplyDemand, config.supplyDemandAdj))
    ensures PriceFromState(config, st).band == EffectiveBand(config, st.volatility)
    ensures PriceFromState(config, st).published ==
            Leaned(st.sma, PriceFromState(config, st).supplyDemand, PriceFromState(config, st).band)
  {
    hide Share, EffectiveBand, TruncDiv;
    var band, nudge := EffectiveBand(config, st.volatility), ClampNudge(config, st.supplyDemand);
    var size := Abs(nudge);
    BandBetween(config, st.volatility, st.volatility);
    WidthAtMost(st.sma, band);
    ShareUp(st.sma, band);
    ShareUp(st.sma, size);
    ShareAtMost(st.sma, size);
    ShareMono(st.sma, Min(size, band), Max(size, band));
    assert nudge * st.sma == if nudge >= 0 then st.sma * size else -(st.sma * size);
  }

  // ----- what each call does ---------------------------------------------------------------------------

  /** The limits a configuration must respect. */
  lemma ConfigExactly(e: Engine, caller: Address, c: PricingConfig)
    ensures var ok := && 1 <= c.smoothing <= 5_000 && 1 <= c.maxDeviation <= 20_000
                      && 1 <= c.baseBand <= c.maxBand <= 5_000 && c.supplyDemandAdj <= 10_000;
            && (InitConfig(e, caller, c).Ok? <==> e.admin == None && ok)
            && (SetConfig(e, caller, c).Ok? <==> e.admin == Some(caller) && ok)
    ensures InitConfig(e, caller, c).Ok? ==>
              InitConfig(e, caller, c).value == e.(admin := Some(caller), config := Some(c))
    ensures SetConfig(e, caller, c).Ok? ==> SetConfig(e, caller, c).value == e.(config := Some(c))
    ensures e.config == None ==> ConfigOf(e) == PricingConfig(2_000, 5_000, 3_000, 5_000, 60, 2_500)
  {}

  /** When a print is taken, and the whole state of its resource afterwards: seeded, folded in or only counted. */
  lemma PrintExactly(e: Engine, source: Address, resource: Symbol, raw: int, now: nat)
    ensures var config, known := ConfigOf(e), resource in e.states;
            && (Observe(e, source, resource, raw, now).Ok? <==>
                  && e.admin == Some(source) && raw > 0
                  && (known && config.minCooldown > 0 ==> now >= e.states[resource].lastUpdate + config.minCooldown))
            && (Observe(e, source, resource, raw, now).Ok? ==>
                  var e' := Observe(e, source, resource, raw, now).value;
                  && e'.states.Keys == e.states.Keys + {resource} && e'.admin == e.admin && e'.config == e.config
                  && (forall r :: r in e.states && r != resource ==> e'.states[r] == e.states[r])
                  && e'.states[resource] ==
                     (if !known then PriceState(raw, raw, now, 0, 0, false, 1, 0)
                      else
                        var st := e.states[resource];
                        var dev := DeviationBps(st.sma, raw);
                        if dev <= config.maxDeviation
                        then PriceState(EmaStep(st.sma, raw, config.smoothing), raw, now,
                                        EwmaBps(st.volatility, dev, config.smoothing),
                                        st.rejectedPrints, false, Min(st.observationCount + 1, U32_MAX),
                                        st.supplyDemand)
                        else PriceState(st.sma, st.lastAccepted, st.lastUpdate, st.volatility,
                                        Min(st.rejectedPrints + 1, U32_MAX), true, st.observationCount,
                                        st.supplyDemand)))
  {
    hide DeviationBps, EmaStep, EwmaBps, PriceFromState;
  }

  /** When a supply/demand report is taken, and the nudge it stores: ten basis points per thousandth off balance. */
  lemma ReportExactly(e: Engine, source: Address, resource: Symbol, supply: int, demand: int)
    requires ValidConfig(ConfigOf(e))
    ensures ObserveSupplyDemand(e, source, resource, supply, demand).Ok? <==>
            && e.admin == Some(source) && supply >= 0 && demand >= 0 && resource in e.states
            && (demand > 0 ==> supply * 1_000 <= I128_MAX)
    ensures ObserveSupplyDemand(e, source, resource, supply, demand).Ok? ==>
              var cap := ConfigOf(e).supplyDemandAdj;
              var nudge := if demand == 0 then 0 else Max(0 - cap, Min((supply * 1_000 / demand - 1_000) * 10, cap));
              ObserveSupplyDemand(e, source, resource, supply, demand).value ==
              e.(states := e.states[resource := e.states[resource].(supplyDemand := nudge)])
  {}

  // ----- the history --------------------------------------------------------------------------------------

  /** Every point a run has recorded for a resource: one for each print that was seeded or folded in. */
  function PointsOf(calls: seq<Call>, resource: Symbol): seq<PricePoint> {
    if calls == [] then []
    else
      var before, call := calls[..|calls| - 1], calls[|calls| - 1];
      var e, e' := Run(NEW_ENGINE, before), Run(NEW_ENGINE, calls);
      PointsOf(before, resource) + if Taken(e, call, resource) then [PointAfter(e', call, resource)] else []
  }

  predicate Taken(e: Engine, call: Call, resource: Symbol) {
    && call.op.PrintOp? && call.op.resource == resource && Apply(e, call).Ok?
    && (resource in e.states ==> DeviationBps(e.states[resource].sma, call.op.raw) <= ConfigOf(e).maxDeviation)
  }

  function PointAfter(e: Engine, call: Call, resource: Symbol): PricePoint {
    if resource in e.states && call.op.PrintOp? then
      var st := e.states[resource];
      PricePoint(st.sma, call.op.raw, PriceFromState(ConfigOf(e), st).published, st.volatility, call.now)
    else PricePoint(0, 0, 0, 0, 0)
  }

  /** The last `n` points, or all of them. */
  function Last(points: seq<PricePoint>, n: nat): seq<PricePoint> {
    points[|points| - Min(|points|, n)..]
  }

  lemma RecordHistory(e: Engine, resource: Symbol, st: PriceState, raw: int, now: nat, other: Symbol)
    ensures var e' := Record(e, resource, st, raw, now);
            && resource in e'.states && e'.states[resource] == st && ConfigOf(e') == ConfigOf(e)
            && HistoryOf(e', other) ==
               if other == resource then
                 var point := PointAfter(e', Call(PrintOp(Address(0), resource, raw), now), resource);
                 Last(HistoryOf(e, other) + [point], 24)
               else HistoryOf(e, other)
  {
    hide PriceFromState;
  }

  lemma OtherCallsKeepHistory(e: Engine, call: Call, resource: Symbol)
    requires !call.op.PrintOp?
    ensures HistoryOf(Step(e, call), resource) == HistoryOf(e, resource)
  {
    hide ClampNudge, ValidConfig;
  }

  lemma PrintHistory(e: Engine, call: Call, resource: Symbol)
    requires call.op.PrintOp?
    ensures HistoryOf(Step(e, call), resource) ==
            if Taken(e, call, resource)
            then Last(HistoryOf(e, resource) + [PointAfter(Step(e, call), call, resource)], 24)
            else HistoryOf(e, resource)
  {
    hide Record, DeviationBps, Accept, PriceFromState;
    var PrintOp(source, printed, raw) := call.op;
    RecordHistory(e, printed, Seeded(raw, call.now), raw, call.now, resource);
    if printed in e.states {
      RecordHistory(e, printed, Accept(ConfigOf(e), e.states[printed], raw, call.now), raw, call.now, resource);
    }
  }

  lemma StepHistory(e: Engine, call: Call, resource: Symbol)
    ensures HistoryOf(Step(e, call), resource) ==
            if Taken(e, call, resource)
            then Last(HistoryOf(e, resource) + [PointAfter(Step(e, call), call, resource)], 24)
            else HistoryOf(e, resource)
  {
    hide Step, HistoryOf, PointAfter, Last;
    if call.op.PrintOp? {
      PrintHistory(e, call, resource);
    } else {
      OtherCallsKeepHistory(e, call, resource);
    }
  }

  /** After every run the history is the last 24 points recorded, so the latest folded print is its last point. */
  lemma {:induction false} HistoryIsLatest(calls: seq<Call>, resource: Symbol)
    ensures HistoryOf(Run(NEW_ENGINE, calls), resource) == Last(PointsOf(calls, resource), 24)
  {
    hide Step, Taken, PointAfter;
    if calls != [] {
      var before, call := calls[..|calls| - 1], calls[|calls| - 1];
      HistoryIsLatest(before, resource);
      StepHistory(Run(NEW_ENGINE, before), call, resource);
    }
  }
}
