/**
 The price engine over whole runs of calls.
 */
module PricingRuns {
  import opened Host
  import opened Arith
  import opened PricingModel
  import opened PricingProofs

  datatype Op =
    | InitOp(admin: Address, config: PricingConfig)
    | SetOp(admin: Address, config: PricingConfig)
    | PrintOp(source: Address, resource: Symbol, raw: int)
    | BalanceOp(source: Address, resource: Symbol, supply: int, demand: int)

  datatype Call = Call(op: Op, now: nat)

  function Apply(e: Engine, call: Call): Result<Engine, PricingError> {
    match call.op
    case InitOp(admin, config) => InitConfig(e, admin, config)
    case SetOp(admin, config) => SetConfig(e, admin, config)
    case PrintOp(source, resource, raw) => Observe(e, source, resource, raw, call.now)
    case BalanceOp(source, resource, supply, demand) => ObserveSupplyDemand(e, source, resource, supply, demand)
  }

  /** A failed call is rolled back. */
  function Step(e: Engine, call: Call): Engine {
    match Apply(e, call)
    case Ok(next) => next
    case Err(_) => e
  }

  function Run(e: Engine, calls: seq<Call>): Engine {
    if calls == [] then e else Step(Run(e, calls[..|calls| - 1]), calls[|calls| - 1])
  }

  /** Prints are i128 values and the ledger clock never goes back. */
  ghost predicate Legal(calls: seq<Call>, from: nat) {
    && (forall i :: 0 <= i < |calls| && calls[i].op.PrintOp? ==> calls[i].op.raw <= I128_MAX)
    && (forall i :: 0 <= i < |calls| ==> from <= calls[i].now)
    && (forall i, j :: 0 <= i <= j < |calls| ==> calls[i].now <= calls[j].now)
  }

  function LastTime(calls: seq<Call>, from: nat): nat {
    if calls == [] then from else calls[|calls| - 1].now
  }

  // ----- what every reachable engine satisfies ----------------------------------------------

  predicate StateOk(st: PriceState, now: nat) {
    Price(st.sma) && st.lastUpdate <= now && st.volatility <= U32_MAX
  }

  /** A recorded point was published inside the widest band around its average. */
  predicate PointOk(p: PricePoint) {
    && Price(p.sma) && 1 <= p.published
    && Abs(p.published - p.sma) <= p.sma * MAX_VOLATILITY_BAND_BPS / BPS
  }

  ghost predicate HistoryOk(points: seq<PricePoint>) {
    |points| <= MAX_HISTORY_ENTRIES && forall i :: 0 <= i < |points| ==> PointOk(points[i])
  }

  ghost predicate EngineOk(e: Engine, now: nat) {
    && ValidConfig(ConfigOf(e))
    && (e.config.Some? ==> e.admin.Some?)
    && (forall r :: r in e.states ==> StateOk(e.states[r], now))
    && (forall r :: r in e.history ==> HistoryOk(e.history[r]))
  }

  lemma AcceptOk(config: PricingConfig, prior: PriceState, raw: int, now: nat)
    requires ValidConfig(config) && Price(prior.sma) && Price(raw)
    ensures StateOk(Accept(config, prior, raw, now), now)
  {
    hide EmaStep, EwmaBps, DeviationBps;
    EmaStepBetween(prior.sma, raw, config.smoothing);
  }

  lemma PointRecorded(config: PricingConfig, st: PriceState, raw: int, now: nat)
    requires ValidConfig(config) && Price(st.sma)
    ensures PointOk(PricePoint(st.sma, raw, PriceFromState(config, st).published, st.volatility, now))
  {
    hide PriceFromState, BandWidth;
    PublishedInBand(config, st);
    var band := PriceFromState(config, st).band;
    MulMono(st.sma, band, MAX_VOLATILITY_BAND_BPS);
    DivMono(st.sma * band, st.sma * MAX_VOLATILITY_BAND_BPS, BPS);
  }

  lemma RecordOk(e: Engine, resource: Symbol, st: PriceState, raw: int, now: nat)
    requires EngineOk(e, now) && StateOk(st, now)
    ensures EngineOk(Record(e, resource, st, raw, now), now)
  {
    hide PriceFromState, PointOk;
    PointRecorded(ConfigOf(e), st, raw, now);
  }

  lemma StepOk(e: Engine, call: Call, before: nat)
    requires EngineOk(e, before) && before <= call.now
    requires call.op.PrintOp? ==> call.op.raw <= I128_MAX
    ensures EngineOk(Step(e, call), call.now)
  {
    hide Record, Accept, InRange, PointOk;
    assert EngineOk(e, call.now);
    match call.op
    case PrintOp(source, resource, raw) =>
      if raw > 0 {
        RecordOk(e, resource, Seeded(raw, call.now), raw, call.now);
        if resource in e.states {
          AcceptOk(ConfigOf(e), e.states[resource], raw, call.now);
          RecordOk(e, resource, Accept(ConfigOf(e), e.states[resource], raw, call.now), raw, call.now);
        }
      }
    case _ =>
  }

  /** The invariant holds after every run. */
  lemma {:induction false} RunOk(e: Engine, calls: seq<Call>, from: nat)
    requires EngineOk(e, from) && Legal(calls, from)
    ensures EngineOk(Run(e, calls), LastTime(calls, from))
  {
    hide EngineOk, Step;
    if calls != [] {
      var before := calls[..|calls| - 1];
      RunOk(e, before, from);
      StepOk(Run(e, before), calls[|calls| - 1], LastTime(before, from));
    }
  }

  /** In every reachable state each price is at least 1 and inside the band around its average. */
  lemma ReachablePriceInBand(calls: seq<Call>, resource: Symbol)
    requires Legal(calls, 0) && resource in Run(NEW_ENGINE, calls).states
    ensures var e := Run(NEW_ENGINE, calls);
            var config, p := ConfigOf(e), PriceFromState(ConfigOf(e), e.states[resource]);
            var width := BandWidth(p.sma, p.band);
            && 1 <= p.sma && 1 <= p.published
            && config.baseBand <= p.band <= config.maxBand <= MAX_VOLATILITY_BAND_BPS
            && 0 <= width <= p.sma * p.band / BPS
            && p.sma - width <= p.published <= p.sma + width
  {
    RunOk(NEW_ENGINE, calls, 0);
    var e := Run(NEW_ENGINE, calls);
    hide Run, BandWidth, EffectiveBand, ClampToBand;
    PublishedInBand(ConfigOf(e), e.states[resource]);
  }

  // ----- under a fixed configuration -----------------------------------------------------------

  ghost predicate NoRetune(calls: seq<Call>) {
    forall i :: 0 <= i < |calls| ==> !calls[i].op.SetOp?
  }

  /** Whether this call folds a print of `resource` into its average. */
  predicate Accepts(e: Engine, call: Call, resource: Symbol) {
    && call.op.PrintOp? && call.op.resource == resource && resource in e.states
    && Apply(e, call).Ok? && InRange(ConfigOf(e), e.states[resource], call.op.raw)
  }

  function AcceptedCount(e: Engine, calls: seq<Call>, resource: Symbol): nat {
    if calls == [] then 0
    else
      var before, call := calls[..|calls| - 1], calls[|calls| - 1];
      AcceptedCount(e, before, resource) + if Accepts(Run(e, before), call, resource) then 1 else 0
  }

  /** What one call does to one resource: fold the print, note a rejection, move the nudge, or nothing. */
  lemma CallOnResource(e: Engine, call: Call, resource: Symbol)
    requires resource in e.states && e.admin.Some? && !call.op.SetOp?
    ensures var e' := Step(e, call);
            && resource in e'.states && e'.admin == e.admin && ConfigOf(e') == ConfigOf(e)
            && var st, st' := e.states[resource], e'.states[resource];
            if Accepts(e, call, resource)
            then
              && !CoolingDown(ConfigOf(e), st, call.now) && 0 < call.op.raw
              && st' == Accept(ConfigOf(e), st, call.op.raw, call.now)
            else st' == st || st' == Reject(st) || st' == st.(supplyDemand := st'.supplyDemand)
  {
    hide Accept, PriceFromState, InRange, ClampNudge;
  }

  /** A discarded print succeeds, leaves every price and every history as it was, and only counts the rejection. */
  lemma RejectedPrintHarmless(e: Engine, source: Address, resource: Symbol, raw: int, now: nat, other: Symbol)
    requires Observe(e, source, resource, raw, now).Ok? && resource in e.states
    requires !InRange(ConfigOf(e), e.states[resource], raw)
    ensures var e' := Observe(e, source, resource, raw, now).value;
            && e'.history == e.history && e'.states.Keys == e.states.Keys
            && e'.config == e.config && e'.admin == e.admin
            && (other in e.states ==>
                  PriceFromState(ConfigOf(e'), e'.states[other]) == PriceFromState(ConfigOf(e), e.states[other]))
            && (other in e.states && other != resource ==> e'.states[other] == e.states[other])
            && var st := e.states[resource];
            e'.states[resource] == st.(rejectedPrints := Min(st.rejectedPrints + 1, U32_MAX), rejectedLast := true)
  {
    hide InRange, EffectiveBand, ClampToBand;
  }

  lemma {:induction false} ConfigStays(e: Engine, calls: seq<Call>, resource: Symbol)
    requires resource in e.states && e.admin.Some? && NoRetune(calls)
    ensures var e' := Run(e, calls);
            resource in e'.states && e'.admin == e.admin && ConfigOf(e') == ConfigOf(e)
  {
    hide Step, ConfigOf;
    if calls != [] {
      var before := calls[..|calls| - 1];
      ConfigStays(e, before, resource);
      CallOnResource(Run(e, before), calls[|calls| - 1], resource);
    }
  }

  /** The configuration is in force, and the resource's volatility is within its deviation cap. */
  predicate Capped(e: Engine, resource: Symbol) {
    && ValidConfig(ConfigOf(e)) && (e.admin.None? ==> e.states == map[])
    && (resource in e.states ==> e.states[resource].volatility <= ConfigOf(e).maxDeviation)
  }

  /** Only a print starts a resource, and it starts without volatility. */
  lemma NewResourceSeeded(e: Engine, call: Call, resource: Symbol)
    requires resource !in e.states && resource in Step(e, call).states
    ensures call.op.PrintOp? && Step(e, call).states[resource] == Seeded(call.op.raw, call.now)
  {
    hide PriceFromState, InRange, Accept, ClampNudge;
  }

  lemma NothingWithoutAdmin(e: Engine, call: Call)
    requires e.admin.None? && ValidConfig(ConfigOf(e))
    ensures Step(e, call).states == e.states && ValidConfig(ConfigOf(Step(e, call)))
  {
    hide Record, InRange, Accept, ClampNudge, ValidConfig;
  }

  lemma StepKeepsConfig(e: Engine, call: Call)
    requires e.admin.Some? && !call.op.SetOp?
    ensures ConfigOf(Step(e, call)) == ConfigOf(e) && Step(e, call).admin == e.admin
  {
    hide PriceFromState, InRange, Accept, ClampNudge;
  }

  lemma StepCapped(e: Engine, call: Call, resource: Symbol)
    requires Capped(e, resource) && !call.op.SetOp?
    ensures Capped(Step(e, call), resource)
  {
    hide Step, ConfigOf, DeviationBps, EwmaBps, EmaStep, Accepts;
    var e' := Step(e, call);
    if e.admin.None? {
      NothingWithoutAdmin(e, call);
    } else {
      StepKeepsConfig(e, call);
      if resource in e.states {
        CallOnResource(e, call, resource);
        if Accepts(e, call, resource) {
          AcceptsInRange(e, call, resource);
          AcceptsPrint(e, call, resource);
          EwmaBetween(e.states[resource].volatility, DeviationBps(e.states[resource].sma, call.op.raw),
                      ConfigOf(e).smoothing);
        }
      } else if resource in e'.states {
        NewResourceSeeded(e, call, resource);
      }
    }
  }

  lemma {:induction false} StaysCapped(e: Engine, calls: seq<Call>, resource: Symbol)
    requires Capped(e, resource) && NoRetune(calls)
    ensures Capped(Run(e, calls), resource)
  {
    hide Step, Capped;
    if calls != [] {
      var before := calls[..|calls| - 1];
      StaysCapped(e, before, resource);
      StepCapped(Run(e, before), calls[|calls| - 1], resource);
    }
  }

  /** While the configuration is not changed, realised volatility never exceeds the deviation cap. */
  lemma VolatilityCapped(calls: seq<Call>, resource: Symbol)
    requires NoRetune(calls) && resource in Run(NEW_ENGINE, calls).states
    ensures var e := Run(NEW_ENGINE, calls);
            e.states[resource].volatility <= ConfigOf(e).maxDeviation
  {
    StaysCapped(NEW_ENGINE, calls, resource);
  }

  lemma AcceptsInRange(e: Engine, call: Call, resource: Symbol)
    requires Accepts(e, call, resource)
    ensures DeviationBps(e.states[resource].sma, call.op.raw) <= ConfigOf(e).maxDeviation
  {}

  ghost predicate PrintsAtMost(calls: seq<Call>, resource: Symbol, cap: int) {
    forall i :: 0 <= i < |calls| && calls[i].op.PrintOp? && calls[i].op.resource == resource ==> calls[i].op.raw <= cap
  }

  /** A resource after `n` accepted prints, against where it started. */
  ghost predicate Grown(config: PricingConfig, from: PriceState, n: nat, to: PriceState) {
    && 1 <= to.sma <= I128_MAX / BPS
    && to.sma as real <= (from.sma + n) as real * Pow(1.0 + Rate(config), n)
  }

  lemma GrownByOne(config: PricingConfig, from: PriceState, n: nat, st: PriceState, raw: int, now: nat)
    requires ValidConfig(config) && 1 <= from.sma && 1 <= raw <= I128_MAX / BPS && Grown(config, from, n, st)
    requires DeviationBps(st.sma, raw) <= config.maxDeviation
    ensures Grown(config, from, n + 1, Accept(config, st, raw, now))
  {
    hide EmaStep, DeviationBps, EwmaBps, Pow, Rate, ValidConfig;
    assert 0 < config.smoothing <= BPS by { SmoothingRange(config); }
    EmaStepBetween(st.sma, raw, config.smoothing);
    StepGrowth(config, st.sma, raw);
    CompoundStep(config, from.sma, n, st.sma, EmaStep(st.sma, raw, config.smoothing));
  }

  lemma SmoothingRange(config: PricingConfig)
    requires ValidConfig(config)
    ensures 0 < config.smoothing <= BPS
  {}

  lemma NothingAccepted(config: PricingConfig, from: PriceState)
    requires 1 <= from.sma <= I128_MAX / BPS
    ensures Grown(config, from, 0, from)
  {}

  /**
   Compound price bound: after n accepted prints the average is at most (s0 + n) * (1 + r)^n with
   r = (maxDeviation + 1) * smoothing / 10^8. Rejected prints, prints of other resources,
   supply/demand reports and failed calls in between do not matter.
   */
  lemma {:induction false} CompoundBound(e: Engine, calls: seq<Call>, resource: Symbol, from: nat)
    requires EngineOk(e, from) && Legal(calls, from) && NoRetune(calls)
    requires resource in e.states && e.admin.Some? && e.states[resource].sma <= I128_MAX / BPS
    requires PrintsAtMost(calls, resource, I128_MAX / BPS)
    ensures resource in Run(e, calls).states
    ensures Grown(ConfigOf(e), e.states[resource], AcceptedCount(e, calls, resource), Run(e, calls).states[resource])
  {
    hide Step, ConfigOf, DeviationBps, Accept, Accepts, Grown, CoolingDown, ValidConfig;
    var config, st0 := ConfigOf(e), e.states[resource];
    if calls == [] {
      NothingAccepted(config, st0);
    } else {
      var before, call := calls[..|calls| - 1], calls[|calls| - 1];
      CompoundBound(e, before, resource, from);
      ConfigStays(e, before, resource);
      RunOk(e, before, from);
      var mid, n := Run(e, before), AcceptedCount(e, before, resource);
      CallOnResource(mid, call, resource);
      if Accepts(mid, call, resource) {
        AcceptsInRange(mid, call, resource);
        AcceptsPrint(mid, call, resource);
        GrownByOne(config, st0, n, mid.states[resource], call.op.raw, call.now);
      } else {
        GrownIgnoresRejections(config, st0, n, mid.states[resource], Run(e, calls).states[resource]);
      }
    }
  }

  lemma AcceptsPrint(e: Engine, call: Call, resource: Symbol)
    requires Accepts(e, call, resource)
    ensures call.op.PrintOp? && call.op.resource == resource
  {}

  lemma GrownIgnoresRejections(config: PricingConfig, from: PriceState, n: nat, a: PriceState, b: PriceState)
    requires Grown(config, from, n, a) && (b == a || b == Reject(a) || b == a.(supplyDemand := b.supplyDemand))
    ensures Grown(config, from, n, b)
  {}

  /** Every accepted print, whatever its size, has waited out its cooldown. */
  lemma {:induction false} CooldownsPassed(e: Engine, calls: seq<Call>, resource: Symbol, from: nat)
    requires EngineOk(e, from) && Legal(calls, from) && NoRetune(calls)
    requires resource in e.states && e.admin.Some?
    ensures resource in Run(e, calls).states
    ensures e.states[resource].lastUpdate + AcceptedCount(e, calls, resource) * ConfigOf(e).minCooldown
         <= Run(e, calls).states[resource].lastUpdate
  {
    hide Step, ConfigOf, Accept, Accepts, CoolingDown, ValidConfig;
    if calls != [] {
      var before, call := calls[..|calls| - 1], calls[|calls| - 1];
      CooldownsPassed(e, before, resource, from);
      ConfigStays(e, before, resource);
      RunOk(e, before, from);
      var mid := Run(e, before);
      CallOnResource(mid, call, resource);
      if Accepts(mid, call, resource) {
        AcceptsPrint(mid, call, resource);
        assert mid.states[resource].lastUpdate <= call.now;
        WaitedOut(ConfigOf(e), e.states[resource].lastUpdate, AcceptedCount(e, before, resource),
                  mid.states[resource], call.op.raw, call.now);
      }
    }
  }

  lemma WaitedOut(config: PricingConfig, start: nat, n: nat, st: PriceState, raw: int, now: nat)
    requires start + n * config.minCooldown <= st.lastUpdate <= now && !CoolingDown(config, st, now)
    ensures start + (n + 1) * config.minCooldown <= Accept(config, st, raw, now).lastUpdate
  {
    hide EmaStep, DeviationBps, EwmaBps;
    assert (n + 1) * config.minCooldown == n * config.minCooldown + config.minCooldown;
  }

  /** For a positive cooldown the number of accepted prints is bounded by the time that passed. */
  lemma AcceptedAtMostElapsed(e: Engine, calls: seq<Call>, resource: Symbol, from: nat)
    requires EngineOk(e, from) && Legal(calls, from) && NoRetune(calls)
    requires resource in e.states && e.admin.Some? && ConfigOf(e).minCooldown > 0
    ensures AcceptedCount(e, calls, resource) <=
            (LastTime(calls, from) - e.states[resource].lastUpdate) / ConfigOf(e).minCooldown
  {
    hide Run, AcceptedCount, ConfigOf, ValidConfig;
    CooldownsPassed(e, calls, resource, from);
    RunOk(e, calls, from);
    DivGreatest(LastTime(calls, from) - e.states[resource].lastUpdate, ConfigOf(e).minCooldown,
                AcceptedCount(e, calls, resource));
  }

  // ----- a repeated print ------------------------------------------------------------------------

  /** The same print again and again, each time after the cooldown. */
  ghost predicate Repeats(e: Engine, calls: seq<Call>, resource: Symbol, raw: int)
    requires resource in e.states && e.admin.Some?
  {
    && (forall i :: 0 <= i < |calls| ==> calls[i].op == PrintOp(e.admin.value, resource, raw))
    && (forall i :: 0 <= i < |calls| ==> Spaced(calls, i, e.states[resource].lastUpdate, ConfigOf(e).minCooldown))
  }

  predicate Spaced(calls: seq<Call>, i: int, start: nat, gap: nat)
    requires 0 <= i < |calls|
  {
    calls[i].now >= gap + if i == 0 then start else calls[i - 1].now
  }

  /** The averages the first `k` repetitions meet all accept the print. */
  ghost predicate AcceptedFor(config: PricingConfig, sma: int, raw: int, k: nat) {
    forall n: nat :: n < k ==> DeviationBps(EmaIter(sma, raw, config.smoothing, n), raw) <= config.maxDeviation
  }

  /** Every print so far was accepted, so the average followed the averaging step. */
  ghost predicate Followed(e: Engine, calls: seq<Call>, resource: Symbol, raw: int)
    requires resource in e.states
  {
    var e' := Run(e, calls);
    && resource in e'.states && e'.admin == e.admin && ConfigOf(e') == ConfigOf(e)
    && var st, st' := e.states[resource], e'.states[resource];
    && st'.sma == EmaIter(st.sma, raw, ConfigOf(e).smoothing, |calls|) && Price(st'.sma)
    && st'.rejectedPrints == st.rejectedPrints
    && st'.lastUpdate == (if calls == [] then st.lastUpdate else calls[|calls| - 1].now)
  }

  lemma RepeatsShorter(e: Engine, calls: seq<Call>, resource: Symbol, raw: int)
    requires resource in e.states && e.admin.Some? && calls != [] && Repeats(e, calls, resource, raw)
    ensures Repeats(e, calls[..|calls| - 1], resource, raw)
  {
    var before, start, gap := calls[..|calls| - 1], e.states[resource].lastUpdate, ConfigOf(e).minCooldown;
    forall i | 0 <= i < |before| ensures Spaced(before, i, start, gap) {
      assert Spaced(calls, i, start, gap);
    }
  }

  /** The repetitions are all accepted exactly when the averages they meet accept them. */
  lemma {:induction false} RepeatsFollow(e: Engine, calls: seq<Call>, resource: Symbol, raw: int)
    requires resource in e.states && e.admin.Some? && ValidConfig(ConfigOf(e))
    requires Price(raw) && Price(e.states[resource].sma) && Repeats(e, calls, resource, raw)
    ensures AcceptedCount(e, calls, resource) <= |calls|
    ensures AcceptedCount(e, calls, resource) == |calls| <==>
            AcceptedFor(ConfigOf(e), e.states[resource].sma, raw, |calls|)
    ensures AcceptedCount(e, calls, resource) == |calls| ==> Followed(e, calls, resource, raw)
  {
    hide Step, ConfigOf, EmaStep, EwmaBps, DeviationBps, EmaIter, Accepts, ValidConfig;
    var config, st := ConfigOf(e), e.states[resource];
    SmoothingRange(config);
    if calls == [] {
      EmaIterNone(st.sma, raw, config.smoothing);
    } else {
      var before, call := calls[..|calls| - 1], calls[|calls| - 1];
      RepeatsShorter(e, calls, resource, raw);
      RepeatsFollow(e, before, resource, raw);
      if AcceptedCount(e, before, resource) == |before| {
        assert Spaced(calls, |before|, st.lastUpdate, config.minCooldown);
        var mid := Run(e, before);
        RepeatAccepted(mid, call, resource, raw);
        EmaStepBetween(mid.states[resource].sma, raw, config.smoothing);
        EmaIterLast(st.sma, raw, config.smoothing, |before|);
        AcceptedOneMore(config, st.sma, raw, |before|);
      }
    }
  }

  lemma AcceptedOneMore(config: PricingConfig, sma: int, raw: int, k: nat)
    requires AcceptedFor(config, sma, raw, k)
    ensures AcceptedFor(config, sma, raw, k + 1) <==>
            DeviationBps(EmaIter(sma, raw, config.smoothing, k), raw) <= config.maxDeviation
  {
    hide DeviationBps, EmaIter;
  }

  /**
   A print that is safe along the way is accepted every time it is repeated, the average follows the
   averaging step, and it equals the print once the prints outnumber the initial gap.
   */
  lemma RepeatedPrintConverges(e: Engine, calls: seq<Call>, resource: Symbol, raw: int)
    requires resource in e.states && e.admin.Some? && ValidConfig(ConfigOf(e))
    requires Price(raw) && Price(e.states[resource].sma) && Repeats(e, calls, resource, raw)
    requires SafeAlong(ConfigOf(e).maxDeviation, e.states[resource].sma, raw, ConfigOf(e).smoothing)
    ensures AcceptedCount(e, calls, resource) == |calls| && Followed(e, calls, resource, raw)
    ensures |calls| >= Abs(raw - e.states[resource].sma) ==> Run(e, calls).states[resource].sma == raw
  {
    hide Run, ConfigOf, EmaIter, DeviationBps, SafeAlong, ValidConfig, Repeats;
    var config, sma := ConfigOf(e), e.states[resource].sma;
    SmoothingRange(config);
    forall n: nat | n < |calls|
      ensures DeviationBps(EmaIter(sma, raw, config.smoothing, n), raw) <= config.maxDeviation
    {
      SafeAlongSuffices(config.maxDeviation, sma, raw, config.smoothing, n);
    }
    RepeatsFollow(e, calls, resource, raw);
    if |calls| >= Abs(raw - sma) {
      EmaReachesPrint(sma, raw, config.smoothing, |calls|);
    }
  }

  /** A print repeated as often as its initial gap is accepted every time exactly when it is safe along the way. */
  lemma RepeatsAcceptedExactly(e: Engine, calls: seq<Call>, resource: Symbol, raw: int)
    requires resource in e.states && e.admin.Some? && ValidConfig(ConfigOf(e))
    requires Price(raw) && Price(e.states[resource].sma) && Repeats(e, calls, resource, raw)
    requires |calls| >= Abs(raw - e.states[resource].sma)
    ensures AcceptedCount(e, calls, resource) == |calls| <==>
            SafeAlong(ConfigOf(e).maxDeviation, e.states[resource].sma, raw, ConfigOf(e).smoothing)
  {
    hide Run, ConfigOf, EmaIter, DeviationBps, SafeAlong, ValidConfig, Repeats, AcceptedCount, Followed;
    var config, sma := ConfigOf(e), e.states[resource].sma;
    SmoothingRange(config);
    RepeatsFollow(e, calls, resource, raw);
    SafeAlongExactly(config.maxDeviation, sma, raw, config.smoothing);
    forall n: nat | n >= |calls|
      ensures DeviationBps(EmaIter(sma, raw, config.smoothing, n), raw) <= config.maxDeviation
    {
      EmaReachesPrint(sma, raw, config.smoothing, n);
      DeviationOf(raw, raw);
    }
  }

  /** A print after its cooldown is folded in exactly when it is in range. */
  lemma RepeatAccepted(e: Engine, call: Call, resource: Symbol, raw: int)
    requires resource in e.states && e.admin.Some? && Price(raw)
    requires call.op == PrintOp(e.admin.value, resource, raw)
    requires call.now >= e.states[resource].lastUpdate + ConfigOf(e).minCooldown
    ensures Apply(e, call).Ok?
    ensures Accepts(e, call, resource) <==> InRange(ConfigOf(e), e.states[resource], raw)
    ensures InRange(ConfigOf(e), e.states[resource], raw) ==>
              var e' := Step(e, call);
              && resource in e'.states && e'.admin == e.admin && ConfigOf(e') == ConfigOf(e)
              && e'.states[resource] == Accept(ConfigOf(e), e.states[resource], raw, call.now)
    ensures !InRange(ConfigOf(e), e.states[resource], raw) ==>
              Step(e, call) == e.(states := e.states[resource := Reject(e.states[resource])])
  {
    hide InRange, Accept, PriceFromState;
  }

  lemma EmaIterNone(sma: int, raw: int, alpha: nat)
    ensures EmaIter(sma, raw, alpha, 0) == sma
  {}

  lemma {:induction false} EmaIterLast(sma: int, raw: int, alpha: nat, n: nat)
    ensures EmaIter(sma, raw, alpha, n + 1) == EmaStep(EmaIter(sma, raw, alpha, n), raw, alpha)
    decreases n
  {
    hide EmaStep;
    if n > 0 {
      EmaIterLast(EmaStep(sma, raw, alpha), raw, alpha, n - 1);
    }
  }

  // ----- a repeated print that is rejected ---------------------------------------------------------

  const HALF: int := I128_MAX / 2 + 2
  const TIGHT := DEFAULT_CONFIG.(smoothing := 5_000, maxDeviation := 1)

  lemma RunOneMore(e: Engine, calls: seq<Call>, call: Call)
    ensures Run(e, calls + [call]) == Step(Run(e, calls), call)
  {
    assert (calls + [call])[..|calls|] == calls;
  }

  lemma TightNumbers()
    ensures ValidConfig(TIGHT) && Price(HALF) && DeviationBps(HALF, 1) == 1
    ensures DeviationBps(EmaStep(HALF, 1, 5_000), 1) == 2
  {
    assert EmaStep(HALF, 1, 5_000) == HALF - I128_MAX / 10_000;
  }

  /** An engine set up with the tight configuration and seeded with the high price. */
  lemma TightSeeded(boss: Address, resource: Symbol)
    ensures var calls := [Call(InitOp(boss, TIGHT), 0), Call(PrintOp(boss, resource, HALF), 0)];
            var e := Run(NEW_ENGINE, calls);
            && e.admin == Some(boss) && ConfigOf(e) == TIGHT
            && resource in e.states && e.states[resource] == Seeded(HALF, 0)
  {
    hide PriceFromState, DeviationBps, EmaStep;
    TightNumbers();
    var first, second := Call(InitOp(boss, TIGHT), 0), Call(PrintOp(boss, resource, HALF), 0);
    RunOneMore(NEW_ENGINE, [], first);
    assert [] + [first] == [first];
    RunOneMore(NEW_ENGINE, [first], second);
    assert [first] + [second] == [first, second];
  }

  /**
   Acceptance alone is not enough, because the deviation guard itself saturates: in this run a print is
   accepted and, repeated after the cooldown, rejected.
   */
  lemma SaturatedRepeatRejected() returns (calls: seq<Call>, resource: Symbol)
    ensures Legal(calls, 0) && |calls| == 4 && calls[3].op == calls[2].op && calls[3].op.PrintOp?
    ensures Accepts(Run(NEW_ENGINE, calls[..2]), calls[2], resource)
    ensures Apply(Run(NEW_ENGINE, calls[..3]), calls[3]).Ok? &&
            !Accepts(Run(NEW_ENGINE, calls[..3]), calls[3], resource)
    ensures resource in Run(NEW_ENGINE, calls).states && Run(NEW_ENGINE, calls).states[resource].rejectedPrints == 1
  {
    hide Run, Step, DeviationBps, EmaStep, Apply;
    var boss := Address(0);
    resource := Symbol("ore");
    var seeded := [Call(InitOp(boss, TIGHT), 0), Call(PrintOp(boss, resource, HALF), 0)];
    var first, again := Call(PrintOp(boss, resource, 1), 60), Call(PrintOp(boss, resource, 1), 120);
    calls := seeded + [first] + [again];
    assert calls[..2] == seeded && calls[..3] == seeded + [first];
    TightSeeded(boss, resource);
    TightNumbers();
    RunOneMore(NEW_ENGINE, seeded, first);
    RepeatAccepted(Run(NEW_ENGINE, seeded), first, resource, 1);
    RunOneMore(NEW_ENGINE, seeded + [first], again);
    RepeatAccepted(Run(NEW_ENGINE, seeded + [first]), again, resource, 1);
  }
}
