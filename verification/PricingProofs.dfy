/**
 Bounds of the price arithmetic, for every price an i128 can hold unless a clause says otherwise.
 */
module PricingProofs {
  import opened Host
  import opened Arith
  import opened PricingModel

  predicate Price(p: int) {
    1 <= p <= I128_MAX
  }

  // ----- one averaging step ----------------------------------------------------------

  /** The scaled gap is no larger than the gap's share, even where the product saturates. */
  lemma ScaledGap(gap: nat, alpha: nat)
    requires gap <= I128_MAX && alpha <= BPS
    ensures 0 <= TruncDiv(SatI128(gap * alpha), BPS) <= gap * alpha / BPS <= gap
    ensures -(gap * alpha / BPS) <= TruncDiv(SatI128(-(gap * alpha)), BPS) <= 0
    ensures gap * BPS <= I128_MAX ==> TruncDiv(SatI128(gap * alpha), BPS) == gap * alpha / BPS
    ensures gap * BPS <= I128_MAX ==> TruncDiv(SatI128(-(gap * alpha)), BPS) == -(gap * alpha / BPS)
  {
    MulMono(gap, 0, alpha);
    MulMono(gap, alpha, BPS);
    var p := gap * alpha;
    DivMono(p, gap * BPS, BPS);
    if p > I128_MAX {
      DivMono(I128_MAX, p, BPS);
      DivMono(-I128_MIN, p, BPS);
    }
  }

  /** How far one step moves: toward the print, never past it, and by at most the smoothing share or one unit. */
  lemma EmaStepBetween(sma: int, raw: int, alpha: nat)
    requires Price(sma) && Price(raw) && 0 < alpha <= BPS
    ensures var next := EmaStep(sma, raw, alpha);
            && Price(next)
            && (sma < raw ==> sma < next <= raw)
            && (raw < sma ==> raw <= next < sma)
            && (raw == sma ==> next == sma)
            && Abs(next - sma) <= Max(1, Abs(raw - sma) * alpha / BPS)
  {
    hide TruncDiv;
    var gap := Abs(raw - sma);
    ScaledGap(gap, alpha);
    if raw < sma {
      assert (raw - sma) * alpha == -(gap * alpha);
    }
  }

  /** The gap to a repeated print strictly shrinks until it is closed. */
  lemma EmaStepCloser(sma: int, raw: int, alpha: nat)
    requires Price(sma) && Price(raw) && 0 < alpha <= BPS && sma != raw
    ensures Abs(raw - EmaStep(sma, raw, alpha)) < Abs(raw - sma)
  {
    hide EmaStep;
    EmaStepBetween(sma, raw, alpha);
  }

  function EmaIter(sma: int, raw: int, alpha: nat, n: nat): int
    decreases n
  {
    if n == 0 then sma else EmaIter(EmaStep(sma, raw, alpha), raw, alpha, n - 1)
  }

  /** A repeated print is reached after at most as many steps as the initial gap, and then kept. */
  lemma {:induction false} EmaReachesPrint(sma: int, raw: int, alpha: nat, n: nat)
    requires Price(sma) && Price(raw) && 0 < alpha <= BPS && n >= Abs(raw - sma)
    ensures EmaIter(sma, raw, alpha, n) == raw
    decreases n
  {
    hide EmaStep;
    if n > 0 {
      EmaStepBetween(sma, raw, alpha);
      if sma != raw {
        EmaStepCloser(sma, raw, alpha);
      }
      EmaReachesPrint(EmaStep(sma, raw, alpha), raw, alpha, n - 1);
    }
  }

  // ----- deviation ---------------------------------------------------------------------

  lemma DivCross(a: nat, b: nat, c: nat, d: nat)
    requires b > 0 && d > 0 && a * d <= c * b
    ensures a / b <= c / d
  {
    var q := a / b;
    DivGreatest(a, b, q);
    MulMono(d, q * b, a);
    assert q * d * b == q * b * d && (c + 1) * b == c * b + b;
    if q * d > c {
      MulMono(b, c + 1, q * d);
    }
    DivGreatest(c, d, q);
  }

  lemma DeviationOf(sma: int, raw: int)
    requires Price(sma) && Price(raw)
    ensures DeviationBps(sma, raw) == Min(Min(Abs(raw - sma) * BPS, I128_MAX) / sma, U32_MAX)
  {}

  /** Prints above the average, and prints below it whose scaled gap fits an i128. */
  predicate Unsaturated(sma: int, raw: int) {
    sma <= raw || (sma - raw) * BPS <= I128_MAX
  }

  /** An average closer to the print deviates no more from it. */
  lemma DeviationShrinks(sma: int, mid: int, raw: int)
    requires Price(sma) && Price(mid) && Price(raw)
    requires sma <= mid <= raw || raw <= mid <= sma
    requires Unsaturated(sma, raw)
    ensures DeviationBps(mid, raw) <= DeviationBps(sma, raw)
  {
    hide DeviationBps;
    DeviationOf(sma, raw);
    DeviationOf(mid, raw);
    var near, far := Min(Abs(raw - mid) * BPS, I128_MAX), Min(Abs(raw - sma) * BPS, I128_MAX);
    assert near * sma <= far * mid by {
      if sma <= mid {
        MulMono(sma, near, far);
        MulMono(far, sma, mid);
      } else {
        MulMono(raw * BPS, mid, sma);
        assert near * sma == mid * sma * BPS - raw * BPS * sma;
        assert far * mid == sma * mid * BPS - raw * BPS * mid;
      }
    }
    DivCross(near, mid, far, sma);
  }

  /** The largest gap the guard can scale to basis points without saturating. */
  const REACH: int := I128_MAX / BPS

  /**
   The guard is tightest where a gap below the average stops saturating; a print is safe to repeat when
   the averages on both sides of that point would accept it too.
   */
  predicate SafeToRepeat(config: PricingConfig, sma: int, raw: int) {
    && DeviationBps(sma, raw) <= config.maxDeviation
    && (sma <= raw || (&& DeviationBps(Min(sma, raw + REACH), raw) <= config.maxDeviation
                       && DeviationBps(Min(sma, raw + REACH + 1), raw) <= config.maxDeviation))
  }

  predicate Between(sma: int, mid: int, raw: int) {
    sma <= mid <= raw || raw <= mid <= sma
  }

  lemma SafeThroughout(config: PricingConfig, sma: int, mid: int, raw: int)
    requires Price(sma) && Price(raw) && Between(sma, mid, raw) && SafeToRepeat(config, sma, raw)
    ensures DeviationBps(mid, raw) <= config.maxDeviation
  {
    hide DeviationBps;
    if sma <= raw || sma <= raw + REACH {
      DeviationShrinks(sma, mid, raw);
    } else if mid <= raw + REACH {
      DeviationShrinks(raw + REACH, mid, raw);
    } else {
      DeviationOf(mid, raw);
      DeviationOf(raw + REACH + 1, raw);
      DivCross(I128_MAX, mid, I128_MAX, raw + REACH + 1);
    }
  }

  /** A print is safe to repeat exactly when every average on the way to it accepts it. */
  lemma SafeToRepeatExactly(config: PricingConfig, sma: int, raw: int)
    requires Price(sma) && Price(raw)
    ensures SafeToRepeat(config, sma, raw)
       <==> forall mid :: Between(sma, mid, raw) ==> DeviationBps(mid, raw) <= config.maxDeviation
  {
    hide DeviationBps;
    if SafeToRepeat(config, sma, raw) {
      forall mid | Between(sma, mid, raw) ensures DeviationBps(mid, raw) <= config.maxDeviation {
        SafeThroughout(config, sma, mid, raw);
      }
    }
    assert Between(sma, sma, raw);
    assert sma > raw ==> Between(sma, Min(sma, raw + REACH), raw) && Between(sma, Min(sma, raw + REACH + 1), raw);
  }

  /** Below saturation acceptance alone makes a print safe to repeat. */
  lemma UnsaturatedIsSafe(config: PricingConfig, sma: int, raw: int)
    requires Price(sma) && Price(raw) && Unsaturated(sma, raw) && DeviationBps(sma, raw) <= config.maxDeviation
    ensures SafeToRepeat(config, sma, raw)
  {
    hide DeviationBps;
    assert sma > raw ==> sma <= raw + REACH;
  }

  /**
   Repeating a print walks the average down to it. The guard is tightest where the gap stops saturating,
   so it is asked at the last average before that point and at the first one after it.
   */
  predicate SafeAlong(cap: nat, sma: int, raw: int, alpha: nat)
    requires Price(sma) && Price(raw) && 0 < alpha <= BPS
    decreases Abs(sma - raw)
  {
    if sma <= raw + REACH then DeviationBps(sma, raw) <= cap
    else
      EmaStepBetween(sma, raw, alpha);
      var next := EmaStep(sma, raw, alpha);
      if next <= raw + REACH then DeviationBps(sma, raw) <= cap && DeviationBps(next, raw) <= cap
      else SafeAlong(cap, next, raw, alpha)
  }

  /** While the gap saturates, the guard tightens as the average falls. */
  lemma SaturatedDeviationGrows(sma: int, mid: int, raw: int)
    requires Price(sma) && Price(raw) && raw + REACH < mid <= sma
    ensures DeviationBps(sma, raw) <= DeviationBps(mid, raw)
  {
    hide DeviationBps;
    DeviationOf(sma, raw);
    DeviationOf(mid, raw);
    DivCross(I128_MAX, sma, I128_MAX, mid);
  }

  lemma {:induction false} SafeAlongAccepts(cap: nat, sma: int, raw: int, alpha: nat)
    requires Price(sma) && Price(raw) && 0 < alpha <= BPS && SafeAlong(cap, sma, raw, alpha)
    ensures DeviationBps(sma, raw) <= cap
    decreases Abs(sma - raw)
  {
    hide EmaStep, DeviationBps;
    EmaStepBetween(sma, raw, alpha);
    var next := EmaStep(sma, raw, alpha);
    if next > raw + REACH && sma > raw {
      SafeAlongAccepts(cap, next, raw, alpha);
      SaturatedDeviationGrows(sma, next, raw);
    }
  }

  lemma SafeAlongSteps(cap: nat, sma: int, raw: int, alpha: nat)
    requires Price(sma) && Price(raw) && 0 < alpha <= BPS && SafeAlong(cap, sma, raw, alpha)
    ensures Price(EmaStep(sma, raw, alpha)) && SafeAlong(cap, EmaStep(sma, raw, alpha), raw, alpha)
  {
    hide EmaStep, DeviationBps;
    EmaStepBetween(sma, raw, alpha);
    if sma <= raw + REACH {
      DeviationShrinks(sma, EmaStep(sma, raw, alpha), raw);
    }
  }

  ghost predicate AcceptedThroughout(cap: nat, sma: int, raw: int, alpha: nat) {
    forall n: nat :: DeviationBps(EmaIter(sma, raw, alpha, n), raw) <= cap
  }

  lemma {:induction false} SafeAlongSuffices(cap: nat, sma: int, raw: int, alpha: nat, n: nat)
    requires Price(sma) && Price(raw) && 0 < alpha <= BPS && SafeAlong(cap, sma, raw, alpha)
    ensures DeviationBps(EmaIter(sma, raw, alpha, n), raw) <= cap
    decreases n
  {
    hide EmaStep, DeviationBps, SafeAlong;
    if n == 0 {
      SafeAlongAccepts(cap, sma, raw, alpha);
    } else {
      SafeAlongSteps(cap, sma, raw, alpha);
      SafeAlongSuffices(cap, EmaStep(sma, raw, alpha), raw, alpha, n - 1);
    }
  }

  lemma {:induction false} SafeAlongNeeded(cap: nat, sma: int, raw: int, alpha: nat)
    requires Price(sma) && Price(raw) && 0 < alpha <= BPS && AcceptedThroughout(cap, sma, raw, alpha)
    ensures SafeAlong(cap, sma, raw, alpha)
    decreases Abs(sma - raw)
  {
    hide EmaStep, DeviationBps;
    EmaStepBetween(sma, raw, alpha);
    var next := EmaStep(sma, raw, alpha);
    assert EmaIter(sma, raw, alpha, 0) == sma;
    forall n: nat ensures DeviationBps(EmaIter(next, raw, alpha, n), raw) <= cap {
      assert EmaIter(next, raw, alpha, n) == EmaIter(sma, raw, alpha, n + 1);
    }
    assert EmaIter(next, raw, alpha, 0) == next;
    if next > raw + REACH && sma > raw {
      SafeAlongNeeded(cap, next, raw, alpha);
    }
  }

  /** A repeated print is accepted at every average it leads through exactly when it is safe along the way. */
  lemma SafeAlongExactly(cap: nat, sma: int, raw: int, alpha: nat)
    requires Price(sma) && Price(raw) && 0 < alpha <= BPS
    ensures AcceptedThroughout(cap, sma, raw, alpha) <==> SafeAlong(cap, sma, raw, alpha)
  {
    hide EmaStep, DeviationBps, SafeAlong, EmaIter;
    if SafeAlong(cap, sma, raw, alpha) {
      forall n: nat ensures DeviationBps(EmaIter(sma, raw, alpha, n), raw) <= cap {
        SafeAlongSuffices(cap, sma, raw, alpha, n);
      }
    }
    if AcceptedThroughout(cap, sma, raw, alpha) {
      SafeAlongNeeded(cap, sma, raw, alpha);
    }
  }

  /** The test that needs no walk is sufficient for every smoothing. */
  lemma {:induction false} SafeToRepeatIsSafeAlong(config: PricingConfig, sma: int, raw: int, alpha: nat)
    requires Price(sma) && Price(raw) && 0 < alpha <= BPS && SafeToRepeat(config, sma, raw)
    ensures SafeAlong(config.maxDeviation, sma, raw, alpha)
    decreases Abs(sma - raw)
  {
    hide EmaStep, DeviationBps, SafeToRepeat;
    EmaStepBetween(sma, raw, alpha);
    var next := EmaStep(sma, raw, alpha);
    SafeThroughout(config, sma, sma, raw);
    SafeThroughout(config, sma, next, raw);
    if next > raw + REACH && sma > raw {
      SafeToRepeatExactly(config, sma, raw);
      SafeToRepeatExactly(config, next, raw);
      assert forall mid :: Between(next, mid, raw) ==> Between(sma, mid, raw);
      SafeToRepeatIsSafeAlong(config, next, raw, alpha);
    }
  }

  /** A print that is safe along the way stays accepted and safe after it moved the average. */
  lemma RepeatStaysAcceptable(config: PricingConfig, prior: PriceState, raw: int, now: nat)
    requires ValidConfig(config) && Price(prior.sma) && Price(raw)
    requires SafeAlong(config.maxDeviation, prior.sma, raw, config.smoothing)
    ensures InRange(config, prior, raw)
    ensures var next := Accept(config, prior, raw, now);
            && Price(next.sma) && InRange(config, next, raw)
            && SafeAlong(config.maxDeviation, next.sma, raw, config.smoothing)
  {
    hide EmaStep, DeviationBps, EwmaBps, SafeAlong;
    SafeAlongAccepts(config.maxDeviation, prior.sma, raw, config.smoothing);
    SafeAlongSteps(config.maxDeviation, prior.sma, raw, config.smoothing);
    SafeAlongAccepts(config.maxDeviation, EmaStep(prior.sma, raw, config.smoothing), raw, config.smoothing);
  }

  // ----- volatility and the published band ------------------------------------------------

  lemma VolatilityShare(gap: nat, alpha: nat)
    requires alpha <= BPS
    ensures 0 <= TruncDiv(gap * alpha, BPS) <= gap && 0 - gap <= TruncDiv(-(gap * alpha), BPS) <= 0
  {
    MulMono(gap, 0, alpha);
    MulMono(gap, alpha, BPS);
    DivMono(gap * alpha, gap * BPS, BPS);
  }

  /** Realised volatility always moves toward the sample and never past it. */
  lemma EwmaBetween(prev: nat, sample: nat, alpha: nat)
    requires prev <= U32_MAX && sample <= U32_MAX && alpha <= BPS
    ensures prev < sample ==> prev < EwmaBps(prev, sample, alpha) <= sample
    ensures sample < prev ==> sample <= EwmaBps(prev, sample, alpha) < prev
    ensures sample == prev ==> EwmaBps(prev, sample, alpha) == prev
  {
    hide TruncDiv;
    if sample >= prev {
      VolatilityShare(sample - prev, alpha);
    } else {
      VolatilityShare(prev - sample, alpha);
      assert (sample - prev) * alpha == -((prev - sample) * alpha);
    }
  }

  /** The band stays between its configured ends and widens with volatility. */
  lemma BandBetween(config: PricingConfig, v: nat, w: nat)
    requires ValidConfig(config) && v <= w
    ensures config.baseBand <= EffectiveBand(config, v) <= EffectiveBand(config, w) <= config.maxBand
    ensures v == 0 ==> EffectiveBand(config, v) == config.baseBand
    ensures w >= config.maxDeviation ==> EffectiveBand(config, w) == config.maxBand
  {
    var d, h := config.maxDeviation, config.maxBand - config.baseBand;
    var a, b := Min(v, d), Min(w, d);
    MulMono(h, 0, a);
    MulMono(h, a, b);
    MulMono(h, b, d);
    DivMono(0, a * h, d);
    DivMono(a * h, b * h, d);
    DivMono(b * h, d * h, d);
    UniqueRemainder(d * h, d, h, 0);
  }

  lemma WidthAtMost(sma: int, band: nat)
    requires Price(sma) && band <= MAX_VOLATILITY_BAND_BPS
    ensures 0 <= BandWidth(sma, band) <= sma * band / BPS <= sma / 2
  {
    MulMono(sma, 0, band);
    MulMono(sma, band, MAX_VOLATILITY_BAND_BPS);
    DivMono(0, sma * band, BPS);
    DivMono(sma * band, sma * MAX_VOLATILITY_BAND_BPS, BPS);
    if sma * band > I128_MAX {
      DivMono(I128_MAX, sma * band, BPS);
    }
  }

  /** The published price lies in the band around the average, in a non-empty range and never below 1. */
  lemma PublishedInBand(config: PricingConfig, st: PriceState)
    requires ValidConfig(config) && Price(st.sma)
    ensures var p := PriceFromState(config, st);
            var width := BandWidth(st.sma, p.band);
            && config.baseBand <= p.band <= config.maxBand
            && 0 <= width <= st.sma * p.band / BPS
            && 1 <= p.published && st.sma - width <= p.published <= Min(st.sma + width, I128_MAX)
  {
    hide BandWidth, EffectiveBand;
    BandBetween(config, st.volatility, st.volatility);
    WidthAtMost(st.sma, EffectiveBand(config, st.volatility));
  }

  /** With a balanced market the average itself is published; otherwise the price leans the way of the nudge. */
  lemma NudgeDirection(config: PricingConfig, st: PriceState)
    requires ValidConfig(config) && Price(st.sma)
    ensures var p := PriceFromState(config, st);
            && Abs(p.supplyDemand) <= config.supplyDemandAdj
            && (p.supplyDemand == 0 ==> p.published == st.sma)
            && (p.supplyDemand > 0 ==> p.published >= st.sma)
            && (p.supplyDemand < 0 ==> p.published <= st.sma)
  {
    hide BandWidth, EffectiveBand, TruncDiv;
    BandBetween(config, st.volatility, st.volatility);
    WidthAtMost(st.sma, EffectiveBand(config, st.volatility));
    var nudge := ClampNudge(config, st.supplyDemand);
    NudgeSign(nudge, st.sma);
  }

  lemma NudgeSign(nudge: int, sma: int)
    requires Price(sma)
    ensures nudge == 0 ==> TruncDiv(SatI128(nudge * sma), BPS) == 0
    ensures nudge > 0 ==> TruncDiv(SatI128(nudge * sma), BPS) >= 0
    ensures nudge < 0 ==> TruncDiv(SatI128(nudge * sma), BPS) <= 0
  {
    if nudge > 0 {
      MulMono(sma, 0, nudge);
    } else if nudge < 0 {
      MulMono(sma, nudge, 0);
    }
  }

  // ----- growth under a fixed configuration -------------------------------------------------

  function Pow(x: real, n: nat): real {
    if n == 0 then 1.0 else x * Pow(x, n - 1)
  }

  /** The largest relative step of one accepted print: (maxDeviation + 1) * smoothing / 10^8. */
  function Rate(config: PricingConfig): real {
    ((config.maxDeviation + 1) * config.smoothing) as real / 100_000_000.0
  }

  lemma {:induction false} PowAtLeastOne(x: real, n: nat)
    requires x >= 1.0
    ensures Pow(x, n) >= 1.0
  {
    if n > 0 {
      PowAtLeastOne(x, n - 1);
      assert x * Pow(x, n - 1) >= 1.0 * Pow(x, n - 1);
    }
  }

  /** An accepted upward print moves the average by at most its rate, or by one unit. */
  lemma StepGrowth(config: PricingConfig, sma: int, raw: int)
    requires ValidConfig(config) && Price(sma) && Price(raw) && Abs(raw - sma) * BPS <= I128_MAX
    requires DeviationBps(sma, raw) <= config.maxDeviation
    ensures EmaStep(sma, raw, config.smoothing) * 100_000_000 <=
            sma * 100_000_000 + (config.maxDeviation + 1) * config.smoothing * sma + 100_000_000
  {
    hide EmaStep, DeviationBps;
    var alpha, next := config.smoothing, EmaStep(sma, raw, config.smoothing);
    var bound := (config.maxDeviation + 1) * alpha * sma;
    EmaStepBetween(sma, raw, alpha);
    MulMono(sma, 0, (config.maxDeviation + 1) * alpha);
    if raw > sma {
      DeviationOf(sma, raw);
      DivGreatest((raw - sma) * BPS, sma, config.maxDeviation + 1);
      GapShare(raw - sma, alpha, sma, config.maxDeviation + 1);
    }
  }

  lemma GapShare(gap: nat, alpha: nat, sma: nat, d: nat)
    requires gap * BPS < d * sma
    ensures gap * alpha / BPS * 100_000_000 <= d * alpha * sma
  {
    MulMono(alpha, gap * BPS, d * sma);
    assert gap * BPS * alpha == gap * alpha * BPS && d * sma * alpha == d * alpha * sma;
    DivGreatest(gap * alpha, BPS, gap * alpha / BPS);
  }

  /** One step against the compound bound. */
  lemma CompoundStep(config: PricingConfig, s0: int, n: nat, sma: int, next: int)
    requires ValidConfig(config) && s0 >= 1
    requires sma as real <= (s0 + n) as real * Pow(1.0 + Rate(config), n)
    requires next * 100_000_000 <= sma * 100_000_000 + (config.maxDeviation + 1) * config.smoothing * sma + 100_000_000
    ensures next as real <= (s0 + n + 1) as real * Pow(1.0 + Rate(config), n + 1)
  {
    hide Pow, ValidConfig;
    var r, q := Rate(config), Pow(1.0 + Rate(config), n);
    var k := (config.maxDeviation + 1) * config.smoothing;
    MulMono(config.smoothing, 0, config.maxDeviation + 1);
    PowNext(1.0 + r, n);
    PowAtLeastOne(1.0 + r, n + 1);
    RealStep(k, sma, next);
    ScaleUp(1.0 + r, sma as real, (s0 + n) as real * q);
    Regroup(1.0 + r, (s0 + n) as real, q);
    assert (s0 + n + 1) as real == (s0 + n) as real + 1.0;
    Spread((s0 + n) as real, Pow(1.0 + r, n + 1));
  }

  lemma PowNext(x: real, n: nat)
    ensures Pow(x, n + 1) == x * Pow(x, n)
  {}

  lemma RealStep(k: nat, sma: int, next: int)
    requires next * 100_000_000 <= sma * 100_000_000 + k * sma + 100_000_000
    ensures next as real <= (1.0 + k as real / 100_000_000.0) * sma as real + 1.0
  {
    assert (k * sma) as real == k as real * sma as real;
    assert (1.0 + k as real / 100_000_000.0) * sma as real == sma as real + k as real * sma as real / 100_000_000.0;
  }

  lemma ScaleUp(x: real, a: real, b: real)
    requires x >= 0.0 && a <= b
    ensures x * a <= x * b
  {}

  lemma Regroup(x: real, a: real, q: real)
    ensures x * (a * q) == a * (x * q)
  {}

  lemma Spread(a: real, q: real)
    ensures (a + 1.0) * q == a * q + q
  {}
}
