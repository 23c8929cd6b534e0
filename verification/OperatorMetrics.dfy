/** Score adjustments from live operator metrics, over exact reals. */
module OperatorMetrics {
  import opened Common

  datatype Metrics = Metrics(
    successRate: Option<real>, p95LatencyMs: Option<real>, unsettledVolume: Option<real>,
    bondVerified: Option<bool>, bondAgeDays: Option<real>)

  datatype Limits = Limits(successRateMinPct: real, latencyP95ThresholdMs: real)

  datatype Source = SuccessRateBlock | SuccessRatePenalty | LatencyPenalty | CapacityPenalty | BondProof

  datatype Adjustment = Adjustment(source: Source, value: int)

  const UNSETTLED_HIGH_WATER := 20.0

  function Min(x: int, y: int): int {
    if x < y then x else y
  }

  // ---------- the four signals ----------

  predicate Blocks(m: Metrics) {
    m.successRate.Some? && m.successRate.value < 80.0
  }

  function SuccessPart(m: Metrics, limits: Limits): seq<Adjustment> {
    if m.successRate.None? then []
    else if m.successRate.value < 80.0 then [Adjustment(SuccessRateBlock, 0)]
    else if m.successRate.value < limits.successRateMinPct
    then [Adjustment(SuccessRatePenalty, -SuccessLoss(m.successRate.value, limits.successRateMinPct))]
    else []
  }

  /** Nothing at the minimum rate, 15 at 80 per cent, in proportion between them. */
  function SuccessLoss(rate: real, min: real): int
    requires 80.0 <= rate < min
  {
    Round((min - rate) / (min - 80.0) * 15.0)
  }

  function LatencyPart(m: Metrics, limits: Limits): seq<Adjustment>
    requires limits.latencyP95ThresholdMs > 0.0
  {
    if m.p95LatencyMs.Some? && m.p95LatencyMs.value > limits.latencyP95ThresholdMs
    then [Adjustment(LatencyPenalty, -LatencyLoss(m.p95LatencyMs.value, limits.latencyP95ThresholdMs))]
    else []
  }

  /** Four for every threshold over the threshold, at most 8. */
  function LatencyLoss(p95: real, threshold: real): int
    requires threshold > 0.0
  {
    Min(8, Round((p95 - threshold) / threshold * 4.0))
  }

  function CapacityPart(m: Metrics): seq<Adjustment> {
    if m.unsettledVolume.Some? && m.unsettledVolume.value > UNSETTLED_HIGH_WATER
    then [Adjustment(CapacityPenalty, -Min(6, Round((m.unsettledVolume.value - UNSETTLED_HIGH_WATER) / 5.0)))]
    else []
  }

  function BondPart(m: Metrics): seq<Adjustment> {
    if m.bondVerified.None? || m.bondAgeDays.None? then []
    else if !m.bondVerified.value then [Adjustment(BondProof, -5)]
    else if m.bondAgeDays.value < 30.0 then [Adjustment(BondProof, 3)]
    else if m.bondAgeDays.value > 80.0 then [Adjustment(BondProof, -2)]
    else []
  }

  function Adjustments(m: Metrics, limits: Limits): seq<Adjustment>
    requires limits.latencyP95ThresholdMs > 0.0
  {
    SuccessPart(m, limits) + LatencyPart(m, limits) + CapacityPart(m) + BondPart(m)
  }

  /** Builds the list branch by branch; the fallback for an empty success range is kept, and never taken. */
  method BuildDynamicScoreAdjustments(
      metrics: Option<Metrics>, limits: Limits)
    returns (adjustments: seq<Adjustment>, block: bool)
    requires limits.latencyP95ThresholdMs > 0.0
    ensures block <==> metrics.Some? && Blocks(metrics.value)
    ensures adjustments == if metrics.None? then [] else Adjustments(metrics.value, limits)
  {
    adjustments, block := [], false;
    if metrics.None? { return; }
    var m := metrics.value;
    if m.successRate.Some? {
      if m.successRate.value < 80.0 {
        block := true;
        adjustments := adjustments + [Adjustment(SuccessRateBlock, 0)];
      } else if m.successRate.value < limits.successRateMinPct {
        var range, deficit := limits.successRateMinPct - 80.0, limits.successRateMinPct - m.successRate.value;
        var penalty := if range > 0.0 then -Round(deficit / range * 15.0) else -3;
        adjustments := adjustments + [Adjustment(SuccessRatePenalty, penalty)];
      }
    }
    assert adjustments == SuccessPart(m, limits);
    if m.p95LatencyMs.Some? {
      var threshold := limits.latencyP95ThresholdMs;
      if m.p95LatencyMs.value > threshold {
        var overage := m.p95LatencyMs.value - threshold;
        adjustments := adjustments + [Adjustment(LatencyPenalty, -Min(8, Round(overage / threshold * 4.0)))];
      }
    }
    assert adjustments == SuccessPart(m, limits) + LatencyPart(m, limits);
    if m.unsettledVolume.Some? && m.unsettledVolume.value > UNSETTLED_HIGH_WATER {
      var overage := m.unsettledVolume.value - UNSETTLED_HIGH_WATER;
      adjustments := adjustments + [Adjustment(CapacityPenalty, -Min(6, Round(overage / 5.0)))];
    }
    assert adjustments == SuccessPart(m, limits) + LatencyPart(m, limits) + CapacityPart(m);
    if m.bondVerified.Some? && m.bondAgeDays.Some? {
      if m.bondVerified.value {
        if m.bondAgeDays.value < 30.0 {
          adjustments := adjustments + [Adjustment(BondProof, 3)];
        } else if m.bondAgeDays.value > 80.0 {
          adjustments := adjustments + [Adjustment(BondProof, -2)];
        }
      } else {
        adjustments := adjustments + [Adjustment(BondProof, -5)];
      }
    }
  }

  // ---------- what each adjustment says ----------

  /** The nearest number of units in x, halves rounded up, but no more than the cap. */
  ghost predicate NearestUpTo(n: int, x: real, unit: real, cap: int) {
    && n <= cap && x >= (n as real - 0.5) * unit
    && (n < cap ==> x < (n as real + 0.5) * unit)
  }

  lemma RoundIsNearest(x: real, unit: real, n: int)
    requires unit > 0.0
    ensures Round(x / unit) == n <==> (n as real - 0.5) * unit <= x < (n as real + 0.5) * unit
  {
    RoundBetween(x / unit, n);
    DivideBack(x, unit);
    ScaleBetween(n as real - 0.5, x / unit, n as real + 0.5, unit, x);
  }

  lemma DivideBack(x: real, unit: real)
    requires unit > 0.0
    ensures x / unit * unit == x
  {
  }

  lemma CappedIsNearest(x: real, unit: real, cap: int, n: int)
    requires unit > 0.0
    ensures Min(cap, Round(x / unit)) == n <==> NearestUpTo(n, x, unit, cap)
  {
    RoundBetween(x / unit, n);
    DivideBack(x, unit);
    hide Round;
    AtLeast(n as real - 0.5, x / unit, unit, x);
    AtLeast(n as real + 0.5, x / unit, unit, x);
    RoundAtLeast(x / unit, n);
    RoundAtLeast(x / unit, n + 1);
  }

  lemma AtLeast(a: real, q: real, unit: real, x: real)
    requires unit > 0.0 && x == q * unit
    ensures a <= q <==> a * unit <= x
  {
    if q < a { Stretch(a, q, unit); } else if q > a { Stretch(q, a, unit); }
  }

  lemma RoundAtLeast(q: real, n: int)
    ensures Round(q) >= n <==> q >= n as real - 0.5
  {
  }

  /** Above the threshold one point for every quarter of the threshold, at most 8. */
  lemma LatencyMeans(m: Metrics, limits: Limits, n: int)
    requires limits.latencyP95ThresholdMs > 0.0
    ensures Adjustment(LatencyPenalty, -n) in Adjustments(m, limits) <==>
      && m.p95LatencyMs.Some? && m.p95LatencyMs.value > limits.latencyP95ThresholdMs
      && NearestUpTo(n, 4.0 * (m.p95LatencyMs.value - limits.latencyP95ThresholdMs), limits.latencyP95ThresholdMs, 8)
  {
    hide Round, Min, NearestUpTo, SuccessLoss;
    if m.p95LatencyMs.Some? {
      var threshold := limits.latencyP95ThresholdMs;
      var over := m.p95LatencyMs.value - threshold;
      CappedIsNearest(4.0 * over, threshold, 8, n);
      TimesOver(over, threshold, 4.0);
    }
  }

  lemma TimesOver(x: real, y: real, k: real)
    requires y > 0.0
    ensures x / y * k == k * x / y
  {
  }

  /** Above 20 unsettled one point for every five, at most 6. */
  lemma CapacityMeans(m: Metrics, limits: Limits, n: int)
    requires limits.latencyP95ThresholdMs > 0.0
    ensures Adjustment(CapacityPenalty, -n) in Adjustments(m, limits) <==>
      m.unsettledVolume.Some? && m.unsettledVolume.value > 20.0
      && NearestUpTo(n, m.unsettledVolume.value - 20.0, 5.0, 6)
  {
    hide Round, Min, NearestUpTo, SuccessLoss, LatencyLoss;
    if m.unsettledVolume.Some? {
      CappedIsNearest(m.unsettledVolume.value - 20.0, 5.0, 6, n);
    }
  }

  /** From 80 per cent up to the minimum one point for every fifteenth of that range, and none below 80. */
  lemma SuccessMeans(m: Metrics, limits: Limits, n: int)
    requires limits.latencyP95ThresholdMs > 0.0
    ensures Adjustment(SuccessRatePenalty, -n) in Adjustments(m, limits) <==>
      && m.successRate.Some? && 80.0 <= m.successRate.value < limits.successRateMinPct
      && var range := limits.successRateMinPct - 80.0;
         var deficit := 15.0 * (limits.successRateMinPct - m.successRate.value);
         (n as real - 0.5) * range <= deficit < (n as real + 0.5) * range
    ensures forall v :: Adjustment(SuccessRateBlock, v) in Adjustments(m, limits) <==>
      v == 0 && m.successRate.Some? && m.successRate.value < 80.0
  {
    hide Round, Min, LatencyLoss;
    if m.successRate.Some? && 80.0 <= m.successRate.value < limits.successRateMinPct {
      var range, deficit := limits.successRateMinPct - 80.0, limits.successRateMinPct - m.successRate.value;
      TimesOver(deficit, range, 15.0);
      RoundIsNearest(15.0 * deficit, range, n);
    }
  }

  /** Unverified costs 5; verified gains 3 before 30 days, costs 2 after 80, and counts for nothing between. */
  lemma BondMeans(m: Metrics, limits: Limits, v: int)
    requires limits.latencyP95ThresholdMs > 0.0
    ensures Adjustment(BondProof, v) in Adjustments(m, limits) <==>
      && m.bondVerified.Some? && m.bondAgeDays.Some?
      && match v
         case -5 => !m.bondVerified.value
         case 3 => m.bondVerified.value && m.bondAgeDays.value < 30.0
         case -2 => m.bondVerified.value && m.bondAgeDays.value > 80.0
         case _ => false
  {
    hide Round, Min, SuccessLoss, LatencyLoss;
  }

  // ---------- the total ----------

  ghost function Total(adjustments: seq<Adjustment>): int {
    if adjustments == [] then 0 else Total(adjustments[..|adjustments| - 1]) + adjustments[|adjustments| - 1].value
  }

  lemma {:induction false} TotalAppend(a: seq<Adjustment>, b: seq<Adjustment>)
    ensures Total(a + b) == Total(a) + Total(b)
  {
    if b == [] {
      assert a + b == a;
    } else {
      TotalAppend(a, b[..|b| - 1]);
      assert (a + b)[..|a + b| - 1] == a + b[..|b| - 1];
    }
  }

  lemma TotalSplits(m: Metrics, limits: Limits)
    requires limits.latencyP95ThresholdMs > 0.0
    ensures Total(Adjustments(m, limits)) ==
      Total(SuccessPart(m, limits)) + Total(LatencyPart(m, limits)) + Total(CapacityPart(m)) + Total(BondPart(m))
  {
    TotalAppend(SuccessPart(m, limits), LatencyPart(m, limits));
    TotalAppend(SuccessPart(m, limits) + LatencyPart(m, limits), CapacityPart(m));
    TotalAppend(SuccessPart(m, limits) + LatencyPart(m, limits) + CapacityPart(m), BondPart(m));
  }

  lemma TotalOfAtMostOne(adjustments: seq<Adjustment>)
    requires |adjustments| <= 1
    ensures Total(adjustments) == if adjustments == [] then 0 else adjustments[0].value
  {
    if adjustments != [] {
      assert adjustments[..0] == [];
    }
  }

  // ---------- bounds ----------

  lemma ShareOf(part: real, whole: real)
    requires 0.0 <= part <= whole && whole > 0.0
    ensures 0.0 <= part / whole <= 1.0
  {
    var q := part / whole;
    assert q * whole == part;
    if q > 1.0 { Stretch(q, 1.0, whole); }
    if q < 0.0 { Stretch(0.0, q, whole); }
  }

  /** x / t keeps the order of x. */
  lemma QuotientMonotone(x: real, y: real, t: real)
    requires x <= y && t > 0.0
    ensures x / t <= y / t
  {
    var p, q := x / t, y / t;
    assert p * t == x && q * t == y;
    if p > q { Stretch(p, q, t); }
  }

  lemma SuccessLossBounds(rate: real, min: real)
    requires 80.0 <= rate < min
    ensures 0 <= SuccessLoss(rate, min) <= 15
  {
    var share := (min - rate) / (min - 80.0);
    ShareOf(min - rate, min - 80.0);
    assert 0.0 <= share * 15.0 <= 15.0;
    RoundMonotone(0.0, share * 15.0);
    RoundMonotone(share * 15.0, 15.0);
  }

  lemma LatencyLossBounds(p95: real, threshold: real)
    requires p95 > threshold > 0.0
    ensures 0 <= LatencyLoss(p95, threshold) <= 8
  {
    QuotientMonotone(0.0, p95 - threshold, threshold);
    RoundMonotone(0.0, (p95 - threshold) / threshold * 4.0);
  }

  lemma PartBounds(m: Metrics, limits: Limits)
    requires limits.latencyP95ThresholdMs > 0.0
    ensures -15 <= Total(SuccessPart(m, limits)) <= 0 && -8 <= Total(LatencyPart(m, limits)) <= 0
    ensures -6 <= Total(CapacityPart(m)) <= 0 && -5 <= Total(BondPart(m)) <= 3
  {
    TotalOfAtMostOne(SuccessPart(m, limits));
    TotalOfAtMostOne(LatencyPart(m, limits));
    TotalOfAtMostOne(CapacityPart(m));
    TotalOfAtMostOne(BondPart(m));
    if m.successRate.Some? && 80.0 <= m.successRate.value < limits.successRateMinPct {
      SuccessLossBounds(m.successRate.value, limits.successRateMinPct);
    }
    if m.p95LatencyMs.Some? && m.p95LatencyMs.value > limits.latencyP95ThresholdMs {
      LatencyLossBounds(m.p95LatencyMs.value, limits.latencyP95ThresholdMs);
    }
    if m.unsettledVolume.Some? && m.unsettledVolume.value > UNSETTLED_HIGH_WATER {
      RoundMonotone(0.0, (m.unsettledVolume.value - UNSETTLED_HIGH_WATER) / 5.0);
    }
  }

  /** Whatever the metrics, the adjustments add up to something between -34 and 3. */
  lemma TotalIsBounded(m: Metrics, limits: Limits)
    requires limits.latencyP95ThresholdMs > 0.0
    ensures -34 <= Total(Adjustments(m, limits)) <= 3
  {
    TotalSplits(m, limits);
    PartBounds(m, limits);
  }

  /** Both ends are reached. */
  lemma BoundsAreTight()
    ensures var worst := Metrics(Some(80.0), Some(90_000.0), Some(50.0), Some(false), Some(0.0));
      Total(Adjustments(worst, Limits(95.0, 30_000.0))) == -34
    ensures var best := Metrics(Some(99.0), Some(1.0), Some(0.0), Some(true), Some(1.0));
      Total(Adjustments(best, Limits(95.0, 30_000.0))) == 3
  {
    var worst := Metrics(Some(80.0), Some(90_000.0), Some(50.0), Some(false), Some(0.0));
    var best := Metrics(Some(99.0), Some(1.0), Some(0.0), Some(true), Some(1.0));
    var limits := Limits(95.0, 30_000.0);
    TotalSplits(worst, limits);
    TotalSplits(best, limits);
    TotalOfAtMostOne(SuccessPart(worst, limits));
    TotalOfAtMostOne(LatencyPart(worst, limits));
    TotalOfAtMostOne(CapacityPart(worst));
    TotalOfAtMostOne(BondPart(worst));
    TotalOfAtMostOne(BondPart(best));
  }

  // ---------- monotonicity ----------

  /** `better` reports no lower success, no higher latency and no more unsettled volume over the same signals. */
  ghost predicate NoWorse(better: Metrics, worse: Metrics) {
    && better.bondVerified == worse.bondVerified && better.bondAgeDays == worse.bondAgeDays
    && better.successRate.Some? == worse.successRate.Some?
    && (better.successRate.Some? ==> better.successRate.value >= worse.successRate.value)
    && better.p95LatencyMs.Some? == worse.p95LatencyMs.Some?
    && (better.p95LatencyMs.Some? ==> better.p95LatencyMs.value <= worse.p95LatencyMs.value)
    && better.unsettledVolume.Some? == worse.unsettledVolume.Some?
    && (better.unsettledVolume.Some? ==> better.unsettledVolume.value <= worse.unsettledVolume.value)
  }

  lemma SuccessMonotone(better: Metrics, worse: Metrics, limits: Limits)
    requires NoWorse(better, worse) && !Blocks(worse)
    ensures Total(SuccessPart(better, limits)) >= Total(SuccessPart(worse, limits))
  {
    TotalOfAtMostOne(SuccessPart(better, limits));
    TotalOfAtMostOne(SuccessPart(worse, limits));
    var min := limits.successRateMinPct;
    if worse.successRate.Some? && worse.successRate.value < min {
      SuccessLossBounds(worse.successRate.value, min);
      if better.successRate.value < min {
        QuotientMonotone(min - better.successRate.value, min - worse.successRate.value, min - 80.0);
        RoundMonotone(
          (min - better.successRate.value) / (min - 80.0) * 15.0,
          (min - worse.successRate.value) / (min - 80.0) * 15.0);
      }
    }
  }

  lemma LatencyMonotone(better: Metrics, worse: Metrics, limits: Limits)
    requires NoWorse(better, worse) && limits.latencyP95ThresholdMs > 0.0
    ensures Total(LatencyPart(better, limits)) >= Total(LatencyPart(worse, limits))
  {
    TotalOfAtMostOne(LatencyPart(better, limits));
    TotalOfAtMostOne(LatencyPart(worse, limits));
    var t := limits.latencyP95ThresholdMs;
    if worse.p95LatencyMs.Some? && worse.p95LatencyMs.value > t {
      LatencyLossBounds(worse.p95LatencyMs.value, t);
      if better.p95LatencyMs.value > t {
        QuotientMonotone(better.p95LatencyMs.value - t, worse.p95LatencyMs.value - t, t);
        RoundMonotone((better.p95LatencyMs.value - t) / t * 4.0, (worse.p95LatencyMs.value - t) / t * 4.0);
      }
    }
  }

  lemma CapacityMonotone(better: Metrics, worse: Metrics)
    requires NoWorse(better, worse)
    ensures Total(CapacityPart(better)) >= Total(CapacityPart(worse))
  {
    TotalOfAtMostOne(CapacityPart(better));
    TotalOfAtMostOne(CapacityPart(worse));
    if worse.unsettledVolume.Some? && worse.unsettledVolume.value > UNSETTLED_HIGH_WATER {
      RoundMonotone(0.0, (worse.unsettledVolume.value - UNSETTLED_HIGH_WATER) / 5.0);
      if better.unsettledVolume.value > UNSETTLED_HIGH_WATER {
        var less := better.unsettledVolume.value - UNSETTLED_HIGH_WATER;
        var more := worse.unsettledVolume.value - UNSETTLED_HIGH_WATER;
        RoundMonotone(less / 5.0, more / 5.0);
      }
    }
  }

  /** Unless the worse operator is blocked, better metrics never score lower. */
  lemma ScoreIsMonotone(better: Metrics, worse: Metrics, limits: Limits)
    requires NoWorse(better, worse) && !Blocks(worse) && limits.latencyP95ThresholdMs > 0.0
    ensures !Blocks(better)
    ensures Total(Adjustments(better, limits)) >= Total(Adjustments(worse, limits))
  {
    assert !Blocks(better);
    hide Adjustments, Total, SuccessPart, LatencyPart, CapacityPart, BondPart;
    TotalSplits(better, limits);
    TotalSplits(worse, limits);
    SuccessMonotone(better, worse, limits);
    LatencyMonotone(better, worse, limits);
    CapacityMonotone(better, worse);
    SameBond(better, worse);
  }

  lemma SameBond(better: Metrics, worse: Metrics)
    requires NoWorse(better, worse)
    ensures BondPart(better) == BondPart(worse)
  {
  }

  /** The penalty rounds to nothing exactly in the first thirtieth of the range below the minimum. */
  lemma NoLossIff(rate: real, min: real)
    requires 80.0 <= rate < min
    ensures SuccessLoss(rate, min) == 0 <==> 30.0 * (min - rate) < min - 80.0
  {
    var part, whole := min - rate, min - 80.0;
    var share := part / whole;
    assert SuccessLoss(rate, min) == Round(share * 15.0);
    SuccessLossBounds(rate, min);
    ScaledShare(part, whole, share);
  }

  lemma ScaledShare(part: real, whole: real, share: real)
    requires whole > 0.0 && share == part / whole
    ensures 30.0 * share < 1.0 <==> 30.0 * part < whole
  {
    var x := 30.0 * share;
    assert share * whole == part;
    ThirtyTimes(share, whole);
    assert x * whole == 30.0 * part;
    if x < 1.0 {
      Stretch(1.0, x, whole);
    } else if x > 1.0 {
      Stretch(x, 1.0, whole);
    }
  }

  lemma ThirtyTimes(x: real, y: real)
    ensures (30.0 * x) * y == 30.0 * (x * y)
  {
  }

  /** The better rate escapes the block, and pays a penalty the block had spared the worse one. */
  ghost predicate PenaltyAppears(better: Metrics, worse: Metrics, limits: Limits) {
    && Blocks(worse) && !Blocks(better) && better.successRate.Some?
    && better.successRate.value < limits.successRateMinPct
    && 30.0 * (limits.successRateMinPct - better.successRate.value) >= limits.successRateMinPct - 80.0
  }

  /** The success part keeps the order of the metrics, blocked or not, if and only if no penalty appears. */
  lemma SuccessOrderIff(better: Metrics, worse: Metrics, limits: Limits)
    requires NoWorse(better, worse)
    ensures Total(SuccessPart(better, limits)) >= Total(SuccessPart(worse, limits)) <==>
      !PenaltyAppears(better, worse, limits)
  {
    if !Blocks(worse) {
      SuccessMonotone(better, worse, limits);
    } else {
      TotalOfAtMostOne(SuccessPart(better, limits));
      TotalOfAtMostOne(SuccessPart(worse, limits));
      if 80.0 <= better.successRate.value < limits.successRateMinPct {
        SuccessLossBounds(better.successRate.value, limits.successRateMinPct);
        NoLossIff(better.successRate.value, limits.successRateMinPct);
      }
    }
  }

  /** For operators that differ in their success rate alone, so does the whole score. */
  lemma ScoreOrderIff(better: Metrics, worse: Metrics, limits: Limits)
    requires NoWorse(better, worse) && limits.latencyP95ThresholdMs > 0.0
    requires better.(successRate := worse.successRate) == worse
    ensures Total(Adjustments(better, limits)) >= Total(Adjustments(worse, limits)) <==>
      !PenaltyAppears(better, worse, limits)
  {
    SameOtherParts(better, worse, limits);
    hide Adjustments, Total, SuccessPart, LatencyPart, CapacityPart, BondPart, NoWorse, PenaltyAppears;
    TotalSplits(better, limits);
    TotalSplits(worse, limits);
    SuccessOrderIff(better, worse, limits);
  }

  lemma SameOtherParts(better: Metrics, worse: Metrics, limits: Limits)
    requires better.(successRate := worse.successRate) == worse && limits.latencyP95ThresholdMs > 0.0
    ensures LatencyPart(better, limits) == LatencyPart(worse, limits)
    ensures CapacityPart(better) == CapacityPart(worse) && BondPart(better) == BondPart(worse)
  {
  }

  /** Just below 80 per cent the score is higher than at 80. */
  lemma BlockHidesThePenalty()
    ensures var limits := Limits(95.0, 30_000.0);
      var worse, better := Metrics(Some(79.0), None, None, None, None), Metrics(Some(80.0), None, None, None, None);
      && NoWorse(better, worse) && Blocks(worse) && !Blocks(better)
      && Total(Adjustments(better, limits)) < Total(Adjustments(worse, limits))
  {
    hide Adjustments, Total;
    ScoreOrderIff(
      Metrics(Some(80.0), None, None, None, None),
      Metrics(Some(79.0), None, None, None, None),
      Limits(95.0, 30_000.0));
  }
}
