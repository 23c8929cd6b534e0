/** Quoting a candidate path hop by hop, and scoring the resulting plan. */
module RoutePlans {
  import opened Common
  import opened RouteTypes

  datatype Intent = Intent(id: string, baseAsset: string, quoteAsset: string, side: Side, size: string)

  datatype QuoteRequest = QuoteRequest(
    adapterId: string, baseAsset: string, quoteAsset: string, side: Side, size: string, intentId: string)

  datatype QuoteResponse = QuoteResponse(sizeOut: string, feeBps: real, expectedSlippageBps: real)

  datatype RouteStep = RouteStep(
    stepIndex: nat, adapterId: string, venueKind: VenueKind, supportLevel: Option<SupportLevel>,
    baseAsset: string, quoteAsset: string, side: Side, sizeIn: string, sizeOutEstimate: string,
    feeBps: real, quote: QuoteResponse, scoreAdjustment: real)

  datatype RoutePlan = RoutePlan(
    intentId: string, steps: seq<RouteStep>, supportLevel: Option<SupportLevel>,
    totalFeeBps: real, expectedSlippageBps: real, hopCount: nat, score: real)

  datatype Weights = Weights(fee: real, slippage: real, hops: real, reliability: real)

  const DEFAULT_WEIGHTS := Weights(1.0, 1.0, 0.5, 0.25)

  /** The venues as the router sees them, and the caller's two hooks. */
  datatype Market = Market(
    supportsPair: (string, string, string) -> bool,
    getQuote: QuoteRequest -> Option<QuoteResponse>,
    healthy: string -> bool,
    canUseAdapter: Adapter -> bool,
    scoreAdapter: (Adapter, QuoteRequest, QuoteResponse, bool) -> real)

  function Rank(level: SupportLevel): nat {
    match level
    case Listed => 0
    case Readable => 1
    case Routable => 2
    case Simulatable => 3
    case Executable => 4
    case AgentReady => 5
  }

  /** The lowest known level; None when no level is known. */
  function CombineSupportLevels(levels: seq<Option<SupportLevel>>): (r: Option<SupportLevel>)
    ensures r.Some? ==> r in levels
    ensures forall l :: Some(l) in levels ==> r.Some? && Rank(r.value) <= Rank(l)
  {
    if levels == [] then None
    else
      var rest := CombineSupportLevels(levels[..|levels| - 1]);
      var level := levels[|levels| - 1];
      if level.None? then rest
      else if rest.None? then level
      else if Rank(level.value) < Rank(rest.value) then level else rest
  }

  /** From the least supported to the most. */
  const SUPPORT_LEVELS: seq<SupportLevel> := [Listed, Readable, Routable, Simulatable, Executable, AgentReady]

  /** Levels combine to one of them exactly when it is among them and nothing less supported is. */
  lemma LowestLevelIff(levels: seq<Option<SupportLevel>>, i: nat)
    requires i < |SUPPORT_LEVELS|
    ensures CombineSupportLevels(levels) == Some(SUPPORT_LEVELS[i]) <==>
      Some(SUPPORT_LEVELS[i]) in levels && forall j :: 0 <= j < i ==> Some(SUPPORT_LEVELS[j]) !in levels
  {
    assert forall level: SupportLevel :: level == SUPPORT_LEVELS[Rank(level)];
  }

  function Levels(steps: seq<RouteStep>): seq<Option<SupportLevel>> {
    seq(|steps|, i requires 0 <= i < |steps| => steps[i].supportLevel)
  }

  function ScoreRoute(
      w: Weights, totalFeeBps: real, expectedSlippageBps: real, hopCount: nat, healthOk: bool, adjustment: real): real
  {
    w.fee * -totalFeeBps
    + w.slippage * -expectedSlippageBps
    + w.hops * -(hopCount as real)
    + w.reliability * (if healthOk then 1.0 else 0.0)
    + adjustment
  }

  function FeeOf(s: RouteStep): real { s.feeBps }

  function SlippageOf(s: RouteStep): real { s.quote.expectedSlippageBps }

  function AdjustmentOf(s: RouteStep): real { s.scoreAdjustment }

  ghost function Total(steps: seq<RouteStep>, f: RouteStep -> real): real {
    if steps == [] then 0.0
    else Total(steps[..|steps| - 1], f) + f(steps[|steps| - 1])
  }

  ghost function SizeInto(intent: Intent, steps: seq<RouteStep>, k: nat): string
    requires k <= |steps|
  {
    if k == 0 then intent.size else steps[k - 1].sizeOutEstimate
  }

  function RequestFor(intent: Intent, e: Edge, size: string): QuoteRequest {
    QuoteRequest(e.adapter.id, e.base, e.quote, intent.side, size, intent.id)
  }

  ghost predicate StepFits(market: Market, intent: Intent, e: Edge, k: nat, sizeIn: string, step: RouteStep) {
    var request := QuoteRequest(e.adapter.id, e.base, e.quote, intent.side, sizeIn, intent.id);
    var q := market.getQuote(request);
    && q.Some?
    && step == RouteStep(
         k, e.adapter.id, e.adapter.kind, e.supportLevel, e.base, e.quote, intent.side, sizeIn,
         q.value.sizeOut, q.value.feeBps, q.value,
         market.scoreAdapter(e.adapter, request, q.value, market.healthy(e.adapter.id)))
  }

  /** Step k answers the quote for the size the previous step put out. */
  ghost predicate Link(market: Market, intent: Intent, path: Path, steps: seq<RouteStep>, k: nat)
    requires k < |steps| && k < |path|
  {
    StepFits(market, intent, path[k], k, SizeInto(intent, steps, k), steps[k])
  }

  ghost predicate Chains(market: Market, intent: Intent, path: Path, steps: seq<RouteStep>) {
    && |steps| == |path|
    && forall k :: 0 <= k < |steps| ==> Link(market, intent, path, steps, k)
  }

  ghost predicate AllHealthy(market: Market, path: Path) {
    forall k :: 0 <= k < |path| ==> market.healthy(path[k].adapter.id)
  }

  ghost predicate Totals(w: Weights, healthOk: bool, plan: RoutePlan) {
    && plan.supportLevel == CombineSupportLevels(Levels(plan.steps))
    && plan.totalFeeBps == Total(plan.steps, FeeOf)
    && plan.expectedSlippageBps == Total(plan.steps, SlippageOf)
    && plan.hopCount == |plan.steps|
    && plan.score == ScoreRoute(w, plan.totalFeeBps, plan.expectedSlippageBps, plan.hopCount, healthOk,
                                Total(plan.steps, AdjustmentOf))
  }

  /** plan is what quoting `path` for the intent yields. */
  ghost predicate IsPlanFor(market: Market, intent: Intent, w: Weights, path: Path, plan: RoutePlan) {
    && plan.intentId == intent.id
    && Chains(market, intent, path, plan.steps)
    && Totals(w, AllHealthy(market, path), plan)
  }

  /** Quoting is deterministic: a chain is determined by its path, prefix by prefix. */
  lemma {:induction false} ChainsAgree(
      market: Market, intent: Intent, path: Path, xs: seq<RouteStep>, ys: seq<RouteStep>, n: nat)
    requires n <= |xs| && n <= |ys| && n <= |path|
    requires forall k :: 0 <= k < n ==> Link(market, intent, path, xs, k) && Link(market, intent, path, ys, k)
    ensures xs[..n] == ys[..n]
  {
    if n > 0 {
      ChainsAgree(market, intent, path, xs, ys, n - 1);
      assert Link(market, intent, path, xs, n - 1) && Link(market, intent, path, ys, n - 1);
      if n > 1 {
        assert xs[n - 2] == xs[..n - 1][n - 2] == ys[..n - 1][n - 2] == ys[n - 2];
      }
      assert xs[..n] == xs[..n - 1] + [xs[n - 1]];
      assert ys[..n] == ys[..n - 1] + [ys[n - 1]];
    }
  }

  /** Asks one venue for one hop; None when it refuses the quote. */
  method QuoteHop(market: Market, intent: Intent, e: Edge, stepIndex: nat, size: string) returns (r: Option<RouteStep>)
    ensures r.Some? ==> StepFits(market, intent, e, stepIndex, size, r.value)
    ensures r.None? ==> forall step :: !StepFits(market, intent, e, stepIndex, size, step)
  {
    var request := RequestFor(intent, e, size);
    var q := market.getQuote(request);
    if q.None? { return None; }
    var health := market.healthy(e.adapter.id);
    var adjustment := market.scoreAdapter(e.adapter, request, q.value, health);
    r := Some(RouteStep(
      stepIndex, e.adapter.id, e.adapter.kind, e.supportLevel, e.base, e.quote, intent.side, size,
      q.value.sizeOut, q.value.feeBps, q.value, adjustment));
  }

  /** Quotes a path; None exactly when some hop refuses its quote. */
  method QuoteRoute(market: Market, intent: Intent, w: Weights, path: Path) returns (r: Option<RoutePlan>)
    ensures r.Some? ==> IsPlanFor(market, intent, w, path, r.value)
    ensures r.None? ==> forall plan :: !IsPlanFor(market, intent, w, path, plan)
  {
    var currentSize := intent.size;
    var steps: seq<RouteStep> := [];
    var totalFeeBps, expectedSlippageBps, adjustmentTotal, healthOk := 0.0, 0.0, 0.0, true;
    for stepIndex := 0 to |path|
      invariant |steps| == stepIndex && Chains(market, intent, path[..stepIndex], steps)
      invariant currentSize == SizeInto(intent, steps, stepIndex)
      invariant healthOk == AllHealthy(market, path[..stepIndex])
      invariant totalFeeBps == Total(steps, FeeOf)
      invariant expectedSlippageBps == Total(steps, SlippageOf)
      invariant adjustmentTotal == Total(steps, AdjustmentOf)
    {
      var step := QuoteHop(market, intent, path[stepIndex], stepIndex, currentSize);
      if step.None? {
        NoChain(market, intent, path, steps);
        return None;
      }
      if !market.healthy(path[stepIndex].adapter.id) { healthOk := false; }
      assert path[..stepIndex + 1] == path[..stepIndex] + [path[stepIndex]];
      HealthExtends(market, path[..stepIndex], path[stepIndex]);
      ChainsExtend(market, intent, path[..stepIndex], steps, path[stepIndex], step.value);
      TotalExtends(steps, step.value);
      steps := steps + [step.value];
      currentSize := step.value.sizeOutEstimate;
      totalFeeBps := totalFeeBps + step.value.feeBps;
      expectedSlippageBps := expectedSlippageBps + step.value.quote.expectedSlippageBps;
      adjustmentTotal := adjustmentTotal + step.value.scoreAdjustment;
    }
    assert path[..|path|] == path;
    r := Some(RoutePlan(
      intent.id, steps, CombineSupportLevels(Levels(steps)), totalFeeBps, expectedSlippageBps, |steps|,
      ScoreRoute(w, totalFeeBps, expectedSlippageBps, |steps|, healthOk, adjustmentTotal)));
  }

  /** When the hop after a chained prefix is refused, the whole path has no chain. */
  lemma NoChain(market: Market, intent: Intent, path: Path, steps: seq<RouteStep>)
    requires |steps| < |path| && Chains(market, intent, path[..|steps|], steps)
    requires forall step :: !StepFits(market, intent, path[|steps|], |steps|, SizeInto(intent, steps, |steps|), step)
    ensures forall full :: !Chains(market, intent, path, full)
  {
    forall full
      ensures !Chains(market, intent, path, full)
    {
      if Chains(market, intent, path, full) {
        SamePrefix(market, intent, path, steps, full);
        LinkRefused(market, intent, path, full, |steps|);
      }
    }
  }

  lemma LinkRefused(market: Market, intent: Intent, path: Path, steps: seq<RouteStep>, k: nat)
    requires k < |steps| && k < |path|
    requires forall step :: !StepFits(market, intent, path[k], k, SizeInto(intent, steps, k), step)
    ensures !Link(market, intent, path, steps, k)
  {
  }

  lemma TotalExtends(steps: seq<RouteStep>, step: RouteStep)
    ensures forall f :: Total(steps + [step], f) == Total(steps, f) + f(step)
  {
    assert (steps + [step])[..|steps|] == steps;
  }

  lemma HealthExtends(market: Market, path: Path, e: Edge)
    ensures AllHealthy(market, path + [e]) <==> AllHealthy(market, path) && market.healthy(e.adapter.id)
  {
    assert (path + [e])[|path|] == e;
    assert forall k :: 0 <= k < |path| ==> (path + [e])[k] == path[k];
  }

  lemma ChainsExtend(market: Market, intent: Intent, path: Path, steps: seq<RouteStep>, e: Edge, step: RouteStep)
    requires Chains(market, intent, path, steps)
    requires StepFits(market, intent, e, |steps|, SizeInto(intent, steps, |steps|), step)
    ensures Chains(market, intent, path + [e], steps + [step])
  {
    var more := steps + [step];
    forall k | 0 <= k < |more|
      ensures Link(market, intent, path + [e], more, k)
    {
      assert SizeInto(intent, more, k) == SizeInto(intent, steps, k);
      if k < |steps| {
        assert Link(market, intent, path, steps, k);
      }
    }
  }

  lemma SamePrefix(market: Market, intent: Intent, path: Path, steps: seq<RouteStep>, full: seq<RouteStep>)
    requires |steps| <= |path| && Chains(market, intent, path[..|steps|], steps) && Chains(market, intent, path, full)
    ensures SizeInto(intent, steps, |steps|) == SizeInto(intent, full, |steps|)
  {
    var n := |steps|;
    forall k | 0 <= k < n
      ensures Link(market, intent, path, steps, k)
    {
      assert Link(market, intent, path[..n], steps, k);
    }
    ChainsAgree(market, intent, path, steps, full, n);
    if n > 0 {
      assert steps[n - 1] == steps[..n][n - 1] == full[..n][n - 1] == full[n - 1];
    }
  }

  /** Two plans for one path are the same plan. */
  lemma PlanUnique(market: Market, intent: Intent, w: Weights, path: Path, p: RoutePlan, q: RoutePlan)
    requires IsPlanFor(market, intent, w, path, p) && IsPlanFor(market, intent, w, path, q)
    ensures p == q
  {
    ChainsAgree(market, intent, path, p.steps, q.steps, |path|);
    assert p.steps == p.steps[..|path|] == q.steps[..|path|] == q.steps;
  }

  // ---------- what the venues are asked, and when a path has a plan ----------

  /** Each step carries the venue's answer to a request for that very pair, side and size on behalf of the intent. */
  lemma StepIsQuoted(market: Market, intent: Intent, w: Weights, path: Path, plan: RoutePlan, k: nat)
    requires IsPlanFor(market, intent, w, path, plan) && k < |plan.steps|
    ensures var s, adapter := plan.steps[k], path[k].adapter;
      var request := QuoteRequest(s.adapterId, s.baseAsset, s.quoteAsset, intent.side, s.sizeIn, intent.id);
      && market.getQuote(request) == Some(s.quote)
      && s.sizeOutEstimate == s.quote.sizeOut && s.feeBps == s.quote.feeBps
      && s.stepIndex == k && s.side == intent.side
      && s.adapterId == adapter.id && s.baseAsset == path[k].base && s.quoteAsset == path[k].quote
      && s.venueKind == adapter.kind && s.supportLevel == path[k].supportLevel
      && s.scoreAdjustment == market.scoreAdapter(adapter, request, s.quote, market.healthy(adapter.id))
  {
    assert Link(market, intent, path, plan.steps, k);
  }

  /** The size that comes out of a path when each hop is asked for what the hop before put out. */
  ghost function SizeThrough(market: Market, intent: Intent, path: Path): Option<string> {
    if path == [] then Some(intent.size)
    else
      var e, sizeIn := path[|path| - 1], SizeThrough(market, intent, path[..|path| - 1]);
      if sizeIn.None? then None
      else
        var q := market.getQuote(
          QuoteRequest(e.adapter.id, e.base, e.quote, intent.side, sizeIn.value, intent.id));
        if q.None? then None else Some(q.value.sizeOut)
  }

  lemma {:induction false} ChainSize(market: Market, intent: Intent, path: Path, steps: seq<RouteStep>)
    requires Chains(market, intent, path, steps)
    ensures SizeThrough(market, intent, path) == Some(SizeInto(intent, steps, |steps|))
  {
    if path != [] {
      var n := |path| - 1;
      forall k | 0 <= k < n
        ensures Link(market, intent, path[..n], steps[..n], k)
      {
        assert Link(market, intent, path, steps, k);
      }
      ChainSize(market, intent, path[..n], steps[..n]);
      assert Link(market, intent, path, steps, n);
    }
  }

  lemma {:induction false} ChainExists(market: Market, intent: Intent, path: Path) returns (steps: seq<RouteStep>)
    requires SizeThrough(market, intent, path).Some?
    ensures Chains(market, intent, path, steps)
  {
    if path == [] {
      steps := [];
    } else {
      var n := |path| - 1;
      var e := path[n];
      steps := ChainExists(market, intent, path[..n]);
      ChainSize(market, intent, path[..n], steps);
      var size := SizeInto(intent, steps, n);
      var request := QuoteRequest(e.adapter.id, e.base, e.quote, intent.side, size, intent.id);
      var quote := market.getQuote(request).value;
      var step := RouteStep(
        n, e.adapter.id, e.adapter.kind, e.supportLevel, e.base, e.quote, intent.side, size, quote.sizeOut,
        quote.feeBps, quote, market.scoreAdapter(e.adapter, request, quote, market.healthy(e.adapter.id)));
      ChainsExtend(market, intent, path[..n], steps, e, step);
      assert path == path[..n] + [e];
      steps := steps + [step];
    }
  }

  /** A path has a plan exactly when no venue along it refuses, and the plan ends in the size that comes through. */
  lemma PlanExistsIff(market: Market, intent: Intent, w: Weights, path: Path)
    ensures (exists plan :: IsPlanFor(market, intent, w, path, plan)) <==> SizeThrough(market, intent, path).Some?
    ensures forall plan :: IsPlanFor(market, intent, w, path, plan) && path != [] ==>
      SizeThrough(market, intent, path) == Some(plan.steps[|path| - 1].sizeOutEstimate)
  {
    hide Totals, SizeThrough, Link;
    forall plan | IsPlanFor(market, intent, w, path, plan)
      ensures |plan.steps| == |path|
      ensures SizeThrough(market, intent, path) == Some(SizeInto(intent, plan.steps, |path|))
    {
      ChainSize(market, intent, path, plan.steps);
    }
    if SizeThrough(market, intent, path).Some? {
      var steps := ChainExists(market, intent, path);
      var plan := PlanOf(market, intent, w, path, steps);
    }
  }

  lemma PlanOf(market: Market, intent: Intent, w: Weights, path: Path, steps: seq<RouteStep>) returns (plan: RoutePlan)
    requires Chains(market, intent, path, steps)
    ensures IsPlanFor(market, intent, w, path, plan)
  {
    var fee, slippage := Total(steps, FeeOf), Total(steps, SlippageOf);
    plan := RoutePlan(
      intent.id, steps, CombineSupportLevels(Levels(steps)), fee, slippage, |steps|,
      ScoreRoute(w, fee, slippage, |steps|, AllHealthy(market, path), Total(steps, AdjustmentOf)));
  }

  // ---------- the score ----------

  ghost function HopScore(w: Weights, s: RouteStep): real {
    s.scoreAdjustment - w.fee * s.feeBps - w.slippage * s.quote.expectedSlippageBps - w.hops
  }

  ghost function TotalHopScore(w: Weights, steps: seq<RouteStep>): real {
    if steps == [] then 0.0
    else TotalHopScore(w, steps[..|steps| - 1]) + HopScore(w, steps[|steps| - 1])
  }

  lemma {:induction false} TotalsSplit(w: Weights, steps: seq<RouteStep>)
    ensures TotalHopScore(w, steps) ==
      Total(steps, AdjustmentOf) - w.fee * Total(steps, FeeOf)
      - w.slippage * Total(steps, SlippageOf) - w.hops * (|steps| as real)
  {
    if steps != [] {
      TotalsSplit(w, steps[..|steps| - 1]);
      var n := |steps| as real;
      assert w.hops * n == w.hops * (n - 1.0) + w.hops;
    }
  }

  /** The score is a sum over hops plus one bonus when every hop is healthy. */
  lemma ScoreSplitsOverHops(market: Market, intent: Intent, w: Weights, path: Path, plan: RoutePlan)
    requires IsPlanFor(market, intent, w, path, plan)
    ensures plan.score ==
      TotalHopScore(w, plan.steps) + (if AllHealthy(market, path) then w.reliability else 0.0)
  {
    TotalsSplit(w, plan.steps);
    ScoreForm(
      w, plan.totalFeeBps, plan.expectedSlippageBps, plan.hopCount, AllHealthy(market, path),
      Total(plan.steps, AdjustmentOf));
  }

  lemma ScoreForm(w: Weights, fee: real, slippage: real, hops: nat, healthOk: bool, adjustment: real)
    ensures ScoreRoute(w, fee, slippage, hops, healthOk, adjustment) ==
      adjustment - w.fee * fee - w.slippage * slippage - w.hops * (hops as real)
      + (if healthOk then w.reliability else 0.0)
  {
  }
}
