/** What each leg does to the gaps, when the rebalancer rests, and how many legs it can take. */
module RebalancerRuns {
  import opened Common
  import opened Rebalancer
  import Sorting

  // ---------- what a wallet update does ----------

  lemma {:induction false} AddToAmount(balances: seq<Balance>, asset: string, change: real, x: string)
    ensures AmountOf(AddTo(balances, asset, change), x) == AmountOf(balances, x) + if x == asset then change else 0.0
  {
    if balances != [] && balances[0].asset != asset {
      AddToAmount(balances[1..], asset, change, x);
      assert ([balances[0]] + AddTo(balances[1..], asset, change))[1..] == AddTo(balances[1..], asset, change);
    } else if balances != [] {
      assert ([Balance(asset, balances[0].amount + change)] + balances[1..])[1..] == balances[1..];
    }
  }

  lemma {:induction false} SumCons(b: Balance, rest: seq<Balance>)
    ensures SumNotional([b] + rest) == b.amount + SumNotional(rest)
  {
    if rest == [] {
      assert [b] + rest == [b] && [b][..0] == [];
    } else {
      var n := |rest| - 1;
      SumCons(b, rest[..n]);
      assert ([b] + rest)[..|rest|] == [b] + rest[..n];
    }
  }

  lemma {:induction false} AddToTotal(balances: seq<Balance>, asset: string, change: real)
    ensures SumNotional(AddTo(balances, asset, change)) == SumNotional(balances) + change
  {
    if balances == [] {
      assert [Balance(asset, change)][..0] == [];
    } else {
      assert balances == [balances[0]] + balances[1..];
      SumCons(balances[0], balances[1..]);
      if balances[0].asset == asset {
        SumCons(Balance(asset, balances[0].amount + change), balances[1..]);
      } else {
        AddToTotal(balances[1..], asset, change);
        SumCons(balances[0], AddTo(balances[1..], asset, change));
      }
    }
  }

  lemma ConsDistinct(b: Balance, rest: seq<Balance>)
    requires DistinctAssets(rest) && forall r :: r in rest ==> r.asset != b.asset
    ensures DistinctAssets([b] + rest)
  {
    var whole := [b] + rest;
    forall i, j | 0 <= i < j < |whole|
      ensures whole[i].asset != whole[j].asset
    {
      assert whole[j] == rest[j - 1] && rest[j - 1] in rest;
      assert i > 0 ==> whole[i] == rest[i - 1];
    }
  }

  lemma TailDistinct(balances: seq<Balance>)
    requires DistinctAssets(balances) && balances != []
    ensures DistinctAssets(balances[1..]) && forall r :: r in balances[1..] ==> r.asset != balances[0].asset
  {
  }

  /** Adding keeps assets distinct, and brings in or changes only the entry it names. */
  lemma {:induction false} AddToAssets(balances: seq<Balance>, asset: string, change: real)
    requires DistinctAssets(balances)
    ensures DistinctAssets(AddTo(balances, asset, change))
    ensures forall b :: b in AddTo(balances, asset, change) ==>
      b in balances || (b.asset == asset && b.amount == AmountOf(balances, asset) + change)
  {
    if balances != [] {
      hide DistinctAssets;
      var rest := balances[1..];
      TailDistinct(balances);
      if balances[0].asset == asset {
        ConsDistinct(Balance(asset, balances[0].amount + change), rest);
      } else {
        AddToAssets(rest, asset, change);
        ConsDistinct(balances[0], AddTo(rest, asset, change));
      }
    }
  }

  // ---------- the two ends of the gap vector ----------

  ghost predicate IsLeast(xs: seq<real>, i: nat)
    requires i < |xs|
  {
    AllAtLeast(xs, xs[i])
  }

  ghost predicate IsGreatest(xs: seq<real>, i: nat)
    requires i < |xs|
  {
    AllAtMost(xs, xs[i])
  }

  /** The heads of the two sorted copies are a least and a greatest delta. */
  lemma SortedEnds(deltas: seq<Delta>) returns (o: nat, u: nat)
    requires deltas != []
    ensures o < |deltas| && u < |deltas|
    ensures Sorting.Sort(Smaller, deltas) != [] && Sorting.Sort(Smaller, deltas)[0] == deltas[o]
    ensures Sorting.Sort(Larger, deltas) != [] && Sorting.Sort(Larger, deltas)[0] == deltas[u]
    ensures forall i :: 0 <= i < |deltas| ==>
      deltas[o].notionalDelta <= deltas[i].notionalDelta <= deltas[u].notionalDelta
  {
    hide Sorting.Sort;
    Sorting.HeadIsFirst(Smaller, deltas);
    Sorting.HeadIsFirst(Larger, deltas);
    var least, greatest := Sorting.Sort(Smaller, deltas)[0], Sorting.Sort(Larger, deltas)[0];
    o :| 0 <= o < |deltas| && deltas[o] == least;
    u :| 0 <= u < |deltas| && deltas[u] == greatest;
    forall i | 0 <= i < |deltas|
      ensures deltas[o].notionalDelta <= deltas[i].notionalDelta <= deltas[u].notionalDelta
    {
      assert deltas[i] in deltas;
      assert Smaller(least, deltas[i]) && Larger(greatest, deltas[i]);
    }
  }

  /** Sorting picks the target held most in excess, and the one lacking most. */
  lemma PickEnds(balances: seq<Balance>, targets: seq<Target>) returns (o: nat, u: nat)
    requires SumNotional(balances) > 0.0 && targets != []
    ensures o < |targets| && u < |targets|
    ensures var deltas, gaps := ComputeAllocationDeltas(balances, targets), Gaps(balances, targets);
      && |deltas| == |targets| && IsLeast(gaps, o) && IsGreatest(gaps, u)
      && Sorting.Sort(Smaller, deltas) != [] && Sorting.Sort(Smaller, deltas)[0] == deltas[o]
      && Sorting.Sort(Larger, deltas) != [] && Sorting.Sort(Larger, deltas)[0] == deltas[u]
      && forall i :: 0 <= i < |targets| ==> deltas[i].asset == targets[i].asset && deltas[i].notionalDelta == gaps[i]
  {
    DeltasAreGaps(balances, targets);
    o, u := SortedEnds(ComputeAllocationDeltas(balances, targets));
  }

  ghost predicate AllZero(xs: seq<real>) {
    forall i :: 0 <= i < |xs| ==> xs[i] == 0.0
  }

  /** Unless all gaps are zero, the least is negative and the greatest positive. */
  lemma EndsHaveSigns(balances: seq<Balance>, targets: seq<Target>, o: nat, u: nat)
    requires Sane(balances, targets) && o < |targets| && u < |targets|
    requires IsLeast(Gaps(balances, targets), o) && IsGreatest(Gaps(balances, targets), u)
    ensures var gaps := Gaps(balances, targets);
      AllZero(gaps) || gaps[o] < 0.0 < gaps[u]
  {
    var gaps := Gaps(balances, targets);
    GapsSumToZero(balances, targets);
    if gaps[o] >= 0.0 || gaps[u] <= 0.0 {
      assert AllAtLeast(gaps, 0.0) || AllAtMost(gaps, 0.0);
      OneSidedIsZero(gaps);
    }
  }

  // ---------- one leg ----------

  /** What the leg does to the vector of gaps. */
  ghost function Closed(gaps: seq<real>, o: nat, u: nat, size: real): seq<real>
    requires o < |gaps| && u < |gaps|
  {
    gaps[o := gaps[o] + size][u := gaps[u] - size]
  }

  ghost predicate SizeFits(gaps: seq<real>, o: nat, u: nat, size: real, cap: real)
    requires o < |gaps| && u < |gaps|
  {
    o != u && gaps[o] < 0.0 < gaps[u] && 0.0 < size == MinReal(MinReal(-gaps[o], gaps[u]), cap)
  }

  /** A leg runs from the target held most in excess to the one lacking most, no larger than either gap or the cap. */
  ghost predicate LegFits(balances: seq<Balance>, cfg: Config, leg: Leg, o: nat, u: nat) {
    && o < |cfg.targets| && u < |cfg.targets|
    && leg.baseAsset == cfg.targets[o].asset && leg.quoteAsset == cfg.targets[u].asset
    && SumNotional(balances) > 0.0 && cfg.targets[o].weight >= 0.0
    && IsLeast(Gaps(balances, cfg.targets), o) && IsGreatest(Gaps(balances, cfg.targets), u)
    && SizeFits(Gaps(balances, cfg.targets), o, u, leg.size, cfg.maxLegNotional)
  }

  lemma TradeShape(balances: seq<Balance>, cfg: Config) returns (o: nat, u: nat)
    requires Sane(balances, cfg.targets) && DecideRebalance(balances, cfg).Trade?
    ensures LegFits(balances, cfg, DecideRebalance(balances, cfg).leg, o, u)
  {
    var targets := cfg.targets;
    NoTargetsNoTrade(balances, cfg);
    o, u := PickEnds(balances, targets);
    EndsHaveSigns(balances, targets, o, u);
    assert targets[o] in targets;
    FirstTarget(targets, o);
  }

  lemma NoTargetsNoTrade(balances: seq<Balance>, cfg: Config)
    requires DecideRebalance(balances, cfg).Trade?
    ensures cfg.targets != [] && SumNotional(balances) > 0.0
  {
  }

  lemma {:induction false} FirstTarget(targets: seq<Target>, i: nat)
    requires DistinctTargets(targets) && i < |targets|
    ensures FindTarget(targets, targets[i].asset) == targets[i].weight
  {
    if i > 0 {
      assert targets[0].asset != targets[i].asset && targets[1..][i - 1] == targets[i];
      FirstTarget(targets[1..], i - 1);
    }
  }

  lemma LegKeepsTotal(balances: seq<Balance>, leg: Leg)
    ensures SumNotional(ApplyLeg(balances, leg)) == SumNotional(balances)
  {
    hide AddTo, SumNotional;
    AddToTotal(balances, leg.baseAsset, -leg.size);
    AddToTotal(AddTo(balances, leg.baseAsset, -leg.size), leg.quoteAsset, leg.size);
  }

  lemma LegMovesAmount(balances: seq<Balance>, leg: Leg, x: string)
    ensures AmountOf(ApplyLeg(balances, leg), x) ==
      AmountOf(balances, x)
      - (if x == leg.baseAsset then leg.size else 0.0) + (if x == leg.quoteAsset then leg.size else 0.0)
  {
    AddToAmount(balances, leg.baseAsset, -leg.size, x);
    AddToAmount(AddTo(balances, leg.baseAsset, -leg.size), leg.quoteAsset, leg.size, x);
  }

  lemma LegMovesGap(total: real, balances: seq<Balance>, targets: seq<Target>, leg: Leg, o: nat, u: nat, i: nat)
    requires DistinctTargets(targets) && o < |targets| && u < |targets| && o != u && i < |targets|
    requires leg.baseAsset == targets[o].asset && leg.quoteAsset == targets[u].asset
    ensures Gap(total, ApplyLeg(balances, leg), targets[i]) ==
      Gap(total, balances, targets[i]) + if i == o then leg.size else if i == u then -leg.size else 0.0
  {
    LegMovesAmount(balances, leg, targets[i].asset);
    assert i != o ==> targets[i].asset != targets[o].asset;
    assert i != u ==> targets[i].asset != targets[u].asset;
  }

  /** The leg closes exactly its two gaps, and conserves the total. */
  lemma LegClosesGaps(balances: seq<Balance>, cfg: Config, leg: Leg, o: nat, u: nat)
    requires DistinctTargets(cfg.targets) && o < |cfg.targets| && u < |cfg.targets| && o != u
    requires leg.baseAsset == cfg.targets[o].asset && leg.quoteAsset == cfg.targets[u].asset
    ensures SumNotional(ApplyLeg(balances, leg)) == SumNotional(balances)
    ensures Gaps(ApplyLeg(balances, leg), cfg.targets) == Closed(Gaps(balances, cfg.targets), o, u, leg.size)
  {
    LegKeepsTotal(balances, leg);
    var total := SumNotional(balances);
    var before, after := GapsOf(total, balances, cfg.targets), GapsOf(total, ApplyLeg(balances, leg), cfg.targets);
    forall i | 0 <= i < |cfg.targets|
      ensures after[i] == before[i] + if i == o then leg.size else if i == u then -leg.size else 0.0
    {
      LegMovesGap(total, balances, cfg.targets, leg, o, u, i);
    }
    SameVector(before, after, o, u, leg.size);
  }

  lemma SameVector(before: seq<real>, after: seq<real>, o: nat, u: nat, size: real)
    requires |before| == |after| && o < |before| && u < |before| && o != u
    requires forall i :: 0 <= i < |before| ==>
      after[i] == before[i] + if i == o then size else if i == u then -size else 0.0
    ensures after == Closed(before, o, u, size)
  {
  }

  lemma {:induction false} AmountNonNegative(balances: seq<Balance>, asset: string)
    requires forall b :: b in balances ==> b.amount >= 0.0
    ensures AmountOf(balances, asset) >= 0.0
  {
    if balances != [] { AmountNonNegative(balances[1..], asset); }
  }

  /** Adding to a listed target keeps a wallet sane as long as that holding does not go negative. */
  lemma AddKeepsSane(balances: seq<Balance>, targets: seq<Target>, i: nat, change: real)
    requires Sane(balances, targets) && i < |targets| && AmountOf(balances, targets[i].asset) + change >= 0.0
    ensures Sane(AddTo(balances, targets[i].asset, change), targets)
  {
    var after := AddTo(balances, targets[i].asset, change);
    AddToAssets(balances, targets[i].asset, change);
    assert targets[i] in targets;
    forall b | b in after
      ensures b.amount >= 0.0 && exists t :: t in targets && t.asset == b.asset
    {
      if b !in balances {
        assert b.asset == targets[i].asset;
      }
    }
  }

  /** A leg never overdraws: what it sells is part of the excess. */
  lemma LegKeepsSane(balances: seq<Balance>, cfg: Config, leg: Leg, o: nat, u: nat)
    requires Sane(balances, cfg.targets) && LegFits(balances, cfg, leg, o, u)
    ensures Sane(ApplyLeg(balances, leg), cfg.targets)
  {
    hide Sane, AmountOf, AddTo, IsLeast, IsGreatest;
    var targets := cfg.targets;
    NonNegativeProduct(targets[o].weight, SumNotional(balances));
    assert leg.size <= -Gaps(balances, targets)[o] == -Gap(SumNotional(balances), balances, targets[o]);
    AddKeepsSane(balances, targets, o, -leg.size);
    var mid := AddTo(balances, leg.baseAsset, -leg.size);
    AmountNonNegative(mid, leg.quoteAsset);
    AddKeepsSane(mid, targets, u, leg.size);
  }

  lemma NonNegativeProduct(x: real, y: real)
    requires x >= 0.0 && y >= 0.0
    ensures x * y >= 0.0
  {
  }

  // ---------- what a leg does to the two sums ----------

  /** The total distance from the targets. */
  ghost function Distance(xs: seq<real>): real {
    if xs == [] then 0.0 else Distance(xs[..|xs| - 1]) + Abs(xs[|xs| - 1])
  }

  lemma {:induction false} DistanceUpdate(xs: seq<real>, i: nat, x: real)
    requires i < |xs|
    ensures Distance(xs[i := x]) == Distance(xs) - Abs(xs[i]) + Abs(x)
  {
    var n := |xs| - 1;
    if i < n {
      DistanceUpdate(xs[..n], i, x);
      assert xs[i := x][..n] == xs[..n][i := x];
    } else {
      assert xs[i := x][..n] == xs[..n];
    }
  }

  lemma Shorten(xs: seq<real>, i: nat, change: real, size: real)
    requires i < |xs| && 0.0 < size
    requires (change == size && xs[i] + size <= 0.0) || (change == -size && xs[i] - size >= 0.0)
    ensures Distance(xs[i := xs[i] + change]) == Distance(xs) - size
  {
    DistanceUpdate(xs, i, xs[i] + change);
  }

  lemma ShortenBoth(xs: seq<real>, o: nat, u: nat, low: real, high: real, size: real)
    requires o < |xs| && u < |xs| && o != u && size > 0.0
    requires low == xs[o] + size <= 0.0 <= high == xs[u] - size
    ensures Distance(xs[o := low][u := high]) == Distance(xs) - size - size
  {
    var mid := xs[o := low];
    assert low == xs[o] + size;
    Shorten(xs, o, size, size);
    assert mid[u] == xs[u];
    assert high == mid[u] + -size;
    Shorten(mid, u, -size, size);
  }

  lemma SizeWithinGaps(gaps: seq<real>, o: nat, u: nat, size: real, cap: real)
    requires o < |gaps| && u < |gaps| && SizeFits(gaps, o, u, size, cap)
    ensures o != u && size > 0.0 && gaps[o] + size <= 0.0 <= gaps[u] - size
  {
  }

  /** Neither end crosses its target, and the total distance falls by exactly twice the leg. */
  lemma DistanceFalls(gaps: seq<real>, o: nat, u: nat, size: real, cap: real)
    requires o < |gaps| && u < |gaps| && SizeFits(gaps, o, u, size, cap)
    ensures Distance(Closed(gaps, o, u, size)) == Distance(gaps) - size - size
    ensures gaps[o] + size <= 0.0 <= gaps[u] - size
  {
    hide Distance;
    SizeWithinGaps(gaps, o, u, size, cap);
    var low, high := gaps[o] + size, gaps[u] - size;
    ShortenBoth(gaps, o, u, low, high, size);
    assert Closed(gaps, o, u, size) == gaps[o := low][u := high];
  }

  /** How many assets are off their targets. */
  ghost function OffTargets(xs: seq<real>): nat {
    if xs == [] then 0 else OffTargets(xs[..|xs| - 1]) + if xs[|xs| - 1] == 0.0 then 0 else 1
  }

  /** One unit for every asset off its target. */
  ghost function OffUnits(xs: seq<real>, unit: real): real {
    if xs == [] then 0.0
    else OffUnits(xs[..|xs| - 1], unit) + if xs[|xs| - 1] == 0.0 then 0.0 else unit
  }

  lemma {:induction false} OffUnitsUpdate(xs: seq<real>, unit: real, i: nat, x: real)
    requires i < |xs|
    ensures OffUnits(xs[i := x], unit) ==
      OffUnits(xs, unit) - (if xs[i] == 0.0 then 0.0 else unit) + (if x == 0.0 then 0.0 else unit)
  {
    var n := |xs| - 1;
    if i < n {
      OffUnitsUpdate(xs[..n], unit, i, x);
      assert xs[i := x][..n] == xs[..n][i := x];
    } else {
      assert xs[i := x][..n] == xs[..n];
    }
  }

  /** A leg below the cap brings an asset onto its target; no leg takes one off. */
  lemma OffTargetFalls(gaps: seq<real>, o: nat, u: nat, size: real, cap: real, unit: real)
    requires o < |gaps| && u < |gaps| && SizeFits(gaps, o, u, size, cap) && unit >= 0.0
    ensures OffUnits(Closed(gaps, o, u, size), unit) <= OffUnits(gaps, unit) - if size < cap then unit else 0.0
  {
    OffUnitsUpdate(gaps, unit, o, gaps[o] + size);
    OffUnitsUpdate(gaps[o := gaps[o] + size], unit, u, gaps[u] - size);
  }

  /** Twice the cap for every off-target asset, plus the total distance from the targets. */
  ghost function Work(gaps: seq<real>, cap: real): real {
    OffUnits(gaps, 2.0 * cap) + Distance(gaps)
  }

  /** Each leg does at least twice the cap of the work. */
  lemma LegDoesWork(gaps: seq<real>, o: nat, u: nat, size: real, cap: real)
    requires o < |gaps| && u < |gaps| && SizeFits(gaps, o, u, size, cap)
    ensures Work(Closed(gaps, o, u, size), cap) <= Work(gaps, cap) - 2.0 * cap
  {
    DistanceFalls(gaps, o, u, size, cap);
    OffTargetFalls(gaps, o, u, size, cap, 2.0 * cap);
  }

  lemma {:induction false} OffUnitsIsCount(xs: seq<real>, unit: real)
    requires unit >= 0.0
    ensures OffUnits(xs, unit) == (OffTargets(xs) as real) * unit
    ensures OffUnits(xs, unit) >= 0.0 && Distance(xs) >= 0.0
  {
    if xs != [] {
      var n := |xs| - 1;
      OffUnitsIsCount(xs[..n], unit);
      Distribute(OffTargets(xs[..n]) as real, if xs[n] == 0.0 then 0.0 else 1.0, unit);
    }
  }

  lemma WorkIsCount(gaps: seq<real>, cap: real)
    requires cap >= 0.0
    ensures Work(gaps, cap) == (OffTargets(gaps) as real) * (2.0 * cap) + Distance(gaps) >= 0.0
  {
    OffUnitsIsCount(gaps, 2.0 * cap);
  }

  /** No component changes sign. */
  ghost predicate NoneCrosses(before: seq<real>, after: seq<real>) {
    |before| == |after| && forall i :: 0 <= i < |before| ==>
      (before[i] >= 0.0 ==> 0.0 <= after[i] <= before[i]) && (before[i] <= 0.0 ==> before[i] <= after[i] <= 0.0)
  }

  /**
   * A leg is capped, conserves the total, takes no asset past its target, and shortens the distance by exactly
   * twice its size.
   */
  lemma EachLeg(balances: seq<Balance>, cfg: Config)
    requires Sane(balances, cfg.targets) && DecideRebalance(balances, cfg).Trade?
    ensures var leg := DecideRebalance(balances, cfg).leg;
      var before, after := Gaps(balances, cfg.targets), Gaps(ApplyLeg(balances, leg), cfg.targets);
      && 0.0 < leg.size <= cfg.maxLegNotional
      && SumNotional(ApplyLeg(balances, leg)) == SumNotional(balances)
      && NoneCrosses(before, after)
      && Distance(after) == Distance(before) - 2.0 * leg.size
  {
    var leg, gaps := DecideRebalance(balances, cfg).leg, Gaps(balances, cfg.targets);
    var o, u := TradeShape(balances, cfg);
    LegClosesGaps(balances, cfg, leg, o, u);
    DistanceFalls(gaps, o, u, leg.size, cfg.maxLegNotional);
    ClosedDoesNotCross(gaps, o, u, leg.size, cfg.maxLegNotional);
  }

  lemma ClosedDoesNotCross(gaps: seq<real>, o: nat, u: nat, size: real, cap: real)
    requires o < |gaps| && u < |gaps| && SizeFits(gaps, o, u, size, cap)
    ensures NoneCrosses(gaps, Closed(gaps, o, u, size))
  {
  }

  // ---------- runs ----------

  /** At tick k the wallet trades, and the next wallet is what the leg leaves. */
  ghost predicate TradesAt(cfg: Config, wallets: seq<seq<Balance>>, k: nat)
    requires k + 1 < |wallets|
  {
    var decision := DecideRebalance(wallets[k], cfg);
    decision.Trade? && wallets[k + 1] == ApplyLeg(wallets[k], decision.leg)
  }

  /** A run of consecutive ticks that all trade, from a sane wallet. */
  ghost predicate IsTradingRun(cfg: Config, wallets: seq<seq<Balance>>) {
    && wallets != [] && Sane(wallets[0], cfg.targets)
    && forall k :: 0 <= k < |wallets| - 1 ==> TradesAt(cfg, wallets, k)
  }

  ghost function WorkOf(balances: seq<Balance>, cfg: Config): real {
    Work(Gaps(balances, cfg.targets), cfg.maxLegNotional)
  }

  lemma TradeEffect(balances: seq<Balance>, cfg: Config)
    requires Sane(balances, cfg.targets) && DecideRebalance(balances, cfg).Trade?
    ensures var after := ApplyLeg(balances, DecideRebalance(balances, cfg).leg);
      && Sane(after, cfg.targets) && SumNotional(after) == SumNotional(balances)
      && WorkOf(after, cfg) <= WorkOf(balances, cfg) - 2.0 * cfg.maxLegNotional
  {
    var leg := DecideRebalance(balances, cfg).leg;
    var o, u := TradeShape(balances, cfg);
    LegClosesGaps(balances, cfg, leg, o, u);
    LegKeepsSane(balances, cfg, leg, o, u);
    LegDoesWork(Gaps(balances, cfg.targets), o, u, leg.size, cfg.maxLegNotional);
  }

  /** Over every run the wallet stays sane and its total is conserved, while the work shrinks by one unit a tick. */
  lemma {:induction false} RunConserves(cfg: Config, wallets: seq<seq<Balance>>, k: nat)
    requires IsTradingRun(cfg, wallets) && k < |wallets|
    ensures Sane(wallets[k], cfg.targets) && SumNotional(wallets[k]) == SumNotional(wallets[0])
    ensures WorkOf(wallets[k], cfg) <= WorkOf(wallets[0], cfg) - Times(k, 2.0 * cfg.maxLegNotional)
  {
    hide WorkOf, Sane, DecideRebalance, SumNotional, ApplyLeg;
    if k > 0 {
      RunConserves(cfg, wallets, k - 1);
      assert TradesAt(cfg, wallets, k - 1);
      TradeEffect(wallets[k - 1], cfg);
    }
  }

  ghost function Times(n: nat, unit: real): real {
    if n == 0 then 0.0 else Times(n - 1, unit) + unit
  }

  lemma {:induction false} TimesIsProduct(n: nat, unit: real)
    ensures Times(n, unit) == (n as real) * unit
  {
    if n > 0 {
      TimesIsProduct(n - 1, unit);
      Distribute((n - 1) as real, 1.0, unit);
      assert (n - 1) as real + 1.0 == n as real;
    }
  }

  /** Consecutive trades number at most the off-target assets plus the distance over twice the cap. */
  lemma Converges(cfg: Config, wallets: seq<seq<Balance>>)
    requires IsTradingRun(cfg, wallets) && cfg.maxLegNotional > 0.0
    ensures var gaps := Gaps(wallets[0], cfg.targets);
      (|wallets| - 1) as real <= OffTargets(gaps) as real + Distance(gaps) / (2.0 * cfg.maxLegNotional)
  {
    hide Gaps, Sane, Work, Times, OffTargets, Distance, TradesAt;
    var n, unit := |wallets| - 1, 2.0 * cfg.maxLegNotional;
    RunConserves(cfg, wallets, n);
    WorkIsCount(Gaps(wallets[0], cfg.targets), cfg.maxLegNotional);
    WorkIsCount(Gaps(wallets[n], cfg.targets), cfg.maxLegNotional);
    CountLegs(n, OffTargets(Gaps(wallets[0], cfg.targets)) as real, Distance(Gaps(wallets[0], cfg.targets)), unit);
  }

  lemma CountLegs(n: nat, off: real, distance: real, unit: real)
    requires unit > 0.0 && Times(n, unit) <= off * unit + distance
    ensures n as real <= off + distance / unit
  {
    TimesIsProduct(n, unit);
    DivideOut(n as real, off, distance, unit);
  }

  lemma DivideOut(n: real, a: real, b: real, unit: real)
    requires unit > 0.0 && n * unit <= a * unit + b
    ensures n <= a + b / unit
  {
    var q := b / unit;
    assert b == q * unit;
    Distribute(a, q, unit);
    if n > a + q { Stretch(n, a + q, unit); }
  }

  // ---------- where it rests ----------

  ghost predicate WithinDrift(balances: seq<Balance>, cfg: Config) {
    forall d :: d in ComputeAllocationDeltas(balances, cfg.targets) ==>
      -cfg.driftThresholdBps < d.driftBps as real < cfg.driftThresholdBps
  }

  lemma DriftFollowsGap(balances: seq<Balance>, total: real, a: Target, b: Target)
    requires total > 0.0 && Gap(total, balances, a) <= Gap(total, balances, b)
    ensures DeltaFor(balances, total, a).driftBps >= DeltaFor(balances, total, b).driftBps
  {
    var p, q := AmountOf(balances, a.asset) / total, AmountOf(balances, b.asset) / total;
    Scale(a.weight, AmountOf(balances, a.asset), total);
    Scale(b.weight, AmountOf(balances, b.asset), total);
    var x, y := a.weight - p, b.weight - q;
    assert x * total <= y * total;
    if x > y { Stretch(x, y, total); }
    RoundMonotone((q - b.weight) * 10_000.0, (p - a.weight) * 10_000.0);
  }

  lemma DriftsBetweenEnds(balances: seq<Balance>, targets: seq<Target>, o: nat, u: nat, threshold: real)
    requires SumNotional(balances) > 0.0 && o < |targets| && u < |targets|
    requires IsLeast(Gaps(balances, targets), o) && IsGreatest(Gaps(balances, targets), u)
    ensures var deltas := ComputeAllocationDeltas(balances, targets);
      (forall d :: d in deltas ==> -threshold < d.driftBps as real < threshold) <==>
        AbsInt(deltas[o].driftBps) as real < threshold && AbsInt(deltas[u].driftBps) as real < threshold
  {
    var deltas, gaps := ComputeAllocationDeltas(balances, targets), Gaps(balances, targets);
    forall i | 0 <= i < |targets|
      ensures deltas[u].driftBps <= deltas[i].driftBps <= deltas[o].driftBps
    {
      assert gaps[o] <= gaps[i] <= gaps[u];
      DriftFollowsGap(balances, SumNotional(balances), targets[o], targets[i]);
      DriftFollowsGap(balances, SumNotional(balances), targets[i], targets[u]);
    }
    WorstIsEnd(deltas, o, u, threshold);
  }

  /** The decision, once the two ends are known. */
  lemma DecisionFromEnds(balances: seq<Balance>, cfg: Config, o: nat, u: nat)
    requires SumNotional(balances) > 0.0 && cfg.targets != []
    requires forall t :: t in cfg.targets ==> FindTarget(cfg.targets, t.asset) > 0.0
    requires var deltas := ComputeAllocationDeltas(balances, cfg.targets);
      && o < |deltas| && u < |deltas|
      && Sorting.Sort(Smaller, deltas) != [] && Sorting.Sort(Smaller, deltas)[0] == deltas[o]
      && Sorting.Sort(Larger, deltas) != [] && Sorting.Sort(Larger, deltas)[0] == deltas[u]
    ensures var deltas := ComputeAllocationDeltas(balances, cfg.targets);
      DecideRebalance(balances, cfg).Noop? <==>
        || deltas[o].asset == deltas[u].asset
        || (AbsInt(deltas[o].driftBps) as real < cfg.driftThresholdBps
          && AbsInt(deltas[u].driftBps) as real < cfg.driftThresholdBps)
        || MinReal(MinReal(Abs(deltas[o].notionalDelta), Abs(deltas[u].notionalDelta)), cfg.maxLegNotional) <= 0.0
  {
  }

  /** With positive weights, a positive total and a positive cap, it rests if and only if it is balanced. */
  lemma RestsIffBalanced(balances: seq<Balance>, cfg: Config)
    requires Sane(balances, cfg.targets) && SumNotional(balances) > 0.0 && cfg.maxLegNotional > 0.0
    requires forall t :: t in cfg.targets ==> t.weight > 0.0
    ensures DecideRebalance(balances, cfg).Noop? <==>
      AllZero(Gaps(balances, cfg.targets)) || WithinDrift(balances, cfg)
  {
    hide DecideRebalance, AmountOf, Gap;
    var targets, gaps := cfg.targets, Gaps(balances, cfg.targets);
    assert targets != [];
    forall t | t in targets
      ensures FindTarget(targets, t.asset) > 0.0
    {
      var i :| 0 <= i < |targets| && targets[i] == t;
      FirstTarget(targets, i);
    }
    var o, u := PickEnds(balances, targets);
    EndsHaveSigns(balances, targets, o, u);
    DriftsBetweenEnds(balances, targets, o, u, cfg.driftThresholdBps);
    DecisionFromEnds(balances, cfg, o, u);
    assert o != u ==> targets[o].asset != targets[u].asset;
  }

  /** The order of the reasons for resting: no balances, nothing held, a target without a positive weight. */
  lemma EarlyReasons(balances: seq<Balance>, cfg: Config)
    requires DistinctTargets(cfg.targets)
    ensures var d := DecideRebalance(balances, cfg);
      && (d == Noop(NoBalances) <==> balances == [])
      && (d == Noop(NothingHeld) <==> balances != [] && SumNotional(balances) <= 0.0)
      && (d == Noop(NoPositiveTargets) <==>
            balances != [] && SumNotional(balances) > 0.0 && exists t :: t in cfg.targets && t.weight <= 0.0)
  {
    var targets := cfg.targets;
    forall t | t in targets
      ensures FindTarget(targets, t.asset) == t.weight
    {
      var i :| 0 <= i < |targets| && targets[i] == t;
      FirstTarget(targets, i);
    }
  }

  lemma OnlyWithDeltas(balances: seq<Balance>, cfg: Config)
    ensures ComputeAllocationDeltas(balances, cfg.targets) == [] ==>
      DecideRebalance(balances, cfg).Noop? && !DecideRebalance(balances, cfg).reason.WithinThreshold?
  {
  }

  lemma ReportFromEnds(balances: seq<Balance>, cfg: Config, o: nat, u: nat)
    requires var deltas := ComputeAllocationDeltas(balances, cfg.targets);
      && o < |deltas| && u < |deltas|
      && Sorting.Sort(Smaller, deltas) != [] && Sorting.Sort(Smaller, deltas)[0] == deltas[o]
      && Sorting.Sort(Larger, deltas) != [] && Sorting.Sort(Larger, deltas)[0] == deltas[u]
    ensures var d, deltas := DecideRebalance(balances, cfg), ComputeAllocationDeltas(balances, cfg.targets);
      && (d.Trade? ==> d.leg.baseAsset == deltas[o].asset && d.leg.driftBps == deltas[o].driftBps)
      && (d.Noop? && d.reason.WithinThreshold? ==>
            && (AbsInt(deltas[o].driftBps) as real) < d.reason.worst as real + 0.5
            && (AbsInt(deltas[u].driftBps) as real) < d.reason.worst as real + 0.5
            && (deltas[o].driftBps in {d.reason.worst, -d.reason.worst}
                || deltas[u].driftBps in {d.reason.worst, -d.reason.worst}))
  {
    hide Sorting.Sort, AmountOf;
  }

  /** A leg reports the drift of the asset it sells; a rest within the threshold reports the worst drift of all. */
  lemma ReportedDrift(balances: seq<Balance>, cfg: Config)
    requires Sane(balances, cfg.targets)
    ensures var d, deltas := DecideRebalance(balances, cfg), ComputeAllocationDeltas(balances, cfg.targets);
      && (d.Trade? ==>
            exists delta :: delta in deltas && delta.asset == d.leg.baseAsset && delta.driftBps == d.leg.driftBps)
      && (d.Noop? && d.reason.WithinThreshold? ==>
            && (forall delta :: delta in deltas ==> -d.reason.worst <= delta.driftBps <= d.reason.worst)
            && exists delta :: delta in deltas && delta.driftBps in {d.reason.worst, -d.reason.worst})
  {
    hide AmountOf, Gap, DecideRebalance, AbsInt;
    var d, deltas := DecideRebalance(balances, cfg), ComputeAllocationDeltas(balances, cfg.targets);
    OnlyWithDeltas(balances, cfg);
    if deltas != [] {
      var o, u := PickEnds(balances, cfg.targets);
      assert deltas[o] in deltas && deltas[u] in deltas;
      ReportFromEnds(balances, cfg, o, u);
      if d.Noop? && d.reason.WithinThreshold? {
        DriftsBetweenEnds(balances, cfg.targets, o, u, d.reason.worst as real + 0.5);
      }
    }
  }

  lemma WorstIsEnd(deltas: seq<Delta>, o: nat, u: nat, threshold: real)
    requires o < |deltas| && u < |deltas|
    requires forall i :: 0 <= i < |deltas| ==> deltas[u].driftBps <= deltas[i].driftBps <= deltas[o].driftBps
    ensures (forall d :: d in deltas ==> -threshold < d.driftBps as real < threshold) <==>
      AbsInt(deltas[o].driftBps) as real < threshold && AbsInt(deltas[u].driftBps) as real < threshold
  {
    assert deltas[o] in deltas && deltas[u] in deltas;
  }
}
