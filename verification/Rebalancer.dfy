/** The treasury rebalancer: one corrective leg per tick, over exact reals. */
module Rebalancer {
  import opened Common
  import Sorting

  datatype Balance = Balance(asset: string, amount: real)

  datatype Target = Target(asset: string, weight: real)

  datatype Config = Config(driftThresholdBps: real, maxLegNotional: real, targets: seq<Target>)

  datatype Delta = Delta(asset: string, currentWeight: real, targetWeight: real, driftBps: int, notionalDelta: real)

  datatype Leg = Leg(baseAsset: string, quoteAsset: string, size: real, driftBps: int)

  datatype Reason = NoBalances | NothingHeld | NoPositiveTargets | NoPair | WithinThreshold(worst: int) | ZeroSize

  datatype Decision = Noop(reason: Reason) | Trade(leg: Leg)

  // ---------- the decision ----------

  function SumNotional(balances: seq<Balance>): real {
    if balances == [] then 0.0 else SumNotional(balances[..|balances| - 1]) + balances[|balances| - 1].amount
  }

  function FindTarget(targets: seq<Target>, asset: string): real {
    if targets == [] then 0.0
    else if targets[0].asset == asset then targets[0].weight
    else FindTarget(targets[1..], asset)
  }

  /** The amount held of an asset; zero when the wallet has no entry for it. */
  function AmountOf(balances: seq<Balance>, asset: string): real {
    if balances == [] then 0.0
    else if balances[0].asset == asset then balances[0].amount
    else AmountOf(balances[1..], asset)
  }

  function DeltaFor(balances: seq<Balance>, total: real, target: Target): Delta
    requires total > 0.0
  {
    var currentWeight := AmountOf(balances, target.asset) / total;
    Delta(target.asset, currentWeight, target.weight,
          Round((currentWeight - target.weight) * 10_000.0), (target.weight - currentWeight) * total)
  }

  function ComputeAllocationDeltas(balances: seq<Balance>, targets: seq<Target>): seq<Delta> {
    var total := SumNotional(balances);
    if total <= 0.0 then []
    else seq(|targets|, i requires 0 <= i < |targets| => DeltaFor(balances, total, targets[i]))
  }

  /** A drift is the nearest whole number of ten-thousandths of the total held above the target's share of it. */
  lemma DriftIsInBasisPoints(balances: seq<Balance>, targets: seq<Target>, i: nat)
    requires SumNotional(balances) > 0.0 && i < |targets|
    ensures var deltas, total := ComputeAllocationDeltas(balances, targets), SumNotional(balances);
      && |deltas| == |targets|
      && DriftFits(deltas[i].driftBps, AmountOf(balances, targets[i].asset), targets[i].weight, total)
  {
    hide SumNotional, AmountOf, DriftFits, DeltaFor;
    NearestDrift(balances, SumNotional(balances), targets[i]);
  }

  ghost predicate DriftFits(drift: int, held: real, weight: real, total: real) {
    IsNearest(drift, 10_000.0 * (held - weight * total), total)
  }

  /** The nearest number of units in x, halves rounded up. */
  ghost predicate IsNearest(n: int, x: real, unit: real) {
    (n as real - 0.5) * unit <= x < (n as real + 0.5) * unit
  }

  lemma NearestDrift(balances: seq<Balance>, total: real, target: Target)
    requires total > 0.0
    ensures DriftFits(
      DeltaFor(balances, total, target).driftBps, AmountOf(balances, target.asset), target.weight, total)
  {
    hide Round, AmountOf, IsNearest;
    var held, weight := AmountOf(balances, target.asset), target.weight;
    NearestSurplus(held, total, weight, held - weight * total);
    var drift := DeltaFor(balances, total, target).driftBps;
    assert drift == Round((held / total - weight) * 10_000.0);
    Fits(drift, held, weight, total, 10_000.0 * (held - weight * total));
  }

  lemma Fits(drift: int, held: real, weight: real, total: real, x: real)
    requires IsNearest(drift, x, total) && x == 10_000.0 * (held - weight * total)
    ensures DriftFits(drift, held, weight, total)
  {
    hide IsNearest;
  }

  lemma NearestSurplus(held: real, total: real, weight: real, surplus: real)
    requires total > 0.0 && surplus == held - weight * total
    ensures IsNearest(Round((held / total - weight) * 10_000.0), 10_000.0 * surplus, total)
  {
    hide IsNearest, Round;
    Scaled(held, total, weight);
    RoundIsNearest((held / total - weight) * 10_000.0, total, 10_000.0 * surplus);
  }

  lemma RoundIsNearest(x: real, unit: real, scaled: real)
    requires unit > 0.0 && scaled == x * unit
    ensures IsNearest(Round(x), scaled, unit)
  {
    RoundBetween(x, Round(x));
    ScaleBetween(Round(x) as real - 0.5, x, Round(x) as real + 0.5, unit, scaled);
  }

  lemma Scaled(held: real, total: real, weight: real)
    requires total > 0.0
    ensures (held / total - weight) * 10_000.0 * total == 10_000.0 * (held - weight * total)
  {
    assert held / total * total == held;
  }

  predicate Smaller(a: Delta, b: Delta) {
    a.notionalDelta <= b.notionalDelta
  }

  predicate Larger(a: Delta, b: Delta) {
    a.notionalDelta >= b.notionalDelta
  }

  function AbsInt(x: int): int {
    if x < 0 then -x else x
  }

  function Abs(x: real): real {
    if x < 0.0 then -x else x
  }

  function MinReal(x: real, y: real): real {
    if x < y then x else y
  }

  function DecideRebalance(balances: seq<Balance>, cfg: Config): Decision {
    if balances == [] then Noop(NoBalances)
    else if SumNotional(balances) <= 0.0 then Noop(NothingHeld)
    else if exists t :: t in cfg.targets && FindTarget(cfg.targets, t.asset) <= 0.0 then Noop(NoPositiveTargets)
    else
      var deltas := ComputeAllocationDeltas(balances, cfg.targets);
      var ascending, descending := Sorting.Sort(Smaller, deltas), Sorting.Sort(Larger, deltas);
      if ascending == [] || descending == [] then Noop(NoPair)
      else
        var over, under := ascending[0], descending[0];
        if over.asset == under.asset then Noop(NoPair)
        else
          var a, b := AbsInt(over.driftBps), AbsInt(under.driftBps);
          var worst := if a < b then b else a;
          if worst as real < cfg.driftThresholdBps then Noop(WithinThreshold(worst))
          else
            var size := MinReal(MinReal(Abs(over.notionalDelta), Abs(under.notionalDelta)), cfg.maxLegNotional);
            if size <= 0.0 then Noop(ZeroSize)
            else Trade(Leg(over.asset, under.asset, size, over.driftBps))
  }

  // ---------- wallets ----------

  function AddTo(balances: seq<Balance>, asset: string, change: real): seq<Balance> {
    if balances == [] then [Balance(asset, change)]
    else if balances[0].asset == asset then [Balance(asset, balances[0].amount + change)] + balances[1..]
    else [balances[0]] + AddTo(balances[1..], asset, change)
  }

  /** The wallet after the leg settles at par. */
  function ApplyLeg(balances: seq<Balance>, leg: Leg): seq<Balance> {
    AddTo(AddTo(balances, leg.baseAsset, -leg.size), leg.quoteAsset, leg.size)
  }

  ghost predicate DistinctAssets(balances: seq<Balance>) {
    forall i, j :: 0 <= i < j < |balances| ==> balances[i].asset != balances[j].asset
  }

  ghost predicate DistinctTargets(targets: seq<Target>) {
    forall i, j :: 0 <= i < j < |targets| ==> targets[i].asset != targets[j].asset
  }

  ghost predicate Covered(balances: seq<Balance>, targets: seq<Target>) {
    forall b :: b in balances ==> exists t :: t in targets && t.asset == b.asset
  }

  ghost function SumWeights(targets: seq<Target>): real {
    if targets == [] then 0.0 else SumWeights(targets[..|targets| - 1]) + targets[|targets| - 1].weight
  }

  /** Weights sum to one over distinct assets; every holding is non-negative, listed once, and has a target. */
  ghost predicate Sane(balances: seq<Balance>, targets: seq<Target>) {
    && DistinctTargets(targets) && SumWeights(targets) == 1.0
    && DistinctAssets(balances) && Covered(balances, targets)
    && forall b :: b in balances ==> b.amount >= 0.0
  }

  // ---------- sums over the vector of notional deltas ----------

  /** What a target still lacks of its share of the total; negative where the wallet holds too much. */
  ghost function Gap(total: real, balances: seq<Balance>, target: Target): real {
    target.weight * total - AmountOf(balances, target.asset)
  }

  ghost function GapsOf(total: real, balances: seq<Balance>, targets: seq<Target>): seq<real> {
    seq(|targets|, i requires 0 <= i < |targets| => Gap(total, balances, targets[i]))
  }

  ghost function Gaps(balances: seq<Balance>, targets: seq<Target>): seq<real> {
    GapsOf(SumNotional(balances), balances, targets)
  }

  ghost function Sum(xs: seq<real>): real {
    if xs == [] then 0.0 else Sum(xs[..|xs| - 1]) + xs[|xs| - 1]
  }

  lemma {:induction false} SumUpdate(xs: seq<real>, i: nat, x: real)
    requires i < |xs|
    ensures Sum(xs[i := x]) == Sum(xs) - xs[i] + x
  {
    var n := |xs| - 1;
    if i < n {
      SumUpdate(xs[..n], i, x);
      assert xs[i := x][..n] == xs[..n][i := x];
    } else {
      assert xs[i := x][..n] == xs[..n];
    }
  }

  ghost predicate AllAtLeast(xs: seq<real>, low: real) {
    forall i :: 0 <= i < |xs| ==> xs[i] >= low
  }

  ghost predicate AllAtMost(xs: seq<real>, high: real) {
    forall i :: 0 <= i < |xs| ==> xs[i] <= high
  }

  lemma {:induction false} OneSidedSign(xs: seq<real>)
    ensures AllAtLeast(xs, 0.0) ==> Sum(xs) >= 0.0
    ensures AllAtMost(xs, 0.0) ==> Sum(xs) <= 0.0
  {
    if xs != [] { OneSidedSign(xs[..|xs| - 1]); }
  }

  /** A vector that sums to zero and does not change sign is zero. */
  lemma {:induction false} OneSidedIsZero(xs: seq<real>)
    requires Sum(xs) == 0.0 && (AllAtLeast(xs, 0.0) || AllAtMost(xs, 0.0))
    ensures AllAtLeast(xs, 0.0) && AllAtMost(xs, 0.0)
  {
    if xs != [] {
      var n := |xs| - 1;
      OneSidedSign(xs[..n]);
      OneSidedIsZero(xs[..n]);
      assert forall i :: 0 <= i < n ==> xs[i] == xs[..n][i];
    }
  }

  // ---------- the gaps sum to zero ----------

  lemma {:induction false} AmountOutside(balances: seq<Balance>, asset: string)
    requires forall b :: b in balances ==> b.asset != asset
    ensures AmountOf(balances, asset) == 0.0
  {
    if balances != [] { AmountOutside(balances[1..], asset); }
  }

  lemma {:induction false} AmountListed(balances: seq<Balance>, i: nat)
    requires DistinctAssets(balances) && i < |balances|
    ensures AmountOf(balances, balances[i].asset) == balances[i].amount
  {
    if i > 0 {
      assert balances[0].asset != balances[i].asset;
      assert balances[1..][i - 1] == balances[i];
      AmountListed(balances[1..], i - 1);
    }
  }

  ghost function Held(balances: seq<Balance>, targets: seq<Target>): seq<real> {
    seq(|targets|, i requires 0 <= i < |targets| => AmountOf(balances, targets[i].asset))
  }

  lemma {:induction false} HeldNothing(targets: seq<Target>)
    ensures Sum(Held([], targets)) == 0.0
  {
    if targets != [] {
      HeldNothing(targets[..|targets| - 1]);
      assert Held([], targets)[..|targets| - 1] == Held([], targets[..|targets| - 1]);
    }
  }

  lemma {:induction false} AmountSnoc(balances: seq<Balance>, b: Balance, asset: string)
    requires forall x :: x in balances ==> x.asset != b.asset
    ensures AmountOf(balances + [b], asset) == if asset == b.asset then b.amount else AmountOf(balances, asset)
  {
    if balances != [] {
      assert (balances + [b])[1..] == balances[1..] + [b];
      AmountSnoc(balances[1..], b, asset);
    }
  }

  lemma HeldSnoc(rest: seq<Balance>, b: Balance, targets: seq<Target>, i: nat)
    requires DistinctTargets(targets) && i < |targets| && targets[i].asset == b.asset
    requires forall x :: x in rest ==> x.asset != b.asset
    ensures Sum(Held(rest + [b], targets)) == Sum(Held(rest, targets)) + b.amount
  {
    var before := Held(rest, targets);
    AmountOutside(rest, b.asset);
    forall k | 0 <= k < |targets|
      ensures Held(rest + [b], targets)[k] == before[i := b.amount][k]
    {
      AmountSnoc(rest, b, targets[k].asset);
      assert k != i ==> targets[k].asset != targets[i].asset;
    }
    assert Held(rest + [b], targets) == before[i := b.amount];
    SumUpdate(before, i, b.amount);
  }

  /** Every holding is counted under exactly one target. */
  lemma {:induction false} HeldIsTotal(balances: seq<Balance>, targets: seq<Target>)
    requires DistinctTargets(targets) && DistinctAssets(balances) && Covered(balances, targets)
    ensures Sum(Held(balances, targets)) == SumNotional(balances)
  {
    if balances == [] {
      HeldNothing(targets);
    } else {
      var n := |balances| - 1;
      var rest, b := balances[..n], balances[n];
      assert b in balances;
      var t :| t in targets && t.asset == b.asset;
      var i :| 0 <= i < |targets| && targets[i] == t;
      assert balances == rest + [b];
      HeldIsTotal(rest, targets);
      HeldSnoc(rest, b, targets, i);
    }
  }

  lemma {:induction false} GapSum(total: real, balances: seq<Balance>, targets: seq<Target>)
    ensures Sum(GapsOf(total, balances, targets)) == SumWeights(targets) * total - Sum(Held(balances, targets))
  {
    if targets != [] {
      var n := |targets| - 1;
      var fewer := targets[..n];
      GapSum(total, balances, fewer);
      forall k | 0 <= k < n
        ensures GapsOf(total, balances, targets)[k] == GapsOf(total, balances, fewer)[k]
        ensures Held(balances, targets)[k] == Held(balances, fewer)[k]
      {
        assert fewer[k] == targets[k];
      }
      assert GapsOf(total, balances, targets)[..n] == GapsOf(total, balances, fewer);
      assert Held(balances, targets)[..n] == Held(balances, fewer);
      GapStep(
        SumWeights(fewer), targets[n].weight, total, Sum(Held(balances, fewer)),
        AmountOf(balances, targets[n].asset));
    }
  }

  lemma GapStep(weights: real, weight: real, total: real, held: real, amount: real)
    ensures (weights * total - held) + (weight * total - amount) == (weights + weight) * total - (held + amount)
  {
    Distribute(weights, weight, total);
  }

  lemma Distribute(a: real, b: real, c: real)
    ensures (a + b) * c == a * c + b * c
  {
  }

  lemma GapsSumToZero(balances: seq<Balance>, targets: seq<Target>)
    requires Sane(balances, targets)
    ensures Sum(Gaps(balances, targets)) == 0.0
  {
    GapSum(SumNotional(balances), balances, targets);
    HeldIsTotal(balances, targets);
  }

  lemma DeltaIsGap(balances: seq<Balance>, total: real, target: Target)
    requires total > 0.0
    ensures DeltaFor(balances, total, target).notionalDelta == Gap(total, balances, target)
  {
    Scale(target.weight, AmountOf(balances, target.asset), total);
  }

  lemma DeltasAreGaps(balances: seq<Balance>, targets: seq<Target>)
    requires SumNotional(balances) > 0.0
    ensures var deltas := ComputeAllocationDeltas(balances, targets);
      |deltas| == |targets| && forall i :: 0 <= i < |targets| ==>
        deltas[i].asset == targets[i].asset && deltas[i].notionalDelta == Gaps(balances, targets)[i]
  {
    var total := SumNotional(balances);
    var deltas := ComputeAllocationDeltas(balances, targets);
    forall i | 0 <= i < |targets|
      ensures deltas[i].asset == targets[i].asset && deltas[i].notionalDelta == Gaps(balances, targets)[i]
    {
      DeltaIsGap(balances, total, targets[i]);
      assert deltas[i] == DeltaFor(balances, total, targets[i]);
    }
  }

  lemma Scale(w: real, a: real, total: real)
    requires total > 0.0
    ensures (w - a / total) * total == w * total - a
  {
    var q := a / total;
    assert q * total == a;
    Distribute(w - q, q, total);
  }
}
