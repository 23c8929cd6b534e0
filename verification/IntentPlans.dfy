/** Which plan an execution job runs: how long a route or an override decides, and whether policy judged it. */
module IntentPlans {
  import opened Common
  import opened IntentPipeline
  import opened IntentRuns
  import opened IntentGates

  // ---------- how long a route override lasts ----------

  /** Plans are added only by a route step, for its intent, and overrides only by an accepted override. */
  lemma PlansFrame(db: Db, step: Step)
    ensures After(db, step).plans == db.plans
      || (step.Route? && step.best.Some? && After(db, step).plans == db.plans + [step.best.value.(intentId := step.id)])
    ensures After(db, step).overrides ==
      if AcceptsOverride(db, step) then db.overrides + [Override(step.id, step.planId)] else db.overrides
  {
    hide Check, CanTransition, AfterPlan;
    if step.Execute? && Check(db, step.id).Go? {
      GoIsRegistered(db, step.id);
      PlanKeepsPlans(NoteOverride(db, step.id), step.id, Check(db, step.id).plan, step.venues);
    }
  }

  /** The override names a stored plan of the same intent. */
  predicate AcceptsOverride(db: Db, step: Step) {
    step.OverrideRoute?
    && PlanById(db.plans, step.planId).Some? && PlanById(db.plans, step.planId).value.intentId == step.id
  }

  lemma PlanKeepsPlans(db: Db, id: string, plan: Plan, venues: Venues)
    requires id in db.intents
    ensures AfterPlan(db, id, plan, venues).0.plans == db.plans
    ensures AfterPlan(db, id, plan, venues).0.overrides == db.overrides
  {
    hide SuccessfulSteps;
  }

  lemma {:induction false} PlanByIdStable(plans: seq<Plan>, more: seq<Plan>, planId: string)
    requires plans <= more && PlanById(plans, planId).Some?
    ensures PlanById(more, planId) == PlanById(plans, planId)
  {
    if plans[0].id != planId {
      assert more[0] == plans[0] && plans[1..] <= more[1..];
      PlanByIdStable(plans[1..], more[1..], planId);
    }
  }

  lemma LatestOverrideSnoc(overrides: seq<Override>, last: Override, id: string)
    ensures LatestOverride(overrides + [last], id) ==
      if last.intentId == id then Some(last) else LatestOverride(overrides, id)
  {
    assert (overrides + [last])[..|overrides|] == overrides;
  }

  /** The intent's latest override names this plan, which is one of its own. */
  ghost predicate Overridden(db: Db, id: string, plan: Plan) {
    && plan.intentId == id
    && LatestOverride(db.overrides, id) == Some(Override(id, plan.id)) && PlanById(db.plans, plan.id) == Some(plan)
  }

  lemma OverriddenStays(db: Db, step: Step, id: string, plan: Plan)
    requires Overridden(db, id, plan) && !(step.OverrideRoute? && step.id == id)
    ensures Overridden(After(db, step), id, plan)
  {
    hide After;
    PlansFrame(db, step);
    PlanByIdStable(db.plans, After(db, step).plans, plan.id);
    if step.OverrideRoute? {
      LatestOverrideSnoc(db.overrides, Override(step.id, step.planId), id);
    }
  }

  lemma {:induction false} OverriddenThroughout(db: Db, steps: seq<Step>, id: string, plan: Plan)
    requires Overridden(db, id, plan) && forall s :: s in steps ==> !(s.OverrideRoute? && s.id == id)
    ensures Overridden(RunFrom(db, steps), id, plan)
  {
    hide After, Overridden;
    if steps != [] {
      var n := |steps| - 1;
      OverriddenThroughout(db, steps[..n], id, plan);
      assert steps[n] in steps;
      OverriddenStays(RunFrom(db, steps[..n]), steps[n], id, plan);
    }
  }

  /** An accepted override decides which plan is executed, whatever is routed later, until the next override. */
  lemma OverrideDecidesThePlan(db: Db, steps: seq<Step>, id: string, planId: string)
    requires PlanById(db.plans, planId).Some? && PlanById(db.plans, planId).value.intentId == id
    requires forall s :: s in steps ==> !(s.OverrideRoute? && s.id == id)
    ensures EffectivePlan(RunFrom(After(db, OverrideRoute(id, planId)), steps), id) == PlanById(db.plans, planId)
  {
    var plan, after := PlanById(db.plans, planId).value, After(db, OverrideRoute(id, planId));
    ByIdIsMember(db.plans, planId);
    LatestOverrideSnoc(db.overrides, Override(id, planId), id);
    OverriddenThroughout(after, steps, id, plan);
  }

  // ---------- how long a route lasts ----------

  lemma LatestPlanSnoc(plans: seq<Plan>, last: Plan, id: string)
    ensures LatestPlan(plans + [last], id) == if last.intentId == id then Some(last) else LatestPlan(plans, id)
  {
    assert (plans + [last])[..|plans|] == plans;
  }

  /** The intent has no override, and this is its latest plan. */
  ghost predicate RoutedBy(db: Db, id: string, plan: Plan) {
    LatestOverride(db.overrides, id).None? && LatestPlan(db.plans, id) == Some(plan)
  }

  ghost predicate Reroutes(step: Step, id: string) {
    (step.Route? && step.id == id && step.best.Some?) || (step.OverrideRoute? && step.id == id)
  }

  lemma RoutedStays(db: Db, step: Step, id: string, plan: Plan)
    requires RoutedBy(db, id, plan) && !Reroutes(step, id)
    ensures RoutedBy(After(db, step), id, plan)
  {
    hide After;
    PlansFrame(db, step);
    if step.Route? && step.best.Some? {
      LatestPlanSnoc(db.plans, step.best.value.(intentId := step.id), id);
    }
    if step.OverrideRoute? {
      LatestOverrideSnoc(db.overrides, Override(step.id, step.planId), id);
    }
  }

  lemma {:induction false} RoutedThroughout(db: Db, steps: seq<Step>, id: string, plan: Plan)
    requires RoutedBy(db, id, plan) && forall s :: s in steps ==> !Reroutes(s, id)
    ensures RoutedBy(RunFrom(db, steps), id, plan)
  {
    hide After, RoutedBy;
    if steps != [] {
      var n := |steps| - 1;
      RoutedThroughout(db, steps[..n], id, plan);
      assert steps[n] in steps;
      RoutedStays(RunFrom(db, steps[..n]), steps[n], id, plan);
    }
  }

  /** Without an override the plan executed is the one routed last, until the intent is routed or overridden again. */
  lemma LastRouteDecidesThePlan(db: Db, steps: seq<Step>, id: string, best: Plan)
    requires id in db.intents && CanTransition(StatusOf(db.intents[id]), Routed)
    requires LatestOverride(db.overrides, id).None?
    requires forall s :: s in steps ==> !Reroutes(s, id)
    ensures EffectivePlan(RunFrom(After(db, Route(id, Some(best))), steps), id) == Some(best.(intentId := id))
  {
    var after, plan := After(db, Route(id, Some(best))), best.(intentId := id);
    LatestPlanSnoc(db.plans, plan, id);
    RoutedThroughout(after, steps, id, plan);
  }

  // ---------- whether the plan executed is the plan that was judged ----------

  ghost predicate IsChecked(db: Db, id: string) {
    id in db.intents && db.intents[id].history != [] && StatusOf(db.intents[id]) == PolicyChecked
  }

  /** While an intent stays checked, only an accepted override of its own changes the plan in effect. */
  lemma CheckedPlanFrame(db: Db, step: Step, id: string)
    requires IsChecked(db, id)
    ensures EffectivePlan(After(db, step), id) ==
      if AcceptsOverride(db, step) && step.id == id then PlanById(db.plans, step.planId) else EffectivePlan(db, id)
  {
    hide After;
    PlansFrame(db, step);
    if step.Route? && step.id == id { OwnRouteIsRefused(db, step, id); }
    if AcceptsOverride(db, step) {
      LatestOverrideSnoc(db.overrides, Override(step.id, step.planId), id);
    } else if After(db, step).plans != db.plans {
      var plan := step.best.value.(intentId := step.id);
      LatestPlanSnoc(db.plans, plan, id);
      var override := LatestOverride(db.overrides, id);
      if override.Some? {
        PlanByIdSnoc(db.plans, plan, override.value.planId);
      }
    }
  }

  lemma OwnRouteIsRefused(db: Db, step: Step, id: string)
    requires IsChecked(db, id) && step.Route? && step.id == id
    ensures After(db, step) == db
  {
  }

  lemma {:induction false} PlanByIdSnoc(plans: seq<Plan>, last: Plan, planId: string)
    ensures PlanById(plans + [last], planId) ==
      if PlanById(plans, planId).Some? then PlanById(plans, planId) else if last.id == planId then Some(last) else None
  {
    if plans == [] {
      assert plans + [last] == [last] && [last][1..] == [];
    } else {
      PlanByIdSnoc(plans[1..], last, planId);
      assert (plans + [last])[0] == plans[0] && (plans + [last])[1..] == plans[1..] + [last];
    }
  }

  /** An intent becomes checked only through its own policy job, which stores the plan then in effect. */
  lemma BecomesChecked(db: Db, step: Step, id: string)
    requires (id in db.intents ==> db.intents[id].history != []) && !IsChecked(db, id) && IsChecked(After(db, step), id)
    ensures step.Policy? && step.id == id
    ensures LatestDecision(After(db, step).decisions, id) == Some(Decision(id, step.allowed, EffectivePlan(db, id)))
  {
    hide EffectivePlan;
    var after := After(db, step);
    if id !in db.intents {
      NewIntentIsCreated(db, step, id);
      assert false;
    } else if step.Execute? {
      JobDoesNotCheck(db, step, id);
      assert false;
    } else if step.Policy? && step.id == id {
      assert after.decisions[|after.decisions| - 1] == Decision(id, step.allowed, EffectivePlan(db, id));
    }
  }

  lemma JobDoesNotCheck(db: Db, step: Step, id: string)
    requires step.Execute? && id in db.intents && db.intents[id].history != [] && !IsChecked(db, id)
    ensures !IsChecked(After(db, step), id)
  {
    hide Check, SuccessfulSteps, AfterPlan;
    if Check(db, step.id).Go? {
      GoIsRegistered(db, step.id);
      PlanEnds(NoteOverride(db, step.id), step.id, Check(db, step.id).plan, step.venues, id);
    }
  }

  lemma PlanEnds(db: Db, id: string, plan: Plan, venues: Venues, other: string)
    requires id in db.intents && other in db.intents
    ensures var after := AfterPlan(db, id, plan, venues).0;
      && other in after.intents
      && (after.intents[other] == db.intents[other] || StatusOf(after.intents[other]) in {Executed, Failed})
  {
    hide SuccessfulSteps;
  }

  /** The decision of an intent stands as long as the intent stays checked. */
  lemma DecisionStands(db: Db, step: Step, id: string)
    requires IsChecked(db, id)
    ensures LatestDecision(After(db, step).decisions, id) == LatestDecision(db.decisions, id)
  {
    hide EffectivePlan, After;
    DecisionsFrame(db, step);
    if step.Policy? {
      OwnPolicyIsRefused(db, step, id);
      var after := After(db, step);
      if after.decisions != db.decisions {
        assert after.decisions[..|db.decisions|] == db.decisions;
      }
    }
  }

  lemma OwnPolicyIsRefused(db: Db, step: Step, id: string)
    requires IsChecked(db, id) && step.Policy?
    ensures step.id == id ==> After(db, step) == db
  {
  }

  /** The plan of the last override that was accepted among the steps from the given one on. */
  ghost function LastAccepted(steps: seq<Step>, from: nat, id: string): Option<Plan> {
    if |steps| <= from then None
    else
      var n := |steps| - 1;
      var db := RunFrom(EMPTY, steps[..n]);
      if AcceptsOverride(db, steps[n]) && steps[n].id == id then PlanById(db.plans, steps[n].planId)
      else LastAccepted(steps[..n], from, id)
  }

  /** The policy job behind a checked intent: what it judged, and the plan in effect since. */
  lemma {:induction false} JudgedAt(steps: seq<Step>, id: string) returns (j: nat)
    requires IsChecked(RunFrom(EMPTY, steps), id)
    ensures j < |steps| && steps[j].Policy? && steps[j].id == id
    ensures var judged := EffectivePlan(RunFrom(EMPTY, steps[..j]), id);
      && LatestDecision(RunFrom(EMPTY, steps).decisions, id) == Some(Decision(id, steps[j].allowed, judged))
      && EffectivePlan(RunFrom(EMPTY, steps), id) ==
           if LastAccepted(steps, j + 1, id).Some? then LastAccepted(steps, j + 1, id) else judged
  {
    hide After, EffectivePlan, IsChecked;
    if steps == [] {
      EmptyIsUnchecked(id);
      assert false;
    } else {
      var n := |steps| - 1;
      var before := RunFrom(EMPTY, steps[..n]);
      if IsChecked(before, id) {
        j := JudgedAt(steps[..n], id);
        assert steps[..n][..j] == steps[..j];
        DecisionStands(before, steps[n], id);
        CheckedPlanFrame(before, steps[n], id);
      } else {
        j := n;
        HistoryIsPath(steps[..n]);
        BecomesChecked(before, steps[n], id);
        PolicyKeepsPlan(before, steps[n], id);
      }
    }
  }

  lemma EmptyIsUnchecked(id: string)
    ensures !IsChecked(EMPTY, id)
  {
  }

  lemma PolicyKeepsPlan(db: Db, step: Step, id: string)
    requires step.Policy?
    ensures EffectivePlan(After(db, step), id) == EffectivePlan(db, id)
  {
    hide After;
    PlansFrame(db, step);
  }

  /** A job that goes ahead in a run finds its intent checked. */
  lemma ClearedIsChecked(steps: seq<Step>, id: string)
    requires Check(RunFrom(EMPTY, steps), id).Go?
    ensures IsChecked(RunFrom(EMPTY, steps), id)
  {
    hide After;
    HistoryIsPath(steps);
    GoIsCleared(RunFrom(EMPTY, steps), id);
    var history := RunFrom(EMPTY, steps).intents[id].history;
    PathNonEmpty(history);
    NoLegacy(steps, id);
  }

  /** Statuses outside the lifecycle table never appear in a run. */
  lemma NoLegacy(steps: seq<Step>, id: string)
    requires id in RunFrom(EMPTY, steps).intents && RunFrom(EMPTY, steps).intents[id].history != []
    ensures !StatusOf(RunFrom(EMPTY, steps).intents[id]).Legacy?
  {
    hide After;
    HistoryIsPath(steps);
    var history := RunFrom(EMPTY, steps).intents[id].history;
    if |history| > 1 { PathStep(history, |history| - 1); }
  }

  /**
   * Over every run: the plan a cleared job executes is the plan its policy decision judged if and only if
   * no accepted override since that decision has left another plan in effect.
   */
  lemma ExecutedPlanIsJudgedIff(steps: seq<Step>, id: string) returns (j: nat)
    requires Check(RunFrom(EMPTY, steps), id).Go?
    ensures j < |steps| && steps[j] == Policy(id, true)
    ensures var db, judged := RunFrom(EMPTY, steps), EffectivePlan(RunFrom(EMPTY, steps[..j]), id);
      && LatestDecision(db.decisions, id) == Some(Decision(id, true, judged))
      && (Some(Check(db, id).plan) == judged <==> LastAccepted(steps, j + 1, id) in {None, judged})
  {
    hide After, LastAccepted;
    ClearedIsChecked(steps, id);
    j := JudgedAt(steps, id);
  }

  /**
   * An override accepted for a cleared intent is what the next job executes, on the decision there is:
   * one about that very plan if and only if that is the plan the decision judged.
   */
  lemma OverrideEscapesPolicy(db: Db, id: string, planId: string)
    requires Check(db, id).Go? && PlanById(db.plans, planId).Some?
    requires var plan := PlanById(db.plans, planId).value; plan.intentId == id && plan.steps != []
    ensures var after := After(db, OverrideRoute(id, planId));
      && Check(after, id) == Go(PlanById(db.plans, planId).value)
      && LatestDecision(after.decisions, id) == LatestDecision(db.decisions, id)
      && LatestDecision(db.decisions, id).Some?
      && (LatestDecision(after.decisions, id).value.judged == Some(Check(after, id).plan) <==>
            LatestDecision(db.decisions, id).value.judged == PlanById(db.plans, planId))
  {
    hide HasBlocking;
    GoIsCleared(db, id);
    var after := After(db, OverrideRoute(id, planId));
    LatestOverrideSnoc(db.overrides, Override(id, planId), id);
    ByIdIsMember(db.plans, planId);
    SameBlocking(db, after, id);
  }

  lemma SameBlocking(a: Db, b: Db, id: string)
    requires a.executions == b.executions
    ensures HasBlocking(a, id) == HasBlocking(b, id)
  {
  }

  /** A run in which that happens: the second plan is judged, the first is executed. */
  lemma UnjudgedPlanIsExecuted() returns (steps: seq<Step>)
    ensures var db := RunFrom(EMPTY, steps);
      && Check(db, "i").Go? && LatestDecision(db.decisions, "i").Some?
      && LatestDecision(db.decisions, "i").value.judged != Some(Check(db, "i").plan)
  {
    var first, second := Plan("p", "i", ["a"]), Plan("q", "i", ["b"]);
    steps := PathToSecond(first, second);
    var db := RunFrom(EMPTY, steps);
    WaitingGoes(db, first, second);
    OverrideEscapesPolicy(db, "i", "p");
    RunSnoc(EMPTY, steps, OverrideRoute("i", "p"));
    steps := steps + [OverrideRoute("i", "p")];
  }

  lemma PathToSecond(first: Plan, second: Plan) returns (steps: seq<Step>)
    requires first.intentId == "i" && second.intentId == "i"
    ensures Waiting(RunFrom(EMPTY, steps), PolicyChecked, [first, second], [Decision("i", true, Some(second))])
  {
    assert CanTransition(Routed, Held) && CanTransition(Held, Routed);
    hide After, Waiting, RunFrom, CanTransition;
    steps := PathToRouted(first);
    HoldReady(RunFrom(EMPTY, steps), Routed, [first]);
    RunSnoc(EMPTY, steps, Hold("i"));
    steps := steps + [Hold("i")];
    RouteReady(RunFrom(EMPTY, steps), Held, [first], second);
    RunSnoc(EMPTY, steps, Route("i", Some(second)));
    steps := steps + [Route("i", Some(second))];
    PolicyReady(RunFrom(EMPTY, steps), [first], second);
    RunSnoc(EMPTY, steps, Policy("i", true));
    steps := steps + [Policy("i", true)];
    assert [first] + [second] == [first, second];
  }

  lemma WaitingGoes(db: Db, first: Plan, second: Plan)
    requires first.intentId == "i" && second.intentId == "i" && second.steps != []
    requires Waiting(db, PolicyChecked, [first, second], [Decision("i", true, Some(second))])
    ensures Check(db, "i") == Go(second) && PlanById(db.plans, first.id) == Some(first)
    ensures LatestDecision(db.decisions, "i") == Some(Decision("i", true, Some(second)))
  {
    assert LatestPlan(db.plans, "i") == Some(second);
    assert LatestDecision(db.decisions, "i") == Some(Decision("i", true, Some(second)));
  }
}

