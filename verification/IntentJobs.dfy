/**
 * Execution jobs in terms of the rows they find and the answers they get: exactly when one goes ahead,
 * with which plan, where it ends, and which statuses each handler takes an intent from.
 */
module IntentJobs {
  import opened Common
  import opened IntentPipeline
  import opened IntentRuns

  // ---------- the last row of an intent ----------

  ghost predicate IsLastDecision(decisions: seq<Decision>, id: string, k: int) {
    && 0 <= k < |decisions| && decisions[k].intentId == id
    && forall j :: k < j < |decisions| ==> decisions[j].intentId != id
  }

  ghost predicate IsLastPlan(plans: seq<Plan>, id: string, k: int) {
    && 0 <= k < |plans| && plans[k].intentId == id
    && forall j :: k < j < |plans| ==> plans[j].intentId != id
  }

  ghost predicate IsLastOverride(overrides: seq<Override>, id: string, k: int) {
    && 0 <= k < |overrides| && overrides[k].intentId == id
    && forall j :: k < j < |overrides| ==> overrides[j].intentId != id
  }

  lemma {:induction false} LastDecisionIff(decisions: seq<Decision>, id: string, k: int)
    requires IsLastDecision(decisions, id, k)
    ensures LatestDecision(decisions, id) == Some(decisions[k])
  {
    var n := |decisions| - 1;
    if k < n {
      LastDecisionIff(decisions[..n], id, k);
    }
  }

  lemma {:induction false} LastPlanIff(plans: seq<Plan>, id: string, k: int)
    requires IsLastPlan(plans, id, k)
    ensures LatestPlan(plans, id) == Some(plans[k])
  {
    var n := |plans| - 1;
    if k < n {
      LastPlanIff(plans[..n], id, k);
    }
  }

  lemma {:induction false} LastOverrideIff(overrides: seq<Override>, id: string, k: int)
    requires IsLastOverride(overrides, id, k)
    ensures LatestOverride(overrides, id) == Some(overrides[k])
  {
    var n := |overrides| - 1;
    if k < n {
      LastOverrideIff(overrides[..n], id, k);
    }
  }

  lemma {:induction false} SomeLastDecision(decisions: seq<Decision>, id: string)
    ensures LatestDecision(decisions, id).Some? ==> exists k :: IsLastDecision(decisions, id, k)
  {
    if decisions != [] {
      var n := |decisions| - 1;
      SomeLastDecision(decisions[..n], id);
      if k :| IsLastDecision(decisions[..n], id, k) && decisions[n].intentId != id {
        assert IsLastDecision(decisions, id, k);
      }
      if decisions[n].intentId == id {
        assert IsLastDecision(decisions, id, n);
      }
    }
  }

  lemma {:induction false} SomeLastPlan(plans: seq<Plan>, id: string)
    ensures LatestPlan(plans, id).Some? ==> exists k :: IsLastPlan(plans, id, k)
  {
    if plans != [] {
      var n := |plans| - 1;
      SomeLastPlan(plans[..n], id);
      if k :| IsLastPlan(plans[..n], id, k) && plans[n].intentId != id {
        assert IsLastPlan(plans, id, k);
      }
      if plans[n].intentId == id {
        assert IsLastPlan(plans, id, n);
      }
    }
  }

  lemma {:induction false} SomeLastOverride(overrides: seq<Override>, id: string)
    ensures LatestOverride(overrides, id).Some? ==> exists k :: IsLastOverride(overrides, id, k)
  {
    if overrides != [] {
      var n := |overrides| - 1;
      SomeLastOverride(overrides[..n], id);
      if k :| IsLastOverride(overrides[..n], id, k) && overrides[n].intentId != id {
        assert IsLastOverride(overrides, id, k);
      }
      if overrides[n].intentId == id {
        assert IsLastOverride(overrides, id, n);
      }
    }
  }

  /** The first plan stored under an id. */
  ghost predicate IsPlanNamed(plans: seq<Plan>, planId: string, k: int) {
    && 0 <= k < |plans| && plans[k].id == planId
    && forall j :: 0 <= j < k ==> plans[j].id != planId
  }

  lemma {:induction false} PlanNamedIff(plans: seq<Plan>, planId: string)
    ensures PlanById(plans, planId).Some? ==> exists k :: IsPlanNamed(plans, planId, k)
    ensures forall k :: IsPlanNamed(plans, planId, k) ==> PlanById(plans, planId) == Some(plans[k])
  {
    if plans != [] {
      PlanNamedIff(plans[1..], planId);
      forall k | IsPlanNamed(plans, planId, k)
        ensures PlanById(plans, planId) == Some(plans[k])
      {
        if k > 0 {
          assert IsPlanNamed(plans[1..], planId, k - 1);
        }
      }
      if plans[0].id == planId {
        assert IsPlanNamed(plans, planId, 0);
      } else if k :| IsPlanNamed(plans[1..], planId, k) {
        assert IsPlanNamed(plans, planId, k + 1);
      }
    }
  }

  // ---------- exactly when a job goes ahead, and with which plan ----------

  /** The last override of the intent names this plan of its own. */
  ghost predicate OverridesTo(db: Db, id: string, plan: Plan) {
    exists k, p ::
      && IsLastOverride(db.overrides, id, k) && IsPlanNamed(db.plans, db.overrides[k].planId, p)
      && db.plans[p] == plan && plan.intentId == id
  }

  /** The plan an intent's last override names, if it is the intent's own; otherwise its last routed plan. */
  ghost predicate IsInEffect(db: Db, id: string, plan: Plan) {
    || OverridesTo(db, id, plan)
    || ((forall other :: !OverridesTo(db, id, other))
        && exists k :: IsLastPlan(db.plans, id, k) && db.plans[k] == plan)
  }

  lemma InEffectIff(db: Db, id: string, plan: Plan)
    ensures EffectivePlan(db, id) == Some(plan) <==> IsInEffect(db, id, plan)
  {
    hide LatestPlan, LatestOverride, PlanById, IsLastPlan, IsLastOverride, IsPlanNamed;
    InRange(db, id);
    SomeLastPlan(db.plans, id);
    SomeLastOverride(db.overrides, id);
    forall k | IsLastPlan(db.plans, id, k)
      ensures LatestPlan(db.plans, id) == Some(db.plans[k])
    {
      LastPlanIff(db.plans, id, k);
    }
    forall k | IsLastOverride(db.overrides, id, k)
      ensures LatestOverride(db.overrides, id) == Some(db.overrides[k])
    {
      LastOverrideIff(db.overrides, id, k);
    }
    var override := LatestOverride(db.overrides, id);
    if override.Some? {
      PlanNamedIff(db.plans, override.value.planId);
      NamedInRange(db.plans, override.value.planId);
    }
    assert forall other :: OverridesTo(db, id, other) <==>
      override.Some? && PlanById(db.plans, override.value.planId) == Some(other) && other.intentId == id;
  }

  /** An override that is used is noted under the plan it names, and nothing is noted when none is. */
  lemma NotedIff(db: Db, id: string)
    ensures (exists plan :: OverridesTo(db, id, plan)) ==> exists k ::
      IsLastOverride(db.overrides, id, k)
      && NoteOverride(db, id) == db.(audit := db.audit + [OverrideUsed(id, db.overrides[k].planId)])
    ensures !(exists plan :: OverridesTo(db, id, plan)) ==> NoteOverride(db, id) == db
  {
    hide LatestOverride, PlanById, IsLastOverride, IsPlanNamed, IsLastPlan;
    InRange(db, id);
    SomeLastOverride(db.overrides, id);
    forall k | IsLastOverride(db.overrides, id, k)
      ensures LatestOverride(db.overrides, id) == Some(db.overrides[k])
    {
      LastOverrideIff(db.overrides, id, k);
    }
    var override := LatestOverride(db.overrides, id);
    if override.Some? {
      PlanNamedIff(db.plans, override.value.planId);
      NamedInRange(db.plans, override.value.planId);
    }
    assert forall other :: OverridesTo(db, id, other) <==>
      override.Some? && PlanById(db.plans, override.value.planId) == Some(other) && other.intentId == id;
  }

  lemma InRange(db: Db, id: string)
    ensures forall k :: IsLastPlan(db.plans, id, k) ==> 0 <= k < |db.plans|
    ensures forall k :: IsLastOverride(db.overrides, id, k) ==> 0 <= k < |db.overrides|
  {
  }

  lemma NamedInRange(plans: seq<Plan>, planId: string)
    ensures forall k :: IsPlanNamed(plans, planId, k) ==> 0 <= k < |plans|
  {
  }

  /** The statuses an execution job takes an intent from: checked, or one the lifecycle table does not list. */
  ghost predicate CanStart(status: Status) {
    status == PolicyChecked || status.Legacy?
  }

  /** Everything a job asks of the database, row by row, before it calls a venue for this plan. */
  ghost predicate IsReady(db: Db, id: string, plan: Plan) {
    && !db.killSwitch && id in db.intents && CanStart(StatusOf(db.intents[id]))
    && (forall s :: db.intents[id].strategy == Some(s) ==> s !in db.paused)
    && (db.intents[id].mode == Simulate || !db.intents[id].requiresApproval || db.intents[id].approval == Approved)
    && (exists k :: IsLastDecision(db.decisions, id, k) && db.decisions[k].allowed)
    && IsInEffect(db, id, plan) && plan.steps != []
    && (db.intents[id].mode == Simulate || !LastRowInFlight(db, id))
  }

  lemma AllowedIff(decisions: seq<Decision>, id: string)
    ensures (LatestDecision(decisions, id).Some? && LatestDecision(decisions, id).value.allowed) <==>
      exists k :: IsLastDecision(decisions, id, k) && decisions[k].allowed
  {
    SomeLastDecision(decisions, id);
    forall k | IsLastDecision(decisions, id, k)
      ensures LatestDecision(decisions, id) == Some(decisions[k])
    {
      LastDecisionIff(decisions, id, k);
    }
  }

  /** A job goes ahead with a plan if and only if the rows it finds ask for it. */
  lemma GoesAheadIff(db: Db, id: string, plan: Plan)
    ensures Check(db, id) == Go(plan) <==> IsReady(db, id, plan)
  {
    hide EffectivePlan, IsInEffect, LatestDecision, IsLastDecision, HasBlocking, LastRowInFlight;
    AllowedIff(db.decisions, id);
    InEffectIff(db, id, plan);
    BlockingIff(db, id);
  }

  // ---------- where a job ends ----------

  /** The answer to a step that leaves it done. */
  ghost predicate IsClean(r: Response) {
    match r
    case Result(status, settlement) =>
      status in {Pending, Submitted, Confirmed} && settlement != Some(SettlementFailed)
    case _ => false
  }

  /** The first n steps of the plan found their venue and were answered well. */
  ghost predicate CleanUpTo(plan: Plan, venues: Venues, n: nat) {
    n <= |plan.steps| && forall k :: 0 <= k < n ==> plan.steps[k] in venues.registered && IsClean(venues.respond(k))
  }

  lemma {:induction false} CleanPrefix(plan: Plan, venues: Venues, k: nat, n: nat)
    requires CleanUpTo(plan, venues, n) && k <= n
    requires n < |plan.steps| ==> plan.steps[n] !in venues.registered || !IsClean(venues.respond(n))
    ensures SuccessfulSteps(plan, venues, k) == n
    decreases n - k
  {
    if k < n {
      CleanPrefix(plan, venues, k + 1, n);
    }
  }

  /** The calls of the first n steps. */
  ghost function FirstCalls(id: string, plan: Plan, n: nat): seq<Call>
    requires n <= |plan.steps|
  {
    seq(n, k requires 0 <= k < n => Call(id, plan.id, k, plan.steps[k]))
  }

  ghost function RowFor(id: string, plan: Plan, k: nat, r: Response): Execution
    requires k < |plan.steps|
  {
    if r.Result? then Execution(id, plan.steps[k], k, r.status, r.settlement)
    else Execution(id, plan.steps[k], k, FailedExecution, None)
  }

  ghost function FirstRows(id: string, plan: Plan, venues: Venues, n: nat): seq<Execution>
    requires n <= |plan.steps|
  {
    seq(n, k requires 0 <= k < n => RowFor(id, plan, k, venues.respond(k)))
  }

  /** What a job that goes ahead leaves behind, by the first step that is not answered well. */
  lemma JobEndsAt(db: Db, id: string, plan: Plan, venues: Venues, n: nat)
    requires Check(db, id) == Go(plan) && CleanUpTo(plan, venues, n) && db.intents[id].history != []
    requires n < |plan.steps| ==> plan.steps[n] !in venues.registered || !IsClean(venues.respond(n))
    ensures var after := AfterExecute(db, id, venues);
      && id in after.intents
      && (n == |plan.steps| ==>
            && after.calls == db.calls + FirstCalls(id, plan, n)
            && after.executions == db.executions + FirstRows(id, plan, venues, n)
            && after.intents[id].history == db.intents[id].history + [Executed])
      && (n < |plan.steps| && plan.steps[n] !in venues.registered ==>
            && after.calls == db.calls + FirstCalls(id, plan, n)
            && after.executions == db.executions + FirstRows(id, plan, venues, n)
            && after.intents[id] == db.intents[id])
      && (n < |plan.steps| && plan.steps[n] in venues.registered && venues.respond(n).Threw? ==>
            && after.calls == db.calls + FirstCalls(id, plan, n + 1)
            && after.executions == db.executions + FirstRows(id, plan, venues, n)
            && after.intents[id] == db.intents[id])
      && (n < |plan.steps| && plan.steps[n] in venues.registered && !venues.respond(n).Threw? ==>
            && after.calls == db.calls + FirstCalls(id, plan, n + 1)
            && after.executions == db.executions + FirstRows(id, plan, venues, n + 1)
            && after.intents[id].history == db.intents[id].history + [Failed])
  {
    hide Check, SuccessfulSteps;
    GoIsRegistered(db, id);
    CleanPrefix(plan, venues, 0, n);
    var noted := NoteOverride(db, id);
    PlanEndsAt(noted, id, plan, venues, n);
    assert AfterExecute(db, id, venues) == AfterPlan(noted, id, plan, venues).0;
  }

  lemma PlanEndsAt(db: Db, id: string, plan: Plan, venues: Venues, n: nat)
    requires id in db.intents && n <= |plan.steps| && SuccessfulSteps(plan, venues, 0) == n
    ensures var after := AfterPlan(db, id, plan, venues).0;
      && id in after.intents
      && (n == |plan.steps| || plan.steps[n] !in venues.registered ==>
            && after.calls == db.calls + FirstCalls(id, plan, n)
            && after.executions == db.executions + FirstRows(id, plan, venues, n))
      && (n < |plan.steps| && plan.steps[n] in venues.registered ==>
            && after.calls == db.calls + FirstCalls(id, plan, n + 1)
            && after.executions ==
                 db.executions + FirstRows(id, plan, venues, if venues.respond(n).Threw? then n else n + 1))
      && (if n == |plan.steps| then after.intents[id].history == db.intents[id].history + [Executed]
          else if plan.steps[n] !in venues.registered || venues.respond(n).Threw?
          then after.intents[id] == db.intents[id]
          else after.intents[id].history == db.intents[id].history + [Failed])
  {
    hide SuccessfulSteps;
    var done := AfterSteps(db, id, plan, venues, n);
    assert done.calls == db.calls + FirstCalls(id, plan, n);
    assert done.executions == db.executions + FirstRows(id, plan, venues, n);
    if n < |plan.steps| {
      assert FirstCalls(id, plan, n + 1) == FirstCalls(id, plan, n) + [CallOf(id, plan, n)];
      assert FirstRows(id, plan, venues, n + 1) == FirstRows(id, plan, venues, n) + [RowOf(id, plan, venues, n)];
    }
  }

  // ---------- which statuses the handlers take an intent from ----------

  /** The status a worker's job leads to, and the statuses it is taken from; in any other it changes nothing. */
  lemma WorkersMoveWhen(db: Db, id: string, best: Plan, allowed: bool)
    requires id in db.intents && db.intents[id].history != []
    ensures var s := StatusOf(db.intents[id]);
      && (if s in {Created, Held} || s.Legacy? then MovesTo(db, Quote(id), id, Quoted) else After(db, Quote(id)) == db)
      && (if s in {Quoted, Held} || s.Legacy? then MovesTo(db, Route(id, Some(best)), id, Routed)
          else After(db, Route(id, Some(best))) == db)
      && (if s in {Routed, Held} || s.Legacy? then MovesTo(db, Policy(id, allowed), id, PolicyChecked)
          else After(db, Policy(id, allowed)) == db)
      && After(db, Route(id, None)) == db
  {
    hide EffectivePlan;
  }

  /** A hold is accepted before the execution only, and a release from a hold only. */
  lemma OperatorsMoveWhen(db: Db, id: string)
    requires id in db.intents && db.intents[id].history != []
    ensures var s := StatusOf(db.intents[id]);
      && (if s in {Created, Quoted, Routed, PolicyChecked} then MovesTo(db, Hold(id), id, Held)
          else After(db, Hold(id)) == db)
      && (if s != Held then After(db, Release(id)) == db
          else MovesTo(db, Release(id), id, if exists k :: IsLastPlan(db.plans, id, k) then Routed else Quoted))
      && (s != Failed ==> MovesTo(db, ExecutionJobFailed(id), id, Failed))
  {
    hide LatestPlan, IsLastPlan;
    SomeLastPlan(db.plans, id);
    forall k | IsLastPlan(db.plans, id, k)
      ensures LatestPlan(db.plans, id).Some?
    {
      LastPlanIff(db.plans, id, k);
    }
  }

  ghost predicate MovesTo(db: Db, step: Step, id: string, to: Status) {
    && id in db.intents && id in After(db, step).intents
    && After(db, step).intents[id].history == db.intents[id].history + [to]
  }

  /** From a hold, and from a status the table does not list, every listed status but the hold may follow. */
  lemma HeldMayGoAnywhere(text: string, to: Status)
    ensures CanTransition(Held, to) <==> to != Held && !to.Legacy?
    ensures CanTransition(Legacy(text), to) <==> CanTransition(Held, to)
  {
  }

  // ---------- the shape of a history ----------

  /** What the pipeline leads an intent through when nothing goes wrong. */
  const PIPELINE: seq<Status> := [Created, Quoted, Routed, PolicyChecked, Executed]

  /** Statuses nobody held in between: an initial part of the pipeline, and perhaps a failure at its end. */
  ghost predicate IsStraight(history: seq<Status>) {
    history <= PIPELINE || (history != [] && history[|history| - 1] == Failed && history[..|history| - 1] <= PIPELINE)
  }

  lemma {:induction false} StraightPath(history: seq<Status>)
    requires IsLifecyclePath(history) && Held !in history && forall s :: s in history ==> !s.Legacy?
    ensures IsStraight(history)
  {
    var n := |history| - 1;
    if n > 0 {
      assert IsLifecyclePath(history[..n]) && history[..n] != [];
      StraightPath(history[..n]);
      assert history == history[..n] + [history[n]];
      assert CanTransition(history[n - 1], history[n]) && history[n] in history;
    }
  }

  /** Over every run, an intent that was never held went through the pipeline in order and at most failed at the end. */
  lemma UnheldHistoryIsStraight(steps: seq<Step>, id: string)
    requires id in RunFrom(EMPTY, steps).intents && Held !in RunFrom(EMPTY, steps).intents[id].history
    ensures IsStraight(RunFrom(EMPTY, steps).intents[id].history)
  {
    HistoryIsPath(steps);
    var history := RunFrom(EMPTY, steps).intents[id].history;
    forall k | 0 <= k < |history|
      ensures !history[k].Legacy?
    {
      assert k > 0 ==> CanTransition(history[k - 1], history[k]);
    }
    StraightPath(history);
  }
}
