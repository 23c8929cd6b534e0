/** What stops an intent from being executed, for how long, and what lifts it again. */
module IntentGates {
  import opened Common
  import opened IntentPipeline
  import opened IntentRuns

  // ---------- how long a hold lasts ----------

  ghost predicate IsHeld(db: Db, id: string) {
    id in db.intents && db.intents[id].history != [] && StatusOf(db.intents[id]) == Held
  }

  /** The steps that end a hold: the operator's release, and any worker job for the intent but an execution. */
  predicate EndsHold(step: Step, id: string) {
    match step
    case Quote(x) => x == id
    case Route(x, best) => x == id && best.Some?
    case Policy(x, _) => x == id
    case Release(x) => x == id
    case ExecutionJobFailed(x) => x == id
    case _ => false
  }

  /** A hold survives a step if and only if the step is not one of those; worker jobs do not look for it. */
  lemma HoldSurvivesIff(db: Db, step: Step, id: string)
    requires IsHeld(db, id)
    ensures IsHeld(After(db, step), id) <==> !EndsHold(step, id)
  {
    if step.Execute? {
      HeldIsNotExecuted(db, step, id);
    }
  }

  lemma HeldIsNotExecuted(db: Db, step: Step, id: string)
    requires IsHeld(db, id) && step.Execute?
    ensures IsHeld(After(db, step), id)
  {
    hide EffectivePlan, HasBlocking, LatestDecision, SuccessfulSteps, AfterSteps, CanTransition;
    if step.id != id && Check(db, step.id).Go? {
      GoIsRegistered(db, step.id);
      OtherIntentUntouched(NoteOverride(db, step.id), step.id, Check(db, step.id).plan, step.venues, id);
    }
  }

  /** While nothing ends the hold, no run of other steps reaches a venue for the intent. */
  lemma {:induction false} HeldReachesNoVenue(db: Db, steps: seq<Step>, id: string)
    requires IsHeld(db, id) && forall s :: s in steps ==> !EndsHold(s, id)
    ensures IsHeld(RunFrom(db, steps), id) && CallsFor(RunFrom(db, steps).calls, id) == CallsFor(db.calls, id)
  {
    hide After, EndsHold, CallsFor, IsHeld;
    if steps != [] {
      var n := |steps| - 1;
      var before := RunFrom(db, steps[..n]);
      HeldReachesNoVenue(db, steps[..n], id);
      assert steps[n] in steps;
      HoldSurvivesIff(before, steps[n], id);
      HeldIsRefused(before, id);
      QuietStep(before, steps[n], id);
    }
  }

  lemma HeldIsRefused(db: Db, id: string)
    requires IsHeld(db, id)
    ensures !Check(db, id).Go?
  {
  }

  /** Everything an execution job asks for besides the status and the policy decision. */
  ghost predicate OtherwiseReady(db: Db, id: string) {
    && id in db.intents && !db.killSwitch
    && (db.intents[id].strategy.Some? ==> db.intents[id].strategy.value !in db.paused)
    && (db.intents[id].mode == Live && db.intents[id].requiresApproval ==> db.intents[id].approval == Approved)
    && EffectivePlan(db, id).Some? && EffectivePlan(db, id).value.steps != []
    && (db.intents[id].mode == Live ==> !HasBlocking(db, id))
  }

  /** A policy job left in the queue lifts the hold: if it allows the intent, the next execution job goes ahead. */
  lemma QueuedPolicyJobOvertakesHold(db: Db, id: string)
    requires IsHeld(db, id) && OtherwiseReady(db, id)
    ensures Check(After(db, Policy(id, true)), id) == Go(EffectivePlan(db, id).value)
  {
    hide EffectivePlan, HasBlocking;
    var after := After(db, Policy(id, true));
    SamePlan(db, after, id);
    assert after.decisions[|after.decisions| - 1] == Decision(id, true, EffectivePlan(db, id));
    assert LatestDecision(after.decisions, id) == Some(Decision(id, true, EffectivePlan(db, id)));
  }

  lemma SamePlan(a: Db, b: Db, id: string)
    requires a.plans == b.plans && a.overrides == b.overrides && a.executions == b.executions
    ensures EffectivePlan(a, id) == EffectivePlan(b, id) && HasBlocking(a, id) == HasBlocking(b, id)
  {
  }

  // ---------- the gates, over whole runs ----------

  lemma SwitchesFrame(db: Db, step: Step)
    ensures var after := After(db, step);
      && after.killSwitch == (if step.Switch? then step.on else db.killSwitch)
      && after.paused ==
           if !step.Pause? then db.paused
           else if step.on then db.paused + {step.strategyId} else db.paused - {step.strategyId}
  {
    hide Check, CanTransition, AfterPlan, SetStatus, LatestPlan, PlanById, LatestOverride;
    if step.Execute? && Check(db, step.id).Go? {
      GoIsRegistered(db, step.id);
      PlanKeepsSwitches(NoteOverride(db, step.id), step.id, Check(db, step.id).plan, step.venues);
    }
    StatusKeepsSwitches();
  }

  lemma StatusKeepsSwitches()
    ensures forall d: Db, id, to :: id in d.intents ==>
      SetStatus(d, id, to).killSwitch == d.killSwitch && SetStatus(d, id, to).paused == d.paused
  {
  }

  lemma PlanKeepsSwitches(db: Db, id: string, plan: Plan, venues: Venues)
    requires id in db.intents
    ensures AfterPlan(db, id, plan, venues).0.killSwitch == db.killSwitch
    ensures AfterPlan(db, id, plan, venues).0.paused == db.paused
  {
    hide SuccessfulSteps;
  }

  /** What a step may change of an intent besides its status: its approval, and that only by approving it. */
  lemma IntentFrame(db: Db, step: Step, id: string)
    requires id in db.intents
    ensures var after := After(db, step);
      && id in after.intents
      && after.intents[id].strategy == db.intents[id].strategy && after.intents[id].mode == db.intents[id].mode
      && after.intents[id].requiresApproval == db.intents[id].requiresApproval
      && after.intents[id].approval == if step == Approve(id) then Approved else db.intents[id].approval
  {
    hide Check, AfterPlan, CanTransition;
    if step.Execute? && Check(db, step.id).Go? {
      GoIsRegistered(db, step.id);
      PlanFrame(NoteOverride(db, step.id), step.id, Check(db, step.id).plan, step.venues, id);
    }
  }

  lemma PlanFrame(db: Db, id: string, plan: Plan, venues: Venues, other: string)
    requires id in db.intents && other in db.intents
    ensures var after := AfterPlan(db, id, plan, venues).0;
      other in after.intents && after.intents[other] == db.intents[other].(history := after.intents[other].history)
  {
    hide SuccessfulSteps;
  }

  /** The gates in front of every execution: any one of them keeps a job from going ahead. */
  datatype Gate = KillSwitchOn | StrategyIsPaused | ApprovalIsMissing

  ghost predicate Shut(gate: Gate, db: Db, id: string) {
    id in db.intents &&
    match gate
    case KillSwitchOn => db.killSwitch
    case StrategyIsPaused => db.intents[id].strategy.Some? && db.intents[id].strategy.value in db.paused
    case ApprovalIsMissing =>
      db.intents[id].mode == Live && db.intents[id].requiresApproval && db.intents[id].approval != Approved
  }

  /** The one operator action that opens a gate. */
  ghost predicate Opens(gate: Gate, db: Db, step: Step, id: string) {
    match gate
    case KillSwitchOn => step == Switch(false)
    case StrategyIsPaused =>
      id in db.intents && db.intents[id].strategy.Some? && step == Pause(db.intents[id].strategy.value, false)
    case ApprovalIsMissing => step == Approve(id)
  }

  /** A shut gate stays shut through a step if and only if the step is not the action that opens it. */
  lemma GateStaysShutIff(gate: Gate, db: Db, step: Step, id: string)
    requires Shut(gate, db, id)
    ensures Shut(gate, After(db, step), id) <==> !Opens(gate, db, step, id)
  {
    hide After;
    SwitchesFrame(db, step);
    IntentFrame(db, step, id);
  }

  lemma ShutIsRefused(gate: Gate, db: Db, id: string)
    requires Shut(gate, db, id)
    ensures !Check(db, id).Go?
  {
    hide EffectivePlan, HasBlocking, LatestDecision, CanTransition;
  }

  /** Behind a shut gate no run reaches a venue for the intent until that gate is opened. */
  lemma {:induction false} ShutGateStopsRuns(gate: Gate, db: Db, steps: seq<Step>, id: string)
    requires Shut(gate, db, id)
    requires forall s :: s in steps ==> !Opens(gate, db, s, id)
    ensures Shut(gate, RunFrom(db, steps), id) && CallsFor(RunFrom(db, steps).calls, id) == CallsFor(db.calls, id)
    ensures id in RunFrom(db, steps).intents && RunFrom(db, steps).intents[id].strategy == db.intents[id].strategy
  {
    hide After, CallsFor;
    if steps != [] {
      var n := |steps| - 1;
      var before := RunFrom(db, steps[..n]);
      ShutGateStopsRuns(gate, db, steps[..n], id);
      assert steps[n] in steps;
      GateStaysShutIff(gate, before, steps[n], id);
      IntentFrame(before, steps[n], id);
      ShutIsRefused(gate, before, id);
      QuietStep(before, steps[n], id);
    }
  }

  /** No status from which a job could execute; only a policy decision leads to one. */
  ghost predicate Unchecked(db: Db, id: string) {
    id in db.intents ==>
      db.intents[id].history != [] && StatusOf(db.intents[id]) in {Created, Quoted, Routed, Executed, Failed, Held}
  }

  lemma UncheckedIsRefused(db: Db, id: string)
    requires Unchecked(db, id)
    ensures !Check(db, id).Go?
  {
    hide EffectivePlan, HasBlocking, LatestDecision;
  }

  lemma UncheckedStays(db: Db, step: Step, id: string)
    requires Unchecked(db, id) && !(step.Policy? && step.id == id)
    ensures Unchecked(After(db, step), id)
  {
    if id in db.intents {
      if step.Execute? {
        UncheckedIsRefused(db, id);
        ExecuteOthers(db, step, id);
      }
    } else if id in After(db, step).intents {
      NewIntentIsCreated(db, step, id);
    }
  }

  lemma ExecuteOthers(db: Db, step: Step, id: string)
    requires step.Execute? && id in db.intents && (step.id == id ==> !Check(db, id).Go?)
    ensures id in After(db, step).intents && After(db, step).intents[id] == db.intents[id]
  {
    hide Check, AfterPlan;
    if Check(db, step.id).Go? {
      GoIsRegistered(db, step.id);
      OtherIntentUntouched(NoteOverride(db, step.id), step.id, Check(db, step.id).plan, step.venues, id);
    }
  }

  /** From a status before the policy check, no run without a policy job for the intent reaches a venue for it. */
  lemma {:induction false} NoCallWithoutPolicy(db: Db, steps: seq<Step>, id: string)
    requires Unchecked(db, id) && forall s :: s in steps ==> !(s.Policy? && s.id == id)
    ensures Unchecked(RunFrom(db, steps), id) && CallsFor(RunFrom(db, steps).calls, id) == CallsFor(db.calls, id)
  {
    hide After, CallsFor, Unchecked;
    if steps != [] {
      var n := |steps| - 1;
      var before := RunFrom(db, steps[..n]);
      NoCallWithoutPolicy(db, steps[..n], id);
      assert steps[n] in steps;
      UncheckedStays(before, steps[n], id);
      UncheckedIsRefused(before, id);
      QuietStep(before, steps[n], id);
    }
  }

  /** A hold that was accepted stops the intent: no call until something ends it. */
  lemma HoldStopsTheIntent(db: Db, steps: seq<Step>, id: string)
    requires id in db.intents && CanTransition(StatusOf(db.intents[id]), Held)
    requires forall s :: s in steps ==> !EndsHold(s, id)
    ensures CallsFor(RunFrom(After(db, Hold(id)), steps).calls, id) == CallsFor(db.calls, id)
  {
    HeldReachesNoVenue(After(db, Hold(id)), steps, id);
  }

  /** A released intent is back before the policy check: it is judged again before any further call. */
  lemma ReleasedIsJudgedAgain(db: Db, steps: seq<Step>, id: string)
    requires IsHeld(db, id) && forall s :: s in steps ==> !(s.Policy? && s.id == id)
    ensures var released := After(db, Release(id));
      && StatusOf(released.intents[id]) == (if LatestPlan(db.plans, id).Some? then Routed else Quoted)
      && CallsFor(RunFrom(released, steps).calls, id) == CallsFor(db.calls, id)
  {
    var released := After(db, Release(id));
    assert Unchecked(released, id);
    NoCallWithoutPolicy(released, steps, id);
  }

  // ---------- where approvals and decisions come from ----------

  lemma CreatedUnapproved(db: Db, step: Step, id: string)
    requires id !in db.intents && id in After(db, step).intents
    ensures var i := After(db, step).intents[id]; i.requiresApproval ==> i.approval != Approved
  {
    hide After;
    NewIntentIsCreated(db, step, id);
    CreateUnapproved(db, step, id);
  }

  lemma CreateUnapproved(db: Db, step: Step, id: string)
    requires step.Create? && id !in db.intents && id in After(db, step).intents
    ensures var i := After(db, step).intents[id]; i.requiresApproval ==> i.approval != Approved
  {
  }

  /** Over every run, an approval that was required was given by the operator. */
  lemma {:induction false} ApprovalWasGiven(steps: seq<Step>, id: string)
    requires var db := RunFrom(EMPTY, steps);
      id in db.intents && db.intents[id].requiresApproval && db.intents[id].approval == Approved
    ensures Approve(id) in steps
  {
    hide After;
    var n := |steps| - 1;
    var before := RunFrom(EMPTY, steps[..n]);
    assert steps == steps[..n] + [steps[n]];
    if id in before.intents {
      IntentFrame(before, steps[n], id);
      if steps[n] != Approve(id) {
        ApprovalWasGiven(steps[..n], id);
      }
    } else {
      CreatedUnapproved(before, steps[n], id);
    }
  }

  lemma DecisionsFrame(db: Db, step: Step)
    ensures After(db, step).decisions == db.decisions
      || (step.Policy? && After(db, step).decisions ==
          db.decisions + [Decision(step.id, step.allowed, EffectivePlan(db, step.id))])
  {
    hide Check, CanTransition, AfterPlan;
    if step.Execute? && Check(db, step.id).Go? {
      GoIsRegistered(db, step.id);
      PlanKeepsDecisions(NoteOverride(db, step.id), step.id, Check(db, step.id).plan, step.venues);
    }
  }

  lemma PlanKeepsDecisions(db: Db, id: string, plan: Plan, venues: Venues)
    requires id in db.intents
    ensures AfterPlan(db, id, plan, venues).0.decisions == db.decisions
  {
    hide SuccessfulSteps;
  }

  /** Over every run, a stored decision was made by a policy job. */
  lemma {:induction false} DecisionWasMade(steps: seq<Step>, d: Decision)
    requires d in RunFrom(EMPTY, steps).decisions
    ensures Policy(d.intentId, d.allowed) in steps
  {
    hide After;
    var n := |steps| - 1;
    assert steps == steps[..n] + [steps[n]];
    DecisionsFrame(RunFrom(EMPTY, steps[..n]), steps[n]);
    if d in RunFrom(EMPTY, steps[..n]).decisions {
      DecisionWasMade(steps[..n], d);
    }
  }

  lemma {:induction false} LatestDecisionIsStored(decisions: seq<Decision>, id: string)
    ensures LatestDecision(decisions, id).Some? ==> LatestDecision(decisions, id).value in decisions
  {
    if decisions != [] { LatestDecisionIsStored(decisions[..|decisions| - 1], id); }
  }

  /**
   * Over every run, before each venue call a policy job allowed the intent and, where required, an operator
   * approved it.
   */
  lemma CallsWereSanctioned(steps: seq<Step>, c: Call) returns (k: nat)
    requires c in RunFrom(EMPTY, steps).calls
    ensures k < |steps| && steps[k].Execute? && steps[k].id == c.intentId && Policy(c.intentId, true) in steps[..k]
    ensures var db := RunFrom(EMPTY, steps[..k]);
      && c.intentId in db.intents
      && (db.intents[c.intentId].mode == Live && db.intents[c.intentId].requiresApproval ==>
        Approve(c.intentId) in steps[..k])
  {
    hide After, Check;
    k := EveryCallWasCleared(steps, c);
    var db := RunFrom(EMPTY, steps[..k]);
    LatestDecisionIsStored(db.decisions, c.intentId);
    DecisionWasMade(steps[..k], LatestDecision(db.decisions, c.intentId).value);
    if db.intents[c.intentId].mode == Live && db.intents[c.intentId].requiresApproval {
      ApprovalWasGiven(steps[..k], c.intentId);
    }
  }
}
