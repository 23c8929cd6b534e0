/** Whole runs of the intent pipeline: lifecycle, guarded calls, at-most-once, complete executions. */
module IntentRuns {
  import opened Common
  import opened IntentPipeline

  datatype Step =
    | Create(id: string, mode: Mode, strategy: Option<string>, requiresApproval: bool)
    | Quote(id: string)
    | Route(id: string, best: Option<Plan>)
    | Policy(id: string, allowed: bool)
    | Approve(id: string)
    | Hold(id: string)
    | Release(id: string)
    | OverrideRoute(id: string, planId: string)
    | Execute(id: string, venues: Venues)
    | ExecutionJobFailed(id: string)
    | Pause(strategyId: string, on: bool)
    | Switch(on: bool)

  function After(db: Db, step: Step): Db {
    match step
    case Create(id, mode, strategy, requiresApproval) => AfterCreate(db, id, mode, strategy, requiresApproval)
    case Quote(id) => AfterQuote(db, id)
    case Route(id, best) => AfterRoute(db, id, best)
    case Policy(id, allowed) => AfterPolicy(db, id, allowed)
    case Approve(id) => AfterApprove(db, id)
    case Hold(id) => AfterHold(db, id)
    case Release(id) => AfterRelease(db, id)
    case OverrideRoute(id, planId) => AfterOverride(db, id, planId)
    case Execute(id, venues) => AfterExecute(db, id, venues)
    case ExecutionJobFailed(id) => AfterJobFailed(db, id)
    case Pause(strategyId, on) => AfterPause(db, strategyId, on)
    case Switch(on) => db.(killSwitch := on)
  }

  const EMPTY := Db(map[], [], [], [], [], [], {}, false, [])

  /** The database after a run of steps. */
  function RunFrom(db: Db, steps: seq<Step>): Db {
    if steps == [] then db
    else After(RunFrom(db, steps[..|steps| - 1]), steps[|steps| - 1])
  }

  // ---------- status histories ----------

  ghost predicate IsLifecyclePath(history: seq<Status>) {
    && history != [] && history[0] == Created
    && forall k :: 0 < k < |history| ==> CanTransition(history[k - 1], history[k])
  }

  ghost predicate HistoriesArePaths(db: Db) {
    forall id :: id in db.intents ==> IsLifecyclePath(db.intents[id].history)
  }

  /** What any step does to one intent: nothing, or one allowed transition; its mode never changes. */
  ghost predicate Advances(before: Intent, after: Intent) {
    && after.mode == before.mode
    && (after.history == before.history
        || exists to :: CanTransition(StatusOf(before), to) && after.history == before.history + [to])
  }

  lemma GoIsRegistered(db: Db, id: string)
    requires Check(db, id).Go?
    ensures id in db.intents
  {
    hide EffectivePlan, HasBlocking, LatestDecision, CanTransition;
  }

  lemma OtherIntentUntouched(db: Db, id: string, plan: Plan, venues: Venues, other: string)
    requires id in db.intents && other in db.intents && other != id
    ensures var after := AfterPlan(db, id, plan, venues).0;
      other in after.intents && after.intents[other] == db.intents[other]
  {
    hide SuccessfulSteps;
  }

  lemma StepAdvances(db: Db, step: Step, id: string)
    requires id in db.intents && db.intents[id].history != []
    ensures id in After(db, step).intents && Advances(db.intents[id], After(db, step).intents[id])
  {
    hide Check, AfterPlan, CanTransition;
    if step.Execute? && Check(db, step.id).Go? {
      if step.id == id {
        ExecuteAdvances(db, id, step.venues);
      } else {
        GoIsRegistered(db, step.id);
        OtherIntentUntouched(NoteOverride(db, step.id), step.id, Check(db, step.id).plan, step.venues, id);
      }
    }
  }

  lemma ExecuteAdvances(db: Db, id: string, venues: Venues)
    requires id in db.intents && db.intents[id].history != [] && Check(db, id).Go?
    ensures id in AfterExecute(db, id, venues).intents
    ensures Advances(db.intents[id], AfterExecute(db, id, venues).intents[id])
  {
    assert CanTransition(StatusOf(db.intents[id]), Executed) && StatusOf(db.intents[id]) != Held;
    assert CanTransition(StatusOf(db.intents[id]), Failed);
  }

  lemma PathExtends(history: seq<Status>, to: Status)
    requires IsLifecyclePath(history) && CanTransition(history[|history| - 1], to)
    ensures IsLifecyclePath(history + [to])
  {
  }

  lemma PlanKeepsKeys(db: Db, id: string, plan: Plan, venues: Venues)
    requires id in db.intents
    ensures AfterPlan(db, id, plan, venues).0.intents.Keys == db.intents.Keys
  {
    hide SuccessfulSteps;
  }

  lemma OnlyCreateAdds(db: Db, step: Step)
    requires !step.Create?
    ensures After(db, step).intents.Keys == db.intents.Keys
  {
    hide Check, CanTransition, AfterPlan;
    if step.Execute? && Check(db, step.id).Go? {
      GoIsRegistered(db, step.id);
      PlanKeepsKeys(NoteOverride(db, step.id), step.id, Check(db, step.id).plan, step.venues);
    }
  }

  lemma NewIntentIsCreated(db: Db, step: Step, id: string)
    requires id !in db.intents && id in After(db, step).intents
    ensures step.Create? && After(db, step).intents[id].history == [Created]
  {
    hide AfterExecute, AfterRoute, AfterPolicy, AfterRelease, AfterOverride, AfterJobFailed;
    if !step.Create? {
      OnlyCreateAdds(db, step);
      assert false;
    }
  }

  lemma StepKeepsPath(db: Db, step: Step, id: string)
    requires HistoriesArePaths(db) && id in After(db, step).intents
    ensures IsLifecyclePath(After(db, step).intents[id].history)
  {
    hide After, CanTransition;
    if id in db.intents {
      var before, after := db.intents[id], After(db, step).intents[id];
      StepAdvances(db, step, id);
      if after.history != before.history {
        var to :| CanTransition(StatusOf(before), to) && after.history == before.history + [to];
        PathExtends(before.history, to);
      }
    } else {
      NewIntentIsCreated(db, step, id);
    }
  }

  /** Every intent's status history is a path of the transition table, over every run. */
  lemma {:induction false} HistoryIsPath(steps: seq<Step>)
    ensures HistoriesArePaths(RunFrom(EMPTY, steps))
  {
    hide After, IsLifecyclePath;
    if steps != [] {
      var n := |steps| - 1;
      HistoryIsPath(steps[..n]);
      forall id | id in RunFrom(EMPTY, steps).intents
        ensures IsLifecyclePath(RunFrom(EMPTY, steps).intents[id].history)
      {
        StepKeepsPath(RunFrom(EMPTY, steps[..n]), steps[n], id);
      }
    }
  }

  // ---------- adapter calls ----------

  ghost predicate Sanctioned(d: Option<Decision>, id: string) {
    d.Some? && d.value.intentId == id && d.value.allowed
  }

  /** Everything that has to hold before a venue is asked to execute. */
  ghost predicate Cleared(db: Db, id: string, plan: Plan) {
    && !db.killSwitch && id in db.intents
    && StatusOf(db.intents[id]) != Held && CanTransition(StatusOf(db.intents[id]), Executed)
    && (db.intents[id].strategy.Some? ==> db.intents[id].strategy.value !in db.paused)
    && (db.intents[id].mode == Live && db.intents[id].requiresApproval ==> db.intents[id].approval == Approved)
    && Sanctioned(LatestDecision(db.decisions, id), id)
    && plan in db.plans && plan.intentId == id
    && (db.intents[id].mode == Live ==> !HasBlocking(db, id))
  }

  lemma {:induction false} LatestIsMember(db: Db, id: string)
    ensures var p := LatestPlan(db.plans, id); p.Some? ==> p.value in db.plans && p.value.intentId == id
    decreases |db.plans|
  {
    if db.plans != [] { LatestIsMember(db.(plans := db.plans[..|db.plans| - 1]), id); }
  }

  lemma {:induction false} ByIdIsMember(plans: seq<Plan>, planId: string)
    ensures var p := PlanById(plans, planId); p.Some? ==> p.value in plans && p.value.id == planId
  {
    if plans != [] { ByIdIsMember(plans[1..], planId); }
  }

  lemma {:induction false} LatestDecisionIsMine(decisions: seq<Decision>, id: string)
    ensures var d := LatestDecision(decisions, id); d.Some? ==> d.value.intentId == id
  {
    if decisions != [] { LatestDecisionIsMine(decisions[..|decisions| - 1], id); }
  }

  /** A job goes ahead only when cleared; refusal and duplicates leave no trace at any venue. */
  lemma GoIsCleared(db: Db, id: string)
    ensures Check(db, id).Go? ==> Cleared(db, id, Check(db, id).plan) && Check(db, id).plan.steps != []
  {
    LatestIsMember(db, id);
    LatestDecisionIsMine(db.decisions, id);
    var override := LatestOverride(db.overrides, id);
    if override.Some? { ByIdIsMember(db.plans, override.value.planId); }
  }

  ghost function CallsFor(calls: seq<Call>, id: string): seq<Call> {
    if calls == [] then []
    else CallsFor(calls[..|calls| - 1], id) + if calls[|calls| - 1].intentId == id then [calls[|calls| - 1]] else []
  }

  lemma {:induction false} CallsForAppend(calls: seq<Call>, more: seq<Call>, id: string)
    ensures CallsFor(calls + more, id) == CallsFor(calls, id) + CallsFor(more, id)
  {
    if more == [] {
      assert calls + more == calls;
    } else {
      var n := |more| - 1;
      CallsForAppend(calls, more[..n], id);
      assert (calls + more)[..|calls + more| - 1] == calls + more[..n];
    }
  }

  lemma {:induction false} CallsForOthers(calls: seq<Call>, id: string)
    requires forall c :: c in calls ==> c.intentId != id
    ensures CallsFor(calls, id) == []
  {
    if calls != [] { CallsForOthers(calls[..|calls| - 1], id); }
  }

  lemma OnlyJobsReachVenues(db: Db, step: Step)
    requires step.Execute? ==> !Check(db, step.id).Go?
    ensures After(db, step).calls == db.calls && After(db, step).executions == db.executions
  {
    hide Check, CanTransition;
  }

  lemma PlanCalls(db: Db, id: string, plan: Plan, venues: Venues) returns (made: seq<Call>)
    requires id in db.intents
    ensures AfterPlan(db, id, plan, venues).0.calls == db.calls + made && |made| <= |plan.steps|
    ensures forall k :: 0 <= k < |made| ==> made[k] == CallOf(id, plan, k)
  {
    var n := SuccessfulSteps(plan, venues, 0);
    var before := seq(n, k requires 0 <= k < n => CallOf(id, plan, k));
    if n < |plan.steps| && plan.steps[n] in venues.registered {
      made := before + [CallOf(id, plan, n)];
      assert (db.calls + before) + [CallOf(id, plan, n)] == db.calls + made;
    } else {
      made := before;
    }
  }

  /** The calls a step makes: none, or an initial part of the cleared plan's steps, in order. */
  lemma StepCalls(db: Db, step: Step) returns (made: seq<Call>)
    ensures After(db, step).calls == db.calls + made
    ensures made != [] ==> step.Execute? && Check(db, step.id).Go? && Cleared(db, step.id, Check(db, step.id).plan)
    ensures made != [] ==> |made| <= |Check(db, step.id).plan.steps|
    ensures made != [] ==> forall k :: 0 <= k < |made| ==> made[k] == CallOf(step.id, Check(db, step.id).plan, k)
  {
    hide AfterPlan, CallOf;
    if step.Execute? && Check(db, step.id).Go? {
      GoIsCleared(db, step.id);
      made := PlanCalls(NoteOverride(db, step.id), step.id, Check(db, step.id).plan, step.venues);
    } else {
      OnlyJobsReachVenues(db, step);
      made := [];
    }
  }

  /**
   * Over every run, each call was made by a job that was cleared for it when the job started, as a step of its
   * plan.
   */
  lemma {:induction false} EveryCallWasCleared(steps: seq<Step>, c: Call) returns (k: nat)
    requires c in RunFrom(EMPTY, steps).calls
    ensures k < |steps| && steps[k].Execute? && steps[k].id == c.intentId
    ensures var db := RunFrom(EMPTY, steps[..k]);
      && Check(db, c.intentId).Go? && Cleared(db, c.intentId, Check(db, c.intentId).plan)
      && c.stepIndex < |Check(db, c.intentId).plan.steps|
      && c == CallOf(c.intentId, Check(db, c.intentId).plan, c.stepIndex)
  {
    hide After, Check, Cleared;
    var n := |steps| - 1;
    var before := RunFrom(EMPTY, steps[..n]);
    var made := StepCalls(before, steps[n]);
    if c in before.calls {
      k := EveryCallWasCleared(steps[..n], c);
      assert steps[..n][..k] == steps[..k];
    } else {
      k := n;
      var j :| 0 <= j < |made| && made[j] == c;
    }
  }

  // ---------- at most one execution ----------

  predicate IsOver(db: Db, id: string) {
    id in db.intents && StatusOf(db.intents[id]) in {Executed, Failed}
  }

  lemma OverIntent(before: Intent, after: Intent)
    requires before.history != [] && Advances(before, after) && StatusOf(before) in {Executed, Failed}
    ensures StatusOf(after) in {Executed, Failed} && after.history != []
  {
  }

  /** A step that runs no job for `id` makes no call for it. */
  lemma QuietStep(db: Db, step: Step, id: string)
    requires step.Execute? && step.id == id ==> !Check(db, id).Go?
    ensures CallsFor(After(db, step).calls, id) == CallsFor(db.calls, id)
  {
    var made := StepCalls(db, step);
    forall c | c in made
      ensures c.intentId != id
    {
    }
    CallsForOthers(made, id);
    CallsForAppend(db.calls, made, id);
  }

  lemma OverStaysOver(db: Db, step: Step, id: string)
    requires IsOver(db, id) && db.intents[id].history != []
    ensures IsOver(After(db, step), id) && After(db, step).intents[id].history != []
    ensures CallsFor(After(db, step).calls, id) == CallsFor(db.calls, id)
  {
    StepAdvances(db, step, id);
    OverIntent(db.intents[id], After(db, step).intents[id]);
    GoIsCleared(db, id);
    QuietStep(db, step, id);
  }

  /** Once an intent is executed or failed, no later run of jobs or operators reaches a venue for it. */
  lemma {:induction false} NoCallAfterTheEnd(db: Db, steps: seq<Step>, id: string)
    requires HistoriesArePaths(db) && IsOver(db, id)
    ensures IsOver(RunFrom(db, steps), id)
    ensures CallsFor(RunFrom(db, steps).calls, id) == CallsFor(db.calls, id)
    ensures id in RunFrom(db, steps).intents && RunFrom(db, steps).intents[id].history != []
  {
    if steps != [] {
      var n := |steps| - 1;
      NoCallAfterTheEnd(db, steps[..n], id);
      OverStaysOver(RunFrom(db, steps[..n]), steps[n], id);
    }
  }

  lemma PathStep(history: seq<Status>, k: nat)
    requires IsLifecyclePath(history) && 0 < k < |history|
    ensures CanTransition(history[k - 1], history[k])
  {
  }

  /** After `executed` a history holds at most one more status, and that one is `failed`. */
  lemma ExecutedAtMostOnce(history: seq<Status>, i: nat)
    requires IsLifecyclePath(history) && i < |history| && history[i] == Executed
    ensures |history| <= i + 2
    ensures |history| == i + 2 ==> history[i + 1] == Failed
  {
    if i + 1 < |history| { PathStep(history, i + 1); }
    if i + 2 < |history| { PathStep(history, i + 2); }
  }

  // ---------- a live intent whose latest execution row blocks ----------

  lemma {:induction false} LatestOfOthers(executions: seq<Execution>, more: seq<Execution>, id: string)
    requires forall e :: e in more ==> e.intentId != id
    ensures LatestExecution(executions + more, id) == LatestExecution(executions, id)
  {
    if more == [] {
      assert executions + more == executions;
    } else {
      var n := |more| - 1;
      LatestOfOthers(executions, more[..n], id);
      assert (executions + more)[..|executions + more| - 1] == executions + more[..n];
    }
  }

  lemma PlanRows(db: Db, id: string, plan: Plan, venues: Venues) returns (rows: seq<Execution>)
    requires id in db.intents
    ensures AfterPlan(db, id, plan, venues).0.executions == db.executions + rows
    ensures forall e :: e in rows ==> e.intentId == id
  {
    var n := SuccessfulSteps(plan, venues, 0);
    var before := seq(n, k requires 0 <= k < n => RowOf(id, plan, venues, k));
    if n < |plan.steps| && plan.steps[n] in venues.registered && !venues.respond(n).Threw? {
      rows := before + [RowOf(id, plan, venues, n)];
      assert (db.executions + before) + [RowOf(id, plan, venues, n)] == db.executions + rows;
    } else {
      rows := before;
    }
  }

  /** The rows a step inserts all belong to the intent it executes. */
  lemma StepRows(db: Db, step: Step) returns (rows: seq<Execution>)
    ensures After(db, step).executions == db.executions + rows
    ensures rows != [] ==> step.Execute? && Check(db, step.id).Go? && forall e :: e in rows ==> e.intentId == step.id
  {
    hide AfterPlan;
    if step.Execute? && Check(db, step.id).Go? {
      rows := PlanRows(NoteOverride(db, step.id), step.id, Check(db, step.id).plan, step.venues);
    } else {
      OnlyJobsReachVenues(db, step);
      rows := [];
    }
  }

  /** The last execution row of the intent. */
  ghost predicate IsLastRow(executions: seq<Execution>, id: string, k: int) {
    && 0 <= k < |executions| && executions[k].intentId == id
    && forall j :: k < j < |executions| ==> executions[j].intentId != id
  }

  /** The venue has, or may have, taken the step on: it was submitted or confirmed, or its settlement is open. */
  ghost predicate InFlight(e: Execution) {
    match e.status
    case Submitted => true
    case Confirmed => true
    case Pending => e.settlement.Some? && e.settlement.value != SettlementFailed
    case FailedExecution => false
  }

  ghost predicate LastRowInFlight(db: Db, id: string) {
    exists k :: IsLastRow(db.executions, id, k) && InFlight(db.executions[k])
  }

  lemma {:induction false} LastRowIff(executions: seq<Execution>, id: string)
    ensures LatestExecution(executions, id).Some? ==> exists k :: IsLastRow(executions, id, k)
    ensures forall k :: IsLastRow(executions, id, k) ==> LatestExecution(executions, id) == Some(executions[k])
  {
    if executions != [] {
      var n := |executions| - 1;
      LastRowIff(executions[..n], id);
      forall k | IsLastRow(executions, id, k)
        ensures LatestExecution(executions, id) == Some(executions[k])
      {
        if k < n {
          assert IsLastRow(executions[..n], id, k);
        }
      }
      if executions[n].intentId == id {
        assert IsLastRow(executions, id, n);
      } else if k :| IsLastRow(executions[..n], id, k) {
        assert IsLastRow(executions, id, k);
      }
    }
  }

  /** What keeps a job from submitting again is the last row, and exactly when it is in flight. */
  lemma BlockingIff(db: Db, id: string)
    ensures HasBlocking(db, id) <==> LastRowInFlight(db, id)
  {
    hide LatestExecution, IsLastRow;
    LastRowIff(db.executions, id);
    LastRowInRange(db.executions, id);
    BlocksInFlight();
  }

  lemma BlocksInFlight()
    ensures forall e: Execution :: IsBlocking(e) <==> InFlight(e)
  {
  }

  lemma LastRowInRange(executions: seq<Execution>, id: string)
    ensures forall k :: IsLastRow(executions, id, k) ==> 0 <= k < |executions|
  {
  }

  ghost predicate LiveAndBlocked(db: Db, id: string) {
    id in db.intents && db.intents[id].history != [] && db.intents[id].mode == Live && HasBlocking(db, id)
  }

  lemma BlockedStaysBlocked(db: Db, step: Step, id: string)
    requires LiveAndBlocked(db, id)
    ensures LiveAndBlocked(After(db, step), id)
    ensures CallsFor(After(db, step).calls, id) == CallsFor(db.calls, id)
  {
    StepAdvances(db, step, id);
    GoIsCleared(db, id);
    QuietStep(db, step, id);
    var rows := StepRows(db, step);
    LatestOfOthers(db.executions, rows, id);
  }

  /** While the last row of a live intent is in flight, no run of later jobs calls an adapter for it. */
  lemma BlockedIsNeverResubmitted(db: Db, steps: seq<Step>, id: string)
    requires id in db.intents && db.intents[id].history != [] && db.intents[id].mode == Live
    requires LastRowInFlight(db, id)
    ensures LastRowInFlight(RunFrom(db, steps), id)
    ensures CallsFor(RunFrom(db, steps).calls, id) == CallsFor(db.calls, id)
  {
    BlockingIff(db, id);
    BlockedThroughout(db, steps, id);
    BlockingIff(RunFrom(db, steps), id);
  }

  lemma {:induction false} BlockedThroughout(db: Db, steps: seq<Step>, id: string)
    requires LiveAndBlocked(db, id)
    ensures LiveAndBlocked(RunFrom(db, steps), id) && CallsFor(RunFrom(db, steps).calls, id) == CallsFor(db.calls, id)
  {
    if steps != [] {
      var n := |steps| - 1;
      BlockedThroughout(db, steps[..n], id);
      BlockedStaysBlocked(RunFrom(db, steps[..n]), steps[n], id);
    }
  }

  // ---------- complete executions ----------

  /** The row of a step that did not fail. */
  ghost predicate IsCleanRow(row: Execution, id: string, plan: Plan, k: nat)
    requires k < |plan.steps|
  {
    row.intentId == id && row.stepIndex == k && row.adapterId == plan.steps[k] && !IsFailure(row.status, row.settlement)
  }

  /** One clean row per step, in order. */
  ghost predicate CleanRows(rows: seq<Execution>, id: string, plan: Plan) {
    |rows| == |plan.steps| && forall k :: 0 <= k < |rows| ==> IsCleanRow(rows[k], id, plan, k)
  }

  /** What a job leaves behind when it executes an intent: every step once, in order, none failed. */
  ghost predicate RanToCompletion(before: Db, after: Db, id: string, plan: Plan) {
    var n := |plan.steps|;
    && before.executions <= after.executions && CleanRows(after.executions[|before.executions|..], id, plan)
    && after.calls == before.calls + seq(n, k requires 0 <= k < n => CallOf(id, plan, k))
    && after.audit == before.audit + seq(n, k requires 0 <= k < n => StepCompleted(id, k)) + [ExecutionCompleted(id, n)]
  }

  lemma PlanExecutesOnlyComplete(db: Db, id: string, plan: Plan, venues: Venues)
    requires id in db.intents && db.intents[id].history != [] && StatusOf(db.intents[id]) != Executed
    requires var after := AfterPlan(db, id, plan, venues).0;
      id in after.intents && StatusOf(after.intents[id]) == Executed
    ensures SuccessfulSteps(plan, venues, 0) == |plan.steps|
  {
  }

  /** The intent was not executed before, and is afterwards. */
  ghost predicate BecomesExecuted(before: Db, after: Db, id: string) {
    && id in before.intents && before.intents[id].history != [] && StatusOf(before.intents[id]) != Executed
    && id in after.intents && StatusOf(after.intents[id]) == Executed
  }

  /** Only an execution job that runs its plan to the end writes `executed`. */
  lemma OnlyCompletionExecutes(db: Db, step: Step, id: string)
    ensures BecomesExecuted(db, After(db, step), id) ==>
      && step.Execute? && step.id == id && Check(db, id).Go?
      && SuccessfulSteps(Check(db, id).plan, step.venues, 0) == |Check(db, id).plan.steps|
  {
    hide Check, AfterPlan, CanTransition, SuccessfulSteps;
    if step.Execute? && Check(db, step.id).Go? && BecomesExecuted(db, After(db, step), id) {
      GoIsRegistered(db, step.id);
      if step.id == id {
        PlanExecutesOnlyComplete(NoteOverride(db, id), id, Check(db, id).plan, step.venues);
      } else {
        OtherIntentUntouched(NoteOverride(db, step.id), step.id, Check(db, step.id).plan, step.venues, id);
      }
    }
  }

  lemma RowsAreClean(id: string, plan: Plan, venues: Venues, rows: seq<Execution>)
    requires SuccessfulSteps(plan, venues, 0) == |plan.steps| == |rows|
    requires forall k :: 0 <= k < |rows| ==> rows[k] == RowOf(id, plan, venues, k)
    ensures CleanRows(rows, id, plan)
  {
    forall k | 0 <= k < |rows|
      ensures IsCleanRow(rows[k], id, plan, k)
    {
      assert Succeeds(plan, venues, k);
    }
  }

  lemma CompletionIsOrdered(db: Db, id: string, plan: Plan, venues: Venues)
    requires id in db.intents && SuccessfulSteps(plan, venues, 0) == |plan.steps|
    ensures RanToCompletion(db, AfterPlan(db, id, plan, venues).0, id, plan)
  {
    hide SuccessfulSteps, CleanRows;
    var n, after := |plan.steps|, AfterPlan(db, id, plan, venues).0;
    var rows := seq(n, k requires 0 <= k < n => RowOf(id, plan, venues, k));
    RowsAreClean(id, plan, venues, rows);
    assert after.executions == db.executions + rows;
    assert after.executions[|db.executions|..] == rows;
    assert after.calls == db.calls + seq(n, k requires 0 <= k < n => CallOf(id, plan, k));
    assert after.audit ==
      db.audit + seq(n, k requires 0 <= k < n => StepCompleted(id, k)) + [ExecutionCompleted(id, n)];
  }

  /** An intent becomes `executed` only in a job that completed every step of its plan, in order. */
  lemma ExecutedMeansComplete(db: Db, step: Step, id: string)
    ensures BecomesExecuted(db, After(db, step), id) ==>
      && step.Execute? && step.id == id && Check(db, id).Go?
      && RanToCompletion(NoteOverride(db, id), After(db, step), id, Check(db, id).plan)
  {
    hide Check, AfterPlan, SuccessfulSteps, RanToCompletion;
    OnlyCompletionExecutes(db, step, id);
    if BecomesExecuted(db, After(db, step), id) {
      CompletionIsOrdered(NoteOverride(db, id), id, Check(db, id).plan, step.venues);
    }
  }

  /** Over every run, an intent found `executed` got there by a job that completed its plan. */
  lemma {:induction false} ExecutedCameFromAJob(steps: seq<Step>, id: string) returns (k: nat)
    requires var db := RunFrom(EMPTY, steps); id in db.intents && StatusOf(db.intents[id]) == Executed
    ensures k < |steps| && steps[k].Execute? && steps[k].id == id
    ensures var before, after := RunFrom(EMPTY, steps[..k]), RunFrom(EMPTY, steps[..k + 1]);
      Check(before, id).Go? && RanToCompletion(NoteOverride(before, id), after, id, Check(before, id).plan)
  {
    hide After, Check, RanToCompletion, NoteOverride, IsLifecyclePath;
    var n := |steps| - 1;
    var before := RunFrom(EMPTY, steps[..n]);
    HistoryIsPath(steps[..n]);
    assert steps[..n + 1] == steps;
    if id in before.intents && StatusOf(before.intents[id]) == Executed {
      k := ExecutedCameFromAJob(steps[..n], id);
      assert steps[..n][..k] == steps[..k] && steps[..n][..k + 1] == steps[..k + 1];
    } else {
      k := n;
      if id in before.intents {
        PathNonEmpty(before.intents[id].history);
        ExecutedMeansComplete(before, steps[n], id);
      } else {
        NewIntentIsCreated(before, steps[n], id);
      }
    }
  }

  lemma PathNonEmpty(history: seq<Status>)
    requires IsLifecyclePath(history)
    ensures history != []
  {
  }

  /**
   * What a job leaves behind that fails at step n: n clean steps, one failed row, a failed intent; no later venue
   * was asked.
   */
  ghost predicate FailedAt(before: Db, after: Db, id: string, plan: Plan, venues: Venues, n: nat) {
    && n < |plan.steps| && id in before.intents && id in after.intents
    && after.executions == before.executions + seq(n + 1, k requires 0 <= k < n + 1 => RowOf(id, plan, venues, k))
    && (forall k :: 0 <= k < n ==> Succeeds(plan, venues, k))
    && IsFailure(RowOf(id, plan, venues, n).status, RowOf(id, plan, venues, n).settlement)
    && after.calls == before.calls + seq(n + 1, k requires 0 <= k < n + 1 => CallOf(id, plan, k))
    && after.audit == before.audit + seq(n, k requires 0 <= k < n => StepCompleted(id, k)) + [ExecutionFailed(id, n)]
    && after.intents[id].history == before.intents[id].history + [Failed]
  }

  /** A job that fails at a step has a successful prefix, one failed row and event, and a failed intent. */
  lemma FailedMeansOneFailedRow(db: Db, id: string, venues: Venues)
    requires Check(db, id).Go?
    requires AfterPlan(NoteOverride(db, id), id, Check(db, id).plan, venues).1 == StepFailed
    ensures exists n :: FailedAt(NoteOverride(db, id), AfterExecute(db, id, venues), id, Check(db, id).plan, venues, n)
  {
    hide Check, AfterPlan, FailedAt;
    GoIsRegistered(db, id);
    var plan := Check(db, id).plan;
    PlanFails(NoteOverride(db, id), id, plan, venues);
    assert AfterExecute(db, id, venues) == AfterPlan(NoteOverride(db, id), id, plan, venues).0;
    assert FailedAt(
        NoteOverride(db, id), AfterExecute(db, id, venues), id, plan, venues, SuccessfulSteps(plan, venues, 0));
  }

  lemma PlanFails(db: Db, id: string, plan: Plan, venues: Venues)
    requires id in db.intents && AfterPlan(db, id, plan, venues).1 == StepFailed
    ensures FailedAt(db, AfterPlan(db, id, plan, venues).0, id, plan, venues, SuccessfulSteps(plan, venues, 0))
  {
    var after, n := AfterPlan(db, id, plan, venues).0, SuccessfulSteps(plan, venues, 0);
    assert after.executions == db.executions + seq(n + 1, k requires 0 <= k < n + 1 => RowOf(id, plan, venues, k));
    assert after.calls == db.calls + seq(n + 1, k requires 0 <= k < n + 1 => CallOf(id, plan, k));
    assert after.audit == db.audit + seq(n, k requires 0 <= k < n => StepCompleted(id, k)) + [ExecutionFailed(id, n)];
    assert !Succeeds(plan, venues, n);
    assert IsFailure(RowOf(id, plan, venues, n).status, RowOf(id, plan, venues, n).settlement);
    assert after.intents[id].history == db.intents[id].history + [Failed];
  }

  // ---------- refused jobs ----------

  /** A job refused for good fails the intent, whatever its status was: held and executed ones too. */
  lemma RefusedJobFailsIntent(db: Db, id: string, venues: Venues)
    requires id in db.intents && db.intents[id].history != [] && Check(db, id).Refused?
    ensures var after := RunFrom(db, [Execute(id, venues), ExecutionJobFailed(id)]);
      id in after.intents && StatusOf(after.intents[id]) == Failed && after.calls == db.calls
  {
    hide After;
    var first, second := Execute(id, venues), ExecutionJobFailed(id);
    RunSnoc(db, [], first);
    RunSnoc(db, [] + [first], second);
    assert [] + [first] + [second] == [first, second];
    RefusedJob(db, id, venues);
    JobFailedFails(After(db, first), id);
  }

  lemma RefusedJob(db: Db, id: string, venues: Venues)
    requires id in db.intents && Check(db, id).Refused?
    ensures After(db, Execute(id, venues)).intents == db.intents && After(db, Execute(id, venues)).calls == db.calls
  {
    hide Check;
  }

  lemma JobFailedFails(db: Db, id: string)
    requires id in db.intents && db.intents[id].history != []
    ensures var after := After(db, ExecutionJobFailed(id));
      id in after.intents && StatusOf(after.intents[id]) == Failed && after.calls == db.calls
  {
  }

  // ---------- when an earlier submission can be repeated ----------

  ghost predicate HasAnyInFlight(db: Db, id: string) {
    exists e :: e in db.executions && e.intentId == id && InFlight(e)
  }

  /** The venues answer a live step either with a failure or with a result that is in flight. */
  ghost predicate Settles(venues: Venues) {
    forall k :: venues.respond(k).Result? && !IsFailure(venues.respond(k).status, venues.respond(k).settlement) ==>
      InFlight(Execution("", "", 0, venues.respond(k).status, venues.respond(k).settlement))
  }

  /** A missing intent has no rows, and every row of a live intent that is not over is in flight. */
  ghost predicate InFlightRowsBlock(db: Db, id: string) {
    && (id in db.intents ==> db.intents[id].history != [])
    && (id !in db.intents || (db.intents[id].mode == Live && !IsOver(db, id)) ==>
          forall e :: e in db.executions && e.intentId == id ==> id in db.intents && InFlight(e))
  }

  ghost predicate AllSettle(steps: seq<Step>) {
    forall s :: s in steps && s.Execute? ==> Settles(s.venues)
  }

  lemma {:induction false} LatestInList(executions: seq<Execution>, id: string)
    ensures var latest := LatestExecution(executions, id);
      if latest.Some? then latest.value in executions && latest.value.intentId == id
      else forall e :: e in executions ==> e.intentId != id
  {
    if executions != [] {
      var n := |executions| - 1;
      LatestInList(executions[..n], id);
      assert executions == executions[..n] + [executions[n]];
    }
  }

  /** The rows of one job: none failed while the intent is not over. */
  lemma JobRowsBlock(db: Db, id: string, venues: Venues)
    requires Check(db, id).Go? && Settles(venues) && db.intents[id].history != []
    requires !IsOver(AfterExecute(db, id, venues), id)
    requires forall e :: e in db.executions ==> e.intentId != id
    ensures forall e :: e in AfterExecute(db, id, venues).executions && e.intentId == id ==> InFlight(e)
  {
    var plan := Check(db, id).plan;
    var n := SuccessfulSteps(plan, venues, 0);
    var rows := seq(n, k requires 0 <= k < n => RowOf(id, plan, venues, k));
    assert AfterExecute(db, id, venues).executions == db.executions + rows;
    forall e | e in rows
      ensures InFlight(e)
    {
      var k :| 0 <= k < n && rows[k] == e;
      assert Succeeds(plan, venues, k);
      assert InFlight(Execution("", "", 0, venues.respond(k).status, venues.respond(k).settlement));
    }
  }

  lemma InFlightKept(db: Db, step: Step, id: string)
    requires InFlightRowsBlock(db, id) && (step.Execute? ==> Settles(step.venues))
    ensures InFlightRowsBlock(After(db, step), id)
  {
    hide After, Check, CanTransition, Settles;
    if id in db.intents {
      StepAdvances(db, step, id);
      if IsOver(db, id) {
        OverIntent(db.intents[id], After(db, step).intents[id]);
      }
    } else if id in After(db, step).intents {
      NewIntentIsCreated(db, step, id);
    }
    if step.Execute? && step.id == id && Check(db, id).Go? {
      OwnJobKept(db, id, step.venues);
    } else {
      var rows := StepRows(db, step);
    }
  }

  lemma OwnJobKept(db: Db, id: string, venues: Venues)
    requires InFlightRowsBlock(db, id) && Settles(venues) && Check(db, id).Go?
    ensures InFlightRowsBlock(After(db, Execute(id, venues)), id)
  {
    BlocksInFlight();
    hide AfterExecute, Check, CanTransition, Settles, InFlight, IsBlocking;
    GoIsCleared(db, id);
    LatestInList(db.executions, id);
    StepAdvances(db, Execute(id, venues), id);
    if IsOver(db, id) {
      OverIntent(db.intents[id], AfterExecute(db, id, venues).intents[id]);
    } else if db.intents[id].mode == Live && !IsOver(AfterExecute(db, id, venues), id) {
      JobRowsBlock(db, id, venues);
    }
  }

  lemma {:induction false} InFlightAlways(steps: seq<Step>, id: string)
    requires AllSettle(steps)
    ensures InFlightRowsBlock(RunFrom(EMPTY, steps), id)
  {
    if steps != [] {
      var n := |steps| - 1;
      InFlightAlways(steps[..n], id);
      InFlightKept(RunFrom(EMPTY, steps[..n]), steps[n], id);
    }
  }

  /**
   * If every venue settles, then over all runs: once a live intent has any row in flight,
   * nothing that happens later reaches a venue for it again.
   */
  lemma SettlingVenuesSubmitOnce(before: seq<Step>, later: seq<Step>, id: string)
    requires AllSettle(before)
    requires var db := RunFrom(EMPTY, before); id in db.intents && db.intents[id].mode == Live && HasAnyInFlight(db, id)
    ensures var db := RunFrom(EMPTY, before); CallsFor(RunFrom(db, later).calls, id) == CallsFor(db.calls, id)
  {
    BlocksInFlight();
    hide RunFrom, IsBlocking, InFlight, LastRowInFlight, CanTransition, CallsFor, Settles;
    var db := RunFrom(EMPTY, before);
    InFlightAlways(before, id);
    HistoryIsPath(before);
    if IsOver(db, id) {
      NoCallAfterTheEnd(db, later, id);
    } else {
      LatestInList(db.executions, id);
      BlockingIff(db, id);
      BlockedIsNeverResubmitted(db, later, id);
    }
  }

  /**
   * Without that assumption an earlier submission can be repeated: a confirmed first step, a second step
   * left pending, and a third whose adapter is missing. The job stops, only the pending row is looked at,
   * and the next job starts again from the first step.
   */
  lemma EarlierSubmissionCanRepeat() returns (steps: seq<Step>)
    ensures var db := RunFrom(EMPTY, steps);
      && "i" in db.intents && db.intents["i"].mode == Live
      && HasAnyInFlight(db, "i") && Check(db, "i").Go?
  {
    var plan := Plan("p", "i", ["a", "b", "c"]);
    var venues := Venues({"a", "b"}, k => if k == 0 then Result(Confirmed, None) else Result(Pending, None));
    steps := PathToChecked(plan);
    var db := RunFrom(EMPTY, steps);
    PartialExecution(db, plan, venues);
    RunSnoc(EMPTY, steps, Execute("i", venues));
    steps := steps + [Execute("i", venues)];
  }

  lemma RunSnoc(db: Db, steps: seq<Step>, last: Step)
    ensures RunFrom(db, steps + [last]) == After(RunFrom(db, steps), last)
  {
    assert (steps + [last])[..|steps|] == steps;
  }

  /** One live intent "i" in the given status, with nothing executed yet. */
  ghost predicate Waiting(db: Db, status: Status, plans: seq<Plan>, decisions: seq<Decision>) {
    && db.intents.Keys == {"i"} && db.intents["i"].history != [] && StatusOf(db.intents["i"]) == status
    && db.intents["i"].mode == Live && db.intents["i"].strategy.None? && !db.intents["i"].requiresApproval
    && db.plans == plans && db.decisions == decisions && db.executions == [] && db.overrides == [] && !db.killSwitch
  }

  lemma RouteReady(db: Db, status: Status, plans: seq<Plan>, plan: Plan)
    requires Waiting(db, status, plans, []) && CanTransition(status, Routed) && plan.intentId == "i"
    ensures Waiting(After(db, Route("i", Some(plan))), Routed, plans + [plan], [])
  {
  }

  lemma HoldReady(db: Db, status: Status, plans: seq<Plan>)
    requires Waiting(db, status, plans, []) && CanTransition(status, Held)
    ensures Waiting(After(db, Hold("i")), Held, plans, [])
  {
  }

  lemma PolicyReady(db: Db, plans: seq<Plan>, plan: Plan)
    requires Waiting(db, Routed, plans + [plan], []) && plan.intentId == "i"
    ensures Waiting(After(db, Policy("i", true)), PolicyChecked, plans + [plan], [Decision("i", true, Some(plan))])
  {
    assert LatestPlan(plans + [plan], "i") == Some(plan);
  }

  lemma QuoteReady()
    ensures Waiting(After(After(EMPTY, Create("i", Live, None, false)), Quote("i")), Quoted, [], [])
  {
  }

  lemma PathToRouted(plan: Plan) returns (steps: seq<Step>)
    requires plan.intentId == "i"
    ensures Waiting(RunFrom(EMPTY, steps), Routed, [plan], [])
  {
    assert RunFrom(EMPTY, []) == EMPTY && CanTransition(Quoted, Routed);
    hide After, Waiting, RunFrom, CanTransition;
    steps := [];
    RunSnoc(EMPTY, steps, Create("i", Live, None, false));
    steps := steps + [Create("i", Live, None, false)];
    RunSnoc(EMPTY, steps, Quote("i"));
    steps := steps + [Quote("i")];
    QuoteReady();
    RouteReady(RunFrom(EMPTY, steps), Quoted, [], plan);
    RunSnoc(EMPTY, steps, Route("i", Some(plan)));
    steps := steps + [Route("i", Some(plan))];
    assert [] + [plan] == [plan];
  }

  lemma PathToChecked(plan: Plan) returns (steps: seq<Step>)
    requires plan.intentId == "i"
    ensures Waiting(RunFrom(EMPTY, steps), PolicyChecked, [plan], [Decision("i", true, Some(plan))])
  {
    hide After, Waiting, RunFrom;
    steps := PathToRouted(plan);
    assert [] + [plan] == [plan];
    PolicyReady(RunFrom(EMPTY, steps), [], plan);
    RunSnoc(EMPTY, steps, Policy("i", true));
    steps := steps + [Policy("i", true)];
  }

  lemma PartialExecution(db: Db, plan: Plan, venues: Venues)
    requires Waiting(db, PolicyChecked, [plan], [Decision("i", true, Some(plan))]) && plan.intentId == "i"
    requires |plan.steps| == 3
    requires plan.steps[0] in venues.registered && plan.steps[1] in venues.registered
    requires plan.steps[2] !in venues.registered
    requires venues.respond(0) == Result(Confirmed, None) && venues.respond(1) == Result(Pending, None)
    ensures var after := After(db, Execute("i", venues));
      && "i" in after.intents && after.intents["i"].mode == Live
      && HasAnyInFlight(after, "i") && Check(after, "i").Go?
  {
    assert LatestPlan(db.plans, "i") == Some(plan);
    assert LatestDecision(db.decisions, "i") == Some(Decision("i", true, Some(plan)));
    assert Check(db, "i") == Go(plan);
    assert Succeeds(plan, venues, 0) && Succeeds(plan, venues, 1) && !Succeeds(plan, venues, 2);
    assert SuccessfulSteps(plan, venues, 0) == 2;
    var after := After(db, Execute("i", venues));
    var first, second := RowOf("i", plan, venues, 0), RowOf("i", plan, venues, 1);
    assert after.executions == [first, second];
    assert LatestExecution(after.executions, "i") == Some(second);
    assert first in after.executions && InFlight(first);
  }

  /**
   * Exactly when a job for an otherwise cleared live intent asks its first venue: when the last row is not in
   * flight.
   */
  lemma JobSubmitsIff(db: Db, id: string, venues: Venues)
    requires !Check(db, id).Refused? && id in db.intents && db.intents[id].mode == Live
    requires Check(db, id).Go? ==> Check(db, id).plan.steps[0] in venues.registered
    ensures AfterExecute(db, id, venues).calls != db.calls <==> !LastRowInFlight(db, id)
  {
    BlockingIff(db, id);
    if Check(db, id).Go? {
      var plan := Check(db, id).plan;
      var n := SuccessfulSteps(plan, venues, 0);
      assert |AfterExecute(db, id, venues).calls| > |db.calls|;
    }
  }
}
