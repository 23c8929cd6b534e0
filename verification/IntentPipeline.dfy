/**
 * The intent pipeline: worker jobs and operator actions over intents, plans, decisions and executions.
 * Each handler is one atomic step. Rows are listed in the order they were inserted, so "latest" is last.
 */
module IntentPipeline {
  import opened Common

  // ---------- rows ----------

  /** Legacy stands for any stored status the lifecycle table does not list. */
  datatype Status = Created | Quoted | Routed | PolicyChecked | Executed | Failed | Held | Legacy(text: string)

  predicate CanTransition(from: Status, to: Status) {
    match from
    case Created => to in {Quoted, Held, Failed}
    case Quoted => to in {Routed, Held, Failed}
    case Routed => to in {PolicyChecked, Held, Failed}
    case PolicyChecked => to in {Executed, Held, Failed}
    case Executed => to == Failed
    case Failed => false
    case Held => to in {Quoted, Routed, PolicyChecked, Executed, Failed, Created}
    case Legacy(_) => to in {Quoted, Routed, PolicyChecked, Executed, Failed, Created}
  }

  datatype Mode = Simulate | Live

  datatype Approval = NotRequired | Awaiting | Approved

  /** `history` lists every status the row has had, the current one last. */
  datatype Intent = Intent(
    mode: Mode, strategy: Option<string>, requiresApproval: bool, approval: Approval, history: seq<Status>)

  datatype Plan = Plan(id: string, intentId: string, steps: seq<string>)

  datatype Override = Override(intentId: string, planId: string)

  /** `judged` is the plan the rules were asked about, when there was one. */
  datatype Decision = Decision(intentId: string, allowed: bool, judged: Option<Plan>)

  datatype ExecutionStatus = Pending | Submitted | Confirmed | FailedExecution

  datatype Settlement = Unknown | SettlementSubmitted | SettlementConfirmed | SettlementFailed

  datatype Execution = Execution(
    intentId: string, adapterId: string, stepIndex: nat, status: ExecutionStatus, settlement: Option<Settlement>)

  datatype AuditEvent =
    | StepCompleted(intentId: string, stepIndex: nat)
    | ExecutionFailed(intentId: string, stepIndex: nat)
    | ExecutionCompleted(intentId: string, stepCount: nat)
    | DedupSkipped(intentId: string)
    | OverrideUsed(intentId: string, planId: string)
    | JobFailed(intentId: string)
    | Other(intentId: string, eventType: string)

  /** A request that has left for a venue adapter. */
  datatype Call = Call(intentId: string, planId: string, stepIndex: nat, adapterId: string)

  datatype Db = Db(
    intents: map<string, Intent>, plans: seq<Plan>, overrides: seq<Override>, decisions: seq<Decision>,
    executions: seq<Execution>, audit: seq<AuditEvent>, paused: set<string>, killSwitch: bool, calls: seq<Call>)

  // ---------- queries ----------

  function StatusOf(i: Intent): Status {
    if i.history == [] then Created else i.history[|i.history| - 1]
  }

  function LatestPlan(plans: seq<Plan>, id: string): Option<Plan> {
    if plans == [] then None
    else if plans[|plans| - 1].intentId == id then Some(plans[|plans| - 1])
    else LatestPlan(plans[..|plans| - 1], id)
  }

  function PlanById(plans: seq<Plan>, planId: string): Option<Plan> {
    if plans == [] then None
    else if plans[0].id == planId then Some(plans[0])
    else PlanById(plans[1..], planId)
  }

  function LatestOverride(overrides: seq<Override>, id: string): Option<Override> {
    if overrides == [] then None
    else if overrides[|overrides| - 1].intentId == id then Some(overrides[|overrides| - 1])
    else LatestOverride(overrides[..|overrides| - 1], id)
  }

  function LatestDecision(decisions: seq<Decision>, id: string): Option<Decision> {
    if decisions == [] then None
    else if decisions[|decisions| - 1].intentId == id then Some(decisions[|decisions| - 1])
    else LatestDecision(decisions[..|decisions| - 1], id)
  }

  function LatestExecution(executions: seq<Execution>, id: string): Option<Execution> {
    if executions == [] then None
    else if executions[|executions| - 1].intentId == id then Some(executions[|executions| - 1])
    else LatestExecution(executions[..|executions| - 1], id)
  }

  /** The override's plan when it belongs to the intent, otherwise the latest routed plan. */
  function EffectivePlan(db: Db, id: string): Option<Plan> {
    var routed := LatestPlan(db.plans, id);
    var override := LatestOverride(db.overrides, id);
    if override.None? then routed
    else
      var alternative := PlanById(db.plans, override.value.planId);
      if alternative.Some? && alternative.value.intentId == id then alternative else routed
  }

  predicate IsBlocking(e: Execution) {
    && e.status != FailedExecution
    && (e.settlement in {Some(SettlementSubmitted), Some(SettlementConfirmed), Some(Unknown)}
      || e.status in {Submitted, Confirmed})
  }

  predicate IsFailure(status: ExecutionStatus, settlement: Option<Settlement>) {
    status == FailedExecution || settlement == Some(SettlementFailed)
  }

  predicate HasBlocking(db: Db, id: string) {
    var latest := LatestExecution(db.executions, id);
    latest.Some? && IsBlocking(latest.value)
  }

  // ---------- one execution job ----------

  datatype Refusal =
    | KillSwitch | NotFound | IntentHeld | StrategyPaused | ApprovalMissing
    | WrongStatus | NoDecision | PolicyBlocked | NoRoute | NoSteps

  datatype Readiness = Refused(why: Refusal) | Duplicate | Go(plan: Plan)

  function Check(db: Db, id: string): Readiness {
    if db.killSwitch then Refused(KillSwitch)
    else if id !in db.intents then Refused(NotFound)
    else
      var i := db.intents[id];
      var decision := LatestDecision(db.decisions, id);
      var plan := EffectivePlan(db, id);
      if StatusOf(i) == Held then Refused(IntentHeld)
      else if i.strategy.Some? && i.strategy.value in db.paused then Refused(StrategyPaused)
      else if i.mode == Live && i.requiresApproval && i.approval != Approved then Refused(ApprovalMissing)
      else if !CanTransition(StatusOf(i), Executed) then Refused(WrongStatus)
      else if decision.None? then Refused(NoDecision)
      else if !decision.value.allowed then Refused(PolicyBlocked)
      else if plan.None? then Refused(NoRoute)
      else if plan.value.steps == [] then Refused(NoSteps)
      else if i.mode == Live && HasBlocking(db, id) then Duplicate
      else Go(plan.value)
  }

  /** How a venue answers: an error result, an execution result, or an exception. */
  datatype Response = Rejected | Result(status: ExecutionStatus, settlement: Option<Settlement>) | Threw

  /** The venues as one job finds them: which adapters exist, and the answer at each step. */
  datatype Venues = Venues(registered: set<string>, respond: nat -> Response)

  datatype JobEnd = Completed | StepFailed | Aborted

  function SetStatus(db: Db, id: string, to: Status): Db
    requires id in db.intents
  {
    db.(intents := db.intents[id := db.intents[id].(history := db.intents[id].history + [to])])
  }

  predicate Succeeds(plan: Plan, venues: Venues, k: nat)
    requires k < |plan.steps|
  {
    && plan.steps[k] in venues.registered && venues.respond(k).Result?
    && !IsFailure(venues.respond(k).status, venues.respond(k).settlement)
  }

  function RowOf(id: string, plan: Plan, venues: Venues, k: nat): Execution
    requires k < |plan.steps|
  {
    match venues.respond(k)
    case Result(status, settlement) => Execution(id, plan.steps[k], k, status, settlement)
    case _ => Execution(id, plan.steps[k], k, FailedExecution, None)
  }

  function CallOf(id: string, plan: Plan, k: nat): Call
    requires k < |plan.steps|
  {
    Call(id, plan.id, k, plan.steps[k])
  }

  /** The first n steps, all successful: one call, one row and one completion event each, in order. */
  function AfterSteps(db: Db, id: string, plan: Plan, venues: Venues, n: nat): Db
    requires n <= |plan.steps|
  {
    db.(
      calls := db.calls + seq(n, k requires 0 <= k < n => CallOf(id, plan, k)),
      executions := db.executions + seq(n, k requires 0 <= k < n => RowOf(id, plan, venues, k)),
      audit := db.audit + seq(n, k requires 0 <= k < n => StepCompleted(id, k)))
  }

  /** How many leading steps succeed. */
  function SuccessfulSteps(plan: Plan, venues: Venues, k: nat): (n: nat)
    requires k <= |plan.steps|
    ensures k <= n <= |plan.steps|
    ensures forall j :: k <= j < n ==> Succeeds(plan, venues, j)
    ensures n < |plan.steps| ==> !Succeeds(plan, venues, n)
    decreases |plan.steps| - k
  {
    if k < |plan.steps| && Succeeds(plan, venues, k) then SuccessfulSteps(plan, venues, k + 1) else k
  }

  /** What running a plan leaves behind: a successful prefix, then completion, one failed row, or an exception. */
  function AfterPlan(db: Db, id: string, plan: Plan, venues: Venues): (Db, JobEnd)
    requires id in db.intents
  {
    var n := SuccessfulSteps(plan, venues, 0);
    var done := AfterSteps(db, id, plan, venues, n);
    if n == |plan.steps| then
      (SetStatus(done, id, Executed).(audit := done.audit + [ExecutionCompleted(id, n)]), Completed)
    else if plan.steps[n] !in venues.registered then (done, Aborted)
    else
      var called := done.(calls := done.calls + [CallOf(id, plan, n)]);
      if venues.respond(n).Threw? then (called, Aborted)
      else
        (SetStatus(called, id, Failed).(
           executions := called.executions + [RowOf(id, plan, venues, n)],
           audit := called.audit + [ExecutionFailed(id, n)]),
         StepFailed)
  }

  /** A used override leaves an audit event before the plan is looked at. */
  function NoteOverride(db: Db, id: string): Db {
    var override := LatestOverride(db.overrides, id);
    if override.None? then db
    else
      var alternative := PlanById(db.plans, override.value.planId);
      if alternative.Some? && alternative.value.intentId == id
      then db.(audit := db.audit + [OverrideUsed(id, override.value.planId)])
      else db
  }

  function AfterExecute(db: Db, id: string, venues: Venues): Db {
    match Check(db, id)
    case Refused(NoSteps) => NoteOverride(db, id)
    case Refused(_) => db
    case Duplicate => var noted := NoteOverride(db, id); noted.(audit := noted.audit + [DedupSkipped(id)])
    case Go(plan) => AfterPlan(NoteOverride(db, id), id, plan, venues).0
  }

  // ---------- the other handlers ----------

  function AfterCreate(db: Db, id: string, mode: Mode, strategy: Option<string>, requiresApproval: bool): Db {
    if id in db.intents then db
    else db.(intents := db.intents[id :=
      Intent(mode, strategy, requiresApproval, if requiresApproval then Awaiting else NotRequired, [Created])])
  }

  /** A guarded status change; nothing happens when the intent is missing or the transition is not allowed. */
  function Transition(db: Db, id: string, to: Status, event: AuditEvent): Db {
    if id in db.intents && CanTransition(StatusOf(db.intents[id]), to)
    then var moved := SetStatus(db, id, to); moved.(audit := moved.audit + [event])
    else db
  }

  function AfterQuote(db: Db, id: string): Db {
    Transition(db, id, Quoted, Other(id, "intent.quoted"))
  }

  /** `best` is what the router found; without a plan the job fails and changes nothing. */
  function AfterRoute(db: Db, id: string, best: Option<Plan>): Db {
    if id in db.intents && CanTransition(StatusOf(db.intents[id]), Routed) && best.Some?
    then Transition(db.(plans := db.plans + [best.value.(intentId := id)]), id, Routed, Other(id, "intent.routed"))
    else db
  }

  function AfterPolicy(db: Db, id: string, allowed: bool): Db {
    if id in db.intents && CanTransition(StatusOf(db.intents[id]), PolicyChecked)
    then
      var decided := db.(
        decisions := db.decisions + [Decision(id, allowed, EffectivePlan(db, id))],
        audit := db.audit + if allowed then [] else [Other(id, "policy.blocked")]);
      Transition(decided, id, PolicyChecked, Other(id, "policy.evaluated"))
    else db
  }

  function AfterApprove(db: Db, id: string): Db {
    if id in db.intents
    then db.(
      intents := db.intents[id := db.intents[id].(approval := Approved)],
      audit := db.audit + [Other(id, "intent.approved")])
    else db
  }

  function AfterHold(db: Db, id: string): Db {
    Transition(db, id, Held, Other(id, "intent.held"))
  }

  function AfterRelease(db: Db, id: string): Db {
    if id in db.intents && StatusOf(db.intents[id]) == Held
    then Transition(db, id, if LatestPlan(db.plans, id).Some? then Routed else Quoted, Other(id, "intent.released"))
    else db
  }

  function AfterOverride(db: Db, id: string, planId: string): Db {
    var plan := PlanById(db.plans, planId);
    if plan.Some? && plan.value.intentId == id
    then db.(
      overrides := db.overrides + [Override(id, planId)],
      audit := db.audit + [Other(id, "route.override_registered")])
    else db
  }

  /** The handler for an execution job that failed for good. */
  function AfterJobFailed(db: Db, id: string): Db {
    var moved :=
      if id in db.intents && StatusOf(db.intents[id]) != Failed && CanTransition(StatusOf(db.intents[id]), Failed)
      then SetStatus(db, id, Failed) else db;
    moved.(audit := moved.audit + [JobFailed(id)])
  }

  function AfterPause(db: Db, strategy: string, paused: bool): Db {
    db.(paused := if paused then db.paused + {strategy} else db.paused - {strategy})
  }

  // ---------- the service ----------

  /** So many entries more, and none of the others touched. */
  ghost predicate IsExtension<T>(before: seq<T>, after: seq<T>, more: nat) {
    before <= after && |after| == |before| + more
  }

  /** The intent has one status more, and no other intent or field of it changed. */
  ghost predicate Moved(before: Db, after: Db, id: string, to: Status) {
    && id in before.intents && id in after.intents && StatusOf(after.intents[id]) == to
    && after.intents[id].(history := before.intents[id].history) == before.intents[id]
    && IsExtension(before.intents[id].history, after.intents[id].history, 1)
    && after.intents.Keys == before.intents.Keys
    && forall other :: other in before.intents && other != id ==> after.intents[other] == before.intents[other]
  }

  class Pipeline {
    var db: Db

    constructor ()
      ensures db == Db(map[], [], [], [], [], [], {}, false, [])
    {
      db := Db(map[], [], [], [], [], [], {}, false, []);
    }

    method TransitionIntent(id: string, to: Status, event: AuditEvent) returns (ok: bool)
      modifies this
      ensures db == Transition(old(db), id, to, event)
      ensures ok <==> id in old(db).intents && CanTransition(StatusOf(old(db).intents[id]), to)
    {
      ok := id in db.intents && CanTransition(StatusOf(db.intents[id]), to);
      if ok {
        db := SetStatus(db, id, to);
        db := db.(audit := db.audit + [event]);
      }
    }

    /** Stores the plan as the intent's latest and moves it on, or touches nothing. */
    method RouteJob(id: string, best: Option<Plan>) returns (routed: bool)
      modifies this
      ensures routed <==> id in old(db).intents && CanTransition(StatusOf(old(db).intents[id]), Routed) && best.Some?
      ensures !routed ==> db == old(db)
      ensures routed ==> LatestPlan(db.plans, id) == Some(best.value.(intentId := id))
      ensures routed ==> IsExtension(old(db).plans, db.plans, 1)
      ensures routed ==> Moved(old(db), db, id, Routed) && IsExtension(old(db).audit, db.audit, 1)
      ensures db.(intents := old(db).intents, plans := old(db).plans, audit := old(db).audit) == old(db)
      ensures db == AfterRoute(old(db), id, best)
    {
      routed := id in db.intents && CanTransition(StatusOf(db.intents[id]), Routed) && best.Some?;
      if !routed { return; }
      db := db.(plans := db.plans + [best.value.(intentId := id)]);
      var _ := TransitionIntent(id, Routed, Other(id, "intent.routed"));
    }

    /** Stores a decision about the plan in effect and moves the intent on, allowed or not; or touches nothing. */
    method PolicyJob(id: string, allowed: bool) returns (judged: bool)
      modifies this
      ensures judged <==> id in old(db).intents && CanTransition(StatusOf(old(db).intents[id]), PolicyChecked)
      ensures !judged ==> db == old(db)
      ensures judged ==> LatestDecision(db.decisions, id) == Some(Decision(id, allowed, EffectivePlan(old(db), id)))
      ensures judged ==> IsExtension(old(db).decisions, db.decisions, 1) && Moved(old(db), db, id, PolicyChecked)
      ensures judged ==> IsExtension(old(db).audit, db.audit, if allowed then 1 else 2)
      ensures db.(intents := old(db).intents, decisions := old(db).decisions, audit := old(db).audit) == old(db)
      ensures db == AfterPolicy(old(db), id, allowed)
    {
      judged := id in db.intents && CanTransition(StatusOf(db.intents[id]), PolicyChecked);
      if !judged { return; }
      db := db.(decisions := db.decisions + [Decision(id, allowed, EffectivePlan(db, id))]);
      if !allowed { db := db.(audit := db.audit + [Other(id, "policy.blocked")]); }
      assert db.audit == old(db).audit + if allowed then [] else [Other(id, "policy.blocked")];
      var _ := TransitionIntent(id, PolicyChecked, Other(id, "policy.evaluated"));
    }

    method ReleaseIntent(id: string) returns (ok: bool)
      modifies this
      ensures db == AfterRelease(old(db), id)
      ensures ok <==> id in old(db).intents && StatusOf(old(db).intents[id]) == Held
    {
      if id !in db.intents || StatusOf(db.intents[id]) != Held { return false; }
      var route := LatestPlan(db.plans, id);
      ok := TransitionIntent(id, if route.Some? then Routed else Quoted, Other(id, "intent.released"));
    }

    /** The execution job: check, then the plan's steps one at a time, each committed before the next. */
    method ExecuteJob(id: string, venues: Venues) returns (ended: Option<JobEnd>)
      modifies this
      ensures db == AfterExecute(old(db), id, venues)
      ensures ended.Some? <==> Check(old(db), id).Go?
      ensures ended.Some? ==> ended.value == AfterPlan(NoteOverride(old(db), id), id, Check(old(db), id).plan, venues).1
    {
      var ready := Check(db, id);
      if ready.Refused? && ready.why != NoSteps { return None; }
      db := NoteOverride(db, id);
      if ready.Refused? { return None; }
      if ready.Duplicate? {
        db := db.(audit := db.audit + [DedupSkipped(id)]);
        return None;
      }
      var plan := ready.plan;
      ghost var start := db;
      ghost var good := SuccessfulSteps(plan, venues, 0);
      var k := 0;
      StepsNone(start, id, plan, venues);
      while k < |plan.steps|
        invariant 0 <= k <= good && db == AfterSteps(start, id, plan, venues, k)
      {
        if plan.steps[k] !in venues.registered {
          assert !Succeeds(plan, venues, k) && k == good;
          return Some(Aborted);
        }
        db := db.(calls := db.calls + [CallOf(id, plan, k)]);
        var response := venues.respond(k);
        if response.Threw? {
          assert !Succeeds(plan, venues, k) && k == good;
          return Some(Aborted);
        }
        var row := RowOf(id, plan, venues, k);
        if response.Rejected? || IsFailure(response.status, response.settlement) {
          assert !Succeeds(plan, venues, k) && k == good;
          db := SetStatus(db, id, Failed).(
            executions := db.executions + [row],
            audit := db.audit + [ExecutionFailed(id, k)]);
          return Some(StepFailed);
        }
        assert Succeeds(plan, venues, k);
        db := db.(executions := db.executions + [row], audit := db.audit + [StepCompleted(id, k)]);
        OneMoreStep(start, id, plan, venues, k);
        k := k + 1;
      }
      db := SetStatus(db, id, Executed).(audit := db.audit + [ExecutionCompleted(id, |plan.steps|)]);
      ended := Some(Completed);
    }
  }

  lemma StepsNone(db: Db, id: string, plan: Plan, venues: Venues)
    ensures AfterSteps(db, id, plan, venues, 0) == db
  {
    var after := AfterSteps(db, id, plan, venues, 0);
    assert after.calls == db.calls && after.executions == db.executions && after.audit == db.audit;
  }

  lemma OneMoreStep(db: Db, id: string, plan: Plan, venues: Venues, k: nat)
    requires k < |plan.steps|
    ensures AfterSteps(db, id, plan, venues, k + 1) ==
      var before := AfterSteps(db, id, plan, venues, k);
      before.(
        calls := before.calls + [CallOf(id, plan, k)],
        executions := before.executions + [RowOf(id, plan, venues, k)],
        audit := before.audit + [StepCompleted(id, k)])
  {
    var before, after := AfterSteps(db, id, plan, venues, k), AfterSteps(db, id, plan, venues, k + 1);
    assert after.calls == before.calls + [CallOf(id, plan, k)];
    assert after.executions == before.executions + [RowOf(id, plan, venues, k)];
    assert after.audit == before.audit + [StepCompleted(id, k)];
  }
}
