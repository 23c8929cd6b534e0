/** What the audit log tells: an intent's whole status history, its approval, and how many rows were stored for it. */
module IntentAudit {
  import opened Common
  import opened IntentPipeline
  import opened IntentRuns
  import opened IntentJobs
  import opened IntentGates
  import opened IntentPlans

  // ---------- replaying the log ----------

  const QUOTED := "intent.quoted"
  const ROUTED := "intent.routed"
  const EVALUATED := "policy.evaluated"
  const BLOCKED := "policy.blocked"
  const HELD := "intent.held"
  const RELEASED := "intent.released"
  const APPROVED := "intent.approved"
  const REGISTERED := "route.override_registered"

  lemma NamesDiffer()
    ensures QUOTED != ROUTED && QUOTED != EVALUATED && QUOTED != HELD && QUOTED != RELEASED
    ensures ROUTED != EVALUATED && ROUTED != HELD && ROUTED != RELEASED
    ensures EVALUATED != HELD && EVALUATED != RELEASED && HELD != RELEASED
    ensures BLOCKED !in {QUOTED, ROUTED, EVALUATED, HELD, RELEASED}
    ensures APPROVED !in {QUOTED, ROUTED, EVALUATED, HELD, RELEASED}
    ensures REGISTERED !in {QUOTED, ROUTED, EVALUATED, HELD, RELEASED}
    ensures BLOCKED != APPROVED && BLOCKED != REGISTERED && APPROVED != REGISTERED
  {
    assert QUOTED[7] != ROUTED[7] && RELEASED[7] != APPROVED[7] && BLOCKED[0] == 'p' && RELEASED[0] == 'i';
    assert BLOCKED[0] != RELEASED[0] && BLOCKED[0] != APPROVED[0];
  }

  /** What the events so far tell of an intent: its statuses, and whether it was ever routed. */
  datatype Told = Told(history: seq<Status>, routed: bool)

  /** Reads one event. A release leads to where the intent had got: to routed once it was routed, else to quoted. */
  ghost function Tell(t: Told, e: AuditEvent, id: string): Told {
    if e == Other(id, QUOTED) then t.(history := t.history + [Quoted])
    else if e == Other(id, ROUTED) then Told(t.history + [Routed], true)
    else if e == Other(id, EVALUATED) then t.(history := t.history + [PolicyChecked])
    else if e == Other(id, HELD) then t.(history := t.history + [Held])
    else if e == Other(id, RELEASED) then t.(history := t.history + [if t.routed then Routed else Quoted])
    else if e.ExecutionCompleted? && e.intentId == id then t.(history := t.history + [Executed])
    else if e.ExecutionFailed? && e.intentId == id then t.(history := t.history + [Failed])
    else if e == JobFailed(id) && t.history != [] && t.history[|t.history| - 1] != Failed
    then t.(history := t.history + [Failed])
    else t
  }

  ghost function Replay(audit: seq<AuditEvent>, id: string): Told {
    if audit == [] then Told([Created], false)
    else Tell(Replay(audit[..|audit| - 1], id), audit[|audit| - 1], id)
  }

  lemma ReplaySnoc(audit: seq<AuditEvent>, e: AuditEvent, id: string)
    ensures Replay(audit + [e], id) == Tell(Replay(audit, id), e, id)
  {
    assert (audit + [e])[..|audit|] == audit;
  }

  /** An event that says nothing about the intent's status. */
  ghost predicate IsQuiet(e: AuditEvent, id: string) {
    || e.intentId != id || e.StepCompleted? || e.DedupSkipped? || e.OverrideUsed?
    || (e.Other? && e.eventType in {BLOCKED, APPROVED, REGISTERED})
  }

  lemma QuietTellsNothing(t: Told, e: AuditEvent, id: string)
    requires IsQuiet(e, id)
    ensures Tell(t, e, id) == t
  {
    NamesDiffer();
  }

  lemma {:induction false} ReplayQuiet(audit: seq<AuditEvent>, more: seq<AuditEvent>, id: string)
    requires forall e :: e in more ==> IsQuiet(e, id)
    ensures Replay(audit + more, id) == Replay(audit, id)
  {
    hide IsQuiet, Tell;
    if more == [] {
      assert audit + more == audit;
    } else {
      var n := |more| - 1;
      ReplayQuiet(audit, more[..n], id);
      assert audit + more == (audit + more[..n]) + [more[n]] && more[n] in more;
      ReplaySnoc(audit + more[..n], more[n], id);
      QuietTellsNothing(Replay(audit, id), more[n], id);
    }
  }

  // ---------- what each step writes ----------

  /** The intent's history is what the log from `start` on tells, and it has a plan if it was routed since. */
  ghost predicate IsTold(db: Db, start: nat, id: string) {
    && start <= |db.audit| && id in db.intents
    && Replay(db.audit[start..], id) == Told(db.intents[id].history, LatestPlan(db.plans, id).Some?)
  }

  lemma Suffix(audit: seq<AuditEvent>, more: seq<AuditEvent>, start: nat)
    requires start <= |audit|
    ensures (audit + more)[start..] == audit[start..] + more
  {
  }

  /** Events that say nothing about an intent, with its row and its plans untouched. */
  lemma QuietStepIsTold(db: Db, after: Db, start: nat, id: string, more: seq<AuditEvent>)
    requires IsTold(db, start, id) && after.audit == db.audit + more && forall e :: e in more ==> IsQuiet(e, id)
    requires id in after.intents && after.intents[id].history == db.intents[id].history
    requires LatestPlan(after.plans, id) == LatestPlan(db.plans, id)
    ensures IsTold(after, start, id)
  {
    hide IsQuiet, Replay, LatestPlan;
    Suffix(db.audit, more, start);
    ReplayQuiet(db.audit[start..], more, id);
  }

  /** One event that does, after some that do not. */
  lemma LoudStepIsTold(
      db: Db, after: Db, start: nat, id: string, quiet: seq<AuditEvent>, e: AuditEvent, to: Status, routed: bool)
    requires IsTold(db, start, id) && after.audit == db.audit + quiet + [e]
    requires forall q :: q in quiet ==> IsQuiet(q, id)
    requires id in after.intents && after.intents[id].history == db.intents[id].history + [to]
    requires routed == LatestPlan(after.plans, id).Some?
    requires Tell(Told(db.intents[id].history, LatestPlan(db.plans, id).Some?), e, id)
      == Told(db.intents[id].history + [to], routed)
    ensures IsTold(after, start, id)
  {
    hide IsQuiet, Replay, LatestPlan, Tell;
    Suffix(db.audit, quiet, start);
    Suffix(db.audit + quiet, [e], start);
    ReplayQuiet(db.audit[start..], quiet, id);
    ReplaySnoc(db.audit[start..] + quiet, e, id);
  }

  lemma LatestPlanAppend(plans: seq<Plan>, p: Plan, id: string)
    ensures LatestPlan(plans + [p], id) == if p.intentId == id then Some(p) else LatestPlan(plans, id)
  {
    assert (plans + [p])[..|plans|] == plans;
  }

  lemma WorkerIsTold(db: Db, start: nat, id: string, step: Step)
    requires IsTold(db, start, id) && (step.Quote? || step.Route? || step.Policy?) && db.intents[id].history != []
    ensures IsTold(After(db, step), start, id)
  {
    hide IsTold, IsQuiet, LatestPlan, EffectivePlan, CanTransition;
    var after := After(db, step);
    assert id in db.intents && start <= |db.audit| by { ToldIsStored(db, start, id); }
    if after == db { return; }
    NamesDiffer();
    match step
    case Quote(x) =>
      OneEvent(db, after, start, id, x, QUOTED, Quoted);
    case Route(x, best) =>
      if best.Some? {
        LatestPlanAppend(db.plans, best.value.(intentId := x), id);
        OneEvent(db, after, start, id, x, ROUTED, Routed);
      }
    case Policy(x, allowed) =>
      PolicyEvents(db, after, start, id, x, allowed);
  }

  lemma ToldIsStored(db: Db, start: nat, id: string)
    requires IsTold(db, start, id)
    ensures id in db.intents && start <= |db.audit|
  {
  }

  /** A transition of an intent that leaves one event. */
  lemma OneEvent(db: Db, after: Db, start: nat, id: string, x: string, name: string, to: Status)
    requires IsTold(db, start, id) && id in after.intents
    requires after.audit == db.audit + [Other(x, name)]
    requires after.intents[id].history == if x == id then db.intents[id].history + [to] else db.intents[id].history
    requires x != id || name != ROUTED ==> LatestPlan(after.plans, id) == LatestPlan(db.plans, id)
    requires x == id && name == ROUTED ==> LatestPlan(after.plans, id).Some?
    requires x == id ==>
      || (name, to) in {(QUOTED, Quoted), (ROUTED, Routed), (HELD, Held)}
      || (name == RELEASED && to == if LatestPlan(db.plans, id).Some? then Routed else Quoted)
    ensures IsTold(after, start, id)
  {
    hide LatestPlan, Replay, IsQuiet;
    NamesDiffer();
    var e := Other(x, name);
    if x == id {
      assert db.audit + [] + [e] == db.audit + [e];
      LoudStepIsTold(db, after, start, id, [], e, to, LatestPlan(after.plans, id).Some?);
    } else {
      OthersAreQuiet(e, id);
      QuietStepIsTold(db, after, start, id, [e]);
    }
  }

  lemma OthersAreQuiet(e: AuditEvent, id: string)
    requires e.intentId != id
    ensures IsQuiet(e, id)
  {
  }

  lemma PolicyEvents(db: Db, after: Db, start: nat, id: string, x: string, allowed: bool)
    requires IsTold(db, start, id) && id in after.intents && after.plans == db.plans
    requires after.audit ==
      db.audit + (if allowed then [] else [Other(x, BLOCKED)]) + [Other(x, EVALUATED)]
    requires after.intents[id].history ==
      if x == id then db.intents[id].history + [PolicyChecked] else db.intents[id].history
    ensures IsTold(after, start, id)
  {
    hide LatestPlan, Replay;
    NamesDiffer();
    var quiet := if allowed then [] else [Other(x, BLOCKED)];
    var e := Other(x, EVALUATED);
    if x == id {
      LoudStepIsTold(db, after, start, id, quiet, e, PolicyChecked, LatestPlan(after.plans, id).Some?);
    } else {
      assert db.audit + quiet + [e] == db.audit + (quiet + [e]);
      QuietStepIsTold(db, after, start, id, quiet + [e]);
    }
  }

  lemma OperatorIsTold(db: Db, start: nat, id: string, step: Step)
    requires IsTold(db, start, id) && (step.Hold? || step.Release?)
    ensures IsTold(After(db, step), start, id)
  {
    hide IsTold, LatestPlan, CanTransition;
    var after := After(db, step);
    ToldIsStored(db, start, id);
    if after == db { return; }
    match step
    case Hold(x) =>
      OneEvent(db, after, start, id, x, HELD, Held);
    case Release(x) =>
      OneEvent(db, after, start, id, x, RELEASED, if LatestPlan(db.plans, x).Some? then Routed else Quoted);
  }

  lemma OtherStepIsTold(db: Db, start: nat, id: string, step: Step)
    requires IsTold(db, start, id)
    requires step.Create? || step.Approve? || step.OverrideRoute? || step.Pause? || step.Switch?
    ensures IsTold(After(db, step), start, id)
  {
    hide IsTold, LatestPlan, PlanById;
    var after := After(db, step);
    ToldIsStored(db, start, id);
    var more :=
      match step
      case Approve(x) => if x in db.intents then [Other(x, APPROVED)] else []
      case OverrideRoute(x, planId) => if after == db then [] else [Other(x, REGISTERED)]
      case _ => [];
    QuietStepIsTold(db, after, start, id, more);
  }

  lemma JobFailedIsTold(db: Db, start: nat, id: string, x: string)
    requires IsTold(db, start, id) && db.intents[id].history != []
    ensures IsTold(After(db, ExecutionJobFailed(x)), start, id)
  {
    hide Replay, LatestPlan;
    var after, e := After(db, ExecutionJobFailed(x)), JobFailed(x);
    if x != id {
      QuietStepIsTold(db, after, start, id, [e]);
    } else if StatusOf(db.intents[id]) == Failed {
      Suffix(db.audit, [e], start);
      ReplaySnoc(db.audit[start..], e, id);
    } else {
      assert CanTransition(StatusOf(db.intents[id]), Failed);
      assert db.audit + [] + [e] == db.audit + [e];
      LoudStepIsTold(db, after, start, id, [], e, Failed, LatestPlan(after.plans, id).Some?);
    }
  }

  // ---------- execution jobs ----------

  /** The events of a plan's run: a completion for each good step, and at the end at most one that tells. */
  lemma PlanEvents(
      db: Db, x: string, plan: Plan, venues: Venues)
    returns (quiet: seq<AuditEvent>, last: seq<AuditEvent>)
    requires x in db.intents
    ensures var (after, end) := AfterPlan(db, x, plan, venues);
      && after.audit == db.audit + quiet + last && after.plans == db.plans && after.intents.Keys == db.intents.Keys
      && (forall e :: e in quiet ==> e.StepCompleted? && e.intentId == x)
      && (match end
          case Completed => |last| == 1 && last[0].ExecutionCompleted?
                            && after.intents[x].history == db.intents[x].history + [Executed]
          case StepFailed => |last| == 1 && last[0].ExecutionFailed?
                             && after.intents[x].history == db.intents[x].history + [Failed]
          case Aborted => last == [] && after.intents[x].history == db.intents[x].history)
      && (forall e :: e in last ==> e.intentId == x)
      && forall other :: other in db.intents && other != x ==> after.intents[other] == db.intents[other]
  {
    hide SuccessfulSteps;
    var n := SuccessfulSteps(plan, venues, 0);
    quiet := seq(n, k requires 0 <= k < n => StepCompleted(x, k));
    if n == |plan.steps| {
      last := [ExecutionCompleted(x, n)];
    } else if plan.steps[n] !in venues.registered || venues.respond(n).Threw? {
      last := [];
      assert db.audit + quiet + [] == db.audit + quiet;
    } else {
      last := [ExecutionFailed(x, n)];
    }
  }

  lemma NotedEvents(db: Db, x: string) returns (more: seq<AuditEvent>)
    ensures NoteOverride(db, x) == db.(audit := db.audit + more)
    ensures forall e :: e in more ==> e.OverrideUsed? && e.intentId == x
  {
    hide LatestOverride, PlanById;
    var noted := NoteOverride(db, x);
    more := noted.audit[|db.audit|..];
    if noted == db {
      assert db.audit + more == db.audit;
    }
  }

  /**
   * A job that is not refused first notes the override it uses, if any, and then a skip if it is a duplicate;
   * a duplicate leaves nothing else.
   */
  lemma JobNotes(db: Db, x: string, venues: Venues) returns (noted: seq<AuditEvent>)
    requires !Check(db, x).Refused?
    ensures db.audit + noted <= AfterExecute(db, x, venues).audit
    ensures if exists plan :: OverridesTo(db, x, plan)
      then exists k :: IsLastOverride(db.overrides, x, k) && noted == [OverrideUsed(x, db.overrides[k].planId)]
      else noted == []
    ensures Check(db, x).Duplicate? ==>
      AfterExecute(db, x, venues) == db.(audit := db.audit + noted + [DedupSkipped(x)])
  {
    hide Check, NoteOverride, AfterPlan, OverridesTo, IsLastOverride;
    NotedIff(db, x);
    InRange(db, x);
    if exists plan :: OverridesTo(db, x, plan) {
      var k :| IsLastOverride(db.overrides, x, k)
        && NoteOverride(db, x) == db.(audit := db.audit + [OverrideUsed(x, db.overrides[k].planId)]);
      noted := [OverrideUsed(x, db.overrides[k].planId)];
    } else {
      noted := [];
      assert db.audit + noted == db.audit;
    }
    if Check(db, x).Go? {
      GoIsRegistered(db, x);
      var quiet, last := PlanEvents(NoteOverride(db, x), x, Check(db, x).plan, venues);
      assert AfterExecute(db, x, venues).audit == db.audit + noted + quiet + last;
    }
  }

  lemma JobIsTold(db: Db, start: nat, id: string, x: string, venues: Venues)
    requires IsTold(db, start, id)
    ensures IsTold(AfterExecute(db, x, venues), start, id)
  {
    hide IsTold, Check, AfterPlan, NoteOverride, LatestPlan;
    ToldIsStored(db, start, id);
    var after := AfterExecute(db, x, venues);
    var noted := NotedEvents(db, x);
    match Check(db, x)
    case Refused(why) =>
      QuietStepIsTold(db, after, start, id, after.audit[|db.audit|..]);
    case Duplicate =>
      QuietStepIsTold(db, after, start, id, noted + [DedupSkipped(x)]);
    case Go(plan) =>
      GoIsRegistered(db, x);
      var quiet, last := PlanEvents(NoteOverride(db, x), x, plan, venues);
      assert after.audit == db.audit + noted + quiet + last;
      RunIsTold(db, after, start, id, x, noted + quiet, last);
  }

  lemma RunIsTold(
      db: Db, after: Db, start: nat, id: string, x: string, quiet: seq<AuditEvent>, last: seq<AuditEvent>)
    requires IsTold(db, start, id) && after.plans == db.plans
    requires id in after.intents && x in after.intents && x in db.intents
    requires after.audit == db.audit + quiet + last && |last| <= 1
    requires forall e :: e in quiet ==> e.intentId == x && (e.StepCompleted? || e.OverrideUsed?)
    requires forall e :: e in last ==> e.intentId == x && (e.ExecutionCompleted? || e.ExecutionFailed?)
    requires x != id ==> after.intents[id] == db.intents[id]
    requires after.intents[x].history == db.intents[x].history
      + if last == [] then [] else if last[0].ExecutionCompleted? then [Executed] else [Failed]
    ensures IsTold(after, start, id)
  {
    hide IsTold, LatestPlan;
    ToldIsStored(db, start, id);
    if x == id && last != [] {
      assert last == [last[0]] && last[0] in last;
      LoudStepIsTold(
        db, after, start, id, quiet, last[0], if last[0].ExecutionCompleted? then Executed else Failed,
        LatestPlan(after.plans, id).Some?);
    } else {
      assert db.audit + quiet + last == db.audit + (quiet + last);
      QuietStepIsTold(db, after, start, id, quiet + last);
    }
  }

  // ---------- the audit log tells the history ----------

  lemma StepIsTold(db: Db, start: nat, id: string, step: Step)
    requires IsTold(db, start, id) && db.intents[id].history != []
    ensures IsTold(After(db, step), start, id)
    ensures After(db, step).intents[id].history != []
  {
    hide IsTold, AfterExecute, AfterRoute, AfterPolicy, AfterJobFailed, AfterRelease;
    ToldIsStored(db, start, id);
    StepAdvances(db, step, id);
    match step
    case Quote(_) => WorkerIsTold(db, start, id, step);
    case Route(_, _) => WorkerIsTold(db, start, id, step);
    case Policy(_, _) => WorkerIsTold(db, start, id, step);
    case Hold(_) => OperatorIsTold(db, start, id, step);
    case Release(_) => OperatorIsTold(db, start, id, step);
    case Execute(x, venues) => JobIsTold(db, start, id, x, venues);
    case ExecutionJobFailed(x) => JobFailedIsTold(db, start, id, x);
    case _ => OtherStepIsTold(db, start, id, step);
  }

  lemma {:induction false} ToldThroughout(db: Db, start: nat, id: string, steps: seq<Step>)
    requires IsTold(db, start, id) && db.intents[id].history != []
    ensures IsTold(RunFrom(db, steps), start, id) && RunFrom(db, steps).intents[id].history != []
  {
    hide IsTold, After;
    if steps != [] {
      ToldThroughout(db, start, id, steps[..|steps| - 1]);
      StepIsTold(RunFrom(db, steps[..|steps| - 1]), start, id, steps[|steps| - 1]);
    } else {
      ToldIsStored(db, start, id);
    }
  }

  /** Plans are stored for known intents only. */
  ghost predicate PlansAreOwned(db: Db) {
    forall p :: p in db.plans ==> p.intentId in db.intents
  }

  lemma {:induction false} PlansAlwaysOwned(steps: seq<Step>)
    ensures PlansAreOwned(RunFrom(EMPTY, steps))
  {
    if steps != [] {
      var n := |steps| - 1;
      PlansAlwaysOwned(steps[..n]);
      StepKeepsOwned(RunFrom(EMPTY, steps[..n]), steps[n]);
    }
  }

  lemma StepKeepsOwned(db: Db, step: Step)
    requires PlansAreOwned(db)
    ensures PlansAreOwned(After(db, step))
  {
    hide CanTransition, Check, AfterPlan, NoteOverride;
    if step.Execute? {
      var _ := NotedEvents(db, step.id);
      if Check(db, step.id).Go? {
        GoIsRegistered(db, step.id);
        var _, _ := PlanEvents(NoteOverride(db, step.id), step.id, Check(db, step.id).plan, step.venues);
      }
    }
  }

  /**
   * Over every run: read from an intent's creation on, the audit log alone gives every status the intent has had,
   * in order, and says whether a plan is stored for it.
   */
  lemma AuditTellsHistory(before: seq<Step>, create: Step, later: seq<Step>)
    requires create.Create? && create.id !in RunFrom(EMPTY, before).intents
    ensures var start, db := RunFrom(EMPTY, before), RunFrom(After(RunFrom(EMPTY, before), create), later);
      && start.audit <= db.audit && create.id in db.intents
      && Replay(db.audit[|start.audit|..], create.id).history == db.intents[create.id].history
      && (Replay(db.audit[|start.audit|..], create.id).routed <==>
            exists p :: p in db.plans && p.intentId == create.id)
  {
    var start, id := RunFrom(EMPTY, before), create.id;
    var db := After(start, create);
    PlansAlwaysOwned(before);
    LatestIsMember(db, id);
    assert db.audit[|start.audit|..] == [];
    ToldThroughout(db, |start.audit|, id, later);
    AuditGrows(db, later);
    var end := RunFrom(db, later);
    LatestIsMember(end, id);
    NoPlanNone(end.plans, id);
  }

  lemma {:induction false} NoPlanNone(plans: seq<Plan>, id: string)
    ensures LatestPlan(plans, id).None? ==> forall p :: p in plans ==> p.intentId != id
  {
    if plans != [] {
      NoPlanNone(plans[..|plans| - 1], id);
      assert plans == plans[..|plans| - 1] + [plans[|plans| - 1]];
    }
  }

  lemma StepAppends(db: Db, step: Step)
    ensures db.audit <= After(db, step).audit
  {
    hide CanTransition, Check, AfterPlan, NoteOverride, LatestPlan, PlanById, EffectivePlan;
    if step.Execute? {
      var _ := NotedEvents(db, step.id);
      if Check(db, step.id).Go? {
        GoIsRegistered(db, step.id);
        var quiet, last := PlanEvents(NoteOverride(db, step.id), step.id, Check(db, step.id).plan, step.venues);
      }
    }
  }

  lemma {:induction false} AuditGrows(db: Db, steps: seq<Step>)
    ensures db.audit <= RunFrom(db, steps).audit
  {
    hide After;
    if steps != [] {
      AuditGrows(db, steps[..|steps| - 1]);
      StepAppends(RunFrom(db, steps[..|steps| - 1]), steps[|steps| - 1]);
    }
  }

  // ---------- the audit log counts the rows ----------

  /** How often the log has this event. */
  ghost function Times(audit: seq<AuditEvent>, id: string, name: string): nat {
    multiset(audit)[Other(id, name)]
  }

  /** A job leaves no event under a plain name. */
  lemma JobWrites(db: Db, x: string, venues: Venues) returns (more: seq<AuditEvent>)
    ensures AfterExecute(db, x, venues).audit == db.audit + more && forall e :: e in more ==> !e.Other?
  {
    hide Check, AfterPlan, NoteOverride;
    var noted := NotedEvents(db, x);
    match Check(db, x)
    case Refused(why) =>
      more := if why == NoSteps then noted else [];
    case Duplicate =>
      more := noted + [DedupSkipped(x)];
    case Go(plan) =>
      GoIsRegistered(db, x);
      var quiet, last := PlanEvents(NoteOverride(db, x), x, plan, venues);
      more := noted + quiet + last;
  }

  /** The intent's policy job is taken up. */
  ghost predicate IsJudged(db: Db, step: Step, id: string) {
    step.Policy? && step.id == id && id in db.intents
    && (StatusOf(db.intents[id]) in {Routed, Held} || StatusOf(db.intents[id]).Legacy?)
  }

  ghost function One(b: bool): nat {
    if b then 1 else 0
  }

  lemma CountAppend(audit: seq<AuditEvent>, more: seq<AuditEvent>, id: string, name: string)
    ensures Times(audit + more, id, name) == Times(audit, id, name) + Times(more, id, name)
  {
  }

  lemma CountOne(e: AuditEvent, id: string, name: string)
    ensures Times([e], id, name) == One(e == Other(id, name)) && Times([], id, name) == 0
  {
  }

  lemma {:induction false} CountNone(more: seq<AuditEvent>, id: string, name: string)
    requires forall e :: e in more ==> !e.Other?
    ensures Times(more, id, name) == 0
  {
    assert Other(id, name) !in more;
    assert Other(id, name) !in multiset(more);
  }

  /** What the events of a step add under the four names that stand for rows and approvals. */
  ghost predicate Counts(db: Db, step: Step, id: string, more: seq<AuditEvent>) {
    && Times(more, id, APPROVED) == One(step == Approve(id) && id in db.intents)
    && Times(more, id, REGISTERED) == One(AcceptsOverride(db, step) && step.id == id)
    && Times(more, id, EVALUATED) == One(IsJudged(db, step, id))
    && Times(more, id, BLOCKED) == One(IsJudged(db, step, id) && !step.allowed)
  }

  lemma CountsOne(db: Db, step: Step, id: string, e: AuditEvent)
    requires One(e == Other(id, APPROVED)) == One(step == Approve(id) && id in db.intents)
    requires One(e == Other(id, REGISTERED)) == One(AcceptsOverride(db, step) && step.id == id)
    requires One(e == Other(id, EVALUATED)) == One(IsJudged(db, step, id))
    requires One(e == Other(id, BLOCKED)) == One(IsJudged(db, step, id) && !step.allowed)
    ensures Counts(db, step, id, [e])
  {
    hide Times, AcceptsOverride, IsJudged, One;
    CountOne(e, id, APPROVED);
    CountOne(e, id, REGISTERED);
    CountOne(e, id, EVALUATED);
    CountOne(e, id, BLOCKED);
  }

  lemma CountsNone(db: Db, step: Step, id: string, more: seq<AuditEvent>)
    requires forall e :: e in more ==> !e.Other?
    requires !(step == Approve(id) && id in db.intents) && !(AcceptsOverride(db, step) && step.id == id)
    requires !IsJudged(db, step, id)
    ensures Counts(db, step, id, more)
  {
    CountNone(more, id, APPROVED);
    CountNone(more, id, REGISTERED);
    CountNone(more, id, EVALUATED);
    CountNone(more, id, BLOCKED);
  }

  /** A step that leaves a single event. */
  lemma SimpleCounts(db: Db, step: Step, id: string) returns (more: seq<AuditEvent>)
    requires step.Quote? || step.Route? || step.Hold? || step.Release? || step.Approve? || step.OverrideRoute?
    ensures After(db, step).audit == db.audit + more && Counts(db, step, id, more)
  {
    hide Times, LatestPlan, PlanById, CanTransition, Counts;
    NamesDiffer();
    if After(db, step) == db {
      more := [];
      assert db.audit + more == db.audit;
      CountsNone(db, step, id, more);
    } else {
      var name :=
        match step
        case Quote(_) => QUOTED
        case Route(_, _) => ROUTED
        case Hold(_) => HELD
        case Release(_) => RELEASED
        case Approve(_) => APPROVED
        case _ => REGISTERED;
      var e := Other(step.id, name);
      more := [e];
      CountsOne(db, step, id, e);
    }
  }

  lemma PolicyCounts(db: Db, step: Step, id: string) returns (more: seq<AuditEvent>)
    requires step.Policy?
    ensures After(db, step).audit == db.audit + more && Counts(db, step, id, more)
  {
    hide Times, EffectivePlan;
    NamesDiffer();
    var e := Other(step.id, EVALUATED);
    if After(db, step) == db {
      more := [];
      assert db.audit + more == db.audit;
      CountsNone(db, step, id, more);
    } else if step.allowed {
      more := [e];
      assert db.audit + [] + [e] == db.audit + [e];
      CountsOne(db, step, id, e);
    } else {
      var blocked := Other(step.id, BLOCKED);
      more := [blocked] + [e];
      assert db.audit + [blocked] + [e] == db.audit + more;
      TwoCounts(step.id, id, blocked, e);
    }
  }

  lemma TwoCounts(x: string, id: string, blocked: AuditEvent, e: AuditEvent)
    requires blocked == Other(x, BLOCKED) && e == Other(x, EVALUATED)
    ensures var more := [blocked] + [e];
      && Times(more, id, APPROVED) == 0 && Times(more, id, REGISTERED) == 0
      && Times(more, id, EVALUATED) == Times(more, id, BLOCKED) == One(x == id)
  {
    NamesDiffer();
    CountAppend([blocked], [e], id, APPROVED);
    CountAppend([blocked], [e], id, REGISTERED);
    CountAppend([blocked], [e], id, EVALUATED);
    CountAppend([blocked], [e], id, BLOCKED);
    CountOne(blocked, id, APPROVED);
    CountOne(blocked, id, REGISTERED);
    CountOne(blocked, id, EVALUATED);
    CountOne(blocked, id, BLOCKED);
    CountOne(e, id, APPROVED);
    CountOne(e, id, REGISTERED);
    CountOne(e, id, EVALUATED);
    CountOne(e, id, BLOCKED);
  }

  lemma StepCounts(db: Db, step: Step, id: string) returns (more: seq<AuditEvent>)
    ensures After(db, step).audit == db.audit + more && Counts(db, step, id, more)
  {
    hide Counts, AcceptsOverride, IsJudged, LatestPlan, PlanById, EffectivePlan, CanTransition, AfterExecute;
    if step.Quote? || step.Route? || step.Hold? || step.Release? || step.Approve? || step.OverrideRoute? {
      more := SimpleCounts(db, step, id);
    } else if step.Policy? {
      more := PolicyCounts(db, step, id);
    } else {
      if step.Execute? {
        more := JobWrites(db, step.id, step.venues);
      } else {
        more := if step.ExecutionJobFailed? then [JobFailed(step.id)] else [];
      }
      NothingTaken(db, step, id);
      CountsNone(db, step, id, more);
    }
  }

  lemma NothingTaken(db: Db, step: Step, id: string)
    requires !step.Policy? && !step.OverrideRoute?
    ensures !IsJudged(db, step, id) && !AcceptsOverride(db, step)
  {
  }

  /** The approval an intent shows, given how it was created and how often it was approved. */
  ghost function ApprovalAfter(required: bool, approvals: nat): Approval {
    if approvals > 0 then Approved else if required then Awaiting else NotRequired
  }

  ghost function DecisionsFor(decisions: seq<Decision>, id: string): nat {
    if decisions == [] then 0
    else DecisionsFor(decisions[..|decisions| - 1], id) + One(decisions[|decisions| - 1].intentId == id)
  }

  ghost function RefusalsFor(decisions: seq<Decision>, id: string): nat {
    if decisions == [] then 0
    else
      var last := decisions[|decisions| - 1];
      RefusalsFor(decisions[..|decisions| - 1], id) + One(last.intentId == id && !last.allowed)
  }

  ghost function OverridesFor(overrides: seq<Override>, id: string): nat {
    if overrides == [] then 0
    else OverridesFor(overrides[..|overrides| - 1], id) + One(overrides[|overrides| - 1].intentId == id)
  }

  /** The log has one event for every decision, refusal and override of the intent, and for its approval. */
  ghost predicate IsCounted(db: Db, id: string) {
    && Times(db.audit, id, EVALUATED) == DecisionsFor(db.decisions, id)
    && Times(db.audit, id, BLOCKED) == RefusalsFor(db.decisions, id)
    && Times(db.audit, id, REGISTERED) == OverridesFor(db.overrides, id)
    && (if id in db.intents
        then db.intents[id].approval ==
             ApprovalAfter(db.intents[id].requiresApproval, Times(db.audit, id, APPROVED))
        else Times(db.audit, id, APPROVED) == 0)
  }

  lemma DecisionCounted(decisions: seq<Decision>, d: Decision, id: string)
    ensures DecisionsFor(decisions + [d], id) == DecisionsFor(decisions, id) + One(d.intentId == id)
    ensures RefusalsFor(decisions + [d], id) == RefusalsFor(decisions, id) + One(d.intentId == id && !d.allowed)
  {
    assert (decisions + [d])[..|decisions|] == decisions;
  }

  lemma OverrideCounted(overrides: seq<Override>, o: Override, id: string)
    ensures OverridesFor(overrides + [o], id) == OverridesFor(overrides, id) + One(o.intentId == id)
  {
    assert (overrides + [o])[..|overrides|] == overrides;
  }

  lemma DecisionsStep(db: Db, step: Step, id: string)
    ensures var after := After(db, step).decisions;
      && DecisionsFor(after, id) == DecisionsFor(db.decisions, id) + One(IsJudged(db, step, id))
      && RefusalsFor(after, id) == RefusalsFor(db.decisions, id) + One(IsJudged(db, step, id) && !step.allowed)
  {
    hide EffectivePlan, DecisionsFor, RefusalsFor, AfterExecute;
    if step.Policy? {
      DecisionCounted(db.decisions, Decision(step.id, step.allowed, EffectivePlan(db, step.id)), id);
    } else {
      DecisionsFrame(db, step);
    }
  }

  lemma OverridesStep(db: Db, step: Step, id: string)
    ensures OverridesFor(After(db, step).overrides, id) ==
      OverridesFor(db.overrides, id) + One(AcceptsOverride(db, step) && step.id == id)
  {
    hide After, OverridesFor;
    PlansFrame(db, step);
    if AcceptsOverride(db, step) {
      OverrideCounted(db.overrides, Override(step.id, step.planId), id);
    }
  }

  lemma NewIntentWaits(db: Db, step: Step, id: string)
    requires id !in db.intents && id in After(db, step).intents
    ensures After(db, step).intents[id].approval == ApprovalAfter(After(db, step).intents[id].requiresApproval, 0)
  {
    NewIntentIsCreated(db, step, id);
  }

  lemma StepIsCounted(db: Db, step: Step, id: string)
    requires IsCounted(db, id)
    ensures IsCounted(After(db, step), id)
  {
    hide After, Times, DecisionsFor, RefusalsFor, OverridesFor, IsJudged, AcceptsOverride;
    var more := StepCounts(db, step, id);
    CountAppend(db.audit, more, id, APPROVED);
    CountAppend(db.audit, more, id, REGISTERED);
    CountAppend(db.audit, more, id, EVALUATED);
    CountAppend(db.audit, more, id, BLOCKED);
    DecisionsStep(db, step, id);
    OverridesStep(db, step, id);
    if id in db.intents {
      IntentFrame(db, step, id);
    } else if id in After(db, step).intents {
      NewIntentWaits(db, step, id);
    }
  }

  /**
   * Over every run the log has one evaluation event for each decision of an intent and one blocking event for each
   * refusal, one registration for each override, and an approval event if and only if the intent shows as approved.
   */
  lemma {:induction false} AuditCountsRows(steps: seq<Step>, id: string)
    ensures IsCounted(RunFrom(EMPTY, steps), id)
  {
    hide After;
    if steps != [] {
      AuditCountsRows(steps[..|steps| - 1], id);
      StepIsCounted(RunFrom(EMPTY, steps[..|steps| - 1]), steps[|steps| - 1], id);
    }
  }
}
