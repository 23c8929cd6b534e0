/** Runs of the fan-out: what is never lost, what is stuck, and how soon an event is reached. */
module FanOutRuns {
  import opened EventLog
  import opened WebhookFanOut

  datatype World = World(log: set<Event>, cursor: nat, delivered: set<(string, string)>)

  /** Die is a tick that stops before the cursor is saved, having inserted only some deliveries. */
  datatype Step =
    | Arrive(events: set<Event>)
    | Complete(subs: seq<Subscription>, batch: seq<Event>)
    | Die(subs: seq<Subscription>, batch: seq<Event>, inserted: set<(string, string)>)

  ghost predicate Next(batchSize: nat, w: World, step: Step, v: World) {
    match step
    case Arrive(events) => v == w.(log := w.log + events)
    case Complete(subs, batch) =>
      IsFirst(w.log, w.cursor, batchSize, batch)
      && v == World(w.log, CursorAfter(w.cursor, batch), w.delivered + Pairs(batch, subs))
    case Die(subs, batch, inserted) =>
      IsFirst(w.log, w.cursor, batchSize, batch) && inserted <= Pairs(batch, subs)
      && v == w.(delivered := w.delivered + inserted)
  }

  datatype Run = Run(worlds: seq<World>, steps: seq<Step>)

  ghost predicate StepAt(batchSize: nat, r: Run, i: nat)
    requires i < |r.steps| && i + 1 < |r.worlds|
  {
    Next(batchSize, r.worlds[i], r.steps[i], r.worlds[i + 1])
  }

  ghost predicate IsRun(batchSize: nat, r: Run) {
    && |r.worlds| == |r.steps| + 1
    && forall i :: 0 <= i < |r.steps| ==> StepAt(batchSize, r, i)
  }

  /** At this point of the run the event is stored and the cursor has not passed it. */
  ghost predicate IsAhead(r: Run, e: Event, k: nat)
    requires k < |r.worlds|
  {
    e in r.worlds[k].log && r.worlds[k].cursor <= e.createdAt
  }

  // ---------- safety: nothing passed over is lost ----------

  ghost predicate HandledBy(r: Run, e: Event, i: nat)
    requires i < |r.steps|
  {
    r.steps[i].Complete? && e in r.steps[i].batch
  }

  lemma {:induction false} DeliveredGrows(batchSize: nat, r: Run, i: nat, j: nat)
    requires IsRun(batchSize, r) && i <= j < |r.worlds|
    ensures r.worlds[i].delivered <= r.worlds[j].delivered && r.worlds[i].cursor <= r.worlds[j].cursor
    decreases j - i
  {
    if i < j {
      DeliveredGrows(batchSize, r, i, j - 1);
      assert StepAt(batchSize, r, j - 1);
      if r.steps[j - 1].Complete? && r.steps[j - 1].batch != [] {
        assert r.steps[j - 1].batch[|r.steps[j - 1].batch| - 1] in r.steps[j - 1].batch;
      }
    }
  }

  lemma {:induction false} LogGrows(batchSize: nat, r: Run, i: nat, j: nat)
    requires IsRun(batchSize, r) && i <= j < |r.worlds|
    ensures r.worlds[i].log <= r.worlds[j].log
    decreases j - i
  {
    if i < j {
      LogGrows(batchSize, r, i, j - 1);
      assert StepAt(batchSize, r, j - 1);
    }
  }

  /**
   * An event that was stored before the cursor passed it was in the batch of a completed tick, and every
   * subscription active and matching at that tick has its delivery, whatever ticks died in between.
   */
  lemma {:induction false} NothingPassedIsLost(batchSize: nat, r: Run, k: nat, n: nat, e: Event) returns (i: nat)
    requires IsRun(batchSize, r) && k <= n < |r.worlds|
    requires IsAhead(r, e, k) && e.createdAt < r.worlds[n].cursor
    ensures k <= i < n && HandledBy(r, e, i) && Pairs([e], r.steps[i].subs) <= r.worlds[n].delivered
    decreases n - k
  {
    var m := n - 1;
    assert StepAt(batchSize, r, m);
    DeliveredGrows(batchSize, r, m, n);
    if e.createdAt < r.worlds[m].cursor {
      i := NothingPassedIsLost(batchSize, r, k, m, e);
    } else {
      i := m;
      LogGrows(batchSize, r, k, m);
      BatchCoversAdvance(r.worlds[m].log, r.worlds[m].cursor, batchSize, r.steps[m].batch, e);
    }
  }

  /** An event behind the cursor was fanned out if and only if it was stored before the cursor passed it. */
  lemma HandledIffStoredInTime(batchSize: nat, r: Run, n: nat, e: Event)
    requires IsRun(batchSize, r) && n < |r.worlds| && e.createdAt < r.worlds[n].cursor
    ensures (exists i :: 0 <= i < n && HandledBy(r, e, i)) <==> (exists k :: 0 <= k <= n && IsAhead(r, e, k))
  {
    if k :| 0 <= k <= n && IsAhead(r, e, k) {
      var i := NothingPassedIsLost(batchSize, r, k, n, e);
    }
    if i :| 0 <= i < n && HandledBy(r, e, i) {
      assert StepAt(batchSize, r, i);
      assert IsAhead(r, e, i);
    }
  }

  /** Each delivery belongs to a subscription that matched the event at some tick. */
  lemma {:induction false} DeliveriesAreMatches(batchSize: nat, r: Run, n: nat, pair: (string, string)) returns (i: nat)
    requires IsRun(batchSize, r) && n < |r.worlds| && r.worlds[0].delivered == {} && pair in r.worlds[n].delivered
    ensures i < n && !r.steps[i].Arrive? && pair in Pairs(r.steps[i].batch, r.steps[i].subs)
    ensures forall e :: e in r.steps[i].batch ==> e in r.worlds[i].log
  {
    assert StepAt(batchSize, r, n - 1);
    if pair in r.worlds[n - 1].delivered {
      i := DeliveriesAreMatches(batchSize, r, n - 1, pair);
    } else {
      i := n - 1;
    }
  }

  /** An event that arrives behind the cursor is in no later batch. */
  lemma LateArrivalIsNeverFannedOut(batchSize: nat, r: Run, n: nat, e: Event, i: nat)
    requires IsRun(batchSize, r) && n <= i < |r.steps| && e.createdAt < r.worlds[n].cursor
    ensures !HandledBy(r, e, i)
  {
    DeliveredGrows(batchSize, r, n, i);
    assert StepAt(batchSize, r, i);
  }

  // ---------- which ticks an event is fanned out at ----------

  /**
   * After its first tick an event is fanned out again by a completed tick if and only if the cursor still
   * rests on its time, as long as one batch holds the events of that time.
   */
  lemma HandledAgainIff(batchSize: nat, r: Run, i: nat, j: nat, e: Event)
    requires IsRun(batchSize, r) && i < j < |r.steps| && HandledBy(r, e, i)
    requires r.steps[j].Complete? && |AtTime(r.worlds[j].log, e.createdAt)| <= batchSize
    ensures HandledBy(r, e, j) <==> r.worlds[j].cursor == e.createdAt
  {
    CursorReaches(batchSize, r, i, j, e);
    LogGrows(batchSize, r, i, j);
    assert StepAt(batchSize, r, i) && StepAt(batchSize, r, j);
    if r.worlds[j].cursor == e.createdAt && e !in r.steps[j].batch {
      FullBatchAtTime(r.worlds[j].log, batchSize, r.steps[j].batch, e);
    }
  }

  /** Once an event was handled the cursor is at its time or later. */
  lemma CursorReaches(batchSize: nat, r: Run, i: nat, j: nat, e: Event)
    requires IsRun(batchSize, r) && i < j < |r.worlds| && HandledBy(r, e, i)
    ensures r.worlds[j].cursor >= e.createdAt
  {
    assert StepAt(batchSize, r, i);
    var batch := r.steps[i].batch;
    var k :| 0 <= k < |batch| && batch[k] == e;
    assert k < |batch| - 1 ==> batch[k].createdAt <= batch[|batch| - 1].createdAt;
    DeliveredGrows(batchSize, r, i + 1, j);
  }

  /** One of these subscriptions has this id and matches the event. */
  ghost predicate Wants(subs: seq<Subscription>, subscriptionId: string, e: Event) {
    exists s :: s in subs && s.id == subscriptionId && Matches(s, e)
  }

  /** The tick inserts, or finds already there, the event's delivery to the subscription. */
  ghost predicate DeliversAt(r: Run, subscriptionId: string, e: Event, j: nat)
    requires j < |r.steps|
  {
    match r.steps[j]
    case Arrive(_) => false
    case Complete(subs, batch) => e in batch && Wants(subs, subscriptionId, e)
    case Die(_, _, inserted) => (subscriptionId, e.id) in inserted
  }

  lemma PairsOfEvent(log: set<Event>, batch: seq<Event>, subs: seq<Subscription>, subscriptionId: string, e: Event)
    requires UniqueIds(log) && e in log && forall x :: x in batch ==> x in log
    ensures (subscriptionId, e.id) in Pairs(batch, subs) <==> e in batch && Wants(subs, subscriptionId, e)
  {
    if (subscriptionId, e.id) in Pairs(batch, subs) {
      var x, s :| x in batch && s in subs && Matches(s, x) && (s.id, x.id) == (subscriptionId, e.id);
      assert x == e;
    }
  }

  /** A subscription has an event's delivery if and only if some tick delivered it. */
  lemma {:induction false} DeliveredIff(batchSize: nat, r: Run, n: nat, subscriptionId: string, e: Event)
    requires IsRun(batchSize, r) && n < |r.worlds| && r.worlds[0].delivered == {}
    requires UniqueIds(r.worlds[n].log) && e in r.worlds[n].log
    ensures (subscriptionId, e.id) in r.worlds[n].delivered <==>
      exists j :: 0 <= j < n && DeliversAt(r, subscriptionId, e, j)
  {
    if n > 0 {
      var m := n - 1;
      assert StepAt(batchSize, r, m);
      LogGrows(batchSize, r, m, n);
      if e in r.worlds[m].log {
        DeliveredIff(batchSize, r, m, subscriptionId, e);
      } else {
        NewEventIsUndelivered(batchSize, r, m, n, subscriptionId, e);
      }
      if r.steps[m].Complete? {
        PairsOfEvent(r.worlds[n].log, r.steps[m].batch, r.steps[m].subs, subscriptionId, e);
      }
      assert (subscriptionId, e.id) in r.worlds[n].delivered <==>
        (subscriptionId, e.id) in r.worlds[m].delivered || DeliversAt(r, subscriptionId, e, m);
    }
  }

  lemma {:induction false} NewEventIsUndelivered(
      batchSize: nat, r: Run, m: nat, n: nat, subscriptionId: string, e: Event)
    requires IsRun(batchSize, r) && m <= n < |r.worlds| && r.worlds[0].delivered == {}
    requires UniqueIds(r.worlds[n].log) && e in r.worlds[n].log && e !in r.worlds[m].log
    ensures (subscriptionId, e.id) !in r.worlds[m].delivered
    ensures forall j :: 0 <= j < m ==> !DeliversAt(r, subscriptionId, e, j)
    decreases m
  {
    if m > 0 {
      assert StepAt(batchSize, r, m - 1);
      LogGrows(batchSize, r, m - 1, n);
      LogGrows(batchSize, r, m - 1, m);
      NewEventIsUndelivered(batchSize, r, m - 1, n, subscriptionId, e);
      if !r.steps[m - 1].Arrive? {
        PairsOfEvent(r.worlds[n].log, r.steps[m - 1].batch, r.steps[m - 1].subs, subscriptionId, e);
      }
    }
  }

  /** The ticks whose subscriptions an event reaches: its first, and every later one the cursor rests on its time at. */
  ghost predicate ReachesAt(r: Run, first: nat, e: Event, j: nat)
    requires j < |r.steps| && j < |r.worlds|
  {
    r.steps[j].Complete? && (j == first || (first < j && r.worlds[j].cursor == e.createdAt))
  }

  /**
   * Which subscriptions get an event: those that match it at its first tick or at a later tick with the cursor
   * still on its time, however late they subscribed, and those a dying tick had inserted; no others.
   */
  lemma ReachedSubscriptionsIff(batchSize: nat, r: Run, first: nat, n: nat, subscriptionId: string, e: Event)
    requires IsRun(batchSize, r) && first < n < |r.worlds| && r.worlds[0].delivered == {}
    requires UniqueIds(r.worlds[n].log) && |AtTime(r.worlds[n].log, e.createdAt)| <= batchSize
    requires HandledBy(r, e, first) && forall k :: 0 <= k < first ==> !HandledBy(r, e, k)
    ensures (subscriptionId, e.id) in r.worlds[n].delivered <==>
      exists j :: 0 <= j < n && (if r.steps[j].Die? then (subscriptionId, e.id) in r.steps[j].inserted
                                 else ReachesAt(r, first, e, j) && Wants(r.steps[j].subs, subscriptionId, e))
  {
    assert StepAt(batchSize, r, first);
    LogGrows(batchSize, r, first, n);
    DeliveredIff(batchSize, r, n, subscriptionId, e);
    forall j | 0 <= j < n && r.steps[j].Complete?
      ensures e in r.steps[j].batch <==> ReachesAt(r, first, e, j)
    {
      assert HandledBy(r, e, j) <==> e in r.steps[j].batch;
      if j > first {
        LogGrows(batchSize, r, j, n);
        SubsetCount(AtTime(r.worlds[j].log, e.createdAt), AtTime(r.worlds[n].log, e.createdAt));
        HandledAgainIff(batchSize, r, first, j, e);
      }
    }
    forall j | 0 <= j < n
      ensures DeliversAt(r, subscriptionId, e, j) <==>
        if r.steps[j].Die? then (subscriptionId, e.id) in r.steps[j].inserted
        else ReachesAt(r, first, e, j) && Wants(r.steps[j].subs, subscriptionId, e)
    {
    }
  }

  /** A subscription made after an event was fanned out still gets it, from any tick before the cursor moves on. */
  lemma LateSubscriberIsServed(batchSize: nat, e: Event, early: seq<Subscription>, late: Subscription) returns (r: Run)
    requires batchSize >= 1 && Matches(late, e) && forall s :: s in early ==> s.id != late.id
    ensures IsRun(batchSize, r) && |r.steps| == 2 && r.worlds[0].delivered == {}
    ensures HandledBy(r, e, 0) && r.steps[0].subs == early && r.steps[1] == Complete(early + [late], [e])
    ensures (late.id, e.id) !in r.worlds[1].delivered && (late.id, e.id) in r.worlds[2].delivered
  {
    var w := World({e}, 0, {});
    var v := World({e}, e.createdAt, {} + Pairs([e], early));
    var u := World({e}, e.createdAt, v.delivered + Pairs([e], early + [late]));
    r := Run([w, v, u], [Complete(early, [e]), Complete(early + [late], [e])]);
    assert IsFirst({e}, 0, batchSize, [e]) && IsFirst({e}, e.createdAt, batchSize, [e]);
    assert StepAt(batchSize, r, 0) && StepAt(batchSize, r, 1);
    assert late in early + [late];
  }

  // ---------- liveness: exactly when the fan-out is stuck ----------

  /** Once as many events as the batch holds share the cursor's time, the cursor never moves again. */
  lemma {:induction false} StuckForever(batchSize: nat, r: Run, i: nat, j: nat)
    requires IsRun(batchSize, r) && i <= j < |r.worlds|
    requires |AtTime(r.worlds[i].log, r.worlds[i].cursor)| >= batchSize
    ensures r.worlds[j].cursor == r.worlds[i].cursor
    decreases j - i
  {
    if i < j {
      StuckForever(batchSize, r, i, j - 1);
      LogGrows(batchSize, r, i, j - 1);
      var w := r.worlds[j - 1];
      assert AtTime(r.worlds[i].log, w.cursor) <= AtTime(w.log, w.cursor);
      SubsetCount(AtTime(r.worlds[i].log, w.cursor), AtTime(w.log, w.cursor));
      assert StepAt(batchSize, r, j - 1);
      if r.steps[j - 1].Complete? {
        AdvanceIff(w.log, w.cursor, batchSize, r.steps[j - 1].batch);
        DeliveredGrows(batchSize, r, j - 1, j);
      }
    }
  }

  /** A stuck fan-out never reaches anything later than the cursor. */
  lemma StuckNeverReaches(batchSize: nat, r: Run, i: nat, j: nat, e: Event)
    requires IsRun(batchSize, r) && i <= j < |r.steps|
    requires |AtTime(r.worlds[i].log, r.worlds[i].cursor)| >= batchSize && e.createdAt > r.worlds[i].cursor
    ensures !HandledBy(r, e, j)
  {
    StuckForever(batchSize, r, i, j);
    StuckForever(batchSize, r, i, j + 1);
    assert StepAt(batchSize, r, j);
    if r.steps[j].Complete? {
      var batch := r.steps[j].batch;
      assert forall k :: 0 <= k < |batch| ==> batch[k].createdAt <= CursorAfter(r.worlds[j].cursor, batch);
    }
  }

  /** With a batch size of one, the configured minimum, the first batch is also the last to move the cursor. */
  lemma BatchOfOneSticks(r: Run, i: nat, j: nat)
    requires IsRun(1, r) && i < j < |r.worlds| && r.steps[i].Complete? && r.steps[i].batch != []
    ensures r.worlds[j].cursor == r.worlds[i + 1].cursor
  {
    assert StepAt(1, r, i);
    var last := r.steps[i].batch[|r.steps[i].batch| - 1];
    assert last in r.steps[i].batch;
    assert last in AtTime(r.worlds[i + 1].log, r.worlds[i + 1].cursor);
    assert {last} <= AtTime(r.worlds[i + 1].log, r.worlds[i + 1].cursor);
    SubsetCount({last}, AtTime(r.worlds[i + 1].log, r.worlds[i + 1].cursor));
    StuckForever(1, r, i + 1, j);
  }

  ghost function CompletedTicks(steps: seq<Step>): nat {
    if steps == [] then 0
    else CompletedTicks(steps[..|steps| - 1]) + if steps[|steps| - 1].Complete? then 1 else 0
  }

  /** No time the cursor stops at before e holds a full batch, and e's own time holds at most one batch. */
  ghost predicate RoomToReach(batchSize: nat, r: Run, e: Event) {
    forall k :: 0 <= k < |r.worlds| ==>
      && (r.worlds[k].cursor < e.createdAt ==> |AtTime(r.worlds[k].log, r.worlds[k].cursor)| < batchSize)
      && |AtTime(r.worlds[k].log, e.createdAt)| <= batchSize
  }

  /** Before e is handled, each completed tick passes at least one more instant of the log, and none passes e. */
  lemma {:induction false} TicksPassInstants(batchSize: nat, r: Run, e: Event, n: nat)
    requires IsRun(batchSize, r) && RoomToReach(batchSize, r, e) && n < |r.worlds|
    requires IsAhead(r, e, 0) && forall i :: 0 <= i < n ==> !HandledBy(r, e, i)
    ensures r.worlds[0].cursor <= r.worlds[n].cursor <= e.createdAt
    ensures CompletedTicks(r.steps[..n]) <= |Instants(r.worlds[n].log, r.worlds[0].cursor, r.worlds[n].cursor)|
  {
    if n > 0 {
      TicksPassInstants(batchSize, r, e, n - 1);
      LogGrows(batchSize, r, 0, n - 1);
      LogGrows(batchSize, r, n - 1, n);
      DeliveredGrows(batchSize, r, n - 1, n);
      assert r.steps[..n][..n - 1] == r.steps[..n - 1];
      assert StepAt(batchSize, r, n - 1) && !HandledBy(r, e, n - 1);
      var start, w, step := r.worlds[0].cursor, r.worlds[n - 1], r.steps[n - 1];
      if step.Complete? {
        OneTickPasses(batchSize, r, e, n - 1);
        AdvancePassesInstant(w.log, start, w.cursor, batchSize, step.batch);
      } else {
        InstantsGrow(w.log, r.worlds[n].log, start, w.cursor, w.cursor);
      }
    }
  }

  /** A completed tick that does not handle e moves the cursor, but not past e. */
  lemma OneTickPasses(batchSize: nat, r: Run, e: Event, k: nat)
    requires IsRun(batchSize, r) && RoomToReach(batchSize, r, e)
    requires k < |r.steps| && r.steps[k].Complete? && IsAhead(r, e, k) && !HandledBy(r, e, k)
    ensures r.worlds[k].cursor < CursorAfter(r.worlds[k].cursor, r.steps[k].batch) <= e.createdAt
  {
    assert StepAt(batchSize, r, k);
    var w, batch := r.worlds[k], r.steps[k].batch;
    if w.cursor == e.createdAt {
      FullBatchAtTime(w.log, batchSize, batch, e);
      assert false;
    }
    AdvanceIff(w.log, w.cursor, batchSize, batch);
    assert CursorAfter(w.cursor, batch) <= e.createdAt by {
      if CursorAfter(w.cursor, batch) > e.createdAt {
        BatchCoversAdvance(w.log, w.cursor, batchSize, batch, e);
      }
    }
  }

  /**
   * An event is fanned out by the time more ticks have completed than there are distinct
   * creation times in the log after the cursor and up to the event's own.
   */
  lemma EventIsReached(batchSize: nat, r: Run, e: Event)
    requires IsRun(batchSize, r) && RoomToReach(batchSize, r, e) && IsAhead(r, e, 0)
    requires CompletedTicks(r.steps) > |Instants(r.worlds[|r.steps|].log, r.worlds[0].cursor, e.createdAt)|
    ensures exists i :: 0 <= i < |r.steps| && HandledBy(r, e, i)
  {
    if forall i :: 0 <= i < |r.steps| ==> !HandledBy(r, e, i) {
      var n := |r.steps|;
      assert r.steps[..n] == r.steps;
      TicksPassInstants(batchSize, r, e, n);
      InstantsGrow(r.worlds[n].log, r.worlds[n].log, r.worlds[0].cursor, r.worlds[n].cursor, e.createdAt);
    }
  }

  /** The run from one of its worlds on. */
  ghost function From(r: Run, k: nat): Run
    requires k <= |r.steps| && k <= |r.worlds|
  {
    Run(r.worlds[k..], r.steps[k..])
  }

  lemma SuffixIsRun(batchSize: nat, r: Run, k: nat)
    requires IsRun(batchSize, r) && k <= |r.steps|
    ensures IsRun(batchSize, From(r, k))
  {
    forall i | 0 <= i < |r.steps| - k
      ensures StepAt(batchSize, From(r, k), i)
    {
      assert StepAt(batchSize, r, k + i);
    }
  }
}
