/**
 * Whole lives of one event stream over growing logs: nothing shown twice, nothing passed over, exactly when it
 * stalls.
 */
module EventStreamRuns {
  import opened Common
  import opened EventLog
  import opened SseServer
  import FanOutRuns
  import Sorting

  // ---------- one poll ----------

  /** The unfiltered load of a poll: twice the limit from each log, merged, cut to the limit. */
  method LoadEvents(
      auditRows: seq<Row>, anchorRows: seq<Row>, limit: nat, collate: (string, string) -> bool,
      ghost audit: set<Row>, ghost anchor: set<Row>, ghost after: nat)
    returns (rows: seq<Row>)
    requires Sorting.TotalPreorder(collate) && audit !! anchor
    requires IsFirst(audit, after, FetchLimit(limit), auditRows)
    requires IsFirst(anchor, after, FetchLimit(limit), anchorRows)
    ensures limit <= 1000 ==> IsFirst(audit + anchor, after, limit, rows)
  {
    rows := Take(SortEvents(collate, auditRows + anchorRows), limit);
    if limit <= 1000 {
      MergedHeads(collate, audit, anchor, after, FetchLimit(limit), limit, auditRows, anchorRows);
    }
  }

  function FetchLimit(limit: nat): nat {
    if limit * 2 < 1000 then limit * 2 else 1000
  }

  // ---------- what has been written, event by event ----------

  function Ids(events: seq<Row>): seq<string> {
    seq(|events|, i requires 0 <= i < |events| => events[i].id)
  }

  /** No more events share a creation time than the stream remembers ids. */
  ghost predicate FitsMemory(log: set<Row>) {
    forall t :: |AtTime(log, t)| <= SEEN_LIMIT
  }

  /** `done` are the events written so far, in time order, none later than the cursor. */
  ghost predicate Traced(log: set<Row>, s: Stream, done: seq<Row>) {
    && Remembers(s) && EventIds(s.wire) == Ids(done) && InTimeOrder(done)
    && forall e :: e in done ==> e in log && e.createdAt <= s.cursor
  }

  lemma WrittenIsDone(log: set<Row>, s: Stream, done: seq<Row>, e: Row)
    requires Traced(log, s, done) && UniqueIds(log) && e in log
    ensures e.id in EventIds(s.wire) <==> e in done
  {
    hide Remembers, InTimeOrder;
    if e.id in EventIds(s.wire) {
      var i :| 0 <= i < |done| && Ids(done)[i] == e.id;
      assert done[i] in done;
    }
    if e in done {
      var i :| 0 <= i < |done| && done[i] == e;
      assert Ids(done)[i] == e.id;
    }
  }

  /** An event of the cursor's own time that was written is still remembered. */
  lemma RecentlyDoneIsSeen(log: set<Row>, s: Stream, done: seq<Row>, e: Row)
    requires Traced(log, s, done) && NoRepeat(done) && FitsMemory(log) && e in done && e.createdAt >= s.cursor
    ensures e.id in s.seenIds
  {
    var j :| 0 <= j < |done| && done[j] == e;
    var tail := done[j..];
    forall x | x in tail
      ensures x in AtTime(log, s.cursor)
    {
      var i :| 0 <= i < |tail| && tail[i] == x;
      assert done[j].createdAt <= done[j + i].createdAt || i == 0;
      assert done[j + i] in done;
    }
    SeqInSet(tail, AtTime(log, s.cursor));
    RecentIsKept(Ids(done), j);
  }

  lemma RecentIsKept(ids: seq<string>, j: nat)
    requires j < |ids| && |ids| - j <= SEEN_LIMIT
    ensures ids[j] in LastOf(ids, SEEN_LIMIT)
  {
    if |ids| > SEEN_LIMIT {
      assert LastOf(ids, SEEN_LIMIT)[j - (|ids| - SEEN_LIMIT)] == ids[j];
    }
  }

  /** A row no earlier than the cursor: it is or was written, and the cursor is at its time. */
  lemma RowKeepsTrace(log: set<Row>, s: Stream, done: seq<Row>, row: Row)
    returns (done': seq<Row>)
    requires Traced(log, s, done) && UniqueIds(log) && row in log && row.createdAt >= s.cursor
    ensures Traced(log, AfterRow(s, row), done') && AfterRow(s, row).cursor == row.createdAt
    ensures FitsMemory(log) && NoRepeat(done) ==> NoRepeat(done')
  {
    hide FitsMemory, LastOf, Spaced;
    RowKeepsRemembering(s, row);
    if row.id in s.seenIds {
      assert row.id in EventIds(s.wire) by { SeenIsWritten(s, row.id); }
      WrittenIsDone(log, s, done, row);
      done' := done;
    } else {
      done' := done + [row];
      EventIdsSnoc(s.wire, Frame.Event(row.id, row.payload));
      assert Ids(done') == Ids(done) + [row.id];
      if FitsMemory(log) && NoRepeat(done) && row in done {
        RecentlyDoneIsSeen(log, s, done, row);
      }
    }
  }

  lemma SeenIsWritten(s: Stream, id: string)
    requires Remembers(s) && id in s.seenIds
    ensures id in EventIds(s.wire)
  {
  }

  lemma {:induction false} PageKeepsTrace(log: set<Row>, s: Stream, done: seq<Row>, rows: seq<Row>)
    returns (done': seq<Row>)
    requires Traced(log, s, done) && UniqueIds(log) && InTimeOrder(rows)
    requires forall e :: e in rows ==> e in log && e.createdAt >= s.cursor
    ensures Traced(log, AfterRows(s, rows), done') && AfterRows(s, rows).cursor == CursorAfter(s.cursor, rows)
    ensures FitsMemory(log) && NoRepeat(done) ==> NoRepeat(done')
  {
    hide Traced, UniqueIds, FitsMemory, AfterRow, NoRepeat;
    done' := done;
    if rows != [] {
      var n := |rows| - 1;
      var mid := PageKeepsTrace(log, s, done, rows[..n]);
      assert rows[n] in rows;
      assert n > 0 ==> rows[n - 1].createdAt <= rows[n].createdAt;
      done' := RowKeepsTrace(log, AfterRows(s, rows[..n]), mid, rows[n]);
    }
  }

  // ---------- runs ----------

  datatype World = World(log: set<Row>, stream: Stream)

  datatype Step = Arrive(events: set<Row>) | Page(rows: seq<Row>) | Beat

  ghost predicate Next(limit: nat, w: World, step: Step, v: World) {
    match step
    case Arrive(events) => v == w.(log := w.log + events)
    case Page(rows) => IsFirst(w.log, w.stream.cursor, limit, rows) && v == w.(stream := AfterRows(w.stream, rows))
    case Beat => v == w.(stream := AfterKeepAlive(w.stream))
  }

  datatype Run = Run(worlds: seq<World>, steps: seq<Step>)

  ghost predicate StepAt(limit: nat, r: Run, i: nat)
    requires i < |r.steps| && i + 1 < |r.worlds|
  {
    Next(limit, r.worlds[i], r.steps[i], r.worlds[i + 1])
  }

  /** A stream opened at some time, polled while events arrive, over logs whose ids are unique. */
  ghost predicate IsStreamRun(limit: nat, r: Run) {
    && |r.worlds| == |r.steps| + 1
    && r.worlds[0].stream == Opened(r.worlds[0].stream.cursor)
    && (forall k :: 0 <= k < |r.worlds| ==> UniqueIds(r.worlds[k].log))
    && forall i :: 0 <= i < |r.steps| ==> StepAt(limit, r, i)
  }

  lemma BeatKeepsTrace(log: set<Row>, s: Stream, done: seq<Row>)
    requires Traced(log, s, done)
    ensures Traced(log, AfterKeepAlive(s), done)
  {
    hide LastOf, Spaced;
    EventIdsSnoc(s.wire, KeepAlive);
    assert EventIds(s.wire) + [] == EventIds(s.wire);
  }

  lemma ArriveKeepsTrace(small: set<Row>, log: set<Row>, s: Stream, done: seq<Row>)
    requires Traced(small, s, done) && small <= log
    ensures Traced(log, s, done)
    ensures FitsMemory(log) ==> FitsMemory(small)
  {
    hide Remembers;
    forall t
      ensures |AtTime(small, t)| <= |AtTime(log, t)|
    {
      SubsetCount(AtTime(small, t), AtTime(log, t));
    }
  }

  lemma OpenedIsTraced(log: set<Row>, after: nat)
    ensures Traced(log, Opened(after), [])
  {
    OpenedRemembers(after);
    EventIdsSnoc([], Retry);
    assert [] + [Retry] == [Retry];
  }

  lemma {:induction false} TraceAt(limit: nat, r: Run, n: nat) returns (done: seq<Row>)
    requires IsStreamRun(limit, r) && n < |r.worlds|
    ensures Traced(r.worlds[n].log, r.worlds[n].stream, done)
    ensures FitsMemory(r.worlds[n].log) ==> NoRepeat(done)
  {
    hide Traced, FitsMemory, UniqueIds, AfterRows;
    if n == 0 {
      done := [];
      OpenedIsTraced(r.worlds[0].log, r.worlds[0].stream.cursor);
    } else {
      var before := TraceAt(limit, r, n - 1);
      assert StepAt(limit, r, n - 1);
      var w := r.worlds[n - 1];
      match r.steps[n - 1]
      case Arrive(events) =>
        done := before;
        ArriveKeepsTrace(w.log, r.worlds[n].log, w.stream, before);
      case Page(rows) =>
        done := PageKeepsTrace(w.log, w.stream, before, rows);
      case Beat =>
        done := before;
        BeatKeepsTrace(w.log, w.stream, before);
    }
  }

  /** As long as no more events share a time than ids are remembered, no event is ever written twice. */
  lemma NoEventIsWrittenTwice(limit: nat, r: Run, n: nat)
    requires IsStreamRun(limit, r) && n < |r.worlds| && FitsMemory(r.worlds[n].log)
    ensures NoRepeat(EventIds(r.worlds[n].stream.wire))
  {
    hide FitsMemory;
    var done := TraceAt(limit, r, n);
    var ids := Ids(done);
    forall i, j | 0 <= i < j < |ids|
      ensures ids[i] != ids[j]
    {
      assert done[i] in done && done[j] in done && done[i] != done[j];
      assert UniqueIds(r.worlds[n].log);
    }
  }

  // ---------- when events are written twice ----------

  lemma {:induction false} AfterRowsAppend(s: Stream, a: seq<Row>, b: seq<Row>)
    ensures AfterRows(s, a + b) == AfterRows(AfterRows(s, a), b)
  {
    hide AfterRow;
    if b == [] {
      assert a + b == a;
    } else {
      var n := |b| - 1;
      AfterRowsAppend(s, a, b[..n]);
      assert (a + b)[..|a + b| - 1] == a + b[..n];
    }
  }

  /** Rows that are all remembered leave a stream as it is. */
  lemma {:induction false} SeenRowsAreSkipped(s: Stream, rows: seq<Row>)
    requires forall e :: e in rows ==> e.id in s.seenIds
    ensures AfterRows(s, rows) == s
  {
    if rows != [] {
      assert rows[|rows| - 1] in rows;
      SeenRowsAreSkipped(s, rows[..|rows| - 1]);
    }
  }

  /** A stream at time t that has written exactly these ids. */
  ghost predicate HasWritten(s: Stream, t: nat, ids: seq<string>) {
    Remembers(s) && s.cursor == t && EventIds(s.wire) == ids
  }

  lemma NewRowIsWritten(s: Stream, t: nat, ids: seq<string>, row: Row)
    requires HasWritten(s, t, ids) && row.createdAt == t && row.id !in s.seenIds
    ensures HasWritten(AfterRow(s, row), t, ids + [row.id])
  {
    RowKeepsRemembering(s, row);
    EventIdsSnoc(s.wire, Frame.Event(row.id, row.payload));
  }

  /** Events of one time, no two with one id. */
  ghost predicate AreTies(log: set<Row>, t: nat, ties: seq<Row>) {
    && (forall e :: e in ties <==> e in AtTime(log, t))
    && forall i, j :: 0 <= i < j < |ties| ==> ties[i].id != ties[j].id
  }

  lemma NextIsUnseen(log: set<Row>, t: nat, ties: seq<Row>, s: Stream, n: nat)
    requires AreTies(log, t, ties) && n < |ties| && HasWritten(s, t, Ids(ties[..n]))
    ensures ties[n].id !in s.seenIds
  {
    var ids := Ids(ties[..n]);
    assert forall i :: 0 <= i < |s.seenIds| ==> s.seenIds[i] in ids;
    assert forall i :: 0 <= i < n ==> ids[i] == ties[i].id != ties[n].id;
  }

  lemma FirstIsForgotten(ids: seq<string>)
    requires |ids| > SEEN_LIMIT && forall i, j :: 0 <= i < j < |ids| ==> ids[i] != ids[j]
    ensures ids[0] !in LastOf(ids, SEEN_LIMIT)
  {
    assert forall i :: 0 <= i < SEEN_LIMIT ==> LastOf(ids, SEEN_LIMIT)[i] == ids[|ids| - SEEN_LIMIT + i];
  }

  lemma IdsOfPrefix(ties: seq<Row>, n: nat)
    requires n < |ties|
    ensures Ids(ties[..n]) + [ties[n].id] == Ids(ties[..n + 1])
  {
  }

  /** The first page writes its rows one by one. */
  lemma {:induction false} FirstPage(log: set<Row>, t: nat, ties: seq<Row>, n: nat)
    requires AreTies(log, t, ties) && n <= |ties|
    ensures HasWritten(AfterRows(Opened(t), ties[..n]), t, Ids(ties[..n]))
  {
    hide LastOf, Spaced;
    if n == 0 {
      OpenedIsTraced(log, t);
      assert ties[..0] == [] && Ids(ties[..0]) == [];
    } else {
      var s, row := AfterRows(Opened(t), ties[..n - 1]), ties[n - 1];
      FirstPage(log, t, ties, n - 1);
      assert ties[..n][..n - 1] == ties[..n - 1] && row in ties;
      NextIsUnseen(log, t, ties, s, n - 1);
      NewRowIsWritten(s, t, Ids(ties[..n - 1]), row);
      IdsOfPrefix(ties, n - 1);
    }
  }

  /** With the first n written, a page that ends in the next one skips the rest and writes that one. */
  lemma NextPage(log: set<Row>, t: nat, ties: seq<Row>, s: Stream, n: nat, limit: nat)
    requires AreTies(log, t, ties) && 1 <= limit <= n < |ties| && limit <= SEEN_LIMIT
    requires HasWritten(s, t, Ids(ties[..n]))
    ensures HasWritten(AfterRows(s, ties[n + 1 - limit..n + 1]), t, Ids(ties[..n + 1]))
  {
    var page, row := ties[n + 1 - limit..n + 1], ties[n];
    var written := ties[n + 1 - limit..n];
    forall e | e in written
      ensures e.id in s.seenIds
    {
      var i :| 0 <= i < |written| && written[i] == e;
      var j := n + 1 - limit + i;
      assert Ids(ties[..n])[j] == e.id;
      RecentIsKept(Ids(ties[..n]), j);
    }
    assert page == written + [row] && page[..|page| - 1] == written && row in ties;
    SeenRowsAreSkipped(s, written);
    NextIsUnseen(log, t, ties, s, n);
    NewRowIsWritten(s, t, Ids(ties[..n]), row);
    IdsOfPrefix(ties, n);
  }

  /** Once more than the memory holds are written, the first is written again. */
  lemma FirstAgain(log: set<Row>, t: nat, ties: seq<Row>, s: Stream, limit: nat)
    requires AreTies(log, t, ties) && |ties| > SEEN_LIMIT && 1 <= limit <= SEEN_LIMIT
    requires HasWritten(s, t, Ids(ties))
    ensures !NoRepeat(EventIds(AfterRows(s, ties[..limit]).wire))
  {
    var ids, row := Ids(ties), ties[0];
    assert row in ties;
    FirstIsForgotten(ids);
    NewRowIsWritten(s, t, ids, row);
    var mid := AfterRow(s, row);
    assert ties[..limit] == [row] + ties[1..limit];
    AfterRowsAppend(s, [row], ties[1..limit]);
    assert AfterRows(s, [row]) == mid by { assert [row][..0] == []; }
    IdsGrow(mid, ties[1..limit]);
    var all := EventIds(AfterRows(mid, ties[1..limit]).wire);
    assert all[0] == ids[0] == (ids + [row.id])[|ids|] == all[|ids|];
  }

  lemma {:induction false} IdsGrow(s: Stream, rows: seq<Row>)
    ensures EventIds(s.wire) <= EventIds(AfterRows(s, rows).wire)
  {
    if rows != [] {
      var n := |rows| - 1;
      IdsGrow(s, rows[..n]);
      EventIdsSnoc(AfterRows(s, rows[..n]).wire, Frame.Event(rows[n].id, rows[n].payload));
    }
  }

  /** A run over one log that does not grow, ending with this stream. */
  ghost predicate StaticRun(limit: nat, log: set<Row>, r: Run) {
    IsStreamRun(limit, r) && forall k :: 0 <= k < |r.worlds| ==> r.worlds[k].log == log
  }

  ghost function LastStream(r: Run): Stream
    requires r.worlds != []
  {
    r.worlds[|r.worlds| - 1].stream
  }

  /** One more poll, of rows that all lie at the cursor's time and fill the page. */
  lemma PollMore(limit: nat, log: set<Row>, r: Run, rows: seq<Row>) returns (more: Run)
    requires StaticRun(limit, log, r) && NoRepeat(rows) && |rows| == limit
    requires forall e :: e in rows ==> e in log && e.createdAt == LastStream(r).cursor
    ensures StaticRun(limit, log, more) && LastStream(more) == AfterRows(LastStream(r), rows)
  {
    hide AfterRows;
    var last := r.worlds[|r.worlds| - 1];
    more := Run(r.worlds + [World(log, AfterRows(last.stream, rows))], r.steps + [Page(rows)]);
    assert IsFirst(log, last.stream.cursor, limit, rows);
    forall i | 0 <= i < |more.steps|
      ensures StepAt(limit, more, i)
    {
      if i < |r.steps| {
        assert StepAt(limit, r, i);
      }
    }
    assert UniqueIds(r.worlds[0].log);
  }

  lemma {:induction false} WriteTies(limit: nat, log: set<Row>, t: nat, ties: seq<Row>, n: nat) returns (r: Run)
    requires UniqueIds(log) && AreTies(log, t, ties) && 1 <= limit <= n <= |ties| && limit <= SEEN_LIMIT
    ensures StaticRun(limit, log, r) && HasWritten(LastStream(r), t, Ids(ties[..n]))
  {
    hide Remembers, AfterRows, UniqueIds, AreTies;
    PageOfTies(log, t, ties, n - limit, n);
    if n == limit {
      r := Run([World(log, Opened(t))], []);
      FirstPage(log, t, ties, n);
      r := PollMore(limit, log, r, ties[0..n]);
      assert ties[0..n] == ties[..n];
    } else {
      r := WriteTies(limit, log, t, ties, n - 1);
      NextPage(log, t, ties, LastStream(r), n - 1, limit);
      r := PollMore(limit, log, r, ties[n - limit..n]);
    }
  }

  lemma PageOfTies(log: set<Row>, t: nat, ties: seq<Row>, from: nat, to: nat)
    requires AreTies(log, t, ties) && from <= to <= |ties|
    ensures NoRepeat(ties[from..to]) && forall e :: e in ties[from..to] ==> e in log && e.createdAt == t
  {
    forall i, j | 0 <= i < j < to - from
      ensures ties[from..to][i] != ties[from..to][j]
    {
      assert ties[from + i].id != ties[from + j].id;
    }
    forall e | e in ties[from..to]
      ensures e in log && e.createdAt == t
    {
      assert e in ties && e in AtTime(log, t);
    }
  }

  lemma {:induction false} ListTies(events: set<Row>) returns (ties: seq<Row>)
    ensures |ties| == |events| && (forall e :: e in ties <==> e in events) && NoRepeat(ties)
  {
    if events == {} {
      ties := [];
    } else {
      var e :| e in events;
      var rest := ListTies(events - {e});
      ties := rest + [e];
    }
  }

  /** More events at one time than the stream remembers, over which a stream repeats itself. */
  lemma TiesAreRepeated(limit: nat, log: set<Row>, t: nat) returns (r: Run)
    requires UniqueIds(log) && |AtTime(log, t)| > SEEN_LIMIT && 1 <= limit <= SEEN_LIMIT
    ensures StaticRun(limit, log, r) && !NoRepeat(EventIds(LastStream(r).wire))
  {
    hide AfterRows, Remembers;
    var ties := ListTies(AtTime(log, t));
    forall i, j | 0 <= i < j < |ties|
      ensures ties[i].id != ties[j].id
    {
      assert ties[i] in ties && ties[j] in ties && ties[i] != ties[j];
    }
    r := WriteTies(limit, log, t, ties, |ties|);
    assert ties[..|ties|] == ties && ties[0..limit] == ties[..limit];
    FirstAgain(log, t, ties, LastStream(r), limit);
    PageOfTies(log, t, ties, 0, limit);
    r := PollMore(limit, log, r, ties[..limit]);
  }

  /**
   * For any page limit up to the memory of a stream: some stream over a log writes an event twice if and only if
   * more events share a time than a stream remembers.
   */
  lemma RepeatsIff(limit: nat, log: set<Row>)
    requires UniqueIds(log) && 1 <= limit <= SEEN_LIMIT
    ensures (exists r :: StaticRun(limit, log, r) && !NoRepeat(EventIds(LastStream(r).wire))) <==> !FitsMemory(log)
  {
    if r :| StaticRun(limit, log, r) && !NoRepeat(EventIds(LastStream(r).wire)) {
      if FitsMemory(log) {
        NoEventIsWrittenTwice(limit, r, |r.worlds| - 1);
        assert false;
      }
    }
    if !FitsMemory(log) {
      var t :| |AtTime(log, t)| > SEEN_LIMIT;
      var r := TiesAreRepeated(limit, log, t);
    }
  }

  // ---------- a stream pages through the logs as the fan-out does ----------

  ghost function PagingWorld(w: World): FanOutRuns.World {
    FanOutRuns.World(w.log, w.stream.cursor, {})
  }

  ghost function PagingStep(step: Step): FanOutRuns.Step {
    match step
    case Arrive(events) => FanOutRuns.Step.Arrive(events)
    case Page(rows) => FanOutRuns.Step.Complete([], rows)
    case Beat => FanOutRuns.Step.Arrive({})
  }

  /** The run of the cursor alone: a poll is a completed tick that nobody subscribes to. */
  ghost function Paging(r: Run): FanOutRuns.Run {
    FanOutRuns.Run(
      seq(|r.worlds|, k requires 0 <= k < |r.worlds| => PagingWorld(r.worlds[k])),
      seq(|r.steps|, k requires 0 <= k < |r.steps| => PagingStep(r.steps[k])))
  }

  lemma PagingIsRun(limit: nat, r: Run)
    requires IsStreamRun(limit, r)
    ensures FanOutRuns.IsRun(limit, Paging(r))
  {
    var p := Paging(r);
    forall i | 0 <= i < |r.steps|
      ensures FanOutRuns.StepAt(limit, p, i)
    {
      PagingStepAt(limit, r, i);
    }
  }

  lemma PagingStepAt(limit: nat, r: Run, i: nat)
    requires IsStreamRun(limit, r) && i < |r.steps|
    ensures FanOutRuns.Next(limit, PagingWorld(r.worlds[i]), PagingStep(r.steps[i]), PagingWorld(r.worlds[i + 1]))
  {
    hide Traced, UniqueIds;
    assert StepAt(limit, r, i);
    if r.steps[i].Page? {
      var done := TraceAt(limit, r, i);
      var _ := PageKeepsTrace(r.worlds[i].log, r.worlds[i].stream, done, r.steps[i].rows);
    }
  }

  ghost predicate IsAhead(r: Run, e: Row, k: nat)
    requires k < |r.worlds|
  {
    e in r.worlds[k].log && r.worlds[k].stream.cursor <= e.createdAt
  }

  ghost predicate IsShown(r: Run, e: Row, n: nat)
    requires n < |r.worlds|
  {
    e.id in EventIds(r.worlds[n].stream.wire)
  }

  /** Written is written for good. */
  lemma {:induction false} ShownGrows(limit: nat, r: Run, m: nat, n: nat, e: Row)
    requires IsStreamRun(limit, r) && m <= n < |r.worlds| && IsShown(r, e, m)
    ensures IsShown(r, e, n)
    decreases n - m
  {
    if m < n {
      ShownGrows(limit, r, m, n - 1, e);
      StepShows(limit, r, n - 1, e);
    }
  }

  /** A step shows what was shown before and the rows of its poll, and nothing else. */
  lemma StepShows(limit: nat, r: Run, k: nat, e: Row)
    requires IsStreamRun(limit, r) && k < |r.steps|
    ensures IsShown(r, e, k) ==> IsShown(r, e, k + 1)
    ensures r.steps[k].Page? && e in r.steps[k].rows ==> IsShown(r, e, k + 1)
    ensures IsShown(r, e, k + 1) && !IsShown(r, e, k) && e in r.worlds[k + 1].log ==>
      r.steps[k].Page? && e in r.steps[k].rows
  {
    assert StepAt(limit, r, k);
    assert UniqueIds(r.worlds[k + 1].log);
    var before, after := r.worlds[k].stream, r.worlds[k + 1].stream;
    match r.steps[k]
    case Arrive(_) =>
    case Beat =>
      EventIdsSnoc(before.wire, KeepAlive);
    case Page(rows) =>
      var done := TraceAt(limit, r, k);
      EveryPolledRowIsWritten(before, rows);
      NewIdsAreRows(before, rows, e.id);
  }

  lemma {:induction false} NewIdsAreRows(s: Stream, rows: seq<Row>, id: string)
    ensures id in EventIds(s.wire) ==> id in EventIds(AfterRows(s, rows).wire)
    ensures id in EventIds(AfterRows(s, rows).wire) ==> id in EventIds(s.wire) || exists x :: x in rows && x.id == id
  {
    hide LastOf;
    if rows != [] {
      var n := |rows| - 1;
      NewIdsAreRows(s, rows[..n], id);
      var mid := AfterRows(s, rows[..n]);
      EventIdsSnoc(mid.wire, Frame.Event(rows[n].id, rows[n].payload));
      assert rows[n] in rows;
    }
  }

  /** Of the events behind the cursor, exactly those stored before it passed them have been written. */
  lemma ShownIffStoredInTime(limit: nat, r: Run, n: nat, e: Row)
    requires IsStreamRun(limit, r) && n < |r.worlds|
    requires e in r.worlds[n].log && e.createdAt < r.worlds[n].stream.cursor
    ensures IsShown(r, e, n) <==> exists k :: 0 <= k <= n && IsAhead(r, e, k)
  {
    if k :| 0 <= k <= n && IsAhead(r, e, k) {
      PagingIsRun(limit, r);
      assert FanOutRuns.IsAhead(Paging(r), e, k);
      var i := FanOutRuns.NothingPassedIsLost(limit, Paging(r), k, n, e);
      assert Paging(r).steps[i] == PagingStep(r.steps[i]);
      StepShows(limit, r, i, e);
      ShownGrows(limit, r, i + 1, n, e);
    }
    if IsShown(r, e, n) {
      var k := ShownWasAhead(limit, r, n, e);
    }
  }

  lemma {:induction false} ShownWasAhead(limit: nat, r: Run, n: nat, e: Row) returns (k: nat)
    requires IsStreamRun(limit, r) && n < |r.worlds| && e in r.worlds[n].log && IsShown(r, e, n)
    ensures k <= n && IsAhead(r, e, k)
  {
    if n == 0 {
      OpenedIsTraced(r.worlds[0].log, r.worlds[0].stream.cursor);
      assert false;
    } else {
      assert StepAt(limit, r, n - 1);
      if IsShown(r, e, n - 1) {
        var done := TraceAt(limit, r, n - 1);
        ShownIsStored(limit, r, n - 1, n, e);
        k := ShownWasAhead(limit, r, n - 1, e);
      } else {
        k := n - 1;
        StepShows(limit, r, n - 1, e);
      }
    }
  }

  lemma ShownIsStored(limit: nat, r: Run, m: nat, n: nat, e: Row)
    requires IsStreamRun(limit, r) && m < n < |r.worlds| && r.worlds[m].log <= r.worlds[n].log
    requires e in r.worlds[n].log && IsShown(r, e, m)
    ensures e in r.worlds[m].log
  {
    var done := TraceAt(limit, r, m);
    var i :| 0 <= i < |done| && Ids(done)[i] == e.id;
    assert done[i] in done;
    assert UniqueIds(r.worlds[n].log);
  }

  /** A poll moves the cursor if and only if fewer events than the limit share its time and a later one is stored. */
  lemma PollAdvancesIff(limit: nat, r: Run, i: nat)
    requires IsStreamRun(limit, r) && i < |r.steps| && r.steps[i].Page?
    ensures var w := r.worlds[i];
      r.worlds[i + 1].stream.cursor > w.stream.cursor <==>
        |AtTime(w.log, w.stream.cursor)| < limit && exists e :: e in w.log && e.createdAt > w.stream.cursor
  {
    PagingStepAt(limit, r, i);
    AdvanceIff(r.worlds[i].log, r.worlds[i].stream.cursor, limit, r.steps[i].rows);
  }

  /**
   * From any point of a run on: with room at every time the cursor stops at from there, an event ahead of it is
   * written once more polls have been made than there are distinct times between the cursor and it.
   */
  lemma EventIsShown(limit: nat, r: Run, k: nat, e: Row)
    requires IsStreamRun(limit, r) && k <= |r.steps| && IsAhead(r, e, k)
    requires FanOutRuns.RoomToReach(limit, FanOutRuns.From(Paging(r), k), e)
    requires FanOutRuns.CompletedTicks(FanOutRuns.From(Paging(r), k).steps) >
      |Instants(r.worlds[|r.steps|].log, r.worlds[k].stream.cursor, e.createdAt)|
    ensures IsShown(r, e, |r.steps|)
  {
    PagingIsRun(limit, r);
    FanOutRuns.SuffixIsRun(limit, Paging(r), k);
    var p := FanOutRuns.From(Paging(r), k);
    assert FanOutRuns.IsAhead(p, e, 0);
    FanOutRuns.EventIsReached(limit, p, e);
    var i :| 0 <= i < |p.steps| && FanOutRuns.HandledBy(p, e, i);
    assert p.steps[i] == PagingStep(r.steps[k + i]);
    StepShows(limit, r, k + i, e);
    ShownGrows(limit, r, k + i + 1, |r.steps|, e);
  }
}
