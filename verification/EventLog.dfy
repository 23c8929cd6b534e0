/**
 * The two event logs, and the one way the program reads them: at or after a time, in time order,
 * up to a limit, from each log, merged. The webhook worker and the event stream both page through it.
 */
module EventLog {
  import opened Common
  import Sorting

  datatype EventSource = Audit | Anchor

  /** The payload is what the event serialises to, a single line. */
  datatype Event = Event(id: string, source: EventSource, eventType: string, createdAt: nat, payload: string)

  ghost predicate UniqueIds(log: set<Event>) {
    forall a, b :: a in log && b in log && a.id == b.id ==> a == b
  }

  // ---------- the ordered query and the merge ----------

  ghost predicate InTimeOrder(rows: seq<Event>) {
    forall i, j :: 0 <= i < j < |rows| ==> rows[i].createdAt <= rows[j].createdAt
  }

  /**
   * What the storage query returns: rows at or after `since`, in time order, at most `limit`,
   * leaving out only rows that are no earlier than every row returned. The order of ties is open.
   */
  ghost predicate IsFirst(log: set<Event>, since: nat, limit: nat, rows: seq<Event>) {
    && NoRepeat(rows) && InTimeOrder(rows) && |rows| <= limit
    && (forall e :: e in rows ==> e in log && e.createdAt >= since)
    && forall e :: e in log && e.createdAt >= since && e !in rows ==>
         |rows| == limit && forall r :: r in rows ==> r.createdAt <= e.createdAt
  }

  /** Sorts by creation time, then by id in the given collation. */
  predicate AtOrBefore(collate: (string, string) -> bool, a: Event, b: Event) {
    a.createdAt < b.createdAt || (a.createdAt == b.createdAt && collate(a.id, b.id))
  }

  function ByTime(collate: (string, string) -> bool): (Event, Event) -> bool {
    (a, b) => AtOrBefore(collate, a, b)
  }

  function SortEvents(collate: (string, string) -> bool, rows: seq<Event>): seq<Event> {
    Sorting.Sort(ByTime(collate), rows)
  }

  function Take(rows: seq<Event>, n: nat): seq<Event> {
    if n < |rows| then rows[..n] else rows
  }

  lemma SortedRows(collate: (string, string) -> bool, rows: seq<Event>)
    requires Sorting.TotalPreorder(collate) && NoRepeat(rows)
    ensures var sorted := SortEvents(collate, rows);
      && InTimeOrder(sorted) && NoRepeat(sorted) && |sorted| == |rows| && (forall e :: e in sorted <==> e in rows)
      && Sorting.SortedBy(ByTime(collate), sorted)
      && (forall i, j :: 0 <= i < j < |sorted| && sorted[i].createdAt == sorted[j].createdAt ==>
            collate(sorted[i].id, sorted[j].id))
  {
    var leq := ByTime(collate);
    forall a, b, c | leq(a, b) && leq(b, c)
      ensures leq(a, c)
    {
    }
    Sorting.SortCorrect(leq, rows);
    var sorted := Sorting.Sort(leq, rows);
    Sorting.SameElements(sorted, rows);
    NoRepeatPermutes(rows, sorted);
    forall i, j | 0 <= i < j < |sorted|
      ensures sorted[i].createdAt <= sorted[j].createdAt
    {
      assert leq(sorted[i], sorted[j]);
    }
  }

  lemma {:induction false} DistinctCount(rows: seq<Event>, inside: seq<Event>)
    requires NoRepeat(rows) && forall e :: e in rows ==> e in inside
    ensures |rows| <= |inside|
  {
    if rows != [] {
      var last := rows[|rows| - 1];
      assert last in rows;
      var k :| 0 <= k < |inside| && inside[k] == last;
      var less := inside[..k] + inside[k + 1..];
      var rest := rows[..|rows| - 1];
      forall e | e in rest
        ensures e in less
      {
        assert e in rows && e != last;
        var j :| 0 <= j < |inside| && inside[j] == e;
        assert j != k && less[if j < k then j else j - 1] == e;
      }
      DistinctCount(rest, less);
    }
  }

  /**
   * The first `limit` rows of two merged heads, each at least that long where it was cut, are first rows of the
   * whole merged log.
   */
  lemma MergedHeads(
      collate: (string, string) -> bool, audit: set<Event>, anchor: set<Event>, since: nat, fetch: nat, limit: nat,
      a: seq<Event>, b: seq<Event>)
    requires Sorting.TotalPreorder(collate) && audit !! anchor && limit <= fetch
    requires IsFirst(audit, since, fetch, a) && IsFirst(anchor, since, fetch, b)
    ensures IsFirst(audit + anchor, since, limit, Take(SortEvents(collate, a + b), limit))
  {
    var sorted := SortEvents(collate, a + b);
    var batch := Take(sorted, limit);
    forall i, j | 0 <= i < j < |a + b|
      ensures (a + b)[i] != (a + b)[j]
    {
      if i < |a| <= j {
        assert (a + b)[i] in audit && (a + b)[j] in anchor;
      }
    }
    SortedRows(collate, a + b);
    forall e | e in batch
      ensures e in audit + anchor && e.createdAt >= since
    {
      assert e in sorted && e in a + b;
    }
    forall e | e in audit + anchor && e.createdAt >= since && e !in batch
      ensures |batch| == limit && forall r :: r in batch ==> r.createdAt <= e.createdAt
    {
      if e in sorted {
        LaterIsCut(sorted, limit, e);
      } else if e in audit {
        HeadFills(a, sorted, limit, e);
      } else {
        HeadFills(b, sorted, limit, e);
      }
    }
  }

  lemma LaterIsCut(sorted: seq<Event>, limit: nat, e: Event)
    requires InTimeOrder(sorted) && e in sorted && e !in Take(sorted, limit)
    ensures |Take(sorted, limit)| == limit && forall r :: r in Take(sorted, limit) ==> r.createdAt <= e.createdAt
  {
    var k :| 0 <= k < |sorted| && sorted[k] == e;
    assert forall j :: 0 <= j < |Take(sorted, limit)| ==>
      Take(sorted, limit)[j] == sorted[j] && sorted[j] in Take(sorted, limit);
    assert limit < |sorted| && k >= limit;
  }

  /** A full head of rows no later than e pushes everything later than e out of the batch. */
  lemma HeadFills(head: seq<Event>, sorted: seq<Event>, limit: nat, e: Event)
    requires InTimeOrder(sorted) && NoRepeat(head) && |head| >= limit
    requires forall r :: r in head ==> r in sorted && r.createdAt <= e.createdAt
    ensures |Take(sorted, limit)| == limit && forall r :: r in Take(sorted, limit) ==> r.createdAt <= e.createdAt
  {
    DistinctCount(head, sorted);
    forall k | 0 <= k < limit
      ensures sorted[k].createdAt <= e.createdAt
    {
      if sorted[k].createdAt > e.createdAt {
        forall r | r in head
          ensures r in sorted[..k]
        {
          var j :| 0 <= j < |sorted| && sorted[j] == r;
          assert j < k;
        }
        DistinctCount(head, sorted[..k]);
      }
    }
  }

  // ---------- paging by the time of the last row ----------

  /** Where the next query starts: at the time of the last row, which is asked for again. */
  function CursorAfter(cursor: nat, batch: seq<Event>): nat {
    if batch == [] then cursor else batch[|batch| - 1].createdAt
  }

  ghost function AtTime(log: set<Event>, t: nat): set<Event> {
    set e | e in log && e.createdAt == t
  }

  /** Everything the cursor moves past is in the batch. */
  lemma BatchCoversAdvance(log: set<Event>, since: nat, batchSize: nat, batch: seq<Event>, e: Event)
    requires IsFirst(log, since, batchSize, batch) && e in log && since <= e.createdAt < CursorAfter(since, batch)
    ensures e in batch
  {
    assert batch != [] ==> batch[|batch| - 1] in batch;
  }

  lemma {:induction false} SeqInSet(rows: seq<Event>, s: set<Event>)
    requires NoRepeat(rows) && forall e :: e in rows ==> e in s
    ensures |rows| <= |s|
  {
    if rows != [] {
      var last := rows[|rows| - 1];
      assert last in rows;
      SeqInSet(rows[..|rows| - 1], s - {last});
    }
  }

  lemma {:induction false} SetInSeq(s: set<Event>, rows: seq<Event>)
    requires forall e :: e in s ==> e in rows
    ensures |s| <= |rows|
  {
    if rows != [] {
      SetInSeq(s - {rows[0]}, rows[1..]);
      assert s <= (s - {rows[0]}) + {rows[0]};
      assert |s| <= |s - {rows[0]}| + 1;
    } else {
      assert s == {};
    }
  }

  /** The cursor moves if and only if fewer events than the batch size share its time and a later event exists. */
  lemma AdvanceIff(log: set<Event>, since: nat, batchSize: nat, batch: seq<Event>)
    requires IsFirst(log, since, batchSize, batch)
    ensures CursorAfter(since, batch) > since <==>
      |AtTime(log, since)| < batchSize && exists e :: e in log && e.createdAt > since
  {
    var now := AtTime(log, since);
    if CursorAfter(since, batch) > since {
      var last := batch[|batch| - 1];
      assert last in batch;
      forall e | e in now
        ensures e in batch[..|batch| - 1]
      {
        BatchCoversAdvance(log, since, batchSize, batch, e);
        var k :| 0 <= k < |batch| && batch[k] == e;
        assert k < |batch| - 1;
      }
      SetInSeq(now, batch[..|batch| - 1]);
    } else if later :| later in log && later.createdAt > since {
      forall r | r in batch
        ensures r in now
      {
        var k :| 0 <= k < |batch| && batch[k] == r;
        assert k < |batch| - 1 ==> r.createdAt <= batch[|batch| - 1].createdAt;
      }
      SeqInSet(batch, now);
      assert later !in now && later !in batch;
    }
  }

  /** A batch from e's own time that misses e proves more than a batch of events at that time. */
  lemma FullBatchAtTime(log: set<Event>, batchSize: nat, batch: seq<Event>, e: Event)
    requires IsFirst(log, e.createdAt, batchSize, batch) && e in log && e !in batch
    ensures |AtTime(log, e.createdAt)| > batchSize
  {
    var now := AtTime(log, e.createdAt);
    forall x | x in batch
      ensures x in now - {e}
    {
    }
    SeqInSet(batch, now - {e});
    assert e in now && |now - {e}| == |now| - 1;
  }

  lemma SubsetCount<T>(a: set<T>, b: set<T>)
    requires a <= b
    ensures |a| <= |b|
  {
    assert b == a + (b - a);
  }

  /** The distinct creation times after one instant and up to another. */
  ghost function Instants(log: set<Event>, after: nat, upTo: nat): set<nat> {
    set e | e in log && after < e.createdAt <= upTo :: e.createdAt
  }

  /** A cursor that moves passes at least one more instant. */
  lemma AdvancePassesInstant(log: set<Event>, start: nat, since: nat, batchSize: nat, batch: seq<Event>)
    requires IsFirst(log, since, batchSize, batch) && start <= since < CursorAfter(since, batch)
    ensures |Instants(log, start, since)| + 1 <= |Instants(log, start, CursorAfter(since, batch))|
  {
    var last := batch[|batch| - 1];
    assert last in batch;
    assert last.createdAt in Instants(log, start, last.createdAt);
    SubsetCount(Instants(log, start, since) + {last.createdAt}, Instants(log, start, last.createdAt));
  }

  lemma InstantsGrow(small: set<Event>, log: set<Event>, start: nat, from: nat, to: nat)
    requires small <= log && from <= to
    ensures |Instants(small, start, from)| <= |Instants(log, start, to)|
  {
    SubsetCount(Instants(small, start, from), Instants(log, start, to));
  }
}
