/** The cursor-driven fan-out of the two event logs to webhook subscriptions. */
module WebhookFanOut {
  import opened Common
  import opened EventLog
  import Sorting

  datatype Subscription = Subscription(id: string, eventTypes: seq<string>)

  datatype Delivery = Delivery(subscriptionId: string, eventId: string, source: EventSource)

  predicate Matches(s: Subscription, e: Event) {
    "*" in s.eventTypes || e.eventType in s.eventTypes
  }

  // ---------- the tick ----------

  ghost function Keys(deliveries: seq<Delivery>): set<(string, string)> {
    set d | d in deliveries :: (d.subscriptionId, d.eventId)
  }

  /** The unique index on subscription and event. */
  ghost predicate UniqueKeys(deliveries: seq<Delivery>) {
    forall i, j :: 0 <= i < j < |deliveries| ==>
      (deliveries[i].subscriptionId, deliveries[i].eventId) != (deliveries[j].subscriptionId, deliveries[j].eventId)
  }

  ghost function Pairs(batch: seq<Event>, subs: seq<Subscription>): set<(string, string)> {
    set e, s | e in batch && s in subs && Matches(s, e) :: (s.id, e.id)
  }

  lemma PairsNone(subs: seq<Subscription>)
    ensures Pairs([], subs) == {}
  {
  }

  lemma PairsSnoc(batch: seq<Event>, e: Event, subs: seq<Subscription>)
    ensures Pairs(batch + [e], subs) == Pairs(batch, subs) + Pairs([e], subs)
  {
  }

  /** The row names the event and the log the event is in. */
  ghost predicate Names(d: Delivery, e: Event) {
    d.eventId == e.id && d.source == e.source
  }

  ghost predicate NamesOneOf(d: Delivery, batch: seq<Event>) {
    exists e :: e in batch && Names(d, e)
  }

  /** No row was changed or removed, and each new one names an event of the batch. */
  ghost predicate AddedFor(before: seq<Delivery>, after: seq<Delivery>, batch: seq<Event>) {
    before <= after && forall k :: |before| <= k < |after| ==> NamesOneOf(after[k], batch)
  }

  lemma AddedMore(
      before: seq<Delivery>, mid: seq<Delivery>, after: seq<Delivery>, batch: seq<Event>, e: Event)
    requires AddedFor(before, mid, batch) && AddedFor(mid, after, [e])
    ensures AddedFor(before, after, batch + [e])
  {
    forall k | |before| <= k < |after|
      ensures NamesOneOf(after[k], batch + [e])
    {
      if k < |mid| {
        assert NamesOneOf(mid[k], batch);
      } else {
        assert NamesOneOf(after[k], [e]);
      }
    }
  }

  /** The log a delivery says its event is in does hold an event of that id, so the delivery can be sent. */
  lemma EventIsFound(
      audit: set<Event>, anchor: set<Event>, since: nat, limit: nat, batch: seq<Event>,
      before: seq<Delivery>, after: seq<Delivery>, k: nat)
    requires (forall e :: e in audit ==> e.source == Audit) && forall e :: e in anchor ==> e.source == Anchor
    requires IsFirst(audit + anchor, since, limit, batch)
    requires AddedFor(before, after, batch) && |before| <= k < |after|
    ensures exists e :: e in (if after[k].source == Anchor then anchor else audit) && e.id == after[k].eventId
  {
    assert NamesOneOf(after[k], batch);
    var e :| e in batch && Names(after[k], e);
    assert e in audit + anchor;
  }

  /** A subscription to everything gets any event; one to some types gets exactly the events of those types. */
  lemma WhoWantsWhat(batch: seq<Event>, subs: seq<Subscription>, s: Subscription, e: Event)
    requires e in batch && s in subs
    requires forall t :: t in subs && t.id == s.id ==> t == s
    requires forall x :: x in batch && x.id == e.id ==> x == e
    ensures "*" in s.eventTypes ==> (s.id, e.id) in Pairs(batch, subs)
    ensures "*" !in s.eventTypes ==> ((s.id, e.id) in Pairs(batch, subs) <==> e.eventType in s.eventTypes)
  {
  }

  class DeliveryWorker {
    var cursor: nat
    var deliveries: seq<Delivery>

    constructor ()
      ensures cursor == 0 && deliveries == []
    {
      cursor, deliveries := 0, [];
    }

    /** Insert that does nothing on a conflict with the unique index. */
    method InsertDelivery(d: Delivery)
      requires UniqueKeys(deliveries)
      modifies this`deliveries
      ensures UniqueKeys(deliveries)
      ensures Keys(deliveries) == Keys(old(deliveries)) + {(d.subscriptionId, d.eventId)}
      ensures deliveries == old(deliveries) +
        if (d.subscriptionId, d.eventId) in Keys(old(deliveries)) then [] else [d]
    {
      if exists x :: x in deliveries && x.subscriptionId == d.subscriptionId && x.eventId == d.eventId {
        assert (d.subscriptionId, d.eventId) in Keys(deliveries);
      } else {
        deliveries := deliveries + [d];
      }
    }

    /** One delivery for every subscription that wants the event. */
    method FanOutEvent(e: Event, subs: seq<Subscription>)
      requires UniqueKeys(deliveries)
      modifies this`deliveries
      ensures UniqueKeys(deliveries) && AddedFor(old(deliveries), deliveries, [e])
      ensures Keys(deliveries) == Keys(old(deliveries)) + Pairs([e], subs)
    {
      for j := 0 to |subs|
        invariant UniqueKeys(deliveries) && AddedFor(old(deliveries), deliveries, [e])
        invariant Keys(deliveries) == Keys(old(deliveries)) + Pairs([e], subs[..j])
      {
        assert subs[..j + 1] == subs[..j] + [subs[j]];
        assert Pairs([e], subs[..j + 1]) ==
          Pairs([e], subs[..j]) + if Matches(subs[j], e) then {(subs[j].id, e.id)} else {};
        if Matches(subs[j], e) {
          ghost var before := deliveries;
          InsertDelivery(Delivery(subs[j].id, e.id, e.source));
          assert |deliveries| > |before| ==> e in [e] && Names(deliveries[|before|], e);
        }
      }
      assert subs[..|subs|] == subs;
    }

    /** One tick over the rows the two queries returned. */
    method Tick(
        auditRows: seq<Event>, anchorRows: seq<Event>, subs: seq<Subscription>, batchSize: nat,
        collate: (string, string) -> bool, ghost audit: set<Event>, ghost anchor: set<Event>)
      returns (ghost batch: seq<Event>)
      requires UniqueKeys(deliveries) && Sorting.TotalPreorder(collate) && audit !! anchor
      requires IsFirst(audit, cursor, batchSize, auditRows) && IsFirst(anchor, cursor, batchSize, anchorRows)
      modifies this
      ensures IsFirst(audit + anchor, old(cursor), batchSize, batch)
      ensures UniqueKeys(deliveries) && AddedFor(old(deliveries), deliveries, batch)
      ensures Keys(deliveries) == Keys(old(deliveries)) + Pairs(batch, subs)
      ensures cursor == if batch == [] then old(cursor) else batch[|batch| - 1].createdAt
    {
      hide IsFirst, Keys, Pairs, UniqueKeys, Names, Sorting.TotalPreorder, SortEvents;
      MergedHeads(collate, audit, anchor, cursor, batchSize, batchSize, auditRows, anchorRows);
      var head := Take(SortEvents(collate, auditRows + anchorRows), batchSize);
      var newest: Option<nat> := None;
      assert head[..0] == [];
      PairsNone(subs);
      for i := 0 to |head|
        invariant UniqueKeys(deliveries) && AddedFor(old(deliveries), deliveries, head[..i]) && cursor == old(cursor)
        invariant Keys(deliveries) == Keys(old(deliveries)) + Pairs(head[..i], subs)
        invariant newest == if i == 0 then None else Some(head[i - 1].createdAt)
      {
        newest := Some(head[i].createdAt);
        ghost var before := deliveries;
        FanOutEvent(head[i], subs);
        AddedMore(old(deliveries), before, deliveries, head[..i], head[i]);
        assert head[..i + 1] == head[..i] + [head[i]];
        PairsSnoc(head[..i], head[i], subs);
      }
      assert head[..|head|] == head;
      if newest.Some? {
        cursor := newest.value;
      }
      batch := head;
    }
  }
}
