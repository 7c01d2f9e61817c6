/** The in-memory command event log: one append-only list of events per run and
    the live subscriber queues that every append is fanned out to. */
module EventStore {
  import opened Lists

  datatype Event = Event(
    eventId: string,
    runId: string,
    seqNo: nat,
    eventType: string,
    createdAt: string,
    payload: map<string, string>)

  /** Sequence numbers are positions: the i-th event of a log carries i + 1. */
  ghost predicate Numbered(log: seq<Event>) {
    forall i :: 0 <= i < |log| ==> log[i].seqNo == i + 1
  }

  function Min(a: int, b: int): int { if a <= b then a else b }

  /** The part of a log after position `after`, cut to `limit` events. */
  function Window(log: seq<Event>, after: nat, limit: nat): seq<Event> {
    var from := Min(after, |log|);
    log[from..Min(from + limit, |log|)]
  }

  /** `max(1, min(int(limit or 500), 5000))` */
  function SafeLimit(limit: int): nat {
    var asked := if limit == 0 then 500 else limit;
    if asked < 1 then 1 else if asked > 5000 then 5000 else asked
  }

  /** A window has the first events after the position, in order, as many as the limit; 0
      counts as 500, and limits are brought between 1 and 5000. */
  lemma WindowSpec(log: seq<Event>, afterSeq: int, limit: int)
    requires Numbered(log)
    ensures var rows := Window(log, if afterSeq < 0 then 0 else afterSeq, SafeLimit(limit));
            var most := if limit == 0 then 500 else if limit < 1 then 1 else if limit > 5000 then 5000 else limit;
            && |rows| <= most
            && (forall i, j :: 0 <= i < j < |rows| ==> rows[i].seqNo < rows[j].seqNo)
            && (forall e :: e in rows ==> e in log && e.seqNo > afterSeq)
            && forall e :: e in log && e.seqNo > afterSeq && e !in rows ==>
                 |rows| == most && forall r :: r in rows ==> r.seqNo < e.seqNo
  {
    var after := if afterSeq < 0 then 0 else afterSeq;
    var rows := Window(log, after, SafeLimit(limit));
    assert forall i :: 0 <= i < |rows| ==> rows[i] == log[after + i];
    forall e | e in log && e.seqNo > afterSeq && e !in rows
      ensures |rows| == SafeLimit(limit) && forall r :: r in rows ==> r.seqNo < e.seqNo
    {
      var k :| 0 <= k < |log| && log[k] == e;
      assert k - after < |rows| ==> rows[k - after] == e;
    }
  }

  lemma WindowCuts(log: seq<Event>, afterSeq: int, limit: int)
    ensures var after := if afterSeq < 0 then 0 else afterSeq;
            var newer := log[Min(after, |log|)..];
            Window(log, after, SafeLimit(limit)) ==
            if |newer| > SafeLimit(limit) then newer[..SafeLimit(limit)] else newer
  {
  }

  /** `asyncio.Queue` without a bound; `owner` is the run it was made for. */
  class EventQueue {
    ghost const owner: string
    var items: seq<Event>

    constructor (ghost owner: string)
      ensures items == [] && this.owner == owner
    {
      this.owner := owner;
      items := [];
    }

    method PutNowait(event: Event)
      modifies this
      ensures items == old(items) + [event]
    {
      items := items + [event];
    }

    method Get() returns (event: Event)
      requires items != []
      modifies this
      ensures event == old(items)[0] && items == old(items)[1..]
    {
      event := items[0];
      items := items[1..];
    }
  }

  ghost predicate Registered(runId: string, queues: seq<EventQueue>) {
    NoRepeats(queues) && forall q :: q in queues ==> q.owner == runId
  }

  class CommandEventStore {
    var events: map<string, seq<Event>>
    var subscribers: map<string, seq<EventQueue>>

    function Log(runId: string): seq<Event>
      reads this
    {
      if runId in events then events[runId] else []
    }

    function SubscribersOf(runId: string): seq<EventQueue>
      reads this
    {
      if runId in subscribers then subscribers[runId] else []
    }

    /** Events are numbered by position; a queue is registered once, for its run. */
    ghost predicate Valid()
      reads this
    {
      && (forall runId :: runId in events ==> Numbered(events[runId]))
      && (forall runId :: runId in subscribers ==>
            subscribers[runId] != [] && Registered(runId, subscribers[runId]))
    }

    constructor ()
      ensures Valid() && events == map[] && subscribers == map[]
    {
      events, subscribers := map[], map[];
    }

    method AppendEvent(runId: string, eventType: string, payload: map<string, string>,
                       eventId: string, createdAt: string)
      returns (event: Event)
      requires Valid()
      modifies `events, SubscribersOf(runId)
      ensures Valid()
      ensures event == Event(eventId, runId, |old(Log(runId))| + 1, eventType, createdAt, payload)
      ensures events == old(events)[runId := old(Log(runId)) + [event]]
      ensures forall q :: q in SubscribersOf(runId) ==> q.items == old(q.items) + [event]
    {
      var bucket := Log(runId);
      event := Event(eventId, runId, |bucket| + 1, eventType, createdAt, payload);
      events := events[runId := bucket + [event]];
      var queues := SubscribersOf(runId);
      var k := 0;
      while k < |queues|
        modifies queues
        invariant 0 <= k <= |queues|
        invariant forall i :: 0 <= i < k ==> queues[i].items == old(queues[i].items) + [event]
        invariant forall i :: k <= i < |queues| ==> queues[i].items == old(queues[i].items)
      {
        queues[k].PutNowait(event);
        k := k + 1;
      }
    }

    /** The filter `seq > after`, over a numbered list. */
    method Newer(bucket: seq<Event>, after: nat) returns (newer: seq<Event>)
      requires Numbered(bucket)
      ensures newer == bucket[Min(after, |bucket|)..]
    {
      newer := [];
      var from := Min(after, |bucket|);
      for i := 0 to |bucket|
        invariant newer == if i <= from then [] else bucket[from..i]
      {
        if bucket[i].seqNo > after {
          newer := newer + [bucket[i]];
        }
      }
      assert newer == bucket[from..];
    }

    /** The filter `seq > after` and the cut to the limit together take a window
        of the log, because sequence numbers are positions. */
    method ListEvents(runId: string, afterSeq: int, limit: int) returns (rows: seq<Event>)
      requires Valid()
      ensures rows == Window(Log(runId), if afterSeq < 0 then 0 else afterSeq, SafeLimit(limit))
      ensures var most := if limit == 0 then 500 else if limit < 1 then 1 else if limit > 5000 then 5000 else limit;
              && |rows| <= most
              && (forall i, j :: 0 <= i < j < |rows| ==> rows[i].seqNo < rows[j].seqNo)
              && (forall e :: e in rows ==> e in Log(runId) && e.seqNo > afterSeq)
              && forall e :: e in Log(runId) && e.seqNo > afterSeq && e !in rows ==>
                   |rows| == most && forall r :: r in rows ==> r.seqNo < e.seqNo
    {
      hide Window, SafeLimit;
      WindowSpec(Log(runId), afterSeq, limit);
      WindowCuts(Log(runId), afterSeq, limit);
      var safeAfter := if afterSeq < 0 then 0 else afterSeq;
      var safeLimit := SafeLimit(limit);
      var bucket := Log(runId);
      var newer := Newer(bucket, safeAfter);
      rows := if |newer| > safeLimit then newer[..safeLimit] else newer;
    }

    method Subscribe(runId: string) returns (queue: EventQueue)
      requires Valid()
      modifies `subscribers
      ensures Valid()
      ensures fresh(queue) && queue.items == [] && queue.owner == runId
      ensures subscribers == old(subscribers)[runId := old(SubscribersOf(runId)) + [queue]]
    {
      queue := new EventQueue(runId);
      subscribers := subscribers[runId := SubscribersOf(runId) + [queue]];
    }

    method Unsubscribe(runId: string, queue: EventQueue)
      requires Valid()
      modifies `subscribers
      ensures Valid()
      ensures SubscribersOf(runId) == Without(old(SubscribersOf(runId)), queue)
      ensures subscribers.Keys <= old(subscribers).Keys
      ensures forall r :: r in old(subscribers) && r != runId ==>
                r in subscribers && subscribers[r] == old(subscribers)[r]
    {
      var kept := Without(SubscribersOf(runId), queue);
      WithoutSpec(SubscribersOf(runId), queue);
      if kept == [] {
        subscribers := subscribers - {runId};
      } else {
        subscribers := subscribers[runId := kept];
      }
    }
  }
}
