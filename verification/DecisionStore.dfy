/** The bounded record of policy decisions, told from the writes it has seen. */
module DecisionRecency {
  import opened Lists
  import opened Text

  datatype Decision = Decision(
    decisionId: string, runId: string, commandRunId: string, actionId: string, result: string,
    createdAt: int, updatedAt: int)

  const MAX_DECISIONS := 5000

  // ----- Ids by last write -----

  /** Every id written, the latest written last. */
  function Recency(writes: seq<Decision>): seq<string> {
    if writes == [] then []
    else
      var id := writes[|writes| - 1].decisionId;
      Without(Recency(writes[..|writes| - 1]), id) + [id]
  }

  function Newest(ids: seq<string>): seq<string> {
    if |ids| <= MAX_DECISIONS then ids else ids[|ids| - MAX_DECISIONS..]
  }

  /** The number of writes up to and with the last one to this id; 0 if there is none. */
  function LastAt(writes: seq<Decision>, id: string): nat {
    if writes == [] then 0
    else if writes[|writes| - 1].decisionId == id then |writes|
    else LastAt(writes[..|writes| - 1], id)
  }

  lemma {:induction false} LastAtBound(writes: seq<Decision>, id: string)
    ensures LastAt(writes, id) <= |writes|
    ensures LastAt(writes, id) > 0 ==> writes[LastAt(writes, id) - 1].decisionId == id
    ensures forall k :: LastAt(writes, id) <= k < |writes| ==> writes[k].decisionId != id
    decreases |writes|
  {
    if writes != [] && writes[|writes| - 1].decisionId != id {
      LastAtBound(writes[..|writes| - 1], id);
    }
  }

  ghost predicate ByLastWrite(writes: seq<Decision>, ids: seq<string>) {
    forall a, b :: 0 <= a < b < |ids| ==> LastAt(writes, ids[a]) < LastAt(writes, ids[b])
  }

  lemma {:induction false} WithoutKeepsOrder(writes: seq<Decision>, ids: seq<string>, id: string)
    requires ByLastWrite(writes, ids)
    ensures ByLastWrite(writes, Without(ids, id))
    decreases |ids|
  {
    hide LastAt;
    if ids != [] {
      var rest := ids[1..];
      assert forall k :: 0 <= k < |rest| ==> rest[k] == ids[k + 1];
      WithoutKeepsOrder(writes, rest, id);
      WithoutSpec(rest, id);
      var r := Without(rest, id);
      forall a | 0 <= a < |r|
        ensures LastAt(writes, ids[0]) < LastAt(writes, r[a])
      {
        assert r[a] in rest;
      }
    }
  }

  lemma LastWriteIsLast(writes: seq<Decision>, ids: seq<string>)
    requires writes != [] && ByLastWrite(writes[..|writes| - 1], ids) && writes[|writes| - 1].decisionId !in ids
    ensures ByLastWrite(writes, ids + [writes[|writes| - 1].decisionId])
  {
    var init, last := writes[..|writes| - 1], writes[|writes| - 1].decisionId;
    forall a | 0 <= a < |ids|
      ensures LastAt(writes, ids[a]) == LastAt(init, ids[a]) < LastAt(writes, last)
    {
      LastAtBound(init, ids[a]);
      assert ids[a] in ids;
    }
  }

  /** The ids written, each once, by their last write. */
  lemma {:induction false} RecencySpec(writes: seq<Decision>)
    ensures forall id :: id in Recency(writes) <==> LastAt(writes, id) > 0
    ensures ByLastWrite(writes, Recency(writes))
    decreases |writes|
  {
    if writes != [] {
      var n := |writes| - 1;
      var init, id := writes[..n], writes[n].decisionId;
      RecencySpec(init);
      WithoutSpec(Recency(init), id);
      WithoutKeepsOrder(init, Recency(init), id);
      hide Without;
      LastWriteIsLast(writes, Without(Recency(init), id));
    }
  }

  lemma RecencyDistinct(writes: seq<Decision>)
    ensures NoRepeats(Recency(writes))
  {
    RecencySpec(writes);
    var ids := Recency(writes);
    forall a, b | 0 <= a < b < |ids|
      ensures ids[a] != ids[b]
    {
      assert LastAt(writes, ids[a]) < LastAt(writes, ids[b]);
    }
  }

  // ----- Forgetting the oldest at once is forgetting them at the end -----

  /** One write to the cut list gives the cut of one write to the whole list. */
  lemma CutCommutes(ids: seq<string>, id: string)
    requires NoRepeats(ids)
    ensures Newest(Without(Newest(ids), id) + [id]) == Newest(Without(ids, id) + [id])
  {
    if |ids| > MAX_DECISIONS {
      var k := |ids| - MAX_DECISIONS;
      var early, recent := ids[..k], ids[k..];
      assert ids == early + recent;
      WithoutSplits(early, recent, id);
      if id in recent {
        WithoutOnce(recent, id);
        assert id !in early;
        WithoutSpec(early, id);
        var kept := Without(recent, id) + [id];
        assert |kept| == MAX_DECISIONS;
        assert Without(ids, id) + [id] == early + kept;
      } else {
        WithoutSpec(recent, id);
        var all, r := Without(early, id) + recent + [id], recent + [id];
        assert Newest(r) == r[1..];
        assert Newest(all) == all[|all| - MAX_DECISIONS..] == r[1..];
      }
    }
  }

  /** The record of the last write to an id. */
  function LastRecord(writes: seq<Decision>, id: string): Decision
    requires LastAt(writes, id) > 0
  {
    LastAtBound(writes, id);
    writes[LastAt(writes, id) - 1]
  }

  /** What the store holds after these writes. */
  ghost predicate Holds(writes: seq<Decision>, order: seq<string>, store: map<string, Decision>) {
    && order == Newest(Recency(writes))
    && (forall id :: id in store <==> id in order)
    && (forall id :: id in store ==> LastAt(writes, id) > 0 && store[id] == LastRecord(writes, id))
  }

  lemma InNewest(ids: seq<string>, k: nat)
    requires NoRepeats(ids) && k < |ids|
    ensures ids[k] in Newest(ids) <==> |ids| - k - 1 < MAX_DECISIONS
  {
    var r := Newest(ids);
    if |ids| - k - 1 < MAX_DECISIONS {
      assert r[k - (|ids| - |r|)] == ids[k];
    } else {
      assert forall j :: 0 <= j < |r| ==> r[j] == ids[j + (|ids| - |r|)];
    }
  }

  /** The ids held: at most 5000, each once, by their last write. */
  lemma OrderShape(writes: seq<Decision>)
    ensures var order := Newest(Recency(writes));
            NoRepeats(order) && |order| <= 5000 && ByLastWrite(writes, order)
  {
    hide LastAt, Recency;
    RecencySpec(writes);
    RecencyDistinct(writes);
    var ids, r := Recency(writes), Newest(Recency(writes));
    assert forall j :: 0 <= j < |r| ==> r[j] == ids[j + (|ids| - |r|)];
  }

  /** The other ids written after the last write to this one. */
  ghost function Newer(writes: seq<Decision>, id: string): set<string> {
    set x | x in Recency(writes) && LastAt(writes, x) > LastAt(writes, id)
  }

  lemma EarlierIsOlder(writes: seq<Decision>, ids: seq<string>, j: nat, k: nat)
    requires j < |ids| && k < |ids| && ByLastWrite(writes, ids)
    ensures j < k ==> LastAt(writes, ids[j]) < LastAt(writes, ids[k])
  {
  }

  lemma LaterAreNewer(writes: seq<Decision>, ids: seq<string>, k: nat)
    requires k < |ids| && ByLastWrite(writes, ids)
    ensures forall x :: x in ids[k + 1..] <==> x in ids && LastAt(writes, x) > LastAt(writes, ids[k])
  {
    hide LastAt;
    forall x | x in ids && LastAt(writes, x) > LastAt(writes, ids[k])
      ensures x in ids[k + 1..]
    {
      var j :| 0 <= j < |ids| && ids[j] == x;
      assert j >= k by {
        EarlierIsOlder(writes, ids, j, k);
      }
      assert ids[k + 1..][j - k - 1] == x;
    }
    forall x | x in ids[k + 1..]
      ensures x in ids && LastAt(writes, x) > LastAt(writes, ids[k])
    {
      var j :| 0 <= j < |ids[k + 1..]| && ids[k + 1..][j] == x;
      assert ids[k + 1 + j] == x;
    }
  }

  lemma NewerCount(writes: seq<Decision>, k: nat)
    requires k < |Recency(writes)|
    ensures |Newer(writes, Recency(writes)[k])| == |Recency(writes)| - k - 1
  {
    hide LastAt, Recency, ByLastWrite;
    var ids := Recency(writes);
    RecencySpec(writes);
    RecencyDistinct(writes);
    var later := ids[k + 1..];
    LaterAreNewer(writes, ids, k);
    var newer := Newer(writes, ids[k]);
    assert forall x :: x in newer <==> x in later;
    assert newer == Members(later);
    MembersSize(later);
  }

  lemma NewestKeeps(ids: seq<string>)
    ensures ids != [] ==> ids[|ids| - 1] in Newest(ids)
    ensures forall x :: x in Newest(ids) ==> x in ids
  {
    var r := Newest(ids);
    if ids != [] {
      assert r[|r| - 1] == ids[|ids| - 1];
    }
  }

  /** A decision is still held exactly if it was written and fewer than 5000 others were
      written after its last write. */
  lemma HeldExactly(writes: seq<Decision>, order: seq<string>, store: map<string, Decision>, id: string)
    requires Holds(writes, order, store)
    ensures id in store <==> LastAt(writes, id) > 0 && |Newer(writes, id)| < 5000
  {
    hide LastAt, Recency, ByLastWrite, Newer, Newest, NoRepeats;
    var ids := Recency(writes);
    RecencySpec(writes);
    RecencyDistinct(writes);
    NewestKeeps(ids);
    if id in ids {
      var k :| 0 <= k < |ids| && ids[k] == id;
      NewerCount(writes, k);
      InNewest(ids, k);
    }
  }

  /** What one write makes of order and store. */
  function Moved(order: seq<string>, id: string): seq<string> {
    Newest(Without(order, id) + [id])
  }

  function Stored(order: seq<string>, store: map<string, Decision>, d: Decision): map<string, Decision> {
    var moved := Moved(order, d.decisionId);
    map id | id in store.Keys + {d.decisionId} && id in moved :: if id == d.decisionId then d else store[id]
  }

  lemma RecencyNext(writes: seq<Decision>, d: Decision)
    ensures Moved(Newest(Recency(writes)), d.decisionId) == Newest(Recency(writes + [d]))
  {
    assert (writes + [d])[..|writes|] == writes;
    RecencyDistinct(writes);
    CutCommutes(Recency(writes), d.decisionId);
  }

  lemma LastRecordNext(writes: seq<Decision>, d: Decision, id: string)
    ensures LastAt(writes + [d], id) == if id == d.decisionId then |writes| + 1 else LastAt(writes, id)
    ensures LastAt(writes + [d], id) > 0 ==>
              LastRecord(writes + [d], id) == if id == d.decisionId then d else LastRecord(writes, id)
  {
    assert (writes + [d])[..|writes|] == writes;
    LastAtBound(writes, id);
  }

  /** One more write keeps the store what it should be. */
  lemma WriteKeepsHolds(writes: seq<Decision>, order: seq<string>, store: map<string, Decision>, d: Decision)
    requires Holds(writes, order, store)
    ensures Holds(writes + [d], Moved(order, d.decisionId), Stored(order, store, d))
  {
    hide LastAt, LastRecord, Recency;
    var id := d.decisionId;
    RecencyNext(writes, d);
    WithoutSpec(order, id);
    NewestKeeps(Without(order, id) + [id]);
    hide Newest, Without;
    forall x | x in Stored(order, store, d)
      ensures LastAt(writes + [d], x) > 0 && LastRecord(writes + [d], x) == Stored(order, store, d)[x]
    {
      LastRecordNext(writes, d, x);
    }
  }

  // ----- Runs -----

  datatype Op =
    | Record(decision: Decision)
    | Bind(id: string, runId: string, commandRunId: string, now: int)

  function Bound(d: Decision, runId: string, commandRunId: string, now: int): Decision {
    d.(runId := runId, commandRunId := if commandRunId != "" then commandRunId else d.commandRunId, updatedAt := now)
  }

  /** The write an operation makes after these writes, if any: binding writes only a
      decision that is still held. */
  ghost function WritesOf(writes: seq<Decision>, op: Op): seq<Decision> {
    match op
    case Record(d) => if d.decisionId == "" then [] else [d]
    case Bind(id, runId, commandRunId, now) =>
      if id != "" && id in Newest(Recency(writes)) && LastAt(writes, id) > 0
      then [Bound(LastRecord(writes, id), runId, commandRunId, now)] else []
  }

  ghost function Writes(ops: seq<Op>): seq<Decision> {
    if ops == [] then []
    else
      var before := Writes(ops[..|ops| - 1]);
      before + WritesOf(before, ops[|ops| - 1])
  }

  predicate SameDecision(a: Decision, b: Decision) {
    a.decisionId == b.decisionId && a.actionId == b.actionId && a.result == b.result && a.createdAt == b.createdAt
  }

  /** Binding never changes what was decided: under each id there is one recorded
      decision, later writes only bind it to runs. */
  lemma {:induction false} BindingKeepsDecisions(ops: seq<Op>, k: nat)
    requires k < |Writes(ops)|
    ensures exists j :: 0 <= j < |ops| && ops[j].Record? && SameDecision(ops[j].decision, Writes(ops)[k])
    decreases |ops|
  {
    var n := |ops| - 1;
    var init := ops[..n];
    var before := Writes(init);
    if k < |before| {
      BindingKeepsDecisions(init, k);
      var j :| 0 <= j < |init| && init[j].Record? && SameDecision(init[j].decision, before[k]);
      assert ops[j] == init[j];
    } else if ops[n].Record? {
      assert SameDecision(ops[n].decision, Writes(ops)[k]);
    } else {
      LastAtBound(before, ops[n].id);
      var m := LastAt(before, ops[n].id) - 1;
      BindingKeepsDecisions(init, m);
      var j :| 0 <= j < |init| && init[j].Record? && SameDecision(init[j].decision, before[m]);
      assert ops[j] == init[j];
      assert SameDecision(ops[j].decision, Writes(ops)[k]);
    }
  }

  /** Binding a decision that is held is its last write, and says the run asked for, the
      command run unless that is blank, and when; a decision that is not held stays unwritten. */
  lemma BindingIsTheLastWrite(ops: seq<Op>, id: string, runId: string, commandRunId: string, now: int,
      order: seq<string>, store: map<string, Decision>)
    requires Holds(Writes(ops), order, store)
    ensures var before, after := Writes(ops), Writes(ops + [Bind(id, runId, commandRunId, now)]);
            if id != "" && id in store then
              && |after| == |before| + 1 && before <= after
              && var d := after[|before|];
                 && d.decisionId == id && d.runId == runId && d.updatedAt == now
                 && d.commandRunId == (if commandRunId != "" then commandRunId else store[id].commandRunId)
                 && d.actionId == store[id].actionId && d.result == store[id].result
                 && d.createdAt == store[id].createdAt
            else after == before
  {
    hide LastAt, Newest, Recency;
    var bound := ops + [Bind(id, runId, commandRunId, now)];
    assert bound[..|ops|] == ops;
    LastAtBound(Writes(ops), id);
  }

  // ----- Listing -----

  datatype Query = Query(runId: string, actionId: string, result: string)

  /** Blank parts of a query match anything. */
  predicate Matches(d: Decision, q: Query) {
    && (Strip(q.runId) != "" ==> d.runId == Strip(q.runId))
    && (Strip(q.actionId) != "" ==> d.actionId == Strip(q.actionId))
    && (Lower(Strip(q.result)) != "" ==> Lower(Strip(d.result)) == Lower(Strip(q.result)))
  }

  function SafeLimit(limit: int): nat {
    var n := if limit == 0 then 100 else limit;
    if n < 1 then 1 else if n > 1000 then 1000 else n
  }

  /** The matching decisions among these ids, from the last id to the first. */
  function MatchesBackwards(ids: seq<string>, store: map<string, Decision>, q: Query): seq<Decision>
    requires forall id :: id in ids ==> id in store
  {
    if ids == [] then []
    else
      var d := store[ids[|ids| - 1]];
      (if Matches(d, q) then [d] else []) + MatchesBackwards(ids[..|ids| - 1], store, q)
  }

  function FirstOf(rows: seq<Decision>, limit: int): seq<Decision> {
    if |rows| <= SafeLimit(limit) then rows else rows[..SafeLimit(limit)]
  }

  predicate IsRow(ids: seq<string>, store: map<string, Decision>, q: Query, d: Decision) {
    d.decisionId in ids && d.decisionId in store && d == store[d.decisionId] && Matches(d, q)
  }

  ghost predicate Falling(writes: seq<Decision>, rows: seq<Decision>) {
    forall a, b :: 0 <= a < b < |rows| ==> LastAt(writes, rows[a].decisionId) > LastAt(writes, rows[b].decisionId)
  }

  /** The rows are as many as may be, and all of them newer. */
  ghost predicate CutOff(writes: seq<Decision>, rows: seq<Decision>, limit: int, id: string) {
    && |rows| == SafeLimit(limit)
    && forall k :: 0 <= k < |rows| ==> LastAt(writes, rows[k].decisionId) > LastAt(writes, id)
  }

  /** A listing has matching decisions only, newest write first; one that matches and is
      held is missing only where the limit's number of newer ones is listed. */
  ghost predicate IsListing(
    writes: seq<Decision>, order: seq<string>, store: map<string, Decision>, q: Query, limit: int, rows: seq<Decision>)
  {
    && |rows| <= SafeLimit(limit)
    && (forall d :: d in rows ==> IsRow(order, store, q, d))
    && Falling(writes, rows)
    && (forall id :: id in store && Matches(store[id], q) && store[id] !in rows ==> CutOff(writes, rows, limit, id))
  }

  ghost predicate Named(ids: seq<string>, store: map<string, Decision>) {
    forall id :: id in ids ==> id in store && store[id].decisionId == id
  }

  lemma {:induction false} RowsAreRight(ids: seq<string>, store: map<string, Decision>, q: Query)
    requires Named(ids, store)
    ensures forall d :: d in MatchesBackwards(ids, store, q) ==> IsRow(ids, store, q, d)
    decreases |ids|
  {
    hide Matches;
    if ids != [] {
      RowsAreRight(ids[..|ids| - 1], store, q);
    }
  }

  lemma OlderThanLast(writes: seq<Decision>, ids: seq<string>, id: string)
    requires ids != [] && ByLastWrite(writes, ids) && id in ids[..|ids| - 1]
    ensures LastAt(writes, ids[|ids| - 1]) > LastAt(writes, id)
  {
    hide LastAt;
    var j :| 0 <= j < |ids| - 1 && ids[j] == id;
  }

  lemma FallingGrows(writes: seq<Decision>, d: Decision, rest: seq<Decision>)
    requires Falling(writes, rest)
    requires forall k :: 0 <= k < |rest| ==> LastAt(writes, d.decisionId) > LastAt(writes, rest[k].decisionId)
    ensures Falling(writes, [d] + rest)
    ensures [] + rest == rest
  {
    hide LastAt;
  }

  lemma {:induction false} RowsFall(writes: seq<Decision>, ids: seq<string>, store: map<string, Decision>, q: Query)
    requires Named(ids, store) && ByLastWrite(writes, ids)
    ensures Falling(writes, MatchesBackwards(ids, store, q))
    decreases |ids|
  {
    hide LastAt, Matches;
    if ids != [] {
      var n := |ids| - 1;
      var init, last := ids[..n], ids[n];
      var rest := MatchesBackwards(init, store, q);
      RowsFall(writes, init, store, q);
      RowsAreRight(init, store, q);
      forall k | 0 <= k < |rest|
        ensures LastAt(writes, last) > LastAt(writes, rest[k].decisionId)
      {
        assert IsRow(init, store, q, rest[k]);
        OlderThanLast(writes, ids, rest[k].decisionId);
      }
      assert store[last].decisionId == last;
      FallingGrows(writes, store[last], rest);
    }
  }

  lemma {:induction false} RowsAreAll(ids: seq<string>, store: map<string, Decision>, q: Query, id: string)
    requires Named(ids, store) && id in ids && Matches(store[id], q)
    ensures store[id] in MatchesBackwards(ids, store, q)
    decreases |ids|
  {
    hide Matches;
    var n := |ids| - 1;
    assert ids == ids[..n] + [ids[n]];
    if id != ids[n] {
      RowsAreAll(ids[..n], store, q, id);
    }
  }

  lemma FirstOfIsPrefix(writes: seq<Decision>, all: seq<Decision>, limit: int)
    ensures forall d :: d in FirstOf(all, limit) ==> d in all
    ensures Falling(writes, all) ==> Falling(writes, FirstOf(all, limit))
  {
    hide LastAt;
  }

  lemma FirstOfHas(all: seq<Decision>, limit: int, j: nat)
    requires j < |all|
    ensures j < SafeLimit(limit) ==> all[j] in FirstOf(all, limit)
  {
    if j < SafeLimit(limit) < |all| {
      assert all[..SafeLimit(limit)][j] == all[j];
    }
  }

  lemma CutRowIsOlder(writes: seq<Decision>, all: seq<Decision>, limit: int, d: Decision)
    requires Falling(writes, all) && d in all && d !in FirstOf(all, limit)
    ensures CutOff(writes, FirstOf(all, limit), limit, d.decisionId)
  {
    hide LastAt;
    var j :| 0 <= j < |all| && all[j] == d;
    FirstOfHas(all, limit, j);
  }

  lemma HeldAreNamed(writes: seq<Decision>, order: seq<string>, store: map<string, Decision>)
    requires Holds(writes, order, store)
    ensures Named(order, store) && forall id :: id in store ==> id in order && store[id].decisionId == id
  {
    hide Recency, Newest;
    forall id | id in store
      ensures store[id].decisionId == id
    {
      LastAtBound(writes, id);
    }
  }

  lemma ListingSpec(writes: seq<Decision>, order: seq<string>, store: map<string, Decision>, q: Query, limit: int)
    requires Holds(writes, order, store)
    ensures forall id :: id in order ==> id in store
    ensures IsListing(writes, order, store, q, limit, FirstOf(MatchesBackwards(order, store, q), limit))
  {
    hide LastAt, Recency, Newest, Matches, ByLastWrite, MatchesBackwards, IsRow, CutOff, Falling;
    HeldAreNamed(writes, order, store);
    OrderShape(writes);
    RowsAreRight(order, store, q);
    RowsFall(writes, order, store, q);
    hide Holds;
    var all := MatchesBackwards(order, store, q);
    var rows := FirstOf(all, limit);
    FirstOfIsPrefix(writes, all, limit);
    forall id | id in store && Matches(store[id], q) && store[id] !in rows
      ensures CutOff(writes, rows, limit, id)
    {
      RowsAreAll(order, store, q, id);
      CutRowIsOlder(writes, all, limit, store[id]);
    }
  }

  lemma LowerIsEmpty(s: string)
    ensures Lower(s) == "" <==> s == ""
  {
    assert |Lower(s)| == |s|;
  }

  /** A listing, told from the fields: all listed are held and match what the query is not
      blank in, there are no more than the limit, 0 counting as 100, and between 1 and 1000;
      and a held decision that matches is missing only from a full listing. */
  lemma ListedByFields(
    writes: seq<Decision>, order: seq<string>, store: map<string, Decision>, q: Query, limit: int, rows: seq<Decision>)
    requires IsListing(writes, order, store, q, limit, rows)
    ensures var most := if limit == 0 then 100 else if limit < 1 then 1 else if limit > 1000 then 1000 else limit;
            var matches := (d: Decision) =>
              && (Strip(q.runId) != "" ==> d.runId == Strip(q.runId))
              && (Strip(q.actionId) != "" ==> d.actionId == Strip(q.actionId))
              && (Strip(q.result) != "" ==> Lower(Strip(d.result)) == Lower(Strip(q.result)));
            && |rows| <= most
            && (forall d :: d in rows ==> d.decisionId in store && d == store[d.decisionId] && matches(d))
            && (forall id :: id in store && matches(store[id]) && store[id] !in rows ==> |rows| == most)
            && (forall a, b :: 0 <= a < b < |rows| ==>
                  LastAt(writes, rows[a].decisionId) > LastAt(writes, rows[b].decisionId))
  {
    hide LastAt, Strip, Lower;
    LowerIsEmpty(Strip(q.result));
    forall id | id in store && Matches(store[id], q) && store[id] !in rows
      ensures |rows| == SafeLimit(limit)
    {
      assert CutOff(writes, rows, limit, id);
    }
  }
}

/** The in-memory store: an order of ids and the records by id, edited in place. */
module DecisionStore {
  import opened Options
  import opened Lists
  import opened Text
  import opened DecisionRecency

  lemma BackNext(order: seq<string>, store: map<string, Decision>, q: Query, n: nat)
    requires n < |order| && forall id :: id in order ==> id in store
    ensures MatchesBackwards(order[..n + 1], store, q)
         == (if Matches(store[order[n]], q) then [store[order[n]]] else []) + MatchesBackwards(order[..n], store, q)
  {
    hide Matches;
    assert order[..n + 1][..n] == order[..n];
  }

  lemma BackNothing(store: map<string, Decision>, q: Query)
    ensures MatchesBackwards([], store, q) == []
  {
  }

  lemma LimitIsPositive(limit: int)
    ensures SafeLimit(limit) > 0
  {
  }

  lemma FirstOfSplits(rows: seq<Decision>, more: seq<Decision>, limit: int)
    requires |rows| == SafeLimit(limit) || (|rows| < SafeLimit(limit) && more == [])
    ensures FirstOf(rows + more, limit) == rows
  {
  }

  /** `list.remove` */
  function RemoveFirst(ids: seq<string>, id: string): seq<string> {
    if ids == [] then []
    else if ids[0] == id then ids[1..]
    else [ids[0]] + RemoveFirst(ids[1..], id)
  }

  lemma {:induction false} RemoveFirstIsWithout(ids: seq<string>, id: string)
    requires NoRepeats(ids)
    ensures (if id in ids then RemoveFirst(ids, id) else ids) == Without(ids, id)
    ensures RemoveFirst(ids, id) == Without(ids, id)
    decreases |ids|
  {
    if ids != [] {
      var rest := ids[1..];
      assert ids == [ids[0]] + rest;
      WithoutSplits([ids[0]], rest, id);
      WithoutSpec(ids, id);
      if ids[0] == id {
        WithoutSpec(rest, id);
      } else {
        RemoveFirstIsWithout(rest, id);
      }
    }
  }

  lemma HeldIds(writes: seq<Decision>, order: seq<string>, store: map<string, Decision>)
    requires Holds(writes, order, store)
    ensures NoRepeats(order) && forall id :: id in store <==> id in order
  {
    OrderShape(writes);
  }

  /** `pop` for each of these ids. */
  function DropAll(store: map<string, Decision>, ids: seq<string>): map<string, Decision> {
    if ids == [] then store else DropAll(store, ids[..|ids| - 1]) - {ids[|ids| - 1]}
  }

  lemma {:induction false} DropAllSpec(store: map<string, Decision>, ids: seq<string>)
    ensures forall x :: x in DropAll(store, ids) <==> x in store && x !in ids
    ensures forall x :: x in DropAll(store, ids) ==> DropAll(store, ids)[x] == store[x]
    decreases |ids|
  {
    if ids != [] {
      DropAllSpec(store, ids[..|ids| - 1]);
      assert ids == ids[..|ids| - 1] + [ids[|ids| - 1]];
    }
  }

  lemma StoredSpec(order: seq<string>, store: map<string, Decision>, d: Decision)
    ensures forall x :: x in Stored(order, store, d) <==>
              (x in store || x == d.decisionId) && x in Moved(order, d.decisionId)
    ensures forall x :: x in Stored(order, store, d) ==> Stored(order, store, d)[x] == store[d.decisionId := d][x]
  {
    hide Moved;
  }

  lemma SameMap(a: map<string, Decision>, b: map<string, Decision>)
    requires forall x :: x in a <==> x in b
    requires forall x :: x in a ==> a[x] == b[x]
    ensures a == b
  {
  }

  lemma NothingDropped(store: map<string, Decision>)
    ensures DropAll(store, []) == store
  {
  }

  lemma Halves(ids: seq<string>, k: nat)
    requires NoRepeats(ids) && k <= |ids|
    ensures forall x :: x in ids[k..] <==> x in ids && x !in ids[..k]
  {
    assert ids == ids[..k] + ids[k..];
  }

  lemma WholeDistinct(order: seq<string>, id: string)
    requires NoRepeats(order)
    ensures NoRepeats(Without(order, id) + [id])
  {
    WithoutSpec(order, id);
    var kept := Without(order, id);
    assert forall k :: 0 <= k < |kept| ==> kept[k] in kept;
  }

  /** Cutting the order and dropping the stale ids leaves the records of the others. */
  lemma StoreIsStored(order: seq<string>, store: map<string, Decision>, d: Decision)
    requires NoRepeats(order) && forall id :: id in store <==> id in order
    ensures var whole, added := Without(order, d.decisionId) + [d.decisionId], store[d.decisionId := d];
            if |whole| > MAX_DECISIONS
            then Moved(order, d.decisionId) == whole[|whole| - MAX_DECISIONS..]
                 && Stored(order, store, d) == DropAll(added, whole[..|whole| - MAX_DECISIONS])
            else Moved(order, d.decisionId) == whole && Stored(order, store, d) == added
  {
    hide Without, NoRepeats, DropAll, Stored;
    var id := d.decisionId;
    var whole, added := Without(order, id) + [id], store[id := d];
    WithoutSpec(order, id);
    WholeDistinct(order, id);
    var k := if |whole| > MAX_DECISIONS then |whole| - MAX_DECISIONS else 0;
    assert Moved(order, id) == whole[k..];
    Halves(whole, k);
    DropAllSpec(added, whole[..k]);
    StoredSpec(order, store, d);
    forall x: string
      ensures x in DropAll(added, whole[..k]) <==> x in Stored(order, store, d)
    {
      assert x in added <==> x in whole;
    }
    SameMap(DropAll(added, whole[..k]), Stored(order, store, d));
    NothingDropped(added);
    assert whole[..0] == [];
  }

  /** Moving the id to the end, cutting the order and dropping what was cut, in terms of
      the lists the method has at hand. */
  lemma CacheStep(writes: seq<Decision>, order: seq<string>, store: map<string, Decision>, d: Decision)
    requires Holds(writes, order, store)
    ensures var whole := (if d.decisionId in order then RemoveFirst(order, d.decisionId) else order) + [d.decisionId];
            var added := store[d.decisionId := d];
            if |whole| > MAX_DECISIONS
            then Holds(writes + [d], whole[|whole| - MAX_DECISIONS..], DropAll(added, whole[..|whole| - MAX_DECISIONS]))
            else Holds(writes + [d], whole, added)
  {
    hide Holds, RemoveFirst, Without, Newest, NoRepeats, Stored, DropAll, Moved;
    HeldIds(writes, order, store);
    WriteKeepsHolds(writes, order, store, d);
    StoreIsStored(order, store, d);
    RemoveFirstIsWithout(order, d.decisionId);
  }

  lemma SizeStep(writes: seq<Decision>, order: seq<string>, store: map<string, Decision>, id: string)
    requires Holds(writes, order, store)
    ensures id in store <==> id in order
    ensures id in order ==> |RemoveFirst(order, id)| < 5000 == MAX_DECISIONS
  {
    hide Recency, LastAt, Newest, RemoveFirst, Without;
    OrderShape(writes);
    RemoveFirstIsWithout(order, id);
    WithoutSpec(order, id);
  }

  lemma DropNext(store: map<string, Decision>, ids: seq<string>, n: nat)
    requires n < |ids|
    ensures DropAll(store, ids[..n + 1]) == DropAll(store, ids[..n]) - {ids[n]}
  {
    assert ids[..n + 1][..n] == ids[..n];
  }

  lemma NothingNamedEmpty(writes: seq<Decision>, order: seq<string>, store: map<string, Decision>)
    requires Holds(writes, order, store)
    ensures forall id :: id in store <==> id in Newest(Recency(writes)) && LastAt(writes, id) > 0
    ensures forall id :: id in store ==> store[id] == LastRecord(writes, id)
  {
  }

  class PolicyDecisionStore {
    var order: seq<string>
    var store: map<string, Decision>
    /** Every write so far. */
    ghost var writes: seq<Decision>

    ghost predicate Valid()
      reads this
    {
      Holds(writes, order, store)
    }

    constructor ()
      ensures Valid() && writes == []
    {
      order, store, writes := [], map[], [];
    }

    method ForgetStale(stale: seq<string>)
      modifies this`store
      ensures store == DropAll(old(store), stale)
    {
      NothingDropped(store);
      assert stale[..0] == [];
      for n := 0 to |stale|
        invariant store == DropAll(old(store), stale[..n])
      {
        DropNext(old(store), stale, n);
        store := store - {stale[n]};
      }
      assert stale[..|stale|] == stale;
    }

    method CacheRecord(d: Decision)
      requires Valid()
      modifies this
      ensures Valid()
      ensures writes == old(writes) + (if d.decisionId == "" then [] else [d])
      ensures d.decisionId == "" ==> store == old(store)
      ensures d.decisionId in old(store) && d.decisionId != "" ==> store == old(store)[d.decisionId := d]
    {
      if d.decisionId == "" {
        return;
      }
      hide Holds, RemoveFirst, DropAll;
      CacheStep(writes, order, store, d);
      SizeStep(writes, order, store, d.decisionId);
      store := store[d.decisionId := d];
      if d.decisionId in order {
        order := RemoveFirst(order, d.decisionId);
      }
      order := order + [d.decisionId];
      if |order| > MAX_DECISIONS {
        var stale := order[..|order| - MAX_DECISIONS];
        order := order[|order| - MAX_DECISIONS..];
        ForgetStale(stale);
      }
      writes := writes + [d];
    }

    method RecordPolicyDecision(d: Decision) returns (result: Decision)
      requires Valid()
      modifies this
      ensures Valid() && result == d
      ensures writes == old(writes) + WritesOf(old(writes), Record(d))
    {
      CacheRecord(d);
      return d;
    }

    /** Nothing happens to a decision that is not held. */
    method BindDecisionToRun(id: string, runId: string, commandRunId: string, now: int)
      returns (result: Option<Decision>)
      requires Valid()
      modifies this
      ensures Valid()
      ensures writes == old(writes) + WritesOf(old(writes), Bind(id, runId, commandRunId, now))
      ensures result == if id != "" && id in old(store)
                        then Some(Bound(old(store)[id], runId, commandRunId, now)) else None
      ensures result.None? ==> store == old(store)
      ensures result.Some? ==>
                && store == old(store)[id := result.value]
                && result.value.decisionId == id && result.value.runId == runId && result.value.updatedAt == now
                && result.value.commandRunId ==
                   (if commandRunId != "" then commandRunId else old(store)[id].commandRunId)
    {
      hide Recency, LastAt, LastRecord, Newest;
      HeldAreNamed(writes, order, store);
      NothingNamedEmpty(writes, order, store);
      if id == "" || id !in store {
        return None;
      }
      var d := store[id];
      d := d.(runId := runId);
      if commandRunId != "" {
        d := d.(commandRunId := commandRunId);
      }
      d := d.(updatedAt := now);
      CacheRecord(d);
      return Some(d);
    }

    /** After any run the store holds what its writes say. */
    method Replay(ops: seq<Op>)
      requires Valid() && writes == []
      modifies this
      ensures Valid() && writes == Writes(ops)
    {
      hide Holds, WritesOf;
      for n := 0 to |ops|
        invariant Valid() && writes == Writes(ops[..n])
      {
        assert ops[..n + 1][..n] == ops[..n];
        match ops[n] {
          case Record(d) =>
            var result := RecordPolicyDecision(d);
          case Bind(id, runId, commandRunId, now) =>
            var result := BindDecisionToRun(id, runId, commandRunId, now);
        }
      }
      assert ops[..|ops|] == ops;
    }

    /** Newest first, up to the limit. */
    method ListPolicyDecisions(limit: int, q: Query) returns (rows: seq<Decision>)
      requires Valid()
      ensures IsListing(writes, order, store, q, limit, rows)
      ensures var most := if limit == 0 then 100 else if limit < 1 then 1 else if limit > 1000 then 1000 else limit;
              var matches := (d: Decision) =>
                && (Strip(q.runId) != "" ==> d.runId == Strip(q.runId))
                && (Strip(q.actionId) != "" ==> d.actionId == Strip(q.actionId))
                && (Strip(q.result) != "" ==> Lower(Strip(d.result)) == Lower(Strip(q.result)));
              && |rows| <= most
              && (forall d :: d in rows ==> d.decisionId in store && d == store[d.decisionId] && matches(d))
              && (forall id :: id in store && matches(store[id]) && store[id] !in rows ==> |rows| == most)
    {
      hide Holds, IsListing, Matches, SafeLimit, FirstOf, MatchesBackwards, LastAt;
      ListingSpec(writes, order, store, q, limit);
      ListedByFields(writes, order, store, q, limit, FirstOf(MatchesBackwards(order, store, q), limit));
      LimitIsPositive(limit);
      var safeLimit := SafeLimit(limit);
      ghost var all := MatchesBackwards(order, store, q);
      rows := [];
      var n := |order|;
      assert order[..n] == order && [] + all == all;
      while n > 0
        invariant n <= |order| && |rows| < safeLimit
        invariant all == rows + MatchesBackwards(order[..n], store, q)
      {
        n := n - 1;
        BackNext(order, store, q, n);
        ghost var rest := MatchesBackwards(order[..n], store, q);
        var d := store[order[n]];
        if Matches(d, q) {
          assert rows + ([d] + rest) == (rows + [d]) + rest;
          rows := rows + [d];
          if |rows| >= safeLimit {
            FirstOfSplits(rows, rest, limit);
            return;
          }
        }
      }
      BackNothing(store, q);
      assert order[..0] == [];
      FirstOfSplits(rows, [], limit);
    }
  }
}
