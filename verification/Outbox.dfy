/** The knowledge-base outbox: remote writes are queued, retried with back-off and
    persisted to a file. One processor works through the queue and releases the
    lock while it talks to the remote side; other threads enqueue meanwhile. */
module OutboxModel {
  import opened Options
  import opened Text

  /** Generated ids and clock texts are never blank and carry no outer whitespace. */
  type Token = s: string | s != "" && Stripped(s) witness "-"
  type Trimmed = s: string | Stripped(s)

  datatype Status = Pending | Processing | Failed

  /** What `upsert_remote_if_needed` answers. */
  datatype SyncResult = SyncResult(synced: bool, externalDocId: Trimmed, error: Trimmed, errorCode: Trimmed)

  type Payload = m: map<string, string> | |m| > 0 witness map["id" := "case"]

  datatype Item = Item(
    outboxId: Token,
    caseId: Token,
    payload: Payload,
    status: Status,
    attempts: nat,
    maxAttempts: nat,
    nextRetryAt: int,
    createdAt: Token,
    updatedAt: Token,
    lastError: Trimmed,
    lastErrorCode: Trimmed,
    lastResult: Option<SyncResult>)

  datatype Config = Config(maxAttempts: nat, backoffBase: nat, backoffMax: nat)

  /** The bounds the gateway's constructor puts on its settings. */
  predicate ValidConfig(c: Config) {
    1 <= c.maxAttempts && 1 <= c.backoffBase <= c.backoffMax
  }

  // ----- Back-off -----

  function Pow2(n: nat): nat {
    if n == 0 then 1 else 2 * Pow2(n - 1)
  }

  function Backoff(c: Config, attempts: int): nat {
    var exponent := if attempts - 1 < 0 then 0 else attempts - 1;
    var delay := c.backoffBase * Pow2(exponent);
    if delay <= c.backoffMax then delay else c.backoffMax
  }

  lemma {:induction false} Pow2Grows(n: nat, m: nat)
    requires n <= m
    ensures 1 <= Pow2(n) <= Pow2(m)
    decreases m
  {
    if n < m {
      Pow2Grows(n, m - 1);
    } else if n > 0 {
      Pow2Grows(n - 1, m - 1);
    }
  }

  lemma ProductGrows(base: nat, x: nat, y: nat)
    requires x <= y
    ensures base * x <= base * y
  {
  }

  /** Every delay lies between the base and the cap and never shrinks. */
  lemma BackoffBounded(c: Config, attempts: int, later: int)
    requires ValidConfig(c) && attempts <= later
    ensures c.backoffBase <= Backoff(c, attempts) <= Backoff(c, later) <= c.backoffMax
  {
    var e := if attempts - 1 < 0 then 0 else attempts - 1;
    var f := if later - 1 < 0 then 0 else later - 1;
    Pow2Grows(0, e);
    Pow2Grows(e, f);
    hide Pow2;
    ProductGrows(c.backoffBase, 1, Pow2(e));
    ProductGrows(c.backoffBase, Pow2(e), Pow2(f));
  }

  /** The delay after so many failures in a row: the base after the first, and after each
      further one twice the last, up to the maximum. */
  ghost function RetryDelay(c: Config, failures: nat): nat
    requires failures >= 1
  {
    if failures == 1 then c.backoffBase
    else if 2 * RetryDelay(c, failures - 1) <= c.backoffMax then 2 * RetryDelay(c, failures - 1)
    else c.backoffMax
  }

  lemma {:induction false} BackoffDoubles(c: Config, failures: nat)
    requires ValidConfig(c) && failures >= 1
    ensures Backoff(c, failures) == RetryDelay(c, failures)
    decreases failures
  {
    if failures > 1 {
      BackoffDoubles(c, failures - 1);
      var before := c.backoffBase * Pow2(failures - 2);
      assert c.backoffBase * Pow2(failures - 1) == c.backoffBase * (2 * Pow2(failures - 2)) == 2 * before;
    } else {
      assert Pow2(0) == 1 && c.backoffBase * 1 == c.backoffBase;
    }
  }

  /** The failed attempt of `target`, counted from the snapshot taken before the call. */
  function AfterFailure(c: Config, target: Item, snapshot: Item, result: SyncResult, now: int, stamp: Token): Item {
    var attempts := snapshot.attempts + 1;
    var maxAttempts := if snapshot.maxAttempts < 1 then 1 else snapshot.maxAttempts;
    target.(
      attempts := attempts,
      updatedAt := stamp,
      lastError := result.error,
      lastErrorCode := result.errorCode,
      lastResult := Some(result),
      nextRetryAt := now + Backoff(c, attempts),
      status := if attempts < maxAttempts then Pending else Failed)
  }

  lemma FailureWrites(c: Config, target: Item, snapshot: Item, result: SyncResult, now: int, stamp: Token)
    requires ValidConfig(c)
    ensures var failures := snapshot.attempts + 1;
            AfterFailure(c, target, snapshot, result, now, stamp) ==
            target.(attempts := failures,
                    status := if failures < snapshot.maxAttempts then Pending else Failed,
                    nextRetryAt := now + RetryDelay(c, failures),
                    lastError := result.error, lastErrorCode := result.errorCode, lastResult := Some(result),
                    updatedAt := stamp)
  {
    BackoffDoubles(c, snapshot.attempts + 1);
  }

  // ----- The queue -----

  function Ids(items: seq<Item>): seq<string> {
    seq(|items|, i requires 0 <= i < |items| => items[i].outboxId)
  }

  ghost predicate DistinctIds(items: seq<Item>) {
    forall i, j :: 0 <= i < j < |items| ==> items[i].outboxId != items[j].outboxId
  }

  /** The position of the first item with this id, or |items|. */
  function IndexOf(items: seq<Item>, id: string): (k: nat)
    ensures k <= |items|
    ensures k < |items| ==> items[k].outboxId == id
    ensures forall j :: 0 <= j < k ==> items[j].outboxId != id
  {
    if items == [] || items[0].outboxId == id then 0
    else
      assert items == [items[0]] + items[1..];
      1 + IndexOf(items[1..], id)
  }

  function RemoveId(items: seq<Item>, id: string): seq<Item> {
    if items == [] then []
    else if items[0].outboxId == id then RemoveId(items[1..], id)
    else [items[0]] + RemoveId(items[1..], id)
  }

  /** Ids of the pending items whose retry time has come, in queue order. */
  function DueIds(items: seq<Item>, now: int): seq<string> {
    if items == [] then []
    else if items[0].status == Pending && items[0].nextRetryAt <= now then
      [items[0].outboxId] + DueIds(items[1..], now)
    else DueIds(items[1..], now)
  }

  function NewItem(c: Config, id: Token, caseId: Token, payload: Payload, now: int, stamp: Token): Item {
    Item(id, caseId, payload, Pending, 0, c.maxAttempts, now, stamp, stamp, "", "", None)
  }

  function MarkProcessing(item: Item, stamp: Token): Item {
    item.(status := Processing, updatedAt := stamp)
  }

  function CountStatus(items: seq<Item>, status: Status): nat {
    if items == [] then 0
    else (if items[0].status == status then 1 else 0) + CountStatus(items[1..], status)
  }

  // ----- The file -----

  /** One decoded record of the outbox file; a field may be missing. */
  datatype RawItem = RawItem(
    outboxId: Option<string>,
    caseId: Option<string>,
    payload: Option<map<string, string>>,
    status: Option<string>,
    attempts: Option<int>,
    maxAttempts: Option<int>,
    nextRetryAt: Option<int>,
    createdAt: Option<string>,
    updatedAt: Option<string>,
    lastError: Option<string>,
    lastErrorCode: Option<string>,
    lastResult: Option<SyncResult>)

  function StatusText(status: Status): string {
    match status
    case Pending => "pending"
    case Processing => "processing"
    case Failed => "failed"
  }

  /** `json.dump` of one item. */
  function Dump(item: Item): RawItem {
    RawItem(Some(item.outboxId), Some(item.caseId), Some(item.payload), Some(StatusText(item.status)),
            Some(item.attempts), Some(item.maxAttempts), Some(item.nextRetryAt),
            Some(item.createdAt), Some(item.updatedAt), Some(item.lastError), Some(item.lastErrorCode),
            item.lastResult)
  }

  /** `_as_str`: trimmed text, or the default when missing or blank. */
  function AsStr(value: Option<string>, default: Trimmed): (r: Trimmed)
    ensures default != "" ==> r != ""
  {
    match value
    case None => default
    case Some(text) =>
      StripSpec(text);
      if Strip(text) == "" then default else Strip(text)
  }

  function OrElse<T>(value: Option<T>, default: T): T {
    match value
    case None => default
    case Some(v) => v
  }

  /** Records without an id, a case or a payload are dropped; an interrupted item
      is pending again. */
  function LoadOne(c: Config, raw: RawItem, now: int, stamp: Token): Option<Item> {
    var outboxId := AsStr(raw.outboxId, "");
    var caseId := AsStr(raw.caseId, "");
    var payload := OrElse(raw.payload, map[]);
    if outboxId == "" || caseId == "" || payload == map[] then None
    else
      var status := Lower(AsStr(raw.status, "pending"));
      var attempts := OrElse(raw.attempts, 0);
      var maxAttempts := OrElse(raw.maxAttempts, c.maxAttempts);
      Some(Item(
        outboxId, caseId, payload,
        if status == "failed" then Failed else Pending,
        if attempts < 0 then 0 else attempts,
        if maxAttempts < 1 then 1 else maxAttempts,
        OrElse(raw.nextRetryAt, now),
        AsStr(raw.createdAt, stamp),
        AsStr(raw.updatedAt, stamp),
        AsStr(raw.lastError, ""),
        AsStr(raw.lastErrorCode, ""),
        raw.lastResult))
  }

  lemma PendingIsNotFailed()
    ensures Lower("pending") != "failed" && Lower("") != "failed"
  {
    assert |Lower("pending")| == 7 && |Lower("")| == 0 && |"failed"| == 6;
  }

  /** What is read from a record, field by field, whatever is in it. */
  lemma LoadedFields(c: Config, raw: RawItem, now: int, stamp: Token)
    ensures var text := (value: Option<string>) => if value.Some? then Strip(value.value) else "";
            var r := LoadOne(c, raw, now, stamp);
            && (r.None? <==>
                  || text(raw.outboxId) == "" || text(raw.caseId) == ""
                  || raw.payload.None? || raw.payload.value == map[])
            && (r.Some? ==>
                  var item := r.value;
                  && item.outboxId == text(raw.outboxId) && item.caseId == text(raw.caseId)
                  && item.payload == raw.payload.value
                  && item.status == (if Lower(text(raw.status)) == "failed" then Failed else Pending)
                  && item.attempts ==
                     (if raw.attempts.Some? && raw.attempts.value > 0 then raw.attempts.value else 0)
                  && item.maxAttempts ==
                     (var most := if raw.maxAttempts.Some? then raw.maxAttempts.value else c.maxAttempts;
                      if most > 1 then most else 1)
                  && item.nextRetryAt == (if raw.nextRetryAt.Some? then raw.nextRetryAt.value else now)
                  && item.createdAt == (if text(raw.createdAt) != "" then text(raw.createdAt) else stamp)
                  && item.updatedAt == (if text(raw.updatedAt) != "" then text(raw.updatedAt) else stamp)
                  && item.lastError == text(raw.lastError) && item.lastErrorCode == text(raw.lastErrorCode)
                  && item.lastResult == raw.lastResult)
  {
    hide Lower, Strip;
    PendingIsNotFailed();
  }

  function Load(c: Config, raws: seq<RawItem>, now: int, stamp: Token): seq<Item> {
    if raws == [] then []
    else
      var rest := Load(c, raws[1..], now, stamp);
      match LoadOne(c, raws[0], now, stamp)
      case None => rest
      case Some(item) => [item] + rest
  }

  function DumpAll(items: seq<Item>): seq<RawItem> {
    seq(|items|, i requires 0 <= i < |items| => Dump(items[i]))
  }

  function Restarted(item: Item): Item {
    if item.status == Processing then item.(status := Pending) else item
  }

  lemma AsStrOfTrimmed(text: Trimmed, default: Trimmed)
    ensures AsStr(Some(text), default) == if text == "" then default else text
  {
    StripSpec(text);
  }

  lemma StatusTextReadsBack(status: Status)
    ensures var text := AsStr(Some(StatusText(status)), "pending");
            Lower(text) == "failed" <==> status == Failed
  {
    var text := StatusText(status);
    assert Stripped(text);
    AsStrOfTrimmed(text, "pending");
    if status == Failed {
      var lower := Lower(text);
      assert forall i :: 0 <= i < 6 ==> lower[i] == LowerChar(text[i]) == text[i];
      assert lower == text;
    }
  }

  lemma ReloadOne(c: Config, item: Item, now: int, stamp: Token)
    requires 1 <= item.maxAttempts
    ensures LoadOne(c, Dump(item), now, stamp) == Some(Restarted(item))
  {
    AsStrOfTrimmed(item.outboxId, "");
    AsStrOfTrimmed(item.caseId, "");
    AsStrOfTrimmed(item.createdAt, stamp);
    AsStrOfTrimmed(item.updatedAt, stamp);
    AsStrOfTrimmed(item.lastError, "");
    AsStrOfTrimmed(item.lastErrorCode, "");
    StatusTextReadsBack(item.status);
  }

  /** A file may hold an item caught between two of its changes. Reloaded, it is pending
      with attempts left, or failed, exactly if it was so already or had attempts left. */
  lemma ReloadedHasAttemptsExactly(c: Config, item: Item, now: int, stamp: Token)
    requires 1 <= item.maxAttempts
    ensures var r := LoadOne(c, Dump(item), now, stamp);
            && r.Some?
            && ((r.value.status == Pending ==> r.value.attempts < r.value.maxAttempts) <==>
                  item.status == Failed || item.attempts < item.maxAttempts)
  {
    hide LoadOne, Dump;
    ReloadOne(c, item, now, stamp);
  }

  /** Reloading a persisted queue gives the same items in the same order; only an
      interrupted item changes, back to pending. */
  lemma {:induction false} ReloadPersisted(c: Config, items: seq<Item>, now: int, stamp: Token)
    requires forall it :: it in items ==> 1 <= it.maxAttempts
    ensures var loaded := Load(c, DumpAll(items), now, stamp);
            && |loaded| == |items|
            && (forall i :: 0 <= i < |items| ==>
                  loaded[i] == if items[i].status == Processing then items[i].(status := Pending) else items[i])
    decreases |items|
  {
    hide LoadOne, Dump;
    if items != [] {
      ReloadOne(c, items[0], now, stamp);
      assert DumpAll(items)[1..] == DumpAll(items[1..]);
      ReloadPersisted(c, items[1..], now, stamp);
    }
  }

  // ----- Removal keeps the rest, in order -----

  lemma {:induction false} RemoveAbsent(items: seq<Item>, id: string)
    requires forall it :: it in items ==> it.outboxId != id
    ensures RemoveId(items, id) == items
    decreases |items|
  {
    if items != [] {
      RemoveAbsent(items[1..], id);
    }
  }

  lemma {:induction false} RemoveIdIsCut(items: seq<Item>, k: nat)
    requires k < |items|
    requires forall j :: 0 <= j < |items| && j != k ==> items[j].outboxId != items[k].outboxId
    ensures RemoveId(items, items[k].outboxId) == items[..k] + items[k + 1..]
    decreases |items|
  {
    var id := items[k].outboxId;
    if k == 0 {
      RemoveAbsent(items[1..], id);
    } else {
      assert items[1..][k - 1] == items[k];
      RemoveIdIsCut(items[1..], k - 1);
      assert items[..k] == [items[0]] + items[1..][..k - 1];
      assert items[1..][k..] == items[k + 1..];
    }
  }

  /** Every item is in exactly one of the three states. */
  lemma {:induction false} CountsAddUp(items: seq<Item>)
    ensures CountStatus(items, Pending) + CountStatus(items, Processing) + CountStatus(items, Failed) == |items|
    decreases |items|
  {
    if items != [] {
      CountsAddUp(items[1..]);
    }
  }
}

/** Interleavings of one outbox processor, any number of enqueuers, file writes in two
    steps and restarts. */
module OutboxProtocol {
  import opened Options
  import opened Lists
  import opened OutboxModel

  datatype Phase =
    | Idle
    | Sweeping(due: seq<string>)                                         // inside process_outbox_once
    | InFlight(id: string, index: nat, snapshot: Item, due: seq<string>) // lock released, remote call running

  datatype State = State(
    items: seq<Item>,
    file: seq<Item>,         // what a restart would read
    copies: seq<seq<Item>>,  // lists taken under the lock and not written yet
    phase: Phase,
    enqueued: seq<string>,   // ids this process knows, in arrival order
    synced: set<string>)     // ids whose own remote call answered "synced"

  datatype Action =
    | Enqueue(id: Token, caseId: Token, payload: Payload, now: int, stamp: Token)
    | Sweep(now: int)
    | Pick(stamp: Token)
    | Answer(result: SyncResult, now: int, stamp: Token)
    | EndSweep
    | Copy
    | Write(n: nat, content: seq<Item>)
    | Restart(now: int, stamp: Token)

  /** What may be written for an item some time after the list was copied: the fields are
      read one by one while the processor goes on, so attempts may be ahead of the status;
      but an item is marked failed only after its last attempt was counted. */
  predicate LaterVersion(copied: Item, written: Item) {
    && written.outboxId == copied.outboxId && written.caseId == copied.caseId && written.payload == copied.payload
    && written.createdAt == copied.createdAt && written.maxAttempts == copied.maxAttempts
    && written.attempts >= copied.attempts
    && (written.status == Failed ==> copied.status == Failed || written.attempts >= written.maxAttempts)
  }

  predicate PossibleDump(copy: seq<Item>, content: seq<Item>) {
    |content| == |copy| && forall i :: 0 <= i < |copy| ==> LaterVersion(copy[i], content[i])
  }

  predicate Enabled(s: State, a: Action) {
    match a
    case Enqueue(id, _, _, _, _) => id !in s.enqueued  // ids are freshly generated
    case Sweep(_) => s.phase.Idle?
    case Pick(_) => s.phase.Sweeping? && s.phase.due != []
    case Answer(_, _, _) => s.phase.InFlight?
    case EndSweep => s.phase.Sweeping? && s.phase.due == []
    case Copy => true
    case Write(n, content) => n < |s.copies| && PossibleDump(s.copies[n], content)
    case Restart(_, _) => true
  }

  function DoPick(s: State, stamp: Token): State
    requires s.phase.Sweeping? && s.phase.due != []
  {
    var id, due := s.phase.due[0], s.phase.due[1..];
    var k := IndexOf(s.items, id);
    if k == |s.items| then s.(phase := Sweeping(due))
    else s.(items := s.items[k := MarkProcessing(s.items[k], stamp)], phase := InFlight(id, k, s.items[k], due))
  }

  function DoAnswer(c: Config, s: State, result: SyncResult, now: int, stamp: Token): State
    requires s.phase.InFlight?
  {
    var InFlight(id, index, snapshot, due) := s.phase;
    if result.synced then
      s.(items := RemoveId(s.items, id), phase := Sweeping(due), synced := s.synced + {id})
    else if index >= |s.items| then
      s.(phase := Sweeping(due))
    else
      s.(items := s.items[index := AfterFailure(c, s.items[index], snapshot, result, now, stamp)],
         phase := Sweeping(due))
  }

  function DoRestart(c: Config, s: State, now: int, stamp: Token): State {
    var items := Load(c, DumpAll(s.file), now, stamp);
    State(items, s.file, [], Idle, Ids(items), {})
  }

  function Next(c: Config, s: State, a: Action): State
    requires Enabled(s, a)
  {
    match a
    case Enqueue(id, caseId, payload, now, stamp) =>
      s.(items := s.items + [NewItem(c, id, caseId, payload, now, stamp)], enqueued := s.enqueued + [id])
    case Sweep(now) => s.(phase := Sweeping(DueIds(s.items, now)))
    case Pick(stamp) => DoPick(s, stamp)
    case Answer(result, now, stamp) => DoAnswer(c, s, result, now, stamp)
    case EndSweep => s.(phase := Idle)
    case Copy => s.(copies := s.copies + [s.items])
    case Write(n, content) => s.(file := content, copies := s.copies[..n] + s.copies[n + 1..])
    case Restart(now, stamp) => DoRestart(c, s, now, stamp)
  }

  function Step(c: Config, s: State, a: Action): State {
    if Enabled(s, a) then Next(c, s, a) else s
  }

  function Run(c: Config, s: State, schedule: seq<Action>): State
    decreases |schedule|
  {
    if schedule == [] then s else Run(c, Step(c, s, schedule[0]), schedule[1..])
  }

  const EMPTY := State([], [], [], Idle, [], {})

  // ----- Invariants of every reachable state -----

  ghost predicate AttemptsOk(item: Item) {
    1 <= item.maxAttempts && (item.status == Failed ==> item.attempts >= item.maxAttempts)
  }

  /** Attempts and status agree. A file written in between may say otherwise. */
  ghost predicate InStep(item: Item) {
    && (item.status == Failed ==> item.attempts == item.maxAttempts)
    && (item.status != Failed ==> item.attempts < item.maxAttempts)
  }

  ghost predicate AllInStep(items: seq<Item>) {
    forall it :: it in items ==> InStep(it)
  }

  ghost predicate Queue(items: seq<Item>) {
    DistinctIds(items) && forall it :: it in items ==> AttemptsOk(it)
  }

  /** Exactly the item in flight is "processing", and the index taken in the first
      lock section still names it. */
  ghost predicate FlightOk(s: State) {
    match s.phase
    case InFlight(id, index, snapshot, _) =>
      && index < |s.items|
      && s.items[index].outboxId == id == snapshot.outboxId
      && s.items[index].status == Processing
      && s.items[index].attempts == snapshot.attempts
      && s.items[index].maxAttempts == snapshot.maxAttempts
      && (forall j :: 0 <= j < |s.items| && j != index ==> s.items[j].status != Processing)
    case _ =>
      forall it :: it in s.items ==> it.status != Processing
  }

  function WithoutAll(ids: seq<string>, gone: set<string>): seq<string> {
    if ids == [] then []
    else if ids[0] in gone then WithoutAll(ids[1..], gone)
    else [ids[0]] + WithoutAll(ids[1..], gone)
  }

  /** The queue is, in arrival order, exactly what came in and was not synced. */
  ghost predicate Conserved(s: State) {
    && Ids(s.items) == WithoutAll(s.enqueued, s.synced)
    && (forall id :: id in s.synced ==> id in s.enqueued)
    && NoRepeats(s.enqueued)
  }

  ghost predicate PendingIn(items: seq<Item>, id: string) {
    exists k :: 0 <= k < |items| && items[k].outboxId == id && items[k].status == Pending
  }

  function Due(phase: Phase): seq<string> {
    if phase.Idle? then [] else phase.due
  }

  ghost predicate AllPending(items: seq<Item>, ids: seq<string>) {
    forall k :: 0 <= k < |ids| ==> PendingIn(items, ids[k])
  }

  /** A due list names pending items, each once. */
  ghost predicate DueOk(s: State) {
    NoRepeats(Due(s.phase)) && AllPending(s.items, Due(s.phase))
  }

  ghost predicate Inv(s: State) {
    && Queue(s.items) && Queue(s.file) && (forall copy :: copy in s.copies ==> Queue(copy))
    && FlightOk(s) && Conserved(s) && DueOk(s)
  }

  lemma {:induction false} WithoutAppend(ids: seq<string>, id: string, gone: set<string>)
    requires id !in gone
    ensures WithoutAll(ids + [id], gone) == WithoutAll(ids, gone) + [id]
    decreases |ids|
  {
    if ids != [] {
      assert (ids + [id])[1..] == ids[1..] + [id];
      WithoutAppend(ids[1..], id, gone);
    }
  }

  lemma {:induction false} WithoutMore(ids: seq<string>, gone: set<string>, id: string)
    ensures WithoutAll(ids, gone + {id}) == WithoutAll(WithoutAll(ids, gone), {id})
    decreases |ids|
  {
    if ids != [] {
      WithoutMore(ids[1..], gone, id);
    }
  }

  lemma {:induction false} WithoutNothing(ids: seq<string>)
    ensures WithoutAll(ids, {}) == ids
    decreases |ids|
  {
    if ids != [] {
      WithoutNothing(ids[1..]);
    }
  }

  lemma {:induction false} WithoutMembers(ids: seq<string>, gone: set<string>)
    ensures forall id :: id in WithoutAll(ids, gone) <==> id in ids && id !in gone
    decreases |ids|
  {
    if ids != [] {
      WithoutMembers(ids[1..], gone);
    }
  }

  lemma {:induction false} RemoveIdIds(items: seq<Item>, id: string)
    ensures Ids(RemoveId(items, id)) == WithoutAll(Ids(items), {id})
    decreases |items|
  {
    if items != [] {
      assert Ids(items)[1..] == Ids(items[1..]);
      RemoveIdIds(items[1..], id);
    }
  }

  ghost predicate DueAt(item: Item, now: int) {
    item.status == Pending && item.nextRetryAt <= now
  }

  ghost predicate DueIn(items: seq<Item>, now: int, id: string) {
    exists k :: 0 <= k < |items| && items[k].outboxId == id && DueAt(items[k], now)
  }

  lemma DueInTail(items: seq<Item>, now: int, id: string)
    requires items != []
    ensures DueIn(items, now, id) <==> (items[0].outboxId == id && DueAt(items[0], now)) || DueIn(items[1..], now, id)
  {
    var rest := items[1..];
    if DueIn(items, now, id) {
      var k :| 0 <= k < |items| && items[k].outboxId == id && DueAt(items[k], now);
      if k > 0 {
        assert rest[k - 1] == items[k];
      }
    }
    if DueIn(rest, now, id) {
      var k :| 0 <= k < |rest| && rest[k].outboxId == id && DueAt(rest[k], now);
      assert items[k + 1] == rest[k];
    }
  }

  lemma DueInNothing(now: int)
    ensures forall id :: !DueIn([], now, id)
  {
  }

  /** `DueIds` lists exactly the pending items whose time has come. */
  lemma {:induction false} DueIdsSpec(items: seq<Item>, now: int)
    ensures forall id :: id in DueIds(items, now) <==> DueIn(items, now, id)
    decreases |items|
  {
    hide DueIn;
    if items == [] {
      assert forall id :: !DueIn([], now, id) by {
        DueInNothing(now);
      }
    } else {
      DueIdsSpec(items[1..], now);
      forall id
        ensures id in DueIds(items, now) <==> DueIn(items, now, id)
      {
        DueInTail(items, now, id);
      }
    }
  }

  lemma NoRepeatsCons(id: string, ids: seq<string>)
    ensures NoRepeats([id] + ids) <==> id !in ids && NoRepeats(ids)
  {
    var all := [id] + ids;
    if NoRepeats(all) {
      forall i | 0 <= i < |ids|
        ensures ids[i] != id
      {
        assert all[0] != all[i + 1];
      }
      forall i, j | 0 <= i < j < |ids|
        ensures ids[i] != ids[j]
      {
        assert all[i + 1] != all[j + 1];
      }
    }
  }

  /** ... and each of them once. */
  lemma {:induction false} DueIdsOnce(items: seq<Item>, now: int)
    requires DistinctIds(items)
    ensures NoRepeats(DueIds(items, now))
    decreases |items|
  {
    if items != [] {
      var rest := items[1..];
      DueIdsOnce(rest, now);
      DueIdsSpec(rest, now);
      var due := DueIds(rest, now);
      forall k | 0 <= k < |rest|
        ensures rest[k].outboxId != items[0].outboxId
      {
        assert items[k + 1] == rest[k];
      }
      NoRepeatsCons(items[0].outboxId, due);
    }
  }

  lemma NoRepeatsSnoc(ids: seq<string>, id: string)
    requires NoRepeats(ids) && id !in ids
    ensures NoRepeats(ids + [id])
  {
  }

  lemma PendingInMore(items: seq<Item>, item: Item, ids: seq<string>)
    requires AllPending(items, ids)
    ensures AllPending(items + [item], ids)
  {
    forall n | 0 <= n < |ids|
      ensures PendingIn(items + [item], ids[n])
    {
      assert PendingIn(items, ids[n]);
      var k :| 0 <= k < |items| && items[k].outboxId == ids[n] && items[k].status == Pending;
      assert (items + [item])[k] == items[k];
    }
  }

  lemma QueueMore(items: seq<Item>, item: Item)
    requires Queue(items) && AttemptsOk(item) && item.outboxId !in Ids(items)
    ensures Queue(items + [item]) && Ids(items + [item]) == Ids(items) + [item.outboxId]
  {
    forall j | 0 <= j < |items|
      ensures items[j].outboxId != item.outboxId
    {
      assert Ids(items)[j] in Ids(items);
    }
  }

  lemma EnqueueKeeps(c: Config, s: State, a: Action)
    requires ValidConfig(c) && Inv(s) && a.Enqueue? && Enabled(s, a)
    ensures Inv(Next(c, s, a))
  {
    hide PendingIn, AllPending, Queue, NoRepeats, WithoutAll, Ids;
    var item := NewItem(c, a.id, a.caseId, a.payload, a.now, a.stamp);
    var t := s.(items := s.items + [item], enqueued := s.enqueued + [a.id]);
    assert Next(c, s, a) == t;
    WithoutMembers(s.enqueued, s.synced);
    WithoutAppend(s.enqueued, a.id, s.synced);
    QueueMore(s.items, item);
    NoRepeatsSnoc(s.enqueued, a.id);
    PendingInMore(s.items, item, Due(s.phase));
    assert FlightOk(t) by {
      forall j | 0 <= j < |s.items|
        ensures t.items[j] == s.items[j]
      {
      }
    }
  }

  lemma SweepKeeps(c: Config, s: State, now: int)
    requires Inv(s) && s.phase.Idle?
    ensures Inv(Next(c, s, Sweep(now)))
  {
    DueIdsSpec(s.items, now);
    DueIdsOnce(s.items, now);
    var due := DueIds(s.items, now);
    forall n | 0 <= n < |due|
      ensures PendingIn(s.items, due[n])
    {
      assert DueIn(s.items, now, due[n]);
    }
  }

  /** Replacing one item by one with the same id changes no id. */
  lemma UpdateKeepsIds(items: seq<Item>, k: nat, item: Item)
    requires k < |items| && item.outboxId == items[k].outboxId
    ensures Ids(items[k := item]) == Ids(items)
    ensures Queue(items) && AttemptsOk(item) ==> Queue(items[k := item])
  {
    var t := items[k := item];
    assert forall j :: 0 <= j < |items| ==> t[j].outboxId == items[j].outboxId;
    if Queue(items) && AttemptsOk(item) {
      forall j | 0 <= j < |t|
        ensures AttemptsOk(t[j])
      {
        assert items[j] in items;
      }
    }
  }

  lemma UpdateKeepsPending(items: seq<Item>, k: nat, item: Item, ids: seq<string>)
    requires k < |items| && AllPending(items, ids) && items[k].outboxId !in ids
    ensures AllPending(items[k := item], ids)
  {
    forall n | 0 <= n < |ids|
      ensures PendingIn(items[k := item], ids[n])
    {
      assert PendingIn(items, ids[n]);
      var j :| 0 <= j < |items| && items[j].outboxId == ids[n] && items[j].status == Pending;
      assert items[k := item][j] == items[j];
    }
  }

  /** A pending id is found, and found pending. */
  lemma PendingIsFound(items: seq<Item>, id: string)
    requires DistinctIds(items) && PendingIn(items, id)
    ensures var k := IndexOf(items, id);
            k < |items| && items[k].outboxId == id && items[k].status == Pending
  {
    var j :| 0 <= j < |items| && items[j].outboxId == id && items[j].status == Pending;
    assert IndexOf(items, id) == j;
  }

  lemma FirstIsPending(s: State)
    requires Inv(s) && s.phase.Sweeping? && s.phase.due != []
    ensures var k := IndexOf(s.items, s.phase.due[0]);
            k < |s.items| && s.items[k].status == Pending
  {
    assert PendingIn(s.items, Due(s.phase)[0]);
    PendingIsFound(s.items, s.phase.due[0]);
  }

  lemma PickKeeps(s: State, stamp: Token)
    requires Inv(s) && s.phase.Sweeping? && s.phase.due != []
    ensures Inv(DoPick(s, stamp))
  {
    hide PendingIn, NoRepeats, WithoutAll, Ids;
    var id, due := s.phase.due[0], s.phase.due[1..];
    assert s.phase.due == [id] + due;
    NoRepeatsCons(id, due);
    assert PendingIn(s.items, s.phase.due[0]);
    PendingIsFound(s.items, id);
    var k := IndexOf(s.items, id);
    assert AttemptsOk(s.items[k]);
    var item := MarkProcessing(s.items[k], stamp);
    UpdateKeepsIds(s.items, k, item);
    assert AllPending(s.items, due) by {
      assert forall n :: 0 <= n < |due| ==> due[n] == s.phase.due[n + 1];
    }
    UpdateKeepsPending(s.items, k, item, due);
    assert DoPick(s, stamp) == s.(items := s.items[k := item], phase := InFlight(id, k, s.items[k], due));
  }

  lemma FlightIsNotDue(s: State)
    requires Inv(s) && s.phase.InFlight?
    ensures s.phase.id !in s.phase.due
  {
    var due := Due(s.phase);
    forall n | 0 <= n < |due|
      ensures due[n] != s.phase.id
    {
      assert PendingIn(s.items, due[n]);
      PendingIsFound(s.items, due[n]);
    }
  }

  lemma FailureKeeps(c: Config, s: State, result: SyncResult, now: int, stamp: Token)
    requires Inv(s) && s.phase.InFlight? && !result.synced
    ensures Inv(DoAnswer(c, s, result, now, stamp))
  {
    hide PendingIn, NoRepeats, WithoutAll, Ids, Backoff, DistinctIds;
    var InFlight(id, index, snapshot, due) := s.phase;
    assert AttemptsOk(s.items[index]);
    var item := AfterFailure(c, s.items[index], snapshot, result, now, stamp);
    FlightIsNotDue(s);
    UpdateKeepsIds(s.items, index, item);
    UpdateKeepsPending(s.items, index, item, due);
  }

  lemma CutItems(items: seq<Item>, k: nat)
    requires k < |items|
    ensures var cut := items[..k] + items[k + 1..];
            forall i :: 0 <= i < |cut| ==> cut[i] == items[if i < k then i else i + 1]
  {
  }

  lemma CutKeepsQueue(items: seq<Item>, k: nat)
    requires Queue(items) && k < |items|
    ensures Queue(items[..k] + items[k + 1..])
  {
    CutItems(items, k);
    var cut := items[..k] + items[k + 1..];
    forall i | 0 <= i < |cut|
      ensures AttemptsOk(cut[i])
    {
      assert items[if i < k then i else i + 1] in items;
    }
  }

  lemma CutKeepsPending(items: seq<Item>, k: nat, ids: seq<string>)
    requires AllPending(items, ids) && k < |items| && items[k].outboxId !in ids
    ensures AllPending(items[..k] + items[k + 1..], ids)
  {
    var cut := items[..k] + items[k + 1..];
    CutItems(items, k);
    forall n | 0 <= n < |ids|
      ensures PendingIn(cut, ids[n])
    {
      assert PendingIn(items, ids[n]);
      var j :| 0 <= j < |items| && items[j].outboxId == ids[n] && items[j].status == Pending;
      assert cut[if j < k then j else j - 1] == items[j];
    }
  }

  lemma SuccessKeeps(c: Config, s: State, result: SyncResult, now: int, stamp: Token)
    requires Inv(s) && s.phase.InFlight? && result.synced
    ensures Inv(DoAnswer(c, s, result, now, stamp))
  {
    hide PendingIn, AllPending, NoRepeats, WithoutAll, AttemptsOk, RemoveId;
    var InFlight(id, index, snapshot, due) := s.phase;
    var cut := s.items[..index] + s.items[index + 1..];
    RemoveIdIsCut(s.items, index);
    FlightIsNotDue(s);
    CutKeepsQueue(s.items, index);
    CutKeepsPending(s.items, index, due);
    RemoveIdIds(s.items, id);
    WithoutMore(s.enqueued, s.synced, id);
    WithoutMembers(s.enqueued, s.synced);
    assert Ids(s.items)[index] == id;
    var t := s.(items := cut, phase := Sweeping(due), synced := s.synced + {id});
    assert DoAnswer(c, s, result, now, stamp) == t;
    assert FlightOk(t);
  }

  lemma RestartedQueue(file: seq<Item>, items: seq<Item>)
    requires Queue(file) && |items| == |file|
    requires forall i :: 0 <= i < |file| ==> items[i] == Restarted(file[i])
    ensures Queue(items) && Ids(items) == Ids(file)
    ensures forall it :: it in items ==> it.status != Processing
  {
    forall i | 0 <= i < |items|
      ensures AttemptsOk(items[i])
    {
      assert AttemptsOk(file[i]);
    }
  }

  lemma RestartKeeps(c: Config, s: State, now: int, stamp: Token)
    requires Inv(s)
    ensures Inv(DoRestart(c, s, now, stamp))
  {
    assert forall it :: it in s.file ==> AttemptsOk(it);
    ReloadPersisted(c, s.file, now, stamp);
    var t := DoRestart(c, s, now, stamp);
    RestartedQueue(s.file, t.items);
    WithoutNothing(Ids(t.items));
    assert NoRepeats(Ids(t.items));
  }

  lemma DumpIsQueue(copy: seq<Item>, content: seq<Item>)
    requires Queue(copy) && PossibleDump(copy, content)
    ensures Queue(content) && Ids(content) == Ids(copy)
  {
    forall i, j | 0 <= i < j < |content|
      ensures content[i].outboxId != content[j].outboxId
    {
      assert LaterVersion(copy[i], content[i]) && LaterVersion(copy[j], content[j]);
    }
    forall i | 0 <= i < |content|
      ensures AttemptsOk(content[i])
    {
      assert LaterVersion(copy[i], content[i]) && AttemptsOk(copy[i]);
    }
  }

  lemma StepKeeps(c: Config, s: State, a: Action)
    requires ValidConfig(c) && Inv(s)
    ensures Inv(Step(c, s, a))
  {
    if Enabled(s, a) {
      match a
      case Enqueue(_, _, _, _, _) => EnqueueKeeps(c, s, a);
      case Sweep(now) => SweepKeeps(c, s, now);
      case Pick(stamp) => PickKeeps(s, stamp);
      case Answer(result, now, stamp) =>
        if result.synced {
          SuccessKeeps(c, s, result, now, stamp);
        } else {
          FailureKeeps(c, s, result, now, stamp);
        }
      case EndSweep =>
      case Copy =>
      case Write(n, content) => DumpIsQueue(s.copies[n], content);
      case Restart(now, stamp) => RestartKeeps(c, s, now, stamp);
    }
  }

  lemma {:induction false} RunKeeps(c: Config, s: State, schedule: seq<Action>)
    requires ValidConfig(c) && Inv(s)
    ensures Inv(Run(c, s, schedule))
    decreases |schedule|
  {
    if schedule != [] {
      StepKeeps(c, s, schedule[0]);
      RunKeeps(c, Step(c, s, schedule[0]), schedule[1..]);
    }
  }

  // ----- What holds in every run -----

  lemma Reachable(c: Config, schedule: seq<Action>)
    requires c.maxAttempts >= 1 && 1 <= c.backoffBase <= c.backoffMax
    ensures Inv(Run(c, EMPTY, schedule))
  {
    RunKeeps(c, EMPTY, schedule);
  }

  lemma SameItem(items: seq<Item>, k: nat, j: nat)
    requires Queue(items) && k < |items|
    requires j < |items| ==> items[j].outboxId == items[k].outboxId
    ensures j < |items| ==> LaterVersion(items[k], items[j])
  {
    assert items[k] in items;
  }

  lemma IdAt(items: seq<Item>, k: nat)
    requires k < |items|
    ensures items[k].outboxId in Ids(items)
  {
    assert Ids(items)[k] == items[k].outboxId;
  }

  lemma LaterEnqueue(c: Config, s: State, a: Action, k: nat, j: nat)
    requires Queue(s.items) && Conserved(s) && a.Enqueue? && Enabled(s, a) && k < |s.items| && j <= |s.items|
    requires Next(c, s, a).items[j].outboxId == s.items[k].outboxId
    ensures LaterVersion(s.items[k], Next(c, s, a).items[j])
  {
    hide LaterVersion, NoRepeats;
    IdAt(s.items, k);
    WithoutMembers(s.enqueued, s.synced);
    hide WithoutAll, Ids;
    SameItem(s.items, k, j);
  }

  lemma LaterPick(s: State, stamp: Token, k: nat, j: nat)
    requires Queue(s.items) && s.phase.Sweeping? && s.phase.due != [] && k < |s.items|
    requires j < |DoPick(s, stamp).items| && DoPick(s, stamp).items[j].outboxId == s.items[k].outboxId
    ensures LaterVersion(s.items[k], DoPick(s, stamp).items[j])
  {
    assert s.items[k] in s.items;
  }

  lemma {:induction false} RemoveIdMembers(items: seq<Item>, id: string)
    ensures forall it :: it in RemoveId(items, id) ==> it in items
    decreases |items|
  {
    if items != [] {
      RemoveIdMembers(items[1..], id);
    }
  }

  lemma LaterAnswer(c: Config, s: State, result: SyncResult, now: int, stamp: Token, k: nat, j: nat)
    requires Queue(s.items) && FlightOk(s) && s.phase.InFlight? && k < |s.items|
    requires j < |DoAnswer(c, s, result, now, stamp).items|
    requires DoAnswer(c, s, result, now, stamp).items[j].outboxId == s.items[k].outboxId
    ensures LaterVersion(s.items[k], DoAnswer(c, s, result, now, stamp).items[j])
  {
    hide Backoff;
    assert s.items[k] in s.items;
    if result.synced {
      RemoveIdMembers(s.items, s.phase.id);
      assert DoAnswer(c, s, result, now, stamp).items[j] in s.items;
    }
  }

  /** One step leaves each item that stays at one of its later versions. */
  lemma LaterStep(c: Config, s: State, a: Action, k: nat, j: nat)
    requires ValidConfig(c) && Inv(s) && !a.Restart? && k < |s.items|
    requires j < |Step(c, s, a).items| && Step(c, s, a).items[j].outboxId == s.items[k].outboxId
    ensures LaterVersion(s.items[k], Step(c, s, a).items[j])
  {
    hide Conserved, FlightOk, Queue, LaterVersion, DoAnswer, DoPick;
    if Enabled(s, a) && a.Enqueue? {
      LaterEnqueue(c, s, a, k, j);
    } else if Enabled(s, a) && a.Pick? {
      LaterPick(s, a.stamp, k, j);
    } else if Enabled(s, a) && a.Answer? {
      LaterAnswer(c, s, a.result, a.now, a.stamp, k, j);
    } else {
      SameItem(s.items, k, j);
    }
  }

  lemma LaterOfLater(a: Item, b: Item, d: Item)
    requires LaterVersion(a, b) && LaterVersion(b, d)
    ensures LaterVersion(a, d)
  {
  }

  lemma GoneAfterStep(c: Config, s: State, a: Action, id: string)
    requires ValidConfig(c) && Inv(s) && !a.Restart? && id in s.enqueued && id !in Ids(s.items)
    ensures var t := Step(c, s, a); id in t.enqueued && id !in Ids(t.items)
  {
    hide DueOk, FlightOk, WithoutAll, Ids, NoRepeats, AfterFailure, RemoveId;
    StepKeeps(c, s, a);
    WithoutMembers(s.enqueued, s.synced);
    WithoutMembers(Step(c, s, a).enqueued, Step(c, s, a).synced);
  }

  /** An id that is gone stays gone. */
  lemma {:induction false} GoneStaysGone(c: Config, s: State, schedule: seq<Action>, id: string)
    requires ValidConfig(c) && Inv(s) && (forall a :: a in schedule ==> !a.Restart?)
    requires id in s.enqueued && id !in Ids(s.items)
    ensures id !in Ids(Run(c, s, schedule).items)
    decreases |schedule|
  {
    hide Inv, Ids;
    if schedule != [] {
      var t := Step(c, s, schedule[0]);
      StepKeeps(c, s, schedule[0]);
      GoneAfterStep(c, s, schedule[0], id);
      GoneStaysGone(c, t, schedule[1..], id);
    }
  }

  lemma IdIsAt(items: seq<Item>, id: string) returns (k: nat)
    requires id in Ids(items)
    ensures k < |items| && items[k].outboxId == id
  {
    k :| 0 <= k < |Ids(items)| && Ids(items)[k] == id;
  }

  lemma StepEnqueues(c: Config, s: State, a: Action, id: string)
    requires ValidConfig(c) && Inv(s) && !a.Restart? && id in Ids(s.items)
    ensures id in Step(c, s, a).enqueued
  {
    hide DueOk, FlightOk, WithoutAll, Ids, NoRepeats, AfterFailure, RemoveId;
    WithoutMembers(s.enqueued, s.synced);
  }

  /** However long a writer waits with its copy: until a restart, the items it finds are
      later versions of the ones it copied, so `Write` covers whatever can be written. */
  lemma {:induction false} FoundLater(c: Config, s: State, schedule: seq<Action>, k: nat, j: nat)
    requires ValidConfig(c) && Inv(s) && (forall a :: a in schedule ==> !a.Restart?)
    requires k < |s.items| && j < |Run(c, s, schedule).items|
    requires Run(c, s, schedule).items[j].outboxId == s.items[k].outboxId
    ensures LaterVersion(s.items[k], Run(c, s, schedule).items[j])
    decreases |schedule|
  {
    hide Ids, LaterVersion, Step, Conserved, DueOk, FlightOk, Queue;
    if schedule == [] {
      SameItem(s.items, k, j);
    } else {
      var t, id := Step(c, s, schedule[0]), s.items[k].outboxId;
      StepKeeps(c, s, schedule[0]);
      IdAt(Run(c, s, schedule).items, j);
      IdAt(s.items, k);
      StepEnqueues(c, s, schedule[0], id);
      if id !in Ids(t.items) {
        GoneStaysGone(c, t, schedule[1..], id);
      }
      var m := IdIsAt(t.items, id);
      LaterStep(c, s, schedule[0], k, m);
      FoundLater(c, t, schedule[1..], m, j);
      LaterOfLater(s.items[k], t.items[m], Run(c, s, schedule).items[j]);
    }
  }

  /** The index taken before the remote call still names the same item after it,
      so a failure is booked on that item and on no other. */
  lemma FailureHitsItsItem(c: Config, schedule: seq<Action>, result: SyncResult, now: int, stamp: Token)
    requires ValidConfig(c)
    requires var s := Run(c, EMPTY, schedule); s.phase.InFlight? && !result.synced
    ensures var s := Run(c, EMPTY, schedule);
            var t := Step(c, s, Answer(result, now, stamp));
            && Ids(t.items) == Ids(s.items)
            && s.phase.id in Ids(s.items)
            && forall k :: 0 <= k < |s.items| ==>
                 if s.items[k].outboxId == s.phase.id
                 then s.items[k].status == Processing
                      && t.items[k] == AfterFailure(c, s.items[k], s.items[k], result, now, stamp)
                 else t.items[k] == s.items[k]
  {
    Reachable(c, schedule);
    var s := Run(c, EMPTY, schedule);
    var index := s.phase.index;
    UpdateKeepsIds(s.items, index, AfterFailure(c, s.items[index], s.phase.snapshot, result, now, stamp));
    assert Ids(s.items)[index] == s.phase.id;
  }

  lemma DueExactly(items: seq<Item>, k: nat, later: int)
    requires DistinctIds(items) && k < |items|
    ensures items[k].outboxId in DueIds(items, later) <==>
              items[k].status == Pending && later >= items[k].nextRetryAt
  {
    DueIdsSpec(items, later);
    if DueIn(items, later, items[k].outboxId) {
      var j :| 0 <= j < |items| && items[j].outboxId == items[k].outboxId && DueAt(items[j], later);
      assert j == k;
    }
  }

  lemma AnswerWrites(c: Config, s: State, result: SyncResult, now: int, stamp: Token, k: nat)
    requires Inv(s) && s.phase.InFlight? && !result.synced && k < |s.items| && s.items[k].outboxId == s.phase.id
    ensures k == s.phase.index && s.phase.snapshot.attempts == s.items[k].attempts
    ensures s.phase.snapshot.maxAttempts == s.items[k].maxAttempts
    ensures DoAnswer(c, s, result, now, stamp).items ==
            s.items[k := AfterFailure(c, s.items[k], s.phase.snapshot, result, now, stamp)]
  {
    hide AfterFailure, PendingIn, NoRepeats, WithoutAll, AttemptsOk;
  }

  lemma RetryDelayGrows(c: Config)
    ensures RetryDelay(c, 1) == c.backoffBase
    ensures forall n: nat :: n >= 1 ==>
              RetryDelay(c, n + 1) ==
              if 2 * RetryDelay(c, n) <= c.backoffMax then 2 * RetryDelay(c, n) else c.backoffMax
  {
  }

  /** What a failed answer leaves on its item, and when the item is due again: never if its
      attempts are used up, else exactly when the delay has passed. */
  lemma FailureIsBooked(c: Config, schedule: seq<Action>, result: SyncResult, now: int, stamp: Token, k: nat)
    requires c.maxAttempts >= 1 && 1 <= c.backoffBase <= c.backoffMax
    requires var s := Run(c, EMPTY, schedule);
             s.phase.InFlight? && !result.synced && k < |s.items| && s.items[k].outboxId == s.phase.id
    ensures var s := Run(c, EMPTY, schedule);
            var items := Step(c, s, Answer(result, now, stamp)).items;
            var failures := s.items[k].attempts + 1;
            var delay := RetryDelay(c, failures);
            && |items| == |s.items|
            && items[k] == s.items[k].(
                 attempts := failures,
                 status := if failures < s.items[k].maxAttempts then Pending else Failed,
                 nextRetryAt := now + delay,
                 lastError := result.error, lastErrorCode := result.errorCode, lastResult := Some(result),
                 updatedAt := stamp)
            && (forall later :: s.phase.id in DueIds(items, later) <==>
                  failures < s.items[k].maxAttempts && later >= now + delay)
            && RetryDelay(c, 1) == c.backoffBase
            && forall n: nat :: n >= 1 ==>
                 RetryDelay(c, n + 1) ==
                 (if 2 * RetryDelay(c, n) <= c.backoffMax then 2 * RetryDelay(c, n) else c.backoffMax)
  {
    RetryDelayGrows(c);
    hide Run, RetryDelay, DueIds, AfterFailure, PendingIn, NoRepeats, WithoutAll, AttemptsOk, DoAnswer;
    Reachable(c, schedule);
    var s := Run(c, EMPTY, schedule);
    StepKeeps(c, s, Answer(result, now, stamp));
    FailureWrites(c, s.items[k], s.phase.snapshot, result, now, stamp);
    AnswerWrites(c, s, result, now, stamp, k);
    var items := Step(c, s, Answer(result, now, stamp)).items;
    forall later
      ensures s.phase.id in DueIds(items, later) <==> items[k].status == Pending && later >= items[k].nextRetryAt
    {
      DueExactly(items, k, later);
    }
  }

  /** A new item goes to the end, has all its attempts, and is due at once. */
  lemma EnqueueIsBooked(c: Config, schedule: seq<Action>, a: Action)
    requires ValidConfig(c) && a.Enqueue? && a.id !in Run(c, EMPTY, schedule).enqueued
    ensures var s := Run(c, EMPTY, schedule);
            var items := Step(c, s, a).items;
            && items == s.items + [Item(a.id, a.caseId, a.payload, Pending, 0, c.maxAttempts, a.now,
                                        a.stamp, a.stamp, "", "", None)]
            && forall later :: a.id in DueIds(items, later) <==> later >= a.now
  {
    Reachable(c, schedule);
    var s := Run(c, EMPTY, schedule);
    StepKeeps(c, s, a);
    hide Run, DueIds;
    var items := Step(c, s, a).items;
    forall later
      ensures a.id in DueIds(items, later) <==> later >= a.now
    {
      DueExactly(items, |items| - 1, later);
    }
  }

  lemma PickWrites(s: State, stamp: Token, k: nat)
    requires Inv(s) && s.phase.Sweeping? && s.phase.due != [] && k < |s.items| && s.items[k].outboxId == s.phase.due[0]
    ensures var t := DoPick(s, stamp);
            && s.items[k].status == Pending
            && t.items == s.items[k := s.items[k].(status := Processing, updatedAt := stamp)]
            && t.phase == InFlight(s.phase.due[0], k, s.items[k], s.phase.due[1..])
  {
    FirstIsPending(s);
    hide Conserved, DueOk, FlightOk, AttemptsOk;
    assert IndexOf(s.items, s.phase.due[0]) == k;
  }

  /** A pick marks its item and changes nothing else. */
  lemma PickIsBooked(c: Config, schedule: seq<Action>, stamp: Token, k: nat)
    requires ValidConfig(c)
    requires var s := Run(c, EMPTY, schedule);
             && s.phase.Sweeping? && s.phase.due != []
             && k < |s.items| && s.items[k].outboxId == s.phase.due[0]
    ensures var s := Run(c, EMPTY, schedule);
            var t := Step(c, s, Pick(stamp));
            && s.items[k].status == Pending
            && t.items == s.items[k := s.items[k].(status := Processing, updatedAt := stamp)]
            && t.phase == InFlight(s.phase.due[0], k, s.items[k], s.phase.due[1..])
  {
    hide Run, Inv, DoPick;
    Reachable(c, schedule);
    PickWrites(Run(c, EMPTY, schedule), stamp, k);
  }

  /** No id is lost or duplicated: the queue holds, in arrival order, exactly the
      ids that came in and whose own remote call did not answer "synced". */
  lemma NothingLost(c: Config, schedule: seq<Action>)
    requires ValidConfig(c)
    ensures var s := Run(c, EMPTY, schedule);
            && Ids(s.items) == WithoutAll(s.enqueued, s.synced)
            && DistinctIds(s.items)
            && forall id :: id in s.enqueued ==> (id in Ids(s.items) <==> id !in s.synced)
  {
    Reachable(c, schedule);
    var s := Run(c, EMPTY, schedule);
    WithoutMembers(s.enqueued, s.synced);
  }

  /** An id leaves the queue only through its own "synced" answer (or a restart). */
  lemma LeavesOnlyWhenSynced(c: Config, schedule: seq<Action>, a: Action, id: string)
    requires ValidConfig(c)
    requires var s := Run(c, EMPTY, schedule); id in Ids(s.items) && id !in Ids(Step(c, s, a).items)
    ensures var s := Run(c, EMPTY, schedule);
            a.Restart? || (a.Answer? && a.result.synced && s.phase.InFlight? && s.phase.id == id)
  {
    Reachable(c, schedule);
    var s := Run(c, EMPTY, schedule);
    StepKeeps(c, s, a);
    var t := Step(c, s, a);
    WithoutMembers(s.enqueued, s.synced);
    WithoutMembers(t.enqueued, t.synced);
    assert id in s.enqueued && id !in s.synced;
    if !a.Restart? {
      assert id in t.enqueued;
      assert id in t.synced;
    }
  }

  lemma {:induction false} CountNone(items: seq<Item>)
    requires forall it :: it in items ==> it.status != Processing
    ensures CountStatus(items, Processing) == 0
    decreases |items|
  {
    if items != [] {
      CountNone(items[1..]);
    }
  }

  lemma {:induction false} CountSingle(items: seq<Item>, k: nat)
    requires k < |items| && items[k].status == Processing
    requires forall j :: 0 <= j < |items| && j != k ==> items[j].status != Processing
    ensures CountStatus(items, Processing) == 1
    decreases |items|
  {
    if k == 0 {
      CountNone(items[1..]);
    } else {
      assert items[1..][k - 1] == items[k];
      CountSingle(items[1..], k - 1);
    }
  }

  /** No file of the schedule was written with an item's attempts ahead of its status. */
  ghost predicate WritesInStep(schedule: seq<Action>) {
    forall a :: a in schedule && a.Write? ==> AllInStep(a.content)
  }

  lemma UpdateInStep(items: seq<Item>, k: nat, item: Item)
    requires k < |items| && AllInStep(items) && (InStep(items[k]) ==> InStep(item))
    ensures AllInStep(items[k := item])
  {
    var t := items[k := item];
    forall j | 0 <= j < |t|
      ensures InStep(t[j])
    {
      assert items[j] in items;
    }
  }

  lemma {:induction false} RemoveInStep(items: seq<Item>, id: string)
    requires AllInStep(items)
    ensures AllInStep(RemoveId(items, id))
    decreases |items|
  {
    if items != [] {
      assert items[0] in items && forall it :: it in items[1..] ==> it in items;
      RemoveInStep(items[1..], id);
    }
  }

  lemma AnswerInStep(c: Config, s: State, result: SyncResult, now: int, stamp: Token)
    requires Inv(s) && s.phase.InFlight? && AllInStep(s.items)
    ensures AllInStep(DoAnswer(c, s, result, now, stamp).items)
  {
    hide PendingIn, NoRepeats, WithoutAll, Ids, Backoff, DistinctIds, RemoveId;
    var index := s.phase.index;
    if result.synced {
      RemoveInStep(s.items, s.phase.id);
    } else {
      assert s.items[index] in s.items && AttemptsOk(s.items[index]);
      UpdateInStep(s.items, index, AfterFailure(c, s.items[index], s.phase.snapshot, result, now, stamp));
    }
  }

  lemma StepInStep(c: Config, s: State, a: Action)
    requires ValidConfig(c) && Inv(s) && AllInStep(s.items) && AllInStep(s.file)
    requires a.Write? ==> AllInStep(a.content)
    ensures AllInStep(Step(c, s, a).items) && AllInStep(Step(c, s, a).file)
  {
    hide PendingIn, NoRepeats, WithoutAll, Ids, Backoff, DistinctIds, DueIds;
    if Enabled(s, a) {
      match a
      case Pick(stamp) =>
        FirstIsPending(s);
        UpdateInStep(s.items, IndexOf(s.items, s.phase.due[0]),
                     MarkProcessing(s.items[IndexOf(s.items, s.phase.due[0])], stamp));
      case Answer(result, now, stamp) =>
        AnswerInStep(c, s, result, now, stamp);
      case Restart(now, stamp) =>
        ReloadPersisted(c, s.file, now, stamp);
        var items := Load(c, DumpAll(s.file), now, stamp);
        forall i | 0 <= i < |items|
          ensures InStep(items[i])
        {
          assert s.file[i] in s.file;
        }
      case _ =>
    }
  }

  lemma {:induction false} RunInStep(c: Config, s: State, schedule: seq<Action>)
    requires ValidConfig(c) && Inv(s) && AllInStep(s.items) && AllInStep(s.file) && WritesInStep(schedule)
    ensures AllInStep(Run(c, s, schedule).items)
    decreases |schedule|
  {
    if schedule != [] {
      assert schedule[0] in schedule && forall a :: a in schedule[1..] ==> a in schedule;
      StepKeeps(c, s, schedule[0]);
      StepInStep(c, s, schedule[0]);
      RunInStep(c, Step(c, s, schedule[0]), schedule[1..]);
    }
  }

  /** Failed items have no attempts left, and between two items nothing is "processing";
      pending items have attempts left unless a file was read that was written with an
      item's attempts ahead of its status. */
  lemma Accounting(c: Config, schedule: seq<Action>)
    requires ValidConfig(c)
    ensures var s := Run(c, EMPTY, schedule);
            && (forall it :: it in s.items && it.status == Failed ==> it.attempts >= it.maxAttempts)
            && (WritesInStep(schedule) ==>
                  && (forall it :: it in s.items && it.status == Pending ==> it.attempts < it.maxAttempts)
                  && (forall it :: it in s.items && it.status == Failed ==> it.attempts == it.maxAttempts))
            && CountStatus(s.items, Processing) == (if s.phase.InFlight? then 1 else 0)
            && CountStatus(s.items, Pending) + CountStatus(s.items, Processing)
               + CountStatus(s.items, Failed) == |s.items|
  {
    hide Run;
    Reachable(c, schedule);
    var s := Run(c, EMPTY, schedule);
    forall it | it in s.items
      ensures AttemptsOk(it)
      ensures WritesInStep(schedule) ==> InStep(it)
    {
      if WritesInStep(schedule) {
        RunInStep(c, EMPTY, schedule);
      }
    }
    CountsAddUp(s.items);
    if s.phase.InFlight? {
      CountSingle(s.items, s.phase.index);
    } else {
      CountNone(s.items);
    }
  }

  // ----- What a restart finds -----

  /** The ids of the queue at some point of the schedule. */
  ghost predicate SomeQueue(c: Config, schedule: seq<Action>, ids: seq<string>) {
    exists n :: 0 <= n <= |schedule| && Ids(Run(c, EMPTY, schedule[..n]).items) == ids
  }

  lemma {:induction false} RunMore(c: Config, s: State, schedule: seq<Action>, a: Action)
    ensures Run(c, s, schedule + [a]) == Step(c, Run(c, s, schedule), a)
    decreases |schedule|
  {
    hide Step;
    if schedule == [] {
      assert [a][1..] == [] && [] + [a] == [a];
    } else {
      assert (schedule + [a])[1..] == schedule[1..] + [a];
      RunMore(c, Step(c, s, schedule[0]), schedule[1..], a);
    }
  }

  lemma SomeQueueMore(c: Config, schedule: seq<Action>, a: Action, ids: seq<string>)
    requires SomeQueue(c, schedule, ids)
    ensures SomeQueue(c, schedule + [a], ids)
  {
    hide Run;
    var n :| 0 <= n <= |schedule| && Ids(Run(c, EMPTY, schedule[..n]).items) == ids;
    assert (schedule + [a])[..n] == schedule[..n];
  }

  lemma QueueNow(c: Config, schedule: seq<Action>)
    ensures SomeQueue(c, schedule, Ids(Run(c, EMPTY, schedule).items))
  {
    assert schedule[..|schedule|] == schedule;
  }

  lemma NothingYet(c: Config)
    ensures SomeQueue(c, [], Ids(Run(c, EMPTY, []).file)) && Run(c, EMPTY, []).copies == []
  {
    assert Run(c, EMPTY, [][..0]) == EMPTY;
  }

  lemma WritersLeft(c: Config, s: State, a: Action)
    ensures var t := Step(c, s, a);
            && (forall copy :: copy in t.copies ==> copy in s.copies || copy == s.items)
            && (t.file == s.file || (a.Write? && Enabled(s, a) && t.file == a.content))
  {
    hide Load, Ids, DueIds, IndexOf, RemoveId;
  }

  /** The file has the ids of the queue as it was at some earlier point, in arrival order,
      though not always the latest: an older copy may be written last. */
  lemma {:induction false} FileIsSomeQueue(c: Config, schedule: seq<Action>)
    requires ValidConfig(c)
    ensures var s := Run(c, EMPTY, schedule);
            && SomeQueue(c, schedule, Ids(s.file))
            && forall copy :: copy in s.copies ==> SomeQueue(c, schedule, Ids(copy))
    decreases |schedule|
  {
    hide Run, SomeQueue, Ids, Load, DoPick, DoAnswer, PossibleDump;
    if schedule == [] {
      NothingYet(c);
    } else {
      var before, a := schedule[..|schedule| - 1], schedule[|schedule| - 1];
      assert schedule == before + [a];
      var s := Run(c, EMPTY, before);
      FileIsSomeQueue(c, before);
      RunMore(c, EMPTY, before, a);
      Reachable(c, before);
      QueueNow(c, before);
      forall copy | copy in s.copies + [s.items, s.file]
        ensures SomeQueue(c, schedule, Ids(copy))
      {
        SomeQueueMore(c, before, a, Ids(copy));
      }
      if Enabled(s, a) && a.Write? {
        assert s.copies[a.n] in s.copies;
        DumpIsQueue(s.copies[a.n], a.content);
      }
      WritersLeft(c, s, a);
    }
  }

  lemma ReloadedFile(c: Config, s: State, now: int, stamp: Token)
    requires Queue(s.file)
    ensures var t := DoRestart(c, s, now, stamp);
            && Ids(t.items) == Ids(s.file) && |t.items| == |s.file|
            && forall i :: 0 <= i < |s.file| ==> t.items[i] == Restarted(s.file[i])
  {
    assert forall it :: it in s.file ==> AttemptsOk(it);
    ReloadPersisted(c, s.file, now, stamp);
    RestartedQueue(s.file, DoRestart(c, s, now, stamp).items);
  }

  /** After a restart the queue is what the file holds, with the ids the queue had at some
      earlier point. */
  lemma RestartReadsFile(c: Config, schedule: seq<Action>, now: int, stamp: Token)
    requires ValidConfig(c)
    ensures var s := Run(c, EMPTY, schedule);
            var t := Step(c, s, Restart(now, stamp));
            && |t.items| == |s.file| && Ids(t.items) == Ids(s.file) && SomeQueue(c, schedule, Ids(t.items))
            && forall i :: 0 <= i < |s.file| ==> t.items[i] == Restarted(s.file[i])
  {
    hide Run, Ids, SomeQueue, DoRestart, Restarted, Queue;
    Reachable(c, schedule);
    FileIsSomeQueue(c, schedule);
    ReloadedFile(c, Run(c, EMPTY, schedule), now, stamp);
  }

  lemma RunNothing(c: Config, s: State)
    ensures Run(c, s, []) == s
  {
  }

  lemma RunSix(c: Config, a: Action, b: Action, d: Action, e: Action, f: Action, g: Action)
    ensures Run(c, EMPTY, [a, b, d, e, f, g]) ==
            Step(c, Step(c, Step(c, Step(c, Step(c, Step(c, EMPTY, a), b), d), e), f), g)
  {
    hide Step, Run;
    RunMore(c, EMPTY, [], a);
    RunMore(c, EMPTY, [a], b);
    RunMore(c, EMPTY, [a, b], d);
    RunMore(c, EMPTY, [a, b, d], e);
    RunMore(c, EMPTY, [a, b, d, e], f);
    RunMore(c, EMPTY, [a, b, d, e, f], g);
    assert [] + [a] == [a] && [a] + [b] == [a, b] && [a, b] + [d] == [a, b, d] && [a, b, d] + [e] == [a, b, d, e];
    assert [a, b, d, e] + [f] == [a, b, d, e, f] && [a, b, d, e, f] + [g] == [a, b, d, e, f, g];
    RunNothing(c, EMPTY);
  }

  lemma EnqueueAdds(c: Config, s: State, item: Item)
    requires item == NewItem(c, item.outboxId, item.caseId, item.payload, item.nextRetryAt, item.createdAt)
    requires item.outboxId !in s.enqueued
    ensures Step(c, s, Enqueue(item.outboxId, item.caseId, item.payload, item.nextRetryAt, item.createdAt)) ==
            s.(items := s.items + [item], enqueued := s.enqueued + [item.outboxId])
  {
  }

  lemma WriteReplaces(c: Config, s: State, n: nat, content: seq<Item>)
    requires n < |s.copies| && s.copies[n] == content
    ensures Step(c, s, Write(n, content)) == s.(file := content, copies := s.copies[..n] + s.copies[n + 1..])
  {
    assert PossibleDump(s.copies[n], content);
  }

  lemma CopyAdds(c: Config, s: State)
    ensures Step(c, s, Copy) == s.(copies := s.copies + [s.items])
  {
  }

  /** A newer item is lost when an older copy is written after a newer one. */
  lemma OlderCopyLoses(c: Config, a: Item, b: Item)
    requires a.outboxId != b.outboxId
    requires a == NewItem(c, a.outboxId, a.caseId, a.payload, a.nextRetryAt, a.createdAt)
    requires b == NewItem(c, b.outboxId, b.caseId, b.payload, b.nextRetryAt, b.createdAt)
    ensures var enqueueA := Enqueue(a.outboxId, a.caseId, a.payload, a.nextRetryAt, a.createdAt);
            var enqueueB := Enqueue(b.outboxId, b.caseId, b.payload, b.nextRetryAt, b.createdAt);
            var s := Run(c, EMPTY, [enqueueA, Copy, enqueueB, Copy, Write(1, [a, b]), Write(0, [a])]);
            s.items == [a, b] && s.file == [a]
  {
    hide Run, Enabled, NewItem;
    var enqueueA := Enqueue(a.outboxId, a.caseId, a.payload, a.nextRetryAt, a.createdAt);
    var enqueueB := Enqueue(b.outboxId, b.caseId, b.payload, b.nextRetryAt, b.createdAt);
    RunSix(c, enqueueA, Copy, enqueueB, Copy, Write(1, [a, b]), Write(0, [a]));
    var one := Step(c, Step(c, EMPTY, enqueueA), Copy);
    EnqueueAdds(c, EMPTY, a);
    CopyAdds(c, Step(c, EMPTY, enqueueA));
    EnqueueAdds(c, one, b);
    CopyAdds(c, Step(c, one, enqueueB));
    var two := Step(c, Step(c, one, enqueueB), Copy);
    WriteReplaces(c, two, 1, [a, b]);
    WriteReplaces(c, Step(c, two, Write(1, [a, b])), 0, [a]);
  }

  // ----- Draining -----

  /** An item that has not failed gets one more attempt at least. */
  function Left(item: Item): nat {
    if item.status == Failed then 0
    else if item.attempts < item.maxAttempts then item.maxAttempts - item.attempts
    else 1
  }

  /** Attempts still to be spent on the items that have not failed. */
  function Remaining(items: seq<Item>): (n: nat)
    ensures (forall it :: it in items ==> it.status == Failed) ==> n == 0
  {
    if items == [] then 0 else Left(items[0]) + Remaining(items[1..])
  }

  lemma {:induction false} RemainingUpdate(items: seq<Item>, k: nat, item: Item)
    requires k < |items|
    ensures Remaining(items[k := item]) == Remaining(items) - Left(items[k]) + Left(item)
    decreases |items|
  {
    if k > 0 {
      assert items[k := item][1..] == items[1..][k - 1 := item];
      RemainingUpdate(items[1..], k - 1, item);
    }
  }

  lemma {:induction false} RemainingCut(items: seq<Item>, k: nat)
    requires k < |items|
    ensures Remaining(items[..k] + items[k + 1..]) == Remaining(items) - Left(items[k])
    decreases |items|
  {
    var cut := items[..k] + items[k + 1..];
    if k == 0 {
      assert cut == items[1..];
    } else {
      assert cut[1..] == items[1..][..k - 1] + items[1..][k..];
      RemainingCut(items[1..], k - 1);
    }
  }

  predicate Closed(a: Action) {
    !a.Enqueue? && !a.Restart?
  }

  lemma PickSpendsNothing(s: State, stamp: Token)
    requires Inv(s) && s.phase.Sweeping? && s.phase.due != []
    ensures Remaining(DoPick(s, stamp).items) == Remaining(s.items)
  {
    hide Remaining;
    var k := IndexOf(s.items, s.phase.due[0]);
    FirstIsPending(s);
    RemainingUpdate(s.items, k, MarkProcessing(s.items[k], stamp));
  }

  lemma SuccessSpends(c: Config, s: State, result: SyncResult, now: int, stamp: Token)
    requires Queue(s.items) && FlightOk(s) && s.phase.InFlight? && result.synced
    ensures Remaining(DoAnswer(c, s, result, now, stamp).items) < Remaining(s.items)
  {
    hide Remaining, RemoveId;
    var index := s.phase.index;
    assert AttemptsOk(s.items[index]);
    RemoveIdIsCut(s.items, index);
    RemainingCut(s.items, index);
  }

  lemma FailureSpends(c: Config, s: State, result: SyncResult, now: int, stamp: Token)
    requires Queue(s.items) && FlightOk(s) && s.phase.InFlight? && !result.synced
    ensures Remaining(DoAnswer(c, s, result, now, stamp).items) + 1 == Remaining(s.items)
  {
    hide Remaining, Backoff;
    var index := s.phase.index;
    assert AttemptsOk(s.items[index]);
    RemainingUpdate(s.items, index, AfterFailure(c, s.items[index], s.phase.snapshot, result, now, stamp));
  }

  /** Without new arrivals, each answer uses up a remaining attempt, one that is not "synced"
      exactly one, and no other step changes what is left. */
  lemma AnswerSpendsAttempt(c: Config, s: State, a: Action)
    requires ValidConfig(c) && Inv(s) && Closed(a) && Enabled(s, a)
    ensures Remaining(Next(c, s, a).items) + (if a.Answer? then 1 else 0) <= Remaining(s.items)
    ensures !(a.Answer? && a.result.synced) ==>
              Remaining(Next(c, s, a).items) + (if a.Answer? then 1 else 0) == Remaining(s.items)
  {
    match a
    case Sweep(_) =>
    case Pick(stamp) => PickSpendsNothing(s, stamp);
    case Answer(result, now, stamp) =>
      if result.synced {
        SuccessSpends(c, s, result, now, stamp);
      } else {
        FailureSpends(c, s, result, now, stamp);
      }
    case _ =>
  }

  /** How many remote answers a schedule really takes. */
  function Answers(c: Config, s: State, schedule: seq<Action>): nat
    decreases |schedule|
  {
    if schedule == [] then 0
    else
      (if schedule[0].Answer? && s.phase.InFlight? then 1 else 0)
      + Answers(c, Step(c, s, schedule[0]), schedule[1..])
  }

  /** A closed schedule can take only as many answers as attempts remain; and it uses up just
      as many as it takes, if none is "synced". */
  lemma {:induction false} AnswersBounded(c: Config, s: State, schedule: seq<Action>)
    requires ValidConfig(c) && Inv(s)
    requires forall a :: a in schedule ==> Closed(a)
    ensures Remaining(Run(c, s, schedule).items) + Answers(c, s, schedule) <= Remaining(s.items)
    ensures (forall a :: a in schedule ==> !(a.Answer? && a.result.synced)) ==>
              Remaining(Run(c, s, schedule).items) + Answers(c, s, schedule) == Remaining(s.items)
    decreases |schedule|
  {
    if schedule != [] {
      if Enabled(s, schedule[0]) {
        AnswerSpendsAttempt(c, s, schedule[0]);
      }
      StepKeeps(c, s, schedule[0]);
      AnswersBounded(c, Step(c, s, schedule[0]), schedule[1..]);
    }
  }

  /** A sweep can always be brought to its end: whatever the answers are, it picks and
      answers until nothing is due. */
  lemma {:induction false} SweepCanEnd(c: Config, s: State, result: SyncResult, now: int, stamp: Token)
    returns (schedule: seq<Action>)
    requires ValidConfig(c) && Inv(s) && !s.phase.Idle?
    ensures Run(c, s, schedule).phase.Idle?
    ensures forall a :: a in schedule ==> a == Pick(stamp) || a == Answer(result, now, stamp) || a.EndSweep?
    decreases if s.phase.InFlight? then 2 * |s.phase.due| + 1 else 2 * |Due(s.phase)|
  {
    hide Inv, AfterFailure, RemoveId, IndexOf, MarkProcessing;
    var a := if s.phase.InFlight? then Answer(result, now, stamp)
             else if s.phase.due != [] then Pick(stamp) else EndSweep;
    var t := Step(c, s, a);
    var rest := [];
    if !t.phase.Idle? {
      StepKeeps(c, s, a);
      rest := SweepCanEnd(c, t, result, now, stamp);
    }
    schedule := [a] + rest;
    assert schedule[1..] == rest;
  }

  lemma SomethingDue(items: seq<Item>, now: int)
    requires Queue(items)
    requires forall it :: it in items ==> it.status != Processing && it.nextRetryAt <= now
    ensures DueIds(items, now) != [] <==> exists it :: it in items && it.status != Failed
    ensures DueIds(items, now) != [] ==> PendingIn(items, DueIds(items, now)[0])
  {
    DueIdsSpec(items, now);
    var due := DueIds(items, now);
    if it :| it in items && it.status != Failed {
      var k :| 0 <= k < |items| && items[k] == it;
      assert DueAt(items[k], now);
      assert DueIn(items, now, items[k].outboxId);
    }
    if due != [] {
      assert DueIn(items, now, due[0]);
    }
  }

  lemma PickStarts(s: State, stamp: Token)
    requires s.phase.Sweeping? && s.phase.due != [] && DistinctIds(s.items) && PendingIn(s.items, s.phase.due[0])
    ensures DoPick(s, stamp).phase.InFlight?
  {
    PendingIsFound(s.items, s.phase.due[0]);
  }

  lemma SweepStarts(s: State, now: int, stamp: Token)
    requires Queue(s.items)
    requires forall it :: it in s.items ==> it.status != Processing && it.nextRetryAt <= now
    ensures var due := DueIds(s.items, now);
            && (due == [] <==> !exists it :: it in s.items && it.status != Failed)
            && (due != [] ==> DoPick(s.(phase := Sweeping(due)), stamp).phase.InFlight?)
  {
    SomethingDue(s.items, now);
    var due := DueIds(s.items, now);
    if due != [] {
      PickStarts(s.(phase := Sweeping(due)), stamp);
    }
  }

  /** A sweep after all retry times finds nothing due only if every item has failed. */
  lemma OnceStarts(c: Config, s: State, now: int, stamp: Token)
    requires Inv(s) && s.phase.Idle? && forall it :: it in s.items ==> it.nextRetryAt <= now
    ensures Inv(s.(phase := Sweeping(DueIds(s.items, now))))
    ensures DueIds(s.items, now) == [] ==> forall it :: it in s.items ==> it.status == Failed
  {
    hide Ids, WithoutAll, PendingIn, AllPending, NoRepeats, DistinctIds, DueIds;
    SweepStarts(s, now, stamp);
    SweepKeeps(c, s, now);
  }

  lemma EndKeeps(s: State)
    requires Inv(s) && s.phase == Sweeping([])
    ensures Inv(s.(phase := Idle))
  {
    hide Ids, WithoutAll, PendingIn, NoRepeats, DistinctIds, AttemptsOk;
  }

  /** As long as an item is pending, a sweep after its retry time starts a remote
      call; when none starts, every item left has failed for good. */
  lemma SweepMakesProgress(c: Config, schedule: seq<Action>, now: int, stamp: Token)
    requires ValidConfig(c)
    requires var s := Run(c, EMPTY, schedule);
             s.phase.Idle? && forall it :: it in s.items ==> it.nextRetryAt <= now
    ensures var s := Run(c, EMPTY, schedule);
            var t := Step(c, Step(c, s, Sweep(now)), Pick(stamp));
            t.phase.InFlight? <==> exists it :: it in s.items && it.status != Failed
  {
    hide Run, DoPick, DueIds, Queue;
    Reachable(c, schedule);
    SweepStarts(Run(c, EMPTY, schedule), now, stamp);
  }
}

/** The gateway's outbox, one method per lock section. */
module Outbox {
  import opened Options
  import opened Lists
  import opened OutboxModel
  import opened OutboxProtocol

  lemma PickStep(s: State, stamp: Token)
    requires Inv(s) && s.phase.Sweeping? && s.phase.due != []
    ensures var t := DoPick(s, stamp);
            && Inv(t) && t.phase.InFlight? && t.phase.due == s.phase.due[1..] && t.enqueued == s.enqueued
            && Remaining(t.items) <= Remaining(s.items)
            && (AllInStep(s.items) ==> AllInStep(t.items))
  {
    PickKeeps(s, stamp);
    PickStarts(s, stamp);
    PickSpendsNothing(s, stamp);
    FirstIsPending(s);
    var k := IndexOf(s.items, s.phase.due[0]);
    if AllInStep(s.items) {
      UpdateInStep(s.items, k, MarkProcessing(s.items[k], stamp));
    }
  }

  lemma AnswerStep(c: Config, s: State, answer: SyncResult, now: int, stamp: Token)
    requires ValidConfig(c) && Inv(s) && s.phase.InFlight?
    ensures var t := DoAnswer(c, s, answer, now, stamp);
            && Inv(t.(file := t.items)) && t.phase == Sweeping(s.phase.due) && t.enqueued == s.enqueued
            && Remaining(t.items) < Remaining(s.items)
            && (AllInStep(s.items) ==> AllInStep(t.items))
            && s.phase.index < |s.items|
  {
    StepKeeps(c, s, Answer(answer, now, stamp));
    AnswerSpendsAttempt(c, s, Answer(answer, now, stamp));
    if AllInStep(s.items) {
      AnswerInStep(c, s, answer, now, stamp);
    }
  }

  function LatestRetry(items: seq<Item>): (now: int)
    ensures forall it :: it in items ==> it.nextRetryAt <= now
  {
    if items == [] then 0
    else
      var rest := LatestRetry(items[1..]);
      assert items == [items[0]] + items[1..];
      if items[0].nextRetryAt > rest then items[0].nextRetryAt else rest
  }

  class KnowledgeOutbox {
    const config: Config
    var items: seq<Item>
    var file: seq<RawItem>
    var copies: seq<seq<Item>>
    var phase: Phase
    ghost var persisted: seq<Item>
    ghost var enqueued: seq<string>
    ghost var synced: set<string>

    ghost function Abs(): State
      reads this
    {
      State(items, persisted, copies, phase, enqueued, synced)
    }

    ghost predicate Valid()
      reads this
    {
      ValidConfig(config) && file == DumpAll(persisted)
    }

    constructor (config: Config)
      requires ValidConfig(config)
      ensures Valid() && this.config == config && Abs() == EMPTY
    {
      this.config := config;
      items, file, copies, phase := [], [], [], Idle;
      persisted, enqueued, synced := [], [], {};
    }

    function CaseId(casePayload: map<string, string>): Trimmed {
      AsStr(if "id" in casePayload then Some(casePayload["id"]) else None, "")
    }

    /** The first half of `_persist_outbox_items`, under the lock. */
    method CopyItems()
      modifies `copies
      ensures Abs() == Step(config, old(Abs()), Copy)
    {
      copies := copies + [items];
    }

    /** The second half, for the n-th writer: the shared items are written as they are
        found meanwhile, `content`. */
    method DumpItems(n: nat, content: seq<Item>)
      requires Valid() && n < |copies| && PossibleDump(copies[n], content)
      modifies `file, `persisted, `copies
      ensures Valid()
      ensures Abs() == Step(config, old(Abs()), Write(n, content))
    {
      file := DumpAll(content);
      persisted := content;
      copies := copies[..n] + copies[n + 1..];
    }

    /** Both halves with nobody in between. */
    method PersistOutboxItems()
      requires Valid()
      modifies `file, `persisted, `copies
      ensures Valid()
      ensures Abs() == old(Abs()).(file := items)
    {
      ghost var before := copies;
      CopyItems();
      DumpItems(|copies| - 1, items);
      assert copies == before;
    }

    /** Rejects a payload without a case id; otherwise appends and writes the file. */
    method EnqueueRemoteSync(casePayload: map<string, string>, newId: Token, now: int, stamp: Token)
      returns (outboxId: Option<Token>)
      requires Valid() && newId !in enqueued
      modifies `items, `enqueued, `file, `persisted, `copies
      ensures Valid()
      ensures CaseId(casePayload) == "" ==> outboxId == None && Abs() == old(Abs())
      ensures CaseId(casePayload) != "" ==>
                && |casePayload| > 0
                && outboxId == Some(newId)
                && var enqueue := Enqueue(newId, CaseId(casePayload), casePayload, now, stamp);
                   Abs() == Step(config, old(Abs()), enqueue).(file := items)
    {
      var caseId := CaseId(casePayload);
      if caseId == "" {
        return None;
      }
      assert "id" in casePayload.Keys;
      items := items + [NewItem(config, newId, caseId, casePayload, now, stamp)];
      enqueued := enqueued + [newId];
      PersistOutboxItems();
      outboxId := Some(newId);
    }

    /** The start of `process_outbox_once`. */
    method CollectDue(now: int)
      requires Valid() && phase.Idle?
      modifies `phase
      ensures Abs() == old(Abs()).(phase := Sweeping(DueIds(items, now)))
    {
      var due := [];
      for i := 0 to |items|
        invariant due + DueIds(items[i..], now) == DueIds(items, now)
      {
        assert items[i..][1..] == items[i + 1..];
        if items[i].status == Pending && items[i].nextRetryAt <= now {
          due := due + [items[i].outboxId];
        }
      }
      assert items[|items|..] == [] && due + [] == due;
      phase := Sweeping(due);
    }

    /** The first lock section of `_process_outbox_item`. */
    method BeginItem(stamp: Token)
      requires Valid() && phase.Sweeping? && phase.due != []
      modifies `items, `phase
      ensures Abs() == DoPick(old(Abs()), stamp)
    {
      var id, due := phase.due[0], phase.due[1..];
      var index := 0;
      while index < |items| && items[index].outboxId != id
        invariant 0 <= index <= |items|
        invariant forall j :: 0 <= j < index ==> items[j].outboxId != id
      {
        index := index + 1;
      }
      if index == |items| {
        phase := Sweeping(due);
      } else {
        var snapshot := items[index];
        items := items[index := MarkProcessing(snapshot, stamp)];
        phase := InFlight(id, index, snapshot, due);
      }
    }

    method KeepOthers(id: string) returns (kept: seq<Item>)
      ensures kept == RemoveId(items, id)
    {
      kept := [];
      for i := 0 to |items|
        invariant kept + RemoveId(items[i..], id) == RemoveId(items, id)
      {
        assert items[i..][1..] == items[i + 1..];
        if items[i].outboxId != id {
          kept := kept + [items[i]];
        }
      }
    }

    /** The rest of `_process_outbox_item`, once the remote side has answered. */
    method FinishItem(result: SyncResult, now: int, stamp: Token) returns (done: bool)
      requires Valid() && phase.InFlight?
      modifies `items, `phase, `synced, `file, `persisted, `copies
      ensures Valid()
      ensures done <==> result.synced || old(phase.index) < |old(items)|
      ensures var answered := DoAnswer(config, old(Abs()), result, now, stamp);
              Abs() == if done then answered.(file := answered.items) else answered
      ensures !result.synced && old(phase.index) < |old(items)| ==>
                var k, snapshot := old(phase.index), old(phase.snapshot);
                var failures := snapshot.attempts + 1;
                items == old(items)[k := old(items)[k].(
                  attempts := failures,
                  status := if failures < snapshot.maxAttempts then Pending else Failed,
                  nextRetryAt := now + RetryDelay(config, failures),
                  lastError := result.error, lastErrorCode := result.errorCode, lastResult := Some(result),
                  updatedAt := stamp)]
    {
      hide Backoff, RetryDelay, AfterFailure, DumpAll;
      if phase.index < |items| {
        FailureWrites(config, items[phase.index], phase.snapshot, result, now, stamp);
      }
      var InFlight(id, index, snapshot, due) := phase;
      phase := Sweeping(due);
      if result.synced {
        items := KeepOthers(id);
        synced := synced + {id};
      } else {
        if index >= |items| {
          return false;
        }
        items := items[index := AfterFailure(config, items[index], snapshot, result, now, stamp)];
      }
      PersistOutboxItems();
      done := true;
    }

    method Normalize(now: int, stamp: Token) returns (normalized: seq<Item>)
      ensures normalized == Load(config, file, now, stamp)
    {
      hide LoadOne;
      normalized := [];
      for i := 0 to |file|
        invariant normalized + Load(config, file[i..], now, stamp) == Load(config, file, now, stamp)
      {
        assert file[i..][1..] == file[i + 1..];
        var loaded := LoadOne(config, file[i], now, stamp);
        if loaded.Some? {
          normalized := normalized + [loaded.value];
        }
      }
      assert file[|file|..] == [] && normalized + [] == normalized;
    }

    /** What a new process reads from the file. */
    method LoadOutboxItems(now: int, stamp: Token)
      requires Valid()
      modifies `items, `copies, `phase, `enqueued, `synced
      ensures Valid()
      ensures Abs() == DoRestart(config, old(Abs()), now, stamp)
    {
      items := Normalize(now, stamp);
      copies, phase := [], Idle;
      enqueued, synced := Ids(items), {};
    }

    method GetOutboxStatus() returns (total: nat, pending: nat, failed: nat, processing: nat)
      ensures total == |items|
      ensures pending == CountStatus(items, Pending)
      ensures failed == CountStatus(items, Failed)
      ensures processing == CountStatus(items, Processing)
    {
      total, pending, failed, processing := |items|, 0, 0, 0;
      for i := 0 to |items|
        invariant pending + CountStatus(items[i..], Pending) == CountStatus(items, Pending)
        invariant failed + CountStatus(items[i..], Failed) == CountStatus(items, Failed)
        invariant processing + CountStatus(items[i..], Processing) == CountStatus(items, Processing)
      {
        assert items[i..][1..] == items[i + 1..];
        match items[i].status {
          case Pending => pending := pending + 1;
          case Processing => processing := processing + 1;
          case Failed => failed := failed + 1;
        }
      }
    }

    /** `_process_outbox_item` with nobody else at the queue. */
    method ProcessItem(answer: SyncResult, now: int, stamp: Token)
      requires Valid() && Inv(Abs()) && phase.Sweeping? && phase.due != []
      modifies this
      ensures Valid() && Inv(Abs()) && phase == Sweeping(old(phase.due)[1..])
      ensures enqueued == old(enqueued)
      ensures Remaining(items) < old(Remaining(items))
      ensures old(AllInStep(items)) ==> AllInStep(items)
    {
      hide DoPick, DoAnswer, FlightOk, Conserved, DueOk, Queue, Remaining, AllInStep, DumpAll;
      PickStep(Abs(), stamp);
      BeginItem(stamp);
      AnswerStep(config, Abs(), answer, now, stamp);
      var _ := FinishItem(answer, now, stamp);
    }

    /** One pass over the due items. */
    method SweepDue(remote: nat -> SyncResult, first: nat, now: int, stamp: Token) returns (asked: nat)
      requires Valid() && Inv(Abs()) && phase.Sweeping? && phase.due != []
      modifies this
      ensures Valid() && Inv(Abs()) && phase == Sweeping([])
      ensures enqueued == old(enqueued)
      ensures Remaining(items) < old(Remaining(items))
      ensures old(AllInStep(items)) ==> AllInStep(items)
    {
      asked := first;
      while phase.due != []
        invariant Valid() && Inv(Abs()) && phase.Sweeping? && enqueued == old(enqueued)
        invariant Remaining(items) <= old(Remaining(items))
        invariant old(AllInStep(items)) ==> AllInStep(items)
        invariant phase.due == [] ==> Remaining(items) < old(Remaining(items))
        decreases |phase.due|
      {
        ProcessItem(remote(asked), now, stamp);
        asked := asked + 1;
      }
    }

    /** `process_outbox_once` when the last retry time has come; `idle` if nothing is due,
        and then every item has failed for good. */
    method ProcessOutboxOnce(remote: nat -> SyncResult, first: nat, stamp: Token) returns (asked: nat, idle: bool)
      requires Valid() && Inv(Abs()) && phase.Idle?
      modifies this
      ensures Valid() && Inv(Abs()) && phase.Idle? && enqueued == old(enqueued)
      ensures old(AllInStep(items)) ==> AllInStep(items)
      ensures idle ==> forall it :: it in items ==> it.status == Failed
      ensures !idle ==> Remaining(items) < old(Remaining(items))
    {
      hide Remaining, DueIds, DumpAll, AllInStep, Inv;
      var now := LatestRetry(items);
      OnceStarts(config, Abs(), now, stamp);
      CollectDue(now);
      idle := phase.due == [];
      asked := first;
      if !idle {
        asked := SweepDue(remote, asked, now, stamp);
      }
      EndKeeps(Abs());
      phase := Idle;
    }

    /** The worker on a queue that gets no new items, each sweep made when the last
        retry time has come. `remote(n)` is the n-th remote answer, whatever it is.
        The worker gets to a point where everything was removed by its own "synced"
        answer or has used up its attempts. */
    method WorkOff(remote: nat -> SyncResult, stamp: Token)
      requires Valid() && Inv(Abs()) && phase.Idle?
      modifies this
      ensures Valid() && Inv(Abs()) && phase.Idle?
      ensures enqueued == old(enqueued)
      ensures forall it :: it in items ==> it.status == Failed && it.attempts >= it.maxAttempts
      ensures old(AllInStep(items)) ==> forall it :: it in items ==> it.attempts == it.maxAttempts
      ensures forall id :: id in enqueued ==> id in synced || id in Ids(items)
    {
      hide Remaining, Ids, WithoutAll, FlightOk, DueOk, NoRepeats, DistinctIds, DumpAll;
      var asked, idle := 0, false;
      while !idle
        invariant Valid() && Inv(Abs()) && phase.Idle? && enqueued == old(enqueued)
        invariant old(AllInStep(items)) ==> AllInStep(items)
        invariant idle ==> forall it :: it in items ==> it.status == Failed
        decreases !idle, Remaining(items)
      {
        asked, idle := ProcessOutboxOnce(remote, asked, stamp);
      }
      WithoutMembers(enqueued, synced);
      assert forall it :: it in items ==> AttemptsOk(it);
    }
  }
}
