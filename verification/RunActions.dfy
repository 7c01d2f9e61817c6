/** The actions of a run, as its event log tells them. */
module RunActionsModel {
  import opened Options
  import opened Lists
  import opened Text
  import opened TextOrder
  import opened Sorting

  datatype Kind =
    | Started | Finished | SkippedDuplicate
    | ApprovalRequired | ApprovalResolved | WaitingApproval
    | WaitingUserInput | SpecValidated | PreflightFailed | Retrying

  /** What an event may carry; absent text is empty, except for a status, where the two differ. */
  datatype Payload = Payload(
    actionId: string, toolCallId: string, approvalId: string, commandRunId: string, confirmationTicket: string,
    command: string, purpose: string, title: string, status: Option<string>, decision: string,
    targetKind: string, targetIdentity: string, executorProfile: string, approvalPolicy: string,
    reasonCode: string, evidenceSlotId: string, evidenceOutcome: string, evidenceReuse: bool,
    reusedEvidenceIds: seq<string>, evidenceSlotIdsFilled: seq<string>, infoGainScore: Option<real>,
    errorCode: string, message: string, attempt: int, maxAttempts: int,
    exitCode: int, durationMs: int, timedOut: bool)

  datatype Event = Event(eventType: string, number: int, createdAt: string, payload: Payload)

  datatype Call = Call(toolCallId: string, commandRunId: string)

  datatype Wording = Wording(command: string, purpose: string, title: string)

  datatype Target = Target(kind: string, identity: string, executorProfile: string, approvalPolicy: string)

  datatype Evidence = Evidence(
    slotId: string, outcome: string, reuse: bool, reusedIds: seq<string>, slotIdsFilled: seq<string>,
    infoGainScore: real)

  datatype Failure = Failure(errorCode: string, message: string)

  datatype Retry = Retry(attempt: int, maxAttempts: int)

  datatype CallResult = CallResult(exitCode: int, durationMs: int, timedOut: bool)

  /** A record; the fields set together are grouped. */
  datatype Action = Action(
    actionId: string, runId: string, status: string, call: Call, wording: Wording, target: Target,
    reasonCode: string, evidence: Evidence, createdAt: string, updatedAt: string,
    approvalId: Option<string>, failure: Option<Failure>, retry: Option<Retry>, result: Option<CallResult>)

  /** Only these event types concern actions. */
  function KindOf(eventType: string): Option<Kind> {
    var name := Lower(Strip(eventType));
    if name == "tool_call_started" then Some(Started)
    else if name == "tool_call_finished" then Some(Finished)
    else if name == "tool_call_skipped_duplicate" then Some(SkippedDuplicate)
    else if name == "approval_required" then Some(ApprovalRequired)
    else if name == "approval_resolved" then Some(ApprovalResolved)
    else if name == "action_waiting_approval" then Some(WaitingApproval)
    else if name == "action_waiting_user_input" then Some(WaitingUserInput)
    else if name == "action_spec_validated" then Some(SpecValidated)
    else if name == "action_preflight_failed" then Some(PreflightFailed)
    else if name == "action_execution_retrying" then Some(Retrying)
    else None
  }

  function IntText(n: int): string {
    if n < 0 then "-" + Decimal(-n) else Decimal(n)
  }

  function ActionKey(p: Payload, number: int): string {
    Or(Strip(p.actionId),
       Or(Strip(p.toolCallId),
          Or(Strip(p.approvalId),
             Or(Strip(p.commandRunId), "seq-" + IntText(number)))))
  }

  predicate Blank(s: string) {
    Strip(s) == ""
  }

  /** As the source decides it, from the text of the key. */
  predicate Skipped(p: Payload, number: int) {
    && StartsWith(ActionKey(p, number), "seq-")
    && Blank(p.command) && Blank(p.title)
    && Blank(p.actionId) && Blank(p.toolCallId) && Blank(p.approvalId) && Blank(p.commandRunId)
  }

  predicate Retained(e: Event) {
    KindOf(e.eventType).Some? && !Skipped(e.payload, e.number)
  }

  function Key(e: Event): string {
    ActionKey(e.payload, e.number)
  }

  /** An action event is dropped exactly when it has no id, command or title; a key that
      happens to begin like a generated one does not matter. */
  lemma SkippedExactly(p: Payload, number: int)
    ensures Skipped(p, number) <==>
              && Blank(p.command) && Blank(p.title)
              && Blank(p.actionId) && Blank(p.toolCallId) && Blank(p.approvalId) && Blank(p.commandRunId)
    ensures var key := ActionKey(p, number);
            && key != ""
            && (!Blank(p.actionId) ==> key == Strip(p.actionId))
            && (Blank(p.actionId) && !Blank(p.toolCallId) ==> key == Strip(p.toolCallId))
            && (Blank(p.actionId) && Blank(p.toolCallId) && !Blank(p.approvalId) ==> key == Strip(p.approvalId))
            && (Blank(p.actionId) && Blank(p.toolCallId) && Blank(p.approvalId) ==>
                  key == if !Blank(p.commandRunId) then Strip(p.commandRunId)
                         else if number < 0 then "seq--" + Decimal(-number) else "seq-" + Decimal(number))
  {
    assert "seq-" <= "seq-" + IntText(number);
  }

  // ----- One event -----

  function NormalizeApprovalStatus(p: Payload): string {
    var decision := Lower(Strip(p.decision));
    if decision == "approved" || decision == "rejected" then decision else "resolved"
  }

  /** The status an event leaves its action in, whatever came before. */
  function StatusAfter(kind: Kind, p: Payload): string {
    match kind
    case Started => if p.status.Some? then p.status.value else "running"
    case Finished => if p.status.Some? then p.status.value else "completed"
    case SkippedDuplicate => if p.status.Some? then p.status.value else "skipped"
    case ApprovalRequired => "waiting_approval"
    case WaitingApproval => "waiting_approval"
    case WaitingUserInput => "waiting_user_input"
    case ApprovalResolved => NormalizeApprovalStatus(p)
    case SpecValidated => "validated"
    case PreflightFailed => "failed"
    case Retrying => "running"
  }

  /** Text fields that keep the last nonempty value given. */
  datatype Field =
    | ToolCallId | CommandRunId | Command | Purpose | Title
    | TargetKind | TargetIdentity | ExecutorProfile | ApprovalPolicy
    | ReasonCode | EvidenceSlotId | EvidenceOutcome | UpdatedAt

  predicate IsToolCall(kind: Kind) {
    kind.Started? || kind.Finished? || kind.SkippedDuplicate?
  }

  predicate IsWaiting(kind: Kind) {
    kind.ApprovalRequired? || kind.WaitingApproval?
  }

  /** Events of a tool call carry most fields; the others only some. */
  predicate Carries(kind: Kind, f: Field) {
    match f
    case UpdatedAt => true
    case Command => !kind.ApprovalResolved?
    case Title => !kind.ApprovalResolved?
    case Purpose => !kind.ApprovalResolved? && !kind.SpecValidated?
    case TargetKind => IsToolCall(kind) || IsWaiting(kind)
    case TargetIdentity => IsToolCall(kind) || IsWaiting(kind)
    case ExecutorProfile => IsToolCall(kind) || IsWaiting(kind)
    case ApprovalPolicy => IsToolCall(kind) || IsWaiting(kind)
    case ReasonCode => kind.Finished? || kind.SkippedDuplicate?
    case ToolCallId => IsToolCall(kind)
    case CommandRunId => IsToolCall(kind)
    case EvidenceSlotId => IsToolCall(kind)
    case EvidenceOutcome => IsToolCall(kind)
  }

  /** The text an event gives a field. */
  function Given(kind: Kind, e: Event, f: Field): string {
    var p := e.payload;
    match f
    case ToolCallId => p.toolCallId
    case CommandRunId => p.commandRunId
    case Command => p.command
    case Purpose => p.purpose
    case Title => p.title
    case TargetKind => p.targetKind
    case TargetIdentity => p.targetIdentity
    case ExecutorProfile => p.executorProfile
    case ApprovalPolicy => p.approvalPolicy
    case ReasonCode => Lower(Strip(p.reasonCode))
    case EvidenceSlotId => p.evidenceSlotId
    case EvidenceOutcome =>
      Or(p.evidenceOutcome, if kind.SkippedDuplicate? && p.evidenceReuse then "reused" else "")
    case UpdatedAt => e.createdAt
  }

  function TextOf(a: Action, f: Field): string {
    match f
    case ToolCallId => a.call.toolCallId
    case CommandRunId => a.call.commandRunId
    case Command => a.wording.command
    case Purpose => a.wording.purpose
    case Title => a.wording.title
    case TargetKind => a.target.kind
    case TargetIdentity => a.target.identity
    case ExecutorProfile => a.target.executorProfile
    case ApprovalPolicy => a.target.approvalPolicy
    case ReasonCode => a.reasonCode
    case EvidenceSlotId => a.evidence.slotId
    case EvidenceOutcome => a.evidence.outcome
    case UpdatedAt => a.updatedAt
  }

  /** What an event puts into a field; the first event of an action fills every field it
      has a value for. */
  function Offered(e: Event, f: Field, first: bool): string
    requires KindOf(e.eventType).Some?
  {
    var kind := KindOf(e.eventType).value;
    if first || Carries(kind, f) then Given(kind, e, f) else ""
  }

  /** Reuse, score and id lists come with tool calls. */
  predicate OffersEvidence(e: Event, first: bool)
    requires KindOf(e.eventType).Some?
  {
    first || IsToolCall(KindOf(e.eventType).value)
  }

  function InitialStatus(kind: Kind, p: Payload): string {
    if kind.ApprovalResolved? then p.decision else StatusAfter(kind, p)
  }

  /** A new record, from the event that brings its key up. */
  function Created(runId: string, key: string, e: Event): Action
    requires KindOf(e.eventType).Some?
  {
    var p := e.payload;
    Action(
      Or(p.actionId, key), runId, InitialStatus(KindOf(e.eventType).value, p),
      Call(p.toolCallId, p.commandRunId),
      Wording(p.command, p.purpose, p.title),
      Target(p.targetKind, p.targetIdentity, p.executorProfile, p.approvalPolicy),
      Lower(Strip(p.reasonCode)),
      Evidence(p.evidenceSlotId, p.evidenceOutcome, p.evidenceReuse, p.reusedEvidenceIds, p.evidenceSlotIdsFilled,
               if p.infoGainScore.Some? then p.infoGainScore.value else 0.0),
      e.createdAt, e.createdAt, None, None, None, None)
  }

  function UpdateCall(c: Call, e: Event): Call
    requires KindOf(e.eventType).Some?
  {
    Call(Or(Offered(e, ToolCallId, false), c.toolCallId), Or(Offered(e, CommandRunId, false), c.commandRunId))
  }

  function UpdateWording(w: Wording, e: Event): Wording
    requires KindOf(e.eventType).Some?
  {
    Wording(Or(Offered(e, Command, false), w.command),
            Or(Offered(e, Purpose, false), w.purpose),
            Or(Offered(e, Title, false), w.title))
  }

  function UpdateTarget(t: Target, e: Event): Target
    requires KindOf(e.eventType).Some?
  {
    Target(Or(Offered(e, TargetKind, false), t.kind),
           Or(Offered(e, TargetIdentity, false), t.identity),
           Or(Offered(e, ExecutorProfile, false), t.executorProfile),
           Or(Offered(e, ApprovalPolicy, false), t.approvalPolicy))
  }

  function UpdateEvidence(v: Evidence, e: Event): Evidence
    requires KindOf(e.eventType).Some?
  {
    var p, evidence := e.payload, OffersEvidence(e, false);
    Evidence(
      Or(Offered(e, EvidenceSlotId, false), v.slotId),
      Or(Offered(e, EvidenceOutcome, false), v.outcome),
      (evidence && p.evidenceReuse) || v.reuse,
      if evidence then Or(p.reusedEvidenceIds, v.reusedIds) else v.reusedIds,
      if evidence then Or(p.evidenceSlotIdsFilled, v.slotIdsFilled) else v.slotIdsFilled,
      if evidence && p.infoGainScore.Some? then p.infoGainScore.value else v.infoGainScore)
  }

  function OrEmpty(s: Option<string>): string {
    if s.Some? then s.value else ""
  }

  function UpdateApproval(id: Option<string>, e: Event): Option<string>
    requires KindOf(e.eventType).Some?
  {
    var kind, p := KindOf(e.eventType).value, e.payload;
    if IsWaiting(kind) then Some(Or(p.approvalId, p.confirmationTicket))
    else if kind.ApprovalResolved? then Some(Or(p.approvalId, OrEmpty(id)))
    else id
  }

  /** A record after an event, field by field. */
  function Update(a: Action, e: Event): Action
    requires KindOf(e.eventType).Some?
  {
    var kind, p := KindOf(e.eventType).value, e.payload;
    Action(
      a.actionId, a.runId, StatusAfter(kind, p),
      UpdateCall(a.call, e), UpdateWording(a.wording, e), UpdateTarget(a.target, e),
      Or(Offered(e, ReasonCode, false), a.reasonCode),
      UpdateEvidence(a.evidence, e), a.createdAt,
      Or(Offered(e, UpdatedAt, false), a.updatedAt),
      UpdateApproval(a.approvalId, e),
      if kind.PreflightFailed? then Some(Failure(p.errorCode, p.message)) else a.failure,
      if kind.Retrying? then Some(Retry(p.attempt, p.maxAttempts)) else a.retry,
      if kind.Finished? then Some(CallResult(p.exitCode, p.durationMs, p.timedOut)) else a.result)
  }

  /** The record of a key after its next event; `prior` is None before its first. */
  function Apply(runId: string, key: string, prior: Option<Action>, e: Event): Action
    requires KindOf(e.eventType).Some?
  {
    Update(if prior.Some? then prior.value else Created(runId, key, e), e)
  }

  // ----- A whole log -----

  /** Records by key, and the keys in the order they were put in. */
  datatype Records = Records(order: seq<string>, byKey: map<string, Action>)

  function Next(runId: string, before: Records, e: Event): Records {
    if !Retained(e) then before
    else
      var key := Key(e);
      var prior := if key in before.byKey then Some(before.byKey[key]) else None;
      Records(if key in before.byKey then before.order else before.order + [key],
              before.byKey[key := Apply(runId, key, prior, e)])
  }

  function Extract(runId: string, events: seq<Event>): Records {
    if events == [] then Records([], map[])
    else Next(runId, Extract(runId, events[..|events| - 1]), events[|events| - 1])
  }

  /** The events of one key, in order. */
  function Only(events: seq<Event>, key: string): seq<Event> {
    if events == [] then []
    else
      var e := events[|events| - 1];
      var before := Only(events[..|events| - 1], key);
      if Retained(e) && Key(e) == key then before + [e] else before
  }

  ghost predicate AllKnown(own: seq<Event>) {
    forall k :: 0 <= k < |own| ==> KindOf(own[k].eventType).Some?
  }

  /** The record of a key from a log of nothing but its own events. */
  function One(runId: string, key: string, own: seq<Event>): Option<Action>
    requires AllKnown(own)
  {
    if own == [] then None
    else Some(Apply(runId, key, One(runId, key, own[..|own| - 1]), own[|own| - 1]))
  }

  lemma {:induction false} OnlyKnown(events: seq<Event>, key: string)
    ensures AllKnown(Only(events, key))
    ensures forall k :: 0 <= k < |Only(events, key)| ==>
              Retained(Only(events, key)[k]) && Key(Only(events, key)[k]) == key
    decreases |events|
  {
    hide KindOf, Key, Skipped;
    if events != [] {
      OnlyKnown(events[..|events| - 1], key);
    }
  }

  /** Other keys' events make no difference: the record of a key is the record a log of
      its own events would give, and there is one exactly if it has any. */
  lemma {:induction false} RecordIsItsOwn(runId: string, events: seq<Event>, key: string)
    ensures AllKnown(Only(events, key))
    ensures var all := Extract(runId, events);
            One(runId, key, Only(events, key)) == if key in all.byKey then Some(all.byKey[key]) else None
    decreases |events|
  {
    hide KindOf, Key, Skipped, Apply;
    OnlyKnown(events, key);
    if events != [] {
      var init, e := events[..|events| - 1], events[|events| - 1];
      RecordIsItsOwn(runId, init, key);
      if Retained(e) && Key(e) == key {
        var own := Only(events, key);
        assert own[..|own| - 1] == Only(init, key) && own[|own| - 1] == e;
      }
    }
  }

  /** The position of the first retained event with this key, or the length. */
  function FirstAt(events: seq<Event>, key: string): nat {
    if events == [] then 0
    else if Retained(events[0]) && Key(events[0]) == key then 0
    else 1 + FirstAt(events[1..], key)
  }

  lemma {:induction false} FirstAtExtends(events: seq<Event>, e: Event, key: string)
    ensures FirstAt(events, key) <= |events|
    ensures FirstAt(events + [e], key) ==
              if FirstAt(events, key) < |events| || (Retained(e) && Key(e) == key)
              then FirstAt(events, key) else |events| + 1
    decreases |events|
  {
    hide Retained, Key;
    if events == [] {
      assert (events + [e])[1..] == [];
    } else {
      FirstAtExtends(events[1..], e, key);
      assert (events + [e])[1..] == events[1..] + [e];
    }
  }

  lemma FirstAtNext(events: seq<Event>, key: string)
    requires events != []
    ensures var init, e := events[..|events| - 1], events[|events| - 1];
            var at := FirstAt(init, key);
            && at <= |init|
            && FirstAt(events, key) == if at < |init| || (Retained(e) && Key(e) == key) then at else |events|
  {
    assert events == events[..|events| - 1] + [events[|events| - 1]];
    FirstAtExtends(events[..|events| - 1], events[|events| - 1], key);
  }

  /** Exactly the keys of retained events have a record. */
  lemma {:induction false} KeysAreThoseSeen(runId: string, events: seq<Event>, key: string)
    ensures key in Extract(runId, events).byKey <==> FirstAt(events, key) < |events|
    decreases |events|
  {
    hide Retained, Key, Apply;
    if events != [] {
      KeysAreThoseSeen(runId, events[..|events| - 1], key);
      hide FirstAt;
      FirstAtNext(events, key);
    }
  }

  /** The keys of the records, each once. */
  ghost predicate Listed(all: Records) {
    && (forall k :: 0 <= k < |all.order| ==> all.order[k] in all.byKey)
    && (forall key :: key in all.byKey ==> key in all.order)
  }

  lemma {:induction false} ExtractListed(runId: string, events: seq<Event>)
    ensures Listed(Extract(runId, events))
    decreases |events|
  {
    hide Retained, Key, Apply;
    if events != [] {
      ExtractListed(runId, events[..|events| - 1]);
    }
  }

  /** The keys are in the order in which they first appear in the log. */
  ghost predicate ByFirst(events: seq<Event>, order: seq<string>) {
    forall a, b :: 0 <= a < b < |order| ==> FirstAt(events, order[a]) < FirstAt(events, order[b])
  }

  lemma {:induction false} OrderedByFirst(runId: string, events: seq<Event>)
    ensures ByFirst(events, Extract(runId, events).order)
    decreases |events|
  {
    hide Retained, Key, Apply, FirstAt;
    if events != [] {
      var init := events[..|events| - 1];
      OrderedByFirst(runId, init);
      ExtractListed(runId, init);
      var order, before := Extract(runId, events).order, Extract(runId, init).order;
      forall k | 0 <= k < |before|
        ensures FirstAt(events, before[k]) == FirstAt(init, before[k]) < |init|
      {
        KeysAreThoseSeen(runId, init, before[k]);
        FirstAtNext(events, before[k]);
      }
      if order != before {
        var key := order[|before|];
        KeysAreThoseSeen(runId, init, key);
        FirstAtNext(events, key);
      }
      hide Extract;
    }
  }

  // ----- What a record says -----

  function LastNonEmpty<T(==)>(s: seq<seq<T>>): seq<T> {
    if s == [] then [] else Or(s[|s| - 1], LastNonEmpty(s[..|s| - 1]))
  }

  /** What the events of one key offer a field, one after the other. */
  function Offers(own: seq<Event>, f: Field): seq<string>
    requires AllKnown(own)
  {
    seq(|own|, k requires 0 <= k < |own| => Offered(own[k], f, k == 0))
  }

  lemma UpdateText(a: Action, e: Event, f: Field)
    requires KindOf(e.eventType).Some?
    ensures TextOf(Update(a, e), f) == Or(Offered(e, f, false), TextOf(a, f))
  {
    hide KindOf, Given, Carries;
  }

  lemma CreatedText(runId: string, key: string, e: Event, f: Field)
    requires KindOf(e.eventType).Some?
    ensures Or(Offered(e, f, false), TextOf(Created(runId, key, e), f)) == Offered(e, f, true)
  {
    hide KindOf, Strip, Lower;
    match f {
      case EvidenceOutcome =>
      case ReasonCode =>
      case _ =>
    }
  }

  lemma ApplyText(runId: string, key: string, prior: Option<Action>, e: Event, f: Field)
    requires KindOf(e.eventType).Some?
    ensures TextOf(Apply(runId, key, prior, e), f)
         == Or(Offered(e, f, prior == None), if prior.Some? then TextOf(prior.value, f) else "")
  {
    hide KindOf, Given, Carries, Created, Update, TextOf, Offered;
    if prior.Some? {
      UpdateText(prior.value, e, f);
    } else {
      UpdateText(Created(runId, key, e), e, f);
      CreatedText(runId, key, e, f);
    }
  }

  /** The kind of an event, told from the name of its type. */
  lemma KindByText(e: Event)
    ensures var name, kind := Lower(Strip(e.eventType)), KindOf(e.eventType);
            && (kind == Some(Started) <==> name == "tool_call_started")
            && (kind == Some(Finished) <==> name == "tool_call_finished")
            && (kind == Some(SkippedDuplicate) <==> name == "tool_call_skipped_duplicate")
            && (kind == Some(ApprovalRequired) <==> name == "approval_required")
            && (kind == Some(ApprovalResolved) <==> name == "approval_resolved")
            && (kind == Some(WaitingApproval) <==> name == "action_waiting_approval")
            && (kind == Some(WaitingUserInput) <==> name == "action_waiting_user_input")
            && (kind == Some(SpecValidated) <==> name == "action_spec_validated")
            && (kind == Some(PreflightFailed) <==> name == "action_preflight_failed")
            && (kind == Some(Retrying) <==> name == "action_execution_retrying")
  {
    hide Lower, Strip;
  }

  lemma StatusByText(e: Event)
    requires KindOf(e.eventType).Some?
    ensures var name, p := Lower(Strip(e.eventType)), e.payload;
            StatusAfter(KindOf(e.eventType).value, p) ==
            if name == "approval_resolved" then
              if Lower(Strip(p.decision)) in {"approved", "rejected"} then Lower(Strip(p.decision)) else "resolved"
            else if name in {"approval_required", "action_waiting_approval"} then "waiting_approval"
            else if name == "action_waiting_user_input" then "waiting_user_input"
            else if name == "action_spec_validated" then "validated"
            else if name == "action_preflight_failed" then "failed"
            else if name == "action_execution_retrying" then "running"
            else if p.status.Some? then p.status.value
            else if name == "tool_call_started" then "running"
            else if name == "tool_call_finished" then "completed"
            else "skipped"
  {
    hide Lower, Strip, KindOf;
    KindByText(e);
  }

  /** The status of an action is told by its last event's type and payload; its identity and
      creation time come from its first. */
  lemma {:induction false} RecordMeaning(runId: string, key: string, own: seq<Event>)
    requires AllKnown(own) && own != []
    ensures var a, last := One(runId, key, own).value, own[|own| - 1];
            var name, p := Lower(Strip(last.eventType)), last.payload;
            && a.status == (
               if name == "approval_resolved" then
                 if Lower(Strip(p.decision)) in {"approved", "rejected"} then Lower(Strip(p.decision)) else "resolved"
               else if name in {"approval_required", "action_waiting_approval"} then "waiting_approval"
               else if name == "action_waiting_user_input" then "waiting_user_input"
               else if name == "action_spec_validated" then "validated"
               else if name == "action_preflight_failed" then "failed"
               else if name == "action_execution_retrying" then "running"
               else if p.status.Some? then p.status.value
               else if name == "tool_call_started" then "running"
               else if name == "tool_call_finished" then "completed"
               else "skipped")
            && a.runId == runId
            && a.actionId == Or(own[0].payload.actionId, key)
            && a.createdAt == own[0].createdAt
    decreases |own|
  {
    hide KindOf, StatusAfter, Offered, Or, UpdateEvidence, UpdateTarget, UpdateWording, UpdateCall, UpdateApproval;
    hide Lower, Strip;
    StatusByText(own[|own| - 1]);
    var init := own[..|own| - 1];
    if init != [] {
      RecordMeaning(runId, key, init);
    }
  }

  /** Each text of a record is the last nonempty one offered: once a command, title or
      purpose is known it is never lost. */
  lemma {:induction false} TextIsLastOffered(runId: string, key: string, own: seq<Event>, f: Field)
    requires AllKnown(own) && own != []
    ensures TextOf(One(runId, key, own).value, f) == LastNonEmpty(Offers(own, f))
    decreases |own|
  {
    hide KindOf, TextOf, Offered, Apply, Or;
    var init, last := own[..|own| - 1], own[|own| - 1];
    ApplyText(runId, key, One(runId, key, init), last, f);
    assert Offers(own, f)[..|own| - 1] == Offers(init, f);
    if init == [] {
      assert Offers(init, f) == [];
    } else {
      TextIsLastOffered(runId, key, init, f);
    }
  }

  /** Evidence was reused if any event that offers evidence says so; that is never taken back. */
  ghost predicate AnyReuse(own: seq<Event>)
    requires AllKnown(own)
  {
    exists k :: 0 <= k < |own| && OffersEvidence(own[k], k == 0) && own[k].payload.evidenceReuse
  }

  lemma {:induction false} ReuseIsRemembered(runId: string, key: string, own: seq<Event>)
    requires AllKnown(own) && own != []
    ensures One(runId, key, own).value.evidence.reuse <==> AnyReuse(own)
    decreases |own|
  {
    hide KindOf, Given, Carries, StatusAfter, Offered;
    var n := |own| - 1;
    var init, last := own[..n], own[n];
    if init != [] {
      ReuseIsRemembered(runId, key, init);
      if AnyReuse(init) {
        var k :| 0 <= k < |init| && OffersEvidence(init[k], k == 0) && init[k].payload.evidenceReuse;
        assert OffersEvidence(own[k], k == 0);
      }
      if AnyReuse(own) {
        var k :| 0 <= k < |own| && OffersEvidence(own[k], k == 0) && own[k].payload.evidenceReuse;
        if k < n {
          assert init[k] == own[k];
          assert AnyReuse(init);
        }
      }
      assert AnyReuse(own) <==> AnyReuse(init) || (OffersEvidence(last, false) && last.payload.evidenceReuse);
    }
  }

  /** A longer log keeps every text that is already there, unless it has a new one. */
  lemma TextsAreKept(runId: string, key: string, own: seq<Event>, e: Event, f: Field)
    requires AllKnown(own) && own != [] && KindOf(e.eventType).Some?
    ensures AllKnown(own + [e])
    ensures var a, b := One(runId, key, own).value, One(runId, key, own + [e]).value;
            && (TextOf(a, f) != "" ==> TextOf(b, f) != "")
            && (Offered(e, f, false) == "" ==> TextOf(b, f) == TextOf(a, f))
            && (a.evidence.reuse ==> b.evidence.reuse)
  {
    hide KindOf, Given, Carries, StatusAfter, Offered;
    assert (own + [e])[..|own|] == own;
    ApplyText(runId, key, One(runId, key, own), e, f);
  }

  /** What an event offers a field, told from the name of its type. */
  lemma OfferedByText(e: Event, f: Field, first: bool)
    requires KindOf(e.eventType).Some?
    ensures var name, p := Lower(Strip(e.eventType)), e.payload;
            var tool := name in {"tool_call_started", "tool_call_finished", "tool_call_skipped_duplicate"};
            var waiting := name in {"approval_required", "action_waiting_approval"};
            var reused := if name == "tool_call_skipped_duplicate" && p.evidenceReuse then "reused" else "";
            Offered(e, f, first) ==
            match f
            case Command => if first || name != "approval_resolved" then p.command else ""
            case Title => if first || name != "approval_resolved" then p.title else ""
            case Purpose =>
              if first || name !in {"approval_resolved", "action_spec_validated"} then p.purpose else ""
            case TargetKind => if first || tool || waiting then p.targetKind else ""
            case TargetIdentity => if first || tool || waiting then p.targetIdentity else ""
            case ExecutorProfile => if first || tool || waiting then p.executorProfile else ""
            case ApprovalPolicy => if first || tool || waiting then p.approvalPolicy else ""
            case ToolCallId => if first || tool then p.toolCallId else ""
            case CommandRunId => if first || tool then p.commandRunId else ""
            case EvidenceSlotId => if first || tool then p.evidenceSlotId else ""
            case EvidenceOutcome =>
              if !first && !tool then "" else if p.evidenceOutcome != "" then p.evidenceOutcome else reused
            case ReasonCode =>
              if first || name in {"tool_call_finished", "tool_call_skipped_duplicate"}
              then Lower(Strip(p.reasonCode)) else ""
            case UpdatedAt => e.createdAt
  {
    hide Lower, Strip, KindOf;
    KindByText(e);
  }

  lemma OneMore(runId: string, key: string, own: seq<Event>, e: Event)
    requires AllKnown(own) && KindOf(e.eventType).Some?
    ensures AllKnown(own + [e])
    ensures One(runId, key, own + [e]) == Some(Apply(runId, key, One(runId, key, own), e))
  {
    hide KindOf, Apply;
    assert (own + [e])[..|own|] == own;
  }

  /** What one more event does to the result, failure, retry and approval of a record, told
      from the name of its type. */
  lemma NextByFields(runId: string, key: string, own: seq<Event>, e: Event)
    requires AllKnown(own) && KindOf(e.eventType).Some?
    ensures AllKnown(own + [e])
    ensures var name, p := Lower(Strip(e.eventType)), e.payload;
            var before, b := One(runId, key, own), One(runId, key, own + [e]).value;
            && b.result == (if name == "tool_call_finished" then Some(CallResult(p.exitCode, p.durationMs, p.timedOut))
                            else if before.Some? then before.value.result else None)
            && b.failure == (if name == "action_preflight_failed" then Some(Failure(p.errorCode, p.message))
                             else if before.Some? then before.value.failure else None)
            && b.retry == (if name == "action_execution_retrying" then Some(Retry(p.attempt, p.maxAttempts))
                           else if before.Some? then before.value.retry else None)
            && b.approvalId == (
               if name in {"approval_required", "action_waiting_approval"} then
                 Some(if p.approvalId != "" then p.approvalId else p.confirmationTicket)
               else if name == "approval_resolved" then
                 if p.approvalId != "" then Some(p.approvalId)
                 else if before.Some? && before.value.approvalId.Some? then before.value.approvalId else Some("")
               else if before.Some? then before.value.approvalId else None)
  {
    hide Lower, Strip, KindOf, StatusAfter, UpdateCall, UpdateWording, UpdateTarget, UpdateEvidence, Offered, One;
    KindByText(e);
    OneMore(runId, key, own, e);
  }

  /** The same for the evidence. */
  lemma EvidenceByFields(runId: string, key: string, own: seq<Event>, e: Event)
    requires AllKnown(own) && KindOf(e.eventType).Some?
    ensures AllKnown(own + [e])
    ensures var name, p := Lower(Strip(e.eventType)), e.payload;
            var tool := name in {"tool_call_started", "tool_call_finished", "tool_call_skipped_duplicate"};
            var before, b := One(runId, key, own), One(runId, key, own + [e]).value;
            && b.evidence.reusedIds ==
               (if before.None? || (tool && p.reusedEvidenceIds != []) then p.reusedEvidenceIds
                else before.value.evidence.reusedIds)
            && b.evidence.slotIdsFilled ==
               (if before.None? || (tool && p.evidenceSlotIdsFilled != []) then p.evidenceSlotIdsFilled
                else before.value.evidence.slotIdsFilled)
            && b.evidence.infoGainScore ==
               (if p.infoGainScore.Some? && (tool || before.None?) then p.infoGainScore.value
                else if before.Some? then before.value.evidence.infoGainScore else 0.0)
            && (b.evidence.reuse <==>
                  || ((tool || before.None?) && p.evidenceReuse)
                  || (before.Some? && before.value.evidence.reuse))
  {
    hide Lower, Strip, KindOf, StatusAfter, UpdateCall, UpdateWording, UpdateTarget, UpdateApproval, Offered, One;
    KindByText(e);
    OneMore(runId, key, own, e);
  }

  // ----- The list -----

  /** Later creation first. */
  function Newest(): (Action, Action) -> bool {
    (x: Action, y: Action) => TextLe(y.createdAt, x.createdAt)
  }

  function Values(all: Records): seq<Action>
    requires Listed(all)
  {
    seq(|all.order|, k requires 0 <= k < |all.order| => all.byKey[all.order[k]])
  }

  lemma NewestIsPreorder()
    ensures TotalPreorder(Newest())
  {
    forall x: Action, y: Action
      ensures Newest()(x, y) || Newest()(y, x)
    {
      TextLeTotal(x.createdAt, y.createdAt);
    }
    forall x: Action, y: Action, z: Action | Newest()(x, y) && Newest()(y, z)
      ensures Newest()(x, z)
    {
      TextLeTransitive(z.createdAt, y.createdAt, x.createdAt);
    }
  }

  function RunActions(runId: string, events: seq<Event>): seq<Action> {
    ExtractListed(runId, events);
    StableSort(Values(Extract(runId, events)), Newest())
  }

  /** The list has the one record of each key, newest first, and records created at the
      same time in the order of their first events; no other list does. */
  lemma ActionsExactly(runId: string, events: seq<Event>, r: seq<Action>)
    ensures Listed(Extract(runId, events)) && ByFirst(events, Extract(runId, events).order)
    ensures r == RunActions(runId, events) <==>
              SortedBy(r, Newest()) && SameTies(r, Values(Extract(runId, events)), Newest())
    ensures multiset(RunActions(runId, events)) == multiset(Values(Extract(runId, events)))
    ensures r == RunActions(runId, events) ==>
              forall i, j :: 0 <= i < j < |r| ==> TextLe(r[j].createdAt, r[i].createdAt)
  {
    ExtractListed(runId, events);
    OrderedByFirst(runId, events);
    hide ByFirst;
    NewestIsPreorder();
    var values := Values(Extract(runId, events));
    StableSortIsUnique(values, r, Newest());
    SortElements(values, Newest());
    if SortedBy(r, Newest()) {
      forall i, j | 0 <= i < j < |r|
        ensures TextLe(r[j].createdAt, r[i].createdAt)
      {
        assert Newest()(r[i], r[j]);
      }
    }
  }
}

/** The loop of the source over the event log. */
module RunActions {
  import opened Options
  import opened Lists
  import opened Text
  import opened RunActionsModel
  import Sorting

  lemma WordingUpdates(w: Wording, e: Event, kind: Kind)
    requires KindOf(e.eventType) == Some(kind)
    ensures var p := e.payload;
            UpdateWording(w, e) ==
              if kind.ApprovalResolved? then w
              else Wording(Or(p.command, w.command),
                           if kind.SpecValidated? then w.purpose else Or(p.purpose, w.purpose),
                           Or(p.title, w.title))
  {
    hide KindOf;
  }

  lemma TargetUpdates(t: Target, e: Event, kind: Kind)
    requires KindOf(e.eventType) == Some(kind)
    ensures var p := e.payload;
            UpdateTarget(t, e) ==
              if IsToolCall(kind) || IsWaiting(kind)
              then Target(Or(p.targetKind, t.kind), Or(p.targetIdentity, t.identity),
                          Or(p.executorProfile, t.executorProfile), Or(p.approvalPolicy, t.approvalPolicy))
              else t
  {
    hide KindOf;
  }

  lemma CallUpdates(c: Call, e: Event, kind: Kind)
    requires KindOf(e.eventType) == Some(kind)
    ensures UpdateCall(c, e) ==
              if IsToolCall(kind)
              then Call(Or(e.payload.toolCallId, c.toolCallId), Or(e.payload.commandRunId, c.commandRunId))
              else c
  {
    hide KindOf;
  }

  lemma EvidenceUpdates(v: Evidence, e: Event, kind: Kind)
    requires KindOf(e.eventType) == Some(kind)
    ensures var p := e.payload;
            UpdateEvidence(v, e) ==
              if !IsToolCall(kind) then v
              else Evidence(
                     Or(p.evidenceSlotId, v.slotId),
                     if kind.SkippedDuplicate?
                     then Or(p.evidenceOutcome, Or(if p.evidenceReuse then "reused" else "", v.outcome))
                     else Or(p.evidenceOutcome, v.outcome),
                     p.evidenceReuse || v.reuse,
                     Or(p.reusedEvidenceIds, v.reusedIds),
                     Or(p.evidenceSlotIdsFilled, v.slotIdsFilled),
                     if p.infoGainScore.Some? then p.infoGainScore.value else v.infoGainScore)
  {
    hide KindOf;
  }

  /** Lower-casing and trimming a reason code again changes nothing. */
  predicate IsNormalized(reason: string) {
    Lower(Strip(reason)) == reason
  }

  lemma ReasonStaysNormalized(reason: string)
    ensures IsNormalized(Lower(Strip(reason)))
  {
    hide Strip;
    var r := Lower(Strip(reason));
    StripSpec(reason);
    StripSpec(r);
    assert Stripped(r);
    assert Lower(r) == r;
  }

  /** One event worked into its record, branch by branch. */
  method UpdateAction(action: Action, e: Event, kind: Kind) returns (a: Action)
    requires KindOf(e.eventType) == Some(kind) && IsNormalized(action.reasonCode)
    ensures a == Update(action, e) && IsNormalized(a.reasonCode)
  {
    hide KindOf, Strip, Lower, UpdateWording, UpdateTarget, UpdateCall, UpdateEvidence;
    var p := e.payload;
    WordingUpdates(action.wording, e, kind);
    TargetUpdates(action.target, e, kind);
    CallUpdates(action.call, e, kind);
    EvidenceUpdates(action.evidence, e, kind);
    ReasonStaysNormalized(p.reasonCode);
    a := action;
    var updated := Or(e.createdAt, a.updatedAt);
    var call := Call(Or(p.toolCallId, a.call.toolCallId), Or(p.commandRunId, a.call.commandRunId));
    var wording := Wording(
      Or(p.command, a.wording.command), Or(p.purpose, a.wording.purpose), Or(p.title, a.wording.title));
    var target := Target(
      Or(p.targetKind, a.target.kind), Or(p.targetIdentity, a.target.identity),
      Or(p.executorProfile, a.target.executorProfile), Or(p.approvalPolicy, a.target.approvalPolicy));
    var evidence := Evidence(
      Or(p.evidenceSlotId, a.evidence.slotId), Or(p.evidenceOutcome, a.evidence.outcome),
      p.evidenceReuse || a.evidence.reuse,
      Or(p.reusedEvidenceIds, a.evidence.reusedIds), Or(p.evidenceSlotIdsFilled, a.evidence.slotIdsFilled),
      if p.infoGainScore.Some? then p.infoGainScore.value else a.evidence.infoGainScore);
    match kind {
      case SpecValidated =>
        a := a.(status := "validated", wording := wording.(purpose := a.wording.purpose), updatedAt := updated);
      case PreflightFailed =>
        a := a.(status := "failed", wording := wording,
                failure := Some(Failure(p.errorCode, p.message)), updatedAt := updated);
      case Retrying =>
        a := a.(status := "running", wording := wording,
                retry := Some(Retry(p.attempt, p.maxAttempts)), updatedAt := updated);
      case Started =>
        var status := if p.status.Some? then p.status.value else "running";
        a := a.(status := status, call := call, wording := wording, target := target,
                evidence := evidence, updatedAt := updated);
      case Finished =>
        var status := if p.status.Some? then p.status.value else "completed";
        var reason := Or(Lower(Strip(p.reasonCode)), Lower(Strip(a.reasonCode)));
        a := a.(status := status, call := call, wording := wording, target := target, reasonCode := reason,
                result := Some(CallResult(p.exitCode, p.durationMs, p.timedOut)),
                evidence := evidence, updatedAt := updated);
      case SkippedDuplicate =>
        var status := if p.status.Some? then p.status.value else "skipped";
        var reason := Or(Lower(Strip(p.reasonCode)), Lower(Strip(a.reasonCode)));
        var outcome := Or(p.evidenceOutcome, Or(if p.evidenceReuse then "reused" else "", a.evidence.outcome));
        a := a.(status := status, call := call, wording := wording, target := target, reasonCode := reason,
                evidence := evidence.(outcome := outcome), updatedAt := updated);
      case ApprovalRequired =>
        a := a.(status := "waiting_approval", wording := wording, target := target,
                approvalId := Some(Or(p.approvalId, p.confirmationTicket)), updatedAt := updated);
      case WaitingApproval =>
        a := a.(status := "waiting_approval", wording := wording, target := target,
                approvalId := Some(Or(p.approvalId, p.confirmationTicket)), updatedAt := updated);
      case WaitingUserInput =>
        a := a.(status := "waiting_user_input", wording := wording, updatedAt := updated);
      case ApprovalResolved =>
        a := a.(status := NormalizeApprovalStatus(p), approvalId := Some(Or(p.approvalId, OrEmpty(a.approvalId))),
                updatedAt := updated);
    }
  }

  lemma NothingYet(runId: string)
    ensures Extract(runId, []) == Records([], map[])
  {
  }

  lemma ActionsAreSorted(runId: string, events: seq<Event>)
    requires Listed(Extract(runId, events))
    ensures RunActions(runId, events) == Sorting.StableSort(Values(Extract(runId, events)), Newest())
  {
  }

  lemma ListedValues(order: seq<string>, byKey: map<string, Action>, actions: seq<Action>)
    requires Listed(Records(order, byKey)) && |actions| == |order|
    requires forall k :: 0 <= k < |order| ==> order[k] in byKey && actions[k] == byKey[order[k]]
    ensures actions == Values(Records(order, byKey))
  {
  }

  lemma ExtractNext(runId: string, events: seq<Event>, n: nat)
    requires n < |events|
    ensures Extract(runId, events[..n + 1]) == Next(runId, Extract(runId, events[..n]), events[n])
  {
    assert events[..n + 1][..n] == events[..n] && events[..n + 1][n] == events[n];
  }

  /** One more event, as the loop works it in. */
  lemma NextRecords(runId: string, order: seq<string>, byKey: map<string, Action>, e: Event)
    ensures KindOf(e.eventType).None? || Skipped(e.payload, e.number) ==>
              Next(runId, Records(order, byKey), e) == Records(order, byKey)
    ensures KindOf(e.eventType).Some? && !Skipped(e.payload, e.number) ==>
              var key := ActionKey(e.payload, e.number);
              Next(runId, Records(order, byKey), e) ==
              if key in byKey then Records(order, byKey[key := Update(byKey[key], e)])
              else Records(order + [key], byKey[key := Update(Created(runId, key, e), e)])
  {
    hide KindOf, Skipped, ActionKey, Created, Update;
  }

  lemma CreatedIsNormalized(runId: string, key: string, e: Event)
    requires KindOf(e.eventType).Some?
    ensures IsNormalized(Created(runId, key, e).reasonCode)
  {
    ReasonStaysNormalized(e.payload.reasonCode);
  }

  /** The loop over the log: records by key in a dictionary, then sorted. */
  method ExtractRunActions(runId: string, events: seq<Event>) returns (actions: seq<Action>)
    ensures actions == RunActions(runId, events)
  {
    hide KindOf, ActionKey, Skipped, Created, Update, Extract, Next, Sorting.StableSort, RunActions, IsNormalized;
    hide Values;
    NothingYet(runId);
    assert events[..0] == [];
    var byKey: map<string, Action> := map[];
    var order: seq<string> := [];
    for n := 0 to |events|
      invariant Records(order, byKey) == Extract(runId, events[..n])
      invariant forall key :: key in byKey ==> IsNormalized(byKey[key].reasonCode)
    {
      var e := events[n];
      ExtractNext(runId, events, n);
      NextRecords(runId, order, byKey, e);
      ghost var before := byKey;
      var kind := KindOf(e.eventType);
      if kind.None? || Skipped(e.payload, e.number) {
        continue;
      }
      var key := ActionKey(e.payload, e.number);
      if key !in byKey {
        var created := Created(runId, key, e);
        CreatedIsNormalized(runId, key, e);
        order := order + [key];
        byKey := byKey[key := created];
      }
      var updated := UpdateAction(byKey[key], e, kind.value);
      byKey := byKey[key := updated];
      assert byKey == before[key := updated];
    }
    assert events[..|events|] == events;
    ExtractListed(runId, events);
    ActionsAreSorted(runId, events);
    actions := seq(|order|, k requires 0 <= k < |order| => byKey[order[k]]);
    ListedValues(order, byKey, actions);
    actions := Sorting.StableSort(actions, Newest());
  }
}
