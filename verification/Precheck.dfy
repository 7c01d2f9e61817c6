/** Policy results ordered by severity, and how local and OPA results are combined. */
module PolicyDecision {
  import opened Options
  import opened Text

  datatype Severity = Allow | Confirm | Elevate | ManualRequired | Deny

  datatype Mode = Local | OpaShadow | OpaEnforced

  function Rank(s: Severity): nat {
    match s
    case Allow => 0
    case Confirm => 1
    case Elevate => 2
    case ManualRequired => 3
    case Deny => 4
  }

  function NormalizeResult(value: string): Option<Severity> {
    var name := Lower(Strip(value));
    if name == "allow" then Some(Allow)
    else if name == "confirm" then Some(Confirm)
    else if name == "elevate" then Some(Elevate)
    else if name == "manual_required" then Some(ManualRequired)
    else if name == "deny" then Some(Deny)
    else if name == "approved" || name == "ok" || name == "pass" then Some(Allow)
    else if name == "rejected" || name == "blocked" || name == "block" then Some(Deny)
    else None
  }

  /** A result nobody knows counts as a denial. */
  function OrDeny(value: string): Severity {
    if NormalizeResult(value).Some? then NormalizeResult(value).value else Deny
  }

  /** What an answer counts as, told from its text. */
  lemma AnswerByText(value: string)
    ensures var text := Lower(Strip(value));
            && (OrDeny(value) == Allow <==> text in {"allow", "approved", "ok", "pass"})
            && (OrDeny(value) == Confirm <==> text == "confirm")
            && (OrDeny(value) == Elevate <==> text == "elevate")
            && (OrDeny(value) == ManualRequired <==> text == "manual_required")
  {
    hide Lower, Strip;
  }

  function StrictestResult(left: Severity, right: Severity): Severity {
    if Rank(left) >= Rank(right) then left else right
  }

  /** The least severity that is at least both: the join of the order. */
  lemma StrictestIsJoin(left: Severity, right: Severity, s: Severity)
    ensures StrictestResult(left, right) == StrictestResult(right, left)
    ensures Rank(StrictestResult(left, right)) <= Rank(s) <==> Rank(left) <= Rank(s) && Rank(right) <= Rank(s)
    ensures StrictestResult(left, StrictestResult(right, s)) == StrictestResult(StrictestResult(left, right), s)
  {
  }

  /** What OPA answered, if it answered; the result is any text. */
  datatype OpaAnswer = OpaAnswer(result: string, reason: string)

  datatype Outcome = Outcome(result: Severity, reason: string, engine: string)

  function SeverityText(s: Severity): string {
    match s
    case Allow => "allow"
    case Confirm => "confirm"
    case Elevate => "elevate"
    case ManualRequired => "manual_required"
    case Deny => "deny"
  }

  function EvaluatePolicyDecision(
    mode: Mode, strictest: bool, local: Severity, localReason: string, opa: Option<OpaAnswer>, error: string): Outcome
  {
    if mode == Local then Outcome(local, localReason, "python-inline")
    else if opa.None? then
      if mode == OpaEnforced then Outcome(Deny, "opa unavailable (fail-closed): " + error, "opa")
      else Outcome(local, localReason, "python-inline")
    else if mode == OpaShadow then Outcome(local, localReason, "python-inline")
    else
      var remote := OrDeny(opa.value.result);
      var effective := if strictest then StrictestResult(local, remote) else remote;
      var reason :=
        if strictest && effective != remote
        then opa.value.reason + "; strictest(local=" + SeverityText(local) + ", opa=" + SeverityText(remote) + ")"
        else opa.value.reason;
      Outcome(effective, reason, "opa")
  }

  /** Only enforcement lets OPA decide. With the strictest switch on a decision is never
      milder than the local one; and an enforced decision without a known answer is a denial. */
  lemma EnginesCombine(mode: Mode, strictest: bool, local: Severity, localReason: string, opa: Option<OpaAnswer>,
      error: string)
    ensures var result := EvaluatePolicyDecision(mode, strictest, local, localReason, opa, error).result;
            && (mode != OpaEnforced ==> result == local)
            && (strictest ==> Rank(local) <= Rank(result))
            && (mode == OpaEnforced && (opa.None? || NormalizeResult(opa.value.result).None?) ==> result == Deny)
            && (forall s :: mode == OpaEnforced && strictest && opa.Some? ==>
                  (Rank(result) <= Rank(s) <==> Rank(local) <= Rank(s) && Rank(OrDeny(opa.value.result)) <= Rank(s)))
  {
    hide NormalizeResult;
  }
}

/** The response to a precheck, as the values the helpers turn it into. */
module PrecheckModel {
  import opened Options
  import opened Lists
  import opened Text
  import opened PolicyDecision

  datatype Status = Ok | ConfirmationRequired | ElevationRequired | PermissionRequired

  datatype Dispatch = Dispatch(backend: string, ready: bool, degraded: bool, reason: string)

  /** The fields that are always written together. */
  datatype Verdict = Verdict(
    status: Status, approvalPolicy: string, requiresConfirmation: bool, requiresElevation: bool, message: string)

  datatype Target = Target(id: string, kind: string, identity: string)

  datatype Response = Response(
    verdict: Verdict, requiresWrite: bool, command: string, commandType: string, target: Target,
    dispatch: Dispatch, decisionId: string, ticket: string)

  /** The classifier's answer; a field it leaves out is None. */
  datatype Meta = Meta(
    command: string, commandType: Option<string>, supported: bool, requiresWrite: bool,
    approvalPolicy: Option<string>, reason: Option<string>, targetKind: Option<string>, targetIdentity: Option<string>)

  datatype Registry = Registry(registered: bool, applied: bool, result: string, reason: Option<string>,
      targetId: string)

  datatype Switches = Switches(commandExec: bool, write: bool, testPermissive: bool, mode: Mode, strictest: bool)

  datatype Whitelist = Whitelist(isMatch: bool, reason: string)

  /** What the other services say, any of it. `resolved` is the dispatch with the
      registry's context; `opa` is None when the engine gives no usable answer. */
  datatype Answers = Answers(
    registry: Registry, resolved: Dispatch, opa: Option<OpaAnswer>, opaError: string, ticketId: string,
    decisionId: string)

  function Default(value: Option<string>, otherwise: string): string {
    if value.Some? then value.value else otherwise
  }

  function Normal(s: string): string {
    Lower(Strip(s))
  }

  predicate DispatchUnavailable(d: Dispatch) {
    Normal(d.backend) != "template_executor" || !d.ready || d.degraded
  }

  const UNAVAILABLE := "controlled executor " + "unavailable for current " + "executor profile:"

  predicate LooksUnavailable(message: string) {
    StartsWith(Normal(message), UNAVAILABLE)
  }

  // ----- The target -----

  predicate IsUnknownTarget(identity: string, kind: string) {
    var id, k := Normal(identity), Normal(kind);
    || id == ""
    || id == "unknown" || id == "runtime:unknown" || id == "namespace:unknown" || id == "database:unknown"
    || id == "project:unknown" || id == "host:unknown" || id == "http:unknown"
    || Contains(id, ":unknown")
    || ((k == "unknown" || k == "runtime_node") && (id == "runtime:local" || id == "local"))
  }

  lemma {:induction false} ContainsSuffix(head: string, part: string)
    ensures Contains(head + part, part)
    decreases |head|
  {
    if head == "" {
      assert head + part == part;
    } else {
      assert (head + part)[1..] == head[1..] + part;
      ContainsSuffix(head[1..], part);
    }
  }

  /** The list of unknown identities adds only the bare word to the two rules after it. */
  lemma UnknownTargetExactly(identity: string, kind: string)
    ensures var id := Normal(identity);
            IsUnknownTarget(identity, kind) <==>
              || id == "" || id == "unknown" || Contains(id, ":unknown")
              || (Normal(kind) in {"unknown", "runtime_node"} && id in {"runtime:local", "local"})
  {
    hide Normal, Contains;
    ContainsSuffix("runtime", ":unknown");
    ContainsSuffix("namespace", ":unknown");
    ContainsSuffix("database", ":unknown");
    ContainsSuffix("project", ":unknown");
    ContainsSuffix("host", ":unknown");
    ContainsSuffix("http", ":unknown");
    assert "runtime:unknown" == "runtime" + ":unknown" && "namespace:unknown" == "namespace" + ":unknown";
    assert "database:unknown" == "database" + ":unknown" && "project:unknown" == "project" + ":unknown";
    assert "host:unknown" == "host" + ":unknown" && "http:unknown" == "http" + ":unknown";
  }

  // ----- The checks before the policy -----

  function NotWhitelisted(reason: string): string {
    "命令不在免审批白名单模板内，需人工确认后执行。 原因: " + Or(reason, "未匹配模板约束")
  }

  function WritesDisabled(): string {
    "write command is disabled by policy"
  }

  function WriteNeedsElevation(): string {
    "write command " + "requires elevation and confirmation"
  }

  function ExecutionDisabled(): string {
    "命令执行能力已关闭，" + "请联系管理员开启 " + "AI_FOLLOWUP_COMMAND_EXEC_ENABLED。"
  }

  function NoExecutor(reason: string): string {
    UNAVAILABLE + " " + Or(reason, "unknown reason")
  }

  function PreflightFailed(reason: string): string {
    "runtime preflight " + "failed in execution domain: " + Or(reason, "unknown reason")
  }

  function NeedsApproval(engine: string, reason: string): string {
    "policy requires manual approval by " + engine + ": " + reason
  }

  function Denied(engine: string, reason: string): string {
    "policy denied by " + engine + ": " + reason
  }

  function AskConfirmation(whitelist: Whitelist): Verdict {
    Verdict(ConfirmationRequired, "confirmation_required", true, false,
            NotWhitelisted(whitelist.reason))
  }

  function Refusal(message: string): Verdict {
    Verdict(PermissionRequired, "deny", false, false, message)
  }

  function WriteGate(switches: Switches): Verdict {
    if !switches.write && !switches.testPermissive then Refusal(WritesDisabled())
    else Verdict(ElevationRequired, "elevation_required", true, true, WriteNeedsElevation())
  }

  /** A trial of the command in its domain: not needed or passed, failed for passing
      reasons, or failed. */
  datatype Preflight = Passed | FailedTransiently | Failed(message: string)

  function Classified(meta: Meta, dispatch: Dispatch): Response {
    Response(Verdict(Ok, Default(meta.approvalPolicy, "deny"), false, meta.requiresWrite, Default(meta.reason, "")),
             meta.requiresWrite, meta.command, Default(meta.commandType, "unknown"),
             Target("", Default(meta.targetKind, "runtime_node"), Default(meta.targetIdentity, "runtime:local")),
             dispatch, "", "")
  }

  /** The checks that follow a dispatch that works and a preflight that does not fail. */
  function Gated(r: Response, meta: Meta, whitelist: Whitelist, switches: Switches): Response {
    if Lower(Default(meta.commandType, "")) == "query" && !whitelist.isMatch then
      r.(verdict := AskConfirmation(whitelist))
    else if meta.requiresWrite then r.(verdict := WriteGate(switches))
    else r
  }

  function Disabled(command: string): Response {
    Response(Refusal(ExecutionDisabled()),
             false, command, "unknown", Target("", "", ""), Dispatch("", false, false, ""), "", "")
  }

  /** The response before it is finalized. */
  function Checked(
    command: string, meta: Meta, dispatch: Dispatch, preflight: Preflight, whitelist: Whitelist,
    switches: Switches): Response
  {
    var r := Classified(meta, dispatch);
    if !switches.commandExec then Disabled(command)
    else if !meta.supported then r.(verdict := r.verdict.(status := PermissionRequired, requiresElevation := false))
    else if DispatchUnavailable(dispatch) then
      r.(verdict := Refusal(NoExecutor(dispatch.reason)))
    else if preflight.Failed? then
      r.(verdict := Refusal(PreflightFailed(preflight.message)))
    else Gated(r, meta, whitelist, switches)
  }

  // ----- Finalizing -----

  function DecisionResult(v: Verdict): Severity {
    match v.status
    case Ok => Allow
    case ConfirmationRequired => Confirm
    case ElevationRequired => Elevate
    case PermissionRequired => if Normal(v.approvalPolicy) == "manual_required" then ManualRequired else Deny
  }

  /** The denial is the one for a missing dispatch, and dispatch works now. */
  predicate Recovers(r: Response) {
    && r.verdict.status == PermissionRequired && Normal(r.verdict.approvalPolicy) == "deny"
    && LooksUnavailable(r.verdict.message) && !DispatchUnavailable(r.dispatch)
  }

  function Rehydrated(r: Response, meta: Meta, whitelist: Whitelist, switches: Switches): Response {
    if !Recovers(r) then r
    else if Normal(Default(meta.commandType, r.commandType)) == "query" && !whitelist.isMatch then
      r.(verdict := AskConfirmation(whitelist))
    else if meta.requiresWrite || r.requiresWrite then
      r.(requiresWrite := true, verdict := WriteGate(switches))
    else
      r.(verdict := Verdict(Ok, Or(Strip(Default(meta.approvalPolicy, "auto_execute")), "auto_execute"), false, false,
                            Default(meta.reason, r.verdict.message)))
  }

  /** The response the policy gets to see. */
  function BeforePolicy(r: Response, meta: Meta, whitelist: Whitelist, switches: Switches, answers: Answers): Response {
    var d :=
      if Strip(r.command) == "" then r
      else Rehydrated(r.(dispatch := answers.resolved), meta, whitelist, switches);
    if Strip(answers.registry.targetId) == "" then d else d.(target := d.target.(id := answers.registry.targetId))
  }

  predicate RegistryManual(registry: Registry) {
    registry.applied && Normal(registry.result) == "manual_required"
  }

  predicate Unknown(r: Response, registry: Registry) {
    IsUnknownTarget(r.target.identity, r.target.kind) || !registry.registered
  }

  function Joined(reason: string, more: string): string {
    if reason != "" then reason + "; " + more else more
  }

  function LocalVerdict(b: Response, registry: Registry): (Severity, string) {
    var byRegistry :=
      if RegistryManual(registry)
      then
        var reason := Default(registry.reason, "target registry requires manual approval");
        (ManualRequired, Joined(b.verdict.message, reason))
      else (DecisionResult(b.verdict), b.verdict.message);
    if Unknown(b, registry) && (byRegistry.0 == Allow || LooksUnavailable(byRegistry.1))
    then (ManualRequired, Joined(byRegistry.1, "unknown target requires manual approval"))
    else byRegistry
  }

  function NotAllowed(o: Outcome, guard: bool, more: string): Outcome {
    if guard && o.result == Allow then o.(result := ManualRequired, reason := Joined(o.reason, more)) else o
  }

  function Effective(b: Response, switches: Switches, answers: Answers): Outcome {
    var (local, reason) := LocalVerdict(b, answers.registry);
    var engine :=
      EvaluatePolicyDecision(switches.mode, switches.strictest, local, reason, answers.opa, answers.opaError);
    var guarded := NotAllowed(engine, RegistryManual(answers.registry), "target registry requires manual approval");
    NotAllowed(guarded, Unknown(b, answers.registry), "unknown target requires manual approval")
  }

  function Applied(r: Response, o: Outcome): Response {
    match o.result
    case ManualRequired =>
      var elevation := r.requiresWrite || r.verdict.requiresElevation;
      r.(verdict := Verdict(if elevation then ElevationRequired else ConfirmationRequired,
                            "manual_required", true, elevation,
                            NeedsApproval(o.engine, o.reason)))
    case Deny => r.(verdict := Refusal(Denied(o.engine, o.reason)))
    case _ => r
  }

  /** What a ticket is issued for. */
  datatype Issue = Issue(command: string, requiresElevation: bool, decisionId: string)

  predicate NeedsTicket(r: Response) {
    (r.verdict.status == ConfirmationRequired || r.verdict.status == ElevationRequired) && Strip(r.ticket) == ""
  }

  function TicketFor(r: Response): Issue {
    Issue(r.command, r.verdict.requiresElevation || r.verdict.status == ElevationRequired, r.decisionId)
  }

  function Decided(r: Response, meta: Meta, whitelist: Whitelist, switches: Switches, answers: Answers): Response {
    var b := BeforePolicy(r, meta, whitelist, switches, answers);
    Applied(b, Effective(b, switches, answers)).(decisionId := answers.decisionId)
  }

  function Finalized(r: Response, meta: Meta, whitelist: Whitelist, switches: Switches, answers: Answers): Response {
    var d := Decided(r, meta, whitelist, switches, answers);
    if NeedsTicket(d) then d.(ticket := answers.ticketId) else d
  }

  // ----- What a finished response means -----

  /** OPA wants a confirmation or an elevation where the response says neither. */
  predicate MilderThanOpa(b: Response, switches: Switches, answers: Answers) {
    && switches.mode == OpaEnforced && answers.opa.Some?
    && (OrDeny(answers.opa.value.result) == Confirm || OrDeny(answers.opa.value.result) == Elevate)
  }

  predicate Flagged(b: Response, registry: Registry) {
    Unknown(b, registry) || RegistryManual(registry)
  }

  /** What the policy lets through: without enforcement only what is not flagged; with it
      what OPA neither denies nor wants approved by hand, and of that a flagged target
      only if the local result is ignored and OPA does not plainly allow it. */
  predicate LetsPass(flagged: bool, switches: Switches, opa: Option<OpaAnswer>) {
    if switches.mode != OpaEnforced then !flagged
    else
      && opa.Some?
      && OrDeny(opa.value.result) != ManualRequired && OrDeny(opa.value.result) != Deny
      && (flagged ==> !switches.strictest && OrDeny(opa.value.result) != Allow)
  }

  /** A response ends "ok" exactly when it came so far and the policy lets it pass; and
      the recorded decision may then be stricter than "allow" in exactly one way. */
  lemma OkExactly(r: Response, meta: Meta, whitelist: Whitelist, switches: Switches, answers: Answers)
    ensures var b := BeforePolicy(r, meta, whitelist, switches, answers);
            var final := Finalized(r, meta, whitelist, switches, answers);
            && (final.verdict.status == Ok <==>
                  b.verdict.status == Ok && LetsPass(Flagged(b, answers.registry), switches, answers.opa))
            && (final.verdict.status == Ok && Effective(b, switches, answers).result != Allow <==>
                  b.verdict.status == Ok && MilderThanOpa(b, switches, answers)
                  && (switches.strictest ==> !Flagged(b, answers.registry)))
  {
    hide IsUnknownTarget, Normal, Strip, Lower, NormalizeResult, LooksUnavailable, Joined, BeforePolicy, SeverityText;
  }

  /** An unknown or unregistered target, or one the registry wants approved by hand, ends
      "ok" exactly when enforcement ignores the local result and OPA answers with one of
      the two results that rewrite nothing. With the strictest switch on it never does. */
  lemma FlaggedOkExactly(r: Response, meta: Meta, whitelist: Whitelist, switches: Switches, answers: Answers)
    requires Flagged(BeforePolicy(r, meta, whitelist, switches, answers), answers.registry)
    ensures var b := BeforePolicy(r, meta, whitelist, switches, answers);
            Finalized(r, meta, whitelist, switches, answers).verdict.status == Ok <==>
              b.verdict.status == Ok && !switches.strictest && MilderThanOpa(b, switches, answers)
  {
    hide Flagged, Finalized, Effective, BeforePolicy, NormalizeResult;
    OkExactly(r, meta, whitelist, switches, answers);
  }

  lemma ConfirmIsKnown()
    ensures OrDeny("confirm") == Confirm
  {
    StripSpec("confirm");
    assert Lower("confirm") == "confirm";
  }

  /** The strictest switch is what keeps flagged targets from running: without it this
      response for an unknown target is "ok". */
  lemma UnknownTargetMayRun()
    ensures var meta := Meta("ls", Some("query"), true, false, Some("auto_execute"), Some(""), None, Some("unknown"));
            var switches := Switches(true, true, false, OpaEnforced, false);
            var answers := Answers(Registry(false, false, "", None, ""), Dispatch("template_executor", true, false, ""),
                                   Some(OpaAnswer("confirm", "")), "", "t", "d");
            var r := Classified(meta, answers.resolved);
            && Unknown(r, answers.registry)
            && Finalized(r, meta, Whitelist(true, ""), switches, answers).verdict.status == Ok
  {
    var meta := Meta("ls", Some("query"), true, false, Some("auto_execute"), Some(""), None, Some("unknown"));
    var answers := Answers(Registry(false, false, "", None, ""), Dispatch("template_executor", true, false, ""),
                           Some(OpaAnswer("confirm", "")), "", "t", "d");
    hide IsUnknownTarget, Normal, Strip, Lower, NormalizeResult, Finalized, EvaluatePolicyDecision, LooksUnavailable;
    var switches := Switches(true, true, false, OpaEnforced, false);
    FlaggedOkExactly(Classified(meta, answers.resolved), meta, Whitelist(true, ""), switches, answers);
    ConfirmIsKnown();
  }

  /** The local result is manual approval although the response refuses. */
  predicate LocallyManual(b: Response, registry: Registry) {
    || RegistryManual(registry)
    || Normal(b.verdict.approvalPolicy) == "manual_required"
    || (Unknown(b, registry) && LooksUnavailable(b.verdict.message))
  }

  /** Whether a refusal gives way to a request for manual approval. */
  predicate Lifts(manual: bool, flagged: bool, switches: Switches, opa: Option<OpaAnswer>) {
    if switches.mode != OpaEnforced then manual
    else
      && opa.Some?
      && var remote := OrDeny(opa.value.result);
         if switches.strictest then manual && remote != Deny
         else remote == ManualRequired || (remote == Allow && flagged)
  }

  /** Exactly when the policy turns a refusal into a request for manual approval. */
  lemma RefusalLiftedExactly(r: Response, meta: Meta, whitelist: Whitelist, switches: Switches, answers: Answers)
    requires BeforePolicy(r, meta, whitelist, switches, answers).verdict.status == PermissionRequired
    ensures var b := BeforePolicy(r, meta, whitelist, switches, answers);
            Finalized(r, meta, whitelist, switches, answers).verdict.status != PermissionRequired <==>
              Lifts(LocallyManual(b, answers.registry), Flagged(b, answers.registry), switches, answers.opa)
  {
    hide IsUnknownTarget, Normal, LooksUnavailable, NormalizeResult, OrDeny, Joined, BeforePolicy, SeverityText;
    hide NeedsApproval, Denied, NeedsTicket, TicketFor;
  }

  // ----- From the inputs -----

  /** A query outside the whitelist, told from the type as the two checks read it. */
  predicate FreshlyAsks(meta: Meta, whitelist: Whitelist) {
    Lower(Default(meta.commandType, "")) == "query" && !whitelist.isMatch
  }

  predicate RecoveredAsks(meta: Meta, whitelist: Whitelist) {
    Normal(Default(meta.commandType, "unknown")) == "query" && !whitelist.isMatch
  }

  /** The early refusal is, or reads like, the one for a missing dispatch. */
  predicate RefusedForDispatch(meta: Meta, dispatch: Dispatch) {
    if meta.supported then DispatchUnavailable(dispatch)
    else Normal(Default(meta.approvalPolicy, "deny")) == "deny" && LooksUnavailable(Default(meta.reason, ""))
  }

  /** Nothing before the policy stands in the way of the command, either at once or after
      the dispatch has recovered. */
  predicate Passes(
    meta: Meta, dispatch: Dispatch, preflight: Preflight, whitelist: Whitelist, switches: Switches, resolved: Dispatch)
  {
    && switches.commandExec && !meta.requiresWrite
    && (|| (&& meta.supported && !DispatchUnavailable(dispatch) && !preflight.Failed?
            && !FreshlyAsks(meta, whitelist))
        || (&& RefusedForDispatch(meta, dispatch) && Strip(meta.command) != "" && !DispatchUnavailable(resolved)
            && !RecoveredAsks(meta, whitelist)))
  }

  predicate FlaggedTarget(kind: string, identity: string, registry: Registry) {
    IsUnknownTarget(identity, kind) || !registry.registered || RegistryManual(registry)
  }

  lemma VerdictsDiffer(whitelist: Whitelist, switches: Switches)
    ensures AskConfirmation(whitelist).status == ConfirmationRequired
    ensures WriteGate(switches).status == PermissionRequired || WriteGate(switches).status == ElevationRequired
  {
    hide NotWhitelisted, WritesDisabled, WriteNeedsElevation;
  }

  lemma PreflightText(reason: string)
    ensures PreflightFailed(reason) ==
            "runtime preflight failed in execution domain: " + (if reason != "" then reason else "unknown reason")
  {
    assert "runtime preflight " + "failed in execution domain: " == "runtime preflight failed in execution domain: ";
  }

  lemma UnavailableText()
    ensures UNAVAILABLE == "controlled executor unavailable for current executor profile:"
  {
    assert "controlled executor " + "unavailable for current " == "controlled executor unavailable for current ";
    assert "controlled executor unavailable for current " + "executor profile:" ==
      "controlled executor unavailable for current executor profile:";
  }

  lemma ExecutorText(reason: string)
    ensures NoExecutor(reason) == "controlled executor unavailable for current executor profile: "
                                  + (if reason != "" then reason else "unknown reason")
  {
    UnavailableText();
    assert "controlled executor unavailable for current executor profile:" + " " ==
      "controlled executor unavailable for current executor profile: ";
  }

  lemma DenyIsNormal()
    ensures Normal("deny") == "deny"
  {
    StripSpec("deny");
    assert Lower("deny") == "deny";
  }

  lemma DefaultsByText()
    ensures Normal("deny") == "deny" && Normal("unknown") != "query" && Normal("") != "query" && Lower("") != "query"
    ensures !LooksUnavailable("")
    ensures UNAVAILABLE == "controlled executor unavailable for current executor profile:"
  {
    UnavailableText();
    DenyIsNormal();
    StripSpec("unknown");
    assert |Lower("unknown")| == 7 && |"query"| == 5 && |Lower("")| == 0;
    assert Strip("") == "";
  }

  /** What the response says before the policy has seen it. */
  lemma MessageByFields(
    command: string, meta: Meta, dispatch: Dispatch, preflight: Preflight, whitelist: Whitelist, switches: Switches)
    requires switches.commandExec
    ensures var or := (text: string, other: string) => if text != "" then text else other;
            var named := if meta.commandType.Some? then meta.commandType.value else "";
            var reason := if meta.reason.Some? then meta.reason.value else "";
            Checked(command, meta, dispatch, preflight, whitelist, switches).verdict.message ==
            if !meta.supported then reason
            else if Lower(Strip(dispatch.backend)) != "template_executor" || !dispatch.ready || dispatch.degraded then
              "controlled executor unavailable for current executor profile: " + or(dispatch.reason, "unknown reason")
            else if preflight.Failed? then
              "runtime preflight failed in execution domain: " + or(preflight.message, "unknown reason")
            else if Lower(named) == "query" && !whitelist.isMatch then
              "命令不在免审批白名单模板内，需人工确认后执行。 原因: " + or(whitelist.reason, "未匹配模板约束")
            else if !meta.requiresWrite then reason
            else if switches.write || switches.testPermissive then
              "write command " + "requires elevation and confirmation"
            else "write command is disabled by policy"
  {
    hide Lower, Strip, NoExecutor, PreflightFailed;
    DefaultsByText();
    ExecutorText(dispatch.reason);
    if preflight.Failed? {
      PreflightText(preflight.message);
    }
  }

  lemma CheckedFields(
    command: string, meta: Meta, dispatch: Dispatch, preflight: Preflight, whitelist: Whitelist, switches: Switches)
    requires switches.commandExec
    ensures var r := Checked(command, meta, dispatch, preflight, whitelist, switches);
            && r.command == meta.command && r.commandType == Default(meta.commandType, "unknown")
            && r.requiresWrite == meta.requiresWrite
            && r.target.kind == Default(meta.targetKind, "runtime_node")
            && r.target.identity == Default(meta.targetIdentity, "runtime:local")
            && (r.verdict.status == Ok <==>
                  && meta.supported && !DispatchUnavailable(dispatch) && !preflight.Failed?
                  && !FreshlyAsks(meta, whitelist) && !meta.requiresWrite)
  {
    hide Lower, DispatchUnavailable, NoExecutor, PreflightFailed, AskConfirmation, WriteGate;
    VerdictsDiffer(whitelist, switches);
  }

  lemma FirstLetterDecides(message: string, c: char)
    requires message != "" && message[0] == c && !IsSpace(c) && LowerChar(c) != 'c'
    ensures !LooksUnavailable(message)
  {
    assert LStrip(message) == message;
    RStripKeepsHead(message);
    assert UNAVAILABLE[0] == "controlled executor "[0] == 'c';
  }

  lemma WritesDisabledDoesNot()
    ensures !LooksUnavailable(WritesDisabled())
  {
    assert WritesDisabled()[0] == 'w';
    FirstLetterDecides(WritesDisabled(), 'w');
  }

  lemma ElevationDoesNot()
    ensures !LooksUnavailable(WriteNeedsElevation())
  {
    assert WriteNeedsElevation()[0] == "write command "[0] == 'w';
    FirstLetterDecides(WriteNeedsElevation(), 'w');
  }

  lemma LowerJoins(x: string, y: string)
    ensures Lower(x + y) == Lower(x) + Lower(y)
  {
  }

  lemma UnavailableIsNormal()
    ensures Lower(UNAVAILABLE) == UNAVAILABLE
  {
    var a, b, c := "controlled executor ", "unavailable for current ", "executor profile:";
    assert Lower(a) == a by { assert Lower("controlled executor ") == "controlled executor "; }
    assert Lower(b) == b by { assert Lower("unavailable for current ") == "unavailable for current "; }
    assert Lower(c) == c by { assert Lower("executor profile:") == "executor profile:"; }
    LowerJoins(a, b);
    LowerJoins(a + b, c);
  }

  /** Stripping the end stops at the last character that is not a space. */
  lemma {:induction false} RStripKeeps(s: string, n: nat)
    requires 0 < n <= |s| && !IsSpace(s[n - 1])
    ensures |RStrip(s)| >= n && RStrip(s)[..n] == s[..n]
    decreases |s|
  {
    if IsSpace(s[|s| - 1]) {
      RStripKeeps(s[..|s| - 1], n);
    }
  }

  lemma UnavailableLooksSo(reason: string)
    ensures LooksUnavailable(UNAVAILABLE + " " + reason)
  {
    var message := UNAVAILABLE + " " + reason;
    var n := |UNAVAILABLE|;
    assert message[0] == UNAVAILABLE[0] == "controlled executor "[0] == 'c';
    assert LStrip(message) == message;
    assert message[n - 1] == UNAVAILABLE[n - 1] == ':';
    RStripKeeps(message, n);
    assert message[..n] == UNAVAILABLE;
    UnavailableIsNormal();
    assert Normal(message)[..n] == Lower(Strip(message)[..n]);
  }

  lemma NoExecutorLooksSo(reason: string)
    ensures LooksUnavailable(NoExecutor(reason))
  {
    hide LooksUnavailable;
    UnavailableLooksSo(Or(reason, "unknown reason"));
  }

  lemma PreflightDoesNot(reason: string)
    ensures !LooksUnavailable(PreflightFailed(reason))
  {
    assert PreflightFailed(reason)[0] == "runtime preflight "[0] == 'r';
    FirstLetterDecides(PreflightFailed(reason), 'r');
  }

  lemma RefusalRecovers(
    command: string, meta: Meta, dispatch: Dispatch, preflight: Preflight, whitelist: Whitelist, switches: Switches,
    resolved: Dispatch)
    requires switches.commandExec
    ensures var r := Checked(command, meta, dispatch, preflight, whitelist, switches);
            Recovers(r.(dispatch := resolved)) <==> RefusedForDispatch(meta, dispatch) && !DispatchUnavailable(resolved)
  {
    hide Lower, DispatchUnavailable, NoExecutor, PreflightFailed, WritesDisabled, WriteNeedsElevation, NotWhitelisted;
    hide LooksUnavailable, Normal;
    DenyIsNormal();
    NoExecutorLooksSo(dispatch.reason);
    WritesDisabledDoesNot();
    if preflight.Failed? {
      PreflightDoesNot(preflight.message);
    }
  }

  lemma RehydratedOk(r: Response, meta: Meta, whitelist: Whitelist, switches: Switches)
    requires r.commandType == Default(meta.commandType, "unknown") && r.requiresWrite == meta.requiresWrite
    ensures var h := Rehydrated(r, meta, whitelist, switches);
            && (h.verdict.status == Ok <==>
                  if Recovers(r) then !RecoveredAsks(meta, whitelist) && !meta.requiresWrite
                  else r.verdict.status == Ok)
            && h.target == r.target
  {
    hide Recovers, Normal, Strip, AskConfirmation, WriteGate, Or;
    VerdictsDiffer(whitelist, switches);
    assert Default(meta.commandType, r.commandType) == Default(meta.commandType, "unknown");
  }

  lemma OkOrRefused(meta: Meta, dispatch: Dispatch)
    ensures RefusedForDispatch(meta, dispatch) ==> !meta.supported || DispatchUnavailable(dispatch)
  {
  }

  /** What reaches the policy as "ok". */
  lemma PassesExactly(
    command: string, meta: Meta, dispatch: Dispatch, preflight: Preflight, whitelist: Whitelist, switches: Switches,
    answers: Answers)
    requires switches.commandExec
    ensures var b := BeforePolicy(Checked(command, meta, dispatch, preflight, whitelist, switches),
                                  meta, whitelist, switches, answers);
            && (b.verdict.status == Ok <==> Passes(meta, dispatch, preflight, whitelist, switches, answers.resolved))
            && (Flagged(b, answers.registry) <==>
                  FlaggedTarget(Default(meta.targetKind, "runtime_node"),
                                Default(meta.targetIdentity, "runtime:local"), answers.registry))
  {
    hide Strip, Checked, Rehydrated, Recovers, DispatchUnavailable, RefusedForDispatch, FreshlyAsks;
    hide RecoveredAsks, IsUnknownTarget;
    var r := Checked(command, meta, dispatch, preflight, whitelist, switches);
    var d := r.(dispatch := answers.resolved);
    CheckedFields(command, meta, dispatch, preflight, whitelist, switches);
    RefusalRecovers(command, meta, dispatch, preflight, whitelist, switches, answers.resolved);
    RehydratedOk(d, meta, whitelist, switches);
    OkOrRefused(meta, dispatch);
  }

  lemma DisabledDoesNot()
    ensures !LooksUnavailable(ExecutionDisabled())
  {
    assert ExecutionDisabled()[0] == "命令执行能力已关闭，"[0] == '命';
    FirstLetterDecides(ExecutionDisabled(), '命');
  }

  /** A switched-off command is refused for good unless it is lifted. */
  lemma DisabledNeverPasses(command: string, meta: Meta, whitelist: Whitelist, switches: Switches, answers: Answers)
    ensures BeforePolicy(Disabled(command), meta, whitelist, switches, answers).verdict.status == PermissionRequired
  {
    hide Strip, LooksUnavailable, ExecutionDisabled, DispatchUnavailable, Normal;
    DisabledDoesNot();
  }

  // ----- The decision, from the inputs -----

  /** The refusal is one for a missing dispatch, and dispatch works now. */
  predicate TakenBack(meta: Meta, dispatch: Dispatch, resolved: Dispatch) {
    RefusedForDispatch(meta, dispatch) && Strip(meta.command) != "" && !DispatchUnavailable(resolved)
  }

  function GateStatus(asks: bool, meta: Meta, switches: Switches): Status {
    if asks then ConfirmationRequired
    else if !meta.requiresWrite then Ok
    else if switches.write || switches.testPermissive then ElevationRequired
    else PermissionRequired
  }

  /** The status that reaches the policy. */
  function StatusBefore(
    meta: Meta, dispatch: Dispatch, preflight: Preflight, whitelist: Whitelist, switches: Switches,
    resolved: Dispatch): Status
  {
    if !switches.commandExec then PermissionRequired
    else if TakenBack(meta, dispatch, resolved) then GateStatus(RecoveredAsks(meta, whitelist), meta, switches)
    else if !meta.supported || DispatchUnavailable(dispatch) || preflight.Failed? then PermissionRequired
    else GateStatus(FreshlyAsks(meta, whitelist), meta, switches)
  }

  /** The classifier's own refusal stands, in favour of manual approval. */
  predicate ClassifiedManual(meta: Meta, dispatch: Dispatch, switches: Switches, resolved: Dispatch) {
    && switches.commandExec && !meta.supported && !TakenBack(meta, dispatch, resolved)
    && Normal(Default(meta.approvalPolicy, "deny")) == "manual_required"
  }

  /** A refusal stands that is, or reads like, the one for a missing dispatch. */
  predicate DispatchMissing(meta: Meta, dispatch: Dispatch, switches: Switches, resolved: Dispatch) {
    && switches.commandExec && !TakenBack(meta, dispatch, resolved)
    && (if meta.supported then DispatchUnavailable(dispatch) else LooksUnavailable(Default(meta.reason, "")))
  }

  predicate TargetUnknown(meta: Meta, switches: Switches, registry: Registry) {
    || !switches.commandExec || !registry.registered
    || IsUnknownTarget(Default(meta.targetIdentity, "runtime:local"), Default(meta.targetKind, "runtime_node"))
  }

  /** The local result. */
  function LocalFromInputs(
    meta: Meta, dispatch: Dispatch, preflight: Preflight, whitelist: Whitelist, switches: Switches,
    answers: Answers): Severity
  {
    var status := StatusBefore(meta, dispatch, preflight, whitelist, switches, answers.resolved);
    if || RegistryManual(answers.registry)
       || ClassifiedManual(meta, dispatch, switches, answers.resolved)
       || (&& TargetUnknown(meta, switches, answers.registry)
           && (status == Ok || DispatchMissing(meta, dispatch, switches, answers.resolved)))
    then ManualRequired
    else
      match status
      case Ok => Allow
      case ConfirmationRequired => Confirm
      case ElevationRequired => Elevate
      case PermissionRequired => Deny
  }

  /** The recorded decision. */
  function DecisionFromInputs(
    meta: Meta, dispatch: Dispatch, preflight: Preflight, whitelist: Whitelist, switches: Switches,
    answers: Answers): Severity
  {
    var local := LocalFromInputs(meta, dispatch, preflight, whitelist, switches, answers);
    if switches.mode != OpaEnforced then local
    else if answers.opa.None? then Deny
    else
      var remote := OrDeny(answers.opa.value.result);
      var flagged := TargetUnknown(meta, switches, answers.registry) || RegistryManual(answers.registry);
      if switches.strictest then StrictestResult(local, remote)
      else if remote == Allow && flagged then ManualRequired
      else remote
  }

  /** The final status: the decision overrides what reached the policy only where it
      denies or wants manual approval. */
  function StatusFromInputs(
    meta: Meta, dispatch: Dispatch, preflight: Preflight, whitelist: Whitelist, switches: Switches,
    answers: Answers): Status
  {
    match DecisionFromInputs(meta, dispatch, preflight, whitelist, switches, answers)
    case Deny => PermissionRequired
    case ManualRequired =>
      if switches.commandExec && meta.requiresWrite then ElevationRequired else ConfirmationRequired
    case _ => StatusBefore(meta, dispatch, preflight, whitelist, switches, answers.resolved)
  }

  /** The status that reaches the policy, told from the fields. */
  lemma StatusByFields(
    meta: Meta, dispatch: Dispatch, preflight: Preflight, whitelist: Whitelist, switches: Switches, resolved: Dispatch)
    ensures var works := (d: Dispatch) => Lower(Strip(d.backend)) == "template_executor" && d.ready && !d.degraded;
            var named := if meta.commandType.Some? then meta.commandType.value else "";
            var missing :=
              if meta.supported then !works(dispatch)
              else
                && (meta.approvalPolicy.None? || Lower(Strip(meta.approvalPolicy.value)) == "deny")
                && meta.reason.Some?
                && "controlled executor unavailable for current executor profile:" <= Lower(Strip(meta.reason.value));
            var back := missing && Strip(meta.command) != "" && works(resolved);
            var open :=
              switches.commandExec && (back || (meta.supported && works(dispatch) && !preflight.Failed?));
            var asks := (if back then Lower(Strip(named)) else Lower(named)) == "query" && !whitelist.isMatch;
            var status := StatusBefore(meta, dispatch, preflight, whitelist, switches, resolved);
            && (status == Ok <==> open && !asks && !meta.requiresWrite)
            && (status == ConfirmationRequired <==> open && asks)
            && (status == ElevationRequired <==>
                  open && !asks && meta.requiresWrite && (switches.write || switches.testPermissive))
  {
    hide Strip, Lower;
    DefaultsByText();
  }

  /** What the policy makes of a response is told from its status and three facts. */
  lemma LocalFrom(b: Response, answers: Answers, manual: bool, missing: bool)
    requires b.verdict.status == PermissionRequired ==>
               && manual == (Normal(b.verdict.approvalPolicy) == "manual_required")
               && missing == LooksUnavailable(b.verdict.message)
    requires b.verdict.status != PermissionRequired ==> !manual && !missing
    requires b.verdict.status == ConfirmationRequired || b.verdict.status == ElevationRequired ==>
               !LooksUnavailable(b.verdict.message)
    ensures LocalVerdict(b, answers.registry).0 ==
            if RegistryManual(answers.registry) || manual
               || (Unknown(b, answers.registry) && (b.verdict.status == Ok || missing)) then ManualRequired
            else
              match b.verdict.status
              case Ok => Allow
              case ConfirmationRequired => Confirm
              case ElevationRequired => Elevate
              case PermissionRequired => Deny
  {
    hide Normal, LooksUnavailable, IsUnknownTarget, RegistryManual, Joined;
  }

  lemma EngineFrom(b: Response, switches: Switches, answers: Answers)
    ensures var local := LocalVerdict(b, answers.registry).0;
            var flagged := Unknown(b, answers.registry) || RegistryManual(answers.registry);
            Effective(b, switches, answers).result ==
            if switches.mode != OpaEnforced then local
            else if answers.opa.None? then Deny
            else
              var remote := OrDeny(answers.opa.value.result);
              if switches.strictest then StrictestResult(local, remote)
              else if remote == Allow && flagged then ManualRequired
              else remote
  {
    hide Normal, LooksUnavailable, IsUnknownTarget, NormalizeResult, OrDeny, Joined, SeverityText, RegistryManual;
  }

  /** A verdict that reaches the policy: its status and what the policy reads in it. */
  ghost predicate Seen(v: Verdict, status: Status, manual: bool, missing: bool, write: bool) {
    && v.status == status
    && (if status == PermissionRequired then
          manual == (Normal(v.approvalPolicy) == "manual_required") && missing == LooksUnavailable(v.message)
        else !manual && !missing)
    && (status == ConfirmationRequired || status == ElevationRequired ==> !LooksUnavailable(v.message))
    && (v.requiresElevation ==> write)
  }

  lemma GateSeen(whitelist: Whitelist, switches: Switches)
    ensures Seen(AskConfirmation(whitelist), ConfirmationRequired, false, false, false)
    ensures Seen(WriteGate(switches),
                 if switches.write || switches.testPermissive then ElevationRequired else PermissionRequired,
                 false, false, true)
  {
    hide LooksUnavailable, Normal;
    DenyIsNormal();
    WritesDisabledDoesNot();
    ElevationDoesNot();
    assert NotWhitelisted(whitelist.reason)[0] == '命';
    FirstLetterDecides(NotWhitelisted(whitelist.reason), '命');
  }

  lemma CheckedSeen(
    command: string, meta: Meta, dispatch: Dispatch, preflight: Preflight, whitelist: Whitelist, switches: Switches)
    requires switches.commandExec
    ensures var v := Checked(command, meta, dispatch, preflight, whitelist, switches).verdict;
            if !meta.supported then
              Seen(v, PermissionRequired, Normal(Default(meta.approvalPolicy, "deny")) == "manual_required",
                   LooksUnavailable(Default(meta.reason, "")), meta.requiresWrite)
            else if DispatchUnavailable(dispatch) || preflight.Failed? then
              Seen(v, PermissionRequired, false, DispatchUnavailable(dispatch), meta.requiresWrite)
            else
              Seen(v, GateStatus(FreshlyAsks(meta, whitelist), meta, switches), false, false, meta.requiresWrite)
  {
    hide LooksUnavailable, Normal, DispatchUnavailable, AskConfirmation, WriteGate, NoExecutor, PreflightFailed, Lower;
    DenyIsNormal();
    GateSeen(whitelist, switches);
    NoExecutorLooksSo(dispatch.reason);
    if preflight.Failed? {
      PreflightDoesNot(preflight.message);
    }
  }

  lemma RehydratedSeen(r: Response, meta: Meta, whitelist: Whitelist, switches: Switches)
    requires Recovers(r) && r.commandType == Default(meta.commandType, "unknown")
    requires r.requiresWrite == meta.requiresWrite
    ensures var h := Rehydrated(r, meta, whitelist, switches);
            && Seen(h.verdict, GateStatus(RecoveredAsks(meta, whitelist), meta, switches), false, false,
                    meta.requiresWrite)
            && h.requiresWrite == meta.requiresWrite && h.target == r.target
  {
    hide LooksUnavailable, Normal, DispatchUnavailable, AskConfirmation, WriteGate, Recovers, Strip, Or;
    GateSeen(whitelist, switches);
  }

  lemma NotRehydrated(r: Response, meta: Meta, whitelist: Whitelist, switches: Switches)
    requires !Recovers(r)
    ensures Rehydrated(r, meta, whitelist, switches) == r
  {
    hide Recovers;
  }

  /** The response that reaches the policy. */
  lemma BeforeSeen(
    command: string, meta: Meta, dispatch: Dispatch, preflight: Preflight, whitelist: Whitelist, switches: Switches,
    answers: Answers)
    requires switches.commandExec
    ensures var b := BeforePolicy(Checked(command, meta, dispatch, preflight, whitelist, switches),
                                  meta, whitelist, switches, answers);
            && Seen(b.verdict, StatusBefore(meta, dispatch, preflight, whitelist, switches, answers.resolved),
                    ClassifiedManual(meta, dispatch, switches, answers.resolved),
                    DispatchMissing(meta, dispatch, switches, answers.resolved), meta.requiresWrite)
            && b.requiresWrite == meta.requiresWrite
            && (Unknown(b, answers.registry) <==> TargetUnknown(meta, switches, answers.registry))
  {
    hide Strip, Checked, Rehydrated, Recovers, DispatchUnavailable, RefusedForDispatch, FreshlyAsks, RecoveredAsks;
    hide IsUnknownTarget, Normal, LooksUnavailable, Seen;
    var r := Checked(command, meta, dispatch, preflight, whitelist, switches);
    CheckedFields(command, meta, dispatch, preflight, whitelist, switches);
    CheckedSeen(command, meta, dispatch, preflight, whitelist, switches);
    RefusalRecovers(command, meta, dispatch, preflight, whitelist, switches, answers.resolved);
    OkOrRefused(meta, dispatch);
    var d := r.(dispatch := answers.resolved);
    if Recovers(d) {
      RehydratedSeen(d, meta, whitelist, switches);
    } else {
      NotRehydrated(d, meta, whitelist, switches);
    }
  }

  lemma RuntimeLocalIsNormal()
    ensures Normal("runtime:local") == "runtime:local" && Normal("runtime_node") == "runtime_node"
  {
    StripSpec("runtime:local");
    StripSpec("runtime_node");
    assert Lower("runtime:local") == "runtime:local";
    assert Lower("runtime_node") == "runtime_node";
  }

  /** The local result, told from the fields and the status. */
  lemma LocalByFields(
    meta: Meta, dispatch: Dispatch, preflight: Preflight, whitelist: Whitelist, switches: Switches, answers: Answers)
    ensures var status := StatusBefore(meta, dispatch, preflight, whitelist, switches, answers.resolved);
            var works := (d: Dispatch) => Lower(Strip(d.backend)) == "template_executor" && d.ready && !d.degraded;
            var policy := if meta.approvalPolicy.Some? then Lower(Strip(meta.approvalPolicy.value)) else "deny";
            var missing :=
              if meta.supported then !works(dispatch)
              else
                && meta.reason.Some?
                && "controlled executor unavailable for current executor profile:" <= Lower(Strip(meta.reason.value));
            var back :=
              missing && (meta.supported || policy == "deny") && Strip(meta.command) != "" && works(answers.resolved);
            var kind := if meta.targetKind.Some? then Lower(Strip(meta.targetKind.value)) else "runtime_node";
            var id := if meta.targetIdentity.Some? then Lower(Strip(meta.targetIdentity.value)) else "runtime:local";
            var unknown :=
              || !switches.commandExec || !answers.registry.registered
              || id == "" || id == "unknown" || Contains(id, ":unknown")
              || (kind in {"unknown", "runtime_node"} && id in {"runtime:local", "local"});
            var manual :=
              || (answers.registry.applied && Lower(Strip(answers.registry.result)) == "manual_required")
              || (switches.commandExec && !meta.supported && policy == "manual_required")
              || (unknown && (status == Ok || (switches.commandExec && missing && !back)));
            LocalFromInputs(meta, dispatch, preflight, whitelist, switches, answers) ==
            if manual then ManualRequired
            else if status == Ok then Allow
            else if status == ConfirmationRequired then Confirm
            else if status == ElevationRequired then Elevate
            else Deny
  {
    hide Strip, Lower, StatusBefore, IsUnknownTarget, Contains;
    DefaultsByText();
    RuntimeLocalIsNormal();
    UnknownTargetExactly(Default(meta.targetIdentity, "runtime:local"), Default(meta.targetKind, "runtime_node"));
  }

  /** The decision and the final status of a command, from the inputs alone. */
  lemma DecidedFromInputs(
    command: string, meta: Meta, dispatch: Dispatch, preflight: Preflight, whitelist: Whitelist, switches: Switches,
    answers: Answers)
    requires switches.commandExec
    ensures var r := Checked(command, meta, dispatch, preflight, whitelist, switches);
            var b := BeforePolicy(r, meta, whitelist, switches, answers);
            && Effective(b, switches, answers).result ==
               DecisionFromInputs(meta, dispatch, preflight, whitelist, switches, answers)
            && Finalized(r, meta, whitelist, switches, answers).verdict.status ==
               StatusFromInputs(meta, dispatch, preflight, whitelist, switches, answers)
  {
    hide Strip, Checked, BeforePolicy, DispatchUnavailable, RefusedForDispatch, FreshlyAsks, RecoveredAsks;
    hide IsUnknownTarget, Normal, LooksUnavailable, Effective, LocalVerdict, OrDeny, RegistryManual, StatusBefore;
    hide ClassifiedManual, DispatchMissing, TargetUnknown, Unknown;
    var r := Checked(command, meta, dispatch, preflight, whitelist, switches);
    var b := BeforePolicy(r, meta, whitelist, switches, answers);
    BeforeSeen(command, meta, dispatch, preflight, whitelist, switches, answers);
    LocalFrom(b, answers, ClassifiedManual(meta, dispatch, switches, answers.resolved),
              DispatchMissing(meta, dispatch, switches, answers.resolved));
    EngineFrom(b, switches, answers);
  }

  lemma NothingIsUnknown()
    ensures IsUnknownTarget("", "")
  {
  }

  lemma DisabledSeen(command: string, seen: Meta, matched: Whitelist, switches: Switches, answers: Answers)
    ensures var b := BeforePolicy(Disabled(command), seen, matched, switches, answers);
            && Seen(b.verdict, PermissionRequired, false, false, false) && !b.requiresWrite
            && Unknown(b, answers.registry)
  {
    hide Strip, DispatchUnavailable, IsUnknownTarget, Normal, LooksUnavailable, ExecutionDisabled, Rehydrated;
    var r := Disabled(command);
    DisabledDoesNot();
    DenyIsNormal();
    NotRehydrated(r.(dispatch := answers.resolved), seen, matched, switches);
    NothingIsUnknown();
  }

  /** The decision and the final status while execution is off, from the inputs alone. */
  lemma DisabledFromInputs(
    command: string, meta: Meta, dispatch: Dispatch, preflight: Preflight, whitelist: Whitelist, switches: Switches,
    seen: Meta, matched: Whitelist, answers: Answers)
    requires !switches.commandExec
    ensures var r := Checked(command, meta, dispatch, preflight, whitelist, switches);
            var b := BeforePolicy(r, seen, matched, switches, answers);
            && Effective(b, switches, answers).result ==
               DecisionFromInputs(meta, dispatch, preflight, whitelist, switches, answers)
            && Finalized(r, seen, matched, switches, answers).verdict.status ==
               StatusFromInputs(meta, dispatch, preflight, whitelist, switches, answers)
  {
    hide Disabled, BeforePolicy, IsUnknownTarget, Normal, LooksUnavailable, Effective, LocalVerdict, OrDeny;
    hide RegistryManual, Unknown, NeedsApproval, Denied, StrictestResult;
    var b := BeforePolicy(Disabled(command), seen, matched, switches, answers);
    DisabledSeen(command, seen, matched, switches, answers);
    LocalFrom(b, answers, false, false);
    EngineFrom(b, switches, answers);
  }

  /** The two flags say what the status says. */
  predicate Coherent(v: Verdict) {
    && (v.requiresConfirmation <==> v.status == ConfirmationRequired || v.status == ElevationRequired)
    && (v.requiresElevation <==> v.status == ElevationRequired)
  }

  /** The policy's name says it too, as long as no policy has overridden it. */
  predicate Labelled(v: Verdict) {
    && (v.status == ConfirmationRequired ==> v.approvalPolicy == "confirmation_required")
    && (v.status == ElevationRequired ==> v.approvalPolicy == "elevation_required")
  }

  lemma GatedKeeps(r: Response, meta: Meta, whitelist: Whitelist, switches: Switches)
    requires r.verdict.status == Ok && !r.verdict.requiresConfirmation
    requires r.verdict.requiresElevation == meta.requiresWrite
    ensures var gated := Gated(r, meta, whitelist, switches);
            Coherent(gated.verdict) && Labelled(gated.verdict) && gated.ticket == r.ticket
  {
    hide Lower, Or, Default;
  }

  lemma RehydratedKeeps(r: Response, meta: Meta, whitelist: Whitelist, switches: Switches)
    requires Coherent(r.verdict) && Labelled(r.verdict)
    ensures var h := Rehydrated(r, meta, whitelist, switches);
            Coherent(h.verdict) && Labelled(h.verdict) && h.ticket == r.ticket
  {
    hide Strip, Lower, Normal, Recovers, Or, Default, NotWhitelisted, WritesDisabled, WriteNeedsElevation;
  }

  lemma CheckedIsCoherent(
    command: string, meta: Meta, dispatch: Dispatch, preflight: Preflight, whitelist: Whitelist, switches: Switches)
    ensures var r := Checked(command, meta, dispatch, preflight, whitelist, switches);
            Coherent(r.verdict) && Labelled(r.verdict) && r.ticket == ""
  {
    hide Lower, Strip, DispatchUnavailable, Or, Default, Gated;
    GatedKeeps(Classified(meta, dispatch), meta, whitelist, switches);
  }

  lemma BeforeIsCoherent(r: Response, meta: Meta, whitelist: Whitelist, switches: Switches, answers: Answers)
    requires Coherent(r.verdict) && Labelled(r.verdict)
    ensures var b := BeforePolicy(r, meta, whitelist, switches, answers);
            Coherent(b.verdict) && Labelled(b.verdict) && b.ticket == r.ticket
  {
    hide Strip, Rehydrated;
    RehydratedKeeps(r.(dispatch := answers.resolved), meta, whitelist, switches);
  }

  lemma AppliedIsCoherent(r: Response, o: Outcome)
    requires Coherent(r.verdict) && Labelled(r.verdict)
    ensures var a := Applied(r, o);
            && Coherent(a.verdict) && a.ticket == r.ticket
            && (o.result == ManualRequired ==> a.verdict.approvalPolicy == "manual_required")
            && (o.result == Deny ==> a.verdict.approvalPolicy == "deny")
            && (o.result != ManualRequired && o.result != Deny ==> Labelled(a.verdict))
  {
  }

  /** A finished response carries a ticket exactly when it asks for confirmation or
      elevation, and the ticket is issued for the response's own command and decision,
      with elevation exactly when the response asks for that. */
  lemma TicketExactly(r: Response, meta: Meta, whitelist: Whitelist, switches: Switches, answers: Answers)
    requires Coherent(r.verdict) && Labelled(r.verdict) && r.ticket == "" && answers.ticketId != ""
    ensures var final := Finalized(r, meta, whitelist, switches, answers);
            var d := Decided(r, meta, whitelist, switches, answers);
            && (final.ticket != "" <==>
                  final.verdict.status == ConfirmationRequired || final.verdict.status == ElevationRequired)
            && NeedsTicket(d) == (final.ticket != "")
            && final.ticket == (if NeedsTicket(d) then answers.ticketId else "")
            && (NeedsTicket(d) ==>
                  TicketFor(d) == Issue(final.command, final.verdict.status == ElevationRequired, answers.decisionId))
            && Coherent(final.verdict)
            && var result := Effective(BeforePolicy(r, meta, whitelist, switches, answers), switches, answers).result;
               && (result == ManualRequired ==> final.verdict.approvalPolicy == "manual_required")
               && (result == Deny ==> final.verdict.approvalPolicy == "deny")
               && (result != ManualRequired && result != Deny ==> Labelled(final.verdict))
  {
    hide IsUnknownTarget, Normal, Lower, NormalizeResult, LooksUnavailable, Joined, Effective, BeforePolicy, Applied;
    var b := BeforePolicy(r, meta, whitelist, switches, answers);
    BeforeIsCoherent(r, meta, whitelist, switches, answers);
    AppliedIsCoherent(b, Effective(b, switches, answers));
    assert Strip("") == "";
  }

  /** The recovery reads the classifier as the first check does: a query is a query to
      both, and what is let through has a trimmed policy and a reason. */
  predicate ReadAlike(meta: Meta, whitelist: Whitelist) {
    if RecoveredAsks(meta, whitelist) then FreshlyAsks(meta, whitelist)
    else
      || meta.requiresWrite
      || (meta.approvalPolicy.Some? && meta.approvalPolicy.value != "" && Stripped(meta.approvalPolicy.value)
          && meta.reason.Some?)
  }

  /** What reads as a query untrimmed is trimmed. */
  lemma TypesAgree(meta: Meta)
    ensures Lower(Default(meta.commandType, "")) == "query" ==> Normal(Default(meta.commandType, "unknown")) == "query"
  {
    var name := Default(meta.commandType, "");
    if Lower(name) == "query" {
      assert |name| == 5;
      assert LowerChar(name[0]) == Lower(name)[0] == 'q' && LowerChar(name[4]) == Lower(name)[4] == 'y';
      StripSpec(name);
    }
  }

  lemma NothingIsBlank()
    ensures Strip("") == "" && Strip("auto_execute") == "auto_execute"
  {
    StripSpec("auto_execute");
  }

  lemma NoExecutorIsText(reason: string)
    ensures NoExecutor(reason) != ""
  {
  }

  /** Recovery forgets the early refusal: when the dispatch turns out to work, the
      response is the one that a working dispatch would have led to from the start,
      exactly if the classifier's answer reads alike. */
  lemma RecoveryMatchesExactly(
    command: string, meta: Meta, dispatch: Dispatch, recovered: Dispatch, preflight: Preflight, whitelist: Whitelist,
    switches: Switches)
    requires switches.commandExec && meta.supported && !preflight.Failed?
    requires DispatchUnavailable(dispatch) && !DispatchUnavailable(recovered)
    ensures var refused := Checked(command, meta, dispatch, preflight, whitelist, switches);
            var direct := Checked(command, meta, recovered, preflight, whitelist, switches);
            Rehydrated(refused.(dispatch := recovered), meta, whitelist, switches) == direct <==>
                ReadAlike(meta, whitelist)
  {
    hide Strip, Lower, LooksUnavailable, AskConfirmation, WriteGate, NoExecutor, DispatchUnavailable, Stripped;
    VerdictsDiffer(whitelist, switches);
    TypesAgree(meta);
    StripSpec(Default(meta.approvalPolicy, ""));
    NothingIsBlank();
    NoExecutorLooksSo(dispatch.reason);
    NoExecutorIsText(dispatch.reason);
    DenyIsNormal();
  }

  /** The decision, told from the local result and the text of OPA's answer: a text that is
      none of the eight known ones for the milder results denies, and the strictest switch
      lets the local result stand where it is stricter. */
  lemma DecisionByText(
    meta: Meta, dispatch: Dispatch, preflight: Preflight, whitelist: Whitelist, switches: Switches, answers: Answers)
    ensures var local := LocalFromInputs(meta, dispatch, preflight, whitelist, switches, answers);
            var decision := DecisionFromInputs(meta, dispatch, preflight, whitelist, switches, answers);
            var flagged := TargetUnknown(meta, switches, answers.registry) || RegistryManual(answers.registry);
            && (switches.mode != OpaEnforced ==> decision == local)
            && (switches.mode == OpaEnforced && answers.opa.None? ==> decision == Deny)
            && (switches.mode == OpaEnforced && answers.opa.Some? ==>
                  var text := Lower(Strip(answers.opa.value.result));
                  decision ==
                  if text in {"allow", "approved", "ok", "pass"} then
                    if switches.strictest then local else if flagged then ManualRequired else Allow
                  else if text == "confirm" then if switches.strictest && local != Allow then local else Confirm
                  else if text == "elevate" then
                    if switches.strictest && local in {ManualRequired, Deny} then local else Elevate
                  else if text == "manual_required" then
                    if switches.strictest && local == Deny then Deny else ManualRequired
                  else Deny)
  {
    hide LocalFromInputs, TargetUnknown, RegistryManual, OrDeny, Lower, Strip;
    if answers.opa.Some? {
      AnswerByText(answers.opa.value.result);
    }
  }

  /** The reason recorded with a decision, and the engine: with enforcement OPA's own, and
      what both said where the local result was stricter; else the message of the response
      with what registry and target add to it. */
  lemma ReasonByText(b: Response, switches: Switches, answers: Answers)
    ensures var o, message := Effective(b, switches, answers), b.verdict.message;
            var joined := (text: string, more: string) => if text != "" then text + "; " + more else more;
            var manual :=
              answers.registry.applied && Lower(Strip(answers.registry.result)) == "manual_required";
            var byRegistry :=
              if !manual then message
              else joined(message, if answers.registry.reason.Some? then answers.registry.reason.value
                                   else "target registry requires manual approval");
            var unknown :=
              Unknown(b, answers.registry) && (LooksUnavailable(byRegistry) || (b.verdict.status == Ok && !manual));
            && (switches.mode != OpaEnforced ==>
                  && o.engine == "python-inline"
                  && o.reason ==
                     if unknown then joined(byRegistry, "unknown target requires manual approval") else byRegistry)
            && (switches.mode == OpaEnforced ==> o.engine == "opa")
  {
    hide Lower, Strip, IsUnknownTarget, LooksUnavailable, OrDeny, SeverityText;
  }

  /** With enforcement the reason is OPA's, with what both said where the local result was
      stricter, and with what lifts a plain "allow" for a flagged target. */
  lemma EnforcedReason(b: Response, switches: Switches, answers: Answers)
    requires switches.mode == OpaEnforced && answers.opa.Some?
    ensures var o, local := Effective(b, switches, answers), LocalVerdict(b, answers.registry).0;
            var opa := answers.opa.value;
            var remote := OrDeny(opa.result);
            var name := (r: Severity) =>
              match r
              case Allow => "allow"
              case Confirm => "confirm"
              case Elevate => "elevate"
              case ManualRequired => "manual_required"
              case Deny => "deny";
            var joined := (text: string, more: string) => if text != "" then text + "; " + more else more;
            o.reason ==
            if switches.strictest && o.result != remote
            then opa.reason + "; strictest(local=" + name(local) + ", opa=" + name(remote) + ")"
            else if remote != Allow || switches.strictest then opa.reason
            else if RegistryManual(answers.registry) then
              joined(opa.reason, "target registry requires manual approval")
            else if Unknown(b, answers.registry) then joined(opa.reason, "unknown target requires manual approval")
            else opa.reason
  {
    hide IsUnknownTarget, Normal, LooksUnavailable, NormalizeResult, OrDeny;
  }

  lemma ManualText(engine: string, reason: string)
    ensures NeedsApproval(engine, reason) == "policy requires manual approval by " + engine + ": " + reason
    ensures Denied(engine, reason) == "policy denied by " + engine + ": " + reason
  {
  }

  lemma DeniedText(reason: string)
    ensures Denied("opa", reason) == "policy denied by opa: " + reason
    ensures Denied("opa", "opa unavailable (fail-closed): " + reason) ==
            "policy denied by opa: " + ("opa unavailable (fail-closed): " + reason)
  {
    assert "policy denied by " + "opa" + ": " == "policy denied by opa: ";
  }

  /** A denial by OPA, or for want of an answer, says why. */
  lemma DenialByOpa(r: Response, meta: Meta, whitelist: Whitelist, switches: Switches, answers: Answers)
    requires switches.mode == OpaEnforced
    ensures var message := Finalized(r, meta, whitelist, switches, answers).verdict.message;
            && (answers.opa.None? ==>
                  message == "policy denied by opa: " + ("opa unavailable (fail-closed): " + answers.opaError))
            && (answers.opa.Some? ==>
                  var text := Lower(Strip(answers.opa.value.result));
                  text !in {"allow", "approved", "ok", "pass", "confirm", "elevate", "manual_required"} ==>
                    message == "policy denied by opa: " + answers.opa.value.reason)
  {
    hide BeforePolicy, LocalVerdict, Denied, NeedsApproval, OrDeny, Lower, Strip, IsUnknownTarget, Normal;
    if answers.opa.Some? {
      AnswerByText(answers.opa.value.result);
      DeniedText(answers.opa.value.reason);
    } else {
      DeniedText(answers.opaError);
    }
  }
}

/** The response as the object that the precheck writes field after field. */
module Precheck {
  import opened Lists
  import opened Options
  import opened Text
  import opened PolicyDecision
  import M = PrecheckModel

  const EMPTY_META := M.Meta("", None, false, false, None, None, None, None)
  const NO_WHITELIST := M.Whitelist(false, "command execution disabled by policy switch")

  lemma BeforeKeepsTarget(r: M.Response, meta: M.Meta, whitelist: M.Whitelist, switches: M.Switches, answers: M.Answers)
    ensures var b := M.BeforePolicy(r, meta, whitelist, switches, answers);
            b.target.identity == r.target.identity && b.target.kind == r.target.kind
  {
    hide M.Recovers, M.Normal, Strip, M.AskConfirmation, M.WriteGate, Or;
  }

  lemma RehydratedKeepsFields(r: M.Response, meta: M.Meta, whitelist: M.Whitelist, switches: M.Switches)
    ensures var h := M.Rehydrated(r, meta, whitelist, switches);
            && h.command == r.command && h.commandType == r.commandType && h.target == r.target
            && h.dispatch == r.dispatch
  {
    hide M.Recovers, M.Normal, Strip, M.AskConfirmation, M.WriteGate, Or;
  }

  /** What the finalizing steps say of the command and its target. */
  lemma FieldsKept(r: M.Response, meta: M.Meta, whitelist: M.Whitelist, switches: M.Switches, answers: M.Answers)
    ensures var final := M.Finalized(r, meta, whitelist, switches, answers);
            && final.command == r.command && final.commandType == r.commandType
            && final.target.kind == r.target.kind && final.target.identity == r.target.identity
            && final.target.id ==
               (if Strip(answers.registry.targetId) == "" then r.target.id else answers.registry.targetId)
            && final.dispatch == (if Strip(r.command) == "" then r.dispatch else answers.resolved)
  {
    hide M.Rehydrated, Strip, M.Effective, M.NeedsTicket, M.Refusal, M.NeedsApproval;
    RehydratedKeepsFields(r.(dispatch := answers.resolved), meta, whitelist, switches);
  }

  class PrecheckResponse {
    var status: M.Status
    var approvalPolicy: string
    var requiresConfirmation: bool
    var requiresWrite: bool
    var requiresElevation: bool
    var message: string
    var command: string
    var commandType: string
    var targetId: string
    var targetKind: string
    var targetIdentity: string
    var dispatch: M.Dispatch
    var decisionId: string
    var ticket: string

    ghost function View(): M.Response
      reads this
    {
      M.Response(M.Verdict(status, approvalPolicy, requiresConfirmation, requiresElevation, message), requiresWrite,
                 command, commandType, M.Target(targetId, targetKind, targetIdentity), dispatch, decisionId, ticket)
    }

    constructor (meta: M.Meta, dispatch: M.Dispatch)
      ensures View() == M.Classified(meta, dispatch)
    {
      status, approvalPolicy := M.Ok, M.Default(meta.approvalPolicy, "deny");
      requiresConfirmation, requiresWrite, requiresElevation := false, meta.requiresWrite, meta.requiresWrite;
      message, command := M.Default(meta.reason, ""), meta.command;
      commandType := M.Default(meta.commandType, "unknown");
      targetId, targetKind := "", M.Default(meta.targetKind, "runtime_node");
      targetIdentity := M.Default(meta.targetIdentity, "runtime:local");
      this.dispatch, decisionId, ticket := dispatch, "", "";
    }

    constructor Disabled(command: string)
      ensures View() == M.Disabled(command)
    {
      status, approvalPolicy := M.PermissionRequired, "deny";
      requiresConfirmation, requiresWrite, requiresElevation := false, false, false;
      message := M.ExecutionDisabled();
      this.command, commandType := command, "unknown";
      targetId, targetKind, targetIdentity := "", "", "";
      dispatch, decisionId, ticket := M.Dispatch("", false, false, ""), "", "";
    }

    method Refuse(reason: string)
      modifies this
      ensures View() == old(View()).(verdict := M.Refusal(reason))
    {
      status, approvalPolicy := M.PermissionRequired, "deny";
      requiresConfirmation, requiresElevation, message := false, false, reason;
    }

    method AskConfirmation(whitelist: M.Whitelist)
      modifies this
      ensures View() == old(View()).(verdict := M.AskConfirmation(whitelist))
    {
      hide M.NotWhitelisted;
      status, approvalPolicy := M.ConfirmationRequired, "confirmation_required";
      requiresConfirmation, requiresElevation := true, false;
      message := M.NotWhitelisted(whitelist.reason);
    }

    method WriteGate(switches: M.Switches)
      modifies this
      ensures View() == old(View()).(verdict := M.WriteGate(switches))
    {
      hide M.WritesDisabled, M.WriteNeedsElevation;
      if !switches.write && !switches.testPermissive {
        Refuse(M.WritesDisabled());
      } else {
        status, approvalPolicy := M.ElevationRequired, "elevation_required";
        requiresConfirmation, requiresElevation := true, true;
        message := M.WriteNeedsElevation();
      }
    }

    /** Only manual approval and denial rewrite the response. */
    method ApplyEffectivePolicy(result: Severity, reason: string, engine: string)
      modifies this
      ensures View() == M.Applied(old(View()), Outcome(result, reason, engine))
    {
      hide M.NeedsApproval, M.Denied;
      if result == ManualRequired {
        var elevation := requiresWrite || requiresElevation;
        status := if elevation then M.ElevationRequired else M.ConfirmationRequired;
        approvalPolicy := "manual_required";
        requiresConfirmation, requiresElevation := true, elevation;
        message := M.NeedsApproval(engine, reason);
      } else if result == Deny {
        Refuse(M.Denied(engine, reason));
      }
    }

    /** A denial for a missing dispatch is taken back when the dispatch works now. */
    method RehydrateAfterRecovery(meta: M.Meta, whitelist: M.Whitelist, switches: M.Switches)
      modifies this
      ensures View() == M.Rehydrated(old(View()), meta, whitelist, switches)
    {
      hide M.Normal, M.LooksUnavailable, M.DispatchUnavailable, M.AskConfirmation, M.WriteGate, Strip, Or, M.Default;
      if status != M.PermissionRequired || M.Normal(approvalPolicy) != "deny" {
        return;
      }
      if !M.LooksUnavailable(message) {
        return;
      }
      if M.DispatchUnavailable(dispatch) {
        return;
      }
      if M.Normal(M.Default(meta.commandType, commandType)) == "query" && !whitelist.isMatch {
        AskConfirmation(whitelist);
        return;
      }
      if meta.requiresWrite || requiresWrite {
        requiresWrite := true;
        WriteGate(switches);
        return;
      }
      status := M.Ok;
      approvalPolicy := Or(Strip(M.Default(meta.approvalPolicy, "auto_execute")), "auto_execute");
      requiresConfirmation, requiresElevation := false, false;
      message := M.Default(meta.reason, message);
    }

    method AttachTicket(ticketId: string) returns (issue: Option<M.Issue>)
      modifies this
      ensures issue == if M.NeedsTicket(old(View())) then Some(M.TicketFor(old(View()))) else None
      ensures View() == if issue.Some? then old(View()).(ticket := ticketId) else old(View())
    {
      if status != M.ConfirmationRequired && status != M.ElevationRequired {
        return None;
      }
      if Strip(ticket) != "" {
        return None;
      }
      issue := Some(M.Issue(command, requiresElevation || status == M.ElevationRequired, decisionId));
      ticket := ticketId;
    }

    method ResolveTarget(meta: M.Meta, whitelist: M.Whitelist, switches: M.Switches, answers: M.Answers)
      modifies this
      ensures View() == M.BeforePolicy(old(View()), meta, whitelist, switches, answers)
    {
      hide Strip, M.Rehydrated;
      if Strip(command) != "" {
        dispatch := answers.resolved;
        RehydrateAfterRecovery(meta, whitelist, switches);
      }
      if Strip(answers.registry.targetId) != "" {
        targetId := answers.registry.targetId;
      }
    }

    method LocalResult() returns (result: Severity)
      ensures result == M.DecisionResult(View().verdict)
    {
      if status == M.Ok {
        return Allow;
      }
      if status == M.ConfirmationRequired {
        return Confirm;
      }
      if status == M.ElevationRequired {
        return Elevate;
      }
      if M.Normal(approvalPolicy) == "manual_required" {
        return ManualRequired;
      }
      return Deny;
    }

    method Decide(unknown: bool, switches: M.Switches, answers: M.Answers) returns (outcome: Outcome)
      requires unknown == M.Unknown(View(), answers.registry)
      ensures outcome == M.Effective(View(), switches, answers)
    {
      hide M.Unknown, Strip, Lower, EvaluatePolicyDecision, M.LooksUnavailable, M.Joined;
      var registry := answers.registry;
      var local := LocalResult();
      var localReason := message;
      var manual := registry.applied && M.Normal(registry.result) == "manual_required";
      if manual {
        local := ManualRequired;
        localReason := M.Joined(localReason, M.Default(registry.reason, "target registry requires manual approval"));
      }
      if unknown && (local == Allow || M.LooksUnavailable(localReason)) {
        local := ManualRequired;
        localReason := M.Joined(localReason, "unknown target requires manual approval");
      }
      outcome := EvaluatePolicyDecision(
        switches.mode, switches.strictest, local, localReason, answers.opa, answers.opaError);
      if manual && outcome.result == Allow {
        outcome := outcome.(
          result := ManualRequired, reason := M.Joined(outcome.reason, "target registry requires manual approval"));
      }
      if unknown && outcome.result == Allow {
        outcome := outcome.(
          result := ManualRequired, reason := M.Joined(outcome.reason, "unknown target requires manual approval"));
      }
    }

    /** Dispatch, registry, local result, policy, record and ticket, in this order. */
    method Finalize(meta: M.Meta, whitelist: M.Whitelist, switches: M.Switches, answers: M.Answers)
      returns (decision: Severity, issue: Option<M.Issue>)
      modifies this
      ensures View() == M.Finalized(old(View()), meta, whitelist, switches, answers)
      ensures decision ==
                M.Effective(M.BeforePolicy(old(View()), meta, whitelist, switches, answers), switches, answers).result
      ensures issue == var d := M.Decided(old(View()), meta, whitelist, switches, answers);
                       if M.NeedsTicket(d) then Some(M.TicketFor(d)) else None
    {
      hide M.IsUnknownTarget, M.BeforePolicy, M.Applied, M.Effective, M.NeedsTicket, M.TicketFor;
      var unknown := M.IsUnknownTarget(targetIdentity, targetKind) || !answers.registry.registered;
      BeforeKeepsTarget(View(), meta, whitelist, switches, answers);
      ResolveTarget(meta, whitelist, switches, answers);
      var outcome := Decide(unknown, switches, answers);
      ApplyEffectivePolicy(outcome.result, outcome.reason, outcome.engine);
      decision := outcome.result;
      decisionId := answers.decisionId;
      issue := AttachTicket(answers.ticketId);
    }
  }

  /** The checks up to the finalizing steps, with their early exits. */
  method CheckCommand(
    command: string, meta: M.Meta, dispatch: M.Dispatch, preflight: M.Preflight, whitelist: M.Whitelist,
    switches: M.Switches)
    returns (r: PrecheckResponse)
    ensures fresh(r) && r.View() == M.Checked(command, meta, dispatch, preflight, whitelist, switches)
    ensures switches.commandExec ==>
              var or := (text: string, other: string) => if text != "" then text else other;
              var named := if meta.commandType.Some? then meta.commandType.value else "";
              var reason := if meta.reason.Some? then meta.reason.value else "";
              r.message ==
              if !meta.supported then reason
              else if Lower(Strip(dispatch.backend)) != "template_executor" || !dispatch.ready || dispatch.degraded then
                "controlled executor unavailable for current executor profile: " + or(dispatch.reason, "unknown reason")
              else if preflight.Failed? then
                "runtime preflight failed in execution domain: " + or(preflight.message, "unknown reason")
              else if Lower(named) == "query" && !whitelist.isMatch then
                "命令不在免审批白名单模板内，需人工确认后执行。 原因: " + or(whitelist.reason, "未匹配模板约束")
              else if !meta.requiresWrite then reason
              else if switches.write || switches.testPermissive then
                "write command " + "requires elevation and confirmation"
              else "write command is disabled by policy"
  {
    if switches.commandExec {
      M.MessageByFields(command, meta, dispatch, preflight, whitelist, switches);
    }
    hide M.DispatchUnavailable, Lower, Strip, M.AskConfirmation, M.WriteGate, M.NoExecutor, M.PreflightFailed;
    if !switches.commandExec {
      r := new PrecheckResponse.Disabled(command);
      return;
    }
    r := new PrecheckResponse(meta, dispatch);
    if !meta.supported {
      r.status, r.requiresElevation := M.PermissionRequired, false;
    } else if M.DispatchUnavailable(dispatch) {
      r.Refuse(M.NoExecutor(dispatch.reason));
    } else if preflight.Failed? {
      r.Refuse(M.PreflightFailed(preflight.message));
    } else if Lower(M.Default(meta.commandType, "")) == "query" && !whitelist.isMatch {
      r.AskConfirmation(whitelist);
    } else if meta.requiresWrite {
      r.WriteGate(switches);
    }
  }

  /** The target of the classified command is unknown, unregistered or needs approval by hand. */
  predicate FlaggedCommand(meta: M.Meta, answers: M.Answers) {
    M.FlaggedTarget(
      M.Default(meta.targetKind, "runtime_node"), M.Default(meta.targetIdentity, "runtime:local"), answers.registry)
  }

  lemma FlaggedNeverPasses(meta: M.Meta, switches: M.Switches, answers: M.Answers)
    ensures FlaggedCommand(meta, answers) && switches.strictest ==>
              !M.LetsPass(FlaggedCommand(meta, answers), switches, answers.opa)
  {
  }

  /** While execution is off, the finalizing steps see an empty classification. */
  function SeenMeta(meta: M.Meta, switches: M.Switches): M.Meta {
    if switches.commandExec then meta else EMPTY_META
  }

  function SeenWhitelist(whitelist: M.Whitelist, switches: M.Switches): M.Whitelist {
    if switches.commandExec then whitelist else NO_WHITELIST
  }

  function FinalResponse(
    command: string, meta: M.Meta, dispatch: M.Dispatch, preflight: M.Preflight, whitelist: M.Whitelist,
    switches: M.Switches, answers: M.Answers): M.Response
  {
    M.Finalized(M.Checked(command, meta, dispatch, preflight, whitelist, switches),
                SeenMeta(meta, switches), SeenWhitelist(whitelist, switches), switches, answers)
  }

  function FinalDecision(
    command: string, meta: M.Meta, dispatch: M.Dispatch, preflight: M.Preflight, whitelist: M.Whitelist,
    switches: M.Switches, answers: M.Answers): Severity
  {
    var checked := M.Checked(command, meta, dispatch, preflight, whitelist, switches);
    var seen, matched := SeenMeta(meta, switches), SeenWhitelist(whitelist, switches);
    M.Effective(M.BeforePolicy(checked, seen, matched, switches, answers), switches, answers).result
  }

  /** When a precheck ends "ok", in terms of its inputs alone. */
  lemma OkFromInputs(
    command: string, meta: M.Meta, dispatch: M.Dispatch, preflight: M.Preflight, whitelist: M.Whitelist,
    switches: M.Switches, answers: M.Answers)
    ensures FinalResponse(command, meta, dispatch, preflight, whitelist, switches, answers).verdict.status == M.Ok <==>
              && M.Passes(meta, dispatch, preflight, whitelist, switches, answers.resolved)
              && M.LetsPass(FlaggedCommand(meta, answers), switches, answers.opa)
  {
    hide M.BeforePolicy, M.Effective, M.Finalized, M.Flagged, M.FlaggedTarget, M.Gated, M.DispatchUnavailable, OrDeny;
    M.OkExactly(M.Checked(command, meta, dispatch, preflight, whitelist, switches),
                SeenMeta(meta, switches), SeenWhitelist(whitelist, switches), switches, answers);
    if switches.commandExec {
      M.PassesExactly(command, meta, dispatch, preflight, whitelist, switches, answers);
    } else {
      M.DisabledNeverPasses(command, EMPTY_META, NO_WHITELIST, switches, answers);
    }
  }

  /** The decision and the final status, in terms of the inputs alone. */
  lemma DecisionFromInputs(
    command: string, meta: M.Meta, dispatch: M.Dispatch, preflight: M.Preflight, whitelist: M.Whitelist,
    switches: M.Switches, answers: M.Answers)
    ensures FinalDecision(command, meta, dispatch, preflight, whitelist, switches, answers) ==
            M.DecisionFromInputs(meta, dispatch, preflight, whitelist, switches, answers)
    ensures FinalResponse(command, meta, dispatch, preflight, whitelist, switches, answers).verdict.status ==
            M.StatusFromInputs(meta, dispatch, preflight, whitelist, switches, answers)
  {
    hide M.BeforePolicy, M.Effective, M.Finalized, M.Checked, M.DecisionFromInputs, M.StatusFromInputs;
    if switches.commandExec {
      M.DecidedFromInputs(command, meta, dispatch, preflight, whitelist, switches, answers);
    } else {
      M.DisabledFromInputs(command, meta, dispatch, preflight, whitelist, switches, EMPTY_META, NO_WHITELIST, answers);
    }
  }

  /** When a precheck ends "ok" although the recorded decision is stricter than "allow". */
  lemma StricterOkFromInputs(
    command: string, meta: M.Meta, dispatch: M.Dispatch, preflight: M.Preflight, whitelist: M.Whitelist,
    switches: M.Switches, answers: M.Answers)
    ensures && FinalResponse(command, meta, dispatch, preflight, whitelist, switches, answers).verdict.status == M.Ok
            && FinalDecision(command, meta, dispatch, preflight, whitelist, switches, answers) != Allow <==>
              && M.Passes(meta, dispatch, preflight, whitelist, switches, answers.resolved)
              && switches.mode == OpaEnforced && answers.opa.Some?
              && OrDeny(answers.opa.value.result) in {Confirm, Elevate}
              && (switches.strictest ==> !FlaggedCommand(meta, answers))
  {
    hide M.BeforePolicy, M.Effective, M.Finalized, M.Flagged, M.FlaggedTarget, M.Gated, M.DispatchUnavailable, OrDeny;
    M.OkExactly(M.Checked(command, meta, dispatch, preflight, whitelist, switches),
                SeenMeta(meta, switches), SeenWhitelist(whitelist, switches), switches, answers);
    if switches.commandExec {
      M.PassesExactly(command, meta, dispatch, preflight, whitelist, switches, answers);
    } else {
      M.DisabledNeverPasses(command, EMPTY_META, NO_WHITELIST, switches, answers);
    }
  }

  lemma TicketFromInputs(
    command: string, meta: M.Meta, dispatch: M.Dispatch, preflight: M.Preflight, whitelist: M.Whitelist,
    switches: M.Switches, answers: M.Answers)
    requires answers.ticketId != ""
    ensures var checked := M.Checked(command, meta, dispatch, preflight, whitelist, switches);
            var seen, matched := SeenMeta(meta, switches), SeenWhitelist(whitelist, switches);
            var d := M.Decided(checked, seen, matched, switches, answers);
            var final := FinalResponse(command, meta, dispatch, preflight, whitelist, switches, answers);
            var asks := final.verdict.status == M.ConfirmationRequired || final.verdict.status == M.ElevationRequired;
            && M.NeedsTicket(d) == asks
            && (asks ==>
                  M.TicketFor(d) ==
                  M.Issue(final.command, final.verdict.status == M.ElevationRequired, answers.decisionId))
            && final.ticket == (if asks then answers.ticketId else "")
            && final.decisionId == answers.decisionId
            && (final.verdict.requiresConfirmation <==> asks)
            && (final.verdict.requiresElevation <==> final.verdict.status == M.ElevationRequired)
            && var result := FinalDecision(command, meta, dispatch, preflight, whitelist, switches, answers);
               && (result == ManualRequired ==> final.verdict.approvalPolicy == "manual_required")
               && (result == Deny ==> final.verdict.approvalPolicy == "deny")
               && (result != ManualRequired && result != Deny ==>
                     && (final.verdict.status == M.ConfirmationRequired ==>
                           final.verdict.approvalPolicy == "confirmation_required")
                     && (final.verdict.status == M.ElevationRequired ==>
                           final.verdict.approvalPolicy == "elevation_required"))
  {
    hide M.BeforePolicy, M.Effective, M.Checked, M.NeedsTicket, M.TicketFor;
    M.CheckedIsCoherent(command, meta, dispatch, preflight, whitelist, switches);
    M.TicketExactly(M.Checked(command, meta, dispatch, preflight, whitelist, switches),
                    SeenMeta(meta, switches), SeenWhitelist(whitelist, switches), switches, answers);
  }

  /** A denial or a request for manual approval names the engine. */
  lemma PolicySays(r: M.Response, meta: M.Meta, whitelist: M.Whitelist, switches: M.Switches, answers: M.Answers)
    ensures var message := M.Finalized(r, meta, whitelist, switches, answers).verdict.message;
            var result := M.Effective(M.BeforePolicy(r, meta, whitelist, switches, answers), switches, answers).result;
            var engine := if switches.mode == OpaEnforced then "opa" else "python-inline";
            && (result == Deny ==> "policy denied by " + engine + ": " <= message)
            && (result == ManualRequired ==> "policy requires manual approval by " + engine + ": " <= message)
  {
    hide M.BeforePolicy, M.NeedsApproval, M.Denied, M.Effective, M.NeedsTicket;
    var b := M.BeforePolicy(r, meta, whitelist, switches, answers);
    M.ReasonByText(b, switches, answers);
    var o := M.Effective(b, switches, answers);
    M.ManualText(o.engine, o.reason);
  }

  lemma CheckedKeeps(
    command: string, meta: M.Meta, dispatch: M.Dispatch, preflight: M.Preflight, whitelist: M.Whitelist,
    switches: M.Switches)
    ensures var r := M.Checked(command, meta, dispatch, preflight, whitelist, switches);
            && r.command == (if switches.commandExec then meta.command else command)
            && r.dispatch == (if switches.commandExec then dispatch else M.Dispatch("", false, false, ""))
            && r.target.id == ""
            && r.commandType ==
               (if switches.commandExec && meta.commandType.Some? then meta.commandType.value else "unknown")
            && r.target.kind == (if !switches.commandExec then ""
                                 else if meta.targetKind.Some? then meta.targetKind.value else "runtime_node")
            && r.target.identity ==
               (if !switches.commandExec then ""
                else if meta.targetIdentity.Some? then meta.targetIdentity.value else "runtime:local")
  {
    hide Lower, M.DispatchUnavailable, M.NoExecutor, M.PreflightFailed, M.AskConfirmation, M.WriteGate;
  }

  /** A whole precheck. It ends "ok" exactly when nothing stands in the way before the
      policy and the policy lets it pass, so with the strictest switch never on a flagged
      target; and it issues a ticket exactly when it asks for something, for the command
      and decision of the response. */
  method PrecheckCommand(
    command: string, meta: M.Meta, dispatch: M.Dispatch, preflight: M.Preflight, whitelist: M.Whitelist,
    switches: M.Switches, answers: M.Answers)
    returns (r: PrecheckResponse, decision: Severity, issue: Option<M.Issue>)
    requires answers.ticketId != ""
    ensures fresh(r)
    ensures r.View() == FinalResponse(command, meta, dispatch, preflight, whitelist, switches, answers)
    ensures decision == FinalDecision(command, meta, dispatch, preflight, whitelist, switches, answers)
    ensures r.status == M.Ok <==>
              && M.Passes(meta, dispatch, preflight, whitelist, switches, answers.resolved)
              && M.LetsPass(FlaggedCommand(meta, answers), switches, answers.opa)
    ensures switches.mode != OpaEnforced ==>
              decision == M.LocalFromInputs(meta, dispatch, preflight, whitelist, switches, answers)
    ensures switches.mode == OpaEnforced && answers.opa.None? ==>
              && decision == Deny
              && r.message == "policy denied by opa: " + ("opa unavailable (fail-closed): " + answers.opaError)
    ensures switches.mode == OpaEnforced && answers.opa.Some? ==>
              var text := Lower(Strip(answers.opa.value.result));
              var local := M.LocalFromInputs(meta, dispatch, preflight, whitelist, switches, answers);
              var flagged := M.TargetUnknown(meta, switches, answers.registry) || M.RegistryManual(answers.registry);
              decision ==
              if text in {"allow", "approved", "ok", "pass"} then
                if switches.strictest then local else if flagged then ManualRequired else Allow
              else if text == "confirm" then if switches.strictest && local != Allow then local else Confirm
              else if text == "elevate" then
                if switches.strictest && local in {ManualRequired, Deny} then local else Elevate
              else if text == "manual_required" then
                if switches.strictest && local == Deny then Deny else ManualRequired
              else Deny
    ensures switches.mode == OpaEnforced && answers.opa.Some? ==>
              var text := Lower(Strip(answers.opa.value.result));
              text !in {"allow", "approved", "ok", "pass", "confirm", "elevate", "manual_required"} ==>
                r.message == "policy denied by opa: " + answers.opa.value.reason
    ensures decision == Deny ==> r.status == M.PermissionRequired
    ensures decision == ManualRequired ==>
              r.status ==
              if switches.commandExec && meta.requiresWrite then M.ElevationRequired else M.ConfirmationRequired
    ensures decision in {Allow, Confirm, Elevate} ==>
              r.status == M.StatusBefore(meta, dispatch, preflight, whitelist, switches, answers.resolved)
    ensures r.status == M.Ok && decision != Allow <==>
              && M.Passes(meta, dispatch, preflight, whitelist, switches, answers.resolved)
              && switches.mode == OpaEnforced && answers.opa.Some?
              && OrDeny(answers.opa.value.result) in {Confirm, Elevate}
              && (switches.strictest ==> !FlaggedCommand(meta, answers))
    ensures r.status == M.Ok && FlaggedCommand(meta, answers) ==> !switches.strictest
    ensures r.requiresConfirmation <==> r.status == M.ConfirmationRequired || r.status == M.ElevationRequired
    ensures r.requiresElevation <==> r.status == M.ElevationRequired
    ensures decision == ManualRequired ==> r.approvalPolicy == "manual_required"
    ensures decision == Deny ==> r.approvalPolicy == "deny"
    ensures decision in {Allow, Confirm, Elevate} ==>
              && (r.status == M.ConfirmationRequired ==> r.approvalPolicy == "confirmation_required")
              && (r.status == M.ElevationRequired ==> r.approvalPolicy == "elevation_required")
    ensures var engine := if switches.mode == OpaEnforced then "opa" else "python-inline";
            && (decision == Deny ==> "policy denied by " + engine + ": " <= r.message)
            && (decision == ManualRequired ==> "policy requires manual approval by " + engine + ": " <= r.message)
    ensures r.command == if switches.commandExec then meta.command else command
    ensures r.commandType ==
            if switches.commandExec && meta.commandType.Some? then meta.commandType.value else "unknown"
    ensures r.targetKind == if !switches.commandExec then ""
                            else if meta.targetKind.Some? then meta.targetKind.value else "runtime_node"
    ensures r.targetIdentity == if !switches.commandExec then ""
                                else if meta.targetIdentity.Some? then meta.targetIdentity.value else "runtime:local"
    ensures r.dispatch == if Strip(r.command) != "" then answers.resolved
                          else if switches.commandExec then dispatch else M.Dispatch("", false, false, "")
    ensures r.targetId == if Strip(answers.registry.targetId) == "" then "" else answers.registry.targetId
    ensures r.decisionId == answers.decisionId
    ensures issue == if r.status == M.ConfirmationRequired || r.status == M.ElevationRequired
                     then Some(M.Issue(r.command, r.status == M.ElevationRequired, r.decisionId)) else None
    ensures r.ticket == if issue.Some? then answers.ticketId else ""
  {
    hide M.Finalized, M.BeforePolicy, M.Effective, M.Passes, M.LetsPass, M.Decided, M.NeedsTicket;
    hide M.TicketFor, M.Checked, FlaggedCommand, M.DecisionFromInputs, OrDeny;
    hide M.LocalFromInputs, M.TargetUnknown, M.RegistryManual, M.StatusBefore, Lower, Strip;
    M.DecisionByText(meta, dispatch, preflight, whitelist, switches, answers);
    DecisionFromInputs(command, meta, dispatch, preflight, whitelist, switches, answers);
    StricterOkFromInputs(command, meta, dispatch, preflight, whitelist, switches, answers);
    OkFromInputs(command, meta, dispatch, preflight, whitelist, switches, answers);
    FlaggedNeverPasses(meta, switches, answers);
    TicketFromInputs(command, meta, dispatch, preflight, whitelist, switches, answers);
    FieldsKept(M.Checked(command, meta, dispatch, preflight, whitelist, switches), SeenMeta(meta, switches),
               SeenWhitelist(whitelist, switches), switches, answers);
    CheckedKeeps(command, meta, dispatch, preflight, whitelist, switches);
    PolicySays(M.Checked(command, meta, dispatch, preflight, whitelist, switches), SeenMeta(meta, switches),
               SeenWhitelist(whitelist, switches), switches, answers);
    if switches.mode == OpaEnforced {
      M.DenialByOpa(M.Checked(command, meta, dispatch, preflight, whitelist, switches), SeenMeta(meta, switches),
                    SeenWhitelist(whitelist, switches), switches, answers);
    }
    r := CheckCommand(command, meta, dispatch, preflight, whitelist, switches);
    var seen := if switches.commandExec then meta else EMPTY_META;
    var matched := if switches.commandExec then whitelist else NO_WHITELIST;
    decision, issue := r.Finalize(seen, matched, switches, answers);
  }

  lemma ManualIsRefused(
    meta: M.Meta, dispatch: M.Dispatch, preflight: M.Preflight, whitelist: M.Whitelist, switches: M.Switches,
    resolved: M.Dispatch)
    ensures || M.ClassifiedManual(meta, dispatch, switches, resolved)
            || M.DispatchMissing(meta, dispatch, switches, resolved)
            ==> M.StatusBefore(meta, dispatch, preflight, whitelist, switches, resolved) == M.PermissionRequired
  {
    hide M.DispatchUnavailable, M.TakenBack;
  }

  /** When a precheck ends refused: a refusal reaches the policy and is not lifted, or OPA
      denies what else would have been let through or asked for. */
  lemma RefusedFromInputs(
    command: string, meta: M.Meta, dispatch: M.Dispatch, preflight: M.Preflight, whitelist: M.Whitelist,
    switches: M.Switches, answers: M.Answers)
    ensures FinalResponse(command, meta, dispatch, preflight, whitelist, switches, answers).verdict.status ==
            M.PermissionRequired <==>
              if M.StatusBefore(meta, dispatch, preflight, whitelist, switches, answers.resolved) ==
                 M.PermissionRequired
              then
                var unknown := M.TargetUnknown(meta, switches, answers.registry);
                var manual :=
                  || M.RegistryManual(answers.registry)
                  || M.ClassifiedManual(meta, dispatch, switches, answers.resolved)
                  || (unknown && M.DispatchMissing(meta, dispatch, switches, answers.resolved));
                !M.Lifts(manual, unknown || M.RegistryManual(answers.registry), switches, answers.opa)
              else
                && switches.mode == OpaEnforced
                && (answers.opa.None? || OrDeny(answers.opa.value.result) == Deny)
  {
    hide M.StatusBefore, M.ClassifiedManual, M.DispatchMissing, M.TargetUnknown, M.RegistryManual, OrDeny;
    hide FinalResponse, FinalDecision;
    DecisionFromInputs(command, meta, dispatch, preflight, whitelist, switches, answers);
    ManualIsRefused(meta, dispatch, preflight, whitelist, switches, answers.resolved);
  }
}
