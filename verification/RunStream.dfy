/** The event stream of one run: a generator that merges backlog reads of the log
    with its live subscriber queue under a single cursor, `last`.

    The generator is cut at its suspension points (every `yield` and the wait on
    the queue). Between two cuts it runs alone; at a cut any number of events may
    be appended to the log. */
module RunStreamProtocol {
  import opened Options
  import opened EventStore

  const BACKLOG_LIMIT: nat := 5000
  /** Idle time, in milliseconds, after which a finished run's stream closes. */
  const IDLE_CLOSE_MS := 600

  datatype Pc =
    | Top                         // about to read the backlog
    | Draining(rest: seq<Event>)  // suspended inside the backlog loop
    | Waiting(terminal: bool)     // suspended on the queue
    | Stopped(idle: bool)         // closed by the idle rule, or cancelled

  datatype State = State(
    log: seq<Event>,        // the run's event log
    queue: seq<Event>,      // the subscriber queue of this stream
    after: nat,             // the cursor the client asked for
    last: nat,              // sequence number of the last event emitted
    emitted: seq<Event>,    // everything sent to the client
    observedAt: Option<int>,
    pc: Pc)

  /** What can happen next. `terminal` and `now` are the run status and the clock
      as the generator would read them in that step. */
  datatype Action =
    | Append(event: Event)
    | Turn(terminal: bool, now: int)
    | Resume(terminal: bool)
    | Receive
    | TimeOut
    | Cancel

  function Start(log: seq<Event>, after: nat): State {
    State(log, [], after, after, [], None, Top)
  }

  function Emit(s: State, event: Event): State {
    s.(last := event.seqNo, emitted := s.emitted + [event])
  }

  function SkipStale(rows: seq<Event>, last: nat): seq<Event> {
    if rows != [] && rows[0].seqNo <= last then SkipStale(rows[1..], last) else rows
  }

  /** The check after the backlog loop. */
  function Settle(s: State, emittedBacklog: bool, terminal: bool, now: int): State {
    if terminal && !emittedBacklog then
      match s.observedAt
      case None => s.(observedAt := Some(now), pc := Waiting(terminal))
      case Some(since) =>
        if now - since >= IDLE_CLOSE_MS then s.(pc := Stopped(true)) else s.(pc := Waiting(terminal))
    else
      s.(observedAt := None, pc := Waiting(terminal))
  }

  /** Runs the backlog loop up to its next `yield`. */
  function Drain(s: State, rows: seq<Event>): State {
    var newer := SkipStale(rows, s.last);
    if newer == [] then s.(pc := Draining([])) else Emit(s, newer[0]).(pc := Draining(newer[1..]))
  }

  predicate Enabled(s: State, a: Action) {
    match a
    case Append(_) => !s.pc.Stopped?
    case Turn(_, _) => s.pc.Top?
    case Resume(_) => s.pc.Draining?
    case Receive => s.pc.Waiting? && s.queue != []
    case TimeOut => s.pc.Waiting?
    case Cancel => !s.pc.Stopped?
  }

  /** `append_event`: the log grows and the subscriber queue gets the same event. */
  function DoAppend(s: State, event: Event): State {
    var numbered := event.(seqNo := |s.log| + 1);
    s.(log := s.log + [numbered], queue := s.queue + [numbered])
  }

  /** From the top of the loop to its next suspension point. */
  function DoTurn(s: State, terminal: bool, now: int): State {
    var rows := Window(s.log, s.last, BACKLOG_LIMIT);
    if SkipStale(rows, s.last) == [] then Settle(s, false, terminal, now) else Drain(s, rows)
  }

  function DoResume(s: State, rest: seq<Event>, terminal: bool): State {
    if SkipStale(rest, s.last) == [] then Settle(s, true, terminal, 0) else Drain(s, rest)
  }

  function DoReceive(s: State): State
    requires s.queue != []
  {
    var item := s.queue[0];
    var taken := s.(queue := s.queue[1..], pc := Top);
    if item.seqNo <= s.last then taken else Emit(taken, item)
  }

  function Next(s: State, a: Action): State
    requires Enabled(s, a)
  {
    match a
    case Append(event) => DoAppend(s, event)
    case Turn(terminal, now) => DoTurn(s, terminal, now)
    case Resume(terminal) => DoResume(s, s.pc.rest, terminal)
    case Receive => DoReceive(s)
    case TimeOut => s.(pc := Top)
    case Cancel => s.(pc := Stopped(false))
  }

  /** Any schedule is a run: an action that is not enabled does nothing. */
  function Step(s: State, a: Action): State {
    if Enabled(s, a) then Next(s, a) else s
  }

  function Run(s: State, schedule: seq<Action>): State
    decreases |schedule|
  {
    if schedule == [] then s else Run(Step(s, schedule[0]), schedule[1..])
  }

  // ----- What the client sees -----

  /** The logged events with sequence number in (from, to]. */
  function Between(log: seq<Event>, from: nat, to: nat): seq<Event>
    requires to <= |log| || to <= from
  {
    if to <= from then [] else log[from..to]
  }

  ghost predicate Increasing(events: seq<Event>) {
    forall i, j :: 0 <= i < j < |events| ==> events[i].seqNo < events[j].seqNo
  }

  /** The client got every event of (after, last], once and in order. */
  ghost predicate GapFree(s: State) {
    (s.last <= s.after || s.last <= |s.log|) && s.emitted == Between(s.log, s.after, s.last)
  }

  // ----- Every run -----

  ghost predicate IsTail(items: seq<Event>, log: seq<Event>) {
    |items| <= |log| && items == log[|log| - |items|..]
  }

  /** What was sent is logged, newer than `after`, in order, and ends at `last`. */
  ghost predicate SentOrdered(log: seq<Event>, after: nat, last: nat, emitted: seq<Event>) {
    && after <= last
    && (emitted == [] <==> last == after)
    && (emitted != [] ==> last <= |log| && emitted[|emitted| - 1].seqNo == last)
    && Increasing(emitted)
    && forall e :: e in emitted ==> after < e.seqNo <= |log| && log[e.seqNo - 1] == e
  }

  ghost predicate SnapshotValid(s: State) {
    s.pc.Draining? ==> s.last + |s.pc.rest| <= |s.log| && s.pc.rest == s.log[s.last..s.last + |s.pc.rest|]
  }

  ghost predicate Ordered(s: State) {
    && Numbered(s.log)
    && (!s.pc.Stopped? ==> IsTail(s.queue, s.log))
    && SnapshotValid(s)
    && SentOrdered(s.log, s.after, s.last, s.emitted)
  }

  lemma SentEmit(log: seq<Event>, after: nat, last: nat, emitted: seq<Event>, e: Event)
    requires SentOrdered(log, after, last, emitted)
    requires last < e.seqNo <= |log| && log[e.seqNo - 1] == e
    ensures SentOrdered(log, after, e.seqNo, emitted + [e])
  {
  }

  lemma SentAppend(log: seq<Event>, after: nat, last: nat, emitted: seq<Event>, e: Event)
    requires SentOrdered(log, after, last, emitted)
    ensures SentOrdered(log + [e], after, last, emitted)
  {
  }

  /** Backlog rows always start just after the cursor, so none is skipped. */
  lemma DrainRows(s: State, rows: seq<Event>)
    requires Ordered(s) && s.last + |rows| <= |s.log| && rows == s.log[s.last..s.last + |rows|]
    ensures SkipStale(rows, s.last) == rows
    ensures rows != [] ==>
              Drain(s, rows) ==
              s.(last := s.last + 1, emitted := s.emitted + [s.log[s.last]], pc := Draining(rows[1..]))
  {
    if rows != [] {
      assert rows[0] == s.log[s.last];
    }
  }

  lemma WindowRows(log: seq<Event>, last: nat)
    ensures var rows := Window(log, last, BACKLOG_LIMIT);
            && |rows| == (if last >= |log| then 0 else Min(BACKLOG_LIMIT, |log| - last))
            && (rows != [] ==> last + |rows| <= |log| && rows == log[last..last + |rows|])
  {
  }

  lemma DrainOrdered(s: State, rows: seq<Event>)
    requires Ordered(s) && !s.pc.Stopped? && rows != []
    requires s.last + |rows| <= |s.log| && rows == s.log[s.last..s.last + |rows|]
    ensures Ordered(Drain(s, rows))
  {
    hide SkipStale, Drain, SentOrdered, IsTail;
    DrainRows(s, rows);
    assert rows[0] == s.log[s.last];
    SentEmit(s.log, s.after, s.last, s.emitted, s.log[s.last]);
    assert rows[1..] == s.log[s.last + 1..s.last + |rows|];
  }

  lemma SettleOrdered(s: State, emittedBacklog: bool, terminal: bool, now: int)
    requires Ordered(s) && !s.pc.Stopped?
    ensures Ordered(Settle(s, emittedBacklog, terminal, now))
  {
  }

  lemma AppendOrdered(s: State, event: Event)
    requires Ordered(s) && !s.pc.Stopped?
    ensures Ordered(DoAppend(s, event))
  {
    SentAppend(s.log, s.after, s.last, s.emitted, event.(seqNo := |s.log| + 1));
  }

  lemma TurnPlain(s: State, terminal: bool, now: int)
    requires Ordered(s) && s.pc.Top?
    ensures var rows := Window(s.log, s.last, BACKLOG_LIMIT);
            DoTurn(s, terminal, now) == if rows == [] then Settle(s, false, terminal, now) else Drain(s, rows)
  {
    WindowRows(s.log, s.last);
    var rows := Window(s.log, s.last, BACKLOG_LIMIT);
    if rows != [] {
      DrainRows(s, rows);
    }
  }

  lemma TurnOrdered(s: State, terminal: bool, now: int)
    requires Ordered(s) && s.pc.Top?
    ensures Ordered(DoTurn(s, terminal, now))
  {
    TurnPlain(s, terminal, now);
    WindowRows(s.log, s.last);
    var rows := Window(s.log, s.last, BACKLOG_LIMIT);
    if rows == [] {
      SettleOrdered(s, false, terminal, now);
    } else {
      DrainOrdered(s, rows);
    }
  }

  lemma ResumeOrdered(s: State, terminal: bool)
    requires Ordered(s) && s.pc.Draining?
    ensures Ordered(DoResume(s, s.pc.rest, terminal))
  {
    DrainRows(s, s.pc.rest);
    if s.pc.rest == [] {
      SettleOrdered(s, true, terminal, 0);
    } else {
      DrainOrdered(s, s.pc.rest);
    }
  }

  lemma ReceiveOrdered(s: State)
    requires Ordered(s) && s.pc.Waiting? && s.queue != []
    ensures Ordered(DoReceive(s))
  {
    var item := s.queue[0];
    assert item == s.log[|s.log| - |s.queue|];
    if item.seqNo > s.last {
      SentEmit(s.log, s.after, s.last, s.emitted, item);
    }
  }

  lemma OrderedStep(s: State, a: Action)
    requires Ordered(s)
    ensures Ordered(Step(s, a))
  {
    if Enabled(s, a) {
      match a
      case Append(event) => AppendOrdered(s, event);
      case Turn(terminal, now) => TurnOrdered(s, terminal, now);
      case Resume(terminal) => ResumeOrdered(s, terminal);
      case Receive => ReceiveOrdered(s);
      case TimeOut =>
      case Cancel =>
    }
  }

  lemma {:induction false} OrderedRun(s: State, schedule: seq<Action>)
    requires Ordered(s)
    ensures Ordered(Run(s, schedule))
    decreases |schedule|
  {
    if schedule != [] {
      OrderedStep(s, schedule[0]);
      OrderedRun(Step(s, schedule[0]), schedule[1..]);
    }
  }

  lemma {:induction false} RunKeepsCursor(s: State, schedule: seq<Action>)
    ensures var t := Run(s, schedule);
            t.after == s.after && s.log <= t.log
    decreases |schedule|
  {
    if schedule != [] {
      RunKeepsCursor(Step(s, schedule[0]), schedule[1..]);
    }
  }

  /** Whatever the backlog and the interleaving: only logged events after the
      client's cursor are sent, in log order and never twice. */
  lemma StreamIsOrdered(log: seq<Event>, after: nat, schedule: seq<Action>)
    requires Numbered(log)
    ensures var s := Run(Start(log, after), schedule);
            && Increasing(s.emitted)
            && forall e :: e in s.emitted ==> after < e.seqNo <= |s.log| && s.log[e.seqNo - 1] == e
  {
    OrderedRun(Start(log, after), schedule);
    RunKeepsCursor(Start(log, after), schedule);
  }

  // ----- No gaps -----

  /** Everything that is no longer in the queue was emitted, or is in the backlog
      snapshot, or fits in the next one. */
  ghost predicate Covered(s: State) {
    match s.pc
    case Top => |s.log| - |s.queue| <= s.last + BACKLOG_LIMIT
    case Draining(rest) => |s.log| - |s.queue| <= s.last + |rest|
    case Waiting(_) => |s.log| - |s.queue| <= s.last
    case Stopped(idle) => idle ==> |s.log| <= s.last
  }

  ghost predicate Exact(s: State) {
    Ordered(s) && Covered(s) && GapFree(s)
  }

  lemma EmitNextIsGapFree(s: State)
    requires GapFree(s) && s.after <= s.last < |s.log| && s.log[s.last].seqNo == s.last + 1
    ensures GapFree(Emit(s, s.log[s.last]))
  {
    assert s.log[s.after..s.last + 1] == s.log[s.after..s.last] + [s.log[s.last]];
  }

  lemma DrainExact(s: State, rows: seq<Event>)
    requires Ordered(s) && GapFree(s) && !s.pc.Stopped? && rows != []
    requires s.last + |rows| <= |s.log| && rows == s.log[s.last..s.last + |rows|]
    requires |s.log| - |s.queue| <= s.last + |rows|
    ensures GapFree(Drain(s, rows)) && Covered(Drain(s, rows))
  {
    DrainRows(s, rows);
    EmitNextIsGapFree(s);
  }

  lemma AppendExact(s: State, event: Event)
    requires Exact(s) && !s.pc.Stopped?
    ensures GapFree(DoAppend(s, event)) && Covered(DoAppend(s, event))
  {
    if s.last > s.after {
      assert DoAppend(s, event).log[s.after..s.last] == s.log[s.after..s.last];
    }
  }

  lemma TurnExact(s: State, terminal: bool, now: int)
    requires Exact(s) && s.pc.Top?
    ensures GapFree(DoTurn(s, terminal, now)) && Covered(DoTurn(s, terminal, now))
  {
    hide SkipStale, Drain, SentOrdered, IsTail, Window;
    TurnPlain(s, terminal, now);
    WindowRows(s.log, s.last);
    var rows := Window(s.log, s.last, BACKLOG_LIMIT);
    if rows != [] {
      DrainExact(s, rows);
    }
  }

  lemma ResumeExact(s: State, terminal: bool)
    requires Exact(s) && s.pc.Draining?
    ensures GapFree(DoResume(s, s.pc.rest, terminal)) && Covered(DoResume(s, s.pc.rest, terminal))
  {
    DrainRows(s, s.pc.rest);
    if s.pc.rest != [] {
      DrainExact(s, s.pc.rest);
    }
  }

  lemma ReceiveExact(s: State)
    requires Exact(s) && s.pc.Waiting? && s.queue != []
    ensures GapFree(DoReceive(s)) && Covered(DoReceive(s))
  {
    var item := s.queue[0];
    assert item == s.log[|s.log| - |s.queue|];
    if item.seqNo > s.last {
      assert item == s.log[s.last];
      EmitNextIsGapFree(s);
    }
  }

  lemma ExactStep(s: State, a: Action)
    requires Exact(s)
    ensures Exact(Step(s, a))
  {
    OrderedStep(s, a);
    if Enabled(s, a) {
      match a
      case Append(event) => AppendExact(s, event);
      case Turn(terminal, now) => TurnExact(s, terminal, now);
      case Resume(terminal) => ResumeExact(s, terminal);
      case Receive => ReceiveExact(s);
      case TimeOut =>
      case Cancel =>
    }
  }

  lemma {:induction false} ExactRun(s: State, schedule: seq<Action>)
    requires Exact(s)
    ensures Exact(Run(s, schedule))
    decreases |schedule|
  {
    if schedule != [] {
      ExactStep(s, schedule[0]);
      ExactRun(Step(s, schedule[0]), schedule[1..]);
    }
  }

  /** With at most 5000 undelivered events at subscription, every
      schedule delivers (after, last] without a gap, and a stream that closes by
      the idle rule has delivered everything that was logged. */
  lemma StreamIsExact(log: seq<Event>, after: nat, schedule: seq<Action>)
    requires Numbered(log)
    requires |log| <= after + 5000
    ensures var s := Run(Start(log, after), schedule);
            && GapFree(s)
            && (s.pc == Stopped(true) ==> s.emitted == s.log[Min(after, |s.log|)..])
  {
    ExactRun(Start(log, after), schedule);
    RunKeepsCursor(Start(log, after), schedule);
  }

  // ----- The bound is sharp -----

  lemma {:induction false} RunConcat(s: State, first: seq<Action>, second: seq<Action>)
    ensures Run(s, first + second) == Run(Run(s, first), second)
    decreases |first|
  {
    if first == [] {
      assert first + second == second;
    } else {
      assert (first + second)[0] == first[0];
      assert (first + second)[1..] == first[1..] + second;
      RunConcat(Step(s, first[0]), first[1..], second);
    }
  }

  function Resumes(n: nat): seq<Action> {
    seq(n, i => Resume(false))
  }

  lemma ResumeMoves(s: State)
    requires Ordered(s) && s.pc.Draining?
    ensures var rest, t := s.pc.rest, DoResume(s, s.pc.rest, false);
            && Ordered(t) && t.log == s.log && t.queue == s.queue
            && if rest == [] then t.pc == Waiting(false) && t.last == s.last && t.emitted == s.emitted
               else t.pc == Draining(rest[1..]) && t.last == s.last + 1 && |t.emitted| == |s.emitted| + 1
  {
    hide SkipStale, Drain, SentOrdered, IsTail;
    DrainRows(s, s.pc.rest);
    ResumeOrdered(s, false);
  }

  /** Resuming once per row of the snapshot, and once more, ends in the wait. */
  lemma {:induction false} ResumesDrain(s: State)
    requires Ordered(s) && s.pc.Draining?
    ensures var t := Run(s, Resumes(|s.pc.rest| + 1));
            && t.last == s.last + |s.pc.rest| && t.pc == Waiting(false)
            && t.log == s.log && t.queue == s.queue
            && |t.emitted| == |s.emitted| + |s.pc.rest|
    decreases |s.pc.rest|
  {
    hide Ordered, SkipStale, Drain;
    var rest := s.pc.rest;
    ResumeMoves(s);
    var next := DoResume(s, rest, false);
    assert next == Step(s, Resume(false));
    var schedule := Resumes(|rest| + 1);
    assert schedule[0] == Resume(false) && schedule[1..] == Resumes(|rest|);
    if rest != [] {
      ResumesDrain(next);
    } else {
      assert schedule[1..] == [];
    }
  }

  /** The schedule that loses events: read a full backlog, append one event while
      it is being sent, and take that event from the queue. */
  function LosingSchedule(event: Event): seq<Action> {
    [Turn(false, 0)] + [Append(event)] + Resumes(BACKLOG_LIMIT) + [Receive]
  }

  lemma RunOne(s: State, a: Action)
    ensures Run(s, [a]) == Step(s, a)
  {
    assert [a][1..] == [];
  }

  /** The first turn reads a full batch and sends its first row. */
  lemma LosingTurn(log: seq<Event>, after: nat)
    requires Numbered(log)
    requires |log| > after + BACKLOG_LIMIT
    ensures var s := Step(Start(log, after), Turn(false, 0));
            && Ordered(s) && s.pc.Draining? && |s.pc.rest| == BACKLOG_LIMIT - 1
            && s.last == after + 1 && |s.emitted| == 1 && s.log == log && s.queue == []
  {
    var s0 := Start(log, after);
    var rows := Window(log, after, BACKLOG_LIMIT);
    TurnPlain(s0, false, 0);
    WindowRows(log, after);
    DrainRows(s0, rows);
    OrderedStep(s0, Turn(false, 0));
    assert Step(s0, Turn(false, 0)) == DoTurn(s0, false, 0) == Drain(s0, rows);
  }

  lemma LosingScheduleSteps(s: State, event: Event)
    ensures Run(s, LosingSchedule(event)) ==
            Step(Run(Step(Step(s, Turn(false, 0)), Append(event)), Resumes(BACKLOG_LIMIT)), Receive)
  {
    var opening := [Turn(false, 0)] + [Append(event)];
    RunOne(s, Turn(false, 0));
    RunOne(Step(s, Turn(false, 0)), Append(event));
    RunConcat(s, [Turn(false, 0)], [Append(event)]);
    RunConcat(s, opening, Resumes(BACKLOG_LIMIT));
    RunOne(Run(s, opening + Resumes(BACKLOG_LIMIT)), Receive);
    RunConcat(s, opening + Resumes(BACKLOG_LIMIT), [Receive]);
  }

  lemma LargeBacklogLosesEvents(log: seq<Event>, after: nat, event: Event)
    requires Numbered(log)
    requires |log| > after + 5000
    ensures !GapFree(Run(Start(log, after), LosingSchedule(event)))
  {
    hide Ordered, Run, SkipStale, Drain, DoTurn, DoResume, LosingSchedule;
    var s0 := Start(log, after);
    LosingScheduleSteps(s0, event);
    LosingTurn(log, after);
    var s1 := Step(s0, Turn(false, 0));
    OrderedStep(s1, Append(event));
    var s2 := DoAppend(s1, event);
    assert s2 == Step(s1, Append(event));
    ResumesDrain(s2);
    var s3 := Run(s2, Resumes(BACKLOG_LIMIT));
    var s4 := DoReceive(s3);
    assert s4 == Step(s3, Receive);
    assert s4.last == |log| + 1 && |s4.emitted| == BACKLOG_LIMIT + 1;
    RunKeepsCursor(s0, LosingSchedule(event));
  }

  /** Exactly when the stream is gap-free under every interleaving. */
  lemma GapFreeExactly(log: seq<Event>, after: nat)
    requires Numbered(log)
    ensures (forall schedule: seq<Action> :: GapFree(Run(Start(log, after), schedule)))
            <==> |log| <= after + 5000
  {
    if |log| <= after + 5000 {
      forall schedule: seq<Action>
        ensures GapFree(Run(Start(log, after), schedule))
      {
        StreamIsExact(log, after, schedule);
      }
    } else {
      LargeBacklogLosesEvents(log, after, log[0]);
    }
  }

  // ----- When an idle stream closes -----

  /** The state before action n of the schedule. */
  ghost function Before(start: State, schedule: seq<Action>, n: nat): State
    requires n <= |schedule|
  {
    Run(start, schedule[..n])
  }

  /** Action n is a turn that was taken, read this status and sent nothing. */
  ghost predicate QuietTurn(start: State, schedule: seq<Action>, n: nat, terminal: bool) {
    && n < |schedule| && schedule[n].Turn? && schedule[n].terminal == terminal
    && Before(start, schedule, n).pc.Top?
    && Before(start, schedule, n + 1).emitted == Before(start, schedule, n).emitted
  }

  /** Action n sent from the backlog or ended that, or is a turn that read a running run. */
  ghost predicate Breaks(start: State, schedule: seq<Action>, n: nat) {
    && n < |schedule|
    && (|| QuietTurn(start, schedule, n, false)
        || (&& schedule[n].Turn? && Before(start, schedule, n).pc.Top?
            && Before(start, schedule, n + 1).emitted != Before(start, schedule, n).emitted)
        || (schedule[n].Resume? && Before(start, schedule, n).pc.Draining?))
  }

  /** Every quiet turn of a finished run before n was followed by a break. */
  ghost predicate Unwatched(start: State, schedule: seq<Action>, n: nat) {
    forall m: nat :: m < n && QuietTurn(start, schedule, m, true) ==>
      exists b :: m < b < n && Breaks(start, schedule, b)
  }

  /** At action i the run was first seen finished and quiet, and nothing broke this before n. */
  ghost predicate Watched(start: State, schedule: seq<Action>, i: nat, n: nat) {
    && i < n && QuietTurn(start, schedule, i, true) && Unwatched(start, schedule, i)
    && forall b :: i < b < n ==> !Breaks(start, schedule, b)
  }

  /** Action j closes the stream that was first seen finished and quiet at action i. */
  ghost predicate Closes(start: State, schedule: seq<Action>, i: nat, j: nat) {
    && Watched(start, schedule, i, j) && QuietTurn(start, schedule, j, true)
    && schedule[j].now - schedule[i].now >= 600
  }

  /** What the generator remembers of it. */
  ghost predicate Remembers(start: State, schedule: seq<Action>, n: nat, s: State) {
    match s.pc
    case Stopped(idle) =>
      idle <==> exists i: nat, j: nat :: j < n && Closes(start, schedule, i, j)
    case Draining(_) => Unwatched(start, schedule, n)
    case _ =>
      match s.observedAt
      case None => Unwatched(start, schedule, n)
      case Some(since) => exists i: nat :: Watched(start, schedule, i, n) && schedule[i].now == since
  }

  lemma NextState(start: State, schedule: seq<Action>, n: nat)
    requires n < |schedule|
    ensures Before(start, schedule, n + 1) == Step(Before(start, schedule, n), schedule[n])
  {
    assert schedule[..n + 1] == schedule[..n] + [schedule[n]];
    RunConcat(start, schedule[..n], [schedule[n]]);
    RunOne(Before(start, schedule, n), schedule[n]);
  }

  /** What a turn and a resume do to the client and to the memory. */
  lemma TurnEffect(s: State, terminal: bool, now: int)
    ensures var t := DoTurn(s, terminal, now);
            if t.emitted != s.emitted then t.pc.Draining? && t.observedAt == s.observedAt
            else if !terminal then t.pc == Waiting(false) && t.observedAt == None
            else if s.observedAt == None then t.pc == Waiting(true) && t.observedAt == Some(now)
            else if now - s.observedAt.value >= 600 then t.pc == Stopped(true) && t.observedAt == s.observedAt
            else t.pc == Waiting(true) && t.observedAt == s.observedAt
  {
    hide SkipStale, Window;
  }

  lemma ResumeEffect(s: State, rest: seq<Event>, terminal: bool)
    ensures var t := DoResume(s, rest, terminal);
            t.pc.Draining? || (t.pc == Waiting(terminal) && t.observedAt == None)
  {
    hide SkipStale;
  }

  /** An action that is no quiet turn of a finished run and breaks nothing changes no memory. */
  lemma Unaffected(start: State, schedule: seq<Action>, n: nat)
    requires n < |schedule| && !QuietTurn(start, schedule, n, true) && !Breaks(start, schedule, n)
    ensures Unwatched(start, schedule, n) ==> Unwatched(start, schedule, n + 1)
    ensures forall i: nat :: Watched(start, schedule, i, n) ==> Watched(start, schedule, i, n + 1)
    ensures forall i: nat, j: nat :: j < n + 1 && Closes(start, schedule, i, j) ==> j < n
  {
    hide QuietTurn, Breaks;
    if Unwatched(start, schedule, n) {
      forall m: nat | m < n + 1 && QuietTurn(start, schedule, m, true)
        ensures exists b :: m < b < n + 1 && Breaks(start, schedule, b)
      {
        var b :| m < b < n && Breaks(start, schedule, b);
      }
    }
  }

  lemma Broken(start: State, schedule: seq<Action>, n: nat)
    requires Breaks(start, schedule, n)
    ensures Unwatched(start, schedule, n + 1) && !QuietTurn(start, schedule, n, true)
    ensures forall i: nat, j: nat :: j < n + 1 && Closes(start, schedule, i, j) ==> j < n
  {
  }

  /** No stream that goes on has been closed before. */
  ghost predicate NotClosed(start: State, schedule: seq<Action>, n: nat) {
    forall i: nat, j: nat :: j < n ==> !Closes(start, schedule, i, j)
  }

  lemma OneWatch(start: State, schedule: seq<Action>, i: nat, k: nat, n: nat)
    requires Watched(start, schedule, i, n) && Watched(start, schedule, k, n)
    ensures i == k
  {
    hide QuietTurn, Breaks;
  }

  lemma TurnRemembers(start: State, schedule: seq<Action>, n: nat)
    requires n < |schedule| && schedule[n].Turn?
    requires var s := Before(start, schedule, n);
             s.pc.Top? && Remembers(start, schedule, n, s) && NotClosed(start, schedule, n)
    ensures var t := Before(start, schedule, n + 1);
            Remembers(start, schedule, n + 1, t) && (!t.pc.Stopped? ==> NotClosed(start, schedule, n + 1))
  {
    hide Run, DoTurn;
    var s, t, a := Before(start, schedule, n), Before(start, schedule, n + 1), schedule[n];
    NextState(start, schedule, n);
    TurnEffect(s, a.terminal, a.now);
    if Breaks(start, schedule, n) {
      Broken(start, schedule, n);
    } else {
      assert QuietTurn(start, schedule, n, true);
      if s.observedAt == None {
        assert Watched(start, schedule, n, n + 1);
      } else {
        var i: nat :| Watched(start, schedule, i, n) && schedule[i].now == s.observedAt.value;
        assert Watched(start, schedule, i, n + 1);
        if t.pc.Stopped? {
          assert Closes(start, schedule, i, n);
        }
      }
      forall i: nat | Closes(start, schedule, i, n)
        ensures t.pc.Stopped?
      {
        if s.observedAt != None {
          var k: nat :| Watched(start, schedule, k, n) && schedule[k].now == s.observedAt.value;
          OneWatch(start, schedule, i, k, n);
        }
      }
    }
  }

  lemma StepRemembers(start: State, schedule: seq<Action>, n: nat)
    requires n < |schedule|
    requires var s := Before(start, schedule, n);
             Remembers(start, schedule, n, s) && (!s.pc.Stopped? ==> NotClosed(start, schedule, n))
    ensures var t := Before(start, schedule, n + 1);
            Remembers(start, schedule, n + 1, t) && (!t.pc.Stopped? ==> NotClosed(start, schedule, n + 1))
  {
    var s, t, a := Before(start, schedule, n), Before(start, schedule, n + 1), schedule[n];
    NextState(start, schedule, n);
    if a.Turn? && s.pc.Top? {
      TurnRemembers(start, schedule, n);
    } else if a.Resume? && s.pc.Draining? {
      hide Unwatched;
      ResumeEffect(s, s.pc.rest, a.terminal);
      Broken(start, schedule, n);
    } else {
      hide Unwatched;
      Unaffected(start, schedule, n);
    }
  }

  lemma {:induction false} RunRemembers(log: seq<Event>, after: nat, schedule: seq<Action>, n: nat)
    requires n <= |schedule|
    ensures var start := Start(log, after);
            var s := Before(start, schedule, n);
            Remembers(start, schedule, n, s) && (!s.pc.Stopped? ==> NotClosed(start, schedule, n))
    decreases n
  {
    if n > 0 {
      hide Remembers, NotClosed;
      RunRemembers(log, after, schedule, n - 1);
      StepRemembers(Start(log, after), schedule, n - 1);
    } else {
      assert schedule[..0] == [];
    }
  }

  /** The idle rule has closed the stream exactly if the run was seen finished and quiet at
      one turn, again at one at least 600 ms later, and in between nothing was sent from the
      backlog and no turn found it running. */
  lemma IdleCloseExactly(log: seq<Event>, after: nat, schedule: seq<Action>)
    ensures Run(Start(log, after), schedule).pc == Stopped(true) <==>
            exists i: nat, j: nat :: j < |schedule| && Closes(Start(log, after), schedule, i, j)
  {
    RunRemembers(log, after, schedule, |schedule|);
    assert schedule[..|schedule|] == schedule;
  }
}

/** The generator itself, one method per stretch between two suspension points. */
module RunStream {
  import opened Options
  import opened Lists
  import opened EventStore
  import opened RunStreamProtocol

  class RunStreamReader {
    const store: CommandEventStore
    const runId: string
    const queue: EventQueue
    const after: nat
    var lastSeq: nat
    var terminalObservedAt: Option<int>
    var pc: Pc
    ghost var emitted: seq<Event>

    ghost function Abs(): State
      reads this, store, queue
    {
      State(store.Log(runId), queue.items, after, lastSeq, emitted, terminalObservedAt, pc)
    }

    ghost predicate Valid()
      reads this, store
    {
      && store.Valid()
      && (!pc.Stopped? ==> queue in store.SubscribersOf(runId))
    }

    /** A stream that has stopped has left the subscriber list, and nobody else has. */
    ghost function StillSubscribed(queues: seq<EventQueue>): seq<EventQueue>
      reads this
    {
      if pc.Stopped? then Without(queues, queue) else queues
    }

    constructor (store: CommandEventStore, runId: string, afterSeq: nat)
      requires store.Valid()
      modifies store`subscribers
      ensures Valid() && fresh(queue)
      ensures this.store == store && this.runId == runId
      ensures Abs() == Start(old(store.Log(runId)), afterSeq)
    {
      var queue := store.Subscribe(runId);
      this.store, this.runId, this.queue, this.after := store, runId, queue, afterSeq;
      this.lastSeq, this.terminalObservedAt, this.pc := afterSeq, None, Top;
      this.emitted := [];
    }

    /** The backlog loop from `rows` to its next `yield`; None when it is done. */
    method Backlog(rows: seq<Event>) returns (sent: Option<Event>)
      modifies this`lastSeq, this`pc, this`emitted
      ensures var newer := SkipStale(rows, old(lastSeq));
              if newer == [] then sent == None && Abs() == old(Abs())
              else sent == Some(newer[0]) && Abs() == Drain(old(Abs()), rows)
      ensures emitted == old(emitted) + (if sent.Some? then [sent.value] else [])
    {
      var i := 0;
      while i < |rows| && rows[i].seqNo <= lastSeq
        invariant 0 <= i <= |rows|
        invariant SkipStale(rows[i..], lastSeq) == SkipStale(rows, lastSeq)
      {
        assert rows[i..][1..] == rows[i + 1..];
        i := i + 1;
      }
      if i == |rows| {
        return None;
      }
      assert SkipStale(rows[i..], lastSeq) == rows[i..];
      lastSeq, pc := rows[i].seqNo, Draining(rows[i + 1..]);
      emitted := emitted + [rows[i]];
      return Some(rows[i]);
    }

    method Close(idle: bool)
      requires Valid() && !pc.Stopped?
      modifies this`pc, store`subscribers
      ensures Valid()
      ensures Abs() == old(Abs()).(pc := Stopped(idle))
      ensures store.SubscribersOf(runId) == StillSubscribed(old(store.SubscribersOf(runId)))
      ensures forall r :: r != runId ==> store.SubscribersOf(r) == old(store.SubscribersOf(r))
    {
      store.Unsubscribe(runId, queue);
      pc := Stopped(idle);
    }

    /** The terminal-idle check, up to the wait on the queue or the end. */
    method CheckTerminal(emittedBacklog: bool, terminal: bool, now: int)
      requires Valid() && !pc.Stopped?
      modifies this`terminalObservedAt, this`pc, store`subscribers
      ensures Valid()
      ensures Abs() == Settle(old(Abs()), emittedBacklog, terminal, now)
      ensures var since, quiet := old(terminalObservedAt), terminal && !emittedBacklog;
              && terminalObservedAt == (if !quiet then None else if since == None then Some(now) else since)
              && pc == if quiet && since.Some? && now - since.value >= 600 then Stopped(true) else Waiting(terminal)
      ensures store.SubscribersOf(runId) == StillSubscribed(old(store.SubscribersOf(runId)))
      ensures forall r :: r != runId ==> store.SubscribersOf(r) == old(store.SubscribersOf(r))
    {
      if terminal && !emittedBacklog {
        if terminalObservedAt == None {
          terminalObservedAt := Some(now);
        } else if now - terminalObservedAt.value >= IDLE_CLOSE_MS {
          Close(true);
          return;
        }
      } else {
        terminalObservedAt := None;
      }
      pc := Waiting(terminal);
    }

    method Turn(terminal: bool, now: int) returns (sent: Option<Event>)
      requires Valid() && pc.Top?
      modifies this, store`subscribers
      ensures Valid()
      ensures Abs() == DoTurn(old(Abs()), terminal, now)
      ensures emitted == old(emitted) + (if sent.Some? then [sent.value] else [])
      ensures store.SubscribersOf(runId) == StillSubscribed(old(store.SubscribersOf(runId)))
      ensures forall r :: r != runId ==> store.SubscribersOf(r) == old(store.SubscribersOf(r))
    {
      var rows := store.ListEvents(runId, lastSeq, BACKLOG_LIMIT);
      sent := Backlog(rows);
      if sent == None {
        CheckTerminal(false, terminal, now);
      }
    }

    method Resume(terminal: bool) returns (sent: Option<Event>)
      requires Valid() && pc.Draining?
      modifies this, store`subscribers
      ensures Valid()
      ensures Abs() == DoResume(old(Abs()), old(pc.rest), terminal)
      ensures emitted == old(emitted) + (if sent.Some? then [sent.value] else [])
      ensures store.SubscribersOf(runId) == StillSubscribed(old(store.SubscribersOf(runId)))
      ensures forall r :: r != runId ==> store.SubscribersOf(r) == old(store.SubscribersOf(r))
    {
      sent := Backlog(pc.rest);
      if sent == None {
        CheckTerminal(true, terminal, 0);
      }
    }

    method Receive() returns (sent: Option<Event>)
      requires Valid() && pc.Waiting? && queue.items != []
      modifies this, queue
      ensures Valid()
      ensures Abs() == DoReceive(old(Abs()))
      ensures emitted == old(emitted) + (if sent.Some? then [sent.value] else [])
    {
      var item := queue.Get();
      pc := Top;
      if item.seqNo <= lastSeq {
        sent := None;
      } else {
        lastSeq := item.seqNo;
        emitted := emitted + [item];
        sent := Some(item);
      }
    }

    /** An append to this run by anybody. */
    method Observe(event: Event)
      requires Valid() && !pc.Stopped? && event.runId == runId
      modifies store`events, set q | q in store.SubscribersOf(runId)
      ensures Valid()
      ensures Abs() == DoAppend(old(Abs()), event)
    {
      var _ := store.AppendEvent(runId, event.eventType, event.payload, event.eventId, event.createdAt);
    }

    /** One action of the schedule, if it is enabled. */
    method Perform(a: Action)
      requires Valid()
      requires a.Append? ==> a.event.runId == runId
      modifies this, store, queue, set q | q in store.SubscribersOf(runId)
      ensures Valid()
      ensures Abs() == Step(old(Abs()), a)
      ensures forall q :: q in store.SubscribersOf(runId) ==> q in old(store.SubscribersOf(runId))
    {
      hide DoTurn, DoResume, DoReceive, DoAppend;
      ghost var subscribed := store.SubscribersOf(runId);
      match a {
        case Append(event) =>
          if !pc.Stopped? {
            Observe(event);
          }
        case Turn(terminal, now) =>
          if pc.Top? {
            var _ := Turn(terminal, now);
          }
        case Resume(terminal) =>
          if pc.Draining? {
            var _ := Resume(terminal);
          }
        case Receive =>
          if pc.Waiting? && queue.items != [] {
            var _ := Receive();
          }
        case TimeOut =>
          if pc.Waiting? {
            pc := Top;
          }
        case Cancel =>
          if !pc.Stopped? {
            Close(false);
          }
      }
      WithoutSpec(subscribed, queue);
      assert store.SubscribersOf(runId) == subscribed || store.SubscribersOf(runId) == Without(subscribed, queue);
    }

    /** The methods run the protocol: any schedule executed on the store and the
        generator ends in the protocol's state for that schedule. */
    method Drive(schedule: seq<Action>)
      requires Valid()
      requires forall a :: a in schedule && a.Append? ==> a.event.runId == runId
      modifies this, store, queue, set q | q in store.SubscribersOf(runId)
      ensures Valid()
      ensures Abs() == Run(old(Abs()), schedule)
    {
      hide Step;
      ghost var entry := store.SubscribersOf(runId);
      var i := 0;
      while i < |schedule|
        invariant 0 <= i <= |schedule|
        invariant Valid()
        invariant Run(Abs(), schedule[i..]) == Run(old(Abs()), schedule)
        invariant forall q :: q in store.SubscribersOf(runId) ==> q in entry
      {
        assert schedule[i..][0] == schedule[i] && schedule[i..][1..] == schedule[i + 1..];
        Perform(schedule[i]);
        i := i + 1;
      }
    }
  }
}
