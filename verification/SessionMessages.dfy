/** The messages of an analysis session: an indexed log with tombstones. */
module SessionMessagesModel {
  import opened Lists
  import opened Text

  const READ_LIMIT: nat := 10000     // raw messages an append looks at
  const FIND_LIMIT: nat := 5000      // raw messages a deletion looks at
  const TOMBSTONE_LIMIT: nat := 2000

  datatype Message = Message(messageId: string, msgIndex: int, role: string, content: string)

  /** One message to append; `newId` is the generated id, used when none is given. */
  datatype Draft = Draft(role: string, content: string, messageId: string, newId: string)

  /** The raw log of a live session, and the tombstones of its context. */
  datatype State = State(raw: seq<Message>, deleted: seq<string>)

  datatype Op = Append(drafts: seq<Draft>) | Delete(messageId: string)

  const FRESH := State([], [])

  function Take<T>(s: seq<T>, n: nat): seq<T> {
    if |s| <= n then s else s[..n]
  }

  function Last<T>(s: seq<T>, n: nat): seq<T> {
    if |s| <= n then s else s[|s| - n..]
  }

  // ----- Appending -----

  predicate Accepted(d: Draft) {
    var role := Lower(Strip(d.role));
    (role == "user" || role == "assistant" || role == "system") && Strip(d.content) != ""
  }

  function Prepare(drafts: seq<Draft>, nextIndex: int): seq<Message> {
    if drafts == [] then []
    else if Accepted(drafts[0]) then
      var d := drafts[0];
      [Message(if d.messageId != "" then d.messageId else d.newId, nextIndex, Lower(Strip(d.role)), Strip(d.content))]
      + Prepare(drafts[1..], nextIndex + 1)
    else Prepare(drafts[1..], nextIndex)
  }

  function MaxIndex(raw: seq<Message>): (r: int)
    requires raw != []
    ensures forall i :: 0 <= i < |raw| ==> raw[i].msgIndex <= r
    ensures exists i :: 0 <= i < |raw| && raw[i].msgIndex == r
  {
    if |raw| == 1 then raw[0].msgIndex
    else
      var rest := MaxIndex(raw[1..]);
      if raw[0].msgIndex >= rest then raw[0].msgIndex else rest
  }

  function NextIndex(raw: seq<Message>): int {
    if raw == [] then 0 else MaxIndex(raw) + 1
  }

  function DoAppend(raw: seq<Message>, drafts: seq<Draft>): seq<Message> {
    var existing := Take(raw, READ_LIMIT);
    var prepared := Prepare(drafts, NextIndex(existing));
    if prepared == [] then raw else existing + prepared
  }

  // ----- Deleting -----

  /** Trimmed, without blanks and repetitions, cut to the first `room` ids. */
  function Normalize(ids: seq<string>, seen: set<string>, room: nat): seq<string>
    decreases |ids|
  {
    if ids == [] || room == 0 then []
    else
      var id := Strip(ids[0]);
      if id == "" || id in seen then Normalize(ids[1..], seen, room)
      else [id] + Normalize(ids[1..], seen + {id}, room - 1)
  }

  function DeletedIds(s: State): seq<string> {
    Normalize(s.deleted, {}, TOMBSTONE_LIMIT)
  }

  function Shown(raw: seq<Message>, hidden: seq<string>): seq<Message> {
    if raw == [] then []
    else if raw[0].messageId in hidden then Shown(raw[1..], hidden)
    else [raw[0]] + Shown(raw[1..], hidden)
  }

  /** `get_messages`: the limit is applied to the raw log, before the filter. */
  function GetMessages(s: State, limit: int): seq<Message> {
    Shown(Take(s.raw, if limit < 1 then 1 else limit), DeletedIds(s))
  }

  /** A message is found if it is visible among the first raw messages. */
  predicate Findable(s: State, messageId: string) {
    exists k :: 0 <= k < |GetMessages(s, FIND_LIMIT)| && GetMessages(s, FIND_LIMIT)[k].messageId == messageId
  }

  predicate Deletes(s: State, messageId: string) {
    Strip(messageId) != "" && Findable(s, Strip(messageId))
  }

  function DoDelete(s: State, messageId: string): State {
    if Deletes(s, messageId) then
      var ids := DeletedIds(s);
      var mid := Strip(messageId);
      s.(deleted := Last(if mid in ids then ids else ids + [mid], TOMBSTONE_LIMIT))
    else s
  }

  // ----- Runs -----

  function Step(s: State, op: Op): State {
    match op
    case Append(drafts) => s.(raw := DoAppend(s.raw, drafts))
    case Delete(messageId) => DoDelete(s, messageId)
  }

  function Run(ops: seq<Op>): State {
    if ops == [] then FRESH else Step(Run(ops[..|ops| - 1]), ops[|ops| - 1])
  }

  /** The ids of all deletions that succeeded, in order. */
  function Tombstones(ops: seq<Op>): seq<string> {
    if ops == [] then []
    else
      var before, op := ops[..|ops| - 1], ops[|ops| - 1];
      Tombstones(before) + (if op.Delete? && Deletes(Run(before), op.messageId) then [Strip(op.messageId)] else [])
  }

  // ----- The log -----

  ghost predicate Indexed(raw: seq<Message>) {
    forall i :: 0 <= i < |raw| ==> raw[i].msgIndex == i
  }

  lemma {:induction false} MaxIndexOfIndexed(raw: seq<Message>, base: int)
    requires raw != [] && forall i :: 0 <= i < |raw| ==> raw[i].msgIndex == base + i
    ensures MaxIndex(raw) == base + |raw| - 1
    decreases |raw|
  {
    if |raw| > 1 {
      assert forall i :: 0 <= i < |raw[1..]| ==> raw[1..][i] == raw[i + 1];
      MaxIndexOfIndexed(raw[1..], base + 1);
    }
  }

  lemma PrepareNothing(next: int)
    ensures Prepare([], next) == []
  {
  }

  lemma PrepareOne(d: Draft, next: int)
    ensures var role, content := Lower(Strip(d.role)), Strip(d.content);
            Prepare([d], next) ==
            if role in {"user", "assistant", "system"} && content != ""
            then [Message(if d.messageId != "" then d.messageId else d.newId, next, role, content)] else []
  {
    hide Lower, Strip;
    assert [d][1..] == [];
  }

  lemma {:induction false} PrepareJoins(a: seq<Draft>, b: seq<Draft>, next: int)
    ensures Prepare(a + b, next) == Prepare(a, next) + Prepare(b, next + |Prepare(a, next)|)
    decreases |a|
  {
    hide Accepted, Lower, Strip;
    if a == [] {
      assert a + b == b;
    } else {
      assert (a + b)[1..] == a[1..] + b;
      PrepareJoins(a[1..], b, if Accepted(a[0]) then next + 1 else next);
    }
  }

  /** Kept are exactly the drafts of the three roles with a content that is not blank, role
      and content trimmed and the role in lower case; drafts keep their order. */
  lemma {:induction false} PreparedByFields(drafts: seq<Draft>, next: int)
    ensures forall m :: m in Prepare(drafts, next) ==>
              m.role in {"user", "assistant", "system"} && m.content != "" && Stripped(m.content)
    ensures forall d :: d in drafts && Lower(Strip(d.role)) in {"user", "assistant", "system"} && Strip(d.content) != ""
              ==> exists m :: m in Prepare(drafts, next) && m.role == Lower(Strip(d.role))
                    && m.content == Strip(d.content)
                    && m.messageId == (if d.messageId != "" then d.messageId else d.newId)
    decreases |drafts|
  {
    hide Accepted, Lower, Strip, Prepare;
    if drafts == [] {
      PrepareNothing(next);
    } else {
      var before, d := drafts[..|drafts| - 1], drafts[|drafts| - 1];
      assert drafts == before + [d];
      var at := next + |Prepare(before, next)|;
      PreparedByFields(before, next);
      PrepareJoins(before, [d], next);
      PrepareOne(d, at);
      StripSpec(d.content);
      var one := Prepare([d], at);
      assert one != [] ==> one[0] in one;
    }
  }

  ghost predicate IndexedFrom(messages: seq<Message>, base: int) {
    forall i :: 0 <= i < |messages| ==> messages[i].msgIndex == base + i
  }

  lemma {:induction false} PrepareIndexed(drafts: seq<Draft>, next: int)
    ensures IndexedFrom(Prepare(drafts, next), next)
    decreases |drafts|
  {
    hide Accepted, Strip, Lower;
    if drafts != [] {
      if Accepted(drafts[0]) {
        PrepareIndexed(drafts[1..], next + 1);
        var p, rest := Prepare(drafts, next), Prepare(drafts[1..], next + 1);
        forall i | 0 <= i < |p|
          ensures p[i].msgIndex == next + i
        {
          assert i > 0 ==> p[i] == rest[i - 1];
        }
      } else {
        PrepareIndexed(drafts[1..], next);
      }
    }
  }

  lemma AppendIndexed(raw: seq<Message>, drafts: seq<Draft>)
    requires Indexed(raw)
    ensures Indexed(DoAppend(raw, drafts))
    ensures var existing := Take(raw, READ_LIMIT);
            NextIndex(existing) == |existing|
  {
    hide Prepare, MaxIndex;
    var existing := Take(raw, READ_LIMIT);
    if existing != [] {
      MaxIndexOfIndexed(existing, 0);
    }
    PrepareIndexed(drafts, NextIndex(existing));
    var after := DoAppend(raw, drafts);
    forall i | 0 <= i < |after|
      ensures after[i].msgIndex == i
    {
      if i >= |existing| && Prepare(drafts, NextIndex(existing)) != [] {
        assert after[i] == Prepare(drafts, NextIndex(existing))[i - |existing|];
      }
    }
  }

  /** An append extends the log exactly when the log is within the read limit, nothing
      was accepted, or what was accepted begins with the very messages that a longer log
      loses, as it can only if it brings their ids. */
  lemma AppendKeepsLogExactly(raw: seq<Message>, drafts: seq<Draft>)
    ensures var prepared := Prepare(drafts, NextIndex(Take(raw, READ_LIMIT)));
            raw <= DoAppend(raw, drafts) <==>
              || |raw| <= 10000
              || prepared == []
              || raw[10000..] <= prepared
    ensures forall k :: 0 <= k < |raw| && k < 10000 ==>
              k < |DoAppend(raw, drafts)| && DoAppend(raw, drafts)[k] == raw[k]
  {
    hide Prepare, NextIndex;
    var prepared := Prepare(drafts, NextIndex(Take(raw, READ_LIMIT)));
    var after := DoAppend(raw, drafts);
    if |raw| > READ_LIMIT && prepared != [] {
      assert after == raw[..READ_LIMIT] + prepared && after[READ_LIMIT..] == prepared;
      if raw <= after {
        forall i | 0 <= i < |raw| - READ_LIMIT
          ensures i < |prepared| && raw[READ_LIMIT..][i] == prepared[i]
        {
          assert raw[READ_LIMIT + i] == after[READ_LIMIT + i];
        }
      }
      if raw[READ_LIMIT..] <= prepared {
        forall i | 0 <= i < |raw|
          ensures i < |after| && raw[i] == after[i]
        {
          assert i >= READ_LIMIT ==> raw[i] == raw[READ_LIMIT..][i - READ_LIMIT];
        }
      }
    }
  }

  // ----- The tombstones -----

  /** Ids as deletions store them. */
  ghost predicate Clean(ids: seq<string>) {
    && |ids| <= TOMBSTONE_LIMIT
    && NoRepeats(ids)
    && forall id :: id in ids ==> id != "" && Stripped(id)
  }

  lemma {:induction false} NormalizeClean(ids: seq<string>, seen: set<string>, room: nat)
    requires |ids| <= room && NoRepeats(ids)
    requires forall id :: id in ids ==> id != "" && Stripped(id) && id !in seen
    ensures Normalize(ids, seen, room) == ids
    decreases |ids|
  {
    if ids != [] {
      var rest := ids[1..];
      StripSpec(ids[0]);
      assert forall k :: 0 <= k < |rest| ==> rest[k] == ids[k + 1];
      forall id | id in rest
        ensures id in ids && id != ids[0]
      {
        var k :| 0 <= k < |rest| && rest[k] == id;
        assert ids[k + 1] == id;
      }
      NormalizeClean(rest, seen + {ids[0]}, room - 1);
    }
  }

  /** What is left of any list of ids: trimmed ones of it, none blank and none twice, at most
      `room`; and all of them unless that many are there. */
  lemma {:induction false} NormalizeSpec(ids: seq<string>, seen: set<string>, room: nat)
    ensures var r := Normalize(ids, seen, room);
            && NoRepeats(r) && |r| <= room
            && (forall id :: id in r ==> id != "" && id !in seen && exists raw :: raw in ids && Strip(raw) == id)
            && (|r| < room ==> forall raw :: raw in ids && Strip(raw) != "" ==> Strip(raw) in r || Strip(raw) in seen)
    decreases |ids|
  {
    hide Strip;
    if ids != [] && room > 0 {
      var id, rest := Strip(ids[0]), ids[1..];
      assert ids == [ids[0]] + rest;
      if id == "" || id in seen {
        NormalizeSpec(rest, seen, room);
      } else {
        NormalizeSpec(rest, seen + {id}, room - 1);
      }
    }
  }

  lemma {:induction false} ShownMembers(raw: seq<Message>, hidden: seq<string>)
    ensures forall m :: m in Shown(raw, hidden) <==> m in raw && m.messageId !in hidden
    decreases |raw|
  {
    if raw != [] {
      ShownMembers(raw[1..], hidden);
      assert raw == [raw[0]] + raw[1..];
    }
  }

  lemma LastClean(ids: seq<string>)
    requires NoRepeats(ids) && forall id :: id in ids ==> id != "" && Stripped(id)
    ensures Clean(Last(ids, TOMBSTONE_LIMIT))
  {
    var last := Last(ids, TOMBSTONE_LIMIT);
    var skip := |ids| - |last|;
    assert forall k :: 0 <= k < |last| ==> last[k] == ids[k + skip];
  }

  /** Deletions keep the tombstones clean; a deleted message is not found again
      while its tombstone is there. */
  lemma DeleteClean(s: State, messageId: string)
    requires Clean(s.deleted)
    ensures Clean(DoDelete(s, messageId).deleted)
    ensures Deletes(s, messageId) ==>
              && Strip(messageId) !in s.deleted
              && DoDelete(s, messageId).deleted == Last(s.deleted + [Strip(messageId)], TOMBSTONE_LIMIT)
  {
    hide Shown, Strip;
    NormalizeClean(s.deleted, {}, TOMBSTONE_LIMIT);
    StripSpec(messageId);
    if Deletes(s, messageId) {
      var mid := Strip(messageId);
      ShownMembers(Take(s.raw, FIND_LIMIT), s.deleted);
      var k :| 0 <= k < |GetMessages(s, FIND_LIMIT)| && GetMessages(s, FIND_LIMIT)[k].messageId == mid;
      assert GetMessages(s, FIND_LIMIT)[k] in GetMessages(s, FIND_LIMIT);
      LastClean(s.deleted + [mid]);
    }
  }

  lemma NothingDeleted()
    ensures Last<string>([], TOMBSTONE_LIMIT) == []
  {
  }

  lemma FailedDelete(s: State, messageId: string)
    requires !Deletes(s, messageId)
    ensures DoDelete(s, messageId) == s
  {
  }

  lemma DeleteKeepsLog(s: State, messageId: string)
    ensures DoDelete(s, messageId).raw == s.raw
  {
  }

  lemma LastOfLast(ids: seq<string>, id: string)
    ensures Last(Last(ids, TOMBSTONE_LIMIT) + [id], TOMBSTONE_LIMIT) == Last(ids + [id], TOMBSTONE_LIMIT)
  {
  }

  lemma {:induction false} RunKeeps(ops: seq<Op>)
    ensures var s := Run(ops);
            Indexed(s.raw) && Clean(s.deleted) && s.deleted == Last(Tombstones(ops), TOMBSTONE_LIMIT)
    decreases |ops|
  {
    hide DoAppend, DoDelete, Deletes, Last, Strip;
    if ops == [] {
      NothingDeleted();
    } else {
      var before, op := ops[..|ops| - 1], ops[|ops| - 1];
      RunKeeps(before);
      var s := Run(before);
      match op
      case Append(drafts) =>
        AppendIndexed(s.raw, drafts);
        assert Tombstones(before) + [] == Tombstones(before);
      case Delete(messageId) =>
        DeleteClean(s, messageId);
        DeleteKeepsLog(s, messageId);
        if Deletes(s, messageId) {
          LastOfLast(Tombstones(before), Strip(messageId));
        } else {
          FailedDelete(s, messageId);
          assert Tombstones(before) + [] == Tombstones(before);
        }
    }
  }

  /** In every run the log is indexed by position, and the tombstones in force are
      the most recent ones, each once. */
  lemma EveryRun(ops: seq<Op>)
    ensures var s, n := Run(ops), |Tombstones(ops)|;
            && (forall i :: 0 <= i < |s.raw| ==> s.raw[i].msgIndex == i)
            && s.deleted == (if n <= 2000 then Tombstones(ops) else Tombstones(ops)[n - 2000..])
            && NoRepeats(s.deleted)
  {
    hide Tombstones, Run;
    RunKeeps(ops);
  }

  // ----- What a reader sees -----

  function Hidden(ops: seq<Op>): seq<string> {
    Last(Tombstones(ops), TOMBSTONE_LIMIT)
  }

  /** Reading shows, in order, the log without the messages under one of the last
      tombstones; a limit cuts the log before the filter. */
  lemma ReadersSeeTheRest(ops: seq<Op>, limit: int)
    ensures var s, n := Run(ops), if limit < 1 then 1 else limit;
            && GetMessages(s, limit) == Shown(if |s.raw| <= n then s.raw else s.raw[..n], Hidden(ops))
            && (limit >= |s.raw| ==> GetMessages(s, limit) == Shown(s.raw, Hidden(ops)))
            && DeletedIds(s) == Hidden(ops)
  {
    hide Shown;
    RunKeeps(ops);
    var s := Run(ops);
    NormalizeClean(s.deleted, {}, TOMBSTONE_LIMIT);
    if limit < 1 && limit >= |s.raw| {
      assert Take(s.raw, 1) == s.raw;
    }
  }

  lemma TakeSpec<T>(s: seq<T>, n: nat)
    ensures |Take(s, n)| == (if |s| <= n then |s| else n) && Take(s, n) <= s
  {
  }

  /** A deletion succeeds exactly for a message that is visible among the first
      FIND_LIMIT raw messages and whose id carries no outer white space. */
  lemma DeleteSucceedsExactly(ops: seq<Op>, messageId: string)
    ensures Deletes(Run(ops), messageId) <==>
            && Strip(messageId) != "" && Strip(messageId) !in Hidden(ops)
            && exists k :: 0 <= k < |Run(ops).raw| && k < 5000 && Run(ops).raw[k].messageId == Strip(messageId)
  {
    hide Shown, Strip, Run, Hidden, Take;
    ReadersSeeTheRest(ops, FIND_LIMIT);
    var s := Run(ops);
    var shown := GetMessages(s, FIND_LIMIT);
    var mid := Strip(messageId);
    ShownMembers(Take(s.raw, FIND_LIMIT), Hidden(ops));
    var first := Take(s.raw, FIND_LIMIT);
    TakeSpec(s.raw, FIND_LIMIT);
    if at :| 0 <= at < |s.raw| && at < 5000 && s.raw[at].messageId == mid && mid !in Hidden(ops) {
      var m := first[at];
      assert m in shown;
      var k :| 0 <= k < |shown| && shown[k] == m;
    }
    if Findable(s, mid) {
      var k :| 0 <= k < |shown| && shown[k].messageId == mid;
      assert shown[k] in first;
      var at :| 0 <= at < |first| && first[at] == shown[k];
    }
  }

  lemma {:induction false} TombstonesGrow(ops: seq<Op>, n: nat)
    requires n <= |ops|
    ensures Tombstones(ops[..n]) <= Tombstones(ops)
    decreases |ops| - n
  {
    if n == |ops| {
      assert ops[..n] == ops;
    } else {
      TombstonesGrow(ops, n + 1);
      assert ops[..n + 1][..n] == ops[..n];
    }
  }

  /** A deleted id stays hidden as long as it is among the last TOMBSTONE_LIMIT
      deletions; with no more deletions than that, nothing comes back. */
  lemma {:induction false} TombstonesHold(ops: seq<Op>, n: nat, id: string)
    requires n <= |ops| && id in Tombstones(ops[..n])
    requires |Tombstones(ops)| <= 2000
    ensures id in Hidden(ops)
    ensures forall m :: m in Shown(Run(ops).raw, Hidden(ops)) ==> m.messageId != id
  {
    TombstonesGrow(ops, n);
    ShownMembers(Run(ops).raw, Hidden(ops));
  }

  lemma LastShifts(ids: seq<string>, id: string)
    requires |ids| >= TOMBSTONE_LIMIT
    ensures var last := Last(ids, TOMBSTONE_LIMIT);
            && |last| == TOMBSTONE_LIMIT && last[0] == (ids + [id])[|ids| - TOMBSTONE_LIMIT]
            && Last(ids + [id], TOMBSTONE_LIMIT) == last[1..] + [id]
  {
  }

  /** A deletion beyond the limit uncovers the tombstone before the last ones. */
  lemma {:induction false} OlderIsUncovered(ops: seq<Op>)
    requires |Tombstones(ops)| > TOMBSTONE_LIMIT
    ensures Tombstones(ops)[|Tombstones(ops)| - 1 - TOMBSTONE_LIMIT] !in Hidden(ops)
    decreases |ops|
  {
    hide Deletes, Run, Strip;
    var before, op := ops[..|ops| - 1], ops[|ops| - 1];
    var earlier, ids := Tombstones(before), Tombstones(ops);
    if ids == earlier {
      OlderIsUncovered(before);
    } else {
      RunKeeps(before);
      DeleteClean(Run(before), op.messageId);
      var last := Hidden(before);
      assert ids == earlier + [Strip(op.messageId)];
      LastShifts(earlier, Strip(op.messageId));
    }
  }

  /** After any run: everything that was ever deleted is hidden exactly if there were no
      more deletions than tombstones are kept. */
  lemma TombstonesHoldExactly(ops: seq<Op>)
    ensures (forall id :: id in Tombstones(ops) ==> id in Hidden(ops)) <==> |Tombstones(ops)| <= 2000
  {
    if |Tombstones(ops)| > TOMBSTONE_LIMIT {
      OlderIsUncovered(ops);
      assert Tombstones(ops)[|Tombstones(ops)| - 1 - TOMBSTONE_LIMIT] in Tombstones(ops);
    }
  }

  /** In any run, a deletion beyond the limit brings back exactly the messages of the
      oldest tombstone in force. */
  lemma OldestComesBack(ops: seq<Op>, messageId: string)
    requires |Tombstones(ops)| >= 2000 && Deletes(Run(ops), messageId)
    ensures var s, after := Run(ops), ops + [Delete(messageId)];
            var t := Run(after);
            && Hidden(after) == Hidden(ops)[1..] + [Strip(messageId)]
            && t.raw == s.raw
            && forall m :: m in s.raw && m !in Shown(s.raw, Hidden(ops)) ==>
                 (m in Shown(t.raw, Hidden(after)) <==> m.messageId == Hidden(ops)[0])
  {
    hide Deletes, Strip, DoDelete, Tombstones;
    var s, after := Run(ops), ops + [Delete(messageId)];
    assert after[..|after| - 1] == ops;
    RunKeeps(ops);
    RunKeeps(after);
    DeleteClean(s, messageId);
    DeleteKeepsLog(s, messageId);
    ShownMembers(s.raw, Hidden(ops));
    ShownMembers(s.raw, Hidden(after));
  }

  // ----- Such a run -----

  function Id(n: nat): string {
    seq(n + 1, i => 'm')
  }

  /** Each message is appended and deleted at once. */
  function AppendAndDelete(n: nat): seq<Op> {
    if n == 0 then []
    else AppendAndDelete(n - 1) + [Append([Draft("user", "x", Id(n - 1), "")])] + [Delete(Id(n - 1))]
  }

  ghost predicate AllDeleted(ops: seq<Op>, n: nat) {
    && |Run(ops).raw| == n == |Tombstones(ops)|
    && forall i :: 0 <= i < n ==> Run(ops).raw[i].messageId == Id(i) == Tombstones(ops)[i]
  }

  lemma IdSpec(n: nat)
    ensures Strip(Id(n)) == Id(n) != ""
  {
    StripSpec(Id(n));
  }

  lemma LowerUser()
    ensures Lower("user") == "user"
  {
  }

  lemma Prepared(n: nat, next: int)
    ensures Prepare([Draft("user", "x", Id(n), "")], next) == [Message(Id(n), next, "user", "x")]
  {
    hide Strip, Lower, Prepare;
    StripSpec("user");
    StripSpec("x");
    assert Lower("user") == "user" by {
      LowerUser();
    }
    PrepareOne(Draft("user", "x", Id(n), ""), next);
  }

  lemma AppendOne(ops: seq<Op>, n: nat)
    requires |Run(ops).raw| <= READ_LIMIT
    ensures var after := ops + [Append([Draft("user", "x", Id(n), "")])];
            && Tombstones(after) == Tombstones(ops)
            && exists next :: Run(after).raw == Run(ops).raw + [Message(Id(n), next, "user", "x")]
  {
    hide Prepare, NextIndex, Id, Deletes;
    var after := ops + [Append([Draft("user", "x", Id(n), "")])];
    assert after[..|ops|] == ops && Tombstones(ops) + [] == Tombstones(ops);
    var next := NextIndex(Run(ops).raw);
    Prepared(n, next);
    assert Run(after).raw == Run(ops).raw + [Message(Id(n), next, "user", "x")];
  }

  lemma DeleteOne(ops: seq<Op>, messageId: string)
    requires Deletes(Run(ops), messageId)
    ensures var after := ops + [Delete(messageId)];
            Run(after).raw == Run(ops).raw && Tombstones(after) == Tombstones(ops) + [Strip(messageId)]
  {
    hide Deletes, Strip;
    assert (ops + [Delete(messageId)])[..|ops|] == ops;
    DeleteKeepsLog(Run(ops), messageId);
  }

  lemma NothingRun()
    ensures Run([]).raw == [] && Tombstones([]) == []
  {
  }

  lemma HiddenAreTombstones(ops: seq<Op>)
    ensures forall id :: id in Hidden(ops) ==> id in Tombstones(ops)
  {
  }

  lemma IdsDiffer(n: nat)
    ensures forall i: nat :: i < n ==> Id(i) != Id(n)
  {
    assert |Id(n)| == n + 1;
  }

  lemma {:induction false} RunDeletesAll(n: nat)
    requires n <= FIND_LIMIT
    ensures AllDeleted(AppendAndDelete(n), n)
    decreases n
  {
    hide Strip, Id, Run, Tombstones, Last, Deletes;
    if n == 0 {
      NothingRun();
    } else {
      var m := n - 1;
      var before := AppendAndDelete(m);
      var appended := before + [Append([Draft("user", "x", Id(m), "")])];
      RunDeletesAll(m);
      AppendOne(before, m);
      IdSpec(m);
      IdsDiffer(m);
      HiddenAreTombstones(appended);
      assert Run(appended).raw[m] in Take(Run(appended).raw, FIND_LIMIT);
      DeleteSucceedsExactly(appended, Id(m));
      DeleteOne(appended, Id(m));
    }
  }

  /** A run after which a deleted message is shown again. */
  lemma DeletedIsShown()
    ensures var ops := AppendAndDelete(2001);
            && Id(0) in Tombstones(ops)
            && exists m :: m in Shown(Run(ops).raw, Hidden(ops)) && m.messageId == Id(0)
  {
    hide Run, Tombstones, AppendAndDelete, Shown;
    var ops := AppendAndDelete(TOMBSTONE_LIMIT + 1);
    RunDeletesAll(TOMBSTONE_LIMIT + 1);
    OlderIsUncovered(ops);
    ShownMembers(Run(ops).raw, Hidden(ops));
    assert Run(ops).raw[0] in Run(ops).raw;
    assert Tombstones(ops)[0] in Tombstones(ops);
  }

  /** The log only grows while it stays within the read limit. */
  lemma {:induction false} LogIsAppendOnly(ops: seq<Op>, n: nat)
    requires n <= |ops| && |Run(ops).raw| <= 10000
    ensures Run(ops[..n]).raw <= Run(ops).raw
    decreases |ops|
  {
    hide Prepare, DoDelete, NextIndex;
    if n == |ops| {
      assert ops[..n] == ops;
    } else {
      var before, op := ops[..|ops| - 1], ops[|ops| - 1];
      assert before[..n] == ops[..n];
      DeleteKeepsLog(Run(before), if op.Delete? then op.messageId else "");
      LogIsAppendOnly(before, n);
    }
  }
}

/** The message side of the session store, without a database. */
module SessionMessages {
  import opened Lists
  import opened Text
  import opened SessionMessagesModel

  class LiveSession {
    var messages: seq<Message>
    var deletedMessageIds: seq<string>

    ghost function Abs(): State
      reads this
    {
      State(messages, deletedMessageIds)
    }

    constructor ()
      ensures Abs() == FRESH
    {
      messages, deletedMessageIds := [], [];
    }

    method NormalizeDeletedIds(raw: seq<string>) returns (normalized: seq<string>)
      ensures normalized == Normalize(raw, {}, TOMBSTONE_LIMIT)
      ensures NoRepeats(normalized) && |normalized| <= 2000
      ensures forall id :: id in normalized ==> id != "" && exists x :: x in raw && Strip(x) == id
      ensures |normalized| < 2000 ==> forall x :: x in raw && Strip(x) != "" ==> Strip(x) in normalized
    {
      hide Strip;
      NormalizeSpec(raw, {}, TOMBSTONE_LIMIT);
      normalized := [];
      var seen: set<string> := {};
      for i := 0 to |raw|
        invariant |normalized| < TOMBSTONE_LIMIT
        invariant normalized + Normalize(raw[i..], seen, TOMBSTONE_LIMIT - |normalized|) ==
            Normalize(raw, {}, TOMBSTONE_LIMIT)
      {
        assert raw[i..][1..] == raw[i + 1..];
        var mid := Strip(raw[i]);
        if mid == "" || mid in seen {
          continue;
        }
        seen := seen + {mid};
        normalized := normalized + [mid];
        if |normalized| >= TOMBSTONE_LIMIT {
          assert Normalize(raw[i + 1..], seen, 0) == [];
          return;
        }
      }
      assert raw[|raw|..] == [] && normalized + [] == normalized;
    }

    method WithoutDeleted(raw: seq<Message>, hidden: seq<string>) returns (visible: seq<Message>)
      ensures visible == Shown(raw, hidden)
    {
      visible := [];
      for i := 0 to |raw|
        invariant visible + Shown(raw[i..], hidden) == Shown(raw, hidden)
      {
        assert raw[i..][1..] == raw[i + 1..];
        if raw[i].messageId !in hidden {
          visible := visible + [raw[i]];
        }
      }
      assert raw[|raw|..] == [] && visible + [] == visible;
    }

    method GetMessages(limit: int) returns (visible: seq<Message>)
      ensures visible == SessionMessagesModel.GetMessages(Abs(), limit)
    {
      var safeLimit := if limit < 1 then 1 else limit;
      var hidden := NormalizeDeletedIds(deletedMessageIds);
      visible := WithoutDeleted(Take(messages, safeLimit), hidden);
    }

    method GetMessageCount() returns (count: nat)
      ensures count == |Shown(messages, DeletedIds(Abs()))|
    {
      var hidden := NormalizeDeletedIds(deletedMessageIds);
      var visible := WithoutDeleted(messages, hidden);
      count := |visible|;
    }

    method AppendMessages(drafts: seq<Draft>) returns (prepared: seq<Message>)
      modifies `messages
      ensures Abs() == Step(old(Abs()), Append(drafts))
      ensures prepared == Prepare(drafts, NextIndex(Take(old(messages), READ_LIMIT)))
      ensures messages == if prepared == [] then old(messages)
                          else (if |old(messages)| <= 10000 then old(messages) else old(messages)[..10000]) + prepared
      ensures forall m :: m in prepared ==>
                m.role in {"user", "assistant", "system"} && m.content != "" && Stripped(m.content)
      ensures forall d ::
                d in drafts && Lower(Strip(d.role)) in {"user", "assistant", "system"} && Strip(d.content) != ""
                ==> exists m :: m in prepared && m.role == Lower(Strip(d.role)) && m.content == Strip(d.content)
                      && m.messageId == (if d.messageId != "" then d.messageId else d.newId)
    {
      hide Accepted, Lower, Strip;
      var existing := Take(messages, READ_LIMIT);
      var next := NextIndex(existing);
      ghost var first := next;
      prepared := [];
      for i := 0 to |drafts|
        invariant prepared + Prepare(drafts[i..], next) == Prepare(drafts, first)
      {
        assert drafts[i..][1..] == drafts[i + 1..];
        var d := drafts[i];
        if Accepted(d) {
          var id := if d.messageId != "" then d.messageId else d.newId;
          prepared := prepared + [Message(id, next, Lower(Strip(d.role)), Strip(d.content))];
          next := next + 1;
        }
      }
      assert drafts[|drafts|..] == [] && prepared + [] == prepared;
      PreparedByFields(drafts, first);
      if prepared != [] {
        messages := existing + prepared;
      }
    }

    method DeleteMessage(messageId: string) returns (deleted: bool)
      modifies `deletedMessageIds
      ensures deleted <==> Deletes(old(Abs()), messageId)
      ensures Abs() == Step(old(Abs()), Delete(messageId))
    {
      hide Strip, Shown, Normalize;
      var mid := Strip(messageId);
      if mid == "" {
        return false;
      }
      var visible := GetMessages(FIND_LIMIT);
      var k := 0;
      while k < |visible| && visible[k].messageId != mid
        invariant 0 <= k <= |visible|
        invariant forall j :: 0 <= j < k ==> visible[j].messageId != mid
      {
        k := k + 1;
      }
      if k == |visible| {
        return false;
      }
      var ids := NormalizeDeletedIds(deletedMessageIds);
      if mid !in ids {
        ids := ids + [mid];
      }
      deletedMessageIds := Last(ids, TOMBSTONE_LIMIT);
      deleted := true;
    }
  }
}
