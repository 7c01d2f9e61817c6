# Verified models of logoscope

Logoscope's services keep much of their state in memory and guard it with small protocols:
a retry queue for the remote knowledge base, an event log that is streamed to browsers, an
editor for deployment files, caches, indexes, listings, trace analysis and the decision
whether a command may run. This project models those parts in Dafny and proves what they
are relied on for.

Each component has up to three layers. A *specification* says what one operation does to a
value. *Theorems* are proved about the specification: over every run, every interleaving or
every input. A *class* or a *loop* has the form of the source (fields updated in place, loops
with a cursor, early exits), and each of its methods is proved to do what the specification
says.

| file | component |
|---|---|
| EventStore.dfy, RunStream.dfy | command event log, subscriber queues, the SSE generator and every interleaving of it with appends |
| Outbox.dfy | knowledge-base outbox: retry queue, two lock sections around a remote call, reload, drain |
| EnvFile.dfy, EnvEditor.dfy, EnvWritten.dfy | in-place editor of the `env:` section of a deployment manifest, and the file as the next reader and the next edit find it |
| LlmCache.dfy | response cache, least recently used first out, with a time to live |
| Sorting.dfy, SessionListing.dfy | chain of stable sorts against one ORDER BY, paging, counting |
| SessionMessages.dfy | message log with tombstones |
| CaseStore.dfy | case store with two indexes, top-k retrieval |
| RunActions.dfy | event log folded into actions |
| TraceTree.dfy | span tree, critical path, climbs to ancestors |
| SolutionText.dfy | solution text printer and parser |
| DecisionStore.dfy | bounded recency store of policy decisions |
| Precheck.dfy | severity order, policy engine, rewriting of a precheck response |
| Lists.dfy, Text.dfy | shared list and text helpers |

## Where the code falls short of what one would expect

The models follow the code. Where a natural property fails, it is proved exactly when it holds.

- The stream has a gap under some interleaving exactly if more than 5000 events are
  undelivered at subscription: a live event that is taken from the queue between two backlog
  reads moves the cursor over the rest (`GapFreeExactly`).
- An env entry without a `value:` line is neither updated nor added. A value line whose indent,
  counted in blanks, is too small (indentation with other white space) ends the block. A value
  with a line break is written as several lines, so it never reads back; its further lines may
  end the block or name keys, and if they name none that is updated, the next run writes again.
  `FileReads` says what every key reads as in the written file; `FileReadsBackExactly`,
  `AllReadBackExactly`, `FileKeepsOtherKeysExactly` and `FileIsStableExactly` have the exact
  conditions, and `BrokenValueIsLost`, `NamingItselfSettles` and `TabDoesNotStay` are inputs
  that fail.
- An expired cache entry that is met by a lookup makes room, so a key may survive more than
  the capacity of other keys (`ExpiryMakesRoom`). Counting only the keys that have not been
  dropped gives the exact condition of a miss (`MissExactly`).
- Everything that was deleted in a session is hidden exactly if there were at most 2000
  deletions (`TombstonesHoldExactly`); the next one brings the oldest deleted message back
  (`OldestComesBack`, `DeletedIsShown`). An append to a log of more than 10000 messages drops
  its end (`AppendKeepsLogExactly`), and only the first 5000 messages can be deleted
  (`DeleteSucceedsExactly`).
- The depth loop of the trace analyzer does not end for a span with a proper ancestor whose
  parent is missing (`DepthLoopsForEver`); for a span whose own parent is missing it says 1, and
  for one in a cycle of parents the length of the cycle (`DepthExactly`, `AcyclicDepth`). The
  root-cause loop does not end on a cycle of errors (`ErrorClimbEndsExactly`).
- An older copy of the outbox can be written to its file after a newer one, so a restart can
  lose the newest items (`OlderCopyLoses`), and a file can be written while an item's attempts
  are ahead of its status (`ReloadedHasAttemptsExactly`, `Accounting`).
- With the strictest switch off, a command on an unknown target ends "ok" when the engine
  answers "confirm" or "elevate", because only denial and manual approval rewrite the response
  (`FlaggedOkExactly`, `UnknownTargetMayRun`). With it on, the same can still happen to an
  unflagged target: the decision recorded is "confirm", the response says "ok"
  (`StricterOkFromInputs`). A manual-approval decision also lifts a refusal (`RefusedFromInputs`).
- Printed solution text does not always come back: `RoundTripExactly` has the condition, with
  its oddity that a lost title can be replaced by an equal description. Several solutions never
  come back as several (`SeveralBecomeOne`).

## Model

| member | source | states |
|---|---|---|
| EventStore.EventQueue.PutNowait | exec-service/core/event_store.py:65-69 | a queue keeps events in arrival order, none lost |
| EventStore.EventQueue.Get | exec-service/api/execute.py:1310-1313 | the oldest event leaves first, exactly one |
| EventStore.CommandEventStore.AppendEvent | exec-service/core/event_store.py:44-69 | sequence numbers are log positions; log and every queue of the run get the same event, other runs get nothing |
| EventStore.CommandEventStore.ListEvents | exec-service/core/event_store.py:71-102 | the first events after the cursor in order, as many as the limit says (0 as 500, between 1 and 5000); what is missing of the later ones comes after a full answer |
| EventStore.WindowSpec | exec-service/core/event_store.py:71-102 | the filter on sequence numbers and the cut to the limit give a contiguous window of the log after the cursor |
| EventStore.CommandEventStore.Subscribe | exec-service/core/event_store.py:104-109 | a new empty queue is registered for this run only |
| EventStore.CommandEventStore.Unsubscribe | exec-service/core/event_store.py:111-117 | exactly this queue is gone, other runs and queues are untouched |
| RunStreamProtocol.StreamIsOrdered | exec-service/api/execute.py:1281-1326 | for any backlog, over every interleaving of appends, backlog reads, queue gets and timeouts: what is sent is increasing, above the client's cursor, and from the log |
| RunStreamProtocol.StreamIsExact | exec-service/api/execute.py:1281-1326 | with at most 5000 undelivered events at subscription every interleaving is gap-free, and a stream ended by the idle rule has sent every logged event after the cursor |
| RunStreamProtocol.LargeBacklogLosesEvents | exec-service/api/execute.py:1288-1323 | with more than 5000 undelivered events there is an interleaving that skips some, for every such log |
| RunStreamProtocol.GapFreeExactly | exec-service/api/execute.py:1281-1326 | gap-free under every interleaving if and only if at most 5000 events are undelivered at subscription |
| RunStreamProtocol.RunKeepsCursor | exec-service/api/execute.py:1281-1326 | no schedule changes the client's cursor or rewrites the log |
| RunStreamProtocol.IdleCloseExactly | exec-service/api/execute.py:1296-1306 | over all schedules: the idle rule closes a stream if and only if some turn was quiet and terminal, a later one at least 0.6 s on is so too, and between the two nothing came from the backlog and no turn read a non-terminal status |
| RunStream.RunStreamReader.Backlog | exec-service/api/execute.py:1288-1294 | the backlog loop up to its next yield skips stale rows and sends the first new one, which is what it yields |
| RunStream.RunStreamReader.CheckTerminal | exec-service/api/execute.py:1296-1306 | a quiet turn that reads a terminal status remembers the time or, 0.6 s after the remembered one, closes; any other turn forgets it |
| RunStream.RunStreamReader.Close | exec-service/api/execute.py:1325-1326 | leaving by any way unsubscribes exactly this stream's queue; the subscribers of other runs stay |
| RunStream.RunStreamReader.Turn | exec-service/api/execute.py:1286-1306 | one round of the generator is the protocol's turn, and it yields exactly what the protocol emits |
| RunStream.RunStreamReader.Resume | exec-service/api/execute.py:1288-1306 | resuming after a backlog yield continues with the old snapshot, as the protocol does, and yields exactly what it emits |
| RunStream.RunStreamReader.Receive | exec-service/api/execute.py:1309-1323 | a queue item is yielded if and only if it is above the cursor |
| RunStream.RunStreamReader.Observe | exec-service/core/event_store.py:44-69 | an append by anybody reaches the log and this stream's queue |
| RunStream.RunStreamReader.Perform | exec-service/api/execute.py:1281-1326 | one action of a schedule, if it is enabled |
| RunStream.RunStreamReader.Drive | exec-service/api/execute.py:1281-1326 | any schedule executed on the store and the generator ends in the protocol's state for it, so the theorems hold of the code's form |
| OutboxModel.BackoffBounded | ai-service/ai/knowledge_provider.py:777-780 | every retry delay lies between base and maximum and never shrinks as attempts grow |
| OutboxModel.LoadedFields | ai-service/ai/knowledge_provider.py:719-748 | what is read from a record of the file, field by field, whatever is in it: which records are dropped, and every default and bound |
| OutboxModel.ReloadPersisted | ai-service/ai/knowledge_provider.py:710-775 | a persisted queue is read back item by item in order; only "processing" turns into "pending" |
| OutboxModel.ReloadedHasAttemptsExactly | ai-service/ai/knowledge_provider.py:710-775 | an item written at any moment of its life is read back pending with attempts left, or failed, if and only if it was failed or had attempts left when written |
| OutboxModel.CountsAddUp | ai-service/ai/knowledge_provider.py:985-990 | every item is counted in exactly one of the three states |
| OutboxProtocol.Reachable | ai-service/ai/knowledge_provider.py:782-948 | the queue invariant (unique ids, a failed item has no attempts left, the item in flight at its index) holds after every schedule of enqueues, sweeps, picks, answers, copies of the list, writes of any earlier copy with items as they are found meanwhile, and restarts |
| OutboxProtocol.FailureHitsItsItem | ai-service/ai/knowledge_provider.py:877-948 | the index taken before the remote call still names the same item after it; a failure changes that item and no other |
| OutboxProtocol.FailureIsBooked | ai-service/ai/knowledge_provider.py:777-948 | after every schedule with an item in flight and an answer that is not "synced": the item records error, code and result of the answer, and is due again at a later time if and only if attempts are left and the delay has passed, which is the base after the first failure and after each further one the smaller of the maximum and twice the last |
| OutboxProtocol.EnqueueIsBooked | ai-service/ai/knowledge_provider.py:782-804 | a new item stands at the end of the queue, due at once, with no attempt used and at least one allowed |
| OutboxProtocol.PickIsBooked | ai-service/ai/knowledge_provider.py:877-889 | the item picked was pending and is marked as being processed, with the time; no attempt is counted yet and every other item stays |
| OutboxProtocol.FoundLater | ai-service/ai/knowledge_provider.py:756-948 | however long a writer waits with its copy of the list: until a restart the items it finds are later versions of those it copied, so the schedules cover everything that can be written |
| OutboxProtocol.SweepCanEnd | ai-service/ai/knowledge_provider.py:860-948 | from every reachable state inside a sweep, picks and answers bring the sweep to its end, whatever the answers are |
| OutboxProtocol.NothingLost | ai-service/ai/knowledge_provider.py:782-948 | the queue is, in arrival order, exactly the ids that came in and were not answered "synced"; none is lost or duplicated |
| OutboxProtocol.LeavesOnlyWhenSynced | ai-service/ai/knowledge_provider.py:900-948 | an id leaves only by its own "synced" answer, or by a restart |
| OutboxProtocol.Accounting | ai-service/ai/knowledge_provider.py:877-948 | failed items have no attempts left, nothing is "processing" between two items and the counts sum to the total; pending items have attempts left unless a file was written with an item's attempts ahead of its status |
| OutboxProtocol.FileIsSomeQueue | ai-service/ai/knowledge_provider.py:756-775 | after every schedule the file has the ids, in arrival order, that the queue had at some earlier point, though not always the latest |
| OutboxProtocol.RestartReadsFile | ai-service/ai/knowledge_provider.py:710-775 | a restart gives exactly the items in the file, with the ids of some earlier queue; only "processing" turns into "pending" |
| OutboxProtocol.OlderCopyLoses | ai-service/ai/knowledge_provider.py:756-804 | a schedule of two enqueues whose writes cross: the file lacks the newer item |
| OutboxProtocol.AnswerSpendsAttempt | ai-service/ai/knowledge_provider.py:900-948 | without arrivals each answer uses up a remaining attempt (an item that has not failed has one at least), a failed one exactly one, and no other step changes what remains |
| OutboxProtocol.AnswersBounded | ai-service/ai/knowledge_provider.py:860-948 | a schedule without arrivals takes at most as many answers as attempts remain, so draining ends; if none is "synced" it uses up exactly as many as it takes |
| OutboxProtocol.SweepMakesProgress | ai-service/ai/knowledge_provider.py:860-899 | when all retry times have passed, a sweep starts a remote call if and only if some item has not failed for good |
| Outbox.KnowledgeOutbox.EnqueueRemoteSync | ai-service/ai/knowledge_provider.py:782-804 | without a case id nothing happens; otherwise the item goes to the end, pending, and the file holds the new queue |
| Outbox.KnowledgeOutbox.PersistOutboxItems | ai-service/ai/knowledge_provider.py:756-775 | copying and writing with nobody in between: the file becomes the queue and nothing else changes |
| Outbox.KnowledgeOutbox.CopyItems | ai-service/ai/knowledge_provider.py:763-764 | under the lock the writer takes the list as it is |
| Outbox.KnowledgeOutbox.DumpItems | ai-service/ai/knowledge_provider.py:765-775 | later it writes the items of its list as they are found then, whatever was written meanwhile |
| Outbox.KnowledgeOutbox.LoadOutboxItems | ai-service/ai/knowledge_provider.py:710-754 | a new process has what the file says, normalised, and no item in flight |
| Outbox.KnowledgeOutbox.Normalize | ai-service/ai/knowledge_provider.py:723-752 | records without id, case id or payload are dropped, the others get safe values, in order |
| Outbox.KnowledgeOutbox.CollectDue | ai-service/ai/knowledge_provider.py:860-869 | the ids due are those pending with a passed retry time, in queue order |
| Outbox.KnowledgeOutbox.BeginItem | ai-service/ai/knowledge_provider.py:877-889 | the first lock section marks the item and remembers its index, or skips an id that is gone |
| Outbox.KnowledgeOutbox.FinishItem | ai-service/ai/knowledge_provider.py:892-948 | the second lock section removes a synced item; otherwise the item at the remembered index fails for good if no attempt is left, or waits for the delay, with error, code and result of the answer |
| Outbox.KnowledgeOutbox.GetOutboxStatus | ai-service/ai/knowledge_provider.py:985-990 | total and counts by state |
| Outbox.KnowledgeOutbox.ProcessItem | ai-service/ai/knowledge_provider.py:877-948 | whatever the remote side answers, one item processed leaves strictly fewer remaining attempts |
| Outbox.KnowledgeOutbox.SweepDue | ai-service/ai/knowledge_provider.py:860-875 | a sweep works off its due list and leaves strictly fewer remaining attempts |
| Outbox.KnowledgeOutbox.ProcessOutboxOnce | ai-service/ai/knowledge_provider.py:860-875 | when the last retry time has come, one call leaves strictly fewer remaining attempts, or finds every item failed |
| Outbox.KnowledgeOutbox.WorkOff | ai-service/ai/knowledge_provider.py:950-962 | the worker ends with every item removed by its own "synced" answer or failed with all attempts used, exactly all if the queue began in step |
| EnvLines.UnquoteInvertsQuote | ai-service/ai/runtime_config_helpers.py:251-253 | reading a double-quoted YAML scalar (YAML 1.2.2, sections 5.7 and 7.3.1) undoes the quoting of any value |
| EnvLines.NameMatchExactly | ai-service/ai/runtime_config_helpers.py:19-19 | the name pattern matches with an indent and a key if and only if the line is that indent, a dash, white space, `name:`, and the key with white space around it |
| EnvLines.ValueMatchExactly | ai-service/ai/runtime_config_helpers.py:20-20 | the value pattern matches if and only if the line is white space, `value:`, and a text without line feed except at its end |
| EnvLines.NameTextMatches | ai-service/ai/runtime_config_helpers.py:19-20 | an inserted name line is recognised with its key and indent |
| EnvLines.ValueTextMatches | ai-service/ai/runtime_config_helpers.py:19-20 | the line written for a value is no name line, and is recognised with the quoted value if and only if the value has no line feed |
| EnvLines.ValueTextPieces | ai-service/ai/runtime_config_helpers.py:251-366 | a written value becomes one `value:` line with the first line of the quoted text, and further lines; it is one line if and only if the value is |
| EnvScan.EntriesShape | ai-service/ai/runtime_config_helpers.py:317-337 | the indexed entries have disjoint ranges inside the block, each starting at its name line |
| EnvScan.ScalarTerminates | ai-service/ai/runtime_config_helpers.py:303-315 | a `value:` line at the entries' indent ends the block if and only if the indent is not made of blanks and not deep enough without its other white space |
| EnvScan.TerminatesExactly | ai-service/ai/runtime_config_helpers.py:303-315 | on the text of a line: it ends the block if and only if it is neither blank nor a comment, and is shallower than `env:`, or as deep and no name line |
| EnvReader.ReadSpec | ai-service/ai/runtime_config_helpers.py:317-361 | one pass down the block finds the same entries as the index: the first key, the key's last entry and its value line |
| EnvEdit.TargetsDiffer | ai-service/ai/runtime_config_helpers.py:346-361 | different keys never share a value line |
| EnvEdit.OverwriteSpec | ai-service/ai/runtime_config_helpers.py:346-361 | only value lines of updated entries change, and each gets its own value |
| EnvScan.BlockEndSpec | ai-service/ai/runtime_config_helpers.py:303-315 | no line inside the block terminates it, and the line after it does |
| EnvEdit.EditFrame | ai-service/ai/runtime_config_helpers.py:288-371 | every line keeps text and order except updated value lines; exactly two lines per added key, together at the end of the block; the rest follows unchanged |
| EnvEdit.ChangesSpec | ai-service/ai/runtime_config_helpers.py:345-375 | the change flag is set if and only if a line changed or a key was added |
| EnvEdit.EditChangesNothing | ai-service/ai/runtime_config_helpers.py:345-375 | an edit changes nothing if and only if each key has an entry, and this has no value line or exactly the one that would be written |
| EnvText.SplitIsOneLine | ai-service/ai/runtime_config_helpers.py:285-286 | split lines contain no line boundary |
| EnvText.BreaksExactly | ai-service/ai/runtime_config_helpers.py:285-286 | a text is split at exactly ten characters, and once at a carriage return with a line feed |
| EnvText.SplitAssembled | ai-service/ai/runtime_config_helpers.py:285-381 | what a written file is split into, whatever its lines hold: each line at its own breaks, without an empty last line that nothing ends |
| EnvText.SplitInvertsAssemble | ai-service/ai/runtime_config_helpers.py:285-381 | splitting written content gives the lines that were joined |
| EnvEditor.FindEnvLine | ai-service/ai/runtime_config_helpers.py:288-297 | the first line that is `env:`, if any |
| EnvEditor.FindBlockEnd | ai-service/ai/runtime_config_helpers.py:303-315 | the first line after it that ends the block, or the end of the file |
| EnvEditor.FindEntryEnd | ai-service/ai/runtime_config_helpers.py:329-335 | the next name line with the same indent, or the end of the block |
| EnvEditor.IndexEntries | ai-service/ai/runtime_config_helpers.py:317-337 | the dictionary maps each key to its last entry and remembers the key first put in |
| EnvEditor.FindValue | ai-service/ai/runtime_config_helpers.py:351-355 | the first value line of an entry |
| EnvEditor.ApplyUpdates | ai-service/ai/runtime_config_helpers.py:345-371 | the loop over the updates with its shifting block end reaches the edited lines, the key lists and the change flag |
| EnvEditor.EditLines | ai-service/ai/runtime_config_helpers.py:288-371 | indexing and updating in place give the specified edit; `changed` says whether a line differs |
| EnvEditor.OutcomeByText | ai-service/ai/runtime_config_helpers.py:280-389 | told from the texts: a blank file and one without a line `env:` are refused, nothing is written if no line changed, and what is written is the edited lines with a trailing newline if and only if there was one |
| EnvEditor.PersistEnvUpdates | ai-service/ai/runtime_config_helpers.py:256-389 | refusals, no write when nothing changed, and the written content with its trailing newline |
| EnvWritten.FileReads | ai-service/ai/runtime_config_helpers.py:256-389 | what any key reads as in the written file, for any indent, entries and values: the first line of the quoted value if value lines stay in the block and no line above has ended it, else what the old lines say above the first written line that ends the block |
| EnvWritten.BrokenNeverReadsBack | ai-service/ai/runtime_config_helpers.py:19-389 | no file whatsoever reads back a value with a line break |
| EnvWritten.FileReadsBackExactly | ai-service/ai/runtime_config_helpers.py:256-389 | a requested value reads back if and only if it survives and has no line break, or what is left of the old lines happens to hold it |
| EnvWritten.AllReadBackExactly | ai-service/ai/runtime_config_helpers.py:256-389 | for any values: all requested values read back if and only if none has a line break and each survives or is held by what is left |
| EnvWritten.FileKeepsOtherKeysExactly | ai-service/ai/runtime_config_helpers.py:256-389 | any other key reads as in the old lines above the first ending line; with one entry it reads as before if and only if it had no value or its value line is above all those written that end the block |
| EnvWritten.FileIsStableExactly | ai-service/ai/runtime_config_helpers.py:256-389 | a second run changes nothing if and only if no line break was written, where value lines stay in the block; elsewhere if and only if the edit leaves unchanged what is left of the block |
| EnvWritten.CommentIsIgnored | ai-service/ai/runtime_config_helpers.py:303-361 | a blank line or a comment of any indent, put anywhere, changes neither what any key reads as nor which keys an edit adds or updates |
| EnvWritten.BrokenValueIsLost | ai-service/ai/runtime_config_helpers.py:256-389 | a value of two lines: only its first line is read, and the next run writes again |
| EnvWritten.NamingItselfSettles | ai-service/ai/runtime_config_helpers.py:256-389 | a value whose second line names its own key again: it never reads back, and yet the next run finds nothing to write |
| EnvWritten.TabDoesNotStay | ai-service/ai/runtime_config_helpers.py:303-371 | a file with one entry indented by a tab: whatever is added to it cannot be read |
| LlmCacheModel.HitIsLatestSet | ai-service/ai/llm_service.py:261-283 | after any run, whatever the clock did, a hit returns the content of the key's latest set, made less than the time to live ago |
| LlmCacheModel.LookupExactly | ai-service/ai/llm_service.py:261-283 | after any run, whatever the clock did, the answer is determined by the history of gets and sets alone: the latest set of the key, unless it was crowded out, was met expired, or has expired now |
| LlmCacheModel.MissIsExplained | ai-service/ai/llm_service.py:261-283 | a miss means never set, expired, or at least as many other keys touched since as the cache holds |
| LlmCacheModel.NeverOverCapacity | ai-service/ai/llm_service.py:276-283 | after any run, whatever the clock did, the cache holds at most its maximum of entries, or one if that is less, and each key once |
| LlmCacheModel.DisabledStaysEmpty | ai-service/ai/llm_service.py:262-277 | with the cache off no run stores anything |
| LlmCacheModel.MissExactly | ai-service/ai/llm_service.py:261-283 | while the clock does not go back, a miss happens if and only if the key was never set, has expired, or was crowded out: at some point since its last use as many keys as the cache holds had been used and not dropped as expired |
| LlmCacheModel.ExpiryMakesRoom | ai-service/ai/llm_service.py:272-273 | a run in which an expired entry was dropped and a key survives as many other keys as the cache holds, so counting all of them is not the exact condition |
| LlmCache.ProviderCache.GetCached | ai-service/ai/llm_service.py:261-274 | a hit moves the key to the end, an expired entry is deleted, nothing else changes |
| LlmCache.ProviderCache.SetCache | ai-service/ai/llm_service.py:276-283 | the key goes to the end and the oldest entries are evicted down to the limit |
| LlmCache.ProviderCache.Replay | ai-service/ai/llm_service.py:261-283 | executing a run gives the run's cache, and every answer is the lookup at that point |
| Text.StripTakesSpaces | exec-service/core/policy_opa_client.py:74-75 | trimming takes away white space at the two ends only, and all of it |
| Text.SpacesExactly | exec-service/core/policy_opa_client.py:75-75 | which 29 characters trimming takes away |
| Text.ContainsExactly | exec-service/api/execute.py:201-221 | a text contains another exactly if that stands somewhere in it |
| Text.DecimalExactly | ai-service/ai/analysis_result_helpers.py:283-283 | the digits of a number stand for it, without a leading zero |
| Text.LowerExactly | exec-service/core/policy_opa_client.py:75-75 | lower case changes the 26 capital letters, each to its own small one, and nothing else |
| TextOrder.TextLeExactly | ai-service/ai/session_history.py:131-135 | texts are compared by the first place where they differ, a prefix being smaller |
| Sorting.SortRefines | ai-service/ai/session_history.py:131-137 | a stable sort refines the order the list already had |
| Sorting.StableSortIsUnique | ai-service/ai/session_history.py:131-137 | the result of a stable sort is the one list that is sorted and keeps ties in their order |
| SessionListing.SortsMatchOrderTerms | ai-service/ai/session_history.py:105-138 | for every field, direction and pinned flag the chain of stable sorts is a permutation sorted by the terms of the ORDER BY expression |
| SessionListing.SortIsTheOnlyOne | ai-service/ai/session_history.py:105-138 | it is the only such permutation, since the session id ends the terms |
| SessionListing.ListByFields | ai-service/ai/session_history.py:53-138 | told from the request texts and the session fields: pinned sessions first if asked for, then the field named, ascending only for "asc" and texts without case, then the later update, then the greater id |
| SessionListing.RepeatedTerm | ai-service/ai/session_history.py:117-121 | leaving out the second `updated_at DESC` loses nothing |
| SessionListing.KeepMembers | ai-service/ai/session_history.py:894-900 | filtering keeps exactly the sessions that pass and their distinctness |
| SessionListing.PagesArePrefix | ai-service/ai/session_history.py:999-999 | consecutive pages concatenate to a prefix of the listing |
| SessionStoreListing.SessionStore.Select | ai-service/ai/session_history.py:970-992 | the field filters and the search select exactly the matching sessions, in order |
| SessionStoreListing.KeepOffered | ai-service/ai/session_history.py:970-977 | the comprehensions over deletion, type, service and archive keep exactly the sessions offered |
| SessionStoreListing.SessionStore.CountSessions | ai-service/ai/session_history.py:894-917 | the number of matching sessions |
| SessionStoreListing.SessionStore.ListSessions | ai-service/ai/session_history.py:919-999 | the page of the sorted matches for sanitised limit and offset, whose sessions pass the filters and stand in the order the request texts ask for |
| SessionStoreListing.SortSessionsInMemory | ai-service/ai/session_history.py:124-138 | re-sorting one list in place gives a permutation that is sorted by the terms of the ORDER BY expression for this field, direction and pinned flag |
| SessionStoreListing.PagesGiveTheListing | ai-service/ai/session_history.py:863-999 | pages put together are exactly the sessions that pass every filter and mention the search text, each once, in the one order the terms allow, as many as `count_sessions` says |
| SessionMessagesModel.AppendIndexed | ai-service/ai/session_history.py:1160-1197 | message indexes equal positions after every append, and the next index is the length read |
| SessionMessagesModel.PreparedByFields | ai-service/ai/session_history.py:1160-1197 | kept are exactly the drafts of the roles user, assistant and system whose content is not blank, with trimmed content and their own id or a new one |
| SessionMessagesModel.AppendKeepsLogExactly | ai-service/ai/session_history.py:1160-1197 | an append extends the log if and only if the log is within the read limit, nothing was accepted, or what was accepted begins with the messages that a longer log loses |
| SessionMessagesModel.EveryRun | ai-service/ai/session_history.py:1160-1349 | after any run of appends and deletions the log is indexed and the tombstones are the ids deleted, cut to the newest 2000 |
| SessionMessagesModel.ReadersSeeTheRest | ai-service/ai/session_history.py:1080-1090 | readers see exactly the log minus the tombstoned ids, in order; a limit cuts before the filter |
| SessionMessagesModel.NormalizeSpec | ai-service/ai/session_history.py:716-728 | any list of ids becomes trimmed ids, none blank or repeated, at most the limit, and all of them unless that many are there |
| SessionMessagesModel.DeleteSucceedsExactly | ai-service/ai/session_history.py:1317-1349 | a deletion succeeds if and only if the trimmed id is visible and among the first 5000 messages |
| SessionMessagesModel.TombstonesHold | ai-service/ai/session_history.py:716-747 | with at most 2000 deletions neither appends nor deletions bring a deleted message back |
| SessionMessagesModel.TombstonesHoldExactly | ai-service/ai/session_history.py:716-747 | after any run everything that was ever deleted is hidden if and only if there were at most 2000 deletions |
| SessionMessagesModel.OldestComesBack | ai-service/ai/session_history.py:716-728 | in any run a deletion beyond the limit brings back exactly the messages of the oldest tombstone in force |
| SessionMessagesModel.DeletedIsShown | ai-service/ai/session_history.py:716-747 | a run of 2001 deletions after which a deleted message is shown again |
| SessionMessagesModel.LogIsAppendOnly | ai-service/ai/session_history.py:1160-1197 | while the log is within the read limit, earlier logs are prefixes of later ones |
| SessionMessages.LiveSession.NormalizeDeletedIds | ai-service/ai/session_history.py:716-728 | trimmed, nonempty, distinct ids of the list, the first ones up to 2000, all if there are fewer |
| SessionMessages.LiveSession.WithoutDeleted | ai-service/ai/session_history.py:737-747 | the messages whose id is not hidden, in order |
| SessionMessages.LiveSession.GetMessages | ai-service/ai/session_history.py:1080-1090 | the visible part of the first messages up to the limit |
| SessionMessages.LiveSession.GetMessageCount | ai-service/ai/session_history.py:1214-1217 | the number of visible messages |
| SessionMessages.LiveSession.AppendMessages | ai-service/ai/session_history.py:1160-1197 | drafts of the three roles with content get the next indexes, follow the first 10000 messages and are returned; the others are dropped |
| SessionMessages.LiveSession.DeleteMessage | ai-service/ai/session_history.py:1327-1349 | says whether it deleted, and adds only a tombstone |
| CaseIndex.AgreesAdd | ai-service/ai/similar_cases.py:1031-1034 | adding an id to a bucket keeps buckets exact, without duplicates and nonempty |
| CaseIndex.AgreesRemove | ai-service/ai/similar_cases.py:470-485 | removing an id does, and drops an emptied bucket |
| CaseIndex.AddKeepsConsistent | ai-service/ai/similar_cases.py:1013-1036 | adding or replacing a case keeps both indexes exact |
| CaseIndex.DeleteKeepsConsistent | ai-service/ai/similar_cases.py:1091-1108 | so does deleting |
| CaseIndex.EveryRun | ai-service/ai/similar_cases.py:1013-1108 | after any run both indexes are exact and each id holds its last added case unless deleted since |
| CaseIndex.ByTypeIsScan | ai-service/ai/similar_cases.py:1058-1062 | a lookup by type equals a full scan, each case once |
| CaseIndex.ByServiceIsScan | ai-service/ai/similar_cases.py:1064-1068 | a lookup by service equals a full scan that ignores case |
| CaseIndex.AllCasesAreLive | ai-service/ai/similar_cases.py:1070-1074 | all cases are the stored ones, each once |
| CaseRetrieval.CandidatesSpec | ai-service/ai/similar_cases.py:1149-1161 | candidates are the cases of the type or of a named service, or all cases when there is none |
| CaseRetrieval.UniqueSpec | ai-service/ai/similar_cases.py:1163-1168 | each id is considered once and none is dropped |
| CaseRetrieval.HitsSpec | ai-service/ai/similar_cases.py:1170-1189 | hits are the candidates that are no drafts and reach the minimum, with their scores |
| CaseRetrieval.EligibleExactly | ai-service/ai/similar_cases.py:1133-1181 | told from the fields: a case is eligible if and only if it is live, reaches the minimum, is no stated draft unless drafts are wanted, and shares the type or one of the services of the query, unless no live case shares any |
| CaseRetrieval.RetrievalIsTopOfScan | ai-service/ai/similar_cases.py:1133-1193 | the answer has eligible live cases only, each once, best first, each at least as similar as asked for and no stated draft unless drafts are wanted; nothing left out scores higher, and for any limit there are exactly as many as it leaves of all eligible ones |
| CaseRetrieval.RetrievalByFields | ai-service/ai/similar_cases.py:1133-1193 | told from the fields: what every hit fulfils, and why a live case is not among the hits |
| CaseStore.CaseStore.AddCase | ai-service/ai/similar_cases.py:1013-1036 | the new case replaces one with its id in store and indexes |
| CaseStore.CaseStore.DeleteCase | ai-service/ai/similar_cases.py:1091-1108 | says whether the id was there, and removes it everywhere |
| CaseStore.CaseStore.RemoveFromIndexes | ai-service/ai/similar_cases.py:470-485 | a case leaves its buckets, emptied buckets are dropped |
| CaseStore.CaseStore.FilterOut | ai-service/ai/similar_cases.py:470-485 | every other id of the bucket, in order |
| CaseStore.CaseStore.LookUp | ai-service/ai/similar_cases.py:1058-1068 | ids of a bucket become their cases, ids without one are passed over |
| CaseStore.CaseStore.GetCasesByType | ai-service/ai/similar_cases.py:1058-1062 | the live cases of the type's bucket |
| CaseStore.CaseStore.GetCasesByService | ai-service/ai/similar_cases.py:1064-1068 | the live cases of the lower-cased service's bucket |
| CaseStore.CaseStore.GetAllCases | ai-service/ai/similar_cases.py:1070-1074 | every stored case in insertion order |
| CaseStore.CaseStore.CollectCandidates | ai-service/ai/similar_cases.py:1149-1161 | the loops over type and services collect the specified candidates |
| CaseStore.CaseStore.FindSimilarCases | ai-service/ai/similar_cases.py:1133-1193 | every hit reaches the minimum and is no stated draft unless drafts are wanted, best first; a live case that is left out scores no higher, misses one of the two, or shares nothing with the query although others do |
| RunActionsModel.SkippedExactly | ai-service/api/ai_runtime_v2.py:339-386 | an action event is dropped if and only if it has no id, command or title; its key is the first of its four ids that is not blank, or made of its number |
| RunActionsModel.RecordIsItsOwn | ai-service/api/ai_runtime_v2.py:366-556 | the record of a key equals the fold over that key's events alone, whatever is interleaved, and exists if and only if there are any |
| RunActionsModel.KeysAreThoseSeen | ai-service/api/ai_runtime_v2.py:366-556 | exactly the keys of retained events have a record |
| RunActionsModel.OrderedByFirst | ai-service/api/ai_runtime_v2.py:366-556 | records stand in the order in which their keys first appear |
| RunActionsModel.RecordMeaning | ai-service/api/ai_runtime_v2.py:387-556 | the status is told by the name of the last event's type and its payload alone, an approval by its decision; id and creation time come from the first event |
| RunActionsModel.TextIsLastOffered | ai-service/api/ai_runtime_v2.py:387-556 | each of 13 text fields is the last nonempty value offered by the events that carry it |
| RunActionsModel.OfferedByText | ai-service/api/ai_runtime_v2.py:387-556 | which text an event offers each of the 13 fields, told from the name of its type |
| RunActionsModel.NextByFields | ai-service/api/ai_runtime_v2.py:440-556 | what one more event makes of call result, failure, retry and approval id, told from the name of its type |
| RunActionsModel.EvidenceByFields | ai-service/api/ai_runtime_v2.py:396-533 | what one more event makes of reuse, id lists and score, told from the name of its type |
| RunActionsModel.ReuseIsRemembered | ai-service/api/ai_runtime_v2.py:387-533 | the reuse flag is set if and only if some event that offers evidence said so |
| RunActionsModel.TextsAreKept | ai-service/api/ai_runtime_v2.py:431-556 | a further event never empties a text, changes it only by a nonempty one, and never takes reuse back |
| RunActionsModel.ActionsExactly | ai-service/api/ai_runtime_v2.py:558-560 | the list is the one arrangement of the records with later creation first and ties by first event |
| RunActions.UpdateAction | ai-service/api/ai_runtime_v2.py:431-556 | the ten branches do what the field-by-field rules say |
| RunActions.ReasonStaysNormalized | ai-service/api/ai_runtime_v2.py:409-515 | normalising a stored reason code again changes nothing |
| RunActions.ExtractRunActions | ai-service/api/ai_runtime_v2.py:366-560 | the loop with its dictionary and the final sort give the specified list |
| TraceModel.AttachedOnce | ai-service/ai/trace_analyzer.py:278-291 | a span is a child of its parent exactly once and of no other span |
| TraceModel.Find | ai-service/ai/trace_analyzer.py:280-280 | a dictionary built from the list holds the last span with an id, if there is one |
| TraceModel.RootPathBounded | ai-service/ai/trace_analyzer.py:401-414 | downward paths from a root never repeat a span, so the recursion ends even when other spans form cycles |
| TraceModel.CriticalPathIsOptimal | ai-service/ai/trace_analyzer.py:394-418 | the path found is a downward path from the root whose total is the largest of all, for any durations and parents |
| TraceModel.TopmostExactly | ai-service/ai/trace_analyzer.py:326-333 | wherever the climb ends, it ends at a span if and only if an unbroken chain of errors ends there and cannot be made longer |
| TraceModel.ErrorClimbEndsExactly | ai-service/ai/trace_analyzer.py:326-333 | on any parents the climb ends if and only if no chain of consecutive errors up from the span comes back to a span it has passed |
| TraceModel.AcyclicErrorClimbEnds | ai-service/ai/trace_analyzer.py:326-333 | without parent cycles it always ends |
| TraceModel.RootCausesSpec | ai-service/ai/trace_analyzer.py:318-338 | wherever the climbs end, a span is listed if and only if it is the root cause of some error, and once |
| TraceModel.AncestrySpec | ai-service/ai/trace_analyzer.py:513-522 | each ancestor is the parent of the one before, none is the span itself, and the last has no parent in the trace |
| TraceModel.DepthExactly | ai-service/ai/trace_analyzer.py:513-522 | on any parents the loop ends with a count if and only if some way up from the span of that many steps ends at a root or comes back to the span, or the span has itself lost its parent |
| TraceModel.AcyclicDepth | ai-service/ai/trace_analyzer.py:513-522 | without parent cycles the loop ends if and only if no proper ancestor has lost its parent; it counts the ancestors, or 1 for a span that has itself lost its parent |
| TraceModel.DepthLoopsForEver | ai-service/ai/trace_analyzer.py:513-522 | the depth of any child whose parent names a missing span is never found |
| TraceAnalyzer.MapById | ai-service/ai/trace_analyzer.py:280-280 | the dictionary maps each id to its last span |
| TraceAnalyzer.BuildSpanTree | ai-service/ai/trace_analyzer.py:278-291 | every span ends with exactly its children in list order, and the last span without a parent is the root |
| TraceAnalyzer.FindLongestPath | ai-service/ai/trace_analyzer.py:401-414 | the recursion over child objects returns total and services of the specified path |
| TraceAnalyzer.FindCriticalPath | ai-service/ai/trace_analyzer.py:394-418 | the services of a longest downward path; none without a root |
| TraceAnalyzer.ClimbErrors | ai-service/ai/trace_analyzer.py:326-333 | where it ends, the loop over parents ends at the topmost ancestor in error |
| TraceAnalyzer.FindRootCauses | ai-service/ai/trace_analyzer.py:318-338 | where the climbs end, the distinct root causes in the order found |
| TraceAnalyzer.GetSpanDepth | ai-service/ai/trace_analyzer.py:513-522 | where it ends, the loop counts the steps up to a root, or back to the span, or 1 for a span that has itself lost its parent |
| SolutionTextModel.CleanItemExactly | ai-service/ai/analysis_result_helpers.py:57-60 | cleaning leaves a text alone if and only if it is trimmed and starts with neither dash nor star |
| SolutionTextModel.MarkedItemIsCleaned | ai-service/ai/analysis_result_helpers.py:57-60 | an item with a dash or a star, or blanks around it, is cleaned to its text |
| SolutionTextModel.ListKeptExactly | ai-service/ai/analysis_result_helpers.py:55-70 | a list is kept unchanged if and only if it is short enough, without repetitions, and all its texts are clean and long enough |
| SolutionTextModel.ReadBack | ai-service/ai/analysis_result_helpers.py:284-293 | joined lines are split, trimmed and filtered back into themselves |
| SolutionTextModel.StepIsRead | ai-service/ai/analysis_result_helpers.py:265-304 | a step of any number, with a dot or a bracket, or with a dash or star, is recognised with exactly its text |
| SolutionTextModel.OtherLinesAreNoSteps | ai-service/ai/analysis_result_helpers.py:294-304 | a line that begins with neither digit, dash nor star is no step, nor is a dash or star alone |
| SolutionTextModel.TitleIsRead | ai-service/ai/analysis_result_helpers.py:277-314 | what the parser makes of a printed title line |
| SolutionTextModel.DescriptionIsRead | ai-service/ai/analysis_result_helpers.py:278-314 | what it makes of a printed description line |
| SolutionTextModel.TextsKeptExactly | ai-service/ai/analysis_result_helpers.py:103-325 | title and description come back if and only if they are within their limits and not taken for other lines |
| SolutionTextModel.OverlongLosesSteps | ai-service/ai/analysis_result_helpers.py:287-304 | a printed solution with steps whose text is over the 6000 characters never comes back, wherever the cut falls |
| SolutionTextModel.ParsedIsShort | ai-service/ai/analysis_result_helpers.py:287-325 | any text parses to at most one solution, with a title of at most 120 characters, a description of at most 1500 and at most 20 distinct steps |
| SolutionTextModel.OuterSpaceIsIgnored | ai-service/ai/analysis_result_helpers.py:287-290 | white space around a text makes no difference, even where the text is cut |
| SolutionTextModel.RoundTripExactly | ai-service/ai/analysis_result_helpers.py:265-325 | a solution of single-line texts is parsed back from its printed form if and only if title, description, steps and length meet conditions on their characters |
| SolutionTextModel.OneMoreIsPrinted | ai-service/ai/analysis_result_helpers.py:265-284 | the lines of a printed list: one more solution adds an empty line, its numbered title, its description if it has one and its numbered steps |
| SolutionTextModel.SeveralBecomeOne | ai-service/ai/analysis_result_helpers.py:265-325 | several printed solutions are parsed as one: the first text left is its title, the others its description, and all steps follow each other; they never come back as several |
| SolutionText.NormalizeList | ai-service/ai/analysis_result_helpers.py:55-70 | the two loops with the early exit give the first distinct clean texts |
| SolutionText.NormalizeAll | ai-service/ai/analysis_result_helpers.py:103-141 | empty solutions are dropped, untitled ones named |
| SolutionText.KeepNonBlank | ai-service/ai/analysis_result_helpers.py:274-292 | trimmed texts that are not blank, in order |
| SolutionText.AppendSolution | ai-service/ai/analysis_result_helpers.py:271-283 | title, description and numbered steps of one solution are appended |
| SolutionText.Print | ai-service/ai/analysis_result_helpers.py:268-284 | the printer's loops give the specified text |
| SolutionText.Parse | ai-service/ai/analysis_result_helpers.py:287-325 | the parser's loop gives the specified solutions |
| DecisionRecency.RecencySpec | exec-service/core/policy_decision_store.py:386-394 | the order lists every written id once, by its last write |
| DecisionRecency.CutCommutes | exec-service/core/policy_decision_store.py:391-398 | forgetting the oldest at every write is the same as forgetting them at the end |
| DecisionRecency.WriteKeepsHolds | exec-service/core/policy_decision_store.py:386-399 | after a write the order is the newest 5000 ids and the store has exactly their last records |
| DecisionRecency.HeldExactly | exec-service/core/policy_decision_store.py:386-399 | a decision is held if and only if it was written and fewer than 5000 others were written after its last write |
| DecisionRecency.OrderShape | exec-service/core/policy_decision_store.py:391-398 | the order has no repetition, at most 5000 ids, by last write |
| DecisionRecency.BindingKeepsDecisions | exec-service/core/policy_decision_store.py:631-655 | whatever is held or forgotten, every record written has the id, action, result and creation time of one recorded decision |
| DecisionRecency.BindingIsTheLastWrite | exec-service/core/policy_decision_store.py:631-655 | after any run, binding a held decision writes it once more with the run asked for, the command run unless that is blank, and the time; nothing is written for one that is not held |
| DecisionRecency.ListingSpec | exec-service/core/policy_decision_store.py:712-729 | a listing has matches only, newest write first; a held match is missing only where the limit of newer ones is listed |
| DecisionRecency.ListedByFields | exec-service/core/policy_decision_store.py:687-729 | told from the fields: all listed are held and match what the query is not blank in, newest write first, at most the limit (0 as 100, between 1 and 1000); a held match is missing only from a full listing |
| DecisionStore.PolicyDecisionStore.CacheRecord | exec-service/core/policy_decision_store.py:386-399 | moving, cutting and popping in place keep order and store in step with the writes |
| DecisionStore.PolicyDecisionStore.ForgetStale | exec-service/core/policy_decision_store.py:398-399 | the stale ids are popped, one by one |
| DecisionStore.PolicyDecisionStore.RecordPolicyDecision | exec-service/core/policy_decision_store.py:622-628 | recording writes the decision |
| DecisionStore.PolicyDecisionStore.BindDecisionToRun | exec-service/core/policy_decision_store.py:631-655 | only a held decision is bound: it has the run asked for, the command run unless that is blank, and the time; every other decision stays |
| DecisionStore.PolicyDecisionStore.Replay | exec-service/core/policy_decision_store.py:386-655 | after any run of recording and binding the store holds what its writes say |
| DecisionStore.PolicyDecisionStore.ListPolicyDecisions | exec-service/core/policy_decision_store.py:687-729 | the backwards loop with its early exit lists held matches only, up to the limit, and misses one only in a full listing |
| PolicyDecision.StrictestIsJoin | exec-service/core/policy_opa_client.py:85-88 | the stricter of two results is their join in the severity order |
| PolicyDecision.AnswerByText | exec-service/core/policy_opa_client.py:74-88 | which texts of OPA, trimmed and in lower case, count as allowed, as one of the three milder refusals, or else as denied |
| PolicyDecision.EnginesCombine | exec-service/core/policy_opa_client.py:142-212 | only enforcement lets OPA decide; enforced without a usable answer is a denial; with the strictest switch the result is the join of both and never milder than the local one |
| PrecheckModel.UnknownTargetExactly | exec-service/api/execute.py:201-221 | a target is unknown if and only if its identity is blank, "unknown", contains ":unknown", or is local on an unspecified node |
| PrecheckModel.OkExactly | exec-service/api/execute.py:329-574 | a response ends "ok" if and only if it came so far and the mode lets it pass: a mode without enforcement lets unflagged targets pass, enforcement asks for an answer of OPA that is neither denial nor manual and, for a flagged target, for the strictest switch to be off and an answer other than "allow"; and when exactly the recorded decision is then stricter than "allow" |
| PrecheckModel.FlaggedOkExactly | exec-service/api/execute.py:524-574 | an unknown, unregistered or registry-flagged target ends "ok" if and only if enforcement runs without the strictest switch and OPA answers "confirm" or "elevate" |
| PrecheckModel.UnknownTargetMayRun | exec-service/api/execute.py:524-574 | an unknown target whose response ends "ok" |
| PrecheckModel.RefusalLiftedExactly | exec-service/api/execute.py:92-120 | a response refused before the policy is lifted if and only if OPA or the local result asks for manual approval, told from mode, switches, flags and answers |
| PrecheckModel.PassesExactly | exec-service/api/execute.py:826-1048 | which commands reach the policy as "ok", and which targets are flagged there, told from classification, dispatch, preflight, whitelist and switches |
| PrecheckModel.DisabledNeverPasses | exec-service/api/execute.py:832-850 | while execution is off a command always reaches the policy as refused, whatever dispatch answers later |
| PrecheckModel.DecidedFromInputs | exec-service/api/execute.py:329-1048 | the recorded decision and the final status, told from classification, dispatch, preflight, whitelist, switches and answers by a table without intermediate responses or messages |
| PrecheckModel.StatusByFields | exec-service/api/execute.py:123-1031 | the status that reaches the policy, told from the fields of classification, dispatch, whitelist and switches |
| PrecheckModel.LocalByFields | exec-service/api/execute.py:77-535 | the local result, told from that status and the fields of registry, target and classification |
| PrecheckModel.DecisionByText | exec-service/core/policy_opa_client.py:142-212 | the recorded decision, told from the local result, the flags and the text of OPA's answer |
| PrecheckModel.DenialByOpa | exec-service/api/execute.py:92-120 | a denial by OPA, or for want of its answer, gives the reason in its message |
| PrecheckModel.MessageByFields | exec-service/api/execute.py:882-1031 | what the response says before the policy, told from classification, dispatch, preflight, whitelist and switches |
| PrecheckModel.ReasonByText | exec-service/api/execute.py:524-566 | the engine recorded, and without enforcement the reason: the message with what registry and target add to it |
| PrecheckModel.EnforcedReason | exec-service/api/execute.py:541-566 | with enforcement the reason recorded is that of OPA, with both results where the local one was stricter, or with what lifts a plain "allow" |
| PrecheckModel.CheckedIsCoherent | exec-service/api/execute.py:826-1048 | before finalising, the two flags and the policy's name say what the status says, and there is no ticket |
| PrecheckModel.TicketExactly | exec-service/api/execute.py:305-326 | a response carries a ticket if and only if it ends confirmation_required or elevation_required; the ticket is for its command and decision and demands elevation exactly in the second case, and the response's flags say the same |
| PrecheckModel.RecoveryMatchesExactly | exec-service/api/execute.py:129-198 | a dispatch refusal that is taken back leads to the response a working dispatch would have led to if and only if the two readings of the classifier's answer (trimming, defaults) agree |
| PrecheckModel.UnavailableLooksSo | exec-service/api/execute.py:123-126 | every dispatch refusal is recognised by its message, whatever the reason in it |
| Precheck.PrecheckResponse.constructor | exec-service/api/execute.py:882-919 | the response a classified command starts with |
| Precheck.PrecheckResponse.Disabled | exec-service/api/execute.py:832-850 | the response while command execution is switched off |
| Precheck.PrecheckResponse.AskConfirmation | exec-service/api/execute.py:996-1004 | a query outside the whitelist needs a confirmation |
| Precheck.PrecheckResponse.WriteGate | exec-service/api/execute.py:1014-1031 | a write is refused while writes are off, else it needs an elevation |
| Precheck.PrecheckResponse.ApplyEffectivePolicy | exec-service/api/execute.py:92-120 | manual approval and denial rewrite the verdict, every other result leaves the response alone |
| Precheck.PrecheckResponse.RehydrateAfterRecovery | exec-service/api/execute.py:129-198 | only a dispatch refusal with a working dispatch is replaced |
| Precheck.PrecheckResponse.AttachTicket | exec-service/api/execute.py:305-326 | at most one ticket, for the response as it stands |
| Precheck.PrecheckResponse.LocalResult | exec-service/api/execute.py:77-89 | the local severity of a response |
| Precheck.PrecheckResponse.ResolveTarget | exec-service/api/execute.py:389-440 | dispatch, recovery and target id before the policy |
| Precheck.PrecheckResponse.Decide | exec-service/api/execute.py:524-566 | local result, registry and unknown-target rules, the engine, and the two last guards |
| Precheck.PrecheckResponse.Finalize | exec-service/api/execute.py:329-630 | the helpers in their order give the finished response, the recorded result and the ticket issued |
| Precheck.PrecheckCommand | exec-service/api/execute.py:826-1048 | the whole precheck: the decision told from the local result and the text of OPA's answer, unknown texts denying, and the status told from the decision; "ok" with and without a stricter decision told from the inputs, never for a flagged target with the strictest switch; flags and policy name as the status says; one ticket for its own command and decision exactly when it asks |
| Precheck.CheckCommand | exec-service/api/execute.py:826-1031 | the checks with their early exits give the specified response before the policy, with the message of the first check that fails |
| Precheck.OkFromInputs | exec-service/api/execute.py:826-1048 | a precheck ends "ok" if and only if the command reaches the policy as "ok" and the policy lets it pass, with no reference to intermediate responses |
| Precheck.DecisionFromInputs | exec-service/api/execute.py:77-1048 | decision and final status of any precheck, execution on or off, are those of the table of the inputs |
| Precheck.StricterOkFromInputs | exec-service/api/execute.py:329-1048 | a precheck ends "ok" with a decision stricter than "allow" if and only if the command reaches the policy as "ok", enforcement runs, OPA answers "confirm" or "elevate", and the target is not flagged where the strictest switch is on |
| Precheck.RefusedFromInputs | exec-service/api/execute.py:92-1048 | a precheck ends refused if and only if a refusal reaches the policy and is not lifted, or OPA denies or fails what else would have been let through or asked for |
| Precheck.TicketFromInputs | exec-service/api/execute.py:305-1048 | a finished precheck has a ticket exactly when it asks for confirmation or elevation, issued for its own command and decision |

## Left out

- The ClickHouse and SQLite branches, HTTP, the OPA transport, subprocesses and SSH: their answers are parameters or the in-memory mode is modelled.
- Threads and wall-clock time: interleavings are schedules of steps, clocks are integers that do not go back where a theorem says so; one outbox processor runs at a time with any number of enqueuers.
- `append_event` runs on the event loop, so appending and fan-out are one step; run ids and event ids are given by the caller and fresh. The stream's `None` item is not modelled, since nothing puts one.
- Two writers that use the outbox's one temporary file at the same time, a failed write and the exact JSON text are not part of this model, only which fields are written and how missing ones are read.
- Outbox item payloads and remote results are opaque values; the remote call always gives a result, since its exceptions are caught inside; upsert, status caching and worker start and stop around the queue are left out.
- EnvWritten.FileReads: for keys that no further line of a written value names, as EnvWritten.FileReadsBackExactly, EnvWritten.FileKeepsOtherKeysExactly and (for the updated keys) EnvWritten.FileIsStableExactly; EnvWritten.NamingItselfSettles shows what such a line can do, and EnvWritten.AllReadBackExactly has no such condition. Update keys are identifiers, each given once.
- Missing, unreadable or unwritable deployment files, and the newline translation of reading in text mode: only the text is modelled.
- Lower-casing is that of ASCII letters, and the digits of a step number are ASCII digits.
- Cache keys are abstract; hashing of prompts is not modelled.
- The in-memory listing compares lower-cased texts where the database column would compare raw ones; the order terms here are those of the in-memory sort. Unparseable timestamps are not modelled, and neither is `list_sessions_with_total`.
- SessionMessagesModel.EveryRun: one live session; deleting and re-creating whole sessions and the light and per-session count readers are left out.
- Stored cases are not changed in place from outside, similarity is an abstract score, and writing cases back to file or database is left out.
- RunActionsModel.RecordMeaning: the fields that are absent from a fresh record (approval, failure, retry and call result) are optional values, set together where the source sets them together; nested list payloads are lists of texts.
- TraceAnalyzer.FindRootCauses: spans are told apart as objects, the source compares all their fields; for distinct span ids that is the same.
- TraceAnalyzer.GetSpanDepth: requires that the loop ends; TraceModel.DepthExactly says exactly when.
- TraceAnalyzer.ClimbErrors: requires that the loop ends, as TraceAnalyzer.FindRootCauses does; TraceModel.ErrorClimbEndsExactly says exactly when.
- TraceModel.AncestrySpec: for parents without cycles.
- Error and bottleneck detection, timelines, recommendations and the remaining parts of trace analysis.
- SolutionTextModel.RoundTripExactly: for single-line texts; descriptions of several lines, alternative field names and resources of a solution are not modelled.
- DecisionStore.PolicyDecisionStore.BindDecisionToRun: reading and writing back the record is one step, and only the fields that listing and binding use are kept.
- Precheck.PrecheckCommand: begins with the effective command; choosing it from text or argument list, and rejecting an empty one, are left out. Ticket ids are not empty.
- The classifier, whitelist, executor resolution, target registry and ticket store are not part of this model: whatever they answer is an input. The input hash and the payload sent to OPA are left out.
- PrecheckModel.RecoveryMatchesExactly: without the runtime preflight, which the recovery does not repeat.
- LLM prompts and calls, RAGFlow formatting, multipart bodies, scoring rules, keyword tables, shell tokenising, routes and configuration.
