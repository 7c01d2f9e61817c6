/** The editor: reads a manifest, updates its env block in place, writes it back. */
module EnvEditor {
  import opened Options
  import opened Text
  import opened EnvLines
  import opened EnvScan
  import opened EnvEdit
  import opened EnvText

  datatype Outcome =
    | Refused(error: string)
    | Unchanged(updated: seq<string>)
    | Written(content: string, updated: seq<string>, added: seq<string>)

  function UpdatedKeys(lines: seq<string>, entries: seq<Entry>, updates: seq<Update>): seq<string>
    requires EntriesFit(lines, entries)
  {
    if updates == [] then []
    else
      var n := |updates| - 1;
      UpdatedKeys(lines, entries, updates[..n]) +
      (if Target(lines, entries, updates[n].key).Some? then [updates[n].key] else [])
  }

  function Keys(updates: seq<Update>): seq<string> {
    if updates == [] then [] else Keys(updates[..|updates| - 1]) + [updates[|updates| - 1].key]
  }

  /** What the editor does to a manifest, stated on whole texts. */
  function Persist(content: string, updates: seq<Update>): Outcome {
    var lines := SplitLines(content);
    if Strip(content) == "" then Refused("deployment file is empty")
    else
      match ScanLines(lines)
      case None => Refused("env section not found in deployment file")
      case Some(scan) =>
        EntriesShape(lines, scan.env + 1, scan.end);
        var updated := UpdatedKeys(lines, scan.entries, updates);
        var after := Edited(lines, updates);
        if after == lines then Unchanged(updated)
        else Written(Assemble(after, EndsWithNewline(content)), updated, Keys(Added(scan.entries, updates)))
  }

  /** The outcome, told from the texts: what is refused, and what is written. */
  lemma OutcomeByText(content: string, updates: seq<Update>)
    ensures var r, lines := Persist(content, updates), SplitLines(content);
            && (r == Refused("deployment file is empty") <==> Strip(content) == "")
            && (r == Refused("env section not found in deployment file") <==>
                  Strip(content) != "" && forall line :: line in lines ==> Strip(line) != "env:")
            && (r.Unchanged? ==> Edited(lines, updates) == lines)
            && (r.Written? ==>
                  && content != "" && Edited(lines, updates) != lines
                  && r.content == JoinLines(Edited(lines, updates))
                                  + (if content[|content| - 1] == '\n' then "\n" else ""))
  {
    var lines := SplitLines(content);
    EnvLineReads(lines, 0);
    NoneBeforeEnv(lines, 0);
    if k :| 0 <= k < |lines| && Strip(lines[k]) == "env:" {
      assert lines[k] in lines;
    }
    assert "deployment file is empty" != "env section not found in deployment file" by {
      assert "deployment file is empty"[0] == 'd' && "env section not found in deployment file"[0] == 'e';
    }
    assert Strip("") == "";
    hide Strip, SplitLines, Edited, UpdatedKeys, Keys, EnvLine, BlockEnd, Entries;
  }

  method FindEnvLine(lines: seq<string>) returns (found: Option<nat>)
    ensures found == if EnvLine(lines, 0) < |lines| then Some(EnvLine(lines, 0)) else None
  {
    for i := 0 to |lines|
      invariant EnvLine(lines, 0) == EnvLine(lines, i)
    {
      if Strip(lines[i]) == "env:" {
        return Some(i);
      }
    }
    return None;
  }

  method FindBlockEnd(lines: seq<string>, env: nat, envIndent: nat) returns (end: nat)
    requires env < |lines|
    ensures end == BlockEnd(lines, env + 1, envIndent)
  {
    for i := env + 1 to |lines|
      invariant BlockEnd(lines, env + 1, envIndent) == BlockEnd(lines, i, envIndent)
    {
      var stripped := Strip(lines[i]);
      if stripped == "" || StartsWith(stripped, "#") {
        continue;
      }
      var indent := BlankRun(lines[i]);
      if indent < envIndent {
        return i;
      }
      if indent == envIndent && NameMatch(lines[i]) == None {
        return i;
      }
    }
    return |lines|;
  }

  method FindEntryEnd(lines: seq<string>, from: nat, end: nat, width: nat) returns (cursor: nat)
    requires from <= end <= |lines|
    ensures cursor == EntryEnd(lines, from, end, width)
  {
    hide NameMatch;
    cursor := from;
    while cursor < end && !IsNameAt(lines[cursor], width)
      invariant from <= cursor <= end
      invariant EntryEnd(lines, from, end, width) == EntryEnd(lines, cursor, end, width)
    {
      cursor := cursor + 1;
    }
  }

  /** The dictionary of entries, and the key that was inserted first. */
  ghost predicate Indexes(byKey: map<string, Entry>, firstKey: Option<string>, entries: seq<Entry>) {
    && (forall key :: key in byKey <==> Lookup(entries, key).Some?)
    && (forall key :: key in byKey ==> Lookup(entries, key) == Some(byKey[key]))
    && firstKey == if entries == [] then None else Some(entries[0].key)
  }

  lemma IndexesMore(byKey: map<string, Entry>, firstKey: Option<string>, entries: seq<Entry>, entry: Entry)
    requires Indexes(byKey, firstKey, entries)
    ensures Indexes(byKey[entry.key := entry],
                    if firstKey == None then Some(entry.key) else firstKey,
                    entries + [entry])
  {
    forall key
      ensures Lookup(entries + [entry], key) == if key == entry.key then Some(entry) else Lookup(entries, key)
    {
      LookupConcat(entries, [entry], key);
    }
  }

  lemma IndexesNothing()
    ensures Indexes(map[], None, [])
  {
  }

  lemma EntriesFrom(lines: seq<string>, from: nat, end: nat)
    requires from <= end <= |lines|
    ensures Entries(lines, from, end) ==
            if from == end then []
            else
              match NameMatch(lines[from])
              case None => Entries(lines, from + 1, end)
              case Some(name) =>
                var k := EntryEnd(lines, from + 1, end, |name.indent|);
                [Entry(name.key, from, k, name.indent)] + Entries(lines, k, end)
  {
  }

  method IndexEntries(lines: seq<string>, from: nat, end: nat)
    returns (byKey: map<string, Entry>, firstKey: Option<string>)
    requires from <= end <= |lines|
    ensures Indexes(byKey, firstKey, Entries(lines, from, end))
  {
    hide NameMatch, Indexes, EntryEnd, Entries;
    byKey, firstKey := map[], None;
    ghost var entries := [];
    IndexesNothing();
    var cursor := from;
    while cursor < end
      invariant from <= cursor <= end
      invariant entries + Entries(lines, cursor, end) == Entries(lines, from, end)
      invariant Indexes(byKey, firstKey, entries)
    {
      var name := NameMatch(lines[cursor]);
      EntriesFrom(lines, cursor, end);
      if name == None {
        cursor := cursor + 1;
        continue;
      }
      var start := cursor;
      cursor := FindEntryEnd(lines, start + 1, end, |name.value.indent|);
      var entry := Entry(name.value.key, start, cursor, name.value.indent);
      assert entries + ([entry] + Entries(lines, cursor, end)) == (entries + [entry]) + Entries(lines, cursor, end);
      IndexesMore(byKey, firstKey, entries, entry);
      byKey := byKey[entry.key := entry];
      firstKey := if firstKey == None then Some(entry.key) else firstKey;
      entries := entries + [entry];
    }
    EntriesFrom(lines, end, end);
    assert entries + [] == entries;
  }

  method FindValue(lines: seq<string>, from: nat, end: nat) returns (k: nat)
    requires from <= end <= |lines|
    ensures k == FirstValue(lines, from, end)
  {
    hide ValueMatch;
    for idx := from to end
      invariant FirstValue(lines, from, end) == FirstValue(lines, idx, end)
    {
      if ValueMatch(lines[idx]) {
        return idx;
      }
    }
    return end;
  }

  /** The lines after the first updates, as the editor holds them: values replaced
      in place, added entries inserted at the end of the block. */
  ghost function Progress(lines: seq<string>, scan: Scan, indent: string, updates: seq<Update>): seq<string>
    requires EntriesFit(lines, scan.entries) && scan.end <= |lines|
  {
    var kept := Overwrite(lines, scan.entries, indent, updates);
    kept[..scan.end] + Pairs(indent, Added(scan.entries, updates)) + kept[scan.end..]
  }

  lemma InsertBetween(a: seq<string>, b: seq<string>, inserted: seq<string>, c: seq<string>)
    ensures var all := a + b + c;
            a + (b + inserted) + c == all[..|a| + |b|] + inserted + all[|a| + |b|..]
  {
    var all := a + b + c;
    assert all[..|a| + |b|] == a + b && all[|a| + |b|..] == c;
  }

  lemma ProgressAdd(lines: seq<string>, scan: Scan, indent: string, updates: seq<Update>, u: Update)
    requires EntriesFit(lines, scan.entries) && scan.end <= |lines|
    requires Lookup(scan.entries, u.key) == None
    ensures var before := Progress(lines, scan, indent, updates);
            var at := scan.end + 2 * |Added(scan.entries, updates)|;
            && at <= |before|
            && Progress(lines, scan, indent, updates + [u]) ==
               before[..at] + [NameText(indent, u.key), ValueText(indent, u.value)] + before[at..]
            && Added(scan.entries, updates + [u]) == Added(scan.entries, updates) + [u]
  {
    hide NameText, ValueText, Lookup, Pairs, FirstValue;
    assert (updates + [u])[..|updates|] == updates;
    var kept, added := Overwrite(lines, scan.entries, indent, updates), Added(scan.entries, updates);
    assert Overwrite(lines, scan.entries, indent, updates + [u]) == kept;
    PairsMore(indent, added, u);
    InsertBetween(kept[..scan.end], Pairs(indent, added),
                  [NameText(indent, u.key), ValueText(indent, u.value)], kept[scan.end..]);
  }

  lemma KeysBefore(updates: seq<Update>, u: Update)
    requires DistinctKeys(updates + [u])
    ensures DistinctKeys(updates) && forall v :: v in updates ==> v.key != u.key
  {
    var all := updates + [u];
    forall v | v in updates
      ensures v.key != u.key
    {
      var i :| 0 <= i < |updates| && updates[i] == v;
      assert all[i] == v && all[|updates|] == u;
    }
    assert forall i :: 0 <= i < |updates| ==> all[i] == updates[i];
  }

  lemma {:induction false} FirstValueSame(lines: seq<string>, lines': seq<string>, from: nat, end: nat)
    requires from <= end <= |lines| && end <= |lines'|
    requires forall i :: from <= i < end ==> lines'[i] == lines[i]
    ensures FirstValue(lines', from, end) == FirstValue(lines, from, end)
    decreases end - from
  {
    hide ValueMatch;
    if from < end && !ValueMatch(lines[from]) {
      FirstValueSame(lines, lines', from + 1, end);
    }
  }

  /** The entry of the next update is still as it was. */
  lemma SameValueBelow(lines: seq<string>, scan: Scan, indent: string, updates: seq<Update>, u: Update)
    requires Laid(scan.entries, scan.env + 1, scan.end) && scan.end <= |lines|
    requires DistinctKeys(updates + [u]) && Lookup(scan.entries, u.key).Some?
    ensures EntriesFit(lines, scan.entries)
    ensures var before, e := Progress(lines, scan, indent, updates), Lookup(scan.entries, u.key).value;
            && e.start < e.end <= |before| && e.end <= |lines|
            && FirstValue(before, e.start + 1, e.end) == FirstValue(lines, e.start + 1, e.end)
  {
    hide ValueMatch, Pairs, Overwrite, Target, Lookup;
    LookupIn(scan.entries, u.key);
    var before, e := Progress(lines, scan, indent, updates), Lookup(scan.entries, u.key).value;
    var kept := Overwrite(lines, scan.entries, indent, updates);
    KeysBefore(updates, u);
    forall i | e.start + 1 <= i < e.end
      ensures before[i] == lines[i]
    {
      UntouchedEntry(lines, scan.entries, scan.env + 1, scan.end, indent, updates, u.key, i);
      assert before[i] == kept[i];
    }
    FirstValueSame(lines, before, e.start + 1, e.end);
  }

  lemma ProgressReplace(lines: seq<string>, scan: Scan, indent: string, updates: seq<Update>, u: Update)
    requires Laid(scan.entries, scan.env + 1, scan.end) && scan.end <= |lines|
    requires DistinctKeys(updates + [u]) && Lookup(scan.entries, u.key).Some?
    ensures EntriesFit(lines, scan.entries)
    ensures var before := Progress(lines, scan, indent, updates);
            var e := Lookup(scan.entries, u.key).value;
            && e.start < e.end <= |before| && e.end <= |lines|
            && FirstValue(before, e.start + 1, e.end) == FirstValue(lines, e.start + 1, e.end)
            && Added(scan.entries, updates + [u]) == Added(scan.entries, updates)
            && var k := FirstValue(before, e.start + 1, e.end);
            && (k < e.end ==> Target(lines, scan.entries, u.key) == Some(k))
            && (k == e.end ==> Target(lines, scan.entries, u.key) == None)
            && Progress(lines, scan, indent, updates + [u]) ==
               if k < e.end then before[k := ValueText(indent, u.value)] else before
  {
    hide NameText, ValueText, Pairs, ValueMatch, Lookup, FirstValue;
    LookupIn(scan.entries, u.key);
    var e := Lookup(scan.entries, u.key).value;
    assert (updates + [u])[..|updates|] == updates;
    var before := Progress(lines, scan, indent, updates);
    var kept := Overwrite(lines, scan.entries, indent, updates);
    assert e.end <= scan.end;
    assert kept[..scan.end] == before[..scan.end];
    SameValueBelow(lines, scan, indent, updates, u);
    if Target(lines, scan.entries, u.key).Some? {
      TargetIsValue(lines, scan.entries, u.key);
    }
  }

  /** Where the loop over the updates stands once `done` are handled. */
  ghost predicate Reached(input: seq<string>, scan: Scan, indent: string, done: seq<Update>,
                          lines: seq<string>, changed: bool, updated: seq<string>, added: seq<string>)
    requires EntriesFit(input, scan.entries) && scan.end <= |input|
  {
    && lines == Progress(input, scan, indent, done)
    && (changed <==> Changes(input, scan.entries, indent, done))
    && updated == UpdatedKeys(input, scan.entries, done)
    && added == Keys(Added(scan.entries, done))
  }

  lemma KeysMore(added: seq<Update>, u: Update)
    ensures Keys(added + [u]) == Keys(added) + [u.key]
  {
    assert (added + [u])[..|added|] == added;
  }

  lemma ReachedByAdding(input: seq<string>, scan: Scan, indent: string, done: seq<Update>, u: Update,
                        lines: seq<string>, changed: bool, updated: seq<string>, added: seq<string>)
    requires EntriesFit(input, scan.entries) && scan.end <= |input| && Lookup(scan.entries, u.key) == None
    requires Reached(input, scan, indent, done, lines, changed, updated, added)
    ensures var at := scan.end + 2 * |Added(scan.entries, done)|;
            && at <= |lines|
            && |Added(scan.entries, done + [u])| == |Added(scan.entries, done)| + 1
            && Reached(input, scan, indent, done + [u],
                       lines[..at] + [NameText(indent, u.key), ValueText(indent, u.value)] + lines[at..],
                       true, updated, added + [u.key])
  {
    hide NameText, ValueText, Lookup, Progress, Added;
    ProgressAdd(input, scan, indent, done, u);
    KeysMore(Added(scan.entries, done), u);
    assert (done + [u])[..|done|] == done;
    assert Target(input, scan.entries, u.key) == None;
  }

  /** Inside the old part of the block, the lines in progress are the overwritten ones. */
  lemma BelowEnd(lines: seq<string>, scan: Scan, indent: string, updates: seq<Update>, key: string, k: nat)
    requires Laid(scan.entries, scan.env + 1, scan.end) && scan.end <= |lines|
    requires EntriesFit(lines, scan.entries) && Target(lines, scan.entries, key) == Some(k)
    ensures k < scan.end
    ensures Progress(lines, scan, indent, updates)[k] == Overwrite(lines, scan.entries, indent, updates)[k]
  {
    hide Lookup, FirstValue;
    TargetIsValue(lines, scan.entries, key);
    LookupIn(scan.entries, key);
  }

  lemma ReachedByReplacing(input: seq<string>, scan: Scan, indent: string, done: seq<Update>, u: Update,
                           lines: seq<string>, changed: bool, updated: seq<string>, added: seq<string>)
    requires Laid(scan.entries, scan.env + 1, scan.end) && scan.end <= |input|
    requires DistinctKeys(done + [u]) && Lookup(scan.entries, u.key).Some?
    requires EntriesFit(input, scan.entries) && Reached(input, scan, indent, done, lines, changed, updated, added)
    ensures var e := Lookup(scan.entries, u.key).value;
            && e.start < e.end <= |lines|
            && var k := FirstValue(lines, e.start + 1, e.end);
            var newLine := ValueText(indent, u.value);
            if k == e.end then Reached(input, scan, indent, done + [u], lines, changed, updated, added)
            else Reached(input, scan, indent, done + [u], lines[k := newLine],
                         changed || lines[k] != newLine, updated + [u.key], added)
    ensures |Added(scan.entries, done + [u])| == |Added(scan.entries, done)|
  {
    hide NameText, ValueText, Lookup, Progress, Added, FirstValue, Overwrite, Target, Laid;
    ProgressReplace(input, scan, indent, done, u);
    assert (done + [u])[..|done|] == done;
    var e := Lookup(scan.entries, u.key).value;
    var k := FirstValue(lines, e.start + 1, e.end);
    if k < e.end {
      UntouchedBefore(input, scan.entries, scan.env + 1, scan.end, indent, done + [u], |done|, k);
      BelowEnd(input, scan, indent, done, u.key, k);
    }
  }

  lemma ProgressStart(lines: seq<string>, scan: Scan, indent: string)
    requires EntriesFit(lines, scan.entries) && scan.end <= |lines|
    ensures Progress(lines, scan, indent, []) == lines
    ensures Added(scan.entries, []) == []
  {
  }

  lemma ReachedAtStart(input: seq<string>, scan: Scan, indent: string)
    requires EntriesFit(input, scan.entries) && scan.end <= |input|
    ensures Reached(input, scan, indent, [], input, false, [], []) && Added(scan.entries, []) == []
  {
    ProgressStart(input, scan, indent);
  }

  /** The loop over the updates. */
  method ApplyUpdates(input: seq<string>, ghost scan: Scan, byKey: map<string, Entry>, blockEnd: nat, indent: string,
      updates: seq<Update>)
    returns (lines: seq<string>, changed: bool, updated: seq<string>, added: seq<string>)
    requires Laid(scan.entries, scan.env + 1, scan.end) && scan.end == blockEnd <= |input|
    requires forall key :: key in byKey <==> Lookup(scan.entries, key).Some?
    requires forall key :: key in byKey ==> Lookup(scan.entries, key) == Some(byKey[key])
    requires DistinctKeys(updates)
    ensures EntriesFit(input, scan.entries)
    ensures Reached(input, scan, indent, updates, lines, changed, updated, added)
  {
    hide ValueText, NameText, Lookup, FirstValue, Laid, Added, Reached;
    LaidFits(input, scan.entries, scan.env + 1, scan.end);
    var envBlockEnd := blockEnd;
    lines, changed, updated, added := input, false, [], [];
    ReachedAtStart(input, scan, indent);
    for n := 0 to |updates|
      invariant EntriesFit(input, scan.entries)
      invariant Reached(input, scan, indent, updates[..n], lines, changed, updated, added)
      invariant envBlockEnd == scan.end + 2 * |Added(scan.entries, updates[..n])|
    {
      var u := updates[n];
      assert updates[..n + 1] == updates[..n] + [u];
      if u.key in byKey {
        var e := byKey[u.key];
        ReachedByReplacing(input, scan, indent, updates[..n], u, lines, changed, updated, added);
        var k := FindValue(lines, e.start + 1, e.end);
        if k < e.end {
          var newLine := ValueText(indent, u.value);
          if lines[k] != newLine {
            lines := lines[k := newLine];
            changed := true;
          } else {
            assert lines[k := newLine] == lines;
          }
          updated := updated + [u.key];
        }
      } else {
        ReachedByAdding(input, scan, indent, updates[..n], u, lines, changed, updated, added);
        lines := lines[..envBlockEnd] + [NameText(indent, u.key), ValueText(indent, u.value)] + lines[envBlockEnd..];
        envBlockEnd := envBlockEnd + 2;
        changed := true;
        added := added + [u.key];
      }
    }
    assert updates[..|updates|] == updates;
  }

  lemma EditedOrNot(lines: seq<string>, updates: seq<Update>, scan: Scan, indent: string)
    requires ScanLines(lines) == Some(scan) && EntriesFit(lines, scan.entries)
    requires scan.end <= |lines| && indent == ItemIndent(scan)
    ensures Edited(lines, updates) == Progress(lines, scan, indent, updates)
    ensures Edited(lines, updates) != lines <==>
            Overwrite(lines, scan.entries, indent, updates) != lines || Added(scan.entries, updates) != []
  {
    var kept, added := Overwrite(lines, scan.entries, indent, updates), Added(scan.entries, updates);
    if added == [] {
      assert Edited(lines, updates) == kept;
    } else {
      assert |Edited(lines, updates)| == |lines| + 2 * |added|;
    }
  }

  /** The edit of the lines of a manifest with an env section at `env`. */
  method EditLines(lines: seq<string>, env: nat, updates: seq<Update>)
    returns (after: seq<string>, changed: bool, updated: seq<string>, added: seq<string>)
    requires env < |lines| && env == EnvLine(lines, 0) && DistinctKeys(updates)
    ensures after == Edited(lines, updates) && (changed <==> after != lines)
    ensures var scan := ScanLines(lines).value;
            && EntriesFit(lines, scan.entries)
            && updated == UpdatedKeys(lines, scan.entries, updates)
            && added == Keys(Added(scan.entries, updates))
  {
    hide Lookup, Entries, Changes, Added, Overwrite, Progress, EnvLine, BlockEnd, Laid, Edited, EntriesFit;
    var envIndent := BlankRun(lines[env]);
    var end := FindBlockEnd(lines, env, envIndent);
    var byKey, firstKey := IndexEntries(lines, env + 1, end);
    ghost var scan := ScanLines(lines).value;
    EntriesShape(lines, env + 1, end);
    var indent := seq(envIndent + 2, i => ' ');
    if firstKey.Some? {
      LookupIn(scan.entries, firstKey.value);
      indent := byKey[firstKey.value].indent;
    }
    assert indent == ItemIndent(scan);
    after, changed, updated, added := ApplyUpdates(lines, scan, byKey, end, indent, updates);
    ChangesSpec(lines, scan.entries, env + 1, end, indent, updates);
    EditedOrNot(lines, updates, scan, indent);
  }

  /** `_persist_env_updates_to_deployment_file` on the text of an existing file. */
  method PersistEnvUpdates(content: string, updates: seq<Update>) returns (outcome: Outcome)
    requires DistinctKeys(updates)
    ensures outcome == Persist(content, updates)
    ensures outcome == Refused("deployment file is empty") <==> Strip(content) == ""
    ensures outcome == Refused("env section not found in deployment file") <==>
              Strip(content) != "" && forall line :: line in SplitLines(content) ==> Strip(line) != "env:"
    ensures outcome.Written? ==>
              && content != ""
              && outcome.content == JoinLines(Edited(SplitLines(content), updates))
                                    + (if content[|content| - 1] == '\n' then "\n" else "")
  {
    OutcomeByText(content, updates);
    hide Entries, Added, BlockEnd, EnvLine, Edited;
    if Strip(content) == "" {
      return Refused("deployment file is empty");
    }
    var lines := SplitLines(content);
    var found := FindEnvLine(lines);
    if found == None {
      return Refused("env section not found in deployment file");
    }
    var after, changed, updated, added := EditLines(lines, found.value, updates);
    if !changed {
      return Unchanged(updated);
    }
    return Written(Assemble(after, EndsWithNewline(content)), updated, added);
  }
}
