/** The file after an edit, as the next reader and the next edit find it: for any indent,
    any values, line breaks in them included, and any entries. */
module EnvWritten {
  import opened Options
  import opened Text
  import opened EnvText
  import opened EnvLines
  import opened EnvScan
  import opened EnvReader
  import opened EnvEdit
  import opened EnvEditor

  /** The file's text after the editor has run. */
  function TextAfter(content: string, updates: seq<Update>): string {
    match Persist(content, updates)
    case Written(text, _, _) => text
    case _ => content
  }

  /** Lines of a file with an env section, and updates from a dictionary of names. */
  ghost predicate Edits(lines: seq<string>, updates: seq<Update>, scan: Scan) {
    && ScanLines(lines) == Some(scan)
    && (forall line :: line in lines ==> OneLine(line))
    && DistinctKeys(updates)
    && (forall u :: u in updates ==> IsIdentifier(u.key))
  }

  // ----- A text with an env section is not blank -----

  lemma {:induction false} SplitBlank(s: string)
    requires AllSpace(s)
    ensures forall line :: line in SplitLines(s) ==> AllSpace(line)
    decreases |s|
  {
    if s != [] {
      var n := LineLength(s);
      if n < |s| {
        SplitBlank(s[n + BreakWidth(s, n)..]);
      }
    }
  }

  lemma {:induction false} StripOfBlank(s: string)
    requires AllSpace(s)
    ensures LStrip(s) == "" && Strip(s) == ""
    decreases |s|
  {
    if s != [] {
      StripOfBlank(s[1..]);
    }
  }

  lemma BlankText(s: string)
    requires Strip(s) == ""
    ensures AllSpace(s)
  {
    LStripIsSuffix(s);
    LStripHead(s);
    if LStrip(s) != [] {
      RStripKeepsHead(LStrip(s));
    }
    SpaceRunIsSpace(s);
    assert SpaceRun(s) == |s|;
    assert s[..|s|] == s;
  }

  /** A text with an env section is not blank. */
  lemma NotBlank(content: string)
    requires ScanLines(SplitLines(content)).Some?
    ensures Strip(content) != ""
  {
    hide NameMatch, Terminates, BlockEnd, Entries;
    var lines := SplitLines(content);
    if Strip(content) == "" {
      BlankText(content);
      SplitBlank(content);
      var env := EnvLine(lines, 0);
      EnvLineReads(lines, 0);
      assert lines[env] in lines;
      StripOfBlank(lines[env]);
    }
  }

  // ----- What is written -----

  lemma {:induction false} PairsHave(indent: string, added: seq<Update>)
    ensures forall line :: line in Pairs(indent, added) ==>
              exists u :: u in added && (line == NameText(indent, u.key) || line == ValueText(indent, u.value))
    decreases |added|
  {
    hide NameText, ValueText;
    if added != [] {
      PairsHave(indent, added[1..]);
      assert added == [added[0]] + added[1..];
      forall line | line in Pairs(indent, added)
        ensures exists u :: u in added && (line == NameText(indent, u.key) || line == ValueText(indent, u.value))
      {
        if line in Pairs(indent, added[1..]) {
          var u :| u in added[1..] && (line == NameText(indent, u.key) || line == ValueText(indent, u.value));
          assert u in added;
        } else {
          assert added[0] in added;
        }
      }
    }
  }

  /** An old line, or one written for an update. */
  ghost predicate FromUpdate(indent: string, updates: seq<Update>, line: string) {
    exists u :: u in updates && (line == NameText(indent, u.key) || line == ValueText(indent, u.value))
  }

  lemma LinesAfter(lines: seq<string>, updates: seq<Update>, scan: Scan, i: nat)
    requires Edits(lines, updates, scan) && i < |Edited(lines, updates)|
    ensures var line := Edited(lines, updates)[i];
            line in lines || FromUpdate(ItemIndent(scan), updates, line)
  {
    hide ScanLines, Edited, Added, NameText, ValueText, Target, Pairs, ItemIndent;
    var after, added, indent := Edited(lines, updates), Added(scan.entries, updates), ItemIndent(scan);
    var end' := scan.end + 2 * |added|;
    ScanFits(lines);
    EditFrame(lines, updates);
    if i < scan.end {
      assert after[i] != lines[i] ==> FromUpdate(indent, updates, after[i]);
    } else if i < end' {
      PairsHave(indent, added);
      AddedSpec(scan.entries, updates);
      assert after[i] == after[scan.end..end'][i - scan.end];
      assert after[i] in Pairs(indent, added);
    } else {
      assert after[i] == after[end'..][i - end'] == lines[scan.end..][i - end'];
    }
  }

  lemma NameIndentIsPrefix(line: string)
    requires NameMatch(line).Some?
    ensures NameMatch(line).value.indent <= line
  {
  }

  /** The indent of new lines comes from the file's own lines. */
  lemma IndentIsOneLine(lines: seq<string>)
    requires ScanLines(lines).Some? && forall line :: line in lines ==> OneLine(line)
    ensures OneLine(ItemIndent(ScanLines(lines).value))
  {
    hide NameMatch, Terminates, EnvLine, BlockEnd, Entries, StartsWidth;
    var scan := ScanLines(lines).value;
    if scan.entries != [] {
      FirstWidth(lines, scan.env + 1, scan.end);
      EntriesNamed(lines, scan.env + 1, scan.end, |scan.entries[0].indent|);
      LookupIn(scan.entries, scan.entries[0].key);
      var e := Lookup(scan.entries, scan.entries[0].key).value;
      assert Named(lines, scan.env + 1, e);
      NameIndentIsPrefix(lines[e.start]);
      assert lines[e.start] in lines;
    }
  }

  lemma NameTextIsOneLine(indent: string, key: string)
    requires OneLine(indent) && IsIdentifier(key)
    ensures OneLine(NameText(indent, key))
  {
  }

  lemma ClosedLines(lines: seq<string>, updates: seq<Update>, scan: Scan)
    requires Edits(lines, updates, scan)
    ensures forall line :: line in Edited(lines, updates) ==> !EndsOpen(line)
  {
    hide ScanLines, Edited, NameText, ValueText, ItemIndent;
    var indent := ItemIndent(scan);
    IndentIsOneLine(lines);
    forall line | line in Edited(lines, updates)
      ensures !EndsOpen(line)
    {
      var i :| 0 <= i < |Edited(lines, updates)| && Edited(lines, updates)[i] == line;
      LinesAfter(lines, updates, scan, i);
      if line !in lines {
        var u :| u in updates && (line == NameText(indent, u.key) || line == ValueText(indent, u.value));
        NameTextIsOneLine(indent, u.key);
        ValueTextPieces(indent, u.value);
      }
    }
  }

  /** The lines of the file are the edited lines, each split at its own breaks; an empty
      last line may be gone. */
  lemma FileLines(content: string, updates: seq<Update>, scan: Scan)
    requires Edits(SplitLines(content), updates, scan)
    ensures var split := SplitLines(TextAfter(content, updates));
            var flat := Flat(Edited(SplitLines(content), updates));
            flat == split || flat == split + [""]
  {
    hide ScanLines, Edited, SplitLines, Strip, UpdatedKeys, Flat, EndsWithNewline, EndsOpen;
    var lines := SplitLines(content);
    var after := Edited(lines, updates);
    NotBlank(content);
    if after == lines {
      FlatOfLines(lines);
    } else {
      ClosedLines(lines, updates, scan);
      ScanFits(lines);
      EditFrame(lines, updates);
      SplitAssembled(after, EndsWithNewline(content));
    }
  }

  // ----- The pass over written lines -----

  function HeadText(indent: string, value: string): string {
    ScalarText(indent, FirstLine(Quote(value)))
  }

  /** Lines that do not name the key, after its value line or outside its entries. */
  lemma {:induction false} FoldTail(r: Reader, tail: seq<string>, key: string)
    requires r.width.Some? && r.first.Some? && !r.seeking
    requires forall line :: line in tail && NameMatch(line).Some? ==> NameMatch(line).value.key != key
    ensures Fold(r, tail, key) == r
    decreases |tail|
  {
    hide NameMatch, ValueMatch;
    if tail != [] {
      assert tail[0] in tail && forall line :: line in tail[1..] ==> line in tail;
      FoldTail(r, tail[1..], key);
    }
  }

  /** No line of this value but the first names the key. */
  ghost predicate QuietValue(value: string, key: string) {
    forall line :: line in Pieces(Quote(value))[1..] && NameMatch(line).Some? ==> NameMatch(line).value.key != key
  }

  /** A written value counts for its own key only, and with its first line only. */
  lemma FoldValue(r: Reader, indent: string, value: string, p: nat, key: string)
    requires r.width.Some? && r.first.Some? && AllSpace(indent) && OneLine(indent) && QuietValue(value, key)
    requires 1 <= p <= |Pieces(ValueText(indent, value))|
    ensures Fold(r, Pieces(ValueText(indent, value))[..p], key) ==
            if r.seeking then r.(seeking := false, line := Some(HeadText(indent, value))) else r
  {
    hide NameMatch, ValueMatch, Pieces, Quote, ScalarText;
    ValueTextPieces(indent, value);
    var text := FirstLine(Quote(value));
    FirstLineIsAll(Quote(value));
    assert OnOneLine(text) by {
      assert forall i :: 0 <= i < |text| ==> !IsBreak(text[i]);
    }
    ScalarMatches(indent, text);
    var pieces := Pieces(ValueText(indent, value));
    var next := Step(r, pieces[0], key);
    assert pieces[..p][1..] == pieces[1..p];
    forall line | line in pieces[1..p]
      ensures line in Pieces(Quote(value))[1..]
    {
      var i :| 0 <= i < p - 1 && pieces[1..p][i] == line;
      assert pieces[1..][i] == line;
    }
    FoldTail(next, pieces[1..p], key);
  }

  /** Some line of the written value ends the block. */
  ghost predicate EndsBlock(indent: string, value: string, envIndent: nat) {
    exists line :: line in Pieces(ValueText(indent, value)) && Terminates(line, envIndent)
  }

  /** The value line is written: the key is added or its entry has a value line. */
  ghost predicate IsWritten(lines: seq<string>, entries: seq<Entry>, key: string)
    requires EntriesFit(lines, entries)
  {
    Lookup(entries, key) == None || Target(lines, entries, key).Some?
  }

  /** The first value line replaced that ends the block now, or the old end of the block. */
  ghost function FirstEnding(lines: seq<string>, scan: Scan, updates: seq<Update>): (mid: nat)
    requires EntriesFit(lines, scan.entries)
    ensures mid <= scan.end
    ensures forall u :: u in updates && EndsBlock(ItemIndent(scan), u.value, scan.envIndent) ==>
              match Target(lines, scan.entries, u.key) case Some(k) => mid <= k case None => true
    ensures mid < scan.end ==> exists u :: && u in updates && Target(lines, scan.entries, u.key) == Some(mid)
                                           && EndsBlock(ItemIndent(scan), u.value, scan.envIndent)
  {
    if updates == [] then scan.end
    else
      var n := |updates| - 1;
      var before, u := FirstEnding(lines, scan, updates[..n]), updates[n];
      assert updates == updates[..n] + [u];
      match Target(lines, scan.entries, u.key)
      case None => before
      case Some(k) => if k < before && EndsBlock(ItemIndent(scan), u.value, scan.envIndent) then k else before
  }

  ghost function Mid(lines: seq<string>, updates: seq<Update>): (mid: nat)
    requires ScanLines(lines).Some?
    ensures ScanLines(lines).value.env < mid <= ScanLines(lines).value.end <= |lines|
  {
    var scan := ScanLines(lines).value;
    ScanFits(lines);
    var mid := FirstEnding(lines, scan, updates);
    assert scan.env < mid by {
      if mid < scan.end {
        var u :| u in updates && Target(lines, scan.entries, u.key) == Some(mid);
        TargetIsValue(lines, scan.entries, u.key);
        LookupIn(scan.entries, u.key);
      }
    }
    mid
  }

  /** The value requested for the key, if any. */
  function ValueOf(updates: seq<Update>, key: string): Option<string> {
    if updates == [] then None
    else if updates[0].key == key then Some(updates[0].value)
    else ValueOf(updates[1..], key)
  }

  lemma {:induction false} ValueOfSpec(updates: seq<Update>, key: string)
    requires DistinctKeys(updates)
    ensures ValueOf(updates, key) == None <==> forall u :: u in updates ==> u.key != key
    ensures forall u :: u in updates && u.key == key ==> ValueOf(updates, key) == Some(u.value)
    ensures ValueOf(updates, key).Some? ==> Update(key, ValueOf(updates, key).value) in updates
    decreases |updates|
  {
    if updates != [] {
      var rest := updates[1..];
      assert updates == [updates[0]] + rest;
      assert forall i :: 0 <= i < |rest| ==> rest[i] == updates[i + 1];
      ValueOfSpec(rest, key);
    }
  }

  /** The pass over the old lines before i, but with the value line that is now there. */
  ghost function Replaced(lines: seq<string>, updates: seq<Update>, i: nat, key: string): Reader
    requires ScanLines(lines).Some? && ScanLines(lines).value.env < i <= |lines|
  {
    var scan, r := ScanLines(lines).value, At(lines, i, key);
    ScanFits(lines);
    match ValueOf(updates, key)
    case None => r
    case Some(value) =>
      match Target(lines, scan.entries, key)
      case None => r
      case Some(k) => if k < i then r.(line := Some(HeadText(ItemIndent(scan), value))) else r
  }

  /** No further line of a written value names the key, or no such line is in the block. */
  ghost predicate Quiet(lines: seq<string>, updates: seq<Update>, key: string)
    requires ScanLines(lines).Some?
  {
    ScanFits(lines);
    var scan := ScanLines(lines).value;
    Stays(ItemIndent(scan), scan.envIndent) ==>
      forall u :: u in updates && IsWritten(lines, scan.entries, u.key) ==> QuietValue(u.value, key)
  }

  /** Lines of the old block after the edit: written for an update, or as they were. */
  lemma LineAfter(lines: seq<string>, updates: seq<Update>, scan: Scan, i: nat)
    requires Edits(lines, updates, scan) && i < scan.end
    ensures EntriesFit(lines, scan.entries) && scan.end <= |lines| && i < |Edited(lines, updates)|
    ensures var after := Edited(lines, updates);
            || (after[i] == lines[i] && forall u :: u in updates ==> Target(lines, scan.entries, u.key) != Some(i))
            || exists u :: && u in updates && Target(lines, scan.entries, u.key) == Some(i)
                           && after[i] == ValueText(ItemIndent(scan), u.value)
  {
    hide EnvLine, BlockEnd, Entries, Added, NameText, ValueText, Target, Pairs, ItemIndent, Overwrite;
    ScanFits(lines);
    EditFrame(lines, updates);
    OverwriteSpec(lines, scan.entries, scan.env + 1, scan.end, ItemIndent(scan), updates);
    var kept := Overwrite(lines, scan.entries, ItemIndent(scan), updates);
    assert Edited(lines, updates)[i] == kept[i];
  }

  lemma EndsExactly(lines: seq<string>, scan: Scan, value: string)
    requires ScanLines(lines) == Some(scan) && forall line :: line in lines ==> OneLine(line)
    ensures !Stays(ItemIndent(scan), scan.envIndent) ==> EndsBlock(ItemIndent(scan), value, scan.envIndent)
    ensures OneLine(value) && Stays(ItemIndent(scan), scan.envIndent) ==>
              !EndsBlock(ItemIndent(scan), value, scan.envIndent)
  {
    hide ScanLines, Terminates, Pieces, Quote, ScalarText, Stays, ItemIndent;
    var indent := ItemIndent(scan);
    ItemIndentFits(lines);
    IndentIsOneLine(lines);
    ValueTextPieces(indent, value);
    ScalarTerminates(indent, FirstLine(Quote(value)), scan.envIndent);
    var pieces := Pieces(ValueText(indent, value));
    assert pieces[0] in pieces;
    if OneLine(value) {
      QuoteIsOneLine(value);
      PiecesOfLine(Quote(value));
      assert pieces == [pieces[0]];
    }
  }

  /** Where value lines do not stay, none is above the first ending line. */
  lemma MidBefore(lines: seq<string>, updates: seq<Update>, scan: Scan, key: string)
    requires Edits(lines, updates, scan) && EntriesFit(lines, scan.entries)
    requires ValueOf(updates, key).Some? && Target(lines, scan.entries, key).Some?
    ensures var k := Target(lines, scan.entries, key).value;
            && k < scan.end
            && (!Stays(ItemIndent(scan), scan.envIndent) ==> Mid(lines, updates) <= k)
  {
    hide ScanLines, EndsBlock, Stays, ItemIndent, Target;
    ValueOfSpec(updates, key);
    AtTarget(lines, key, key);
    EndsExactly(lines, scan, ValueOf(updates, key).value);
  }

  lemma KeptNext(lines: seq<string>, updates: seq<Update>, scan: Scan, i: nat, key: string)
    requires Edits(lines, updates, scan) && scan.env < i < scan.end <= |lines| && EntriesFit(lines, scan.entries)
    requires forall u :: u in updates ==> Target(lines, scan.entries, u.key) != Some(i)
    ensures Fold(Replaced(lines, updates, i, key), Pieces(lines[i]), key) == Replaced(lines, updates, i + 1, key)
  {
    hide ScanLines, NameMatch, ValueMatch, ItemIndent, At, Lookup, FirstValue, HeadText, Pieces, Target;
    PiecesOfLine(lines[i]);
    FoldOne(Replaced(lines, updates, i, key), lines[i], key);
    AtNext(lines, i, key);
    ValueOfSpec(updates, key);
    if ValueOf(updates, key).Some? && Target(lines, scan.entries, key).Some? &&
       Target(lines, scan.entries, key).value < i {
      PastTarget(lines, key, i);
      PastTarget(lines, key, i + 1);
    }
  }

  lemma WrittenNext(lines: seq<string>, updates: seq<Update>, scan: Scan, u: Update, key: string)
    requires Edits(lines, updates, scan) && u in updates && QuietValue(u.value, key)
    requires EntriesFit(lines, scan.entries) && Target(lines, scan.entries, u.key).Some?
    ensures var i := Target(lines, scan.entries, u.key).value;
            && scan.env < i < scan.end <= |lines|
            && Fold(Replaced(lines, updates, i, key), Pieces(ValueText(ItemIndent(scan), u.value)), key) ==
               Replaced(lines, updates, i + 1, key)
  {
    hide ScanLines, NameMatch, ValueMatch, ItemIndent, At, Lookup, FirstValue, HeadText, Pieces, Target, ValueText;
    hide QuietValue;
    var i, indent := Target(lines, scan.entries, u.key).value, ItemIndent(scan);
    AtTarget(lines, u.key, key);
    AtNext(lines, i, key);
    ValueOfSpec(updates, key);
    ItemIndentFits(lines);
    IndentIsOneLine(lines);
    TargetIsValue(lines, scan.entries, u.key);
    ValueIsNoName(lines[i]);
    if key != u.key && Target(lines, scan.entries, key).Some? {
      ScanFits(lines);
      TargetsDiffer(lines, scan.entries, scan.env + 1, scan.end, key, u.key);
    }
    var pieces := Pieces(ValueText(indent, u.value));
    assert pieces[..|pieces|] == pieces;
    FoldValue(Replaced(lines, updates, i, key), indent, u.value, |pieces|, key);
  }

  /** One line further down the old block. */
  lemma ReplacedNext(lines: seq<string>, updates: seq<Update>, scan: Scan, i: nat, key: string)
    requires Edits(lines, updates, scan) && scan.env < i < Mid(lines, updates) && i < |Edited(lines, updates)|
    requires Quiet(lines, updates, key)
    ensures Fold(Replaced(lines, updates, i, key), Pieces(Edited(lines, updates)[i]), key) ==
            Replaced(lines, updates, i + 1, key)
  {
    hide ScanLines, Edited, Quote, Pieces, ItemIndent, Target, QuietValue, Stays, Mid, Replaced, Fold, ValueText;
    LineAfter(lines, updates, scan, i);
    var after, indent := Edited(lines, updates), ItemIndent(scan);
    if u :| u in updates && Target(lines, scan.entries, u.key) == Some(i) && after[i] == ValueText(indent, u.value) {
      ValueOfSpec(updates, u.key);
      MidBefore(lines, updates, scan, u.key);
      WrittenNext(lines, updates, scan, u, key);
    } else {
      KeptNext(lines, updates, scan, i, key);
    }
  }

  // ----- The pass over the file -----

  /** The pass down to the first line that ends the block. */
  function Until(r: Reader, lines: seq<string>, envIndent: nat, key: string): Reader
    decreases |lines|
  {
    if lines == [] || Terminates(lines[0], envIndent) then r
    else Until(Step(r, lines[0], key), lines[1..], envIndent, key)
  }

  lemma {:induction false} UntilConcat(r: Reader, a: seq<string>, b: seq<string>, envIndent: nat, key: string)
    ensures Until(r, a + b, envIndent, key) ==
            if exists line :: line in a && Terminates(line, envIndent) then Until(r, a, envIndent, key)
            else Until(Fold(r, a, key), b, envIndent, key)
    decreases |a|
  {
    hide Terminates, Step;
    if a == [] {
      assert a + b == b;
    } else {
      assert (a + b)[0] == a[0] && (a + b)[1..] == a[1..] + b;
      assert a == [a[0]] + a[1..];
      UntilConcat(Step(r, a[0], key), a[1..], b, envIndent, key);
    }
  }

  lemma {:induction false} BlockEndShifts(lines: seq<string>, from: nat, envIndent: nat)
    requires from <= |lines|
    ensures BlockEnd(lines, from, envIndent) == from + BlockEnd(lines[from..], 0, envIndent)
    decreases |lines| - from
  {
    hide Terminates;
    if from < |lines| && !Terminates(lines[from], envIndent) {
      BlockEndShifts(lines, from + 1, envIndent);
      assert lines[from..][1..] == lines[from + 1..];
      BlockEndShifts(lines[from..], 1, envIndent);
    }
  }

  lemma {:induction false} UntilIsFold(r: Reader, lines: seq<string>, envIndent: nat, key: string)
    ensures Until(r, lines, envIndent, key) == Fold(r, lines[..BlockEnd(lines, 0, envIndent)], key)
    decreases |lines|
  {
    hide Terminates, Step;
    if lines != [] && !Terminates(lines[0], envIndent) {
      UntilIsFold(Step(r, lines[0], key), lines[1..], envIndent, key);
      BlockEndShifts(lines, 1, envIndent);
      var n := BlockEnd(lines, 0, envIndent);
      assert lines[..n][1..] == lines[1..][..n - 1];
    }
  }

  lemma ReadIsUntil(lines: seq<string>, key: string)
    requires ScanLines(lines).Some?
    ensures var scan := ScanLines(lines).value;
            scan.env < |lines| && Read(lines, key) == Until(START, lines[scan.env + 1..], scan.envIndent, key)
  {
    hide Terminates, Entries;
    var scan := ScanLines(lines).value;
    var rest := lines[scan.env + 1..];
    BlockEndShifts(lines, scan.env + 1, scan.envIndent);
    UntilIsFold(START, rest, scan.envIndent, key);
    assert rest[..BlockEnd(rest, 0, scan.envIndent)] == lines[scan.env + 1..scan.end];
  }

  /** The same `env:` line starts a block of the same depth. */
  lemma SameEnv(lines: seq<string>, scan: Scan, other: seq<string>)
    requires ScanLines(lines) == Some(scan) && lines[..scan.env + 1] <= other
    ensures ScanLines(other).Some?
    ensures ScanLines(other).value.env == scan.env && ScanLines(other).value.envIndent == scan.envIndent
  {
    hide Terminates, Entries;
    assert other[..scan.env + 1] == lines[..scan.env + 1];
    assert other[scan.env] == lines[..scan.env + 1][scan.env];
    EnvLineSame(lines, other, 0);
  }

  lemma CommentIsPassed(line: string, envIndent: nat)
    requires IsComment(line)
    ensures !Terminates(line, envIndent) && NameMatch(line) == None && !ValueMatch(line) && Strip(line) != "env:"
  {
    CommentStrips(line);
    LStripIsSuffix(line);
    LStripHead(line);
    if LStrip(line) != "" {
      RStripKeepsHead(LStrip(line));
    }
  }

  lemma {:induction false} CommentTellsNothing(r: Reader, a: seq<string>, comment: string, b: seq<string>,
      envIndent: nat, key: string)
    requires IsComment(comment)
    ensures Until(r, a + [comment] + b, envIndent, key) == Until(r, a + b, envIndent, key)
    decreases |a|
  {
    hide Terminates, NameMatch, ValueMatch, IsComment;
    if a == [] {
      CommentIsPassed(comment, envIndent);
      assert a + [comment] + b == [comment] + b && ([comment] + b)[1..] == b && a + b == b;
    } else {
      assert (a + [comment] + b)[1..] == a[1..] + [comment] + b && (a + b)[1..] == a[1..] + b;
      CommentTellsNothing(Step(r, a[0], key), a[1..], comment, b, envIndent, key);
    }
  }

  lemma {:induction false} EnvLineIs(lines: seq<string>, from: nat, k: nat)
    requires from <= k <= |lines| && forall i :: from <= i < k ==> Strip(lines[i]) != "env:"
    requires k < |lines| ==> Strip(lines[k]) == "env:"
    ensures EnvLine(lines, from) == k
    decreases k - from
  {
    hide Strip;
    if from < k {
      EnvLineIs(lines, from + 1, k);
    }
  }

  function Inserted(lines: seq<string>, p: nat, line: string): seq<string>
    requires p <= |lines|
  {
    lines[..p] + [line] + lines[p..]
  }

  lemma InsertedAt(lines: seq<string>, p: nat, line: string, i: nat)
    requires p <= |lines| && i <= |lines|
    ensures |Inserted(lines, p, line)| == |lines| + 1
    ensures Inserted(lines, p, line)[i] == if i < p then lines[i] else if i == p then line else lines[i - 1]
  {
  }

  lemma EnvLineMoves(lines: seq<string>, p: nat, comment: string, env: nat, i: nat)
    requires p <= |lines| && Strip(comment) != "env:" && i <= |lines|
    requires forall j :: 0 <= j <= env && j < |lines| ==> (Strip(lines[j]) == "env:" <==> j == env)
    requires i <= if p <= env then env + 1 else env
    ensures |Inserted(lines, p, comment)| == |lines| + 1
    ensures Strip(Inserted(lines, p, comment)[i]) == "env:" <==> i == if p <= env then env + 1 else env
  {
    hide Strip, Inserted;
    InsertedAt(lines, p, comment, i);
  }

  lemma EnvLineShifts(lines: seq<string>, p: nat, comment: string)
    requires p <= |lines| && IsComment(comment)
    ensures var env := EnvLine(lines, 0);
            EnvLine(Inserted(lines, p, comment), 0) == if p <= env then env + 1 else env
  {
    hide Strip, IsComment, Inserted, EnvLine;
    CommentIsPassed(comment, 0);
    assert |Inserted(lines, p, comment)| == |lines| + 1 by {
      InsertedAt(lines, p, comment, 0);
    }
    var env, all := EnvLine(lines, 0), Inserted(lines, p, comment);
    EnvLineReads(lines, 0);
    NoneBeforeEnv(lines, 0);
    var k := if p <= env then env + 1 else env;
    forall i | 0 <= i <= k && i < |all|
      ensures Strip(all[i]) == "env:" <==> i == k
    {
      EnvLineMoves(lines, p, comment, env, i);
    }
    EnvLineIs(all, 0, k);
  }

  /** A blank line or a comment, of any indent and anywhere, changes nothing that is found. */
  lemma CommentReads(lines: seq<string>, p: nat, comment: string, key: string)
    requires p <= |lines| && IsComment(comment)
    ensures var all := Inserted(lines, p, comment);
            && (ScanLines(all).Some? <==> ScanLines(lines).Some?)
            && (ScanLines(lines).Some? ==>
                  && Read(all, key) == Read(lines, key)
                  && ScanLines(all).value.envIndent == ScanLines(lines).value.envIndent)
  {
    hide Read, Step, Terminates, Entries, IsComment, BlankRun;
    var all, env := Inserted(lines, p, comment), EnvLine(lines, 0);
    EnvLineShifts(lines, p, comment);
    if ScanLines(lines).Some? {
      var scan := ScanLines(lines).value;
      ReadIsUntil(lines, key);
      ReadIsUntil(all, key);
      if p <= env {
        assert all[env + 1] == lines[env] && all[env + 2..] == lines[env + 1..];
      } else {
        var a, b := lines[env + 1..p], lines[p..];
        assert all[env] == lines[env] && all[env + 1..] == a + [comment] + b && lines[env + 1..] == a + b;
        CommentTellsNothing(START, a, comment, b, scan.envIndent, key);
      }
    }
  }

  lemma {:induction false} SameKeys(a: seq<string>, b: seq<string>, mine: seq<Entry>, others: seq<Entry>,
      updates: seq<Update>)
    requires EntriesFit(a, mine) && EntriesFit(b, others)
    requires forall key :: Lookup(mine, key) == None <==> Lookup(others, key) == None
    requires forall key :: Target(a, mine, key) == None <==> Target(b, others, key) == None
    ensures Added(mine, updates) == Added(others, updates)
    ensures UpdatedKeys(a, mine, updates) == UpdatedKeys(b, others, updates)
    decreases |updates|
  {
    hide Lookup, Target;
    if updates != [] {
      SameKeys(a, b, mine, others, updates[..|updates| - 1]);
    }
  }

  /** So it changes neither what any key reads as nor which keys are added or updated. */
  lemma CommentIsIgnored(lines: seq<string>, p: nat, comment: string, updates: seq<Update>)
    requires AllSpace(comment) || exists a: string, r: string :: AllSpace(a) && comment == a + ("#" + r)
    requires p <= |lines| && ScanLines(lines).Some?
    ensures var all := lines[..p] + [comment] + lines[p..];
            && ScanLines(all).Some?
            && EntriesFit(all, ScanLines(all).value.entries) && EntriesFit(lines, ScanLines(lines).value.entries)
            && (forall key :: ReadEnv(all, key) == ReadEnv(lines, key))
            && Added(ScanLines(all).value.entries, updates) == Added(ScanLines(lines).value.entries, updates)
            && UpdatedKeys(all, ScanLines(all).value.entries, updates) ==
               UpdatedKeys(lines, ScanLines(lines).value.entries, updates)
  {
    var all := Inserted(lines, p, comment);
    assert all == lines[..p] + [comment] + lines[p..];
    assert IsComment(comment);
    hide ScanLines, Read, IsComment, Target, ReadEnv, Inserted, AllSpace;
    CommentReads(lines, p, comment, "");
    ScanFits(all);
    ScanFits(lines);
    forall key
      ensures ReadEnv(all, key) == ReadEnv(lines, key)
      ensures Lookup(ScanLines(all).value.entries, key) == None <==> Lookup(ScanLines(lines).value.entries, key) == None
      ensures Target(all, ScanLines(all).value.entries, key) == None <==>
              Target(lines, ScanLines(lines).value.entries, key) == None
    {
      CommentReads(lines, p, comment, key);
      ReadIsRead(all, key);
      ReadIsRead(lines, key);
      ReadSpec(all, key);
      ReadSpec(lines, key);
    }
    SameKeys(all, lines, ScanLines(all).value.entries, ScanLines(lines).value.entries, updates);
  }

  /** An empty last line tells nothing. */
  lemma BlankLast(lines: seq<string>, key: string)
    requires ScanLines(lines + [""]).Some?
    ensures ScanLines(lines).Some?
    ensures var scan, scan' := ScanLines(lines).value, ScanLines(lines + [""]).value;
            scan.env == scan'.env && scan.envIndent == scan'.envIndent
    ensures Read(lines + [""], key) == Read(lines, key)
  {
    hide Read, Terminates, Entries;
    assert Inserted(lines, |lines|, "") == lines + [""];
    EnvLineShifts(lines, |lines|, "");
    CommentReads(lines, |lines|, "", key);
  }

  /** A written value: found unless its first line ends the block. */
  lemma UntilValue(r: Reader, indent: string, value: string, envIndent: nat, key: string)
    requires r.width.Some? && r.first.Some? && AllSpace(indent) && OneLine(indent) && BlankRun(indent) >= envIndent
    requires Stays(indent, envIndent) ==> QuietValue(value, key)
    ensures Until(r, Pieces(ValueText(indent, value)), envIndent, key) ==
            if r.seeking && Stays(indent, envIndent) then
              r.(seeking := false, line := Some(HeadText(indent, value)))
            else r
    ensures !Stays(indent, envIndent) ==> EndsBlock(indent, value, envIndent)
  {
    hide Terminates, NameMatch, ValueMatch, Pieces, Quote, ScalarText, Step, QuietValue, Stays;
    var pieces := Pieces(ValueText(indent, value));
    ValueTextPieces(indent, value);
    ScalarTerminates(indent, FirstLine(Quote(value)), envIndent);
    UntilIsFold(r, pieces, envIndent, key);
    assert pieces[0] in pieces;
    if Stays(indent, envIndent) {
      FoldValue(r, indent, value, BlockEnd(pieces, 0, envIndent), key);
    }
  }

  // ----- The additions -----

  function AddOne(r: Reader, indent: string, envIndent: nat, u: Update, key: string): Reader {
    var own := u.key == key;
    var line := if Stays(indent, envIndent) then Some(HeadText(indent, u.value)) else None;
    Reader(Some(|indent|), if r.first == None then Some(u.key) else r.first, own && line == None,
           if own then Some(indent) else r.indent, if own then line else r.line)
  }

  /** Additions as the pass meets them, down to the first that ends the block. */
  ghost function AddAll(r: Reader, indent: string, envIndent: nat, added: seq<Update>, key: string): Reader
    decreases |added|
  {
    if added == [] then r
    else
      var next := AddOne(r, indent, envIndent, added[0], key);
      if EndsBlock(indent, added[0].value, envIndent) then next else AddAll(next, indent, envIndent, added[1..], key)
  }

  lemma EndsSpec(indent: string, value: string, envIndent: nat)
    ensures EndsBlock(indent, value, envIndent) <==>
            exists line :: line in Pieces(ValueText(indent, value)) && Terminates(line, envIndent)
  {
  }

  lemma PairsFlat(indent: string, added: seq<Update>, rest: seq<string>)
    requires added != [] && OneLine(indent) && IsIdentifier(added[0].key)
    ensures Flat(Pairs(indent, added)) + rest ==
            [NameText(indent, added[0].key)] +
            (Pieces(ValueText(indent, added[0].value)) + (Flat(Pairs(indent, added[1..])) + rest))
  {
    hide NameText, ValueText, Pieces;
    var name, value := NameText(indent, added[0].key), ValueText(indent, added[0].value);
    NameTextIsOneLine(indent, added[0].key);
    PiecesOfLine(name);
    var pairs := Pairs(indent, added);
    assert pairs[0] == name && pairs[1..][0] == value && pairs[1..][1..] == Pairs(indent, added[1..]);
  }

  lemma NamedReader(r: Reader, indent: string, envIndent: nat, name: string, rest: seq<string>, key: string)
    returns (named: Reader)
    requires AllSpace(indent) && BlankRun(indent) >= envIndent && IsIdentifier(name)
    requires r.width == None || r.width == Some(|indent|)
    ensures named == Reader(Some(|indent|), if r.first == None then Some(name) else r.first, name == key,
                            if name == key then Some(indent) else r.indent, if name == key then None else r.line)
    ensures Until(r, [NameText(indent, name)] + rest, envIndent, key) == Until(named, rest, envIndent, key)
  {
    hide Terminates, NameMatch, NameText;
    NameTextMatches(indent, name);
    NameTextStays(indent, name, envIndent);
    var all := [NameText(indent, name)] + rest;
    assert all[0] == NameText(indent, name) && all[1..] == rest;
    named := Step(r, all[0], key);
  }

  lemma {:induction false} UntilPairs(r: Reader, indent: string, envIndent: nat, added: seq<Update>,
      rest: seq<string>, key: string)
    requires AllSpace(indent) && OneLine(indent) && BlankRun(indent) >= envIndent
    requires forall u :: u in added ==> IsIdentifier(u.key)
    requires Stays(indent, envIndent) ==> forall u :: u in added ==> QuietValue(u.value, key)
    requires r.width == None || r.width == Some(|indent|)
    requires r.width == None <==> r.first == None
    requires rest == [] || Terminates(rest[0], envIndent)
    ensures Until(r, Flat(Pairs(indent, added)) + rest, envIndent, key) == AddAll(r, indent, envIndent, added, key)
    decreases |added|
  {
    hide Terminates, Pieces, EndsBlock, Stays, QuietValue, ValueText, NameText;
    if added == [] {
      assert Flat(Pairs(indent, added)) + rest == rest;
    } else {
      var u := added[0];
      assert u in added && forall v :: v in added[1..] ==> v in added;
      var pieces, more := Pieces(ValueText(indent, u.value)), Flat(Pairs(indent, added[1..])) + rest;
      PairsFlat(indent, added, rest);
      var named := NamedReader(r, indent, envIndent, u.key, pieces + more, key);
      UntilConcat(named, pieces, more, envIndent, key);
      UntilValue(named, indent, u.value, envIndent, key);
      if !EndsBlock(indent, u.value, envIndent) {
        assert pieces[..|pieces|] == pieces;
        FoldValue(named, indent, u.value, |pieces|, key);
        UntilPairs(Fold(named, pieces, key), indent, envIndent, added[1..], rest, key);
      }
      EndsSpec(indent, u.value, envIndent);
    }
  }

  /** The additions met: down to the first that ends the block. */
  ghost function Reaching(indent: string, envIndent: nat, added: seq<Update>): (r: seq<Update>)
    ensures r <= added
    decreases |added|
  {
    if added == [] then []
    else
      [added[0]] + if EndsBlock(indent, added[0].value, envIndent) then [] else Reaching(indent, envIndent, added[1..])
  }

  lemma ReachingHas(indent: string, envIndent: nat, added: seq<Update>, key: string)
    requires DistinctKeys(added)
    ensures var met := Reaching(indent, envIndent, added);
            && DistinctKeys(met)
            && (ValueOf(met, key).Some? ==> Update(key, ValueOf(met, key).value) in added)
            && (forall v :: ValueOf(met, key) == Some(v) <==> Update(key, v) in met)
  {
    var met := Reaching(indent, envIndent, added);
    assert forall i :: 0 <= i < |met| ==> met[i] == added[i];
    ValueOfSpec(met, key);
  }

  lemma {:induction false} AddAllSpec(r: Reader, indent: string, envIndent: nat, added: seq<Update>, key: string)
    requires DistinctKeys(added)
    ensures var met, end := ValueOf(Reaching(indent, envIndent, added), key), AddAll(r, indent, envIndent, added, key);
            && end.indent == (if met.Some? then Some(indent) else r.indent)
            && end.line == (match met
                            case Some(v) => if Stays(indent, envIndent) then Some(HeadText(indent, v)) else None
                            case None => r.line)
            && end.first == if r.first == None && added != [] then Some(added[0].key) else r.first
    decreases |added|
  {
    hide EndsBlock, Stays, HeadText;
    if added != [] {
      var u, rest := added[0], added[1..];
      assert forall j :: 0 <= j < |rest| ==> rest[j] == added[j + 1];
      var next := AddOne(r, indent, envIndent, u, key);
      var more := if EndsBlock(indent, u.value, envIndent) then [] else Reaching(indent, envIndent, rest);
      assert Reaching(indent, envIndent, added)[1..] == more;
      if u.key == key {
        ReachingHas(indent, envIndent, rest, key);
        assert ValueOf(more, key) == None;
      }
      if !EndsBlock(indent, u.value, envIndent) {
        AddAllSpec(next, indent, envIndent, rest, key);
      }
    }
  }

  // ----- The file as the next reader finds it -----

  /** Above the first ending line no line of the file ends the block. */
  lemma NoEndBefore(lines: seq<string>, updates: seq<Update>, scan: Scan, i: nat)
    requires Edits(lines, updates, scan) && scan.env < i < Mid(lines, updates) && i < |Edited(lines, updates)|
    ensures forall line :: line in Pieces(Edited(lines, updates)[i]) ==> !Terminates(line, scan.envIndent)
  {
    hide EnvLine, Entries, Terminates, Edited, Pieces, ValueText, Target, ItemIndent, BlockEnd;
    LineAfter(lines, updates, scan, i);
    if Edited(lines, updates)[i] == lines[i] {
      PiecesOfLine(lines[i]);
      BlockEndSpec(lines, scan.env + 1, scan.envIndent);
    } else {
      var u :| && u in updates && Target(lines, scan.entries, u.key) == Some(i)
               && Edited(lines, updates)[i] == ValueText(ItemIndent(scan), u.value);
    }
  }

  lemma ReplacedAtStart(lines: seq<string>, updates: seq<Update>, scan: Scan, key: string)
    requires ScanLines(lines) == Some(scan) && scan.env < |lines|
    ensures Replaced(lines, updates, scan.env + 1, key) == START
  {
    hide ScanLines, Target, ItemIndent, HeadText;
    assert lines[scan.env + 1..scan.env + 1] == [];
    ScanFits(lines);
    if Target(lines, scan.entries, key).Some? {
      AtTarget(lines, key, key);
    }
  }

  /** The pass over the written lines above it. */
  lemma {:induction false} BeforeMid(lines: seq<string>, updates: seq<Update>, scan: Scan, i: nat, key: string)
    requires Edits(lines, updates, scan) && scan.env < i <= Mid(lines, updates) && Quiet(lines, updates, key)
    ensures i <= |Edited(lines, updates)|
    ensures var body := Flat(Edited(lines, updates)[scan.env + 1..i]);
            && Fold(START, body, key) == Replaced(lines, updates, i, key)
            && forall line :: line in body ==> !Terminates(line, scan.envIndent)
    decreases i
  {
    hide ScanLines, Terminates, Edited, Pieces, ValueText, Target, ItemIndent, Mid, Quiet, At, Step;
    var after := Edited(lines, updates);
    ScanFits(lines);
    EditFrame(lines, updates);
    if i == scan.env + 1 {
      assert after[scan.env + 1..i] == [] == lines[scan.env + 1..i];
      ReplacedAtStart(lines, updates, scan, key);
    } else {
      var before := after[scan.env + 1..i - 1];
      BeforeMid(lines, updates, scan, i - 1, key);
      assert after[scan.env + 1..i] == before + [after[i - 1]];
      FlatConcat(before, [after[i - 1]]);
      FlatOne(after[i - 1]);
      FoldConcat(START, Flat(before), Pieces(after[i - 1]), key);
      ReplacedNext(lines, updates, scan, i - 1, key);
      NoEndBefore(lines, updates, scan, i - 1);
    }
  }

  /** What a pass over the file finds. */
  ghost function Outcome(lines: seq<string>, updates: seq<Update>, key: string): Reader
    requires ScanLines(lines).Some?
  {
    var scan, mid := ScanLines(lines).value, Mid(lines, updates);
    var r, indent := Replaced(lines, updates, mid, key), ItemIndent(scan);
    if mid == scan.end then AddAll(r, indent, scan.envIndent, Added(scan.entries, updates), key)
    else
      match ValueOf(updates, key)
      case Some(v) =>
        if !r.seeking || !Stays(indent, scan.envIndent) then r
        else r.(seeking := false, line := Some(HeadText(indent, v)))
      case None => r
  }

  lemma AboveBlock(lines: seq<string>, updates: seq<Update>, scan: Scan)
    requires Edits(lines, updates, scan)
    ensures scan.env < scan.end <= |Edited(lines, updates)| && scan.end <= |lines|
    ensures Edited(lines, updates)[..scan.env + 1] == lines[..scan.env + 1]
  {
    hide EnvLine, BlockEnd, Entries, Terminates, Edited, Pieces, ValueText, Target, ItemIndent, Pairs;
    var after := Edited(lines, updates);
    ScanFits(lines);
    EditFrame(lines, updates);
    forall i | 0 <= i <= scan.env
      ensures after[i] == lines[i]
    {
      if after[i] != lines[i] {
        var u :| u in updates && Target(lines, scan.entries, u.key) == Some(i);
        AtTarget(lines, u.key, u.key);
      }
    }
  }

  lemma FlatThree(lines: seq<string>, a: nat, b: nat)
    requires a <= b <= |lines|
    ensures Flat(lines) == Flat(lines[..a]) + (Flat(lines[a..b]) + Flat(lines[b..]))
  {
    hide Flat;
    assert lines[a..] == lines[a..b] + lines[b..];
    FlatConcat(lines[a..b], lines[b..]);
    assert lines == lines[..a] + lines[a..];
    FlatConcat(lines[..a], lines[a..]);
  }

  /** The file's env line and what follows it. */
  lemma FlatParts(lines: seq<string>, updates: seq<Update>, scan: Scan, mid: nat)
    requires Edits(lines, updates, scan) && scan.env < mid <= scan.end
    ensures mid <= |Edited(lines, updates)| && scan.end <= |lines|
    ensures var after := Edited(lines, updates);
            Flat(after) == lines[..scan.env + 1] + (Flat(after[scan.env + 1..mid]) + Flat(after[mid..]))
  {
    hide ScanLines, Edited, Flat;
    AboveBlock(lines, updates, scan);
    FlatOfLines(lines[..scan.env + 1]);
    FlatThree(Edited(lines, updates), scan.env + 1, mid);
  }

  lemma OwnLine(lines: seq<string>, updates: seq<Update>, scan: Scan, u: Update, i: nat)
    requires Edits(lines, updates, scan) && u in updates && EntriesFit(lines, scan.entries)
    requires Target(lines, scan.entries, u.key) == Some(i)
    ensures i < scan.end <= |lines| && i < |Edited(lines, updates)|
    ensures Edited(lines, updates)[i] == ValueText(ItemIndent(scan), u.value)
  {
    hide EnvLine, BlockEnd, Entries, Edited, ValueText, ItemIndent, Target;
    AtTarget(lines, u.key, u.key);
    ScanFits(lines);
    LineAfter(lines, updates, scan, i);
    var v :| && v in updates && Target(lines, scan.entries, v.key) == Some(i)
             && Edited(lines, updates)[i] == ValueText(ItemIndent(scan), v.value);
    if v.key != u.key {
      TargetsDiffer(lines, scan.entries, scan.env + 1, scan.end, v.key, u.key);
    }
    ValueOfSpec(updates, u.key);
  }

  /** Where a replaced line ends the old block, the pass stops there. */
  lemma EndingRead(lines: seq<string>, updates: seq<Update>, scan: Scan, key: string)
    requires Edits(lines, updates, scan) && Quiet(lines, updates, key) && Mid(lines, updates) < scan.end
    ensures var mid := Mid(lines, updates);
            && mid <= |Edited(lines, updates)|
            && Until(Replaced(lines, updates, mid, key), Flat(Edited(lines, updates)[mid..]), scan.envIndent, key) ==
               Outcome(lines, updates, key)
  {
    hide EnvLine, BlockEnd, Entries, Terminates, Edited, Pieces, ValueText, ItemIndent, Target, Step, At, HeadText;
    hide QuietValue, Stays, EndsBlock;
    var after, mid, indent := Edited(lines, updates), Mid(lines, updates), ItemIndent(scan);
    var r := Replaced(lines, updates, mid, key);
    LineAfter(lines, updates, scan, mid);
    var u :| && u in updates && Target(lines, scan.entries, u.key) == Some(mid)
             && EndsBlock(indent, u.value, scan.envIndent);
    OwnLine(lines, updates, scan, u, mid);
    var pieces := Pieces(after[mid]);
    assert after[mid..] == [after[mid]] + after[mid + 1..];
    FlatConcat([after[mid]], after[mid + 1..]);
    FlatOne(after[mid]);
    EndsSpec(indent, u.value, scan.envIndent);
    UntilConcat(r, pieces, Flat(after[mid + 1..]), scan.envIndent, key);
    AtTarget(lines, u.key, key);
    ItemIndentFits(lines);
    IndentIsOneLine(lines);
    UntilValue(r, indent, u.value, scan.envIndent, key);
    ValueOfSpec(updates, key);
  }

  lemma LinesBelow(lines: seq<string>, updates: seq<Update>, scan: Scan)
    requires Edits(lines, updates, scan)
    ensures scan.end <= |Edited(lines, updates)| && scan.end <= |lines|
    ensures Flat(Edited(lines, updates)[scan.end..]) ==
            Flat(Pairs(ItemIndent(scan), Added(scan.entries, updates))) + lines[scan.end..]
    ensures scan.end < |lines| ==> Terminates(lines[scan.end], scan.envIndent)
  {
    hide EnvLine, BlockEnd, Entries, Terminates, Edited, Flat, ValueText, ItemIndent, Target, Pairs, Added;
    var after, added := Edited(lines, updates), Added(scan.entries, updates);
    var end' := scan.end + 2 * |added|;
    ScanFits(lines);
    EditFrame(lines, updates);
    assert after[scan.end..] == after[scan.end..end'] + after[end'..];
    FlatConcat(Pairs(ItemIndent(scan), added), lines[scan.end..]);
    FlatOfLines(lines[scan.end..]);
    BlockEndSpec(lines, scan.env + 1, scan.envIndent);
  }

  lemma ItemWidth(lines: seq<string>, scan: Scan)
    requires ScanLines(lines) == Some(scan)
    ensures scan.entries != [] ==> |ItemIndent(scan)| == |scan.entries[0].indent|
  {
    hide NameMatch, Entries, EnvLine, BlockEnd, StartsWidth;
    ScanFits(lines);
    if scan.entries != [] {
      FirstWidth(lines, scan.env + 1, scan.end);
      EntriesNamed(lines, scan.env + 1, scan.end, |scan.entries[0].indent|);
      LookupIn(scan.entries, scan.entries[0].key);
    }
  }

  /** Entries share the width of the indent that additions get. */
  lemma WidthFits(lines: seq<string>, scan: Scan, key: string)
    requires ScanLines(lines) == Some(scan)
    ensures scan.env < scan.end <= |lines|
    ensures var r := At(lines, scan.end, key);
            && (r.width == None || r.width == Some(|ItemIndent(scan)|))
            && (r.width == None <==> r.first == None)
            && r.first == (if scan.entries == [] then None else Some(scan.entries[0].key))
  {
    hide ItemIndent, Lookup, TargetLine, ValueLine, EntriesFit, NameMatch, Entries, EnvLine, BlockEnd;
    ScanFits(lines);
    ReadSpec(lines, key);
    ItemWidth(lines, scan);
  }

  /** Where no replaced line ends the old block, it is passed and the additions follow. */
  lemma AdditionsRead(lines: seq<string>, updates: seq<Update>, scan: Scan, key: string)
    requires Edits(lines, updates, scan) && Quiet(lines, updates, key) && Mid(lines, updates) == scan.end
    ensures var mid := Mid(lines, updates);
            && mid <= |Edited(lines, updates)|
            && Until(Replaced(lines, updates, mid, key), Flat(Edited(lines, updates)[mid..]), scan.envIndent, key) ==
               Outcome(lines, updates, key)
  {
    hide ScanLines, Terminates, Edited, Flat, ValueText, ItemIndent, Target, HeadText, QuietValue, Stays, EndsBlock;
    hide Mid, At, AddAll, Until, Pairs;
    var indent, added := ItemIndent(scan), Added(scan.entries, updates);
    LinesBelow(lines, updates, scan);
    ItemIndentFits(lines);
    IndentIsOneLine(lines);
    AddedSpec(scan.entries, updates);
    WidthFits(lines, scan, key);
    UntilPairs(Replaced(lines, updates, scan.end, key), indent, scan.envIndent, added, lines[scan.end..], key);
  }

  lemma FlatRead(lines: seq<string>, updates: seq<Update>, scan: Scan, key: string)
    requires Edits(lines, updates, scan) && Quiet(lines, updates, key)
    ensures var flat := Flat(Edited(lines, updates));
            && ScanLines(flat).Some?
            && ScanLines(flat).value.env == scan.env && ScanLines(flat).value.envIndent == scan.envIndent
            && Read(flat, key) == Outcome(lines, updates, key)
  {
    hide ScanLines, Terminates, Edited, Pieces, ValueText, Target, ItemIndent, Mid, Quiet, At, Step, Flat, Replaced;
    hide Outcome, Read;
    var after, mid := Edited(lines, updates), Mid(lines, updates);
    FlatParts(lines, updates, scan, mid);
    var flat, body := Flat(after), Flat(after[scan.env + 1..mid]);
    BeforeMid(lines, updates, scan, mid, key);
    assert lines[..scan.env + 1] <= flat;
    SameEnv(lines, scan, flat);
    ReadIsUntil(flat, key);
    assert flat[scan.env + 1..] == body + Flat(after[mid..]);
    UntilConcat(START, body, Flat(after[mid..]), scan.envIndent, key);
    if mid == scan.end {
      AdditionsRead(lines, updates, scan, key);
    } else {
      EndingRead(lines, updates, scan, key);
    }
  }

  /** The value of the key that a reader of the file finds, if it finds the written one: value
      lines stay in the block at this indent, and no line above has ended it. */
  ghost function Survivor(lines: seq<string>, updates: seq<Update>, key: string): Option<string>
    requires ScanLines(lines).Some?
  {
    ScanFits(lines);
    var scan := ScanLines(lines).value;
    match ValueOf(updates, key)
    case None => None
    case Some(value) =>
      if !Stays(ItemIndent(scan), scan.envIndent) then None
      else
        match Target(lines, scan.entries, key)
        case Some(k) => if k <= Mid(lines, updates) then Some(value) else None
        case None =>
          if Mid(lines, updates) < scan.end then None
          else ValueOf(Reaching(ItemIndent(scan), scan.envIndent, Added(scan.entries, updates)), key)
  }

  lemma NotAdded(lines: seq<string>, updates: seq<Update>, scan: Scan, key: string)
    requires Edits(lines, updates, scan) && EntriesFit(lines, scan.entries) && scan.env < scan.end <= |lines|
    requires Target(lines, scan.entries, key).Some?
    ensures var r := Replaced(lines, updates, scan.end, key);
            AddAll(r, ItemIndent(scan), scan.envIndent, Added(scan.entries, updates), key).line == r.line
  {
    hide ScanLines, EndsBlock, HeadText, Stays, ItemIndent, Target, Replaced, Reaching;
    var added := Added(scan.entries, updates);
    TargetIsValue(lines, scan.entries, key);
    AddedSpec(scan.entries, updates);
    AddAllSpec(Replaced(lines, updates, scan.end, key), ItemIndent(scan), scan.envIndent, added, key);
    ReachingHas(ItemIndent(scan), scan.envIndent, added, key);
  }

  lemma OtherEnding(lines: seq<string>, updates: seq<Update>, scan: Scan, key: string)
    requires Edits(lines, updates, scan) && EntriesFit(lines, scan.entries) && Mid(lines, updates) < scan.end
    requires Target(lines, scan.entries, key) != Some(Mid(lines, updates))
    ensures !Replaced(lines, updates, Mid(lines, updates), key).seeking
  {
    hide ScanLines, EndsBlock, HeadText, ItemIndent, Target, At;
    var u :| u in updates && Target(lines, scan.entries, u.key) == Some(Mid(lines, updates));
    AtTarget(lines, u.key, key);
  }

  /** The line found for a key whose value line was replaced. */
  lemma ReplacedLine(lines: seq<string>, updates: seq<Update>, scan: Scan, key: string)
    requires Edits(lines, updates, scan) && EntriesFit(lines, scan.entries)
    requires ValueOf(updates, key).Some? && Target(lines, scan.entries, key).Some?
    ensures Outcome(lines, updates, key).line ==
            match Survivor(lines, updates, key)
            case Some(v) => Some(HeadText(ItemIndent(scan), v))
            case None => At(lines, Mid(lines, updates), key).line
  {
    hide ScanLines, EndsBlock, HeadText, Stays, ItemIndent, Target, Lookup, At, Mid, AddAll;
    var k, mid := Target(lines, scan.entries, key).value, Mid(lines, updates);
    MidBefore(lines, updates, scan, key);
    if mid == scan.end {
      NotAdded(lines, updates, scan, key);
    } else if k == mid {
      AtTarget(lines, key, key);
    } else {
      OtherEnding(lines, updates, scan, key);
    }
  }

  lemma AbsentAt(lines: seq<string>, i: nat, key: string)
    requires ScanLines(lines).Some? && Lookup(ScanLines(lines).value.entries, key) == None
    requires ScanLines(lines).value.env < i <= ScanLines(lines).value.end <= |lines|
    ensures At(lines, i, key).line == None && At(lines, i, key).indent == None
  {
    hide ScanLines, Lookup, Capped, At, Read;
    var scan := ScanLines(lines).value;
    AtIsPrefix(lines, i, key);
    ReadSpec(lines[..i], key);
    CappedLookup(scan.entries, i, key);
  }

  /** Which line the pass over the file finds. */
  lemma OutcomeLine(lines: seq<string>, updates: seq<Update>, scan: Scan, key: string)
    requires Edits(lines, updates, scan)
    ensures Outcome(lines, updates, key).line ==
            match Survivor(lines, updates, key)
            case Some(v) => Some(HeadText(ItemIndent(scan), v))
            case None => At(lines, Mid(lines, updates), key).line
  {
    hide ScanLines, EndsBlock, HeadText, Stays, ItemIndent, Target, Lookup, At, Reaching, Mid;
    ScanFits(lines);
    if ValueOf(updates, key).Some? && Target(lines, scan.entries, key).Some? {
      ReplacedLine(lines, updates, scan, key);
    } else {
      var indent, added, mid := ItemIndent(scan), Added(scan.entries, updates), Mid(lines, updates);
      ValueOfSpec(updates, key);
      AddedSpec(scan.entries, updates);
      AddAllSpec(Replaced(lines, updates, scan.end, key), indent, scan.envIndent, added, key);
      ReachingHas(indent, scan.envIndent, added, key);
      if Lookup(scan.entries, key) == None {
        AbsentAt(lines, mid, key);
      }
      if mid < scan.end && ValueOf(updates, key).Some? {
        OtherEnding(lines, updates, scan, key);
      }
    }
  }

  /** A pass over the file's own lines. */
  lemma FileRead(content: string, updates: seq<Update>, scan: Scan, key: string)
    requires Edits(SplitLines(content), updates, scan) && Quiet(SplitLines(content), updates, key)
    ensures var split := SplitLines(TextAfter(content, updates));
            && ScanLines(split).Some? && ScanLines(split).value.envIndent == scan.envIndent
            && Read(split, key) == Outcome(SplitLines(content), updates, key)
  {
    hide ScanLines, SplitLines, Edited, Read, Outcome, Quiet, TextAfter, Flat;
    FileLines(content, updates, scan);
    FlatRead(SplitLines(content), updates, scan, key);
    var split := SplitLines(TextAfter(content, updates));
    if Flat(Edited(SplitLines(content), updates)) == split + [""] {
      BlankLast(split, key);
    }
  }

  lemma HeadReads(lines: seq<string>, scan: Scan, value: string)
    requires ScanLines(lines) == Some(scan) && forall line :: line in lines ==> OneLine(line)
    ensures var line := HeadText(ItemIndent(scan), value);
            ValueMatch(line) && ReadValue(line) == FirstLine(Quote(value))
  {
    hide ScanLines, ItemIndent, Quote, ValueMatch, ReadValue, ScalarText;
    ItemIndentFits(lines);
    IndentIsOneLine(lines);
    ValueTextPieces(ItemIndent(scan), value);
    FirstLineIsAll(Quote(value));
    var text := FirstLine(Quote(value));
    assert IsBreak('\n');
    assert OnOneLine(text) by {
      assert forall i :: 0 <= i < |text| ==> !IsBreak(text[i]);
    }
    ScalarMatches(ItemIndent(scan), text);
  }

  /** What any key reads as in the file, for any indent, any entries and any values whose
      further lines do not name the key: the first line of the quoted value if the value
      survives, and else what the old lines say above the first line that ends the block. */
  lemma FileReads(content: string, updates: seq<Update>, scan: Scan, key: string)
    requires Edits(SplitLines(content), updates, scan) && Quiet(SplitLines(content), updates, key)
    ensures var lines := SplitLines(content);
            ReadEnv(SplitLines(TextAfter(content, updates)), key) ==
            match Survivor(lines, updates, key)
            case Some(value) => Some(FirstLine(Quote(value)))
            case None => ReadEnv(lines[..Mid(lines, updates)], key)
  {
    hide ScanLines, SplitLines, Read, Outcome, Quiet, TextAfter, Survivor, Mid, ItemIndent, ValueMatch, Quote, ReadEnv;
    hide At, Capped, ReadValue;
    var lines := SplitLines(content);
    var mid := Mid(lines, updates);
    FileRead(content, updates, scan, key);
    OutcomeLine(lines, updates, scan, key);
    ReadIsRead(SplitLines(TextAfter(content, updates)), key);
    AtIsPrefix(lines, mid, key);
    ReadIsRead(lines[..mid], key);
    if Survivor(lines, updates, key).Some? {
      HeadReads(lines, scan, Survivor(lines, updates, key).value);
    }
  }

  // ----- Reading back -----

  lemma ValueIsSuffix(line: string)
    requires ValueMatch(line) && OneLine(line)
    ensures OneLine(ReadValue(line))
  {
    LStripIsSuffix(line);
    LStripIsSuffix(LStrip(line)[6..]);
  }

  /** No file reads back a value with a line break. */
  lemma BrokenNeverReadsBack(text: string, key: string, value: string)
    requires !OneLine(value)
    ensures ReadEnv(SplitLines(text), key) != Some(Quote(value))
  {
    hide SplitLines, EnvLine, BlockEnd, Entries, FirstValue, Quote, NameMatch;
    var lines := SplitLines(text);
    SplitIsOneLine(text);
    QuoteIsOneLine(value);
    if ScanLines(lines).Some? {
      var scan := ScanLines(lines).value;
      ScanFits(lines);
      if Target(lines, scan.entries, key).Some? {
        TargetIsValue(lines, scan.entries, key);
        var line := lines[Target(lines, scan.entries, key).value];
        assert line in lines;
        ValueIsSuffix(line);
      }
    }
  }

  lemma SurvivorIsOwn(lines: seq<string>, updates: seq<Update>, scan: Scan, u: Update)
    requires Edits(lines, updates, scan) && u in updates
    ensures var survivor := Survivor(lines, updates, u.key); survivor == None || survivor == Some(u.value)
  {
    hide ScanLines, Mid, ItemIndent, Target, Stays;
    ValueOfSpec(updates, u.key);
    AddedSpec(scan.entries, updates);
    ReachingHas(ItemIndent(scan), scan.envIndent, Added(scan.entries, updates), u.key);
  }

  /** A requested value reads back exactly if it survives and has no line break, or if the
      old lines that are left happen to hold it. */
  lemma FileReadsBackExactly(content: string, updates: seq<Update>, scan: Scan, u: Update)
    requires Edits(SplitLines(content), updates, scan) && Quiet(SplitLines(content), updates, u.key) && u in updates
    ensures var lines := SplitLines(content);
            ReadEnv(SplitLines(TextAfter(content, updates)), u.key) == Some(Quote(u.value)) <==>
              if Survivor(lines, updates, u.key).Some? then OneLine(u.value)
              else ReadEnv(lines[..Mid(lines, updates)], u.key) == Some(Quote(u.value))
  {
    hide ScanLines, SplitLines, Quiet, TextAfter, Mid, ItemIndent, Quote, ReadEnv, Target;
    FileReads(content, updates, scan, u.key);
    SurvivorIsOwn(SplitLines(content), updates, scan, u);
    QuoteIsOneLine(u.value);
    FirstLineIsAll(Quote(u.value));
  }

  /** Values without line breaks are quiet for every key. */
  lemma OneLineIsQuiet(lines: seq<string>, updates: seq<Update>, key: string)
    requires ScanLines(lines).Some? && EntriesFit(lines, ScanLines(lines).value.entries)
    requires forall u :: u in updates && IsWritten(lines, ScanLines(lines).value.entries, u.key) ==> OneLine(u.value)
    ensures Quiet(lines, updates, key)
  {
    hide ScanLines, Pieces, Quote, IsWritten;
    forall u | u in updates && IsWritten(lines, ScanLines(lines).value.entries, u.key)
      ensures QuietValue(u.value, key)
    {
      QuoteIsOneLine(u.value);
      PiecesOfLine(Quote(u.value));
    }
  }

  /** All requested values read back exactly if none has a line break and each survives,
      or is held by what is left. No condition on the values. */
  lemma AllReadBackExactly(content: string, updates: seq<Update>, scan: Scan)
    requires Edits(SplitLines(content), updates, scan)
    ensures var lines := SplitLines(content);
            (forall u :: u in updates ==>
               ReadEnv(SplitLines(TextAfter(content, updates)), u.key) == Some(Quote(u.value))) <==>
            forall u :: u in updates ==>
              && OneLine(u.value)
              && (|| Survivor(lines, updates, u.key).Some?
                  || ReadEnv(lines[..Mid(lines, updates)], u.key) == Some(Quote(u.value)))
  {
    hide ScanLines, SplitLines, Quiet, TextAfter, Mid, Quote, ReadEnv, Target, OneLine, Survivor;
    var lines := SplitLines(content);
    ScanFits(lines);
    if (forall u :: u in updates ==> OneLine(u.value)) {
      forall u | u in updates
        ensures ReadEnv(SplitLines(TextAfter(content, updates)), u.key) == Some(Quote(u.value)) <==>
                  || Survivor(lines, updates, u.key).Some?
                  || ReadEnv(lines[..Mid(lines, updates)], u.key) == Some(Quote(u.value))
      {
        OneLineIsQuiet(lines, updates, u.key);
        FileReadsBackExactly(content, updates, scan, u);
        FileReads(content, updates, scan, u.key);
      }
    } else {
      var u :| u in updates && !OneLine(u.value);
      BrokenNeverReadsBack(TextAfter(content, updates), u.key, u.value);
    }
  }

  // ----- Other keys -----

  /** The key is the key of one entry at most. */
  ghost predicate OnlyEntry(entries: seq<Entry>, key: string) {
    forall e :: e in entries && e.key == key ==> Lookup(entries, key) == Some(e)
  }

  lemma {:induction false} CappedAbsent(entries: seq<Entry>, mid: nat, key: string)
    requires forall e :: e in entries && e.key == key ==> mid <= e.start
    ensures Lookup(Capped(entries, mid), key) == None
    decreases |entries|
  {
    if entries != [] {
      assert entries[0] in entries && forall x :: x in entries[1..] ==> x in entries;
      CappedAbsent(entries[1..], mid, key);
      CappedHead(entries, mid);
    }
  }

  /** In the lines cut short an only entry is read exactly if its value line is above the cut. */
  lemma PrefixReads(lines: seq<string>, scan: Scan, mid: nat, key: string)
    requires ScanLines(lines) == Some(scan) && scan.env < mid <= scan.end <= |lines|
    requires OnlyEntry(scan.entries, key) && EntriesFit(lines, scan.entries)
    ensures var target := Target(lines, scan.entries, key);
            ReadEnv(lines[..mid], key) ==
            if target.Some? && target.value < mid then ReadEnv(lines, key) else None
  {
    hide ScanLines, ValueMatch, Entries, Capped, FirstValue;
    PrefixScan(lines, scan, mid);
    LookupIn(scan.entries, key);
    if Lookup(scan.entries, key).Some? && Lookup(scan.entries, key).value.start < mid {
      var e := Lookup(scan.entries, key).value;
      CappedLookup(scan.entries, mid, key);
      var end := if e.end <= mid then e.end else mid;
      FirstValueCapped(lines, e.start + 1, end, e.end);
      FirstValueCapped(lines[..mid], e.start + 1, end, end);
      assert lines[..mid][..end] == lines[..end];
    } else {
      CappedAbsent(scan.entries, mid, key);
    }
  }

  lemma NothingRead(lines: seq<string>, scan: Scan, key: string)
    requires ScanLines(lines) == Some(scan) && EntriesFit(lines, scan.entries)
    ensures Target(lines, scan.entries, key) == None ==> ReadEnv(lines, key) == None
  {
    hide ScanLines, Target;
  }

  lemma BeforeEndings(lines: seq<string>, updates: seq<Update>, scan: Scan, key: string)
    requires Edits(lines, updates, scan) && EntriesFit(lines, scan.entries)
    requires Target(lines, scan.entries, key).Some? && forall u :: u in updates ==> u.key != key
    ensures ReadEnv(lines, key).Some?
    ensures var k := Target(lines, scan.entries, key).value;
            k < Mid(lines, updates) <==>
              forall u :: && u in updates && Target(lines, scan.entries, u.key).Some?
                          && EndsBlock(ItemIndent(scan), u.value, scan.envIndent) ==>
                k < Target(lines, scan.entries, u.key).value
  {
    hide EnvLine, BlockEnd, Entries, ItemIndent, Target, EndsBlock;
    AtTarget(lines, key, key);
    ScanFits(lines);
    var k, mid := Target(lines, scan.entries, key).value, Mid(lines, updates);
    if mid < scan.end {
      var u :| && u in updates && Target(lines, scan.entries, u.key) == Some(mid)
               && EndsBlock(ItemIndent(scan), u.value, scan.envIndent);
      TargetsDiffer(lines, scan.entries, scan.env + 1, scan.end, key, u.key);
    }
  }

  /** Any other key reads as in the old lines above the first ending line. With one entry, it
      reads as before exactly if it had no value or its value line is above all those
      written that end the block. */
  lemma FileKeepsOtherKeysExactly(content: string, updates: seq<Update>, scan: Scan, key: string)
    requires Edits(SplitLines(content), updates, scan) && Quiet(SplitLines(content), updates, key)
    requires forall u :: u in updates ==> u.key != key
    ensures EntriesFit(SplitLines(content), scan.entries)
    ensures var lines, after := SplitLines(content), SplitLines(TextAfter(content, updates));
            && ReadEnv(after, key) == ReadEnv(lines[..Mid(lines, updates)], key)
            && (OnlyEntry(scan.entries, key) ==>
                  var target := Target(lines, scan.entries, key);
                  (ReadEnv(after, key) == ReadEnv(lines, key) <==>
                     target == None ||
                     forall u :: && u in updates && Target(lines, scan.entries, u.key).Some?
                                 && EndsBlock(ItemIndent(scan), u.value, scan.envIndent) ==>
                       target.value < Target(lines, scan.entries, u.key).value))
  {
    hide ScanLines, SplitLines, Quiet, TextAfter, Mid, ItemIndent, ReadEnv, Target, EndsBlock, OnlyEntry, Stays;
    var lines := SplitLines(content);
    FileReads(content, updates, scan, key);
    ValueOfSpec(updates, key);
    ScanFits(lines);
    if OnlyEntry(scan.entries, key) {
      PrefixReads(lines, scan, Mid(lines, updates), key);
      if Target(lines, scan.entries, key).Some? {
        BeforeEndings(lines, updates, scan, key);
      } else {
        NothingRead(lines, scan, key);
      }
    }
  }

  // ----- Editing again -----

  /** Whether an edit changes anything can be told from passes over the block. */
  lemma ChangesNothingReads(lines: seq<string>, updates: seq<Update>)
    requires ScanLines(lines).Some? && DistinctKeys(updates)
    ensures Edited(lines, updates) == lines <==>
              forall u :: u in updates ==>
                var r := Read(lines, u.key);
                && r.indent.Some?
                && (r.line == None || r.line == Some(ValueText(ItemIndent(ScanLines(lines).value), u.value)))
  {
    hide ScanLines, Edited, Read, ValueText, ItemIndent, Target;
    var scan := ScanLines(lines).value;
    ScanFits(lines);
    EditChangesNothing(lines, updates);
    forall u | u in updates
      ensures var r, target := Read(lines, u.key), Target(lines, scan.entries, u.key);
              && (r.indent.Some? <==> Lookup(scan.entries, u.key).Some?)
              && (target == None <==> r.line == None)
              && (target.Some? ==> target.value < |lines| && r.line == Some(lines[target.value]))
    {
      ReadSpec(lines, u.key);
      if Target(lines, scan.entries, u.key).Some? {
        TargetIsValue(lines, scan.entries, u.key);
      }
    }
  }

  lemma IndentReads(lines: seq<string>)
    requires ScanLines(lines).Some?
    ensures var scan, first := ScanLines(lines).value, Read(lines, "").first;
            if first == None then ItemIndent(scan) == seq(scan.envIndent + 2, i => ' ')
            else Read(lines, first.value).indent == Some(ItemIndent(scan))
  {
    hide ScanLines, Read, Target, ValueLine;
    var scan := ScanLines(lines).value;
    ReadSpec(lines, "");
    if scan.entries != [] {
      ReadSpec(lines, scan.entries[0].key);
      LookupIn(scan.entries, scan.entries[0].key);
    }
  }

  lemma SameReads(a: seq<string>, b: seq<string>, updates: seq<Update>)
    requires ScanLines(a).Some? && ScanLines(b).Some? && DistinctKeys(updates)
    requires ScanLines(a).value.envIndent == ScanLines(b).value.envIndent
    requires forall key :: Read(a, key) == Read(b, key)
    ensures Edited(a, updates) == a <==> Edited(b, updates) == b
  {
    hide ScanLines, Edited, Read, ItemIndent, ValueText;
    ChangesNothingReads(a, updates);
    ChangesNothingReads(b, updates);
    IndentReads(a);
    IndentReads(b);
  }

  /** What is left of the block where value lines do not stay: the lines above the first
      one written, and the name line of the first addition if only additions end it. */
  ghost function LeftOver(lines: seq<string>, updates: seq<Update>): seq<string>
    requires ScanLines(lines).Some?
  {
    var scan, mid := ScanLines(lines).value, Mid(lines, updates);
    var added := Added(scan.entries, updates);
    lines[..mid] + if mid < scan.end || added == [] then [] else [NameText(ItemIndent(scan), added[0].key)]
  }

  lemma OldBlockStays(lines: seq<string>, scan: Scan, mid: nat)
    requires ScanLines(lines) == Some(scan) && scan.env < mid <= scan.end
    ensures scan.end <= |lines|
    ensures forall line :: line in lines[scan.env + 1..mid] ==> !Terminates(line, scan.envIndent)
  {
    hide Terminates, Entries, EnvLine, BlockEnd;
    ScanFits(lines);
    BlockEndSpec(lines, scan.env + 1, scan.envIndent);
  }

  /** Nothing above the first line written is replaced, and no value line is found. */
  lemma AsItWas(lines: seq<string>, updates: seq<Update>, scan: Scan, key: string)
    requires Edits(lines, updates, scan) && !Stays(ItemIndent(scan), scan.envIndent)
    ensures var mid, r := Mid(lines, updates), At(lines, Mid(lines, updates), key);
            && Replaced(lines, updates, mid, key) == r
            && Outcome(lines, updates, key) ==
               if mid == scan.end then AddAll(r, ItemIndent(scan), scan.envIndent, Added(scan.entries, updates), key)
               else r
  {
    hide ScanLines, Mid, EndsBlock, HeadText, ItemIndent, Target, At, AddAll, Stays;
    ScanFits(lines);
    if ValueOf(updates, key).Some? && Target(lines, scan.entries, key).Some? {
      MidBefore(lines, updates, scan, key);
    }
  }

  lemma LeftOverRead(lines: seq<string>, updates: seq<Update>, scan: Scan, key: string)
    requires Edits(lines, updates, scan) && !Stays(ItemIndent(scan), scan.envIndent)
    ensures var left := LeftOver(lines, updates);
            && ScanLines(left).Some? && ScanLines(left).value.envIndent == scan.envIndent
            && Read(left, key) == Outcome(lines, updates, key)
  {
    hide ScanLines, Mid, EndsBlock, NameText, ItemIndent, Read, Step, Terminates, Target, HeadText, Stays;
    var mid, indent, added := Mid(lines, updates), ItemIndent(scan), Added(scan.entries, updates);
    var left := LeftOver(lines, updates);
    var body := lines[scan.env + 1..mid];
    var names := left[mid..];
    assert lines[..scan.env + 1] <= left;
    SameEnv(lines, scan, left);
    ReadIsUntil(left, key);
    assert left[scan.env + 1..] == body + names;
    OldBlockStays(lines, scan, mid);
    UntilConcat(START, body, names, scan.envIndent, key);
    assert Until(START, left[scan.env + 1..], scan.envIndent, key) ==
           Until(At(lines, mid, key), names, scan.envIndent, key);
    AsItWas(lines, updates, scan, key);
    if names != [] {
      AddedSpec(scan.entries, updates);
      assert added[0] in added;
      ItemIndentFits(lines);
      EndsExactly(lines, scan, added[0].value);
      WidthFits(lines, scan, key);
      var named := NamedReader(At(lines, mid, key), indent, scan.envIndent, added[0].key, [], key);
      assert names == [NameText(indent, added[0].key)] + [];
    }
  }

  lemma {:induction false} ReachingAll(indent: string, envIndent: nat, added: seq<Update>)
    ensures var met := Reaching(indent, envIndent, added);
            met == added || exists u :: u in met && EndsBlock(indent, u.value, envIndent)
    decreases |added|
  {
    hide EndsBlock;
    if added != [] {
      ReachingAll(indent, envIndent, added[1..]);
      var met := Reaching(indent, envIndent, added);
      assert added == [added[0]] + added[1..];
      assert added[0] in met;
      if !EndsBlock(indent, added[0].value, envIndent) {
        var later := Reaching(indent, envIndent, added[1..]);
        assert met == [added[0]] + later;
        if u :| u in later && EndsBlock(indent, u.value, envIndent) {
          assert u in met;
        }
      }
    }
  }

  /** Where value lines stay and none has a line break, the file is the edit's fixed point. */
  lemma AllMet(lines: seq<string>, updates: seq<Update>, scan: Scan)
    requires Edits(lines, updates, scan) && EntriesFit(lines, scan.entries)
    requires Stays(ItemIndent(scan), scan.envIndent)
    requires forall u :: u in updates && IsWritten(lines, scan.entries, u.key) ==> OneLine(u.value)
    ensures Mid(lines, updates) == scan.end
    ensures Reaching(ItemIndent(scan), scan.envIndent, Added(scan.entries, updates)) == Added(scan.entries, updates)
  {
    hide ScanLines, ItemIndent, Target, Lookup, Stays, EndsBlock;
    var added := Added(scan.entries, updates);
    AddedSpec(scan.entries, updates);
    forall u | u in updates && IsWritten(lines, scan.entries, u.key)
      ensures !EndsBlock(ItemIndent(scan), u.value, scan.envIndent)
    {
      EndsExactly(lines, scan, u.value);
    }
    ReachingAll(ItemIndent(scan), scan.envIndent, added);
  }

  lemma AtIsRead(lines: seq<string>, scan: Scan, key: string)
    requires ScanLines(lines) == Some(scan)
    ensures scan.env < scan.end <= |lines| && At(lines, scan.end, key) == Read(lines, key)
  {
    ScanFits(lines);
  }

  lemma OutcomeIndent(lines: seq<string>, updates: seq<Update>, scan: Scan, key: string)
    requires Edits(lines, updates, scan) && Mid(lines, updates) == scan.end
    requires Reaching(ItemIndent(scan), scan.envIndent, Added(scan.entries, updates)) == Added(scan.entries, updates)
    ensures var r, added := Outcome(lines, updates, key), Added(scan.entries, updates);
            && r.indent == (match Lookup(scan.entries, key)
                            case Some(e) => Some(e.indent)
                            case None => if ValueOf(updates, key).Some? then Some(ItemIndent(scan)) else None)
            && r.first == if scan.entries != [] then Some(scan.entries[0].key)
                          else if added != [] then Some(added[0].key) else None
  {
    hide ScanLines, Mid, EndsBlock, HeadText, ItemIndent, Target, Stays, AddAll, Reaching, Lookup;
    var added := Added(scan.entries, updates);
    AddedSpec(scan.entries, updates);
    ValueOfSpec(updates, key);
    ValueOfSpec(added, key);
    WidthFits(lines, scan, key);
    AddAllSpec(Replaced(lines, updates, scan.end, key), ItemIndent(scan), scan.envIndent, added, key);
    ReadSpec(lines, key);
    AtIsRead(lines, scan, key);
  }

  lemma SameIndent(lines: seq<string>, updates: seq<Update>, scan: Scan, split: seq<string>)
    requires Edits(lines, updates, scan) && Mid(lines, updates) == scan.end
    requires Reaching(ItemIndent(scan), scan.envIndent, Added(scan.entries, updates)) == Added(scan.entries, updates)
    requires ScanLines(split).Some? && ScanLines(split).value.envIndent == scan.envIndent
    requires forall key :: Read(split, key) == Outcome(lines, updates, key)
    ensures ItemIndent(ScanLines(split).value) == ItemIndent(scan)
  {
    hide ScanLines, Read, Outcome, Mid, Reaching;
    IndentReads(split);
    OutcomeIndent(lines, updates, scan, "");
    var added := Added(scan.entries, updates);
    if scan.entries != [] {
      OutcomeIndent(lines, updates, scan, scan.entries[0].key);
      LookupIn(scan.entries, scan.entries[0].key);
    } else if added != [] {
      OutcomeIndent(lines, updates, scan, added[0].key);
      AddedSpec(scan.entries, updates);
      assert added[0] in added;
      ValueOfSpec(updates, added[0].key);
    }
  }

  /** Where no line ends the block, every written value survives. */
  lemma WrittenSurvives(lines: seq<string>, updates: seq<Update>, scan: Scan, u: Update)
    requires Edits(lines, updates, scan) && EntriesFit(lines, scan.entries) && u in updates
    requires Stays(ItemIndent(scan), scan.envIndent) && Mid(lines, updates) == scan.end
    requires var met := Reaching(ItemIndent(scan), scan.envIndent, Added(scan.entries, updates));
             Lookup(scan.entries, u.key) == None ==> u in met
    ensures Survivor(lines, updates, u.key) == if IsWritten(lines, scan.entries, u.key) then Some(u.value) else None
  {
    hide ScanLines, Mid, Stays, ItemIndent, Reaching, At, Lookup, FirstValue;
    ValueOfSpec(updates, u.key);
    AddedSpec(scan.entries, updates);
    ReachingHas(ItemIndent(scan), scan.envIndent, Added(scan.entries, updates), u.key);
    if Target(lines, scan.entries, u.key).Some? {
      AtTarget(lines, u.key, u.key);
    }
  }

  lemma LineWritten(lines: seq<string>, updates: seq<Update>, scan: Scan, u: Update)
    requires Edits(lines, updates, scan) && EntriesFit(lines, scan.entries) && u in updates
    requires Stays(ItemIndent(scan), scan.envIndent) && Mid(lines, updates) == scan.end
    requires Reaching(ItemIndent(scan), scan.envIndent, Added(scan.entries, updates)) == Added(scan.entries, updates)
    requires IsWritten(lines, scan.entries, u.key) ==> OneLine(u.value)
    ensures var line := Outcome(lines, updates, u.key).line;
            line == None || line == Some(ValueText(ItemIndent(scan), u.value))
  {
    hide ScanLines, Outcome, Mid, Stays, ItemIndent, Target, Survivor, Quote, Pieces, At, Read, Reaching;
    OutcomeLine(lines, updates, scan, u.key);
    SurvivorIsOwn(lines, updates, scan, u);
    AddedSpec(scan.entries, updates);
    WrittenSurvives(lines, updates, scan, u);
    QuoteIsOneLine(u.value);
    FirstLineIsAll(Quote(u.value));
    AtIsRead(lines, scan, u.key);
    ReadSpec(lines, u.key);
  }

  /** Where value lines stay and no line break was written, a second run changes nothing. */
  lemma StableIfOneLine(content: string, updates: seq<Update>, scan: Scan)
    requires Edits(SplitLines(content), updates, scan) && EntriesFit(SplitLines(content), scan.entries)
    requires Stays(ItemIndent(scan), scan.envIndent)
    requires forall u :: u in updates && IsWritten(SplitLines(content), scan.entries, u.key) ==> OneLine(u.value)
    ensures var split := SplitLines(TextAfter(content, updates));
            ScanLines(split).Some? && Edited(split, updates) == split
  {
    hide ScanLines, SplitLines, TextAfter, Edited, Read, Outcome, Quiet, Mid, Reaching, Stays, ItemIndent, Target;
    hide Lookup, ValueText;
    var lines, split := SplitLines(content), SplitLines(TextAfter(content, updates));
    AllMet(lines, updates, scan);
    OneLineIsQuiet(lines, updates, "");
    FileRead(content, updates, scan, "");
    forall key
      ensures Read(split, key) == Outcome(lines, updates, key)
    {
      OneLineIsQuiet(lines, updates, key);
      FileRead(content, updates, scan, key);
    }
    SameIndent(lines, updates, scan, split);
    ChangesNothingReads(split, updates);
    forall u | u in updates
      ensures var r := Read(split, u.key);
              && r.indent.Some?
              && (r.line == None || r.line == Some(ValueText(ItemIndent(scan), u.value)))
    {
      OutcomeIndent(lines, updates, scan, u.key);
      ValueOfSpec(updates, u.key);
      AddedSpec(scan.entries, updates);
      LineWritten(lines, updates, scan, u);
    }
  }

  lemma HeadIsOneLine(indent: string, text: string)
    requires OneLine(indent) && OneLine(text)
    ensures OneLine(ScalarText(indent, text))
  {
  }

  lemma SuffixIsOneLine(a: string, b: string)
    requires OneLine(a + b)
    ensures OneLine(b)
  {
    forall i | 0 <= i < |b|
      ensures !IsBreak(b[i])
    {
      assert (a + b)[|a| + i] == b[i];
    }
  }

  /** A broken value that survives is written again. */
  lemma BrokenChangesAgain(content: string, updates: seq<Update>, scan: Scan, u: Update)
    requires Edits(SplitLines(content), updates, scan) && Quiet(SplitLines(content), updates, u.key) && u in updates
    requires !OneLine(u.value) && Survivor(SplitLines(content), updates, u.key).Some?
    ensures var split := SplitLines(TextAfter(content, updates));
            ScanLines(split).Some? && Edited(split, updates) != split
  {
    hide ScanLines, SplitLines, TextAfter, Edited, Read, Outcome, Quiet, Mid, Stays, ItemIndent, Survivor, Quote;
    var lines, split := SplitLines(content), SplitLines(TextAfter(content, updates));
    FileRead(content, updates, scan, u.key);
    OutcomeLine(lines, updates, scan, u.key);
    SurvivorIsOwn(lines, updates, scan, u);
    ChangesNothingReads(split, updates);
    IndentIsOneLine(lines);
    FirstLineIsAll(Quote(u.value));
    QuoteIsOneLine(u.value);
    var indent' := ItemIndent(ScanLines(split).value);
    HeadIsOneLine(ItemIndent(scan), FirstLine(Quote(u.value)));
    if OneLine(ValueText(indent', u.value)) {
      assert (indent' + "  value: ") + Quote(u.value) == ValueText(indent', u.value);
      SuffixIsOneLine(indent' + "  value: ", Quote(u.value));
    }
  }

  lemma MidOwner(lines: seq<string>, updates: seq<Update>, scan: Scan) returns (v: Update)
    requires ScanLines(lines) == Some(scan) && EntriesFit(lines, scan.entries) && Mid(lines, updates) < scan.end
    ensures v in updates && Target(lines, scan.entries, v.key) == Some(Mid(lines, updates))
    ensures EndsBlock(ItemIndent(scan), v.value, scan.envIndent)
  {
    hide ScanLines, EndsBlock, ItemIndent, Target;
    v :| && v in updates && Target(lines, scan.entries, v.key) == Some(Mid(lines, updates))
         && EndsBlock(ItemIndent(scan), v.value, scan.envIndent);
  }

  lemma OwnerSurvives(lines: seq<string>, updates: seq<Update>, scan: Scan, v: Update)
    requires Edits(lines, updates, scan) && EntriesFit(lines, scan.entries) && v in updates
    requires Stays(ItemIndent(scan), scan.envIndent)
    requires Target(lines, scan.entries, v.key) == Some(Mid(lines, updates))
    ensures Survivor(lines, updates, v.key).Some?
  {
    hide ScanLines, Mid, Stays, ItemIndent, Target;
    ValueOfSpec(updates, v.key);
  }

  /** Where value lines stay and a line break is written, some broken value survives: the
      first one that ends the block does. */
  lemma SomeBrokenSurvives(lines: seq<string>, updates: seq<Update>, scan: Scan, u: Update) returns (v: Update)
    requires Edits(lines, updates, scan) && EntriesFit(lines, scan.entries) && u in updates
    requires Stays(ItemIndent(scan), scan.envIndent) && IsWritten(lines, scan.entries, u.key) && !OneLine(u.value)
    ensures v in updates && !OneLine(v.value) && Survivor(lines, updates, v.key).Some?
  {
    hide ScanLines, Mid, Stays, ItemIndent, At, Lookup, FirstValue, EndsBlock, Target, Survivor;
    var indent, added := ItemIndent(scan), Added(scan.entries, updates);
    var met := Reaching(indent, scan.envIndent, added);
    AddedSpec(scan.entries, updates);
    if Mid(lines, updates) < scan.end {
      v := MidOwner(lines, updates, scan);
      EndsExactly(lines, scan, v.value);
      OwnerSurvives(lines, updates, scan, v);
    } else {
      ReachingAll(indent, scan.envIndent, added);
      if Lookup(scan.entries, u.key) == None && u !in met {
        v :| v in met && EndsBlock(indent, v.value, scan.envIndent);
        EndsExactly(lines, scan, v.value);
        ReachingHas(indent, scan.envIndent, added, v.key);
        assert v in added;
      } else {
        v := u;
      }
      WrittenSurvives(lines, updates, scan, v);
    }
  }

  lemma NotStayingIsQuiet(lines: seq<string>, updates: seq<Update>, scan: Scan)
    requires ScanLines(lines) == Some(scan) && !Stays(ItemIndent(scan), scan.envIndent)
    ensures forall key :: Quiet(lines, updates, key)
  {
    hide ScanLines, Stays, ItemIndent;
  }

  lemma UnchangedIsFixed(text: string, updates: seq<Update>)
    requires ScanLines(SplitLines(text)).Some?
    ensures Persist(text, updates).Unchanged? <==> Edited(SplitLines(text), updates) == SplitLines(text)
  {
    hide ScanLines, SplitLines, Edited, UpdatedKeys, Strip;
    NotBlank(text);
  }

  /** A second run with the same updates changes nothing exactly if no line break was
      written, where value lines stay in the block; and elsewhere exactly if the edit
      leaves unchanged what is left of the block. */
  lemma FileIsStableExactly(content: string, updates: seq<Update>, scan: Scan)
    requires Edits(SplitLines(content), updates, scan) && EntriesFit(SplitLines(content), scan.entries)
    requires forall u :: u in updates ==> Quiet(SplitLines(content), updates, u.key)
    ensures var lines := SplitLines(content);
            Persist(TextAfter(content, updates), updates).Unchanged? <==>
              if Stays(ItemIndent(scan), scan.envIndent) then
                forall u :: u in updates && IsWritten(lines, scan.entries, u.key) ==> OneLine(u.value)
              else Edited(LeftOver(lines, updates), updates) == LeftOver(lines, updates)
  {
    hide ScanLines, SplitLines, TextAfter, Edited, Read, Outcome, Mid, Stays, ItemIndent, Survivor, LeftOver, Target;
    hide Quiet, OneLine, IsWritten, Persist;
    var lines, split := SplitLines(content), SplitLines(TextAfter(content, updates));
    if !Stays(ItemIndent(scan), scan.envIndent) {
      NotStayingIsQuiet(lines, updates, scan);
      FileRead(content, updates, scan, "");
      LeftOverRead(lines, updates, scan, "");
      forall key
        ensures Read(split, key) == Read(LeftOver(lines, updates), key)
      {
        FileRead(content, updates, scan, key);
        LeftOverRead(lines, updates, scan, key);
      }
      SameReads(split, LeftOver(lines, updates), updates);
    } else if u :| u in updates && IsWritten(lines, scan.entries, u.key) && !OneLine(u.value) {
      var v := SomeBrokenSurvives(lines, updates, scan, u);
      BrokenChangesAgain(content, updates, scan, v);
    } else {
      StableIfOneLine(content, updates, scan);
    }
    UnchangedIsFixed(TextAfter(content, updates), updates);
  }

  // ----- Three files -----

  const ENV: string := "env:"

  lemma EnvScans(rest: seq<string>)
    requires forall line :: line in rest ==> !Terminates(line, 0)
    ensures ScanLines([ENV] + rest) == Some(Scan(0, 0, |rest| + 1, Entries([ENV] + rest, 1, |rest| + 1)))
  {
    hide Terminates, Entries;
    var lines := [ENV] + rest;
    StripSpec(ENV);
    assert EnvLine(lines, 0) == 0 && BlankRun(ENV) == 0;
    BlockEndIs(lines, 1, 0, |lines|);
  }

  lemma EmptyEnv(updates: seq<Update>)
    requires DistinctKeys(updates) && forall u :: u in updates ==> IsIdentifier(u.key)
    ensures SplitLines(Assemble([ENV], true)) == [ENV]
    ensures Edits([ENV], updates, Scan(0, 0, 1, [])) && ItemIndent(Scan(0, 0, 1, [])) == "  " && Stays("  ", 0)
  {
    SplitInvertsAssemble([ENV], true);
    EnvScans([]);
    assert [ENV] + [] == [ENV] && Entries([ENV], 1, 1) == [];
    assert seq(2, i => ' ') == "  " && "  "[1..] == " " && " "[1..] == "";
  }

  lemma {:induction false} ReplaceNone(s: string, c: char, text: string)
    requires c !in s
    ensures ReplaceChar(s, c, text) == s
    decreases |s|
  {
    if s != [] {
      assert s == [s[0]] + s[1..];
      ReplaceNone(s[1..], c, text);
    }
  }

  lemma PlainQuote(value: string)
    requires '"' !in value && '\\' !in value
    ensures Quote(value) == "\"" + value + "\""
  {
    ReplaceNone(value, '\\', "\\\\");
    ReplaceNone(value, '"', "\\\"");
  }

  lemma TwoLines(value: string)
    requires value == "a\nb"
    ensures Pieces(Quote(value)) == ["\"a", "b\""] && QuietValue(value, "A")
  {
    hide LineLength, SplitLines;
    PlainQuote(value);
    assert Quote(value) == "\"a" + ("\n" + "b\"");
    SplitFirst("\"a", "b\"");
    PiecesOfLine("\"a");
    PiecesOfLine("b\"");
    assert NameMatch("b\"") == None;
  }

  /** A value with a line feed in the middle: only its first line is read, and the next run
      with the same value writes again. */
  lemma BrokenValueIsLost()
    ensures var u := Update("A", "a\nb");
            var after := TextAfter(Assemble([ENV], true), [u]);
            && ReadEnv(SplitLines(after), "A") == Some("\"a")
            && !Persist(after, [u]).Unchanged?
  {
    hide ScanLines, SplitLines, ReadEnv, Persist, TextAfter, Edited, Pieces, QuietValue, Mid, Reaching;
    var u, scan := Update("A", "a\nb"), Scan(0, 0, 1, []);
    EmptyEnv([u]);
    TwoLines(u.value);
    assert u.value[1] == '\n' && IsBreak('\n');
    assert u in [u] && IsWritten([ENV], [], "A") && Quiet([ENV], [u], "A");
    assert FirstLine(Quote(u.value)) == "\"a";
    var v := SomeBrokenSurvives([ENV], [u], scan, u);
    FileReads(Assemble([ENV], true), [u], scan, "A");
    SurvivorIsOwn([ENV], [u], scan, u);
    FileIsStableExactly(Assemble([ENV], true), [u], scan);
  }

  /** The lines of the file when a value names its own key again. */
  function Renamed(): seq<string> {
    [ENV, NameText("  ", "A"), ScalarText("  ", "\"x"), NameText("  ", "A"), "  \""]
  }

  lemma QuotedPieces(quoted: string)
    requires quoted == "\"x\n  - name: A\n  \""
    ensures Pieces(quoted) == ["\"x", NameText("  ", "A"), "  \""]
  {
    hide LineLength, SplitLines;
    var name := NameText("  ", "A");
    assert name == "  - name: A";
    assert quoted == "\"x" + ("\n" + (name + ("\n" + "  \"")));
    SplitFirst("\"x", name + ("\n" + "  \""));
    SplitFirst(name, "  \"");
    PiecesOfLine("\"x");
    PiecesOfLine(name);
    PiecesOfLine("  \"");
  }

  lemma EditedRenamed(u: Update)
    requires u.key == "A"
    ensures Edited([ENV], [u]) == [ENV, NameText("  ", "A"), ValueText("  ", u.value)]
  {
    hide ScanLines, NameText, ValueText;
    EmptyEnv([u]);
    assert [u][..0] == [];
    assert Added([], []) == [] && Added([], [u]) == [u] && [u][1..] == [];
    assert Overwrite([ENV], [], "  ", []) == [ENV] && Overwrite([ENV], [], "  ", [u]) == [ENV];
    assert Pairs("  ", []) == [] && Pairs("  ", [u]) == [NameText("  ", "A"), ValueText("  ", u.value)];
  }

  lemma TwoBlanks()
    ensures OneLine("  ") && OneLine(ENV)
  {
  }

  lemma FlatRenamed(u: Update)
    requires u == Update("A", "x\n  - name: A\n  ") && Quote(u.value) == "\"x\n  - name: A\n  \""
    ensures Flat(Edited([ENV], [u])) == Renamed()
  {
    hide ScanLines, NameText, ScalarText, LineLength, Edited, SplitLines, Quote, Pieces, OneLine;
    EditedRenamed(u);
    TwoBlanks();
    ValueTextPieces("  ", u.value);
    QuotedPieces(Quote(u.value));
    EmptyEnv([u]);
    NameTextIsOneLine("  ", "A");
    PiecesOfLine(NameText("  ", "A"));
    PiecesOfLine(ENV);
    var name, value := NameText("  ", "A"), ValueText("  ", u.value);
    FlatOne(value);
    FlatConcat([name], [value]);
    FlatOne(name);
    FlatConcat([ENV], [name] + [value]);
    FlatOne(ENV);
    assert [ENV, name, value] == [ENV] + ([name] + [value]);
  }

  lemma FoldFour(r: Reader, a: string, b: string, c: string, d: string, key: string)
    ensures Fold(r, [a, b, c, d], key) == Step(Step(Step(Step(r, a, key), b, key), c, key), d, key)
  {
    hide Step;
    assert [a, b, c, d] == [a, b] + [c, d] && [a, b] == [a] + [b] && [c, d] == [c] + [d];
    FoldConcat(r, [a, b], [c, d], key);
    FoldConcat(r, [a], [b], key);
    FoldOne(r, a, key);
    FoldOne(Step(r, a, key), b, key);
    var s := Fold(r, [a, b], key);
    FoldConcat(s, [c], [d], key);
    FoldOne(s, c, key);
    FoldOne(Step(s, c, key), d, key);
  }

  lemma QuoteLine()
    ensures NameMatch("  \"") == None && !ValueMatch("  \"") && !Terminates("  \"", 0)
  {
    assert "  \""[1..] == " \"" && " \""[1..] == "\"";
    assert LStrip("  \"") == "\"";
  }

  lemma RenamedStays()
    ensures var lines := Renamed();
            && NameMatch(lines[1]) == NameMatch(lines[3]) == Some(NameLine("  ", "A"))
            && NameMatch(lines[2]) == NameMatch(lines[4]) == None
            && ValueMatch(lines[2]) && !ValueMatch(lines[4])
            && forall line :: line in lines[1..] ==> !Terminates(line, 0)
  {
    hide NameText, ScalarText, Terminates, NameMatch, ValueMatch;
    NameTextMatches("  ", "A");
    assert "  "[1..] == " " && " "[1..] == "";
    NameTextStays("  ", "A", 0);
    ScalarMatches("  ", "\"x");
    ScalarTerminates("  ", "\"x", 0);
    QuoteLine();
  }

  lemma RenamedShape()
    ensures |Renamed()| == 5 && [ENV] + Renamed()[1..] == Renamed()
  {
  }

  lemma RenamedReads()
    ensures ScanLines(Renamed()).Some? && Read(Renamed(), "A").indent.Some? && Read(Renamed(), "A").line == None
  {
    hide Terminates, NameMatch, ValueMatch, Fold, Renamed;
    var lines := Renamed();
    RenamedStays();
    RenamedShape();
    EnvScans(lines[1..]);
    assert lines[1..5] == [lines[1], lines[2], lines[3], lines[4]];
    FoldFour(START, lines[1], lines[2], lines[3], lines[4], "A");
  }

  lemma RenamedSplit(u: Update)
    requires u == Update("A", "x\n  - name: A\n  ") && Quote(u.value) == "\"x\n  - name: A\n  \""
    ensures SplitLines(TextAfter(Assemble([ENV], true), [u])) == Renamed()
  {
    hide ScanLines, SplitLines, NameText, TextAfter, Edited, ScalarText, Quote, Assemble, Flat;
    EmptyEnv([u]);
    FileLines(Assemble([ENV], true), [u], Scan(0, 0, 1, []));
    FlatRenamed(u);
    assert Renamed()[|Renamed()| - 1] != "";
  }

  lemma SelfQuote(value: string)
    requires value == "x\n  - name: A\n  "
    ensures Quote(value) == "\"x\n  - name: A\n  \"" && !OneLine(value)
  {
    hide Quote;
    assert value[1] == '\n' && IsBreak('\n');
    PlainQuote(value);
  }

  /** A value that names its own key again hides what was written: it never reads back,
      and yet the next run finds nothing to write. */
  lemma NamingItselfSettles(u: Update)
    requires u == Update("A", "x\n  - name: A\n  ")
    ensures !OneLine(u.value) && Persist(TextAfter(Assemble([ENV], true), [u]), [u]).Unchanged?
  {
    hide ScanLines, SplitLines, Persist, Read, Renamed, TextAfter, Edited, Quote, Assemble, OneLine, ValueText;
    SelfQuote(u.value);
    RenamedSplit(u);
    RenamedReads();
    ChangesNothingReads(Renamed(), [u]);
    UnchangedIsFixed(TextAfter(Assemble([ENV], true), [u]), [u]);
  }

  lemma LookupTab()
    ensures Lookup([Entry("A", 1, 2, "\t")], "A") == Some(Entry("A", 1, 2, "\t"))
    ensures Lookup([Entry("A", 1, 2, "\t")], "B") == None
    ensures !Stays("\t", 0)
  {
    assert [Entry("A", 1, 2, "\t")][1..] == [];
  }

  lemma TabScan()
    ensures ScanLines([ENV, NameText("\t", "A")]) == Some(Scan(0, 0, 2, [Entry("A", 1, 2, "\t")]))
  {
    hide Terminates, NameMatch, NameText;
    var lines := [ENV, NameText("\t", "A")];
    NameTextMatches("\t", "A");
    NameTextStays("\t", "A", 0);
    EnvScans([NameText("\t", "A")]);
    assert [ENV] + [NameText("\t", "A")] == lines;
    assert EntryEnd(lines, 2, 2, 1) == 2 && Entries(lines, 2, 2) == [];
    assert Entries(lines, 1, 2) == [Entry("A", 1, 2, "\t")];
  }

  /** An indent that does not keep value lines: one tab, where `env:` is not indented.
      Whatever is added cannot be read. */
  lemma TabDoesNotStay(value: string)
    ensures var content := Assemble([ENV, NameText("\t", "A")], true);
            ReadEnv(SplitLines(TextAfter(content, [Update("B", value)])), "B") == None
  {
    hide ScanLines, SplitLines, ReadEnv, TextAfter, Mid, NameText;
    var lines, updates := [ENV, NameText("\t", "A")], [Update("B", value)];
    var scan := Scan(0, 0, 2, [Entry("A", 1, 2, "\t")]);
    TabScan();
    NameTextIsOneLine("\t", "A");
    SplitInvertsAssemble(lines, true);
    LookupTab();
    NotStayingIsQuiet(lines, updates, scan);
    FileReads(Assemble(lines, true), updates, scan, "B");
    PrefixReads(lines, scan, Mid(lines, updates), "B");
  }
}
