/** Solutions as plain text that people can edit, printed and parsed again. */
module SolutionTextModel {
  import opened Options
  import opened Lists
  import opened Text
  import opened EnvText

  datatype Solution = Solution(title: string, description: string, steps: seq<string>)

  const TITLE := "方案"
  const DESCRIPTION := "说明:"
  const STEPS := "步骤:"

  /** `_as_str(text)[:n]` */
  function Truncate(text: string, n: nat): string {
    var s := Strip(text);
    if |s| <= n then s else s[..n]
  }

  // ----- Lists of short texts -----

  function LStripOf(s: string, c: char): string {
    if s != "" && s[0] == c then LStripOf(s[1..], c) else s
  }

  function CleanItem(text: string): string {
    Strip(LStripOf(LStripOf(Strip(text), '-'), '*'))
  }

  /** The cleaned texts that are long enough. */
  function CleanItems(raw: seq<string>, minLength: nat): seq<string> {
    if raw == [] then []
    else
      var before, text := CleanItems(raw[..|raw| - 1], minLength), CleanItem(raw[|raw| - 1]);
      if |text| >= minLength then before + [text] else before
  }

  /** Each text where it first occurs. */
  function Firsts(items: seq<string>): seq<string> {
    if items == [] then []
    else
      var before, last := Firsts(items[..|items| - 1]), items[|items| - 1];
      if last in before then before else before + [last]
  }

  /** The limit is looked at after an item has been added. */
  function Cap(maxItems: nat): nat {
    if maxItems == 0 then 1 else maxItems
  }

  function NormalizeStringList(raw: seq<string>, maxItems: nat, minLength: nat): seq<string> {
    var all, cap := Firsts(CleanItems(raw, minLength)), Cap(maxItems);
    if |all| <= cap then all else all[..cap]
  }

  predicate IsClean(s: string, minLength: nat) {
    |s| >= minLength && Stripped(s) && (s != "" ==> s[0] != '-' && s[0] != '*')
  }

  // ----- Normal solutions -----

  function NormalizeSolution(s: Solution): Option<Solution> {
    var title, description := Strip(s.title), Strip(s.description);
    if title == "" && description == "" && s.steps == [] then None
    else
      var name := if title != "" then title else if description != "" then description else "建议项";
      Some(Solution(name, description, s.steps))
  }

  function NormalizeSolutions(raw: seq<Solution>): seq<Solution> {
    if raw == [] then []
    else
      var before := NormalizeSolutions(raw[..|raw| - 1]);
      match NormalizeSolution(raw[|raw| - 1])
      case None => before
      case Some(s) => before + [s]
  }

  // ----- Printing -----

  /** The texts that are more than blanks, stripped. */
  function NonBlank(raw: seq<string>): seq<string> {
    if raw == [] then []
    else
      var before, text := NonBlank(raw[..|raw| - 1]), Strip(raw[|raw| - 1]);
      if text != "" then before + [text] else before
  }

  function StepLines(steps: seq<string>): seq<string> {
    seq(|steps|, k requires 0 <= k < |steps| => Decimal(k + 1) + ". " + steps[k])
  }

  function SolutionLines(index: nat, s: Solution): seq<string> {
    var title, description, steps := Strip(s.title), Strip(s.description), NonBlank(s.steps);
    [TITLE + Decimal(index) + ": " + (if title != "" then title else "未命名方案")]
    + (if description != "" then [DESCRIPTION + " " + description] else [])
    + (if steps != [] then [STEPS] + StepLines(steps) else [])
  }

  /** The first n solutions, with an empty line between two. */
  function AllLines(solutions: seq<Solution>, n: nat): seq<string>
    requires n <= |solutions|
  {
    if n == 0 then []
    else AllLines(solutions, n - 1) + (if n > 1 then [""] else []) + SolutionLines(n, solutions[n - 1])
  }

  function SolutionsToText(raw: seq<Solution>): string {
    var solutions := NormalizeSolutions(raw);
    Strip(JoinLines(AllLines(solutions, |solutions|)))
  }

  // ----- Parsing -----

  function DigitRun(s: string): (n: nat)
    ensures n <= |s|
  {
    if s != "" && '0' <= s[0] <= '9' then 1 + DigitRun(s[1..]) else 0
  }

  /** The text after the number and a dot or bracket, or after a dash or star. */
  function StepOf(line: string): Option<string> {
    var n := DigitRun(line);
    if n > 0 && n + 1 < |line| && (line[n] == '.' || line[n] == ')') then Some(Strip(line[n + 1..]))
    else if |line| > 1 && (line[0] == '-' || line[0] == '*') then Some(Strip(line[1..]))
    else None
  }

  /** `s.split(":", 1)[-1]` */
  function AfterColon(s: string): string {
    if ':' !in s then s
    else if s[0] == ':' then s[1..]
    else AfterColon(s[1..])
  }

  function WithoutDescriptionMark(s: string): string {
    if StartsWith(s, DESCRIPTION) then Strip(AfterColon(s)) else s
  }

  /** The text of a line that is no step, without its marks; empty if nothing is left. */
  function TextOf(line: string): string {
    var titled := if StartsWith(line, TITLE) then Strip(AfterColon(line)) else line;
    var text := WithoutDescriptionMark(titled);
    if StartsWith(text, STEPS) then "" else text
  }

  /** Steps and texts, in the order of their lines. */
  datatype Parts = Parts(steps: seq<string>, texts: seq<string>)

  function Sorted(lines: seq<string>): Parts {
    if lines == [] then Parts([], [])
    else
      var before, line := Sorted(lines[..|lines| - 1]), lines[|lines| - 1];
      match StepOf(line)
      case Some(step) => if step != "" then before.(steps := before.steps + [step]) else before
      case None => if TextOf(line) != "" then before.(texts := before.texts + [TextOf(line)]) else before
  }

  function Assembled(parts: Parts): Solution {
    var texts := parts.texts;
    var title := if texts != [] then texts[0] else "执行标准知识库处置步骤";
    var description := if |texts| > 1 then JoinLines(texts[1..]) else if texts != [] then texts[0] else "";
    Solution(Truncate(title, 120), Truncate(description, 1500), NormalizeStringList(parts.steps, 20, 2))
  }

  function SolutionsFromText(solutionText: string): seq<Solution> {
    var text := Strip(Truncate(solutionText, 6000));
    var lines := NonBlank(SplitLines(text));
    if lines == [] then [] else NormalizeSolutions([Assembled(Sorted(lines))])
  }

  // ----- What survives in a list -----

  lemma {:induction false} LStripOfKeeps(s: string, c: char)
    ensures |LStripOf(s, c)| <= |s|
    ensures |LStripOf(s, c)| == |s| ==> LStripOf(s, c) == s
    ensures LStripOf(s, c) == s <==> s == "" || s[0] != c
    decreases |s|
  {
    if s != "" && s[0] == c {
      LStripOfKeeps(s[1..], c);
    }
  }

  lemma {:induction false} LStripShorter(s: string)
    ensures |LStrip(s)| <= |s|
    decreases |s|
  {
    if s != "" && IsSpace(s[0]) {
      LStripShorter(s[1..]);
    }
  }

  lemma LStripSame(s: string)
    requires |LStrip(s)| == |s|
    ensures LStrip(s) == s
  {
    if s != "" && IsSpace(s[0]) {
      LStripShorter(s[1..]);
    }
  }

  lemma StripShorter(s: string)
    ensures |Strip(s)| <= |s|
    ensures |Strip(s)| == |s| ==> Strip(s) == s
  {
    LStripShorter(s);
    RStripEnd(LStrip(s));
    if |Strip(s)| == |s| {
      assert Strip(s) == LStrip(s);
      LStripSame(s);
    }
  }

  /** Cleaning leaves a text alone exactly when it is clean. */
  lemma CleanItemExactly(s: string)
    ensures CleanItem(s) == s <==> IsClean(s, 0)
  {
    var a := Strip(s);
    var b := LStripOf(a, '-');
    var c := LStripOf(b, '*');
    StripSpec(s);
    StripShorter(s);
    StripSpec(c);
    StripShorter(c);
    LStripOfKeeps(a, '-');
    LStripOfKeeps(b, '*');
  }

  lemma CleanOne(s: string, minLength: nat)
    ensures |CleanItem(s)| >= minLength && CleanItem(s) == s <==> IsClean(s, minLength)
  {
    CleanItemExactly(s);
  }

  lemma StripBlanks(s: string)
    requires s != "" && Stripped(s)
    ensures Strip(" " + s) == s && Strip(" " + s + " ") == s
  {
    StripSpec(s);
    assert (" " + s)[1..] == s && LStrip(s) == s;
    var both := " " + s + " ";
    assert both[1..] == s + " " && LStrip(s + " ") == s + " ";
    assert (s + " ")[..|s|] == s;
  }

  lemma StripMarked(mark: char, s: string)
    requires IsClean(s, 1) && mark in {'-', '*'}
    ensures Strip([mark] + " " + s) == [mark] + " " + s
    ensures LStripOf([mark] + " " + s, mark) == " " + s
    ensures mark == '*' ==> LStripOf([mark] + " " + s, '-') == [mark] + " " + s
    ensures LStripOf(" " + s, '*') == " " + s
  {
    StripSpec([mark] + " " + s);
    assert ([mark] + " " + s)[1..] == " " + s;
  }

  /** An item loses its mark and the white space around it. */
  lemma MarkedItemIsCleaned(s: string)
    requires IsClean(s, 1)
    ensures CleanItem("- " + s) == s && CleanItem("* " + s) == s && CleanItem(" " + s + " ") == s
  {
    hide Strip, LStripOf, Stripped;
    StripBlanks(s);
    StripMarked('-', s);
    StripMarked('*', s);
    LStripOfKeeps(s, '-');
    LStripOfKeeps(s, '*');
    StripSpec(s);
    assert "- " + s == ['-'] + " " + s && "* " + s == ['*'] + " " + s;
  }

  lemma {:induction false} CleanItemsSpec(raw: seq<string>, minLength: nat)
    ensures |CleanItems(raw, minLength)| <= |raw|
    ensures CleanItems(raw, minLength) == raw <==> forall k :: 0 <= k < |raw| ==> IsClean(raw[k], minLength)
    decreases |raw|
  {
    hide CleanItem, IsClean;
    if raw != [] {
      var n := |raw| - 1;
      var init, last := raw[..n], raw[n];
      assert raw == init + [last];
      CleanItemsSpec(init, minLength);
      CleanOne(last, minLength);
      var items := CleanItems(raw, minLength);
      if items == raw {
        assert CleanItem(last) == last && CleanItems(init, minLength) == init;
        assert forall k :: 0 <= k < n ==> raw[k] == init[k];
      }
    }
  }

  lemma {:induction false} FirstsSpec(items: seq<string>)
    ensures NoRepeats(Firsts(items)) && |Firsts(items)| <= |items|
    ensures forall x :: x in Firsts(items) <==> x in items
    ensures Firsts(items) == items <==> NoRepeats(items)
    decreases |items|
  {
    if items != [] {
      var n := |items| - 1;
      var init, last := items[..n], items[n];
      assert items == init + [last];
      FirstsSpec(init);
      if NoRepeats(items) {
        assert forall a :: 0 <= a < n ==> init[a] == items[a];
        assert last !in init;
      }
    }
  }

  lemma PrefixDistinct(s: seq<string>, n: nat)
    requires NoRepeats(s)
    ensures n <= |s| ==> NoRepeats(s[..n])
  {
  }

  lemma {:induction false} FirstsFull(items: seq<string>)
    requires |Firsts(items)| == |items|
    ensures Firsts(items) == items
    decreases |items|
  {
    if items != [] {
      var n := |items| - 1;
      FirstsSpec(items[..n]);
      FirstsFull(items[..n]);
      assert items == items[..n] + [items[n]];
    }
  }

  /** If as many remain as there were, none was dropped on the way. */
  lemma SameAsAll(raw: seq<string>, items: seq<string>, maxItems: nat)
    requires |items| <= |raw|
    requires raw == (if |Firsts(items)| <= maxItems then Firsts(items) else Firsts(items)[..maxItems])
    ensures raw == items && |raw| <= maxItems
  {
    FirstsSpec(items);
    FirstsFull(items);
  }

  /** A list comes through unchanged exactly when it has no more than the allowed number
      of texts, all different, long enough and clean. */
  lemma ListKeptExactly(raw: seq<string>, maxItems: nat, minLength: nat)
    ensures NormalizeStringList(raw, maxItems, minLength) == raw <==>
              && |raw| <= (if maxItems == 0 then 1 else maxItems) && NoRepeats(raw)
              && forall k :: 0 <= k < |raw| ==>
                   |raw[k]| >= minLength && Stripped(raw[k]) && (raw[k] != "" ==> raw[k][0] != '-' && raw[k][0] != '*')
    ensures |NormalizeStringList(raw, maxItems, minLength)| <= Cap(maxItems)
    ensures NoRepeats(NormalizeStringList(raw, maxItems, minLength))
  {
    hide NoRepeats, Stripped;
    var items := CleanItems(raw, minLength);
    CleanItemsSpec(raw, minLength);
    FirstsSpec(items);
    PrefixDistinct(Firsts(items), Cap(maxItems));
    if NormalizeStringList(raw, maxItems, minLength) == raw {
      assert |Firsts(items)| <= |items| <= |raw|;
      SameAsAll(raw, items, Cap(maxItems));
    }
  }

  // ----- The round trip -----

  /** A nonempty text on one line, without blanks around it. */
  predicate Plain(s: string) {
    s != "" && Stripped(s) && OneLine(s)
  }

  ghost predicate AllPlain(lines: seq<string>) {
    forall k :: 0 <= k < |lines| ==> Plain(lines[k])
  }

  lemma {:induction false} NonBlankKeeps(lines: seq<string>)
    requires AllPlain(lines)
    ensures NonBlank(lines) == lines
    decreases |lines|
  {
    if lines != [] {
      var n := |lines| - 1;
      assert lines == lines[..n] + [lines[n]];
      NonBlankKeeps(lines[..n]);
      StripSpec(lines[n]);
    }
  }

  lemma {:induction false} JoinEnds(lines: seq<string>)
    requires AllPlain(lines) && lines != []
    ensures var text := JoinLines(lines); text != "" && Stripped(text)
    ensures JoinLines(lines)[0] == lines[0][0]
    decreases |lines|
  {
    if |lines| > 1 {
      JoinEnds(lines[1..]);
    }
  }

  /** Printed lines are read back as they were written. */
  lemma ReadBack(lines: seq<string>)
    requires AllPlain(lines) && lines != []
    ensures Strip(JoinLines(lines)) == JoinLines(lines)
    ensures NonBlank(SplitLines(JoinLines(lines))) == lines
  {
    JoinEnds(lines);
    StripSpec(JoinLines(lines));
    assert forall line :: line in lines ==> OneLine(line);
    SplitInvertsAssemble(lines, false);
    assert Assemble(lines, false) == JoinLines(lines);
    NonBlankKeeps(lines);
  }

  lemma StripAfterBlank(s: string)
    requires Plain(s)
    ensures Strip(" " + s) == s
  {
    assert (" " + s)[1..] == s;
    assert LStrip(" " + s) == LStrip(s) == s;
    StripSpec(s);
  }

  lemma {:induction false} DigitRunIs(digits: string, rest: string)
    requires forall i :: 0 <= i < |digits| ==> '0' <= digits[i] <= '9'
    requires rest != "" ==> !('0' <= rest[0] <= '9')
    ensures DigitRun(digits + rest) == |digits|
    decreases |digits|
  {
    if digits == "" {
      assert digits + rest == rest;
    } else {
      assert (digits + rest)[1..] == digits[1..] + rest;
      DigitRunIs(digits[1..], rest);
    }
  }

  lemma NumberIsRead(k: nat, mark: string, step: string)
    requires Plain(step) && mark in {".", ")"}
    ensures StepOf(Decimal(k) + (mark + " " + step)) == Some(step)
  {
    hide Decimal, Strip, Plain;
    var digits, rest := Decimal(k), mark + " " + step;
    DigitRunIs(digits, rest);
    var line := digits + rest;
    assert line[|digits|] == rest[0] && line[|digits| + 1..] == " " + step;
    StripAfterBlank(step);
  }

  lemma ListMarkIsRead(mark: string, step: string)
    requires Plain(step) && mark in {"-", "*"}
    ensures StepOf(mark + " " + step) == Some(step)
  {
    hide Strip, Plain;
    var line := mark + " " + step;
    assert line[0] == mark[0] && line[1..] == " " + step;
    StripAfterBlank(step);
  }

  /** A printed step is recognised, whatever its text; so is one with a bracket, a dash or
      a star. */
  lemma StepIsRead(k: nat, step: string)
    requires Plain(step)
    ensures StepOf(Decimal(k) + ". " + step) == Some(step) && step != ""
    ensures StepOf(Decimal(k) + ") " + step) == Some(step)
    ensures StepOf("- " + step) == Some(step) && StepOf("* " + step) == Some(step)
  {
    hide Decimal, StepOf;
    NumberIsRead(k, ".", step);
    NumberIsRead(k, ")", step);
    ListMarkIsRead("-", step);
    ListMarkIsRead("*", step);
    var digits := Decimal(k);
    assert digits + ". " + step == digits + ("." + " " + step);
    assert digits + ") " + step == digits + (")" + " " + step);
    assert "-" + " " == "- " && "*" + " " == "* ";
  }

  /** A line that begins otherwise is no step, nor is a mark alone. */
  lemma OtherLinesAreNoSteps(line: string)
    requires line == "" || !('0' <= line[0] <= '9' || line[0] == '-' || line[0] == '*')
    ensures StepOf(line) == None && StepOf("-") == None && StepOf("*") == None
  {
  }

  lemma {:induction false} AfterColonIs(head: string, rest: string)
    requires ':' !in head
    ensures AfterColon(head + ":" + rest) == rest
    decreases |head|
  {
    var s := head + ":" + rest;
    assert s[|head|] == ':';
    if head == "" {
      assert s[1..] == rest;
    } else {
      assert s[0] == head[0] && s[1..] == head[1..] + ":" + rest;
      AfterColonIs(head[1..], rest);
    }
  }

  /** What is left of a title or description line, once its first mark is gone. */
  function Left(text: string): string {
    if StartsWith(text, STEPS) then "" else text
  }

  lemma TitleIsRead(index: nat, title: string)
    requires Plain(title)
    ensures var line := TITLE + Decimal(index) + ": " + title;
            StepOf(line) == None && TextOf(line) == Left(WithoutDescriptionMark(title))
  {
    var digits := Decimal(index);
    var line := TITLE + digits + ": " + title;
    assert line[0] == TITLE[0] == '方';
    assert line[..2] == TITLE;
    assert StartsWith(line, TITLE);
    assert ':' !in TITLE + digits;
    assert line == (TITLE + digits) + ":" + (" " + title);
    AfterColonIs(TITLE + digits, " " + title);
    StripAfterBlank(title);
  }

  lemma DescriptionIsRead(description: string)
    requires Plain(description)
    ensures var line := DESCRIPTION + " " + description;
            StepOf(line) == None && TextOf(line) == Left(description)
  {
    var line := DESCRIPTION + " " + description;
    assert line[0] == '说' && DESCRIPTION == "说明" + ":";
    assert line[..3] == DESCRIPTION;
    assert TITLE[0] == '方';
    assert StartsWith(line, DESCRIPTION) && !StartsWith(line, TITLE);
    assert line == "说明" + ":" + (" " + description);
    AfterColonIs("说明", " " + description);
    StripAfterBlank(description);
  }

  lemma StepsMarkIsSkipped()
    ensures StepOf(STEPS) == None && TextOf(STEPS) == ""
  {
    assert STEPS[0] == '步' && TITLE[0] == '方' && DESCRIPTION[0] == '说';
  }

  /** Reading more lines that are all steps adds their texts. */
  lemma {:induction false} StepsAreRead(head: seq<string>, steps: seq<string>)
    requires AllPlain(steps)
    ensures Sorted(head + StepLines(steps)) == Parts(Sorted(head).steps + steps, Sorted(head).texts)
    decreases |steps|
  {
    hide StepOf, TextOf, Plain, Decimal;
    if steps == [] {
      assert head + StepLines(steps) == head;
    } else {
      var n := |steps| - 1;
      var init, lines := steps[..n], head + StepLines(steps);
      assert StepLines(steps)[..n] == StepLines(init);
      assert lines[..|lines| - 1] == head + StepLines(init);
      assert lines[|lines| - 1] == Decimal(n + 1) + ". " + steps[n];
      StepsAreRead(head, init);
      assert AllPlain(steps) && Plain(steps[n]);
      StepIsRead(n + 1, steps[n]);
      assert steps == init + [steps[n]];
    }
  }

  function Kept(text: string): seq<string> {
    if text != "" then [text] else []
  }

  ghost predicate PlainSolution(s: Solution) {
    Plain(s.title) && (s.description == "" || Plain(s.description)) && AllPlain(s.steps)
  }

  /** The lines of a solution of plain texts. */
  function Block(index: nat, s: Solution): seq<string> {
    [TITLE + Decimal(index) + ": " + s.title]
    + (if s.description != "" then [DESCRIPTION + " " + s.description] else [])
    + (if s.steps != [] then [STEPS] + StepLines(s.steps) else [])
  }

  function PrintedLines(s: Solution): seq<string> {
    Block(1, s)
  }

  lemma NothingIsStripped()
    ensures Stripped("")
  {
  }

  lemma PlainIsNormal(index: nat, s: Solution)
    requires PlainSolution(s)
    ensures NormalizeSolution(s) == Some(s) && SolutionLines(index, s) == Block(index, s)
  {
    hide Strip, StepLines, NonBlank, Stripped, Decimal;
    StripSpec(s.title);
    StripSpec(s.description);
    NonBlankKeeps(s.steps);
    NothingIsStripped();
  }

  lemma OneIsPrinted(s: Solution)
    requires PlainSolution(s)
    ensures SolutionsToText([s]) == Strip(JoinLines(PrintedLines(s)))
  {
    hide Plain, Stripped, OneLine, Strip, JoinLines, StepLines, NonBlank, SolutionLines, NormalizeSolution;
    hide Block;
    PlainIsNormal(1, s);
    assert [s][..0] == [];
    assert NormalizeSolutions([s]) == [s];
    assert AllLines([s], 0) == [];
    assert AllLines([s], 1) == PrintedLines(s);
  }

  lemma PlainJoins(head: string, s: string)
    requires Plain(head) && Plain(s)
    ensures Plain(head + " " + s)
  {
  }

  lemma StepLineIsPlain(k: nat, step: string)
    requires Plain(step)
    ensures Plain(Decimal(k) + ". " + step)
  {
    var digits := Decimal(k) + ".";
    assert digits[0] == Decimal(k)[0];
    assert forall i :: 0 <= i < |digits| ==> !IsBreak(digits[i]) && !IsSpace(digits[i]);
    PlainJoins(digits, step);
    assert digits + " " + step == Decimal(k) + ". " + step;
  }

  lemma MarksArePlain(index: nat)
    ensures Plain(STEPS) && Plain(DESCRIPTION) && Plain(TITLE + Decimal(index) + ":")
  {
    var digits, mark := Decimal(index), TITLE + Decimal(index) + ":";
    assert mark[0] == TITLE[0] && mark[|mark| - 1] == ':';
    forall i | 0 <= i < |mark|
      ensures !IsBreak(mark[i])
    {
      assert 2 <= i < 2 + |digits| ==> mark[i] == digits[i - 2];
    }
  }

  lemma BlockIsPlain(index: nat, s: Solution)
    requires PlainSolution(s)
    ensures AllPlain(Block(index, s))
  {
    hide Decimal;
    MarksArePlain(index);
    PlainJoins(TITLE + Decimal(index) + ":", s.title);
    assert TITLE + Decimal(index) + ": " + s.title == TITLE + Decimal(index) + ":" + " " + s.title;
    if s.description != "" {
      PlainJoins(DESCRIPTION, s.description);
    }
    forall k | 0 <= k < |s.steps|
      ensures Plain(StepLines(s.steps)[k])
    {
      StepLineIsPlain(k + 1, s.steps[k]);
    }
  }

  lemma TextIsSorted(lines: seq<string>, line: string)
    requires StepOf(line) == None
    ensures Sorted(lines + [line]) == Parts(Sorted(lines).steps, Sorted(lines).texts + Kept(TextOf(line)))
  {
    hide StepOf, TextOf;
    assert (lines + [line])[..|lines|] == lines;
  }

  lemma NothingIsSorted()
    ensures Sorted([]) == Parts([], [])
  {
  }

  lemma LeftOfNothing()
    ensures Left("") == ""
  {
  }

  /** What the parser makes of the lines of a printed solution, after others. */
  lemma BlockIsSorted(lines: seq<string>, index: nat, s: Solution)
    requires PlainSolution(s)
    ensures var before, after := Sorted(lines), Sorted(lines + Block(index, s));
            && after.steps == before.steps + s.steps
            && after.texts == before.texts + (Kept(Left(WithoutDescriptionMark(s.title))) + Kept(Left(s.description)))
  {
    hide StepOf, TextOf, Left, WithoutDescriptionMark, Sorted, Plain, StepLines, Decimal;
    var first := TITLE + Decimal(index) + ": " + s.title;
    TitleIsRead(index, s.title);
    TextIsSorted(lines, first);
    var head := lines + [first];
    if s.description != "" {
      var second := DESCRIPTION + " " + s.description;
      DescriptionIsRead(s.description);
      TextIsSorted(head, second);
      head := head + [second];
    } else {
      LeftOfNothing();
    }
    if s.steps != [] {
      StepsMarkIsSkipped();
      TextIsSorted(head, STEPS);
      StepsAreRead(head + [STEPS], s.steps);
      assert lines + Block(index, s) == head + [STEPS] + StepLines(s.steps);
    } else {
      assert lines + Block(index, s) == head;
    }
  }

  lemma PrintedIsSorted(s: Solution)
    requires PlainSolution(s)
    ensures Sorted(PrintedLines(s))
         == Parts(s.steps, Kept(Left(WithoutDescriptionMark(s.title))) + Kept(Left(s.description)))
  {
    hide Sorted, Block, Left, WithoutDescriptionMark;
    NothingIsSorted();
    BlockIsSorted([], 1, s);
    assert [] + PrintedLines(s) == PrintedLines(s);
  }

  lemma ParsedPrinted(s: Solution)
    requires PlainSolution(s) && |SolutionsToText([s])| <= 6000
    ensures var texts := Kept(Left(WithoutDescriptionMark(s.title))) + Kept(Left(s.description));
            SolutionsFromText(SolutionsToText([s])) == NormalizeSolutions([Assembled(Parts(s.steps, texts))])
  {
    hide Sorted, Assembled, NormalizeSolutions;
    var lines := PrintedLines(s);
    OneIsPrinted(s);
    BlockIsPlain(1, s);
    ReadBack(lines);
    PrintedIsSorted(s);
  }

  // ----- Texts within the limit -----

  /** The title is no longer than titles get and not taken for another line. (A title of
      nothing but marks is lost; the description's beginning then becomes the title, and
      may happen to be the same.) */
  predicate TitleSurvives(s: Solution) {
    || (!StartsWith(s.title, DESCRIPTION) && !StartsWith(s.title, STEPS) && |s.title| <= 120)
    || (Left(WithoutDescriptionMark(s.title)) == "" && s.title == Strip(Truncate(s.description, 120)))
  }

  predicate TextsSurvive(s: Solution) {
    s.description != "" && !StartsWith(s.description, STEPS) && |s.description| <= 1500 && TitleSurvives(s)
  }

  ghost predicate StepsSurvive(steps: seq<string>) {
    && |steps| <= 20 && NoRepeats(steps)
    && forall k :: 0 <= k < |steps| ==> IsClean(steps[k], 2)
  }

  lemma TruncateExactly(s: string, n: nat)
    requires Plain(s) && n > 0
    ensures var t := Strip(Truncate(s, n));
            t != "" && |t| <= n && t <= s && (t == s <==> |s| <= n)
  {
    StripSpec(s);
    var t := Truncate(s, n);
    StripShorter(t);
    assert t[0] == s[0];
    assert LStrip(t) == t;
    RStripEnd(t);
    RStripKeepsHead(t);
  }

  lemma {:induction false} LStripOneLine(s: string)
    requires OneLine(s)
    ensures OneLine(LStrip(s))
    decreases |s|
  {
    if s != "" && IsSpace(s[0]) {
      LStripOneLine(s[1..]);
    }
  }

  lemma StripWithin(s: string)
    requires OneLine(s)
    ensures OneLine(Strip(s))
  {
    LStripOneLine(s);
    RStripEnd(LStrip(s));
  }

  lemma MarkGone(title: string)
    requires Plain(title)
    ensures var t := WithoutDescriptionMark(title);
            && (if StartsWith(title, DESCRIPTION) then |t| < |title| else t == title)
            && (t != "" ==> Plain(t))
  {
    if StartsWith(title, DESCRIPTION) {
      var rest := title[3..];
      assert DESCRIPTION == "说明" + ":";
      assert title == "说明" + ":" + rest;
      AfterColonIs("说明", rest);
      StripShorter(rest);
      StripSpec(rest);
      StripWithin(rest);
    }
  }

  lemma DefaultTitle()
    ensures Strip(Truncate("执行标准知识库处置步骤", 120)) == "执行标准知识库处置步骤"
    ensures Strip(Truncate("", 1500)) == ""
  {
    StripSpec("执行标准知识库处置步骤");
  }

  /** The title and description that come back. */
  lemma TextsThatReturn(steps: seq<string>, texts: seq<string>)
    requires texts == [] || (|texts| <= 2 && AllPlain(texts))
    ensures var a := Assembled(Parts(steps, texts));
            NormalizeSolution(a) ==
              if texts == [] then Some(Solution("执行标准知识库处置步骤", "", a.steps))
              else Some(Solution(Strip(Truncate(texts[0], 120)), Strip(Truncate(texts[|texts| - 1], 1500)), a.steps))
  {
    hide Strip, Truncate, NormalizeStringList, Plain;
    if texts == [] {
      DefaultTitle();
    } else {
      TruncateExactly(texts[0], 120);
      TruncateExactly(texts[|texts| - 1], 1500);
      assert |texts| == 2 ==> JoinLines(texts[1..]) == texts[1];
    }
  }

  /** A title that is dropped begins with a mark, unlike the one used instead. */
  lemma NoDefaultTitle(title: string)
    requires Plain(title) && Left(WithoutDescriptionMark(title)) == ""
    ensures title != "执行标准知识库处置步骤"
  {
    MarkGone(title);
    assert DESCRIPTION[0] == '说' && STEPS[0] == '步';
    assert title[0] == DESCRIPTION[0] || title[0] == STEPS[0];
    assert "执行标准知识库处置步骤"[0] == '执';
  }

  lemma TextsKeptExactly(s: Solution)
    requires PlainSolution(s)
    ensures var texts := Kept(Left(WithoutDescriptionMark(s.title))) + Kept(Left(s.description));
            var a := Assembled(Parts(s.steps, texts));
            NormalizeSolution(a) == Some(Solution(s.title, s.description, a.steps)) <==> TextsSurvive(s)
  {
    hide Strip, Truncate, NormalizeStringList, WithoutDescriptionMark, NormalizeSolution, Assembled, Stripped, OneLine;
    var t, d := WithoutDescriptionMark(s.title), s.description;
    var texts := Kept(Left(t)) + Kept(Left(d));
    MarkGone(s.title);
    TextsThatReturn(s.steps, texts);
    if Left(t) == "" {
      NoDefaultTitle(s.title);
    } else {
      TruncateExactly(t, 120);
      TruncateExactly(t, 1500);
    }
    if d != "" {
      TruncateExactly(d, 1500);
      TruncateExactly(d, 120);
    }
  }

  // ----- Texts over the limit -----

  lemma {:induction false} NonBlankJoins(a: seq<string>, b: seq<string>)
    ensures NonBlank(a + b) == NonBlank(a) + NonBlank(b)
    decreases |b|
  {
    if b == [] {
      assert a + b == a;
    } else {
      assert (a + b)[..|a + b| - 1] == a + b[..|b| - 1];
      NonBlankJoins(a, b[..|b| - 1]);
    }
  }

  lemma {:induction false} RStripJoins(a: string, b: string)
    requires a != "" && !IsSpace(a[|a| - 1])
    ensures RStrip(a + b) == if RStrip(b) == "" then a else a + RStrip(b)
    decreases |b|
  {
    if b == "" {
      assert a + b == a;
    } else if IsSpace(b[|b| - 1]) {
      assert (a + b)[..|a + b| - 1] == a + b[..|b| - 1];
      RStripJoins(a, b[..|b| - 1]);
    }
  }

  lemma {:induction false} RStripAllBlank(s: string)
    requires RStrip(s) == ""
    ensures forall i :: 0 <= i < |s| ==> IsSpace(s[i])
    decreases |s|
  {
    if s != "" {
      RStripAllBlank(s[..|s| - 1]);
    }
  }

  /** The lines read from a text that was cut: whole lines, then perhaps the beginning of
      one more. */
  ghost predicate IsCut(lines: seq<string>, seen: seq<string>, m: nat, c: nat)
  {
    m < |lines| && c < |lines[m]| && seen == lines[..m] + Kept(RStrip(lines[m][..c]))
  }

  /** One line, cut. */
  lemma CutOne(line: string, n: nat)
    requires Plain(line) && n <= |line|
    ensures NonBlank(SplitLines(RStrip(line[..n]))) == Kept(RStrip(line[..n]))
  {
    var p := RStrip(line[..n]);
    RStripEnd(line[..n]);
    if p == "" {
      assert SplitLines(p) == [];
    } else {
      assert Plain(p);
      LineLengthIs(p, "");
      assert p + "" == p;
      assert SplitLines(p) == [p];
      NonBlankKeeps([p]);
    }
  }

  lemma CutWithin(lines: seq<string>, n: nat) returns (m: nat, c: nat)
    requires AllPlain(lines) && lines != [] && n <= |lines[0]| && (|lines| == 1 ==> n < |lines[0]|)
    ensures IsCut(lines, Kept(RStrip(lines[0][..n])), m, c)
  {
    var first := lines[0];
    if n < |first| {
      assert lines[..0] == [];
      return 0, n;
    }
    assert first[..n] == first;
    StripSpec(first);
    assert RStrip(first) == first;
    assert Plain(lines[1]) && RStrip(lines[1][..0]) == "";
    assert lines[..1] == [first];
    return 1, 0;
  }

  lemma {:induction false} BlankLine(more: string)
    ensures RStrip("\n" + more) == if RStrip(more) == "" then "" else "\n" + RStrip(more)
    decreases |more|
  {
    if more == "" {
      assert "\n" + more == "\n";
      assert "\n"[..0] == "";
    } else if IsSpace(more[|more| - 1]) {
      assert ("\n" + more)[..|more|] == "\n" + more[..|more| - 1];
      BlankLine(more[..|more| - 1]);
    }
  }

  lemma CutFirst(first: string, more: string)
    requires Plain(first)
    ensures NonBlank(SplitLines(RStrip(first + ("\n" + more)))) == [first] + NonBlank(SplitLines(RStrip(more)))
  {
    hide LineLength, RStrip, Strip;
    RStripJoins(first, "\n" + more);
    NonBlankKeeps([first]);
    BlankLine(more);
    if RStrip("\n" + more) == "" {
      PiecesOfLine(first);
    } else {
      SplitFirstLine(first, RStrip(more));
      NonBlankJoins([first], SplitLines(RStrip(more)));
    }
  }

  lemma {:induction false} CutLines(lines: seq<string>, n: nat) returns (m: nat, c: nat)
    requires AllPlain(lines) && lines != [] && n < |JoinLines(lines)|
    ensures IsCut(lines, NonBlank(SplitLines(RStrip(JoinLines(lines)[..n]))), m, c)
    decreases |lines|
  {
    hide SplitLines, NonBlank, RStrip, Plain;
    var first, text := lines[0], JoinLines(lines);
    if |lines| == 1 || n <= |first| {
      assert text[..n] == first[..n];
      CutOne(first, n);
      m, c := CutWithin(lines, n);
      return;
    }
    var rest := lines[1..];
    var tail := JoinLines(rest);
    assert text == first + "\n" + tail;
    var k := n - |first| - 1;
    m, c := CutLines(rest, k);
    CutFirst(first, tail[..k]);
    assert text[..n] == first + ("\n" + tail[..k]);
    assert lines[..m + 1] == [first] + rest[..m];
    assert lines[m + 1] == rest[m];
    m := m + 1;
  }

  /** Only digits, or digits and a dot: no step. */
  lemma NoStepYet(digits: string, p: string)
    requires forall i :: 0 <= i < |digits| ==> '0' <= digits[i] <= '9'
    requires p == digits || (p == digits + "." && digits != "")
    ensures StepOf(p) == None
  {
    if p == digits {
      assert p == digits + "";
      DigitRunIs(digits, "");
    } else {
      DigitRunIs(digits, ".");
    }
  }

  lemma StripAfterBlankShorter(s: string)
    ensures |Strip(" " + s)| <= |s|
  {
    assert (" " + s)[1..] == s;
    StripShorter(s);
  }

  lemma StepFromPart(digits: string, part: string)
    requires digits != "" && forall i :: 0 <= i < |digits| ==> '0' <= digits[i] <= '9'
    ensures StepOf(digits + ". " + part).Some? ==> |StepOf(digits + ". " + part).value| <= |part|
  {
    var p := digits + ". " + part;
    assert p == digits + (". " + part);
    DigitRunIs(digits, ". " + part);
    assert p[|digits| + 1..] == " " + part;
    StripAfterBlankShorter(part);
  }

  /** A step that was cut comes back shorter, or not at all. */
  lemma CutStep(k: nat, step: string, c: nat)
    requires Plain(step) && c < |Decimal(k) + ". " + step|
    ensures var p := RStrip((Decimal(k) + ". " + step)[..c]);
            StepOf(p).Some? ==> |StepOf(p).value| < |step|
  {
    hide StepOf, Strip, Plain, RStrip;
    var digits := Decimal(k);
    var d, line := |digits|, digits + ". " + step;
    var p := RStrip(line[..c]);
    RStripEnd(line[..c]);
    assert p == line[..|p|];
    if |p| <= d {
      assert p == digits[..|p|];
      NoStepYet(digits[..|p|], p);
    } else if |p| == d + 1 {
      assert p == digits + ".";
      NoStepYet(digits, p);
    } else {
      var part := step[..|p| - d - 2];
      assert p == digits + ". " + part;
      StepFromPart(digits, part);
    }
  }

  lemma CleanItemShorter(s: string)
    ensures |CleanItem(s)| <= |s|
  {
    StripShorter(s);
    LStripOfKeeps(Strip(s), '-');
    LStripOfKeeps(LStripOf(Strip(s), '-'), '*');
    StripShorter(LStripOf(LStripOf(Strip(s), '-'), '*'));
  }

  lemma {:induction false} CleanItemsShorter(raw: seq<string>, minLength: nat)
    ensures |CleanItems(raw, minLength)| <= |raw|
    ensures |CleanItems(raw, minLength)| == |raw| ==>
              forall k :: 0 <= k < |raw| ==> |CleanItems(raw, minLength)[k]| <= |raw[k]|
    decreases |raw|
  {
    hide CleanItem;
    if raw != [] {
      CleanItemsShorter(raw[..|raw| - 1], minLength);
      CleanItemShorter(raw[|raw| - 1]);
    }
  }

  /** Fewer steps, or as many with the last one shorter, never make the same list. */
  lemma FewerStepsDiffer(steps: seq<string>, seen: seq<string>)
    requires steps != [] && |seen| <= |steps|
    requires |seen| == |steps| ==> |seen[|seen| - 1]| < |steps[|steps| - 1]|
    ensures NormalizeStringList(seen, 20, 2) != steps
  {
    var items := CleanItems(seen, 2);
    CleanItemsShorter(seen, 2);
    FirstsSpec(items);
    if NormalizeStringList(seen, 20, 2) == steps {
      SameAsAll(steps, items, 20);
    }
  }

  lemma OneDigit()
    ensures |Decimal(1)| == 1
  {
  }

  lemma {:induction false} JoinedLength(lines: seq<string>, bound: nat)
    requires forall k :: 0 <= k < |lines| ==> |lines[k]| < bound
    ensures |JoinLines(lines)| <= |lines| * bound
    decreases |lines|
  {
    if |lines| > 1 {
      JoinedLength(lines[1..], bound);
    }
  }

  /** Without steps a printed solution is as short as its texts. */
  lemma TextsAreShort(s: Solution)
    requires PlainSolution(s) && |s.title| <= 1500 && |s.description| <= 1500 && s.steps == []
    ensures |SolutionsToText([s])| <= 6000
  {
    hide SolutionsToText, Plain, Decimal;
    OneIsPrinted(s);
    BlockIsPlain(1, s);
    var lines := PrintedLines(s);
    ReadBack(lines);
    OneDigit();
    JoinedLength(lines, 1600);
  }

  ghost function Heading(s: Solution): seq<string> {
    [TITLE + Decimal(1) + ": " + s.title]
    + (if s.description != "" then [DESCRIPTION + " " + s.description] else [])
    + (if s.steps != [] then [STEPS] else [])
  }

  /** No beginning of a heading line reads as a step. */
  lemma HeadingIsNoStep(s: Solution, m: nat, c: nat)
    requires PlainSolution(s) && m < |Heading(s)| && c <= |Heading(s)[m]|
    ensures StepOf(RStrip(Heading(s)[m][..c])) == None
  {
    var line := Heading(s)[m];
    RStripEnd(line[..c]);
    var p := RStrip(line[..c]);
    assert TITLE[0] == '方' && DESCRIPTION[0] == '说' && STEPS[0] == '步';
    assert line[0] == TITLE[0] || line[0] == DESCRIPTION[0] || line[0] == STEPS[0];
    assert p != "" ==> p[0] == line[0];
  }

  lemma HeadingIsPlain(s: Solution, m: nat)
    requires PlainSolution(s) && m < |Heading(s)|
    ensures RStrip(Heading(s)[m]) == Heading(s)[m]
  {
    BlockIsPlain(1, s);
    assert PrintedLines(s)[m] == Heading(s)[m];
    assert Plain(Heading(s)[m]);
    StripSpec(Heading(s)[m]);
  }

  lemma {:induction false} HeadingHasNoSteps(s: Solution, m: nat)
    requires PlainSolution(s) && m <= |Heading(s)|
    ensures Sorted(Heading(s)[..m]).steps == []
  {
    hide StepOf;
    if m > 0 {
      HeadingHasNoSteps(s, m - 1);
      var line := Heading(s)[m - 1];
      HeadingIsNoStep(s, m - 1, |line|);
      HeadingIsPlain(s, m - 1);
      StripSpec(line);
      assert line[..|line|] == line;
      assert Heading(s)[..m][..m - 1] == Heading(s)[..m - 1];
    }
  }

  lemma StepLinesFirst(steps: seq<string>, j: nat)
    requires j < |StepLines(steps)|
    ensures j < |steps| && StepLines(steps)[..j] == StepLines(steps[..j])
    ensures StepLines(steps)[j] == Decimal(j + 1) + ". " + steps[j]
  {
  }

  lemma SortedLast(lines: seq<string>, p: string)
    ensures Sorted(lines + Kept(p)).steps ==
              Sorted(lines).steps +
              (if p != "" && StepOf(p).Some? && StepOf(p).value != "" then [StepOf(p).value] else [])
  {
    hide StepOf, TextOf;
    if p == "" {
      assert lines + Kept(p) == lines;
    } else {
      assert (lines + [p])[..|lines|] == lines;
    }
  }

  lemma CutHeading(s: Solution, m: nat, c: nat)
    requires PlainSolution(s) && m < |Heading(s)| && c <= |Heading(s)[m]|
    ensures Sorted(Heading(s)[..m] + Kept(RStrip(Heading(s)[m][..c]))).steps == []
  {
    hide Heading, StepOf, RStrip;
    var p := RStrip(Heading(s)[m][..c]);
    HeadingHasNoSteps(s, m);
    HeadingIsNoStep(s, m, c);
    SortedLast(Heading(s)[..m], p);
  }

  lemma CutStepLines(s: Solution, j: nat, c: nat)
    requires PlainSolution(s) && j < |s.steps| && c < |Decimal(j + 1) + ". " + s.steps[j]|
    ensures var p := RStrip((Decimal(j + 1) + ". " + s.steps[j])[..c]);
            NormalizeStringList(Sorted(Heading(s) + StepLines(s.steps[..j]) + Kept(p)).steps, 20, 2) != s.steps
  {
    hide Heading, StepOf, NormalizeStringList, StepLines, Sorted, RStrip;
    var p := RStrip((Decimal(j + 1) + ". " + s.steps[j])[..c]);
    var lines := Heading(s) + StepLines(s.steps[..j]);
    StepsAreRead(Heading(s), s.steps[..j]);
    HeadingHasNoSteps(s, |Heading(s)|);
    assert Heading(s)[..|Heading(s)|] == Heading(s);
    CutStep(j + 1, s.steps[j], c);
    SortedLast(lines, p);
    FewerStepsDiffer(s.steps, Sorted(lines + Kept(p)).steps);
  }

  /** The steps read from cut lines are fewer, or the last one is shorter. */
  lemma CutSteps(s: Solution, m: nat, c: nat)
    requires PlainSolution(s) && s.steps != [] && m < |PrintedLines(s)| && c < |PrintedLines(s)[m]|
    ensures var seen := PrintedLines(s)[..m] + Kept(RStrip(PrintedLines(s)[m][..c]));
            NormalizeStringList(Sorted(seen).steps, 20, 2) != s.steps
  {
    hide StepOf, NormalizeStringList, Sorted, RStrip, StepLines;
    var lines, h := PrintedLines(s), |Heading(s)|;
    assert lines == Heading(s) + StepLines(s.steps);
    if m < h {
      assert lines[..m] == Heading(s)[..m] && lines[m] == Heading(s)[m];
      CutHeading(s, m, c);
      FewerStepsDiffer(s.steps, []);
    } else {
      StepLinesFirst(s.steps, m - h);
      assert lines[..m] == Heading(s) + StepLines(s.steps[..m - h]);
      CutStepLines(s, m - h, c);
    }
  }

  lemma OneSolution(s: Solution)
    ensures NormalizeSolutions([s]) == match NormalizeSolution(s) case None => [] case Some(n) => [n]
    ensures NormalizeSolution(s).Some? ==> NormalizeSolution(s).value.steps == s.steps
    ensures NormalizeSolution(s) ==
              if Strip(s.title) != "" then Some(Solution(Strip(s.title), Strip(s.description), s.steps))
              else if Strip(s.description) != "" then
                Some(Solution(Strip(s.description), Strip(s.description), s.steps))
              else if s.steps != [] then Some(Solution("建议项", "", s.steps))
              else None
  {
    assert [s][..0] == [];
  }

  /** Over the limit, steps are lost. */
  lemma OverlongLosesSteps(s: Solution)
    requires PlainSolution(s) && s.steps != [] && |SolutionsToText([s])| > 6000
    ensures SolutionsFromText(SolutionsToText([s])) != [s]
  {
    hide Sorted, JoinLines, NonBlank, SplitLines, NormalizeStringList;
    var lines, text := PrintedLines(s), SolutionsToText([s]);
    OneIsPrinted(s);
    BlockIsPlain(1, s);
    ReadBack(lines);
    JoinEnds(lines);
    var cut := text[..6000];
    StripSpec(text);
    assert Truncate(text, 6000) == cut;
    assert LStrip(cut) == cut;
    var m, c := CutLines(lines, 6000);
    CutSteps(s, m, c);
    var seen := NonBlank(SplitLines(Strip(cut)));
    OneSolution(Assembled(Sorted(seen)));
  }

  ghost predicate Trimmed(lines: seq<string>) {
    forall k :: 0 <= k < |lines| ==> lines[k] != "" && Stripped(lines[k])
  }

  lemma {:induction false} NonBlankIsTrimmed(raw: seq<string>)
    ensures Trimmed(NonBlank(raw))
    decreases |raw|
  {
    hide Strip, Stripped;
    if raw != [] {
      NonBlankIsTrimmed(raw[..|raw| - 1]);
      StripSpec(raw[|raw| - 1]);
    }
  }

  lemma TextOfIsTrimmed(line: string)
    requires Stripped(line)
    ensures Stripped(TextOf(line))
  {
    hide Strip, AfterColon;
    var titled := if StartsWith(line, TITLE) then Strip(AfterColon(line)) else line;
    StripSpec(AfterColon(line));
    StripSpec(AfterColon(titled));
  }

  lemma {:induction false} SortedIsTrimmed(lines: seq<string>)
    requires Trimmed(lines)
    ensures Trimmed(Sorted(lines).texts)
    decreases |lines|
  {
    hide StepOf, TextOf, Stripped;
    if lines != [] {
      SortedIsTrimmed(lines[..|lines| - 1]);
      TextOfIsTrimmed(lines[|lines| - 1]);
    }
  }

  lemma TruncateShortens(text: string, n: nat)
    ensures |Truncate(text, n)| <= n
  {
    hide Strip;
  }

  lemma TruncatedHead(s: string, n: nat)
    requires s != "" && Stripped(s) && n > 0
    ensures Strip(Truncate(s, n)) != ""
  {
    StripSpec(s);
    var t := Truncate(s, n);
    assert t[0] == s[0] && LStrip(t) == t;
    RStripKeepsHead(t);
  }

  lemma AssembledIsShort(parts: Parts)
    requires Trimmed(parts.texts)
    ensures var n := NormalizeSolution(Assembled(parts));
            n.Some? ==>
              && |n.value.title| <= 120 && |n.value.description| <= 1500 && |n.value.steps| <= 20
              && NoRepeats(n.value.steps)
  {
    hide NormalizeStringList, Truncate, Strip, NoRepeats, Stripped;
    var a := Assembled(parts);
    DefaultTitle();
    if parts.texts != [] {
      TruncatedHead(parts.texts[0], 120);
    }
    ListKeptExactly(parts.steps, 20, 2);
    StripShorter(a.title);
    StripShorter(a.description);
    var texts := parts.texts;
    TruncateShortens(if texts != [] then texts[0] else "执行标准知识库处置步骤", 120);
    TruncateShortens(if |texts| > 1 then JoinLines(texts[1..]) else if texts != [] then texts[0] else "", 1500);
  }

  /** Whatever is parsed: at most one solution, with limited texts and steps. */
  lemma ParsedIsShort(text: string)
    ensures |SolutionsFromText(text)| <= 1
    ensures forall s :: s in SolutionsFromText(text) ==>
              |s.title| <= 120 && |s.description| <= 1500 && |s.steps| <= 20 && NoRepeats(s.steps)
  {
    hide Sorted, NonBlank, SplitLines, Strip, Truncate, NormalizeStringList, NormalizeSolution;
    hide NormalizeSolutions, Assembled;
    var lines := NonBlank(SplitLines(Strip(Truncate(text, 6000))));
    var parts := Sorted(lines);
    NonBlankIsTrimmed(SplitLines(Strip(Truncate(text, 6000))));
    SortedIsTrimmed(lines);
    OneSolution(Assembled(parts));
    AssembledIsShort(parts);
  }

  lemma LongTextsAreLost(s: Solution)
    requires PlainSolution(s) && s.steps == [] && |SolutionsToText([s])| > 6000
    ensures SolutionsFromText(SolutionsToText([s])) != [s]
  {
    hide SolutionsToText, Sorted, NonBlank, SplitLines;
    if |s.title| <= 1500 && |s.description| <= 1500 {
      TextsAreShort(s);
    }
    ParsedIsShort(SolutionsToText([s]));
  }

  /** The conditions on the texts, told from their characters. */
  lemma SurvivalByText(s: Solution)
    requires PlainSolution(s)
    ensures TextsSurvive(s) <==>
              && s.description != "" && !("步骤:" <= s.description) && |s.description| <= 1500
              && (|| (!("说明:" <= s.title) && !("步骤:" <= s.title) && |s.title| <= 120)
                  || (&& (|| "步骤:" <= s.title
                          || ("说明:" <= s.title &&
                              (Strip(s.title[3..]) == "" || "步骤:" <= Strip(s.title[3..]))))
                      && s.title == Strip(if |s.description| <= 120 then s.description else s.description[..120])))
    ensures StepsSurvive(s.steps) <==>
              && |s.steps| <= 20
              && (forall i, j :: 0 <= i < j < |s.steps| ==> s.steps[i] != s.steps[j])
              && forall k :: 0 <= k < |s.steps| ==>
                   |s.steps[k]| >= 2 && s.steps[k][0] != '-' && s.steps[k][0] != '*'
  {
    hide Strip;
    StripSpec(s.description);
    if StartsWith(s.title, DESCRIPTION) {
      assert DESCRIPTION == "说明" + ":";
      assert s.title == "说明" + ":" + s.title[3..];
      AfterColonIs("说明", s.title[3..]);
      assert DESCRIPTION[0] == '说' && STEPS[0] == '步';
    }
  }

  /** A solution of single-line texts comes back from its printed form exactly when these
      conditions hold, each of which can be seen before printing. (The second one for the
      title: one of nothing but marks is lost, and the description's beginning, which takes
      its place, happens to be the same.) */
  lemma RoundTripExactly(s: Solution)
    requires PlainSolution(s)
    ensures SolutionsFromText(SolutionsToText([s])) == [s] <==>
              && |SolutionsToText([s])| <= 6000
              && s.description != "" && !("步骤:" <= s.description) && |s.description| <= 1500
              && (|| (!("说明:" <= s.title) && !("步骤:" <= s.title) && |s.title| <= 120)
                  || (&& (|| "步骤:" <= s.title
                          || ("说明:" <= s.title &&
                              (Strip(s.title[3..]) == "" || "步骤:" <= Strip(s.title[3..]))))
                      && s.title == Strip(if |s.description| <= 120 then s.description else s.description[..120])))
              && |s.steps| <= 20
              && (forall i, j :: 0 <= i < j < |s.steps| ==> s.steps[i] != s.steps[j])
              && forall k :: 0 <= k < |s.steps| ==>
                   |s.steps[k]| >= 2 && s.steps[k][0] != '-' && s.steps[k][0] != '*'
  {
    hide SolutionsFromText, SolutionsToText, NormalizeSolution, TextsSurvive, PlainSolution, NormalizeStringList;
    var texts := Kept(Left(WithoutDescriptionMark(s.title))) + Kept(Left(s.description));
    var a := Assembled(Parts(s.steps, texts));
    SurvivalByText(s);
    TextsKeptExactly(s);
    ListKeptExactly(s.steps, 20, 2);
    OneSolution(a);
    if |SolutionsToText([s])| <= 6000 {
      ParsedPrinted(s);
    } else if s.steps != [] {
      OverlongLosesSteps(s);
    } else {
      LongTextsAreLost(s);
    }
  }

  /** White space around a text makes no difference, even where the text is cut. */
  lemma OuterSpaceIsIgnored(text: string)
    ensures SolutionsFromText(text) == SolutionsFromText(Strip(text))
  {
    StripSpec(text);
    StripSpec(Strip(text));
    hide Strip, NormalizeSolutions, Assembled, Sorted, NonBlank, SplitLines;
  }

  // ----- Several solutions -----

  ghost predicate AllPlainSolutions(solutions: seq<Solution>) {
    forall k :: 0 <= k < |solutions| ==> PlainSolution(solutions[k])
  }

  lemma {:induction false} PlainAreNormal(solutions: seq<Solution>)
    requires AllPlainSolutions(solutions)
    ensures NormalizeSolutions(solutions) == solutions
    decreases |solutions|
  {
    hide NormalizeSolution, PlainSolution;
    if solutions != [] {
      var n := |solutions| - 1;
      PlainAreNormal(solutions[..n]);
      PlainIsNormal(1, solutions[n]);
      assert solutions == solutions[..n] + [solutions[n]];
    }
  }

  lemma {:induction false} AllLinesPrefix(init: seq<Solution>, s: Solution, n: nat)
    requires n <= |init|
    ensures AllLines(init + [s], n) == AllLines(init, n)
    decreases n
  {
    hide SolutionLines;
    if n > 0 {
      AllLinesPrefix(init, s, n - 1);
    }
  }

  /** Printed lines are single lines, the first and the last with text. */
  ghost predicate Framed(lines: seq<string>) {
    && lines != [] && Plain(lines[0]) && Plain(lines[|lines| - 1])
    && forall line :: line in lines ==> OneLine(line)
  }

  lemma BlockStarts(index: nat, s: Solution)
    ensures Block(index, s) != []
  {
  }

  lemma EmptyIsOneLine()
    ensures OneLine("")
  {
  }

  lemma {:induction false} AllLinesFramed(solutions: seq<Solution>, n: nat)
    requires AllPlainSolutions(solutions) && 0 < n <= |solutions|
    ensures Framed(AllLines(solutions, n))
    decreases n
  {
    hide SolutionLines, PlainSolution, Stripped, OneLine;
    var s := solutions[n - 1];
    assert PlainSolution(s);
    PlainIsNormal(n, s);
    BlockIsPlain(n, s);
    BlockStarts(n, s);
    var block := Block(n, s);
    hide Block;
    assert Plain(block[0]) && Plain(block[|block| - 1]);
    forall line | line in block
      ensures OneLine(line)
    {
      var k :| 0 <= k < |block| && block[k] == line;
    }
    if n > 1 {
      AllLinesFramed(solutions, n - 1);
      EmptyIsOneLine();
    }
  }

  lemma {:induction false} JoinLast(lines: seq<string>)
    requires lines != [] && lines[|lines| - 1] != ""
    ensures var text, last := JoinLines(lines), lines[|lines| - 1];
            text != "" && text[|text| - 1] == last[|last| - 1]
    decreases |lines|
  {
    if |lines| > 1 {
      JoinLast(lines[1..]);
    }
  }

  lemma {:induction false} JoinFramed(lines: seq<string>)
    requires lines != [] && lines[0] != "" && lines[|lines| - 1] != ""
    ensures var text, last := JoinLines(lines), lines[|lines| - 1];
            text != "" && text[0] == lines[0][0] && text[|text| - 1] == last[|last| - 1]
    decreases |lines|
  {
    if |lines| > 1 {
      JoinLast(lines);
    }
  }

  lemma FramedReadBack(lines: seq<string>)
    requires Framed(lines)
    ensures Strip(JoinLines(lines)) == JoinLines(lines) && JoinLines(lines) != ""
    ensures SplitLines(JoinLines(lines)) == lines
  {
    JoinFramed(lines);
    StripSpec(JoinLines(lines));
    SplitInvertsAssemble(lines, false);
    assert Assemble(lines, false) == JoinLines(lines);
  }

  lemma SeveralArePrinted(solutions: seq<Solution>)
    requires AllPlainSolutions(solutions) && solutions != []
    ensures var lines := AllLines(solutions, |solutions|);
            && SolutionsToText(solutions) == JoinLines(lines)
            && SplitLines(SolutionsToText(solutions)) == lines && Framed(lines)
  {
    hide SplitLines, JoinLines, AllLines, Framed, Strip;
    PlainAreNormal(solutions);
    AllLinesFramed(solutions, |solutions|);
    FramedReadBack(AllLines(solutions, |solutions|));
  }

  lemma BlockByText(index: nat, s: Solution)
    ensures Block(index, s) ==
              ["方案" + Decimal(index) + ": " + s.title]
              + (if s.description != "" then ["说明: " + s.description] else [])
              + (if s.steps != [] then ["步骤:"] else [])
              + seq(|s.steps|, k requires 0 <= k < |s.steps| => Decimal(k + 1) + ". " + s.steps[k])
  {
    hide Decimal;
    assert DESCRIPTION + " " == "说明: ";
  }

  /** `AllLines` with one more solution. */
  lemma OneMoreBlock(init: seq<Solution>, s: Solution)
    requires PlainSolution(s)
    ensures AllLines(init + [s], |init| + 1) ==
              AllLines(init, |init|) + (if init != [] then [""] else []) + Block(|init| + 1, s)
  {
    hide SolutionLines, PlainSolution, Block;
    AllLinesPrefix(init, s, |init|);
    PlainIsNormal(|init| + 1, s);
  }

  /** The lines of a printed list: those of one more solution follow an empty line, with
      the number, the title, the description if there is one, and the numbered steps. */
  lemma OneMoreIsPrinted(init: seq<Solution>, s: Solution)
    requires AllPlainSolutions(init) && PlainSolution(s)
    ensures SplitLines(SolutionsToText(init + [s])) ==
              (if init == [] then [] else SplitLines(SolutionsToText(init)) + [""])
              + (["方案" + Decimal(|init| + 1) + ": " + s.title]
                 + (if s.description != "" then ["说明: " + s.description] else [])
                 + (if s.steps != [] then ["步骤:"] else [])
                 + seq(|s.steps|, k requires 0 <= k < |s.steps| => Decimal(k + 1) + ". " + s.steps[k]))
  {
    hide SplitLines, SolutionsToText, PlainSolution, Decimal, Framed, Block;
    var all := init + [s];
    SeveralArePrinted(all);
    OneMoreBlock(init, s);
    BlockByText(|init| + 1, s);
    if init != [] {
      SeveralArePrinted(init);
    }
    hide AllLines;
  }

  /** All steps and all texts of some solutions, one solution after the other. */
  function Merged(solutions: seq<Solution>): Parts {
    if solutions == [] then Parts([], [])
    else
      var before, s := Merged(solutions[..|solutions| - 1]), solutions[|solutions| - 1];
      Parts(before.steps + s.steps,
            before.texts + (Kept(Left(WithoutDescriptionMark(s.title))) + Kept(Left(s.description))))
  }

  lemma NothingIsLeft()
    ensures NonBlank([]) == [] && NonBlank([""]) == []
  {
    assert [""][..0] == [];
  }

  lemma {:induction false} AllLinesSorted(solutions: seq<Solution>, n: nat)
    requires AllPlainSolutions(solutions) && n <= |solutions|
    ensures Sorted(NonBlank(AllLines(solutions, n))) == Merged(solutions[..n])
    decreases n
  {
    hide SolutionLines, Sorted, PlainSolution, Left, WithoutDescriptionMark, Kept, Block, NonBlank;
    if n == 0 {
      NothingIsSorted();
      NothingIsLeft();
    } else {
      var s, before := solutions[n - 1], AllLines(solutions, n - 1);
      assert PlainSolution(s);
      AllLinesSorted(solutions, n - 1);
      assert solutions[..n][..n - 1] == solutions[..n - 1];
      PlainIsNormal(n, s);
      BlockIsPlain(n, s);
      NonBlankKeeps(Block(n, s));
      NonBlankJoins(before + [""], Block(n, s));
      NonBlankJoins(before, Block(n, s));
      NonBlankJoins(before, [""]);
      NothingIsLeft();
      assert before + [] == before && NonBlank(before) + [] == NonBlank(before);
      BlockIsSorted(NonBlank(before), n, s);
    }
  }

  lemma FramedHasText(lines: seq<string>)
    requires Framed(lines)
    ensures NonBlank(lines) != []
  {
    hide NonBlank;
    var n := |lines| - 1;
    assert lines == lines[..n] + [lines[n]];
    NonBlankJoins(lines[..n], [lines[n]]);
    assert AllPlain([lines[n]]);
    NonBlankKeeps([lines[n]]);
  }

  /** Several printed solutions are read as one: the first text is the title, the other
      texts are the description, and the steps follow each other. */
  lemma SeveralBecomeOne(solutions: seq<Solution>)
    requires AllPlainSolutions(solutions) && solutions != [] && |SolutionsToText(solutions)| <= 6000
    ensures SolutionsFromText(SolutionsToText(solutions)) == NormalizeSolutions([Assembled(Merged(solutions))])
    ensures |solutions| > 1 ==> SolutionsFromText(SolutionsToText(solutions)) != solutions
  {
    hide Sorted, Assembled, NormalizeSolutions, SplitLines, AllLines, Strip, Merged, SolutionsToText, PlainSolution;
    hide NonBlank, JoinLines;
    var text := SolutionsToText(solutions);
    SeveralArePrinted(solutions);
    FramedReadBack(AllLines(solutions, |solutions|));
    AllLinesSorted(solutions, |solutions|);
    assert solutions[..|solutions|] == solutions;
    FramedHasText(AllLines(solutions, |solutions|));
    ParsedIsShort(text);
  }
}

/** The printer and the parser as loops over lines. */
module SolutionText {
  import opened Text
  import opened EnvText
  import opened SolutionTextModel

  lemma {:induction false} FirstsGrow(items: seq<string>, n: nat)
    requires n <= |items|
    ensures Firsts(items[..n]) <= Firsts(items)
    decreases |items|
  {
    if n == |items| {
      assert items[..n] == items;
    } else {
      var init := items[..|items| - 1];
      assert init[..n] == items[..n];
      FirstsGrow(init, n);
    }
  }

  method NormalizeList(raw: seq<string>, maxItems: nat, minLength: nat) returns (unique: seq<string>)
    ensures unique == NormalizeStringList(raw, maxItems, minLength)
  {
    hide CleanItem;
    var items: seq<string> := [];
    for n := 0 to |raw|
      invariant items == CleanItems(raw[..n], minLength)
    {
      assert raw[..n + 1][..n] == raw[..n];
      var text := CleanItem(raw[n]);
      if |text| >= minLength {
        items := items + [text];
      }
    }
    assert raw[..|raw|] == raw;
    unique := [];
    for n := 0 to |items|
      invariant unique == Firsts(items[..n]) && |unique| < Cap(maxItems)
    {
      assert items[..n + 1][..n] == items[..n];
      FirstsGrow(items, n + 1);
      if items[n] !in unique {
        unique := unique + [items[n]];
      }
      if |unique| >= maxItems {
        break;
      }
    }
    assert items[..|items|] == items;
  }

  method NormalizeAll(raw: seq<Solution>) returns (normalized: seq<Solution>)
    ensures normalized == NormalizeSolutions(raw)
  {
    normalized := [];
    for n := 0 to |raw|
      invariant normalized == NormalizeSolutions(raw[..n])
    {
      assert raw[..n + 1][..n] == raw[..n];
      var title, description := Strip(raw[n].title), Strip(raw[n].description);
      if title != "" || description != "" || raw[n].steps != [] {
        var name := if title != "" then title else if description != "" then description else "建议项";
        normalized := normalized + [Solution(name, description, raw[n].steps)];
      }
    }
    assert raw[..|raw|] == raw;
  }

  method KeepNonBlank(raw: seq<string>) returns (kept: seq<string>)
    ensures kept == NonBlank(raw)
  {
    kept := [];
    for n := 0 to |raw|
      invariant kept == NonBlank(raw[..n])
    {
      assert raw[..n + 1][..n] == raw[..n];
      if Strip(raw[n]) != "" {
        kept := kept + [Strip(raw[n])];
      }
    }
    assert raw[..|raw|] == raw;
  }

  /** The printer appends line after line. */
  method AppendSolution(head: seq<string>, index: nat, item: Solution) returns (lines: seq<string>)
    ensures lines == head + SolutionLines(index, item)
  {
    hide Strip, NonBlank, Decimal;
    var title, description := Strip(item.title), Strip(item.description);
    var steps := KeepNonBlank(item.steps);
    lines := head + [TITLE + Decimal(index) + ": " + (if title != "" then title else "未命名方案")];
    if description != "" {
      lines := lines + [DESCRIPTION + " " + description];
    }
    if steps != [] {
      lines := lines + [STEPS];
      ghost var marked := lines;
      for k := 0 to |steps|
        invariant lines == marked + StepLines(steps)[..k]
      {
        lines := lines + [Decimal(k + 1) + ". " + steps[k]];
      }
      assert StepLines(steps)[..|steps|] == StepLines(steps);
    }
  }

  method Print(raw: seq<Solution>) returns (text: string)
    ensures text == SolutionsToText(raw)
  {
    hide Strip, JoinLines, NonBlank, NormalizeSolutions, StepLines;
    var solutions := NormalizeAll(raw);
    var lines: seq<string> := [];
    for n := 0 to |solutions|
      invariant lines == AllLines(solutions, n) && (lines == [] <==> n == 0)
    {
      if lines != [] {
        lines := lines + [""];
      }
      lines := AppendSolution(lines, n + 1, solutions[n]);
    }
    text := Strip(JoinLines(lines));
  }

  lemma NothingToSplit()
    ensures NonBlank(SplitLines("")) == []
  {
  }

  /** The parser sorts lines into steps and texts. */
  method Parse(solutionText: string) returns (solutions: seq<Solution>)
    ensures solutions == SolutionsFromText(solutionText)
  {
    hide Strip, StepOf, Truncate, SplitLines, NonBlank, NormalizeStringList, NormalizeSolutions;
    var text := Strip(Truncate(solutionText, 6000));
    if text == "" {
      NothingToSplit();
      return [];
    }
    var lines := KeepNonBlank(SplitLines(text));
    if lines == [] {
      return [];
    }
    var steps: seq<string> := [];
    var texts: seq<string> := [];
    for n := 0 to |lines|
      invariant Parts(steps, texts) == Sorted(lines[..n])
    {
      var line := lines[n];
      assert lines[..n + 1][..n] == lines[..n];
      var matched := StepOf(line);
      if matched.Some? {
        if matched.value != "" {
          steps := steps + [matched.value];
        }
        continue;
      }
      var cleaned := line;
      if StartsWith(cleaned, TITLE) {
        cleaned := Strip(AfterColon(cleaned));
      }
      if StartsWith(cleaned, DESCRIPTION) {
        cleaned := Strip(AfterColon(cleaned));
      }
      assert TextOf(line) == Left(cleaned);
      if StartsWith(cleaned, STEPS) {
        continue;
      }
      if cleaned != "" {
        texts := texts + [cleaned];
      }
    }
    assert lines[..|lines|] == lines;
    var title := if texts != [] then texts[0] else "执行标准知识库处置步骤";
    var description := if |texts| > 1 then JoinLines(texts[1..]) else if texts != [] then texts[0] else "";
    var list := NormalizeList(steps, 20, 2);
    solutions := NormalizeAll([Solution(Truncate(title, 120), Truncate(description, 1500), list)]);
  }
}
