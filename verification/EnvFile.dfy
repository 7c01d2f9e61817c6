/** Manifest text and its lines. */
module EnvText {

  /** The line boundaries of `str.splitlines`. */
  predicate IsBreak(c: char) {
    var n := c as int;
    0x0a <= n <= 0x0d || 0x1c <= n <= 0x1e || n == 0x85 || n == 0x2028 || n == 0x2029
  }

  predicate OneLine(s: string) {
    forall i :: 0 <= i < |s| ==> !IsBreak(s[i])
  }

  /** Length of the text before the first line boundary. */
  function LineLength(s: string): (n: nat)
    ensures n <= |s| && OneLine(s[..n]) && (n < |s| ==> IsBreak(s[n]))
  {
    if s == [] || IsBreak(s[0]) then 0 else 1 + LineLength(s[1..])
  }

  /** A carriage return and a line feed are one boundary. */
  function BreakWidth(s: string, n: nat): (width: nat)
    requires n < |s|
    ensures 1 <= width <= |s| - n
  {
    if s[n] == '\r' && n + 1 < |s| && s[n + 1] == '\n' then 2 else 1
  }

  function SplitLines(s: string): seq<string>
    decreases |s|
  {
    if s == [] then []
    else
      var n := LineLength(s);
      if n == |s| then [s] else [s[..n]] + SplitLines(s[n + BreakWidth(s, n)..])
  }

  /** Splitting a text of which the first line has at most one character. */
  lemma SplitRest(s: string)
    requires s != []
    ensures LineLength(s) == 0 ==>
              SplitLines(s) == [[]] + SplitLines(s[BreakWidth(s, 0)..])
    ensures LineLength(s) == 1 < |s| ==>
              SplitLines(s) == [[s[0]]] + SplitLines(s[1 + BreakWidth(s, 1)..])
    ensures LineLength(s) == |s| ==> SplitLines(s) == [s]
  {
    assert |s| > 1 ==> s[..1] == [s[0]];
  }

  lemma SplitLetter(c: char)
    requires !IsBreak(c)
    ensures SplitLines([c]) == [[c]]
  {
    assert [c][1..] == [];
    SplitRest([c]);
  }

  lemma SplitAt(c: char)
    ensures SplitLines(['a', c, 'b']) == if IsBreak(c) then [['a'], ['b']] else [['a', c, 'b']]
  {
    hide SplitLines;
    var s := ['a', c, 'b'];
    assert s[1..] == [c, 'b'] && s[1..][1..] == ['b'] && ['b'][1..] == [];
    assert LineLength(s) == 1 + LineLength([c, 'b']);
    assert LineLength(['b']) == 1;
    SplitRest(s);
    SplitLetter('b');
    if IsBreak(c) {
      assert s[2..] == ['b'];
    }
  }

  lemma SplitPair()
    ensures SplitLines(['a', '\r', '\n', 'b']) == [['a'], ['b']]
  {
    hide SplitLines;
    var s := ['a', '\r', '\n', 'b'];
    assert s[1..][0] == '\r';
    assert LineLength(s) == 1 + LineLength(s[1..]) == 1;
    SplitRest(s);
    SplitLetter('b');
    assert s[3..] == ['b'];
  }

  lemma SplitTwice()
    ensures SplitLines(['a', '\n', '\r', 'b']) == [['a'], [], ['b']]
  {
    hide SplitLines;
    var s := ['a', '\n', '\r', 'b'];
    assert s[1..][0] == '\n';
    assert LineLength(s) == 1 + LineLength(s[1..]) == 1;
    SplitRest(s);
    var rest := s[2..];
    assert rest == ['\r', 'b'] && rest[1..] == ['b'];
    SplitRest(rest);
    SplitLetter('b');
  }

  /** Where a text is split: at each of the ten line boundaries, and once at the pair of
      carriage return and line feed. */
  lemma BreaksExactly(c: char)
    ensures SplitLines(['a', c, 'b']) ==
            if c as int in {0x0a, 0x0b, 0x0c, 0x0d, 0x1c, 0x1d, 0x1e, 0x85, 0x2028, 0x2029}
            then [['a'], ['b']] else [['a', c, 'b']]
    ensures SplitLines(['a', '\r', '\n', 'b']) == [['a'], ['b']]
    ensures SplitLines(['a', '\n', '\r', 'b']) == [['a'], [], ['b']]
  {
    hide SplitLines;
    SplitAt(c);
    SplitPair();
    SplitTwice();
  }

  /** `"\n".join(lines)` */
  function JoinLines(lines: seq<string>): string {
    if lines == [] then ""
    else if |lines| == 1 then lines[0]
    else lines[0] + "\n" + JoinLines(lines[1..])
  }

  predicate EndsWithNewline(s: string) {
    s != [] && s[|s| - 1] == '\n'
  }

  function Assemble(lines: seq<string>, trailing: bool): string {
    JoinLines(lines) + (if trailing then "\n" else "")
  }

  lemma {:induction false} LineLengthIs(head: string, rest: string)
    requires OneLine(head) && (rest != [] ==> IsBreak(rest[0]))
    ensures LineLength(head + rest) == |head|
    decreases |head|
  {
    if head == [] {
      assert head + rest == rest;
    } else {
      assert (head + rest)[1..] == head[1..] + rest;
      LineLengthIs(head[1..], rest);
    }
  }

  lemma {:induction false} SplitIsOneLine(s: string)
    ensures forall line :: line in SplitLines(s) ==> OneLine(line)
    decreases |s|
  {
    if s != [] {
      var n := LineLength(s);
      if n < |s| {
        SplitIsOneLine(s[n + BreakWidth(s, n)..]);
      } else {
        assert s[..n] == s;
      }
    }
  }

  /** The lines of a text that stands between two line feeds. */
  function Pieces(s: string): (r: seq<string>)
    ensures r != []
  {
    if s == "" then [""] else SplitLines(s)
  }

  function FirstLine(s: string): string {
    Pieces(s)[0]
  }

  function Flat(lines: seq<string>): seq<string> {
    if lines == [] then [] else Pieces(lines[0]) + Flat(lines[1..])
  }

  lemma {:induction false} FlatConcat(a: seq<string>, b: seq<string>)
    ensures Flat(a + b) == Flat(a) + Flat(b)
    decreases |a|
  {
    if a == [] {
      assert a + b == b;
    } else {
      assert (a + b)[1..] == a[1..] + b;
      FlatConcat(a[1..], b);
    }
  }

  lemma FlatOne(line: string)
    ensures Flat([line]) == Pieces(line)
  {
    assert [line][1..] == [];
  }

  lemma PiecesOfLine(s: string)
    requires OneLine(s)
    ensures Pieces(s) == [s]
  {
    LineLengthIs(s, "");
    assert s + "" == s;
  }

  /** A text is its own first line exactly if it has no line break. */
  lemma FirstLineIsAll(s: string)
    ensures OneLine(FirstLine(s))
    ensures FirstLine(s) == s <==> OneLine(s)
  {
    SplitIsOneLine(s);
    assert FirstLine(s) in Pieces(s);
    if OneLine(s) {
      PiecesOfLine(s);
    }
  }

  lemma {:induction false} FlatOfLines(lines: seq<string>)
    requires forall line :: line in lines ==> OneLine(line)
    ensures Flat(lines) == lines
    decreases |lines|
  {
    if lines != [] {
      PiecesOfLine(lines[0]);
      FlatOfLines(lines[1..]);
    }
  }

  /** A prefix without line breaks becomes part of the first line. */
  lemma PiecesAfter(a: string, b: string)
    requires OneLine(a) && b != ""
    ensures Pieces(a + b) == [a + FirstLine(b)] + Pieces(b)[1..]
  {
    hide IsBreak;
    var n, all := LineLength(b), a + b;
    LineLengthIs(a + b[..n], b[n..]);
    assert (a + b[..n]) + b[n..] == all;
    assert all[..|a| + n] == a + b[..n];
    hide LineLength;
    if n < |b| {
      assert BreakWidth(all, |a| + n) == BreakWidth(b, n);
      assert all[|a| + n + BreakWidth(b, n)..] == b[n + BreakWidth(b, n)..];
    } else {
      assert b[..n] == b;
    }
  }

  /** The text ends in a line break. */
  predicate EndsOpen(s: string) {
    s != "" && IsBreak(s[|s| - 1])
  }

  lemma SplitFirstLine(line: string, rest: string)
    requires OneLine(line)
    ensures SplitLines(line + ("\n" + rest)) == [line] + SplitLines(rest)
  {
    var s := line + ("\n" + rest);
    LineLengthIs(line, "\n" + rest);
    assert s[..|line|] == line && s[|line|] == '\n' && s[|line| + 1..] == rest;
  }

  lemma SplitNext(s: string, n: nat)
    requires LineLength(s) == n < |s|
    ensures SplitLines(s) == [s[..n]] + SplitLines(s[n + BreakWidth(s, n)..])
  {
    hide IsBreak, OneLine;
  }

  lemma WidthBefore(s: string, rest: string, n: nat)
    requires n < |s| && IsBreak(s[n]) && !EndsOpen(s)
    ensures BreakWidth(s + rest, n) == BreakWidth(s, n) < |s| - n
  {
    assert n + 1 < |s| && (s + rest)[n + 1] == s[n + 1];
  }

  lemma JoinCut(s: string, rest: string, n: nat)
    requires n <= |s|
    ensures (s + rest)[..n] == s[..n] && (s + rest)[n..] == s[n..] + rest
  {
  }

  /** What follows a text does not change where its first line ends. */
  lemma LaterBreak(s: string, rest: string)
    requires LineLength(s) < |s| && !EndsOpen(s)
    ensures var n := LineLength(s);
            && n + BreakWidth(s, n) < |s|
            && SplitLines(s + rest) == [s[..n]] + SplitLines(s[n + BreakWidth(s, n)..] + rest)
  {
    var n := LineLength(s);
    hide SplitLines, EndsOpen;
    assert s[..n] + (s[n..] + rest) == s + rest;
    LineLengthIs(s[..n], s[n..] + rest);
    WidthBefore(s, rest, n);
    SplitNext(s + rest, n);
    hide LineLength, BreakWidth, OneLine, IsBreak;
    JoinCut(s, rest, n);
    JoinCut(s, rest, n + BreakWidth(s, n));
  }

  lemma {:induction false} SplitFirst(s: string, rest: string)
    requires !EndsOpen(s)
    ensures SplitLines(s + ("\n" + rest)) == Pieces(s) + SplitLines(rest)
    decreases |s|
  {
    hide LineLength, SplitLines, IsBreak, BreakWidth;
    var n := LineLength(s);
    if n == |s| {
      assert s[..n] == s;
      SplitFirstLine(s, rest);
      PiecesOfLine(s);
    } else {
      var width := BreakWidth(s, n);
      LaterBreak(s, "\n" + rest);
      SplitNext(s, n);
      assert s[n + width..] != "" && s[n + width..][|s| - n - width - 1] == s[|s| - 1];
      SplitFirst(s[n + width..], rest);
    }
  }

  lemma SplitLast(line: string, trailing: bool)
    requires !EndsOpen(line)
    ensures var split := SplitLines(Assemble([line], trailing));
            Flat([line]) == if trailing || line != "" then split else split + [""]
  {
    hide LineLength, EndsOpen;
    FlatOne(line);
    if trailing {
      SplitFirst(line, "");
      assert Assemble([line], true) == line + ("\n" + "");
    } else {
      assert Assemble([line], false) == line;
    }
  }

  /** What a file of these lines is split into: each line at its own breaks, without an
      empty last line that no line feed ends. */
  lemma {:induction false} SplitAssembled(lines: seq<string>, trailing: bool)
    requires lines != [] && forall line :: line in lines ==> !EndsOpen(line)
    ensures var split := SplitLines(Assemble(lines, trailing));
            Flat(lines) == if trailing || lines[|lines| - 1] != "" then split else split + [""]
    decreases |lines|
  {
    hide SplitLines, Pieces, EndsOpen;
    var line, rest := lines[0], lines[1..];
    if rest == [] {
      assert lines == [line];
      SplitLast(line, trailing);
    } else {
      SplitAssembled(rest, trailing);
      SplitFirst(line, Assemble(rest, trailing));
      assert Assemble(lines, trailing) == line + ("\n" + Assemble(rest, trailing));
    }
  }

  /** Splitting gives back the lines that were written. */
  lemma SplitInvertsAssemble(lines: seq<string>, trailing: bool)
    requires forall line :: line in lines ==> OneLine(line)
    requires lines != [] && (trailing || lines[|lines| - 1] != "")
    ensures SplitLines(Assemble(lines, trailing)) == lines
  {
    SplitAssembled(lines, trailing);
    FlatOfLines(lines);
  }
}

/** Lines of a deployment manifest as the env editor reads and writes them. */
module EnvLines {
  import opened Options
  import opened Text
  import opened EnvText

  /** The groups of `^(\s*)-\s+name:\s*([A-Za-z_][A-Za-z0-9_]*)\s*$`. */
  datatype NameLine = NameLine(indent: string, key: string)

  /** Length of the leading run of whitespace. */
  function SpaceRun(s: string): (n: nat)
    ensures n <= |s|
  {
    if s != [] && IsSpace(s[0]) then 1 + SpaceRun(s[1..]) else 0
  }

  /** Length of the leading run of blanks: `len(line) - len(line.lstrip(" "))`. */
  function BlankRun(s: string): (n: nat)
    ensures n <= |s|
  {
    if s != [] && s[0] == ' ' then 1 + BlankRun(s[1..]) else 0
  }

  predicate IsIdentStart(c: char) {
    'A' <= c <= 'Z' || 'a' <= c <= 'z' || c == '_'
  }

  predicate IsIdentChar(c: char) {
    IsIdentStart(c) || '0' <= c <= '9'
  }

  function IdentRun(s: string): (n: nat)
    ensures n <= |s|
  {
    if s != [] && IsIdentChar(s[0]) then 1 + IdentRun(s[1..]) else 0
  }

  predicate IsIdentifier(s: string) {
    s != "" && IsIdentStart(s[0]) && forall i :: 0 <= i < |s| ==> IsIdentChar(s[i])
  }

  predicate AllSpace(s: string) {
    forall i :: 0 <= i < |s| ==> IsSpace(s[i])
  }

  /** The key, and nothing but white space after it. */
  function KeyIn(t: string): Option<string> {
    var k := IdentRun(t);
    if k >= 1 && IsIdentStart(t[0]) && LStrip(t[k..]) == "" then Some(t[..k]) else None
  }

  function KeyAfterDash(r: string): Option<string> {
    var j := SpaceRun(r);
    if j >= 1 && StartsWith(r[j..], "name:") then KeyIn(LStrip(r[j + 5..])) else None
  }

  function NameMatch(line: string): Option<NameLine> {
    var i := SpaceRun(line);
    if i < |line| && line[i] == '-' then
      match KeyAfterDash(line[i + 1..])
      case Some(key) => Some(NameLine(line[..i], key))
      case None => None
    else None
  }

  /** No line feed, except at the end: what `(.*)$` matches. */
  predicate OnOneLine(text: string) {
    forall i :: 0 <= i < |text| - 1 ==> text[i] != '\n'
  }

  /** `^(\s*)value:\s*(.*)$` */
  predicate ValueMatch(line: string) {
    var text := LStrip(line);
    StartsWith(text, "value:") && OnOneLine(LStrip(text[6..]))
  }

  /** The text after `value:` and whitespace. */
  function ReadValue(line: string): string
    requires ValueMatch(line)
  {
    LStrip(LStrip(line)[6..])
  }

  function NameText(indent: string, key: string): string {
    indent + ("- name: " + key)
  }

  function ScalarText(indent: string, text: string): string {
    indent + ("  value: " + text)
  }

  function ReplaceChar(s: string, c: char, text: string): string {
    if s == [] then []
    else (if s[0] == c then text else [s[0]]) + ReplaceChar(s[1..], c, text)
  }

  function Escape(value: string): string {
    ReplaceChar(ReplaceChar(value, '\\', "\\\\"), '"', "\\\"")
  }

  function Quote(value: string): string {
    "\"" + Escape(value) + "\""
  }

  function ValueText(indent: string, value: string): string {
    ScalarText(indent, Quote(value))
  }

  // ----- Quoting -----

  /** The body of a double-quoted YAML scalar (YAML 1.2.2, sections 5.7 and 7.3.1),
      for the two escapes that occur: reads up to the closing quote, which must
      end the text. */
  function Unescape(s: string): Option<string> {
    if s == [] then None
    else if s[0] == '"' then (if |s| == 1 then Some("") else None)
    else if s[0] == '\\' then
      if |s| >= 2 && (s[1] == '\\' || s[1] == '"') then
        match Unescape(s[2..])
        case None => None
        case Some(rest) => Some([s[1]] + rest)
      else None
    else
      match Unescape(s[1..])
      case None => None
      case Some(rest) => Some([s[0]] + rest)
  }

  function Unquote(text: string): Option<string> {
    if text != [] && text[0] == '"' then Unescape(text[1..]) else None
  }

  lemma {:induction false} ReplaceConcat(s: string, t: string, c: char, text: string)
    ensures ReplaceChar(s + t, c, text) == ReplaceChar(s, c, text) + ReplaceChar(t, c, text)
    decreases |s|
  {
    if s == [] {
      assert s + t == t;
    } else {
      assert (s + t)[1..] == s[1..] + t;
      ReplaceConcat(s[1..], t, c, text);
    }
  }

  /** The two replacements escape character by character. */
  lemma EscapeHead(value: string)
    requires value != []
    ensures Escape(value) ==
              (if value[0] == '\\' then "\\\\" else if value[0] == '"' then "\\\"" else [value[0]]) + Escape(value[1..])
  {
    var head := if value[0] == '\\' then "\\\\" else [value[0]];
    var tail := ReplaceChar(value[1..], '\\', "\\\\");
    ReplaceConcat(head, tail, '"', "\\\"");
    if value[0] == '\\' {
      assert head[1..] == "\\" && head[1..][1..] == "";
      assert ReplaceChar(head, '"', "\\\"") == "\\\\";
    } else {
      assert head[1..] == "";
    }
  }

  lemma {:induction false} UnescapeInverts(value: string)
    ensures Unescape(Escape(value) + "\"") == Some(value)
    decreases |value|
  {
    if value == [] {
      assert Escape(value) + "\"" == "\"";
    } else {
      EscapeHead(value);
      UnescapeInverts(value[1..]);
      var rest := Escape(value[1..]) + "\"";
      var all := Escape(value) + "\"";
      if value[0] == '\\' || value[0] == '"' {
        assert all[2..] == rest;
      } else {
        assert all[1..] == rest;
      }
      assert value == [value[0]] + value[1..];
    }
  }

  /** Unquoting undoes quoting, for every value. */
  lemma UnquoteInvertsQuote(value: string)
    ensures Unquote(Quote(value)) == Some(value)
  {
    UnescapeInverts(value);
    assert Quote(value)[1..] == Escape(value) + "\"";
  }

  lemma {:induction false} ReplaceKeeps(s: string, c: char, text: string, x: char)
    requires x != c && x !in text
    ensures x in ReplaceChar(s, c, text) <==> x in s
    decreases |s|
  {
    if s != [] {
      ReplaceKeeps(s[1..], c, text, x);
      assert s == [s[0]] + s[1..];
    }
  }

  lemma QuoteKeeps(value: string, x: char)
    requires x != '\\' && x != '"'
    ensures x in Quote(value) <==> x in value
  {
    ReplaceKeeps(value, '\\', "\\\\", x);
    ReplaceKeeps(ReplaceChar(value, '\\', "\\\\"), '"', "\\\"", x);
  }

  lemma OneLineHas(s: string)
    ensures OneLine(s) <==> forall x :: x in s ==> !IsBreak(x)
  {
    forall i | 0 <= i < |s|
      ensures s[i] in s
    {
    }
  }

  /** Quoting leaves line breaks as they are. */
  lemma QuoteIsOneLine(value: string)
    ensures OneLine(Quote(value)) <==> OneLine(value)
    ensures OnOneLine(Quote(value)) <==> '\n' !in value
    ensures !EndsOpen(Quote(value))
  {
    var quoted := Quote(value);
    forall x | IsBreak(x)
      ensures x in quoted <==> x in value
    {
      QuoteKeeps(value, x);
    }
    assert IsBreak('\n') && quoted[|quoted| - 1] == '"';
    OneLineHas(quoted);
    OneLineHas(value);
  }

  // ----- The lines that are written -----

  lemma {:induction false} SpaceRunOf(indent: string, rest: string)
    requires AllSpace(indent) && rest != [] && !IsSpace(rest[0])
    ensures SpaceRun(indent + rest) == |indent|
    ensures LStrip(indent + rest) == rest
    decreases |indent|
  {
    if indent == [] {
      assert indent + rest == rest;
    } else {
      assert (indent + rest)[1..] == indent[1..] + rest;
      SpaceRunOf(indent[1..], rest);
    }
  }

  lemma {:induction false} SpaceRunIsSpace(s: string)
    ensures AllSpace(s[..SpaceRun(s)])
    decreases |s|
  {
    if s != [] && IsSpace(s[0]) {
      SpaceRunIsSpace(s[1..]);
      assert s[..SpaceRun(s)] == [s[0]] + s[1..][..SpaceRun(s[1..])];
    }
  }

  lemma {:induction false} IdentRunOf(s: string)
    requires forall i :: 0 <= i < |s| ==> IsIdentChar(s[i])
    ensures IdentRun(s) == |s|
    decreases |s|
  {
    if s != [] {
      IdentRunOf(s[1..]);
    }
  }

  lemma NameTextMatches(indent: string, key: string)
    requires AllSpace(indent) && IsIdentifier(key)
    ensures NameMatch(NameText(indent, key)) == Some(NameLine(indent, key))
  {
    var line := NameText(indent, key);
    SpaceRunOf(indent, "- name: " + key);
    var r := line[|indent| + 1..];
    assert r == " " + ("name: " + key);
    SpaceRunOf(" ", "name: " + key);
    assert r[1..] == "name: " + key;
    assert r[1..][..5] == "name:";
    assert r[6..] == " " + key;
    assert !IsSpace(key[0]);
    SpaceRunOf(" ", key);
    IdentRunOf(key);
    assert key[|key|..] == "" && key[..|key|] == key;
  }

  ghost predicate IsKey(key: string) {
    && key != "" && !('0' <= key[0] <= '9')
    && forall i :: 0 <= i < |key| ==>
         'A' <= key[i] <= 'Z' || 'a' <= key[i] <= 'z' || key[i] == '_' || '0' <= key[i] <= '9'
  }

  ghost predicate IsKeyAndBlank(t: string, key: string) {
    IsKey(key) && exists c: string :: AllSpace(c) && t == key + c
  }

  ghost predicate IsNameOf(r: string, key: string) {
    exists a: string, b: string, t: string ::
      a != "" && AllSpace(a) && AllSpace(b) && IsKeyAndBlank(t, key) && r == a + ("name:" + (b + t))
  }

  /** What the pattern for name lines matches, with its two groups: an indent, a dash,
      white space, `name:`, and the key with white space around it. */
  ghost predicate IsNameLine(line: string, indent: string, key: string) {
    AllSpace(indent) && exists r: string :: IsNameOf(r, key) && line == indent + ("-" + r)
  }

  lemma {:induction false} IdentRunBefore(s: string, rest: string)
    requires (forall i :: 0 <= i < |s| ==> IsIdentChar(s[i])) && (rest != "" ==> !IsIdentChar(rest[0]))
    ensures IdentRun(s + rest) == |s|
    decreases |s|
  {
    if s == [] {
      assert s + rest == rest;
    } else {
      assert (s + rest)[1..] == s[1..] + rest;
      IdentRunBefore(s[1..], rest);
    }
  }

  lemma {:induction false} IdentRunHas(s: string)
    ensures var n := IdentRun(s); forall i :: 0 <= i < n ==> IsIdentChar(s[i])
    decreases |s|
  {
    if s != [] && IsIdentChar(s[0]) {
      IdentRunHas(s[1..]);
    }
  }

  lemma {:induction false} LStripAll(s: string)
    requires AllSpace(s)
    ensures LStrip(s) == ""
    decreases |s|
  {
    if s != "" {
      LStripAll(s[1..]);
    }
  }

  lemma {:induction false} Stripping(s: string) returns (a: string)
    ensures AllSpace(a) && s == a + LStrip(s) && |a| == SpaceRun(s)
    ensures LStrip(s) != "" ==> !IsSpace(LStrip(s)[0])
    decreases |s|
  {
    if s != "" && IsSpace(s[0]) {
      var rest := Stripping(s[1..]);
      a := [s[0]] + rest;
    } else {
      a := "";
    }
  }

  lemma {:induction false} LStripIsSuffix(s: string)
    ensures LStrip(s) == s[SpaceRun(s)..]
    decreases |s|
  {
    if s != [] && IsSpace(s[0]) {
      LStripIsSuffix(s[1..]);
    }
  }

  lemma KeyInExactly(t: string, key: string)
    ensures KeyIn(t) == Some(key) <==> IsKeyAndBlank(t, key)
  {
    if KeyIn(t) == Some(key) {
      var k := IdentRun(t);
      IdentRunHas(t);
      var c := Stripping(t[k..]);
      assert c + "" == c && t == t[..k] + t[k..];
    }
    if IsKeyAndBlank(t, key) {
      var c: string :| AllSpace(c) && t == key + c;
      IdentRunBefore(key, c);
      assert t[..|key|] == key && t[|key|..] == c;
      LStripAll(c);
    }
  }

  lemma AfterDashMatches(r: string, key: string)
    requires KeyAfterDash(r) == Some(key)
    ensures IsNameOf(r, key)
  {
    var j := SpaceRun(r);
    var a := Stripping(r);
    var rest := r[j + 5..];
    var b := Stripping(rest);
    var t := LStrip(rest);
    KeyInExactly(t, key);
    hide KeyIn, LStrip, SpaceRun, IsKeyAndBlank;
    assert r == a + r[j..] && r[j..] == "name:" + rest;
    assert r == a + ("name:" + (b + t));
  }

  lemma {:induction false} LStripBehind(b: string, rest: string)
    requires AllSpace(b)
    ensures LStrip(b + rest) == LStrip(rest)
    decreases |b|
  {
    if b == "" {
      assert b + rest == rest;
    } else {
      assert (b + rest)[1..] == b[1..] + rest;
      LStripBehind(b[1..], rest);
    }
  }

  lemma AfterDashIsFound(r: string, a: string, b: string, t: string, key: string)
    requires a != "" && AllSpace(a) && AllSpace(b) && IsKeyAndBlank(t, key) && r == a + ("name:" + (b + t))
    ensures KeyAfterDash(r) == Some(key)
  {
    hide KeyIn, IdentRun;
    KeyInExactly(t, key);
    var tail := "name:" + (b + t);
    SpaceRunOf(a, tail);
    assert r[|a|..] == tail && tail[..5] == "name:" && r[|a| + 5..] == b + t;
    LStripBehind(b, t);
    assert t != "" && !IsSpace(t[0]);
  }

  lemma AfterDashExactly(r: string, key: string)
    ensures KeyAfterDash(r) == Some(key) <==> IsNameOf(r, key)
  {
    hide KeyAfterDash, IsKeyAndBlank;
    if KeyAfterDash(r) == Some(key) {
      AfterDashMatches(r, key);
    }
    if IsNameOf(r, key) {
      var a: string, b: string, t: string :|
        a != "" && AllSpace(a) && AllSpace(b) && IsKeyAndBlank(t, key) && r == a + ("name:" + (b + t));
      AfterDashIsFound(r, a, b, t, key);
    }
  }

  /** The match is the pattern, with its groups. */
  lemma NameMatchExactly(line: string, indent: string, key: string)
    ensures NameMatch(line) == Some(NameLine(indent, key)) <==> IsNameLine(line, indent, key)
  {
    hide KeyAfterDash, IsNameOf;
    if NameMatch(line) == Some(NameLine(indent, key)) {
      var start := Stripping(line);
      var r := line[|start| + 1..];
      AfterDashExactly(r, key);
      assert start == indent && line == indent + ("-" + r);
    }
    if IsNameLine(line, indent, key) {
      var r: string :| IsNameOf(r, key) && line == indent + ("-" + r);
      AfterDashExactly(r, key);
      SpaceRunOf(indent, "-" + r);
      assert line[|indent| + 1..] == r && line[..|indent|] == indent;
    }
  }

  /** What the pattern for value lines matches: the group is on one line. */
  ghost predicate IsValueLine(line: string) {
    exists a: string, b: string, text: string, end: string ::
      && AllSpace(a) && AllSpace(b) && '\n' !in text && (end == "" || end == "\n")
      && line == a + ("value:" + (b + (text + end)))
  }

  lemma MatchIsValueLine(line: string)
    requires ValueMatch(line)
    ensures IsValueLine(line)
  {
    var a := Stripping(line);
    var rest := LStrip(line)[6..];
    var b := Stripping(rest);
    var t := LStrip(rest);
    hide LStrip;
    var n := if t != "" && t[|t| - 1] == '\n' then |t| - 1 else |t|;
    assert t == t[..n] + t[n..] && LStrip(line) == "value:" + rest;
    assert line == a + ("value:" + (b + (t[..n] + t[n..])));
    assert '\n' !in t[..n];
  }

  lemma {:induction false} LStripKeepsOneLine(s: string)
    requires OnOneLine(s)
    ensures OnOneLine(LStrip(s))
    decreases |s|
  {
    if s != "" && IsSpace(s[0]) {
      LStripKeepsOneLine(s[1..]);
    }
  }

  lemma ValueLineMatches(line: string)
    requires IsValueLine(line)
    ensures ValueMatch(line)
  {
    var a: string, b: string, text: string, end: string :|
      && AllSpace(a) && AllSpace(b) && '\n' !in text && (end == "" || end == "\n")
      && line == a + ("value:" + (b + (text + end)));
    var rest := b + (text + end);
    LStripBehind(a, "value:" + rest);
    assert LStrip("value:" + rest) == "value:" + rest && ("value:" + rest)[6..] == rest;
    LStripBehind(b, text + end);
    assert forall i :: 0 <= i < |text| ==> text[i] in text;
    LStripKeepsOneLine(text + end);
  }

  /** The match is the pattern: white space, `value:` and a text on one line. */
  lemma ValueMatchExactly(line: string)
    ensures ValueMatch(line) <==> IsValueLine(line)
  {
    hide ValueMatch, IsValueLine;
    if ValueMatch(line) {
      MatchIsValueLine(line);
    }
    if IsValueLine(line) {
      ValueLineMatches(line);
    }
  }

  /** A `value:` line is found again, with its text, unless a line feed is in the middle. */
  lemma ScalarMatches(indent: string, text: string)
    requires AllSpace(indent) && text != "" && !IsSpace(text[0])
    ensures var line := ScalarText(indent, text);
            && NameMatch(line) == None
            && (ValueMatch(line) <==> OnOneLine(text))
            && (ValueMatch(line) ==> ReadValue(line) == text)
  {
    var line := ScalarText(indent, text);
    var rest := "value: " + text;
    assert line == (indent + "  ") + rest;
    assert AllSpace(indent + "  ");
    SpaceRunOf(indent + "  ", rest);
    assert rest[..6] == "value:";
    assert rest[6..] == " " + text;
    SpaceRunOf(" ", text);
  }

  /** The line written for a value is found again exactly if the value has no line feed. */
  lemma ValueTextMatches(indent: string, value: string)
    requires AllSpace(indent)
    ensures var line := ValueText(indent, value);
            && NameMatch(line) == None
            && (ValueMatch(line) <==> '\n' !in value)
            && (ValueMatch(line) ==> ReadValue(line) == Quote(value))
  {
    QuoteIsOneLine(value);
    ScalarMatches(indent, Quote(value));
  }

  lemma FirstLineHead(s: string)
    requires s != "" && !IsBreak(s[0])
    ensures FirstLine(s) != "" && FirstLine(s)[0] == s[0]
  {
  }

  /** A value with line breaks is written as a `value:` line with the first line of the
      quoted value, and further lines. */
  lemma ValueTextPieces(indent: string, value: string)
    requires OneLine(indent)
    ensures Pieces(ValueText(indent, value)) ==
            [ScalarText(indent, FirstLine(Quote(value)))] + Pieces(Quote(value))[1..]
    ensures FirstLine(Quote(value)) != "" && FirstLine(Quote(value))[0] == '"'
    ensures FirstLine(Quote(value)) == Quote(value) <==> OneLine(value)
    ensures !EndsOpen(ValueText(indent, value))
  {
    var quoted := Quote(value);
    QuoteIsOneLine(value);
    FirstLineIsAll(quoted);
    PiecesAfter(indent + "  value: ", quoted);
    assert (indent + "  value: ") + quoted == ValueText(indent, value);
    assert (indent + "  value: ") + FirstLine(quoted) == ScalarText(indent, FirstLine(quoted));
    FirstLineHead(quoted);
  }

  lemma {:induction false} BlankRunPrefix(indent: string, rest: string)
    requires rest != [] && rest[0] != ' '
    ensures BlankRun(indent + rest) == BlankRun(indent)
    decreases |indent|
  {
    if indent == [] {
      assert indent + rest == rest;
    } else {
      assert (indent + rest)[1..] == indent[1..] + rest;
      BlankRunPrefix(indent[1..], rest);
    }
  }

  lemma {:induction false} BlankRunLonger(indent: string, rest: string)
    ensures BlankRun(indent + rest) >= BlankRun(indent)
    ensures BlankRun(indent) == |indent| ==> BlankRun(indent + rest) == |indent| + BlankRun(rest)
    decreases |indent|
  {
    if indent == [] {
      assert indent + rest == rest;
    } else {
      assert (indent + rest)[1..] == indent[1..] + rest;
      BlankRunLonger(indent[1..], rest);
    }
  }

  lemma {:induction false} BlankRunStops(indent: string, rest: string)
    requires BlankRun(indent) < |indent|
    ensures BlankRun(indent + rest) == BlankRun(indent)
    decreases |indent|
  {
    assert (indent + rest)[0] == indent[0];
    if indent[0] == ' ' {
      assert (indent + rest)[1..] == indent[1..] + rest;
      BlankRunStops(indent[1..], rest);
    }
  }

  /** A name line is its indent, a dash and more. */
  lemma NameMatchIndent(line: string)
    requires NameMatch(line).Some?
    ensures var indent := NameMatch(line).value.indent;
            AllSpace(indent) && BlankRun(line) == BlankRun(indent)
  {
    var i := SpaceRun(line);
    SpaceRunIsSpace(line);
    assert line == line[..i] + line[i..];
    BlankRunPrefix(line[..i], line[i..]);
  }

  lemma ValueIsNoName(line: string)
    requires ValueMatch(line)
    ensures NameMatch(line) == None
  {
    LStripIsSuffix(line);
    assert LStrip(line)[0] == "value:"[0];
  }
}

/** Finding the env block and its entries. */
module EnvScan {
  import opened Options
  import opened Text
  import opened EnvText
  import opened EnvLines

  /** Lines [start, end) belong to the entry `key`. */
  datatype Entry = Entry(key: string, start: nat, end: nat, indent: string)

  /** The first line that reads `env:`, or the end. */
  function EnvLine(lines: seq<string>, from: nat): (k: nat)
    requires from <= |lines|
    ensures from <= k <= |lines|
    decreases |lines| - from
  {
    if from < |lines| && Strip(lines[from]) != "env:" then EnvLine(lines, from + 1) else from
  }

  lemma {:induction false} EnvLineReads(lines: seq<string>, from: nat)
    requires from <= |lines|
    ensures var k := EnvLine(lines, from); k < |lines| ==> Strip(lines[k]) == "env:"
    decreases |lines| - from
  {
    if from < |lines| && Strip(lines[from]) != "env:" {
      EnvLineReads(lines, from + 1);
    }
  }

  lemma {:induction false} NoneBeforeEnv(lines: seq<string>, from: nat)
    requires from <= |lines|
    ensures forall i :: from <= i < EnvLine(lines, from) ==> Strip(lines[i]) != "env:"
    decreases |lines| - from
  {
    hide Strip;
    if from < |lines| && Strip(lines[from]) != "env:" {
      NoneBeforeEnv(lines, from + 1);
    }
  }

  /** A line that ends an env block of this indent. */
  predicate Terminates(line: string, envIndent: nat) {
    var stripped := Strip(line);
    && stripped != "" && !StartsWith(stripped, "#")
    && (BlankRun(line) < envIndent || (BlankRun(line) == envIndent && NameMatch(line) == None))
  }

  function BlockEnd(lines: seq<string>, from: nat, envIndent: nat): (k: nat)
    requires from <= |lines|
    ensures from <= k <= |lines|
    decreases |lines| - from
  {
    if from < |lines| && !Terminates(lines[from], envIndent) then BlockEnd(lines, from + 1, envIndent) else from
  }

  /** Blank, or a comment of any indent. */
  ghost predicate IsComment(line: string) {
    AllSpace(line) || exists a: string, rest: string :: AllSpace(a) && line == a + ("#" + rest)
  }

  lemma CommentStrips(line: string)
    ensures IsComment(line) <==> Strip(line) == "" || StartsWith(Strip(line), "#")
  {
    var a := Stripping(line);
    var t := LStrip(line);
    if t == "" {
      assert a + "" == a;
    } else {
      RStripKeepsHead(t);
      if t[0] == '#' {
        assert t == "#" + t[1..];
      }
    }
    if b: string, rest: string :| AllSpace(b) && line == b + ("#" + rest) {
      LStripBehind(b, "#" + rest);
    }
    if AllSpace(line) {
      LStripAll(line);
    }
  }

  lemma {:induction false} BlankRunIs(n: nat, rest: string)
    requires rest != "" ==> rest[0] != ' '
    ensures BlankRun(seq(n, i => ' ') + rest) == n
    decreases n
  {
    var line := seq(n, i => ' ') + rest;
    if n > 0 {
      assert line[1..] == seq(n - 1, i => ' ') + rest;
      BlankRunIs(n - 1, rest);
    } else {
      assert line == rest;
    }
  }

  /** Which lines end a block, told from their text: none that is blank or a comment; of the
      others any that is shallower than `env:`, and one as deep unless it is a name line. */
  lemma TerminatesExactly(line: string, n: nat, rest: string, envIndent: nat)
    requires line == seq(n, i => ' ') + rest && (rest != "" ==> rest[0] != ' ')
    ensures Terminates(line, envIndent) <==>
              && !AllSpace(line) && !(exists a: string, r: string :: AllSpace(a) && line == a + ("#" + r))
              && (n < envIndent || (n == envIndent && !exists indent, key :: IsNameLine(line, indent, key)))
  {
    assert IsComment(line) <==>
      AllSpace(line) || exists a: string, r: string :: AllSpace(a) && line == a + ("#" + r);
    hide IsNameLine, NameMatch, IsComment;
    CommentStrips(line);
    BlankRunIs(n, rest);
    if NameMatch(line).Some? {
      NameMatchExactly(line, NameMatch(line).value.indent, NameMatch(line).value.key);
    }
    if indent, key :| IsNameLine(line, indent, key) {
      NameMatchExactly(line, indent, key);
    }
  }

  predicate IsNameAt(line: string, width: nat) {
    NameMatch(line).Some? && |NameMatch(line).value.indent| == width
  }

  /** Where the entry ends whose name line is just before `from`. */
  function EntryEnd(lines: seq<string>, from: nat, end: nat, width: nat): (k: nat)
    requires from <= end <= |lines|
    ensures from <= k <= end
    decreases end - from
  {
    if from < end && !IsNameAt(lines[from], width) then EntryEnd(lines, from + 1, end, width) else from
  }

  function Entries(lines: seq<string>, from: nat, end: nat): seq<Entry>
    requires from <= end <= |lines|
    decreases end - from
  {
    if from == end then []
    else
      match NameMatch(lines[from])
      case None => Entries(lines, from + 1, end)
      case Some(name) =>
        var k := EntryEnd(lines, from + 1, end, |name.indent|);
        [Entry(name.key, from, k, name.indent)] + Entries(lines, k, end)
  }

  /** The dictionary keeps the last entry of a key. */
  function Lookup(entries: seq<Entry>, key: string): Option<Entry> {
    if entries == [] then None
    else
      match Lookup(entries[1..], key)
      case Some(e) => Some(e)
      case None => if entries[0].key == key then Some(entries[0]) else None
  }

  /** The first `value:` line in [from, end), or `end`. */
  function FirstValue(lines: seq<string>, from: nat, end: nat): (k: nat)
    requires from <= end <= |lines|
    ensures from <= k <= end
    ensures k < end ==> ValueMatch(lines[k])
    decreases end - from
  {
    if from < end && !ValueMatch(lines[from]) then FirstValue(lines, from + 1, end) else from
  }

  datatype Scan = Scan(env: nat, envIndent: nat, end: nat, entries: seq<Entry>)

  function ScanLines(lines: seq<string>): Option<Scan> {
    var env := EnvLine(lines, 0);
    if env == |lines| then None
    else
      var envIndent := BlankRun(lines[env]);
      var end := BlockEnd(lines, env + 1, envIndent);
      Some(Scan(env, envIndent, end, Entries(lines, env + 1, end)))
  }

  /** The indent of the entries, or of the first entry to be added. */
  function ItemIndent(scan: Scan): string {
    if scan.entries == [] then seq(scan.envIndent + 2, i => ' ')
    else
      match Lookup(scan.entries, scan.entries[0].key)
      case Some(e) => e.indent
      case None => scan.entries[0].indent
  }

  ghost predicate EntriesFit(lines: seq<string>, entries: seq<Entry>) {
    forall e :: e in entries ==> e.start < e.end <= |lines|
  }

  lemma {:induction false} LookupIn(entries: seq<Entry>, key: string)
    ensures Lookup(entries, key).Some? ==>
              Lookup(entries, key).value in entries && Lookup(entries, key).value.key == key
    ensures Lookup(entries, key).None? <==> forall e :: e in entries ==> e.key != key
    decreases |entries|
  {
    if entries != [] {
      LookupIn(entries[1..], key);
      assert entries == [entries[0]] + entries[1..];
    }
  }

  /** The line holding the value of `key`, if its entry has one. */
  function Target(lines: seq<string>, entries: seq<Entry>, key: string): Option<nat>
    requires EntriesFit(lines, entries)
  {
    match Lookup(entries, key)
    case None => None
    case Some(e) =>
      LookupIn(entries, key);
      var k := FirstValue(lines, e.start + 1, e.end);
      if k < e.end then Some(k) else None
  }

  lemma TargetIsValue(lines: seq<string>, entries: seq<Entry>, key: string)
    requires EntriesFit(lines, entries)
    requires Target(lines, entries, key).Some?
    ensures var k := Target(lines, entries, key).value;
            k < |lines| && ValueMatch(lines[k]) && Lookup(entries, key).Some?
            && Lookup(entries, key).value.start < k < Lookup(entries, key).value.end
  {
    LookupIn(entries, key);
  }

  /** Entries follow one another and stay inside the block. */
  ghost predicate Laid(entries: seq<Entry>, from: nat, end: nat) {
    && (forall e :: e in entries ==> from <= e.start < e.end <= end)
    && (forall i, j :: 0 <= i < j < |entries| ==> entries[i].end <= entries[j].start)
  }

  lemma LaidFits(lines: seq<string>, entries: seq<Entry>, from: nat, end: nat)
    requires Laid(entries, from, end) && end <= |lines|
    ensures EntriesFit(lines, entries)
  {
  }

  lemma {:induction false} EntriesShape(lines: seq<string>, from: nat, end: nat)
    requires from <= end <= |lines|
    ensures Laid(Entries(lines, from, end), from, end)
    decreases end - from
  {
    if from < end {
      match NameMatch(lines[from])
      case None => EntriesShape(lines, from + 1, end);
      case Some(name) =>
        var k := EntryEnd(lines, from + 1, end, |name.indent|);
        EntriesShape(lines, k, end);
    }
  }

  /** What the manifest says about `key`: the text after its `value:`. */
  function ReadEnv(lines: seq<string>, key: string): Option<string> {
    match ScanLines(lines)
    case None => None
    case Some(scan) =>
      EntriesShape(lines, scan.env + 1, scan.end);
      match Target(lines, scan.entries, key)
      case None => None
      case Some(k) => TargetIsValue(lines, scan.entries, key); Some(ReadValue(lines[k]))
  }

  lemma {:induction false} LookupConcat(a: seq<Entry>, b: seq<Entry>, key: string)
    ensures Lookup(a + b, key) == if Lookup(b, key).Some? then Lookup(b, key) else Lookup(a, key)
    decreases |a|
  {
    if a == [] {
      assert a + b == b;
    } else {
      assert (a + b)[1..] == a[1..] + b;
      LookupConcat(a[1..], b, key);
    }
  }

  lemma ScanFits(lines: seq<string>)
    requires ScanLines(lines).Some?
    ensures var scan := ScanLines(lines).value;
            && scan.env < scan.end <= |lines|
            && Laid(scan.entries, scan.env + 1, scan.end) && EntriesFit(lines, scan.entries)
  {
    var scan := ScanLines(lines).value;
    EntriesShape(lines, scan.env + 1, scan.end);
  }

  lemma {:induction false} BlockEndSpec(lines: seq<string>, from: nat, envIndent: nat)
    requires from <= |lines|
    ensures var k := BlockEnd(lines, from, envIndent);
            && (forall i :: from <= i < k ==> !Terminates(lines[i], envIndent))
            && (k < |lines| ==> Terminates(lines[k], envIndent))
    decreases |lines| - from
  {
    hide Terminates;
    if from < |lines| && !Terminates(lines[from], envIndent) {
      BlockEndSpec(lines, from + 1, envIndent);
    }
  }

  lemma {:induction false} BlockEndIs(lines: seq<string>, from: nat, envIndent: nat, k: nat)
    requires from <= k <= |lines|
    requires forall i :: from <= i < k ==> !Terminates(lines[i], envIndent)
    requires k < |lines| ==> Terminates(lines[k], envIndent)
    ensures BlockEnd(lines, from, envIndent) == k
    decreases k - from
  {
    hide Terminates;
    if from < k {
      BlockEndIs(lines, from + 1, envIndent, k);
    }
  }

  lemma {:induction false} EnvLineSame(lines: seq<string>, lines': seq<string>, from: nat)
    requires from <= |lines|
    requires var k := EnvLine(lines, from); k < |lines| && k < |lines'| && lines'[..k + 1] == lines[..k + 1]
    ensures EnvLine(lines', from) == EnvLine(lines, from)
    decreases |lines| - from
  {
    var k := EnvLine(lines, from);
    assert lines'[from] == lines'[..k + 1][from] == lines[..k + 1][from] == lines[from];
    if Strip(lines[from]) != "env:" {
      EnvLineSame(lines, lines', from + 1);
    }
  }

  // ----- The indent of entries -----

  /** All name lines up to the first one, if any, have this width. */
  ghost predicate StartsWidth(lines: seq<string>, from: nat, end: nat, width: nat)
    requires from <= end <= |lines|
    decreases end - from
  {
    from < end ==>
      if NameMatch(lines[from]) == None then StartsWidth(lines, from + 1, end, width)
      else IsNameAt(lines[from], width)
  }

  lemma {:induction false} EntryEndExtends(lines: seq<string>, lines': seq<string>, from: nat, end: nat, end': nat,
      width: nat)
    requires from <= end <= |lines| && end <= end' <= |lines'|
    requires forall i :: from <= i < end ==> NameMatch(lines'[i]) == NameMatch(lines[i])
    requires end < end' ==> IsNameAt(lines'[end], width)
    ensures var k := EntryEnd(lines, from, end, width);
            && EntryEnd(lines', from, end', width) == k
            && (k < end ==> IsNameAt(lines[k], width))
    decreases end - from
  {
    hide NameMatch;
    if from < end && !IsNameAt(lines[from], width) {
      EntryEndExtends(lines, lines', from + 1, end, end', width);
    }
  }

  /** An entry starts at its own name line. */
  ghost predicate Named(lines: seq<string>, from: nat, e: Entry) {
    from <= e.start < |lines| && NameMatch(lines[e.start]) == Some(NameLine(e.indent, e.key))
  }

  lemma {:induction false} EntriesNamed(lines: seq<string>, from: nat, end: nat, width: nat)
    requires from <= end <= |lines|
    requires StartsWidth(lines, from, end, width)
    ensures forall e :: e in Entries(lines, from, end) ==> Named(lines, from, e) && |e.indent| == width
    decreases end - from
  {
    hide NameMatch;
    if from < end {
      match NameMatch(lines[from])
      case None => EntriesNamed(lines, from + 1, end, width);
      case Some(name) =>
        EntryEndExtends(lines, lines, from + 1, end, end, width);
        EntriesNamed(lines, EntryEnd(lines, from + 1, end, width), end, width);
    }
  }

  lemma {:induction false} FirstWidth(lines: seq<string>, from: nat, end: nat)
    requires from <= end <= |lines|
    ensures var entries := Entries(lines, from, end);
            && (entries == [] ==> forall width: nat :: StartsWidth(lines, from, end, width))
            && (entries != [] ==> StartsWidth(lines, from, end, |entries[0].indent|))
    decreases end - from
  {
    hide NameMatch;
    if from < end && NameMatch(lines[from]) == None {
      FirstWidth(lines, from + 1, end);
    }
  }

  lemma {:induction false} BlankRunOfBlanks(n: nat)
    ensures var indent := seq(n, i => ' ');
            BlankRun(indent) == n && AllSpace(indent)
    decreases n
  {
    if n > 0 {
      assert seq(n, i => ' ')[1..] == seq(n - 1, i => ' ');
      BlankRunOfBlanks(n - 1);
    }
  }

  /** A name line inside a block is at least as deep as the block. */
  lemma NameInBlock(line: string, envIndent: nat)
    requires NameMatch(line).Some? && !Terminates(line, envIndent)
    ensures BlankRun(line) >= envIndent
  {
    LStripIsSuffix(line);
    RStripKeepsHead(LStrip(line));
    assert Strip(line)[0] == '-';
  }

  /** The indent of added entries is white space, no shallower than the block, and
      as wide as that of the entries already there. */
  lemma ItemIndentFits(lines: seq<string>)
    requires ScanLines(lines).Some?
    ensures var scan := ScanLines(lines).value;
            var indent := ItemIndent(scan);
            && AllSpace(indent) && BlankRun(indent) >= scan.envIndent
            && StartsWidth(lines, scan.env + 1, scan.end, |indent|)
  {
    hide NameMatch, ValueMatch, Terminates, Entries, EnvLine, BlockEnd, StartsWidth;
    var scan := ScanLines(lines).value;
    FirstWidth(lines, scan.env + 1, scan.end);
    if scan.entries == [] {
      BlankRunOfBlanks(scan.envIndent + 2);
    } else {
      EntriesNamed(lines, scan.env + 1, scan.end, |scan.entries[0].indent|);
      EntriesShape(lines, scan.env + 1, scan.end);
      BlockEndSpec(lines, scan.env + 1, scan.envIndent);
      LookupIn(scan.entries, scan.entries[0].key);
      var e := Lookup(scan.entries, scan.entries[0].key).value;
      assert Named(lines, scan.env + 1, e);
      NameMatchIndent(lines[e.start]);
      NameInBlock(lines[e.start], scan.envIndent);
    }
  }

  /** A value line indented by `indent` stays inside a block of this indent: the
      indent is made of blanks, or is deep enough without its other whitespace. */
  predicate Stays(indent: string, envIndent: nat) {
    BlankRun(indent) == |indent| >= envIndent || BlankRun(indent) > envIndent
  }

  /** A value line ends the block exactly if it does not stay. */
  lemma ScalarTerminates(indent: string, text: string, envIndent: nat)
    requires AllSpace(indent) && BlankRun(indent) >= envIndent && text != "" && !IsSpace(text[0])
    ensures Terminates(ScalarText(indent, text), envIndent) <==> !Stays(indent, envIndent)
  {
    var line := ScalarText(indent, text);
    var rest := "value: " + text;
    assert line == (indent + "  ") + rest;
    SpaceRunOf(indent + "  ", rest);
    RStripKeepsHead(rest);
    ScalarMatches(indent, text);
    BlankRunLonger(indent, "  value: " + text);
    if BlankRun(indent) < |indent| {
      BlankRunStops(indent, "  value: " + text);
    }
  }

  lemma NameTextStays(indent: string, key: string, envIndent: nat)
    requires AllSpace(indent) && IsIdentifier(key) && BlankRun(indent) >= envIndent
    ensures !Terminates(NameText(indent, key), envIndent)
  {
    NameTextMatches(indent, key);
    BlankRunLonger(indent, "- name: " + key);
  }

  // ----- The block cut short -----

  /** Entries of a block that ends at `mid`. */
  function Capped(entries: seq<Entry>, mid: nat): seq<Entry> {
    if entries == [] then []
    else
      var e := entries[0];
      (if e.start < mid then [e.(end := if e.end <= mid then e.end else mid)] else []) + Capped(entries[1..], mid)
  }

  lemma CappedHead(entries: seq<Entry>, mid: nat)
    requires entries != []
    ensures var rest := Capped(entries[1..], mid);
            if entries[0].start < mid then
              |Capped(entries, mid)| > 0 && Capped(entries, mid)[1..] == rest && Capped(entries, mid)[0] ==
              entries[0].(end := if entries[0].end <= mid then entries[0].end else mid)
            else
              Capped(entries, mid) == rest
  {
  }

  lemma {:induction false} CappedAway(entries: seq<Entry>, mid: nat)
    requires forall e :: e in entries ==> mid <= e.start
    ensures Capped(entries, mid) == []
    decreases |entries|
  {
    if entries != [] {
      assert forall e :: e in entries[1..] ==> e in entries;
      assert entries[0] in entries;
      CappedAway(entries[1..], mid);
    }
  }

  lemma {:induction false} EntryEndCapped(lines: seq<string>, from: nat, mid: nat, end: nat, width: nat)
    requires from <= mid <= end <= |lines|
    ensures var k := EntryEnd(lines, from, end, width);
            EntryEnd(lines[..mid], from, mid, width) == if k < mid then k else mid
    decreases mid - from
  {
    hide NameMatch;
    if from < mid && !IsNameAt(lines[from], width) {
      EntryEndCapped(lines, from + 1, mid, end, width);
    }
  }

  /** A shorter block has the beginnings of the same entries. */
  lemma {:induction false} EntriesCapped(lines: seq<string>, from: nat, mid: nat, end: nat)
    requires from <= mid <= end <= |lines|
    ensures Entries(lines[..mid], from, mid) == Capped(Entries(lines, from, end), mid)
    decreases mid - from
  {
    hide NameMatch, EntryEnd;
    var entries := Entries(lines, from, end);
    EntriesShape(lines, from, end);
    if from == mid {
      CappedAway(entries, mid);
    } else {
      match NameMatch(lines[from])
      case None =>
        EntriesCapped(lines, from + 1, mid, end);
      case Some(name) =>
        var k := EntryEnd(lines, from + 1, end, |name.indent|);
        EntryEndCapped(lines, from + 1, mid, end, |name.indent|);
        assert entries[1..] == Entries(lines, k, end);
        if k < mid {
          EntriesCapped(lines, k, mid, end);
        } else {
          EntriesShape(lines, k, end);
          CappedAway(entries[1..], mid);
        }
    }
  }

  lemma {:induction false} FirstValueCapped(lines: seq<string>, from: nat, mid: nat, end: nat)
    requires from <= mid <= end <= |lines|
    ensures var k := FirstValue(lines, from, end);
            FirstValue(lines[..mid], from, mid) == if k < mid then k else mid
    decreases mid - from
  {
    hide ValueMatch;
    if from < mid && !ValueMatch(lines[from]) {
      FirstValueCapped(lines, from + 1, mid, end);
    }
  }

  /** A block cut short is the whole block of the lines cut short. */
  lemma PrefixScan(lines: seq<string>, scan: Scan, mid: nat)
    requires ScanLines(lines) == Some(scan) && scan.env < mid <= scan.end <= |lines|
    ensures ScanLines(lines[..mid]) == Some(Scan(scan.env, scan.envIndent, mid, Capped(scan.entries, mid)))
  {
    hide Terminates, Entries, EnvLine, BlockEnd, Capped;
    assert lines[..mid][..scan.env + 1] == lines[..scan.env + 1];
    EnvLineSame(lines, lines[..mid], 0);
    BlockEndSpec(lines, scan.env + 1, scan.envIndent);
    BlockEndIs(lines[..mid], scan.env + 1, scan.envIndent, mid);
    EntriesCapped(lines, scan.env + 1, mid, scan.end);
  }

  /** The last entry of a key is found as long as it begins in the block. */
  lemma {:induction false} CappedLookup(entries: seq<Entry>, mid: nat, key: string)
    ensures Lookup(entries, key) == None ==> Lookup(Capped(entries, mid), key) == None
    ensures var found := Lookup(entries, key);
            found.Some? && found.value.start < mid ==>
              var e := found.value;
              Lookup(Capped(entries, mid), key) == Some(e.(end := if e.end <= mid then e.end else mid))
    decreases |entries|
  {
    if entries != [] {
      CappedHead(entries, mid);
      CappedLookup(entries[1..], mid, key);
    }
  }

  lemma LaidRest(entries: seq<Entry>, from: nat, end: nat)
    requires Laid(entries, from, end) && entries != []
    ensures Laid(entries[1..], from, end) && from <= entries[0].start < entries[0].end <= end
    ensures forall e :: e in entries[1..] ==> entries[0].end <= e.start < e.end <= end
  {
    var rest := entries[1..];
    assert forall j :: 0 <= j < |rest| ==> rest[j] == entries[j + 1];
    assert entries[0] in entries;
  }

  /** An entry that a shorter block ends in is its last one. */
  lemma {:induction false} CappedLast(entries: seq<Entry>, from: nat, end: nat, mid: nat, e: Entry)
    requires Laid(entries, from, end) && e in entries && e.start < mid <= e.end
    ensures var capped := Capped(entries, mid);
            capped != [] && capped[|capped| - 1] == e.(end := mid) && capped[0].key == entries[0].key
    decreases |entries|
  {
    LaidRest(entries, from, end);
    CappedHead(entries, mid);
    hide Laid;
    if e in entries[1..] {
      CappedLast(entries[1..], from, end, mid, e);
    } else {
      assert e == entries[0];
      CappedAway(entries[1..], mid);
    }
  }
}

/** What one pass down a block tells about a key. */
module EnvReader {
  import opened Options
  import opened Text
  import opened EnvText
  import opened EnvLines
  import opened EnvScan

  /** Where the pass stands: the width of the entries' indent, the first key, whether the
      value line of `key` is looked for, and the indent and value line of its last entry. */
  datatype Reader = Reader(
    width: Option<nat>,
    first: Option<string>,
    seeking: bool,
    indent: Option<string>,
    line: Option<string>)

  const START := Reader(None, None, false, None, None)

  function Step(r: Reader, line: string, key: string): Reader {
    match NameMatch(line)
    case Some(name) =>
      if r.width.Some? && r.width != Some(|name.indent|) then r
      else
        var own := name.key == key;
        Reader(Some(|name.indent|), if r.first == None then Some(name.key) else r.first, own,
               if own then Some(name.indent) else r.indent, if own then None else r.line)
    case None =>
      if r.seeking && ValueMatch(line) then r.(seeking := false, line := Some(line)) else r
  }

  function Fold(r: Reader, lines: seq<string>, key: string): Reader
    decreases |lines|
  {
    if lines == [] then r else Fold(Step(r, lines[0], key), lines[1..], key)
  }

  /** The pass over the block of these lines. */
  function Read(lines: seq<string>, key: string): Reader
    requires ScanLines(lines).Some?
  {
    var scan := ScanLines(lines).value;
    Fold(START, lines[scan.env + 1..scan.end], key)
  }

  lemma {:induction false} FoldConcat(r: Reader, a: seq<string>, b: seq<string>, key: string)
    ensures Fold(r, a + b, key) == Fold(Fold(r, a, key), b, key)
    decreases |a|
  {
    hide Step;
    if a == [] {
      assert a + b == b;
    } else {
      assert (a + b)[1..] == a[1..] + b;
      FoldConcat(Step(r, a[0], key), a[1..], b, key);
    }
  }

  lemma FoldOne(r: Reader, line: string, key: string)
    ensures Fold(r, [line], key) == Step(r, line, key)
  {
    hide Step;
    assert [line][1..] == [];
  }

  lemma FoldParts(r: Reader, line: string, body: seq<string>, rest: seq<string>, key: string)
    ensures Fold(r, [line] + (body + rest), key) == Fold(Fold(Step(r, line, key), body, key), rest, key)
  {
    hide Step;
    FoldConcat(r, [line], body + rest, key);
    FoldOne(r, line, key);
    FoldConcat(Step(r, line, key), body, rest, key);
  }

  lemma {:induction false} SeekingHasNoLine(r: Reader, lines: seq<string>, key: string)
    requires r.seeking ==> r.line == None
    ensures var end := Fold(r, lines, key); end.seeking ==> end.line == None
    decreases |lines|
  {
    hide NameMatch, ValueMatch;
    if lines != [] {
      SeekingHasNoLine(Step(r, lines[0], key), lines[1..], key);
    }
  }

  // ----- The pass and the entries -----

  lemma {:induction false} EntryEndSpec(lines: seq<string>, from: nat, end: nat, width: nat)
    requires from <= end <= |lines|
    ensures var k := EntryEnd(lines, from, end, width);
            && (forall i :: from <= i < k ==> !IsNameAt(lines[i], width))
            && (k < end ==> IsNameAt(lines[k], width))
    decreases end - from
  {
    hide NameMatch;
    if from < end && !IsNameAt(lines[from], width) {
      EntryEndSpec(lines, from + 1, end, width);
    }
  }

  /** In the body of an entry only its first value line counts. */
  lemma {:induction false} FoldBody(r: Reader, lines: seq<string>, from: nat, end: nat, width: nat, key: string)
    requires from <= end <= |lines| && r.width == Some(width)
    requires forall i :: from <= i < end ==> !IsNameAt(lines[i], width)
    ensures var k := FirstValue(lines, from, end);
            Fold(r, lines[from..end], key) ==
            if r.seeking && k < end then r.(seeking := false, line := Some(lines[k])) else r
    decreases end - from
  {
    hide NameMatch, ValueMatch;
    if from < end {
      var body := lines[from..end];
      assert body[0] == lines[from] && body[1..] == lines[from + 1..end];
      if ValueMatch(lines[from]) {
        ValueIsNoName(lines[from]);
      }
      FoldBody(Step(r, lines[from], key), lines, from + 1, end, width, key);
    }
  }

  /** The value line of an entry. */
  function ValueLine(lines: seq<string>, e: Entry): Option<string>
    requires e.start < e.end <= |lines|
  {
    var k := FirstValue(lines, e.start + 1, e.end);
    if k < e.end then Some(lines[k]) else None
  }

  function AfterEntries(r: Reader, lines: seq<string>, entries: seq<Entry>, width: nat, key: string): Reader
    requires EntriesFit(lines, entries)
  {
    if entries == [] then r
    else
      var last := entries[|entries| - 1];
      LookupIn(entries, key);
      Reader(Some(width), if r.first == None then Some(entries[0].key) else r.first,
             last.key == key && ValueLine(lines, last) == None,
             match Lookup(entries, key) case Some(e) => Some(e.indent) case None => r.indent,
             match Lookup(entries, key) case Some(e) => ValueLine(lines, e) case None => r.line)
  }

  lemma OneEntry(r: Reader, lines: seq<string>, head: Entry, width: nat, key: string)
    requires head.start < head.end <= |lines|
    ensures EntriesFit(lines, [head])
    ensures AfterEntries(r, lines, [head], width, key) ==
            Reader(Some(width), if r.first == None then Some(head.key) else r.first,
                   head.key == key && ValueLine(lines, head) == None,
                   if head.key == key then Some(head.indent) else r.indent,
                   if head.key == key then ValueLine(lines, head) else r.line)
  {
    assert [head][1..] == [];
    assert Lookup([head], key) == if head.key == key then Some(head) else None;
    assert [head][|[head]| - 1] == head;
  }

  lemma EntryThen(r: Reader, lines: seq<string>, head: Entry, rest: seq<Entry>, width: nat, key: string, read: Reader)
    requires EntriesFit(lines, [head] + rest)
    requires read == AfterEntries(r, lines, [head], width, key)
    ensures EntriesFit(lines, rest)
    ensures AfterEntries(read, lines, rest, width, key) == AfterEntries(r, lines, [head] + rest, width, key)
  {
    hide FirstValue;
    var all := [head] + rest;
    assert forall e :: e in rest ==> e in all;
    assert head in all;
    OneEntry(r, lines, head, width, key);
    LookupConcat([head], rest, key);
    assert [head][1..] == [];
    if rest == [] {
      assert all == [head];
    } else {
      assert all[|all| - 1] == rest[|rest| - 1];
    }
  }

  /** One entry: its name line and its body. */
  lemma FoldEntry(r: Reader, lines: seq<string>, from: nat, end: nat, width: nat, key: string)
    requires from < end <= |lines| && IsNameAt(lines[from], width)
    requires r.width == None || r.width == Some(width)
    ensures var name, k := NameMatch(lines[from]).value, EntryEnd(lines, from + 1, end, width);
            && EntriesFit(lines, [Entry(name.key, from, k, name.indent)])
            && Fold(Step(r, lines[from], key), lines[from + 1..k], key) ==
               AfterEntries(r, lines, [Entry(name.key, from, k, name.indent)], width, key)
  {
    hide NameMatch, ValueMatch, FirstValue, EntryEnd, AfterEntries;
    var name, k := NameMatch(lines[from]).value, EntryEnd(lines, from + 1, end, width);
    EntryEndSpec(lines, from + 1, end, width);
    FoldBody(Step(r, lines[from], key), lines, from + 1, k, width, key);
    OneEntry(r, lines, Entry(name.key, from, k, name.indent), width, key);
  }

  lemma Slices(lines: seq<string>, from: nat, k: nat, end: nat)
    requires from < k <= end <= |lines|
    ensures lines[from..end] == [lines[from]] + (lines[from + 1..k] + lines[k..end])
  {
  }

  lemma FoldNothing(r: Reader, lines: seq<string>, from: nat, width: nat, key: string)
    requires from <= |lines|
    ensures Fold(r, lines[from..from], key) == r == AfterEntries(r, lines, Entries(lines, from, from), width, key)
  {
  }

  lemma {:induction false} FoldEntries(r: Reader, lines: seq<string>, from: nat, end: nat, width: nat, key: string)
    requires from <= end <= |lines| && (from < end ==> IsNameAt(lines[from], width))
    requires r.width == None || r.width == Some(width)
    ensures EntriesFit(lines, Entries(lines, from, end))
    ensures Fold(r, lines[from..end], key) == AfterEntries(r, lines, Entries(lines, from, end), width, key)
    decreases end - from
  {
    hide NameMatch, ValueMatch, FirstValue, EntryEnd, Step, Fold, Laid, AfterEntries;
    EntriesShape(lines, from, end);
    if from < end {
      var name, k := NameMatch(lines[from]).value, EntryEnd(lines, from + 1, end, width);
      var head := Entry(name.key, from, k, name.indent);
      var read := Fold(Step(r, lines[from], key), lines[from + 1..k], key);
      FoldEntry(r, lines, from, end, width, key);
      OneEntry(r, lines, head, width, key);
      EntryEndSpec(lines, from + 1, end, width);
      FoldEntries(read, lines, k, end, width, key);
      FoldParts(r, lines[from], lines[from + 1..k], lines[k..end], key);
      Slices(lines, from, k, end);
      assert Entries(lines, from, end) == [head] + Entries(lines, k, end);
      EntryThen(r, lines, head, Entries(lines, k, end), width, key, read);
    } else {
      FoldNothing(r, lines, from, width, key);
    }
  }

  /** Before its first entry a block tells nothing. */
  lemma {:induction false} FoldLead(lines: seq<string>, from: nat, end: nat, key: string)
    requires from <= end <= |lines|
    ensures EntriesFit(lines, Entries(lines, from, end))
    ensures var entries := Entries(lines, from, end);
            var width := if entries == [] then 0 else |entries[0].indent|;
            Fold(START, lines[from..end], key) == AfterEntries(START, lines, entries, width, key)
    decreases end - from
  {
    hide ValueMatch, FirstValue;
    EntriesShape(lines, from, end);
    if from < end {
      if NameMatch(lines[from]) == None {
        assert lines[from..end][1..] == lines[from + 1..end];
        FoldLead(lines, from + 1, end, key);
      } else {
        FoldEntries(START, lines, from, end, |NameMatch(lines[from]).value.indent|, key);
      }
    }
  }

  function TargetLine(lines: seq<string>, entries: seq<Entry>, key: string): Option<string>
    requires EntriesFit(lines, entries)
  {
    match Target(lines, entries, key)
    case None => None
    case Some(k) => TargetIsValue(lines, entries, key); Some(lines[k])
  }

  lemma ReadEntries(lines: seq<string>, key: string)
    requires ScanLines(lines).Some?
    ensures var scan := ScanLines(lines).value;
            && EntriesFit(lines, scan.entries)
            && Read(lines, key) == AfterEntries(START, lines, scan.entries,
                                                if scan.entries == [] then 0 else |scan.entries[0].indent|, key)
  {
    hide NameMatch, ValueMatch, Entries, EnvLine, BlockEnd, FirstValue, Fold, AfterEntries;
    var scan := ScanLines(lines).value;
    ScanFits(lines);
    FoldLead(lines, scan.env + 1, scan.end, key);
  }

  /** The pass finds the first key, the key's last entry and its value line. */
  lemma ReadSpec(lines: seq<string>, key: string)
    requires ScanLines(lines).Some?
    ensures var scan, r := ScanLines(lines).value, Read(lines, key);
            && EntriesFit(lines, scan.entries)
            && (if scan.entries == [] then r == START
                else
                  var last := scan.entries[|scan.entries| - 1];
                  && r.width == Some(|scan.entries[0].indent|) && r.first == Some(scan.entries[0].key)
                  && r.seeking == (last.key == key && ValueLine(lines, last) == None))
            && (r.indent == match Lookup(scan.entries, key) case Some(e) => Some(e.indent) case None => None)
            && r.line == TargetLine(lines, scan.entries, key)
  {
    hide ScanLines, Read, FirstValue, ValueMatch;
    ReadEntries(lines, key);
    LookupIn(ScanLines(lines).value.entries, key);
  }

  lemma ReadIsRead(lines: seq<string>, key: string)
    requires ScanLines(lines).Some?
    ensures var r := Read(lines, key);
            && (r.line.Some? ==> ValueMatch(r.line.value))
            && ReadEnv(lines, key) == match r.line case Some(line) => Some(ReadValue(line)) case None => None
  {
    hide Read, NameMatch, ValueMatch, Entries, EnvLine, BlockEnd, Target;
    ReadSpec(lines, key);
    var entries := ScanLines(lines).value.entries;
    if Target(lines, entries, key).Some? {
      TargetIsValue(lines, entries, key);
    }
  }

  // ----- Part of the way down -----

  /** The pass as it comes to line i. */
  function At(lines: seq<string>, i: nat, key: string): Reader
    requires ScanLines(lines).Some? && ScanLines(lines).value.env < i <= |lines|
  {
    Fold(START, lines[ScanLines(lines).value.env + 1..i], key)
  }

  lemma AtNext(lines: seq<string>, i: nat, key: string)
    requires ScanLines(lines).Some? && ScanLines(lines).value.env < i < |lines|
    ensures At(lines, i + 1, key) == Step(At(lines, i, key), lines[i], key)
  {
    var from := ScanLines(lines).value.env + 1;
    assert lines[from..i + 1] == lines[from..i] + [lines[i]];
    FoldConcat(START, lines[from..i], [lines[i]], key);
    FoldOne(At(lines, i, key), lines[i], key);
  }

  /** The pass down to line i is the whole pass over the lines before it. */
  lemma AtIsPrefix(lines: seq<string>, i: nat, key: string)
    requires ScanLines(lines).Some?
    requires ScanLines(lines).value.env < i <= ScanLines(lines).value.end <= |lines|
    ensures var scan := ScanLines(lines).value;
            && ScanLines(lines[..i]) == Some(Scan(scan.env, scan.envIndent, i, Capped(scan.entries, i)))
            && At(lines, i, key) == Read(lines[..i], key)
  {
    hide ScanLines, Fold, Capped;
    var scan := ScanLines(lines).value;
    PrefixScan(lines, scan, i);
    assert lines[..i][scan.env + 1..i] == lines[scan.env + 1..i];
  }

  lemma InBlock(scan: Scan, lines: seq<string>, e: Entry)
    requires ScanLines(lines) == Some(scan) && e in scan.entries
    ensures scan.env < e.start < e.end <= scan.end <= |lines|
  {
    ScanFits(lines);
  }

  /** At a value line that an update would write, only its own key is looked for. */
  lemma AtTarget(lines: seq<string>, owner: string, key: string)
    requires ScanLines(lines).Some? && EntriesFit(lines, ScanLines(lines).value.entries)
    requires Target(lines, ScanLines(lines).value.entries, owner).Some?
    ensures var scan, k := ScanLines(lines).value, Target(lines, ScanLines(lines).value.entries, owner).value;
            && scan.env < k < scan.end <= |lines|
            && var r := At(lines, k, key);
            && r.width.Some? && r.first.Some? && (r.seeking <==> key == owner) && (key == owner ==> r.line == None)
  {
    hide ScanLines, Entries, EnvLine, BlockEnd, FirstValue, Capped, Read, At, Laid;
    var scan := ScanLines(lines).value;
    ScanFits(lines);
    TargetIsValue(lines, scan.entries, owner);
    LookupIn(scan.entries, owner);
    var e, k := Lookup(scan.entries, owner).value, Target(lines, scan.entries, owner).value;
    InBlock(scan, lines, e);
    AtIsPrefix(lines, k, key);
    ReadSpec(lines[..k], key);
    CappedLast(scan.entries, scan.env + 1, scan.end, k, e);
    FirstValueCapped(lines, e.start + 1, k, e.end);
    if key == owner {
      CappedLookup(scan.entries, k, key);
    }
  }

  lemma AtSane(lines: seq<string>, i: nat, key: string)
    requires ScanLines(lines).Some? && ScanLines(lines).value.env < i <= |lines|
    ensures At(lines, i, key).seeking ==> At(lines, i, key).line == None
  {
    SeekingHasNoLine(START, lines[ScanLines(lines).value.env + 1..i], key);
  }

  /** Below its value line, the key's value line is known. */
  lemma PastTarget(lines: seq<string>, key: string, i: nat)
    requires ScanLines(lines).Some? && EntriesFit(lines, ScanLines(lines).value.entries)
    requires Target(lines, ScanLines(lines).value.entries, key).Some?
    requires Target(lines, ScanLines(lines).value.entries, key).value < i <= ScanLines(lines).value.end <= |lines|
    requires ScanLines(lines).value.env < i
    ensures var k := Target(lines, ScanLines(lines).value.entries, key).value;
            k < |lines| && At(lines, i, key).line == Some(lines[k]) && !At(lines, i, key).seeking
    ensures At(lines, i, key).indent == Read(lines, key).indent
  {
    hide ScanLines, Entries, EnvLine, BlockEnd, FirstValue, Capped, Read, At, Laid;
    var scan := ScanLines(lines).value;
    TargetIsValue(lines, scan.entries, key);
    LookupIn(scan.entries, key);
    var e, k := Lookup(scan.entries, key).value, Target(lines, scan.entries, key).value;
    AtIsPrefix(lines, i, key);
    ReadSpec(lines, key);
    ReadSpec(lines[..i], key);
    CappedLookup(scan.entries, i, key);
    var end := if e.end <= i then e.end else i;
    FirstValueCapped(lines, e.start + 1, end, e.end);
    FirstValueCapped(lines[..i], e.start + 1, end, end);
    assert lines[..i][..end] == lines[..end];
    AtSane(lines, i, key);
  }
}

/** The edit as a whole. */
module EnvEdit {
  import opened Options
  import opened Text
  import opened EnvLines
  import opened EnvScan

  datatype Update = Update(key: string, value: string)

  /** Updates come from a dictionary. */
  ghost predicate DistinctKeys(updates: seq<Update>) {
    forall i, j :: 0 <= i < j < |updates| ==> updates[i].key != updates[j].key
  }

  /** The lines with the value line of every updated entry replaced. */
  function Overwrite(lines: seq<string>, entries: seq<Entry>, indent: string, updates: seq<Update>): (r: seq<string>)
    requires EntriesFit(lines, entries)
    ensures |r| == |lines|
  {
    if updates == [] then lines
    else
      var n := |updates| - 1;
      var before := Overwrite(lines, entries, indent, updates[..n]);
      match Target(lines, entries, updates[n].key)
      case None => before
      case Some(k) =>
        TargetIsValue(lines, entries, updates[n].key);
        before[k := ValueText(indent, updates[n].value)]
  }

  /** The updates whose key has no entry yet. */
  function Added(entries: seq<Entry>, updates: seq<Update>): seq<Update> {
    if updates == [] then []
    else
      var n := |updates| - 1;
      Added(entries, updates[..n]) + (if Lookup(entries, updates[n].key) == None then [updates[n]] else [])
  }

  function Pairs(indent: string, added: seq<Update>): (r: seq<string>)
    ensures |r| == 2 * |added|
  {
    if added == [] then []
    else [NameText(indent, added[0].key), ValueText(indent, added[0].value)] + Pairs(indent, added[1..])
  }

  function Edited(lines: seq<string>, updates: seq<Update>): seq<string> {
    match ScanLines(lines)
    case None => lines
    case Some(scan) =>
      EntriesShape(lines, scan.env + 1, scan.end);
      var indent := ItemIndent(scan);
      var kept := Overwrite(lines, scan.entries, indent, updates);
      kept[..scan.end] + Pairs(indent, Added(scan.entries, updates)) + kept[scan.end..]
  }

  // ----- What changes -----

  lemma {:induction false} AddedSpec(entries: seq<Entry>, updates: seq<Update>)
    ensures forall u :: u in Added(entries, updates) <==> u in updates && Lookup(entries, u.key) == None
    ensures DistinctKeys(updates) ==> DistinctKeys(Added(entries, updates))
    decreases |updates|
  {
    if updates != [] {
      var n := |updates| - 1;
      AddedSpec(entries, updates[..n]);
      assert updates == updates[..n] + [updates[n]];
      if DistinctKeys(updates) {
        assert DistinctKeys(updates[..n]);
        forall u | u in Added(entries, updates[..n])
          ensures u.key != updates[n].key
        {
          assert u in updates[..n];
        }
      }
    }
  }

  /** Different keys have different value lines. */
  lemma TargetsDiffer(lines: seq<string>, entries: seq<Entry>, from: nat, end: nat, key: string, key': string)
    requires Laid(entries, from, end) && end <= |lines|
    requires key != key'
    requires Target(lines, entries, key).Some? && Target(lines, entries, key').Some?
    ensures Target(lines, entries, key) != Target(lines, entries, key')
  {
    TargetIsValue(lines, entries, key);
    TargetIsValue(lines, entries, key');
    LookupIn(entries, key);
    LookupIn(entries, key');
    var i :| 0 <= i < |entries| && entries[i] == Lookup(entries, key).value;
    var j :| 0 <= j < |entries| && entries[j] == Lookup(entries, key').value;
    assert i != j;
  }

  /** Only value lines of updated entries change, and each gets its own value. */
  lemma {:induction false} OverwriteSpec(lines: seq<string>, entries: seq<Entry>, from: nat, end: nat,
      indent: string, updates: seq<Update>)
    requires Laid(entries, from, end) && end <= |lines| && DistinctKeys(updates)
    ensures var kept := Overwrite(lines, entries, indent, updates);
            && (forall i :: 0 <= i < |lines| && kept[i] != lines[i] ==>
                 exists u :: && u in updates && Target(lines, entries, u.key) == Some(i)
                             && kept[i] == ValueText(indent, u.value))
            && (forall u :: u in updates && Target(lines, entries, u.key).Some? ==>
                 var k := Target(lines, entries, u.key).value;
                 from < k < end && kept[k] == ValueText(indent, u.value))
    decreases |updates|
  {
    hide ValueText, Lookup, FirstValue, Target;
    if updates != [] {
      var n := |updates| - 1;
      var u := updates[n];
      var before := Overwrite(lines, entries, indent, updates[..n]);
      var kept := Overwrite(lines, entries, indent, updates);
      OverwriteSpec(lines, entries, from, end, indent, updates[..n]);
      forall v | v in updates && Target(lines, entries, v.key).Some?
        ensures var k := Target(lines, entries, v.key).value;
                from < k < end && kept[k] == ValueText(indent, v.value)
      {
        TargetIsValue(lines, entries, v.key);
        LookupIn(entries, v.key);
        if v != u {
          var i :| 0 <= i < |updates| && updates[i] == v;
          assert v == updates[..n][i];
          if Target(lines, entries, u.key).Some? {
            TargetsDiffer(lines, entries, from, end, u.key, v.key);
          }
        }
      }
      forall i | 0 <= i < |lines| && kept[i] != lines[i]
        ensures exists v :: && v in updates && Target(lines, entries, v.key) == Some(i)
                            && kept[i] == ValueText(indent, v.value)
      {
        if Target(lines, entries, u.key) == Some(i) {
          assert u in updates;
        } else {
          assert kept[i] == before[i];
          var v :| && v in updates[..n] && Target(lines, entries, v.key) == Some(i)
                   && before[i] == ValueText(indent, v.value);
          assert v in updates;
        }
      }
    }
  }

  /** Frame: the block grows by two lines per added key, all at its end; every
      other line keeps its text and order, except updated value lines. */
  lemma EditFrame(lines: seq<string>, updates: seq<Update>)
    requires ScanLines(lines).Some? && DistinctKeys(updates)
    ensures var scan := ScanLines(lines).value;
            var added := Added(scan.entries, updates);
            var indent := ItemIndent(scan);
            var after := Edited(lines, updates);
            && Laid(scan.entries, scan.env + 1, scan.end)
            && |after| == |lines| + 2 * |added|
            && (forall i :: 0 <= i < scan.end && after[i] != lines[i] ==>
                 exists u :: u in updates && Target(lines, scan.entries, u.key) == Some(i)
                             && after[i] == ValueText(indent, u.value))
            && after[scan.end..scan.end + 2 * |added|] == Pairs(indent, added)
            && after[scan.end + 2 * |added|..] == lines[scan.end..]
  {
    hide ValueText, Lookup, FirstValue, Target, ItemIndent, Entries, EnvLine, BlockEnd, Added, Pairs;
    var scan := ScanLines(lines).value;
    EntriesShape(lines, scan.env + 1, scan.end);
    var indent := ItemIndent(scan);
    var kept := Overwrite(lines, scan.entries, indent, updates);
    OverwriteSpec(lines, scan.entries, scan.env + 1, scan.end, indent, updates);
    assert forall i :: scan.end <= i < |lines| ==> kept[i] == lines[i];
    assert kept[scan.end..] == lines[scan.end..];
  }

  lemma {:induction false} NothingToOverwrite(lines: seq<string>, entries: seq<Entry>, indent: string,
      updates: seq<Update>)
    requires EntriesFit(lines, entries)
    requires forall u :: u in updates && Target(lines, entries, u.key).Some? ==>
               var k := Target(lines, entries, u.key).value;
               k < |lines| && lines[k] == ValueText(indent, u.value)
    ensures Overwrite(lines, entries, indent, updates) == lines
    decreases |updates|
  {
    hide ValueText, Target;
    if updates != [] {
      var n := |updates| - 1;
      assert updates[n] in updates;
      assert forall u :: u in updates[..n] ==> u in updates;
      NothingToOverwrite(lines, entries, indent, updates[..n]);
      if Target(lines, entries, updates[n].key).Some? {
        TargetIsValue(lines, entries, updates[n].key);
      }
    }
  }

  lemma {:induction false} NothingToAdd(entries: seq<Entry>, updates: seq<Update>)
    requires forall u :: u in updates ==> Lookup(entries, u.key).Some?
    ensures Added(entries, updates) == []
    decreases |updates|
  {
    if updates != [] {
      assert updates[|updates| - 1] in updates;
      NothingToAdd(entries, updates[..|updates| - 1]);
    }
  }

  lemma {:induction false} PairsMore(indent: string, added: seq<Update>, u: Update)
    ensures Pairs(indent, added + [u]) == Pairs(indent, added) + [NameText(indent, u.key), ValueText(indent, u.value)]
    decreases |added|
  {
    hide NameText, ValueText;
    if added == [] {
      assert [] + [u] == [u] && [u][1..] == [];
    } else {
      assert (added + [u])[1..] == added[1..] + [u];
      PairsMore(indent, added[1..], u);
    }
  }

  lemma EditParts(lines: seq<string>, updates: seq<Update>)
    requires ScanLines(lines).Some? && EntriesFit(lines, ScanLines(lines).value.entries)
    ensures var scan := ScanLines(lines).value;
            Edited(lines, updates) == lines <==>
              Added(scan.entries, updates) == [] && Overwrite(lines, scan.entries, ItemIndent(scan), updates) == lines
  {
    hide EnvLine, BlockEnd, Entries, ItemIndent, Lookup, Target, Added, Overwrite;
    var scan := ScanLines(lines).value;
    var kept, added := Overwrite(lines, scan.entries, ItemIndent(scan), updates), Added(scan.entries, updates);
    ScanFits(lines);
    assert kept[..scan.end] + kept[scan.end..] == kept;
    if added == [] {
      assert kept[..scan.end] + [] + kept[scan.end..] == kept;
    } else {
      assert |Edited(lines, updates)| == |lines| + 2 * |added|;
    }
  }

  /** An edit changes nothing exactly if each key has an entry, and this has no value
      line or the one that would be written. */
  lemma EditChangesNothing(lines: seq<string>, updates: seq<Update>)
    requires ScanLines(lines).Some? && DistinctKeys(updates)
    requires EntriesFit(lines, ScanLines(lines).value.entries)
    ensures var scan := ScanLines(lines).value;
            Edited(lines, updates) == lines <==>
              forall u :: u in updates ==>
                && Lookup(scan.entries, u.key).Some?
                && var target := Target(lines, scan.entries, u.key);
                   target == None ||
                   (target.value < |lines| && lines[target.value] == ValueText(ItemIndent(scan), u.value))
  {
    hide ScanLines, ValueText, ItemIndent, Lookup, Target, Added, Edited, Overwrite;
    var scan := ScanLines(lines).value;
    var entries, indent := scan.entries, ItemIndent(scan);
    ScanFits(lines);
    EditParts(lines, updates);
    AddedSpec(entries, updates);
    if Edited(lines, updates) == lines {
      OverwriteSpec(lines, entries, scan.env + 1, scan.end, indent, updates);
    } else {
      if (forall u :: u in updates ==> Lookup(entries, u.key).Some?) {
        NothingToAdd(entries, updates);
      }
      if (forall u :: u in updates && Target(lines, entries, u.key).Some? ==>
            var k := Target(lines, entries, u.key).value; k < |lines| && lines[k] == ValueText(indent, u.value)) {
        NothingToOverwrite(lines, entries, indent, updates);
      }
    }
  }

  // ----- Did anything change? -----

  /** The editor's `changed` flag. */
  predicate Changes(lines: seq<string>, entries: seq<Entry>, indent: string, updates: seq<Update>)
    requires EntriesFit(lines, entries)
  {
    updates != [] &&
    var n := |updates| - 1;
    (Changes(lines, entries, indent, updates[..n]) ||
     match Target(lines, entries, updates[n].key)
     case None => Lookup(entries, updates[n].key) == None
     case Some(k) =>
       TargetIsValue(lines, entries, updates[n].key);
       lines[k] != ValueText(indent, updates[n].value))
  }

  /** The value line of an update is not written by the updates before it. */
  lemma UntouchedBefore(lines: seq<string>, entries: seq<Entry>, from: nat, end: nat, indent: string,
      updates: seq<Update>, n: nat, k: nat)
    requires Laid(entries, from, end) && end <= |lines| && DistinctKeys(updates) && n < |updates|
    requires Target(lines, entries, updates[n].key) == Some(k) && k < |lines|
    ensures Overwrite(lines, entries, indent, updates[..n])[k] == lines[k]
  {
    hide ValueText, Lookup, FirstValue, Target;
    OverwriteSpec(lines, entries, from, end, indent, updates[..n]);
    if Overwrite(lines, entries, indent, updates[..n])[k] != lines[k] {
      var v :| v in updates[..n] && Target(lines, entries, v.key) == Some(k);
      var i :| 0 <= i < n && updates[i] == v;
      TargetsDiffer(lines, entries, from, end, v.key, updates[n].key);
    }
  }

  lemma {:induction false} ChangesSpec(lines: seq<string>, entries: seq<Entry>, from: nat, end: nat, indent: string,
      updates: seq<Update>)
    requires Laid(entries, from, end) && end <= |lines| && DistinctKeys(updates)
    ensures EntriesFit(lines, entries)
    ensures Changes(lines, entries, indent, updates) <==>
            Overwrite(lines, entries, indent, updates) != lines || Added(entries, updates) != []
    decreases |updates|
  {
    hide ValueText, Lookup, FirstValue, Target;
    if updates != [] {
      var n := |updates| - 1;
      ChangesSpec(lines, entries, from, end, indent, updates[..n]);
      OverwriteSpec(lines, entries, from, end, indent, updates[..n]);
      OverwriteSpec(lines, entries, from, end, indent, updates);
      var u := updates[n];
      assert u in updates;
      if Target(lines, entries, u.key).Some? {
        TargetIsValue(lines, entries, u.key);
        var k := Target(lines, entries, u.key).value;
        var before := Overwrite(lines, entries, indent, updates[..n]);
        assert before[k] == lines[k] by {
          UntouchedBefore(lines, entries, from, end, indent, updates, n, k);
        }
        if before != lines {
          var i :| 0 <= i < |lines| && before[i] != lines[i];
          assert i != k;
          assert Overwrite(lines, entries, indent, updates)[i] != lines[i];
        }
      }
    }
  }

  /** In the range of a key's entry nothing is written for other keys. */
  lemma UntouchedEntry(lines: seq<string>, entries: seq<Entry>, from: nat, end: nat, indent: string,
      done: seq<Update>, key: string, i: nat)
    requires Laid(entries, from, end) && end <= |lines| && DistinctKeys(done)
    requires (forall u :: u in done ==> u.key != key) && Lookup(entries, key).Some?
    requires Lookup(entries, key).value.start < i < Lookup(entries, key).value.end
    ensures EntriesFit(lines, entries) && i < |lines|
    ensures Overwrite(lines, entries, indent, done)[i] == lines[i]
  {
    hide ValueText, Lookup, FirstValue, Target, Overwrite;
    LookupIn(entries, key);
    OverwriteSpec(lines, entries, from, end, indent, done);
    if Overwrite(lines, entries, indent, done)[i] != lines[i] {
      var u :| u in done && Target(lines, entries, u.key) == Some(i);
      TargetIsValue(lines, entries, u.key);
      LookupIn(entries, u.key);
    }
  }
}
