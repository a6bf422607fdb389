/** The string operations of Python that the style checker uses. */
module Text {
  import opened Sequences

  /** `str.isspace`, for one character. */
  predicate IsSpace(c: char) {
    || '\t' <= c <= '\r' || '\U{1C}' <= c <= ' ' || c == '\U{85}' || c == '\U{A0}'
    || c == '\U{1680}' || '\U{2000}' <= c <= '\U{200A}' || c == '\U{2028}' || c == '\U{2029}'
    || c == '\U{202F}' || c == '\U{205F}' || c == '\U{3000}'
  }

  /** The white space characters of the Unicode database and the separators of ASCII, one by one. */
  lemma SpacesAre(c: char)
    ensures IsSpace(c) <==>
            c in "\t\n\U{0B}\U{0C}\r\U{1C}\U{1D}\U{1E}\U{1F} \U{85}\U{A0}\U{1680}" ||
            c in "\U{2000}\U{2001}\U{2002}\U{2003}\U{2004}\U{2005}\U{2006}\U{2007}\U{2008}\U{2009}\U{200A}" ||
            c in "\U{2028}\U{2029}\U{202F}\U{205F}\U{3000}"
  {
  }

  predicate AllSpace(s: string) {
    forall i | 0 <= i < |s| :: IsSpace(s[i])
  }

  // ----- rstrip and strip -----

  function RStrip(s: string): (r: string)
    ensures r != "" ==> !IsSpace(r[|r| - 1])
  {
    if s == "" || !IsSpace(s[|s| - 1]) then s else RStrip(s[..|s| - 1])
  }

  function LStrip(s: string): (r: string)
    ensures r != "" ==> !IsSpace(r[0])
  {
    if s == "" || !IsSpace(s[0]) then s else LStrip(s[1..])
  }

  function Strip(s: string): string {
    LStrip(RStrip(s))
  }

  /** A string whose ends are not white space; it may be empty. */
  predicate Trimmed(s: string) {
    s == "" || (!IsSpace(s[0]) && !IsSpace(s[|s| - 1]))
  }

  /** `stripped` is the line without the white space at its end. */
  ghost predicate IsStripped(line: string, stripped: string) {
    && |stripped| <= |line| && line[..|stripped|] == stripped && AllSpace(line[|stripped|..])
    && (stripped == "" || !IsSpace(stripped[|stripped| - 1]))
  }

  lemma {:induction false} RStripIsStripped(s: string)
    ensures IsStripped(s, RStrip(s))
  {
    var after := RStripParts(s);
    assert s[|RStrip(s)|..] == after;
  }

  lemma {:induction false} RStripSpaces(s: string, spaces: string)
    requires AllSpace(spaces) && (s == "" || !IsSpace(s[|s| - 1]))
    ensures RStrip(s + spaces) == s
  {
    if spaces == "" {
      assert s + spaces == s;
    } else {
      assert (s + spaces)[..|s + spaces| - 1] == s + spaces[..|spaces| - 1];
      RStripSpaces(s, spaces[..|spaces| - 1]);
    }
  }

  lemma {:induction false} LStripSpaces(spaces: string, s: string)
    requires AllSpace(spaces) && (s == "" || !IsSpace(s[0]))
    ensures LStrip(spaces + s) == s
  {
    if spaces == "" {
      assert spaces + s == s;
    } else {
      assert (spaces + s)[1..] == spaces[1..] + s;
      LStripSpaces(spaces[1..], s);
    }
  }

  lemma {:induction false} RStripParts(s: string) returns (after: string)
    ensures AllSpace(after) && s == RStrip(s) + after
  {
    hide IsSpace;
    after := "";
    if s != "" && IsSpace(s[|s| - 1]) {
      after := RStripParts(s[..|s| - 1]);
      after := after + [s[|s| - 1]];
    }
  }

  lemma {:induction false} LStripParts(s: string) returns (before: string)
    ensures AllSpace(before) && s == before + LStrip(s)
  {
    hide IsSpace, LStrip;
    before := "";
    LStripStep(s);
    if s != "" && IsSpace(s[0]) {
      before := LStripParts(s[1..]);
      assert s == [s[0]] + s[1..];
      Attach([s[0]], before, LStrip(s[1..]));
      before := [s[0]] + before;
    }
  }

  lemma LStripStep(s: string)
    ensures LStrip(s) == if s != "" && IsSpace(s[0]) then LStrip(s[1..]) else s
  {
  }

  lemma Attach(a: string, b: string, c: string)
    ensures (a + b) + c == a + (b + c)
  {
  }

  /** Stripping is undone by putting white space around the result. */
  lemma StripParts(s: string) returns (before: string, after: string)
    ensures AllSpace(before) && AllSpace(after) && Trimmed(Strip(s))
    ensures s == before + Strip(s) + after
    ensures RStrip(s) == before + Strip(s)
  {
    after := RStripParts(s);
    before := LStripParts(RStrip(s));
    var l := Strip(s);
    if l != "" {
      assert (before + l)[|before + l| - 1] == l[|l| - 1];
    }
  }

  lemma StripSandwich(before: string, s: string, after: string)
    requires AllSpace(before) && AllSpace(after) && Trimmed(s) && s != ""
    ensures Strip(before + s + after) == s
  {
    RStripSpaces(before + s, after);
    LStripSpaces(before, s);
  }

  // ----- expandtabs -----

  function Spaces(n: nat): (s: string)
    ensures |s| == n && forall i | 0 <= i < n :: s[i] == ' '
  {
    seq(n, _ => ' ')
  }

  const TAB_SIZE := 4

  /** Distance from a column to the next tab stop. */
  function ToTabStop(column: nat): (n: nat)
    ensures 1 <= n <= TAB_SIZE && (column + n) % TAB_SIZE == 0
  {
    TAB_SIZE - column % TAB_SIZE
  }

  function NextColumn(c: char, column: nat): nat {
    if c == '\t' then column + ToTabStop(column)
    else if c == '\n' || c == '\r' then 0
    else column + 1
  }

  function ExpandTabs(s: string, column: nat): string
  {
    if s == "" then "" else
      (if s[0] == '\t' then Spaces(ToTabStop(column)) else [s[0]])
      + ExpandTabs(s[1..], NextColumn(s[0], column))
  }

  function ColumnAfter(s: string, column: nat): nat
  {
    if s == "" then column else ColumnAfter(s[1..], NextColumn(s[0], column))
  }

  lemma {:induction false} ExpandTabsConcat(a: string, b: string, column: nat)
    ensures ExpandTabs(a + b, column) ==
            ExpandTabs(a, column) + ExpandTabs(b, ColumnAfter(a, column))
  {
    if a == "" {
      assert a + b == b;
    } else {
      assert (a + b)[1..] == a[1..] + b;
      ExpandTabsConcat(a[1..], b, NextColumn(a[0], column));
    }
  }

  // Tab stops, measured on the expanded text itself.

  predicate EndsLine(c: char) {
    c == '\n' || c == '\r'
  }

  /** How much of the text stands behind its last line end. */
  function LastWidth(text: string): nat {
    if text == "" || EndsLine(text[|text| - 1]) then 0 else 1 + LastWidth(text[..|text| - 1])
  }

  /** The text as it is typed, with a tab stop at every fourth column. */
  ghost function Typed(s: string): string {
    if s == "" then "" else
      var text, last := Typed(s[..|s| - 1]), s[|s| - 1];
      text + if last == '\t' then Spaces(4 - LastWidth(text) % 4) else [last]
  }

  lemma {:induction false} ColumnAfterConcat(a: string, b: string, column: nat)
    ensures ColumnAfter(a + b, column) == ColumnAfter(b, ColumnAfter(a, column))
  {
    if a == "" {
      assert a + b == b;
    } else {
      assert (a + b)[1..] == a[1..] + b;
      ColumnAfterConcat(a[1..], b, NextColumn(a[0], column));
    }
  }

  lemma {:induction false} LastWidthOfSpaces(text: string, n: nat)
    ensures LastWidth(text + Spaces(n)) == LastWidth(text) + n
  {
    if n == 0 {
      assert text + Spaces(0) == text;
    } else {
      assert (text + Spaces(n))[..|text| + n - 1] == text + Spaces(n - 1);
      LastWidthOfSpaces(text, n - 1);
    }
  }

  lemma LastWidthSnoc(text: string, c: char)
    ensures LastWidth(text + [c]) == if EndsLine(c) then 0 else LastWidth(text) + 1
  {
    assert (text + [c])[..|text|] == text;
  }

  /** The column the expansion keeps is the one that can be read off its result. */
  lemma {:induction false} ExpandTabsIsTyped(s: string)
    ensures ExpandTabs(s, 0) == Typed(s)
    ensures ColumnAfter(s, 0) == LastWidth(Typed(s))
  {
    if s != "" {
      var front, last := s[..|s| - 1], s[|s| - 1];
      ExpandTabsIsTyped(front);
      assert s == front + [last];
      TypedStep(front, last, ColumnAfter(front, 0));
    }
  }

  lemma TypedStep(front: string, last: char, column: nat)
    requires ExpandTabs(front, 0) == Typed(front) && column == ColumnAfter(front, 0) == LastWidth(Typed(front))
    ensures ExpandTabs(front + [last], 0) == Typed(front + [last])
    ensures ColumnAfter(front + [last], 0) == LastWidth(Typed(front + [last]))
  {
    hide *;
    ExpandTabsConcat(front, [last], 0);
    ColumnAfterConcat(front, [last], 0);
    OneExpanded(last, column);
    TypedSnoc(front, last);
    if last == '\t' {
      LastWidthOfSpaces(Typed(front), 4 - column % 4);
    } else {
      LastWidthSnoc(Typed(front), last);
    }
    TabEndsNoLine(last);
  }

  lemma TabEndsNoLine(c: char)
    ensures c == '\t' ==> !EndsLine(c)
  {
  }

  lemma TypedSnoc(s: string, c: char)
    ensures Typed(s + [c]) == Typed(s) + if c == '\t' then Spaces(4 - LastWidth(Typed(s)) % 4) else [c]
  {
    hide LastWidth, Spaces;
    assert (s + [c])[..|s|] == s;
  }

  lemma OneExpanded(c: char, column: nat)
    ensures ExpandTabs([c], column) == if c == '\t' then Spaces(4 - column % 4) else [c]
    ensures ColumnAfter([c], column) ==
            if c == '\t' then column + (4 - column % 4) else if EndsLine(c) then 0 else column + 1
  {
    assert [c][1..] == "";
  }

  /** A tab in a line goes on to the next multiple of four columns. */
  lemma TabStops(s: string)
    requires forall i | 0 <= i < |s| :: !EndsLine(s[i])
    ensures ExpandTabs(s + "\t", 0) == ExpandTabs(s, 0) + Spaces(4 - |ExpandTabs(s, 0)| % 4)
  {
    hide ExpandTabs, ColumnAfter;
    ExpandTabsIsTyped(s);
    ExpandTabsIsTyped(s + "\t");
    assert (s + "\t")[..|s|] == s;
    TypedWidth(s);
  }

  lemma {:induction false} TypedWidth(s: string)
    requires forall i | 0 <= i < |s| :: !EndsLine(s[i])
    ensures LastWidth(Typed(s)) == |Typed(s)|
  {
    if s != "" {
      hide Typed, LastWidth;
      var text, last := Typed(s[..|s| - 1]), s[|s| - 1];
      TypedWidth(s[..|s| - 1]);
      TypedSnoc(s[..|s| - 1], last);
      assert s == s[..|s| - 1] + [last];
      if last == '\t' {
        LastWidthOfSpaces(text, 4 - LastWidth(text) % 4);
      } else {
        LastWidthSnoc(text, last);
      }
    }
  }

  /** Every other character stays as it is. */
  lemma OthersStay(s: string, c: char)
    requires c != '\t'
    ensures ExpandTabs(s + [c], 0) == ExpandTabs(s, 0) + [c]
  {
    ExpandTabsConcat(s, [c], 0);
    OneExpanded(c, ColumnAfter(s, 0));
  }

  /** Behind a line end the columns start again. */
  lemma LineEndRestarts(s: string, c: char, t: string)
    requires EndsLine(c)
    ensures ExpandTabs(s + [c] + t, 0) == ExpandTabs(s, 0) + [c] + ExpandTabs(t, 0)
  {
    ExpandTabsConcat(s + [c], t, 0);
    OthersStay(s, c);
    ColumnAfterConcat(s, [c], 0);
    OneExpanded(c, ColumnAfter(s, 0));
  }

  lemma {:induction false} ExpandTabsPlain(s: string, column: nat)
    requires '\t' !in s
    ensures ExpandTabs(s, column) == s
  {
    if s != "" {
      ExpandTabsPlain(s[1..], NextColumn(s[0], column));
    }
  }

  lemma {:induction false} ColumnAfterPlain(s: string, column: nat)
    requires forall i | 0 <= i < |s| :: s[i] !in {'\t', '\n', '\r'}
    ensures ColumnAfter(s, column) == column + |s|
  {
    if s != "" {
      ColumnAfterPlain(s[1..], NextColumn(s[0], column));
    }
  }

  lemma {:induction false} ExpandTabsLeavesNone(s: string, column: nat)
    ensures '\t' !in ExpandTabs(s, column)
    ensures '\n' in ExpandTabs(s, column) <==> '\n' in s
    ensures AllSpace(s) ==> AllSpace(ExpandTabs(s, column))
    ensures s != "" ==> ExpandTabs(s, column) != ""
  {
    if s != "" {
      ExpandTabsLeavesNone(s[1..], NextColumn(s[0], column));
      assert s == [s[0]] + s[1..];
    }
  }

  // ----- Lines -----

  /** `readlines`: every line keeps its newline; the last one may lack it. */
  function ReadLines(content: string): seq<string> {
    if content == "" then []
    else if content[0] == '\n' then ["\n"] + ReadLines(content[1..])
    else
      var rest := ReadLines(content[1..]);
      if rest == [] then [[content[0]]]
      else [[content[0]] + rest[0]] + rest[1..]
  }

  /** `writelines`: one line after the other. */
  function Join(lines: seq<string>): string {
    if lines == [] then "" else lines[0] + Join(lines[1..])
  }

  lemma {:induction false} JoinIsFlatten(lines: seq<string>)
    ensures Join(lines) == Flatten(lines)
  {
    if lines != [] {
      JoinIsFlatten(lines[1..]);
    }
  }

  /** One line as `readlines` gives it: not empty, with no newline but at its end. */
  ghost predicate IsLine(line: string) {
    line != "" && '\n' !in line[..|line| - 1]
  }

  predicate Terminated(line: string) {
    line != "" && line[|line| - 1] == '\n'
  }

  ghost predicate AreLines(lines: seq<string>) {
    && (forall i | 0 <= i < |lines| :: IsLine(lines[i]))
    && (forall i | 0 <= i < |lines| - 1 :: Terminated(lines[i]))
  }

  lemma {:induction false} ReadLinesGivesLines(content: string)
    ensures AreLines(ReadLines(content))
  {
    if content != "" {
      ReadLinesGivesLines(content[1..]);
      var lines, rest := ReadLines(content), ReadLines(content[1..]);
      if content[0] != '\n' && rest != [] {
        assert IsLine(rest[0]);
        assert lines[0][..|lines[0]| - 1] == [content[0]] + rest[0][..|rest[0]| - 1];
        assert forall i | 1 <= i < |lines| :: lines[i] == rest[i];
      }
    }
  }

  lemma JoinCons(line: string, rest: seq<string>)
    ensures Join([line] + rest) == line + Join(rest)
  {
    assert ([line] + rest)[1..] == rest;
  }

  lemma {:induction false} ReadLinesLosesNothing(content: string)
    ensures Join(ReadLines(content)) == content
  {
    if content != "" {
      ReadLinesLosesNothing(content[1..]);
      var lines, rest := ReadLines(content), ReadLines(content[1..]);
      assert content == [content[0]] + content[1..];
      if content[0] == '\n' {
        assert lines[1..] == rest;
      } else if rest != [] {
        JoinCons([content[0]] + rest[0], rest[1..]);
        Attach([content[0]], rest[0], Join(rest[1..]));
      }
    }
  }

  lemma {:induction false} ReadOneLine(line: string, rest: string)
    requires IsLine(line) && (Terminated(line) || rest == "")
    ensures ReadLines(line + rest) == [line] + ReadLines(rest)
  {
    if |line| == 1 {
      assert (line + rest)[1..] == rest;
      assert line == [line[0]];
    } else {
      assert (line + rest)[1..] == line[1..] + rest;
      assert line[0] in line[..|line| - 1];
      assert line[1..][..|line| - 2] == line[..|line| - 1][1..];
      ReadOneLine(line[1..], rest);
      assert line == [line[0]] + line[1..];
    }
  }

  /** Lines survive being written and read back. */
  lemma {:induction false} ReadBack(lines: seq<string>)
    requires AreLines(lines)
    ensures ReadLines(Join(lines)) == lines
  {
    if lines != [] {
      assert AreLines(lines[1..]) by {
        assert forall i | 0 <= i < |lines[1..]| :: lines[1..][i] == lines[i + 1];
      }
      ReadBack(lines[1..]);
      if |lines| == 1 {
        assert Join(lines[1..]) == "";
      }
      ReadOneLine(lines[0], Join(lines[1..]));
    }
  }
}
