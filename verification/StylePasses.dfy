/** What the fixing passes of the style checker achieve
    (utils/check-style-clang-format.py). */
module StylePasses {
  import opened Text
  import opened StyleChecker

  // ----- What a line check has to promise -----

  /** A fixed line passes its own check. */
  ghost predicate Settles(check: LineCheck, line: string, filename: string, n: nat) {
    check(check(line, filename, n).fixed, filename, n).compliant
  }

  /** A guard line stays the same guard. */
  ghost predicate KeepsGuard(check: LineCheck, guardOf: string -> Guard, line: string, filename: string, n: nat) {
    guardOf(line) != NoGuard ==> guardOf(check(line, filename, n).fixed) == guardOf(line)
  }

  /** A line stays one line. */
  ghost predicate KeepsLine(check: LineCheck, line: string, filename: string, n: nat) {
    var fixed := check(line, filename, n).fixed;
    IsLine(line) ==> IsLine(fixed) && (Terminated(line) ==> Terminated(fixed))
  }

  ghost predicate SettlesAll(check: LineCheck) {
    forall line, filename, n {:trigger Settles(check, line, filename, n)} :: Settles(check, line, filename, n)
  }

  ghost predicate KeepsGuards(check: LineCheck, guardOf: string -> Guard) {
    forall line, filename, n {:trigger KeepsGuard(check, guardOf, line, filename, n)} ::
      KeepsGuard(check, guardOf, line, filename, n)
  }

  ghost predicate KeepsLines(check: LineCheck) {
    forall line, filename, n {:trigger KeepsLine(check, line, filename, n)} :: KeepsLine(check, line, filename, n)
  }

  // ----- A second pass finds nothing -----

  /** A fixing pass may make new guards, but formatting enabled after them was enabled before. */
  lemma {:induction false} EnabledBefore(first: Pass, second: Pass, guardOf: string -> Guard, n: nat)
    requires first.guards == Guards(first.lines, guardOf)
    requires second.lines == first.FixedLines() && second.guards == Guards(second.lines, guardOf)
    requires first.respect && KeepsGuards(first.check, guardOf) && n <= |first.lines|
    ensures Enabled(second.guards, n) ==> Enabled(first.guards, n)
  {
    if n != 0 {
      EnabledBefore(first, second, guardOf, n - 1);
      assert KeepsGuard(first.check, guardOf, first.lines[n - 1], first.filename, n - 1);
    }
  }

  lemma SecondPass(first: Pass, second: Pass, guardOf: string -> Guard)
    requires first.guards == Guards(first.lines, guardOf)
    requires second == Pass(first.FixedLines(), Guards(first.FixedLines(), guardOf), first.filename, first.respect, first.check)
    requires SettlesAll(first.check) && (first.respect ==> KeepsGuards(first.check, guardOf))
    ensures second.Compliant()
    ensures forall i | 0 <= i < |first.lines| && !first.Checked(i) :: second.lines[i] == first.lines[i]
  {
    forall i | 0 <= i < |second.lines|
      ensures second.Ok(i)
    {
      assert Settles(first.check, first.lines[i], first.filename, i);
      if first.respect {
        EnabledBefore(first, second, guardOf, i + 1);
      }
    }
  }

  /** Fixing a file leaves it compliant, and fixing it again changes nothing.  It keeps its
      lines, and those that are not checked keep their text. */
  lemma FixingSettles(content: string, filename: string, respect: bool, check: LineCheck)
    requires SettlesAll(check) && KeepsLines(check) && (respect ==> KeepsGuards(check, GuardOf))
    ensures var fixed := ContentAfter(content, filename, true, respect, check);
            var before, after := PassOver(ReadLines(content), filename, respect, check),
                                 PassOver(ReadLines(fixed), filename, respect, check);
            && after.Compliant()
            && ContentAfter(fixed, filename, true, respect, check) == fixed
            && after.lines == before.FixedLines()
            && forall i | 0 <= i < |before.lines| && !before.Checked(i) :: after.lines[i] == before.lines[i]
  {
    var first := PassOver(ReadLines(content), filename, respect, check);
    ReadLinesGivesLines(content);
    ReadLinesLosesNothing(content);
    FixedLinesAreLines(first);
    ReadBack(first.FixedLines());
    if first.Compliant() {
      assert first.FixedLines() == first.lines;
    }
    SecondPass(first, PassOver(first.FixedLines(), filename, respect, check), GuardOf);
  }

  lemma FixedLinesAreLines(pass: Pass)
    requires |pass.guards| == |pass.lines| && AreLines(pass.lines) && KeepsLines(pass.check)
    ensures AreLines(pass.FixedLines())
  {
    var fixed := pass.FixedLines();
    forall i | 0 <= i < |fixed|
      ensures IsLine(fixed[i]) && (i < |fixed| - 1 ==> Terminated(fixed[i]))
    {
      assert KeepsLine(pass.check, pass.lines[i], pass.filename, i);
    }
  }

  // ----- Tabs -----

  lemma TabsKeepGuard(line: string)
    requires GuardOf(line) != NoGuard
    ensures GuardOf(ExpandTabs(line, 0)) == GuardOf(line)
  {
    hide RStrip, LStrip, ExpandTabs, ColumnAfter, IsSpace;
    var guard := Strip(line);
    var before, after := StripParts(line);
    var column := ColumnAfter(before, 0);
    ExpandTabsConcat(before + guard, after, 0);
    ExpandTabsConcat(before, guard, 0);
    ExpandTabsPlain(guard, column);
    ExpandTabsLeavesNone(before, 0);
    ExpandTabsLeavesNone(after, ColumnAfter(before + guard, 0));
    StripSandwich(ExpandTabs(before, 0), guard, ExpandTabs(after, ColumnAfter(before + guard, 0)));
  }

  lemma TabsKeepLine(line: string)
    requires IsLine(line)
    ensures IsLine(ExpandTabs(line, 0)) && (Terminated(line) ==> Terminated(ExpandTabs(line, 0)))
  {
    var front, last := line[..|line| - 1], line[|line| - 1..];
    assert line == front + last;
    ExpandTabsConcat(front, last, 0);
    ExpandTabsLeavesNone(front, 0);
    var expanded, end := ExpandTabs(line, 0), ExpandTabs(last, ColumnAfter(front, 0));
    assert last[1..] == "";
    if last == "\t" {
      assert '\n' !in end;
      assert '\n' !in expanded;
    } else {
      assert end == last;
      assert expanded[..|expanded| - 1] == ExpandTabs(front, 0);
    }
  }

  lemma TabsSettle()
    ensures SettlesAll(CheckTabsLine) && KeepsLines(CheckTabsLine) && KeepsGuards(CheckTabsLine, GuardOf)
  {
    hide ExpandTabs, GuardOf, CheckTabsLine, Settles, IsLine, Terminated;
    forall line, filename, n
      ensures Settles(CheckTabsLine, line, filename, n)
      ensures KeepsLine(CheckTabsLine, line, filename, n)
      ensures KeepsGuard(CheckTabsLine, GuardOf, line, filename, n)
    {
      TabsFix(line, filename, n);
      if IsLine(line) {
        TabsKeepLine(line);
      }
      if GuardOf(line) != NoGuard {
        TabsKeepGuard(line);
      }
    }
  }

  lemma TabsFix(line: string, filename: string, n: nat)
    ensures Settles(CheckTabsLine, line, filename, n)
    ensures CheckTabsLine(line, filename, n).fixed == ExpandTabs(line, 0)
  {
    hide ExpandTabs;
    if '\t' !in line {
      ExpandTabsPlain(line, 0);
    }
  }

  // ----- White space -----

  lemma WhitespaceKeepsLine(line: string)
    requires IsLine(line)
    ensures IsLine(RStrip(line) + "\n")
  {
    var r := RStrip(line);
    var after := RStripParts(line);
    forall k | 0 <= k < |r|
      ensures r[k] != '\n'
    {
      assert r[k] == line[k];
      if k < |line| - 1 {
        assert line[..|line| - 1][k] == line[k];
      }
    }
    assert (r + "\n")[..|r + "\n"| - 1] == r;
  }

  lemma WhitespaceSettles()
    ensures SettlesAll(CheckWhitespaceLine) && KeepsLines(CheckWhitespaceLine)
  {
    forall line, filename, n
      ensures Settles(CheckWhitespaceLine, line, filename, n)
      ensures KeepsLine(CheckWhitespaceLine, line, filename, n)
    {
      if IsLine(line) {
        WhitespaceKeepsLine(line);
      }
    }
  }

  /** Expanding tabs brings back no trailing white space. */
  lemma TabsKeepNoTrailingSpace(line: string)
    requires NoTrailingSpace(line)
    ensures NoTrailingSpace(ExpandTabs(line, 0))
  {
    var front := line[..|line| - 1];
    assert line == front + "\n";
    ExpandTabsConcat(front, "\n", 0);
    assert ExpandTabs("\n", ColumnAfter(front, 0)) == "\n" + ExpandTabs("", 0);
    if front != "" {
      var init, last := front[..|front| - 1], front[|front| - 1..];
      assert front == init + last;
      ExpandTabsConcat(init, last, 0);
      assert last[1..] == "";
      assert ExpandTabs(last, ColumnAfter(init, 0)) == last;
    }
  }

  // ----- Both passes, as a run of the checker makes them -----

  /** After a fixing run, trailing white space and then tabs, both checks find the file compliant,
      and it differs from the original in white space only. */
  lemma FixingRunSettles(content: string, filename: string)
    ensures var trimmed := ContentAfter(content, filename, true, false, CheckWhitespaceLine);
            var fixed := ContentAfter(trimmed, filename, true, true, CheckTabsLine);
            && PassOver(ReadLines(fixed), filename, false, CheckWhitespaceLine).Compliant()
            && PassOver(ReadLines(fixed), filename, true, CheckTabsLine).Compliant()
            && Ink(fixed) == Ink(content)
  {
    var trimmed := ContentAfter(content, filename, true, false, CheckWhitespaceLine);
    WhitespaceSettles();
    FixingSettles(content, filename, false, CheckWhitespaceLine);
    TabsSettle();
    FixingSettles(trimmed, filename, true, CheckTabsLine);
    var white := PassOver(ReadLines(trimmed), filename, false, CheckWhitespaceLine);
    var tabs := PassOver(ReadLines(trimmed), filename, true, CheckTabsLine);
    BothKeepInk();
    ContentKeepsInk(content, filename, true, false, CheckWhitespaceLine);
    ContentKeepsInk(trimmed, filename, true, true, CheckTabsLine);
    TabsKeepTrimmed(tabs, white, PassOver(tabs.FixedLines(), filename, false, CheckWhitespaceLine));
  }

  lemma TabsKeepTrimmed(tabs: Pass, white: Pass, after: Pass)
    requires |tabs.guards| == |tabs.lines| == |white.guards| == |after.guards| && white.lines == tabs.lines
    requires after.lines == tabs.FixedLines() && tabs.check == CheckTabsLine
    requires !white.respect && white.check == after.check == CheckWhitespaceLine && white.Compliant()
    ensures after.Compliant()
  {
    forall i | 0 <= i < |after.lines|
      ensures after.Ok(i)
    {
      assert white.Ok(i);
      TabsKeepNoTrailingSpace(white.lines[i]);
    }
  }

  // ----- Only white space is changed -----

  /** The text without its white space. */
  ghost function Ink(s: string): string {
    if s == "" then "" else Ink(s[..|s| - 1]) + if IsSpace(s[|s| - 1]) then "" else [s[|s| - 1]]
  }

  lemma {:induction false} InkConcat(a: string, b: string)
    ensures Ink(a + b) == Ink(a) + Ink(b)
  {
    if b == "" {
      assert a + b == a;
    } else {
      assert (a + b)[..|a + b| - 1] == a + b[..|b| - 1];
      InkConcat(a, b[..|b| - 1]);
    }
  }

  lemma {:induction false} InkOfSpaces(s: string)
    requires AllSpace(s)
    ensures Ink(s) == ""
  {
    if s != "" {
      InkOfSpaces(s[..|s| - 1]);
    }
  }

  lemma {:induction false} TabsKeepInk(s: string, column: nat)
    ensures Ink(ExpandTabs(s, column)) == Ink(s)
  {
    if s != "" {
      var first := if s[0] == '\t' then Spaces(ToTabStop(column)) else [s[0]];
      TabsKeepInk(s[1..], NextColumn(s[0], column));
      InkConcat(first, ExpandTabs(s[1..], NextColumn(s[0], column)));
      assert s == s[..1] + s[1..];
      InkConcat(s[..1], s[1..]);
      if s[0] == '\t' {
        InkOfSpaces(first);
        InkOfSpaces(s[..1]);
      }
    }
  }

  lemma WhitespaceKeepsInk(line: string)
    ensures Ink(RStrip(line) + "\n") == Ink(line)
  {
    var after := RStripParts(line);
    InkConcat(RStrip(line), after);
    InkConcat(RStrip(line), "\n");
    InkOfSpaces(after);
    InkOfSpaces("\n");
  }

  ghost predicate KeepsInk(check: LineCheck, line: string, filename: string, n: nat) {
    Ink(check(line, filename, n).fixed) == Ink(line)
  }

  ghost predicate KeepsAllInk(check: LineCheck) {
    forall line, filename, n {:trigger KeepsInk(check, line, filename, n)} :: KeepsInk(check, line, filename, n)
  }

  lemma BothKeepInk()
    ensures KeepsAllInk(CheckTabsLine) && KeepsAllInk(CheckWhitespaceLine)
  {
    forall line, filename, n
      ensures KeepsInk(CheckTabsLine, line, filename, n)
      ensures KeepsInk(CheckWhitespaceLine, line, filename, n)
    {
      TabsKeepInk(line, 0);
      WhitespaceKeepsInk(line);
    }
  }

  /** No mode of the checker changes a file in anything but white space. */
  lemma ContentKeepsInk(content: string, filename: string, fix: bool, respect: bool, check: LineCheck)
    requires KeepsAllInk(check)
    ensures Ink(ContentAfter(content, filename, fix, respect, check)) == Ink(content)
  {
    var pass := PassOver(ReadLines(content), filename, respect, check);
    forall i | 0 <= i < |pass.lines|
      ensures Ink(pass.FixedLines()[i]) == Ink(pass.lines[i])
    {
      assert KeepsInk(check, pass.lines[i], filename, i);
    }
    SameInk(pass.lines, pass.FixedLines());
    ReadLinesLosesNothing(content);
  }

  lemma {:induction false} SameInk(a: seq<string>, b: seq<string>)
    requires |a| == |b| && forall i | 0 <= i < |a| :: Ink(b[i]) == Ink(a[i])
    ensures Ink(Join(b)) == Ink(Join(a))
  {
    if a != [] {
      SameInk(a[1..], b[1..]);
      InkConcat(a[0], Join(a[1..]));
      InkConcat(b[0], Join(b[1..]));
    }
  }

  // ----- Fixing tabs can make a guard -----

  predicate Plain(s: string) {
    forall i | 0 <= i < |s| :: s[i] !in {'\t', '\n', '\r'}
  }

  /** A tab one column before a tab stop becomes one space. */
  lemma TabBecomesSpace(head: string, tail: string)
    requires Plain(head) && |head| % TAB_SIZE == TAB_SIZE - 1 && '\t' !in tail
    ensures ExpandTabs(head + ("\t" + tail), 0) == head + (" " + tail)
  {
    PlainFirst(head, "\t" + tail);
    TabFirst(tail, |head|);
  }

  lemma PlainFirst(head: string, rest: string)
    requires Plain(head)
    ensures ExpandTabs(head + rest, 0) == head + ExpandTabs(rest, |head|)
  {
    hide ExpandTabs, ColumnAfter;
    ColumnAfterPlain(head, 0);
    ExpandTabsPlain(head, 0);
    ExpandTabsConcat(head, rest, 0);
  }

  lemma TabFirst(tail: string, column: nat)
    requires column % TAB_SIZE == TAB_SIZE - 1 && '\t' !in tail
    ensures ExpandTabs("\t" + tail, column) == " " + tail
  {
    assert ("\t" + tail)[1..] == tail;
    ExpandTabsPlain(tail, column + 1);
    assert Spaces(1) == " ";
  }

  /** An off guard written with a tab instead of its second space is no guard; its expansion is one. */
  lemma TabMakesGuard(head: string, tail: string)
    requires Plain(head) && |head| % TAB_SIZE == TAB_SIZE - 1 && '\t' !in tail
    requires head + (" " + tail) == GUARD_OFF && head != "" && tail != ""
    ensures GuardOf(head + ("\t" + (tail + "\n"))) == NoGuard
    ensures GuardOf(ExpandTabs(head + ("\t" + (tail + "\n")), 0)) == Off
  {
    TabBecomesSpace(head, tail + "\n");
    ConcatThree(head, "\t", tail, "\n");
    ConcatThree(head, " ", tail, "\n");
    var tabbed := head + ("\t" + tail);
    TabbedIsTrimmed(head, tail);
    Unterminated(tabbed);
    Unterminated(GUARD_OFF);
  }

  lemma ConcatThree(a: string, b: string, c: string, d: string)
    ensures a + (b + (c + d)) == (a + (b + c)) + d
  {
  }

  lemma TabbedIsTrimmed(head: string, tail: string)
    requires head + (" " + tail) == GUARD_OFF && head != "" && tail != ""
    ensures Trimmed(GUARD_OFF) && Trimmed(head + ("\t" + tail))
    ensures head + ("\t" + tail) != GUARD_OFF && head + ("\t" + tail) != GUARD_ON
  {
    var tabbed, guard := head + ("\t" + tail), head + (" " + tail);
    assert tabbed[0] == guard[0] && tabbed[|tabbed| - 1] == guard[|guard| - 1];
    assert tabbed[|head|] == '\t' && '\t' !in GUARD_ON && '\t' !in GUARD_OFF;
  }

  lemma Unterminated(line: string)
    requires line != "" && Trimmed(line)
    ensures Strip(line + "\n") == line
  {
    StripSandwich("", line, "\n");
    assert "" + line + "\n" == line + "\n";
  }

  /** The line itself: no guard before the fix, an off guard after it. */
  lemma TabbedGuard()
    ensures GuardOf("// clang-format\toff\n") == NoGuard && GuardOf(ExpandTabs("// clang-format\toff\n", 0)) == Off
  {
    hide GuardOf, ExpandTabs;
    var head, tail := "// clang-format", "off";
    assert head + (" " + tail) == GUARD_OFF;
    assert head + ("\t" + (tail + "\n")) == "// clang-format\toff\n";
    TabMakesGuard(head, tail);
  }

  /** So a second pass may check fewer lines than the first: here the first pass fixes the
      second line and the second pass skips it. */
  lemma SecondPassMayCheckFewer(head: string, tail: string, x: string, filename: string)
    requires Plain(head) && |head| % TAB_SIZE == TAB_SIZE - 1 && '\t' !in tail
    requires head + (" " + tail) == GUARD_OFF && head != "" && tail != ""
    requires GuardOf(x) == NoGuard && GuardOf(ExpandTabs(x, 0)) == NoGuard
    ensures var first := PassOver([head + ("\t" + (tail + "\n")), x], filename, true, CheckTabsLine);
            first.Checked(1) && !PassOver(first.FixedLines(), filename, true, CheckTabsLine).Checked(1)
  {
    TabMakesGuard(head, tail);
    var line := head + ("\t" + (tail + "\n"));
    assert line[|head|] == '\t';
    OffFromFirst(line, x, filename, CheckTabsLine, GuardOf);
  }

  lemma OffFromFirst(line: string, x: string, filename: string, check: LineCheck, guardOf: string -> Guard)
    requires guardOf(line) == guardOf(x) == NoGuard && !check(line, filename, 0).compliant
    requires guardOf(check(line, filename, 0).fixed) == Off
    requires guardOf(check(x, filename, 1).fixed) == NoGuard
    ensures var first := Pass([line, x], Guards([line, x], guardOf), filename, true, check);
            var second := Pass(first.FixedLines(), Guards(first.FixedLines(), guardOf), filename, true, check);
            first.Checked(1) && !second.Checked(1)
  {
    var first := Pass([line, x], Guards([line, x], guardOf), filename, true, check);
    var fixed := first.FixedLines();
    var second := Pass(fixed, Guards(fixed, guardOf), filename, true, check);
    assert first.guards[0] == NoGuard && first.guards[1] == NoGuard;
    assert Enabled(first.guards, 1) && Enabled(first.guards, 2);
    assert !first.Ok(0);
    assert second.guards[0] == Off && second.guards[1] == NoGuard;
    assert !Enabled(second.guards, 1) && !Enabled(second.guards, 2);
  }
}
