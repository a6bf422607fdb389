/** The line fixers of the style checker (utils/check-style-clang-format.py):
    `check_manually_file` with `check_tabs_line` and `check_whitespace_line`.

    A file's content is its text after the interpreter has turned line ends into '\n'.
 */
module StyleChecker {
  import opened Sequences
  import opened Text

  const GUARD_ON := "// clang-format on"
  const GUARD_OFF := "// clang-format off"

  /** One reported problem; the column is where the caret points. */
  datatype Info = Info(filename: string, line: nat, column: nat, shown: string)

  datatype LineResult = LineResult(compliant: bool, fixed: string, infos: seq<Info>)

  /** A line check gets the line, the file name and the line number, from 0. */
  type LineCheck = (string, string, nat) -> LineResult

  // ----- The two line checks -----

  /** `str.find` for a tab; the length of the line when there is none. */
  function FindTab(line: string): (i: nat)
    ensures i <= |line| && '\t' !in line[..i]
    ensures i < |line| ==> line[i] == '\t'
  {
    if line == "" || line[0] == '\t' then 0 else
      var i := FindTab(line[1..]);
      assert line[..i + 1] == [line[0]] + line[1..][..i];
      1 + i
  }

  function CheckTabsLine(line: string, filename: string, lineNumber: nat): (r: LineResult)
    ensures r.compliant <==> '\t' !in line
    ensures r.compliant ==> r.fixed == line && r.infos == []
    ensures '\t' !in r.fixed && r.fixed == Typed(line)
    ensures !r.compliant ==>
              && |r.infos| == 1
              && r.infos[0].filename == filename && r.infos[0].line == lineNumber + 1
              && 1 <= r.infos[0].column <= |line| && line[r.infos[0].column - 1] == '\t'
              && '\t' !in line[..r.infos[0].column - 1]
              && IsStripped(line, r.infos[0].shown)
  {
    var tabIndex := FindTab(line);
    ExpandTabsIsTyped(line);
    if tabIndex < |line| then
      RStripIsStripped(line);
      ExpandTabsLeavesNone(line, 0);
      LineResult(false, ExpandTabs(line, 0), [Info(filename, lineNumber + 1, tabIndex + 1, RStrip(line))])
    else
      assert line[..tabIndex] == line;
      ExpandTabsPlain(line, 0);
      LineResult(true, line, [])
  }

  /** A line with nothing before its newline but what `rstrip` keeps. */
  predicate NoTrailingSpace(line: string) {
    Terminated(line) && (|line| == 1 || !IsSpace(line[|line| - 2]))
  }

  function CheckWhitespaceLine(line: string, filename: string, lineNumber: nat): (r: LineResult)
    ensures r.compliant <==> NoTrailingSpace(line)
    ensures r.compliant ==> r.fixed == line && r.infos == []
    ensures NoTrailingSpace(r.fixed) && Strip(r.fixed) == Strip(line)
    ensures IsStripped(line, r.fixed[..|r.fixed| - 1])
    ensures !r.compliant ==>
              && |r.infos| == 1
              && r.infos[0].filename == filename && r.infos[0].line == lineNumber + 1
              && r.infos[0].shown == Typed(r.fixed[..|r.fixed| - 1])
              && r.infos[0].column == |r.infos[0].shown| + 1
  {
    WhitespaceFix(line);
    RStripIsStripped(line);
    var fixed := RStrip(line) + "\n";
    assert fixed[..|fixed| - 1] == RStrip(line);
    ExpandTabsIsTyped(RStrip(line));
    if fixed != line then
      var shown := ExpandTabs(RStrip(fixed), 0);
      LineResult(false, fixed, [Info(filename, lineNumber + 1, |shown| + 1, shown)])
    else
      LineResult(true, fixed, [])
  }

  lemma WhitespaceFix(line: string)
    ensures RStrip(line) + "\n" == line <==> NoTrailingSpace(line)
    ensures Strip(RStrip(line) + "\n") == Strip(line) && RStrip(RStrip(line) + "\n") == RStrip(line)
  {
    var r := RStrip(line);
    RStripSpaces(r, "\n");
    if NoTrailingSpace(line) {
      var front := line[..|line| - 1];
      assert line == front + "\n";
      RStripSpaces(front, "\n");
    }
  }

  // ----- Guards -----

  datatype Guard = NoGuard | On | Off

  function GuardOf(line: string): Guard {
    var lineStripped := Strip(line);
    if lineStripped == GUARD_ON then On else if lineStripped == GUARD_OFF then Off else NoGuard
  }

  /** A guard is the text of the guard between white space. */
  lemma GuardMeans(line: string)
    ensures GuardOf(line) == On <==> exists before, after | AllSpace(before) && AllSpace(after) ::
              line == Framed(before, "// clang-format on", after)
    ensures GuardOf(line) == Off <==> exists before, after | AllSpace(before) && AllSpace(after) ::
              line == Framed(before, "// clang-format off", after)
  {
    FramedIff(line, GUARD_ON);
    FramedIff(line, GUARD_OFF);
  }

  ghost function Framed(before: string, s: string, after: string): string {
    before + s + after
  }

  lemma FramedIff(line: string, s: string)
    requires s != "" && Trimmed(s)
    ensures Strip(line) == s <==> exists before, after | AllSpace(before) && AllSpace(after) :: line == Framed(before, s, after)
  {
    hide RStrip, LStrip, IsSpace;
    var b, a := StripParts(line);
    if Strip(line) == s {
      assert line == Framed(b, s, a);
    }
    if before, after :| AllSpace(before) && AllSpace(after) && line == Framed(before, s, after) {
      StripSandwich(before, s, after);
    }
  }

  ghost function Guards(lines: seq<string>, guardOf: string -> Guard): (guards: seq<Guard>)
    ensures |guards| == |lines|
    ensures forall i | 0 <= i < |lines| :: guards[i] == guardOf(lines[i])
  {
    seq(|lines|, i requires 0 <= i < |lines| => guardOf(lines[i]))
  }

  function Switch(enabled: bool, guard: Guard): bool {
    match guard
    case On => true
    case Off => false
    case NoGuard => enabled
  }

  /** Whether formatting is on after the first `n` lines. */
  ghost function Enabled(guards: seq<Guard>, n: nat): bool
    requires n <= |guards|
  {
    n == 0 || Switch(Enabled(guards, n - 1), guards[n - 1])
  }

  /** Line `k` turned formatting off, and no line from there to `n` turned it on again. */
  ghost predicate OffSince(guards: seq<Guard>, k: nat, n: nat)
    requires k < n <= |guards|
  {
    guards[k] == Off && forall j | k < j < n :: guards[j] != On
  }

  /** Formatting is off exactly when an off guard was not followed by an on guard. */
  lemma {:induction false} EnabledMeans(guards: seq<Guard>, n: nat)
    requires n <= |guards|
    ensures !Enabled(guards, n) <==> exists k | 0 <= k < n :: OffSince(guards, k, n)
  {
    if n != 0 {
      var m := n - 1;
      EnabledMeans(guards, m);
      if guards[m] == Off {
        assert OffSince(guards, m, n);
      } else if guards[m] == NoGuard {
        if k :| 0 <= k < m && OffSince(guards, k, m) {
          assert OffSince(guards, k, n);
        }
        if k :| 0 <= k < n && OffSince(guards, k, n) {
          assert OffSince(guards, k, m);
        }
      }
    }
  }

  // ----- What a pass over a file says and does -----

  datatype Pass = Pass(lines: seq<string>, guards: seq<Guard>, filename: string, respect: bool, check: LineCheck) {
    /** Lines are checked outside off regions; guards are checked everywhere. */
    ghost predicate Checked(i: nat)
      requires i < |guards|
    {
      respect ==> Enabled(guards, i + 1) || guards[i] != NoGuard
    }

    ghost predicate Ok(i: nat)
      requires i < |lines| == |guards|
    {
      Checked(i) ==> check(lines[i], filename, i).compliant
    }

    ghost predicate Compliant()
      requires |lines| == |guards|
    {
      forall i | 0 <= i < |lines| :: Ok(i)
    }

    ghost function FixedLines(): (fixed: seq<string>)
      requires |lines| == |guards|
      ensures |fixed| == |lines|
      ensures forall i | 0 <= i < |lines| :: fixed[i] == if Ok(i) then lines[i] else check(lines[i], filename, i).fixed
    {
      seq(|lines|, i requires 0 <= i < |lines| => if Ok(i) then lines[i] else check(lines[i], filename, i).fixed)
    }

    /** Everything there is to report about the first `n` lines. */
    ghost function Infos(n: nat): seq<Info>
      requires n <= |lines| == |guards|
    {
      if n == 0 then [] else Infos(n - 1) + if Ok(n - 1) then [] else check(lines[n - 1], filename, n - 1).infos
    }

    lemma Start()
      requires |lines| == |guards|
      ensures Infos(0) == [] && Enabled(guards, 0)
    {
    }

    lemma Step(i: nat, before: seq<Info>, infos: seq<Info>)
      requires i < |lines| == |guards| && before == Infos(i)
      requires infos == if Ok(i) then [] else check(lines[i], filename, i).infos
      ensures Infos(i + 1) == before + infos
      ensures (forall j | 0 <= j < i + 1 :: Ok(j)) <==> (forall j | 0 <= j < i :: Ok(j)) && Ok(i)
      ensures before == [] && (forall j | 0 <= j < i :: Ok(j)) && !Ok(i) ==> FirstBad(i, before + infos)
    {
    }

    /** The report of a check that stops at the first bad line. */
    ghost predicate FirstBad(i: nat, infos: seq<Info>)
      requires i < |lines| == |guards|
    {
      (forall j | 0 <= j < i :: Ok(j)) && !Ok(i) && infos == check(lines[i], filename, i).infos
    }
  }

  /** A line is skipped exactly when guards are respected, it is no guard, and an earlier line
      turned formatting off with no line between them turning it on. */
  lemma SkippedMeans(pass: Pass, i: nat)
    requires i < |pass.guards|
    ensures !pass.Checked(i) <==>
            pass.respect && pass.guards[i] == NoGuard && exists k | 0 <= k < i :: OffSince(pass.guards, k, i)
  {
    EnabledMeans(pass.guards, i);
  }

  /** The report: that of each checked line that is not compliant, in the order of the lines. */
  lemma {:induction false} InfosAreReports(pass: Pass, reports: seq<seq<Info>>, n: nat)
    requires n == |reports| <= |pass.lines| == |pass.guards|
    requires forall i | 0 <= i < n ::
               var r := pass.check(pass.lines[i], pass.filename, i);
               reports[i] == if pass.Checked(i) && !r.compliant then r.infos else []
    ensures pass.Infos(n) == Flatten(reports)
  {
    if n == 0 {
      FlattenLength(reports);
    } else {
      InfosAreReports(pass, reports[..n - 1], n - 1);
      FlattenSnoc(reports[..n - 1], reports[n - 1]);
      assert reports == reports[..n - 1] + [reports[n - 1]];
    }
  }

  ghost function PassOver(lines: seq<string>, filename: string, respect: bool, check: LineCheck): Pass {
    Pass(lines, Guards(lines, GuardOf), filename, respect, check)
  }

  ghost function ContentAfter(content: string, filename: string, fix: bool, respect: bool, check: LineCheck): string {
    var pass := PassOver(ReadLines(content), filename, respect, check);
    if fix && !pass.Compliant() then Join(pass.FixedLines()) else content
  }

  class SourceFile {
    const filename: string
    var content: string

    constructor (filename: string, content: string)
      ensures this.filename == filename && this.content == content
    {
      this.filename, this.content := filename, content;
    }

    /** Check or fix the file.  The verdict is the same in every mode: checking may stop at the
        first bad line, which is then all it reports. */
    method CheckManually(fix: bool, verbose: bool, respect: bool, check: LineCheck)
      returns (isFileCompliant: bool, verboseInfos: seq<Info>)
      modifies this
      ensures content == ContentAfter(old(content), filename, fix, respect, check)
      ensures !fix ==> content == old(content)
      ensures var pass := PassOver(ReadLines(old(content)), filename, respect, check);
              && isFileCompliant == pass.Compliant()
              && (fix || verbose ==> verboseInfos == pass.Infos(|pass.lines|))
              && (!fix && !verbose && isFileCompliant ==> verboseInfos == [])
              && (!fix && !verbose && !isFileCompliant ==> exists i | 0 <= i < |pass.lines| :: pass.FirstBad(i, verboseInfos))
    {
      var read := ReadLines(content);
      var fileLines := new string[|read|](i requires 0 <= i < |read| => read[i]);
      assert fileLines[..] == read;
      ghost var pass := PassOver(read, filename, respect, check);
      isFileCompliant, verboseInfos := CheckLines(fileLines, fix, verbose, respect, check, GuardOf, pass);
      if fix && !isFileCompliant {
        WriteLines(fileLines);
      }
    }

    /** The loop over the lines, which overwrites the lines it fixes. */
    method CheckLines(fileLines: array<string>, fix: bool, verbose: bool, respect: bool, check: LineCheck,
                      guardOf: string -> Guard, ghost pass: Pass)
      returns (isFileCompliant: bool, verboseInfos: seq<Info>)
      requires fileLines[..] == pass.lines && pass.guards == Guards(pass.lines, guardOf)
      requires pass.filename == filename && pass.respect == respect && pass.check == check
      modifies fileLines
      ensures && isFileCompliant == pass.Compliant()
              && (fix || verbose ==> fileLines[..] == pass.FixedLines() && verboseInfos == pass.Infos(|pass.lines|))
              && (!fix && !verbose && isFileCompliant ==> verboseInfos == [])
              && (!fix && !verbose && !isFileCompliant ==> exists i | 0 <= i < |pass.lines| :: pass.FirstBad(i, verboseInfos))
    {
      hide Pass.Infos, Pass.Ok, Enabled;
      isFileCompliant, verboseInfos := true, [];
      var clangFormatEnabled := true;
      pass.Start();
      ghost var fixed := pass.FixedLines();
      var i := 0;
      while i < fileLines.Length
        invariant 0 <= i <= |pass.lines| == fileLines.Length
        invariant respect ==> clangFormatEnabled == Enabled(pass.guards, i)
        invariant isFileCompliant <==> forall j | 0 <= j < i :: pass.Ok(j)
        invariant forall j | 0 <= j < i :: fileLines[j] == fixed[j]
        invariant forall j | i <= j < fileLines.Length :: fileLines[j] == pass.lines[j]
        invariant verboseInfos == pass.Infos(i)
        invariant !fix && !verbose ==> isFileCompliant && verboseInfos == []
      {
        var ok, infos;
        clangFormatEnabled, ok, infos := CheckLine(fileLines, i, clangFormatEnabled, guardOf, respect, check, pass);
        pass.Step(i, verboseInfos, infos);
        if !ok {
          isFileCompliant := false;
          verboseInfos := verboseInfos + infos;
          if !fix && !verbose {
            return;
          }
        }
        i := i + 1;
      }
      assert fileLines[..] == fixed;
    }

    /** One line: switch formatting on or off, then check the line, unless it is skipped, and overwrite it if it is bad. */
    method CheckLine(fileLines: array<string>, i: nat, wasEnabled: bool, guardOf: string -> Guard,
                     respect: bool, check: LineCheck, ghost pass: Pass)
      returns (clangFormatEnabled: bool, ok: bool, infos: seq<Info>)
      requires i < fileLines.Length == |pass.lines| == |pass.guards| && fileLines[i] == pass.lines[i]
      requires pass.guards[i] == guardOf(pass.lines[i]) && pass.filename == filename
      requires pass.respect == respect && pass.check == check
      requires pass.respect ==> wasEnabled == Enabled(pass.guards, i)
      modifies fileLines
      ensures pass.respect ==> clangFormatEnabled == Enabled(pass.guards, i + 1)
      ensures ok <==> pass.Ok(i)
      ensures infos == if ok then [] else pass.check(pass.lines[i], pass.filename, i).infos
      ensures fileLines[i] == pass.FixedLines()[i]
      ensures forall j | 0 <= j < fileLines.Length && j != i :: fileLines[j] == old(fileLines[j])
    {
      clangFormatEnabled, ok, infos := wasEnabled, true, [];
      var line := fileLines[i];
      if respect {
        var guard := guardOf(line);
        if guard == On {
          clangFormatEnabled := true;
        } else if guard == Off {
          clangFormatEnabled := false;
        }
        if !clangFormatEnabled && guard != On && guard != Off {
          return;
        }
      }
      assert pass.Checked(i);
      var r := check(line, filename, i);
      if !r.compliant {
        ok := false;
        fileLines[i] := r.fixed;
        infos := r.infos;
      }
    }

    method WriteLines(fileLines: array<string>)
      modifies `content
      ensures content == Join(fileLines[..])
    {
      var written := "";
      for i := 0 to fileLines.Length
        invariant written + Join(fileLines[i..]) == Join(fileLines[..])
      {
        assert fileLines[i..][1..] == fileLines[i + 1..];
        written := written + fileLines[i];
      }
      assert fileLines[fileLines.Length..] == [];
      assert written + "" == written;
      content := written;
    }
  }
}
