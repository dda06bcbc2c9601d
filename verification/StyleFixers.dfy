/** The trailing-whitespace and tab fixers of `check-style-clang-format.py`, over the text of a file. */
module StyleFixers {
  import opened TextLines

  const GUARD_ON := "// clang-format on"
  const GUARD_OFF := "// clang-format off"

  /** The lines `open(...).readlines()` gives. */
  function Load(content: string): seq<string> { Lines(UniversalNewlines(content)) }

  // ---------------------------------------------------------------- tabs, line by line

  predicate IsGuard(line: string) { Strip(line) == GUARD_ON || Strip(line) == GUARD_OFF }

  /** The guard state after a line, given the state before it. */
  predicate EnabledAfter(enabled: bool, line: string)
  {
    if Strip(line) == GUARD_ON then true else if Strip(line) == GUARD_OFF then false else enabled
  }

  /** Guard lines are looked at even where formatting is off. */
  predicate Examined(enabled: bool, line: string) { EnabledAfter(enabled, line) || IsGuard(line) }

  /** The guard state before line `i`. */
  predicate EnabledBefore(lines: seq<string>, i: nat)
    requires i <= |lines|
  {
    if i == 0 then true else EnabledAfter(EnabledBefore(lines, i - 1), lines[i - 1])
  }

  predicate TabAt(lines: seq<string>, i: nat)
    requires i < |lines|
  {
    Examined(EnabledBefore(lines, i), lines[i]) && '\t' in lines[i]
  }

  ghost predicate TabsFound(lines: seq<string>) { exists i :: 0 <= i < |lines| && TabAt(lines, i) }

  function TabFixed(lines: seq<string>, i: nat): string
    requires i < |lines|
  {
    if Examined(EnabledBefore(lines, i), lines[i]) then ExpandTabs(lines[i]) else lines[i]
  }

  function FixTabs(lines: seq<string>): (r: seq<string>)
    ensures |r| == |lines|
  {
    seq(|lines|, i requires 0 <= i < |lines| => TabFixed(lines, i))
  }

  /** Formatting is switched off before line `i`: some line above says off, and none since says on. */
  ghost predicate OffBefore(lines: seq<string>, i: nat)
    requires i <= |lines|
  {
    exists j :: 0 <= j < i && OffSince(lines, j, i)
  }

  ghost predicate OffSince(lines: seq<string>, j: nat, i: nat)
    requires j < i <= |lines|
  {
    && Strip(lines[j]) == "// clang-format off"
    && forall k :: j < k < i ==> Strip(lines[k]) != "// clang-format on"
  }

  lemma {:induction false} EnabledMeans(lines: seq<string>, i: nat)
    requires i <= |lines|
    ensures EnabledBefore(lines, i) <==> !OffBefore(lines, i)
  {
    if i > 0 {
      EnabledMeans(lines, i - 1);
      OffNext(lines, i - 1);
    }
  }

  lemma OffNext(lines: seq<string>, n: nat)
    requires n < |lines|
    ensures OffBefore(lines, n + 1) <==>
              || Strip(lines[n]) == "// clang-format off"
              || (OffBefore(lines, n) && Strip(lines[n]) != "// clang-format on")
  {
    hide Strip;
    var i := n + 1;
    if Strip(lines[n]) == "// clang-format off" {
      assert OffSince(lines, n, i);
    }
    if OffBefore(lines, n) && Strip(lines[n]) != "// clang-format on" {
      var j :| 0 <= j < n && OffSince(lines, j, n);
      assert OffSince(lines, j, i);
    }
    if OffBefore(lines, i) {
      var j :| 0 <= j < i && OffSince(lines, j, i);
      assert j < n ==> OffSince(lines, j, n);
    }
  }

  /** The line has a tab and is not in a region that is switched off, or is a guard itself. */
  ghost predicate Reportable(lines: seq<string>, i: nat)
    requires i < |lines|
  {
    && '\t' in lines[i]
    && (!OffBefore(lines, i) || Strip(lines[i]) == "// clang-format on" || Strip(lines[i]) == "// clang-format off")
  }

  lemma TabAtMeans(lines: seq<string>, i: nat)
    requires i < |lines|
    ensures TabAt(lines, i) <==> Reportable(lines, i)
  {
    EnabledMeans(lines, i);
  }

  lemma TabsFoundMeans(lines: seq<string>)
    ensures TabsFound(lines) <==> exists i :: 0 <= i < |lines| && Reportable(lines, i)
  {
    hide TabAt, Reportable;
    forall i | 0 <= i < |lines| ensures TabAt(lines, i) <==> Reportable(lines, i) {
      TabAtMeans(lines, i);
    }
  }

  // ---------------------------------------------------------------- trailing whitespace, line by line

  function Trimmed(line: string): string { RStrip(line) + "\n" }

  ghost predicate UntrimmedFound(lines: seq<string>)
  {
    exists i :: 0 <= i < |lines| && Trimmed(lines[i]) != lines[i]
  }

  /** The line does not end in a newline, or has a blank just before it. */
  predicate Untidy(line: string)
  {
    || line == [] || line[|line| - 1] != '\n'
    || (|line| >= 2 && IsSpace(line[|line| - 2]))
  }

  lemma TrimmedMeans(line: string)
    ensures Trimmed(line) != line <==> Untidy(line)
  {
    var tail := RStripSplit(line);
    if !Untidy(line) {
      var core := line[..|line| - 1];
      assert line == core + "\n";
      RStripUnique(core, "\n");
    }
    var kept := RStrip(line);
    if line == kept + "\n" && kept != [] {
      assert line[|line| - 2] == kept[|kept| - 1];
    }
  }

  lemma UntrimmedMeans(lines: seq<string>)
    ensures UntrimmedFound(lines) <==> exists i :: 0 <= i < |lines| && Untidy(lines[i])
  {
    hide Trimmed, Untidy;
    forall i | 0 <= i < |lines| ensures Trimmed(lines[i]) != lines[i] <==> Untidy(lines[i]) {
      TrimmedMeans(lines[i]);
    }
  }

  function FixTrailing(lines: seq<string>): (r: seq<string>)
    ensures |r| == |lines|
  {
    seq(|lines|, i requires 0 <= i < |lines| => Trimmed(lines[i]))
  }

  // ---------------------------------------------------------------- the programs

  /** Checks or fixes the tabs of one file; `after` is what the file holds afterwards. */
  method CheckTabsFile(content: string, fix: bool) returns (hasTabs: bool, after: string)
    ensures hasTabs <==> TabsFound(Load(content))
    ensures hasTabs <==> exists i :: 0 <= i < |Load(content)| && Reportable(Load(content), i)
    ensures after == if fix && hasTabs then Joined(FixTabs(Load(content))) else content
  {
    var fileLines;
    hasTabs, fileLines := ScanTabs(Load(content), fix);
    hide TabsFound, Reportable, Load;
    TabsFoundMeans(Load(content));
    after := if fix && hasTabs then Joined(fileLines) else content;
  }

  /** The loop over the lines, which overwrites the list of lines as it goes and, when only checking,
      stops at the first tab. */
  method ScanTabs(lines: seq<string>, fix: bool) returns (hasTabs: bool, fileLines: seq<string>)
    ensures hasTabs <==> TabsFound(lines)
    ensures fix ==> fileLines == FixTabs(lines)
  {
    hide TabAt, TabFixed, EnabledAfter, ExpandTabs;
    hasTabs := false;
    var clangFormatEnabled := true;
    fileLines := lines;
    ghost var fixedLines, tabLines, found: nat := FixTabs(lines), TabLines(lines), 0;
    var i := 0;
    while i < |lines|
      invariant 0 <= i <= |lines| && |fileLines| == |lines|
      invariant clangFormatEnabled == EnabledBefore(lines, i)
      invariant hasTabs ==> found < |lines| && tabLines[found]
      invariant !hasTabs ==> forall k :: 0 <= k < i ==> !tabLines[k]
      invariant forall k :: 0 <= k < i ==> fileLines[k] == fixedLines[k]
      invariant forall k :: i <= k < |lines| ==> fileLines[k] == lines[k]
    {
      var tab;
      clangFormatEnabled, tab := ExamineLine(lines, i, clangFormatEnabled);
      if tab {
        hasTabs, found := true, i;
        if !fix {
          break;
        }
        fileLines := fileLines[i := ExpandTabs(fileLines[i])];
      }
      i := i + 1;
    }
    TabsFoundByLines(lines);
  }

  ghost function TabLines(lines: seq<string>): (r: seq<bool>)
    ensures |r| == |lines|
  {
    seq(|lines|, i requires 0 <= i < |lines| => TabAt(lines, i))
  }

  lemma TabsFoundByLines(lines: seq<string>)
    ensures TabsFound(lines) <==> exists k :: 0 <= k < |lines| && TabLines(lines)[k]
  {
    if TabsFound(lines) {
      var i :| 0 <= i < |lines| && TabAt(lines, i);
      assert TabLines(lines)[i];
    }
  }

  /** The guard handling at the top of the loop and the test for tabs. */
  method ExamineLine(lines: seq<string>, i: nat, enabled: bool) returns (nowEnabled: bool, tab: bool)
    requires i < |lines| && enabled == EnabledBefore(lines, i)
    ensures nowEnabled == EnabledBefore(lines, i + 1)
    ensures tab == TabLines(lines)[i]
    ensures FixTabs(lines)[i] == if tab then ExpandTabs(lines[i]) else lines[i]
  {
    var line := lines[i];
    var stripped := Strip(line);
    nowEnabled := enabled;
    if stripped == GUARD_ON {
      nowEnabled := true;
    } else if stripped == GUARD_OFF {
      nowEnabled := false;
    }
    tab := (nowEnabled || stripped == GUARD_ON || stripped == GUARD_OFF) && '\t' in line;
    ExpandWithoutTabsIn(line);
  }

  lemma ExpandWithoutTabsIn(line: string)
    ensures '\t' !in line ==> ExpandTabs(line) == line
  {
    if '\t' !in line { ExpandWithoutTabs(0, line); }
  }

  /** Checks or fixes the trailing whitespace of one file. */
  method CheckTrailingWhitespaceFile(content: string, fix: bool) returns (hasTrailingWhitespace: bool, after: string)
    ensures hasTrailingWhitespace <==> UntrimmedFound(Load(content))
    ensures hasTrailingWhitespace <==> exists i :: 0 <= i < |Load(content)| && Untidy(Load(content)[i])
    ensures after == if fix && hasTrailingWhitespace then Joined(FixTrailing(Load(content))) else content
  {
    UntrimmedMeans(Load(content));
    hide Untidy;
    hasTrailingWhitespace := false;
    var lines := Load(content);
    var fileLines := lines;
    var i := 0;
    while i < |lines|
      invariant 0 <= i <= |lines| && |fileLines| == |lines|
      invariant hasTrailingWhitespace <==> exists k :: 0 <= k < i && Trimmed(lines[k]) != lines[k]
      invariant forall k :: 0 <= k < i ==> fileLines[k] == Trimmed(lines[k])
      invariant forall k :: i <= k < |lines| ==> fileLines[k] == lines[k]
    {
      var line := fileLines[i];
      var lineFixed := RStrip(line) + "\n";
      if lineFixed != line {
        hasTrailingWhitespace := true;
        if !fix {
          break;
        }
        fileLines := fileLines[i := lineFixed];
      }
      i := i + 1;
    }
    after := content;
    if fix && hasTrailingWhitespace {
      assert fileLines == FixTrailing(lines);
      after := Joined(fileLines);
    }
  }
}
