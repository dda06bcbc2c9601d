/** What the style fixers guarantee about every file: fixing makes the check pass, even when expanding
    tabs creates new guards; the two fixers keep each other's work and commute. */
module StyleGuarantees {
  import opened TextLines
  import opened StyleFixers
  import opened Sequences

  // ---------------------------------------------------------------- one line

  /** Expanding a line changes only the blanks around its stripped form when that holds no tab. */
  lemma ExpandKeepsStripped(line: string)
    requires Strip(line) != [] && Without(Strip(line), '\t')
    ensures Strip(ExpandTabs(line)) == Strip(line)
  {
    StripExpanded(line);
    ExpandWithoutTabs(Column(0, Indent(line)), Strip(line));
  }

  lemma GuardSurvivesExpansion(line: string)
    requires IsGuard(line)
    ensures Strip(ExpandTabs(line)) == Strip(line)
  {
    ExpandKeepsStripped(line);
  }

  lemma TrimmedKeepsStripped(line: string)
    ensures Strip(Trimmed(line)) == Strip(line)
  {
    var tail := RStripSplit(line);
    RStripUnique(RStrip(line), "\n");
  }

  lemma TrimmedTwice(line: string)
    ensures Trimmed(Trimmed(line)) == Trimmed(line)
  {
    var tail := RStripSplit(line);
    RStripUnique(RStrip(line), "\n");
  }

  lemma ExpandKeepsSolidEnd(s: string)
    requires EndsSolid(s)
    ensures EndsSolid(ExpandTabs(s))
  {
    if s != [] {
      assert ExpandTabs(s) == ExpandTabs(s[..|s| - 1]) + [s[|s| - 1]];
    }
  }

  /** Expanding and trimming a line can be done in either order. */
  lemma ExpandTrimCommute(line: string)
    ensures ExpandTabs(Trimmed(line)) == Trimmed(ExpandTabs(line))
  {
    var tail := RStripSplit(line);
    var core := RStrip(line);
    ExpandConcat(0, core, tail);
    ExpandKeepsBlank(Column(0, core), tail);
    ExpandKeepsSolidEnd(core);
    RStripUnique(ExpandTabs(core), ExpandFrom(Column(0, core), tail));
    ExpandConcat(0, core, "\n");
    ExpandWithoutTabs(Column(0, core), "\n");
  }

  // ---------------------------------------------------------------- the simulation of two scans

  /** Scanning the fixed lines, formatting is on only where it was on when the original lines were
      scanned: new guards can switch it off, and switch back on only what the first scan saw as on. */
  lemma {:induction false} FixedScanFollows(lines: seq<string>, i: nat)
    requires i <= |lines| && EnabledBefore(FixTabs(lines), i)
    ensures EnabledBefore(lines, i)
  {
    hide Strip;
    if i > 0 {
      var j := i - 1;
      if EnabledBefore(FixTabs(lines), j) {
        FixedScanFollows(lines, j);
      }
      assert FixTabs(lines)[j] == TabFixed(lines, j);
      FixedScanStep(EnabledBefore(lines, j), EnabledBefore(FixTabs(lines), j), lines[j]);
    }
  }

  lemma FixedScanStep(enabled: bool, enabledFixed: bool, line: string)
    requires enabledFixed ==> enabled
    ensures var fixedLine := if Examined(enabled, line) then ExpandTabs(line) else line;
            EnabledAfter(enabledFixed, fixedLine) ==> EnabledAfter(enabled, line)
  {
    if IsGuard(line) { GuardSurvivesExpansion(line); }
  }

  /** A line the second scan looks at was looked at, and so expanded, by the first. */
  lemma ExaminedWasFixed(lines: seq<string>, i: nat)
    requires i < |lines| && Examined(EnabledBefore(FixTabs(lines), i), FixTabs(lines)[i])
    ensures Examined(EnabledBefore(lines, i), lines[i])
  {
    if EnabledBefore(FixTabs(lines), i) { FixedScanFollows(lines, i); }
    assert FixTabs(lines)[i] == TabFixed(lines, i);
  }

  /** After fixing, the check finds no tab. */
  lemma FixedLinesAreClean(lines: seq<string>)
    ensures !TabsFound(FixTabs(lines))
  {
    forall i | 0 <= i < |lines| ensures !TabAt(FixTabs(lines), i) {
      if Examined(EnabledBefore(FixTabs(lines), i), FixTabs(lines)[i]) {
        ExaminedWasFixed(lines, i);
        ExpandHasNoTabs(0, lines[i]);
      }
    }
  }

  /** Fixing changes something exactly when the check finds a tab. */
  lemma FixChangesIffFound(lines: seq<string>)
    ensures TabsFound(lines) <==> FixTabs(lines) != lines
  {
    if TabsFound(lines) {
      var i :| 0 <= i < |lines| && TabAt(lines, i);
      ExpandHasNoTabs(0, lines[i]);
      assert FixTabs(lines)[i] != lines[i];
    } else {
      forall i | 0 <= i < |lines| ensures FixTabs(lines)[i] == lines[i] {
        assert !TabAt(lines, i);
        ExpandWithoutTabsIn(lines[i]);
      }
    }
  }

  lemma TrimChangesIffFound(lines: seq<string>)
    ensures UntrimmedFound(lines) <==> FixTrailing(lines) != lines
  {
    if UntrimmedFound(lines) {
      var i :| 0 <= i < |lines| && Trimmed(lines[i]) != lines[i];
      assert FixTrailing(lines)[i] != lines[i];
    }
  }

  lemma {:induction false} TrimKeepsGuards(lines: seq<string>, i: nat)
    requires i <= |lines|
    ensures EnabledBefore(FixTrailing(lines), i) == EnabledBefore(lines, i)
  {
    hide Strip, Trimmed;
    if i > 0 {
      TrimKeepsGuards(lines, i - 1);
      TrimmedKeepsStripped(lines[i - 1]);
    }
  }

  lemma FixersCommuteAt(lines: seq<string>, i: nat)
    requires i < |lines|
    ensures FixTabs(FixTrailing(lines))[i] == FixTrailing(FixTabs(lines))[i]
  {
    TrimKeepsGuards(lines, i);
    TrimmedKeepsStripped(lines[i]);
    ExpandTrimCommute(lines[i]);
    assert FixTabs(FixTrailing(lines))[i] == TabFixed(FixTrailing(lines), i);
    assert FixTabs(lines)[i] == TabFixed(lines, i);
  }

  lemma FixersCommuteOnLines(lines: seq<string>)
    ensures FixTabs(FixTrailing(lines)) == FixTrailing(FixTabs(lines))
  {
    forall i | 0 <= i < |lines| ensures FixTabs(FixTrailing(lines))[i] == FixTrailing(FixTabs(lines))[i] {
      FixersCommuteAt(lines, i);
    }
  }

  lemma TrimmedLinesStayTrimmed(lines: seq<string>)
    ensures FixTrailing(FixTrailing(lines)) == FixTrailing(lines)
  {
    forall i | 0 <= i < |lines| ensures Trimmed(Trimmed(lines[i])) == Trimmed(lines[i]) {
      TrimmedTwice(lines[i]);
    }
  }

  // ---------------------------------------------------------------- what is written is read back

  lemma ExpandedIsLine(line: string)
    requires IsLine(line) && Without(line, '\r')
    ensures IsLine(ExpandTabs(line)) && Without(ExpandTabs(line), '\r')
    ensures Ended(line) ==> Ended(ExpandTabs(line))
  {
    var front, c := line[..|line| - 1], line[|line| - 1];
    ExpandKeepsWithout(0, line, '\r');
    ExpandKeepsWithout(0, front, '\n');
    var e := ExpandTabs(line);
    if c == '\t' {
      assert forall i :: |ExpandTabs(front)| <= i < |e| ==> e[i] == ' ';
      assert forall i :: 0 <= i < |ExpandTabs(front)| ==> e[i] == ExpandTabs(front)[i];
    } else {
      assert e == ExpandTabs(front) + [c];
      assert e[..|e| - 1] == ExpandTabs(front);
    }
  }

  lemma TrimmedIsLine(line: string)
    requires IsLine(line) && Without(line, '\r')
    ensures IsLine(Trimmed(line)) && Ended(Trimmed(line)) && Without(Trimmed(line), '\r')
  {
    var tail := RStripSplit(line);
    var core := RStrip(line);
    assert Trimmed(line)[..|core|] == core;
    forall i | 0 <= i < |core| ensures core[i] != '\n' && core[i] != '\r' {
      assert core[i] == line[i];
      if i == |line| - 1 {
        assert !IsSpace(core[|core| - 1]);
      } else {
        assert line[..|line| - 1][i] == line[i];
      }
    }
  }

  ghost predicate Storable(lines: seq<string>)
  {
    AreLines(lines) && forall i :: 0 <= i < |lines| ==> Without(lines[i], '\r')
  }

  lemma LoadIsStorable(content: string)
    ensures Storable(Load(content))
  {
    NewlinesOnly(content);
    LinesAreLines(UniversalNewlines(content));
    LinesWithout(UniversalNewlines(content), '\r');
  }

  /** For every file: its lines make up its text, every line but the last ends in a newline, and there is
      no newline elsewhere. */
  lemma LoadedLines(content: string)
    ensures Joined(Load(content)) == UniversalNewlines(content)
    ensures forall i :: 0 <= i < |Load(content)| ==> Load(content)[i] != []
    ensures forall i, k :: 0 <= i < |Load(content)| && 0 <= k < |Load(content)[i]| - 1 ==> Load(content)[i][k] != '\n'
    ensures forall i :: 0 <= i < |Load(content)| - 1 ==> Load(content)[i][|Load(content)[i]| - 1] == '\n'
  {
    var lines := Load(content);
    JoinedLines(UniversalNewlines(content));
    LinesAreLines(UniversalNewlines(content));
    assert lines == Lines(UniversalNewlines(content));
    hide Load, Lines;
    forall i, k | 0 <= i < |lines| && 0 <= k < |lines[i]| - 1 ensures lines[i][k] != '\n' {
      assert IsLine(lines[i]) && lines[i][..|lines[i]| - 1][k] == lines[i][k];
    }
  }

  lemma StoredIsLoaded(lines: seq<string>)
    requires Storable(lines)
    ensures Load(Joined(lines)) == lines
  {
    JoinedWithout(lines, '\r');
    NewlinesOnly(Joined(lines));
    ReadBack(lines);
  }

  lemma FixTabsStorable(lines: seq<string>)
    requires Storable(lines)
    ensures Storable(FixTabs(lines))
  {
    forall i | 0 <= i < |lines|
      ensures IsLine(FixTabs(lines)[i]) && Without(FixTabs(lines)[i], '\r')
      ensures Ended(lines[i]) ==> Ended(FixTabs(lines)[i])
    {
      assert FixTabs(lines)[i] == TabFixed(lines, i);
      ExpandedIsLine(lines[i]);
    }
  }

  lemma FixTrailingStorable(lines: seq<string>)
    requires Storable(lines)
    ensures Storable(FixTrailing(lines))
  {
    forall i | 0 <= i < |lines|
      ensures IsLine(FixTrailing(lines)[i]) && Without(FixTrailing(lines)[i], '\r') && Ended(FixTrailing(lines)[i])
    {
      TrimmedIsLine(lines[i]);
    }
  }

  // ---------------------------------------------------------------- whole files

  /** What fixing the tabs leaves in the file. */
  ghost function TabFix(content: string): string
  {
    if TabsFound(Load(content)) then Joined(FixTabs(Load(content))) else content
  }

  /** What fixing the trailing whitespace leaves in the file. */
  ghost function TrailingFix(content: string): string
  {
    if UntrimmedFound(Load(content)) then Joined(FixTrailing(Load(content))) else content
  }

  lemma LoadTabFix(content: string)
    ensures Load(TabFix(content)) == FixTabs(Load(content))
  {
    LoadIsStorable(content);
    FixTabsStorable(Load(content));
    StoredIsLoaded(FixTabs(Load(content)));
    FixChangesIffFound(Load(content));
  }

  lemma LoadTrailingFix(content: string)
    ensures Load(TrailingFix(content)) == FixTrailing(Load(content))
  {
    LoadIsStorable(content);
    FixTrailingStorable(Load(content));
    StoredIsLoaded(FixTrailing(Load(content)));
    TrimChangesIffFound(Load(content));
  }

  /** For every file: after the tab fixer the tab check passes and fixing again changes nothing. */
  lemma TabFixIsFinal(content: string)
    ensures !TabsFound(Load(TabFix(content)))
    ensures TabFix(TabFix(content)) == TabFix(content)
  {
    LoadTabFix(content);
    FixedLinesAreClean(Load(content));
  }

  lemma TrailingFixIsFinal(content: string)
    ensures !UntrimmedFound(Load(TrailingFix(content)))
    ensures TrailingFix(TrailingFix(content)) == TrailingFix(content)
  {
    LoadTrailingFix(content);
    TrimmedLinesStayTrimmed(Load(content));
    TrimChangesIffFound(FixTrailing(Load(content)));
  }

  lemma BothFixedLines(lines: seq<string>)
    ensures !TabsFound(FixTabs(FixTrailing(lines))) && !UntrimmedFound(FixTabs(FixTrailing(lines)))
  {
    FixedLinesAreClean(FixTrailing(lines));
    FixersCommuteOnLines(lines);
    TrimmedLinesStayTrimmed(FixTabs(lines));
    TrimChangesIffFound(FixTrailing(FixTabs(lines)));
  }

  /** For every file: the two fixers in either order leave a file that passes both checks. */
  lemma BothFixesPassBothChecks(content: string)
    ensures !TabsFound(Load(TabFix(TrailingFix(content)))) && !UntrimmedFound(Load(TabFix(TrailingFix(content))))
    ensures !TabsFound(Load(TrailingFix(TabFix(content)))) && !UntrimmedFound(Load(TrailingFix(TabFix(content))))
  {
    LoadTrailingFix(content);
    LoadTabFix(TrailingFix(content));
    LoadTabFix(content);
    LoadTrailingFix(TabFix(content));
    FixersCommuteOnLines(Load(content));
    BothFixedLines(Load(content));
  }

  /** For every file: the order of the two fixers makes no difference. */
  lemma FixersCommute(content: string)
    ensures TabFix(TrailingFix(content)) == TrailingFix(TabFix(content))
  {
    var lines := Load(content);
    LoadTrailingFix(content);
    LoadTabFix(content);
    FixersCommuteOnLines(lines);
    FixChangesIffFound(lines);
    TrimChangesIffFound(lines);
    FixChangesIffFound(FixTrailing(lines));
    TrimChangesIffFound(FixTabs(lines));
  }

  /** For every file and every line of it: a line is changed exactly when the check would report it; lines
      in a region that is switched off stay as they are, guards excepted; every other line becomes the
      text without tabs that looks the same. */
  lemma TabFixByLine(content: string, i: nat)
    requires i < |Load(content)|
    ensures |Load(TabFix(content))| == |Load(content)|
    ensures var lines, line, now := Load(content), Load(content)[i], Load(TabFix(content))[i];
            && (now != line <==> TabAt(lines, i))
            && (now != line <==> Reportable(lines, i))
            && if !OffBefore(lines, i) || Strip(line) == "// clang-format on" || Strip(line) == "// clang-format off"
               then now == ExpandTabs(line) && Without(now, '\t') && SameLayout(line, now)
               else now == line
  {
    var lines := Load(content);
    LoadTabFix(content);
    TabAtMeans(lines, i);
    EnabledMeans(lines, i);
    hide Load, TabFix, Strip, ExpandTabs, OffBefore;
    assert FixTabs(lines)[i] == TabFixed(lines, i);
    ExpandWithoutTabsIn(lines[i]);
    ExpandedLayout(lines[i]);
    ExpandedHasNoTabs(lines[i]);
  }

  /** For every file and every line of it: a newline follows exactly the line without its final blanks. */
  lemma TrailingFixByLine(content: string, i: nat) returns (core: string, tail: string)
    requires i < |Load(content)|
    ensures |Load(TrailingFix(content))| == |Load(content)|
    ensures Load(content)[i] == core + tail && AllSpace(tail) && (core == [] || !IsSpace(core[|core| - 1]))
    ensures Load(TrailingFix(content))[i] == core + "\n"
    ensures Load(TrailingFix(content))[i] != Load(content)[i] <==> Untidy(Load(content)[i])
  {
    LoadTrailingFix(content);
    var line := Load(content)[i];
    core := RStrip(line);
    tail := RStripSplit(line);
    TrimmedMeans(line);
  }

  // ---------------------------------------------------------------- files without guards

  ghost predicate HasGuard(lines: seq<string>)
  {
    exists i :: 0 <= i < |lines| && (Strip(lines[i]) == "// clang-format on" || Strip(lines[i]) == "// clang-format off")
  }

  lemma TabInSomeLine(content: string)
    ensures '\t' in content <==> exists i :: 0 <= i < |Load(content)| && '\t' in Load(content)[i]
  {
    var text := UniversalNewlines(content);
    NewlinesKeepOthers(content, '\t');
    var lines := Lines(text);
    JoinedLines(text);
    if Without(text, '\t') {
      LinesWithout(text, '\t');
      assert forall i :: 0 <= i < |lines| ==> Without(lines[i], '\t');
    } else if forall i :: 0 <= i < |lines| ==> Without(lines[i], '\t') {
      JoinedWithout(lines, '\t');
      assert false;
    } else {
      var i :| 0 <= i < |lines| && !Without(lines[i], '\t');
      assert '\t' in lines[i] && lines == Load(content);
    }
  }

  /** In a file without guards the check reports exactly the files with a tab, and the fix leaves none. */
  lemma WithoutGuards(content: string)
    requires !HasGuard(Load(content))
    ensures TabsFound(Load(content)) <==> '\t' in content
    ensures '\t' !in TabFix(content)
  {
    var lines := Load(content);
    TabInSomeLine(content);
    forall i | 0 <= i < |lines| ensures TabAt(lines, i) <==> '\t' in lines[i] {
      TabAtMeans(lines, i);
    }
    forall i | 0 <= i < |lines| ensures Without(FixTabs(lines)[i], '\t') {
      assert !OffBefore(lines, i);
      EnabledMeans(lines, i);
      assert FixTabs(lines)[i] == TabFixed(lines, i);
      ExpandedHasNoTabs(lines[i]);
    }
    JoinedWithout(FixTabs(lines), '\t');
  }

  lemma ExpandedHasNoTabs(line: string)
    ensures Without(ExpandTabs(line), '\t')
  {
    ExpandHasNoTabs(0, line);
  }

  // ---------------------------------------------------------------- lists of files

  /** `check_tabs`: the return value says whether any file has tabs afterwards. */
  method CheckTabs(files: seq<string>, fix: bool) returns (clean: bool, after: seq<string>)
    ensures |after| == |files|
    ensures forall k :: 0 <= k < |files| ==> after[k] == if fix then TabFix(files[k]) else files[k]
    ensures clean <==> forall k :: 0 <= k < |after| ==> !TabsFound(Load(after[k]))
  {
    hide TabsFound, Load, FixTabs, Joined;
    var withTabs := 0;
    after := [];
    for i := 0 to |files|
      invariant |after| == i && withTabs >= 0
      invariant forall k :: 0 <= k < i ==> after[k] == if fix then TabFix(files[k]) else files[k]
      invariant withTabs == 0 <==> forall k :: 0 <= k < i ==> !TabsFound(Load(files[k]))
    {
      var hasTabs, content := CheckTabsFile(files[i], fix);
      after := after + [content];
      if hasTabs { withTabs := withTabs + 1; }
    }
    if withTabs == 0 {
      clean := true;
    } else {
      clean := fix;
    }
    forall k | 0 <= k < |files| && fix ensures !TabsFound(Load(after[k])) {
      TabFixIsFinal(files[k]);
    }
  }

  /** `check_trailing_whitespace`: likewise for trailing whitespace. */
  method CheckTrailingWhitespace(files: seq<string>, fix: bool) returns (clean: bool, after: seq<string>)
    ensures |after| == |files|
    ensures forall k :: 0 <= k < |files| ==> after[k] == if fix then TrailingFix(files[k]) else files[k]
    ensures clean <==> forall k :: 0 <= k < |after| ==> !UntrimmedFound(Load(after[k]))
  {
    hide UntrimmedFound, Load, FixTrailing, Joined;
    var withWhitespace := 0;
    after := [];
    for i := 0 to |files|
      invariant |after| == i && withWhitespace >= 0
      invariant forall k :: 0 <= k < i ==> after[k] == if fix then TrailingFix(files[k]) else files[k]
      invariant withWhitespace == 0 <==> forall k :: 0 <= k < i ==> !UntrimmedFound(Load(files[k]))
    {
      var has, content := CheckTrailingWhitespaceFile(files[i], fix);
      after := after + [content];
      if has { withWhitespace := withWhitespace + 1; }
    }
    if withWhitespace == 0 {
      clean := true;
    } else {
      clean := fix;
    }
    forall k | 0 <= k < |files| && fix ensures !UntrimmedFound(Load(after[k])) {
      TrailingFixIsFinal(files[k]);
    }
  }
}
