/** Guards that only appear when tabs are expanded: which lines become guards, and where the scan of the
    fixed file is in a different guard state than the scan of the original. */
module GuardLines {
  import opened TextLines
  import opened StyleFixers
  import StyleGuarantees

  // ---------------------------------------------------------------- what expands to a given text

  predicate Plain(s: string) { Without(s, '\t') && Without(s, '\n') && Without(s, '\r') }

  predicate SingleBlanks(s: string) { forall i :: 0 <= i < |s| - 1 ==> s[i] != ' ' || s[i + 1] != ' ' }

  /** `s` is `t`, except that some blanks are tabs in the column just before a tab stop. */
  predicate TabbedForm(start: nat, s: string, t: string)
  {
    && |s| == |t|
    && forall k :: 0 <= k < |t| ==> s[k] == t[k] || (s[k] == '\t' && t[k] == ' ' && (start + k) % TAB_SIZE == TAB_SIZE - 1)
  }

  lemma {:induction false} TabbedFormColumn(start: nat, s: string, t: string)
    requires Plain(t) && TabbedForm(start, s, t)
    ensures Column(start, s) == start + |s|
  {
    if s != [] { TabbedFormColumn(start, s[..|s| - 1], t[..|t| - 1]); }
  }

  lemma {:induction false} TabbedFormExpands(start: nat, s: string, t: string)
    requires Plain(t) && TabbedForm(start, s, t)
    ensures ExpandFrom(start, s) == t
  {
    if s != [] {
      var n := |s| - 1;
      TabbedFormExpands(start, s[..n], t[..n]);
      TabbedFormColumn(start, s[..n], t[..n]);
      assert t == t[..n] + [t[n]];
      assert Spaces(1) == " ";
    }
  }

  lemma TwoBlanks(front: string, n: nat)
    requires n >= 2
    ensures !SingleBlanks(front + Spaces(n))
  {
    var t := front + Spaces(n);
    assert t[|front|] == ' ' && t[|front| + 1] == ' ';
  }

  lemma {:induction false} ExpandsFromTabbedForm(start: nat, s: string)
    requires Plain(ExpandFrom(start, s)) && SingleBlanks(ExpandFrom(start, s))
    ensures TabbedForm(start, s, ExpandFrom(start, s))
  {
    if s != [] {
      var n := |s| - 1;
      var front := ExpandFrom(start, s[..n]);
      var width := TAB_SIZE - Column(start, s[..n]) % TAB_SIZE;
      var last := if s[n] == '\t' then Spaces(width) else [s[n]];
      assert ExpandFrom(start, s) == front + last;
      hide ExpandFrom, Column, Plain, SingleBlanks, TabbedForm;
      PrefixKeeps(front, last);
      ExpandsFromTabbedForm(start, s[..n]);
      TabbedFormColumn(start, s[..n], front);
      if s[n] == '\t' && width >= 2 { TwoBlanks(front, width); }
      TabbedFormSnoc(start, s[..n], front, s[n], last[0]);
      assert s == s[..n] + [s[n]] && last == [last[0]];
    }
  }

  lemma PrefixKeeps(front: string, rest: string)
    requires Plain(front + rest) && SingleBlanks(front + rest)
    ensures Plain(front) && SingleBlanks(front)
  {
    assert forall i :: 0 <= i < |front| ==> (front + rest)[i] == front[i];
  }

  lemma TabbedFormSnoc(start: nat, s: string, t: string, c: char, d: char)
    requires TabbedForm(start, s, t)
    requires c == d || (c == '\t' && d == ' ' && (start + |t|) % TAB_SIZE == TAB_SIZE - 1)
    ensures TabbedForm(start, s + [c], t + [d])
  {
  }

  // ---------------------------------------------------------------- guards

  predicate GuardText(guard: string) { guard == GUARD_ON || guard == GUARD_OFF }

  lemma GuardShape(guard: string)
    requires GuardText(guard)
    ensures |guard| > 15 && Plain(guard) && SingleBlanks(guard)
    ensures forall k :: 0 <= k < |guard| ==> (guard[k] == ' ' <==> k == 2 || k == 15)
  {
  }

  /** The line is no guard but becomes one: its text is the guard with a tab for one of the two blanks,
      and the line is indented so that this tab sits just before a tab stop. */
  predicate HiddenGuard(line: string, guard: string)
    requires GuardText(guard)
  {
    var column := Column(0, Indent(line));
    || (Strip(line) == guard[15 := '\t'] && column % TAB_SIZE == 0)
    || (Strip(line) == guard[2 := '\t'] && column % TAB_SIZE == 1)
  }

  lemma TabbedGuards(column: nat, core: string, guard: string)
    requires GuardText(guard)
    ensures TabbedForm(column, core, guard) <==>
              || core == guard
              || (core == guard[15 := '\t'] && column % TAB_SIZE == 0)
              || (core == guard[2 := '\t'] && column % TAB_SIZE == 1)
  {
    GuardShape(guard);
    hide GuardText;
    if TabbedForm(column, core, guard) {
      if core[2] == '\t' {
        assert core[15] == guard[15];
        assert core == guard[2 := '\t'];
      } else if core[15] == '\t' {
        assert core == guard[15 := '\t'];
      } else {
        assert core == guard;
      }
    }
  }

  /** For every line and either guard: the expanded line is the guard exactly when the line is, or when
      it hides the guard. */
  lemma GuardAfterExpansion(line: string, guard: string)
    requires GuardText(guard)
    ensures Strip(ExpandTabs(line)) == guard <==> Strip(line) == guard || HiddenGuard(line, guard)
  {
    hide Strip, ExpandTabs, ExpandFrom, Column, Indent;
    var core, column := Strip(line), Column(0, Indent(line));
    StripExpanded(line);
    TabbedGuards(column, core, guard);
    GuardShape(guard);
    if core != [] {
      if ExpandFrom(column, core) == guard { ExpandsFromTabbedForm(column, core); }
      if TabbedForm(column, core, guard) { TabbedFormExpands(column, core, guard); }
    }
  }

  lemma HiddenIsNoGuard(line: string, guard: string)
    requires GuardText(guard) && HiddenGuard(line, guard)
    ensures !IsGuard(line)
  {
    GuardShape(GUARD_ON);
    GuardShape(GUARD_OFF);
    assert Strip(line)[15] == '\t' || Strip(line)[2] == '\t';
  }

  /** For every line: expanding turns it into a guard it was not before exactly when it hides one. */
  lemma ExpansionCreatesGuard(line: string)
    ensures !IsGuard(line) && IsGuard(ExpandTabs(line)) <==> HiddenGuard(line, GUARD_ON) || HiddenGuard(line, GUARD_OFF)
  {
    hide Strip, ExpandTabs;
    GuardAfterExpansion(line, GUARD_ON);
    GuardAfterExpansion(line, GUARD_OFF);
    if HiddenGuard(line, GUARD_ON) { HiddenIsNoGuard(line, GUARD_ON); }
    if HiddenGuard(line, GUARD_OFF) { HiddenIsNoGuard(line, GUARD_OFF); }
  }

  lemma ExpandedText(before: string, after: string)
    requires Without(before, '\t') && Without(before, '\n') && Without(before, '\r') && Without(after, '\t')
    ensures ExpandTabs(before + "\t" + after) == before + Spaces(TAB_SIZE - |before| % TAB_SIZE) + after
  {
    ColumnWithoutBreaks(before);
    ExpandConcat(0, before, "\t");
    ExpandConcat(0, before + "\t", after);
    ExpandWithoutTabs(0, before);
    OneCharacter(|before|, '\t');
    ExpandWithoutTabs(Column(0, before + "\t"), after);
  }

  /** There are such lines: this one is no guard, and becomes one. */
  lemma CreatedGuard()
    ensures !IsGuard("// clang-format\toff\n")
    ensures ExpandTabs("// clang-format\toff\n") == GUARD_OFF + "\n" && IsGuard(GUARD_OFF + "\n")
  {
    hide Strip, ExpandTabs;
    var core := "// clang-format\toff";
    assert "// clang-format\toff\n" == [] + core + "\n";
    assert core[15] == '\t';
    assert GUARD_OFF[15] == ' ' && GUARD_ON[15] == ' ';
    StripUnique([], core, "\n");
    assert [] + GUARD_OFF + "\n" == GUARD_OFF + "\n";
    StripUnique([], GUARD_OFF, "\n");
    ExpandedText("// clang-format", "off\n");
    assert "// clang-format\toff\n" == "// clang-format" + "\t" + "off\n";
    assert Spaces(1) == " ";
    assert GUARD_OFF + "\n" == "// clang-format" + " " + "off\n";
  }

  lemma {:induction false} ColumnWithoutBreaks(s: string)
    requires Without(s, '\t') && Without(s, '\n') && Without(s, '\r')
    ensures Column(0, s) == |s|
  {
    if s != [] { ColumnWithoutBreaks(s[..|s| - 1]); }
  }

  // ---------------------------------------------------------------- where the two scans differ

  /** A hidden guard before line `i` switches formatting off where it was on, and no line in between is a
      guard or hides one that switches it on again. */
  predicate SwitchedOff(lines: seq<string>, j: nat, i: nat)
    requires j < i <= |lines|
  {
    && EnabledBefore(lines, j) && HiddenGuard(lines[j], GUARD_OFF)
    && forall k :: j < k < i ==> !IsGuard(lines[k]) && !HiddenGuard(lines[k], GUARD_ON)
  }

  /** Such a hidden guard governs the lines just before `i`. */
  ghost predicate HiddenOff(lines: seq<string>, i: nat)
    requires i <= |lines|
  {
    exists j :: 0 <= j < i && SwitchedOff(lines, j, i)
  }

  lemma DifferStep(enabled: bool, enabledFixed: bool, line: string)
    requires enabledFixed ==> enabled
    ensures var fixedLine := if Examined(enabled, line) then ExpandTabs(line) else line;
            EnabledAfter(enabled, line) != EnabledAfter(enabledFixed, fixedLine) <==>
              || (enabled && HiddenGuard(line, GUARD_OFF))
              || (enabled != enabledFixed && !IsGuard(line) && !HiddenGuard(line, GUARD_ON))
  {
    hide Strip, ExpandTabs, HiddenGuard;
    GuardAfterExpansion(line, GUARD_ON);
    GuardAfterExpansion(line, GUARD_OFF);
    if HiddenGuard(line, GUARD_ON) { HiddenIsNoGuard(line, GUARD_ON); }
    if HiddenGuard(line, GUARD_OFF) { HiddenIsNoGuard(line, GUARD_OFF); }
  }

  /** Before line `i` the scan of the fixed lines is in another guard state than the scan of the original
      lines exactly when a hidden guard has switched formatting off and nothing has settled it since. */
  lemma {:induction false} ScansDifferExactlyWhen(lines: seq<string>, i: nat)
    requires i <= |lines|
    ensures EnabledBefore(FixTabs(lines), i) != EnabledBefore(lines, i) <==> HiddenOff(lines, i)
  {
    if i > 0 {
      hide Strip, HiddenGuard, ExpandTabs, IsGuard, EnabledAfter, Examined, HiddenOff;
      var n := i - 1;
      ScansDifferExactlyWhen(lines, n);
      if EnabledBefore(FixTabs(lines), n) { StyleGuarantees.FixedScanFollows(lines, n); }
      assert FixTabs(lines)[n] == TabFixed(lines, n);
      DifferStep(EnabledBefore(lines, n), EnabledBefore(FixTabs(lines), n), lines[n]);
      HiddenOffNext(lines, n);
    }
  }

  lemma HiddenOffNext(lines: seq<string>, n: nat)
    requires n < |lines|
    ensures HiddenOff(lines, n + 1) <==>
              || (EnabledBefore(lines, n) && HiddenGuard(lines[n], GUARD_OFF))
              || (HiddenOff(lines, n) && !IsGuard(lines[n]) && !HiddenGuard(lines[n], GUARD_ON))
  {
    hide Strip, HiddenGuard, IsGuard, EnabledBefore;
    var i := n + 1;
    if EnabledBefore(lines, n) && HiddenGuard(lines[n], GUARD_OFF) {
      assert SwitchedOff(lines, n, i);
    }
    if HiddenOff(lines, n) && !IsGuard(lines[n]) && !HiddenGuard(lines[n], GUARD_ON) {
      var j :| 0 <= j < n && SwitchedOff(lines, j, n);
      assert SwitchedOff(lines, j, i);
    }
    if HiddenOff(lines, i) {
      var j :| 0 <= j < i && SwitchedOff(lines, j, i);
      assert j < n ==> SwitchedOff(lines, j, n);
    }
  }
}
