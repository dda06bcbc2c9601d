/** The Python text operations the style fixers are built from: universal newlines, `readlines`,
    `writelines`, `strip`, `rstrip` and `expandtabs`. */
module TextLines {
  import opened Sequences

  const TAB_SIZE: nat := 4

  /** `str.isspace` for one character. */
  predicate IsSpace(c: char)
  {
    || '\U{0009}' <= c <= '\U{000D}' || '\U{001C}' <= c <= '\U{0020}' || c == '\U{0085}' || c == '\U{00A0}'
    || c == '\U{1680}' || '\U{2000}' <= c <= '\U{200A}' || c == '\U{2028}' || c == '\U{2029}'
    || c == '\U{202F}' || c == '\U{205F}' || c == '\U{3000}'
  }

  /** The characters Python counts as white space, by code point. */
  lemma SpaceCharacters(c: char)
    ensures IsSpace(c) <==>
              c as int in {9, 10, 11, 12, 13, 28, 29, 30, 31, 32, 0x85, 0xA0, 0x1680, 0x2000, 0x2001, 0x2002, 0x2003, 0x2004,
                           0x2005, 0x2006, 0x2007, 0x2008, 0x2009, 0x200A, 0x2028, 0x2029, 0x202F, 0x205F, 0x3000}
    ensures '!' <= c <= '~' ==> !IsSpace(c)
    ensures c == ' ' || c == '\t' ==> IsSpace(c)
  {
  }

  predicate AllSpace(s: string) { forall i :: 0 <= i < |s| ==> IsSpace(s[i]) }

  predicate Without(s: string, c: char) { forall i :: 0 <= i < |s| ==> s[i] != c }

  // ---------------------------------------------------------------- strip

  function RStrip(s: string): string
  {
    if s != [] && IsSpace(s[|s| - 1]) then RStrip(s[..|s| - 1]) else s
  }

  function LStrip(s: string): string
  {
    if s != [] && IsSpace(s[0]) then LStrip(s[1..]) else s
  }

  function Strip(s: string): string { LStrip(RStrip(s)) }

  predicate EndsSolid(s: string) { s == [] || !IsSpace(s[|s| - 1]) }

  predicate StartsSolid(s: string) { s == [] || !IsSpace(s[0]) }

  lemma {:induction false} RStripSplit(s: string) returns (tail: string)
    ensures s == RStrip(s) + tail && AllSpace(tail) && EndsSolid(RStrip(s))
  {
    if s != [] && IsSpace(s[|s| - 1]) {
      var t := RStripSplit(s[..|s| - 1]);
      tail := t + [s[|s| - 1]];
      assert s == s[..|s| - 1] + [s[|s| - 1]];
      Associative(RStrip(s), t, [s[|s| - 1]]);
    } else {
      tail := [];
    }
  }

  lemma {:induction false} RStripUnique(core: string, tail: string)
    requires EndsSolid(core) && AllSpace(tail)
    ensures RStrip(core + tail) == core
    decreases |tail|
  {
    var s := core + tail;
    if tail == [] {
      assert s == core;
    } else {
      assert s[..|s| - 1] == core + tail[..|tail| - 1];
      RStripUnique(core, tail[..|tail| - 1]);
    }
  }

  lemma {:induction false} LStripSplit(s: string) returns (head: string)
    ensures s == head + LStrip(s) && AllSpace(head) && StartsSolid(LStrip(s))
  {
    if s != [] && IsSpace(s[0]) {
      var h := LStripSplit(s[1..]);
      head := [s[0]] + h;
      assert s == [s[0]] + s[1..];
      Associative([s[0]], h, LStrip(s));
    } else {
      head := [];
    }
  }

  lemma {:induction false} LStripUnique(head: string, core: string)
    requires StartsSolid(core) && AllSpace(head)
    ensures LStrip(head + core) == core
    decreases |head|
  {
    var s := head + core;
    if head == [] {
      assert s == core;
    } else {
      assert s[1..] == head[1..] + core;
      LStripUnique(head[1..], core);
    }
  }

  /** Every text is blanks, its stripped form, blanks. */
  lemma StripSplit(s: string) returns (head: string, tail: string)
    ensures s == head + Strip(s) + tail && AllSpace(head) && AllSpace(tail)
    ensures StartsSolid(Strip(s)) && EndsSolid(Strip(s))
  {
    tail := RStripSplit(s);
    head := LStripSplit(RStrip(s));
    assert RStrip(s) == head + Strip(s);
    if Strip(s) != [] {
      assert RStrip(s)[|RStrip(s)| - 1] == Strip(s)[|Strip(s)| - 1];
    }
  }

  /** The stripped form does not depend on the blanks around it. */
  lemma StripUnique(head: string, core: string, tail: string)
    requires core != [] && StartsSolid(core) && EndsSolid(core) && AllSpace(head) && AllSpace(tail)
    ensures Strip(head + core + tail) == core
  {
    assert (head + core)[|head + core| - 1] == core[|core| - 1];
    RStripUnique(head + core, tail);
    LStripUnique(head, core);
  }

  /** The blanks in front of a text. */
  function Indent(s: string): string
  {
    if s != [] && IsSpace(s[0]) then [s[0]] + Indent(s[1..]) else []
  }

  lemma {:induction false} IndentUnique(head: string, rest: string)
    requires AllSpace(head) && rest != [] && StartsSolid(rest)
    ensures Indent(head + rest) == head
    decreases |head|
  {
    if head == [] {
      assert head + rest == rest;
    } else {
      assert (head + rest)[1..] == head[1..] + rest;
      IndentUnique(head[1..], rest);
    }
  }

  // ---------------------------------------------------------------- expandtabs

  function Spaces(n: nat): (s: string)
    ensures |s| == n && forall i :: 0 <= i < n ==> s[i] == ' '
  {
    seq(n, _ => ' ')
  }

  /** The display column after `s`, when `s` starts in column `start`. */
  function Column(start: nat, s: string): nat
  {
    if s == [] then start
    else
      var before := Column(start, s[..|s| - 1]);
      var c := s[|s| - 1];
      if c == '\t' then before + TAB_SIZE - before % TAB_SIZE
      else if c == '\n' || c == '\r' then 0
      else before + 1
  }

  /** `expandtabs(TAB_SIZE)` of a text that starts in column `start`. */
  function ExpandFrom(start: nat, s: string): string
  {
    if s == [] then []
    else
      var before := s[..|s| - 1];
      var c := s[|s| - 1];
      ExpandFrom(start, before)
      + (if c == '\t' then Spaces(TAB_SIZE - Column(start, before) % TAB_SIZE) else [c])
  }

  function ExpandTabs(s: string): string { ExpandFrom(0, s) }

  lemma {:induction false} ExpandConcat(start: nat, a: string, b: string)
    ensures Column(start, a + b) == Column(Column(start, a), b)
    ensures ExpandFrom(start, a + b) == ExpandFrom(start, a) + ExpandFrom(Column(start, a), b)
    decreases |b|
  {
    if b == [] {
      assert a + b == a;
    } else {
      var n := |b| - 1;
      assert (a + b)[..|a + b| - 1] == a + b[..n];
      ExpandConcat(start, a, b[..n]);
    }
  }

  /** A tab moves to the next multiple of 4, a line end to column 0, any other character by one. */
  lemma ColumnAfter(start: nat, s: string, c: char)
    ensures var before, after := Column(start, s), Column(start, s + [c]);
            && (c == '\t' ==> after == before / 4 * 4 + 4)
            && (c == '\n' || c == '\r' ==> after == 0)
            && (c !in "\t\n\r" ==> after == before + 1)
    ensures Column(start, "") == start
  {
    assert (s + [c])[..|s|] == s;
  }

  lemma OneCharacter(start: nat, c: char)
    ensures ExpandFrom(start, [c]) == if c == '\t' then Spaces(TAB_SIZE - start % TAB_SIZE) else [c]
  {
    assert [c][..0] == [];
  }

  lemma {:induction false} ExpandHasNoTabs(start: nat, s: string)
    ensures Without(ExpandFrom(start, s), '\t')
  {
    if s != [] { ExpandHasNoTabs(start, s[..|s| - 1]); }
  }

  lemma {:induction false} ExpandWithoutTabs(start: nat, s: string)
    requires Without(s, '\t')
    ensures ExpandFrom(start, s) == s
  {
    if s != [] {
      ExpandWithoutTabs(start, s[..|s| - 1]);
      assert s == s[..|s| - 1] + [s[|s| - 1]];
    }
  }

  lemma {:induction false} ExpandKeepsBlank(start: nat, s: string)
    requires AllSpace(s)
    ensures AllSpace(ExpandFrom(start, s))
  {
    if s != [] { ExpandKeepsBlank(start, s[..|s| - 1]); }
  }

  lemma {:induction false} ExpandKeepsWithout(start: nat, s: string, c: char)
    requires Without(s, c) && c != ' '
    ensures Without(ExpandFrom(start, s), c)
  {
    if s != [] { ExpandKeepsWithout(start, s[..|s| - 1], c); }
  }

  lemma {:induction false} ExpandKeepsEnds(start: nat, s: string)
    requires s != [] && StartsSolid(s) && EndsSolid(s)
    ensures ExpandFrom(start, s) != [] && StartsSolid(ExpandFrom(start, s)) && EndsSolid(ExpandFrom(start, s))
  {
    var n := |s| - 1;
    assert s == [s[0]] + s[1..];
    ExpandConcat(start, [s[0]], s[1..]);
    OneCharacter(start, s[0]);
    assert ExpandFrom(start, s) == ExpandFrom(start, s[..n]) + [s[n]];
  }

  /** The stripped form of an expanded text is the stripped form, expanded in the column where it starts. */
  lemma StripExpanded(s: string)
    ensures Strip(ExpandTabs(s)) == if Strip(s) == [] then [] else ExpandFrom(Column(0, Indent(s)), Strip(s))
  {
    var core := Strip(s);
    var head, tail := StripSplit(s);
    if core == [] {
      assert AllSpace(s);
      ExpandKeepsBlank(0, s);
      RStripUnique([], ExpandTabs(s));
      assert [] + ExpandTabs(s) == ExpandTabs(s);
    } else {
      Associative(head, core, tail);
      IndentUnique(head, core + tail);
      ExpandConcat(0, head + core, tail);
      ExpandConcat(0, head, core);
      ExpandKeepsBlank(0, head);
      ExpandKeepsBlank(Column(0, head + core), tail);
      ExpandKeepsEnds(Column(0, head), core);
      StripUnique(ExpandTabs(head), ExpandFrom(Column(0, head), core), ExpandFrom(Column(0, head + core), tail));
    }
  }

  /** Where the first `k` characters of a line end up. */
  ghost function Shown(s: string, k: nat): nat
    requires k <= |s|
  {
    |ExpandTabs(s[..k])|
  }

  /** The first `k` characters of a line fill the cells up to `Shown(s, k)` and end in the same column. */
  lemma ShownPrefix(s: string, k: nat)
    requires k <= |s|
    ensures Shown(s, k) <= |ExpandTabs(s)|
    ensures ExpandTabs(s)[..Shown(s, k)] == ExpandTabs(s[..k])
    ensures Column(0, ExpandTabs(s)[..Shown(s, k)]) == Column(0, s[..k])
  {
    assert s == s[..k] + s[k..];
    ExpandConcat(0, s[..k], s[k..]);
    ExpandKeepsColumn(0, s[..k]);
  }

  lemma ExpandNext(s: string, k: nat)
    requires k < |s|
    ensures ExpandTabs(s[..k + 1])
         == ExpandTabs(s[..k]) + (if s[k] == '\t' then Spaces(TAB_SIZE - Column(0, s[..k]) % TAB_SIZE) else [s[k]])
    ensures s[k] == '\t' ==> Column(0, s[..k + 1]) % TAB_SIZE == 0
  {
    assert s[..k + 1][..k] == s[..k];
  }

  lemma {:induction false} ExpandKeepsColumn(start: nat, s: string)
    ensures Column(start, ExpandFrom(start, s)) == Column(start, s)
  {
    if s != [] {
      var before, c := s[..|s| - 1], s[|s| - 1];
      ExpandKeepsColumn(start, before);
      var e := ExpandFrom(start, before);
      if c == '\t' {
        SpacesColumn(start, e, TAB_SIZE - Column(start, before) % TAB_SIZE);
      } else {
        assert (e + [c])[..|e|] == e;
      }
    }
  }

  lemma BlankColumn(start: nat, e: string)
    ensures Column(start, e + [' ']) == Column(start, e) + 1
  {
    assert (e + [' '])[..|e|] == e;
  }

  lemma {:induction false} SpacesColumn(start: nat, e: string, n: nat)
    ensures Column(start, e + Spaces(n)) == Column(start, e) + n
  {
    hide Column, Spaces;
    if n == 0 {
      assert e + Spaces(n) == e;
    } else {
      SpacesColumn(start, e, n - 1);
      BlankColumn(start, e + Spaces(n - 1));
      assert e + Spaces(n) == (e + Spaces(n - 1)) + [' '];
    }
  }

  /** Expanding keeps every character that is not a tab, in order and in its display column, and turns
      each tab into one to four spaces that end at the next multiple of four. */
  lemma ExpandKeepsLayout(s: string, k: nat)
    requires k < |s|
    ensures Shown(s, k) < Shown(s, k + 1) <= |ExpandTabs(s)|
    ensures Column(0, ExpandTabs(s)[..Shown(s, k)]) == Column(0, s[..k])
    ensures s[k] != '\t' ==> Shown(s, k + 1) == Shown(s, k) + 1 && ExpandTabs(s)[Shown(s, k)] == s[k]
    ensures s[k] == '\t' ==> && Shown(s, k + 1) - Shown(s, k) <= TAB_SIZE
                             && Column(0, ExpandTabs(s)[..Shown(s, k + 1)]) % TAB_SIZE == 0
                             && forall i :: Shown(s, k) <= i < Shown(s, k + 1) ==> ExpandTabs(s)[i] == ' '
  {
    ShownPrefix(s, k);
    ShownPrefix(s, k + 1);
    ExpandNext(s, k);
    var cells := ExpandTabs(s[..k + 1]);
    assert forall i :: 0 <= i < |cells| ==> ExpandTabs(s)[i] == cells[i] by {
      assert cells == ExpandTabs(s)[..|cells|];
    }
  }

  /** Character `k` of `s` is on the cells of `t` from `from` up to `to`, beginning in the same column: a
      tab as blanks up to the next tab stop, any other character as itself. */
  ghost predicate OnCells(s: string, k: nat, t: string, from: nat, to: nat)
    requires k < |s|
  {
    && from < to <= |t|
    && Column(0, t[..from]) == Column(0, s[..k])
    && if s[k] == '\t'
       then to <= from + TAB_SIZE && Column(0, t[..to]) % TAB_SIZE == 0 && forall i :: from <= i < to ==> t[i] == ' '
       else to == from + 1 && t[from] == s[k]
  }

  /** The characters of `s` are, in order, on the cells of `t`, and on all of them. */
  ghost predicate Placed(s: string, t: string, at: seq<nat>)
  {
    && |at| == |s| + 1 && at[0] == 0 && at[|s|] == |t|
    && forall k: nat :: k < |s| ==> OnCells(s, k, t, at[k], at[k + 1])
  }

  /** `t` is `s` with its tabs replaced by blanks so that everything else stays in its place. */
  ghost predicate SameLayout(s: string, t: string) { exists at :: Placed(s, t, at) }

  lemma ExpandedLayout(s: string)
    ensures SameLayout(s, ExpandTabs(s))
  {
    var t := ExpandTabs(s);
    var at := seq(|s| + 1, k requires 0 <= k <= |s| => Shown(s, k));
    assert s[..0] == [] && s[..|s|] == s && ExpandTabs([]) == [];
    forall k: nat | k < |s| ensures OnCells(s, k, t, at[k], at[k + 1]) {
      hide ExpandTabs, Column;
      ExpandKeepsLayout(s, k);
    }
    assert Placed(s, t, at);
  }

  lemma {:induction false} CellsAscend(s: string, t: string, at: seq<nat>, j: nat, k: nat)
    requires |at| == |s| + 1 && (forall k: nat :: k < |s| ==> OnCells(s, k, t, at[k], at[k + 1])) && j <= k <= |s|
    ensures at[j] <= at[k]
    decreases k
  {
    if j < k {
      CellsAscend(s, t, at, j, k - 1);
      assert OnCells(s, k - 1, t, at[k - 1], at[k]);
    }
  }

  lemma PlacedPrefix(s: string, t: string, at: seq<nat>)
    requires s != [] && Placed(s, t, at)
    ensures var n := |s| - 1; at[n] <= |t| && Placed(s[..n], t[..at[n]], at[..n + 1])
  {
    var n := |s| - 1;
    assert OnCells(s, n, t, at[n], at[n + 1]);
    var front, u, before := s[..n], t[..at[n]], at[..n + 1];
    forall k: nat | k < n ensures OnCells(front, k, u, before[k], before[k + 1]) {
      hide Column;
      CellsAscend(s, t, at, k + 1, n);
      assert OnCells(s, k, t, at[k], at[k + 1]);
      assert front[..k] == s[..k] && u[..at[k]] == t[..at[k]] && u[..at[k + 1]] == t[..at[k + 1]];
    }
  }

  lemma ToNextStop(column: nat, width: nat)
    requires 0 < width <= TAB_SIZE && (column + width) % TAB_SIZE == 0
    ensures width == TAB_SIZE - column % TAB_SIZE
  {
  }

  lemma TabWidth(t: string, from: nat)
    requires from <= |t| && forall i :: from <= i < |t| ==> t[i] == ' '
    ensures Column(0, t) == Column(0, t[..from]) + (|t| - from)
  {
    hide Column, Spaces;
    assert t == t[..from] + Spaces(|t| - from);
    SpacesColumn(0, t[..from], |t| - from);
  }

  lemma LastCells(s: string, t: string, from: nat)
    requires s != [] && OnCells(s, |s| - 1, t, from, |t|) && t[..from] == ExpandTabs(s[..|s| - 1])
    ensures t == ExpandTabs(s)
  {
    var n := |s| - 1;
    var width := |t| - from;
    ExpandNext(s, n);
    hide ExpandTabs, Column, Spaces;
    assert t[..|t|] == t && s[..n + 1] == s;
    if s[n] == '\t' {
      TabWidth(t, from);
      assert t == t[..from] + Spaces(width);
      ToNextStop(Column(0, s[..n]), width);
    } else {
      assert t == t[..from] + [s[n]];
    }
  }

  lemma {:induction false} PlacedIsExpanded(s: string, t: string, at: seq<nat>)
    requires Placed(s, t, at)
    ensures t == ExpandTabs(s)
  {
    if s != [] {
      var n := |s| - 1;
      PlacedPrefix(s, t, at);
      PlacedIsExpanded(s[..n], t[..at[n]], at[..n + 1]);
      assert OnCells(s, n, t, at[n], at[n + 1]);
      LastCells(s, t, at[n]);
    }
  }

  /** The layout determines the text: expanding tabs is the only way to keep it. */
  lemma LayoutIsExpansion(s: string, t: string)
    ensures SameLayout(s, t) <==> t == ExpandTabs(s)
  {
    ExpandedLayout(s);
    if SameLayout(s, t) {
      var at :| Placed(s, t, at);
      PlacedIsExpanded(s, t, at);
    }
  }

  // ---------------------------------------------------------------- files as lines

  /** What opening a file in text mode does to line ends. */
  function UniversalNewlines(s: string): string
    decreases |s|
  {
    if s == [] then []
    else if s[0] != '\r' then [s[0]] + UniversalNewlines(s[1..])
    else ['\n'] + UniversalNewlines(if |s| > 1 && s[1] == '\n' then s[2..] else s[1..])
  }

  lemma {:induction false} NewlinesOnly(s: string)
    ensures Without(UniversalNewlines(s), '\r')
    ensures Without(s, '\r') ==> UniversalNewlines(s) == s
    decreases |s|
  {
    if s != [] {
      NewlinesOnly(s[1..]);
      if s[0] == '\r' && |s| > 1 && s[1] == '\n' {
        NewlinesOnly(s[2..]);
      }
    }
  }

  /** Line ends do not depend on each other, except that "\r\n" is one. */
  lemma {:induction false} NewlinesConcat(a: string, b: string)
    requires a == [] || b == [] || a[|a| - 1] != '\r' || b[0] != '\n'
    ensures UniversalNewlines(a + b) == UniversalNewlines(a) + UniversalNewlines(b)
    decreases |a|
  {
    if a == [] {
      assert a + b == b;
    } else {
      var rest := a[1..];
      assert (a + b)[1..] == rest + b;
      if a[0] == '\r' && |a| > 1 && a[1] == '\n' {
        assert (a + b)[2..] == a[2..] + b;
        NewlinesConcat(a[2..], b);
        Associative(['\n'], UniversalNewlines(a[2..]), UniversalNewlines(b));
      } else {
        NewlinesConcat(rest, b);
        assert a[0] == '\r' ==> |a + b| == 1 || (a + b)[1] != '\n';
        Associative([if a[0] == '\r' then '\n' else a[0]], UniversalNewlines(rest), UniversalNewlines(b));
      }
    }
  }

  lemma OneLineEnd(c: char)
    ensures UniversalNewlines("\r\n") == "\n" && UniversalNewlines("\r") == "\n"
    ensures c != '\r' ==> UniversalNewlines([c]) == [c]
  {
    assert "\r\n"[2..] == "" && "\r"[1..] == "";
  }

  lemma {:induction false} NewlinesKeepOthers(s: string, c: char)
    requires c != '\r' && c != '\n'
    ensures c in UniversalNewlines(s) <==> c in s
    decreases |s|
  {
    if s != [] {
      var rest := if s[0] == '\r' && |s| > 1 && s[1] == '\n' then s[2..] else s[1..];
      NewlinesKeepOthers(rest, c);
      assert s == s[..|s| - |rest|] + rest;
    }
  }

  predicate Ended(line: string) { line != [] && line[|line| - 1] == '\n' }

  /** A newline ends a line and is nowhere else in it. */
  predicate IsLine(line: string) { line != [] && Without(line[..|line| - 1], '\n') }

  ghost predicate AreLines(ls: seq<string>)
  {
    && (forall i :: 0 <= i < |ls| ==> IsLine(ls[i]))
    && (forall i :: 0 <= i < |ls| - 1 ==> Ended(ls[i]))
  }

  /** `readlines` on a text whose line ends are newlines. */
  function Lines(s: string): seq<string>
  {
    if s == [] then []
    else
      var ls := Lines(s[..|s| - 1]);
      var c := s[|s| - 1];
      if ls != [] && !Ended(ls[|ls| - 1]) then ls[..|ls| - 1] + [ls[|ls| - 1] + [c]] else ls + [[c]]
  }

  /** `writelines`. */
  function Joined(ls: seq<string>): string
  {
    if ls == [] then [] else Joined(ls[..|ls| - 1]) + ls[|ls| - 1]
  }

  lemma LongerIsLine(line: string, c: char)
    requires IsLine(line) && !Ended(line)
    ensures IsLine(line + [c])
  {
    assert line == line[..|line| - 1] + [line[|line| - 1]];
    assert (line + [c])[..|line|] == line;
  }

  lemma {:induction false} LinesAreLines(s: string)
    ensures AreLines(Lines(s))
  {
    if s != [] {
      var ls := Lines(s[..|s| - 1]);
      LinesAreLines(s[..|s| - 1]);
      if ls != [] && !Ended(ls[|ls| - 1]) {
        LongerIsLine(ls[|ls| - 1], s[|s| - 1]);
      }
    }
  }

  lemma LinesNewLine(s: string, c: char)
    requires forall i :: 0 <= i < |Lines(s)| ==> Ended(Lines(s)[i])
    ensures Lines(s + [c]) == Lines(s) + [[c]]
  {
    assert (s + [c])[..|s|] == s;
  }

  lemma LinesSameLine(s: string, c: char, front: seq<string>, last: string)
    requires Lines(s) == front + [last] && !Ended(last)
    ensures Lines(s + [c]) == front + [last + [c]]
  {
    assert (s + [c])[..|s|] == s;
  }

  lemma {:induction false} LinesOfExtended(text: string, line: string)
    requires IsLine(line) && forall i :: 0 <= i < |Lines(text)| ==> Ended(Lines(text)[i])
    ensures Lines(text + line) == Lines(text) + [line]
    decreases |line|
  {
    var n := |line| - 1;
    var front, c := line[..n], line[n];
    assert line == front + [c];
    if n == 0 {
      LinesNewLine(text, c);
    } else {
      assert front[..n - 1] == line[..n - 1];
      LinesOfExtended(text, front);
      LinesSameLine(text + front, c, Lines(text), front);
      Associative(text, front, [c]);
    }
  }

  lemma JoinedSnoc(ls: seq<string>, line: string)
    ensures Joined(ls + [line]) == Joined(ls) + line
  {
    assert (ls + [line])[..|ls|] == ls;
  }

  /** Writing lines and reading them back gives the same lines. */
  lemma {:induction false} ReadBack(ls: seq<string>)
    requires AreLines(ls)
    ensures Lines(Joined(ls)) == ls
  {
    if ls != [] {
      var front, last := ls[..|ls| - 1], ls[|ls| - 1];
      assert ls == front + [last];
      assert forall i :: 0 <= i < |front| ==> front[i] == ls[i];
      ReadBack(front);
      JoinedSnoc(front, last);
      LinesOfExtended(Joined(front), last);
    }
  }

  lemma JoinedLonger(front: seq<string>, last: string, c: char)
    ensures Joined(front + [last + [c]]) == Joined(front + [last]) + [c]
  {
    JoinedSnoc(front, last);
    JoinedSnoc(front, last + [c]);
    Associative(Joined(front), last, [c]);
  }

  /** Reading loses nothing. */
  lemma {:induction false} JoinedLines(s: string)
    ensures Joined(Lines(s)) == s
  {
    if s != [] {
      var t, c := s[..|s| - 1], s[|s| - 1];
      var ls := Lines(t);
      assert s == t + [c];
      JoinedLines(t);
      if ls != [] && !Ended(ls[|ls| - 1]) {
        var front, last := ls[..|ls| - 1], ls[|ls| - 1];
        assert ls == front + [last];
        JoinedLonger(front, last, c);
      } else {
        JoinedSnoc(ls, [c]);
      }
    }
  }

  lemma {:induction false} JoinedWithout(ls: seq<string>, c: char)
    requires forall i :: 0 <= i < |ls| ==> Without(ls[i], c)
    ensures Without(Joined(ls), c)
  {
    if ls != [] { JoinedWithout(ls[..|ls| - 1], c); }
  }

  lemma {:induction false} LinesWithout(s: string, c: char)
    requires Without(s, c)
    ensures forall i :: 0 <= i < |Lines(s)| ==> Without(Lines(s)[i], c)
  {
    if s != [] { LinesWithout(s[..|s| - 1], c); }
  }
}
