/** The text half of the coding-style checker: the trailing-whitespace and the tab fixers, the
    clang-format guards that switch the latter off, and reading and writing the file between them. */
module StyleFix {

  /** The two comment lines that switch the tab checker on and off. */
  datatype Guards = Guards(on: string, off: string)

  const CLANG_FORMAT := Guards("// clang-format on", "// clang-format off")
  const TAB_SIZE: nat := 4

  // ---------------------------------------------------------------------------
  // str.strip, str.rstrip, str.expandtabs
  // ---------------------------------------------------------------------------

  /** The characters Python strips by default. */
  predicate IsSpace(c: char) {
    var n := c as int;
    || 0x09 <= n <= 0x0D || 0x1C <= n <= 0x20 || n == 0x85 || n == 0xA0 || n == 0x1680
    || 0x2000 <= n <= 0x200A || n == 0x2028 || n == 0x2029 || n == 0x202F || n == 0x205F || n == 0x3000
  }

  predicate AllSpace(s: string) {
    forall i :: 0 <= i < |s| ==> IsSpace(s[i])
  }

  function RStrip(s: string): string {
    if s == [] || !IsSpace(s[|s| - 1]) then s else RStrip(s[..|s| - 1])
  }

  function LStrip(s: string): string {
    if s == [] || !IsSpace(s[0]) then s else LStrip(s[1..])
  }

  /** rstrip cuts off whitespace only, and all of it. */
  lemma {:induction false} RStripCuts(s: string)
    ensures var r := RStrip(s);
            && r <= s && AllSpace(s[|r|..])
            && (r != [] ==> !IsSpace(r[|r| - 1]))
  {
    hide IsSpace;
    if s != [] && IsSpace(s[|s| - 1]) {
      var front := s[..|s| - 1];
      RStripCuts(front);
      assert s[|RStrip(front)|..] == front[|RStrip(front)|..] + [s[|s| - 1]];
    }
  }

  /** lstrip cuts off whitespace only, and all of it. */
  lemma {:induction false} LStripCuts(s: string)
    ensures var r := LStrip(s);
            && |r| <= |s| && r == s[|s| - |r|..] && AllSpace(s[..|s| - |r|])
            && (r != [] ==> !IsSpace(r[0]))
  {
    hide IsSpace;
    if s != [] && IsSpace(s[0]) {
      var r := LStrip(s[1..]);
      LStripCuts(s[1..]);
      assert s[..|s| - |r|] == [s[0]] + s[1..][..|s| - 1 - |r|];
    }
  }

  function Strip(s: string): string {
    LStrip(RStrip(s))
  }

  /** A core that neither starts nor ends with whitespace. */
  ghost predicate IsCore(s: string) {
    s != [] ==> !IsSpace(s[0]) && !IsSpace(s[|s| - 1])
  }

  lemma {:induction false} RStripOver(s: string, b: string)
    requires AllSpace(b)
    ensures RStrip(s + b) == RStrip(s)
  {
    if b == [] {
      assert s + b == s;
    } else {
      assert (s + b)[..|s + b| - 1] == s + b[..|b| - 1];
      RStripOver(s, b[..|b| - 1]);
    }
  }

  lemma {:induction false} LStripOver(a: string, s: string)
    requires AllSpace(a)
    ensures LStrip(a + s) == LStrip(s)
  {
    if a == [] {
      assert a + s == s;
    } else {
      assert (a + s)[1..] == a[1..] + s;
      LStripOver(a[1..], s);
    }
  }

  /** Strip is determined by what it means: whitespace around a core. */
  lemma StripUnique(a: string, core: string, b: string)
    requires AllSpace(a) && IsCore(core) && AllSpace(b)
    ensures Strip(a + core + b) == core
  {
    RStripOver(a + core, b);
    if core == [] {
      assert a + core == [] + a;
      RStripOver([], a);
    } else {
      assert (a + core)[|a + core| - 1] == core[|core| - 1];
      LStripOver(a, core);
    }
  }

  lemma ThreePieces(s: string, r: string, l: string)
    requires r <= s && |l| <= |r| && l == r[|r| - |l|..]
    ensures s == r[..|r| - |l|] + l + s[|r|..]
    ensures l != [] ==> l[|l| - 1] == r[|r| - 1]
  {
    assert r == s[..|r|];
  }

  /** The whitespace before the text of a line; all of a line without text. */
  ghost function Indentation(s: string): string {
    var r := RStrip(s);
    LStripCuts(r);
    r[..|r| - |LStrip(r)|]
  }

  lemma StripSplits(s: string) returns (a: string, b: string)
    ensures AllSpace(a) && AllSpace(b) && IsCore(Strip(s)) && s == a + Strip(s) + b
    ensures a == Indentation(s)
  {
    hide IsSpace, RStrip, LStrip, AllSpace;
    var r := RStrip(s);
    var l := LStrip(r);
    RStripCuts(s);
    LStripCuts(r);
    a, b := r[..|r| - |l|], s[|r|..];
    ThreePieces(s, r, l);
  }

  function Spaces(n: nat): (s: string)
    ensures |s| == n && forall i :: 0 <= i < n ==> s[i] == ' '
  {
    seq(n, _ => ' ')
  }

  /** The column after the character `c` at column `column`. */
  function NextColumn(column: nat, c: char): nat {
    if c == '\t' then column + (TAB_SIZE - column % TAB_SIZE)
    else if c == '\n' || c == '\r' then 0
    else column + 1
  }

  function ColumnAfter(column: nat, s: string): nat
    decreases |s|
  {
    if s == [] then column else ColumnAfter(NextColumn(column, s[0]), s[1..])
  }

  function ExpandFrom(column: nat, s: string): string
    decreases |s|
  {
    if s == [] then [] else
      (if s[0] == '\t' then Spaces(TAB_SIZE - column % TAB_SIZE) else [s[0]])
      + ExpandFrom(NextColumn(column, s[0]), s[1..])
  }

  /** line.expandtabs(TAB_SIZE) */
  function ExpandTabs(line: string): string {
    ExpandFrom(0, line)
  }

  lemma {:induction false} ExpandConcat(column: nat, s: string, t: string)
    ensures ExpandFrom(column, s + t) == ExpandFrom(column, s) + ExpandFrom(ColumnAfter(column, s), t)
    ensures ColumnAfter(column, s + t) == ColumnAfter(ColumnAfter(column, s), t)
    decreases |s|
  {
    if s == [] {
      assert s + t == t;
    } else {
      assert (s + t)[1..] == s[1..] + t;
      ExpandConcat(NextColumn(column, s[0]), s[1..], t);
    }
  }

  lemma {:induction false} ExpandWithoutTabs(column: nat, s: string)
    requires '\t' !in s
    ensures ExpandFrom(column, s) == s
    decreases |s|
  {
    if s != [] {
      assert s == [s[0]] + s[1..];
      ExpandWithoutTabs(NextColumn(column, s[0]), s[1..]);
    }
  }

  /** A tab reaches to the next tab stop: blanks up to the next multiple of the tab size, at least one. */
  lemma TabReachesStop(a: string, n: nat)
    requires '\n' !in a && '\r' !in a && n == |ExpandTabs(a)|
    ensures n < |ExpandTabs(a + "\t")| <= n + TAB_SIZE && |ExpandTabs(a + "\t")| % TAB_SIZE == 0
    ensures ExpandTabs(a + "\t") == ExpandTabs(a) + Spaces(|ExpandTabs(a + "\t")| - n)
  {
    ExpandConcat(0, a, "\t");
    ExpandedLength(0, a);
    assert "\t"[1..] == [];
  }

  lemma {:induction false} ExpandedLength(column: nat, s: string)
    requires '\n' !in s && '\r' !in s
    ensures column + |ExpandFrom(column, s)| == ColumnAfter(column, s)
    decreases |s|
  {
    if s != [] {
      assert s == [s[0]] + s[1..];
      ExpandedLength(NextColumn(column, s[0]), s[1..]);
    }
  }

  /** Expansion removes every tab and adds nothing but blanks. */
  lemma {:induction false} ExpandedCharacters(column: nat, s: string, c: char)
    ensures '\t' !in ExpandFrom(column, s)
    ensures c in ExpandFrom(column, s) ==> c == ' ' || c in s
    ensures AllSpace(s) ==> AllSpace(ExpandFrom(column, s))
    decreases |s|
  {
    if s != [] {
      ExpandedCharacters(NextColumn(column, s[0]), s[1..], c);
      assert s == [s[0]] + s[1..];
    }
  }

  lemma {:induction false} ColumnOfSpaces(column: nat, n: nat)
    ensures ColumnAfter(column, Spaces(n)) == column + n
    decreases n
  {
    if n > 0 {
      assert Spaces(n)[1..] == Spaces(n - 1);
      ColumnOfSpaces(column + 1, n - 1);
    }
  }

  /** Expansion moves nothing: the text after the line starts in the column it started in before. */
  lemma {:induction false} ExpandKeepsColumns(column: nat, s: string)
    ensures ColumnAfter(column, ExpandFrom(column, s)) == ColumnAfter(column, s)
    decreases |s|
  {
    if s != [] {
      var next := NextColumn(column, s[0]);
      var head := if s[0] == '\t' then Spaces(TAB_SIZE - column % TAB_SIZE) else [s[0]];
      ColumnOfSpaces(column, TAB_SIZE - column % TAB_SIZE);
      ExpandConcat(column, head, ExpandFrom(next, s[1..]));
      assert s[0] != '\t' ==> head[1..] == [];
      ExpandKeepsColumns(next, s[1..]);
    }
  }

  // ---------------------------------------------------------------------------
  // Reading and writing
  // ---------------------------------------------------------------------------

  /** Text-mode reading: "\r\n" and "\r" become "\n". */
  function Translate(text: string): string {
    if text == [] then []
    else if text[0] != '\r' then [text[0]] + Translate(text[1..])
    else if |text| > 1 && text[1] == '\n' then "\n" + Translate(text[2..])
    else "\n" + Translate(text[1..])
  }

  /** readlines: cut after every "\n". */
  function SplitLines(text: string): seq<string> {
    if text == [] then []
    else if text[0] == '\n' then ["\n"] + SplitLines(text[1..])
    else
      var rest := SplitLines(text[1..]);
      if rest == [] then [[text[0]]] else [[text[0]] + rest[0]] + rest[1..]
  }

  function ReadLines(text: string): seq<string> {
    SplitLines(Translate(text))
  }

  /** writelines */
  function Join(lines: seq<string>): string {
    if lines == [] then [] else lines[0] + Join(lines[1..])
  }

  predicate EndsLine(line: string) {
    line != [] && line[|line| - 1] == '\n'
  }

  function Chomp(line: string): string {
    if EndsLine(line) then line[..|line| - 1] else line
  }

  ghost predicate IsLine(line: string) {
    line != [] && '\n' !in Chomp(line) && '\r' !in line
  }

  /** What readlines can return: only the last line may lack its newline. */
  ghost predicate IsLineList(lines: seq<string>) {
    && (forall i :: 0 <= i < |lines| ==> IsLine(lines[i]))
    && (forall i :: 0 <= i < |lines| - 1 ==> EndsLine(lines[i]))
  }

  lemma {:induction false} TranslateRemovesReturns(text: string)
    ensures '\r' !in Translate(text)
    ensures '\r' !in text ==> Translate(text) == text
    decreases |text|
  {
    if text != [] {
      assert text == [text[0]] + text[1..];
      TranslateRemovesReturns(text[1..]);
      if |text| > 1 { TranslateRemovesReturns(text[2..]); }
    }
  }

  lemma TranslateStep(text: string)
    ensures text == [] ==> Translate(text) == []
    ensures text != [] ==>
              var k := if text[0] == '\r' && |text| > 1 && text[1] == '\n' then 2 else 1;
              Translate(text) == [if text[0] == '\r' then '\n' else text[0]] + Translate(text[k..])
  {
  }

  /** Reading is piecewise wherever no "\r\n" is cut. */
  lemma {:induction false} TranslateConcat(a: string, b: string)
    requires a == [] || a[|a| - 1] != '\r' || b == [] || b[0] != '\n'
    ensures Translate(a + b) == Translate(a) + Translate(b)
    decreases |a|
  {
    hide Translate;
    TranslateStep(a);
    TranslateStep(a + b);
    if a == [] {
      assert a + b == b;
    } else {
      var k := if a[0] == '\r' && |a| > 1 && a[1] == '\n' then 2 else 1;
      assert (a + b)[k..] == a[k..] + b;
      TranslateConcat(a[k..], b);
    }
  }

  /** Universal newlines: "\r\n" and a lone "\r" are each read as one "\n". */
  lemma TranslateNewline(a: string, b: string)
    ensures Translate(a + ("\r\n" + b)) == Translate(a) + ("\n" + Translate(b))
    ensures b == [] || b[0] != '\n' ==> Translate(a + ("\r" + b)) == Translate(a) + ("\n" + Translate(b))
  {
    TranslateConcat(a, "\r\n" + b);
    TranslateConcat(a, "\r" + b);
    assert ("\r\n" + b)[2..] == b && ("\r" + b)[1..] == b;
  }

  lemma {:induction false} SplitIsLineList(text: string)
    requires '\r' !in text
    ensures IsLineList(SplitLines(text))
    ensures SplitLines(text) == [] <==> text == []
  {
    if text != [] {
      assert text == [text[0]] + text[1..];
      SplitIsLineList(text[1..]);
      var rest := SplitLines(text[1..]);
      if text[0] != '\n' && rest != [] {
        var first := [text[0]] + rest[0];
        assert Chomp(first) == [text[0]] + Chomp(rest[0]);
        assert IsLine(first) && EndsLine(first) == EndsLine(rest[0]);
      }
    }
  }

  lemma ReadIsLineList(text: string)
    ensures IsLineList(ReadLines(text))
  {
    TranslateRemovesReturns(text);
    SplitIsLineList(Translate(text));
  }

  lemma {:induction false} SplitFirst(line: string, rest: string)
    requires IsLine(line) && (EndsLine(line) || rest == [])
    ensures SplitLines(line + rest) == [line] + SplitLines(rest)
  {
    var text := line + rest;
    if |line| == 1 {
      assert text[1..] == rest;
      assert line == [line[0]] == [text[0]];
    } else {
      assert text[1..] == line[1..] + rest;
      assert Chomp(line) == [line[0]] + Chomp(line[1..]);
      SplitFirst(line[1..], rest);
      assert [line[0]] + line[1..] == line;
    }
  }

  /** Reading back what was written gives the lines that were written. */
  lemma {:induction false} ReadBack(lines: seq<string>)
    requires IsLineList(lines)
    ensures ReadLines(Join(lines)) == lines
  {
    SplitBack(lines);
    JoinHasNoReturns(lines);
    TranslateRemovesReturns(Join(lines));
  }

  lemma {:induction false} JoinHasNoReturns(lines: seq<string>)
    requires IsLineList(lines)
    ensures '\r' !in Join(lines)
  {
    if lines != [] { JoinHasNoReturns(lines[1..]); }
  }

  lemma {:induction false} SplitBack(lines: seq<string>)
    requires IsLineList(lines)
    ensures SplitLines(Join(lines)) == lines
  {
    if lines != [] {
      SplitBack(lines[1..]);
      if |lines| == 1 { assert lines[1..] == []; }
      SplitFirst(lines[0], Join(lines[1..]));
    }
  }

  // ---------------------------------------------------------------------------
  // Trailing whitespace
  // ---------------------------------------------------------------------------

  function TrimLine(line: string): string {
    RStrip(line) + "\n"
  }

  ghost predicate HasTrailingWhitespace(lines: seq<string>) {
    exists i :: 0 <= i < |lines| && lines[i] != TrimLine(lines[i])
  }

  ghost function TrimLines(lines: seq<string>): (r: seq<string>)
    ensures |r| == |lines| && forall i :: 0 <= i < |lines| ==> r[i] == TrimLine(lines[i])
  {
    seq(|lines|, i requires 0 <= i < |lines| => TrimLine(lines[i]))
  }

  /** A trimmed line stays as it is: text that ends in ink, then one newline. */
  lemma TrimmedIff(line: string)
    ensures line == TrimLine(line) <==>
            EndsLine(line) && (Chomp(line) == [] || !IsSpace(Chomp(line)[|Chomp(line)| - 1]))
  {
    RStripCuts(line);
    if EndsLine(line) && (Chomp(line) == [] || !IsSpace(Chomp(line)[|Chomp(line)| - 1])) {
      assert RStrip(line) == RStrip(line[..|line| - 1]) == Chomp(line);
    }
    if line == TrimLine(line) {
      assert Chomp(line) == RStrip(line);
    }
  }

  /** What a line is trimmed to: as much of it as ends in ink, then one newline. */
  lemma TrimLineCuts(line: string) returns (n: nat)
    ensures n <= |line| && TrimLine(line) == line[..n] + "\n"
    ensures AllSpace(line[n..]) && (n > 0 ==> !IsSpace(line[n - 1]))
  {
    RStripCuts(line);
    n := |RStrip(line)|;
  }

  lemma TrimTwice(line: string)
    ensures TrimLine(TrimLine(line)) == TrimLine(line)
  {
    RStripCuts(line);
    assert Chomp(TrimLine(line)) == RStrip(line);
    TrimmedIff(TrimLine(line));
  }

  lemma TrimKeepsLines(lines: seq<string>)
    requires IsLineList(lines)
    ensures IsLineList(TrimLines(lines)) && !HasTrailingWhitespace(TrimLines(lines))
  {
    forall i | 0 <= i < |lines|
      ensures IsLine(TrimLine(lines[i])) && EndsLine(TrimLine(lines[i]))
      ensures TrimLine(TrimLine(lines[i])) == TrimLine(lines[i])
    {
      var line := lines[i];
      TrimTwice(line);
      RStripCuts(line);
      assert Chomp(TrimLine(line)) == RStrip(line);
      assert RStrip(line) <= Chomp(line);
    }
  }

  // ---------------------------------------------------------------------------
  // Tabs and guards
  // ---------------------------------------------------------------------------

  predicate IsGuard(g: Guards, line: string) {
    Strip(line) == g.on || Strip(line) == g.off
  }

  /** clang_format_enabled after seeing `line`. */
  predicate GuardAfter(g: Guards, enabled: bool, line: string) {
    if Strip(line) == g.on then true else if Strip(line) == g.off then false else enabled
  }

  /** Whether `line` is looked at when the flag was `enabled` before it. */
  predicate Examined(g: Guards, enabled: bool, line: string) {
    GuardAfter(g, enabled, line) || IsGuard(g, line)
  }

  function FixLine(g: Guards, enabled: bool, line: string): string {
    if Examined(g, enabled, line) && '\t' in line then ExpandTabs(line) else line
  }

  ghost function FixTabs(g: Guards, enabled: bool, lines: seq<string>): seq<string>
    decreases |lines|
  {
    if lines == [] then []
    else [FixLine(g, enabled, lines[0])] + FixTabs(g, GuardAfter(g, enabled, lines[0]), lines[1..])
  }

  ghost predicate HasTabs(g: Guards, enabled: bool, lines: seq<string>)
    decreases |lines|
  {
    lines != [] && ((Examined(g, enabled, lines[0]) && '\t' in lines[0]) || HasTabs(g, GuardAfter(g, enabled, lines[0]), lines[1..]))
  }

  // Which lines are checked, said without following the flag

  /** Line `j` is the last guard before line `i`. */
  ghost predicate IsLastGuard(g: Guards, lines: seq<string>, i: nat, j: nat)
    requires i <= |lines|
  {
    j < i && IsGuard(g, lines[j]) && forall k :: j < k < i ==> !IsGuard(g, lines[k])
  }

  /** No guard stands before line `i`, or the last one there is the "on" guard. */
  ghost predicate SwitchedOn(g: Guards, lines: seq<string>, i: nat)
    requires i <= |lines|
  {
    || (forall k :: 0 <= k < i ==> !IsGuard(g, lines[k]))
    || (exists j: nat :: IsLastGuard(g, lines, i, j) && Strip(lines[j]) == g.on)
  }

  /** Guards themselves are always checked, other lines where the checker is switched on. */
  ghost predicate IsChecked(g: Guards, lines: seq<string>, i: nat)
    requires i < |lines|
  {
    IsGuard(g, lines[i]) || SwitchedOn(g, lines, i)
  }

  ghost predicate TabIsFound(g: Guards, lines: seq<string>, i: nat) {
    i < |lines| && '\t' in lines[i] && IsChecked(g, lines, i)
  }

  /** The flag before line `i`. */
  ghost function Flag(g: Guards, lines: seq<string>, i: nat): bool
    requires i <= |lines|
  {
    if i == 0 then true else GuardAfter(g, Flag(g, lines, i - 1), lines[i - 1])
  }

  lemma GuardSwitches(g: Guards, enabled: bool, line: string)
    ensures IsGuard(g, line) <==> Strip(line) == g.on || Strip(line) == g.off
    ensures GuardAfter(g, enabled, line) <==> Strip(line) == g.on || (enabled && !IsGuard(g, line))
  {
  }

  lemma {:induction false} FlagIff(g: Guards, lines: seq<string>, i: nat)
    requires i <= |lines|
    ensures Flag(g, lines, i) <==> SwitchedOn(g, lines, i)
  {
    hide Strip, IsGuard;
    if i > 0 {
      FlagIff(g, lines, i - 1);
      GuardSwitches(g, Flag(g, lines, i - 1), lines[i - 1]);
      if IsGuard(g, lines[i - 1]) {
        assert IsLastGuard(g, lines, i, i - 1);
      } else {
        assert forall j: nat :: IsLastGuard(g, lines, i, j) <==> IsLastGuard(g, lines, i - 1, j);
      }
    }
  }

  lemma CheckedIff(g: Guards, lines: seq<string>, i: nat)
    requires i < |lines|
    ensures IsChecked(g, lines, i) <==> Examined(g, Flag(g, lines, i), lines[i])
  {
    hide Strip, Flag, SwitchedOn;
    FlagIff(g, lines, i);
  }

  lemma {:induction false} HasTabsFrom(g: Guards, lines: seq<string>, n: nat)
    requires n <= |lines|
    ensures HasTabs(g, Flag(g, lines, n), lines[n..]) <==> exists i: nat :: n <= i && TabIsFound(g, lines, i)
    decreases |lines| - n
  {
    hide Strip, IsChecked, Examined, GuardAfter;
    if n < |lines| {
      HasTabsFrom(g, lines, n + 1);
      CheckedIff(g, lines, n);
      assert lines[n..][0] == lines[n] && lines[n..][1..] == lines[n + 1..];
      assert TabIsFound(g, lines, n) <==> '\t' in lines[n] && IsChecked(g, lines, n);
    }
  }

  /** The tab checker complains exactly about tabs in lines that are guards, or that no guard or an
      "on" guard comes before. */
  lemma HasTabsIff(g: Guards, lines: seq<string>)
    ensures HasTabs(g, true, lines) <==> exists i: nat :: TabIsFound(g, lines, i)
  {
    hide Strip, IsChecked, TabIsFound, HasTabs;
    HasTabsFrom(g, lines, 0);
    assert lines[0..] == lines;
  }

  lemma {:induction false} FixTabsFrom(g: Guards, lines: seq<string>, n: nat, i: nat)
    requires n <= i < |lines|
    ensures |FixTabs(g, Flag(g, lines, n), lines[n..])| == |lines| - n
    ensures FixTabs(g, Flag(g, lines, n), lines[n..])[i - n] == FixLine(g, Flag(g, lines, i), lines[i])
    decreases i - n
  {
    hide FixLine, GuardAfter;
    FixTabsLength(g, Flag(g, lines, n), lines[n..]);
    assert lines[n..][0] == lines[n] && lines[n..][1..] == lines[n + 1..];
    if n < i { FixTabsFrom(g, lines, n + 1, i); }
  }

  /** The tab fixer expands exactly those lines and leaves the others as they are. */
  lemma FixTabsAt(g: Guards, lines: seq<string>, i: nat)
    requires i < |lines|
    ensures |FixTabs(g, true, lines)| == |lines|
    ensures FixTabs(g, true, lines)[i] == if IsChecked(g, lines, i) then ExpandTabs(lines[i]) else lines[i]
  {
    hide FixTabs, Examined, IsChecked;
    FixTabsFrom(g, lines, 0, i);
    assert lines[0..] == lines;
    CheckedIff(g, lines, i);
    if '\t' !in lines[i] { ExpandWithoutTabs(0, lines[i]); }
  }

  lemma PlainTextStrips(text: string)
    requires IsCore(text)
    ensures Strip(text + "\n") == text
  {
    StripUnique("", text, "\n");
    assert "" + text + "\n" == text + "\n";
  }

  lemma HiddenTab(g: Guards, off: string, tabbed: string)
    requires IsGuard(g, off) && Strip(off) != g.on && '\t' !in off && !IsGuard(g, tabbed)
    ensures !HasTabs(g, true, [off, tabbed])
  {
    hide Strip, IsGuard, HasTabs;
    var lines := [off, tabbed];
    HasTabsIff(g, lines);
    assert forall j: nat :: IsLastGuard(g, lines, 1, j) ==> j == 0;
    assert lines[0] == off && lines[1] == tabbed;
  }

  lemma ShownTab(g: Guards, off: string, on: string, tabbed: string)
    requires Strip(on) == g.on && '\t' in tabbed
    ensures HasTabs(g, true, [off, on, tabbed])
  {
    hide Strip, HasTabs;
    var lines := [off, on, tabbed];
    HasTabsIff(g, lines);
    assert lines[1] == on && lines[2] == tabbed;
    assert IsLastGuard(g, lines, 2, 1);
    assert TabIsFound(g, lines, 2);
  }

  /** The guards at work: "off" hides the tab of a later line, and "on" after it brings it back. */
  lemma GuardsSwitchTheChecker()
    ensures !HasTabs(CLANG_FORMAT, true, ["// clang-format off\n", "\tx\n"])
    ensures HasTabs(CLANG_FORMAT, true, ["// clang-format off\n", "// clang-format on\n", "\tx\n"])
  {
    hide Strip, HasTabs;
    PlainTextStrips("// clang-format off");
    PlainTextStrips("// clang-format on");
    StripUnique("\t", "x", "\n");
    var off, on, tabbed := "// clang-format off" + "\n", "// clang-format on" + "\n", "\t" + "x" + "\n";
    HiddenTab(CLANG_FORMAT, off, tabbed);
    ShownTab(CLANG_FORMAT, off, on, tabbed);
    assert off == "// clang-format off\n" && on == "// clang-format on\n" && tabbed == "\tx\n";
  }

  /** What is in the file after the tab fix, line by line. */
  lemma UntabbedLines(g: Guards, text: string, i: nat)
    requires i < |ReadLines(text)|
    ensures |ReadLines(UntabbedText(g, text))| == |ReadLines(text)|
    ensures ReadLines(UntabbedText(g, text))[i]
         == if IsChecked(g, ReadLines(text), i) then ExpandTabs(ReadLines(text)[i]) else ReadLines(text)[i]
  {
    hide FixTabs, HasTabs, IsChecked, ReadLines, ExpandTabs;
    var lines := ReadLines(text);
    FixTabsAt(g, lines, i);
    ReadIsLineList(text);
    FixKeepsLines(g, true, lines);
    ReadBack(FixTabs(g, true, lines));
    if !HasTabs(g, true, lines) { NoTabsNoChange(g, true, lines); }
  }

  /** The guard lines themselves contain no tab. */
  ghost predicate TabFree(g: Guards) {
    '\t' !in g.on && '\t' !in g.off
  }

  lemma ClangFormatIsTabFree()
    ensures TabFree(CLANG_FORMAT)
  {
  }

  /** Tabs around the text of a line do not matter to what the line strips to. */
  lemma StripSurvivesExpansion(line: string)
    requires '\t' !in Strip(line)
    ensures Strip(ExpandTabs(line)) == Strip(line)
  {
    hide Strip, ExpandFrom, ColumnAfter, IsSpace, AllSpace, IsCore;
    var core := Strip(line);
    var a, b := StripSplits(line);
    var column := ColumnAfter(0, a);
    var a', b' := ExpandFrom(0, a), ExpandFrom(ColumnAfter(column, core), b);
    ExpandConcat(0, a, core + b);
    ExpandConcat(column, core, b);
    ExpandWithoutTabs(column, core);
    ExpandedCharacters(0, a, ' ');
    ExpandedCharacters(ColumnAfter(column, core), b, ' ');
    assert a + (core + b) == a + core + b && a' + (core + b') == a' + core + b';
    StripUnique(a', core, b');
  }

  /** A guard line survives expansion: its tabs can only stand around the guard. */
  lemma GuardSurvivesExpansion(g: Guards, line: string)
    requires TabFree(g) && IsGuard(g, line)
    ensures Strip(ExpandTabs(line)) == Strip(line)
  {
    hide Strip, ExpandTabs;
    StripSurvivesExpansion(line);
  }

  /** An ordinary line that the first pass leaves enabled, and that its expansion switches off. */
  ghost predicate BecomesGuardOff(g: Guards, line: string) {
    && !IsGuard(g, line) && GuardAfter(g, true, line)
    && IsGuard(g, FixLine(g, true, line)) && !GuardAfter(g, true, FixLine(g, true, line))
  }

  /** No two blanks of the text stand side by side. */
  ghost predicate SingleSpaced(s: string) {
    forall i :: 0 < i < |s| ==> s[i - 1] != ' ' || s[i] != ' '
  }

  /** `s`, starting in `column`, is `t` with tabs for some of its blanks, each tab standing in the
      last column before a tab stop. */
  ghost predicate TabsForBlanks(column: nat, s: string, t: string) {
    |s| == |t| && forall i :: 0 <= i < |s| ==>
      (s[i] == t[i] || (s[i] == '\t' && t[i] == ' ')) &&
      (s[i] == '\t' ==> ColumnAfter(column, s[..i]) % TAB_SIZE == TAB_SIZE - 1)
  }

  lemma TabsForBlanksUnfolds(column: nat, s: string, t: string)
    requires s != [] && t != []
    ensures TabsForBlanks(column, s, t) <==>
            && (s[0] == t[0] || (s[0] == '\t' && t[0] == ' '))
            && (s[0] == '\t' ==> column % TAB_SIZE == TAB_SIZE - 1)
            && TabsForBlanks(NextColumn(column, s[0]), s[1..], t[1..])
  {
    hide NextColumn;
    forall i | 0 < i <= |s|
      ensures ColumnAfter(column, s[..i]) == ColumnAfter(NextColumn(column, s[0]), s[1..][..i - 1])
    {
      assert s[..i][0] == s[0] && s[..i][1..] == s[1..][..i - 1];
    }
    var rest := s[1..];
    if TabsForBlanks(column, s, t) {
      forall i | 0 <= i < |rest|
        ensures rest[i] == t[1..][i] || (rest[i] == '\t' && t[1..][i] == ' ')
        ensures rest[i] == '\t' ==> ColumnAfter(NextColumn(column, s[0]), rest[..i]) % TAB_SIZE == TAB_SIZE - 1
      {
        assert rest[i] == s[i + 1] && t[1..][i] == t[i + 1];
      }
      assert s[..0] == [];
    }
    if (s[0] == t[0] || (s[0] == '\t' && t[0] == ' ')) && (s[0] == '\t' ==> column % TAB_SIZE == TAB_SIZE - 1)
       && TabsForBlanks(NextColumn(column, s[0]), rest, t[1..]) {
      forall i | 0 <= i < |s|
        ensures s[i] == t[i] || (s[i] == '\t' && t[i] == ' ')
        ensures s[i] == '\t' ==> ColumnAfter(column, s[..i]) % TAB_SIZE == TAB_SIZE - 1
      {
        if i == 0 { assert s[..0] == []; } else { assert s[i] == rest[i - 1] && t[i] == t[1..][i - 1]; }
      }
    }
  }

  lemma SingleSpacedTail(t: string)
    requires SingleSpaced(t) && t != []
    ensures SingleSpaced(t[1..])
    ensures |t| > 1 && t[0] == ' ' ==> t[1] != ' '
  {
    forall i | 0 < i < |t[1..]| ensures t[1..][i - 1] != ' ' || t[1..][i] != ' ' {
      assert t[(i + 1) - 1] != ' ' || t[i + 1] != ' ';
    }
    if |t| > 1 { assert t[1 - 1] != ' ' || t[1] != ' '; }
  }

  /** A text expands to a single-spaced text exactly when it has tabs only for blanks, and only just
      before tab stops. */
  lemma {:induction false} ExpandsToIff(column: nat, s: string, t: string)
    requires '\t' !in t && SingleSpaced(t)
    ensures ExpandFrom(column, s) == t <==> TabsForBlanks(column, s, t)
    decreases |s|
  {
    if s == [] || t == [] {
      ExpandNothingIff(column, s);
    } else {
      hide TabsForBlanks, SingleSpaced;
      var next := NextColumn(column, s[0]);
      TabsForBlanksUnfolds(column, s, t);
      SingleSpacedTail(t);
      assert t == [t[0]] + t[1..];
      ExpandsToIff(next, s[1..], t[1..]);
      if s[0] == '\t' {
        var n := TAB_SIZE - column % TAB_SIZE;
        FirstTab(n, ExpandFrom(next, s[1..]), t);
      } else {
        Cons(s[0], ExpandFrom(next, s[1..]), t);
      }
    }
  }

  lemma Cons(c: char, rest: string, t: string)
    requires t != []
    ensures [c] + rest == t <==> c == t[0] && rest == t[1..]
  {
    assert t == [t[0]] + t[1..];
    assert ([c] + rest)[0] == c && ([c] + rest)[1..] == rest;
  }

  lemma FirstTab(n: nat, rest: string, t: string)
    requires 1 <= n <= TAB_SIZE && t != [] && (|t| > 1 && t[0] == ' ' ==> t[1] != ' ')
    ensures Spaces(n) + rest == t <==> n == 1 && t[0] == ' ' && rest == t[1..]
  {
    var all := Spaces(n) + rest;
    assert all[0] == ' ' && (n > 1 ==> |all| > 1 && all[1] == ' ');
    if n == 1 {
      assert Spaces(1) == [' '];
      Cons(' ', rest, t);
    }
  }

  lemma ExpandNothingIff(column: nat, s: string)
    ensures ExpandFrom(column, s) == [] <==> s == []
  {
  }

  /** The column in which the text of a line starts, after its indentation. */
  ghost function TextColumn(line: string): nat {
    ColumnAfter(0, Indentation(line))
  }

  /** The text of a line, expanded from the column it starts in, is the text of the expanded line. */
  lemma StripOfExpansion(line: string)
    ensures Strip(ExpandTabs(line)) == ExpandFrom(TextColumn(line), Strip(line))
  {
    hide Strip, ExpandFrom, ColumnAfter, IsSpace, AllSpace, IsCore;
    var core := Strip(line);
    var a, b := StripSplits(line);
    var column := ColumnAfter(0, a);
    var a', b' := ExpandFrom(0, a), ExpandFrom(ColumnAfter(column, core), b);
    ExpandConcat(0, a, core + b);
    ExpandConcat(column, core, b);
    ExpandedCharacters(0, a, ' ');
    ExpandedCharacters(ColumnAfter(column, core), b, ' ');
    assert a + (core + b) == a + core + b && a' + (ExpandFrom(column, core) + b') == a' + ExpandFrom(column, core) + b';
    ExpandedCore(column, core);
    StripUnique(a', ExpandFrom(column, core), b');
  }

  lemma ExpandedCore(column: nat, s: string)
    requires IsCore(s)
    ensures IsCore(ExpandFrom(column, s))
  {
    if s != [] {
      var front, last := s[..|s| - 1], [s[|s| - 1]];
      assert s == front + last && '\t' !in last && s[0] != '\t';
      ExpandConcat(column, front, last);
      ExpandWithoutTabs(ColumnAfter(column, front), last);
      assert ExpandFrom(column, s)[0] == s[0];
    }
  }

  /** When expansion makes an ordinary line the guard that switches the checker off: exactly when the
      line reads as the guard with tabs for one or more of its blanks, each tab standing in the last
      column before a tab stop, counted with the indentation. */
  lemma BecomesGuardOffIff(g: Guards, line: string)
    requires TabFree(g) && g.on != g.off && SingleSpaced(g.off)
    ensures BecomesGuardOff(g, line) <==>
            '\t' in Strip(line) && TabsForBlanks(TextColumn(line), Strip(line), g.off)
  {
    hide Strip, ExpandFrom, TabsForBlanks, TextColumn, SingleSpaced;
    StripOfExpansion(line);
    ExpandsToIff(TextColumn(line), Strip(line), g.off);
    StrippedTabIsInLine(line);
    if '\t' !in Strip(line) {
      StripSurvivesExpansion(line);
    }
  }

  lemma StrippedTabIsInLine(line: string)
    ensures '\t' in Strip(line) ==> '\t' in line
  {
    var a, b := StripSplits(line);
  }

  /** The clang-format guard itself can be made so: its second blank stands just before a tab stop. */
  lemma ExpansionCanMakeAGuard()
    ensures BecomesGuardOff(CLANG_FORMAT, "// clang-format" + "\t" + "off")
  {
    hide BecomesGuardOff, TabFree;
    ClangFormatIsTabFree();
    OneTabMakesGuardOff(CLANG_FORMAT, "// clang-format", "off");
  }

  lemma OneTabMakesGuardOff(g: Guards, a: string, b: string)
    requires TabFree(g) && g.on != g.off && SingleSpaced(g.off) && g.off == a + " " + b
    requires a != [] && b != [] && !IsSpace(a[0]) && !IsSpace(b[|b| - 1]) && '\n' !in a && '\r' !in a
    requires |a| % TAB_SIZE == TAB_SIZE - 1
    ensures BecomesGuardOff(g, a + "\t" + b)
  {
    hide BecomesGuardOff, SingleSpaced, IsSpace;
    var line := a + "\t" + b;
    assert line[0] == a[0] && line[|line| - 1] == b[|b| - 1] && line[|a|] == '\t';
    CoreStrips(line);
    ColumnOfPlainText(0, a);
    assert forall c :: c in a || c in b ==> c in g.off;
    forall i | 0 <= i < |line|
      ensures line[i] == g.off[i] || (line[i] == '\t' && g.off[i] == ' ')
      ensures line[i] == '\t' ==> ColumnAfter(0, line[..i]) % TAB_SIZE == TAB_SIZE - 1
    {
      if i == |a| { assert line[..i] == a; }
    }
    BecomesGuardOffIff(g, line);
  }

  lemma CoreStrips(s: string)
    requires IsCore(s)
    ensures Strip(s) == s && TextColumn(s) == 0
  {
    assert RStrip(s) == s && LStrip(s) == s;
    assert s[..0] == [];
  }

  lemma {:induction false} ColumnOfPlainText(column: nat, s: string)
    requires '\t' !in s && '\n' !in s && '\r' !in s
    ensures ColumnAfter(column, s) == column + |s|
    decreases |s|
  {
    if s != [] {
      assert s == [s[0]] + s[1..];
      ColumnOfPlainText(column + 1, s[1..]);
    }
  }

  /** Fix, then check: a second pass that is never enabled where the first was not finds no tab. */
  lemma {:induction false} SecondPassFindsNoTabs(g: Guards, first: bool, second: bool, lines: seq<string>)
    requires TabFree(g) && (second ==> first)
    ensures !HasTabs(g, second, FixTabs(g, first, lines))
    decreases |lines|
  {
    if lines != [] {
      var line := lines[0];
      var fixed := FixLine(g, first, line);
      ExpandedCharacters(0, line, ' ');
      if IsGuard(g, line) && '\t' in line { GuardSurvivesExpansion(g, line); }
      SecondPassFindsNoTabs(g, GuardAfter(g, first, line), GuardAfter(g, second, fixed), lines[1..]);
      assert FixTabs(g, first, lines)[1..] == FixTabs(g, GuardAfter(g, first, line), lines[1..]);
    }
  }

  lemma ExpandKeepsLine(line: string)
    requires IsLine(line)
    ensures IsLine(ExpandTabs(line)) && EndsLine(ExpandTabs(line)) == EndsLine(line)
    ensures Chomp(ExpandTabs(line)) == ExpandTabs(Chomp(line))
  {
    var body := Chomp(line);
    ExpandedCharacters(0, body, '\n');
    ExpandedCharacters(0, body, '\r');
    if EndsLine(line) {
      assert line == body + "\n";
      ExpandConcat(0, body, "\n");
      ExpandWithoutTabs(ColumnAfter(0, body), "\n");
    } else {
      var last := line[|line| - 1];
      ExpandNonEmpty(line);
    }
  }

  lemma ExpandNonEmpty(s: string)
    requires s != []
    ensures ExpandTabs(s) != []
  {
  }

  /** Tab expansion never brings trailing whitespace back. */
  lemma ExpandKeepsTrimmed(line: string)
    requires IsLine(line) && TrimLine(line) == line
    ensures TrimLine(ExpandTabs(line)) == ExpandTabs(line)
  {
    ExpandKeepsLine(line);
    TrimmedIff(line);
    TrimmedIff(ExpandTabs(line));
    var body := Chomp(line);
    if body != [] {
      var front, last := body[..|body| - 1], [body[|body| - 1]];
      assert body == front + last && '\t' !in last;
      ExpandConcat(0, front, last);
      ExpandWithoutTabs(ColumnAfter(0, front), last);
    }
  }

  ghost predicate SameShape(line: string, fixed: string) {
    && (IsLine(line) ==> IsLine(fixed) && EndsLine(fixed) == EndsLine(line))
    && (IsLine(line) && line == TrimLine(line) ==> fixed == TrimLine(fixed))
  }

  lemma FixLineKeepsShape(g: Guards, enabled: bool, line: string)
    ensures SameShape(line, FixLine(g, enabled, line))
  {
    if IsLine(line) {
      ExpandKeepsLine(line);
      if line == TrimLine(line) { ExpandKeepsTrimmed(line); }
    }
  }

  lemma {:induction false} FixTabsShape(g: Guards, enabled: bool, lines: seq<string>, i: nat)
    requires i < |lines|
    ensures |FixTabs(g, enabled, lines)| == |lines| && SameShape(lines[i], FixTabs(g, enabled, lines)[i])
    decreases |lines|
  {
    hide SameShape, FixLine, GuardAfter;
    FixTabsLength(g, enabled, lines);
    if i == 0 {
      FixLineKeepsShape(g, enabled, lines[0]);
    } else {
      FixTabsShape(g, GuardAfter(g, enabled, lines[0]), lines[1..], i - 1);
    }
  }

  lemma {:induction false} FixTabsLength(g: Guards, enabled: bool, lines: seq<string>)
    ensures |FixTabs(g, enabled, lines)| == |lines|
    decreases |lines|
  {
    if lines != [] { FixTabsLength(g, GuardAfter(g, enabled, lines[0]), lines[1..]); }
  }

  lemma FixKeepsLines(g: Guards, enabled: bool, lines: seq<string>)
    requires IsLineList(lines)
    ensures IsLineList(FixTabs(g, enabled, lines)) && |FixTabs(g, enabled, lines)| == |lines|
    ensures !HasTrailingWhitespace(lines) ==> !HasTrailingWhitespace(FixTabs(g, enabled, lines))
  {
    hide FixTabs, IsLine, EndsLine, TrimLine;
    FixTabsLength(g, enabled, lines);
    forall i | 0 <= i < |lines| ensures SameShape(lines[i], FixTabs(g, enabled, lines)[i]) {
      FixTabsShape(g, enabled, lines, i);
    }
  }

  // ---------------------------------------------------------------------------
  // What the fixers preserve
  // ---------------------------------------------------------------------------

  /** The visible characters of a text, in order. */
  ghost function Ink(s: string): string {
    if s == [] then [] else (if IsSpace(s[0]) then [] else [s[0]]) + Ink(s[1..])
  }

  lemma {:induction false} InkConcat(s: string, t: string)
    ensures Ink(s + t) == Ink(s) + Ink(t)
  {
    if s == [] {
      assert s + t == t;
    } else {
      assert (s + t)[1..] == s[1..] + t;
      InkConcat(s[1..], t);
    }
  }

  lemma {:induction false} SpaceHasNoInk(s: string)
    requires AllSpace(s)
    ensures Ink(s) == []
  {
    if s != [] { SpaceHasNoInk(s[1..]); }
  }

  lemma TrimKeepsInk(line: string)
    ensures Ink(TrimLine(line)) == Ink(line)
  {
    var r := RStrip(line);
    RStripCuts(line);
    assert line == r + line[|r|..];
    InkConcat(r, line[|r|..]);
    InkConcat(r, "\n");
    SpaceHasNoInk(line[|r|..]);
    SpaceHasNoInk("\n");
  }

  lemma {:induction false} ExpandKeepsInk(column: nat, s: string)
    ensures Ink(ExpandFrom(column, s)) == Ink(s)
    decreases |s|
  {
    if s != [] {
      var head := if s[0] == '\t' then Spaces(TAB_SIZE - column % TAB_SIZE) else [s[0]];
      var next := NextColumn(column, s[0]);
      InkConcat(head, ExpandFrom(next, s[1..]));
      assert s[0] != '\t' ==> head[1..] == [];
      if s[0] == '\t' { SpaceHasNoInk(head); }
      ExpandKeepsInk(next, s[1..]);
    }
  }

  /** Both fixers work line by line and leave every visible character of every line in place. */
  lemma {:induction false} FixKeepsInk(g: Guards, enabled: bool, lines: seq<string>, i: nat)
    requires i < |lines|
    ensures |FixTabs(g, enabled, lines)| == |lines| && Ink(FixTabs(g, enabled, lines)[i]) == Ink(lines[i])
    ensures Ink(TrimLines(lines)[i]) == Ink(lines[i])
    decreases |lines|
  {
    TrimKeepsInk(lines[i]);
    ExpandKeepsInk(0, lines[0]);
    FixTabsLength(g, enabled, lines);
    if i > 0 {
      FixKeepsInk(g, GuardAfter(g, enabled, lines[0]), lines[1..], i - 1);
    }
  }

  /** If there is nothing to fix, fixing changes nothing. */
  lemma {:induction false} NoTabsNoChange(g: Guards, enabled: bool, lines: seq<string>)
    requires !HasTabs(g, enabled, lines)
    ensures FixTabs(g, enabled, lines) == lines
    decreases |lines|
  {
    hide Examined, GuardAfter, ExpandTabs;
    if lines != [] {
      NoTabsNoChange(g, GuardAfter(g, enabled, lines[0]), lines[1..]);
    }
  }

  // ---------------------------------------------------------------------------
  // The files
  // ---------------------------------------------------------------------------

  ghost function TrimmedText(text: string): string {
    if HasTrailingWhitespace(ReadLines(text)) then Join(TrimLines(ReadLines(text))) else text
  }

  ghost function UntabbedText(g: Guards, text: string): string {
    if HasTabs(g, true, ReadLines(text)) then Join(FixTabs(g, true, ReadLines(text))) else text
  }

  ghost predicate Clean(g: Guards, text: string) {
    !HasTrailingWhitespace(ReadLines(text)) && !HasTabs(g, true, ReadLines(text))
  }

  /** The tab fixer leaves any file free of (unguarded) tabs, and is idempotent. */
  lemma UntabbedIsTabFree(g: Guards, text: string)
    requires TabFree(g)
    ensures !HasTabs(g, true, ReadLines(UntabbedText(g, text)))
    ensures UntabbedText(g, UntabbedText(g, text)) == UntabbedText(g, text)
  {
    var lines := ReadLines(text);
    ReadIsLineList(text);
    FixKeepsLines(g, true, lines);
    ReadBack(FixTabs(g, true, lines));
    SecondPassFindsNoTabs(g, true, true, lines);
  }

  lemma TrimmedIsTrimmed(text: string)
    ensures !HasTrailingWhitespace(ReadLines(TrimmedText(text)))
  {
    var lines := ReadLines(text);
    ReadIsLineList(text);
    TrimKeepsLines(lines);
    ReadBack(TrimLines(lines));
  }

  /** What is in the file after the whitespace fix, line by line. */
  lemma TrimmedLines(text: string, i: nat)
    requires i < |ReadLines(text)|
    ensures |ReadLines(TrimmedText(text))| == |ReadLines(text)|
    ensures ReadLines(TrimmedText(text))[i] == TrimLine(ReadLines(text)[i])
  {
    hide TrimLine, ReadLines;
    var lines := ReadLines(text);
    ReadIsLineList(text);
    TrimKeepsLines(lines);
    ReadBack(TrimLines(lines));
  }

  lemma UntabbingKeepsTrimmed(g: Guards, text: string)
    requires !HasTrailingWhitespace(ReadLines(text))
    ensures !HasTrailingWhitespace(ReadLines(UntabbedText(g, text)))
  {
    var lines := ReadLines(text);
    ReadIsLineList(text);
    FixKeepsLines(g, true, lines);
    ReadBack(FixTabs(g, true, lines));
  }

  /** Whitespace fix, then tab fix: any file ends up clean for both checkers. */
  lemma FixedIsClean(g: Guards, text: string, trimmed: string, fixed: string)
    requires TabFree(g)
    requires trimmed == TrimmedText(text) && fixed == UntabbedText(g, trimmed)
    ensures Clean(g, fixed)
  {
    TrimmedIsTrimmed(text);
    UntabbedIsTabFree(g, trimmed);
    UntabbingKeepsTrimmed(g, trimmed);
  }

  lemma NoTrailingYet()
    ensures forall lines: seq<string> :: lines == [] ==> !HasTrailingWhitespace(lines)
  {
  }

  lemma OneMoreLine(lines: seq<string>, line: string)
    ensures HasTrailingWhitespace(lines + [line]) <==> HasTrailingWhitespace(lines) || line != TrimLine(line)
  {
    hide TrimLine;
    var all := lines + [line];
    assert all[|lines|] == line;
    assert forall i :: 0 <= i < |lines| ==> all[i] == lines[i];
  }

  lemma TrailingInPrefix(lines: seq<string>, n: nat)
    requires n <= |lines| && HasTrailingWhitespace(lines[..n])
    ensures HasTrailingWhitespace(lines)
  {
    hide TrimLine;
    assert forall i :: 0 <= i < n ==> lines[..n][i] == lines[i];
  }

  lemma OneLine(g: Guards, enabled: bool, lines: seq<string>)
    requires lines != []
    ensures FixTabs(g, enabled, lines)
         == [FixLine(g, enabled, lines[0])] + FixTabs(g, GuardAfter(g, enabled, lines[0]), lines[1..])
    ensures HasTabs(g, enabled, lines) <==>
            (Examined(g, enabled, lines[0]) && '\t' in lines[0]) || HasTabs(g, GuardAfter(g, enabled, lines[0]), lines[1..])
  {
  }

  lemma NoLine(g: Guards, enabled: bool)
    ensures FixTabs(g, enabled, []) == [] && !HasTabs(g, enabled, [])
  {
  }

  class SourceFile {
    var text: string

    constructor (text: string)
      ensures this.text == text
    {
      this.text := text;
    }

    method CheckTrailingWhitespace(fix: bool, verbose: bool) returns (hasTrailingWhitespace: bool)
      modifies this
      ensures hasTrailingWhitespace <==> HasTrailingWhitespace(ReadLines(old(text)))
      ensures text == if fix then TrimmedText(old(text)) else old(text)
      ensures !hasTrailingWhitespace ==> text == old(text)
    {
      hide TrimLine, ReadLines, Join, HasTrailingWhitespace;
      hasTrailingWhitespace := false;
      var fileLines := ReadLines(text);
      ghost var lines := fileLines;
      NoTrailingYet();
      var i := 0;
      while i < |fileLines|
        invariant 0 <= i <= |lines| == |fileLines|
        invariant hasTrailingWhitespace <==> HasTrailingWhitespace(lines[..i])
        invariant forall j :: i <= j < |lines| ==> fileLines[j] == lines[j]
        invariant forall j :: 0 <= j < i ==> fileLines[j] == TrimLine(lines[j])
        invariant hasTrailingWhitespace ==> fix || verbose
        invariant text == old(text)
      {
        var line := fileLines[i];
        var lineFixed := TrimLine(line);
        assert lines[..i + 1] == lines[..i] + [line];
        OneMoreLine(lines[..i], line);
        if lineFixed != line {
          hasTrailingWhitespace := true;
          fileLines := fileLines[i := lineFixed];
          if !fix && !verbose {
            TrailingInPrefix(lines, i + 1);
            return;
          }
        }
        i := i + 1;
      }
      assert lines[..|lines|] == lines;
      if fix && hasTrailingWhitespace {
        assert fileLines == TrimLines(lines);
        text := Join(fileLines);
      }
    }

    method CheckTabs(fix: bool, verbose: bool) returns (hasTabs: bool)
      modifies this
      ensures hasTabs <==> HasTabs(CLANG_FORMAT, true, ReadLines(old(text)))
      ensures hasTabs <==> exists i: nat :: TabIsFound(CLANG_FORMAT, ReadLines(old(text)), i)
      ensures text == if fix then UntabbedText(CLANG_FORMAT, old(text)) else old(text)
      ensures !hasTabs ==> text == old(text)
    {
      hide Strip, ReadLines, ExpandTabs, FixTabs, HasTabs, Join, TabIsFound;
      HasTabsIff(CLANG_FORMAT, ReadLines(text));
      hasTabs := false;
      var clangFormatEnabled := true;
      var fileLines := ReadLines(text);
      ghost var lines := fileLines;
      var i := 0;
      while i < |fileLines|
        invariant 0 <= i <= |lines| == |fileLines|
        invariant HasTabs(CLANG_FORMAT, true, lines) <==> hasTabs || HasTabs(CLANG_FORMAT, clangFormatEnabled, lines[i..])
        invariant FixTabs(CLANG_FORMAT, true, lines) == fileLines[..i] + FixTabs(CLANG_FORMAT, clangFormatEnabled, lines[i..])
        invariant fileLines[i..] == lines[i..]
        invariant hasTabs ==> fix || verbose
        invariant text == old(text)
      {
        var line := fileLines[i];
        ghost var done := fileLines[..i];
        assert line == lines[i..][0] && lines[i..][1..] == lines[i + 1..];
        OneLine(CLANG_FORMAT, clangFormatEnabled, lines[i..]);
        var lineStripped := Strip(line);
        if lineStripped == CLANG_FORMAT.on {
          clangFormatEnabled := true;
        } else if lineStripped == CLANG_FORMAT.off {
          clangFormatEnabled := false;
        }
        if clangFormatEnabled || lineStripped == CLANG_FORMAT.on || lineStripped == CLANG_FORMAT.off {
          if '\t' in line {
            hasTabs := true;
            fileLines := fileLines[i := ExpandTabs(line)];
            if !fix && !verbose {
              return;
            }
          }
        }
        assert fileLines[..i + 1] == done + [fileLines[i]];
        i := i + 1;
      }
      NoLine(CLANG_FORMAT, clangFormatEnabled);
      assert lines[i..] == [];
      assert fileLines[..|lines|] == fileLines == FixTabs(CLANG_FORMAT, true, lines);
      if fix && hasTabs {
        text := Join(fileLines);
      }
    }
  }

  ghost predicate Distinct(files: seq<SourceFile>) {
    forall i, j :: 0 <= i < j < |files| ==> files[i] != files[j]
  }

  /** check_trailing_whitespace: true if no file had trailing whitespace, or if all were fixed. */
  method CheckTrailingWhitespaceOfFiles(files: seq<SourceFile>, fix: bool, verbose: bool) returns (successful: bool)
    requires Distinct(files)
    modifies files
    ensures successful <==> fix || forall i :: 0 <= i < |files| ==> !HasTrailingWhitespace(ReadLines(old(files[i].text)))
    ensures forall i :: 0 <= i < |files| ==>
              files[i].text == if fix then TrimmedText(old(files[i].text)) else old(files[i].text)
  {
    hide HasTrailingWhitespace, ReadLines, TrimmedText;
    var found := false;
    for n := 0 to |files|
      invariant found <==> exists i :: 0 <= i < n && HasTrailingWhitespace(ReadLines(old(files[i].text)))
      invariant forall i :: 0 <= i < n ==>
                  files[i].text == if fix then TrimmedText(old(files[i].text)) else old(files[i].text)
      invariant forall i :: n <= i < |files| ==> files[i].text == old(files[i].text)
    {
      var hasWhitespace := files[n].CheckTrailingWhitespace(fix, verbose);
      if hasWhitespace {
        found := true;
      }
    }
    successful := !found || fix;
  }

  /** check_tabs: true if no file had tabs, or if all were fixed. */
  method CheckTabsOfFiles(files: seq<SourceFile>, fix: bool, verbose: bool) returns (successful: bool)
    requires Distinct(files)
    modifies files
    ensures successful <==> fix || forall i :: 0 <= i < |files| ==> !HasTabs(CLANG_FORMAT, true, ReadLines(old(files[i].text)))
    ensures forall i :: 0 <= i < |files| ==>
              files[i].text == if fix then UntabbedText(CLANG_FORMAT, old(files[i].text)) else old(files[i].text)
  {
    hide HasTabs, ReadLines, UntabbedText, TabIsFound;
    var found := false;
    for n := 0 to |files|
      invariant found <==> exists i :: 0 <= i < n && HasTabs(CLANG_FORMAT, true, ReadLines(old(files[i].text)))
      invariant forall i :: 0 <= i < n ==>
                  files[i].text == if fix then UntabbedText(CLANG_FORMAT, old(files[i].text)) else old(files[i].text)
      invariant forall i :: n <= i < |files| ==> files[i].text == old(files[i].text)
    {
      var hasTabs := files[n].CheckTabs(fix, verbose);
      if hasTabs {
        found := true;
      }
    }
    successful := !found || fix;
  }

  /** What the two enabled fixers make of a text. */
  ghost function Styled(text: string, whitespace: bool, tabs: bool): string {
    var trimmed := if whitespace then TrimmedText(text) else text;
    if tabs then UntabbedText(CLANG_FORMAT, trimmed) else trimmed
  }

  lemma StyledIsClean(text: string, whitespace: bool, tabs: bool)
    ensures whitespace ==> !HasTrailingWhitespace(ReadLines(Styled(text, whitespace, tabs)))
    ensures tabs ==> !HasTabs(CLANG_FORMAT, true, ReadLines(Styled(text, whitespace, tabs)))
  {
    hide HasTrailingWhitespace, ReadLines, HasTabs, TrimmedText, UntabbedText;
    var trimmed := if whitespace then TrimmedText(text) else text;
    ClangFormatIsTabFree();
    if whitespace {
      TrimmedIsTrimmed(text);
      UntabbingKeepsTrimmed(CLANG_FORMAT, trimmed);
    }
    UntabbedIsTabFree(CLANG_FORMAT, trimmed);
  }

  /** check_style, after the formatting check has found `formatted`. The two lists are those that the
      extension filters produce; a file may be on one, both or none. The result is true when the
      program exits with code 0. */
  method CheckStyle(whitespaceFiles: seq<SourceFile>, tabsFiles: seq<SourceFile>, formatted: bool,
                    enableWhitespace: bool, enableTabs: bool, fix: bool, verbose: bool) returns (success: bool)
    requires Distinct(whitespaceFiles) && Distinct(tabsFiles)
    modifies whitespaceFiles, tabsFiles
    ensures fix ==> success
    ensures fix ==> forall f: SourceFile :: f in whitespaceFiles || f in tabsFiles ==>
              f.text == Styled(old(f.text), enableWhitespace && f in whitespaceFiles, enableTabs && f in tabsFiles)
    ensures fix && enableWhitespace ==> forall f: SourceFile :: f in whitespaceFiles ==> !HasTrailingWhitespace(ReadLines(f.text))
    ensures fix && enableTabs ==> forall f: SourceFile :: f in tabsFiles ==> !HasTabs(CLANG_FORMAT, true, ReadLines(f.text))
    ensures !fix ==> forall f: SourceFile :: f in whitespaceFiles || f in tabsFiles ==> f.text == old(f.text)
    ensures !fix ==> (success <==>
              && formatted
              && (enableWhitespace ==> forall f: SourceFile :: f in whitespaceFiles ==> !HasTrailingWhitespace(ReadLines(f.text)))
              && (enableTabs ==> forall f: SourceFile :: f in tabsFiles ==> !HasTabs(CLANG_FORMAT, true, ReadLines(f.text))))
  {
    hide HasTrailingWhitespace, ReadLines, HasTabs, TrimmedText, UntabbedText, Distinct;
    var formattingSuccessful, whitespaceSuccessful, tabsSuccessful := formatted || fix, true, true;
    if enableWhitespace {
      whitespaceSuccessful := CheckTrailingWhitespaceOfFiles(whitespaceFiles, fix, verbose);
    }
    if enableTabs {
      tabsSuccessful := CheckTabsOfFiles(tabsFiles, fix, verbose);
    }
    success := formattingSuccessful && whitespaceSuccessful && tabsSuccessful;
    if fix {
      forall f: SourceFile | f in whitespaceFiles || f in tabsFiles
        ensures f.text == Styled(old(f.text), enableWhitespace && f in whitespaceFiles, enableTabs && f in tabsFiles)
        ensures enableWhitespace && f in whitespaceFiles ==> !HasTrailingWhitespace(ReadLines(f.text))
        ensures enableTabs && f in tabsFiles ==> !HasTabs(CLANG_FORMAT, true, ReadLines(f.text))
      {
        StyledIsClean(old(f.text), enableWhitespace && f in whitespaceFiles, enableTabs && f in tabsFiles);
      }
    }
  }
}
