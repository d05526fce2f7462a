/** The line checks of check-style-clang-format.py: check_manually_file runs a
    line check over a file, skips the regions switched off by formatting guards,
    and in fix mode rewrites the lines that fail. */
module StyleFixer {

  // ------------------------------------------------------- Python's str methods

  /** str.isspace, as str.strip uses it. */
  predicate IsSpace(c: char) {
    var n := c as int;
    || 0x9 <= n <= 0xd || 0x1c <= n <= 0x20 || n == 0x85 || n == 0xa0 || n == 0x1680
    || 0x2000 <= n <= 0x200a || n == 0x2028 || n == 0x2029 || n == 0x202f || n == 0x205f || n == 0x3000
  }

  /** The characters that str.isspace calls whitespace, one by one. */
  const WHITESPACE :=
    "\t\n\U{b}\U{c}\r\U{1c}\U{1d}\U{1e}\U{1f} \U{85}\U{a0}\U{1680}" +
    "\U{2000}\U{2001}\U{2002}\U{2003}\U{2004}\U{2005}\U{2006}\U{2007}\U{2008}\U{2009}\U{200a}" +
    "\U{2028}\U{2029}\U{202f}\U{205f}\U{3000}"

  lemma SpaceIff(c: char)
    ensures IsSpace(c) <==> c in WHITESPACE
  {
  }

  predicate AllSpace(s: string) {
    forall i :: 0 <= i < |s| ==> IsSpace(s[i])
  }

  function RStrip(s: string): string {
    if s != "" && IsSpace(s[|s| - 1]) then RStrip(s[..|s| - 1]) else s
  }

  function LStrip(s: string): string {
    if s != "" && IsSpace(s[0]) then LStrip(s[1..]) else s
  }

  function Strip(s: string): string {
    LStrip(RStrip(s))
  }

  const TAB_SIZE := 4

  function Spaces(n: nat): string {
    seq(n, _ => ' ')
  }

  /** The column after one character. */
  function NextColumn(c: char, col: nat): nat {
    if c == '\t' then col + TAB_SIZE - col % TAB_SIZE else if c == '\n' || c == '\r' then 0 else col + 1
  }

  /** What one character expands to. */
  function Piece(c: char, col: nat): string {
    if c == '\t' then Spaces(TAB_SIZE - col % TAB_SIZE) else [c]
  }

  /** str.expandtabs(TAB_SIZE) on text that starts in column `col`. */
  function ExpandTabs(s: string, col: nat): string {
    if s == "" then "" else Piece(s[0], col) + ExpandTabs(s[1..], NextColumn(s[0], col))
  }

  function Column(s: string, col: nat): nat {
    if s == "" then col else Column(s[1..], NextColumn(s[0], col))
  }

  // ------------------------------------------------------------------- guards

  const GUARD_ON := ["// clang-format on", "# cmake-format: on", "# fmt: on"]
  const GUARD_OFF := ["// clang-format off", "# cmake-format: off", "# fmt: off"]

  datatype Guard = On | Off | Neither

  function GuardOf(line: string): Guard {
    if Strip(line) in GUARD_ON then On else if Strip(line) in GUARD_OFF then Off else Neither
  }

  function Guards(lines: seq<string>): seq<Guard> {
    seq(|lines|, i requires 0 <= i < |lines| => GuardOf(lines[i]))
  }

  /** Whether formatting is enabled after the first n lines. */
  function Enabled(guards: seq<Guard>, n: nat): bool
    requires n <= |guards|
  {
    if n == 0 then true
    else if guards[n - 1] == On then true
    else if guards[n - 1] == Off then false
    else Enabled(guards, n - 1)
  }

  /** Formatting is off exactly after an off guard that no on guard follows. */
  lemma {:induction false} EnabledMeaning(guards: seq<Guard>, n: nat)
    requires n <= |guards|
    ensures !Enabled(guards, n) <==>
            exists i :: 0 <= i < n && guards[i] == Off && forall j :: i < j < n ==> guards[j] != On
  {
    if n == 0 {
    } else {
      EnabledMeaning(guards, n - 1);
      if guards[n - 1] == Off {
        var i := n - 1;
        assert guards[i] == Off;
      } else if !Enabled(guards, n) {
        var i :| 0 <= i < n - 1 && guards[i] == Off && forall j :: i < j < n - 1 ==> guards[j] != On;
        assert forall j :: i < j < n ==> guards[j] != On;
      }
    }
  }

  /** Whether line i is looked at: everything outside off regions, and every guard. */
  predicate Checked(guards: seq<Guard>, respectGuards: bool, i: nat)
    requires i < |guards|
  {
    !respectGuards || Enabled(guards, i + 1) || guards[i] != Neither
  }

  // -------------------------------------------------------------- line checks

  datatype LineResult = LineResult(compliant: bool, fixed: string)

  function CheckTabsLine(line: string): LineResult {
    if '\t' in line then LineResult(false, ExpandTabs(line, 0)) else LineResult(true, line)
  }

  function CheckWhitespaceLine(line: string): LineResult {
    var fixed := RStrip(line) + "\n";
    LineResult(fixed == line, fixed)
  }

  // -------------------------------------------------------------------- files

  predicate EndsLine(s: string) {
    s != "" && s[|s| - 1] == '\n'
  }

  /** A nonempty line with a newline at most at its end. */
  predicate OneLine(s: string) {
    s != "" && forall i :: 0 <= i < |s| - 1 ==> s[i] != '\n'
  }

  /** readlines: the lines of a text, each with its newline. */
  function SplitLines(text: string): seq<string> {
    if text == "" then []
    else
      var rest := SplitLines(text[1..]);
      if text[0] == '\n' || rest == [] then [[text[0]]] + rest
      else [[text[0]] + rest[0]] + rest[1..]
  }

  /** writelines. */
  function Join(lines: seq<string>): string {
    if lines == [] then "" else lines[0] + Join(lines[1..])
  }

  /** Lines as readlines returns them: only the last may lack its newline. */
  predicate ProperLines(lines: seq<string>) {
    (forall i :: 0 <= i < |lines| ==> OneLine(lines[i])) &&
    (forall i :: 0 <= i < |lines| - 1 ==> EndsLine(lines[i]))
  }

  lemma {:induction false} JoinSplit(text: string)
    ensures Join(SplitLines(text)) == text
    ensures ProperLines(SplitLines(text))
  {
    if text == "" {
    } else {
      var rest := SplitLines(text[1..]);
      JoinSplit(text[1..]);
      if text[0] == '\n' || rest == [] {
        assert SplitLines(text)[1..] == rest;
      } else {
        assert SplitLines(text)[1..] == rest[1..];
      }
    }
  }

  lemma {:induction false} SplitFirst(line: string, rest: string)
    requires OneLine(line) && (EndsLine(line) || rest == "")
    ensures SplitLines(line + rest) == [line] + SplitLines(rest)
  {
    var text := line + rest;
    assert text[0] == line[0];
    if |line| == 1 {
      assert text[1..] == rest && [line[0]] == line;
    } else {
      assert text[1..] == line[1..] + rest;
      SplitFirst(line[1..], rest);
      assert line[0] != '\n';
      assert [line[0]] + line[1..] == line;
    }
  }

  lemma {:induction false} SplitJoin(lines: seq<string>)
    requires ProperLines(lines)
    ensures SplitLines(Join(lines)) == lines
  {
    if lines == [] {
    } else {
      assert forall i :: 0 <= i < |lines[1..]| ==> lines[1..][i] == lines[i + 1];
      SplitJoin(lines[1..]);
      SplitFirst(lines[0], Join(lines[1..]));
    }
  }

  // --------------------------------------------------- what one pass should do

  type LineCheck = string -> LineResult

  /** Line i is not looked at, or complies. */
  predicate LineOk(lines: seq<string>, respectGuards: bool, check: LineCheck, i: nat)
    requires i < |lines|
  {
    Checked(Guards(lines), respectGuards, i) ==> check(lines[i]).compliant
  }

  ghost predicate Compliant(lines: seq<string>, respectGuards: bool, check: LineCheck) {
    forall i :: 0 <= i < |lines| ==> LineOk(lines, respectGuards, check, i)
  }

  predicate OkUpTo(lines: seq<string>, respectGuards: bool, check: LineCheck, n: nat)
    requires n <= |lines|
  {
    n == 0 || (OkUpTo(lines, respectGuards, check, n - 1) && LineOk(lines, respectGuards, check, n - 1))
  }

  lemma {:induction false} OkUpToMeans(lines: seq<string>, respectGuards: bool, check: LineCheck, n: nat)
    requires n <= |lines|
    ensures OkUpTo(lines, respectGuards, check, n) <==>
            forall i :: 0 <= i < n ==> LineOk(lines, respectGuards, check, i)
  {
    if n == 0 {
    } else {
      OkUpToMeans(lines, respectGuards, check, n - 1);
    }
  }

  /** What a fix makes of line i. */
  function FixedLine(lines: seq<string>, respectGuards: bool, check: LineCheck, i: nat): string
    requires i < |lines|
  {
    if LineOk(lines, respectGuards, check, i) then lines[i] else check(lines[i]).fixed
  }

  ghost predicate IsFixOf(fixed: seq<string>, lines: seq<string>, respectGuards: bool, check: LineCheck) {
    && |fixed| == |lines|
    && forall i :: 0 <= i < |lines| ==> fixed[i] == FixedLine(lines, respectGuards, check, i)
  }

  /** What a line does to the switch, and when it is skipped. */
  lemma GuardStep(lines: seq<string>, i: nat, stripped: string)
    requires i < |lines| && stripped == Strip(lines[i])
    ensures Enabled(Guards(lines), i + 1) ==
            if stripped in GUARD_ON then true else if stripped in GUARD_OFF then false else Enabled(Guards(lines), i)
    ensures !Checked(Guards(lines), true, i) <==>
            !Enabled(Guards(lines), i + 1) && stripped !in GUARD_ON + GUARD_OFF
  {
  }

  class TextFile {
    var content: string

    constructor (content: string)
      ensures this.content == content
    {
      this.content := content;
    }

    /** check_manually_file.  The early exit of plain check mode does not change
        the verdict. */
    method CheckManually(fix: bool, verbose: bool, respectGuards: bool, check: LineCheck)
      returns (isFileCompliant: bool)
      modifies this
      ensures isFileCompliant <==> Compliant(SplitLines(old(content)), respectGuards, check)
      ensures !fix || isFileCompliant ==> content == old(content)
      ensures fix && !isFileCompliant ==>
        exists fixed :: IsFixOf(fixed, SplitLines(old(content)), respectGuards, check) && content == Join(fixed)
    {
      isFileCompliant := true;
      var clangFormatEnabled := true;
      ghost var lines := SplitLines(content);
      ghost var guards := Guards(lines);
      var fileLines := SplitLines(content);
      var i := 0;
      while i < |fileLines|
        invariant 0 <= i <= |lines| == |fileLines| && content == old(content)
        invariant respectGuards ==> clangFormatEnabled == Enabled(guards, i)
        invariant forall k :: i <= k < |lines| ==> fileLines[k] == lines[k]
        invariant forall k :: 0 <= k < i ==> fileLines[k] == FixedLine(lines, respectGuards, check, k)
        invariant isFileCompliant <==> OkUpTo(lines, respectGuards, check, i)
      {
        var line := fileLines[i];
        var skip := false;
        if respectGuards {
          var stripped := Strip(line);
          GuardStep(lines, i, stripped);
          if stripped in GUARD_ON {
            clangFormatEnabled := true;
          } else if stripped in GUARD_OFF {
            clangFormatEnabled := false;
          }
          skip := !clangFormatEnabled && stripped !in GUARD_ON + GUARD_OFF;
        }
        assert skip <==> !Checked(guards, respectGuards, i);
        if !skip {
          var result := check(line);
          if !result.compliant {
            isFileCompliant := false;
            fileLines := fileLines[i := result.fixed];
            if !fix && !verbose {
              assert !LineOk(lines, respectGuards, check, i);
              return;
            }
          }
        }
        i := i + 1;
      }
      OkUpToMeans(lines, respectGuards, check, |lines|);
      if fix && !isFileCompliant {
        assert IsFixOf(fileLines, lines, respectGuards, check);
        content := Join(fileLines);
      }
    }
  }

  // -------------------------------------------------------------- idempotence

  /** What a line check must do for a second pass to find nothing: the fixed line
      complies, a guard stays the guard it was, and a line stays a line. */
  predicate GoodOn(check: LineCheck, line: string) {
    && check(check(line).fixed).compliant
    && OneLine(check(line).fixed) && (EndsLine(line) ==> EndsLine(check(line).fixed))
    && (GuardOf(line) != Neither ==> GuardOf(check(line).fixed) == GuardOf(line))
  }

  ghost predicate GoodCheck(check: LineCheck) {
    forall line {:trigger GoodOn(check, line)} :: OneLine(line) ==> GoodOn(check, line)
  }

  /** A fix never switches formatting on where it was off: a line that a fix
      turns into a guard lies in an enabled region. */
  lemma {:induction false} EnabledShrinks(before: seq<Guard>, after: seq<Guard>, n: nat)
    requires |before| == |after| && n <= |before|
    requires forall i :: 0 <= i < |before| && Checked(before, true, i) && before[i] != Neither ==>
               after[i] == before[i]
    requires forall i :: 0 <= i < |before| && !Checked(before, true, i) ==> after[i] == before[i]
    requires Enabled(after, n)
    ensures Enabled(before, n)
  {
    if n == 0 {
    } else if before[n - 1] == Neither && !Enabled(before, n) {
      assert !Checked(before, true, n - 1);
      EnabledShrinks(before, after, n - 1);
    }
  }

  lemma EnabledStays(before: seq<Guard>, after: seq<Guard>, i: nat)
    requires |before| == |after| && i < |before|
    requires forall k :: 0 <= k < |before| ==>
      (before[k] != Neither || !Checked(before, true, k) ==> after[k] == before[k])
    requires Checked(after, true, i)
    ensures Checked(before, true, i)
  {
    if before[i] == Neither && Enabled(after, i + 1) {
      EnabledShrinks(before, after, i + 1);
    }
  }

  /** What the second pass looks at, the first pass looked at. */
  lemma StillChecked(lines: seq<string>, fixed: seq<string>, check: LineCheck, i: nat)
    requires GoodCheck(check) && ProperLines(lines) && IsFixOf(fixed, lines, true, check)
    requires i < |lines| && Checked(Guards(fixed), true, i)
    ensures Checked(Guards(lines), true, i)
  {
    var before, after := Guards(lines), Guards(fixed);
    forall k | 0 <= k < |lines|
      ensures before[k] != Neither || !Checked(before, true, k) ==> after[k] == before[k]
    {
      assert OneLine(lines[k]) && GoodOn(check, lines[k]);
      assert fixed[k] == FixedLine(lines, true, check, k);
    }
    EnabledStays(before, after, i);
  }

  lemma {:induction false} SecondPassClean(
      lines: seq<string>, fixed: seq<string>, respectGuards: bool, check: LineCheck)
    requires GoodCheck(check) && ProperLines(lines) && IsFixOf(fixed, lines, respectGuards, check)
    ensures Compliant(fixed, respectGuards, check)
  {
    forall i | 0 <= i < |fixed| && Checked(Guards(fixed), respectGuards, i)
      ensures check(fixed[i]).compliant
    {
      if respectGuards {
        StillChecked(lines, fixed, check, i);
      }
      assert OneLine(lines[i]) && GoodOn(check, lines[i]);
      assert fixed[i] == FixedLine(lines, respectGuards, check, i);
    }
  }

  lemma FixKeepsLines(lines: seq<string>, fixed: seq<string>, respectGuards: bool, check: LineCheck)
    requires GoodCheck(check) && ProperLines(lines) && IsFixOf(fixed, lines, respectGuards, check)
    ensures ProperLines(fixed)
  {
    forall i | 0 <= i < |lines|
      ensures OneLine(fixed[i]) && (EndsLine(lines[i]) ==> EndsLine(fixed[i]))
    {
      assert OneLine(lines[i]) && GoodOn(check, lines[i]);
    }
  }

  /** A fix of compliant lines changes none of them. */
  lemma FixOfCompliant(lines: seq<string>, respectGuards: bool, check: LineCheck)
    requires Compliant(lines, respectGuards, check)
    ensures forall again :: IsFixOf(again, lines, respectGuards, check) <==> again == lines
  {
  }

  /** Fixing a file and reading it back: the second pass finds it compliant, so
      it changes nothing; and lines in the off regions are as they were. */
  lemma {:induction false} FixIsIdempotent(text: string, fixed: seq<string>, respectGuards: bool, check: LineCheck)
    requires GoodCheck(check) && IsFixOf(fixed, SplitLines(text), respectGuards, check)
    ensures SplitLines(Join(fixed)) == fixed
    ensures Compliant(SplitLines(Join(fixed)), respectGuards, check)
    ensures forall again :: IsFixOf(again, SplitLines(Join(fixed)), respectGuards, check) ==> again == fixed
    ensures forall i :: 0 <= i < |fixed| && !Checked(Guards(SplitLines(text)), respectGuards, i) ==>
              fixed[i] == SplitLines(text)[i]
  {
    JoinSplit(text);
    SecondPassClean(SplitLines(text), fixed, respectGuards, check);
    FixKeepsLines(SplitLines(text), fixed, respectGuards, check);
    SplitJoin(fixed);
    FixOfCompliant(fixed, respectGuards, check);
  }

  // ------------------------------------------------- what the checks look for

  lemma {:induction false} RStripParts(s: string)
    ensures RStrip(s) <= s && AllSpace(s[|RStrip(s)|..])
    ensures RStrip(s) != "" ==> !IsSpace(RStrip(s)[|RStrip(s)| - 1])
  {
    if s == "" {
    } else if IsSpace(s[|s| - 1]) {
      var last, r := |s| - 1, RStrip(s);
      RStripParts(s[..last]);
      assert s[|r|..] == s[..last][|r|..] + [s[last]];
    }
  }

  lemma {:induction false} LStripParts(s: string)
    ensures |LStrip(s)| <= |s| && LStrip(s) == s[|s| - |LStrip(s)|..]
    ensures AllSpace(s[..|s| - |LStrip(s)|])
    ensures LStrip(s) != "" ==> !IsSpace(LStrip(s)[0])
  {
    if s == "" {
    } else if IsSpace(s[0]) {
      LStripParts(s[1..]);
      var k := |s[1..]| - |LStrip(s[1..])|;
      assert s[..k + 1] == [s[0]] + s[1..][..k];
    }
  }

  lemma {:induction false} RStripPadded(g: string, b: string)
    requires AllSpace(b) && (g != "" ==> !IsSpace(g[|g| - 1]))
    ensures RStrip(g + b) == g
  {
    if b == "" {
      assert g + b == g;
    } else {
      assert (g + b)[..|g + b| - 1] == g + b[..|b| - 1];
      RStripPadded(g, b[..|b| - 1]);
    }
  }

  /** The line ends in a newline with no whitespace before it. */
  predicate Trimmed(line: string) {
    EndsLine(line) && (|line| == 1 || !IsSpace(line[|line| - 2]))
  }

  lemma StripsFrom(line: string, k: nat)
    requires k <= |line| && AllSpace(line[k..]) && (k == 0 || !IsSpace(line[k - 1]))
    ensures RStrip(line) == line[..k]
  {
    RStripPadded(line[..k], line[k..]);
    assert line == line[..k] + line[k..];
  }

  lemma TrimmedIff(line: string)
    requires OneLine(line)
    ensures CheckWhitespaceLine(line).compliant <==> Trimmed(line)
  {
    RStripParts(line);
    assert IsSpace('\n');
    var last := |line| - 1;
    if Trimmed(line) {
      StripsFrom(line, last);
      assert line == line[..last] + "\n";
    }
  }

  /** The check accepts exactly the trimmed lines.  A line it rejects keeps all up
      to its last character that is no whitespace. */
  lemma {:induction false} WhitespaceMeaning(line: string)
    requires OneLine(line)
    ensures CheckWhitespaceLine(line).compliant <==> Trimmed(line)
    ensures forall k :: 0 <= k <= |line| && AllSpace(line[k..]) && (k == 0 || !IsSpace(line[k - 1])) ==>
              CheckWhitespaceLine(line).fixed == line[..k] + "\n"
    ensures exists k :: 0 <= k <= |line| && AllSpace(line[k..]) && (k == 0 || !IsSpace(line[k - 1]))
  {
    var end := |RStrip(line)|;
    RStripParts(line);
    TrimmedIff(line);
    assert AllSpace(line[end..]) && (end == 0 || !IsSpace(line[end - 1]));
    forall k | 0 <= k <= |line| && AllSpace(line[k..]) && (k == 0 || !IsSpace(line[k - 1]))
      ensures CheckWhitespaceLine(line).fixed == line[..k] + "\n"
    {
      StripsFrom(line, k);
    }
  }

  lemma {:induction false} LStripPadded(a: string, g: string)
    requires AllSpace(a) && (g != "" ==> !IsSpace(g[0]))
    ensures LStrip(a + g) == g
  {
    if a == "" {
      assert a + g == g;
    } else {
      assert (a + g)[1..] == a[1..] + g;
      LStripPadded(a[1..], g);
    }
  }

  /** Every text is its stripped core between two runs of whitespace. */
  lemma Core(s: string) returns (a: string, b: string)
    ensures s == a + Strip(s) + b && AllSpace(a) && AllSpace(b)
    ensures Strip(s) != "" ==> !IsSpace(Strip(s)[0]) && !IsSpace(Strip(s)[|Strip(s)| - 1])
  {
    RStripParts(s);
    LStripParts(RStrip(s));
    var r := RStrip(s);
    a, b := r[..|r| - |LStrip(r)|], s[|r|..];
  }

  lemma StripPadded(a: string, g: string, b: string)
    requires AllSpace(a) && AllSpace(b) && g != "" && !IsSpace(g[0]) && !IsSpace(g[|g| - 1])
    ensures Strip(a + g + b) == g
  {
    RStripPadded(a + g, b);
    LStripPadded(a, g);
  }

  /** The line consists of the text and whitespace around it. */
  ghost predicate Says(line: string, text: string) {
    exists a, b :: AllSpace(a) && AllSpace(b) && line == a + text + b
  }

  lemma SaysIff(line: string, g: string)
    requires g != "" && !IsSpace(g[0]) && !IsSpace(g[|g| - 1])
    ensures Says(line, g) <==> Strip(line) == g
  {
    if Says(line, g) {
      var a, b :| AllSpace(a) && AllSpace(b) && line == a + g + b;
      StripPadded(a, g, b);
    }
    if Strip(line) == g {
      var a, b := Core(line);
    }
  }

  /** Which lines are guards. */
  lemma {:induction false} GuardMeaning(line: string)
    ensures GuardOf(line) == On <==>
            Says(line, "// clang-format on") || Says(line, "# cmake-format: on") || Says(line, "# fmt: on")
    ensures GuardOf(line) == Off <==>
            Says(line, "// clang-format off") || Says(line, "# cmake-format: off") || Says(line, "# fmt: off")
  {
    SaysIff(line, "// clang-format on");
    SaysIff(line, "# cmake-format: on");
    SaysIff(line, "# fmt: on");
    SaysIff(line, "// clang-format off");
    SaysIff(line, "# cmake-format: off");
    SaysIff(line, "# fmt: off");
  }

  lemma {:induction false} ColumnConcat(x: string, y: string, col: nat)
    ensures Column(x + y, col) == Column(y, Column(x, col))
  {
    if x == "" {
      assert x + y == y;
    } else {
      assert (x + y)[1..] == x[1..] + y;
      ColumnConcat(x[1..], y, NextColumn(x[0], col));
    }
  }

  lemma {:induction false} ExpandConcat(x: string, y: string, col: nat)
    ensures ExpandTabs(x + y, col) == ExpandTabs(x, col) + ExpandTabs(y, Column(x, col))
  {
    if x == "" {
      assert x + y == y;
    } else {
      assert (x + y)[1..] == x[1..] + y;
      ExpandConcat(x[1..], y, NextColumn(x[0], col));
    }
  }

  /** Text without tabs and line ends moves the column by its length. */
  lemma {:induction false} PlainText(x: string, col: nat)
    requires '\t' !in x && '\n' !in x && '\r' !in x
    ensures ExpandTabs(x, col) == x && Column(x, col) == col + |x|
  {
    if x == "" {
    } else {
      PlainText(x[1..], col + 1);
    }
  }

  lemma OneTab(y: string, col: nat)
    ensures ExpandTabs("\t" + y, col) == Spaces(4 - col % 4) + ExpandTabs(y, col + (4 - col % 4))
  {
    assert ("\t" + y)[1..] == y;
  }

  /** A tab becomes the one to four blanks that lead to the next multiple of four. */
  lemma {:induction false} TabStop(x: string, y: string, col: nat, blanks: nat)
    requires '\t' !in x && '\n' !in x && '\r' !in x && blanks == 4 - (col + |x|) % 4
    ensures ExpandTabs(x + ("\t" + y), col) == x + (Spaces(blanks) + ExpandTabs(y, col + |x| + blanks))
  {
    var rest := "\t" + y;
    ExpandConcat(x, rest, col);
    PlainText(x, col);
    OneTab(y, Column(x, col));
    assert rest == "\t" + y;
  }

  /** After a line end the columns are counted from 0 again. */
  lemma {:induction false} NewLineStart(x: string, end: char, y: string, col: nat)
    requires '\t' !in x && '\n' !in x && '\r' !in x && (end == '\n' || end == '\r')
    ensures ExpandTabs(x + [end] + y, col) == x + [end] + ExpandTabs(y, 0)
  {
    ExpandConcat(x + [end], y, col);
    ExpandConcat(x, [end], col);
    ColumnConcat(x, [end], col);
    PlainText(x, col);
  }

  lemma {:induction false} ExpandNoTabs(s: string, col: nat)
    ensures '\t' !in ExpandTabs(s, col)
    ensures '\t' !in s ==> ExpandTabs(s, col) == s
  {
    if s == "" {
    } else {
      ExpandNoTabs(s[1..], NextColumn(s[0], col));
    }
  }

  lemma {:induction false} ExpandSpace(s: string, col: nat)
    requires AllSpace(s)
    ensures AllSpace(ExpandTabs(s, col))
  {
    if s == "" {
    } else {
      ExpandSpace(s[1..], NextColumn(s[0], col));
    }
  }

  lemma {:induction false} ExpandKeepsNewlines(s: string, col: nat)
    ensures |ExpandTabs(s, col)| >= |s|
    ensures '\n' !in s ==> '\n' !in ExpandTabs(s, col)
  {
    if s == "" {
    } else {
      ExpandKeepsNewlines(s[1..], NextColumn(s[0], col));
    }
  }

  /** Expanding the tabs around a tab-free core leaves the core. */
  lemma ExpandKeepsStrip(s: string)
    requires Strip(s) != "" && '\t' !in Strip(s)
    ensures Strip(ExpandTabs(s, 0)) == Strip(s)
  {
    var a, b := Core(s);
    var g := Strip(s);
    ExpandConcat(a + g, b, 0);
    ExpandConcat(a, g, 0);
    ExpandNoTabs(g, Column(a, 0));
    ExpandSpace(a, 0);
    ExpandSpace(b, Column(a + g, 0));
    StripPadded(ExpandTabs(a, 0), g, ExpandTabs(b, Column(a + g, 0)));
  }

  lemma TabsKeepLine(line: string)
    requires OneLine(line)
    ensures OneLine(ExpandTabs(line, 0))
    ensures EndsLine(line) ==> EndsLine(ExpandTabs(line, 0))
  {
    var last := |line| - 1;
    var body, end := line[..last], [line[last]];
    assert line == body + end;
    ExpandConcat(body, end, 0);
    ExpandKeepsNewlines(body, 0);
    if line[last] == '\n' {
      assert ExpandTabs(end, Column(body, 0)) == "\n";
      assert ExpandTabs(line, 0) == ExpandTabs(body, 0) + "\n";
    } else {
      assert '\n' !in line;
      ExpandKeepsNewlines(line, 0);
    }
  }

  lemma GuardCores(line: string)
    requires GuardOf(line) != Neither
    ensures Strip(line) != "" && '\t' !in Strip(line)
  {
  }

  // ---------------------------------------------------- the two checks are good

  lemma {:induction false} TabsCheckIsGood()
    ensures GoodCheck(CheckTabsLine)
  {
    forall line | OneLine(line) ensures GoodOn(CheckTabsLine, line) {
      if '\t' in line {
        ExpandNoTabs(line, 0);
        TabsKeepLine(line);
        if GuardOf(line) != Neither {
          GuardCores(line);
          ExpandKeepsStrip(line);
        }
      }
    }
  }

  lemma WhitespaceLine(line: string)
    requires OneLine(line)
    ensures var fixed := RStrip(line) + "\n";
      RStrip(fixed) == RStrip(line) && OneLine(fixed) && EndsLine(fixed)
  {
    RStripParts(line);
    var r := RStrip(line);
    assert IsSpace('\n');
    RStripPadded(r, "\n");
    if r == line {
      assert line[|line| - 1] != '\n';
    }
  }

  lemma SameGuard(a: string, b: string)
    requires RStrip(a) == RStrip(b)
    ensures GuardOf(a) == GuardOf(b)
  {
  }

  lemma {:induction false} WhitespaceCheckIsGood()
    ensures GoodCheck(CheckWhitespaceLine)
  {
    forall line | OneLine(line) ensures GoodOn(CheckWhitespaceLine, line) {
      WhitespaceLine(line);
      SameGuard(CheckWhitespaceLine(line).fixed, line);
    }
  }

  /** Expanding tabs keeps a last character that is not a tab. */
  lemma ExpandKeepsLast(r: string)
    requires r != "" && r[|r| - 1] != '\t'
    ensures var e := ExpandTabs(r, 0); e != "" && e[|e| - 1] == r[|r| - 1]
  {
    var last := |r| - 1;
    assert r == r[..last] + [r[last]];
    ExpandConcat(r[..last], [r[last]], 0);
    assert ExpandTabs([r[last]], Column(r[..last], 0)) == [r[last]];
  }

  /** The tabs check, which runs after the whitespace check, leaves no trailing
      whitespace behind: a clean line stays clean. */
  lemma TabsKeepWhitespaceClean(line: string)
    requires OneLine(line) && CheckWhitespaceLine(line).compliant
    ensures CheckWhitespaceLine(CheckTabsLine(line).fixed).compliant
  {
    var r := RStrip(line);
    RStripParts(line);
    assert line == r + "\n";
    if '\t' in line && r != "" {
      assert IsSpace('\t') && r[|r| - 1] != '\t';
      ExpandConcat(r, "\n", 0);
      ExpandKeepsLast(r);
      var e := ExpandTabs(r, 0);
      assert ExpandTabs(line, 0) == e + "\n";
      RStripPadded(e, "\n");
    }
  }

  /** No line ends in blanks or lacks its newline. */
  ghost predicate NoTrailing(lines: seq<string>) {
    ProperLines(lines) && Compliant(lines, false, CheckWhitespaceLine)
  }

  lemma {:induction false} TabsKeepNoTrailing(lines: seq<string>, fixed: seq<string>)
    requires NoTrailing(lines) && IsFixOf(fixed, lines, true, CheckTabsLine)
    ensures Compliant(fixed, false, CheckWhitespaceLine)
  {
    forall i | 0 <= i < |fixed| ensures CheckWhitespaceLine(fixed[i]).compliant {
      assert LineOk(lines, false, CheckWhitespaceLine, i);
      assert OneLine(lines[i]) && CheckWhitespaceLine(lines[i]).compliant;
      TabsKeepWhitespaceClean(lines[i]);
    }
  }

  /** The whitespace pass, which ignores guards, and then the tabs pass, which
      respects them: afterwards both checks find the file compliant. */
  lemma {:induction false} BothPassesClean(text: string, white: seq<string>, tabs: seq<string>)
    requires IsFixOf(white, SplitLines(text), false, CheckWhitespaceLine)
    requires IsFixOf(tabs, white, true, CheckTabsLine)
    ensures SplitLines(Join(white)) == white && SplitLines(Join(tabs)) == tabs
    ensures Compliant(tabs, false, CheckWhitespaceLine) && Compliant(tabs, true, CheckTabsLine)
  {
    WhitespaceCheckIsGood();
    TabsCheckIsGood();
    JoinSplit(text);
    FixIsIdempotent(text, white, false, CheckWhitespaceLine);
    JoinSplit(Join(white));
    FixIsIdempotent(Join(white), tabs, true, CheckTabsLine);
    TabsKeepNoTrailing(white, tabs);
  }

  /** Every line is trimmed, and has no tab unless formatting is off there. */
  ghost predicate WellSpaced(lines: seq<string>) {
    && (forall i :: 0 <= i < |lines| ==> Trimmed(lines[i]))
    && forall i :: 0 <= i < |lines| && Checked(Guards(lines), true, i) ==> '\t' !in lines[i]
  }

  lemma {:induction false} CleanIsWellSpaced(lines: seq<string>)
    requires ProperLines(lines)
    requires Compliant(lines, false, CheckWhitespaceLine) && Compliant(lines, true, CheckTabsLine)
    ensures WellSpaced(lines)
  {
    forall i | 0 <= i < |lines| ensures Trimmed(lines[i]) {
      assert LineOk(lines, false, CheckWhitespaceLine, i);
      assert OneLine(lines[i]);
      WhitespaceMeaning(lines[i]);
    }
    forall i | 0 <= i < |lines| && Checked(Guards(lines), true, i) ensures '\t' !in lines[i] {
      assert LineOk(lines, true, CheckTabsLine, i);
    }
  }

  /** Every line is the old one trimmed, some of them with their tabs expanded. */
  ghost predicate OnlySpacing(before: seq<string>, after: seq<string>) {
    && |after| == |before|
    && forall i :: 0 <= i < |before| ==>
         var trimmed := CheckWhitespaceLine(before[i]).fixed;
         after[i] == trimmed || after[i] == ExpandTabs(trimmed, 0)
  }

  lemma {:induction false} FixesOnlySpacing(lines: seq<string>, white: seq<string>, tabs: seq<string>)
    requires IsFixOf(white, lines, false, CheckWhitespaceLine) && IsFixOf(tabs, white, true, CheckTabsLine)
    ensures OnlySpacing(lines, tabs)
  {
    forall i | 0 <= i < |lines|
      ensures var trimmed := CheckWhitespaceLine(lines[i]).fixed;
        tabs[i] == trimmed || tabs[i] == ExpandTabs(trimmed, 0)
    {
      assert white[i] == FixedLine(lines, false, CheckWhitespaceLine, i);
      assert tabs[i] == FixedLine(white, true, CheckTabsLine, i);
    }
  }

  /** The whitespace and tabs checks of one fix run on a file. */
  method FixSpacing(file: TextFile, verbose: bool)
    modifies file
    ensures Compliant(SplitLines(file.content), false, CheckWhitespaceLine)
    ensures Compliant(SplitLines(file.content), true, CheckTabsLine)
    ensures WellSpaced(SplitLines(file.content))
    ensures OnlySpacing(SplitLines(old(file.content)), SplitLines(file.content))
  {
    ghost var text := file.content;
    ghost var white, tabs := SplitLines(text), SplitLines(text);
    var ok := file.CheckManually(true, verbose, false, CheckWhitespaceLine);
    if ok {
      FixOfCompliant(white, false, CheckWhitespaceLine);
      JoinSplit(text);
    } else {
      white :| IsFixOf(white, SplitLines(text), false, CheckWhitespaceLine) && file.content == Join(white);
    }
    WhitespaceCheckIsGood();
    FixIsIdempotent(text, white, false, CheckWhitespaceLine);
    ok := file.CheckManually(true, verbose, true, CheckTabsLine);
    if ok {
      FixOfCompliant(white, true, CheckTabsLine);
      tabs := white;
    } else {
      tabs :| IsFixOf(tabs, white, true, CheckTabsLine) && file.content == Join(tabs);
    }
    BothPassesClean(text, white, tabs);
    JoinSplit(file.content);
    CleanIsWellSpaced(SplitLines(file.content));
    FixesOnlySpacing(SplitLines(text), white, tabs);
  }

  lemma ExpandPrefix()
    ensures ExpandTabs(" //\t", 0) == " // " && Column(" //\t", 0) == 4
  {
    assert " //\t"[1..] == "//\t" && "//\t"[1..] == "/\t" && "/\t"[1..] == "\t" && "\t"[1..] == "";
    assert Spaces(1) == " ";
    assert ExpandTabs("\t", 3) == " ";
    assert ExpandTabs("/\t", 2) == "/ ";
    assert ExpandTabs("//\t", 1) == "// ";
    assert Column("\t", 3) == 4 && Column("/\t", 2) == 4 && Column("//\t", 1) == 4;
  }

  lemma ExpandAfterPrefix(prefix: string, tail: string)
    requires prefix == " //\t" && '\t' !in tail
    ensures ExpandTabs(prefix + tail, 0) == " // " + tail
  {
    ExpandConcat(prefix, tail, 0);
    ExpandNoTabs(tail, 4);
    ExpandPrefix();
  }

  lemma StripsTo(line: string, core: string)
    requires core != "" && !IsSpace(core[0]) && !IsSpace(core[|core| - 1])
    requires line == " " + core + "\n"
    ensures Strip(line) == core
  {
    StripPadded(" ", core, "\n");
  }

  lemma GuardHasNoTab(core: string)
    requires |core| > 2 && core[2] == '\t'
    ensures core !in GUARD_ON && core !in GUARD_OFF
  {
  }

  /** The reason idempotence is not obvious: a fix can create a guard.  With a tab
      after the slashes in column 3, as in " //<tab>clang-format off", the off
      guard appears only once the tab is expanded. */
  lemma FixCanCreateGuard(word: string)
    requires "// " + word in GUARD_OFF && "// " + word !in GUARD_ON
    requires word != "" && '\t' !in word && '\n' !in word && !IsSpace(word[|word| - 1])
    ensures var line := " //\t" + (word + "\n");
      OneLine(line) && GuardOf(line) == Neither && GuardOf(CheckTabsLine(line).fixed) == Off
  {
    var line, core := " //\t" + (word + "\n"), "//\t" + word;
    StripsTo(line, core);
    assert core[2] == '\t' && line[3] == '\t';
    GuardHasNoTab(core);
    ExpandAfterPrefix(" //\t", word + "\n");
    StripsTo(ExpandTabs(line, 0), "// " + word);
  }
}
