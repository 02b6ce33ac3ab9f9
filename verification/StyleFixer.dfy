/** Checking and fixing the lines of a file: trailing whitespace and tabs, with guard lines that
    switch the tab check off and on.

    Fixing a line may itself make a guard line, so that a second pass can skip other lines than
    the first. */
module StyleFixer {
  import opened TextLines
  import opened LineText

  const GUARD_ON := "// clang-format on"
  const GUARD_OFF := "// clang-format off"

  // ---------------------------------------------------------------- One line

  datatype Check = Whitespace | Tabs

  function CheckWhitespaceLine(line: string): (bool, string) {
    var fixed := RStrip(line) + "\n";
    (fixed == line, fixed)
  }

  function CheckTabsLine(line: string): (bool, string) {
    if '\t' in line then (false, Expand(line, 0)) else (true, line)
  }

  function CheckLine(check: Check, line: string): (bool, string) {
    match check
    case Whitespace => CheckWhitespaceLine(line)
    case Tabs => CheckTabsLine(line)
  }

  function Fix(check: Check, line: string): string {
    CheckLine(check, line).1
  }

  predicate Compliant(check: Check, line: string) {
    CheckLine(check, line).0
  }

  // ---------------------------------------------------------------- A file

  predicate IsGuard(line: string) {
    Strip(line) == GUARD_ON || Strip(line) == GUARD_OFF
  }

  /** The guard state after a line. */
  function Enabled(guards: bool, enabled: bool, line: string): bool {
    if !guards then enabled
    else if Strip(line) == GUARD_ON then true
    else if Strip(line) == GUARD_OFF then false
    else enabled
  }

  /** Whether a line is passed over, given the state after it. */
  predicate Skipped(guards: bool, enabled: bool, line: string) {
    guards && !enabled && !IsGuard(line)
  }

  /** The guard state before line i. */
  function EnabledAt(guards: bool, lines: seq<string>, i: nat): bool
    requires i <= |lines|
  {
    if i == 0 then true else Enabled(guards, EnabledAt(guards, lines, i - 1), lines[i - 1])
  }

  predicate SkippedAt(guards: bool, lines: seq<string>, i: nat)
    requires i < |lines|
  {
    Skipped(guards, EnabledAt(guards, lines, i + 1), lines[i])
  }

  function FixAt(check: Check, guards: bool, lines: seq<string>, i: nat): string
    requires i < |lines|
  {
    if SkippedAt(guards, lines, i) then lines[i] else Fix(check, lines[i])
  }

  function FixLines(check: Check, guards: bool, lines: seq<string>): seq<string> {
    seq(|lines|, i requires 0 <= i < |lines| => FixAt(check, guards, lines, i))
  }

  predicate CompliantFile(check: Check, guards: bool, lines: seq<string>) {
    forall i :: 0 <= i < |lines| && !SkippedAt(guards, lines, i) ==> Compliant(check, lines[i])
  }

  // ---------------------------------------------------------------- One line, fixed

  lemma TabsFixIsExpand(line: string)
    ensures Fix(Tabs, line) == Expand(line, 0)
  {
    if '\t' !in line { ExpandNoTab(line, 0); }
  }

  lemma FixedIsCompliant(check: Check, line: string)
    ensures Compliant(check, Fix(check, line))
  {
    match check
    case Whitespace =>
      RStripSplit(line);
      RStripOf(RStrip(line), "\n");
    case Tabs => ExpandFacts(line, 0);
  }

  /** A compliant line is its own fix. */
  lemma CompliantIsFixed(check: Check, line: string)
    ensures Compliant(check, line) <==> Fix(check, line) == line
  {
    FixedIsCompliant(check, line);
  }

  lemma WhitespaceKeepsStrip(line: string)
    ensures RStrip(Fix(Whitespace, line)) == RStrip(line)
    ensures Strip(Fix(Whitespace, line)) == Strip(line)
  {
    RStripSplit(line);
    RStripOf(RStrip(line), "\n");
  }

  /** Expanding the tabs around a text without tabs leaves it what stripping yields. */
  lemma ExpandKeepsTabFreeStrip(line: string)
    requires Strip(line) != "" && '\t' !in Strip(line)
    ensures Strip(Expand(line, 0)) == Strip(line)
  {
    var r := RStrip(line);
    var g := Strip(line);
    RStripSplit(line);
    LStripSplit(r);
    var lead, trail := r[..|r| - |g|], line[|r|..];
    assert r == lead + g && line == r + trail;
    ExpandConcat(r, trail, 0);
    ExpandConcat(lead, g, 0);
    ExpandNoTab(g, Column(lead, 0));
    var lead', trail' := Expand(lead, 0), Expand(trail, Column(r, 0));
    ExpandFacts(lead, 0);
    ExpandFacts(trail, Column(r, 0));
    assert r[|r| - 1] == g[|g| - 1];
    RStripOf(lead' + g, trail');
    LStripOf(lead', g);
  }

  /** Fixing a guard line leaves it the same guard. */
  lemma FixKeepsGuard(check: Check, line: string)
    requires IsGuard(line)
    ensures Strip(Fix(check, line)) == Strip(line)
  {
    match check
    case Whitespace => WhitespaceKeepsStrip(line);
    case Tabs =>
      TabsFixIsExpand(line);
      ExpandKeepsTabFreeStrip(line);
  }

  const COMMENT := "// clang-format"
  const TABBED_OFF := COMMENT + ("\t" + "off\n")

  lemma StripOf(s: string)
    requires s != "" && !IsSpace(s[0]) && !IsSpace(s[|s| - 1])
    ensures Strip(s + "\n") == s
  {
    RStripOf(s, "\n");
    LStripOf("", s);
    assert "" + s == s;
  }

  /** But the fix can make a guard where there was none: this tab expands to one space. */
  lemma FixCanMakeAGuard()
    ensures !IsGuard(TABBED_OFF) && Fix(Tabs, TABBED_OFF) == GUARD_OFF + "\n" && IsGuard(GUARD_OFF + "\n")
  {
    hide RStrip, LStrip, Expand, Column;
    var tabbed := COMMENT + ("\t" + "off");
    assert TABBED_OFF == tabbed + "\n";
    StripOf(tabbed);
    StripOf(GUARD_OFF);
    assert tabbed[15] == '\t' && GUARD_ON[15] == ' ' && GUARD_OFF[15] == ' ';
    TabsFixIsExpand(TABBED_OFF);
    ExpandConcat(COMMENT, "\t" + "off\n", 0);
    ExpandNoTab(COMMENT, 0);
    ColumnNoTab(COMMENT, 0);
    OneSpaceTab("off\n");
    assert COMMENT + (" " + "off\n") == GUARD_OFF + "\n";
  }

  lemma OneSpaceTab(rest: string)
    requires '\t' !in rest
    ensures Expand("\t" + rest, 15) == " " + rest
  {
    ExpandNoTab(rest, 16);
    assert ("\t" + rest)[1..] == rest;
    assert Spaces(1) == " ";
  }

  lemma {:induction false} ColumnNoTab(s: string, column: nat)
    requires '\t' !in s && '\n' !in s && '\r' !in s
    ensures Column(s, column) == column + |s|
    decreases |s|
  {
    if s != "" { ColumnNoTab(s[1..], column + 1); }
  }

  // ---------------------------------------------------------------- Checking a fixed file

  /** If skipped lines stay and guards stay the same guard, then wherever the second pass is
      switched on the first one was. */
  lemma {:induction false} EnabledOnlyIfBefore(guards: bool, before: seq<string>, after: seq<string>, i: nat)
    requires i <= |before| == |after|
    requires forall k :: 0 <= k < |before| && SkippedAt(guards, before, k) ==> after[k] == before[k]
    requires forall k :: 0 <= k < |before| && IsGuard(before[k]) ==> Strip(after[k]) == Strip(before[k])
    ensures EnabledAt(guards, after, i) ==> EnabledAt(guards, before, i)
  {
    if i > 0 { EnabledOnlyIfBefore(guards, before, after, i - 1); }
  }

  /** A line the first pass skipped is skipped again, guards made by the fix or not. */
  lemma SkippedAgain(check: Check, guards: bool, lines: seq<string>, i: nat)
    requires i < |lines| && SkippedAt(guards, lines, i)
    ensures SkippedAt(guards, FixLines(check, guards, lines), i)
  {
    hide Strip, Fix;
    forall k | 0 <= k < |lines| && IsGuard(lines[k]) ensures Strip(FixAt(check, guards, lines, k)) == Strip(lines[k]) {
      FixKeepsGuard(check, lines[k]);
    }
    EnabledOnlyIfBefore(guards, lines, FixLines(check, guards, lines), i + 1);
  }

  /** The fixed file is compliant. */
  lemma FixedFileIsCompliant(check: Check, guards: bool, lines: seq<string>)
    ensures CompliantFile(check, guards, FixLines(check, guards, lines))
  {
    var fixed := FixLines(check, guards, lines);
    forall i | 0 <= i < |fixed| && !SkippedAt(guards, fixed, i) ensures Compliant(check, fixed[i]) {
      if SkippedAt(guards, lines, i) { SkippedAgain(check, guards, lines, i); }
      FixedIsCompliant(check, lines[i]);
    }
  }

  /** A file is compliant exactly when fixing changes nothing. */
  lemma CompliantFileIff(check: Check, guards: bool, lines: seq<string>)
    ensures CompliantFile(check, guards, lines) <==> FixLines(check, guards, lines) == lines
  {
    forall i | 0 <= i < |lines| ensures Compliant(check, lines[i]) <==> Fix(check, lines[i]) == lines[i] {
      CompliantIsFixed(check, lines[i]);
    }
    if FixLines(check, guards, lines) == lines {
      forall i | 0 <= i < |lines| && !SkippedAt(guards, lines, i) ensures Compliant(check, lines[i]) {
        assert FixLines(check, guards, lines)[i] == lines[i];
      }
    }
  }

  // ---------------------------------------------------------------- The two fixes together

  lemma FixesCommuteOnALine(line: string)
    ensures Fix(Tabs, Fix(Whitespace, line)) == Fix(Whitespace, Fix(Tabs, line))
  {
    hide Expand, RStrip, Column, AllSpace, IsSpace;
    var r := RStrip(line);
    RStripSplit(line);
    var trail := line[|r|..];
    assert line == r + trail;
    TabsFixIsExpand(line);
    TabsFixIsExpand(r + "\n");
    ExpandConcat(r, trail, 0);
    ExpandConcat(r, "\n", 0);
    ExpandFacts(trail, Column(r, 0));
    ExpandNoTab("\n", Column(r, 0));
    ExpandSolid(r, 0);
    RStripOf(Expand(r, 0), Expand(trail, Column(r, 0)));
  }

  lemma {:induction false} SameStripsSameState(a: seq<string>, b: seq<string>, i: nat)
    requires i <= |a| == |b|
    requires forall k :: 0 <= k < |a| ==> Strip(a[k]) == Strip(b[k])
    ensures EnabledAt(true, a, i) == EnabledAt(true, b, i)
  {
    if i > 0 { SameStripsSameState(a, b, i - 1); }
  }

  lemma WhitespaceKeepsState(lines: seq<string>, i: nat)
    requires i <= |lines|
    ensures EnabledAt(true, FixLines(Whitespace, false, lines), i) == EnabledAt(true, lines, i)
  {
    var w := FixLines(Whitespace, false, lines);
    forall k | 0 <= k < |lines| ensures Strip(w[k]) == Strip(lines[k]) {
      assert !SkippedAt(false, lines, k);
      WhitespaceKeepsStrip(lines[k]);
    }
    SameStripsSameState(w, lines, i);
  }

  /** Both fixes, the tabs one honouring the guards: their order makes no difference. */
  lemma FixesCommute(lines: seq<string>)
    ensures FixLines(Tabs, true, FixLines(Whitespace, false, lines))
         == FixLines(Whitespace, false, FixLines(Tabs, true, lines))
  {
    hide FixAt;
    var w := FixLines(Whitespace, false, lines);
    var t := FixLines(Tabs, true, lines);
    forall i | 0 <= i < |lines| ensures FixAt(Tabs, true, w, i) == FixAt(Whitespace, false, t, i) {
      FixesCommuteAt(lines, i);
    }
  }

  lemma FixesCommuteAt(lines: seq<string>, i: nat)
    requires i < |lines|
    ensures FixAt(Tabs, true, FixLines(Whitespace, false, lines), i)
         == FixAt(Whitespace, false, FixLines(Tabs, true, lines), i)
  {
    hide Strip, EnabledAt, CheckLine;
    WhitespaceKeepsState(lines, i + 1);
    WhitespaceKeepsStrip(lines[i]);
    FixesCommuteOnALine(lines[i]);
  }

  /** After the whitespace fix and then the tabs fix both checks accept the file. */
  lemma BothFixesSuffice(lines: seq<string>)
    ensures var both := FixLines(Tabs, true, FixLines(Whitespace, false, lines));
      && CompliantFile(Whitespace, false, both) && CompliantFile(Tabs, true, both)
      && |both| == |lines|
  {
    FixesCommute(lines);
    FixedFileIsCompliant(Whitespace, false, FixLines(Tabs, true, lines));
    FixedFileIsCompliant(Tabs, true, FixLines(Whitespace, false, lines));
  }

  // ---------------------------------------------------------------- The file on disk

  lemma FixKeepsLine(check: Check, line: string)
    requires IsLine(line)
    ensures IsLine(Fix(check, line)) && (Ended(line) ==> Ended(Fix(check, line)))
  {
    var body := line[..|line| - 1];
    var last := [line[|line| - 1]];
    assert line == body + last;
    match check
    case Whitespace =>
      var r := RStrip(line);
      RStripSplit(line);
      if |r| == |line| {
        assert IsSpace('\n');
        assert '\n' !in r;
      } else {
        assert r == body[..|r|];
      }
      assert (r + "\n")[..|r|] == r;
    case Tabs =>
      TabsFixIsExpand(line);
      ExpandConcat(body, last, 0);
      ExpandFacts(body, 0);
      ExpandFacts(last, Column(body, 0));
      if last == "\n" {
        ExpandNoTab(last, Column(body, 0));
        assert Expand(line, 0)[..|Expand(line, 0)| - 1] == Expand(body, 0);
      } else {
        assert '\n' !in Expand(line, 0);
      }
  }

  lemma FixKeepsLines(check: Check, guards: bool, lines: seq<string>)
    requires AreLines(lines)
    ensures AreLines(FixLines(check, guards, lines))
  {
    forall i | 0 <= i < |lines|
      ensures IsLine(FixAt(check, guards, lines, i)) && (Ended(lines[i]) ==> Ended(FixAt(check, guards, lines, i)))
    {
      FixKeepsLine(check, lines[i]);
    }
  }

  function FixFile(check: Check, guards: bool, content: string): string {
    Join(FixLines(check, guards, ReadLines(content)))
  }

  /** The lines of the fixed file are the fixed lines. */
  lemma ReadFixed(check: Check, guards: bool, content: string)
    ensures ReadLines(FixFile(check, guards, content)) == FixLines(check, guards, ReadLines(content))
  {
    JoinRead(content);
    FixKeepsLines(check, guards, ReadLines(content));
    ReadJoined(FixLines(check, guards, ReadLines(content)));
  }

  /** Checking the fixed file reports compliance, and fixing it again changes nothing. */
  lemma FixOnce(check: Check, guards: bool, content: string)
    ensures var fixed := FixFile(check, guards, content);
      CompliantFile(check, guards, ReadLines(fixed)) && FixFile(check, guards, fixed) == fixed
  {
    ReadFixed(check, guards, content);
    var fixed := FixLines(check, guards, ReadLines(content));
    FixedFileIsCompliant(check, guards, ReadLines(content));
    CompliantFileIff(check, guards, fixed);
  }

  /** The script's order, or the other one: the same file, accepted by both checks. */
  lemma WhitespaceThenTabs(content: string)
    ensures var fixed := FixFile(Tabs, true, FixFile(Whitespace, false, content));
      && fixed == FixFile(Whitespace, false, FixFile(Tabs, true, content))
      && CompliantFile(Whitespace, false, ReadLines(fixed)) && CompliantFile(Tabs, true, ReadLines(fixed))
      && |ReadLines(fixed)| == |ReadLines(content)|
  {
    ReadFixed(Whitespace, false, content);
    ReadFixed(Tabs, true, content);
    ReadFixed(Tabs, true, FixFile(Whitespace, false, content));
    FixesCommute(ReadLines(content));
    BothFixesSuffice(ReadLines(content));
  }

  // ---------------------------------------------------------------- What that means for the file

  /** Line i is between a guard that switches the check off and the next guard. */
  ghost predicate GuardedOff(lines: seq<string>, i: nat) {
    i < |lines| && exists j :: 0 <= j < i && HoldsOnly(lines[j], "// clang-format off") && NoGuard(lines, j + 1, i + 1)
  }

  ghost predicate NoGuard(lines: seq<string>, from: nat, to: nat) {
    forall k :: from <= k < to && k < |lines| ==>
      !HoldsOnly(lines[k], "// clang-format on") && !HoldsOnly(lines[k], "// clang-format off")
  }

  /** What the fix has to make of a line that is looked at, and when there is nothing to do. */
  ghost predicate FixedTo(check: Check, line: string, fixed: string) {
    match check
    case Whitespace => TrimmedTo(line, fixed)
    case Tabs => ExpandsTo(line, fixed)
  }

  ghost predicate Clean(check: Check, line: string) {
    match check
    case Whitespace => TrimmedTo(line, line)
    case Tabs => '\t' !in line
  }

  ghost predicate Exempt(guards: bool, lines: seq<string>, i: nat) {
    guards && GuardedOff(lines, i)
  }

  lemma GuardsByText(line: string)
    ensures Strip(line) == GUARD_ON <==> HoldsOnly(line, "// clang-format on")
    ensures Strip(line) == GUARD_OFF <==> HoldsOnly(line, "// clang-format off")
  {
    StripIff(line, "// clang-format on");
    StripIff(line, "// clang-format off");
  }

  ghost predicate LastGuardIsOff(lines: seq<string>, n: nat, j: nat) {
    j < n <= |lines| && HoldsOnly(lines[j], "// clang-format off") && NoGuard(lines, j + 1, n)
  }

  /** Before line n the check is off exactly when the last guard was an `off`. */
  lemma {:induction false} DisabledIff(lines: seq<string>, n: nat)
    requires n <= |lines|
    ensures !EnabledAt(true, lines, n) <==> exists j :: LastGuardIsOff(lines, n, j)
  {
    if n > 0 {
      hide Strip, HoldsOnly;
      DisabledIff(lines, n - 1);
      GuardsByText(lines[n - 1]);
      var m := n - 1;
      if j: nat :| LastGuardIsOff(lines, m, j) {
        assert !IsGuard(lines[n - 1]) ==> LastGuardIsOff(lines, n, j);
      }
      if j: nat :| LastGuardIsOff(lines, n, j) {
        assert j < m ==> LastGuardIsOff(lines, m, j);
      }
      if Strip(lines[n - 1]) == GUARD_OFF { assert LastGuardIsOff(lines, n, n - 1); }
    }
  }

  lemma SkippedIff(guards: bool, lines: seq<string>, i: nat)
    requires i < |lines|
    ensures SkippedAt(guards, lines, i) <==> Exempt(guards, lines, i)
  {
    if guards {
      hide Strip, HoldsOnly, EnabledAt;
      GuardsByText(lines[i]);
      DisabledIff(lines, i + 1);
      if GuardedOff(lines, i) {
        var j :| 0 <= j < i && HoldsOnly(lines[j], "// clang-format off") && NoGuard(lines, j + 1, i + 1);
        assert LastGuardIsOff(lines, i + 1, j);
      }
    }
  }

  lemma FixedToIff(check: Check, line: string, fixed: string)
    ensures FixedTo(check, line, fixed) <==> fixed == Fix(check, line)
    ensures Clean(check, line) <==> Compliant(check, line)
  {
    match check
    case Whitespace =>
      TrimmedToIff(line, fixed);
      TrimmedToIff(line, line);
    case Tabs =>
      ExpandsToIff(line, fixed);
      TabsFixIsExpand(line);
  }

  /** The verdict, and line by line what is in the file afterwards. */
  ghost predicate FileLaw(check: Check, guards: bool, fix: bool, before: seq<string>, compliant: bool, after: seq<string>) {
    && (compliant <==> forall i :: 0 <= i < |before| ==> Exempt(guards, before, i) || Clean(check, before[i]))
    && |after| == |before|
    && forall i :: 0 <= i < |before| ==>
         if !fix || Exempt(guards, before, i) then after[i] == before[i] else FixedTo(check, before[i], after[i])
  }

  /** The text is where the check looks for it: expanded tabs, trimmed ends, guards by their text. */
  lemma FixMeetsLaw(check: Check, guards: bool, fix: bool, lines: seq<string>)
    ensures FileLaw(check, guards, fix, lines, CompliantFile(check, guards, lines),
                    if fix then FixLines(check, guards, lines) else lines)
  {
    hide Fix, Compliant, FixedTo, Clean, SkippedAt, Exempt;
    forall i | 0 <= i < |lines|
      ensures SkippedAt(guards, lines, i) <==> Exempt(guards, lines, i)
      ensures Clean(check, lines[i]) <==> Compliant(check, lines[i])
      ensures FixedTo(check, lines[i], Fix(check, lines[i]))
    {
      SkippedIff(guards, lines, i);
      FixedToIff(check, lines[i], Fix(check, lines[i]));
    }
  }

  // ---------------------------------------------------------------- The loop over the file

  /** Checks or fixes one file; verbose or fixing, it looks at all lines, and otherwise it stops at
      the first that is not compliant. */
  method CheckManuallyFile(content: string, fix: bool, verbose: bool, guards: bool, check: Check)
    returns (compliant: bool, written: string)
    ensures compliant == CompliantFile(check, guards, ReadLines(content))
    ensures written == if fix then FixFile(check, guards, content) else content
    ensures FileLaw(check, guards, fix, ReadLines(content), compliant, ReadLines(written))
  {
    hide ReadLines, Join, Strip, CheckLine, FileLaw;
    compliant := true;
    var enabled := true;
    var lines := ReadLines(content);
    ghost var read := lines;
    JoinRead(content);
    CompliantFileIff(check, guards, read);
    ReadFixed(check, guards, content);
    FixMeetsLaw(check, guards, fix, read);
    for i := 0 to |lines|
      invariant |lines| == |read| && enabled == EnabledAt(guards, read, i)
      invariant forall k :: 0 <= k < i ==> lines[k] == FixAt(check, guards, read, k)
      invariant forall k :: i <= k < |lines| ==> lines[k] == read[k]
      invariant compliant <==> forall k :: 0 <= k < i && !SkippedAt(guards, read, k) ==> Compliant(check, read[k])
    {
      var line := lines[i];
      var skip := false;
      if guards {
        var stripped := Strip(line);
        if stripped == GUARD_ON {
          enabled := true;
        } else if stripped == GUARD_OFF {
          enabled := false;
        }
        skip := !enabled && stripped != GUARD_ON && stripped != GUARD_OFF;
      }
      assert skip == SkippedAt(guards, read, i);
      if !skip {
        var (ok, fixed) := CheckLine(check, line);
        CompliantIsFixed(check, line);
        if !ok {
          compliant := false;
          lines := lines[i := fixed];
          if !fix && !verbose { break; }
        }
      }
    }
    written := content;
    if fix && !compliant {
      assert lines == FixLines(check, guards, read);
      written := Join(lines);
    }
  }
}
