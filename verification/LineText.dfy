/** Lines as sequences of characters: stripping blanks and expanding tabs. */
module LineText {

  const TAB_SIZE := 4

  /** What `strip` and `rstrip` take for whitespace. */
  predicate IsSpace(c: char) {
    || '\t' <= c <= '\r' || '\U{1C}' <= c <= ' ' || c == '\U{85}' || c == '\U{A0}' || c == '\U{1680}'
    || '\U{2000}' <= c <= '\U{200A}' || c in {'\U{2028}', '\U{2029}', '\U{202F}', '\U{205F}', '\U{3000}'}
  }

  predicate AllSpace(s: string) {
    forall i :: 0 <= i < |s| ==> IsSpace(s[i])
  }

  function RStrip(s: string): string {
    if s != "" && IsSpace(s[|s| - 1]) then RStrip(s[..|s| - 1]) else s
  }

  function LStrip(s: string): string {
    if s != "" && IsSpace(s[0]) then LStrip(s[1..]) else s
  }

  function Strip(s: string): string {
    LStrip(RStrip(s))
  }

  function Spaces(n: nat): string {
    seq(n, _ => ' ')
  }

  /** Tabs to the next multiple of the tab size; a line break starts the columns anew. */
  function Expand(s: string, column: nat): string {
    if s == "" then ""
    else if s[0] == '\t' then
      var n := TAB_SIZE - column % TAB_SIZE;
      Spaces(n) + Expand(s[1..], column + n)
    else if s[0] == '\n' || s[0] == '\r' then [s[0]] + Expand(s[1..], 0)
    else [s[0]] + Expand(s[1..], column + 1)
  }

  function Column(s: string, column: nat): nat {
    if s == "" then column
    else if s[0] == '\t' then Column(s[1..], column + (TAB_SIZE - column % TAB_SIZE))
    else if s[0] == '\n' || s[0] == '\r' then Column(s[1..], 0)
    else Column(s[1..], column + 1)
  }

  // ---------------------------------------------------------------- Stripping

  /** A string is some blanks, its stripped form and some blanks. */
  lemma {:induction false} RStripSplit(s: string)
    ensures RStrip(s) <= s && AllSpace(s[|RStrip(s)|..])
    ensures RStrip(s) == "" || !IsSpace(RStrip(s)[|RStrip(s)| - 1])
  {
    if s != "" && IsSpace(s[|s| - 1]) {
      RStripSplit(s[..|s| - 1]);
      var n := |RStrip(s)|;
      assert s[n..] == s[..|s| - 1][n..] + [s[|s| - 1]];
    }
  }

  lemma {:induction false} RStripOf(r: string, t: string)
    requires AllSpace(t) && (r == "" || !IsSpace(r[|r| - 1]))
    ensures RStrip(r + t) == r
  {
    if t == "" {
      assert r + t == r;
    } else {
      assert (r + t)[..|r + t| - 1] == r + t[..|t| - 1];
      RStripOf(r, t[..|t| - 1]);
    }
  }

  lemma {:induction false} LStripSplit(s: string)
    ensures |LStrip(s)| <= |s| && LStrip(s) == s[|s| - |LStrip(s)|..] && AllSpace(s[..|s| - |LStrip(s)|])
    ensures LStrip(s) == "" || !IsSpace(LStrip(s)[0])
  {
    if s != "" && IsSpace(s[0]) {
      LStripSplit(s[1..]);
      var n := |s| - |LStrip(s)|;
      assert s[..n] == [s[0]] + s[1..][..n - 1];
    }
  }

  lemma {:induction false} LStripOf(t: string, r: string)
    requires AllSpace(t) && (r == "" || !IsSpace(r[0]))
    ensures LStrip(t + r) == r
  {
    if t == "" {
      assert t + r == r;
    } else {
      assert (t + r)[1..] == t[1..] + r;
      LStripOf(t[1..], r);
    }
  }

  // ---------------------------------------------------------------- Expanding tabs

  lemma {:induction false} ExpandConcat(a: string, b: string, column: nat)
    ensures Expand(a + b, column) == Expand(a, column) + Expand(b, Column(a, column))
    decreases |a|
  {
    if a == "" {
      assert a + b == b;
    } else {
      assert (a + b)[1..] == a[1..] + b;
      var next := if a[0] == '\t' then column + (TAB_SIZE - column % TAB_SIZE)
                  else if a[0] == '\n' || a[0] == '\r' then 0 else column + 1;
      ExpandConcat(a[1..], b, next);
    }
  }

  lemma {:induction false} ExpandNoTab(s: string, column: nat)
    requires '\t' !in s
    ensures Expand(s, column) == s
    decreases |s|
  {
    if s != "" {
      assert s == [s[0]] + s[1..] && '\t' !in s[1..];
      ExpandNoTab(s[1..], if s[0] == '\n' || s[0] == '\r' then 0 else column + 1);
    }
  }

  lemma {:induction false} ExpandFacts(s: string, column: nat)
    ensures '\t' !in Expand(s, column)
    ensures s == "" <==> Expand(s, column) == ""
    ensures '\n' in s <==> '\n' in Expand(s, column)
    ensures AllSpace(s) ==> AllSpace(Expand(s, column))
    decreases |s|
  {
    if s != "" {
      var n := TAB_SIZE - column % TAB_SIZE;
      var next := if s[0] == '\t' then column + n else if s[0] == '\n' || s[0] == '\r' then 0 else column + 1;
      ExpandFacts(s[1..], next);
      assert s == [s[0]] + s[1..];
      if AllSpace(s) { assert AllSpace(s[1..]); }
    }
  }

  /** What expansion does to a string that ends in no blank: it keeps its last character. */
  lemma ExpandSolid(r: string, column: nat)
    requires r == "" || !IsSpace(r[|r| - 1])
    ensures var e := Expand(r, column); e == "" || !IsSpace(e[|e| - 1])
  {
  }

  // ---------------------------------------------------------------- Stripping, by what is stripped

  /** The line holds the text and nothing but blanks around it. */
  ghost predicate HoldsOnly(line: string, text: string) {
    exists i, j :: 0 <= i <= j <= |line| && Around(line, text, i, j)
  }

  ghost predicate Around(line: string, text: string, i: nat, j: nat)
    requires i <= j <= |line|
  {
    line[i..j] == text && AllSpace(line[..i]) && AllSpace(line[j..])
  }

  lemma StripIff(line: string, text: string)
    requires text != "" && !IsSpace(text[0]) && !IsSpace(text[|text| - 1])
    ensures Strip(line) == text <==> HoldsOnly(line, text)
  {
    hide IsSpace, RStrip, LStrip, AllSpace;
    var r := RStrip(line);
    RStripSplit(line);
    LStripSplit(r);
    if Strip(line) == text {
      assert r == line[..|r|] && r[..|r| - |text|] == line[..|r| - |text|];
      assert Around(line, text, |r| - |text|, |r|);
    }
    if HoldsOnly(line, text) {
      var i, j :| 0 <= i <= j <= |line| && Around(line, text, i, j);
      StripAround(line, text, i, j);
    }
  }

  lemma StripAround(line: string, text: string, i: nat, j: nat)
    requires text != "" && !IsSpace(text[0]) && !IsSpace(text[|text| - 1])
    requires i <= j <= |line| && Around(line, text, i, j)
    ensures Strip(line) == text
  {
    hide IsSpace, RStrip, LStrip, AllSpace;
    var solid := line[..j];
    assert line == solid + line[j..] && solid == line[..i] + text;
    assert solid[|solid| - 1] == text[|text| - 1];
    RStripOf(solid, line[j..]);
    LStripOf(line[..i], text);
  }

  /** The line without the blanks at its end, and a newline. */
  ghost predicate TrimmedTo(line: string, fixed: string) {
    exists n :: 0 <= n <= |line| && TrimsAt(line, fixed, n)
  }

  ghost predicate TrimsAt(line: string, fixed: string, n: nat)
    requires n <= |line|
  {
    fixed == line[..n] + "\n" && AllSpace(line[n..]) && (n > 0 ==> !IsSpace(line[n - 1]))
  }

  lemma TrimmedToIff(line: string, fixed: string)
    ensures TrimmedTo(line, fixed) <==> fixed == RStrip(line) + "\n"
  {
    hide IsSpace;
    RStripSplit(line);
    var n := |RStrip(line)|;
    assert RStrip(line) == line[..n];
    if fixed == RStrip(line) + "\n" { assert TrimsAt(line, fixed, n); }
    if TrimmedTo(line, fixed) {
      var k :| 0 <= k <= |line| && TrimsAt(line, fixed, k);
      assert line == line[..k] + line[k..];
      RStripOf(line[..k], line[k..]);
    }
  }

  // ---------------------------------------------------------------- Tabs, by where they lead

  /** One past the last line break before position i, or the start. */
  function LineStart(s: string, i: nat): (k: nat)
    requires i <= |s|
    ensures k <= i && (k > 0 ==> s[k - 1] == '\n' || s[k - 1] == '\r')
    ensures forall j :: k <= j < i ==> s[j] != '\n' && s[j] != '\r'
  {
    if i == 0 || s[i - 1] == '\n' || s[i - 1] == '\r' then i else LineStart(s, i - 1)
  }

  /** A character is laid out from p to q on a line that starts at `start`: a tab as one to four
      spaces up to a column that is a multiple of four, and any other character as itself. */
  ghost predicate LaidOut(c: char, out: string, start: int, p: int, q: int) {
    && 0 <= p < q <= |out|
    && if c == '\t' then
         q <= p + 4 && (q - start) % 4 == 0 && forall k :: p <= k < q ==> out[k] == ' '
       else q == p + 1 && out[p] == c
  }

  ghost predicate IsLayout(line: string, out: string, pos: seq<nat>) {
    && |pos| == |line| + 1 && pos[0] == 0 && pos[|line|] == |out|
    && forall i :: 0 <= i < |line| ==> LaidOut(line[i], out, pos[LineStart(line, i)], pos[i], pos[i + 1])
  }

  ghost predicate ExpandsTo(line: string, out: string) {
    exists pos :: IsLayout(line, out, pos)
  }

  /** Where expansion puts position i. */
  function PositionOf(line: string, i: nat): nat
    requires i <= |line|
  {
    |Expand(line[..i], 0)|
  }

  lemma {:induction false} ColumnFromLineStart(line: string, i: nat)
    requires i <= |line|
    ensures PositionOf(line, LineStart(line, i)) + Column(line[..i], 0) == PositionOf(line, i)
  {
    if i > 0 {
      var init, c := line[..i - 1], [line[i - 1]];
      assert line[..i] == init + c && c[1..] == "";
      ColumnFromLineStart(line, i - 1);
      ExpandConcat(init, c, 0);
      ColumnConcat(init, c, 0);
    }
  }

  lemma {:induction false} ColumnConcat(a: string, b: string, column: nat)
    ensures Column(a + b, column) == Column(b, Column(a, column))
    decreases |a|
  {
    if a == "" {
      assert a + b == b;
    } else {
      assert (a + b)[1..] == a[1..] + b;
      var next := if a[0] == '\t' then column + (TAB_SIZE - column % TAB_SIZE)
                  else if a[0] == '\n' || a[0] == '\r' then 0 else column + 1;
      ColumnConcat(a[1..], b, next);
    }
  }

  /** What one character becomes at a column. */
  function Cells(c: char, column: nat): string {
    if c == '\t' then Spaces(TAB_SIZE - column % TAB_SIZE) else [c]
  }

  lemma ExpandOne(c: char, column: nat)
    ensures Expand([c], column) == Cells(c, column)
  {
    assert [c][1..] == "";
  }

  lemma ExpandSnoc(line: string, i: nat)
    requires i < |line|
    ensures Expand(line[..i + 1], 0) == Expand(line[..i], 0) + Cells(line[i], Column(line[..i], 0))
  {
    hide Expand, Column, Cells;
    assert line[..i + 1] == line[..i] + [line[i]];
    ExpandConcat(line[..i], [line[i]], 0);
    ExpandOne(line[i], Column(line[..i], 0));
  }

  lemma ExpandPrefix(line: string, i: nat)
    requires i <= |line|
    ensures PositionOf(line, i) <= |Expand(line, 0)|
    ensures Expand(line, 0)[..PositionOf(line, i)] == Expand(line[..i], 0)
  {
    hide Expand, Column;
    assert line == line[..i] + line[i..];
    ExpandConcat(line[..i], line[i..], 0);
  }

  /** Where character i comes to stand, and as what. */
  lemma CellsAt(line: string, i: nat)
    requires i < |line|
    ensures var p, q, column := PositionOf(line, i), PositionOf(line, i + 1), Column(line[..i], 0);
      q == p + |Cells(line[i], column)| && q <= |Expand(line, 0)| && Expand(line, 0)[p..q] == Cells(line[i], column)
  {
    hide Expand, Column, Cells;
    ExpandSnoc(line, i);
    ExpandPrefix(line, i + 1);
    var p, q := PositionOf(line, i), PositionOf(line, i + 1);
    assert Expand(line, 0)[p..q] == Expand(line, 0)[..q][p..];
  }

  function Positions(line: string): seq<nat> {
    seq(|line| + 1, k requires 0 <= k <= |line| => PositionOf(line, k))
  }

  lemma ExpandLaidOut(line: string, i: nat)
    requires i < |line|
    ensures LaidOut(line[i], Expand(line, 0), PositionOf(line, LineStart(line, i)),
                    PositionOf(line, i), PositionOf(line, i + 1))
  {
    hide Column, Expand, PositionOf, LineStart;
    CellsAt(line, i);
    ColumnFromLineStart(line, i);
    CellsLaidOut(line[i], Expand(line, 0), PositionOf(line, i), Column(line[..i], 0));
  }

  lemma CellsLaidOut(c: char, out: string, p: nat, column: nat)
    requires var q := p + |Cells(c, column)|; q <= |out| && out[p..q] == Cells(c, column)
    ensures LaidOut(c, out, p - column, p, p + |Cells(c, column)|)
  {
    var q := p + |Cells(c, column)|;
    assert forall k :: p <= k < q ==> out[k] == out[p..q][k - p];
    NextStop(column);
  }

  lemma NextStop(column: nat)
    ensures (column + (TAB_SIZE - column % TAB_SIZE)) % 4 == 0
  {
  }

  /** Such a layout leaves no choice. */
  lemma {:induction false} LayoutUnique(line: string, a: string, p: seq<nat>, b: string, q: seq<nat>, i: nat)
    requires IsLayout(line, a, p) && IsLayout(line, b, q) && i <= |line|
    ensures forall k :: 0 <= k <= i ==> p[k] == q[k]
    ensures p[i] <= |a| && p[i] <= |b| && a[..p[i]] == b[..p[i]]
  {
    if i > 0 {
      LayoutUnique(line, a, p, b, q, i - 1);
      var n, m := p[i - 1], p[i];
      var start := LineStart(line, i - 1);
      assert LaidOut(line[i - 1], a, p[start], n, m) && LaidOut(line[i - 1], b, q[start], q[i - 1], q[i]);
      assert p[i] == q[i];
      assert forall k :: n <= k < m ==> a[k] == b[k];
      assert forall k :: 0 <= k < n ==> a[k] == a[..n][k] && b[k] == b[..n][k];
    }
  }

  /** Tab stops at every fourth column of a line, and all other characters kept, is what expansion
      does and nothing else. */
  lemma ExpandsToIff(line: string, out: string)
    ensures ExpandsTo(line, out) <==> out == Expand(line, 0)
  {
    hide LaidOut;
    var pos := Positions(line);
    forall i | 0 <= i < |line|
      ensures LaidOut(line[i], Expand(line, 0), pos[LineStart(line, i)], pos[i], pos[i + 1])
    {
      ExpandLaidOut(line, i);
    }
    assert line[..|line|] == line && line[..0] == "";
    assert IsLayout(line, Expand(line, 0), pos);
    if ExpandsTo(line, out) {
      var p :| IsLayout(line, out, p);
      LayoutUnique(line, out, p, Expand(line, 0), pos, |line|);
      assert out[..|out|] == out && Expand(line, 0)[..|out|] == Expand(line, 0);
    }
  }
}
