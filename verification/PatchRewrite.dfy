/** Undoing the removal of trailing whitespace in a parsed patch set: where the i-th target line
    of a chunk is the i-th source line without its last blank, the blank is put back.

    A line marked as both sits in the source and in the target list as one object. */
module PatchRewrite {
  import opened Wrappers
  import opened PatchSet

  predicate IsBlank(c: char) { c == ' ' || c == '\t' }

  /** The ways in which `^(.*)([ \t]+)$` can split a text after k characters; `.` is no newline. */
  ghost predicate IsSplit(s: string, k: nat) {
    k < |s| && '\n' !in s[..k] && forall i :: k <= i < |s| ==> IsBlank(s[i])
  }

  /** The one the greedy first group takes. */
  ghost predicate IsGreedySplit(s: string, k: nat) {
    IsSplit(s, k) && forall j: nat :: IsSplit(s, j) ==> j <= k
  }

  /** The source text s has a match whose first group is the target text d. */
  predicate Restores(s: string, d: string) {
    s != "" && IsBlank(s[|s| - 1]) && s[..|s| - 1] == d
  }

  /** All trailing blanks but the last go to the first group. */
  lemma GreedySplit(s: string, k: nat)
    requires '\n' !in s
    ensures IsGreedySplit(s, k) <==> k + 1 == |s| && IsBlank(s[k])
  {
    var last: int := |s| - 1;
    if s != "" && IsBlank(s[last]) { assert IsSplit(s, last); }
    if IsGreedySplit(s, k) { assert IsBlank(s[last]); }
  }

  /** The test on the last character is the test on the match, and what is appended is its second
      group. */
  lemma RestoresIff(s: string, d: string)
    requires '\n' !in s
    ensures Restores(s, d) <==> exists k: nat :: IsGreedySplit(s, k) && s[..k] == d
    ensures forall k: nat :: IsGreedySplit(s, k) ==> s[k..] == [s[|s| - 1]]
  {
    hide IsGreedySplit;
    forall k: nat ensures IsGreedySplit(s, k) <==> k + 1 == |s| && IsBlank(s[k]) {
      GreedySplit(s, k);
    }
    if Restores(s, d) { assert IsGreedySplit(s, |s| - 1); }
  }

  /** Where the lines of one side are. */
  function Positions(ls: seq<Line>, dst: bool): seq<nat> {
    if ls == [] then []
    else
      var l := ls[|ls| - 1];
      Positions(ls[..|ls| - 1], dst) + if (if dst then l.IsDst() else l.IsSrc()) then [|ls| - 1] else []
  }

  lemma {:induction false} PositionsOk(ls: seq<Line>, dst: bool)
    ensures var ps := Positions(ls, dst);
      && (forall i :: 0 <= i < |ps| ==> ps[i] < |ls|)
      && (forall i, j :: 0 <= i < j < |ps| ==> ps[i] < ps[j])
      && (forall k: nat :: k in ps <==> k < |ls| && if dst then ls[k].IsDst() else ls[k].IsSrc())
  {
    if ls != [] {
      PositionsOk(ls[..|ls| - 1], dst);
    }
  }

  /** The two sides of a chunk as positions in its list of lines. */
  ghost predicate Sides(ls: seq<Line>, src: seq<nat>, dst: seq<nat>) {
    && (forall i :: 0 <= i < |src| ==> src[i] < |ls|)
    && (forall i :: 0 <= i < |dst| ==> dst[i] < |ls|)
    && (forall i, j :: 0 <= i < j < |dst| ==> dst[i] < dst[j])
  }

  /** A target text after its turn against the source text s. */
  function Extended(s: string, d: string): string {
    if Restores(s, d) then d + [s[|s| - 1]] else d
  }

  function StepAt(ls: seq<Line>, s: nat, d: nat): seq<Line>
    requires s < |ls| && d < |ls|
  {
    ls[d := ls[d].(text := Extended(ls[s].text, ls[d].text))]
  }

  /** The pass from index i on; false when the target side runs out first, which ends the whole
      rewriting. */
  function RewriteFrom(ls: seq<Line>, src: seq<nat>, dst: seq<nat>, i: nat): (seq<Line>, bool)
    requires forall i :: 0 <= i < |src| ==> src[i] < |ls|
    requires forall i :: 0 <= i < |dst| ==> dst[i] < |ls|
    decreases |src| - i
  {
    if i >= |src| then (ls, true)
    else if i >= |dst| then (ls, false)
    else RewriteFrom(StepAt(ls, src[i], dst[i]), src, dst, i + 1)
  }

  function RewriteLines(ls: seq<Line>): (seq<Line>, bool) {
    PositionsOk(ls, false);
    PositionsOk(ls, true);
    RewriteFrom(ls, Positions(ls, false), Positions(ls, true), 0)
  }

  /** The chunks of one patch, up to the first on which the pass fails. */
  function RewriteChunks(cs: seq<Chunk>): (seq<Chunk>, bool) {
    if cs == [] then ([], true)
    else
      var (ls, ok) := RewriteLines(cs[0].lines);
      var c := cs[0].(lines := ls);
      if !ok then ([c] + cs[1..], false)
      else var (rest, restOk) := RewriteChunks(cs[1..]); ([c] + rest, restOk)
  }

  function RewritePatches(ps: seq<Patch>): seq<Patch> {
    if ps == [] then []
    else
      var (cs, ok) := RewriteChunks(ps[0].chunks);
      var p := ps[0].(chunks := cs);
      if !ok then [p] + ps[1..] else [p] + RewritePatches(ps[1..])
  }

  // ---------------------------------------------------------------- What the pass changes

  /** Kinds and number of lines stay, and a text grows by one blank at most. */
  predicate Grown(before: Line, after: Line) {
    && after.kind == before.kind
    && (after.text == before.text
        || (|after.text| == |before.text| + 1 && before.text <= after.text && IsBlank(after.text[|before.text|])))
  }

  predicate Before(dst: seq<nat>, i: nat, k: nat) {
    forall j :: i <= j < |dst| ==> dst[j] != k
  }

  lemma {:induction false} RewriteShape(ls: seq<Line>, src: seq<nat>, dst: seq<nat>, i: nat)
    requires Sides(ls, src, dst)
    ensures var r := RewriteFrom(ls, src, dst, i).0;
      && |r| == |ls|
      && (forall k :: 0 <= k < |ls| ==> Grown(ls[k], r[k]))
      && (forall k: nat :: k < |ls| && Before(dst, i, k) ==> r[k] == ls[k])
    decreases |src| - i
  {
    if i < |src| && i < |dst| {
      var next := StepAt(ls, src[i], dst[i]);
      RewriteShape(next, src, dst, i + 1);
      var r := RewriteFrom(ls, src, dst, i).0;
      assert Before(dst, i + 1, dst[i]);
      assert r[dst[i]] == next[dst[i]];
      forall k: nat | k < |ls| && Before(dst, i, k) ensures r[k] == ls[k] {
        assert Before(dst, i + 1, k);
      }
    }
  }

  // ---------------------------------------------------------------- When the source side stays as it was

  /** No line of both sides is due to get a blank from another source line. */
  predicate NoSharedRestore(ls: seq<Line>, src: seq<nat>, dst: seq<nat>, i: nat)
    requires forall i :: 0 <= i < |src| ==> src[i] < |ls|
    requires forall i :: 0 <= i < |dst| ==> dst[i] < |ls|
  {
    forall j :: i <= j < |src| && j < |dst| && dst[j] in src ==> !Restores(ls[src[j]].text, ls[dst[j]].text)
  }

  predicate SourceKept(before: seq<Line>, after: seq<Line>, src: seq<nat>)
    requires |after| == |before| && forall i :: 0 <= i < |src| ==> src[i] < |before|
  {
    forall i :: 0 <= i < |src| ==> after[src[i]] == before[src[i]]
  }

  lemma StepFacts(ls: seq<Line>, src: seq<nat>, dst: seq<nat>, i: nat)
    requires Sides(ls, src, dst) && i < |src| && i < |dst|
    ensures var next := StepAt(ls, src[i], dst[i]); var s, d := ls[src[i]].text, ls[dst[i]].text;
      && Sides(next, src, dst) && |next| == |ls|
      && (if Restores(s, d) then next[dst[i]].text == s && next[dst[i]] != ls[dst[i]] else next == ls)
      && (forall k :: 0 <= k < |ls| && k != dst[i] ==> next[k] == ls[k])
      && (forall j :: i < j < |dst| ==> next[dst[j]] == ls[dst[j]])
      && (dst[i] !in src ==> forall j :: 0 <= j < |src| ==> next[src[j]] == ls[src[j]])
  {
  }

  /** One step from the end of the pass backwards. */
  lemma StepShared(ls: seq<Line>, src: seq<nat>, dst: seq<nat>, i: nat)
    requires Sides(ls, src, dst) && i < |src| && i < |dst|
    ensures var next := StepAt(ls, src[i], dst[i]);
      && Sides(next, src, dst)
      && (NoSharedRestore(ls, src, dst, i) <==>
            !(dst[i] in src && Restores(ls[src[i]].text, ls[dst[i]].text)) && NoSharedRestore(next, src, dst, i + 1))
  {
  }

  /** The line reached at index i is not touched again. */
  lemma RewriteStep(ls: seq<Line>, src: seq<nat>, dst: seq<nat>, i: nat)
    requires Sides(ls, src, dst) && i < |src| && i < |dst|
    ensures var next := StepAt(ls, src[i], dst[i]);
      && Sides(next, src, dst)
      && RewriteFrom(ls, src, dst, i) == RewriteFrom(next, src, dst, i + 1)
      && |RewriteFrom(next, src, dst, i + 1).0| == |ls|
      && RewriteFrom(next, src, dst, i + 1).0[dst[i]] == next[dst[i]]
  {
    var next := StepAt(ls, src[i], dst[i]);
    RewriteShape(next, src, dst, i + 1);
    assert Before(dst, i + 1, dst[i]);
  }

  /** The pass leaves the source side alone exactly when no shared line is due for a blank. */
  lemma {:induction false} SourceKeptIff(ls: seq<Line>, src: seq<nat>, dst: seq<nat>, i: nat)
    requires Sides(ls, src, dst)
    ensures |RewriteFrom(ls, src, dst, i).0| == |ls|
    ensures SourceKept(ls, RewriteFrom(ls, src, dst, i).0, src) <==> NoSharedRestore(ls, src, dst, i)
    decreases |src| - i
  {
    if i < |src| && i < |dst| {
      hide StepAt, Restores, Grown, NoSharedRestore, RewriteFrom;
      var next := StepAt(ls, src[i], dst[i]);
      StepFacts(ls, src, dst, i);
      StepShared(ls, src, dst, i);
      RewriteStep(ls, src, dst, i);
      SourceKeptIff(next, src, dst, i + 1);
      if dst[i] in src {
        var k :| 0 <= k < |src| && src[k] == dst[i];
      }
    }
  }

  // ---------------------------------------------------------------- The result, line by line

  /** The target index, from i on and before j, at which the pass has touched line k. */
  ghost predicate Touched(dst: seq<nat>, i: nat, j: nat, k: nat, m: nat) {
    i <= m < j && m < |dst| && dst[m] == k
  }

  /** The text of the source line at index j when its turn comes, for a pass from index i on: a
      line of both sides may have had its own turn as a target before. */
  ghost function SourceText(ls: seq<Line>, src: seq<nat>, dst: seq<nat>, i: nat, j: nat): string
    requires forall i :: 0 <= i < |src| ==> src[i] < |ls|
    requires j < |src|
    decreases j
  {
    if exists m: nat :: Touched(dst, i, j, src[j], m) then
      var m: nat :| Touched(dst, i, j, src[j], m);
      Extended(SourceText(ls, src, dst, i, m), ls[src[j]].text)
    else ls[src[j]].text
  }

  lemma {:induction false} SourceTextAfterStep(ls: seq<Line>, src: seq<nat>, dst: seq<nat>, i: nat, j: nat)
    requires Sides(ls, src, dst) && i < |src| && i < |dst| && i < j < |src|
    ensures var next := StepAt(ls, src[i], dst[i]);
      Sides(next, src, dst) && SourceText(next, src, dst, i + 1, j) == SourceText(ls, src, dst, i, j)
    decreases j
  {
    StepFacts(ls, src, dst, i);
    hide StepAt, Extended;
    var next := StepAt(ls, src[i], dst[i]);
    var k, after := src[j], i + 1;
    if k == dst[i] {
      assert Touched(dst, i, j, k, i);
      assert forall m: nat :: Touched(dst, i, j, k, m) ==> m == i;
      assert forall m: nat :: !Touched(dst, after, j, k, m);
      assert forall m: nat :: !Touched(dst, i, i, src[i], m);
    } else if m: nat :| Touched(dst, i, j, k, m) {
      assert Touched(dst, i + 1, j, k, m);
      assert forall n: nat :: Touched(dst, i, j, k, n) ==> n == m;
      assert forall n: nat :: Touched(dst, after, j, k, n) ==> n == m;
      SourceTextAfterStep(ls, src, dst, i, m);
    } else {
      assert forall m: nat :: Touched(dst, after, j, k, m) ==> Touched(dst, i, j, k, m);
    }
  }

  lemma {:induction false} RewriteTarget(ls: seq<Line>, src: seq<nat>, dst: seq<nat>, i: nat, j: nat)
    requires Sides(ls, src, dst) && i <= j < |src| && j < |dst|
    ensures |RewriteFrom(ls, src, dst, i).0| == |ls|
    ensures RewriteFrom(ls, src, dst, i).0[dst[j]]
         == ls[dst[j]].(text := Extended(SourceText(ls, src, dst, i, j), ls[dst[j]].text))
    decreases j - i
  {
    hide StepAt, RewriteFrom, SourceText, Extended;
    RewriteStep(ls, src, dst, i);
    if i == j {
      StepTarget(ls, src[i], dst[i]);
      SourceTextNow(ls, src, dst, i);
    } else {
      StepFacts(ls, src, dst, i);
      RewriteTarget(StepAt(ls, src[i], dst[i]), src, dst, i + 1, j);
      SourceTextAfterStep(ls, src, dst, i, j);
    }
  }

  lemma StepTarget(ls: seq<Line>, s: nat, d: nat)
    requires s < |ls| && d < |ls|
    ensures |StepAt(ls, s, d)| == |ls| && StepAt(ls, s, d)[d] == ls[d].(text := Extended(ls[s].text, ls[d].text))
  {
  }

  lemma {:induction false} RewriteRest(ls: seq<Line>, src: seq<nat>, dst: seq<nat>, i: nat, k: nat)
    requires Sides(ls, src, dst) && k < |ls| && Untouched(src, dst, i, k)
    ensures |RewriteFrom(ls, src, dst, i).0| == |ls|
    ensures RewriteFrom(ls, src, dst, i).0[k] == ls[k]
    decreases |src| - i
  {
    if i < |src| && i < |dst| {
      hide StepAt, Extended;
      StepFacts(ls, src, dst, i);
      RewriteRest(StepAt(ls, src[i], dst[i]), src, dst, i + 1, k);
    }
  }

  /** For every chunk: a target line that the pass reaches becomes what its text is against the
      text of the source line at its index, and all other lines stay. */
  lemma RewriteResult(ls: seq<Line>, src: seq<nat>, dst: seq<nat>)
    requires Sides(ls, src, dst)
    ensures |RewriteFrom(ls, src, dst, 0).0| == |ls|
    ensures forall j :: 0 <= j < |src| && j < |dst| ==>
      RewriteFrom(ls, src, dst, 0).0[dst[j]]
      == ls[dst[j]].(text := Extended(SourceText(ls, src, dst, 0, j), ls[dst[j]].text))
    ensures forall k: nat :: k < |ls| && Untouched(src, dst, 0, k) ==> RewriteFrom(ls, src, dst, 0).0[k] == ls[k]
  {
    hide RewriteFrom, SourceText, Extended, Untouched;
    RewriteShape(ls, src, dst, 0);
    forall j | 0 <= j < |src| && j < |dst|
      ensures RewriteFrom(ls, src, dst, 0).0[dst[j]]
           == ls[dst[j]].(text := Extended(SourceText(ls, src, dst, 0, j), ls[dst[j]].text))
    {
      RewriteTarget(ls, src, dst, 0, j);
    }
    forall k: nat | k < |ls| && Untouched(src, dst, 0, k) ensures RewriteFrom(ls, src, dst, 0).0[k] == ls[k] {
      RewriteRest(ls, src, dst, 0, k);
    }
  }

  /** Line k is at no target index that a pass from i on reaches. */
  ghost predicate Untouched(src: seq<nat>, dst: seq<nat>, i: nat, k: nat) {
    forall j :: i <= j < |dst| && j < |src| ==> dst[j] != k
  }

  lemma SourceTextNow(ls: seq<Line>, src: seq<nat>, dst: seq<nat>, i: nat)
    requires Sides(ls, src, dst) && i < |src|
    ensures SourceText(ls, src, dst, i, i) == ls[src[i]].text
  {
    assert forall m: nat :: !Touched(dst, i, i, src[i], m);
  }

  /** Where no shared line is due for a blank, source texts are as they were parsed. */
  lemma {:induction false} UnsharedText(ls: seq<Line>, src: seq<nat>, dst: seq<nat>, i: nat, j: nat)
    requires Sides(ls, src, dst) && NoSharedRestore(ls, src, dst, i) && j < |src|
    ensures SourceText(ls, src, dst, i, j) == ls[src[j]].text
    decreases j
  {
    if m: nat :| Touched(dst, i, j, src[j], m) {
      assert forall n: nat :: Touched(dst, i, j, src[j], n) ==> n == m;
      UnsharedText(ls, src, dst, i, m);
    }
  }

  /** So a target line ends up equal to its source line, as parsed, exactly when it was equal or
      the source line is it and one blank. */
  lemma BecomesSourceIff(ls: seq<Line>, src: seq<nat>, dst: seq<nat>, j: nat)
    requires Sides(ls, src, dst) && NoSharedRestore(ls, src, dst, 0) && j < |src| && j < |dst|
    ensures |RewriteFrom(ls, src, dst, 0).0| == |ls|
    ensures var s, d := ls[src[j]].text, ls[dst[j]].text;
      RewriteFrom(ls, src, dst, 0).0[dst[j]].text == s <==>
      s == d || s == d + " " || s == d + "\t"
  {
    hide RewriteFrom, SourceText, Extended, NoSharedRestore;
    RewriteTarget(ls, src, dst, 0, j);
    UnsharedText(ls, src, dst, 0, j);
    ExtendedToSource(ls[src[j]].text, ls[dst[j]].text);
  }

  lemma ExtendedToSource(s: string, d: string)
    ensures Extended(s, d) == s <==> s == d || s == d + " " || s == d + "\t"
  {
    if Restores(s, d) { assert s == d + [s[|d|]]; }
    if s == d + " " || s == d + "\t" { assert s[..|s| - 1] == d; }
  }

  /** A target line that lost trailing blanks gets its source line's text back exactly when it
      lost one at most. */
  lemma LostBlanksIff(ls: seq<Line>, src: seq<nat>, dst: seq<nat>, j: nat)
    requires Sides(ls, src, dst) && NoSharedRestore(ls, src, dst, 0) && j < |src| && j < |dst|
    requires var s, d := ls[src[j]].text, ls[dst[j]].text; d <= s && forall i :: |d| <= i < |s| ==> IsBlank(s[i])
    ensures |RewriteFrom(ls, src, dst, 0).0| == |ls|
    ensures var s, d := ls[src[j]].text, ls[dst[j]].text;
      RewriteFrom(ls, src, dst, 0).0[dst[j]].text == s <==> |s| <= |d| + 1
  {
    BecomesSourceIff(ls, src, dst, j);
    var s, d := ls[src[j]].text, ls[dst[j]].text;
    if |s| == |d| + 1 { assert s == d + [s[|d|]]; }
  }

  const TWO_BLANKS := [Line(Src, "a  "), Line(Dst, "a")]

  /** Two blanks lost stay lost. */
  lemma TwoBlanksStay()
    ensures RewriteLines(TWO_BLANKS) == (TWO_BLANKS, true)
  {
    var ls := TWO_BLANKS;
    OneForOne("a  ", "a");
    assert |ls[0].text[..2]| != |ls[1].text|;
    assert StepAt(ls, 0, 1) == ls;
  }

  /** A chunk that replaces one line by another. */
  lemma OneForOne(s: string, d: string)
    ensures Positions([Line(Src, s), Line(Dst, d)], false) == [0]
    ensures Positions([Line(Src, s), Line(Dst, d)], true) == [1]
  {
    var ls := [Line(Src, s), Line(Dst, d)];
    var first := ls[..1];
    assert first == [Line(Src, s)] && first[..0] == [];
    assert Positions(first[..0], false) == [] && Positions(first[..0], true) == [];
    assert Positions(first, false) == [0] && Positions(first, true) == [];
  }

  predicate Aligned(src: seq<nat>, dst: seq<nat>) {
    forall i, j :: 0 <= i < |src| && 0 <= j < |dst| && src[i] == dst[j] ==> i == j
  }

  lemma AlignedSharesNothing(ls: seq<Line>, src: seq<nat>, dst: seq<nat>)
    requires Sides(ls, src, dst) && Aligned(src, dst)
    ensures NoSharedRestore(ls, src, dst, 0)
  {
  }

  /** Where the common lines have the same index on both sides, the source side is untouched and
      every changed target line becomes equal to the source line at its index, also when the
      target side runs out early. */
  lemma AlignedChunk(ls: seq<Line>)
    requires Aligned(Positions(ls, false), Positions(ls, true))
    ensures |RewriteLines(ls).0| == |ls|
    ensures RewriteLines(ls).1 == (|Positions(ls, false)| <= |Positions(ls, true)|)
    ensures forall k :: 0 <= k < |ls| && ls[k].IsSrc() ==> RewriteLines(ls).0[k] == ls[k]
    ensures forall k :: 0 <= k < |ls| && RewriteLines(ls).0[k] != ls[k] ==> BecameSource(ls, RewriteLines(ls).0, k)
  {
    var src, dst := Positions(ls, false), Positions(ls, true);
    PositionsOk(ls, false);
    PositionsOk(ls, true);
    AlignedSharesNothing(ls, src, dst);
    RunsToEnd(ls, src, dst, 0);
    SourceKeptIff(ls, src, dst, 0);
    hide RewriteFrom, Restores, Positions, Grown, Aligned, NoSharedRestore;
    var r := RewriteLines(ls).0;
    forall k: nat | k < |ls| && ls[k].IsSrc() ensures r[k] == ls[k] {
      var i :| 0 <= i < |src| && src[i] == k;
    }
    forall k: nat | k < |ls| && r[k] != ls[k] ensures BecameSource(ls, r, k) {
      ChangedBecameSource(ls, src, dst, k);
    }
  }

  lemma ChangedBecameSource(ls: seq<Line>, src: seq<nat>, dst: seq<nat>, k: nat)
    requires Sides(ls, src, dst) && NoSharedRestore(ls, src, dst, 0) && k < |ls|
    ensures |RewriteFrom(ls, src, dst, 0).0| == |ls|
    ensures RewriteFrom(ls, src, dst, 0).0[k] != ls[k] ==>
      exists i :: 0 <= i < |src| && i < |dst| && dst[i] == k && RewriteFrom(ls, src, dst, 0).0[k].text == ls[src[i]].text
  {
    hide RewriteFrom, SourceText;
    RewriteResult(ls, src, dst);
    var r := RewriteFrom(ls, src, dst, 0).0;
    if r[k] != ls[k] {
      assert !Untouched(src, dst, 0, k);
      var i :| 0 <= i < |dst| && i < |src| && dst[i] == k;
      UnsharedText(ls, src, dst, 0, i);
      assert Restores(ls[src[i]].text, ls[k].text);
      assert ls[k].text + [ls[src[i]].text[|ls[src[i]].text| - 1]] == ls[src[i]].text;
    }
  }

  ghost predicate BecameSource(ls: seq<Line>, r: seq<Line>, k: nat)
    requires k < |r|
  {
    var src, dst := Positions(ls, false), Positions(ls, true);
    exists i :: 0 <= i < |src| && i < |dst| && dst[i] == k && src[i] < |ls| && r[k].text == ls[src[i]].text
  }

  lemma {:induction false} RunsToEnd(ls: seq<Line>, src: seq<nat>, dst: seq<nat>, i: nat)
    requires Sides(ls, src, dst) && i <= |src| && i <= |dst|
    ensures RewriteFrom(ls, src, dst, i).1 == (|src| <= |dst|)
    decreases |src| - i
  {
    if i < |src| && i < |dst| {
      RunsToEnd(StepAt(ls, src[i], dst[i]), src, dst, i + 1);
    }
  }

  // ---------------------------------------------------------------- The whole patch set

  predicate LinesGrown(before: seq<Line>, after: seq<Line>) {
    |after| == |before| && forall k :: 0 <= k < |before| ==> Grown(before[k], after[k])
  }

  predicate ChunksGrown(before: seq<Chunk>, after: seq<Chunk>) {
    |after| == |before| && forall c :: 0 <= c < |before| ==>
      after[c] == before[c].(lines := after[c].lines) && LinesGrown(before[c].lines, after[c].lines)
  }

  predicate PatchesGrown(before: seq<Patch>, after: seq<Patch>) {
    |after| == |before| && forall p :: 0 <= p < |before| ==>
      after[p] == before[p].(chunks := after[p].chunks) && ChunksGrown(before[p].chunks, after[p].chunks)
  }

  lemma LinesShape(ls: seq<Line>)
    ensures LinesGrown(ls, RewriteLines(ls).0)
  {
    PositionsOk(ls, false);
    PositionsOk(ls, true);
    RewriteShape(ls, Positions(ls, false), Positions(ls, true), 0);
  }

  lemma ChunksGrownCons(c: Chunk, cs: seq<Chunk>, ls: seq<Line>, ds: seq<Chunk>)
    requires LinesGrown(c.lines, ls) && ChunksGrown(cs, ds)
    ensures ChunksGrown([c] + cs, [c.(lines := ls)] + ds)
  {
    hide LinesGrown;
  }

  lemma SameChunksGrown(cs: seq<Chunk>)
    ensures ChunksGrown(cs, cs)
  {
  }

  lemma {:induction false} ChunksShape(cs: seq<Chunk>)
    ensures ChunksGrown(cs, RewriteChunks(cs).0)
  {
    if cs != [] {
      hide RewriteLines, LinesGrown, ChunksGrown;
      var ls := RewriteLines(cs[0].lines).0;
      LinesShape(cs[0].lines);
      ChunksShape(cs[1..]);
      SameChunksGrown(cs[1..]);
      ChunksGrownCons(cs[0], cs[1..], ls, cs[1..]);
      ChunksGrownCons(cs[0], cs[1..], ls, RewriteChunks(cs[1..]).0);
      assert cs == [cs[0]] + cs[1..];
    } else {
      SameChunksGrown(cs);
    }
  }

  lemma {:induction false} SamePatchesGrown(ps: seq<Patch>)
    ensures PatchesGrown(ps, ps)
  {
  }

  lemma PatchesGrownCons(p: Patch, ps: seq<Patch>, q: Patch, qs: seq<Patch>)
    requires q == p.(chunks := q.chunks) && ChunksGrown(p.chunks, q.chunks) && PatchesGrown(ps, qs)
    ensures PatchesGrown([p] + ps, [q] + qs)
  {
  }

  /** Names, positions, kinds and numbers of lines never change, and no line grows by more than
      one blank. */
  lemma {:induction false} RewriteKeepsShape(ps: seq<Patch>)
    ensures PatchesGrown(ps, RewritePatches(ps))
  {
    if ps != [] {
      hide RewriteChunks, ChunksGrown, PatchesGrown;
      ChunksShape(ps[0].chunks);
      RewriteKeepsShape(ps[1..]);
      SamePatchesGrown(ps[1..]);
      var p := ps[0].(chunks := RewriteChunks(ps[0].chunks).0);
      PatchesGrownCons(ps[0], ps[1..], p, ps[1..]);
      PatchesGrownCons(ps[0], ps[1..], p, RewritePatches(ps[1..]));
      assert ps == [ps[0]] + ps[1..];
    }
  }

  // ---------------------------------------------------------------- Reading the rewritten patch set back

  /** A target line `++` sits at the index of a source line that is `++ ` when its turn comes. */
  ghost predicate HeaderAt(ls: seq<Line>, src: seq<nat>, dst: seq<nat>, j: nat)
    requires forall i :: 0 <= i < |src| ==> src[i] < |ls|
  {
    && j < |src| && j < |dst| && dst[j] < |ls|
    && ls[dst[j]] == Line(Dst, "++") && SourceText(ls, src, dst, 0, j) == "++ "
  }

  ghost predicate MakesHeader(ls: seq<Line>) {
    PositionsOk(ls, false);
    PositionsOk(ls, true);
    exists j: nat :: HeaderAt(ls, Positions(ls, false), Positions(ls, true), j)
  }

  lemma ExtendedLineOk(d: Line, s: string)
    requires LineOk(d) && d.kind != Src
    ensures LineOk(d.(text := Extended(s, d.text))) <==> !(d == Line(Dst, "++") && s == "++ ")
  {
    if Restores(s, d.text) {
      assert |s| > 3 ==> d.text[..3] == s[..3];
      assert |s| == 3 ==> d.text == s[..2];
    }
    assert "++ "[..2] == "++" && "++" + [' '] == "++ ";
  }

  /** Putting the blank back keeps the lines readable exactly when it makes no file header. */
  lemma LinesOkIff(ls: seq<Line>)
    requires LinesOk(ls)
    ensures LinesOk(RewriteLines(ls).0) <==> !MakesHeader(ls)
  {
    hide RewriteFrom, SourceText, LineOk, HeaderAt;
    var src, dst := Positions(ls, false), Positions(ls, true);
    PositionsOk(ls, false);
    PositionsOk(ls, true);
    LinesShape(ls);
    var r := RewriteLines(ls).0;
    forall j: nat | j < |src| && j < |dst| ensures LineOk(r[dst[j]]) <==> !HeaderAt(ls, src, dst, j) {
      TargetOkIff(ls, src, dst, j);
    }
    if j: nat :| HeaderAt(ls, src, dst, j) {
      HeaderInRange(ls, src, dst, j);
    } else {
      forall k: nat | k < |ls| ensures LineOk(r[k]) {
        OtherLine(ls, src, dst, k);
      }
    }
  }

  lemma HeaderInRange(ls: seq<Line>, src: seq<nat>, dst: seq<nat>, j: nat)
    requires Sides(ls, src, dst) && HeaderAt(ls, src, dst, j)
    ensures j < |src| && j < |dst| && dst[j] < |ls|
  {
  }

  lemma TargetOkIff(ls: seq<Line>, src: seq<nat>, dst: seq<nat>, j: nat)
    requires Sides(ls, src, dst) && j < |src| && j < |dst| && LineOk(ls[dst[j]]) && ls[dst[j]].kind != Src
    ensures |RewriteFrom(ls, src, dst, 0).0| == |ls|
    ensures LineOk(RewriteFrom(ls, src, dst, 0).0[dst[j]]) <==> !HeaderAt(ls, src, dst, j)
  {
    hide RewriteFrom, SourceText, Extended, LineOk;
    RewriteTarget(ls, src, dst, 0, j);
    ExtendedLineOk(ls[dst[j]], SourceText(ls, src, dst, 0, j));
  }

  /** A line is either at a target index that the pass reaches, or as it was. */
  lemma OtherLine(ls: seq<Line>, src: seq<nat>, dst: seq<nat>, k: nat)
    requires Sides(ls, src, dst) && k < |ls|
    ensures |RewriteFrom(ls, src, dst, 0).0| == |ls|
    ensures RewriteFrom(ls, src, dst, 0).0[k] == ls[k] || exists j: nat :: j < |src| && j < |dst| && dst[j] == k
  {
    hide RewriteFrom, SourceText, Extended;
    RewriteResult(ls, src, dst);
    if !Untouched(src, dst, 0, k) {
      var j: nat :| j < |src| && j < |dst| && dst[j] == k;
    }
  }

  // The index error comes where a chunk has more source than target lines; that chunk is still
  // rewritten as far as it goes, and those after it stay as they were.

  predicate RunsOut(c: Chunk) {
    CountSrc(c.lines) > CountDst(c.lines)
  }

  predicate Reaches(cs: seq<Chunk>, c: nat)
    requires c <= |cs|
  {
    forall b :: 0 <= b < c ==> !RunsOut(cs[b])
  }

  ghost predicate ChunksMakeHeader(cs: seq<Chunk>) {
    exists c :: 0 <= c < |cs| && Reaches(cs, c) && MakesHeader(cs[c].lines)
  }

  predicate ReachesPatch(ps: seq<Patch>, p: nat)
    requires p <= |ps|
  {
    forall q :: 0 <= q < p ==> Reaches(ps[q].chunks, |ps[q].chunks|)
  }

  /** Some chunk up to and including the first with more source than target lines makes one. */
  ghost predicate PatchesMakeHeader(ps: seq<Patch>) {
    exists p :: 0 <= p < |ps| && ReachesPatch(ps, p) && ChunksMakeHeader(ps[p].chunks)
  }

  lemma {:induction false} CountIsPositions(ls: seq<Line>)
    ensures CountSrc(ls) == |Positions(ls, false)| && CountDst(ls) == |Positions(ls, true)|
  {
    if ls != [] { CountIsPositions(ls[..|ls| - 1]); }
  }

  /** The index error comes exactly when there are more source than target lines. */
  lemma FailsIff(ls: seq<Line>)
    ensures RewriteLines(ls).1 <==> CountSrc(ls) <= CountDst(ls)
  {
    PositionsOk(ls, false);
    PositionsOk(ls, true);
    CountIsPositions(ls);
    RunsToEnd(ls, Positions(ls, false), Positions(ls, true), 0);
  }

  lemma {:induction false} ChunksFailIff(cs: seq<Chunk>)
    ensures RewriteChunks(cs).1 <==> Reaches(cs, |cs|)
  {
    if cs != [] {
      hide RewriteLines;
      FailsIff(cs[0].lines);
      ChunksFailIff(cs[1..]);
      ReachesCons(cs, |cs|);
    }
  }

  lemma ReachesCons(cs: seq<Chunk>, c: nat)
    requires 0 < c <= |cs|
    ensures Reaches(cs, c) <==> !RunsOut(cs[0]) && Reaches(cs[1..], c - 1)
  {
    assert forall b :: 0 < b < c ==> cs[b] == cs[1..][b - 1];
  }

  lemma ChunksMakeHeaderCons(cs: seq<Chunk>)
    requires cs != []
    ensures ChunksMakeHeader(cs) <==>
            MakesHeader(cs[0].lines) || (!RunsOut(cs[0]) && ChunksMakeHeader(cs[1..]))
  {
    hide MakesHeader, RunsOut;
    forall c: nat | 0 < c < |cs| ensures Reaches(cs, c) <==> !RunsOut(cs[0]) && Reaches(cs[1..], c - 1) {
      ReachesCons(cs, c);
    }
    if MakesHeader(cs[0].lines) { assert Reaches(cs, 0); }
    if !RunsOut(cs[0]) && ChunksMakeHeader(cs[1..]) {
      var c :| 0 <= c < |cs[1..]| && Reaches(cs[1..], c) && MakesHeader(cs[1..][c].lines);
      assert Reaches(cs, c + 1) && MakesHeader(cs[c + 1].lines);
    }
    if c :| 0 <= c < |cs| && Reaches(cs, c) && MakesHeader(cs[c].lines) {
      if c > 0 { assert Reaches(cs[1..], c - 1) && MakesHeader(cs[1..][c - 1].lines); }
    }
  }

  lemma PatchesMakeHeaderCons(ps: seq<Patch>)
    requires ps != []
    ensures PatchesMakeHeader(ps) <==>
            ChunksMakeHeader(ps[0].chunks)
            || (Reaches(ps[0].chunks, |ps[0].chunks|) && PatchesMakeHeader(ps[1..]))
  {
    hide ChunksMakeHeader, Reaches;
    assert forall q :: 0 <= q < |ps| - 1 ==> ps[1..][q] == ps[q + 1];
    if ChunksMakeHeader(ps[0].chunks) { assert ReachesPatch(ps, 0); }
    if Reaches(ps[0].chunks, |ps[0].chunks|) && PatchesMakeHeader(ps[1..]) {
      var p :| 0 <= p < |ps[1..]| && ReachesPatch(ps[1..], p) && ChunksMakeHeader(ps[1..][p].chunks);
      assert forall q :: 0 < q < p + 1 ==> ps[q] == ps[1..][q - 1];
      assert ReachesPatch(ps, p + 1) && ChunksMakeHeader(ps[p + 1].chunks);
    }
    if p :| 0 <= p < |ps| && ReachesPatch(ps, p) && ChunksMakeHeader(ps[p].chunks) {
      if p > 0 { assert ReachesPatch(ps[1..], p - 1) && ChunksMakeHeader(ps[1..][p - 1].chunks); }
    }
  }

  /** The pass rewrites each chunk up to and including the first with more source than target lines,
      and leaves all chunks after that one. */
  lemma {:induction false} ChunkResult(cs: seq<Chunk>, c: nat)
    requires c < |cs|
    ensures |RewriteChunks(cs).0| == |cs|
    ensures RewriteChunks(cs).0[c] == if Reaches(cs, c) then cs[c].(lines := RewriteLines(cs[c].lines).0) else cs[c]
  {
    hide RewriteLines, RunsOut;
    ChunksShape(cs);
    FailsIff(cs[0].lines);
    RunsOutIs(cs[0]);
    if c > 0 {
      ReachesCons(cs, c);
      ChunkResult(cs[1..], c - 1);
    }
  }

  lemma RunsOutIs(c: Chunk)
    ensures RunsOut(c) <==> CountSrc(c.lines) > CountDst(c.lines)
  {
  }

  lemma {:induction false} PatchResult(ps: seq<Patch>, p: nat)
    requires p < |ps|
    ensures |RewritePatches(ps)| == |ps|
    ensures RewritePatches(ps)[p] == if ReachesPatch(ps, p) then ps[p].(chunks := RewriteChunks(ps[p].chunks).0) else ps[p]
  {
    hide RewriteChunks, Reaches, PatchesGrown;
    RewriteLength(ps);
    ChunksFailIff(ps[0].chunks);
    if p > 0 {
      ReachesPatchCons(ps, p);
      PatchResult(ps[1..], p - 1);
    }
  }

  lemma RewriteLength(ps: seq<Patch>)
    ensures |RewritePatches(ps)| == |ps|
  {
    hide RewritePatches;
    RewriteKeepsShape(ps);
  }

  lemma ReachesPatchCons(ps: seq<Patch>, p: nat)
    requires 0 < p <= |ps|
    ensures ReachesPatch(ps, p) <==> Reaches(ps[0].chunks, |ps[0].chunks|) && ReachesPatch(ps[1..], p - 1)
  {
    hide Reaches;
    assert forall q :: 0 < q < p ==> ps[q] == ps[1..][q - 1];
    assert forall q :: 0 <= q < p - 1 ==> ps[1..][q] == ps[q + 1];
  }

  /** Over the whole patch set: names and positions stay, and which chunks are rewritten is decided
      by the numbers of source and target lines alone. */
  lemma RewriteReaches(ps: seq<Patch>, p: nat, c: nat)
    requires p < |ps| && c < |ps[p].chunks|
    ensures PatchesGrown(ps, RewritePatches(ps))
    ensures RewritePatches(ps)[p].chunks[c]
         == ps[p].chunks[c].(lines := if ReachesPatch(ps, p) && Reaches(ps[p].chunks, c)
                                      then RewriteLines(ps[p].chunks[c].lines).0 else ps[p].chunks[c].lines)
  {
    RewriteKeepsShape(ps);
    hide RewriteLines, RewriteChunks, RewritePatches;
    PatchResult(ps, p);
    ChunkResult(ps[p].chunks, c);
  }

  lemma {:induction false} ChunksOkIff(cs: seq<Chunk>)
    requires ChunksOk(cs)
    ensures ChunksOk(RewriteChunks(cs).0) <==> !ChunksMakeHeader(cs)
  {
    if cs != [] {
      hide RewriteLines, LinesOk, MakesHeader, ChunksMakeHeader, ChunksOk;
      ChunksOkCons(cs[0], cs[1..]);
      assert [cs[0]] + cs[1..] == cs;
      LinesOkIff(cs[0].lines);
      FailsIff(cs[0].lines);
      ChunksOkIff(cs[1..]);
      ChunksMakeHeaderCons(cs);
      var (ls, ok) := RewriteLines(cs[0].lines);
      ChunksOkCons(cs[0].(lines := ls), cs[1..]);
      ChunksOkCons(cs[0].(lines := ls), RewriteChunks(cs[1..]).0);
    }
  }

  lemma ChunksOkCons(c: Chunk, cs: seq<Chunk>)
    ensures ChunksOk([c] + cs) <==> LinesOk(c.lines) && ChunksOk(cs)
  {
    hide LinesOk;
    assert ([c] + cs)[0] == c;
    assert forall i :: 0 <= i < |cs| ==> ([c] + cs)[i + 1] == cs[i];
  }

  lemma FaithfulCons(p: Patch, ps: seq<Patch>)
    ensures Faithful([p] + ps) <==> '\n' !in p.src && '\n' !in p.dst && ChunksOk(p.chunks) && Faithful(ps)
  {
    hide ChunksOk;
    assert ([p] + ps)[0] == p;
    assert forall i :: 0 <= i < |ps| ==> ([p] + ps)[i + 1] == ps[i];
  }

  lemma {:induction false} FaithfulIff(ps: seq<Patch>)
    requires Faithful(ps)
    ensures Faithful(RewritePatches(ps)) <==> !PatchesMakeHeader(ps)
  {
    if ps != [] {
      hide RewriteChunks, ChunksOk, ChunksMakeHeader, PatchesMakeHeader, Faithful, Reaches;
      FaithfulCons(ps[0], ps[1..]);
      assert [ps[0]] + ps[1..] == ps;
      ChunksOkIff(ps[0].chunks);
      ChunksFailIff(ps[0].chunks);
      FaithfulIff(ps[1..]);
      PatchesMakeHeaderCons(ps);
      var (cs, ok) := RewriteChunks(ps[0].chunks);
      FaithfulCons(ps[0].(chunks := cs), ps[1..]);
      FaithfulCons(ps[0].(chunks := cs), RewritePatches(ps[1..]));
    }
  }

  lemma {:induction false} GrownIsPrintable(ps: seq<Patch>, qs: seq<Patch>)
    requires PatchesGrown(ps, qs) && Printable(ps)
    ensures Printable(qs)
  {
  }

  /** The rewritten patch set, written out, is read as what it is exactly when no chunk that the
      pass reaches has a target line `++` against a source line that is `++ ` by then; with the
      blank that line reads as a file header. */
  lemma RewrittenReadsBackIff(lines: seq<string>)
    requires Parse(lines).Some?
    ensures var ps := Parse(lines).value; var rs := RewritePatches(ps);
      Printable(rs) && (Parse(Write(rs)) == Some(rs) <==> !PatchesMakeHeader(ps))
  {
    var ps := Parse(lines).value;
    var rs := RewritePatches(ps);
    ParsedIsFine(Parser([], None), lines);
    FaithfulIff(ps);
    RewriteKeepsShape(ps);
    GrownIsPrintable(ps, rs);
    RoundTripIff(rs);
  }

  /** A target line `++` sits at the index of a source line `++ ` as they were parsed. */
  predicate FacesHeader(ls: seq<Line>) {
    var src, dst := Positions(ls, false), Positions(ls, true);
    exists j :: 0 <= j < |src| && j < |dst| && Faces(ls, src[j], dst[j])
  }

  predicate Faces(ls: seq<Line>, s: nat, d: nat) {
    s < |ls| && d < |ls| && ls[d] == Line(Dst, "++") && ls[s].text == "++ "
  }

  /** No line of both sides is due for a blank; so in particular where the common lines have the
      same index on both sides. */
  predicate Unshared(ls: seq<Line>) {
    PositionsOk(ls, false);
    PositionsOk(ls, true);
    NoSharedRestore(ls, Positions(ls, false), Positions(ls, true), 0)
  }

  lemma AlignedIsUnshared(ls: seq<Line>)
    requires Aligned(Positions(ls, false), Positions(ls, true))
    ensures Unshared(ls)
  {
    PositionsOk(ls, false);
    PositionsOk(ls, true);
    AlignedSharesNothing(ls, Positions(ls, false), Positions(ls, true));
  }

  /** In such a chunk the header can be told from the lines as parsed. */
  lemma MakesHeaderIff(ls: seq<Line>)
    requires Unshared(ls)
    ensures MakesHeader(ls) <==> FacesHeader(ls)
  {
    var src, dst := Positions(ls, false), Positions(ls, true);
    PositionsOk(ls, false);
    PositionsOk(ls, true);
    forall j: nat | j < |src| && j < |dst|
      ensures HeaderAt(ls, src, dst, j) <==> Faces(ls, src[j], dst[j])
    {
      UnsharedText(ls, src, dst, 0, j);
    }
    if FacesHeader(ls) {
      var j: nat :| j < |src| && j < |dst| && Faces(ls, src[j], dst[j]);
      assert HeaderAt(ls, src, dst, j);
    }
  }

  predicate AllUnshared(ps: seq<Patch>) {
    forall p, c :: 0 <= p < |ps| && 0 <= c < |ps[p].chunks| ==> Unshared(ps[p].chunks[c].lines)
  }

  predicate PatchesFaceHeader(ps: seq<Patch>) {
    exists p :: 0 <= p < |ps| && ReachesPatch(ps, p)
      && exists c :: 0 <= c < |ps[p].chunks| && Reaches(ps[p].chunks, c) && FacesHeader(ps[p].chunks[c].lines)
  }

  /** Then all of the condition is read off the parsed patches: some chunk, up to and including
      the first with more source than target lines, has `++` against `++ `. */
  lemma UnsharedReadsBackIff(lines: seq<string>)
    requires Parse(lines).Some? && AllUnshared(Parse(lines).value)
    ensures var ps := Parse(lines).value; var rs := RewritePatches(ps);
      Printable(rs) && (Parse(Write(rs)) == Some(rs) <==> !PatchesFaceHeader(ps))
  {
    RewrittenReadsBackIff(lines);
    var ps := Parse(lines).value;
    hide Unshared, MakesHeader, FacesHeader, Reaches, ReachesPatch, Parse, Write, RewritePatches, Printable;
    forall p, c | 0 <= p < |ps| && 0 <= c < |ps[p].chunks|
      ensures MakesHeader(ps[p].chunks[c].lines) <==> FacesHeader(ps[p].chunks[c].lines)
    {
      MakesHeaderIff(ps[p].chunks[c].lines);
    }
  }

  const PLUS_LINES := [Line(Src, "++ "), Line(Dst, "++")]
  const PLUS_PATCH := [Patch("a", "b", [Chunk(1, 1, PLUS_LINES)])]

  lemma PlusLinesOk()
    ensures LinesOk(PLUS_LINES) && LinesPrintable(PLUS_LINES)
  {
    assert PLUS_LINES[0].text[0] != '-';
    assert LineOk(PLUS_LINES[0]) && LineOk(PLUS_LINES[1]);
  }

  lemma PlusLines()
    ensures LinesOk(PLUS_LINES) && LinesPrintable(PLUS_LINES)
    ensures MakesHeader(PLUS_LINES)
  {
    var ls := PLUS_LINES;
    PlusLinesOk();
    OneForOne("++ ", "++");
    hide Positions, LineOk, SourceText;
    SourceTextNow(ls, [0], [1], 0);
    assert HeaderAt(ls, [0], [1], 0);
  }

  /** Such a patch set exists: a chunk that replaces `++ ` by `++`. */
  lemma RewriteCanBreakAPatch()
    ensures Printable(PLUS_PATCH) && Parse(Write(PLUS_PATCH)) == Some(PLUS_PATCH)
    ensures Printable(RewritePatches(PLUS_PATCH))
    ensures Parse(Write(RewritePatches(PLUS_PATCH))) != Some(RewritePatches(PLUS_PATCH))
  {
    var ps := PLUS_PATCH;
    hide LinesOk, RewriteLines, MakesHeader, Write, Parse, LinesPrintable;
    PlusLines();
    RoundTripIff(ps);
    assert Reaches(ps[0].chunks, 0) && ReachesPatch(ps, 0);
    assert ChunksMakeHeader(ps[0].chunks);
    FaithfulIff(ps);
    RewriteKeepsShape(ps);
    GrownIsPrintable(ps, RewritePatches(ps));
    RoundTripIff(RewritePatches(ps));
  }
}
