/** The patch format by its text: what is on each line of a written patch set, which lines the
    parser knows, and what becomes of each of them. */
module PatchFormat {
  import opened Wrappers
  import opened PatchSet

  // ---------------------------------------------------------------- Decimal numbers

  function Pow10(k: nat): nat {
    if k == 0 then 1 else 10 * Pow10(k - 1)
  }

  /** The first digits weigh most. */
  lemma {:induction false} ToIntConcat(a: string, b: string)
    requires AllDigits(a) && AllDigits(b)
    ensures AllDigits(a + b) && ToInt(a + b) == ToInt(a) * Pow10(|b|) + ToInt(b)
  {
    if b == "" {
      assert a + b == a;
    } else {
      hide AllDigits;
      var init := b[..|b| - 1];
      InitDigits(b);
      assert (a + b)[..|a + b| - 1] == a + init;
      ToIntConcat(a, init);
      ConcatDigits(a, b);
      Scale(ToInt(a), Pow10(|b| - 1), ToInt(init), DigitValue(b[|b| - 1]));
    }
  }

  lemma Scale(a: nat, w: nat, b: nat, d: nat)
    ensures 10 * (a * w + b) + d == a * (10 * w) + (10 * b + d)
  {
  }

  lemma InitDigits(b: string)
    requires AllDigits(b) && b != ""
    ensures AllDigits(b[..|b| - 1]) && IsDigit(b[|b| - 1])
  {
  }

  lemma ConcatDigits(a: string, b: string)
    requires AllDigits(a) && AllDigits(b)
    ensures AllDigits(a + b)
  {
  }

  lemma ToIntDigit(d: nat)
    requires d < 10
    ensures ToInt(["0123456789"[d]]) == d
  {
    DigitRoundTrip(d);
    assert ["0123456789"[d]][..0] == "";
  }

  /** A printed number has no superfluous zero. */
  lemma {:induction false} NoLeadingZero(n: nat)
    ensures Dec(n) != "" && (|Dec(n)| > 1 ==> Dec(n)[0] != '0')
  {
    if n >= 10 { NoLeadingZero(n / 10); FirstDigit(n / 10); }
  }

  lemma {:induction false} FirstDigit(n: nat)
    requires n > 0
    ensures Dec(n) != "" && Dec(n)[0] != '0'
  {
    if n >= 10 { FirstDigit(n / 10); }
  }

  // ---------------------------------------------------------------- Chunk headers

  ghost predicate IsNumber(s: string, n: nat) {
    s != "" && AllDigits(s) && ToInt(s) == n
  }

  /** `@@ -s,n +d,m @@` and anything after it. */
  ghost predicate IsHeader(line: string, s: nat, n: nat, d: nat, m: nat) {
    exists a, b, c, e, rest :: HeaderParts(line, a, b, c, e, rest, s, n, d, m)
  }

  ghost predicate HeaderParts(line: string, a: string, b: string, c: string, e: string, rest: string,
                              s: nat, n: nat, d: nat, m: nat)
  {
    && IsNumber(a, s) && IsNumber(b, n) && IsNumber(c, d) && IsNumber(e, m)
    && line == "@@ -" + (a + "," + (b + " +" + (c + "," + (e + " @@" + rest))))
  }

  lemma FieldOfNumber(a: string, n: nat, stop: string, rest: string)
    requires IsNumber(a, n) && stop != "" && !IsDigit(stop[0])
    ensures Field(a + stop + rest, stop) == Some((n, rest))
  {
    var s := a + stop + rest;
    assert s == a + (stop + rest);
    DigitPrefixConcat(a, stop + rest);
    assert s[..|a|] == a && s[|a|..] == stop + rest && s[|a| + |stop|..] == rest;
  }

  lemma NumberOfField(s: string, stop: string) returns (a: string)
    requires Field(s, stop).Some?
    ensures IsNumber(a, Field(s, stop).value.0) && s == a + stop + Field(s, stop).value.1
  {
    var k := DigitPrefix(s);
    a := s[..k];
    assert s == s[..k] + (s[k..][..|stop|] + s[k + |stop|..]);
  }

  /** The parser takes a line for a chunk start exactly when it has the form of a header, and takes
      the first and the third number from it. */
  lemma HeaderIff(line: string, s: nat, d: nat)
    ensures Header(line) == Some((s, d)) <==> exists n, m :: IsHeader(line, s, n, d, m)
  {
    if Header(line) == Some((s, d)) {
      var n, m := HeaderFound(line);
    }
    if n, m :| IsHeader(line, s, n, d, m) {
      var a, b, c, e, rest :| HeaderParts(line, a, b, c, e, rest, s, n, d, m);
      HeaderRead(line, a, b, c, e, rest, s, n, d, m);
    }
  }

  lemma HeaderFound(line: string) returns (n: nat, m: nat)
    requires Header(line).Some?
    ensures IsHeader(line, Header(line).value.0, n, Header(line).value.1, m)
  {
    hide Field, IsNumber;
    assert line == line[..4] + line[4..];
    var x := Field(line[4..], ",").value;
    var y := Field(x.1, " +").value;
    var z := Field(y.1, ",").value;
    var w := Field(z.1, " @@").value;
    n, m := y.0, w.0;
    var a := NumberOfField(line[4..], ",");
    var b := NumberOfField(x.1, " +");
    var c := NumberOfField(y.1, ",");
    var e := NumberOfField(z.1, " @@");
    assert HeaderParts(line, a, b, c, e, w.1, x.0, n, z.0, m);
  }

  lemma HeaderRead(line: string, a: string, b: string, c: string, e: string, rest: string,
                   s: nat, n: nat, d: nat, m: nat)
    requires HeaderParts(line, a, b, c, e, rest, s, n, d, m)
    ensures Header(line) == Some((s, d))
  {
    hide Field, IsNumber;
    var afterC := e + " @@" + rest;
    var afterB := c + "," + afterC;
    var afterA := b + " +" + afterB;
    FieldOfNumber(a, s, ",", afterA);
    FieldOfNumber(b, n, " +", afterB);
    FieldOfNumber(c, d, ",", afterC);
    FieldOfNumber(e, m, " @@", rest);
    assert line[4..] == a + "," + afterA && line[..4] == "@@ -";
  }

  // ---------------------------------------------------------------- Written text

  /** The lines that start with one of two characters. */
  function Starting(lines: seq<string>, a: char, b: char): nat {
    if lines == [] then 0
    else
      var line := lines[|lines| - 1];
      Starting(lines[..|lines| - 1], a, b) + if line != "" && (line[0] == a || line[0] == b) then 1 else 0
  }

  predicate IsMarked(s: string, l: Line) {
    match l.kind
    case Src => s == "-" + l.text + "\n"
    case Dst => s == "+" + l.text + "\n"
    case Both => s == " " + l.text + "\n"
    case Unset => false
  }

  /** At line k of the text the chunk begins: its header, with both positions and with the numbers
      of the lines that follow in the chunk for either side, and then its lines. */
  ghost predicate ChunkAt(text: seq<string>, k: nat, c: Chunk) {
    var n := |c.lines|;
    && k + n < |text|
    && IsHeader(text[k], c.srcPos, Starting(text[k + 1..k + 1 + n], '-', ' '),
                c.dstPos, Starting(text[k + 1..k + 1 + n], '+', ' '))
    && forall l :: 0 <= l < n ==> IsMarked(text[k + 1 + l], c.lines[l])
  }

  lemma MarkedOne(l: Line)
    requires l.kind != Unset
    ensures var s := Mark(l.kind) + l.text + "\n";
      && IsMarked(s, l) && s != ""
      && (s[0] == '-' || s[0] == ' ' <==> l.IsSrc()) && (s[0] == '+' || s[0] == ' ' <==> l.IsDst())
  {
    assert (Mark(l.kind) + l.text + "\n")[0] == Mark(l.kind)[0];
  }

  lemma StartingSnoc(lines: seq<string>, s: string, a: char, b: char)
    requires s != ""
    ensures Starting(lines + [s], a, b) == Starting(lines, a, b) + if s[0] == a || s[0] == b then 1 else 0
  {
    assert (lines + [s])[..|lines|] == lines;
  }

  lemma {:induction false} WrittenMarks(ls: seq<Line>)
    requires LinesPrintable(ls)
    ensures |WriteLines(ls)| == |ls|
    ensures forall l :: 0 <= l < |ls| ==> IsMarked(WriteLines(ls)[l], ls[l])
  {
    hide IsMarked, Mark;
    if ls != [] {
      WrittenMarks(ls[..|ls| - 1]);
      MarkedOne(ls[|ls| - 1]);
    }
  }

  lemma {:induction false} WrittenCounts(ls: seq<Line>)
    requires LinesPrintable(ls)
    ensures Starting(WriteLines(ls), '-', ' ') == CountSrc(ls)
    ensures Starting(WriteLines(ls), '+', ' ') == CountDst(ls)
  {
    hide IsMarked, Mark, Starting;
    if ls != [] {
      var init, l := ls[..|ls| - 1], ls[|ls| - 1];
      WrittenCounts(init);
      MarkedOne(l);
      var s := Mark(l.kind) + l.text + "\n";
      StartingSnoc(WriteLines(init), s, '-', ' ');
      StartingSnoc(WriteLines(init), s, '+', ' ');
    } else {
      NoneStarting();
    }
  }

  lemma NoneStarting()
    ensures Starting([], '-', ' ') == 0 && Starting([], '+', ' ') == 0
  {
  }

  lemma WrittenHeaderForm(c: Chunk)
    ensures IsHeader(HeaderLine(c), c.srcPos, CountSrc(c.lines), c.dstPos, CountDst(c.lines))
  {
    var n, m := CountSrc(c.lines), CountDst(c.lines);
    DecRoundTrip(c.srcPos);
    DecRoundTrip(n);
    DecRoundTrip(c.dstPos);
    DecRoundTrip(m);
    hide Dec, ToInt, AllDigits;
    assert HeaderParts(HeaderLine(c), Dec(c.srcPos), Dec(n), Dec(c.dstPos), Dec(m), "\n", c.srcPos, n, c.dstPos, m);
  }

  lemma WrittenChunk(before: seq<string>, c: Chunk, after: seq<string>)
    requires LinesPrintable(c.lines)
    ensures ChunkAt(before + ([HeaderLine(c)] + WriteLines(c.lines)) + after, |before|, c)
  {
    hide IsHeader, WriteLines, HeaderLine, IsMarked, Starting, CountSrc, CountDst;
    WrittenMarks(c.lines);
    WrittenCounts(c.lines);
    WrittenHeaderForm(c);
    var k, n := |before|, |c.lines|;
    var text := before + ([HeaderLine(c)] + WriteLines(c.lines)) + after;
    assert text[k] == HeaderLine(c) && text[k + 1..k + 1 + n] == WriteLines(c.lines);
    assert forall l :: 0 <= l < n ==> text[k + 1 + l] == WriteLines(c.lines)[l];
  }

  /** The number of lines of chunks and of patches. */
  function ChunksExtent(cs: seq<Chunk>): nat {
    if cs == [] then 0 else ChunksExtent(cs[..|cs| - 1]) + 1 + |cs[|cs| - 1].lines|
  }

  function Extent(ps: seq<Patch>): nat {
    if ps == [] then 0 else Extent(ps[..|ps| - 1]) + 2 + ChunksExtent(ps[|ps| - 1].chunks)
  }

  lemma {:induction false} ChunksLength(cs: seq<Chunk>)
    requires ChunksPrintable(cs)
    ensures |WriteChunks(cs)| == ChunksExtent(cs)
  {
    if cs != [] {
      ChunksLength(cs[..|cs| - 1]);
      WrittenMarks(cs[|cs| - 1].lines);
    }
  }

  /** The text of chunk c between those before and those after it. */
  lemma {:induction false} ChunksSplit(cs: seq<Chunk>, c: nat) returns (rest: seq<string>)
    requires ChunksPrintable(cs) && c < |cs|
    ensures ChunksPrintable(cs[..c])
    ensures WriteChunks(cs) == WriteChunks(cs[..c]) + ([HeaderLine(cs[c])] + WriteLines(cs[c].lines)) + rest
    decreases |cs|
  {
    hide HeaderLine, WriteLines, LinesPrintable;
    var n := |cs| - 1;
    if c == n {
      rest := [];
    } else {
      var init := cs[..n];
      var before := ChunksSplit(init, c);
      assert init[..c] == cs[..c] && init[c] == cs[c];
      rest := before + ([HeaderLine(cs[n])] + WriteLines(cs[n].lines));
    }
  }

  lemma ChunkInside(c: Chunk, before: seq<string>, w: seq<string>, rest: seq<string>, after: seq<string>)
    requires LinesPrintable(c.lines)
    ensures ChunkAt(before + (w + ([HeaderLine(c)] + WriteLines(c.lines)) + rest) + after, |before| + |w|, c)
  {
    hide ChunkAt, HeaderLine, WriteLines;
    WrittenChunk(before + w, c, rest + after);
    Regroup(before, w, [HeaderLine(c)] + WriteLines(c.lines), rest, after);
  }

  lemma ChunkWritten(cs: seq<Chunk>, before: seq<string>, after: seq<string>, c: nat)
    requires ChunksPrintable(cs) && c < |cs|
    ensures ChunkAt(before + WriteChunks(cs) + after, |before| + ChunksExtent(cs[..c]), cs[c])
  {
    hide ChunkAt, HeaderLine, WriteLines, WriteChunks, ChunksExtent, LinesPrintable;
    var rest := ChunksSplit(cs, c);
    ChunksLength(cs[..c]);
    ChunkInside(cs[c], before, WriteChunks(cs[..c]), rest, after);
  }

  lemma Regroup<T>(a: seq<T>, b: seq<T>, c: seq<T>, d: seq<T>, e: seq<T>)
    ensures a + (b + c + d) + e == (a + b) + c + (d + e)
  {
  }

  /** At line k of the text the patch begins: its two names and then its chunks. */
  ghost predicate PatchAt(text: seq<string>, k: nat, p: Patch) {
    && k + 1 < |text| && text[k] == "--- " + p.src + "\n" && text[k + 1] == "+++ " + p.dst + "\n"
    && forall c :: 0 <= c < |p.chunks| ==> ChunkAt(text, k + 2 + ChunksExtent(p.chunks[..c]), p.chunks[c])
  }

  function Names(p: Patch): seq<string> {
    ["--- " + p.src + "\n", "+++ " + p.dst + "\n"]
  }

  lemma WrittenPatch(before: seq<string>, p: Patch, after: seq<string>)
    requires ChunksPrintable(p.chunks)
    ensures PatchAt(before + (Names(p) + WriteChunks(p.chunks)) + after, |before|, p)
  {
    hide ChunkAt, WriteChunks, ChunksPrintable;
    var text := before + (Names(p) + WriteChunks(p.chunks)) + after;
    assert text == before + Names(p) + WriteChunks(p.chunks) + after;
    assert text[|before|] == Names(p)[0] && text[|before| + 1] == Names(p)[1];
    forall c | 0 <= c < |p.chunks|
      ensures ChunkAt(text, |before| + 2 + ChunksExtent(p.chunks[..c]), p.chunks[c])
    {
      ChunkWritten(p.chunks, before + Names(p), after, c);
    }
  }

  lemma {:induction false} PatchesLength(ps: seq<Patch>)
    requires Printable(ps)
    ensures |Write(ps)| == Extent(ps)
  {
    if ps != [] {
      PatchesLength(ps[..|ps| - 1]);
      ChunksLength(ps[|ps| - 1].chunks);
    }
  }

  lemma {:induction false} PatchesSplit(ps: seq<Patch>, p: nat) returns (rest: seq<string>)
    requires Printable(ps) && p < |ps|
    ensures Printable(ps[..p])
    ensures Write(ps) == Write(ps[..p]) + (Names(ps[p]) + WriteChunks(ps[p].chunks)) + rest
    decreases |ps|
  {
    hide WriteChunks, ChunksPrintable;
    var n := |ps| - 1;
    assert Write(ps) == Write(ps[..n]) + (Names(ps[n]) + WriteChunks(ps[n].chunks));
    if p == n {
      rest := [];
    } else {
      var init := ps[..n];
      var before := PatchesSplit(init, p);
      assert init[..p] == ps[..p] && init[p] == ps[p];
      rest := before + (Names(ps[n]) + WriteChunks(ps[n].chunks));
    }
  }

  /** The text that the patches have, and no line more. */
  ghost predicate IsText(text: seq<string>, ps: seq<Patch>) {
    |text| == Extent(ps) && forall p :: 0 <= p < |ps| ==> PatchAt(text, Extent(ps[..p]), ps[p])
  }

  lemma WrittenIsText(ps: seq<Patch>)
    requires Printable(ps)
    ensures IsText(Write(ps), ps)
  {
    hide PatchAt, Write, Extent, WriteChunks, Names, ChunksPrintable;
    PatchesLength(ps);
    forall p | 0 <= p < |ps| ensures PatchAt(Write(ps), Extent(ps[..p]), ps[p]) {
      var rest := PatchesSplit(ps, p);
      PatchesLength(ps[..p]);
      WrittenPatch(Write(ps[..p]), ps[p], rest);
    }
  }

  // ---------------------------------------------------------------- Which lines the parser knows

  /** A line without newlines but perhaps a last one: what its first characters say. */
  lemma ClassifyForm(w: string, end: string)
    requires '\n' !in w && (end == "" || end == "\n")
    ensures Classify(w + end) ==
      if "--- " <= w then SrcFile(w[4..])
      else if "+++ " <= w then DstFile(w[4..])
      else if Header(w + end).Some? then ChunkStart(Header(w + end).value.0, Header(w + end).value.1)
      else if "-" <= w then Body(Line(Src, w[1..]))
      else if "+" <= w then Body(Line(Dst, w[1..]))
      else if " " <= w then Body(Line(Both, w[1..]))
      else Bad
  {
    hide Header;
    RestForm("--- ", w, end);
    RestForm("+++ ", w, end);
    RestForm("-", w, end);
    RestForm("+", w, end);
    RestForm(" ", w, end);
    hide Rest;
  }

  lemma RestForm(prefix: string, w: string, end: string)
    requires '\n' !in w && '\n' !in prefix && (end == "" || end == "\n")
    ensures Rest(prefix, w + end) == if prefix <= w then Some(w[|prefix|..]) else None
  {
    if end == "\n" {
      RestOfWritten(prefix, w);
    } else {
      assert w + end == w;
      if prefix <= w && w[|prefix|..] != "" { assert w[|prefix|..][|w| - |prefix| - 1] == w[|w| - 1]; }
    }
  }

  /** Some line before the i-th starts a patch, or a chunk. */
  ghost predicate FileBefore(lines: seq<string>, i: nat) {
    exists j :: 0 <= j < i && j < |lines| && Classify(lines[j]).SrcFile?
  }

  ghost predicate ChunkBefore(lines: seq<string>, i: nat) {
    exists j :: 0 <= j < i && j < |lines| && Classify(lines[j]).ChunkStart?
  }

  ghost predicate InPlace(lines: seq<string>, i: nat)
    requires i < |lines|
  {
    match Classify(lines[i])
    case SrcFile(_) => true
    case DstFile(_) => FileBefore(lines, i)
    case ChunkStart(_, _) => FileBefore(lines, i)
    case Body(_) => ChunkBefore(lines, i)
    case Bad => false
  }

  ghost predicate AllInPlace(lines: seq<string>) {
    forall i :: 0 <= i < |lines| ==> InPlace(lines, i)
  }

  const START := Parser([], None)

  lemma InPlaceInit(lines: seq<string>, i: nat)
    requires i < |lines| - 1
    ensures InPlace(lines[..|lines| - 1], i) <==> InPlace(lines, i)
  {
    hide Classify;
    BeforeInit(lines, i);
  }

  lemma BeforeInit(lines: seq<string>, i: nat)
    requires lines != [] && i < |lines|
    ensures FileBefore(lines[..|lines| - 1], i) <==> FileBefore(lines, i)
    ensures ChunkBefore(lines[..|lines| - 1], i) <==> ChunkBefore(lines, i)
  {
    hide Classify;
    assert forall j :: 0 <= j < |lines| - 1 ==> lines[..|lines| - 1][j] == lines[j];
  }

  /** The parser accepts exactly the inputs all of whose lines are known and come after a line of
      the kind they need. */
  lemma {:induction false} AcceptsIff(lines: seq<string>)
    ensures ParseFrom(START, lines).Some? <==> AllInPlace(lines)
    ensures ParseFrom(START, lines).Some? ==>
      && (ParseFrom(START, lines).value.patches != [] <==> FileBefore(lines, |lines|))
      && (ParseFrom(START, lines).value.chunk.Some? <==> ChunkBefore(lines, |lines|))
  {
    if lines != [] {
      hide Classify, ParseFrom, InPlace;
      var n := |lines| - 1;
      var init, line := lines[..n], lines[n];
      assert init + [line] == lines;
      AcceptsIff(init);
      forall i: nat | i < n ensures InPlace(init, i) <==> InPlace(lines, i) { InPlaceInit(lines, i); }
      if ParseFrom(START, init).Some? {
        ParseAppend(START, init, line);
        AcceptsLast(ParseFrom(START, init).value, lines);
      } else {
        ParseConcat(START, init, [line]);
      }
    } else {
      assert ParseFrom(START, lines) == Some(START);
    }
  }

  lemma AcceptsLast(st: Parser, lines: seq<string>)
    requires lines != [] && st.Ok()
    requires st.patches != [] <==> FileBefore(lines[..|lines| - 1], |lines| - 1)
    requires st.chunk.Some? <==> ChunkBefore(lines[..|lines| - 1], |lines| - 1)
    ensures var r := Step(st, lines[|lines| - 1]);
      && (r.Some? <==> InPlace(lines, |lines| - 1))
      && (r.Some? ==> (r.value.patches != [] <==> FileBefore(lines, |lines|))
                      && (r.value.chunk.Some? <==> ChunkBefore(lines, |lines|)))
  {
    hide Classify;
    BeforeInit(lines, |lines| - 1);
    var n := |lines| - 1;
    assert FileBefore(lines, |lines|) <==> FileBefore(lines, n) || Classify(lines[n]).SrcFile?;
    assert ChunkBefore(lines, |lines|) <==> ChunkBefore(lines, n) || Classify(lines[n]).ChunkStart?;
    match Classify(lines[n])
    case SrcFile(_) =>
    case DstFile(_) =>
    case ChunkStart(_, _) =>
    case Body(_) =>
    case Bad =>
  }

  // ---------------------------------------------------------------- What becomes of a line

  /** The number of patches that the lines start. */
  function Files(lines: seq<string>): nat {
    if lines == [] then 0 else Files(lines[1..]) + if Classify(lines[0]).SrcFile? then 1 else 0
  }

  /** The number of chunks that the lines start before they start a patch. */
  function Starts(lines: seq<string>): nat {
    if lines == [] || Classify(lines[0]).SrcFile? then 0
    else Starts(lines[1..]) + if Classify(lines[0]).ChunkStart? then 1 else 0
  }

  /** The last target name that the lines give before they start a patch. */
  function Target(lines: seq<string>, name: string): string {
    if lines == [] || Classify(lines[0]).SrcFile? then name
    else Target(lines[1..], if Classify(lines[0]).DstFile? then Classify(lines[0]).name else name)
  }

  /** The chunk lines before the lines start a chunk, also those after the start of a patch. */
  function Bodies(lines: seq<string>): seq<Line> {
    if lines == [] || Classify(lines[0]).ChunkStart? then []
    else (if Classify(lines[0]).Body? then [Classify(lines[0]).line] else []) + Bodies(lines[1..])
  }

  /** What the remaining lines make of patch p as it stands. */
  ghost predicate PatchGoesOn(st: Parser, fin: Parser, lines: seq<string>, p: nat) {
    p < |st.patches| && p < |fin.patches| &&
    var last := p == |st.patches| - 1;
    var before, after := st.patches[p], fin.patches[p];
    && after.src == before.src
    && after.dst == (if last then Target(lines, before.dst) else before.dst)
    && |after.chunks| == |before.chunks| + (if last then Starts(lines) else 0)
  }

  /** And of chunk c of patch p. */
  ghost predicate ChunkGoesOn(st: Parser, fin: Parser, lines: seq<string>, p: nat, c: nat) {
    && p < |st.patches| && p < |fin.patches| && c < |st.patches[p].chunks| && c < |fin.patches[p].chunks|
    && var chunk := st.patches[p].chunks[c];
      fin.patches[p].chunks[c]
      == chunk.(lines := chunk.lines + if st.chunk == Some((p, c)) then Bodies(lines) else [])
  }

  lemma StepGoesOn(st: Parser, line: string, rest: seq<string>, fin: Parser, p: nat)
    requires st.Ok() && Step(st, line).Some? && p < |st.patches|
    requires PatchGoesOn(Step(st, line).value, fin, rest, p)
    ensures PatchGoesOn(st, fin, [line] + rest, p)
  {
    hide Classify;
    var lines := [line] + rest;
    assert lines[0] == line && lines[1..] == rest;
    match Classify(line)
    case SrcFile(_) =>
    case DstFile(_) =>
    case ChunkStart(_, _) =>
    case Body(_) =>
  }

  lemma BodiesCons(line: string, rest: seq<string>)
    ensures Bodies([line] + rest)
         == if Classify(line).ChunkStart? then []
            else if Classify(line).Body? then [Classify(line).line] + Bodies(rest)
            else Bodies(rest)
  {
    assert ([line] + rest)[1..] == rest;
    assert [] + Bodies(rest) == Bodies(rest);
  }

  lemma StepChunkGoesOn(st: Parser, line: string, rest: seq<string>, fin: Parser, p: nat, c: nat)
    requires st.Ok() && Step(st, line).Some? && p < |st.patches| && c < |st.patches[p].chunks|
    requires ChunkGoesOn(Step(st, line).value, fin, rest, p, c)
    ensures ChunkGoesOn(st, fin, [line] + rest, p, c)
  {
    hide Classify, Bodies;
    BodiesCons(line, rest);
    match Classify(line)
    case SrcFile(_) =>
    case DstFile(_) =>
    case ChunkStart(_, _) =>
    case Body(l) =>
      if st.chunk == Some((p, c)) {
        var ls := st.patches[p].chunks[c].lines;
        assert ls + [l] + Bodies(rest) == ls + ([l] + Bodies(rest));
      }
  }

  lemma StepKeepsShape(st: Parser, line: string)
    requires st.Ok() && Step(st, line).Some?
    ensures var t := Step(st, line).value;
      && |t.patches| == |st.patches| + (if Classify(line).SrcFile? then 1 else 0)
      && forall p :: 0 <= p < |st.patches| ==> |t.patches[p].chunks| >= |st.patches[p].chunks|
  {
    hide Classify;
    match Classify(line)
    case SrcFile(_) =>
    case DstFile(_) =>
    case ChunkStart(_, _) =>
    case Body(_) =>
  }

  lemma {:induction false} GoesOn(st: Parser, lines: seq<string>, p: nat)
    requires st.Ok() && ParseFrom(st, lines).Some? && p < |st.patches|
    ensures var fin := ParseFrom(st, lines).value;
      && |fin.patches| == |st.patches| + Files(lines)
      && PatchGoesOn(st, fin, lines, p)
      && forall c: nat :: c < |st.patches[p].chunks| ==> ChunkGoesOn(st, fin, lines, p, c)
    decreases |lines|
  {
    if lines != [] {
      hide Step, PatchGoesOn, ChunkGoesOn, Classify;
      var line, rest := lines[0], lines[1..];
      var t, fin := Step(st, line).value, ParseFrom(st, lines).value;
      assert lines == [line] + rest;
      StepKeepsShape(st, line);
      GoesOn(t, rest, p);
      StepGoesOn(st, line, rest, fin, p);
      forall c: nat | c < |st.patches[p].chunks| ensures ChunkGoesOn(st, fin, lines, p, c) {
        StepChunkGoesOn(st, line, rest, fin, p, c);
      }
    } else {
      forall c: nat | c < |st.patches[p].chunks| ensures ChunkGoesOn(st, st, lines, p, c) {
        assert st.patches[p].chunks[c].lines + [] == st.patches[p].chunks[c].lines;
      }
    }
  }

  lemma {:induction false} FilesParsed(st: Parser, lines: seq<string>)
    requires st.Ok() && ParseFrom(st, lines).Some?
    ensures |ParseFrom(st, lines).value.patches| == |st.patches| + Files(lines)
    decreases |lines|
  {
    if lines != [] {
      hide Step, Classify;
      StepKeepsShape(st, lines[0]);
      FilesParsed(Step(st, lines[0]).value, lines[1..]);
    }
  }

  /** The parse of a prefix, then of one line, then of the rest. */
  lemma ParseAt(lines: seq<string>, i: nat)
    requires i < |lines| && Parse(lines).Some?
    ensures ParseFrom(START, lines[..i]).Some?
    ensures var st := ParseFrom(START, lines[..i]).value;
      && st.Ok() && Step(st, lines[i]).Some?
      && ParseFrom(Step(st, lines[i]).value, lines[i + 1..]).Some?
      && ParseFrom(Step(st, lines[i]).value, lines[i + 1..]).value.patches == Parse(lines).value
  {
    hide Step;
    ParseOk(START, lines[..i]);
    assert lines == lines[..i] + lines[i..] && lines[i..][0] == lines[i] && lines[i..][1..] == lines[i + 1..];
    ParseConcat(START, lines[..i], lines[i..]);
  }

  /** Each source name starts a patch; it has the last target name given and as many chunks as are
      started before the next source name. */
  lemma FileParsed(lines: seq<string>, i: nat)
    requires i < |lines| && Parse(lines).Some? && Classify(lines[i]).SrcFile?
    ensures var ps, p := Parse(lines).value, Files(lines[..i]);
      && |ps| == Files(lines) && p < |ps| && ps[p].src == Classify(lines[i]).name
      && ps[p].dst == Target(lines[i + 1..], "") && |ps[p].chunks| == Starts(lines[i + 1..])
  {
    hide Classify, ParseFrom;
    ParseAt(lines, i);
    FilesParsed(START, lines[..i]);
    FilesParsed(START, lines);
    var st := ParseFrom(START, lines[..i]).value;
    GoesOn(Step(st, lines[i]).value, lines[i + 1..], |st.patches|);
  }

  predicate IsChunk(ps: seq<Patch>, p: int, c: int, chunk: Chunk) {
    0 <= p < |ps| && 0 <= c < |ps[p].chunks| && ps[p].chunks[c] == chunk
  }

  /** Each chunk header starts a chunk of the patch that was started last, with its positions and
      with all chunk lines up to the next header. */
  lemma ChunkParsed(lines: seq<string>, i: nat)
    requires i < |lines| && Parse(lines).Some? && Classify(lines[i]).ChunkStart?
    ensures var ps, p, c := Parse(lines).value, Files(lines[..i]) - 1, Earlier(lines[..i]);
      IsChunk(ps, p, c, Chunk(Classify(lines[i]).srcPos, Classify(lines[i]).dstPos, Bodies(lines[i + 1..])))
  {
    hide Classify, ParseFrom, Bodies, Files, Earlier, PatchGoesOn;
    ParseAt(lines, i);
    FilesParsed(START, lines[..i]);
    EarlierParsed(lines[..i]);
    var st := ParseFrom(START, lines[..i]).value;
    var t, rest := Step(st, lines[i]).value, lines[i + 1..];
    var p := |st.patches| - 1;
    var c := |st.patches[p].chunks|;
    GoesOn(t, rest, p);
    assert ChunkGoesOn(t, ParseFrom(t, rest).value, rest, p, c);
    assert [] + Bodies(rest) == Bodies(rest);
  }

  /** The number of chunks started since a patch was. */
  function Earlier(lines: seq<string>): nat {
    if lines == [] || Classify(lines[|lines| - 1]).SrcFile? then 0
    else Earlier(lines[..|lines| - 1]) + if Classify(lines[|lines| - 1]).ChunkStart? then 1 else 0
  }

  lemma {:induction false} EarlierParsed(lines: seq<string>)
    requires ParseFrom(START, lines).Some?
    ensures LastHas(ParseFrom(START, lines).value, Earlier(lines))
  {
    hide ParseFrom, Step, Earlier, LastHas, Classify;
    if lines != [] {
      var n := |lines| - 1;
      var init, line := lines[..n], lines[n];
      assert init + [line] == lines;
      ParseConcat(START, init, [line]);
      ParseAppend(START, init, line);
      EarlierParsed(init);
      EarlierSnoc(init, line);
      EarlierStep(ParseFrom(START, init).value, line, Earlier(init));
    } else {
      NothingParsed();
      assert lines == [];
    }
  }

  ghost predicate LastHas(st: Parser, n: nat) {
    st.patches != [] ==> |st.patches[|st.patches| - 1].chunks| == n
  }

  lemma NothingParsed()
    ensures ParseFrom(START, []) == Some(START) && LastHas(START, 0) && Earlier([]) == 0
  {
  }

  lemma EarlierSnoc(lines: seq<string>, line: string)
    ensures Earlier(lines + [line])
         == if Classify(line).SrcFile? then 0 else Earlier(lines) + if Classify(line).ChunkStart? then 1 else 0
  {
    assert (lines + [line])[..|lines|] == lines;
  }

  lemma EarlierStep(st: Parser, line: string, n: nat)
    requires st.Ok() && Step(st, line).Some? && LastHas(st, n)
    ensures LastHas(Step(st, line).value,
                    if Classify(line).SrcFile? then 0 else n + if Classify(line).ChunkStart? then 1 else 0)
  {
    hide Classify;
    match Classify(line)
    case SrcFile(_) =>
    case DstFile(_) =>
    case ChunkStart(_, _) =>
    case Body(_) =>
  }
}
