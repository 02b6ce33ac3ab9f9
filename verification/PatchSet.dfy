/** The parser and printer for a subset of the unified diff format: patches with a source and a
    target file name, chunks with two positions, and lines marked as source, target or both. */
module PatchSet {
  import opened TextLines
  import opened Wrappers

  datatype Kind = Unset | Src | Dst | Both

  datatype Line = Line(kind: Kind, text: string)
  {
    predicate IsSrc() { kind == Src || kind == Both }
    predicate IsDst() { kind == Dst || kind == Both }
  }

  datatype Chunk = Chunk(srcPos: nat, dstPos: nat, lines: seq<Line>)

  datatype Patch = Patch(src: string, dst: string, chunks: seq<Chunk>)

  // ---------------------------------------------------------------- Decimal numbers

  const DIGITS := "0123456789"

  predicate IsDigit(c: char) { '0' <= c <= '9' }

  function DigitValue(c: char): nat
    requires IsDigit(c)
  {
    c as int - '0' as int
  }

  function Dec(n: nat): string {
    if n < 10 then [DIGITS[n]] else Dec(n / 10) + [DIGITS[n % 10]]
  }

  predicate AllDigits(s: string) {
    forall i :: 0 <= i < |s| ==> IsDigit(s[i])
  }

  function ToInt(s: string): nat
    requires AllDigits(s)
  {
    if s == "" then 0 else 10 * ToInt(s[..|s| - 1]) + DigitValue(s[|s| - 1])
  }

  lemma DigitRoundTrip(d: nat)
    requires d < 10
    ensures IsDigit(DIGITS[d]) && DigitValue(DIGITS[d]) == d
  {
  }

  lemma AddDigit(s: string, c: char)
    requires AllDigits(s) && IsDigit(c)
    ensures AllDigits(s + [c]) && ToInt(s + [c]) == 10 * ToInt(s) + DigitValue(c)
  {
    assert (s + [c])[..|s|] == s;
  }

  lemma {:induction false} DecRoundTrip(n: nat)
    ensures Dec(n) != "" && AllDigits(Dec(n)) && ToInt(Dec(n)) == n
  {
    hide ToInt, DigitValue, AllDigits, IsDigit;
    DigitRoundTrip(n % 10);
    if n < 10 {
      NoDigits();
      AddDigit("", DIGITS[n]);
      assert "" + [DIGITS[n]] == Dec(n);
    } else {
      DecRoundTrip(n / 10);
      AddDigit(Dec(n / 10), DIGITS[n % 10]);
    }
  }

  lemma NoDigits()
    ensures AllDigits("") && ToInt("") == 0
  {
  }

  /** The longest prefix of digits. */
  function DigitPrefix(s: string): (k: nat)
    ensures k <= |s| && AllDigits(s[..k])
  {
    if s != "" && IsDigit(s[0]) then 1 + DigitPrefix(s[1..]) else 0
  }

  /** Reads a number followed by the literal `stop`; yields the number and what comes after. */
  function Field(s: string, stop: string): Option<(nat, string)> {
    var k := DigitPrefix(s);
    if k > 0 && stop <= s[k..] then Some((ToInt(s[..k]), s[k + |stop|..])) else None
  }

  lemma {:induction false} DigitPrefixConcat(d: string, rest: string)
    requires AllDigits(d) && (rest == "" || !IsDigit(rest[0]))
    ensures DigitPrefix(d + rest) == |d|
  {
    if d == "" {
      assert d + rest == rest;
    } else {
      assert (d + rest)[1..] == d[1..] + rest;
      DigitPrefixConcat(d[1..], rest);
    }
  }

  lemma FieldRoundTrip(n: nat, stop: string, rest: string)
    requires stop != "" && !IsDigit(stop[0])
    ensures Field(Dec(n) + stop + rest, stop) == Some((n, rest))
  {
    DecRoundTrip(n);
    var s := Dec(n) + stop + rest;
    assert s == Dec(n) + (stop + rest);
    DigitPrefixConcat(Dec(n), stop + rest);
    assert s[..|Dec(n)|] == Dec(n);
    assert s[|Dec(n)|..] == stop + rest;
    assert s[|Dec(n)| + |stop|..] == rest;
  }

  // ---------------------------------------------------------------- Reading one line

  datatype Token =
    | SrcFile(name: string)
    | DstFile(name: string)
    | ChunkStart(srcPos: nat, dstPos: nat)
    | Body(line: Line)
    | Bad

  /** `prefix(.*)$`: the rest of the line, which may end in one newline and holds no other. */
  function Rest(prefix: string, line: string): Option<string> {
    if prefix <= line then
      var r := line[|prefix|..];
      var body := if r != "" && r[|r| - 1] == '\n' then r[..|r| - 1] else r;
      if '\n' in body then None else Some(body)
    else None
  }

  function Header(line: string): Option<(nat, nat)> {
    if "@@ -" <= line then
      var a := Field(line[4..], ",");
      if a.None? then None else
      var b := Field(a.value.1, " +");
      if b.None? then None else
      var c := Field(b.value.1, ",");
      if c.None? then None else
      var d := Field(c.value.1, " @@");
      if d.None? then None else Some((a.value.0, c.value.0))
    else None
  }

  /** The patterns in the order in which the parser tries them. */
  function Classify(line: string): Token {
    if Rest("--- ", line).Some? then SrcFile(Rest("--- ", line).value)
    else if Rest("+++ ", line).Some? then DstFile(Rest("+++ ", line).value)
    else if Header(line).Some? then ChunkStart(Header(line).value.0, Header(line).value.1)
    else if Rest("-", line).Some? then Body(Line(Src, Rest("-", line).value))
    else if Rest("+", line).Some? then Body(Line(Dst, Rest("+", line).value))
    else if Rest(" ", line).Some? then Body(Line(Both, Rest(" ", line).value))
    else Bad
  }

  // ---------------------------------------------------------------- The parser

  /** The patches so far and where the current chunk sits.  The current patch is the last one;
      the current chunk survives the start of a new patch. */
  datatype Parser = Parser(patches: seq<Patch>, chunk: Option<(nat, nat)>)
  {
    predicate Ok() {
      chunk.Some? ==> chunk.value.0 < |patches| && chunk.value.1 < |patches[chunk.value.0].chunks|
    }

    function AddPatch(name: string): Parser {
      Parser(patches + [Patch(name, "", [])], chunk)
    }

    function SetDst(name: string): Parser
      requires patches != []
    {
      var n := |patches| - 1;
      Parser(patches[n := patches[n].(dst := name)], chunk)
    }

    function AddChunk(srcPos: nat, dstPos: nat): Parser
      requires patches != []
    {
      var n := |patches| - 1;
      var p := patches[n];
      Parser(patches[n := p.(chunks := p.chunks + [Chunk(srcPos, dstPos, [])])], Some((n, |p.chunks|)))
    }

    function AddLines(lines: seq<Line>): Parser
      requires Ok() && chunk.Some?
    {
      var (n, k) := chunk.value;
      var p := patches[n];
      var c := p.chunks[k];
      Parser(patches[n := p.(chunks := p.chunks[k := c.(lines := c.lines + lines)])], chunk)
    }
  }

  /** None is the parser's exception: a line of no known form, or one that comes before the
      patch or the chunk it belongs to. */
  function Step(st: Parser, line: string): (r: Option<Parser>)
    requires st.Ok()
    ensures r.Some? ==> r.value.Ok()
  {
    match Classify(line)
    case SrcFile(name) => Some(st.AddPatch(name))
    case DstFile(name) => if st.patches == [] then None else Some(st.SetDst(name))
    case ChunkStart(s, d) => if st.patches == [] then None else Some(st.AddChunk(s, d))
    case Body(l) => if st.chunk.None? then None else Some(st.AddLines([l]))
    case Bad => None
  }

  function ParseFrom(st: Parser, lines: seq<string>): Option<Parser>
    requires st.Ok()
    decreases |lines|
  {
    if lines == [] then Some(st)
    else
      var r := Step(st, lines[0]);
      if r.None? then None else ParseFrom(r.value, lines[1..])
  }

  function Parse(lines: seq<string>): Option<seq<Patch>> {
    var r := ParseFrom(Parser([], None), lines);
    if r.None? then None else Some(r.value.patches)
  }

  // ---------------------------------------------------------------- The printer

  function Mark(k: Kind): string
    requires k != Unset
  {
    match k case Src => "-" case Dst => "+" case Both => " "
  }

  function CountSrc(lines: seq<Line>): nat {
    if lines == [] then 0 else CountSrc(lines[..|lines| - 1]) + if lines[|lines| - 1].IsSrc() then 1 else 0
  }

  function CountDst(lines: seq<Line>): nat {
    if lines == [] then 0 else CountDst(lines[..|lines| - 1]) + if lines[|lines| - 1].IsDst() then 1 else 0
  }

  predicate LinesPrintable(ls: seq<Line>) {
    forall l :: 0 <= l < |ls| ==> ls[l].kind != Unset
  }

  predicate ChunksPrintable(cs: seq<Chunk>) {
    forall c :: 0 <= c < |cs| ==> LinesPrintable(cs[c].lines)
  }

  predicate Printable(ps: seq<Patch>) {
    forall p :: 0 <= p < |ps| ==> ChunksPrintable(ps[p].chunks)
  }

  function WriteLines(ls: seq<Line>): seq<string>
    requires LinesPrintable(ls)
  {
    if ls == [] then []
    else WriteLines(ls[..|ls| - 1]) + [Mark(ls[|ls| - 1].kind) + ls[|ls| - 1].text + "\n"]
  }

  function HeaderLine(c: Chunk): string {
    HeaderText(c.srcPos, CountSrc(c.lines), c.dstPos, CountDst(c.lines))
  }

  function HeaderText(srcPos: nat, srcLen: nat, dstPos: nat, dstLen: nat): string {
    "@@ -" + (Dec(srcPos) + "," + (Dec(srcLen) + " +" + (Dec(dstPos) + "," + (Dec(dstLen) + " @@" + "\n"))))
  }

  function WriteChunks(cs: seq<Chunk>): seq<string>
    requires ChunksPrintable(cs)
  {
    if cs == [] then []
    else
      var c := cs[|cs| - 1];
      WriteChunks(cs[..|cs| - 1]) + [HeaderLine(c)] + WriteLines(c.lines)
  }

  /** The lines written for the patches; a line whose kind was never set cannot be written. */
  function Write(ps: seq<Patch>): seq<string>
    requires Printable(ps)
  {
    if ps == [] then []
    else
      var p := ps[|ps| - 1];
      Write(ps[..|ps| - 1]) + ["--- " + p.src + "\n", "+++ " + p.dst + "\n"] + WriteChunks(p.chunks)
  }

  // ---------------------------------------------------------------- What survives the round trip

  predicate LineOk(l: Line) {
    && '\n' !in l.text
    && (l.kind == Src ==> !("-- " <= l.text))
    && (l.kind == Dst ==> !("++ " <= l.text))
  }

  predicate LinesOk(ls: seq<Line>) {
    forall l :: 0 <= l < |ls| ==> LineOk(ls[l])
  }

  predicate ChunksOk(cs: seq<Chunk>) {
    forall c :: 0 <= c < |cs| ==> LinesOk(cs[c].lines)
  }

  /** No newline in a name or text, and no marked line that reads as a file header. */
  predicate Faithful(ps: seq<Patch>) {
    forall p :: 0 <= p < |ps| ==> '\n' !in ps[p].src && '\n' !in ps[p].dst && ChunksOk(ps[p].chunks)
  }

  /** The patterns on a line that was written as w and a newline. */
  lemma RestOfWritten(prefix: string, w: string)
    requires '\n' !in prefix
    ensures Rest(prefix, w + "\n")
         == if prefix <= w && '\n' !in w[|prefix|..] then Some(w[|prefix|..]) else None
  {
    var line := w + "\n";
    if |prefix| <= |w| {
      assert line[..|prefix|] == w[..|prefix|];
      assert line[|prefix|..] == w[|prefix|..] + "\n";
    } else if |prefix| == |w| + 1 {
      assert prefix[|w|] != line[|w|];
    }
  }

  lemma ClassifyWritten(w: string)
    requires w != "" && w[0] != '@'
    ensures Classify(w + "\n") ==
      if '\n' in w then Bad
      else if "--- " <= w then SrcFile(w[4..])
      else if "+++ " <= w then DstFile(w[4..])
      else if w[0] == '-' then Body(Line(Src, w[1..]))
      else if w[0] == '+' then Body(Line(Dst, w[1..]))
      else if w[0] == ' ' then Body(Line(Both, w[1..]))
      else Bad
  {
    RestOfWritten("--- ", w);
    RestOfWritten("+++ ", w);
    RestOfWritten("-", w);
    RestOfWritten("+", w);
    RestOfWritten(" ", w);
    assert (w + "\n")[0] == w[0];
    assert Header(w + "\n") == None;
    hide Rest, Header;
    if '\n' in w {
      var i :| 0 <= i < |w| && w[i] == '\n';
      forall prefix: string | prefix in {"--- ", "+++ ", "-", "+", " "} && prefix <= w ensures '\n' in w[|prefix|..] {
        assert prefix == w[..|prefix|];
        assert w[|prefix|..][i - |prefix|] == '\n';
      }
    }
  }

  lemma WrittenNames(name: string)
    ensures Classify("--- " + name + "\n") == if '\n' in name then Bad else SrcFile(name)
    ensures Classify("+++ " + name + "\n") == if '\n' in name then Bad else DstFile(name)
  {
    hide Classify;
    ClassifyWritten("--- " + name);
    ClassifyWritten("+++ " + name);
    assert ("--- " + name)[4..] == name && ("+++ " + name)[4..] == name;
  }

  /** A written line reads back as itself exactly when it is fit for it, and otherwise never as
      a line of a chunk. */
  lemma WrittenLine(l: Line)
    requires l.kind != Unset
    ensures var t := Classify(Mark(l.kind) + l.text + "\n"); if LineOk(l) then t == Body(l) else !t.Body?
  {
    hide Classify;
    var w := Mark(l.kind) + l.text;
    ClassifyWritten(w);
    assert w[0] == Mark(l.kind)[0] && w[1..] == l.text;
    assert '\n' in w <==> '\n' in l.text;
    assert "--- " <= w <==> l.kind == Src && "-- " <= l.text by { PrefixAfterMark('-', "-- ", w); }
    assert "+++ " <= w <==> l.kind == Dst && "++ " <= l.text by { PrefixAfterMark('+', "++ ", w); }
  }

  lemma PrefixAfterMark(c: char, prefix: string, w: string)
    requires w != ""
    ensures [c] + prefix <= w <==> w[0] == c && prefix <= w[1..]
  {
  }

  lemma WrittenHeader(c: Chunk)
    ensures Classify(HeaderLine(c)) == ChunkStart(c.srcPos, c.dstPos)
  {
    HeaderFields(c.srcPos, CountSrc(c.lines), c.dstPos, CountDst(c.lines));
    var line := HeaderLine(c);
    assert line[0] == '@';
    assert Rest("--- ", line) == Rest("+++ ", line) == None;
  }

  lemma HeaderFields(a: nat, b: nat, c: nat, d: nat)
    ensures Header(HeaderText(a, b, c, d)) == Some((a, c))
  {
    var afterC := Dec(d) + " @@" + "\n";
    var afterB := Dec(c) + "," + afterC;
    var afterA := Dec(b) + " +" + afterB;
    FieldRoundTrip(a, ",", afterA);
    FieldRoundTrip(b, " +", afterB);
    FieldRoundTrip(c, ",", afterC);
    FieldRoundTrip(d, " @@", "\n");
    hide Field, Dec;
    assert HeaderText(a, b, c, d)[4..] == Dec(a) + "," + afterA;
    assert HeaderText(a, b, c, d)[..4] == "@@ -";
  }

  // ---------------------------------------------------------------- Reading what was written

  lemma {:induction false} ParseConcat(st: Parser, a: seq<string>, b: seq<string>)
    requires st.Ok()
    ensures ParseFrom(st, a + b)
         == if ParseFrom(st, a).None? then None
            else (assert ParseFrom(st, a).value.Ok() by { ParseOk(st, a); } ParseFrom(ParseFrom(st, a).value, b))
    decreases |a|
  {
    if a == [] {
      assert a + b == b;
    } else {
      assert (a + b)[1..] == a[1..] + b;
      var r := Step(st, a[0]);
      if r.Some? { ParseConcat(r.value, a[1..], b); }
    }
  }

  lemma {:induction false} ParseOk(st: Parser, lines: seq<string>)
    requires st.Ok()
    ensures ParseFrom(st, lines).Some? ==> ParseFrom(st, lines).value.Ok()
    decreases |lines|
  {
    if lines != [] {
      var r := Step(st, lines[0]);
      if r.Some? { ParseOk(r.value, lines[1..]); }
    }
  }

  lemma ParseAppend(st: Parser, a: seq<string>, line: string)
    requires st.Ok() && ParseFrom(st, a).Some?
    ensures ParseFrom(st, a).value.Ok()
    ensures ParseFrom(st, a + [line]) == Step(ParseFrom(st, a).value, line)
  {
    ParseOk(st, a);
    ParseConcat(st, a, [line]);
    var mid := ParseFrom(st, a).value;
    assert [line][1..] == [];
    assert ParseFrom(mid, [line]) == Step(mid, line);
  }

  lemma StepLine(st: Parser, l: Line)
    requires st.Ok() && st.chunk.Some? && l.kind != Unset && LineOk(l)
    ensures Step(st, Mark(l.kind) + l.text + "\n") == Some(st.AddLines([l]))
  {
    WrittenLine(l);
  }

  lemma StepHeader(st: Parser, c: Chunk)
    requires st.Ok() && st.patches != []
    ensures Step(st, HeaderLine(c)) == Some(st.AddChunk(c.srcPos, c.dstPos))
  {
    WrittenHeader(c);
  }

  lemma AddLinesTwice(st: Parser, a: seq<Line>, b: seq<Line>)
    requires st.Ok() && st.chunk.Some?
    ensures st.AddLines(a).Ok() && st.AddLines(a).chunk == st.chunk
    ensures st.AddLines(a).AddLines(b) == st.AddLines(a + b)
  {
    var (n, k) := st.chunk.value;
    var p := st.patches[n];
    var c := p.chunks[k];
    assert c.lines + a + b == c.lines + (a + b);
    var pa := p.(chunks := p.chunks[k := c.(lines := c.lines + a)]);
    assert pa.chunks[k := c.(lines := c.lines + (a + b))] == p.chunks[k := c.(lines := c.lines + (a + b))];
  }

  lemma AddNoLines(st: Parser)
    requires st.Ok() && st.chunk.Some?
    ensures st.AddLines([]) == st
  {
    var (n, k) := st.chunk.value;
    var p := st.patches[n];
    assert p.chunks[k].lines + [] == p.chunks[k].lines;
    assert p.chunks[k := p.chunks[k]] == p.chunks;
    assert st.patches[n := p] == st.patches;
  }

  lemma {:induction false} LinesBack(st: Parser, ls: seq<Line>)
    requires st.Ok() && st.chunk.Some?
    requires LinesPrintable(ls) && LinesOk(ls)
    ensures ParseFrom(st, WriteLines(ls)) == Some(st.AddLines(ls))
  {
    hide Step, LineOk, Parser.AddLines;
    if ls == [] {
      AddNoLines(st);
    } else {
      var l := ls[|ls| - 1];
      var init := ls[..|ls| - 1];
      LinesBack(st, init);
      ParseAppend(st, WriteLines(init), Mark(l.kind) + l.text + "\n");
      AddLinesTwice(st, init, [l]);
      StepLine(st.AddLines(init), l);
      assert init + [l] == ls;
    }
  }

  function Built(ps: seq<Patch>, src: string, dst: string, current: Option<(nat, nat)>, cs: seq<Chunk>): Parser {
    Parser(ps + [Patch(src, dst, cs)], if cs == [] then current else Some((|ps|, |cs| - 1)))
  }

  lemma BuiltChunk(ps: seq<Patch>, src: string, dst: string, current: Option<(nat, nat)>, cs: seq<Chunk>, c: Chunk)
    requires Built(ps, src, dst, current, cs).Ok()
    ensures var st := Built(ps, src, dst, current, cs).AddChunk(c.srcPos, c.dstPos);
      st.Ok() && st.chunk.Some? && st.AddLines(c.lines) == Built(ps, src, dst, current, cs + [c])
  {
    assert [] + c.lines == c.lines;
    assert (cs + [Chunk(c.srcPos, c.dstPos, [])])[|cs| := c] == cs + [c];
  }

  lemma {:induction false} ChunksBack(ps: seq<Patch>, src: string, dst: string, current: Option<(nat, nat)>,
                                      cs: seq<Chunk>)
    requires Built(ps, src, dst, current, []).Ok()
    requires ChunksPrintable(cs) && ChunksOk(cs)
    ensures ParseFrom(Built(ps, src, dst, current, []), WriteChunks(cs)) == Some(Built(ps, src, dst, current, cs))
    ensures Built(ps, src, dst, current, cs).Ok()
  {
    if cs != [] {
      hide Step, LineOk, ParseFrom;
      var start := Built(ps, src, dst, current, []);
      var init, c := cs[..|cs| - 1], cs[|cs| - 1];
      assert init + [c] == cs;
      ChunksBack(ps, src, dst, current, init);
      var mid := Built(ps, src, dst, current, init);
      ParseAppend(start, WriteChunks(init), HeaderLine(c));
      StepHeader(mid, c);
      BuiltChunk(ps, src, dst, current, init, c);
      ParseConcat(start, WriteChunks(init) + [HeaderLine(c)], WriteLines(c.lines));
      LinesBack(mid.AddChunk(c.srcPos, c.dstPos), c.lines);
    }
  }

  /** The current chunk once all of ps is read. */
  function LastChunk(ps: seq<Patch>): Option<(nat, nat)> {
    if ps == [] then None
    else
      var p := ps[|ps| - 1];
      if p.chunks == [] then LastChunk(ps[..|ps| - 1]) else Some((|ps| - 1, |p.chunks| - 1))
  }

  lemma StepNames(st: Parser, src: string, dst: string)
    requires st.Ok() && '\n' !in src && '\n' !in dst
    ensures var named := st.AddPatch(src).SetDst(dst);
      && named == Parser(st.patches + [Patch(src, dst, [])], st.chunk) && named.Ok()
      && Step(st, "--- " + src + "\n") == Some(st.AddPatch(src))
      && Step(st.AddPatch(src), "+++ " + dst + "\n") == Some(named)
  {
    WrittenNames(src);
    WrittenNames(dst);
  }

  lemma {:induction false} PatchesBack(ps: seq<Patch>)
    requires Printable(ps) && Faithful(ps)
    ensures Parser(ps, LastChunk(ps)).Ok()
    ensures ParseFrom(Parser([], None), Write(ps)) == Some(Parser(ps, LastChunk(ps)))
  {
    if ps != [] {
      hide Step, ParseFrom, ChunksPrintable, ChunksOk;
      var init, p := ps[..|ps| - 1], ps[|ps| - 1];
      assert init + [Patch(p.src, p.dst, p.chunks)] == ps;
      PatchesBack(init);
      var st := Parser(init, LastChunk(init));
      var before := Write(init);
      StepNames(st, p.src, p.dst);
      ParseAppend(Parser([], None), before, "--- " + p.src + "\n");
      ParseAppend(Parser([], None), before + ["--- " + p.src + "\n"], "+++ " + p.dst + "\n");
      var names := ["--- " + p.src + "\n", "+++ " + p.dst + "\n"];
      assert before + ["--- " + p.src + "\n"] + ["+++ " + p.dst + "\n"] == before + names;
      ParseConcat(Parser([], None), before + names, WriteChunks(p.chunks));
      ChunksBack(init, p.src, p.dst, LastChunk(init), p.chunks);
    }
  }

  // ---------------------------------------------------------------- Whatever the parser accepts

  lemma RestHasNoNewline(prefix: string, line: string)
    ensures Rest(prefix, line).Some? ==> '\n' !in Rest(prefix, line).value
  {
  }

  lemma ClassifiedIsFaithful(line: string)
    ensures match Classify(line)
      case SrcFile(name) => '\n' !in name
      case DstFile(name) => '\n' !in name
      case Body(l) => LineOk(l) && l.kind != Unset
      case _ => true
  {
    RestHasNoNewline("--- ", line);
    RestHasNoNewline("+++ ", line);
    RestHasNoNewline("-", line);
    RestHasNoNewline("+", line);
    RestHasNoNewline(" ", line);
    hide Header, Rest;
    match Classify(line)
    case Body(l) =>
      if l.kind == Src && "-- " <= l.text { NotAHeader('-', "-- ", "--- ", line); }
      if l.kind == Dst && "++ " <= l.text { NotAHeader('+', "++ ", "+++ ", line); }
    case _ =>
  }

  /** A line whose text starts with the rest of a file header mark matches that header. */
  lemma NotAHeader(c: char, mark: string, header: string, line: string)
    requires header == [c] + mark
    requires Rest([c], line).Some? && mark <= Rest([c], line).value && '\n' !in mark
    ensures Rest(header, line).Some?
  {
  }

  ghost predicate Fine(ps: seq<Patch>) {
    Faithful(ps) && Printable(ps)
  }

  lemma AddLinesFine(st: Parser, l: Line)
    requires st.Ok() && st.chunk.Some? && Fine(st.patches) && LineOk(l) && l.kind != Unset
    ensures Fine(st.AddLines([l]).patches)
  {
  }

  lemma StepFine(st: Parser, line: string)
    requires st.Ok() && Step(st, line).Some? && Fine(st.patches)
    ensures Fine(Step(st, line).value.patches)
  {
    hide Classify, LineOk, Parser.AddLines;
    ClassifiedIsFaithful(line);
    match Classify(line)
    case Body(l) => AddLinesFine(st, l);
    case _ =>
  }

  lemma {:induction false} ParsedIsFine(st: Parser, lines: seq<string>)
    requires st.Ok() && ParseFrom(st, lines).Some? && Fine(st.patches)
    ensures Fine(ParseFrom(st, lines).value.patches)
    decreases |lines|
  {
    if lines != [] {
      StepFine(st, lines[0]);
      ParsedIsFine(Step(st, lines[0]).value, lines[1..]);
    }
  }

  // ---------------------------------------------------------------- The round trip

  /** Reading back what was written gives the same patches exactly when no name or text holds a
      newline and no marked line reads as a file header. */
  lemma RoundTripIff(ps: seq<Patch>)
    requires Printable(ps)
    ensures Parse(Write(ps)) == Some(ps) <==> Faithful(ps)
  {
    if Faithful(ps) { PatchesBack(ps); }
    if Parse(Write(ps)) == Some(ps) { ParsedIsFine(Parser([], None), Write(ps)); }
  }

  ghost predicate EndedLines(lines: seq<string>) {
    forall i :: 0 <= i < |lines| ==> IsLine(lines[i]) && Ended(lines[i])
  }

  lemma EndedLine(s: string)
    requires '\n' !in s
    ensures IsLine(s + "\n") && Ended(s + "\n")
  {
  }

  lemma {:induction false} DecNoNewline(n: nat)
    ensures '\n' !in Dec(n)
  {
    DecRoundTrip(n);
  }

  lemma {:induction false} WrittenLinesEnd(ls: seq<Line>)
    requires LinesPrintable(ls) && LinesOk(ls)
    ensures EndedLines(WriteLines(ls))
  {
    if ls != [] {
      var l := ls[|ls| - 1];
      WrittenLinesEnd(ls[..|ls| - 1]);
      EndedLine(Mark(l.kind) + l.text);
    }
  }

  lemma HeaderEnds(c: Chunk)
    ensures IsLine(HeaderLine(c)) && Ended(HeaderLine(c))
  {
    var a, b, d, e := c.srcPos, CountSrc(c.lines), c.dstPos, CountDst(c.lines);
    DecNoNewline(a);
    DecNoNewline(b);
    DecNoNewline(d);
    DecNoNewline(e);
    var s := "@@ -" + (Dec(a) + "," + (Dec(b) + " +" + (Dec(d) + "," + (Dec(e) + " @@"))));
    hide Dec, CountSrc, CountDst;
    assert HeaderLine(c) == s + "\n";
    EndedLine(s);
  }

  lemma {:induction false} WrittenChunksEnd(cs: seq<Chunk>)
    requires ChunksPrintable(cs) && ChunksOk(cs)
    ensures EndedLines(WriteChunks(cs))
  {
    if cs != [] {
      var c := cs[|cs| - 1];
      WrittenChunksEnd(cs[..|cs| - 1]);
      HeaderEnds(c);
      WrittenLinesEnd(c.lines);
    }
  }

  lemma {:induction false} WrittenEnds(ps: seq<Patch>)
    requires Printable(ps) && Faithful(ps)
    ensures EndedLines(Write(ps))
  {
    if ps != [] {
      var p := ps[|ps| - 1];
      WrittenEnds(ps[..|ps| - 1]);
      EndedLine("--- " + p.src);
      EndedLine("+++ " + p.dst);
      WrittenChunksEnd(p.chunks);
    }
  }

  /** The same through a text that is cut into lines again: a newline inside a name or text then
      makes other lines than were written, which never read as the same patches. */
  lemma TextRoundTripIff(ps: seq<Patch>)
    requires Printable(ps)
    ensures Parse(ReadLines(Join(Write(ps)))) == Some(ps) <==> Faithful(ps)
  {
    if Faithful(ps) {
      WrittenEnds(ps);
      ReadJoined(Write(ps));
      RoundTripIff(ps);
    }
    if Parse(ReadLines(Join(Write(ps)))) == Some(ps) {
      ParsedIsFine(Parser([], None), ReadLines(Join(Write(ps))));
    }
  }

  /** A parsed patch set survives being written and read again, whatever the input looked like:
      stale counts, text after the header, lines that belong to an earlier patch. */
  lemma ReparseIsStable(lines: seq<string>)
    requires Parse(lines).Some?
    ensures var ps := Parse(lines).value; Printable(ps) && Parse(Write(ps)) == Some(ps)
  {
    ParsedIsFine(Parser([], None), lines);
    RoundTripIff(Parse(lines).value);
  }
}
