/** The parser and the whitespace rewriting on the objects they build and change in place.

    Each object carries a ghost constant with its position in the patch set, so that two objects
    at different positions are never the same one. */
module PatchObjects {
  import opened Wrappers
  import opened PatchSet
  import opened PatchRewrite
  import opened PatchFormat

  class PatchChunkLine {
    ghost const at: (nat, nat, nat)
    var kind: Kind
    var line: string

    constructor (ghost at: (nat, nat, nat))
      ensures this.at == at && V() == Line(Unset, "")
    {
      this.at, kind, line := at, Unset, "";
    }

    function V(): Line
      reads this
    {
      Line(kind, line)
    }

    method Set(kind: Kind, line: string)
      modifies this
      ensures V() == Line(kind, line)
    {
      this.kind, this.line := kind, line;
    }

    method AppendToLine(s: string)
      modifies this
      ensures V() == Line(old(kind), old(line) + s)
    {
      line := line + s;
    }
  }

  class PatchChunk {
    ghost const at: (nat, nat)
    const srcPos: nat
    const dstPos: nat
    var lines: seq<PatchChunkLine>

    constructor (srcPos: nat, dstPos: nat, ghost at: (nat, nat))
      ensures this.at == at && this.srcPos == srcPos && this.dstPos == dstPos && lines == []
    {
      this.at, this.srcPos, this.dstPos, lines := at, srcPos, dstPos, [];
    }

    /** The chunk's value; its lines are at their places in it. */
    ghost predicate Is(v: Chunk)
      reads this, lines
    {
      && srcPos == v.srcPos && dstPos == v.dstPos && |lines| == |v.lines|
      && forall l :: 0 <= l < |lines| ==> lines[l].at == (at.0, at.1, l) && lines[l].V() == v.lines[l]
    }

    method AddLine(line: PatchChunkLine, ghost v: Chunk)
      requires Is(v) && line.at == (at.0, at.1, |lines|)
      modifies this
      ensures lines == old(lines) + [line]
      ensures Is(v.(lines := v.lines + [line.V()]))
    {
      lines := lines + [line];
    }

    /** The lines of one side; the objects, not copies. */
    method Side(dst: bool, ghost v: Chunk) returns (side: seq<PatchChunkLine>)
      requires Is(v)
      ensures var ps := Positions(v.lines, dst);
        |side| == |ps| && forall i :: 0 <= i < |ps| ==> ps[i] < |lines| && side[i] == lines[ps[i]]
    {
      side := [];
      for l := 0 to |lines|
        invariant var ps := Positions(v.lines[..l], dst);
          |side| == |ps| && forall i :: 0 <= i < |ps| ==> ps[i] < l && side[i] == lines[ps[i]]
      {
        assert v.lines[..l + 1][..l] == v.lines[..l];
        var line := lines[l];
        if (line.kind == Both) || (if dst then line.kind == Dst else line.kind == Src) {
          side := side + [line];
        }
      }
      assert v.lines[..|lines|] == v.lines;
    }
  }

  class PatchObject {
    ghost const at: nat
    var src: string
    var dst: string
    var chunks: seq<PatchChunk>

    constructor (ghost at: nat)
      ensures this.at == at && src == "" && dst == "" && chunks == []
    {
      this.at, src, dst, chunks := at, "", "", [];
    }

    ghost function Lines(): set<PatchChunkLine>
      reads this, chunks
    {
      set c, l | c in chunks && l in c.lines :: l
    }

    ghost predicate Is(v: Patch)
      reads this, chunks, Lines()
    {
      && src == v.src && dst == v.dst && |chunks| == |v.chunks|
      && forall c :: 0 <= c < |chunks| ==>
           chunks[c].at == (at, c) && (set l | l in chunks[c].lines) <= Lines() && chunks[c].Is(v.chunks[c])
    }
  }

  ghost function Chunks(ps: seq<PatchObject>): set<PatchChunk>
    reads ps
  {
    set p, c | p in ps && c in p.chunks :: c
  }

  ghost function Lines(ps: seq<PatchObject>): set<PatchChunkLine>
    reads ps, Chunks(ps)
  {
    set p, c, l | p in ps && c in p.chunks && l in c.lines :: l
  }

  ghost predicate Represents(ps: seq<PatchObject>, v: seq<Patch>)
    reads ps, Chunks(ps), Lines(ps)
  {
    |ps| == |v| && forall p :: 0 <= p < |ps| ==>
      ps[p].at == p && (set c | c in ps[p].chunks) <= Chunks(ps) && ps[p].Lines() <= Lines(ps) && ps[p].Is(v[p])
  }

  /** One index of the pass: the blank goes on the target object, wherever else it is listed. */
  method RewriteLine(s: PatchChunkLine, d: PatchChunkLine, ghost c: PatchChunk, ghost i: nat, ghost k: nat, ghost v: Chunk)
    requires c.Is(v) && i < |c.lines| && k < |c.lines| && s == c.lines[i] && d == c.lines[k]
    modifies d
    ensures c.Is(v.(lines := StepAt(v.lines, i, k)))
  {
    var n := |s.line|;
    if n > 0 && IsBlank(s.line[n - 1]) && s.line[..n - 1] == d.line {
      d.AppendToLine([s.line[n - 1]]);
    }
  }

  lemma ChunkLength(c: PatchChunk, v: Chunk)
    requires c.Is(v)
    ensures |c.lines| == |v.lines|
  {
  }

  /** The pass over one chunk; false when the target side runs out. */
  method RewriteChunk(c: PatchChunk, ghost v: Chunk) returns (ok: bool)
    requires c.Is(v)
    modifies c.lines
    ensures c.Is(v.(lines := RewriteLines(v.lines).0)) && ok == RewriteLines(v.lines).1
  {
    hide StepAt, Positions, PatchChunk.Is;
    PositionsOk(v.lines, false);
    PositionsOk(v.lines, true);
    ghost var src, dst := Positions(v.lines, false), Positions(v.lines, true);
    var srcSide := c.Side(false, v);
    var dstSide := c.Side(true, v);
    ChunkLength(c, v);
    ghost var ls := v.lines;
    for i := 0 to |srcSide|
      invariant |ls| == |v.lines| && c.Is(v.(lines := ls))
      invariant RewriteFrom(v.lines, src, dst, 0) == RewriteFrom(ls, src, dst, i)
    {
      if i >= |dstSide| { return false; }
      RewriteLine(srcSide[i], dstSide[i], c, src[i], dst[i], v.(lines := ls));
      StepAtLength(ls, src[i], dst[i]);
      ls := StepAt(ls, src[i], dst[i]);
    }
    return true;
  }

  lemma StepAtLength(ls: seq<Line>, s: nat, d: nat)
    requires s < |ls| && d < |ls|
    ensures |StepAt(ls, s, d)| == |ls|
  {
  }

  /** `own` holds all objects of the patch set. */
  ghost predicate Owned(ps: seq<PatchObject>, own: set<object>)
    reads own
  {
    forall p :: 0 <= p < |ps| ==> ps[p] in own && forall c :: 0 <= c < |ps[p].chunks| ==>
      ps[p].chunks[c] in own && forall l :: 0 <= l < |ps[p].chunks[c].lines| ==> ps[p].chunks[c].lines[l] in own
  }

  /** A patch one of whose chunks has a new value. */
  lemma ChunkReplaced(o: PatchObject, v: Patch, k: nat, c: Chunk)
    requires o.src == v.src && o.dst == v.dst && |o.chunks| == |v.chunks| && k < |v.chunks|
    requires forall i :: 0 <= i < |o.chunks| ==> o.chunks[i].at == (o.at, i)
    requires forall i :: 0 <= i < |o.chunks| && i != k ==> o.chunks[i].Is(v.chunks[i])
    requires o.chunks[k].Is(c)
    ensures o.Is(v.(chunks := v.chunks[k := c]))
  {
  }

  lemma PatchReplaced(ps: seq<PatchObject>, v: seq<Patch>, n: nat, p: Patch)
    requires |ps| == |v| && n < |v|
    requires forall i :: 0 <= i < |ps| ==> ps[i].at == i
    requires forall i :: 0 <= i < |ps| && i != n ==> ps[i].Is(v[i])
    requires ps[n].Is(p)
    ensures Represents(ps, v[n := p])
  {
  }

  method AddPatch(ps: seq<PatchObject>, name: string, ghost st: Parser, ghost own: set<object>)
    returns (r: seq<PatchObject>, ghost grown: set<object>)
    requires Represents(ps, st.patches) && Owned(ps, own)
    ensures Represents(r, st.AddPatch(name).patches) && Owned(r, grown)
    ensures own <= grown && fresh(grown - own) && ps <= r
  {
    var currentPatch := new PatchObject(|ps|);
    r := ps + [currentPatch];
    currentPatch.src := name;
    grown := own + {currentPatch};
    assert Represents(ps, st.patches) && Owned(ps, own);
    assert forall p :: 0 <= p < |ps| ==> r[p] == ps[p];
  }

  method SetDstOf(o: PatchObject, name: string, ghost v: Patch)
    requires o.Is(v)
    modifies o
    ensures o.Is(v.(dst := name)) && o.chunks == old(o.chunks)
  {
    o.dst := name;
    forall i | 0 <= i < |v.chunks| ensures o.chunks[i].Is(v.chunks[i]) {
      assert old(o.chunks[i].Is(v.chunks[i]));
    }
  }

  method SetDst(ps: seq<PatchObject>, name: string, ghost st: Parser, ghost own: set<object>)
    requires Represents(ps, st.patches) && Owned(ps, own) && ps != []
    modifies ps[|ps| - 1]
    ensures Represents(ps, st.SetDst(name).patches) && Owned(ps, own)
    ensures forall p :: 0 <= p < |ps| ==> ps[p].chunks == old(ps[p].chunks)
  {
    ghost var n := |ps| - 1;
    SetDstOf(ps[|ps| - 1], name, st.patches[n]);
    forall i | 0 <= i < n ensures ps[i].Is(st.patches[i]) && ps[i].chunks == old(ps[i].chunks) {
      assert old(ps[i].Is(st.patches[i]));
    }
    PatchReplaced(ps, st.patches, n, st.SetDst(name).patches[n]);
  }

  method AddChunkTo(o: PatchObject, srcPos: nat, dstPos: nat, ghost v: Patch) returns (chunk: PatchChunk)
    requires o.Is(v)
    modifies o
    ensures fresh(chunk) && o.chunks == old(o.chunks) + [chunk] && chunk.lines == []
    ensures o.Is(v.(chunks := v.chunks + [Chunk(srcPos, dstPos, [])]))
  {
    chunk := new PatchChunk(srcPos, dstPos, (o.at, |o.chunks|));
    o.chunks := o.chunks + [chunk];
    forall i | 0 <= i < |v.chunks| ensures o.chunks[i].Is(v.chunks[i]) {
      assert old(o.chunks[i].Is(v.chunks[i]));
    }
  }

  method AddChunk(ps: seq<PatchObject>, srcPos: nat, dstPos: nat, ghost st: Parser, ghost own: set<object>)
    returns (chunk: PatchChunk)
    requires Represents(ps, st.patches) && Owned(ps, own) && ps != []
    modifies ps[|ps| - 1]
    ensures Represents(ps, st.AddChunk(srcPos, dstPos).patches)
    ensures fresh(chunk) && Owned(ps, own + {chunk})
    ensures ps[|ps| - 1].chunks == old(ps[|ps| - 1].chunks) + [chunk]
    ensures forall p :: 0 <= p < |ps| - 1 ==> ps[p].chunks == old(ps[p].chunks)
  {
    ghost var n := |ps| - 1;
    chunk := AddChunkTo(ps[|ps| - 1], srcPos, dstPos, st.patches[n]);
    forall i | 0 <= i < n ensures ps[i].Is(st.patches[i]) && ps[i].chunks == old(ps[i].chunks) {
      assert old(ps[i].Is(st.patches[i]));
    }
    PatchReplaced(ps, st.patches, n, st.AddChunk(srcPos, dstPos).patches[n]);
  }

  method AddLineTo(ghost o: PatchObject, chunk: PatchChunk, kind: Kind, text: string, ghost v: Patch, ghost k: nat)
    returns (ghost l: PatchChunkLine)
    requires o.Is(v) && k < |o.chunks| && chunk == o.chunks[k]
    modifies chunk
    ensures fresh(l) && chunk.lines == old(chunk.lines) + [l]
    ensures o.Is(v.(chunks := v.chunks[k := v.chunks[k].(lines := v.chunks[k].lines + [Line(kind, text)])]))
  {
    ghost var c := v.chunks[k];
    var line := new PatchChunkLine((o.at, k, |chunk.lines|));
    line.Set(kind, text);
    chunk.AddLine(line, c);
    l := line;
    forall i | 0 <= i < |v.chunks| && i != k ensures o.chunks[i].Is(v.chunks[i]) {
      assert old(o.chunks[i].Is(v.chunks[i]));
    }
    ChunkReplaced(o, v, k, c.(lines := c.lines + [Line(kind, text)]));
  }

  method AddLine(ps: seq<PatchObject>, chunk: PatchChunk, kind: Kind, text: string,
                 ghost st: Parser, ghost own: set<object>)
    returns (ghost grown: set<object>)
    requires st.Ok() && st.chunk.Some? && Represents(ps, st.patches) && Owned(ps, own)
    requires chunk == ps[st.chunk.value.0].chunks[st.chunk.value.1]
    modifies chunk
    ensures Represents(ps, st.AddLines([Line(kind, text)]).patches)
    ensures own <= grown && fresh(grown - own) && Owned(ps, grown)
  {
    ghost var (n, k) := st.chunk.value;
    ghost var l := AddLineTo(ps[n], chunk, kind, text, st.patches[n], k);
    grown := own + {l};
    forall i | 0 <= i < |ps| && i != n ensures ps[i].Is(st.patches[i]) {
      assert old(ps[i].Is(st.patches[i]));
    }
    PatchReplaced(ps, st.patches, n, st.AddLines([Line(kind, text)]).patches[n]);
  }

  /** The chunk that lines are added to. */
  ghost predicate IsCurrent(ps: seq<PatchObject>, current: PatchChunk?, at: Option<(nat, nat)>)
    reads ps
  {
    && (current == null <==> at.None?)
    && (current != null ==> at.value.0 < |ps| && at.value.1 < |ps[at.value.0].chunks|
                            && current == ps[at.value.0].chunks[at.value.1])
  }

  /** The state of the parser's loop. */
  ghost predicate Linked(ps: seq<PatchObject>, current: PatchChunk?, st: Parser, own: set<object>)
    reads own, ps, Chunks(ps), Lines(ps)
  {
    st.Ok() && Represents(ps, st.patches) && Owned(ps, own) && IsCurrent(ps, current, st.chunk)
  }

  lemma LinkedFacts(ps: seq<PatchObject>, current: PatchChunk?, st: Parser, own: set<object>)
    requires Linked(ps, current, st, own)
    ensures |ps| == |st.patches| && (ps != [] ==> ps[|ps| - 1] in own && |ps[|ps| - 1].chunks| == |st.patches[|ps| - 1].chunks|)
    ensures current != null ==> current in own
  {
  }

  method ParseLine(line: string, ps: seq<PatchObject>, current: PatchChunk?, ghost st: Parser, ghost own: set<object>)
    returns (ok: bool, patchset: seq<PatchObject>, currentChunk: PatchChunk?, ghost grown: set<object>)
    requires Linked(ps, current, st, own)
    modifies own
    ensures ok == Step(st, line).Some?
    ensures ok ==> Linked(patchset, currentChunk, Step(st, line).value, grown)
    ensures own <= grown && fresh(grown - own)
  {
    hide Classify, Represents, Owned;
    LinkedFacts(ps, current, st, own);
    ok, patchset, currentChunk, grown := true, ps, current, own;
    match Classify(line)
    case SrcFile(name) =>
      patchset, grown := AddPatch(ps, name, st, own);
    case DstFile(name) =>
      if ps == [] { ok := false; } else { SetDst(ps, name, st, own); }
    case ChunkStart(srcPos, dstPos) =>
      if ps == [] {
        ok := false;
      } else {
        currentChunk := AddChunk(ps, srcPos, dstPos, st, own);
        grown := own + {currentChunk};
      }
    case Body(l) =>
      if current == null { ok := false; } else { grown := AddLine(ps, current, l.kind, l.text, st, own); }
    case Bad => ok := false;
  }

  /** The parser on a list of lines; not ok is its exception. */
  method ParsePatchset(generator: seq<string>)
    returns (ok: bool, patchset: seq<PatchObject>, ghost own: set<object>)
    ensures ok == Parse(generator).Some?
    ensures ok ==> Represents(patchset, Parse(generator).value) && Owned(patchset, own) && fresh(own)
  {
    ok, patchset, own := true, [], {};
    var currentChunk: PatchChunk? := null;
    ghost var st := Parser([], None);
    for i := 0 to |generator|
      invariant ok && Linked(patchset, currentChunk, st, own) && fresh(own)
      invariant ParseFrom(Parser([], None), generator) == ParseFrom(st, generator[i..])
    {
      hide Linked, Step;
      assert generator[i..][1..] == generator[i + 1..];
      ghost var next := Step(st, generator[i]);
      ok, patchset, currentChunk, own := ParseLine(generator[i], patchset, currentChunk, st, own);
      if !ok { return; }
      st := next.value;
    }
    assert generator[|generator|..] == [];
  }

  lemma Reassociate<T>(a: seq<T>, x: T, b: seq<T>)
    ensures a + ([x] + b) == a + [x] + b
  {
  }

  lemma RewriteChunksStep(all: seq<Chunk>, done: seq<Chunk>, rest: seq<Chunk>)
    requires rest != []
    requires RewriteChunks(all) == (done + RewriteChunks(rest).0, RewriteChunks(rest).1)
    ensures var (ls, ok) := RewriteLines(rest[0].lines); var after := done + [rest[0].(lines := ls)];
      if ok then RewriteChunks(all) == (after + RewriteChunks(rest[1..]).0, RewriteChunks(rest[1..]).1)
      else RewriteChunks(all) == (after + rest[1..], false)
  {
    hide RewriteLines;
    var c := rest[0].(lines := RewriteLines(rest[0].lines).0);
    Reassociate(done, c, RewriteChunks(rest[1..]).0);
    Reassociate(done, c, rest[1..]);
  }

  lemma PatchLength(o: PatchObject, v: Patch)
    requires o.Is(v)
    ensures |o.chunks| == |v.chunks| && forall c :: 0 <= c < |o.chunks| ==> (set l | l in o.chunks[c].lines) <= o.Lines()
  {
  }

  method RewriteChunkOf(o: PatchObject, c: nat, ghost v: Patch) returns (ok: bool)
    requires o.Is(v) && c < |o.chunks|
    modifies o.chunks[c].lines
    ensures o.Is(v.(chunks := v.chunks[c := v.chunks[c].(lines := RewriteLines(v.chunks[c].lines).0)]))
    ensures ok == RewriteLines(v.chunks[c].lines).1
  {
    ok := RewriteChunk(o.chunks[c], v.chunks[c]);
    forall i | 0 <= i < |v.chunks| && i != c ensures o.chunks[i].Is(v.chunks[i]) {
      assert old(o.chunks[i].Is(v.chunks[i]));
    }
    ChunkReplaced(o, v, c, v.chunks[c].(lines := RewriteLines(v.chunks[c].lines).0));
  }

  /** The pass over the chunks of one patch, up to the first that fails. */
  method RewritePatch(o: PatchObject, ghost v: Patch) returns (ok: bool)
    requires o.Is(v)
    modifies o.Lines()
    ensures o.Is(v.(chunks := RewriteChunks(v.chunks).0)) && ok == RewriteChunks(v.chunks).1
  {
    hide RewriteLines, PatchChunk.Is, PatchObject.Is;
    PatchLength(o, v);
    ghost var done: seq<Chunk>, rest: seq<Chunk> := [], v.chunks;
    assert [] + v.chunks == v.chunks && [] + RewriteChunks(v.chunks).0 == RewriteChunks(v.chunks).0;
    for c := 0 to |o.chunks|
      invariant |done| == c && |done + rest| == |v.chunks| && o.Is(v.(chunks := done + rest))
      invariant RewriteChunks(v.chunks) == (done + RewriteChunks(rest).0, RewriteChunks(rest).1)
    {
      RewriteChunksStep(v.chunks, done, rest);
      PatchLength(o, v.(chunks := done + rest));
      ok := RewriteChunkOf(o, c, v.(chunks := done + rest));
      ghost var after := rest[0].(lines := RewriteLines(rest[0].lines).0);
      assert (done + rest)[c := after] == done + [after] + rest[1..];
      done, rest := done + [after], rest[1..];
      if !ok { return; }
    }
    ok := true;
  }

  lemma RewritePatchesStep(all: seq<Patch>, done: seq<Patch>, rest: seq<Patch>)
    requires rest != [] && RewritePatches(all) == done + RewritePatches(rest)
    ensures var (cs, ok) := RewriteChunks(rest[0].chunks); var after := done + [rest[0].(chunks := cs)];
      RewritePatches(all) == after + if ok then RewritePatches(rest[1..]) else rest[1..]
  {
  }

  lemma PatchSetLength(ps: seq<PatchObject>, v: seq<Patch>)
    requires Represents(ps, v)
    ensures |ps| == |v| && forall p :: 0 <= p < |ps| ==> ps[p].Lines() <= Lines(ps)
  {
  }

  method RewritePatchOf(ps: seq<PatchObject>, p: nat, ghost v: seq<Patch>) returns (ok: bool)
    requires Represents(ps, v) && p < |ps|
    modifies ps[p].Lines()
    ensures Represents(ps, v[p := v[p].(chunks := RewriteChunks(v[p].chunks).0)])
    ensures ok == RewriteChunks(v[p].chunks).1
  {
    ok := RewritePatch(ps[p], v[p]);
    forall i | 0 <= i < |ps| && i != p ensures ps[i].Is(v[i]) {
      assert old(ps[i].Is(v[i]));
    }
    PatchReplaced(ps, v, p, v[p].(chunks := RewriteChunks(v[p].chunks).0));
  }

  /** The pass over the whole patch set, in place; it ends at the first chunk that fails. */
  method RewritePatchset(ps: seq<PatchObject>, ghost v: seq<Patch>)
    requires Represents(ps, v)
    modifies Lines(ps)
    ensures Represents(ps, RewritePatches(v))
  {
    hide RewriteChunks, RewritePatches, Represents;
    PatchSetLength(ps, v);
    ghost var done: seq<Patch>, rest: seq<Patch> := [], v;
    assert [] + v == v && [] + RewritePatches(v) == RewritePatches(v);
    for p := 0 to |ps|
      invariant |done| == p && |done + rest| == |v| && Represents(ps, done + rest)
      invariant RewritePatches(v) == done + RewritePatches(rest)
    {
      RewritePatchesStep(v, done, rest);
      PatchSetLength(ps, done + rest);
      var ok := RewritePatchOf(ps, p, done + rest);
      ghost var after := rest[0].(chunks := RewriteChunks(rest[0].chunks).0);
      assert (done + rest)[p := after] == done + [after] + rest[1..];
      done, rest := done + [after], rest[1..];
      if !ok { return; }
    }
    NoPatches();
    assert done + rest == done + RewritePatches(rest);
  }

  lemma NoPatches()
    ensures RewritePatches([]) == []
  {
  }

  /** Parse a diff and put single trailing blanks back; not ok is the parser's exception. */
  method RemoveTrailingWhitespaceChanges(generator: seq<string>) returns (ok: bool, patchset: seq<PatchObject>)
    ensures ok == Parse(generator).Some?
    ensures ok ==> Represents(patchset, RewritePatches(Parse(generator).value))
  {
    ghost var own;
    ok, patchset, own := ParsePatchset(generator);
    if ok {
      assert Lines(patchset) <= own;
      RewritePatchset(patchset, Parse(generator).value);
    }
  }

  /** A line's text as written; a line whose kind was never set raises the exception. */
  method WriteLine(l: PatchChunkLine, f: seq<string>) returns (ok: bool, g: seq<string>)
    ensures ok == (l.kind != Unset)
    ensures ok ==> g == f + [Mark(l.kind) + l.line + "\n"]
  {
    ok, g := true, f;
    match l.kind
    case Src => g := f + ["-" + l.line + "\n"];
    case Dst => g := f + ["+" + l.line + "\n"];
    case Both => g := f + [" " + l.line + "\n"];
    case Unset => ok := false;
  }

  lemma LineAt(c: PatchChunk, v: Chunk, l: nat)
    requires c.Is(v) && l < |c.lines|
    ensures |c.lines| == |v.lines| && c.lines[l].V() == v.lines[l]
  {
  }

  lemma WriteLinesSnoc(ls: seq<Line>, l: nat)
    requires l < |ls|
    ensures LinesPrintable(ls[..l + 1]) <==> LinesPrintable(ls[..l]) && ls[l].kind != Unset
    ensures LinesPrintable(ls[..l + 1]) ==>
      WriteLines(ls[..l + 1]) == WriteLines(ls[..l]) + [Mark(ls[l].kind) + ls[l].text + "\n"]
    ensures !LinesPrintable(ls[..l + 1]) ==> !LinesPrintable(ls)
  {
    assert ls[..l + 1][..l] == ls[..l] && ls[..l + 1][l] == ls[l];
  }

  method WriteChunk(c: PatchChunk, f: seq<string>, ghost v: Chunk) returns (ok: bool, g: seq<string>)
    requires c.Is(v)
    ensures ok == LinesPrintable(v.lines)
    ensures ok ==> g == f + ([HeaderLine(v)] + WriteLines(v.lines))
    ensures ok ==> |g| == |f| + 1 + |v.lines| && ChunkAt(g, |f|, v)
  {
    hide PatchChunk.Is, LinesPrintable, WriteLines, HeaderText, Positions, ChunkAt;
    ChunkLength(c, v);
    CountIsPositions(v.lines);
    NoLinesWritten();
    assert v.lines[..0] == [];
    var srcSide := c.Side(false, v);
    var dstSide := c.Side(true, v);
    ok, g := true, f + [HeaderText(c.srcPos, |srcSide|, c.dstPos, |dstSide|)];
    ghost var head := g;
    ChunkHeader(c, v);
    for l := 0 to |c.lines|
      invariant LinesPrintable(v.lines[..l]) && g == head + WriteLines(v.lines[..l])
    {
      LineAt(c, v, l);
      WriteLinesSnoc(v.lines, l);
      ok, g := WriteLine(c.lines[l], g);
      if !ok { return; }
    }
    assert v.lines[..|c.lines|] == v.lines;
    WrittenMarks(v.lines);
    ChunkAtEnd(f, v);
    ok := true;
  }

  lemma ChunkAtEnd(f: seq<string>, v: Chunk)
    requires LinesPrintable(v.lines)
    ensures ChunkAt(f + [HeaderLine(v)] + WriteLines(v.lines), |f|, v)
  {
    hide ChunkAt, WriteLines, HeaderLine;
    WrittenChunk(f, v, []);
    assert f + ([HeaderLine(v)] + WriteLines(v.lines)) + [] == f + [HeaderLine(v)] + WriteLines(v.lines);
  }

  lemma ChunkHeader(c: PatchChunk, v: Chunk)
    requires c.Is(v)
    ensures HeaderText(c.srcPos, CountSrc(v.lines), c.dstPos, CountDst(v.lines)) == HeaderLine(v)
  {
  }

  lemma NoLinesWritten()
    ensures LinesPrintable([]) && WriteLines([]) == []
  {
  }

  method WritePatch(o: PatchObject, f: seq<string>, ghost v: Patch) returns (ok: bool, g: seq<string>)
    requires o.Is(v)
    ensures ok == ChunksPrintable(v.chunks)
    ensures ok ==> g == f + (["--- " + v.src + "\n", "+++ " + v.dst + "\n"] + WriteChunks(v.chunks))
  {
    hide LinesPrintable, HeaderLine, WriteLines, PatchChunk.Is;
    ghost var names := ["--- " + v.src + "\n", "+++ " + v.dst + "\n"];
    ok, g := true, f + ["--- " + o.src + "\n"] + ["+++ " + o.dst + "\n"];
    for c := 0 to |o.chunks|
      invariant ChunksPrintable(v.chunks[..c]) && g == f + (names + WriteChunks(v.chunks[..c]))
    {
      assert v.chunks[..c + 1][..c] == v.chunks[..c] && v.chunks[..c + 1][c] == v.chunks[c];
      ok, g := WriteChunk(o.chunks[c], g, v.chunks[c]);
      if !ok { return; }
    }
    assert v.chunks[..|o.chunks|] == v.chunks;
    ok := true;
  }

  /** What the objects write is what their value writes. */
  method WritePatchset(ps: seq<PatchObject>, ghost v: seq<Patch>) returns (ok: bool, g: seq<string>)
    requires Represents(ps, v)
    ensures ok == Printable(v)
    ensures ok ==> g == Write(v) && IsText(g, v)
  {
    hide ChunksPrintable, WriteChunks, PatchObject.Is, IsText;
    ok, g := true, [];
    for p := 0 to |ps|
      invariant Printable(v[..p]) && g == Write(v[..p])
    {
      assert v[..p + 1][..p] == v[..p] && v[..p + 1][p] == v[p];
      ok, g := WritePatch(ps[p], g, v[p]);
      if !ok { return; }
    }
    assert v[..|ps|] == v;
    WrittenIsText(v);
    ok := true;
  }
}
