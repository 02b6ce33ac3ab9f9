/** A text and its lines, each kept with the newline that ends it; the last may lack one. */
module TextLines {
  function ReadLines(content: string): seq<string> {
    if content == "" then []
    else
      var n := LineEnd(content);
      [content[..n]] + ReadLines(content[n..])
  }

  /** One past the first newline, or the end. */
  function LineEnd(content: string): (n: nat)
    requires content != ""
    ensures 0 < n <= |content|
  {
    if content[0] == '\n' || |content| == 1 then 1 else 1 + LineEnd(content[1..])
  }

  function Join(lines: seq<string>): string {
    if lines == [] then "" else lines[0] + Join(lines[1..])
  }

  /** Not empty, and a newline at the end only. */
  predicate IsLine(line: string) {
    line != "" && '\n' !in line[..|line| - 1]
  }

  predicate Ended(line: string) {
    line != "" && line[|line| - 1] == '\n'
  }

  predicate AreLines(lines: seq<string>) {
    && (forall i :: 0 <= i < |lines| ==> IsLine(lines[i]))
    && (forall i :: 0 <= i < |lines| - 1 ==> Ended(lines[i]))
  }

  lemma {:induction false} LineEndOf(line: string, rest: string)
    requires IsLine(line) && (rest == "" || Ended(line))
    ensures LineEnd(line + rest) == |line|
  {
    if |line| == 1 {
      assert (line + rest)[0] == line[0];
    } else {
      assert line[..|line| - 1][0] == line[0];
      assert (line + rest)[1..] == line[1..] + rest;
      assert line[1..][..|line| - 2] == line[..|line| - 1][1..];
      LineEndOf(line[1..], rest);
    }
  }

  lemma {:induction false} ReadJoined(lines: seq<string>)
    requires AreLines(lines)
    ensures ReadLines(Join(lines)) == lines
  {
    if lines != [] {
      var rest := lines[1..];
      assert forall i :: 0 <= i < |rest| ==> rest[i] == lines[i + 1];
      ReadJoined(rest);
      if rest == [] { assert Join(lines) == lines[0]; }
      LineEndOf(lines[0], Join(rest));
      assert Join(lines)[|lines[0]|..] == Join(rest);
    }
  }

  lemma {:induction false} LineEndLine(content: string)
    requires content != ""
    ensures var n := LineEnd(content); IsLine(content[..n]) && (n < |content| ==> Ended(content[..n]))
  {
    if content[0] != '\n' && |content| > 1 {
      LineEndLine(content[1..]);
      var line := content[1..][..LineEnd(content[1..])];
      assert content[..LineEnd(content)] == [content[0]] + line;
      LongerLine(content[0], line);
    }
  }

  lemma LongerLine(c: char, line: string)
    requires IsLine(line) && c != '\n'
    ensures IsLine([c] + line) && (Ended([c] + line) <==> Ended(line))
  {
    assert ([c] + line)[..|line|] == [c] + line[..|line| - 1];
  }

  lemma {:induction false} JoinRead(content: string)
    ensures Join(ReadLines(content)) == content && AreLines(ReadLines(content))
    ensures content != "" ==> ReadLines(content) != []
  {
    if content != "" {
      hide AreLines, IsLine, Ended;
      var n := LineEnd(content);
      LineEndLine(content);
      JoinRead(content[n..]);
      if n == |content| {
        assert content[n..] == "" && ReadLines(content) == [content[..n]];
      }
      AreLinesCons(content[..n], ReadLines(content[n..]));
      assert content == content[..n] + content[n..];
      assert ReadLines(content)[1..] == ReadLines(content[n..]);
    } else {
      NoLines();
    }
  }

  lemma AreLinesCons(line: string, lines: seq<string>)
    requires IsLine(line) && AreLines(lines) && (lines != [] ==> Ended(line))
    ensures AreLines([line] + lines)
  {
  }

  lemma NoLines()
    ensures AreLines([])
  {
  }
}
