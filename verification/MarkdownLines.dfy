/** The lines of a text, and what trimming leaves of one. */
module MarkdownLines {
  import opened Seqs
  import opened Strings
  import opened MarkdownNormalizer

  // ---- Line ends ----

  function Uniform(text: string): string { ReplaceCr(ReplaceCrLf(text)) }

  predicate IsEnd(end: string) { end == "\n" || end == "\r\n" || end == "\r" }

  /** No line contains a line end. */
  ghost predicate AreLines(lines: seq<string>) {
    forall i :: 0 <= i < |lines| ==> '\n' !in lines[i] && '\r' !in lines[i]
  }

  /** Line i + 1 follows line i behind the end `ends[i]`, which is one of the three that are in use; a
      return and the line feed after an empty line would be one end. */
  ghost predicate AreEnds(ends: seq<string>, lines: seq<string>) {
    && |ends| == |lines| - 1 && (forall i :: 0 <= i < |ends| ==> IsEnd(ends[i]))
    && forall i :: 0 < i < |ends| && lines[i] == "" && ends[i] == "\n" ==> ends[i - 1] != "\r"
  }

  function Text(lines: seq<string>, ends: seq<string>): string
    requires |ends| == |lines| - 1
  {
    if |lines| == 1 then lines[0] else lines[0] + ends[0] + Text(lines[1..], ends[1..])
  }

  lemma CharInFront(c: char, rest: string)
    requires c != '\n' && c != '\r'
    ensures Uniform([c] + rest) == [c] + Uniform(rest)
  {
    assert ([c] + rest)[1..] == rest;
    assert ReplaceCrLf([c] + rest) == [c] + ReplaceCrLf(rest);
  }

  /** What leaves the characters of a line in place leaves the line in place. */
  lemma {:induction false} PassThrough(line: string, rest: string, f: string -> string)
    requires forall c, x {:trigger f([c] + x)} :: c in line ==> f([c] + x) == [c] + f(x)
    ensures f(line + rest) == line + f(rest)
  {
    if line == "" {
      assert line + rest == rest && line + f(rest) == f(rest);
    } else {
      var c, tail := line[0], line[1..];
      PassThrough(tail, rest, f);
      assert f([c] + (tail + rest)) == [c] + f(tail + rest);
      assert line + rest == [c] + (tail + rest) && [c] + (tail + f(rest)) == line + f(rest);
    }
  }

  lemma LineInFront(line: string, rest: string)
    requires '\n' !in line && '\r' !in line
    ensures Uniform(line + rest) == line + Uniform(rest)
  {
    forall c, x: string | c in line ensures Uniform([c] + x) == [c] + Uniform(x) {
      CharInFront(c, x);
    }
    PassThrough(line, rest, Uniform);
  }

  lemma EndInFront(end: string, rest: string)
    requires IsEnd(end) && (end == "\r" && rest != "" ==> rest[0] != '\n')
    ensures Uniform(end + rest) == ['\n'] + Uniform(rest)
  {
    var text := end + rest;
    if end == "\r\n" {
      assert text[0] == '\r' && text[1] == '\n' && text[2..] == rest;
    } else {
      assert text[0] == end[0] && text[1..] == rest;
    }
  }

  lemma Regroup(a: string, b: string, c: string)
    ensures a + (b + c) == a + b + c
  {
  }

  lemma LineAndEnd(line: string, end: string, rest: string)
    requires '\n' !in line && '\r' !in line
    requires IsEnd(end) && (end == "\r" && rest != "" ==> rest[0] != '\n')
    ensures Uniform(line + end + rest) == line + ['\n'] + Uniform(rest)
  {
    LineInFront(line, end + rest);
    EndInFront(end, rest);
    Regroup(line, end, rest);
    Regroup(line, ['\n'], Uniform(rest));
  }

  lemma FirstOfRest(lines: seq<string>, ends: seq<string>)
    requires |lines| > 1 && AreLines(lines) && AreEnds(ends, lines)
    ensures var rest := Text(lines[1..], ends[1..]); ends[0] == "\r" && rest != "" ==> rest[0] != '\n'
  {
    var rest := Text(lines[1..], ends[1..]);
    if lines[1] != "" {
      assert rest[0] == lines[1][0];
      assert lines[1][0] in lines[1];
    } else if |lines| > 2 {
      assert rest == ends[1] + Text(lines[2..], ends[2..]);
      assert rest[0] == ends[1][0];
    }
  }

  lemma {:induction false} LinesWithEnds(lines: seq<string>, ends: seq<string>)
    requires AreLines(lines) && AreEnds(ends, lines)
    ensures Uniform(Text(lines, ends)) == Join(lines, ['\n'])
  {
    if |lines| == 1 {
      LineInFront(lines[0], "");
      assert lines[0] + "" == lines[0];
    } else {
      LinesWithEnds(lines[1..], ends[1..]);
      FirstOfRest(lines, ends);
      LineAndEnd(lines[0], ends[0], Text(lines[1..], ends[1..]));
    }
  }

  /** Lines are read back whatever mixture of line ends stands between them. */
  lemma LinesReadBack(lines: seq<string>, ends: seq<string>)
    requires AreLines(lines) && AreEnds(ends, lines)
    ensures LinesOf(Text(lines, ends)) == lines
  {
    LinesWithEnds(lines, ends);
    SplitJoin(lines, '\n');
  }

  // ---- Trimming ----

  /** Of the spaces and tabs at the end of a line nothing stays, but two spaces when the last two of
      them are spaces. */
  lemma TrimMeaning(core: string, tail: string)
    requires core != "" ==> core[|core| - 1] != ' ' && core[|core| - 1] != '\t'
    requires forall i :: 0 <= i < |tail| ==> tail[i] == ' ' || tail[i] == '\t'
    ensures TrimLine(core + tail) ==
      core + if |tail| >= 2 && tail[|tail| - 1] == ' ' && tail[|tail| - 2] == ' ' then "  " else ""
  {
    var line, n := core + tail, |core + tail|;
    RStripIs(line, IsIndent, core);
    var r := RStrip(line, IsSpace);
    if |tail| >= 2 && tail[|tail| - 1] == ' ' && tail[|tail| - 2] == ' ' {
      assert line[n - 1] == ' ' && line[n - 2] == ' ';
      assert |r| != n && |r| != n - 1;
    } else if n >= 2 {
      assert line[n - 1] != ' ' || line[n - 2] != ' ';
    }
  }

  /** A line is blank when it has nothing but spaces and tabs. */
  lemma BlankIff(line: string)
    ensures Blank(line) <==> forall i :: 0 <= i < |line| ==> line[i] == ' ' || line[i] == '\t'
  {
    if Blank(line) {
      forall i | 0 <= i < |line| ensures line[i] == ' ' || line[i] == '\t' {
        assert IsIndent(line[i]);
      }
    }
  }
}
