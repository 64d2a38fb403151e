/** Code fences as section 4.5 of the CommonMark spec defines them, and where the code differs. */
module MarkdownFences {
  import opened Options
  import opened Strings
  import opened MarkdownNormalizer

  function Repeat(c: char, n: nat): (s: string)
    ensures |s| == n && forall i :: 0 <= i < n ==> s[i] == c
  {
    seq(n, i => c)
  }

  /** The line is an opening fence by the spec: up to three spaces, three or more of the same mark, and
      an info string, which for a fence of backticks contains no backtick. */
  predicate Opens(line: string, fence: Fence, indent: nat, info: string) {
    && line == Repeat(' ', indent) + Repeat(fence.mark, fence.length) + info
    && indent <= 3 && fence.length >= 3 && fence.mark in {'`', '~'}
    && (info != "" ==> info[0] != fence.mark)
    && (fence.mark == '`' ==> '`' !in info)
  }

  ghost predicate StandardFence(line: string, fence: Fence) {
    exists indent, info :: Opens(line, fence, indent, info)
  }

  /** What follows the run of marks in a line that the code takes for an opening fence. */
  function InfoOf(line: string, fence: Fence): string
    requires OpeningFence(line) == Some(fence)
  {
    line[Span(line, IsSpace)..][fence.length..]
  }

  lemma RunEnds(mark: char, n: nat, info: string)
    requires info != "" ==> info[0] != mark
    ensures Span(Repeat(mark, n) + info, Is(mark)) == n
  {
    SpanIs(Repeat(mark, n) + info, Is(mark), n);
  }

  /** The code recognises every fence of the spec, with the same mark and length. */
  lemma SpecIsRecognised(line: string, fence: Fence, indent: nat, info: string)
    requires Opens(line, fence, indent, info)
    ensures OpeningFence(line) == Some(fence) && InfoOf(line, fence) == info
  {
    var rest := Repeat(fence.mark, fence.length) + info;
    assert line == Repeat(' ', indent) + rest;
    assert rest[0] == fence.mark;
    SpanIs(line, IsSpace, indent);
    assert line[indent..] == rest;
    RunEnds(fence.mark, fence.length, info);
    assert rest[fence.length..] == info;
  }

  /** The first characters of a text, as long as they are the same. */
  lemma RunIs(s: string, c: char, p: char -> bool)
    requires forall d :: p(d) <==> d == c
    ensures s[..Span(s, p)] == Repeat(c, Span(s, p))
  {
  }

  lemma CutTwice(s: string, i: nat, n: nat)
    requires i + n <= |s|
    ensures s == s[..i] + s[i..][..n] + s[i..][n..]
  {
  }

  lemma MarkRun(stripped: string, mark: char, n: nat)
    requires n == Span(stripped, Is(mark))
    ensures stripped[..n] == Repeat(mark, n) && (stripped[n..] != "" ==> stripped[n..][0] != mark)
  {
    RunIs(stripped, mark, Is(mark));
  }

  lemma RecognisedParts(line: string, fence: Fence)
    requires OpeningFence(line) == Some(fence)
    ensures var indent, info := Span(line, IsSpace), InfoOf(line, fence);
      && line == Repeat(' ', indent) + Repeat(fence.mark, fence.length) + info
      && indent <= 3 && fence.length >= 3 && fence.mark in {'`', '~'}
      && (info != "" ==> info[0] != fence.mark)
  {
    var indent := Span(line, IsSpace);
    RunIs(line, ' ', IsSpace);
    MarkRun(line[indent..], fence.mark, fence.length);
    CutTwice(line, indent, fence.length);
  }

  /** A line that the code takes for an opening fence is one by the spec, if and only if its mark is a
      tilde or no backtick follows the run. */
  lemma FenceAsStandardIff(line: string, fence: Fence)
    requires OpeningFence(line) == Some(fence)
    ensures StandardFence(line, fence) <==> fence.mark == '~' || '`' !in InfoOf(line, fence)
  {
    RecognisedParts(line, fence);
    if StandardFence(line, fence) {
      var indent, info :| Opens(line, fence, indent, info);
      SpecIsRecognised(line, fence, indent, info);
    }
    if fence.mark == '~' || '`' !in InfoOf(line, fence) {
      assert Opens(line, fence, Span(line, IsSpace), InfoOf(line, fence));
    }
  }

  /** Code and spec agree on a line if and only if it is no fence to the code, or a fence of tildes, or
      has no backtick behind its run. */
  lemma AgreesWithStandardIff(line: string)
    ensures (forall fence :: OpeningFence(line) == Some(fence) <==> StandardFence(line, fence)) <==>
      (OpeningFence(line).None? || OpeningFence(line).value.mark == '~'
       || '`' !in InfoOf(line, OpeningFence(line).value))
  {
    forall fence | StandardFence(line, fence) ensures OpeningFence(line) == Some(fence) {
      var indent, info :| Opens(line, fence, indent, info);
      SpecIsRecognised(line, fence, indent, info);
    }
    if OpeningFence(line).Some? {
      FenceAsStandardIff(line, OpeningFence(line).value);
    }
  }

  /** Three backticks with a backtick in the info string: running text by the spec, a fence to the code. */
  lemma BacktickInInfo()
    ensures OpeningFence("```a`b") == Some(Fence('`', 3))
    ensures forall fence :: !StandardFence("```a`b", fence)
  {
    var line, fence := "```a`b", Fence('`', 3);
    SpanIs(line, IsSpace, 0);
    assert line[0..] == line == Repeat('`', 3) + "a`b";
    RunEnds('`', 3, "a`b");
    assert InfoOf(line, fence)[1] == '`';
    FenceAsStandardIff(line, fence);
    AgreesWithStandardIff(line);
    forall f | StandardFence(line, f) ensures f == fence {
      var indent, info :| Opens(line, f, indent, info);
      SpecIsRecognised(line, f, indent, info);
    }
  }

  // ---- Closing fences, and the fence that is open ----

  /** The line closes the fence by the spec: up to three spaces, at least as many of the same mark, and
      nothing but spaces and tabs behind them. */
  ghost predicate StandardClose(line: string, fence: Fence) {
    exists indent: nat, length: nat, tail :: Closes(line, fence, indent, length, tail)
  }

  predicate Closes(line: string, fence: Fence, indent: nat, length: nat, tail: string) {
    && line == Repeat(' ', indent) + Repeat(fence.mark, length) + tail && indent <= 3 && length >= fence.length
    && forall i :: 0 <= i < |tail| ==> tail[i] == ' ' || tail[i] == '\t'
  }

  lemma CloseIsRecognised(line: string, fence: Fence, indent: nat, length: nat, tail: string)
    requires Closes(line, fence, indent, length, tail) && fence.mark in {'`', '~'}
    requires length > 0
    ensures IsClosingFence(line, fence)
  {
    var rest := Repeat(fence.mark, length) + tail;
    assert line == Repeat(' ', indent) + rest;
    assert rest[0] == fence.mark;
    SpanIs(line, IsSpace, indent);
    assert line[indent..] == rest;
    RunEnds(fence.mark, length, tail);
    assert rest[length..] == tail;
  }

  /** A fence is closed exactly by the lines that close it by the spec. */
  lemma ClosesAsStandard(line: string, fence: Fence)
    requires fence.mark in {'`', '~'} && fence.length > 0
    ensures IsClosingFence(line, fence) <==> StandardClose(line, fence)
  {
    if IsClosingFence(line, fence) {
      var indent := Span(line, IsSpace);
      var stripped := line[indent..];
      var length := Span(stripped, Is(fence.mark));
      RunIs(line, ' ', IsSpace);
      MarkRun(stripped, fence.mark, length);
      CutTwice(line, indent, length);
      assert Closes(line, fence, indent, length, stripped[length..]);
    }
    if StandardClose(line, fence) {
      var indent: nat, length: nat, tail :| Closes(line, fence, indent, length, tail);
      CloseIsRecognised(line, fence, indent, length, tail);
    }
  }

  lemma {:induction false} OpenFenceIsProper(lines: seq<string>)
    ensures forall f :: FenceAfter(lines) == Some(f) ==> f.mark in {'`', '~'} && f.length >= 3
  {
    if lines != [] {
      OpenFenceIsProper(lines[..|lines| - 1]);
    }
  }

  /** The open fence, line by line: a fence stays open up to the first line that closes it by the spec,
      and with no fence open a fence of the spec opens. */
  lemma OpenFenceStep(lines: seq<string>, line: string)
    ensures forall f :: FenceAfter(lines) == Some(f) ==>
      FenceAfter(lines + [line]) == if StandardClose(line, f) then None else Some(f)
    ensures FenceAfter(lines).None? ==> forall f :: StandardFence(line, f) ==> FenceAfter(lines + [line]) == Some(f)
    ensures FenceAfter([]).None?
  {
    assert (lines + [line])[..|lines|] == lines;
    OpenFenceIsProper(lines);
    forall f | FenceAfter(lines) == Some(f) ensures IsClosingFence(line, f) <==> StandardClose(line, f) {
      ClosesAsStandard(line, f);
    }
    forall f | StandardFence(line, f) ensures OpeningFence(line) == Some(f) {
      AgreesWithStandardIff(line);
      var indent, info :| Opens(line, f, indent, info);
      SpecIsRecognised(line, f, indent, info);
    }
  }
}
