/** The Markdown clean-up behind the MHTML parser (fences: section 4.5 of the CommonMark spec).

    Blank lines are collapsed and trailing white space is trimmed, except inside fenced code. Line
    ends are made uniform first. */
module MarkdownNormalizer {
  import opened Options
  import opened Seqs
  import opened Strings

  datatype Fence = Fence(mark: char, length: nat)

  predicate IsSpace(c: char) { c == ' ' }

  predicate IsIndent(c: char) { c == ' ' || c == '\t' }

  predicate IsNewline(c: char) { c == '\n' }

  function Is(c: char): char -> bool { (d: char) => d == c }

  predicate Blank(line: string) { AllOf(line, IsIndent) }

  function OpeningFence(line: string): Option<Fence> {
    var indent := Span(line, IsSpace);
    var stripped := line[indent..];
    if indent > 3 || stripped == [] then None
    else if stripped[0] !in {'`', '~'} then None
    else
      var length := Span(stripped, Is(stripped[0]));
      if length < 3 then None else Some(Fence(stripped[0], length))
  }

  predicate IsClosingFence(line: string, fence: Fence) {
    var indent := Span(line, IsSpace);
    var stripped := line[indent..];
    var length := Span(stripped, Is(fence.mark));
    indent <= 3 && length >= fence.length && AllOf(stripped[length..], IsIndent)
  }

  /** Trailing white space goes, except that two or more trailing spaces, a hard line break, become two. */
  function TrimLine(line: string): string {
    if |line| - |RStrip(line, IsSpace)| >= 2 then RStrip(line, IsIndent) + "  " else RStrip(line, IsIndent)
  }

  // ---- The loop over lines ----

  datatype State = State(output: seq<string>, pending: bool, fence: Option<Fence>)

  function NextFence(fence: Option<Fence>, line: string): Option<Fence> {
    match fence
    case Some(f) => if IsClosingFence(line, f) then None else fence
    case None => OpeningFence(line)
  }

  function Separated(s: State): seq<string> { if s.pending && s.output != [] then s.output + [""] else s.output }

  function Step(s: State, line: string): State {
    if s.fence.Some? then s.(output := s.output + [line], fence := NextFence(s.fence, line))
    else if OpeningFence(line).Some? then State(Separated(s) + [line], false, OpeningFence(line))
    else if Blank(line) then s.(pending := true)
    else State(Separated(s) + [TrimLine(line)], false, None)
  }

  /** The state after the given lines. */
  function After(lines: seq<string>): State {
    if lines == [] then State([], false, None) else Step(After(lines[..|lines| - 1]), lines[|lines| - 1])
  }

  function ReplaceCrLf(text: string): string {
    if text == [] then []
    else if |text| >= 2 && text[0] == '\r' && text[1] == '\n' then ['\n'] + ReplaceCrLf(text[2..])
    else [text[0]] + ReplaceCrLf(text[1..])
  }

  function ReplaceCr(text: string): string {
    seq(|text|, i requires 0 <= i < |text| => if text[i] == '\r' then '\n' else text[i])
  }

  /** The lines of a text after its line ends have been made uniform. */
  function LinesOf(text: string): seq<string> { Split(ReplaceCr(ReplaceCrLf(text)), '\n') }

  function Normalized(text: string): string { Strip(Join(After(LinesOf(text)).output, "\n"), IsNewline) }

  method NormalizeMarkdown(text: string) returns (result: string)
    ensures result == Normalized(text)
  {
    var lines := Split(ReplaceCr(ReplaceCrLf(text)), '\n');
    var output: seq<string> := [];
    var pending, fence := false, None;
    for i := 0 to |lines|
      invariant State(output, pending, fence) == After(lines[..i])
    {
      assert lines[..i + 1][..i] == lines[..i];
      var line := lines[i];
      if fence.Some? {
        output := output + [line];
        if IsClosingFence(line, fence.value) {
          fence := None;
        }
        continue;
      }
      var opening := OpeningFence(line);
      if opening.Some? {
        if pending && output != [] {
          output := output + [""];
        }
        pending := false;
        output := output + [line];
        fence := opening;
        continue;
      }
      if Blank(line) {
        pending := true;
        continue;
      }
      if pending && output != [] {
        output := output + [""];
      }
      pending := false;
      output := output + [TrimLine(line)];
    }
    assert lines[..|lines|] == lines;
    result := Strip(Join(output, "\n"), IsNewline);
  }

  // ---- The meaning: groups of lines ----

  /** A line that is kept: one of a fenced block, fences included, or one of the running text. */
  datatype Marked = Fenced(line: string) | Plain(line: string)

  /** The groups of kept lines, a new one after each stretch of blank lines outside fences. */
  datatype Groups = Groups(groups: seq<seq<Marked>>, open: bool)

  /** The fence that is open after the given lines. */
  function FenceAfter(lines: seq<string>): Option<Fence> {
    if lines == [] then None else NextFence(FenceAfter(lines[..|lines| - 1]), lines[|lines| - 1])
  }

  /** A blank line outside fences. */
  predicate Gap(fence: Option<Fence>, line: string) { fence.None? && Blank(line) }

  function Mark(fence: Option<Fence>, line: string): Marked {
    if fence.Some? || OpeningFence(line).Some? then Fenced(line) else Plain(line)
  }

  function Extend(g: Groups, m: Marked): Groups {
    if g.open && g.groups != [] then Groups(g.groups[|g.groups| - 1 := g.groups[|g.groups| - 1] + [m]], true)
    else Groups(g.groups + [[m]], true)
  }

  function GroupsOf(lines: seq<string>): Groups {
    if lines == [] then Groups([], false) else
    var front, line := lines[..|lines| - 1], lines[|lines| - 1];
    if Gap(FenceAfter(front), line) then GroupsOf(front).(open := false)
    else Extend(GroupsOf(front), Mark(FenceAfter(front), line))
  }

  /** What becomes of a kept line: fenced lines stay as they are. */
  function Tidy(m: Marked): Marked {
    match m
    case Fenced(line) => m
    case Plain(line) => Plain(TrimLine(line))
  }

  function TidyGroup(g: seq<Marked>): (r: seq<Marked>)
    ensures |r| == |g| && forall i :: 0 <= i < |g| ==> r[i] == Tidy(g[i])
  {
    Map(g, Tidy)
  }

  function TidyGroups(gs: seq<seq<Marked>>): (r: seq<seq<Marked>>)
    ensures |r| == |gs| && forall i :: 0 <= i < |gs| ==> r[i] == TidyGroup(gs[i])
  {
    Map(gs, TidyGroup)
  }

  // ---- Trimming ----

  lemma SpanOver(s: string, t: string, p: char -> bool)
    requires t != [] ==> !p(t[0])
    ensures Span(s + t, p) == Span(s, p)
  {
    var n := Span(s, p);
    if n < |s| {
      assert (s + t)[n] == s[n];
    }
    SpanIs(s + t, p, n);
  }

  /** White space at the end of a line does not matter to whether the line opens a fence. */
  lemma FenceIgnoresTail(core: string, tail: string)
    requires core != [] && !IsIndent(core[|core| - 1]) && AllOf(tail, IsIndent)
    ensures OpeningFence(core + tail) == OpeningFence(core)
  {
    var indent := Span(core, IsSpace);
    assert !IsSpace(core[|core| - 1]);
    assert (core + tail)[indent] == core[indent];
    SpanIs(core + tail, IsSpace, indent);
    var stripped := core[indent..];
    assert (core + tail)[indent..] == stripped + tail;
    if stripped[0] in {'`', '~'} {
      SpanOver(stripped, tail, Is(stripped[0]));
    }
  }

  lemma CoreOf(line: string) returns (core: string, tail: string)
    requires !Blank(line)
    ensures core == RStrip(line, IsIndent) && line == core + tail && AllOf(tail, IsIndent)
    ensures core != [] && !IsIndent(core[|core| - 1])
    ensures TrimLine(line) == core || TrimLine(line) == core + "  "
  {
    core := RStrip(line, IsIndent);
    tail := line[|core|..];
  }

  lemma StripTail(core: string, tail: string, p: char -> bool)
    requires core != [] && !p(core[|core| - 1]) && AllOf(tail, p)
    ensures RStrip(core + tail, p) == core
  {
    assert (core + tail)[|core| - 1] == core[|core| - 1];
    RStripIs(core + tail, p, core);
  }

  /** A line that ends in a character of its own, or in a hard break, is not trimmed. */
  lemma TrimmedStays(core: string, tail: string)
    requires core != [] && !IsIndent(core[|core| - 1]) && (tail == "" || tail == "  ")
    ensures TrimLine(core + tail) == core + tail
    ensures OpeningFence(core + tail) == OpeningFence(core) && !Blank(core + tail)
  {
    StripTail(core, tail, IsIndent);
    StripTail(core, tail, IsSpace);
    FenceIgnoresTail(core, tail);
    assert (core + tail)[|core| - 1] == core[|core| - 1];
    assert tail == "" ==> core + tail == core;
  }

  /** A trimmed line is trimmed, is not blank, and opens a fence iff the line did. */
  lemma TrimSettles(line: string)
    requires !Blank(line)
    ensures TrimLine(TrimLine(line)) == TrimLine(line)
    ensures !Blank(TrimLine(line)) && TrimLine(line) != ""
    ensures OpeningFence(TrimLine(line)) == OpeningFence(line)
  {
    var core, tail := CoreOf(line);
    FenceIgnoresTail(core, tail);
    var kept := if TrimLine(line) == core then "" else "  ";
    assert TrimLine(line) == core + kept;
    TrimmedStays(core, kept);
  }

  lemma BlankOpensNothing(line: string)
    requires Blank(line)
    ensures OpeningFence(line).None?
  {
    var stripped := line[Span(line, IsSpace)..];
    if stripped != [] {
      assert IsIndent(stripped[0]);
    }
  }

  // ---- Running again on the output changes nothing ----

  lemma AfterSnoc(lines: seq<string>, line: string)
    ensures After(lines + [line]) == Step(After(lines), line)
    ensures FenceAfter(lines + [line]) == NextFence(FenceAfter(lines), line)
  {
    assert (lines + [line])[..|lines|] == lines;
  }

  lemma {:induction false} FencesAgree(lines: seq<string>)
    ensures After(lines).fence == FenceAfter(lines)
    ensures After(lines).fence.Some? ==> !After(lines).pending && After(lines).output != []
  {
    if lines != [] {
      var front, line := lines[..|lines| - 1], lines[|lines| - 1];
      FencesAgree(front);
      if After(front).fence.None? && Blank(line) {
        BlankOpensNothing(line);
      }
    }
  }

  /** The output so far, read again, leads to the same fence and to itself. */
  ghost predicate Settled(s: State) { After(s.output) == State(s.output, false, s.fence) }

  /** An empty line between groups is read as a gap. */
  lemma SeparatorIsGap(s: State, line: string)
    requires Settled(s) && s.fence.None? && (OpeningFence(line).Some? || !Blank(line))
    ensures Step(After(Separated(s)), line) == Step(State(Separated(s), false, None), line)
  {
    if s.pending && s.output != [] {
      AfterSnoc(s.output, "");
      BlankOpensNothing("");
    }
  }

  lemma StepSettles(s: State, line: string)
    requires Settled(s)
    ensures Settled(Step(s, line))
  {
    if s.fence.Some? {
      AfterSnoc(s.output, line);
    } else if OpeningFence(line).Some? {
      SeparatorIsGap(s, line);
      AfterSnoc(Separated(s), line);
    } else if !Blank(line) {
      TrimSettles(line);
      SeparatorIsGap(s, TrimLine(line));
      AfterSnoc(Separated(s), TrimLine(line));
    }
  }

  lemma {:induction false} OutputSettles(lines: seq<string>)
    ensures Settled(After(lines))
  {
    if lines != [] {
      OutputSettles(lines[..|lines| - 1]);
      StepSettles(After(lines[..|lines| - 1]), lines[|lines| - 1]);
    }
  }

  // ---- Final empty lines ----

  function DropEmpty(lines: seq<string>): (r: seq<string>)
    ensures r <= lines
    ensures r != [] ==> r[|r| - 1] != ""
  {
    if lines == [] || lines[|lines| - 1] != "" then lines else DropEmpty(lines[..|lines| - 1])
  }

  lemma {:induction false} DropSettles(lines: seq<string>)
    requires After(lines).output == lines && !After(lines).pending
    ensures After(DropEmpty(lines)).output == DropEmpty(lines)
  {
    if lines != [] && lines[|lines| - 1] == "" {
      DropSettles(lines[..|lines| - 1]);
    }
  }

  // ---- From lines to text ----

  predicate OneLiner(line: string) { '\n' !in line && '\r' !in line }

  ghost predicate OneLiners(lines: seq<string>) { forall k :: 0 <= k < |lines| ==> OneLiner(lines[k]) }

  lemma {:induction false} ReplacingEndsReturns(text: string)
    ensures '\r' !in ReplaceCr(text)
    ensures '\r' !in text ==> ReplaceCrLf(text) == text && ReplaceCr(text) == text
  {
    if text != [] && '\r' !in text {
      ReplacingEndsReturns(text[1..]);
    }
  }

  lemma LinesAreOneLiners(text: string)
    ensures OneLiners(LinesOf(text))
  {
    var uniform := ReplaceCr(ReplaceCrLf(text));
    ReplacingEndsReturns(ReplaceCrLf(text));
    forall k | 0 <= k < |LinesOf(text)| ensures OneLiner(LinesOf(text)[k]) {
      PartsFreeOf(uniform, '\n', k);
    }
  }

  lemma TrimOneLiner(line: string)
    requires OneLiner(line)
    ensures OneLiner(TrimLine(line))
  {
  }

  lemma AddOneLiner(lines: seq<string>, line: string)
    requires OneLiners(lines) && OneLiner(line)
    ensures OneLiners(lines + [line])
  {
  }

  lemma StepOneLiners(s: State, line: string)
    requires OneLiners(s.output) && OneLiner(line)
    ensures OneLiners(Step(s, line).output)
  {
    AddOneLiner(s.output, line);
    AddOneLiner(s.output, "");
    AddOneLiner(Separated(s), line);
    TrimOneLiner(line);
    AddOneLiner(Separated(s), TrimLine(line));
  }

  lemma {:induction false} OutputOneLiners(lines: seq<string>)
    requires OneLiners(lines)
    ensures OneLiners(After(lines).output)
  {
    if lines != [] {
      var front, line := lines[..|lines| - 1], lines[|lines| - 1];
      OutputOneLiners(front);
      StepOneLiners(After(front), line);
    }
  }

  lemma {:induction false} FirstLineNotEmpty(lines: seq<string>)
    ensures After(lines).output != [] ==> After(lines).output[0] != ""
    ensures After(lines).fence.Some? ==> After(lines).output != []
  {
    if lines != [] {
      var front, line := lines[..|lines| - 1], lines[|lines| - 1];
      FirstLineNotEmpty(front);
      if !Blank(line) {
        TrimSettles(line);
      }
    }
  }

  lemma LastCharacter(lines: seq<string>)
    requires OneLiners(lines) && lines != [] && lines[|lines| - 1] != ""
    ensures var text := Join(lines, "\n");
      text != "" && text[|text| - 1] != '\n'
  {
    var front, last := lines[..|lines| - 1], lines[|lines| - 1];
    assert lines == front + [last];
    assert last[|last| - 1] in last;
    if front != [] {
      JoinSnoc(front, last, "\n");
    }
  }

  /** Stripping the newlines of the joined lines drops the final empty lines, if the first is not empty. */
  lemma {:induction false} StripDropsEmpty(lines: seq<string>)
    requires OneLiners(lines) && (lines != [] ==> lines[0] != "")
    ensures Strip(Join(lines, "\n"), IsNewline) == Join(DropEmpty(lines), "\n")
    ensures RStrip(Join(lines, "\n"), IsNewline) == Join(DropEmpty(lines), "\n")
  {
    var text := Join(lines, "\n");
    if lines == [] {
    } else {
      assert lines[0][0] in lines[0];
      assert text[0] == lines[0][0];
      SpanIs(text, IsNewline, 0);
      assert LStrip(text, IsNewline) == text;
      if lines[|lines| - 1] != "" {
        LastCharacter(lines);
        RStripIs(text, IsNewline, text);
      } else {
        var front := lines[..|lines| - 1];
        assert lines == front + [""];
        JoinSnoc(front, "", "\n");
        assert text == Join(front, "\n") + "\n";
        assert text[..|text| - 1] == Join(front, "\n");
        StripDropsEmpty(front);
      }
    }
  }

  /** The lines of a normalized text. */
  function Kept(text: string): seq<string> { DropEmpty(After(LinesOf(text)).output) }

  lemma NormalizedIsKept(text: string)
    ensures Normalized(text) == Join(Kept(text), "\n")
    ensures OneLiners(Kept(text))
  {
    var lines := LinesOf(text);
    LinesAreOneLiners(text);
    OutputOneLiners(lines);
    FirstLineNotEmpty(lines);
    StripDropsEmpty(After(lines).output);
  }

  lemma LinesOfKept(text: string)
    ensures LinesOf(Normalized(text)) == if Kept(text) == [] then [""] else Kept(text)
  {
    var kept := Kept(text);
    var result := Normalized(text);
    NormalizedIsKept(text);
    if '\r' in result {
      JoinMember(kept, "\n", '\r');
      assert false;
    }
    ReplacingEndsReturns(result);
    if kept != [] {
      SplitJoin(kept, '\n');
    } else {
      SpanIs("", IsNot('\n'), 0);
    }
  }

  lemma NormalizedEmpty()
    ensures After([""]).output == [] && Normalized("") == ""
  {
    BlankOpensNothing("");
    AfterSnoc([], "");
    assert [] + [""] == [""];
    SpanIs("", IsNot('\n'), 0);
    assert LinesOf("") == [""];
  }

  /** Text whose lines are kept as they are, none of them an empty last one, is normalized. */
  lemma KeptStays(text: string)
    requires After(LinesOf(text)).output == LinesOf(text) && DropEmpty(LinesOf(text)) == LinesOf(text)
    ensures Normalized(text) == Join(LinesOf(text), "\n")
  {
    LinesAreOneLiners(text);
    FirstLineNotEmpty(LinesOf(text));
    StripDropsEmpty(LinesOf(text));
  }

  lemma {:induction false} DropTwice(lines: seq<string>)
    ensures DropEmpty(DropEmpty(lines)) == DropEmpty(lines)
  {
  }

  /** Normalizing a normalized text changes nothing. */
  lemma Idempotent(text: string)
    ensures Normalized(Normalized(text)) == Normalized(text)
  {
    var lines := LinesOf(text);
    OutputSettles(lines);
    DropSettles(After(lines).output);
    LinesOfKept(text);
    NormalizedIsKept(text);
    if Kept(text) == [] {
      NormalizedEmpty();
    } else {
      DropTwice(After(lines).output);
      KeptStays(Normalized(text));
    }
  }

  // ---- What the output is ----

  function LinesIn(g: seq<Marked>): (r: seq<string>)
    ensures |r| == |g| && forall i :: 0 <= i < |g| ==> r[i] == g[i].line
  {
    Map(g, (m: Marked) => m.line)
  }

  /** The groups one after the other, one empty line between any two. */
  function Layout(gs: seq<seq<Marked>>): seq<string> {
    if gs == [] then []
    else if |gs| == 1 then LinesIn(gs[0])
    else Layout(gs[..|gs| - 1]) + [""] + LinesIn(gs[|gs| - 1])
  }

  lemma LayoutGrows(gs: seq<seq<Marked>>, m: Marked)
    requires gs != []
    ensures Layout(gs[|gs| - 1 := gs[|gs| - 1] + [m]]) == Layout(gs) + [m.line]
  {
    var last := gs[|gs| - 1];
    var grown := gs[|gs| - 1 := last + [m]];
    assert grown[..|gs| - 1] == gs[..|gs| - 1];
    assert LinesIn(last + [m]) == LinesIn(last) + [m.line];
  }

  lemma LayoutNewGroup(gs: seq<seq<Marked>>, m: Marked)
    ensures Layout(gs + [[m]]) == Layout(gs) + (if gs == [] then [] else [""]) + [m.line]
  {
    assert (gs + [[m]])[..|gs|] == gs;
    assert LinesIn([m]) == [m.line];
  }

  /** The loop state and the groups read so far say the same. */
  ghost predicate Matches(s: State, g: Groups) {
    && s.output == Layout(TidyGroups(g.groups))
    && (s.output == [] <==> g.groups == [])
    && (g.groups == [] ==> !g.open)
    && (g.groups != [] ==> g.open == !s.pending)
  }

  lemma ExtendMatches(s: State, g: Groups, m: Marked)
    requires Matches(s, g)
    ensures Separated(s) + [Tidy(m).line] == Layout(TidyGroups(Extend(g, m).groups))
  {
    var tidied, grown := TidyGroups(g.groups), Extend(g, m).groups;
    if g.open {
      var last := g.groups[|g.groups| - 1];
      assert TidyGroup(last + [m]) == TidyGroup(last) + [Tidy(m)];
      assert TidyGroups(grown) == tidied[|tidied| - 1 := tidied[|tidied| - 1] + [Tidy(m)]];
      LayoutGrows(tidied, Tidy(m));
    } else {
      assert TidyGroup([m]) == [Tidy(m)];
      assert TidyGroups(grown) == tidied + [[Tidy(m)]];
      LayoutNewGroup(tidied, Tidy(m));
    }
  }

  lemma StepMatches(s: State, g: Groups, line: string)
    requires Matches(s, g) && (s.fence.Some? ==> !s.pending)
    ensures Matches(Step(s, line), if Gap(s.fence, line) then g.(open := false) else Extend(g, Mark(s.fence, line)))
  {
    if Blank(line) {
      BlankOpensNothing(line);
    }
    if !Gap(s.fence, line) {
      ExtendMatches(s, g, Mark(s.fence, line));
      assert Step(s, line).output == Separated(s) + [Tidy(Mark(s.fence, line)).line];
    }
  }

  lemma {:induction false} OutputMatches(lines: seq<string>)
    ensures Matches(After(lines), GroupsOf(lines))
  {
    if lines != [] {
      var front, line := lines[..|lines| - 1], lines[|lines| - 1];
      OutputMatches(front);
      FencesAgree(front);
      StepMatches(After(front), GroupsOf(front), line);
    }
  }

  /** The normalized text consists of the groups of the input, in order, with one empty line
      between groups: fenced lines as they were, other lines trimmed. Only empty lines at the very
      end of the last group are lost. */
  lemma NormalizedIsLayout(text: string)
    ensures Normalized(text) == Join(DropEmpty(Layout(TidyGroups(GroupsOf(LinesOf(text)).groups))), "\n")
  {
    OutputMatches(LinesOf(text));
    NormalizedIsKept(text);
  }

  /** No line at all is lost unless the last fence of the input is never closed. */
  lemma {:induction false} ClosedLosesNothing(lines: seq<string>)
    requires FenceAfter(lines).None?
    ensures DropEmpty(After(lines).output) == After(lines).output
  {
    if lines != [] {
      var front, line := lines[..|lines| - 1], lines[|lines| - 1];
      FencesAgree(front);
      if After(front).fence.Some? {
        assert IsClosingFence(line, After(front).fence.value);
        FencesHaveLength(front);
        assert line != "";
      } else if Blank(line) {
        BlankOpensNothing(line);
        ClosedLosesNothing(front);
      } else {
        TrimSettles(line);
      }
    }
  }

  /** While a fence is open, the last line of the output is the last line of the input. */
  lemma OpenFenceKeepsLast(lines: seq<string>)
    requires FenceAfter(lines).Some?
    ensures var output := After(lines).output;
      lines != [] && output != [] && output[|output| - 1] == lines[|lines| - 1]
  {
    var front := lines[..|lines| - 1];
    FencesAgree(front);
    FencesAgree(lines);
  }

  /** Final lines are lost if and only if a fence is still open at the end and the last line of the
      input is empty. */
  lemma LosesLinesIff(lines: seq<string>)
    ensures DropEmpty(After(lines).output) != After(lines).output
            <==> FenceAfter(lines).Some? && lines != [] && lines[|lines| - 1] == ""
  {
    if FenceAfter(lines).Some? {
      OpenFenceKeepsLast(lines);
    } else {
      ClosedLosesNothing(lines);
    }
  }

  lemma {:induction false} FencesHaveLength(lines: seq<string>)
    requires FenceAfter(lines).Some?
    ensures FenceAfter(lines).value.length >= 3
  {
    var front, line := lines[..|lines| - 1], lines[|lines| - 1];
    if FenceAfter(front).Some? {
      FencesHaveLength(front);
    }
  }

  // ---- Reading the output again ----

  lemma GroupsSnoc(lines: seq<string>, line: string)
    ensures GroupsOf(lines + [line]) ==
      if Gap(FenceAfter(lines), line) then GroupsOf(lines).(open := false)
      else Extend(GroupsOf(lines), Mark(FenceAfter(lines), line))
  {
    assert (lines + [line])[..|lines|] == lines;
  }

  lemma ExtendTidies(g: Groups, m: Marked)
    ensures TidyGroups(Extend(g, m).groups) == Extend(Groups(TidyGroups(g.groups), g.open), Tidy(m)).groups
  {
    if g.open && g.groups != [] {
      var last := g.groups[|g.groups| - 1];
      assert TidyGroup(last + [m]) == TidyGroup(last) + [Tidy(m)];
    } else {
      assert TidyGroup([m]) == [Tidy(m)];
      assert TidyGroups(g.groups + [[m]]) == TidyGroups(g.groups) + [[Tidy(m)]];
    }
  }

  /** The output so far, read again, has the tidied groups of the input so far. */
  ghost predicate Rereads(s: State, g: Groups) {
    GroupsOf(s.output) == Groups(TidyGroups(g.groups), s.output != [])
  }

  lemma SeparatorRereads(s: State, g: Groups)
    requires Rereads(s, g) && FenceAfter(s.output).None?
    ensures FenceAfter(Separated(s)).None?
    ensures GroupsOf(Separated(s)) == Groups(TidyGroups(g.groups), s.output != [] && !s.pending)
  {
    BlankOpensNothing("");
    GroupsSnoc(s.output, "");
    AfterSnoc(s.output, "");
  }

  lemma StepRereads(s: State, g: Groups, line: string)
    requires Rereads(s, g) && Matches(s, g) && FenceAfter(s.output) == s.fence && (s.fence.Some? ==> !s.pending)
    ensures Rereads(Step(s, line), if Gap(s.fence, line) then g.(open := false) else Extend(g, Mark(s.fence, line)))
  {
    if Blank(line) {
      BlankOpensNothing(line);
    } else {
      TrimSettles(line);
    }
    if s.fence.None? {
      SeparatorRereads(s, g);
    }
    if !Gap(s.fence, line) {
      var m := Mark(s.fence, line);
      assert Step(s, line).output == Separated(s) + [Tidy(m).line];
      GroupsSnoc(Separated(s), Tidy(m).line);
      assert Mark(FenceAfter(Separated(s)), Tidy(m).line) == Tidy(m);
      ExtendTidies(g, m);
    }
  }

  /** Read again, the output has the groups of the input, each line marked as before: no line of a
      fenced block becomes running text, and no running text becomes part of a fenced block. */
  lemma {:induction false} MarksStay(lines: seq<string>)
    ensures Rereads(After(lines), GroupsOf(lines))
  {
    if lines != [] {
      var front, line := lines[..|lines| - 1], lines[|lines| - 1];
      MarksStay(front);
      OutputMatches(front);
      FencesAgree(front);
      OutputSettles(front);
      FencesAgree(After(front).output);
      StepRereads(After(front), GroupsOf(front), line);
    }
  }

  // ---- Blank lines of the output ----

  predicate GapAt(lines: seq<string>, i: nat)
    requires i < |lines|
  {
    Gap(FenceAfter(lines[..i]), lines[i])
  }

  /** Every blank line outside fences is empty, has a line in front of it, and is followed by a
      line that is not such a blank line. */
  ghost predicate SingleGaps(lines: seq<string>) {
    forall i :: 0 <= i < |lines| && GapAt(lines, i) ==> lines[i] == "" && 0 < i < |lines| - 1 && !GapAt(lines, i + 1)
  }

  lemma GapAtPrefix(lines: seq<string>, more: seq<string>, i: nat)
    requires i < |lines|
    ensures GapAt(lines + more, i) == GapAt(lines, i)
  {
    assert (lines + more)[..i] == lines[..i];
  }

  lemma AppendLine(lines: seq<string>, line: string)
    requires SingleGaps(lines) && !Gap(FenceAfter(lines), line)
    ensures SingleGaps(lines + [line])
  {
    var longer := lines + [line];
    assert longer[..|lines|] == lines;
    forall i | 0 <= i < |longer| && GapAt(longer, i)
      ensures longer[i] == "" && 0 < i < |longer| - 1 && !GapAt(longer, i + 1)
    {
      assert i < |lines|;
      GapAtPrefix(lines, [line], i);
      GapAtPrefix(lines, [line], i + 1);
    }
  }

  lemma AppendGapAndLine(lines: seq<string>, line: string)
    requires SingleGaps(lines) && lines != [] && FenceAfter(lines).None? && !Blank(line)
    ensures SingleGaps(lines + [""] + [line])
  {
    var longer, tail := lines + [""] + [line], [""] + [line];
    assert longer == lines + tail;
    assert longer[..|lines|] == lines && longer[..|lines| + 1] == lines + [""];
    forall i | 0 <= i < |longer| && GapAt(longer, i)
      ensures longer[i] == "" && 0 < i < |longer| - 1 && !GapAt(longer, i + 1)
    {
      if i < |lines| {
        GapAtPrefix(lines, tail, i);
        GapAtPrefix(lines, tail, i + 1);
      }
    }
  }

  lemma {:induction false} OutputSingleGaps(lines: seq<string>)
    ensures SingleGaps(After(lines).output)
  {
    if lines != [] {
      var front, line := lines[..|lines| - 1], lines[|lines| - 1];
      var s := After(front);
      OutputSingleGaps(front);
      OutputSettles(front);
      FencesAgree(s.output);
      if s.fence.Some? {
        AppendLine(s.output, line);
      } else if !Blank(line) {
        var added := if OpeningFence(line).Some? then line else TrimLine(line);
        TrimSettles(line);
        if s.pending && s.output != [] {
          AppendGapAndLine(s.output, added);
        } else {
          AppendLine(s.output, added);
        }
      } else {
        BlankOpensNothing(line);
      }
    }
  }

  /** The lines dropped at the end all lie inside the fence that was never closed. */
  lemma {:induction false} DroppedAreFenced(lines: seq<string>)
    requires After(lines).output == lines && !After(lines).pending && SingleGaps(lines)
    ensures SingleGaps(DropEmpty(lines))
  {
    if lines != [] && lines[|lines| - 1] == "" {
      var front := lines[..|lines| - 1];
      FencesAgree(front);
      assert lines == front + [""];
      assert !GapAt(lines, |front|);
      forall i | 0 <= i < |front| && GapAt(front, i)
        ensures front[i] == "" && 0 < i < |front| - 1 && !GapAt(front, i + 1)
      {
        GapAtPrefix(front, [""], i);
        if i + 1 == |front| {
          LastIsKept(front);
        } else {
          GapAtPrefix(front, [""], i + 1);
        }
      }
      DroppedAreFenced(front);
    }
  }

  /** The last line of a settled output is not a blank line outside fences. */
  lemma LastIsKept(lines: seq<string>)
    requires lines != [] && After(lines).output == lines && !After(lines).pending
    ensures !GapAt(lines, |lines| - 1)
  {
    var front, line := lines[..|lines| - 1], lines[|lines| - 1];
    FencesAgree(front);
    if Blank(line) {
      BlankOpensNothing(line);
    }
    assert Gap(FenceAfter(front), line) ==> After(lines).pending;
  }

  /** A normalized text has no two blank lines in a row outside fences, none at its start and none
      at its end. */
  lemma NormalizedSingleGaps(text: string)
    ensures SingleGaps(Kept(text))
    ensures LinesOf(Normalized(text)) == if Kept(text) == [] then [""] else Kept(text)
  {
    OutputSingleGaps(LinesOf(text));
    OutputSettles(LinesOf(text));
    DroppedAreFenced(After(LinesOf(text)).output);
    LinesOfKept(text);
  }
}
