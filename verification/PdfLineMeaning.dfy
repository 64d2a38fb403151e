/** What medians, lines and punctuation lines are, without the steps that compute them.

    A line is a stretch of glyphs from top to bottom; its text is that of its glyphs from left to
    right; a punctuation line hangs on the line above it. */
module PdfLineMeaning {
  import opened Seqs
  import opened StableSort
  import opened Strings
  import opened PdfGlyphs
  import opened PdfLines

  // ---- Medians ----

  ghost predicate Ascends(s: seq<real>) { forall i, j :: 0 <= i <= j < |s| ==> s[i] <= s[j] }

  /** In any ascending arrangement of the values, m is the middle one or lies halfway between the
      middle two. */
  ghost predicate IsMedian(m: real, s: seq<real>) {
    forall t: seq<real> :: Ascends(t) && multiset(t) == multiset(s) ==> InTheMiddle(m, t)
  }

  ghost predicate InTheMiddle(m: real, t: seq<real>) {
    var half := |t| / 2;
    t != [] && if |t| % 2 == 1 then m == t[half] else m + m == t[half - 1] + t[half]
  }

  lemma SameLeast(a: seq<real>, b: seq<real>)
    requires Ascends(a) && Ascends(b) && multiset(a) == multiset(b) && a != [] && b != []
    ensures a[0] == b[0]
  {
    assert a[0] in multiset(b) && b[0] in multiset(a);
    assert a[0] in b && b[0] in a;
  }

  lemma {:induction false} OneArrangement(a: seq<real>, b: seq<real>)
    requires Ascends(a) && Ascends(b) && multiset(a) == multiset(b)
    ensures a == b
  {
    assert |a| == |multiset(a)| == |multiset(b)| == |b|;
    if a != [] {
      SameLeast(a, b);
      TailsPermute(a, b);
      OneArrangement(a[1..], b[1..]);
      assert a == [a[0]] + a[1..] && b == [b[0]] + b[1..];
    }
  }

  lemma MedianMeaning(s: seq<real>)
    requires s != []
    ensures IsMedian(Median(s), s)
  {
    SortSorts(s, Itself);
    var t := Sort(s, Itself);
    forall i, j | 0 <= i <= j < |t| ensures t[i] <= t[j] {
      assert Itself(t[i]) <= Itself(t[j]);
    }
    forall a: seq<real> | Ascends(a) && multiset(a) == multiset(s) ensures InTheMiddle(Median(s), a) {
      OneArrangement(a, t);
    }
  }

  function IsTall(): Glyph -> bool { (g: Glyph) => g.y0 < g.y1 }

  function HeightOf(): Glyph -> real { (g: Glyph) => g.y1 - g.y0 }

  function IsWide(): Glyph -> bool { (g: Glyph) => g.x0 < g.x1 }

  function WidthOf(): Glyph -> real { (g: Glyph) => g.x1 - g.x0 }

  /** The median of the sizes of those glyphs that have one, or 1 when none has. */
  ghost predicate IsTypical(m: real, glyphs: seq<Glyph>, has: Glyph -> bool, size: Glyph -> real) {
    if forall g :: g in glyphs ==> !has(g) then m == 1.0 else IsMedian(m, Map(Filter(glyphs, has), size))
  }

  lemma MapFirst(x: Glyph, rest: seq<Glyph>, size: Glyph -> real)
    ensures Map([x] + rest, size) == [size(x)] + Map(rest, size)
  {
  }

  lemma {:induction false} HeightsAre(glyphs: seq<Glyph>)
    ensures Heights(glyphs) == Map(Filter(glyphs, IsTall()), HeightOf())
  {
    if glyphs != [] {
      HeightsAre(glyphs[1..]);
      MapFirst(glyphs[0], Filter(glyphs[1..], IsTall()), HeightOf());
    }
  }

  lemma {:induction false} WidthsAre(glyphs: seq<Glyph>)
    ensures Widths(glyphs) == Map(Filter(glyphs, IsWide()), WidthOf())
  {
    if glyphs != [] {
      WidthsAre(glyphs[1..]);
      MapFirst(glyphs[0], Filter(glyphs[1..], IsWide()), WidthOf());
    }
  }

  lemma TypicalIs(glyphs: seq<Glyph>, has: Glyph -> bool, size: Glyph -> real)
    ensures IsTypical(MedianOr(Map(Filter(glyphs, has), size), 1.0), glyphs, has, size)
  {
    var s := Map(Filter(glyphs, has), size);
    if s == [] {
      forall g | g in glyphs ensures !has(g) {
        FilterMember(glyphs, has, g);
      }
    } else {
      MedianMeaning(s);
      FilterMember(glyphs, has, Filter(glyphs, has)[0]);
    }
  }

  lemma TypicalHeight(glyphs: seq<Glyph>)
    ensures IsTypical(MedianHeight(glyphs), glyphs, IsTall(), HeightOf())
  {
    HeightsAre(glyphs);
    TypicalIs(glyphs, IsTall(), HeightOf());
  }

  lemma TypicalGap(line: seq<Glyph>, ratio: real) returns (m: real)
    ensures IsTypical(m, line, IsWide(), WidthOf()) && GapThreshold(line, ratio) == m * ratio
  {
    WidthsAre(line);
    TypicalIs(line, IsWide(), WidthOf());
    m := MedianOr(Widths(line), 1.0);
  }

  // ---- Lines ----

  /** The glyphs of a line are at most half of m below its first glyph, and none is above it. */
  ghost predicate IsLine(line: seq<Glyph>, m: real) {
    line != [] && forall g :: g in line ==> 0.0 <= (line[0].y0 + line[0].y1) / 2.0 - (g.y0 + g.y1) / 2.0 <= m / 2.0
  }

  /** The first glyph of each line is more than half of m below that of the line before. */
  ghost predicate LinesApart(lines: seq<seq<Glyph>>, m: real) {
    forall i :: 0 < i < |lines| && lines[i - 1] != [] && lines[i] != [] ==>
      var above, below := lines[i - 1][0], lines[i][0];
      (above.y0 + above.y1) / 2.0 - (below.y0 + below.y1) / 2.0 > m / 2.0
  }

  ghost predicate RunsDown(glyphs: seq<Glyph>) {
    forall i, j :: 0 <= i <= j < |glyphs| ==> glyphs[j].y0 + glyphs[j].y1 <= glyphs[i].y0 + glyphs[i].y1
  }

  lemma {:induction false} LinesRunDown(lines: seq<seq<Glyph>>, medH: real)
    requires ProperLines(lines, medH) && RunsDown(Flatten(lines))
    ensures forall i :: 0 <= i < |lines| ==> IsLine(lines[i], medH)
  {
    if lines != [] {
      var first, rest := lines[0], Flatten(lines[1..]);
      forall i, j | 0 <= i <= j < |rest| ensures rest[j].y0 + rest[j].y1 <= rest[i].y0 + rest[i].y1 {
        assert (first + rest)[|first| + i] == rest[i] && (first + rest)[|first| + j] == rest[j];
      }
      LinesRunDown(lines[1..], medH);
      forall g | g in first ensures 0.0 <= MidY(first[0]) - MidY(g) <= medH / 2.0 {
        var k :| 0 <= k < |first| && first[k] == g;
        assert (first + rest)[0] == first[0] && (first + rest)[k] == g;
        assert SameLine(first, first[k], medH);
      }
    }
  }

  /** The lines of a column: its glyphs from top to bottom, cut wherever one lies more than half a
      typical height below the first of its line. */
  lemma LinesMeaning(chars: seq<Glyph>) returns (m: real)
    ensures IsTypical(m, chars, IsTall(), HeightOf())
    ensures var lines := GlyphLines(chars);
      && multiset(Flatten(lines)) == multiset(chars) && RunsDown(Flatten(lines)) && LinesApart(lines, m)
      && forall i :: 0 <= i < |lines| ==> IsLine(lines[i], m)
  {
    m := MedianHeight(chars);
    TypicalHeight(chars);
    LinesPartitionColumn(chars);
    FlatIsSorted(chars);
    LinesRunDown(GlyphLines(chars), m);
    TopDownApart(GlyphLines(chars), m);
  }

  lemma TopDownApart(lines: seq<seq<Glyph>>, m: real)
    requires TopToBottom(lines, m)
    ensures LinesApart(lines, m)
  {
  }

  lemma FlatIsSorted(chars: seq<Glyph>)
    ensures RunsDown(Flatten(GlyphLines(chars)))
  {
    var medH, ordered := MedianHeight(chars), Sort(chars, FromTop);
    MedianHeightPositive(chars);
    SortSorts(chars, FromTop);
    GroupProper(ordered, medH);
    FinishedFlat(GroupFold(ordered, medH));
    SortedRunsDown(ordered);
  }

  lemma SortedRunsDown(ordered: seq<Glyph>)
    requires Sorted(ordered, FromTop)
    ensures RunsDown(ordered)
  {
    forall i, j | 0 <= i <= j < |ordered| ensures ordered[j].y0 + ordered[j].y1 <= ordered[i].y0 + ordered[i].y1 {
      assert FromTop(ordered[i]) <= FromTop(ordered[j]);
    }
  }

  // ---- The texts of the lines ----

  function LineText(ratio: real, ws: WhiteSpace): seq<Glyph> -> string {
    (line: seq<Glyph>) => JoinLine(line, ratio, ws)
  }

  function NotEmpty(): string -> bool { (text: string) => text != "" }

  ghost predicate LeftToRight(line: seq<Glyph>) {
    forall i, j :: 0 <= i <= j < |line| ==> line[i].x0 <= line[j].x0
  }

  /** Line i of `sorted` is line i of `lines` from left to right. */
  ghost predicate EachLeftToRight(sorted: seq<seq<Glyph>>, lines: seq<seq<Glyph>>) {
    |sorted| == |lines| &&
    forall i :: 0 <= i < |lines| ==> LeftToRight(sorted[i]) && multiset(sorted[i]) == multiset(lines[i])
  }

  lemma SortedLine(line: seq<Glyph>)
    ensures LeftToRight(Sort(line, ByLeftEdge)) && multiset(Sort(line, ByLeftEdge)) == multiset(line)
  {
    SortSorts(line, ByLeftEdge);
    var s := Sort(line, ByLeftEdge);
    forall i, j | 0 <= i <= j < |s| ensures s[i].x0 <= s[j].x0 {
      assert ByLeftEdge(s[i]) <= ByLeftEdge(s[j]);
    }
  }

  lemma NextText(sorted: seq<Glyph>, more: seq<seq<Glyph>>, text: seq<Glyph> -> string)
    ensures Filter(Map([sorted] + more, text), NotEmpty())
         == (if text(sorted) == "" then [] else [text(sorted)]) + Filter(Map(more, text), NotEmpty())
  {
    assert Map([sorted] + more, text) == [text(sorted)] + Map(more, text);
  }

  /** The texts of a column are those of its lines, glyphs from left to right, without the empty ones. */
  lemma {:induction false} TextsMeaning(lines: seq<seq<Glyph>>, ratio: real, ws: WhiteSpace)
      returns (sorted: seq<seq<Glyph>>)
    ensures EachLeftToRight(sorted, lines)
    ensures JoinAll(lines, ratio, ws) == Filter(Map(sorted, LineText(ratio, ws)), NotEmpty())
  {
    if lines == [] {
      return [];
    }
    var more := TextsMeaning(lines[1..], ratio, ws);
    var first := Sort(lines[0], ByLeftEdge);
    SortedLine(lines[0]);
    NextText(first, more, LineText(ratio, ws));
    sorted := [first] + more;
    FirstLeftToRight(first, more, lines);
  }

  lemma FirstLeftToRight(first: seq<Glyph>, more: seq<seq<Glyph>>, lines: seq<seq<Glyph>>)
    requires lines != [] && LeftToRight(first) && multiset(first) == multiset(lines[0])
    requires EachLeftToRight(more, lines[1..])
    ensures EachLeftToRight([first] + more, lines)
  {
    forall i | 0 < i < |lines| ensures ([first] + more)[i] == more[i - 1] && lines[i] == lines[1..][i - 1] {
    }
  }

  // ---- Punctuation lines ----

  /** The text of the line between its outer white space has one to four characters, all of them
      marks or white space. */
  ghost predicate IsPunctuation(line: string, mark: Punctuation, ws: WhiteSpace) {
    exists from: nat, to: nat :: Between(line, from, to, ws) && to - from <= 4
      && forall i :: from <= i < to ==> mark(line[i]) || ws(line[i])
  }

  ghost predicate Between(line: string, from: nat, to: nat, ws: WhiteSpace) {
    && from < to <= |line| && !ws(line[from]) && !ws(line[to - 1])
    && (forall i :: 0 <= i < from ==> ws(line[i])) && forall i :: to <= i < |line| ==> ws(line[i])
  }

  lemma StripIs(line: string, from: nat, to: nat, ws: WhiteSpace)
    requires Between(line, from, to, ws)
    ensures Strip(line, ws) == line[from..to]
  {
    SpanIs(line, ws, from);
    var rest := line[from..];
    forall i | to - from <= i < |rest| ensures ws(rest[i]) {
      assert rest[i] == line[from + i];
    }
    RStripIs(rest, ws, line[from..to]);
  }

  lemma OrphanMeaning(line: string, mark: Punctuation, ws: WhiteSpace)
    ensures Orphan(line, mark, ws) <==> IsPunctuation(line, mark, ws)
  {
    if Strip(line, ws) != "" {
      var from := Span(line, ws);
      var to := from + |Strip(line, ws)|;
      var rest := line[from..];
      forall i | to <= i < |line| ensures ws(line[i]) {
        assert line[i] == rest[i - from];
      }
      assert Between(line, from, to, ws);
      StripIs(line, from, to, ws);
    }
    forall from: nat, to: nat | Between(line, from, to, ws) ensures Strip(line, ws) == line[from..to] {
      StripIs(line, from, to, ws);
    }
  }

  /** A line is attached without its white space, unless the text before it is empty or ends in a space
      or a hyphen; then a space is put between them. */
  lemma AttachMeaning(prev: string, line: string, mark: Punctuation, ws: WhiteSpace)
    requires IsPunctuation(line, mark, ws)
    ensures prev != "" && prev[|prev| - 1] != ' ' && prev[|prev| - 1] != '-' ==>
      Attach(prev, line, ws) == prev + Inked(line, ws)
    ensures prev == "" || prev[|prev| - 1] == ' ' || prev[|prev| - 1] == '-' ==>
      Attach(prev, line, ws) == Strip(prev + [' '] + Strip(line, ws), ws)
  {
    StripKeepsInk(line, ws);
    var from: nat, to: nat :| Between(line, from, to, ws);
    FilterMember(line, Ink(ws), line[from]);
  }

  /** A line and the punctuation lines behind it. */
  function Attached(part: seq<string>, ws: WhiteSpace): string
    requires part != []
  {
    if |part| == 1 then part[0] else Attach(Attached(part[..|part| - 1], ws), part[|part| - 1], ws)
  }

  /** The text of a merged line, given the lines it is made of. */
  type Texting = seq<string> -> string

  function InOrder(ws: WhiteSpace): Texting { (part: seq<string>) => if part == [] then "" else Attached(part, ws) }

  function EndOf(heads: seq<nat>, j: nat, n: nat): nat { if j + 1 < |heads| then heads[j + 1] else n }

  /** Every merged line is a line and the punctuation lines behind it. */
  ghost predicate MergedAt(merged: seq<string>, heads: seq<nat>, lines: seq<string>, text: Texting) {
    |merged| == |heads| &&
    forall j {:trigger EndOf(heads, j, |lines|)} :: 0 <= j < |heads| ==>
      PartAt(merged[j], heads[j], EndOf(heads, j, |lines|), lines, text)
  }

  /** Merged lines start at the first line and at all lines that are no punctuation lines. */
  ghost predicate HeadsOf(heads: seq<nat>, lines: seq<string>, mark: Punctuation, ws: WhiteSpace) {
    && Ascending(heads)
    && forall i: nat :: i in heads <==> i < |lines| && (i == 0 || !IsPunctuation(lines[i], mark, ws))
  }

  ghost predicate PartAt(merged: string, from: nat, to: nat, lines: seq<string>, text: Texting) {
    from < to <= |lines| && merged == text(lines[from..to])
  }

  lemma PartStays(merged: string, from: nat, to: nat, lines: seq<string>, line: string, text: Texting)
    requires PartAt(merged, from, to, lines, text)
    ensures PartAt(merged, from, to, lines + [line], text)
  {
    assert (lines + [line])[from..to] == lines[from..to];
  }

  lemma PartGrows(merged: string, from: nat, lines: seq<string>, line: string, ws: WhiteSpace)
    requires PartAt(merged, from, |lines|, lines, InOrder(ws))
    ensures PartAt(Attach(merged, line, ws), from, |lines| + 1, lines + [line], InOrder(ws))
  {
    AttachedSnoc(lines[from..|lines|], line, ws);
    assert (lines + [line])[from..|lines| + 1] == lines[from..|lines|] + [line];
  }

  lemma AttachedSnoc(part: seq<string>, line: string, ws: WhiteSpace)
    requires part != []
    ensures InOrder(ws)(part + [line]) == Attach(InOrder(ws)(part), line, ws)
    ensures InOrder(ws)([line]) == line
  {
    assert (part + [line])[..|part|] == part;
  }

  lemma NewHead(merged: seq<string>, heads: seq<nat>, lines: seq<string>, line: string, text: Texting)
    requires MergedAt(merged, heads, lines, text) && text([line]) == line
    ensures MergedAt(merged + [line], heads + [|lines|], lines + [line], text)
  {
    var n, heads' := |lines|, heads + [|lines|];
    forall j: nat | j < |heads'|
      ensures PartAt((merged + [line])[j], heads'[j], EndOf(heads', j, n + 1), lines + [line], text)
    {
      if j < |heads| {
        PartStays(merged[j], heads[j], EndOf(heads, j, n), lines, line, text);
      } else {
        assert (lines + [line])[n..n + 1] == [line];
      }
    }
  }

  /** All merged lines but the last are as before. */
  ghost predicate SameFront(merged: seq<string>, merged': seq<string>) {
    |merged'| == |merged| && forall j :: 0 <= j < |merged| - 1 ==> merged'[j] == merged[j]
  }

  lemma LongerLast(merged: seq<string>, merged': seq<string>, heads: seq<nat>,
      lines: seq<string>, line: string, text: Texting)
    requires MergedAt(merged, heads, lines, text) && merged != [] && SameFront(merged, merged')
    requires PartAt(merged'[|merged| - 1], heads[|merged| - 1], |lines| + 1, lines + [line], text)
    ensures MergedAt(merged', heads, lines + [line], text)
  {
    var m, n := |merged| - 1, |lines|;
    forall j: nat | j < |heads|
      ensures PartAt(merged'[j], heads[j], EndOf(heads, j, n + 1), lines + [line], text)
    {
      if j < m {
        PartStays(merged[j], heads[j], EndOf(heads, j, n), lines, line, text);
      }
    }
  }

  lemma MoreHeads(heads: seq<nat>, lines: seq<string>, line: string, mark: Punctuation, ws: WhiteSpace)
    requires HeadsOf(heads, lines, mark, ws)
    ensures lines != [] && IsPunctuation(line, mark, ws) ==> HeadsOf(heads, lines + [line], mark, ws)
    ensures lines == [] || !IsPunctuation(line, mark, ws) ==> HeadsOf(heads + [|lines|], lines + [line], mark, ws)
  {
    var n := |lines|;
    forall i: nat | i < n ensures (lines + [line])[i] == lines[i] {
    }
    assert forall j :: 0 <= j < |heads| ==> heads[j] in heads;
  }

  lemma NextHeads(heads: seq<nat>, lines: seq<string>, line: string, mark: Punctuation, ws: WhiteSpace)
    returns (heads': seq<nat>)
    requires HeadsOf(heads, lines, mark, ws)
    ensures HeadsOf(heads', lines + [line], mark, ws)
    ensures heads' == if lines != [] && Orphan(line, mark, ws) then heads else heads + [|lines|]
  {
    OrphanMeaning(line, mark, ws);
    MoreHeads(heads, lines, line, mark, ws);
    heads' := if lines != [] && Orphan(line, mark, ws) then heads else heads + [|lines|];
  }

  lemma MergingStep(merged: seq<string>, heads: seq<nat>, lines: seq<string>, line: string,
      mark: Punctuation, ws: WhiteSpace)
    requires MergedAt(merged, heads, lines, InOrder(ws)) && (lines != [] <==> merged != [])
    ensures MergedAt(MergeStep(merged, line, mark, ws),
      if lines != [] && Orphan(line, mark, ws) then heads else heads + [|lines|], lines + [line], InOrder(ws))
  {
    if lines != [] && Orphan(line, mark, ws) {
      var m := |merged| - 1;
      assert PartAt(merged[m], heads[m], EndOf(heads, m, |lines|), lines, InOrder(ws));
      PartGrows(merged[m], heads[m], lines, line, ws);
      LongerLast(merged, MergeStep(merged, line, mark, ws), heads, lines, line, InOrder(ws));
    } else {
      AttachedSnoc([line], line, ws);
      NewHead(merged, heads, lines, line, InOrder(ws));
    }
  }

  lemma MergedNotEmpty(lines: seq<string>, mark: Punctuation, ws: WhiteSpace)
    ensures lines != [] <==> MergeOrphans(lines, mark, ws) != []
  {
  }

  /** The merged lines: each is a line that is no punctuation line, or the first, with the punctuation
      lines directly behind it attached one after the other. */
  lemma {:induction false} MergeMeaning(lines: seq<string>, mark: Punctuation, ws: WhiteSpace) returns (heads: seq<nat>)
    ensures HeadsOf(heads, lines, mark, ws) && MergedAt(MergeOrphans(lines, mark, ws), heads, lines, InOrder(ws))
  {
    if lines == [] {
      return [];
    }
    var front, last := lines[..|lines| - 1], lines[|lines| - 1];
    assert lines == front + [last];
    heads := MergeMeaning(front, mark, ws);
    MergedNotEmpty(front, mark, ws);
    MergingStep(MergeOrphans(front, mark, ws), heads, front, last, mark, ws);
    heads := NextHeads(heads, front, last, mark, ws);
  }
}
