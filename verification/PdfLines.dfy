/** Grouping the glyphs of a column into lines and joining each line into text. */
module PdfLines {
  import opened Options
  import opened Seqs
  import opened StableSort
  import opened Strings

  import opened PdfGlyphs

  // `ws` says which characters are white space (Python's `str.isspace`); all that is assumed of it
  // is that the plain space is one of them.

  type WhiteSpace = char -> bool

  // ---- Medians ----

  function Itself(x: real): real { x }

  /** `statistics.median`: the middle of the sorted values, or the mean of the middle two. */
  function Median(s: seq<real>): real
    requires s != []
  {
    SortLength(s, Itself);
    var t, n := Sort(s, Itself), |s|;
    if n % 2 == 1 then t[n / 2] else (t[n / 2 - 1] + t[n / 2]) / 2.0
  }

  lemma {:induction false} SortLength<T>(s: seq<T>, key: T -> real)
    ensures |Sort(s, key)| == |s|
  {
    SortSorts(s, key);
  }

  function Heights(chars: seq<Glyph>): seq<real> {
    if chars == [] then [] else
    var h := chars[0].y1 - chars[0].y0;
    (if h > 0.0 then [h] else []) + Heights(chars[1..])
  }

  function Widths(chars: seq<Glyph>): seq<real> {
    if chars == [] then [] else
    var w := chars[0].x1 - chars[0].x0;
    (if w > 0.0 then [w] else []) + Widths(chars[1..])
  }

  function MedianOr(s: seq<real>, default: real): real {
    if s == [] then default else Median(s)
  }

  // ---- Grouping ----

  function FromTop(g: Glyph): real { -MidY(g) }

  function ByLeftEdge(g: Glyph): real { g.x0 }

  function Distance(a: real, b: real): real { if a < b then b - a else a - b }

  datatype Grouping = Grouping(done: seq<seq<Glyph>>, cur: seq<Glyph>)

  /** The current line's reference height is the middle of its first glyph. */
  predicate SameLine(line: seq<Glyph>, g: Glyph, medH: real)
    requires line != []
  {
    Distance(MidY(g), MidY(line[0])) <= medH / 2.0
  }

  function GroupStep(st: Grouping, g: Glyph, medH: real): Grouping {
    if st.cur == [] || SameLine(st.cur, g, medH) then st.(cur := st.cur + [g])
    else Grouping(st.done + [st.cur], [g])
  }

  function GroupFold(ordered: seq<Glyph>, medH: real): Grouping {
    if ordered == [] then Grouping([], [])
    else GroupStep(GroupFold(ordered[..|ordered| - 1], medH), ordered[|ordered| - 1], medH)
  }

  function Finished(st: Grouping): seq<seq<Glyph>> {
    if st.cur == [] then st.done else st.done + [st.cur]
  }

  function MedianHeight(chars: seq<Glyph>): real { MedianOr(Heights(chars), 1.0) }

  function GlyphLines(chars: seq<Glyph>): seq<seq<Glyph>> {
    Finished(GroupFold(Sort(chars, FromTop), MedianHeight(chars)))
  }

  /** A proper line is not empty and every glyph's middle is within half the median height of the
      middle of the line's first glyph. */
  predicate ProperLine(line: seq<Glyph>, medH: real) {
    line != [] && forall i :: 0 <= i < |line| ==> SameLine(line, line[i], medH)
  }

  predicate ProperLines(lines: seq<seq<Glyph>>, medH: real) {
    forall i :: 0 <= i < |lines| ==> ProperLine(lines[i], medH)
  }

  lemma {:induction false} GroupProper(ordered: seq<Glyph>, medH: real)
    requires medH >= 0.0
    ensures var st := GroupFold(ordered, medH);
            && ProperLines(st.done, medH) && (st.cur != [] ==> ProperLine(st.cur, medH))
            && Flatten(st.done) + st.cur == ordered
            && (st.cur == [] ==> ordered == [])
  {
    if ordered != [] {
      var front, g := ordered[..|ordered| - 1], ordered[|ordered| - 1];
      assert ordered == front + [g];
      GroupProper(front, medH);
      GroupStepProper(GroupFold(front, medH), g, medH);
    }
  }

  lemma GroupStepProper(st: Grouping, g: Glyph, medH: real)
    requires medH >= 0.0
    requires ProperLines(st.done, medH) && (st.cur != [] ==> ProperLine(st.cur, medH))
    ensures var st' := GroupStep(st, g, medH);
            && ProperLines(st'.done, medH) && ProperLine(st'.cur, medH)
            && Flatten(st'.done) + st'.cur == Flatten(st.done) + st.cur + [g]
  {
    FlattenAppend(st.done, [st.cur]);
    assert Flatten([st.cur]) == st.cur + Flatten<Glyph>([]);
    if st.cur != [] && SameLine(st.cur, g, medH) {
      assert (st.cur + [g])[0] == st.cur[0];
    }
  }

  /** Lines run top to bottom: each line's first glyph lies more than half the median height below
      that of the line before it. */
  predicate TopToBottom(lines: seq<seq<Glyph>>, medH: real) {
    && (forall i :: 0 <= i < |lines| ==> lines[i] != [])
    && (forall i :: 0 < i < |lines| ==> MidY(lines[i][0]) < MidY(lines[i - 1][0]) - medH / 2.0)
  }

  lemma {:induction false} GroupDown(ordered: seq<Glyph>, medH: real)
    requires medH >= 0.0 && Sorted(ordered, FromTop)
    ensures TopToBottom(Finished(GroupFold(ordered, medH)), medH)
    ensures ordered != [] ==>
              var cur := GroupFold(ordered, medH).cur;
              cur != [] && MidY(ordered[|ordered| - 1]) <= MidY(cur[0])
  {
    if ordered != [] {
      var n := |ordered| - 1;
      var front, g := ordered[..n], ordered[n];
      GroupDown(front, medH);
      var st := GroupFold(front, medH);
      if n > 0 {
        assert FromTop(ordered[n - 1]) <= FromTop(ordered[n]);
        assert front[n - 1] == ordered[n - 1];
        GroupStepDown(st, g, medH);
      } else {
        assert st == Grouping([], []);
      }
    }
  }

  lemma GroupStepDown(st: Grouping, g: Glyph, medH: real)
    requires medH >= 0.0 && st.cur != [] && TopToBottom(Finished(st), medH) && MidY(g) <= MidY(st.cur[0])
    ensures TopToBottom(Finished(GroupStep(st, g, medH)), medH)
    ensures GroupStep(st, g, medH).cur != [] && MidY(g) <= MidY(GroupStep(st, g, medH).cur[0])
  {
    var old', new' := Finished(st), Finished(GroupStep(st, g, medH));
    var k := |st.done|;
    if SameLine(st.cur, g, medH) {
      forall i | 0 <= i < |new'| ensures new'[i] != [] && new'[i][0] == old'[i][0] {
        assert i < k ==> new'[i] == old'[i];
      }
    } else {
      assert forall i :: 0 <= i <= k ==> new'[i] == old'[i];
      assert new'[k + 1] == [g] && new'[k] == st.cur;
    }
  }

  lemma {:induction false} HeightsPositive(chars: seq<Glyph>)
    ensures forall i :: 0 <= i < |Heights(chars)| ==> Heights(chars)[i] > 0.0
  {
    if chars != [] {
      HeightsPositive(chars[1..]);
    }
  }

  lemma MedianHeightPositive(chars: seq<Glyph>)
    ensures MedianHeight(chars) > 0.0
  {
    HeightsPositive(chars);
    if Heights(chars) != [] {
      var s := Heights(chars);
      SortSorts(s, Itself);
      var t := Sort(s, Itself);
      forall i | 0 <= i < |t| ensures t[i] > 0.0 {
        SortMembers(s, Itself, t[i]);
      }
    }
  }

  lemma FinishedFlat(st: Grouping)
    ensures Flatten(Finished(st)) == Flatten(st.done) + st.cur
  {
    FlattenAppend(st.done, [st.cur]);
    assert Flatten([st.cur]) == st.cur + Flatten<Glyph>([]);
  }

  /** The lines of a column contain each glyph of the column once, no line mixes heights further
      apart than the threshold allows, and they run from top to bottom. */
  lemma LinesPartitionColumn(chars: seq<Glyph>)
    ensures multiset(Flatten(GlyphLines(chars))) == multiset(chars)
    ensures ProperLines(GlyphLines(chars), MedianHeight(chars))
    ensures TopToBottom(GlyphLines(chars), MedianHeight(chars))
  {
    var medH, ordered := MedianHeight(chars), Sort(chars, FromTop);
    MedianHeightPositive(chars);
    SortSorts(chars, FromTop);
    GroupProper(ordered, medH);
    GroupDown(ordered, medH);
    FinishedFlat(GroupFold(ordered, medH));
    assert ProperLines(Finished(GroupFold(ordered, medH)), medH);
  }

  /** The grouping loop. */
  method GroupGlyphs(chars: seq<Glyph>) returns (lines: seq<seq<Glyph>>)
    ensures lines == GlyphLines(chars)
  {
    var medH, ordered := MedianHeight(chars), Sort(chars, FromTop);
    var cur: seq<Glyph>, ref: Option<real> := [], None;
    lines := [];
    for i := 0 to |ordered|
      invariant GroupFold(ordered[..i], medH) == Grouping(lines, cur)
      invariant ref == if cur == [] then None else Some(MidY(cur[0]))
    {
      assert ordered[..i + 1][..i] == ordered[..i];
      var c := ordered[i];
      var yc := MidY(c);
      if ref.None? || Distance(yc, ref.value) <= medH / 2.0 {
        cur := cur + [c];
        ref := if ref.None? then Some(yc) else ref;
      } else {
        lines := lines + [cur];
        cur := [c];
        ref := Some(yc);
      }
    }
    assert ordered[..|ordered|] == ordered;
    if cur != [] {
      lines := lines + [cur];
    }
  }

  // ---- Text ----

  function Chars(glyphs: seq<Glyph>): string {
    if glyphs == [] then "" else glyphs[0].ch + Chars(glyphs[1..])
  }

  function Ink(ws: WhiteSpace): char -> bool { c => !ws(c) }

  /** A text without its white space. */
  function Inked(text: string, ws: WhiteSpace): string { Filter(text, Ink(ws)) }

  predicate IsSpace(s: string, ws: WhiteSpace) { s != "" && forall i :: 0 <= i < |s| ==> ws(s[i]) }

  lemma StripKeepsInk(s: string, ws: WhiteSpace)
    ensures Inked(Strip(s, ws), ws) == Inked(s, ws)
  {
    var left := LStrip(s, ws);
    var n, text := |s| - |left|, Strip(s, ws);
    assert s == s[..n] + left && left == text + left[|text|..];
    FilterNone(s[..n], Ink(ws));
    FilterAppend(s[..n], left, Ink(ws));
    FilterNone(left[|text|..], Ink(ws));
    FilterAppend(text, left[|text|..], Ink(ws));
  }

  /** Joins the parts of a line, as `"".join(parts)`. */
  function Concat(parts: seq<string>): string { Flatten(parts) }

  predicate EndsWithSpace(s: string) { s != "" && s[|s| - 1] == ' ' }

  /** What one glyph adds to the line: nothing, itself, or a word space and itself. */
  function GlyphParts(lastPart: string, prev: Glyph, cur: Glyph, threshold: real, ws: WhiteSpace): seq<string> {
    if IsSpace(cur.ch, ws) || IsSpace(prev.ch, ws) then
      if !IsSpace(cur.ch, ws) || !EndsWithSpace(lastPart) then [cur.ch] else []
    else if cur.x0 - prev.x1 > threshold then [" ", cur.ch]
    else [cur.ch]
  }

  function LineParts(line: seq<Glyph>, threshold: real, ws: WhiteSpace): (parts: seq<string>)
    requires line != []
    ensures parts != []
  {
    if |line| == 1 then [line[0].ch] else
    var n := |line| - 1;
    var parts := LineParts(line[..n], threshold, ws);
    parts + GlyphParts(parts[|parts| - 1], line[n - 1], line[n], threshold, ws)
  }

  function GapThreshold(line: seq<Glyph>, ratio: real): real { MedianOr(Widths(line), 1.0) * ratio }

  function JoinLine(line: seq<Glyph>, ratio: real, ws: WhiteSpace): string {
    if line == [] then "" else Strip(Concat(LineParts(line, GapThreshold(line, ratio), ws)), ws)
  }

  lemma ConcatOne(part: string)
    ensures Concat([part]) == part
  {
    assert [part][1..] == [];
    assert Flatten([part]) == part + Flatten<char>([]);
  }

  lemma PartsKeepInk(lastPart: string, prev: Glyph, cur: Glyph, threshold: real, ws: WhiteSpace)
    requires ws(' ')
    ensures Inked(Concat(GlyphParts(lastPart, prev, cur, threshold, ws)), ws) == Inked(cur.ch, ws)
  {
    var parts := GlyphParts(lastPart, prev, cur, threshold, ws);
    if parts == [] {
      FilterNone(cur.ch, Ink(ws));
    } else if |parts| == 1 {
      ConcatOne(cur.ch);
    } else {
      assert parts[1..] == [cur.ch];
      ConcatOne(cur.ch);
      FilterAppend(" ", cur.ch, Ink(ws));
      FilterNone(" ", Ink(ws));
    }
  }

  lemma {:induction false} CharsAppend(a: seq<Glyph>, b: seq<Glyph>)
    ensures Chars(a + b) == Chars(a) + Chars(b)
  {
    if a == [] {
      assert a + b == b;
    } else {
      assert (a + b)[0] == a[0] && (a + b)[1..] == a[1..] + b;
      CharsAppend(a[1..], b);
      assert Chars(a + b) == a[0].ch + Chars(a[1..] + b);
    }
  }

  lemma CharsOne(g: Glyph)
    ensures Chars([g]) == g.ch
  {
    assert Chars([g]) == g.ch + Chars([]);
  }

  lemma {:induction false} LinePartsKeepInk(line: seq<Glyph>, threshold: real, ws: WhiteSpace)
    requires line != [] && ws(' ')
    ensures Inked(Concat(LineParts(line, threshold, ws)), ws) == Inked(Chars(line), ws)
  {
    if |line| == 1 {
      assert line == [line[0]];
      ConcatOne(line[0].ch);
      CharsOne(line[0]);
    } else {
      var n := |line| - 1;
      assert line == line[..n] + [line[n]];
      var parts := LineParts(line[..n], threshold, ws);
      var more := GlyphParts(parts[|parts| - 1], line[n - 1], line[n], threshold, ws);
      LinePartsKeepInk(line[..n], threshold, ws);
      PartsKeepInk(parts[|parts| - 1], line[n - 1], line[n], threshold, ws);
      FlattenAppend(parts, more);
      FilterAppend(Concat(parts), Concat(more), Ink(ws));
      CharsAppend(line[..n], [line[n]]);
      CharsOne(line[n]);
      FilterAppend(Chars(line[..n]), line[n].ch, Ink(ws));
    }
  }

  /** Joining adds and drops white space only: the ink of the text is the ink of the glyphs, in
      the order of the line. */
  lemma JoinKeepsInk(line: seq<Glyph>, ratio: real, ws: WhiteSpace)
    requires ws(' ')
    ensures Inked(JoinLine(line, ratio, ws), ws) == Inked(Chars(line), ws)
  {
    if line != [] {
      var text := Concat(LineParts(line, GapThreshold(line, ratio), ws));
      LinePartsKeepInk(line, GapThreshold(line, ratio), ws);
      StripKeepsInk(text, ws);
    }
  }

  lemma LinePartsPrefix(line: seq<Glyph>, threshold: real, ws: WhiteSpace, i: nat)
    requires 0 < i < |line|
    ensures var parts := LineParts(line[..i], threshold, ws);
            LineParts(line[..i + 1], threshold, ws)
            == parts + GlyphParts(parts[|parts| - 1], line[i - 1], line[i], threshold, ws)
  {
    assert line[..i + 1][..i] == line[..i];
  }

  /** The parts that a glyph adds behind those so far. */
  method AddGlyph(before: seq<string>, prev: Glyph, cur: Glyph, threshold: real, ws: WhiteSpace)
      returns (parts: seq<string>)
    requires before != []
    ensures parts == before + GlyphParts(before[|before| - 1], prev, cur, threshold, ws)
  {
    parts := before;
    if IsSpace(cur.ch, ws) || IsSpace(prev.ch, ws) {
      if !IsSpace(cur.ch, ws) || !EndsWithSpace(parts[|parts| - 1]) {
        parts := parts + [cur.ch];
      }
    } else {
      if cur.x0 - prev.x1 > threshold {
        parts := parts + [" "];
      }
      parts := parts + [cur.ch];
    }
  }

  /** The joining loop over a line that is not empty. */
  method JoinParts(line: seq<Glyph>, threshold: real, ws: WhiteSpace) returns (parts: seq<string>)
    requires line != []
    ensures parts == LineParts(line, threshold, ws)
  {
    parts := [line[0].ch];
    for i := 1 to |line|
      invariant parts == LineParts(line[..i], threshold, ws)
    {
      LinePartsPrefix(line, threshold, ws, i);
      parts := AddGlyph(parts, line[i - 1], line[i], threshold, ws);
    }
    assert line[..|line|] == line;
  }

  method JoinLineGlyphs(line: seq<Glyph>, ratio: real, ws: WhiteSpace) returns (text: string)
    ensures text == JoinLine(line, ratio, ws)
  {
    if line == [] {
      return "";
    }
    var parts := JoinParts(line, GapThreshold(line, ratio), ws);
    text := Strip(Concat(parts), ws);
  }

  // ---- The text lines of a column ----

  function JoinAll(lines: seq<seq<Glyph>>, ratio: real, ws: WhiteSpace): seq<string> {
    if lines == [] then [] else
    var text := JoinLine(Sort(lines[0], ByLeftEdge), ratio, ws);
    (if text == "" then [] else [text]) + JoinAll(lines[1..], ratio, ws)
  }

  function TextLines(chars: seq<Glyph>, ratio: real, ws: WhiteSpace): seq<string> {
    JoinAll(GlyphLines(chars), ratio, ws)
  }

  function SortLines(lines: seq<seq<Glyph>>): seq<Glyph> {
    if lines == [] then [] else Sort(lines[0], ByLeftEdge) + SortLines(lines[1..])
  }

  /** The text of a column carries the ink of its glyphs line by line and, within a line, from
      left to right. Only lines without ink are dropped. */
  lemma {:induction false} TextCarriesInk(lines: seq<seq<Glyph>>, ratio: real, ws: WhiteSpace)
    requires ws(' ')
    ensures Inked(Concat(JoinAll(lines, ratio, ws)), ws) == Inked(Chars(SortLines(lines)), ws)
  {
    if lines != [] {
      var sorted, rest := Sort(lines[0], ByLeftEdge), JoinAll(lines[1..], ratio, ws);
      var text := JoinLine(sorted, ratio, ws);
      TextCarriesInk(lines[1..], ratio, ws);
      JoinKeepsInk(sorted, ratio, ws);
      CharsAppend(sorted, SortLines(lines[1..]));
      FilterAppend(Chars(sorted), Chars(SortLines(lines[1..])), Ink(ws));
      FilterAppend(text, Concat(rest), Ink(ws));
      FirstPart(text, rest);
    }
  }

  lemma FirstPart(text: string, rest: seq<string>)
    ensures Concat((if text == "" then [] else [text]) + rest) == text + Concat(rest)
  {
    if text == "" {
      assert [] + rest == rest;
    } else {
      assert ([text] + rest)[1..] == rest;
    }
  }

  lemma {:induction false} SortLinesPermutes(lines: seq<seq<Glyph>>)
    ensures multiset(SortLines(lines)) == multiset(Flatten(lines))
  {
    if lines != [] {
      SortLinesPermutes(lines[1..]);
      SortSorts(lines[0], ByLeftEdge);
    }
  }

  function InkOfGlyph(ws: WhiteSpace): Glyph -> string { (g: Glyph) => Inked(g.ch, ws) }

  lemma {:induction false} InkByGlyph(a: seq<Glyph>, ws: WhiteSpace)
    ensures Inked(Chars(a), ws) == FlatMap(a, InkOfGlyph(ws))
  {
    if a != [] {
      InkByGlyph(a[1..], ws);
      FilterAppend(a[0].ch, Chars(a[1..]), Ink(ws));
    }
  }

  /** The inked characters do not depend on the order of the glyphs. */
  lemma InkOfPermutation(a: seq<Glyph>, b: seq<Glyph>, ws: WhiteSpace)
    requires multiset(a) == multiset(b)
    ensures multiset(Inked(Chars(a), ws)) == multiset(Inked(Chars(b), ws))
  {
    InkByGlyph(a, ws);
    InkByGlyph(b, ws);
    FlatMapPermutes(a, b, InkOfGlyph(ws));
  }

  /** No inked character of a column is lost, repeated or invented on the way to its text lines. */
  lemma ColumnTextConservesInk(chars: seq<Glyph>, ratio: real, ws: WhiteSpace)
    requires ws(' ')
    ensures multiset(Inked(Concat(TextLines(chars, ratio, ws)), ws)) == multiset(Inked(Chars(chars), ws))
  {
    var lines := GlyphLines(chars);
    TextCarriesInk(lines, ratio, ws);
    LinesPartitionColumn(chars);
    SortLinesPermutes(lines);
    InkOfPermutation(SortLines(lines), chars, ws);
  }

  // ---- Punctuation that sits on its own line ----

  type Punctuation = char -> bool

  /** A line of at most four characters, all of them punctuation or white space. */
  predicate Orphan(line: string, mark: Punctuation, ws: WhiteSpace) {
    var t := Strip(line, ws);
    t != "" && |t| <= 4 && forall i :: 0 <= i < |t| ==> mark(t[i]) || ws(t[i])
  }

  function Attach(prev: string, line: string, ws: WhiteSpace): string {
    var t := Strip(line, ws);
    var suffix := Inked(t, ws);
    if suffix != "" && prev != "" && !EndsWithSpace(prev) && prev[|prev| - 1] != '-' then prev + suffix
    else Strip(prev + " " + t, ws)
  }

  function MergeStep(merged: seq<string>, line: string, mark: Punctuation, ws: WhiteSpace): seq<string> {
    if merged != [] && Orphan(line, mark, ws)
    then merged[..|merged| - 1] + [Attach(merged[|merged| - 1], line, ws)]
    else merged + [line]
  }

  function MergeOrphans(lines: seq<string>, mark: Punctuation, ws: WhiteSpace): seq<string> {
    if lines == [] then []
    else MergeStep(MergeOrphans(lines[..|lines| - 1], mark, ws), lines[|lines| - 1], mark, ws)
  }

  lemma {:induction false} InkedTwice(s: string, ws: WhiteSpace)
    ensures Inked(Inked(s, ws), ws) == Inked(s, ws)
  {
    forall i | 0 <= i < |Inked(s, ws)| ensures Ink(ws)(Inked(s, ws)[i]) {
      FilterMember(s, Ink(ws), Inked(s, ws)[i]);
    }
    FilterAll(Inked(s, ws), Ink(ws));
  }

  lemma SuffixKeepsInk(prev: string, t: string, ws: WhiteSpace)
    ensures Inked(prev + Inked(t, ws), ws) == Inked(prev, ws) + Inked(t, ws)
  {
    InkedTwice(t, ws);
    FilterAppend(prev, Inked(t, ws), Ink(ws));
  }

  lemma SpacedKeepsInk(prev: string, t: string, ws: WhiteSpace)
    requires ws(' ')
    ensures Inked(prev + " " + t, ws) == Inked(prev, ws) + Inked(t, ws)
  {
    FilterAppend(prev + " ", t, Ink(ws));
    FilterAppend(prev, " ", Ink(ws));
    FilterNone(" ", Ink(ws));
  }

  lemma AttachKeepsInk(prev: string, line: string, ws: WhiteSpace)
    requires ws(' ')
    ensures Inked(Attach(prev, line, ws), ws) == Inked(prev, ws) + Inked(line, ws)
  {
    var t := Strip(line, ws);
    StripKeepsInk(line, ws);
    SuffixKeepsInk(prev, t, ws);
    SpacedKeepsInk(prev, t, ws);
    StripKeepsInk(prev + " " + t, ws);
  }

  lemma ConcatLast(parts: seq<string>, last: string)
    ensures Concat(parts + [last]) == Concat(parts) + last
  {
    FlattenAppend(parts, [last]);
    ConcatOne(last);
  }

  lemma MergeStepKeepsInk(merged: seq<string>, line: string, mark: Punctuation, ws: WhiteSpace)
    requires ws(' ')
    ensures Inked(Concat(MergeStep(merged, line, mark, ws)), ws) == Inked(Concat(merged), ws) + Inked(line, ws)
  {
    if merged != [] && Orphan(line, mark, ws) {
      var front, last := merged[..|merged| - 1], merged[|merged| - 1];
      assert merged == front + [last];
      ConcatLast(front, last);
      ConcatLast(front, Attach(last, line, ws));
      AttachKeepsInk(last, line, ws);
      FilterAppend(Concat(front), last, Ink(ws));
      FilterAppend(Concat(front), Attach(last, line, ws), Ink(ws));
    } else {
      ConcatLast(merged, line);
      FilterAppend(Concat(merged), line, Ink(ws));
    }
  }

  /** Moving orphaned punctuation to the line above keeps all ink, in order. */
  lemma {:induction false} MergeKeepsInk(lines: seq<string>, mark: Punctuation, ws: WhiteSpace)
    requires ws(' ')
    ensures Inked(Concat(MergeOrphans(lines, mark, ws)), ws) == Inked(Concat(lines), ws)
  {
    if lines != [] {
      var front, last := lines[..|lines| - 1], lines[|lines| - 1];
      assert lines == front + [last];
      MergeKeepsInk(front, mark, ws);
      MergeStepKeepsInk(MergeOrphans(front, mark, ws), last, mark, ws);
      ConcatLast(front, last);
      FilterAppend(Concat(front), last, Ink(ws));
    }
  }

  lemma MergePrefix(lines: seq<string>, mark: Punctuation, ws: WhiteSpace, i: nat)
    requires i < |lines|
    ensures MergeOrphans(lines[..i + 1], mark, ws) == MergeStep(MergeOrphans(lines[..i], mark, ws), lines[i], mark, ws)
  {
    assert lines[..i + 1][..i] == lines[..i];
  }

  /** One line: attached to the last merged line in place, or added as a line of its own. */
  method MergeLine(before: seq<string>, line: string, mark: Punctuation, ws: WhiteSpace) returns (merged: seq<string>)
    ensures merged == MergeStep(before, line, mark, ws)
  {
    merged := before;
    var last := |merged| - 1;
    if merged != [] && Orphan(line, mark, ws) {
      var text := Attach(merged[last], line, ws);
      assert merged[last := text] == merged[..last] + [text];
      merged := merged[last := text];
    } else {
      merged := merged + [line];
    }
  }

  /** The merging loop, which rewrites the last merged line in place. */
  method MergeOrphanLines(lines: seq<string>, mark: Punctuation, ws: WhiteSpace) returns (merged: seq<string>)
    ensures merged == MergeOrphans(lines, mark, ws)
  {
    merged := [];
    for i := 0 to |lines|
      invariant merged == MergeOrphans(lines[..i], mark, ws)
    {
      MergePrefix(lines, mark, ws, i);
      merged := MergeLine(merged, lines[i], mark, ws);
    }
    assert lines[..|lines|] == lines;
  }

  // ---- Which columns are read ----

  /** The test for margin strips and watermarks, taken as it is. */
  type ArtifactTest = seq<Glyph> -> bool

  type Extent = seq<Glyph> -> real

  function NotArtifact(artifact: ArtifactTest): seq<Glyph> -> bool { c => !artifact(c) }

  function Widest(columns: seq<seq<Glyph>>, span: Extent): (w: seq<Glyph>)
    requires columns != []
    ensures w in columns
    ensures forall c :: c in columns ==> span(c) <= span(w)
  {
    if |columns| == 1 then columns[0] else
    var n := |columns| - 1;
    var w := Widest(columns[..n], span);
    assert columns == columns[..n] + [columns[n]];
    if span(columns[n]) > span(w) then columns[n] else w
  }

  /** Of several widest columns it is the first. */
  lemma {:induction false} WidestIsFirst(columns: seq<seq<Glyph>>, span: Extent) returns (k: nat)
    requires columns != []
    ensures k < |columns| && columns[k] == Widest(columns, span)
    ensures forall i :: 0 <= i < k ==> span(columns[i]) < span(columns[k])
  {
    var n := |columns| - 1;
    if n == 0 {
      return 0;
    }
    var front, w := columns[..n], Widest(columns[..n], span);
    k := WidestIsFirst(front, span);
    assert forall i :: 0 <= i < n ==> front[i] == columns[i];
    if span(columns[n]) > span(w) {
      forall i | 0 <= i < n ensures span(columns[i]) <= span(w) {
        assert front[i] in front;
      }
      k := n;
    }
  }

  function ReadingColumns(columns: seq<seq<Glyph>>, artifact: ArtifactTest, span: Extent): seq<seq<Glyph>> {
    var kept := Filter(columns, NotArtifact(artifact));
    if kept != [] then kept
    else if |columns| > 1 then [Widest(columns, span)]
    else columns
  }

  /** The numbers of the columns that a filter keeps. */
  lemma {:induction false} FilterNumbers(columns: seq<seq<Glyph>>, p: seq<Glyph> -> bool) returns (at: seq<nat>)
    ensures Ascending(at) && |at| == |Filter(columns, p)|
    ensures forall k :: 0 <= k < |at| ==> at[k] < |columns| && Filter(columns, p)[k] == columns[at[k]]
    ensures forall i :: 0 <= i < |columns| ==> (i in at <==> p(columns[i]))
  {
    if columns == [] {
      at := [];
    } else {
      var n := |columns| - 1;
      assert columns == columns[..n] + [columns[n]];
      FilterAppend(columns[..n], [columns[n]], p);
      at := FilterNumbers(columns[..n], p);
      if p(columns[n]) {
        at := at + [n];
      }
    }
  }

  /** Filtering keeps exactly the columns that are no artifacts, each as often and in the order as
      before, and only the first of the widest when all are: a page with glyphs always keeps a column to read. */
  lemma ReadingColumnsKeep(columns: seq<seq<Glyph>>, artifact: ArtifactTest, span: Extent) returns (at: seq<nat>)
    requires columns != []
    ensures var kept := ReadingColumns(columns, artifact, span);
      && kept != [] && Ascending(at) && |at| == |kept|
      && forall k :: 0 <= k < |at| ==> at[k] < |columns| && kept[k] == columns[at[k]]
    ensures (exists i :: 0 <= i < |columns| && !artifact(columns[i])) ==>
      forall i :: 0 <= i < |columns| ==> (i in at <==> !artifact(columns[i]))
    ensures (forall i :: 0 <= i < |columns| ==> artifact(columns[i])) ==>
      && |at| == 1 && (forall i :: 0 <= i < |columns| ==> span(columns[i]) <= span(columns[at[0]]))
      && forall i :: 0 <= i < at[0] ==> span(columns[i]) < span(columns[at[0]])
  {
    at := FilterNumbers(columns, NotArtifact(artifact));
    if at == [] {
      var i := WidestIsFirst(columns, span);
      at := [i];
    }
  }
}
