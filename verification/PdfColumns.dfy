/** Splitting the glyphs of a page into reading columns at full-height gutters.

    The search for the widest gutter, the recursion on both sides with its depth cap, and one
    left-to-right sweep it is compared with. */
module PdfColumns {
  import opened Options
  import opened Seqs
  import opened StableSort
  import opened PdfGlyphs

  const DEPTH_CAP := 10

  // ---- The widest gutter ----

  function MaxX1(s: seq<Glyph>): real
    requires s != []
  {
    if |s| == 1 then s[0].x1 else MaxReal(MaxX1(s[..|s| - 1]), s[|s| - 1].x1)
  }

  lemma {:induction false} MaxX1Bounds(s: seq<Glyph>, i: nat)
    requires i < |s|
    ensures s[i].x1 <= MaxX1(s)
    decreases |s|
  {
    if i < |s| - 1 {
      MaxX1Bounds(s[..|s| - 1], i);
    }
  }

  lemma {:induction false} MaxX1Concat(a: seq<Glyph>, b: seq<Glyph>)
    requires a != [] && b != []
    ensures MaxX1(a + b) == MaxReal(MaxX1(a), MaxX1(b))
  {
    assert (a + b)[..|a + b| - 1] == a + b[..|b| - 1];
    if |b| > 1 {
      MaxX1Concat(a, b[..|b| - 1]);
    } else {
      assert a + b[..0] == a;
    }
  }

  /** The free space between the i-th glyph and everything before it. */
  function GapAt(s: seq<Glyph>, i: nat): real
    requires 0 < i < |s|
  {
    s[i].x0 - MaxX1(s[..i])
  }

  lemma GapOfPrefix(s: seq<Glyph>, n: nat)
    requires n <= |s|
    ensures forall j :: 0 < j < n ==> GapAt(s[..n], j) == GapAt(s, j)
  {
    assert forall j :: 0 < j < n ==> s[..n][..j] == s[..j];
  }

  function CutAt(s: seq<Glyph>, i: nat): real
    requires 0 < i < |s|
  {
    MaxX1(s[..i]) + GapAt(s, i) / 2.0
  }

  /** What the sweep over the glyphs sorted by left edge has found: the right edge so far and the
      first of the widest gaps, by the index of the glyph to its right. */
  datatype Sweep = Sweep(end: real, bestGap: real, best: Option<nat>)

  function SweepStep(sw: Sweep, g: Glyph, i: nat, minGap: real): Sweep {
    var gap := g.x0 - sw.end;
    Sweep(MaxReal(sw.end, g.x1),
          if gap >= minGap && gap > sw.bestGap then gap else sw.bestGap,
          if gap >= minGap && gap > sw.bestGap then Some(i) else sw.best)
  }

  function SweepAll(s: seq<Glyph>, minGap: real): Sweep
    requires s != []
  {
    if |s| == 1 then Sweep(s[0].x1, 0.0, None)
    else SweepStep(SweepAll(s[..|s| - 1], minGap), s[|s| - 1], |s| - 1, minGap)
  }

  /** The index is that of the first among the widest gaps of at least minGap. */
  predicate IsWidest(s: seq<Glyph>, minGap: real, i: nat) {
    && 0 < i < |s| && GapAt(s, i) >= minGap
    && (forall j :: 0 < j < |s| ==> GapAt(s, j) <= GapAt(s, i))
    && (forall j :: 0 < j < i ==> GapAt(s, j) < GapAt(s, i))
  }

  predicate NoGutter(s: seq<Glyph>, minGap: real) {
    forall j :: 0 < j < |s| ==> GapAt(s, j) < minGap
  }

  /** The sweep has found the first of the widest gaps, or there is none. */
  ghost predicate Found(sw: Sweep, s: seq<Glyph>, minGap: real)
    requires s != []
  {
    && sw.end == MaxX1(s)
    && (sw.best.None? ==> sw.bestGap == 0.0 && NoGutter(s, minGap))
    && (sw.best.Some? ==> IsWidest(s, minGap, sw.best.value) && sw.bestGap == GapAt(s, sw.best.value))
  }

  lemma FoundStep(s: seq<Glyph>, front: seq<Glyph>, sw: Sweep, minGap: real)
    requires |s| > 1 && front == s[..|s| - 1] && minGap > 0.0 && Found(sw, front, minGap)
    ensures Found(SweepStep(sw, s[|s| - 1], |s| - 1, minGap), s, minGap)
  {
    var last := |s| - 1;
    GapOfPrefix(s, last);
    assert GapAt(s, last) == s[last].x0 - sw.end;
    assert forall j :: 0 < j < last ==> GapAt(s, j) == GapAt(front, j);
  }

  lemma {:induction false} SweepMeaning(s: seq<Glyph>, minGap: real)
    requires s != [] && minGap > 0.0
    ensures var sw := SweepAll(s, minGap);
            && sw.end == MaxX1(s)
            && (sw.best.None? ==> sw.bestGap == 0.0 && NoGutter(s, minGap))
            && (sw.best.Some? ==> IsWidest(s, minGap, sw.best.value) && sw.bestGap == GapAt(s, sw.best.value))
  {
    if |s| > 1 {
      SweepMeaning(s[..|s| - 1], minGap);
      FoundStep(s, s[..|s| - 1], SweepAll(s[..|s| - 1], minGap), minGap);
    }
  }

  function ByLeft(g: Glyph): real { g.x0 }

  lemma {:induction false} SweepBest(s: seq<Glyph>, minGap: real)
    requires s != []
    ensures SweepAll(s, minGap).best.Some? ==> 0 < SweepAll(s, minGap).best.value < |s|
  {
    if |s| > 1 {
      SweepBest(s[..|s| - 1], minGap);
    }
  }

  /** The cut lies half way between the first of the widest gaps' two ends: the right edge of everything
      before the gap, and the left edge of the glyph behind it. */
  ghost predicate CutsInTheMiddle(s: seq<Glyph>, minGap: real, cut: real) {
    exists i, j :: 0 <= j < i && IsWidest(s, minGap, i) && (forall k :: 0 <= k < i ==> s[k].x1 <= s[j].x1)
      && cut - s[j].x1 == s[i].x0 - cut
  }

  lemma {:induction false} MaxX1Attained(s: seq<Glyph>) returns (j: nat)
    requires s != []
    ensures j < |s| && s[j].x1 == MaxX1(s)
  {
    if |s| == 1 || s[|s| - 1].x1 > MaxX1(s[..|s| - 1]) {
      j := |s| - 1;
    } else {
      j := MaxX1Attained(s[..|s| - 1]);
    }
  }

  lemma MiddleOfWidest(s: seq<Glyph>, minGap: real, i: nat)
    requires IsWidest(s, minGap, i)
    ensures CutsInTheMiddle(s, minGap, CutAt(s, i))
  {
    var front := s[..i];
    var j := MaxX1Attained(front);
    forall k | 0 <= k < i ensures s[k].x1 <= s[j].x1 {
      MaxX1Bounds(front, k);
    }
    assert CutAt(s, i) - s[j].x1 == s[i].x0 - CutAt(s, i);
  }

  lemma BestCutMeaning(s: seq<Glyph>, minGap: real)
    requires s != [] && minGap > 0.0
    ensures BestCut(s, minGap).None? ==> NoGutter(s, minGap)
    ensures BestCut(s, minGap).Some? ==> CutsInTheMiddle(s, minGap, BestCut(s, minGap).value)
  {
    SweepMeaning(s, minGap);
    if SweepAll(s, minGap).best.Some? {
      MiddleOfWidest(s, minGap, SweepAll(s, minGap).best.value);
    }
  }

  /** What `FindSplit` returns for glyphs in whatever order. */
  lemma FindSplitMeaning(items: seq<Glyph>, minGap: real)
    requires items != [] && minGap > 0.0
    ensures var s := Sort(items, ByLeft);
      && Sorted(s, ByLeft) && multiset(s) == multiset(items)
      && (FindSplit(items, minGap).None? ==> NoGutter(s, minGap))
      && (FindSplit(items, minGap).Some? ==> CutsInTheMiddle(s, minGap, FindSplit(items, minGap).value))
  {
    SortSorts(items, ByLeft);
    BestCutMeaning(Sort(items, ByLeft), minGap);
  }

  /** The middle of the gutter the sweep has chosen. */
  function BestCut(s: seq<Glyph>, minGap: real): Option<real>
    requires s != []
  {
    var best := SweepAll(s, minGap).best;
    SweepBest(s, minGap);
    if best.None? then None else Some(CutAt(s, best.value))
  }

  /** The middle of the widest gutter, or None when no gap is wide enough. */
  function FindSplit(items: seq<Glyph>, minGap: real): Option<real>
    requires items != []
  {
    BestCut(Sort(items, ByLeft), minGap)
  }

  lemma SweepPrefix(s: seq<Glyph>, minGap: real, i: nat)
    requires 0 < i < |s|
    ensures SweepAll(s[..i + 1], minGap) == SweepStep(SweepAll(s[..i], minGap), s[i], i, minGap)
    ensures MaxX1(s[..i + 1]) == MaxReal(MaxX1(s[..i]), s[i].x1)
  {
    assert s[..i + 1][..i] == s[..i];
  }

  /** The sweep as the code runs it, over intervals sorted by their left edge. */
  method SweepIntervals(s: seq<Glyph>, minGap: real) returns (cut: Option<real>)
    requires s != []
    ensures cut == BestCut(s, minGap)
  {
    var end, bestGap := s[0].x1, 0.0;
    ghost var best: Option<nat> := None;
    cut := None;
    for i := 1 to |s|
      invariant SweepAll(s[..i], minGap) == Sweep(end, bestGap, best)
      invariant end == MaxX1(s[..i])
      invariant best.Some? ==> 0 < best.value < i
      invariant cut == if best.None? then None else Some(CutAt(s, best.value))
    {
      SweepPrefix(s, minGap, i);
      var gap := s[i].x0 - end;
      if gap >= minGap && gap > bestGap {
        bestGap, best, cut := gap, Some(i), Some(end + gap / 2.0);
      }
      if s[i].x1 > end {
        end := s[i].x1;
      }
    }
    assert s[..|s|] == s;
  }

  method FindSplitSweep(items: seq<Glyph>, minGap: real) returns (cut: Option<real>)
    requires items != []
    ensures cut == FindSplit(items, minGap)
  {
    cut := SweepIntervals(Sort(items, ByLeft), minGap);
  }

  // ---- Splitting ----

  function MinGap(scale: real, width: real): real { MaxReal(scale * 2.5, width * 0.04) }

  function Before(cut: real): Glyph -> bool { g => MidX(g) < cut }

  function LeftOf(chars: seq<Glyph>, cut: real): seq<Glyph> { Filter(chars, Before(cut)) }

  function RightOf(chars: seq<Glyph>, cut: real): seq<Glyph> { Filter(chars, Not(Before(cut))) }

  datatype Sides = Whole | Sides(left: seq<Glyph>, right: seq<Glyph>)

  /** The two sides of a set of glyphs, or Whole when it stays one column. */
  function Split(chars: seq<Glyph>, minGap: real): Sides {
    if |chars| <= 1 then Whole else
    match FindSplit(chars, minGap)
    case None => Whole
    case Some(cut) =>
      var left, right := LeftOf(chars, cut), RightOf(chars, cut);
      if left == [] || right == [] then Whole else Sides(left, right)
  }

  type Splitter = seq<Glyph> -> Sides

  function SplitterOf(minGap: real): Splitter { chars => Split(chars, minGap) }

  /** The recursion: split, then go on with each side, up to the depth cap. */
  function Recurse(chars: seq<Glyph>, split: Splitter, depth: nat): seq<seq<Glyph>>
    decreases if depth > DEPTH_CAP then 0 else DEPTH_CAP + 1 - depth
  {
    if depth > DEPTH_CAP then [chars] else
    match split(chars)
    case Whole => [chars]
    case Sides(left, right) => Recurse(left, split, depth + 1) + Recurse(right, split, depth + 1)
  }

  function SplitColumns(chars: seq<Glyph>, scale: real, width: real): seq<seq<Glyph>> {
    Recurse(chars, SplitterOf(MinGap(scale, width)), 0)
  }

  ghost predicate SameGlyphs(a: seq<Glyph>, b: seq<Glyph>) {
    multiset(a) == multiset(b)
  }

  lemma FlattenBoth(chars: seq<Glyph>, left: seq<Glyph>, right: seq<Glyph>, a: seq<seq<Glyph>>, b: seq<seq<Glyph>>)
    requires SameGlyphs(Flatten(a), left) && SameGlyphs(Flatten(b), right)
    requires SameGlyphs(left + right, chars)
    ensures SameGlyphs(Flatten(a + b), chars)
  {
    FlattenAppend(a, b);
  }

  lemma FlattenOne(chars: seq<Glyph>)
    ensures Flatten([chars]) == chars
  {
    assert Flatten([chars]) == chars + Flatten<Glyph>([]);
  }

  type Recursion = (seq<Glyph>, nat) -> seq<seq<Glyph>>

  function RecursionOf(split: Splitter): Recursion { (chars: seq<Glyph>, depth: nat) => Recurse(chars, split, depth) }

  predicate RecursesAt(rec: Recursion, split: Splitter, chars: seq<Glyph>, depth: nat) {
    rec(chars, depth) ==
      if depth > DEPTH_CAP || split(chars).Whole? then [chars]
      else rec(split(chars).left, depth + 1) + rec(split(chars).right, depth + 1)
  }

  /** The recursion as an equation, so that proofs about it unfold it where they say so. */
  ghost predicate Recurses(rec: Recursion, split: Splitter) {
    forall chars, depth: nat :: RecursesAt(rec, split, chars, depth)
  }

  lemma RecursionRecurses(split: Splitter)
    ensures Recurses(RecursionOf(split), split)
  {
    forall chars, depth: nat ensures RecursesAt(RecursionOf(split), split, chars, depth) {
      assert Recurse(chars, split, depth) ==
        if depth > DEPTH_CAP || split(chars).Whole? then [chars]
        else Recurse(split(chars).left, split, depth + 1) + Recurse(split(chars).right, split, depth + 1);
    }
  }

  predicate SurvivesSplit(split: Splitter, same: (seq<Glyph>, seq<seq<Glyph>>) -> bool,
                          c: seq<Glyph>, a: seq<seq<Glyph>>, b: seq<seq<Glyph>>)
  {
    split(c).Sides? && same(split(c).left, a) && same(split(c).right, b) ==> same(c, a + b)
  }

  /** A relation between glyphs and columns that holds for a single column and survives a split. */
  ghost predicate Inductive(split: Splitter, same: (seq<Glyph>, seq<seq<Glyph>>) -> bool) {
    && (forall c :: same(c, [c]))
    && (forall c, a, b :: SurvivesSplit(split, same, c, a, b))
  }

  lemma {:induction false} RecurseKeeps(chars: seq<Glyph>, rec: Recursion, split: Splitter, depth: nat,
                                        same: (seq<Glyph>, seq<seq<Glyph>>) -> bool)
    requires Recurses(rec, split) && Inductive(split, same)
    ensures same(chars, rec(chars, depth))
    decreases if depth > DEPTH_CAP then 0 else DEPTH_CAP + 1 - depth
  {
    assert RecursesAt(rec, split, chars, depth);
    if depth <= DEPTH_CAP && split(chars).Sides? {
      var l, r := split(chars).left, split(chars).right;
      RecurseKeeps(l, rec, split, depth + 1, same);
      RecurseKeeps(r, rec, split, depth + 1, same);
      assert SurvivesSplit(split, same, chars, rec(l, depth + 1), rec(r, depth + 1));
    }
  }

  ghost function SameGlyphsIn(): (seq<Glyph>, seq<seq<Glyph>>) -> bool {
    (chars: seq<Glyph>, columns: seq<seq<Glyph>>) => SameGlyphs(Flatten(columns), chars)
  }

  lemma SplitKeepsGlyphs(minGap: real)
    ensures Inductive(SplitterOf(minGap), SameGlyphsIn())
  {
    var split, same := SplitterOf(minGap), SameGlyphsIn();
    forall c ensures same(c, [c]) {
      FlattenOne(c);
    }
    forall c, a, b ensures SurvivesSplit(split, same, c, a, b) {
      if split(c).Sides? && same(split(c).left, a) && same(split(c).right, b) {
        FilterSplits(c, Before(FindSplit(c, minGap).value));
        FlattenBoth(c, split(c).left, split(c).right, a, b);
      }
    }
  }

  /** Every glyph ends up in exactly one column, whatever the page and the thresholds are. */
  lemma ColumnsConserveGlyphs(chars: seq<Glyph>, scale: real, width: real)
    ensures multiset(Flatten(SplitColumns(chars, scale, width))) == multiset(chars)
  {
    SplitKeepsGlyphs(MinGap(scale, width));
    var split := SplitterOf(MinGap(scale, width));
    RecursionRecurses(split);
    RecurseKeeps(chars, RecursionOf(split), split, 0, SameGlyphsIn());
  }

  // ---- One left-to-right sweep ----

  function Extend(runs: seq<seq<Glyph>>, g: Glyph, opens: bool): (r: seq<seq<Glyph>>)
    requires runs != []
    ensures r != []
  {
    if opens then runs + [[g]] else runs[..|runs| - 1] + [runs[|runs| - 1] + [g]]
  }

  /** The sweep starts a new run at every glyph that lies at least minGap to the right of all
      glyphs before it. */
  function Runs(s: seq<Glyph>, minGap: real): (runs: seq<seq<Glyph>>)
    ensures runs != []
  {
    if |s| <= 1 then [s] else
    var last := |s| - 1;
    Extend(Runs(s[..last], minGap), s[last], GapAt(s, last) >= minGap)
  }

  function Member(run: seq<Glyph>): Glyph -> bool { g => g in run }

  /** The columns of the sweep: for every run its glyphs, in the order in which the page has them. */
  function Columns(chars: seq<Glyph>, runs: seq<seq<Glyph>>): seq<seq<Glyph>> {
    if runs == [] then [] else [Filter(chars, Member(runs[0]))] + Columns(chars, runs[1..])
  }

  function SweepColumns(chars: seq<Glyph>, minGap: real): seq<seq<Glyph>> {
    Columns(chars, Runs(Sort(chars, ByLeft), minGap))
  }

  /** The widths of all gutters, left to right. */
  function Gutters(s: seq<Glyph>, minGap: real): seq<real> {
    if |s| <= 1 then [] else
    var last := |s| - 1;
    Gutters(s[..last], minGap) + if GapAt(s, last) >= minGap then [GapAt(s, last)] else []
  }

  lemma {:induction false} RunsWithoutGutter(s: seq<Glyph>, minGap: real)
    requires NoGutter(s, minGap)
    ensures Runs(s, minGap) == [s] && Gutters(s, minGap) == []
  {
    if |s| > 1 {
      var front := s[..|s| - 1];
      assert front + [s[|s| - 1]] == s;
      GapOfPrefix(s, |s| - 1);
      RunsWithoutGutter(front, minGap);
    }
  }

  /** Right of a gutter, the glyphs left of it no longer matter. */
  lemma GapRightOf(s: seq<Glyph>, i: nat, k: nat)
    requires Ordered(s) && 0 < i < k < |s| && GapAt(s, i) > 0.0
    ensures GapAt(s[i..], k - i) == GapAt(s, k)
  {
    assert s[i..][..k - i] == s[i..k] && s[..i] + s[i..k] == s[..k];
    MaxX1Concat(s[..i], s[i..k]);
    MaxX1Bounds(s[i..k], 0);
  }

  /** The last glyph of a page that has a gutter further left, seen from the right side. */
  lemma LastRightOf(s: seq<Glyph>, i: nat)
    requires Ordered(s) && 0 < i < |s| - 1 && GapAt(s, i) > 0.0
    ensures s[..|s| - 1][..i] == s[..i] && GapAt(s[..|s| - 1], i) == GapAt(s, i)
    ensures s[i..][..|s| - 1 - i] == s[..|s| - 1][i..]
    ensures s[i..][|s| - 1 - i] == s[|s| - 1] && GapAt(s[i..], |s| - 1 - i) == GapAt(s, |s| - 1)
  {
    GapRightOf(s, i, |s| - 1);
  }

  lemma RunsLast(s: seq<Glyph>, front: seq<Glyph>, g: Glyph, opens: bool, minGap: real)
    requires |s| > 1 && front == s[..|s| - 1] && g == s[|s| - 1] && opens == (GapAt(s, |s| - 1) >= minGap)
    ensures Runs(s, minGap) == Extend(Runs(front, minGap), g, opens)
  {
  }

  /** A glyph added to the whole is added to its right part. */
  lemma ExtendEnd(whole: seq<seq<Glyph>>, front: seq<seq<Glyph>>, left: seq<seq<Glyph>>, right: seq<seq<Glyph>>,
      longer: seq<seq<Glyph>>, g: Glyph, opens: bool)
    requires right != [] && front == left + right
    requires whole == Extend(front, g, opens) && longer == Extend(right, g, opens)
    ensures whole == left + longer
  {
  }

  /** Right of a gutter, the last glyph extends the runs as it does on the whole page. */
  lemma RunsOfSuffix(s: seq<Glyph>, minGap: real, i: nat)
    requires Ordered(s) && 0 < i < |s| - 1 && GapAt(s, i) > 0.0
    ensures Runs(s[i..], minGap)
         == Extend(Runs(s[..|s| - 1][i..], minGap), s[|s| - 1], GapAt(s, |s| - 1) >= minGap)
  {
    LastRightOf(s, i);
    RunsLast(s[i..], s[..|s| - 1][i..], s[|s| - 1], GapAt(s, |s| - 1) >= minGap, minGap);
  }

  lemma {:induction false} RunsSplitAt(s: seq<Glyph>, minGap: real, i: nat)
    requires Ordered(s) && minGap > 0.0 && 0 < i < |s| && GapAt(s, i) >= minGap
    ensures Runs(s, minGap) == Runs(s[..i], minGap) + Runs(s[i..], minGap)
    decreases |s|
  {
    var last := |s| - 1;
    var front, opens := s[..last], GapAt(s, last) >= minGap;
    RunsLast(s, front, s[last], opens, minGap);
    if i == last {
      assert s[i..] == [s[i]];
    } else {
      LastRightOf(s, i);
      RunsSplitAt(front, minGap, i);
      RunsOfSuffix(s, minGap, i);
      ExtendEnd(Runs(s, minGap), Runs(front, minGap), Runs(s[..i], minGap), Runs(front[i..], minGap),
        Runs(s[i..], minGap), s[last], opens);
    }
  }

  lemma GuttersLast(s: seq<Glyph>, front: seq<Glyph>, gap: real, minGap: real)
    requires |s| > 1 && front == s[..|s| - 1] && gap == GapAt(s, |s| - 1)
    ensures Gutters(s, minGap) == Gutters(front, minGap) + if gap >= minGap then [gap] else []
  {
  }

  lemma {:induction false} GuttersSplitAt(s: seq<Glyph>, minGap: real, i: nat)
    requires Ordered(s) && minGap > 0.0 && 0 < i < |s| && GapAt(s, i) >= minGap
    ensures Gutters(s, minGap) == Gutters(s[..i], minGap) + ([GapAt(s, i)] + Gutters(s[i..], minGap))
    decreases |s|
  {
    var last := |s| - 1;
    var front, gap := s[..last], GapAt(s, last);
    GuttersLast(s, front, gap, minGap);
    if i == last {
      assert s[i..] == [s[i]];
    } else {
      LastRightOf(s, i);
      GuttersSplitAt(front, minGap, i);
      GuttersLast(s[i..], front[i..], gap, minGap);
      var more := if gap >= minGap then [gap] else [];
      MovedInside(Gutters(s[..i], minGap), GapAt(s, i), Gutters(front[i..], minGap), more);
    }
  }

  lemma MovedInside(a: seq<real>, gap: real, b: seq<real>, c: seq<real>)
    ensures (a + ([gap] + b)) + c == a + ([gap] + (b + c))
  {
  }

  // ---- Where a cut puts the glyphs ----

  /** A cut in a gutter has the glyphs before the gutter on its left and the others on its right. */
  lemma CutSeparates(s: seq<Glyph>, i: nat)
    requires Ordered(s) && Sorted(s, ByLeft) && 0 < i < |s| && GapAt(s, i) > 0.0
    ensures forall j :: 0 <= j < i ==> s[j].x1 <= MaxX1(s[..i]) && MidX(s[j]) < CutAt(s, i)
    ensures forall j :: i <= j < |s| ==> s[j].x0 >= s[i].x0 && !(MidX(s[j]) < CutAt(s, i))
  {
    forall j | 0 <= j < i ensures s[j].x1 <= MaxX1(s[..i]) && MidX(s[j]) < CutAt(s, i) {
      MaxX1Bounds(s[..i], j);
    }
    forall j | i <= j < |s| ensures s[j].x0 >= s[i].x0 && !(MidX(s[j]) < CutAt(s, i)) {
      assert ByLeft(s[i]) <= ByLeft(s[j]);
    }
  }

  lemma SortOrdered(chars: seq<Glyph>)
    requires Ordered(chars)
    ensures Ordered(Sort(chars, ByLeft))
  {
    var s := Sort(chars, ByLeft);
    forall i | 0 <= i < |s| ensures s[i].x0 <= s[i].x1 {
      SortMembers(chars, ByLeft, s[i]);
    }
  }

  /** Both sides of the cut, sorted, are the two parts of the sorted page; neither is empty. */
  lemma SidesOfCut(chars: seq<Glyph>, minGap: real, i: nat)
    requires Ordered(chars) && |chars| > 1 && minGap > 0.0
    requires |Sort(chars, ByLeft)| == |chars|
    requires IsWidest(Sort(chars, ByLeft), minGap, i)
    ensures var s := Sort(chars, ByLeft); var cut := CutAt(s, i);
            && FindSplit(chars, minGap) == Some(cut)
            && Sort(LeftOf(chars, cut), ByLeft) == s[..i] && Sort(RightOf(chars, cut), ByLeft) == s[i..]
            && LeftOf(chars, cut) != [] && RightOf(chars, cut) != []
            && Ordered(LeftOf(chars, cut)) && Ordered(RightOf(chars, cut))
  {
    var s := Sort(chars, ByLeft);
    SortSorts(chars, ByLeft);
    SortOrdered(chars);
    SweepMeaning(s, minGap);
    var best := SweepAll(s, minGap).best;
    assert best.Some?;
    assert i == best.value;
    var cut := CutAt(s, i);
    CutSeparates(s, i);
    var p := Before(cut);
    var q := Not(Before(cut));
    FilterPrefix(s, i, p, q);
    SortFilter(chars, ByLeft, p);
    SortFilter(chars, ByLeft, q);
    SortSorts(LeftOf(chars, cut), ByLeft);
    SortSorts(RightOf(chars, cut), ByLeft);
    FilterOrdered(chars, p);
    FilterOrdered(chars, q);
  }

  lemma FilterHalves(a: seq<Glyph>, b: seq<Glyph>, p: Glyph -> bool)
    requires AllAre(a, p) && AllAre(b, Not(p))
    ensures Filter(a + b, p) == a && Filter(b + a, p) == a
  {
    FilterAppend(a, b, p);
    FilterAppend(b, a, p);
    FilterAll(a, p);
    forall j | 0 <= j < |b| ensures !p(b[j]) {
      assert Not(p)(b[j]);
    }
    FilterNone(b, p);
  }

  ghost predicate AllAre(s: seq<Glyph>, p: Glyph -> bool) { forall j :: 0 <= j < |s| ==> p(s[j]) }

  lemma FilterPrefix(s: seq<Glyph>, i: nat, p: Glyph -> bool, q: Glyph -> bool)
    requires i <= |s|
    requires forall j :: 0 <= j < i ==> p(s[j]) && !q(s[j])
    requires forall j :: i <= j < |s| ==> !p(s[j]) && q(s[j])
    ensures Filter(s, p) == s[..i] && Filter(s, q) == s[i..]
  {
    var a, b := s[..i], s[i..];
    assert AllAre(a, p) && AllAre(a, Not(q)) && AllAre(b, q) && AllAre(b, Not(p));
    assert s == a + b;
    FilterHalves(a, b, p);
    FilterHalves(b, a, q);
  }

  lemma FilterOrdered(s: seq<Glyph>, p: Glyph -> bool)
    requires Ordered(s)
    ensures Ordered(Filter(s, p))
  {
    var f := Filter(s, p);
    forall i | 0 <= i < |f| ensures f[i].x0 <= f[i].x1 {
      FilterMember(s, p, f[i]);
    }
  }

  // ---- The recursive split against the sweep ----

  lemma {:induction false} RunMembers(s: seq<Glyph>, minGap: real, r: nat, g: Glyph)
    requires r < |Runs(s, minGap)| && g in Runs(s, minGap)[r]
    ensures g in s
    decreases |s|
  {
    if |s| > 1 {
      var runs := Runs(s[..|s| - 1], minGap);
      if r < |runs| && g in runs[r] {
        RunMembers(s[..|s| - 1], minGap, r, g);
      }
    }
  }

  lemma {:induction false} ColumnsAppend(chars: seq<Glyph>, a: seq<seq<Glyph>>, b: seq<seq<Glyph>>)
    ensures Columns(chars, a + b) == Columns(chars, a) + Columns(chars, b)
  {
    if a == [] {
      assert a + b == b;
    } else {
      assert (a + b)[0] == a[0] && (a + b)[1..] == a[1..] + b;
      ColumnsAppend(chars, a[1..], b);
    }
  }

  /** Glyphs outside the side that a run belongs to never enter its column. */
  lemma {:induction false} ColumnsOfSide(chars: seq<Glyph>, runs: seq<seq<Glyph>>, p: Glyph -> bool)
    requires forall r, g :: 0 <= r < |runs| && g in runs[r] ==> p(g)
    ensures Columns(Filter(chars, p), runs) == Columns(chars, runs)
  {
    if runs != [] {
      FilterFilter(chars, p, Member(runs[0]));
      assert forall g :: g in runs[0] ==> p(g);
      FilterAgree(chars, Both(p, Member(runs[0])), Member(runs[0]));
      forall r, g | 0 <= r < |runs[1..]| && g in runs[1..][r] ensures p(g) {
        assert runs[1..][r] == runs[r + 1];
      }
      ColumnsOfSide(chars, runs[1..], p);
    }
  }

  /** At a gutter the sweep of the page is the sweep of its left side, then that of its right side. */
  lemma SweepSplits(chars: seq<Glyph>, minGap: real, i: nat)
    requires Ordered(chars) && |chars| > 1 && minGap > 0.0
    requires |Sort(chars, ByLeft)| == |chars|
    requires IsWidest(Sort(chars, ByLeft), minGap, i)
    ensures var cut := CutAt(Sort(chars, ByLeft), i);
            SweepColumns(chars, minGap)
            == SweepColumns(LeftOf(chars, cut), minGap) + SweepColumns(RightOf(chars, cut), minGap)
  {
    var s := Sort(chars, ByLeft);
    SortSorts(chars, ByLeft);
    SortOrdered(chars);
    SidesOfCut(chars, minGap, i);
    var cut := CutAt(s, i);
    RunsSplitAt(s, minGap, i);
    CutSeparates(s, i);
    var a, b := Runs(s[..i], minGap), Runs(s[i..], minGap);
    ColumnsAppend(chars, a, b);
    forall r, g | 0 <= r < |a| && g in a[r] ensures MidX(g) < cut {
      RunMembers(s[..i], minGap, r, g);
    }
    forall r, g | 0 <= r < |b| && g in b[r] ensures !(MidX(g) < cut) {
      RunMembers(s[i..], minGap, r, g);
    }
    ColumnsOfSide(chars, a, Before(cut));
    ColumnsOfSide(chars, b, Not(Before(cut)));
  }

  lemma SweepWithoutGutter(chars: seq<Glyph>, minGap: real)
    requires NoGutter(Sort(chars, ByLeft), minGap)
    ensures SweepColumns(chars, minGap) == [chars]
  {
    var s := Sort(chars, ByLeft);
    RunsWithoutGutter(s, minGap);
    assert Columns(chars, [s]) == [Filter(chars, Member(s))] + Columns(chars, []);
    forall i | 0 <= i < |chars| ensures Member(s)(chars[i]) {
      SortMembers(chars, ByLeft, chars[i]);
    }
    FilterAll(chars, Member(s));
  }

  /** The first index of a maximum. */
  function FirstMax(w: seq<real>): (i: nat)
    requires w != []
    ensures i < |w|
  {
    if |w| == 1 then 0 else
    var m := FirstMax(w[..|w| - 1]);
    if w[|w| - 1] > w[m] then |w| - 1 else m
  }

  /** How deep the recursion goes on a page with gutters of these widths: the widest gutter first,
      the leftmost of equals, then each side on its own. */
  function Height(w: seq<real>): nat {
    if w == [] then 0 else
    var m := FirstMax(w);
    1 + MaxNat(Height(w[..m]), Height(w[m + 1..]))
  }

  function MaxNat(a: nat, b: nat): nat { if a < b then b else a }

  lemma {:induction false} HeightAtMostLength(w: seq<real>)
    ensures Height(w) <= |w|
  {
    if w != [] {
      HeightAtMostLength(w[..FirstMax(w)]);
      HeightAtMostLength(w[FirstMax(w) + 1..]);
    }
  }

  lemma {:induction false} GuttersAre(s: seq<Glyph>, minGap: real, w: real)
    requires w in Gutters(s, minGap)
    ensures exists j :: 0 < j < |s| && GapAt(s, j) == w
    decreases |s|
  {
    var front, last := s[..|s| - 1], |s| - 1;
    if w in Gutters(front, minGap) {
      GuttersAre(front, minGap, w);
      var j :| 0 < j < |front| && GapAt(front, j) == w;
      assert front[..j] == s[..j] && GapAt(s, j) == w;
    } else {
      assert GapAt(s, last) == w;
    }
  }

  /** The gutter the split takes is the first widest in the list of gutters. */
  lemma WidestInGutters(s: seq<Glyph>, minGap: real, i: nat)
    requires Ordered(s) && minGap > 0.0 && IsWidest(s, minGap, i)
    ensures Height(Gutters(s, minGap))
            == 1 + MaxNat(Height(Gutters(s[..i], minGap)), Height(Gutters(s[i..], minGap)))
  {
    GuttersSplitAt(s, minGap, i);
    var a, b, w := Gutters(s[..i], minGap), Gutters(s[i..], minGap), Gutters(s, minGap);
    forall k | 0 <= k < |a| ensures a[k] < GapAt(s, i) {
      assert a[k] in a;
      GuttersAre(s[..i], minGap, a[k]);
      var j :| 0 < j < i && GapAt(s[..i], j) == a[k];
      GapOfPrefix(s, i);
    }
    forall k | 0 <= k < |w| ensures w[k] <= GapAt(s, i) {
      assert w[k] in w;
      GuttersAre(s, minGap, w[k]);
    }
    HeightAt(a, GapAt(s, i), b);
  }

  lemma {:induction false} FirstMaxBounds(w: seq<real>)
    requires w != []
    ensures forall j :: 0 <= j < |w| ==> w[j] <= w[FirstMax(w)]
    ensures forall j :: 0 <= j < FirstMax(w) ==> w[j] < w[FirstMax(w)]
  {
    if |w| > 1 {
      FirstMaxBounds(w[..|w| - 1]);
    }
  }

  lemma FirstMaxIs(w: seq<real>, m: nat)
    requires m < |w| && (forall k :: 0 <= k < m ==> w[k] < w[m]) && (forall k :: 0 <= k < |w| ==> w[k] <= w[m])
    ensures FirstMax(w) == m
  {
    FirstMaxBounds(w);
  }

  lemma HeightAtMax(w: seq<real>, m: nat, a: seq<real>, b: seq<real>)
    requires m < |w| && (forall k :: 0 <= k < m ==> w[k] < w[m]) && (forall k :: 0 <= k < |w| ==> w[k] <= w[m])
    requires a == w[..m] && b == w[m + 1..]
    ensures Height(w) == 1 + MaxNat(Height(a), Height(b))
  {
    FirstMaxIs(w, m);
    HeightIs(w, m);
  }

  lemma HeightIs(w: seq<real>, m: nat)
    requires w != [] && m == FirstMax(w)
    ensures Height(w) == 1 + MaxNat(Height(w[..m]), Height(w[m + 1..]))
  {
  }

  lemma HeightAt(a: seq<real>, gap: real, b: seq<real>)
    requires forall k :: 0 <= k < |a| ==> a[k] < gap
    requires forall k :: 0 <= k < |a + ([gap] + b)| ==> (a + ([gap] + b))[k] <= gap
    ensures Height(a + ([gap] + b)) == 1 + MaxNat(Height(a), Height(b))
  {
    var w := a + ([gap] + b);
    assert w[|a|] == gap;
    assert w[..|a|] == a && w[|a| + 1..] == b;
    HeightAtMax(w, |a|, a, b);
  }

  lemma WidestExists(s: seq<Glyph>, minGap: real)
    requires s != [] && minGap > 0.0 && !NoGutter(s, minGap)
    ensures exists i: nat :: IsWidest(s, minGap, i)
  {
    SweepMeaning(s, minGap);
    assert IsWidest(s, minGap, SweepAll(s, minGap).best.value);
  }

  function Levels(chars: seq<Glyph>, minGap: real): nat {
    Height(Gutters(Sort(chars, ByLeft), minGap))
  }

  /** Everything about one split of a page that has a gutter. In particular the two sides are
      never empty, so the branch that gives up on an empty side is not taken. */
  lemma AtGutter(chars: seq<Glyph>, minGap: real)
    requires Ordered(chars) && minGap > 0.0 && !NoGutter(Sort(chars, ByLeft), minGap)
    ensures Split(chars, minGap).Sides?
    ensures Ordered(Split(chars, minGap).left) && Ordered(Split(chars, minGap).right)
    ensures Apart(Split(chars, minGap).left, Split(chars, minGap).right, minGap)
    ensures SweepColumns(chars, minGap)
            == SweepColumns(Split(chars, minGap).left, minGap) + SweepColumns(Split(chars, minGap).right, minGap)
    ensures Levels(chars, minGap)
            == 1 + MaxNat(Levels(Split(chars, minGap).left, minGap), Levels(Split(chars, minGap).right, minGap))
  {
    var s := Sort(chars, ByLeft);
    SortSorts(chars, ByLeft);
    SortOrdered(chars);
    WidestExists(s, minGap);
    var i: nat :| IsWidest(s, minGap, i);
    SidesOfCut(chars, minGap, i);
    assert Split(chars, minGap) == Sides(LeftOf(chars, CutAt(s, i)), RightOf(chars, CutAt(s, i)));
    SidesApart(chars, minGap, i);
    SweepSplits(chars, minGap, i);
    WidestInGutters(s, minGap, i);
  }

  lemma SidesApart(chars: seq<Glyph>, minGap: real, i: nat)
    requires Ordered(chars) && |chars| > 1 && minGap > 0.0
    requires |Sort(chars, ByLeft)| == |chars|
    requires IsWidest(Sort(chars, ByLeft), minGap, i)
    ensures Apart(LeftOf(chars, CutAt(Sort(chars, ByLeft), i)), RightOf(chars, CutAt(Sort(chars, ByLeft), i)), minGap)
  {
    var s := Sort(chars, ByLeft);
    SortSorts(chars, ByLeft);
    SortOrdered(chars);
    SidesOfCut(chars, minGap, i);
    var left, right := LeftOf(chars, CutAt(s, i)), RightOf(chars, CutAt(s, i));
    forall g: Glyph, h: Glyph | g in left && h in right ensures g.x1 + minGap <= h.x0 {
      SortMembers(left, ByLeft, g);
      SortMembers(right, ByLeft, h);
      PartsApart(s, minGap, i, g, h);
    }
  }

  lemma PartsApart(s: seq<Glyph>, minGap: real, i: nat, g: Glyph, h: Glyph)
    requires Ordered(s) && Sorted(s, ByLeft) && minGap > 0.0 && 0 < i < |s| && GapAt(s, i) >= minGap
    requires g in s[..i] && h in s[i..]
    ensures g.x1 + minGap <= h.x0
  {
    CutSeparates(s, i);
  }

  /** Without a gutter the glyphs stay one column. */
  lemma NoSplit(chars: seq<Glyph>, minGap: real)
    requires minGap > 0.0 && NoGutter(Sort(chars, ByLeft), minGap)
    ensures Split(chars, minGap) == Whole
    ensures SweepColumns(chars, minGap) == [chars] && Levels(chars, minGap) == 0
  {
    SweepWithoutGutter(chars, minGap);
    RunsWithoutGutter(Sort(chars, ByLeft), minGap);
    if |chars| > 1 {
      SweepMeaning(Sort(chars, ByLeft), minGap);
    }
  }

  /** What the recursion needs to know about the sweep: it cuts where the splitter cuts, and
      `levels` counts the splits on the longest way down. */
  predicate FollowsAt(split: Splitter, levels: seq<Glyph> -> nat, sweep: seq<Glyph> -> seq<seq<Glyph>>, c: seq<Glyph>) {
    match split(c)
    case Whole => levels(c) == 0 && sweep(c) == [c]
    case Sides(left, right) =>
      && Ordered(left) && Ordered(right)
      && sweep(left) != [] && sweep(right) != []
      && levels(c) == 1 + MaxNat(levels(left), levels(right))
      && sweep(c) == sweep(left) + sweep(right)
  }

  ghost predicate Follows(split: Splitter, levels: seq<Glyph> -> nat, sweep: seq<Glyph> -> seq<seq<Glyph>>) {
    forall c {:trigger FollowsAt(split, levels, sweep, c)} :: Ordered(c) ==> FollowsAt(split, levels, sweep, c)
  }

  /** What the cap makes of the columns of a sweep that takes some levels of splits. */
  predicate Decided(result: seq<seq<Glyph>>, columns: seq<seq<Glyph>>, levels: nat, depth: nat) {
    if levels + depth <= DEPTH_CAP + 1 then result == columns else |result| < |columns|
  }

  lemma BothDecided(a: seq<seq<Glyph>>, c: seq<seq<Glyph>>, m: nat, b: seq<seq<Glyph>>, d: seq<seq<Glyph>>, n: nat,
                    depth: nat)
    requires Decided(a, c, m, depth + 1) && Decided(b, d, n, depth + 1)
    ensures Decided(a + b, c + d, 1 + MaxNat(m, n), depth)
  {
    assert |a| <= |c| && |b| <= |d|;
  }

  /** The depth cap decides: within it the recursion returns the columns of the sweep, beyond it
      it returns fewer. */
  lemma {:induction false} CapDecides(chars: seq<Glyph>, rec: Recursion, split: Splitter, depth: nat,
                                      levels: seq<Glyph> -> nat, sweep: seq<Glyph> -> seq<seq<Glyph>>)
    requires Ordered(chars) && depth <= DEPTH_CAP + 1
    requires Recurses(rec, split) && Follows(split, levels, sweep)
    ensures Decided(rec(chars, depth), sweep(chars), levels(chars), depth)
    decreases DEPTH_CAP + 1 - depth
  {
    assert RecursesAt(rec, split, chars, depth);
    assert FollowsAt(split, levels, sweep, chars);
    if depth <= DEPTH_CAP && split(chars).Sides? {
      var l, r := split(chars).left, split(chars).right;
      CapDecides(l, rec, split, depth + 1, levels, sweep);
      CapDecides(r, rec, split, depth + 1, levels, sweep);
      BothDecided(rec(l, depth + 1), sweep(l), levels(l), rec(r, depth + 1), sweep(r), levels(r), depth);
    }
  }

  lemma SplitterFollows(minGap: real)
    requires minGap > 0.0
    ensures Follows(SplitterOf(minGap), c => Levels(c, minGap), c => SweepColumns(c, minGap))
  {
    forall c | Ordered(c)
      ensures FollowsAt(SplitterOf(minGap), c => Levels(c, minGap), c => SweepColumns(c, minGap), c)
    {
      if NoGutter(Sort(c, ByLeft), minGap) {
        NoSplit(c, minGap);
      } else {
        AtGutter(c, minGap);
        SweepNotEmpty(Split(c, minGap).left, minGap);
        SweepNotEmpty(Split(c, minGap).right, minGap);
      }
    }
  }

  lemma SweepNotEmpty(c: seq<Glyph>, minGap: real)
    ensures SweepColumns(c, minGap) != []
  {
    ColumnsLength(c, Runs(Sort(c, ByLeft), minGap));
  }

  lemma {:induction false} ColumnsLength(chars: seq<Glyph>, runs: seq<seq<Glyph>>)
    ensures |Columns(chars, runs)| == |runs|
  {
    if runs != [] {
      ColumnsLength(chars, runs[1..]);
    }
  }

  lemma {:induction false} RunsLength(s: seq<Glyph>, minGap: real)
    ensures |Runs(s, minGap)| == |Gutters(s, minGap)| + 1
  {
    if |s| > 1 {
      RunsLength(s[..|s| - 1], minGap);
    }
  }

  // The threshold for a gutter is the larger one of 2.5 times the glyph height and 4 % of the page width.

  lemma SplitsAtThreshold(chars: seq<Glyph>, scale: real, width: real, minGap: real)
    requires minGap >= scale * 2.5 && minGap >= width * 0.04 && (minGap == scale * 2.5 || minGap == width * 0.04)
    ensures SplitColumns(chars, scale, width) == Recurse(chars, SplitterOf(minGap), 0)
  {
    assert MinGap(scale, width) == minGap;
  }

  lemma SweepDecides(chars: seq<Glyph>, minGap: real)
    requires Ordered(chars) && minGap > 0.0
    ensures Decided(Recurse(chars, SplitterOf(minGap), 0), SweepColumns(chars, minGap), Levels(chars, minGap), 0)
  {
    var split := SplitterOf(minGap);
    SplitterFollows(minGap);
    RecursionRecurses(split);
    CapDecides(chars, RecursionOf(split), split, 0, c => Levels(c, minGap), c => SweepColumns(c, minGap));
  }

  /** Splitting at the widest gutter first returns the columns of a single left-to-right sweep
      exactly when the widest-first tree over the page's gutters has at most eleven levels. */
  lemma SplitIsSweep(chars: seq<Glyph>, scale: real, width: real, minGap: real)
    requires Ordered(chars) && scale > 0.0
    requires minGap >= scale * 2.5 && minGap >= width * 0.04 && (minGap == scale * 2.5 || minGap == width * 0.04)
    ensures SplitColumns(chars, scale, width) == SweepColumns(chars, minGap) <==> Levels(chars, minGap) <= 11
  {
    SplitsAtThreshold(chars, scale, width, minGap);
    SweepDecides(chars, minGap);
  }

  /** Beyond that it returns strictly fewer columns than the sweep. */
  lemma BeyondCapFewer(chars: seq<Glyph>, scale: real, width: real, minGap: real)
    requires Ordered(chars) && scale > 0.0
    requires minGap >= scale * 2.5 && minGap >= width * 0.04 && (minGap == scale * 2.5 || minGap == width * 0.04)
    requires Levels(chars, minGap) > 11
    ensures |SplitColumns(chars, scale, width)| < |SweepColumns(chars, minGap)|
  {
    SplitsAtThreshold(chars, scale, width, minGap);
    SweepDecides(chars, minGap);
  }

  /** On a page of at most twelve columns the cap never matters. */
  lemma TwelveColumns(chars: seq<Glyph>, scale: real, width: real, minGap: real)
    requires Ordered(chars) && scale > 0.0
    requires minGap >= scale * 2.5 && minGap >= width * 0.04 && (minGap == scale * 2.5 || minGap == width * 0.04)
    requires |SweepColumns(chars, minGap)| <= 12
    ensures SplitColumns(chars, scale, width) == SweepColumns(chars, minGap)
  {
    var s := Sort(chars, ByLeft);
    ColumnsLength(chars, Runs(s, minGap));
    RunsLength(s, minGap);
    HeightAtMostLength(Gutters(s, minGap));
    SplitIsSweep(chars, scale, width, minGap);
  }

  // ---- A page that needs one level more ----

  /** Glyphs without width, each gap wider than the one before it by a point. */
  function Stair(n: nat, minGap: real): (s: seq<Glyph>)
    ensures |s| == n
  {
    if n == 0 then [] else Stair(n - 1, minGap) + [StairGlyph(n - 1, minGap)]
  }

  function StairAt(k: nat, minGap: real): real {
    if k == 0 then 0.0 else StairAt(k - 1, minGap) + minGap + k as real
  }

  function StairGlyph(k: nat, minGap: real): Glyph {
    Glyph(StairAt(k, minGap), StairAt(k, minGap), 0.0, 1.0, "x")
  }

  lemma {:induction false} StairElement(n: nat, minGap: real, i: nat)
    requires i < n
    ensures Stair(n, minGap)[i] == StairGlyph(i, minGap)
    decreases n
  {
    if i < n - 1 {
      StairElement(n - 1, minGap, i);
    }
  }

  lemma {:induction false} StairRises(i: nat, j: nat, minGap: real)
    requires minGap > 0.0 && i <= j
    ensures StairAt(i, minGap) <= StairAt(j, minGap)
    decreases j
  {
    if i < j {
      StairRises(i, j - 1, minGap);
    }
  }

  lemma StairSorted(n: nat, minGap: real)
    requires minGap > 0.0
    ensures Ordered(Stair(n, minGap)) && Sorted(Stair(n, minGap), ByLeft)
  {
    var s := Stair(n, minGap);
    forall i | 0 <= i < |s| ensures s[i].x0 <= s[i].x1 {
      StairElement(n, minGap, i);
    }
    forall i, j | 0 <= i <= j < |s| ensures ByLeft(s[i]) <= ByLeft(s[j]) {
      StairElement(n, minGap, i);
      StairElement(n, minGap, j);
      StairRises(i, j, minGap);
    }
  }

  lemma {:induction false} StairEnd(n: nat, minGap: real)
    requires minGap > 0.0 && n > 0
    ensures MaxX1(Stair(n, minGap)) == StairAt(n - 1, minGap)
  {
    if n > 1 {
      StairEnd(n - 1, minGap);
      assert Stair(n, minGap)[..n - 1] == Stair(n - 1, minGap);
      StairRises(n - 2, n - 1, minGap);
    }
  }

  lemma GuttersSnoc(s: seq<Glyph>, g: Glyph, gap: real, minGap: real)
    requires s != [] && gap == g.x0 - MaxX1(s) && gap >= minGap
    ensures Gutters(s + [g], minGap) == Gutters(s, minGap) + [gap]
  {
    var longer := s + [g];
    assert longer[..|s|] == s;
    assert GapAt(longer, |s|) == gap;
  }

  lemma StairGutters(n: nat, minGap: real)
    requires minGap > 0.0 && n > 1
    ensures Gutters(Stair(n, minGap), minGap)
            == Gutters(Stair(n - 1, minGap), minGap) + [minGap + (n - 1) as real]
  {
    StairEnd(n - 1, minGap);
    GuttersSnoc(Stair(n - 1, minGap), StairGlyph(n - 1, minGap), minGap + (n - 1) as real, minGap);
  }

  lemma SteepHeight(front: seq<real>, gap: real)
    requires forall i :: 0 <= i < |front| ==> front[i] < gap
    ensures Height(front + [gap]) == Height(front) + 1
  {
    var w := front + [gap];
    assert w[..|front|] == front && w[|front| + 1..] == [];
    HeightAtMax(w, |front|, front, []);
  }

  lemma {:induction false} StairLevels(n: nat, minGap: real, bound: real)
    requires minGap > 0.0 && n > 0 && bound >= minGap + n as real
    ensures |Gutters(Stair(n, minGap), minGap)| == n - 1 && Height(Gutters(Stair(n, minGap), minGap)) == n - 1
    ensures forall i :: 0 <= i < n - 1 ==> Gutters(Stair(n, minGap), minGap)[i] < bound
  {
    if n > 1 {
      var gap := minGap + (n - 1) as real;
      StairLevels(n - 1, minGap, gap);
      StairGutters(n, minGap);
      SteepHeight(Gutters(Stair(n - 1, minGap), minGap), gap);
    }
  }

  /** Thirteen columns with gutters that widen from left to right are one too many for the cap. */
  lemma ThirteenColumnsFail(scale: real, width: real, minGap: real)
    requires scale > 0.0
    requires minGap >= scale * 2.5 && minGap >= width * 0.04 && (minGap == scale * 2.5 || minGap == width * 0.04)
    ensures var page := Stair(13, minGap);
            && Ordered(page) && |SweepColumns(page, minGap)| == 13
            && SplitColumns(page, scale, width) != SweepColumns(page, minGap)
  {
    var page := Stair(13, minGap);
    StairSorted(13, minGap);
    StairLevels(13, minGap, minGap + 13.0);
    SortOfSorted(page, ByLeft);
    ColumnsLength(page, Runs(page, minGap));
    RunsLength(page, minGap);
    SplitIsSweep(page, scale, width, minGap);
  }

  // ---- Reading order ----

  /** A glyph of the first part ends at least minGap before any glyph of the second begins. */
  ghost predicate Apart(left: seq<Glyph>, right: seq<Glyph>, minGap: real) {
    forall g: Glyph, h: Glyph :: g in left && h in right ==> g.x1 + minGap <= h.x0
  }

  /** Columns come left to right. */
  ghost predicate LeftToRight(columns: seq<seq<Glyph>>, minGap: real) {
    forall a, b :: 0 <= a < b < |columns| ==> Apart(columns[a], columns[b], minGap)
  }

  ghost predicate Inside(part: seq<Glyph>, chars: seq<Glyph>) {
    forall g :: g in part ==> g in chars
  }

  ghost predicate Separating(split: Splitter, minGap: real) {
    forall c {:trigger split(c)} :: Ordered(c) && split(c).Sides? ==>
      && Ordered(split(c).left) && Ordered(split(c).right)
      && Apart(split(c).left, split(c).right, minGap)
      && Inside(split(c).left, c) && Inside(split(c).right, c)
  }

  ghost predicate Within(columns: seq<seq<Glyph>>, chars: seq<Glyph>) {
    forall a :: 0 <= a < |columns| ==> Inside(columns[a], chars)
  }

  ghost function InOrder(minGap: real): (seq<Glyph>, seq<seq<Glyph>>) -> bool {
    (chars: seq<Glyph>, columns: seq<seq<Glyph>>) =>
      Ordered(chars) ==> LeftToRight(columns, minGap) && Within(columns, chars)
  }

  lemma OneColumn(chars: seq<Glyph>, minGap: real)
    ensures LeftToRight([chars], minGap) && Within([chars], chars)
  {
  }

  lemma OrderInductive(split: Splitter, minGap: real)
    requires Separating(split, minGap)
    ensures Inductive(split, InOrder(minGap))
  {
    var same := InOrder(minGap);
    forall c ensures same(c, [c]) {
      OneColumn(c, minGap);
    }
    forall c, a, b ensures SurvivesSplit(split, same, c, a, b) {
      if Ordered(c) && split(c).Sides? && same(split(c).left, a) && same(split(c).right, b) {
        AppendLeftToRight(split(c).left, split(c).right, a, b, minGap);
        AppendWithin(c, split(c).left, split(c).right, a, b);
      }
    }
  }

  lemma RecurseLeftToRight(chars: seq<Glyph>, split: Splitter, depth: nat, minGap: real)
    requires Ordered(chars) && Separating(split, minGap)
    ensures LeftToRight(Recurse(chars, split, depth), minGap)
  {
    OrderInductive(split, minGap);
    RecursionRecurses(split);
    RecurseKeeps(chars, RecursionOf(split), split, depth, InOrder(minGap));
  }

  lemma AppendLeftToRight(left: seq<Glyph>, right: seq<Glyph>, a: seq<seq<Glyph>>, b: seq<seq<Glyph>>, minGap: real)
    requires LeftToRight(a, minGap) && LeftToRight(b, minGap) && Apart(left, right, minGap)
    requires Within(a, left) && Within(b, right)
    ensures LeftToRight(a + b, minGap)
  {
    forall j, k | 0 <= j < k < |a + b| ensures Apart((a + b)[j], (a + b)[k], minGap) {
      if j < |a| <= k {
        assert (a + b)[j] == a[j] && (a + b)[k] == b[k - |a|];
      }
    }
  }

  lemma AppendWithin(chars: seq<Glyph>, left: seq<Glyph>, right: seq<Glyph>, a: seq<seq<Glyph>>, b: seq<seq<Glyph>>)
    requires Within(a, left) && Within(b, right) && Inside(left, chars) && Inside(right, chars)
    ensures Within(a + b, chars)
  {
    forall j | 0 <= j < |a + b| ensures Inside((a + b)[j], chars) {
      if j < |a| {
        assert Inside(a[j], left);
      } else {
        assert Inside(b[j - |a|], right);
      }
    }
  }

  lemma SplitInside(chars: seq<Glyph>, minGap: real)
    requires Split(chars, minGap).Sides?
    ensures Inside(Split(chars, minGap).left, chars) && Inside(Split(chars, minGap).right, chars)
  {
    var p := Before(FindSplit(chars, minGap).value);
    forall g: Glyph ensures g in Filter(chars, p) ==> g in chars ensures g in Filter(chars, Not(p)) ==> g in chars {
      FilterMember(chars, p, g);
      FilterMember(chars, Not(p), g);
    }
  }

  lemma SplitterSeparates(minGap: real)
    requires minGap > 0.0
    ensures Separating(SplitterOf(minGap), minGap)
  {
    forall c | Ordered(c) && Split(c, minGap).Sides?
      ensures Ordered(Split(c, minGap).left) && Ordered(Split(c, minGap).right)
      ensures Apart(Split(c, minGap).left, Split(c, minGap).right, minGap)
      ensures Inside(Split(c, minGap).left, c) && Inside(Split(c, minGap).right, c)
    {
      SplitInside(c, minGap);
      if NoGutter(Sort(c, ByLeft), minGap) {
        NoSplit(c, minGap);
      } else {
        AtGutter(c, minGap);
      }
    }
  }

  /** The columns come left to right with a gutter between them, also when the depth cap has left
      some of them unsplit. */
  lemma ColumnsLeftToRight(chars: seq<Glyph>, scale: real, width: real, minGap: real)
    requires Ordered(chars) && scale > 0.0
    requires minGap >= scale * 2.5 && minGap >= width * 0.04 && (minGap == scale * 2.5 || minGap == width * 0.04)
    ensures LeftToRight(SplitColumns(chars, scale, width), minGap)
  {
    SplitsAtThreshold(chars, scale, width, minGap);
    SplitterSeparates(minGap);
    RecurseLeftToRight(chars, SplitterOf(minGap), 0, minGap);
  }
}
