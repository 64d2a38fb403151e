/** Two clean-ups of the text of a PDF page: chart debris, and labels of a diagram above its caption. */
module PdfText {
  import opened Seqs

  // Which lines are debris, blank, captions or labels is decided by patterns that are parameters here.

  /** The lines that are left when those at removed indices go. */
  function Survivors<T>(lines: seq<T>, removed: nat -> bool, n: nat): (r: seq<T>)
    requires n <= |lines|
  {
    if n == 0 then []
    else if removed(n - 1) then Survivors(lines, removed, n - 1)
    else Survivors(lines, removed, n - 1) + [lines[n - 1]]
  }

  lemma {:induction false} SurvivorsAgree<T>(a: seq<T>, b: seq<T>, p: nat -> bool, q: nat -> bool, n: nat)
    requires n <= |a| && n <= |b| && forall k :: 0 <= k < n ==> a[k] == b[k] && p(k) == q(k)
    ensures Survivors(a, p, n) == Survivors(b, q, n)
  {
    if n > 0 {
      SurvivorsAgree(a, b, p, q, n - 1);
    }
  }

  lemma {:induction false} NoneSurvive<T>(lines: seq<T>, removed: nat -> bool, n: nat, m: nat)
    requires n <= m <= |lines| && forall k :: n <= k < m ==> removed(k)
    ensures Survivors(lines, removed, m) == Survivors(lines, removed, n)
    decreases m
  {
    if n < m {
      NoneSurvive(lines, removed, n, m - 1);
    }
  }

  /** What is left are the lines at the positions that are not removed, in order. */
  ghost predicate LeftAt<T>(out: seq<T>, lines: seq<T>, at: seq<nat>, removed: nat -> bool, n: nat) {
    && |out| == |at| && Ascending(at) && (forall k: nat :: k in at <==> k < n && !removed(k))
    && forall j :: 0 <= j < |at| ==> at[j] < n <= |lines| && out[j] == lines[at[j]]
  }

  lemma SurvivorsStep<T>(lines: seq<T>, removed: nat -> bool, n: nat)
    requires n < |lines|
    ensures removed(n) ==> Survivors(lines, removed, n + 1) == Survivors(lines, removed, n)
    ensures !removed(n) ==> Survivors(lines, removed, n + 1) == Survivors(lines, removed, n) + [lines[n]]
  {
  }

  lemma NoneLeft<T>(lines: seq<T>, removed: nat -> bool)
    ensures LeftAt(Survivors(lines, removed, 0), lines, [], removed, 0)
  {
  }

  /** The positions of the lines that are left among the first n. */
  function PositionsLeft(removed: nat -> bool, n: nat): seq<nat> {
    if n == 0 then []
    else if removed(n - 1) then PositionsLeft(removed, n - 1)
    else PositionsLeft(removed, n - 1) + [n - 1]
  }

  lemma {:induction false} SurvivorsAt<T>(lines: seq<T>, removed: nat -> bool, n: nat)
    requires n <= |lines|
    ensures LeftAt(Survivors(lines, removed, n), lines, PositionsLeft(removed, n), removed, n)
  {
    if n == 0 {
      NoneLeft(lines, removed);
    } else {
      SurvivorsAt(lines, removed, n - 1);
      SurvivorsStep(lines, removed, n - 1);
      OneMoreLeft(Survivors(lines, removed, n - 1), lines, PositionsLeft(removed, n - 1), removed, n - 1);
    }
  }

  lemma OneMoreLeft<T>(out: seq<T>, lines: seq<T>, at: seq<nat>, removed: nat -> bool, n: nat)
    requires LeftAt(out, lines, at, removed, n) && n < |lines|
    ensures removed(n) ==> LeftAt(out, lines, at, removed, n + 1)
    ensures !removed(n) ==> LeftAt(out + [lines[n]], lines, at + [n], removed, n + 1)
  {
    forall k: nat ensures k in at + [n] <==> k in at || k == n {
    }
  }

  // ---- Chart debris ----

  datatype Kinds<!T> = Kinds(debris: T -> bool, blank: T -> bool) {
    predicate Soft(line: T) { debris(line) || blank(line) }
  }

  /** The end of the stretch of debris and blank lines that starts at i. */
  function EndOf<T>(kinds: Kinds<T>, lines: seq<T>, i: nat): (j: nat)
    requires i <= |lines|
    ensures i <= j <= |lines|
    ensures forall k :: i <= k < j ==> kinds.Soft(lines[k])
    ensures j < |lines| ==> !kinds.Soft(lines[j])
    decreases |lines| - i
  {
    if i < |lines| && kinds.Soft(lines[i]) then EndOf(kinds, lines, i + 1) else i
  }

  /** Line i starts a stretch of debris that is long enough to go. */
  predicate Starts<T>(kinds: Kinds<T>, lines: seq<T>, i: nat)
    requires i < |lines|
  {
    kinds.debris(lines[i]) && EndOf(kinds, lines, i) - i >= 3
  }

  /** Line k belongs to such a stretch: it starts at k or earlier and reaches over k. */
  predicate InDebris<T>(kinds: Kinds<T>, lines: seq<T>, k: nat)
    requires k < |lines|
  {
    exists i :: 0 <= i <= k && Starts(kinds, lines, i) && k < EndOf(kinds, lines, i)
  }

  function Debris<T>(kinds: Kinds<T>, lines: seq<T>): nat -> bool {
    (k: nat) => k < |lines| && InDebris(kinds, lines, k)
  }

  function WithoutDebris<T>(kinds: Kinds<T>, lines: seq<T>): seq<T> { Survivors(lines, Debris(kinds, lines), |lines|) }

  /** No stretch of debris that starts before line i reaches over it. */
  ghost predicate Clear<T>(kinds: Kinds<T>, lines: seq<T>, i: nat) {
    forall h :: 0 <= h < i && h < |lines| && Starts(kinds, lines, h) ==> EndOf(kinds, lines, h) <= i
  }

  lemma LineStays<T>(kinds: Kinds<T>, lines: seq<T>, i: nat)
    requires i < |lines| && Clear(kinds, lines, i) && !Starts(kinds, lines, i)
    ensures Survivors(lines, Debris(kinds, lines), i + 1) == Survivors(lines, Debris(kinds, lines), i) + [lines[i]]
    ensures Clear(kinds, lines, i + 1)
  {
    assert !InDebris(kinds, lines, i);
  }

  lemma StretchGoes<T>(kinds: Kinds<T>, lines: seq<T>, i: nat, j: nat)
    requires i < |lines| && Clear(kinds, lines, i) && Starts(kinds, lines, i) && j == EndOf(kinds, lines, i)
    ensures Survivors(lines, Debris(kinds, lines), j) == Survivors(lines, Debris(kinds, lines), i)
    ensures Clear(kinds, lines, j)
  {
    assert forall k :: i <= k < j ==> InDebris(kinds, lines, k);
    NoneSurvive(lines, Debris(kinds, lines), i, j);
    forall h | 0 <= h < j && Starts(kinds, lines, h) ensures EndOf(kinds, lines, h) <= j {
      if h >= i {
        SameEnd(kinds, lines, i, h);
      }
    }
  }

  /** All lines of a stretch have the same end. */
  lemma {:induction false} SameEnd<T>(kinds: Kinds<T>, lines: seq<T>, i: nat, h: nat)
    requires i <= |lines| && i <= h <= EndOf(kinds, lines, i)
    ensures h <= |lines| && EndOf(kinds, lines, h) == EndOf(kinds, lines, i)
    decreases h - i
  {
    if i < h {
      SameEnd(kinds, lines, i + 1, h);
    }
  }

  /** The loop that looks for the end of a stretch. */
  method FindEnd<T>(kinds: Kinds<T>, lines: seq<T>, i: nat) returns (j: nat)
    requires i <= |lines|
    ensures j == EndOf(kinds, lines, i)
  {
    j := i;
    while j < |lines| && (kinds.debris(lines[j]) || kinds.blank(lines[j]))
      invariant i <= j <= |lines| && EndOf(kinds, lines, j) == EndOf(kinds, lines, i)
    {
      j := j + 1;
    }
  }

  method StripChartTextDebris<T>(lines: seq<T>, kinds: Kinds<T>) returns (out: seq<T>)
    ensures out == WithoutDebris(kinds, lines)
  {
    out := [];
    var i := 0;
    while i < |lines|
      invariant i <= |lines| && Clear(kinds, lines, i) && out == Survivors(lines, Debris(kinds, lines), i)
    {
      if kinds.debris(lines[i]) {
        var j := FindEnd(kinds, lines, i);
        if j - i >= 3 {
          StretchGoes(kinds, lines, i, j);
          i := j;
          continue;
        }
      }
      LineStays(kinds, lines, i);
      out := out + [lines[i]];
      i := i + 1;
    }
  }

  /** From line i to line j, three lines or more begin with debris and are all debris or blank. */
  ghost predicate Stretch<T>(kinds: Kinds<T>, lines: seq<T>, i: nat, j: nat) {
    && i + 3 <= j <= |lines| && kinds.debris(lines[i])
    && forall k :: i <= k < j ==> kinds.debris(lines[k]) || kinds.blank(lines[k])
  }

  ghost predicate InStretch<T>(kinds: Kinds<T>, lines: seq<T>, k: nat) {
    exists i: nat, j: nat :: i <= k < j && Stretch(kinds, lines, i, j)
  }

  lemma {:induction false} EndReaches<T>(kinds: Kinds<T>, lines: seq<T>, i: nat, j: nat)
    requires i <= j <= |lines| && forall k :: i <= k < j ==> kinds.debris(lines[k]) || kinds.blank(lines[k])
    ensures EndOf(kinds, lines, i) >= j
    decreases j - i
  {
    if i < j {
      EndReaches(kinds, lines, i + 1, j);
    }
  }

  lemma DebrisIff<T>(kinds: Kinds<T>, lines: seq<T>, k: nat)
    requires k < |lines|
    ensures Debris(kinds, lines)(k) <==> InStretch(kinds, lines, k)
  {
    if InDebris(kinds, lines, k) {
      var i :| 0 <= i <= k && Starts(kinds, lines, i) && k < EndOf(kinds, lines, i);
      assert Stretch(kinds, lines, i, EndOf(kinds, lines, i));
    }
    if InStretch(kinds, lines, k) {
      var i: nat, j: nat :| i <= k < j && Stretch(kinds, lines, i, j);
      EndReaches(kinds, lines, i, j);
      assert Starts(kinds, lines, i);
    }
  }

  /** What stays are exactly the lines that lie in no such stretch, in order. */
  lemma DebrisMeaning<T>(kinds: Kinds<T>, lines: seq<T>) returns (at: seq<nat>)
    ensures |WithoutDebris(kinds, lines)| == |at| && Ascending(at)
    ensures forall k: nat :: k in at <==> k < |lines| && !InStretch(kinds, lines, k)
    ensures forall j :: 0 <= j < |at| ==> at[j] < |lines| && WithoutDebris(kinds, lines)[j] == lines[at[j]]
  {
    at := PositionsLeft(Debris(kinds, lines), |lines|);
    SurvivorsAt(lines, Debris(kinds, lines), |lines|);
    forall k: nat | k < |lines| ensures Debris(kinds, lines)(k) <==> InStretch(kinds, lines, k) {
      DebrisIff(kinds, lines, k);
    }
  }

  // ---- Once is enough ----

  /** The same clean-up, described from the front. */
  function Stripped<T>(kinds: Kinds<T>, lines: seq<T>): (r: seq<T>)
    decreases |lines|
  {
    if lines == [] then []
    else if Starts(kinds, lines, 0) then Stripped(kinds, lines[EndOf(kinds, lines, 0)..])
    else [lines[0]] + Stripped(kinds, lines[1..])
  }

  /** A stretch that starts in front never grows by the clean-up. */
  lemma {:induction false} StretchShrinks<T>(kinds: Kinds<T>, lines: seq<T>)
    ensures EndOf(kinds, Stripped(kinds, lines), 0) <= EndOf(kinds, lines, 0)
    decreases |lines|
  {
    if lines != [] {
      if Starts(kinds, lines, 0) {
        var rest := lines[EndOf(kinds, lines, 0)..];
        StretchShrinks(kinds, rest);
        assert EndOf(kinds, rest, 0) == 0;
      } else if kinds.Soft(lines[0]) {
        StretchShrinks(kinds, lines[1..]);
        var out := Stripped(kinds, lines);
        assert out[1..] == Stripped(kinds, lines[1..]);
      }
    }
  }

  lemma {:induction false} StrippedTwice<T>(kinds: Kinds<T>, lines: seq<T>)
    ensures Stripped(kinds, Stripped(kinds, lines)) == Stripped(kinds, lines)
    decreases |lines|
  {
    if lines != [] {
      if Starts(kinds, lines, 0) {
        StrippedTwice(kinds, lines[EndOf(kinds, lines, 0)..]);
      } else {
        var out := Stripped(kinds, lines);
        StrippedTwice(kinds, lines[1..]);
        StretchShrinks(kinds, lines);
        assert out[1..] == Stripped(kinds, lines[1..]);
      }
    }
  }

  lemma StrippedAt<T>(kinds: Kinds<T>, lines: seq<T>, i: nat)
    requires i < |lines|
    ensures Stripped(kinds, lines[i..]) ==
      if Starts(kinds, lines, i) then Stripped(kinds, lines[EndOf(kinds, lines, i)..])
      else [lines[i]] + Stripped(kinds, lines[i + 1..])
  {
    if Starts(kinds, lines, i) {
      assert lines[i..][EndOf(kinds, lines[i..], 0)..] == lines[EndOf(kinds, lines, i)..];
    } else {
      assert lines[i..][1..] == lines[i + 1..];
    }
  }

  /** Both descriptions agree, from any line on that no earlier stretch reaches over. */
  lemma {:induction false} StrippedIsWithout<T>(kinds: Kinds<T>, lines: seq<T>, i: nat)
    requires i <= |lines|
    requires forall h :: 0 <= h < i && Starts(kinds, lines, h) ==> EndOf(kinds, lines, h) <= i
    ensures WithoutDebris(kinds, lines) == Survivors(lines, Debris(kinds, lines), i) + Stripped(kinds, lines[i..])
    decreases |lines| - i
  {
    if i < |lines| {
      StrippedAt(kinds, lines, i);
      if Starts(kinds, lines, i) {
        var j := EndOf(kinds, lines, i);
        NoneSurvive(lines, Debris(kinds, lines), i, j);
        StrippedIsWithout(kinds, lines, j);
      } else {
        assert !InDebris(kinds, lines, i);
        StrippedIsWithout(kinds, lines, i + 1);
        Moved(Survivors(lines, Debris(kinds, lines), i), lines[i], Stripped(kinds, lines[i + 1..]));
      }
    }
  }

  /** Cleaning the cleaned lines changes nothing. */
  lemma DebrisIdempotent<T>(kinds: Kinds<T>, lines: seq<T>)
    ensures WithoutDebris(kinds, WithoutDebris(kinds, lines)) == WithoutDebris(kinds, lines)
  {
    var out := WithoutDebris(kinds, lines);
    StrippedIsWithout(kinds, lines, 0);
    StrippedIsWithout(kinds, out, 0);
    StrippedTwice(kinds, lines);
    assert lines[0..] == lines && out[0..] == out;
  }

  // ---- Labels above captions ----

  datatype Marks<!T> = Marks(caption: T -> bool, interior: T -> bool)

  /** Line c is a caption below line k, and the lines from k up to it are interior lines. */
  predicate Reaches<T>(marks: Marks<T>, lines: seq<T>, k: nat, c: int) {
    k < c < |lines| && marks.caption(lines[c]) && forall x :: k <= x < c ==> marks.interior(lines[x])
  }

  /** Nothing but interior lines stands between line k and some caption below it. */
  predicate AboveCaption<T>(marks: Marks<T>, lines: seq<T>, k: nat)
    requires k < |lines|
  {
    exists c :: k < c < |lines| && Reaches(marks, lines, k, c)
  }

  function Labels<T>(marks: Marks<T>, lines: seq<T>): nat -> bool {
    (k: nat) => k < |lines| && AboveCaption(marks, lines, k)
  }

  function WithoutLabels<T>(marks: Marks<T>, lines: seq<T>): seq<T> { Survivors(lines, Labels(marks, lines), |lines|) }

  /** The start of the interior lines at the end of the lines. */
  function TailStart<T>(marks: Marks<T>, lines: seq<T>): (t: nat)
    ensures t <= |lines|
    ensures forall k :: t <= k < |lines| ==> marks.interior(lines[k])
    ensures t > 0 ==> !marks.interior(lines[t - 1])
  {
    if lines != [] && marks.interior(lines[|lines| - 1]) then TailStart(marks, lines[..|lines| - 1]) else |lines|
  }

  lemma ReachesInPrefix<T>(marks: Marks<T>, lines: seq<T>, line: T, k: nat, c: int)
    requires c < |lines|
    ensures Reaches(marks, lines + [line], k, c) == Reaches(marks, lines, k, c)
  {
    var longer := lines + [line];
    assert forall x :: 0 <= x < |lines| ==> longer[x] == lines[x];
  }

  lemma OldReaches<T>(marks: Marks<T>, lines: seq<T>, line: T, k: nat)
    requires k < |lines|
    ensures AboveCaption(marks, lines, k) ==> AboveCaption(marks, lines + [line], k)
    ensures AboveCaption(marks, lines + [line], k) ==>
      AboveCaption(marks, lines, k) || Reaches(marks, lines + [line], k, |lines|)
  {
    if AboveCaption(marks, lines, k) {
      var c :| k < c < |lines| && Reaches(marks, lines, k, c);
      ReachesInPrefix(marks, lines, line, k, c);
    }
    if AboveCaption(marks, lines + [line], k) {
      var c :| k < c <= |lines| && Reaches(marks, lines + [line], k, c);
      if c < |lines| {
        ReachesInPrefix(marks, lines, line, k, c);
      }
    }
  }

  lemma OrdinaryLineAdds<T>(marks: Marks<T>, lines: seq<T>, line: T)
    requires !marks.caption(line)
    ensures WithoutLabels(marks, lines + [line]) == WithoutLabels(marks, lines) + [line]
  {
    var longer := lines + [line];
    forall k | 0 <= k < |lines| ensures Labels(marks, longer)(k) == Labels(marks, lines)(k) {
      OldReaches(marks, lines, line, k);
    }
    SurvivorsAgree(longer, lines, Labels(marks, longer), Labels(marks, lines), |lines|);
  }

  lemma CaptionLabels<T>(marks: Marks<T>, lines: seq<T>, line: T, k: nat)
    requires marks.caption(line) && k < |lines|
    ensures AboveCaption(marks, lines + [line], k) <==> k >= TailStart(marks, lines) || AboveCaption(marks, lines, k)
  {
    var longer, t := lines + [line], TailStart(marks, lines);
    assert forall x :: 0 <= x < |lines| ==> longer[x] == lines[x];
    OldReaches(marks, lines, line, k);
    if k >= t {
      assert Reaches(marks, longer, k, |lines|);
    } else {
      assert !marks.interior(longer[t - 1]);
    }
  }

  lemma CaptionLineAdds<T>(marks: Marks<T>, lines: seq<T>, line: T)
    requires marks.caption(line)
    ensures WithoutLabels(marks, lines + [line])
         == Survivors(lines, Labels(marks, lines), TailStart(marks, lines)) + [line]
  {
    var longer, t := lines + [line], TailStart(marks, lines);
    forall k | 0 <= k < |lines|
      ensures Labels(marks, longer)(k) == (k >= t || Labels(marks, lines)(k))
    {
      CaptionLabels(marks, lines, line, k);
    }
    NoneSurvive(longer, Labels(marks, longer), t, |lines|);
    SurvivorsAgree(longer, lines, Labels(marks, longer), Labels(marks, lines), t);
  }

  /** The survivors end in interior lines exactly as far as the lines do. */
  lemma {:induction false} TailSurvives<T>(marks: Marks<T>, lines: seq<T>, m: nat)
    requires TailStart(marks, lines) <= m <= |lines|
    ensures var goal := Survivors(lines, Labels(marks, lines), TailStart(marks, lines));
      var r := Survivors(lines, Labels(marks, lines), m);
      && goal <= r
      && (forall k :: |goal| <= k < |r| ==> marks.interior(r[k]))
      && (goal != [] ==> !marks.interior(goal[|goal| - 1]))
    decreases m
  {
    var t := TailStart(marks, lines);
    if m > t {
      TailSurvives(marks, lines, m - 1);
    } else if t > 0 {
      assert !AboveCaption(marks, lines, t - 1);
    }
  }

  /** The inner loop of the source: labels are popped from the end. */
  method PopLabels<T>(before: seq<T>, marks: Marks<T>, ghost goal: seq<T>) returns (out: seq<T>)
    requires goal <= before && forall k :: |goal| <= k < |before| ==> marks.interior(before[k])
    requires goal == [] || !marks.interior(goal[|goal| - 1])
    ensures out == goal
  {
    out := before;
    while out != [] && marks.interior(out[|out| - 1])
      invariant goal <= out <= before
      decreases |out|
    {
      out := out[..|out| - 1];
    }
  }

  method StripLinesAboveCaptions<T>(lines: seq<T>, marks: Marks<T>) returns (out: seq<T>)
    ensures out == WithoutLabels(marks, lines)
  {
    out := [];
    for i := 0 to |lines|
      invariant out == WithoutLabels(marks, lines[..i])
    {
      ghost var before := lines[..i];
      assert lines[..i + 1] == before + [lines[i]];
      if marks.caption(lines[i]) {
        TailSurvives(marks, before, i);
        out := PopLabels(out, marks, Survivors(before, Labels(marks, before), TailStart(marks, before)));
        CaptionLineAdds(marks, before, lines[i]);
      } else {
        OrdinaryLineAdds(marks, before, lines[i]);
      }
      out := out + [lines[i]];
    }
    assert lines[..|lines|] == lines;
  }

  /** No interior line stands directly above a caption. */
  ghost predicate CaptionsStandClear<T>(marks: Marks<T>, lines: seq<T>) {
    forall k :: 0 < k < |lines| && marks.caption(lines[k]) ==> !marks.interior(lines[k - 1])
  }

  lemma {:induction false} LabelsGo<T>(marks: Marks<T>, lines: seq<T>)
    ensures CaptionsStandClear(marks, WithoutLabels(marks, lines))
  {
    if lines != [] {
      var front, line := lines[..|lines| - 1], lines[|lines| - 1];
      assert lines == front + [line];
      LabelsGo(marks, front);
      if marks.caption(line) {
        CaptionLineAdds(marks, front, line);
        TailSurvives(marks, front, |front|);
      } else {
        OrdinaryLineAdds(marks, front, line);
      }
    }
  }

  lemma {:induction false} NothingGoes<T>(lines: seq<T>, removed: nat -> bool, n: nat)
    requires n <= |lines| && forall k :: 0 <= k < n ==> !removed(k)
    ensures Survivors(lines, removed, n) == lines[..n]
  {
    if n > 0 {
      NothingGoes(lines, removed, n - 1);
    }
  }

  /** Line c is a caption, and from line k down to it there are only interior lines. */
  ghost predicate LeadsDown<T>(marks: Marks<T>, lines: seq<T>, k: nat, c: nat) {
    && k < c < |lines| && marks.caption(lines[c])
    && forall x :: 0 <= x < |lines| && k <= x < c ==> marks.interior(lines[x])
  }

  /** What stays are exactly the lines from which no caption is reached through interior lines alone. */
  lemma LabelsMeaning<T>(marks: Marks<T>, lines: seq<T>) returns (at: seq<nat>)
    ensures |WithoutLabels(marks, lines)| == |at| && Ascending(at)
    ensures forall k: nat :: k in at <==> k < |lines| && forall c: nat :: !LeadsDown(marks, lines, k, c)
    ensures forall j :: 0 <= j < |at| ==> at[j] < |lines| && WithoutLabels(marks, lines)[j] == lines[at[j]]
  {
    at := PositionsLeft(Labels(marks, lines), |lines|);
    SurvivorsAt(lines, Labels(marks, lines), |lines|);
    forall k: nat, c: nat | k < |lines| ensures LeadsDown(marks, lines, k, c) <==> Reaches(marks, lines, k, c) {
    }
  }

  /** Removing the labels a second time changes nothing. */
  lemma LabelsIdempotent<T>(marks: Marks<T>, lines: seq<T>)
    ensures WithoutLabels(marks, WithoutLabels(marks, lines)) == WithoutLabels(marks, lines)
  {
    var out := WithoutLabels(marks, lines);
    LabelsGo(marks, lines);
    forall k: nat, c | k < c < |out| ensures !Reaches(marks, out, k, c) {
      assert marks.caption(out[c]) ==> !marks.interior(out[c - 1]);
    }
    NothingGoes(out, Labels(marks, out), |out|);
    assert out[..|out|] == out;
  }
}
