/** What rows, cells and delimiters of a Markdown table are, in characters.

    A delimiter row is made of dashes and colons; the cells of a row are what stands between its
    pipes. */
module MarkdownRows {
  import opened Seqs
  import opened Strings
  import opened MarkdownTables

  // ---- Delimiters ----

  /** Between the positions there are three dashes or more and nothing else; outside there may be one
      colon on either side. */
  ghost predicate Dashed(cell: string, from: nat, to: nat) {
    && from <= to <= |cell| && to - from >= 3 && (forall i :: from <= i < to ==> cell[i] == '-')
    && (from == 0 || (from == 1 && cell[0] == ':')) && (to == |cell| || (to == |cell| - 1 && cell[to] == ':'))
  }

  ghost predicate OfDashes(cell: string) { exists from: nat, to: nat :: Dashed(cell, from, to) }

  lemma DashedIsSeparator(cell: string, from: nat, to: nat)
    requires Dashed(cell, from, to)
    ensures IsSeparatorCell(cell)
  {
    assert cell[from] == '-' && cell[to - 1] == '-';
    var tail := cell[from..];
    assert tail[|tail| - 1] == cell[|cell| - 1];
    var core := tail[..to - from];
    forall i | 0 <= i < |core| ensures IsDash(core[i]) {
      assert core[i] == cell[from + i];
    }
    assert tail == if cell[0] == ':' then cell[1..] else cell;
    assert core == if tail[|tail| - 1] == ':' then tail[..|tail| - 1] else tail;
  }

  lemma SeparatorIsDashed(cell: string) returns (from: nat, to: nat)
    requires IsSeparatorCell(cell)
    ensures Dashed(cell, from, to)
  {
    from := if cell != [] && cell[0] == ':' then 1 else 0;
    var tail := cell[from..];
    to := if tail != [] && tail[|tail| - 1] == ':' then |cell| - 1 else |cell|;
    var core := tail[..to - from];
    assert AllOf(core, IsDash);
    forall i | from <= i < to ensures cell[i] == '-' {
      assert core[i - from] == cell[i] && IsDash(core[i - from]);
    }
  }

  /** A cell of a delimiter row is three dashes or more, with or without a colon on either side. */
  lemma SeparatorCellIff(cell: string)
    ensures IsSeparatorCell(cell) <==> OfDashes(cell)
  {
    if IsSeparatorCell(cell) {
      var from, to := SeparatorIsDashed(cell);
    }
    forall from: nat, to: nat | Dashed(cell, from, to) ensures IsSeparatorCell(cell) {
      DashedIsSeparator(cell, from, to);
    }
  }

  function Copies(s: string, n: nat): string { if n == 0 then "" else s + Copies(s, n - 1) }

  lemma StepOfJoin(dash: string, space: string, bar: string, join: string, rest: string)
    requires join + (space + bar) == dash + (space + bar) + rest
    ensures dash + (space + bar + space) + join + (space + bar)
         == dash + (space + bar) + (space + dash + (space + bar) + rest)
  {
    calc {
      dash + (space + bar + space) + join + (space + bar);
      dash + (space + bar) + (space + (join + (space + bar)));
      dash + (space + bar) + (space + (dash + (space + bar) + rest));
    }
  }

  lemma {:induction false} JoinedSame(parts: seq<string>, dash: string, space: string, bar: string)
    requires parts != [] && forall i :: 0 <= i < |parts| ==> parts[i] == dash
    ensures Join(parts, space + bar + space) + (space + bar)
         == dash + (space + bar) + Copies(space + dash + (space + bar), |parts| - 1)
  {
    if |parts| > 1 {
      JoinedSame(parts[1..], dash, space, bar);
      var copy := space + dash + (space + bar);
      StepOfJoin(dash, space, bar, Join(parts[1..], space + bar + space), Copies(copy, |parts| - 2));
    }
  }

  lemma Outer(dash: string, space: string, bar: string, join: string, rest: string)
    requires join + (space + bar) == dash + (space + bar) + rest
    ensures (bar + space) + join + (space + bar) == bar + (space + dash + (space + bar) + rest)
  {
    calc {
      (bar + space) + join + (space + bar);
      bar + (space + (join + (space + bar)));
      bar + (space + (dash + (space + bar) + rest));
    }
  }

  lemma PrintedSame(parts: seq<string>, dash: string, space: string, bar: string)
    requires parts != [] && forall i :: 0 <= i < |parts| ==> parts[i] == dash
    ensures (bar + space) + Join(parts, space + bar + space) + (space + bar)
         == bar + Copies(space + dash + (space + bar), |parts|)
  {
    JoinedSame(parts, dash, space, bar);
    Outer(dash, space, bar, Join(parts, space + bar + space), Copies(space + dash + (space + bar), |parts| - 1));
  }

  lemma Literals(space: string, bar: string)
    requires space == " " && bar == "|"
    ensures space + bar + space == " | " && bar + space == "| " && space + bar == " |"
    ensures space + "---" + (space + bar) == " --- |"
  {
  }

  lemma PrintedDashes(n: nat)
    requires n > 0
    ensures PrintRow(Dashes(n)) == "|" + Copies(" --- |", n)
  {
    var space, bar := " ", "|";
    Literals(space, bar);
    PrintedSame(Dashes(n), "---", space, bar);
  }

  /** The inserted delimiter row, in characters. */
  lemma SeparatorSpelled(header: string, n: nat)
    requires n == |Cells(header)| && n > 0
    ensures SeparatorFor(header) == "|" + Copies(" --- |", n)
  {
    PrintedDashes(n);
  }

  // ---- Rows ----

  /** A line is a table row when a pipe is its first character that is not white space and another pipe
      comes later. */
  lemma TableRowIff(line: string)
    ensures IsTableRow(line) <==> exists i: nat, j: nat :: PipesAt(line, i, j)
  {
    if IsTableRow(line) {
      var n, inner := Span(line, White), Trim(line);
      var k :| 0 <= k < |inner[1..]| && inner[1..][k] == '|';
      assert inner <= line[n..];
      assert line[n..][0] == '|' && line[n..][1 + k] == '|';
      assert AllOf(line[..n], White);
      assert PipesAt(line, n, n + 1 + k);
    }
    forall i: nat, j: nat | PipesAt(line, i, j) ensures IsTableRow(line) {
      PipesMakeARow(line, i, j);
    }
  }

  ghost predicate PipesAt(line: string, i: nat, j: nat) {
    i < j < |line| && AllOf(line[..i], White) && line[i] == '|' && line[j] == '|'
  }

  lemma PipesMakeARow(line: string, i: nat, j: nat)
    requires PipesAt(line, i, j)
    ensures IsTableRow(line)
  {
    assert line == line[..i] + line[i..];
    TrimBehind(line[..i], line[i..], White);
    var inner := RStrip(line[i..], White);
    assert line[i..][0] == '|' && line[i..][j - i] == '|';
    assert |inner| > j - i;
    assert inner[1..][j - i - 1] == '|';
  }

  /** Trimming the end first makes no difference. */
  lemma EndTrimmed(s: string)
    ensures Trim(RStrip(s, White)) == Trim(s)
  {
    var r := RStrip(s, White);
    if r == "" {
      SpanIs(s, White, |s|);
      assert s[|s|..] == "";
    } else {
      SpanIs(r, White, Span(s, White));
      SameCore(s, r, Span(s, White));
    }
  }

  lemma SameCore(s: string, r: string, n: nat)
    requires r == RStrip(s, White) && n < |r|
    ensures RStrip(s[n..], White) == r[n..] == RStrip(r[n..], White)
  {
    forall i | |r| - n <= i < |s| - n ensures White(s[n..][i]) {
      assert s[n..][i] == s[n + i];
    }
    assert r[n..] <= s[n..] && r[n..][|r| - n - 1] == r[|r| - 1];
    RStripIs(s[n..], White, r[n..]);
    RStripIs(r[n..], White, r[n..]);
  }

  /** A row with its last part cut short. */
  lemma CutEnd(head: string, last: string, p: char -> bool)
    requires head != "" && !p(head[|head| - 1])
    ensures RStrip(head + last, p) == head + RStrip(last, p)
  {
    var r := RStrip(last, p);
    assert forall i :: |head + r| <= i < |head + last| ==> (head + last)[i] == last[i - |head|];
    RStripIs(head + last, p, head + r);
  }

  lemma TrimBehind(pre: string, text: string, p: char -> bool)
    requires AllOf(pre, p) && text != "" && !p(text[0])
    ensures Strip(pre + text, p) == RStrip(text, p)
  {
    assert (pre + text)[|pre|] == text[0];
    SpanIs(pre + text, p, |pre|);
    assert (pre + text)[|pre|..] == text;
  }

  function Head(front: seq<string>, bar: string): string { if front == [] then "" else Join(front, bar) + bar }

  lemma JoinTwo(front: seq<string>, last: string, bar: string)
    ensures Join(front + [last], bar) == Head(front, bar) + last
  {
    if front == [] {
      assert front + [last] == [last] && "" + last == last;
    } else {
      JoinSnoc(front, last, bar);
    }
  }

  lemma CutBehind(pre: string, outer: string, last: string, p: char -> bool)
    requires AllOf(pre, p) && outer != "" && !p(outer[0]) && !p(outer[|outer| - 1])
    ensures Strip(pre + (outer + last), p) == outer + RStrip(last, p)
  {
    assert (outer + last)[0] == outer[0];
    TrimBehind(pre, outer + last, p);
    CutEnd(outer, last, p);
  }

  lemma Regroup(a: string, b: string, c: string)
    ensures a + (b + c) == a + b + c
  {
  }

  lemma CutRow(pre: string, head: string, last: string, bar: string, p: char -> bool)
    requires AllOf(pre, p) && |bar| == 1 && !p(bar[0]) && (head == "" || head[|head| - 1] == bar[0])
    ensures Strip(pre + (bar + (head + last)), p) == bar + (head + RStrip(last, p))
  {
    Regroup(bar, head, last);
    Regroup(bar, head, RStrip(last, p));
    CutBehind(pre, bar + head, last, p);
  }

  lemma HeadEnds(front: seq<string>, bar: string)
    requires |bar| == 1
    ensures var head := Head(front, bar); head == "" || head[|head| - 1] == bar[0]
  {
  }

  /** The parts of a row, the last one without the white space at its end. */
  lemma PartsOfRow(pre: string, front: seq<string>, last: string, bar: string, p: char -> bool)
    requires AllOf(pre, p) && |bar| == 1 && !p(bar[0])
    ensures Strip(pre + (bar + Join(front + [last], bar)), p) == bar + Join(front + [RStrip(last, p)], bar)
  {
    JoinTwo(front, last, bar);
    JoinTwo(front, RStrip(last, p), bar);
    HeadEnds(front, bar);
    CutRow(pre, Head(front, bar), last, bar, p);
  }

  lemma SplitOfRow(parts: seq<string>, sep: char)
    requires parts != [] && FreeOf(parts, sep)
    ensures Split([sep] + Join(parts, [sep]), sep) == [""] + parts
  {
    JoinCons("", parts, [sep]);
    assert "" + [sep] + Join(parts, [sep]) == [sep] + Join(parts, [sep]);
    SplitJoin([""] + parts, sep);
  }

  lemma FreeEnd(front: seq<string>, last: string, sep: char)
    requires FreeOf(front + [last], sep)
    ensures FreeOf(front + [RStrip(last, White)], sep)
  {
    var parts := front + [RStrip(last, White)];
    assert (front + [last])[|front|] == last;
    forall k | 0 <= k < |parts| ensures sep !in parts[k] {
      if k < |front| {
        assert (front + [last])[k] == parts[k];
      }
    }
  }

  lemma TrimLast(front: seq<string>, last: string)
    ensures TrimAll(front + [RStrip(last, White)]) == TrimAll(front + [last])
  {
    EndTrimmed(last);
  }

  lemma CellsOfParts(row: string, front: seq<string>, last: string)
    requires Trim(row) != "" && Trim(row)[0] == '|' && Split(Trim(row), '|') == [""] + (front + [last])
    ensures Cells(row) == TrimAll(if Trim(last) == "" then front else front + [last])
  {
    var parts := front + [last];
    assert ([""] + parts)[1..] == parts;
    assert parts[|parts| - 1] == last && parts[..|parts| - 1] == front;
  }

  /** The cells of a row are its parts between the pipes, trimmed; what follows the last pipe counts as
      a cell unless it is blank. */
  lemma CellsMeaning(pre: string, front: seq<string>, last: string)
    requires AllOf(pre, White) && FreeOf(front + [last], '|')
    ensures Cells(pre + (['|'] + Join(front + [last], ['|']))) ==
      TrimAll(if Trim(last) == "" then front else front + [last])
  {
    PartsOfRow(pre, front, last, ['|'], White);
    FreeEnd(front, last, '|');
    SplitOfRow(front + [RStrip(last, White)], '|');
    CellsOfParts(pre + (['|'] + Join(front + [last], ['|'])), front, RStrip(last, White));
    EndTrimmed(last);
    TrimLast(front, last);
  }

  /** A delimiter row has cells, all of them of dashes; an empty row has cells, all of them empty. */
  lemma RowKinds(row: string)
    ensures IsSeparatorRow(row) <==>
      Cells(row) != [] && forall k :: 0 <= k < |Cells(row)| ==> OfDashes(Cells(row)[k])
    ensures IsEmptyRow(row) <==>
      Cells(row) != [] && forall k :: 0 <= k < |Cells(row)| ==> |Cells(row)[k]| == 0
  {
    forall k | 0 <= k < |Cells(row)| ensures IsSeparatorCell(Cells(row)[k]) <==> OfDashes(Cells(row)[k]) {
      SeparatorCellIff(Cells(row)[k]);
    }
  }
}
