/** The repair of Markdown tables (section 4.10 of the GitHub Flavored Markdown spec).

    Every run of table rows loses a made-up empty head and delimiter row, and gets a delimiter row
    after its first remaining row. */
module MarkdownTables {
  import opened Seqs
  import opened Strings

  function Trim(s: string): string { Strip(s, White) }

  predicate IsDash(c: char) { c == '-' }

  // ---- Rows ----

  function TrimAll(parts: seq<string>): (r: seq<string>)
    ensures |r| == |parts| && forall i :: 0 <= i < |parts| ==> r[i] == Trim(parts[i])
  {
    Map(parts, Trim)
  }

  /** The cells of a row. The part in front of the first pipe is empty and is left out; what
      follows the last pipe is left out when it is blank. */
  function Cells(row: string): seq<string> {
    var inner := Trim(row);
    if inner == [] || inner[0] != '|' then [] else
    var parts := Split(inner, '|')[1..];
    TrimAll(if parts != [] && Trim(parts[|parts| - 1]) == "" then parts[..|parts| - 1] else parts)
  }

  predicate IsTableRow(line: string) {
    var inner := Trim(line);
    inner != [] && inner[0] == '|' && '|' in inner[1..]
  }

  /** Three dashes or more, with an optional colon on either side. */
  predicate IsSeparatorCell(cell: string) {
    var tail := if cell != [] && cell[0] == ':' then cell[1..] else cell;
    var core := if tail != [] && tail[|tail| - 1] == ':' then tail[..|tail| - 1] else tail;
    |core| >= 3 && AllOf(core, IsDash)
  }

  predicate IsSeparatorRow(row: string) {
    var cells := Cells(row);
    cells != [] && forall k :: 0 <= k < |cells| ==> IsSeparatorCell(cells[k])
  }

  predicate IsEmptyRow(row: string) {
    var cells := Cells(row);
    cells != [] && forall k :: 0 <= k < |cells| ==> cells[k] == ""
  }

  function PrintRow(cells: seq<string>): string { "| " + Join(cells, " | ") + " |" }

  function Dashes(n: nat): (r: seq<string>)
    ensures |r| == n && forall i :: 0 <= i < n ==> r[i] == "---"
  {
    seq(n, i => "---")
  }

  function SeparatorFor(header: string): string { PrintRow(Dashes(|Cells(header)|)) }

  // ---- Printing and splitting a row ----

  predicate Trimmed(cell: string) { cell == [] || (!White(cell[0]) && !White(cell[|cell| - 1])) }

  /** A cell that can stand in a printed row. */
  predicate Printable(cell: string) { Trimmed(cell) && '|' !in cell }

  lemma TrimPadded(cell: string)
    requires Trimmed(cell)
    ensures Trim(" " + cell + " ") == cell
  {
    var padded := " " + cell + " ";
    if cell == [] {
      SpanIs(padded, White, 2);
    } else {
      SpanIs(padded, White, 1);
      assert padded[1..] == cell + " ";
      RStripIs(cell + " ", White, cell);
    }
  }

  function Padded(cells: seq<string>): (r: seq<string>)
    ensures |r| == |cells| && forall i :: 0 <= i < |cells| ==> r[i] == " " + cells[i] + " "
  {
    seq(|cells|, i requires 0 <= i < |cells| => " " + cells[i] + " ")
  }

  lemma {:induction false} PaddedJoin(cells: seq<string>)
    requires cells != []
    ensures " " + Join(cells, " | ") + " " == Join(Padded(cells), "|")
  {
    if |cells| == 1 {
    } else {
      PaddedJoin(cells[1..]);
      assert Padded(cells)[1..] == Padded(cells[1..]);
      var rest := Join(cells[1..], " | ");
      calc {
        " " + (cells[0] + " | " + rest) + " ";
        " " + cells[0] + " " + "|" + (" " + rest + " ");
        Padded(cells)[0] + "|" + Join(Padded(cells)[1..], "|");
      }
    }
  }

  lemma PrintedText(cells: seq<string>)
    requires cells != []
    ensures PrintRow(cells) == "|" + Join(Padded(cells), "|") + "|"
  {
    PaddedJoin(cells);
    assert PrintRow(cells) == "|" + (" " + Join(cells, " | ") + " ") + "|";
  }

  lemma JoinOuter(parts: seq<string>, sep: string)
    requires parts != []
    ensures Join([""] + (parts + [""]), sep) == sep + Join(parts, sep) + sep
  {
    JoinSnoc(parts, "", sep);
    JoinCons("", parts + [""], sep);
    assert "" + sep + (Join(parts, sep) + sep + "") == sep + Join(parts, sep) + sep;
  }

  /** A printed row between its outer pipes: an empty part, the padded cells, an empty part. */
  lemma PartsOfPrinted(cells: seq<string>)
    requires cells != [] && forall k :: 0 <= k < |cells| ==> '|' !in cells[k]
    ensures Split(PrintRow(cells), '|') == [""] + Padded(cells) + [""]
  {
    var parts := [""] + (Padded(cells) + [""]);
    PrintedText(cells);
    JoinOuter(Padded(cells), ['|']);
    SplitJoin(parts, '|');
    assert parts == [""] + Padded(cells) + [""];
  }

  lemma TrimAllPadded(cells: seq<string>)
    requires forall k :: 0 <= k < |cells| ==> Printable(cells[k])
    ensures TrimAll(Padded(cells)) == cells
  {
    forall k | 0 <= k < |cells| ensures Trim(Padded(cells)[k]) == cells[k] {
      TrimPadded(cells[k]);
    }
  }

  lemma BetweenEnds(parts: seq<string>, cells: seq<string>)
    requires parts == [""] + cells + [""]
    ensures parts[1..] == cells + [""] && parts[1..][..|parts[1..]| - 1] == cells
  {
  }

  /** The second half of `Cells`, for a row whose last pipe ends it. */
  lemma CellsOf(row: string, cells: seq<string>)
    requires Trim(row) == row && row != [] && row[0] == '|' && Split(row, '|') == [""] + cells + [""]
    ensures Cells(row) == TrimAll(cells)
  {
    BetweenEnds(Split(row, '|'), cells);
    TrimNothing();
  }

  lemma TrimNothing()
    ensures Trim("") == ""
  {
  }

  /** Splitting a printed row gives its cells back. */
  lemma SplitPrinted(cells: seq<string>)
    requires cells != [] && forall k :: 0 <= k < |cells| ==> Printable(cells[k])
    ensures Cells(PrintRow(cells)) == cells
    ensures IsTableRow(PrintRow(cells))
  {
    PartsOfPrinted(cells);
    CellsOf(PrintRow(cells), Padded(cells));
    TrimAllPadded(cells);
  }

  lemma DashesPrint(n: nat)
    requires n > 0
    ensures Cells(PrintRow(Dashes(n))) == Dashes(n)
    ensures IsSeparatorRow(PrintRow(Dashes(n))) && IsTableRow(PrintRow(Dashes(n)))
  {
    var cells := Dashes(n);
    forall k | 0 <= k < n ensures Printable(cells[k]) && IsSeparatorCell(cells[k]) {
      assert cells[k] == "---";
    }
    SplitPrinted(cells);
  }

  /** The inserted row is a delimiter row with as many cells as the row it follows. */
  lemma SeparatorFits(header: string)
    requires Cells(header) != []
    ensures Cells(SeparatorFor(header)) == Dashes(|Cells(header)|)
    ensures IsSeparatorRow(SeparatorFor(header)) && IsTableRow(SeparatorFor(header))
    ensures SeparatorFor(SeparatorFor(header)) == SeparatorFor(header)
  {
    var n := |Cells(header)|;
    DashesPrint(n);
    assert |Cells(SeparatorFor(header))| == n;
  }

  /** A table row has at least one cell. */
  lemma TableRowHasCells(row: string)
    requires IsTableRow(row)
    ensures Cells(row) != []
  {
    TwoPipes(Trim(row));
  }

  lemma SplitBehind(inner: string, sep: char)
    requires inner != [] && inner[0] == sep
    ensures Split(inner, sep) == [""] + Split(inner[1..], sep)
  {
    SpanIs(inner, IsNot(sep), 0);
    assert inner[..0] == "";
  }

  lemma SplitTwo(s: string, sep: char)
    requires sep in s
    ensures |Split(s, sep)| >= 2
  {
    var i :| 0 <= i < |s| && s[i] == sep;
    assert !IsNot(sep)(s[i]);
    assert Span(s, IsNot(sep)) <= i;
  }

  lemma TwoPipes(inner: string)
    requires inner != [] && inner[0] == '|' && '|' in inner[1..]
    ensures |Split(inner, '|')| >= 3
  {
    SplitBehind(inner, '|');
    SplitTwo(inner[1..], '|');
  }

  // ---- A block of table rows ----

  /** What the repair of a block has to know about rows. */
  datatype Dialect = Dialect(
    row: string -> bool, empty: string -> bool, separator: string -> bool, delimiter: string -> string)

  function Gfm(): Dialect { Dialect(IsTableRow, IsEmptyRow, IsSeparatorRow, SeparatorFor) }

  function DropEmptyRows(block: seq<string>, d: Dialect): (r: seq<string>)
    ensures |r| <= |block| && r == block[|block| - |r|..]
    ensures r != [] ==> !d.empty(r[0])
  {
    if block != [] && d.empty(block[0]) then DropEmptyRows(block[1..], d) else block
  }

  /** The block without its made-up first rows. */
  function WithoutPrefix(block: seq<string>, d: Dialect): seq<string> {
    var rows := DropEmptyRows(block, d);
    if rows != [] && d.separator(rows[0]) then rows[1..] else rows
  }

  function WithDelimiter(rows: seq<string>, d: Dialect): seq<string> {
    if |rows| >= 2 && !d.separator(rows[1]) then [rows[0], d.delimiter(rows[0])] + rows[1..] else rows
  }

  function Repaired(block: seq<string>, d: Dialect): seq<string> { WithDelimiter(WithoutPrefix(block, d), d) }

  method NormalizeTableBlock(block: seq<string>, d: Dialect) returns (rows: seq<string>)
    ensures rows == Repaired(block, d)
  {
    rows := block;
    while rows != [] && d.empty(rows[0])
      invariant DropEmptyRows(rows, d) == DropEmptyRows(block, d)
      decreases |rows|
    {
      rows := rows[1..];
    }
    if rows != [] && d.separator(rows[0]) {
      rows := rows[1..];
    }
    if |rows| >= 2 && !d.separator(rows[1]) {
      var separator := d.delimiter(rows[0]);
      rows := [rows[0], separator] + rows[1..];
    }
  }

  predicate Ordinary(row: string, d: Dialect) { !d.empty(row) && !d.separator(row) }

  /** When the repair of the block is final. The first row left should be neither empty nor a
      delimiter row; the one exception is a left-over delimiter row written exactly as the repair
      itself would write it. */
  predicate Stable(block: seq<string>, d: Dialect) {
    var rows := WithoutPrefix(block, d);
    rows == [] || Ordinary(rows[0], d) || (d.separator(rows[0]) && StableDelimiters(rows, d))
  }

  predicate StableDelimiters(rows: seq<string>, d: Dialect) {
    && |rows| >= 2
    && rows[0] == d.delimiter(rows[0])
    && (!d.separator(rows[1]) || (rows[1] == rows[0] && |rows| >= 3 && !d.separator(rows[2])))
  }

  /** The delimiter row for a row is a separator, not empty, and its own delimiter row. */
  predicate Delimits(d: Dialect, row: string) {
    var delimiter := d.delimiter(row);
    && d.row(delimiter) && d.separator(delimiter) && !d.empty(delimiter) && d.delimiter(delimiter) == delimiter
    && !(d.empty(row) && d.separator(row))
  }

  ghost predicate Lawful(d: Dialect, lines: seq<string>) {
    forall k :: 0 <= k < |lines| && d.row(lines[k]) ==> Delimits(d, lines[k])
  }

  ghost predicate TableRows(rows: seq<string>, d: Dialect) { forall k :: 0 <= k < |rows| ==> d.row(rows[k]) }

  lemma GfmDelimits(row: string)
    requires IsTableRow(row)
    ensures Delimits(Gfm(), row)
  {
    TableRowHasCells(row);
    SeparatorFits(row);
  }

  /** What the splitting and printing of rows guarantees to the rest. */
  lemma GfmLawful(lines: seq<string>)
    ensures Lawful(Gfm(), lines)
  {
    forall k | 0 <= k < |lines| && Gfm().row(lines[k]) ensures Delimits(Gfm(), lines[k]) {
      GfmDelimits(lines[k]);
    }
  }

  lemma RowsOfBlock(block: seq<string>, d: Dialect)
    requires Lawful(d, block) && TableRows(block, d)
    ensures forall k :: 0 <= k < |WithoutPrefix(block, d)| ==>
      Delimits(d, WithoutPrefix(block, d)[k]) && d.row(WithoutPrefix(block, d)[k])
  {
  }

  lemma PrefixOfTwo(rows: seq<string>, d: Dialect)
    requires |rows| >= 2 && d.empty(rows[0]) && d.separator(rows[1]) && !d.empty(rows[1])
    ensures WithoutPrefix(rows, d) == rows[2..]
  {
    assert DropEmptyRows(rows, d) == DropEmptyRows(rows[1..], d) == rows[1..];
  }

  lemma EmptyHeadIsDropped(rows: seq<string>, d: Dialect)
    requires rows != [] && Delimits(d, rows[0]) && d.empty(rows[0])
    requires forall k :: 0 <= k < |rows| && d.separator(rows[k]) ==> !d.empty(rows[k])
    ensures |Repaired(WithDelimiter(rows, d), d)| < |WithDelimiter(rows, d)|
  {
    var out := WithDelimiter(rows, d);
    if |rows| == 1 {
      assert DropEmptyRows(out, d) == DropEmptyRows([], d) == [];
    } else {
      PrefixOfTwo(out, d);
    }
  }

  lemma DelimiterHead(rows: seq<string>, d: Dialect)
    requires rows != [] && Delimits(d, rows[0]) && d.separator(rows[0])
    ensures Repaired(WithDelimiter(rows, d), d) == WithDelimiter(rows, d) <==> StableDelimiters(rows, d)
  {
    var out, canonical := WithDelimiter(rows, d), d.delimiter(rows[0]);
    assert out[0] == rows[0];
    assert WithoutPrefix(out, d) == out[1..];
    if |rows| >= 2 && !d.separator(rows[1]) {
      assert out[1..] == [canonical] + rows[1..];
      assert Repaired(out, d) == [canonical, canonical] + rows[1..];
      assert Repaired(out, d)[0] == canonical;
    } else if |rows| >= 3 && !d.separator(rows[2]) {
      assert Repaired(out, d) == [rows[1], d.delimiter(rows[1])] + rows[2..];
      assert Repaired(out, d)[0] == rows[1] && Repaired(out, d)[1] == d.delimiter(rows[1]);
      assert rows == [rows[0], rows[1]] + rows[2..];
    }
  }

  /** Repairing a block twice is the same as once, exactly for the stable blocks. */
  lemma BlockIdempotentIff(block: seq<string>, d: Dialect)
    requires Lawful(d, block) && TableRows(block, d)
    ensures Repaired(Repaired(block, d), d) == Repaired(block, d) <==> Stable(block, d)
  {
    var rows := WithoutPrefix(block, d);
    RowsOfBlock(block, d);
    if rows != [] {
      if d.empty(rows[0]) {
        EmptyHeadIsDropped(rows, d);
      } else if d.separator(rows[0]) {
        DelimiterHead(rows, d);
      } else {
        assert Repaired(WithDelimiter(rows, d), d) == WithDelimiter(rows, d);
      }
    } else {
      assert Repaired(block, d) == [];
    }
  }

  /** The repair drops the empty rows in front, and one delimiter row; the first row it leaves is empty
      if and only if an empty row follows that delimiter row. */
  lemma EmptyHeadIff(block: seq<string>, d: Dialect)
    requires Lawful(d, block) && TableRows(block, d)
    ensures var rows, out := DropEmptyRows(block, d), Repaired(block, d);
      out != [] && d.empty(out[0]) <==> |rows| >= 2 && d.separator(rows[0]) && d.empty(rows[1])
  {
    var rows := DropEmptyRows(block, d);
    assert rows != [] ==> !d.empty(rows[0]);
    assert WithoutPrefix(block, d) != [] ==> Repaired(block, d)[0] == WithoutPrefix(block, d)[0];
  }

  /** With an ordinary first row and at least one more, the repaired block is that row, a delimiter
      row, and the remaining rows in order. */
  lemma HeadDelimiterRows(block: seq<string>, d: Dialect)
    requires Lawful(d, block) && TableRows(block, d)
    requires |WithoutPrefix(block, d)| >= 2
    ensures var rows, out := WithoutPrefix(block, d), Repaired(block, d);
      && out[0] == rows[0] && d.separator(out[1])
      && out[2..] == (if d.separator(rows[1]) then rows[2..] else rows[1..])
      && (!d.separator(rows[1]) ==> out[1] == d.delimiter(out[0]))
  {
    var rows := WithoutPrefix(block, d);
    assert rows[0] in block;
    assert Delimits(d, rows[0]);
  }

  predicate Kind(d: Dialect, row: string, empty: bool, separator: bool) {
    d.empty(row) == empty && d.separator(row) == separator && d.delimiter(row) == PrintRow(["---"])
  }

  lemma KindOf(cell: string, row: string, separator: bool)
    requires Printable(cell) && row == PrintRow([cell]) && IsSeparatorCell(cell) == separator
    ensures Kind(Gfm(), row, cell == "", separator)
  {
    SplitPrinted([cell]);
    OneDash(row, cell);
  }

  lemma OneDash(row: string, cell: string)
    requires Cells(row) == [cell]
    ensures SeparatorFor(row) == PrintRow(["---"])
    ensures IsEmptyRow(row) <==> cell == ""
    ensures IsSeparatorRow(row) <==> IsSeparatorCell(cell)
  {
    assert Dashes(1) == ["---"];
    assert Cells(row)[0] == cell;
  }

  lemma RepairsTwice(delimiter: string, empty: string, data: string, d: Dialect)
    requires Kind(d, delimiter, false, true) && Kind(d, empty, true, false) && Kind(d, data, false, false)
    requires delimiter == PrintRow(["---"])
    ensures Repaired([delimiter, empty, data], d) == [empty, delimiter, data]
    ensures Repaired([empty, delimiter, data], d) == [data]
  {
    assert DropEmptyRows([delimiter, empty, data], d) == [delimiter, empty, data];
    PrefixOfTwo([empty, delimiter, data], d);
  }

  /** A delimiter row, an empty row and a data row: the first repair takes the empty row for the
      header, and the second one removes it together with the delimiter row. */
  lemma DelimiterEmptyData(delimiter: string, empty: string, data: string)
    requires delimiter == PrintRow(["---"]) && empty == PrintRow([""]) && data == PrintRow(["a"])
    ensures Repaired([delimiter, empty, data], Gfm()) == [empty, delimiter, data]
    ensures Repaired([empty, delimiter, data], Gfm()) == [data]
  {
    assert Printable("---") && IsSeparatorCell("---");
    assert Printable("") && !IsSeparatorCell("");
    assert Printable("a") && !IsSeparatorCell("a");
    KindOf("---", delimiter, true);
    KindOf("", empty, false);
    KindOf("a", data, false);
    RepairsTwice(delimiter, empty, data, Gfm());
  }

  // ---- A document ----

  function TableRun(lines: seq<string>, d: Dialect): (n: nat)
    ensures n <= |lines|
    ensures TableRows(lines[..n], d)
    ensures n < |lines| ==> !d.row(lines[n])
  {
    if lines == [] || !d.row(lines[0]) then 0 else
    var n := TableRun(lines[1..], d);
    assert lines[..n + 1] == [lines[0]] + lines[1..][..n];
    n + 1
  }

  /** The document with every maximal run of table rows repaired. */
  function Document(lines: seq<string>, d: Dialect): seq<string>
    decreases |lines|
  {
    if lines == [] then []
    else if !d.row(lines[0]) then [lines[0]] + Document(lines[1..], d)
    else
      var n := TableRun(lines, d);
      Repaired(lines[..n], d) + Document(lines[n..], d)
  }

  predicate AllStable(lines: seq<string>, d: Dialect)
    decreases |lines|
  {
    if lines == [] then true
    else if !d.row(lines[0]) then AllStable(lines[1..], d)
    else Stable(lines[..TableRun(lines, d)], d) && AllStable(lines[TableRun(lines, d)..], d)
  }

  lemma PlainStep(lines: seq<string>, i: nat, d: Dialect)
    requires i < |lines| && !d.row(lines[i])
    ensures Document(lines[i..], d) == [lines[i]] + Document(lines[i + 1..], d)
  {
    assert lines[i..][1..] == lines[i + 1..];
  }

  lemma BlockStep(lines: seq<string>, start: nat, end: nat, d: Dialect)
    requires start < end <= |lines| && end == start + TableRun(lines[start..], d)
    ensures Document(lines[start..], d) == Repaired(lines[start..end], d) + Document(lines[end..], d)
  {
    RunOfNothing(lines[start..], d);
    SliceOfRest(lines, start, end);
    DocumentParts(lines[start..], lines[start..end], lines[end..], d);
  }

  lemma DocumentParts(lines: seq<string>, block: seq<string>, rest: seq<string>, d: Dialect)
    requires lines != [] && d.row(lines[0])
    requires block == lines[..TableRun(lines, d)] && rest == lines[TableRun(lines, d)..]
    ensures Document(lines, d) == Repaired(block, d) + Document(rest, d)
  {
    DocumentOfRun(lines, TableRun(lines, d), d);
  }

  lemma SliceOfRest(lines: seq<string>, start: nat, end: nat)
    requires start <= end <= |lines|
    ensures lines[start..][..end - start] == lines[start..end] && lines[start..][end - start..] == lines[end..]
  {
  }

  method TakeBlock(lines: seq<string>, start: nat, d: Dialect) returns (block: seq<string>, end: nat)
    requires start <= |lines|
    ensures end == start + TableRun(lines[start..], d) && block == lines[start..end]
  {
    block, end := [], start;
    while end < |lines| && d.row(lines[end])
      invariant start <= end <= |lines| && block == lines[start..end]
      invariant start + TableRun(lines[start..], d) == end + TableRun(lines[end..], d)
    {
      RunGrows(lines, start, end, d);
      block := block + [lines[end]];
      end := end + 1;
    }
    RunOfNothing(lines[end..], d);
  }

  method NormalizeLines(lines: seq<string>, d: Dialect) returns (out: seq<string>)
    ensures out == Document(lines, d)
  {
    out := [];
    var i := 0;
    ghost var rest := Document(lines, d);
    while i < |lines|
      invariant i <= |lines| && rest == Document(lines[i..], d)
      invariant out + rest == Document(lines, d)
    {
      if !d.row(lines[i]) {
        PlainStep(lines, i, d);
        rest := Document(lines[i + 1..], d);
        Moved(out, lines[i], rest);
        out := out + [lines[i]];
        i := i + 1;
      } else {
        var block, end := TakeBlock(lines, i, d);
        BlockStep(lines, i, end, d);
        var rows := NormalizeTableBlock(block, d);
        rest := Document(lines[end..], d);
        MovedAll(out, rows, rest);
        out := out + rows;
        i := end;
      }
    }
  }

  method NormalizeSpuriousTablePrefixes(content: string) returns (result: string)
    ensures result == Join(Document(Split(content, '\n'), Gfm()), "\n")
  {
    var lines := NormalizeLines(Split(content, '\n'), Gfm());
    result := Join(lines, "\n");
  }

  // ---- No content is lost ----

  /** Lines outside tables and rows that are neither empty nor delimiter rows. */
  function Content(d: Dialect): string -> bool { (line: string) => !d.row(line) || Ordinary(line, d) }

  lemma {:induction false} EmptyRowsHoldNothing(block: seq<string>, d: Dialect)
    requires TableRows(block, d)
    ensures Filter(DropEmptyRows(block, d), Content(d)) == Filter(block, Content(d))
  {
    if block != [] && d.empty(block[0]) {
      EmptyRowsHoldNothing(block[1..], d);
    }
  }

  lemma FilterParts(a: seq<string>, b: seq<string>, x: seq<string>, y: seq<string>, p: string -> bool)
    requires Filter(a, p) == Filter(x, p) && Filter(b, p) == Filter(y, p)
    ensures Filter(a + b, p) == Filter(x + y, p)
  {
    FilterAppend(a, b, p);
    FilterAppend(x, y, p);
  }

  lemma DelimiterHoldsNothing(rows: seq<string>, d: Dialect)
    requires |rows| >= 2 && Delimits(d, rows[0])
    ensures Filter([rows[0], d.delimiter(rows[0])] + rows[1..], Content(d)) == Filter(rows, Content(d))
  {
    var delimiter := d.delimiter(rows[0]);
    assert [delimiter][1..] == [];
    assert Filter([delimiter], Content(d)) == [];
    FilterAppend([rows[0]], [delimiter], Content(d));
    assert [rows[0]] + [delimiter] == [rows[0], delimiter];
    FilterParts([rows[0], delimiter], rows[1..], [rows[0]], rows[1..], Content(d));
    assert rows == [rows[0]] + rows[1..];
  }

  lemma PrefixHoldsNothing(block: seq<string>, d: Dialect)
    requires TableRows(block, d)
    ensures Filter(WithoutPrefix(block, d), Content(d)) == Filter(block, Content(d))
  {
    EmptyRowsHoldNothing(block, d);
  }

  lemma RepairKeepsContent(block: seq<string>, d: Dialect)
    requires Lawful(d, block) && TableRows(block, d)
    ensures Filter(Repaired(block, d), Content(d)) == Filter(block, Content(d))
  {
    var rows := WithoutPrefix(block, d);
    PrefixHoldsNothing(block, d);
    RowsOfBlock(block, d);
    if |rows| >= 2 && !d.separator(rows[1]) {
      DelimiterHoldsNothing(rows, d);
    }
  }

  lemma RunNotEmpty(lines: seq<string>, d: Dialect)
    requires lines != [] && d.row(lines[0])
    ensures TableRun(lines, d) == 1 + TableRun(lines[1..], d)
  {
  }

  lemma RunOfNothing(lines: seq<string>, d: Dialect)
    ensures TableRun(lines, d) == 0 <==> lines == [] || !d.row(lines[0])
  {
  }

  lemma RunGrows(lines: seq<string>, start: nat, end: nat, d: Dialect)
    requires start <= end < |lines| && d.row(lines[end])
    ensures TableRun(lines[end..], d) == 1 + TableRun(lines[end + 1..], d)
    ensures lines[start..end] + [lines[end]] == lines[start..end + 1]
  {
    RunNotEmpty(lines[end..], d);
    assert lines[end..][1..] == lines[end + 1..];
  }

  /** A document that starts with a table row: its first block, repaired, and the rest. */
  lemma DocumentOfRun(lines: seq<string>, n: nat, d: Dialect)
    requires lines != [] && d.row(lines[0]) && n == TableRun(lines, d)
    ensures Document(lines, d) == Repaired(lines[..n], d) + Document(lines[n..], d)
  {
    RunNotEmpty(lines, d);
  }

  lemma LawfulParts(lines: seq<string>, n: nat, d: Dialect)
    requires Lawful(d, lines) && n <= |lines|
    ensures Lawful(d, lines[..n]) && Lawful(d, lines[n..]) && lines == lines[..n] + lines[n..]
  {
  }

  lemma FirstBlock(lines: seq<string>, n: nat, d: Dialect)
    requires Lawful(d, lines) && lines != [] && d.row(lines[0]) && n == TableRun(lines, d)
    ensures 0 < n && lines == lines[..n] + lines[n..]
    ensures Document(lines, d) == Repaired(lines[..n], d) + Document(lines[n..], d)
    ensures Lawful(d, lines[..n]) && Lawful(d, lines[n..]) && TableRows(lines[..n], d)
  {
    RunNotEmpty(lines, d);
    DocumentOfRun(lines, n, d);
    LawfulParts(lines, n, d);
  }

  /** The repair drops and adds only empty rows and delimiter rows of tables. */
  lemma {:induction false} DocumentKeepsContent(lines: seq<string>, d: Dialect)
    requires Lawful(d, lines)
    ensures Filter(Document(lines, d), Content(d)) == Filter(lines, Content(d))
    decreases |lines|
  {
    if lines == [] {
    } else if !d.row(lines[0]) {
      assert lines == [lines[0]] + lines[1..];
      DocumentKeepsContent(lines[1..], d);
      FilterParts([lines[0]], Document(lines[1..], d), [lines[0]], lines[1..], Content(d));
    } else {
      var n := TableRun(lines, d);
      FirstBlock(lines, n, d);
      RepairKeepsContent(lines[..n], d);
      DocumentKeepsContent(lines[n..], d);
      FilterParts(Repaired(lines[..n], d), Document(lines[n..], d), lines[..n], lines[n..], Content(d));
    }
  }

  // ---- Idempotence of the whole repair ----

  predicate StartsPlain(lines: seq<string>, d: Dialect) { lines == [] || !d.row(lines[0]) }

  lemma {:induction false} RunOfRows(rows: seq<string>, tail: seq<string>, d: Dialect)
    requires TableRows(rows, d) && StartsPlain(tail, d)
    ensures TableRun(rows + tail, d) == |rows|
  {
    if rows == [] {
      assert rows + tail == tail;
    } else {
      RunOfRows(rows[1..], tail, d);
      assert (rows + tail)[1..] == rows[1..] + tail;
    }
  }

  lemma DocumentOfRows(rows: seq<string>, tail: seq<string>, d: Dialect)
    requires TableRows(rows, d) && StartsPlain(tail, d)
    ensures Document(rows + tail, d) == Repaired(rows, d) + Document(tail, d)
  {
    if rows == [] {
      assert rows + tail == tail;
    } else {
      RunOfRows(rows, tail, d);
      assert (rows + tail)[..|rows|] == rows && (rows + tail)[|rows|..] == tail;
    }
  }

  ghost predicate GoodRows(rows: seq<string>, d: Dialect) {
    forall k :: 0 <= k < |rows| ==> d.row(rows[k]) && Delimits(d, rows[k])
  }

  lemma WithDelimiterIsRows(rows: seq<string>, d: Dialect)
    requires GoodRows(rows, d)
    ensures GoodRows(WithDelimiter(rows, d), d)
  {
    if rows != [] {
      assert Delimits(d, rows[0]);
      assert Delimits(d, d.delimiter(rows[0]));
    }
  }

  lemma RepairedIsRows(block: seq<string>, d: Dialect)
    requires Lawful(d, block) && TableRows(block, d)
    ensures TableRows(Repaired(block, d), d) && Lawful(d, Repaired(block, d))
  {
    RowsOfBlock(block, d);
    WithDelimiterIsRows(WithoutPrefix(block, d), d);
  }

  /** Two documents that start with table rows and go on with plain lines agree part by part. */
  lemma PartsAgree(a: seq<string>, x: seq<string>, b: seq<string>, y: seq<string>, d: Dialect)
    requires TableRows(a, d) && TableRows(b, d) && StartsPlain(x, d) && StartsPlain(y, d)
    ensures a + x == b + y <==> a == b && x == y
  {
    if a + x == b + y {
      RunOfRows(a, x, d);
      RunOfRows(b, y, d);
      assert a == (a + x)[..|a|] && x == (a + x)[|a|..];
      assert b == (b + y)[..|b|] && y == (b + y)[|b|..];
    }
  }

  /** Repairing a document twice is the same as once, exactly when all its blocks are stable. */
  lemma {:induction false} DocumentIdempotentIff(lines: seq<string>, d: Dialect)
    requires Lawful(d, lines)
    ensures Document(Document(lines, d), d) == Document(lines, d) <==> AllStable(lines, d)
    decreases |lines|
  {
    if lines == [] {
    } else if !d.row(lines[0]) {
      var rest := Document(lines[1..], d);
      DocumentIdempotentIff(lines[1..], d);
      assert ([lines[0]] + rest)[1..] == rest;
      assert Document([lines[0]] + rest, d) == [lines[0]] + Document(rest, d);
      assert ([lines[0]] + Document(rest, d))[1..] == Document(rest, d);
    } else {
      var n := TableRun(lines, d);
      var rows, rest := Repaired(lines[..n], d), Document(lines[n..], d);
      RepairedIsRows(lines[..n], d);
      RepairedIsRows(rows, d);
      DocumentIdempotentIff(lines[n..], d);
      BlockIdempotentIff(lines[..n], d);
      DocumentOfRows(rows, rest, d);
      PartsAgree(Repaired(rows, d), Document(rest, d), rows, rest, d);
    }
  }

  // ---- From lines to text ----

  lemma DelimiterIsOneLine(row: string)
    ensures '\n' !in SeparatorFor(row)
  {
    var cells := Dashes(|Cells(row)|);
    JoinMember(cells, " | ", '\n');
    assert forall k :: 0 <= k < |cells| ==> cells[k] == "---";
  }

  lemma RepairedOneLiners(block: seq<string>, d: Dialect)
    requires FreeOf(block, '\n') && forall row :: '\n' !in d.delimiter(row)
    ensures FreeOf(Repaired(block, d), '\n')
  {
    assert FreeOf(WithoutPrefix(block, d), '\n');
  }

  lemma {:induction false} DocumentOneLiners(lines: seq<string>, d: Dialect)
    requires FreeOf(lines, '\n') && forall row :: '\n' !in d.delimiter(row)
    ensures FreeOf(Document(lines, d), '\n')
    decreases |lines|
  {
    if lines == [] {
    } else if !d.row(lines[0]) {
      DocumentOneLiners(lines[1..], d);
    } else {
      var n := TableRun(lines, d);
      RepairedOneLiners(lines[..n], d);
      DocumentOneLiners(lines[n..], d);
    }
  }

  lemma JoinSeparates(a: seq<string>, b: seq<string>)
    requires FreeOf(a, '\n') && FreeOf(b, '\n') && b != [] && (a == [] ==> b != [""])
    ensures Join(a, "\n") == Join(b, "\n") <==> a == b
  {
    assert "\n" == ['\n'];
    SplitJoin(b, '\n');
    SpanIs("", IsNot('\n'), 0);
    if a != [] {
      SplitJoin(a, '\n');
    }
  }

  lemma SplitDocument(lines: seq<string>, d: Dialect)
    requires FreeOf(lines, '\n') && !d.row("") && forall row :: '\n' !in d.delimiter(row)
    ensures var once := Join(Document(lines, d), "\n");
      Join(Document(Split(once, '\n'), d), "\n") == once <==> Document(Document(lines, d), d) == Document(lines, d)
  {
    var out := Document(lines, d);
    DocumentOneLiners(lines, d);
    assert "\n" == ['\n'];
    assert [""][1..] == [];
    assert Document([""], d) == [""];
    if out == [] {
      SpanIs("", IsNot('\n'), 0);
    } else {
      SplitJoin(out, '\n');
      DocumentOneLiners(out, d);
      JoinSeparates(Document(out, d), out);
    }
  }

  /** The same for the Markdown text itself. */
  lemma RepairIdempotentIff(content: string)
    ensures var once := Join(Document(Split(content, '\n'), Gfm()), "\n");
      Join(Document(Split(once, '\n'), Gfm()), "\n") == once <==> AllStable(Split(content, '\n'), Gfm())
  {
    var lines, d := Split(content, '\n'), Gfm();
    GfmLawful(lines);
    DocumentIdempotentIff(lines, d);
    forall k | 0 <= k < |lines| ensures '\n' !in lines[k] { PartsFreeOf(content, '\n', k); }
    forall row ensures '\n' !in d.delimiter(row) { DelimiterIsOneLine(row); }
    SplitDocument(lines, d);
  }
}
