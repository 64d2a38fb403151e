/** Spreadsheets as text: header labels that are made unique, and one chunk for each row with its place. */
module ExcelRows {
  import opened Seqs
  import opened Strings
  import opened Decimals

  // A header cell without a value is named after its column. A label that occurs again gets its
  // number of occurrence behind an underscore, which is not checked against the other labels.
  //
  // A row is the list of its cells that have a value, each with the label of its column; rows without
  // such a cell leave no trace. Offsets count characters of the whole text, over all sheets, and the
  // chunks are numbered across sheets.

  // ---- Header labels ----

  /** The letters of a column, counted from 1: A, …, Z, AA, AB, … */
  function ColumnLetter(n: nat): (s: string)
    requires n >= 1
    ensures s != ""
  {
    var last := [('A' as int + (n - 1) % 26) as char];
    if n <= 26 then last else ColumnLetter((n - 1) / 26) + last
  }

  /** The label of a header cell before it is made unique; "" stands for an empty cell. */
  function BaseLabel(values: seq<string>, i: nat): (s: string)
    requires i < |values|
    ensures s != ""
  {
    if values[i] == "" then ColumnLetter(i + 1) else values[i]
  }

  /** How often the label occurs among the first n cells. */
  function Count(values: seq<string>, name: string, n: nat): (c: nat)
    requires n <= |values|
    ensures c <= n
  {
    if n == 0 then 0 else Count(values, name, n - 1) + if BaseLabel(values, n - 1) == name then 1 else 0
  }

  function Suffixed(name: string, k: nat): string { name + "_" + Decimal(k) }

  function Label(values: seq<string>, i: nat): string
    requires i < |values|
  {
    var base := BaseLabel(values, i);
    var k := Count(values, base, i + 1);
    if k == 1 then base else Suffixed(base, k)
  }

  ghost predicate CountsOf(counts: map<string, nat>, values: seq<string>, n: nat)
    requires n <= |values|
  {
    forall l :: Count(values, l, n) == if l in counts then counts[l] else 0
  }

  lemma CountOneMore(counts: map<string, nat>, values: seq<string>, n: nat, name: string, count: nat)
    requires n < |values| && CountsOf(counts, values, n) && name == BaseLabel(values, n)
    requires count == (if name in counts then counts[name] else 0) + 1
    ensures CountsOf(counts[name := count], values, n + 1)
    ensures Label(values, n) == if count == 1 then name else Suffixed(name, count)
  {
    assert Count(values, name, n + 1) == count;
  }

  /** The labels of the first n cells. */
  function LabelsBelow(values: seq<string>, n: nat): (r: seq<string>)
    requires n <= |values|
    ensures |r| == n && forall i :: 0 <= i < n ==> r[i] == Label(values, i)
  {
    if n == 0 then [] else LabelsBelow(values, n - 1) + [Label(values, n - 1)]
  }

  method StableHeaderLabels(values: seq<string>) returns (labels: seq<string>)
    ensures labels == LabelsBelow(values, |values|)
  {
    labels := [];
    var counts: map<string, nat> := map[];
    for i := 0 to |values|
      invariant labels == LabelsBelow(values, i)
      invariant CountsOf(counts, values, i)
    {
      var name := values[i];
      if name == "" {
        name := ColumnLetter(i + 1);
      }
      var count := (if name in counts then counts[name] else 0) + 1;
      CountOneMore(counts, values, i, name, count);
      counts := counts[name := count];
      labels := labels + [if count == 1 then name else Suffixed(name, count)];
    }
  }

  lemma {:induction false} CountGrows(values: seq<string>, name: string, n: nat, m: nat)
    requires n <= m <= |values|
    ensures Count(values, name, n) <= Count(values, name, m)
    decreases m
  {
    if n < m {
      CountGrows(values, name, n, m - 1);
    }
  }

  /** Among cells with the same base label, the counts differ. */
  lemma CountsDiffer(values: seq<string>, i: nat, j: nat)
    requires i < j < |values| && BaseLabel(values, i) == BaseLabel(values, j)
    ensures 1 <= Count(values, BaseLabel(values, i), i + 1) < Count(values, BaseLabel(values, i), j + 1)
  {
    CountGrows(values, BaseLabel(values, i), i + 1, j);
  }

  /** The cell at which a label has been counted k times. */
  lemma {:induction false} KthCell(values: seq<string>, name: string, k: nat, n: nat) returns (i: nat)
    requires n <= |values| && 1 <= k <= Count(values, name, n)
    ensures i < n && BaseLabel(values, i) == name && Count(values, name, i + 1) == k
  {
    if Count(values, name, n - 1) < k {
      i := n - 1;
    } else {
      i := KthCell(values, name, k, n - 1);
    }
  }

  lemma SuffixedApart(a: string, j: nat, b: string, k: nat)
    requires Suffixed(a, j) == Suffixed(b, k)
    ensures a == b && j == k
  {
    ReadDecimal(j);
    ReadDecimal(k);
    var s := Suffixed(a, j);
    RStripIs(s, IsDigit, a + "_");
    RStripIs(s, IsDigit, b + "_");
    assert a == (a + "_")[..|a|] && b == (b + "_")[..|b|];
    SamePrefix(a + "_", Decimal(j), Decimal(k));
  }

  ghost predicate Distinct(values: seq<string>) {
    forall i, j :: 0 <= i < j < |values| ==> Label(values, i) != Label(values, j)
  }

  /** Base label m is what the k-th cell with base label l is renamed to. */
  ghost predicate Clashes(values: seq<string>, l: string, k: nat, m: string) {
    m == Suffixed(l, k) && 2 <= k <= Count(values, l, |values|) && Count(values, m, |values|) >= 1
  }

  lemma ClashMeansTwice(values: seq<string>, l: string, k: nat, m: string)
    requires Clashes(values, l, k, m)
    ensures !Distinct(values)
  {
    var i := KthCell(values, l, k, |values|);
    var j := KthCell(values, m, 1, |values|);
    assert Label(values, i) == m == Label(values, j);
    assert |m| > |l|;
    assert i != j;
    if i < j {
    } else {
      assert Label(values, j) == Label(values, i);
    }
  }

  lemma BasesDiffer(values: seq<string>, i: nat, j: nat)
    requires i < |values| && j < |values| && i != j && Label(values, i) == Label(values, j)
    requires Count(values, BaseLabel(values, i), i + 1) == 1
    ensures BaseLabel(values, j) != BaseLabel(values, i) && Count(values, BaseLabel(values, j), j + 1) >= 2
  {
    if BaseLabel(values, j) == BaseLabel(values, i) {
      CountsDiffer(values, if i < j then i else j, if i < j then j else i);
    }
  }

  lemma TwiceMeansClash(values: seq<string>, i: nat, j: nat) returns (l: string, k: nat, m: string)
    requires i < |values| && j < |values| && i != j && Label(values, i) == Label(values, j)
    requires Count(values, BaseLabel(values, i), i + 1) == 1
    ensures Clashes(values, l, k, m)
  {
    l, m := BaseLabel(values, j), BaseLabel(values, i);
    k := Count(values, l, j + 1);
    BasesDiffer(values, i, j);
    CountGrows(values, l, j + 1, |values|);
    CountGrows(values, m, i + 1, |values|);
  }

  lemma SameLabelClashes(values: seq<string>, i: nat, j: nat) returns (l: string, k: nat, m: string)
    requires i < j < |values| && Label(values, i) == Label(values, j)
    ensures Clashes(values, l, k, m)
  {
    var a, b := BaseLabel(values, i), BaseLabel(values, j);
    if Count(values, a, i + 1) == 1 {
      l, k, m := TwiceMeansClash(values, i, j);
    } else if Count(values, b, j + 1) == 1 {
      l, k, m := TwiceMeansClash(values, j, i);
    } else {
      SuffixedApart(a, Count(values, a, i + 1), b, Count(values, b, j + 1));
      CountsDiffer(values, i, j);
      assert false;
    }
  }

  /** The labels are pairwise distinct exactly when no base label equals another base label followed
      by `_k`, where k runs from 2 to the number of cells with that other label. */
  lemma DistinctIff(values: seq<string>)
    ensures Distinct(values) <==> forall l, k, m :: !Clashes(values, l, k, m)
  {
    forall l, k, m | Clashes(values, l, k, m) ensures !Distinct(values) {
      ClashMeansTwice(values, l, k, m);
    }
    if !Distinct(values) {
      var i, j :| 0 <= i < j < |values| && Label(values, i) == Label(values, j);
      var l, k, m := SameLabelClashes(values, i, j);
    }
  }

  /** A, A and A_2 become A, A_2 and A_2. */
  lemma ClashHappens()
    ensures Label(["A", "A", "A_2"], 1) == "A_2" == Label(["A", "A", "A_2"], 2)
  {
    var values := ["A", "A", "A_2"];
    assert Count(values, "A", 0) == 0 && Count(values, "A", 1) == 1 && Count(values, "A", 2) == 2;
    assert Count(values, "A_2", 0) == 0 && Count(values, "A_2", 1) == 0 && Count(values, "A_2", 2) == 0;
    assert Decimal(2) == "2";
  }

  /** The number that the letters of a column stand for, A being 1 and Z being 26. */
  function LettersValue(s: string): int {
    if s == [] then 0 else 26 * LettersValue(s[..|s| - 1]) + (s[|s| - 1] as int - 'A' as int + 1)
  }

  /** Column letters are A to Z, and every column has its own. */
  lemma {:induction false} ColumnLetterMeaning(n: nat)
    requires n >= 1
    ensures LettersValue(ColumnLetter(n)) == n
    ensures forall i :: 0 <= i < |ColumnLetter(n)| ==> 'A' <= ColumnLetter(n)[i] <= 'Z'
  {
    var s := ColumnLetter(n);
    if n <= 26 {
      assert s[..0] == [];
    } else {
      ColumnLetterMeaning((n - 1) / 26);
      assert s[..|s| - 1] == ColumnLetter((n - 1) / 26);
    }
  }

  function Below(p: nat -> bool, n: nat): set<nat> { set j: nat | j < n && p(j) }

  lemma OneMoreBelow(p: nat -> bool, n: nat)
    ensures |Below(p, n + 1)| == |Below(p, n)| + if p(n) then 1 else 0
  {
    if p(n) {
      assert Below(p, n + 1) == Below(p, n) + {n};
    } else {
      assert Below(p, n + 1) == Below(p, n);
    }
  }

  function Named(values: seq<string>, name: string): nat -> bool {
    (j: nat) => j < |values| && BaseLabel(values, j) == name
  }

  lemma {:induction false} CountNamed(values: seq<string>, name: string, n: nat)
    requires n <= |values|
    ensures Count(values, name, n) == |Below(Named(values, name), n)|
  {
    if n == 0 {
      assert Below(Named(values, name), 0) == {};
    } else {
      CountNamed(values, name, n - 1);
      OneMoreBelow(Named(values, name), n - 1);
    }
  }

  /** A cell is named by its value, or by its column when it has none; behind m cells of that name it
      gets `_m + 1`. */
  lemma LabelMeaning(values: seq<string>, i: nat, name: string, m: nat)
    requires i < |values| && m == |Below(Named(values, name), i)|
    requires values[i] != "" ==> name == values[i]
    requires values[i] == "" ==> name == ColumnLetter(i + 1)
    ensures Label(values, i) == if m == 0 then name else name + "_" + Decimal(m + 1)
  {
    CountNamed(values, name, i);
  }

  // ---- Rows and chunks ----

  /** The kept cells of a row: column label and printed value. */
  type Row = seq<(string, string)>

  datatype Chunk = Chunk(content: string, number: nat, start: nat, end: nat)

  function CellText(): ((string, string)) -> string { (cell: (string, string)) => cell.0 + ": " + cell.1 }

  function RowText(row: Row): string { Join(Map(row, CellText()), ",") + "\n" }

  /** A row in characters: label, colon, space and value of each cell, with commas between the cells. */
  lemma RowSpelled(column: string, value: string, more: Row)
    ensures RowText([(column, value)]) == column + ": " + value + "\n"
    ensures more != [] ==> RowText([(column, value)] + more) == column + ": " + value + "," + RowText(more)
  {
    var cell, text := (column, value), column + ": " + value;
    assert Map([cell], CellText()) == [text];
    if more != [] {
      assert Map([cell] + more, CellText()) == [text] + Map(more, CellText());
      JoinCons(text, Map(more, CellText()), ",");
    }
  }

  /** The texts of the rows that have a cell, sheet by sheet. */
  function RowTexts(rows: seq<Row>): seq<string> { FlatMap(rows, TextOfRow()) }

  function TextOfRow(): Row -> seq<string> { (row: Row) => if row == [] then [] else [RowText(row)] }

  /** Chunk i has number i, starts where the one in front of it ends, and is that part of the text. */
  predicate Fits(chunks: seq<Chunk>, text: string, i: nat)
    requires i < |chunks|
  {
    var c := chunks[i];
    && c.number == i && c.start == EndOf(chunks, i)
    && c.start < c.end <= |text| && text[c.start..c.end] == c.content
  }

  /** Where the first n chunks end. */
  function EndOf(chunks: seq<Chunk>, n: nat): nat
    requires n <= |chunks|
  {
    if n == 0 then 0 else chunks[n - 1].end
  }

  /** The chunks lie in the text one after the other, without gap or overlap, numbered from 0. */
  ghost predicate Tiles(chunks: seq<Chunk>, text: string) {
    (forall i :: 0 <= i < |chunks| ==> Fits(chunks, text, i)) && |text| == EndOf(chunks, |chunks|)
  }

  lemma TilesAppend(chunks: seq<Chunk>, text: string, content: string)
    requires Tiles(chunks, text) && content != ""
    ensures Tiles(chunks + [Chunk(content, |chunks|, |text|, |text| + |content|)], text + content)
  {
    var longer, all := chunks + [Chunk(content, |chunks|, |text|, |text| + |content|)], text + content;
    forall i | 0 <= i < |longer| ensures Fits(longer, all, i) {
      if i < |chunks| {
        var c := chunks[i];
        assert Fits(chunks, text, i);
        assert longer[i] == c && EndOf(longer, i) == EndOf(chunks, i);
        assert all[c.start..c.end] == text[c.start..c.end];
      } else {
        assert all[|text|..|text| + |content|] == content;
      }
    }
  }

  lemma {:induction false} JoinAppends(parts: seq<string>, last: string)
    ensures Join(parts + [last], "") == Join(parts, "") + last
  {
    if parts != [] {
      JoinSnoc(parts, last, "");
    }
  }

  function ContentOf(c: Chunk): string { c.content }

  lemma AppendRow(rows: seq<Row>, row: Row)
    ensures RowTexts(rows + [row]) == if row == [] then RowTexts(rows) else RowTexts(rows) + [RowText(row)]
  {
    FlatMapAppend(rows, [row], TextOfRow());
  }

  /** What the loop over rows keeps: the texts so far are those of the rows so far, and the chunks
      tile them. */
  ghost predicate Parsed(rows: seq<Row>, text: seq<string>, chunks: seq<Chunk>, end: nat) {
    && text == RowTexts(rows) && Map(chunks, ContentOf) == text
    && Tiles(chunks, Join(text, "")) && end == |Join(text, "")|
  }

  lemma ParseRow(rows: seq<Row>, row: Row, text: seq<string>, chunks: seq<Chunk>, end: nat)
    requires Parsed(rows, text, chunks, end)
    ensures row == [] ==> Parsed(rows + [row], text, chunks, end)
    ensures row != [] ==>
      var content := RowText(row);
      Parsed(rows + [row], text + [content], chunks + [Chunk(content, |chunks|, end, end + |content|)], end + |content|)
  {
    AppendRow(rows, row);
    if row != [] {
      var content := RowText(row);
      TilesAppend(chunks, Join(text, ""), content);
      JoinAppends(text, content);
      var chunk := Chunk(content, |chunks|, end, end + |content|);
      assert Map(chunks + [chunk], ContentOf) == Map(chunks, ContentOf) + [content];
    }
  }

  /** One row: a chunk behind the others, unless the row has no cell with content. */
  method AddRow(row: Row, text: seq<string>, chunks: seq<Chunk>, end: nat, ghost before: seq<Row>)
      returns (text': seq<string>, chunks': seq<Chunk>, end': nat)
    requires Parsed(before, text, chunks, end)
    ensures Parsed(before + [row], text', chunks', end')
  {
    ParseRow(before, row, text, chunks, end);
    text', chunks', end' := text, chunks, end;
    if row != [] {
      var contentRow := RowText(row);
      end' := end + |contentRow|;
      text' := text + [contentRow];
      chunks' := chunks + [Chunk(contentRow, |chunks|, end, end')];
    }
  }

  /** The rows of one sheet. */
  method ParseSheet(rows: seq<Row>, text: seq<string>, chunks: seq<Chunk>, end: nat, ghost before: seq<Row>)
      returns (text': seq<string>, chunks': seq<Chunk>, end': nat)
    requires Parsed(before, text, chunks, end)
    ensures Parsed(before + rows, text', chunks', end')
  {
    text', chunks', end' := text, chunks, end;
    assert before + rows[..0] == before;
    for j := 0 to |rows|
      invariant Parsed(before + rows[..j], text', chunks', end')
    {
      assert before + rows[..j + 1] == before + rows[..j] + [rows[j]];
      text', chunks', end' := AddRow(rows[j], text', chunks', end', before + rows[..j]);
    }
    assert rows[..|rows|] == rows;
  }

  lemma NextSheet(sheets: seq<seq<Row>>, i: nat)
    requires i < |sheets|
    ensures Flatten(sheets[..i + 1]) == Flatten(sheets[..i]) + sheets[i]
  {
    FlattenAppend(sheets[..i], [sheets[i]]);
    assert sheets[..i + 1] == sheets[..i] + [sheets[i]];
    assert Flatten([sheets[i]]) == sheets[i];
  }

  /** One chunk for each row with content; the chunks tile the text of the document. */
  method ParseSheets(sheets: seq<seq<Row>>) returns (content: string, chunks: seq<Chunk>)
    ensures Tiles(chunks, content)
    ensures Map(chunks, ContentOf) == RowTexts(Flatten(sheets))
    ensures content == Join(RowTexts(Flatten(sheets)), "")
  {
    chunks := [];
    var text: seq<string>, end: nat := [], 0;
    for i := 0 to |sheets|
      invariant Parsed(Flatten(sheets[..i]), text, chunks, end)
    {
      NextSheet(sheets, i);
      text, chunks, end := ParseSheet(sheets[i], text, chunks, end, Flatten(sheets[..i]));
    }
    assert sheets[..|sheets|] == sheets;
    content := Join(text, "");
  }
}
