/** From the attributes of Word's table elements to the rows and cells that the expansion works on. */
module DocxAttributes {
  import opened Options
  import opened Seqs
  import opened DocxMerge

  /** What `int(value or "")` makes of an attribute: a number, or an error. */
  datatype Attribute = Unreadable | Number(value: int)

  /** The properties of a cell, each None if its element is missing; the merge marker may lack its value. */
  datatype CellProperties = CellProperties(gridSpan: Option<Attribute>, vMerge: Option<Option<string>>)

  datatype RawCell = RawCell(properties: Option<CellProperties>, kids: seq<Xml>)

  /** The properties of a row: None without `trPr`, and then None without `gridBefore`. */
  datatype RawRow = RawRow(properties: Option<Option<Attribute>>, cells: seq<RawCell>)

  function PositiveInt(a: Attribute, default: nat): nat {
    match a
    case Unreadable => default
    case Number(value) => if value >= 0 then value else default
  }

  function GridSpan(properties: Option<CellProperties>): nat {
    match properties
    case None => 1
    case Some(p) => if p.gridSpan.None? then 1 else PositiveInt(p.gridSpan.value, 1)
  }

  function GridBefore(properties: Option<Option<Attribute>>): nat {
    match properties
    case None => 0
    case Some(gridBefore) => if gridBefore.None? then 0 else PositiveInt(gridBefore.value, 0)
  }

  /** A marker without a value continues a merge, and so does one with any value but `restart`. */
  function MarkerOf(properties: Option<CellProperties>): Merge {
    if properties.None? || properties.value.vMerge.None? then NoMerge
    else if properties.value.vMerge.value == Some("restart") then Restart
    else Continue
  }

  function ReadCell(cell: RawCell): Xml { Elem(Tc(GridSpan(cell.properties), MarkerOf(cell.properties)), cell.kids) }

  function ReadRow(row: RawRow): Xml { Elem(Tr(GridBefore(row.properties)), Map(row.cells, ReadCell)) }

  // ---- The columns that result ----

  /** A number that the code does not refuse. */
  predicate Usable(a: Attribute) { a.Number? && a.value >= 0 }

  /** The cell without its span attribute if that is unreadable or negative. */
  function CleanedCell(cell: RawCell): RawCell {
    match cell.properties
    case None => cell
    case Some(p) =>
      if p.gridSpan.Some? && !Usable(p.gridSpan.value) then cell.(properties := Some(p.(gridSpan := None))) else cell
  }

  function Cleaned(row: RawRow): RawRow {
    var properties :=
      if row.properties.Some? && row.properties.value.Some? && !Usable(row.properties.value.value) then Some(None)
      else row.properties;
    RawRow(properties, Map(row.cells, CleanedCell))
  }

  /** An attribute that is not a number, or a negative one, counts as if it were not there. */
  lemma BadAttributesIgnored(row: RawRow)
    ensures ReadRow(Cleaned(row)) == ReadRow(row)
  {
    forall c | 0 <= c < |row.cells| ensures ReadCell(CleanedCell(row.cells[c])) == ReadCell(row.cells[c]) {
    }
    assert Map(Cleaned(row).cells, ReadCell) == Map(row.cells, ReadCell);
  }

  /** What an attribute says: its number if it has a usable one, the default otherwise. */
  ghost predicate Says(a: Option<Attribute>, default: nat, n: nat) {
    && (a.Some? && a.value.Number? && a.value.value >= 0 ==> n == a.value.value)
    && (a == None || a == Some(Unreadable) || (a.Some? && a.value.Number? && a.value.value < 0) ==> n == default)
  }

  function SpanAttribute(cell: RawCell): Option<Attribute> {
    if cell.properties.Some? then cell.properties.value.gridSpan else None
  }

  function BeforeAttribute(row: RawRow): Option<Attribute> {
    if row.properties.Some? then row.properties.value else None
  }

  function Sum(ns: seq<nat>): nat { if ns == [] then 0 else Sum(ns[..|ns| - 1]) + ns[|ns| - 1] }

  /** The numbers are what the row says of the spans of its cells. */
  ghost predicate SpansOf(row: RawRow, spans: seq<nat>) {
    |spans| == |row.cells| && forall c :: 0 <= c < |spans| ==> Says(SpanAttribute(row.cells[c]), 1, spans[c])
  }

  lemma {:induction false} ColumnIsSum(row: RawRow, before: nat, spans: seq<nat>, c: nat)
    requires Says(BeforeAttribute(row), 0, before) && SpansOf(row, spans) && c <= |spans|
    ensures Column(ReadRow(row).kids[..c], ReadRow(row).tag.gridBefore) == before + Sum(spans[..c])
  {
    if c > 0 {
      var kids := ReadRow(row).kids;
      ColumnIsSum(row, before, spans, c - 1);
      assert kids[..c][..c - 1] == kids[..c - 1] && spans[..c][..c - 1] == spans[..c - 1];
      assert Says(SpanAttribute(row.cells[c - 1]), 1, spans[c - 1]);
    }
  }

  /** Whatever the attributes are: a cell occupies the columns that the offset of the row and the spans up
      to it give, where a missing or refused span counts as 1 and a missing or refused offset as 0. */
  lemma RowColumns(row: RawRow, before: nat, spans: seq<nat>, c: nat, k: nat)
    requires Says(BeforeAttribute(row), 0, before) && SpansOf(row, spans) && c < |spans|
    ensures Occupies(ReadRow(row).kids, ReadRow(row).tag.gridBefore, c, k)
            <==> before + Sum(spans[..c]) <= k < before + Sum(spans[..c + 1])
  {
    ColumnIsSum(row, before, spans, c);
    ColumnIsSum(row, before, spans, c + 1);
    assert ReadRow(row).kids[..c + 1][..c] == ReadRow(row).kids[..c];
  }

  /** The marker `restart` starts a merge, any other one continues it, one without a value included, and the
      content of a cell stays. */
  lemma CellMeaning(cell: RawCell)
    ensures ReadCell(cell).Elem? && IsCell(ReadCell(cell)) && ReadCell(cell).kids == cell.kids
    ensures var merge, p := ReadCell(cell).tag.merge, cell.properties;
      && (merge == Restart <==> p.Some? && p.value.vMerge == Some(Some("restart")))
      && (merge == NoMerge <==> p == None || p.value.vMerge == None)
  {
  }

  /** Nothing in the row says where its cells stand or how wide they are. */
  ghost predicate Plain(row: RawRow) {
    && (row.properties.None? || row.properties.value.None?)
    && forall c :: 0 <= c < |row.cells| ==>
         row.cells[c].properties.None? || row.cells[c].properties.value.gridSpan.None?
  }

  lemma {:induction false} PlainColumn(row: RawRow, c: nat)
    requires Plain(row) && c <= |row.cells|
    ensures Column(ReadRow(row).kids[..c], ReadRow(row).tag.gridBefore) == c
  {
    if c > 0 {
      var kids := ReadRow(row).kids;
      PlainColumn(row, c - 1);
      assert kids[..c][..c - 1] == kids[..c - 1];
    }
  }

  /** In a row without such attributes, the cells stand in the columns 0, 1, 2, and so on. */
  lemma PlainColumns(row: RawRow, c: nat, k: nat)
    requires Plain(row) && c < |row.cells|
    ensures Occupies(ReadRow(row).kids, ReadRow(row).tag.gridBefore, c, k) <==> k == c
  {
    PlainColumn(row, c);
  }

  /** A span of zero is not refused: such a cell occupies no column, and as a continuation it is never
      filled. */
  lemma ZeroSpan(table: seq<Xml>, i: nat, c: nat, k: nat)
    requires CellPlace(table, Place(i, c)) && table[i].kids[c].tag.span == 0
    ensures !Covers(table, Place(i, c), k)
    ensures var out := TableFold(table).kids;
      && |out| == |table| && IsRow(out[i]) && |out[i].kids| == |table[i].kids|
      && (MarkedAs(table, Place(i, c), Continue) ==> out[i].kids[c] == table[i].kids[c])
  {
    FillFollowsMasters(table, i);
    if MarkedAs(table, Place(i, c), Continue) {
      assert MasterOf(table, i, c).None?;
      assert TableFold(table).kids[i].kids[c] == Expanded(table, i, c);
    }
  }
}
