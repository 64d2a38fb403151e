/** The expansion of one table as the code runs it: nested loops that rewrite cell elements in place. */
module DocxMergeInPlace {
  import opened Options
  import opened DocxMerge

  // A dictionary of running merges is carried from row to row. Each method is proved against the
  // functions of `DocxMerge`.

  /** A `w:tc` element: its marker and its children change in place, its span does not. */
  class CellElement {
    const span: nat
    var merge: Merge
    var kids: seq<Xml>

    constructor (span: nat, merge: Merge, kids: seq<Xml>)
      ensures this.span == span && this.merge == merge && this.kids == kids
    {
      this.span, this.merge, this.kids := span, merge, kids;
    }

    function Value(): Xml
      reads this
    {
      Elem(Tc(span, merge), kids)
    }
  }

  type OtherRowChild = x: Xml | !IsCell(x) witness Text("")
  type OtherTableChild = x: Xml | !IsRow(x) witness Text("")

  datatype RowChild = CellChild(cell: CellElement) | RowOther(x: OtherRowChild)

  datatype TableChild = RowElement(gridBefore: nat, kids: seq<RowChild>) | TableOther(y: OtherTableChild)

  function CellsOf(row: seq<RowChild>): set<CellElement> {
    set c | c in row && c.CellChild? :: c.cell
  }

  function CellsOfChild(child: TableChild): set<CellElement> {
    match child
    case RowElement(_, kids) => CellsOf(kids)
    case TableOther(_) => {}
  }

  function AllCells(table: seq<TableChild>): set<CellElement> {
    set i, c | 0 <= i < |table| && c in CellsOfChild(table[i]) :: c
  }

  /** No element of a tree is its own sibling. */
  ghost predicate DistinctRow(row: seq<RowChild>) {
    forall c, d :: 0 <= c < d < |row| && row[c].CellChild? && row[d].CellChild? ==> row[c].cell != row[d].cell
  }

  ghost predicate Distinct(table: seq<TableChild>) {
    && (forall i :: 0 <= i < |table| && table[i].RowElement? ==> DistinctRow(table[i].kids))
    && (forall i, j :: 0 <= i < j < |table| ==> CellsOfChild(table[i]) !! CellsOfChild(table[j]))
  }

  function RowXml(row: seq<RowChild>): (r: seq<Xml>)
    reads CellsOf(row)
  {
    if row == [] then [] else
    var n := |row| - 1;
    assert CellsOf(row[..n]) <= CellsOf(row);
    RowXml(row[..n]) + [if row[n].CellChild? then row[n].cell.Value() else row[n].x]
  }

  function ChildXml(child: TableChild): Xml
    reads CellsOfChild(child)
  {
    match child
    case RowElement(gridBefore, kids) => Elem(Tr(gridBefore), RowXml(kids))
    case TableOther(y) => y
  }

  function TableXml(table: seq<TableChild>): (r: seq<Xml>)
    reads AllCells(table)
  {
    if table == [] then [] else
    var n := |table| - 1;
    assert CellsOfChild(table[n]) <= AllCells(table);
    TableXml(table[..n]) + [ChildXml(table[n])]
  }

  method LeftmostTemplate(active: map<nat, Content>, lo: nat, hi: nat) returns (template: Option<Content>)
    requires lo <= hi
    ensures template == LeftmostActive(active, lo, hi)
  {
    var k := lo;
    while k < hi && k !in active
      invariant lo <= k <= hi
      invariant LeftmostActive(active, k, hi) == LeftmostActive(active, lo, hi)
    {
      k := k + 1;
    }
    template := if k < hi then Some(active[k]) else None;
  }

  function RowChildXml(child: RowChild): Xml
    reads if child.CellChild? then {child.cell} else {}
  {
    match child
    case CellChild(cell) => cell.Value()
    case RowOther(x) => x
  }

  lemma {:induction false} RowXmlAt(row: seq<RowChild>)
    ensures |RowXml(row)| == |row|
    ensures forall c :: 0 <= c < |row| ==> RowXml(row)[c] == RowChildXml(row[c])
  {
    if row != [] {
      RowXmlAt(row[..|row| - 1]);
    }
  }

  /** The body of the inner loop, on a cell element. The ghost argument is what the loop has put
      out so far; the rest of the loop's state comes in and goes out as values. */
  method FillCell(active: map<nat, Content>, cell: CellElement, ghost done: seq<Xml>,
                  column: nat, next: map<nat, Content>, filled: nat, changed: bool)
    returns (column': nat, next': map<nat, Content>, filled': nat, changed': bool)
    modifies cell
    ensures CellStep(active, RowState(done, column, next, filled, changed), old(cell.Value()))
            == RowState(done + [cell.Value()], column', next', filled', changed')
  {
    column', next', filled', changed' := column + cell.span, next, filled, changed;
    match cell.merge {
      case NoMerge =>
      case Restart =>
        next' := Spread(next, column, cell.span, cell.kids);
        cell.merge := NoMerge;
        changed' := true;
      case Continue =>
        var template := LeftmostTemplate(active, column, column');
        if template.Some? {
          cell.kids := template.value;
          next' := Spread(next, column, cell.span, template.value);
          cell.merge := NoMerge;
          changed', filled' := true, filled + 1;
        }
    }
  }

  lemma RowXmlPrefix(row: seq<RowChild>, i: nat)
    requires i < |row|
    ensures RowXml(row[..i + 1]) == RowXml(row[..i]) + [RowChildXml(row[i])]
  {
    assert row[..i + 1][..i] == row[..i];
  }

  lemma RowFoldPrefix(active: map<nat, Content>, kids: seq<Xml>, gridBefore: nat, i: nat)
    requires i < |kids|
    ensures RowFold(active, kids[..i + 1], gridBefore)
            == CellStep(active, RowFold(active, kids[..i], gridBefore), kids[i])
  {
    assert kids[..i + 1][..i] == kids[..i];
  }

  lemma OtherStep(active: map<nat, Content>, st: RowState, x: Xml)
    requires !IsCell(x)
    ensures CellStep(active, st, x) == st.(kids := st.kids + [x])
  {
  }

  /** The first i children of the row are rewritten as specified, and the others are as before. */
  ghost predicate RowDone(active: map<nat, Content>, row: seq<RowChild>, before: seq<Xml>, gridBefore: nat, i: nat,
      column: nat, next: map<nat, Content>, filled: nat, changed: bool)
    reads CellsOf(row)
  {
    && i <= |row| == |before| && CellsOf(row[..i]) <= CellsOf(row)
    && RowFold(active, before[..i], gridBefore) == RowState(RowXml(row[..i]), column, next, filled, changed)
    && forall d :: i <= d < |row| ==> before[d] == RowChildXml(row[d])
  }

  /** The body of the inner loop on the i-th child of a row. */
  method FillRowChild(active: map<nat, Content>, row: seq<RowChild>, gridBefore: nat, i: nat, ghost before: seq<Xml>,
                      column: nat, next: map<nat, Content>, filled: nat, changed: bool)
    returns (column': nat, next': map<nat, Content>, filled': nat, changed': bool)
    requires DistinctRow(row) && i < |row|
    requires RowDone(active, row, before, gridBefore, i, column, next, filled, changed)
    modifies if row[i].CellChild? then {row[i].cell} else {}
    ensures RowDone(active, row, before, gridBefore, i + 1, column', next', filled', changed')
  {
    RowFoldPrefix(active, before, gridBefore, i);
    ghost var done := RowXml(row[..i]);
    column', next', filled', changed' := column, next, filled, changed;
    if row[i].CellChild? {
      var cell := row[i].cell;
      assert cell !in CellsOf(row[..i]);
      column', next', filled', changed' := FillCell(active, cell, done, column, next, filled, changed);
      assert RowXml(row[..i]) == done;
    } else {
      OtherStep(active, RowState(done, column, next, filled, changed), before[i]);
    }
    RowXmlPrefix(row, i);
  }

  lemma RowStart(active: map<nat, Content>, row: seq<RowChild>, gridBefore: nat)
    ensures RowDone(active, row, RowXml(row), gridBefore, 0, gridBefore, map[], 0, false)
  {
    RowXmlAt(row);
    assert RowXml(row)[..0] == [] && row[..0] == [];
  }

  /** The inner loop over the cells of one row. */
  method FillRow(active: map<nat, Content>, row: seq<RowChild>, gridBefore: nat)
    returns (next: map<nat, Content>, filled: nat, changed: bool)
    requires DistinctRow(row)
    modifies CellsOf(row)
    ensures var st := RowFold(active, old(RowXml(row)), gridBefore);
            RowXml(row) == st.kids && next == st.next && filled == st.filled && changed == st.changed
  {
    var column := gridBefore;
    next, filled, changed := map[], 0, false;
    ghost var before := RowXml(row);
    RowStart(active, row, gridBefore);
    for i := 0 to |row|
      invariant RowDone(active, row, before, gridBefore, i, column, next, filled, changed)
    {
      column, next, filled, changed :=
        FillRowChild(active, row, gridBefore, i, before, column, next, filled, changed);
    }
    assert before[..|row|] == before && row[..|row|] == row;
  }

  lemma {:induction false} TableXmlAt(table: seq<TableChild>)
    ensures |TableXml(table)| == |table|
    ensures forall i :: 0 <= i < |table| ==> TableXml(table)[i] == ChildXml(table[i])
  {
    if table != [] {
      TableXmlAt(table[..|table| - 1]);
    }
  }

  lemma TableXmlPrefix(table: seq<TableChild>, i: nat)
    requires i < |table|
    ensures TableXml(table[..i + 1]) == TableXml(table[..i]) + [ChildXml(table[i])]
  {
    assert table[..i + 1][..i] == table[..i];
  }

  lemma TableFoldPrefix(kids: seq<Xml>, i: nat)
    requires i < |kids|
    ensures TableFold(kids[..i + 1]) == RowStep(TableFold(kids[..i]), kids[i])
  {
    assert kids[..i + 1][..i] == kids[..i];
  }

  /** The body of the outer loop: one child of the table. */
  method FillTableChild(active: map<nat, Content>, child: TableChild, ghost done: seq<Xml>,
                        filled: nat, changed: bool)
    returns (active': map<nat, Content>, filled': nat, changed': bool)
    requires child.RowElement? ==> DistinctRow(child.kids)
    modifies CellsOfChild(child)
    ensures RowStep(TableState(done, active, filled, changed), old(ChildXml(child)))
            == TableState(done + [ChildXml(child)], active', filled', changed')
  {
    active', filled', changed' := active, filled, changed;
    if child.RowElement? {
      var next, rowFilled, rowChanged := FillRow(active, child.kids, child.gridBefore);
      active', filled', changed' := next, filled + rowFilled, changed || rowChanged;
    }
  }

  /** The expansion of one table. Its cells end up as the expansion function says, which gives
      every cell with a master that master's content and leaves the rest alone. */
  method FillTable(table: seq<TableChild>) returns (changed: bool, filled: nat)
    requires Distinct(table)
    modifies AllCells(table)
    ensures TableXml(table) == TableFold(old(TableXml(table))).kids
    ensures changed == TableFold(old(TableXml(table))).changed
    ensures filled == TableFold(old(TableXml(table))).filled
  {
    var active: map<nat, Content> := map[];
    changed, filled := false, 0;
    ghost var before := TableXml(table);
    TableXmlAt(table);
    for i := 0 to |table|
      invariant |before| == |table|
      invariant TableFold(before[..i]) == TableState(TableXml(table[..i]), active, filled, changed)
      invariant forall j :: i <= j < |table| ==> before[j] == ChildXml(table[j])
    {
      TableFoldPrefix(before, i);
      ghost var done := TableXml(table[..i]);
      assert CellsOfChild(table[i]) !! AllCells(table[..i]);
      active, filled, changed := FillTableChild(active, table[i], done, filled, changed);
      assert TableXml(table[..i]) == done;
      TableXmlPrefix(table, i);
    }
    assert before[..|table|] == before && table[..|table|] == table;
  }
}
