/** Vertical-merge expansion of Word tables, over the XML tree that lxml hands to the code. */
module DocxMerge {
  import opened Options

  // `Tc` stands for a `w:tc` element together with the two properties the expansion reads (its grid
  // span and its `vMerge` marker); its `kids` are the children other than `w:tcPr`. `Tr` stands for
  // a `w:tr` with its `gridBefore`. Every other element, including one wrapped around rows or cells,
  // is `Other` and is only walked through.

  datatype Merge = NoMerge | Restart | Continue

  datatype Tag = Tbl | Tr(gridBefore: nat) | Tc(span: nat, merge: Merge) | Other(name: string)

  datatype Xml = Text(text: string) | Elem(tag: Tag, kids: seq<Xml>)

  predicate IsRow(x: Xml) { x.Elem? && x.tag.Tr? }

  predicate IsCell(x: Xml) { x.Elem? && x.tag.Tc? }

  // ---- The expansion, row by row and cell by cell ----

  type Content = seq<Xml>

  datatype RowState =
    RowState(kids: seq<Xml>, column: nat, next: map<nat, Content>, filled: nat, changed: bool)

  datatype TableState =
    TableState(kids: seq<Xml>, active: map<nat, Content>, filled: nat, changed: bool)

  function LeftmostActive(active: map<nat, Content>, lo: nat, hi: nat): (r: Option<Content>)
    decreases hi - lo
  {
    if lo >= hi then None
    else if lo in active then Some(active[lo])
    else LeftmostActive(active, lo + 1, hi)
  }

  function Spread(next: map<nat, Content>, column: nat, span: nat, template: Content): (r: map<nat, Content>)
    ensures forall k: nat :: k in r <==> k in next || column <= k < column + span
    ensures forall k: nat :: k in r ==> r[k] == if column <= k < column + span then template else next[k]
    decreases span
  {
    if span == 0 then next else Spread(next[column := template], column + 1, span - 1, template)
  }

  function Unmarked(x: Xml, content: Content): Xml
    requires IsCell(x)
  {
    Elem(Tc(x.tag.span, NoMerge), content)
  }

  function CellStep(active: map<nat, Content>, st: RowState, x: Xml): RowState {
    if !IsCell(x) then st.(kids := st.kids + [x]) else
    var end := st.column + x.tag.span;
    match x.tag.merge
    case NoMerge => st.(kids := st.kids + [x], column := end)
    case Restart =>
      RowState(st.kids + [Unmarked(x, x.kids)], end,
               Spread(st.next, st.column, x.tag.span, x.kids), st.filled, true)
    case Continue =>
      match LeftmostActive(active, st.column, end)
      case None => st.(kids := st.kids + [x], column := end)
      case Some(template) =>
        RowState(st.kids + [Unmarked(x, template)], end,
                 Spread(st.next, st.column, x.tag.span, template), st.filled + 1, true)
  }

  function RowFold(active: map<nat, Content>, kids: seq<Xml>, gridBefore: nat): RowState {
    if kids == [] then RowState([], gridBefore, map[], 0, false)
    else CellStep(active, RowFold(active, kids[..|kids| - 1], gridBefore), kids[|kids| - 1])
  }

  function RowStep(st: TableState, x: Xml): TableState {
    if !IsRow(x) then st.(kids := st.kids + [x]) else
    var r := RowFold(st.active, x.kids, x.tag.gridBefore);
    TableState(st.kids + [Elem(x.tag, r.kids)], r.next, st.filled + r.filled, st.changed || r.changed)
  }

  function TableFold(kids: seq<Xml>): TableState {
    if kids == [] then TableState([], map[], 0, false)
    else RowStep(TableFold(kids[..|kids| - 1]), kids[|kids| - 1])
  }

  // ---- Who is the master of a cell ----

  /** The grid column at which the child after `kids` starts. */
  function Column(kids: seq<Xml>, gridBefore: nat): nat {
    if kids == [] then gridBefore
    else
      var last := kids[|kids| - 1];
      Column(kids[..|kids| - 1], gridBefore) + if IsCell(last) then last.tag.span else 0
  }

  predicate Occupies(kids: seq<Xml>, gridBefore: nat, c: nat, k: nat)
    requires c < |kids|
  {
    IsCell(kids[c]) &&
    Column(kids[..c], gridBefore) <= k < Column(kids[..c], gridBefore) + kids[c].tag.span
  }

  /** The cell that stands in grid column k. */
  function CellAt(kids: seq<Xml>, gridBefore: nat, k: nat): (r: Option<nat>)
    ensures r.Some? ==> r.value < |kids| && Occupies(kids, gridBefore, r.value, k)
    ensures r.None? ==> forall c: nat :: c < |kids| ==> !Occupies(kids, gridBefore, c, k)
  {
    if kids == [] then None
    else if Occupies(kids, gridBefore, |kids| - 1, k) then Some(|kids| - 1)
    else
      var front := kids[..|kids| - 1];
      assert forall c: nat :: c < |front| ==>
          front[..c] == kids[..c] && Occupies(front, gridBefore, c, k) == Occupies(kids, gridBefore, c, k);
      CellAt(front, gridBefore, k)
  }

  /** At most one cell of a row stands in a column. */
  lemma {:induction false} OneCellPerColumn(kids: seq<Xml>, gridBefore: nat, c: nat, d: nat, k: nat)
    requires c < |kids| && d < |kids|
    requires Occupies(kids, gridBefore, c, k) && Occupies(kids, gridBefore, d, k)
    ensures c == d
  {
    if c < d {
      assert kids[..c + 1][..c] == kids[..c];
      ColumnGrows(kids, gridBefore, c + 1, d);
    } else if d < c {
      assert kids[..d + 1][..d] == kids[..d];
      ColumnGrows(kids, gridBefore, d + 1, c);
    }
  }

  lemma {:induction false} ColumnGrows(kids: seq<Xml>, gridBefore: nat, m: nat, n: nat)
    requires m <= n <= |kids|
    ensures Column(kids[..m], gridBefore) <= Column(kids[..n], gridBefore)
    decreases n
  {
    if m < n {
      ColumnGrows(kids, gridBefore, m, n - 1);
      assert kids[..n][..n - 1] == kids[..n - 1];
    }
  }

  /** The position (row child of the table, cell child of the row) of a master cell. */
  datatype Place = Place(row: nat, cell: nat)

  /** The master whose merge is still running in grid column k below the first n table children:
      looking upward, the nearest row decides. */
  function MasterAt(table: seq<Xml>, n: nat, k: nat): Option<Place>
    requires n <= |table|
    decreases n, 0, 0
  {
    if n == 0 then None
    else if !IsRow(table[n - 1]) then MasterAt(table, n - 1, k)
    else
      var row := table[n - 1];
      match CellAt(row.kids, row.tag.gridBefore, k)
      case None => None
      case Some(c) => MasterOf(table, n - 1, c)
  }

  /** A starting cell is its own master, a continuation has the master of the leftmost of its
      columns in which a merge is running above it, and any other cell has none. */
  function MasterOf(table: seq<Xml>, i: nat, c: nat): Option<Place>
    requires i < |table| && IsRow(table[i]) && c < |table[i].kids| && IsCell(table[i].kids[c])
    decreases i, 2, 0
  {
    var row := table[i];
    match row.kids[c].tag.merge
    case NoMerge => None
    case Restart => Some(Place(i, c))
    case Continue =>
      var column := Column(row.kids[..c], row.tag.gridBefore);
      FirstMaster(table, i, column, column + row.kids[c].tag.span)
  }

  function FirstMaster(table: seq<Xml>, i: nat, lo: nat, hi: nat): Option<Place>
    requires i <= |table|
    decreases i, 1, hi - lo
  {
    if lo >= hi then None
    else if MasterAt(table, i, lo).Some? then MasterAt(table, i, lo)
    else FirstMaster(table, i, lo + 1, hi)
  }

  /** The leftmost column in which a merge is running decides, and only an empty choice gives None. */
  lemma {:induction false} FirstMasterIsLeftmost(table: seq<Xml>, i: nat, lo: nat, hi: nat) returns (k: nat)
    requires i <= |table| && lo <= hi
    ensures lo <= k <= hi
    ensures forall j: nat :: lo <= j < k ==> MasterAt(table, i, j).None?
    ensures if k < hi then MasterAt(table, i, k).Some? && FirstMaster(table, i, lo, hi) == MasterAt(table, i, k)
            else FirstMaster(table, i, lo, hi).None?
    decreases hi - lo
  {
    k := lo;
    if lo < hi && MasterAt(table, i, lo).None? {
      k := FirstMasterIsLeftmost(table, i, lo + 1, hi);
    }
  }

  predicate IsMasterPlace(table: seq<Xml>, m: Place, bound: nat) {
    m.row < |table| && m.row < bound && IsRow(table[m.row]) &&
    m.cell < |table[m.row].kids| && IsCell(table[m.row].kids[m.cell]) &&
    table[m.row].kids[m.cell].tag.merge == Restart
  }

  function ContentAt(table: seq<Xml>, m: Place): Content
    requires IsMasterPlace(table, m, |table|)
  {
    table[m.row].kids[m.cell].kids
  }

  /** A master is a starting cell at or above the cell it serves. */
  lemma {:induction false} MasterAtPlace(table: seq<Xml>, n: nat, k: nat)
    requires n <= |table|
    ensures MasterAt(table, n, k).Some? ==> IsMasterPlace(table, MasterAt(table, n, k).value, n)
    decreases n, 0
  {
    if n == 0 {
    } else if !IsRow(table[n - 1]) {
      MasterAtPlace(table, n - 1, k);
    } else {
      var row := table[n - 1];
      var c := CellAt(row.kids, row.tag.gridBefore, k);
      if c.Some? {
        MasterOfPlace(table, n - 1, c.value);
      }
    }
  }

  lemma {:induction false} MasterOfPlace(table: seq<Xml>, i: nat, c: nat)
    requires i < |table| && IsRow(table[i]) && c < |table[i].kids| && IsCell(table[i].kids[c])
    ensures MasterOf(table, i, c).Some? ==> IsMasterPlace(table, MasterOf(table, i, c).value, i + 1)
    decreases i, 1
  {
    if table[i].kids[c].tag.merge == Continue && MasterOf(table, i, c).Some? {
      var column := Column(table[i].kids[..c], table[i].tag.gridBefore);
      var k := FirstMasterIsLeftmost(table, i, column, column + table[i].kids[c].tag.span);
      MasterAtPlace(table, i, k);
    }
  }

  // ---- The way up to the master ----

  predicate CellPlace(table: seq<Xml>, p: Place) {
    p.row < |table| && IsRow(table[p.row]) && p.cell < |table[p.row].kids| && IsCell(table[p.row].kids[p.cell])
  }

  predicate Covers(table: seq<Xml>, p: Place, k: nat)
    requires CellPlace(table, p)
  {
    Occupies(table[p.row].kids, table[p.row].tag.gridBefore, p.cell, k)
  }

  predicate MarkedAs(table: seq<Xml>, p: Place, merge: Merge)
    requires CellPlace(table, p)
  {
    table[p.row].kids[p.cell].tag.merge == merge
  }

  /** Row i is the last one among the first n children of the table. */
  ghost predicate LastRow(table: seq<Xml>, i: nat, n: nat)
    requires n <= |table|
  {
    i < n && IsRow(table[i]) && forall r :: i < r < n ==> !IsRow(table[r])
  }

  /** Both cells are cells of the table, the second one in the row next above, and they share a column. */
  ghost predicate Above(table: seq<Xml>, below: Place, above: Place) {
    && CellPlace(table, below) && CellPlace(table, above) && LastRow(table, above.row, below.row)
    && exists k :: Covers(table, below, k) && Covers(table, above, k)
  }

  /** A way up from cell to cell through continuation cells, to a cell that starts a merge. */
  ghost predicate WayUp(table: seq<Xml>, way: seq<Place>) {
    && way != [] && CellPlace(table, way[|way| - 1]) && MarkedAs(table, way[|way| - 1], Restart)
    && forall t :: 0 <= t < |way| - 1 ==> Above(table, way[t], way[t + 1]) && MarkedAs(table, way[t], Continue)
  }

  lemma WayUpExtends(table: seq<Xml>, way: seq<Place>, p: Place)
    requires WayUp(table, way) && Above(table, p, way[0]) && MarkedAs(table, p, Continue)
    ensures WayUp(table, [p] + way)
  {
    var longer := [p] + way;
    forall t | 0 <= t < |longer| - 1
      ensures Above(table, longer[t], longer[t + 1]) && MarkedAs(table, longer[t], Continue)
    {
      if t > 0 {
        assert Above(table, way[t - 1], way[t]) && MarkedAs(table, way[t - 1], Continue);
      }
    }
  }

  lemma {:induction false} WayFromColumn(table: seq<Xml>, n: nat, k: nat) returns (way: seq<Place>)
    requires n <= |table| && MasterAt(table, n, k).Some?
    ensures WayUp(table, way) && way[|way| - 1] == MasterAt(table, n, k).value
    ensures CellPlace(table, way[0]) && LastRow(table, way[0].row, n) && Covers(table, way[0], k)
    decreases n, 0
  {
    if !IsRow(table[n - 1]) {
      way := WayFromColumn(table, n - 1, k);
    } else {
      var c := CellAt(table[n - 1].kids, table[n - 1].tag.gridBefore, k).value;
      way := WayToMaster(table, n - 1, c);
    }
  }

  /** The master of a cell is reached from it through continuation cells only, each in the row next
      above the last one and sharing a column with it, and it is a cell that starts a merge. */
  lemma {:induction false} WayToMaster(table: seq<Xml>, i: nat, c: nat) returns (way: seq<Place>)
    requires CellPlace(table, Place(i, c)) && MasterOf(table, i, c).Some?
    ensures WayUp(table, way) && way[0] == Place(i, c) && way[|way| - 1] == MasterOf(table, i, c).value
    decreases i, 1
  {
    way := [Place(i, c)];
    if MarkedAs(table, Place(i, c), Continue) {
      var column := Column(table[i].kids[..c], table[i].tag.gridBefore);
      var k := FirstMasterIsLeftmost(table, i, column, column + table[i].kids[c].tag.span);
      assert Covers(table, Place(i, c), k);
      way := WayFromColumn(table, i, k);
      WayUpExtends(table, way, Place(i, c));
      way := [Place(i, c)] + way;
    }
  }

  // ---- What one row does ----

  function Lookup(m: map<nat, Content>, k: nat): Option<Content> {
    if k in m then Some(m[k]) else None
  }

  /** The content a cell hands down to the row below, if it takes part in a merge. */
  function Template(active: map<nat, Content>, kids: seq<Xml>, gridBefore: nat, c: nat): Option<Content>
    requires c < |kids| && IsCell(kids[c])
  {
    match kids[c].tag.merge
    case NoMerge => None
    case Restart => Some(kids[c].kids)
    case Continue =>
      var column := Column(kids[..c], gridBefore);
      LeftmostActive(active, column, column + kids[c].tag.span)
  }

  function CellResult(active: map<nat, Content>, kids: seq<Xml>, gridBefore: nat, c: nat): Xml
    requires c < |kids|
  {
    if !IsCell(kids[c]) then kids[c] else
    match Template(active, kids, gridBefore, c)
    case None => kids[c]
    case Some(content) => Unmarked(kids[c], content)
  }

  function NextAt(active: map<nat, Content>, kids: seq<Xml>, gridBefore: nat, k: nat): Option<Content> {
    match CellAt(kids, gridBefore, k)
    case None => None
    case Some(c) => Template(active, kids, gridBefore, c)
  }

  lemma {:induction false} RowShape(active: map<nat, Content>, kids: seq<Xml>, gridBefore: nat)
    ensures RowFold(active, kids, gridBefore).column == Column(kids, gridBefore)
    ensures |RowFold(active, kids, gridBefore).kids| == |kids|
  {
    if kids != [] {
      RowShape(active, kids[..|kids| - 1], gridBefore);
    }
  }

  lemma CellStepKid(active: map<nat, Content>, kids: seq<Xml>, gridBefore: nat, st: RowState)
    requires kids != [] && st.column == Column(kids[..|kids| - 1], gridBefore)
    ensures CellStep(active, st, kids[|kids| - 1]).kids
            == st.kids + [CellResult(active, kids, gridBefore, |kids| - 1)]
  {
  }

  lemma CellResultFront(active: map<nat, Content>, kids: seq<Xml>, gridBefore: nat, c: nat)
    requires c < |kids| - 1
    ensures CellResult(active, kids[..|kids| - 1], gridBefore, c) == CellResult(active, kids, gridBefore, c)
  {
    assert kids[..|kids| - 1][..c] == kids[..c];
  }

  lemma {:induction false} RowKid(active: map<nat, Content>, kids: seq<Xml>, gridBefore: nat, c: nat)
    requires c < |kids|
    ensures |RowFold(active, kids, gridBefore).kids| == |kids|
    ensures RowFold(active, kids, gridBefore).kids[c] == CellResult(active, kids, gridBefore, c)
    decreases |kids|
  {
    var front := kids[..|kids| - 1];
    RowShape(active, front, gridBefore);
    CellStepKid(active, kids, gridBefore, RowFold(active, front, gridBefore));
    if c < |front| {
      RowKid(active, front, gridBefore, c);
      CellResultFront(active, kids, gridBefore, c);
    }
  }

  lemma {:induction false} RowNext(active: map<nat, Content>, kids: seq<Xml>, gridBefore: nat, k: nat)
    ensures Lookup(RowFold(active, kids, gridBefore).next, k) == NextAt(active, kids, gridBefore, k)
  {
    if kids != [] {
      var front := kids[..|kids| - 1];
      RowShape(active, front, gridBefore);
      RowNext(active, front, gridBefore, k);
      NextAtStep(active, kids, gridBefore, RowFold(active, front, gridBefore), k);
    }
  }

  /** One row: each child and the merges handed to the next row. */
  lemma RowMeaning(active: map<nat, Content>, kids: seq<Xml>, gridBefore: nat)
    ensures |RowFold(active, kids, gridBefore).kids| == |kids|
    ensures forall c :: 0 <= c < |kids| ==>
              RowFold(active, kids, gridBefore).kids[c] == CellResult(active, kids, gridBefore, c)
    ensures forall k: nat ::
              Lookup(RowFold(active, kids, gridBefore).next, k) == NextAt(active, kids, gridBefore, k)
  {
    RowShape(active, kids, gridBefore);
    forall c | 0 <= c < |kids|
      ensures RowFold(active, kids, gridBefore).kids[c] == CellResult(active, kids, gridBefore, c)
    {
      RowKid(active, kids, gridBefore, c);
    }
    forall k: nat
      ensures Lookup(RowFold(active, kids, gridBefore).next, k) == NextAt(active, kids, gridBefore, k)
    {
      RowNext(active, kids, gridBefore, k);
    }
  }

  lemma NextAtStep(active: map<nat, Content>, kids: seq<Xml>, gridBefore: nat, st: RowState, k: nat)
    requires kids != []
    requires st.column == Column(kids[..|kids| - 1], gridBefore)
    requires Lookup(st.next, k) == NextAt(active, kids[..|kids| - 1], gridBefore, k)
    ensures Lookup(CellStep(active, st, kids[|kids| - 1]).next, k) == NextAt(active, kids, gridBefore, k)
  {
    NextAtFront(active, kids, gridBefore, k);
  }

  lemma NextAtFront(active: map<nat, Content>, kids: seq<Xml>, gridBefore: nat, k: nat)
    requires kids != []
    ensures !Occupies(kids, gridBefore, |kids| - 1, k) ==>
              NextAt(active, kids, gridBefore, k) == NextAt(active, kids[..|kids| - 1], gridBefore, k)
    ensures Occupies(kids, gridBefore, |kids| - 1, k) ==>
              NextAt(active, kids[..|kids| - 1], gridBefore, k) == None
  {
    var front := kids[..|kids| - 1];
    assert forall c: nat :: c < |front| ==> front[..c] == kids[..c];
    var c := CellAt(front, gridBefore, k);
    if c.Some? && Occupies(kids, gridBefore, |kids| - 1, k) {
      assert Occupies(kids, gridBefore, c.value, k);
      OneCellPerColumn(kids, gridBefore, c.value, |kids| - 1, k);
    }
  }

  // ---- What the whole table does ----

  function MasterContent(table: seq<Xml>, m: Option<Place>, bound: nat): Option<Content>
    requires m.Some? ==> IsMasterPlace(table, m.value, bound)
  {
    match m case None => None case Some(p) => Some(ContentAt(table, p))
  }

  /** A cell after the expansion, in terms of its master. */
  function Expanded(table: seq<Xml>, i: nat, c: nat): Xml
    requires i < |table| && IsRow(table[i]) && c < |table[i].kids|
  {
    var x := table[i].kids[c];
    if !IsCell(x) then x else
    MasterOfPlace(table, i, c);
    match MasterOf(table, i, c)
    case None => x
    case Some(m) => Unmarked(x, ContentAt(table, m))
  }

  lemma {:induction false} FirstMasterContent(table: seq<Xml>, i: nat, lo: nat, hi: nat, active: map<nat, Content>)
    requires i <= |table|
    requires forall k: nat :: MasterAt(table, i, k).Some? ==> IsMasterPlace(table, MasterAt(table, i, k).value, i)
    requires forall k: nat :: Lookup(active, k) == MasterContent(table, MasterAt(table, i, k), i)
    ensures FirstMaster(table, i, lo, hi).Some? ==> IsMasterPlace(table, FirstMaster(table, i, lo, hi).value, i)
    ensures LeftmostActive(active, lo, hi) == MasterContent(table, FirstMaster(table, i, lo, hi), i)
    decreases hi - lo
  {
    if lo < hi {
      assert Lookup(active, lo) == MasterContent(table, MasterAt(table, i, lo), i);
      FirstMasterContent(table, i, lo + 1, hi, active);
    }
  }

  /** The merges that are running after n table children are those of the masters looked up
      from there. */
  lemma {:induction false} ActiveMeaning(table: seq<Xml>, n: nat)
    requires n <= |table|
    ensures |TableFold(table[..n]).kids| == n
    ensures forall k: nat :: MasterAt(table, n, k).Some? ==> IsMasterPlace(table, MasterAt(table, n, k).value, n)
    ensures forall k: nat :: Lookup(TableFold(table[..n]).active, k) == MasterContent(table, MasterAt(table, n, k), n)
  {
    forall k: nat ensures MasterAt(table, n, k).Some? ==> IsMasterPlace(table, MasterAt(table, n, k).value, n) {
      MasterAtPlace(table, n, k);
    }
    if n > 0 {
      ActiveMeaning(table, n - 1);
      var front := table[..n - 1];
      assert table[..n][..n - 1] == front;
      var active := TableFold(front).active;
      var row := table[n - 1];
      if IsRow(row) {
        RowMeaning(active, row.kids, row.tag.gridBefore);
        forall k: nat
          ensures Lookup(TableFold(table[..n]).active, k) == MasterContent(table, MasterAt(table, n, k), n)
        {
          var c := CellAt(row.kids, row.tag.gridBefore, k);
          if c.Some? {
            TemplateIsMaster(table, n - 1, c.value, active);
          }
          MasterAtPlace(table, n, k);
        }
      } else {
        forall k: nat
          ensures Lookup(TableFold(table[..n]).active, k) == MasterContent(table, MasterAt(table, n, k), n)
        {
          assert MasterAt(table, n, k) == MasterAt(table, n - 1, k);
        }
      }
    }
  }

  lemma TemplateIsMaster(table: seq<Xml>, i: nat, c: nat, active: map<nat, Content>)
    requires i < |table| && IsRow(table[i]) && c < |table[i].kids| && IsCell(table[i].kids[c])
    requires forall k: nat :: MasterAt(table, i, k).Some? ==> IsMasterPlace(table, MasterAt(table, i, k).value, i)
    requires forall k: nat :: Lookup(active, k) == MasterContent(table, MasterAt(table, i, k), i)
    ensures MasterOf(table, i, c).Some? ==> IsMasterPlace(table, MasterOf(table, i, c).value, i + 1)
    ensures Template(active, table[i].kids, table[i].tag.gridBefore, c)
            == MasterContent(table, MasterOf(table, i, c), i + 1)
  {
    MasterOfPlace(table, i, c);
    if table[i].kids[c].tag.merge == Continue {
      var column := Column(table[i].kids[..c], table[i].tag.gridBefore);
      FirstMasterContent(table, i, column, column + table[i].kids[c].tag.span, active);
    }
  }

  /** The expansion gives every cell that has a master the content of that master and takes its
      marker away; every other child of every row, and everything that is not a row, stays as it
      was, spans and positions included. */
  lemma FillFollowsMasters(table: seq<Xml>, i: nat)
    requires i < |table|
    ensures |TableFold(table).kids| == |table|
    ensures !IsRow(table[i]) ==> TableFold(table).kids[i] == table[i]
    ensures IsRow(table[i]) ==>
              var out := TableFold(table).kids[i];
              && IsRow(out) && out.tag == table[i].tag && |out.kids| == |table[i].kids|
              && forall c: nat :: c < |out.kids| ==> out.kids[c] == Expanded(table, i, c)
  {
    FoldKeeps(table, i);
    ActiveMeaning(table, |table|);
    assert table[..|table|] == table;
    ActiveMeaning(table, i);
    var row := table[i];
    if IsRow(row) {
      var active := TableFold(table[..i]).active;
      RowMeaning(active, row.kids, row.tag.gridBefore);
      var out := TableFold(table).kids[i];
      forall c: nat | c < |out.kids| ensures out.kids[c] == Expanded(table, i, c) {
        if IsCell(row.kids[c]) {
          TemplateIsMaster(table, i, c, active);
        }
      }
    }
  }

  /** Later rows do not touch the rows already done. */
  lemma {:induction false} FoldKeeps(table: seq<Xml>, i: nat)
    requires i < |table|
    ensures |TableFold(table).kids| == |table| && |TableFold(table[..i]).kids| == i
    ensures TableFold(table).kids[i] == RowStep(TableFold(table[..i]), table[i]).kids[i]
    decreases |table|
  {
    FoldLength(table);
    FoldLength(table[..i]);
    if i < |table| - 1 {
      var front := table[..|table| - 1];
      FoldKeeps(front, i);
      assert front[..i] == table[..i];
    }
  }

  lemma {:induction false} FoldLength(table: seq<Xml>)
    ensures |TableFold(table).kids| == |table|
  {
    if table != [] {
      FoldLength(table[..|table| - 1]);
    }
  }
}
