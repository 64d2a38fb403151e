/** The number of filled cells that the expansion of a table reports. */
module DocxFilledCount {
  import opened DocxMerge

  /** A continuation cell that has a master. */
  predicate Refilled(table: seq<Xml>, i: nat, c: nat)
    requires i < |table| && IsRow(table[i]) && c < |table[i].kids|
  {
    IsCell(table[i].kids[c]) && table[i].kids[c].tag.merge == Continue && MasterOf(table, i, c).Some?
  }

  /** How many of the first n children of row i are refilled. */
  function RefilledInRow(table: seq<Xml>, i: nat, n: nat): nat
    requires i < |table| && IsRow(table[i]) && n <= |table[i].kids|
  {
    if n == 0 then 0 else RefilledInRow(table, i, n - 1) + if Refilled(table, i, n - 1) then 1 else 0
  }

  /** How many cells of the first n children of the table are refilled. */
  function RefilledCells(table: seq<Xml>, n: nat): nat
    requires n <= |table|
  {
    if n == 0 then 0
    else
      RefilledCells(table, n - 1)
      + if IsRow(table[n - 1]) then RefilledInRow(table, n - 1, |table[n - 1].kids|) else 0
  }

  lemma StepCounts(active: map<nat, Content>, kids: seq<Xml>, gridBefore: nat, n: nat)
    requires n < |kids|
    ensures RowFold(active, kids[..n + 1], gridBefore).filled == RowFold(active, kids[..n], gridBefore).filled
      + if IsCell(kids[n]) && kids[n].tag.merge == Continue && Template(active, kids, gridBefore, n).Some? then 1 else 0
  {
    assert kids[..n + 1][..n] == kids[..n];
    RowShape(active, kids[..n], gridBefore);
  }

  lemma {:induction false} RowCounts(table: seq<Xml>, i: nat, n: nat, active: map<nat, Content>)
    requires i < |table| && IsRow(table[i]) && n <= |table[i].kids|
    requires forall k: nat :: MasterAt(table, i, k).Some? ==> IsMasterPlace(table, MasterAt(table, i, k).value, i)
    requires forall k: nat :: Lookup(active, k) == MasterContent(table, MasterAt(table, i, k), i)
    ensures RowFold(active, table[i].kids[..n], table[i].tag.gridBefore).filled == RefilledInRow(table, i, n)
  {
    if n > 0 {
      RowCounts(table, i, n - 1, active);
      StepCounts(active, table[i].kids, table[i].tag.gridBefore, n - 1);
      if IsCell(table[i].kids[n - 1]) {
        TemplateIsMaster(table, i, n - 1, active);
      }
    }
  }

  /** The count is the number of continuation cells that have a master. */
  lemma {:induction false} FilledMeansRefilled(table: seq<Xml>, n: nat)
    requires n <= |table|
    ensures TableFold(table[..n]).filled == RefilledCells(table, n)
  {
    if n > 0 {
      FilledMeansRefilled(table, n - 1);
      assert table[..n][..n - 1] == table[..n - 1];
      if IsRow(table[n - 1]) {
        var kids := table[n - 1].kids;
        ActiveMeaning(table, n - 1);
        RowCounts(table, n - 1, |kids|, TableFold(table[..n - 1]).active);
        assert kids[..|kids|] == kids;
      }
    }
  }
}
