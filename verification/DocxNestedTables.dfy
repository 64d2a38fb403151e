/** The expansion over a whole Word part: tables in reversed document order, nested ones included. */
module DocxNestedTables {
  import opened Options
  import opened DocxMerge
  import opened DocxTableOrder

  // ---- One table ----

  predicate NoRestartRow(kids: seq<Xml>) {
    forall c :: 0 <= c < |kids| && IsCell(kids[c]) ==> kids[c].tag.merge != Restart
  }

  /** No cell of this table starts a vertical merge any more. */
  predicate NoRestart(table: seq<Xml>) {
    forall i :: 0 <= i < |table| && IsRow(table[i]) ==> NoRestartRow(table[i].kids)
  }

  lemma FillLeavesNoRestart(table: seq<Xml>)
    ensures |TableFold(table).kids| == |table|
    ensures NoRestart(TableFold(table).kids)
  {
    FoldLength(table);
    var out := TableFold(table).kids;
    forall i | 0 <= i < |out| && IsRow(out[i]) ensures NoRestartRow(out[i].kids) {
      FillFollowsMasters(table, i);
      forall c: nat | c < |out[i].kids| && IsCell(out[i].kids[c])
        ensures out[i].kids[c].tag.merge != Restart
      {
        assert out[i].kids[c] == Expanded(table, i, c);
      }
    }
  }

  lemma NothingActive(lo: nat, hi: nat)
    ensures LeftmostActive(map[], lo, hi) == None
    decreases hi - lo
  {
    if lo < hi {
      NothingActive(lo + 1, hi);
    }
  }

  lemma StepWithoutRestart(st: RowState, x: Xml)
    requires IsCell(x) ==> x.tag.merge != Restart
    ensures CellStep(map[], st, x)
            == st.(kids := st.kids + [x], column := st.column + if IsCell(x) then x.tag.span else 0)
  {
    if IsCell(x) {
      NothingActive(st.column, st.column + x.tag.span);
    }
  }

  lemma {:induction false} NoRestartRowFixed(kids: seq<Xml>, gridBefore: nat)
    requires NoRestartRow(kids)
    ensures RowFold(map[], kids, gridBefore) == RowState(kids, Column(kids, gridBefore), map[], 0, false)
  {
    if kids != [] {
      var front, last := kids[..|kids| - 1], kids[|kids| - 1];
      assert kids == front + [last];
      NoRestartRowFixed(front, gridBefore);
      StepWithoutRestart(RowState(front, Column(front, gridBefore), map[], 0, false), last);
    }
  }

  lemma RowStepWithoutRestart(front: seq<Xml>, x: Xml)
    requires IsRow(x) ==> NoRestartRow(x.kids)
    ensures RowStep(TableState(front, map[], 0, false), x) == TableState(front + [x], map[], 0, false)
  {
    if IsRow(x) {
      NoRestartRowFixed(x.kids, x.tag.gridBefore);
    }
  }

  lemma {:induction false} NoRestartFixed(table: seq<Xml>)
    requires NoRestart(table)
    ensures TableFold(table) == TableState(table, map[], 0, false)
  {
    if table != [] {
      var front, last := table[..|table| - 1], table[|table| - 1];
      assert table == front + [last];
      NoRestartFixed(front);
      RowStepWithoutRestart(front, last);
    }
  }

  /** A second expansion finds no merge to start, changes nothing and says so. */
  lemma FillIdempotent(table: seq<Xml>)
    ensures TableFold(TableFold(table).kids) == TableState(TableFold(table).kids, map[], 0, false)
  {
    FillLeavesNoRestart(table);
    NoRestartFixed(TableFold(table).kids);
  }

  /** One more element was put out: a change is still reported exactly when there is one. */
  lemma OneMoreChanged<T>(front: seq<T>, last: T, before: seq<T>, out: seq<T>, changedBefore: bool, changed: bool)
    requires |before| == |front| && |out| == |before| + 1 && out[..|before|] == before
    requires changedBefore <==> before != front
    requires changed <==> changedBefore || out[|before|] != last
    ensures changed <==> out != front + [last]
  {
    assert out == before + [out[|before|]];
    assert (front + [last])[..|front|] == front;
  }

  lemma CellChanges(active: map<nat, Content>, st: RowState, cell: Xml)
    ensures var out := CellStep(active, st, cell);
      && |out.kids| == |st.kids| + 1 && out.kids[..|st.kids|] == st.kids
      && (out.changed <==> st.changed || out.kids[|st.kids|] != cell)
  {
  }

  lemma {:induction false} RowChanged(active: map<nat, Content>, kids: seq<Xml>, gridBefore: nat)
    ensures var out := RowFold(active, kids, gridBefore);
      |out.kids| == |kids| && (out.changed <==> out.kids != kids)
  {
    if kids != [] {
      var front, last := kids[..|kids| - 1], kids[|kids| - 1];
      assert kids == front + [last];
      var st, out := RowFold(active, front, gridBefore), RowFold(active, kids, gridBefore);
      RowChanged(active, front, gridBefore);
      CellChanges(active, st, last);
      OneMoreChanged(front, last, st.kids, out.kids, st.changed, out.changed);
    }
  }

  lemma RowChanges(st: TableState, x: Xml)
    ensures var out := RowStep(st, x);
      && |out.kids| == |st.kids| + 1 && out.kids[..|st.kids|] == st.kids
      && (out.changed <==> st.changed || out.kids[|st.kids|] != x)
  {
    if IsRow(x) {
      RowChanged(st.active, x.kids, x.tag.gridBefore);
    }
  }

  /** The expansion reports a change exactly when the table differs afterwards. */
  lemma {:induction false} TableChanged(table: seq<Xml>)
    ensures |TableFold(table).kids| == |table|
    ensures TableFold(table).changed <==> TableFold(table).kids != table
  {
    if table != [] {
      var front, last := table[..|table| - 1], table[|table| - 1];
      assert table == front + [last];
      var st, out := TableFold(front), TableFold(table);
      TableChanged(front);
      RowChanges(st, last);
      OneMoreChanged(front, last, st.kids, out.kids, st.changed, out.changed);
    }
  }

  // ---- A part that needs nothing more ----

  /** The expansion of vertical merges. */
  function Vertical(): Expansion { (kids: seq<Xml>) => TableFold(kids) }

  /** No table anywhere in the part starts a vertical merge. */
  predicate Normalised(x: Xml) {
    match x
    case Text(_) => true
    case Elem(tag, kids) => (tag.Tbl? ==> NoRestart(kids)) && NormalisedIn(kids)
  }

  predicate NormalisedIn(kids: seq<Xml>) {
    kids == [] || (Normalised(kids[0]) && NormalisedIn(kids[1..]))
  }

  lemma {:induction false} NormalisedAt(kids: seq<Xml>, i: nat)
    requires NormalisedIn(kids) && i < |kids|
    ensures Normalised(kids[i])
    decreases |kids|
  {
    if i > 0 {
      NormalisedAt(kids[1..], i - 1);
    }
  }

  lemma {:induction false} NormalisedAll(kids: seq<Xml>)
    requires forall i :: 0 <= i < |kids| ==> Normalised(kids[i])
    ensures NormalisedIn(kids)
  {
    if kids != [] {
      NormalisedAll(kids[1..]);
    }
  }

  /** Copying a master's content never brings back a table that still starts a merge. */
  lemma FillKeepsNormalised(table: seq<Xml>)
    requires NormalisedIn(table)
    ensures NormalisedIn(TableFold(table).kids)
  {
    FoldLength(table);
    var out := TableFold(table).kids;
    forall i | 0 <= i < |out| ensures Normalised(out[i]) {
      FillFollowsMasters(table, i);
      NormalisedAt(table, i);
      if IsRow(table[i]) {
        forall c: nat | c < |out[i].kids| ensures Normalised(out[i].kids[c]) {
          NormalisedAt(table[i].kids, c);
          ExpandedNormalised(table, i, c);
        }
        NormalisedAll(out[i].kids);
      }
    }
    NormalisedAll(out);
  }

  lemma ExpandedNormalised(table: seq<Xml>, i: nat, c: nat)
    requires NormalisedIn(table)
    requires i < |table| && IsRow(table[i]) && c < |table[i].kids|
    ensures Normalised(Expanded(table, i, c))
  {
    NormalisedAt(table, i);
    NormalisedAt(table[i].kids, c);
    if IsCell(table[i].kids[c]) && MasterOf(table, i, c).Some? {
      MasterOfPlace(table, i, c);
      var m := MasterOf(table, i, c).value;
      NormalisedAt(table, m.row);
      NormalisedAt(table[m.row].kids, m.cell);
    }
  }

  lemma {:induction false} BottomUpNormalises(x: Xml)
    ensures Normalised(BottomUp(Vertical(), x))
    decreases x, 0
  {
    if x.Elem? {
      BottomUpInNormalises(x.kids);
      if x.tag.Tbl? {
        FillKeepsNormalised(BottomUpIn(Vertical(), x.kids));
        FillLeavesNoRestart(BottomUpIn(Vertical(), x.kids));
      }
    }
  }

  lemma {:induction false} BottomUpInNormalises(kids: seq<Xml>)
    ensures NormalisedIn(BottomUpIn(Vertical(), kids))
    decreases kids, 1
  {
    if kids != [] {
      BottomUpNormalises(kids[0]);
      BottomUpInNormalises(kids[1..]);
    }
  }

  lemma {:induction false} NormalisedFixed(x: Xml, k: nat)
    requires Normalised(x)
    ensures FillNth(Vertical(), x, k) == x && !NthChanges(Vertical(), x, k)
    decreases x, 0
  {
    if x.Elem? {
      if !x.tag.Tbl? {
        NormalisedFixedIn(x.kids, k);
      } else if k > 0 {
        NormalisedFixedIn(x.kids, k - 1);
      } else {
        NoRestartFixed(x.kids);
      }
    }
  }

  lemma {:induction false} NormalisedFixedIn(kids: seq<Xml>, k: nat)
    requires NormalisedIn(kids)
    ensures FillNthIn(Vertical(), kids, k) == kids && !NthChangesIn(Vertical(), kids, k)
    decreases kids, 1
  {
    if kids != [] {
      if k < Tables(kids[0]) {
        NormalisedFixed(kids[0], k);
      } else {
        NormalisedFixedIn(kids[1..], k - Tables(kids[0]));
      }
    }
  }

  lemma {:induction false} NthChangesMeaning(x: Xml, k: nat)
    ensures NthChanges(Vertical(), x, k) <==> FillNth(Vertical(), x, k) != x
    decreases x, 0
  {
    if x.Elem? {
      if !x.tag.Tbl? {
        NthChangesInMeaning(x.kids, k);
      } else if k > 0 {
        NthChangesInMeaning(x.kids, k - 1);
      } else {
        TableChanged(x.kids);
      }
    }
  }

  lemma {:induction false} NthChangesInMeaning(kids: seq<Xml>, k: nat)
    ensures NthChangesIn(Vertical(), kids, k) <==> FillNthIn(Vertical(), kids, k) != kids
    decreases kids, 1
  {
    if kids != [] {
      var out := FillNthIn(Vertical(), kids, k);
      if k < Tables(kids[0]) {
        NthChangesMeaning(kids[0], k);
        assert out == kids <==> out[0] == kids[0];
      } else {
        NthChangesInMeaning(kids[1..], k - Tables(kids[0]));
        assert out[1..] == FillNthIn(Vertical(), kids[1..], k - Tables(kids[0]));
      }
    }
  }

  lemma {:induction false} NormalisedDownward(kids: seq<Xml>, n: nat)
    requires NormalisedIn(kids)
    ensures DownwardIn(Vertical(), kids, n) == kids
    decreases n
  {
    if n > 0 {
      NormalisedFixedIn(kids, n - 1);
      NormalisedDownward(kids, n - 1);
    }
  }

  /** The expansion of a part is idempotent. */
  lemma BottomUpIdempotent(kids: seq<Xml>)
    ensures BottomUpIn(Vertical(), BottomUpIn(Vertical(), kids)) == BottomUpIn(Vertical(), kids)
  {
    BottomUpInNormalises(kids);
    var once := BottomUpIn(Vertical(), kids);
    NormalisedDownward(once, TablesIn(once));
    DownwardIsBottomUpIn(Vertical(), once);
  }

  /** The part rewriter. It returns the rewritten part and the number of cells filled in its tables,
      or None when no table reported a change, and that is the case exactly when no table of the
      part starts a vertical merge. */
  method FillPart(root: seq<Xml>) returns (rewritten: Option<seq<Xml>>, filled: nat)
    ensures rewritten.None? <==> NormalisedIn(root)
    ensures rewritten.Some? ==> rewritten.value == BottomUpIn(Vertical(), root) && NormalisedIn(rewritten.value)
    ensures rewritten.None? ==> BottomUpIn(Vertical(), root) == root
    ensures filled == if rewritten.Some? then BottomUpFillsIn(Vertical(), root) else 0
  {
    var doc, k, changed, count := root, TablesIn(root), false, 0;
    while k > 0
      invariant DownwardIn(Vertical(), doc, k) == DownwardIn(Vertical(), root, TablesIn(root))
      invariant count + DownwardFillsIn(Vertical(), doc, k) == DownwardFillsIn(Vertical(), root, TablesIn(root))
      invariant !changed ==> doc == root
      invariant NormalisedIn(root) ==> doc == root && !changed
    {
      k := k - 1;
      NthChangesInMeaning(doc, k);
      if NormalisedIn(root) {
        NormalisedFixedIn(root, k);
      }
      changed := changed || NthChangesIn(Vertical(), doc, k);
      count := count + NthFillsIn(Vertical(), doc, k);
      doc := FillNthIn(Vertical(), doc, k);
    }
    DownwardIsBottomUpIn(Vertical(), root);
    FillsAgreeIn(Vertical(), root);
    BottomUpInNormalises(root);
    if !changed {
      return None, 0;
    }
    return Some(doc), count;
  }
}
