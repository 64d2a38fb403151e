/** Expanding the tables of a tree one after another, whatever the expansion of one table does.

    Two orders are compared: that of the source, and the recursion from the inside out. */
module DocxTableOrder {
  import opened DocxMerge

  /** What happens to the children of one table. */
  type Expansion = seq<Xml> -> TableState

  // ---- Tables in document order ----

  function Tables(x: Xml): nat {
    match x
    case Text(_) => 0
    case Elem(tag, kids) => (if tag.Tbl? then 1 else 0) + TablesIn(kids)
  }

  function TablesIn(kids: seq<Xml>): nat {
    if kids == [] then 0 else Tables(kids[0]) + TablesIn(kids[1..])
  }

  /** Expands the k-th table in document order, where a table comes before those inside it. */
  function FillNth(e: Expansion, x: Xml, k: nat): Xml {
    match x
    case Text(_) => x
    case Elem(tag, kids) =>
      if !tag.Tbl? then Elem(tag, FillNthIn(e, kids, k))
      else if k == 0 then Elem(tag, e(kids).kids)
      else Elem(tag, FillNthIn(e, kids, k - 1))
  }

  function FillNthIn(e: Expansion, kids: seq<Xml>, k: nat): seq<Xml> {
    if kids == [] then []
    else if k < Tables(kids[0]) then [FillNth(e, kids[0], k)] + kids[1..]
    else [kids[0]] + FillNthIn(e, kids[1..], k - Tables(kids[0]))
  }

  /** Whether expanding the k-th table reports a change. */
  function NthChanges(e: Expansion, x: Xml, k: nat): bool {
    match x
    case Text(_) => false
    case Elem(tag, kids) =>
      if !tag.Tbl? then NthChangesIn(e, kids, k)
      else if k == 0 then e(kids).changed
      else NthChangesIn(e, kids, k - 1)
  }

  function NthChangesIn(e: Expansion, kids: seq<Xml>, k: nat): bool {
    if kids == [] then false
    else if k < Tables(kids[0]) then NthChanges(e, kids[0], k)
    else NthChangesIn(e, kids[1..], k - Tables(kids[0]))
  }

  // The tables n-1, ..., 1, 0 one after another.

  function Run<T>(step: (T, nat) -> T, x: T, n: nat): T
    decreases n
  {
    if n == 0 then x else Run(step, step(x, n - 1), n - 1)
  }

  /** What the steps of a run count. */
  function Counted<T>(step: (T, nat) -> T, count: (T, nat) -> nat, x: T, n: nat): nat
    decreases n
  {
    if n == 0 then 0 else count(x, n - 1) + Counted(step, count, step(x, n - 1), n - 1)
  }

  function Nth(e: Expansion): (Xml, nat) -> Xml { (x: Xml, k: nat) => FillNth(e, x, k) }

  function NthIn(e: Expansion): (seq<Xml>, nat) -> seq<Xml> { (kids: seq<Xml>, k: nat) => FillNthIn(e, kids, k) }

  function Downward(e: Expansion, x: Xml, n: nat): Xml { Run(Nth(e), x, n) }

  function DownwardIn(e: Expansion, kids: seq<Xml>, n: nat): seq<Xml> { Run(NthIn(e), kids, n) }

  /** The same on the tree: first everything inside a table, then the table. */
  function BottomUp(e: Expansion, x: Xml): Xml {
    match x
    case Text(_) => x
    case Elem(tag, kids) =>
      if tag.Tbl? then Elem(tag, e(BottomUpIn(e, kids)).kids) else Elem(tag, BottomUpIn(e, kids))
  }

  function BottomUpIn(e: Expansion, kids: seq<Xml>): seq<Xml> {
    if kids == [] then [] else [BottomUp(e, kids[0])] + BottomUpIn(e, kids[1..])
  }

  // ---- How many cells are filled ----

  /** The cells filled by expanding the k-th table. */
  function NthFills(e: Expansion, x: Xml, k: nat): nat {
    match x
    case Text(_) => 0
    case Elem(tag, kids) =>
      if !tag.Tbl? then NthFillsIn(e, kids, k)
      else if k == 0 then e(kids).filled
      else NthFillsIn(e, kids, k - 1)
  }

  function NthFillsIn(e: Expansion, kids: seq<Xml>, k: nat): nat {
    if kids == [] then 0
    else if k < Tables(kids[0]) then NthFills(e, kids[0], k)
    else NthFillsIn(e, kids[1..], k - Tables(kids[0]))
  }

  function Fills(e: Expansion): (Xml, nat) -> nat { (x: Xml, k: nat) => NthFills(e, x, k) }

  function FillsIn(e: Expansion): (seq<Xml>, nat) -> nat { (kids: seq<Xml>, k: nat) => NthFillsIn(e, kids, k) }

  /** The cells filled by the tables n-1, ..., 1, 0 one after another. */
  function DownwardFills(e: Expansion, x: Xml, n: nat): nat { Counted(Nth(e), Fills(e), x, n) }

  function DownwardFillsIn(e: Expansion, kids: seq<Xml>, n: nat): nat { Counted(NthIn(e), FillsIn(e), kids, n) }

  /** The cells filled in every table once everything inside it is expanded. */
  function BottomUpFills(e: Expansion, x: Xml): nat {
    match x
    case Text(_) => 0
    case Elem(tag, kids) => BottomUpFillsIn(e, kids) + if tag.Tbl? then e(BottomUpIn(e, kids)).filled else 0
  }

  function BottomUpFillsIn(e: Expansion, kids: seq<Xml>): nat {
    if kids == [] then 0 else BottomUpFills(e, kids[0]) + BottomUpFillsIn(e, kids[1..])
  }

  // ---- Reversed document order is bottom-up ----

  /** Expanding a table may drop or duplicate the tables inside it, but never one that comes at or
      before it in document order. */
  lemma {:induction false} EarlierTablesStay(e: Expansion, x: Xml, k: nat)
    requires k < Tables(x)
    ensures k < Tables(FillNth(e, x, k))
    decreases x, 0
  {
    if !x.tag.Tbl? {
      EarlierTablesStayIn(e, x.kids, k);
    } else if k > 0 {
      EarlierTablesStayIn(e, x.kids, k - 1);
    }
  }

  lemma {:induction false} EarlierTablesStayIn(e: Expansion, kids: seq<Xml>, k: nat)
    requires k < TablesIn(kids)
    ensures k < TablesIn(FillNthIn(e, kids, k))
    decreases kids, 1
  {
    if k < Tables(kids[0]) {
      EarlierTablesStay(e, kids[0], k);
    } else {
      EarlierTablesStayIn(e, kids[1..], k - Tables(kids[0]));
    }
  }

  /** Step k on a part of a tree is step t + k on the whole, as long as `ok` holds of the part. */
  ghost predicate StepsOnPart<T(!new), U(!new)>(step: (T, nat) -> T, count: (T, nat) -> nat, part: (U, nat) -> U,
      partCount: (U, nat) -> nat, whole: U -> T, ok: (U, nat) -> bool, t: nat)
  {
    forall v: U, k: nat :: ok(v, k + 1) && At(v, k) ==>
      StepOnPart(step, count, part, partCount, whole, ok, t, v, k)
  }

  /** A marker, so that a statement about all steps is only used where a step is named. */
  ghost predicate At<U>(part: U, k: nat) { true }

  ghost predicate StepOnPart<T(!new), U(!new)>(step: (T, nat) -> T, count: (T, nat) -> nat, part: (U, nat) -> U,
      partCount: (U, nat) -> nat, whole: U -> T, ok: (U, nat) -> bool, t: nat, v: U, k: nat)
  {
    && step(whole(v), t + k) == whole(part(v, k)) && count(whole(v), t + k) == partCount(v, k)
    && ok(part(v, k), k)
  }

  /** A run on a part of a tree is a run on the whole, t tables further on: the steps on the part come
      first, the t tables in front of it are left. */
  lemma {:induction false} RunOnPart<T(!new), U(!new)>(step: (T, nat) -> T, count: (T, nat) -> nat, part: (U, nat) -> U,
      partCount: (U, nat) -> nat, whole: U -> T, ok: (U, nat) -> bool, t: nat, u: U, m: nat)
    requires ok(u, m) && StepsOnPart(step, count, part, partCount, whole, ok, t)
    ensures Run(step, whole(u), t + m) == Run(step, whole(Run(part, u, m)), t)
    ensures Counted(step, count, whole(u), t + m)
         == Counted(part, partCount, u, m) + Counted(step, count, whole(Run(part, u, m)), t)
    decreases m
  {
    if m > 0 {
      assert At(u, m - 1);
      RunOnPart(step, count, part, partCount, whole, ok, t, part(u, m - 1), m - 1);
    }
  }

  function WithHead(head: Xml): seq<Xml> -> seq<Xml> { (tail: seq<Xml>) => [head] + tail }

  function WithTail(tail: seq<Xml>): Xml -> seq<Xml> { (head: Xml) => [head] + tail }

  function WithTag(tag: Tag): seq<Xml> -> Xml { (kids: seq<Xml>) => Elem(tag, kids) }

  function Always<T>(): (T, nat) -> bool { (x: T, k: nat) => true }

  function HasTables(): (Xml, nat) -> bool { (x: Xml, k: nat) => k <= Tables(x) }

  lemma BehindHead(e: Expansion, head: Xml, tail: seq<Xml>, k: nat)
    ensures FillNthIn(e, [head] + tail, Tables(head) + k) == [head] + FillNthIn(e, tail, k)
    ensures NthFillsIn(e, [head] + tail, Tables(head) + k) == NthFillsIn(e, tail, k)
  {
    assert ([head] + tail)[1..] == tail;
  }

  lemma InsideHead(e: Expansion, head: Xml, tail: seq<Xml>, k: nat)
    requires k < Tables(head)
    ensures FillNthIn(e, [head] + tail, k) == [FillNth(e, head, k)] + tail
    ensures NthFillsIn(e, [head] + tail, k) == NthFills(e, head, k)
  {
    assert ([head] + tail)[1..] == tail;
  }

  lemma InsideElement(e: Expansion, tag: Tag, kids: seq<Xml>, k: nat)
    ensures var n := if tag.Tbl? then k + 1 else k;
      && FillNth(e, Elem(tag, kids), n) == Elem(tag, FillNthIn(e, kids, k))
      && NthFills(e, Elem(tag, kids), n) == NthFillsIn(e, kids, k)
  {
  }

  lemma TailSteps(e: Expansion, head: Xml)
    ensures StepsOnPart(NthIn(e), FillsIn(e), NthIn(e), FillsIn(e), WithHead(head), Always(), Tables(head))
  {
    forall v: seq<Xml>, k: nat | At(v, k)
      ensures StepOnPart(NthIn(e), FillsIn(e), NthIn(e), FillsIn(e), WithHead(head), Always(), Tables(head), v, k)
    {
      BehindHead(e, head, v, k);
    }
  }

  lemma HeadSteps(e: Expansion, tail: seq<Xml>)
    ensures StepsOnPart(NthIn(e), FillsIn(e), Nth(e), Fills(e), WithTail(tail), HasTables(), 0)
  {
    forall v: Xml, k: nat | HasTables()(v, k + 1) && At(v, k)
      ensures StepOnPart(NthIn(e), FillsIn(e), Nth(e), Fills(e), WithTail(tail), HasTables(), 0, v, k)
    {
      InsideHead(e, v, tail, k);
      EarlierTablesStay(e, v, k);
    }
  }

  ghost predicate StepsOnKids(step: (seq<Xml>, nat) -> seq<Xml>, count: (seq<Xml>, nat) -> nat, one: (Xml, nat) -> Xml,
      oneCount: (Xml, nat) -> nat, head: Xml)
  {
    && StepsOnPart(step, count, step, count, WithHead(head), Always(), Tables(head))
    && forall rest :: StepsOnPart(step, count, one, oneCount, WithTail(rest), HasTables(), 0)
  }

  lemma KidsSteps(e: Expansion, head: Xml)
    ensures StepsOnKids(NthIn(e), FillsIn(e), Nth(e), Fills(e), head)
  {
    TailSteps(e, head);
    forall rest ensures StepsOnPart(NthIn(e), FillsIn(e), Nth(e), Fills(e), WithTail(rest), HasTables(), 0) {
      HeadSteps(e, rest);
    }
  }

  /** The tables behind a child are taken first, then those inside it, whatever a step does. */
  lemma KidsRun(step: (seq<Xml>, nat) -> seq<Xml>, count: (seq<Xml>, nat) -> nat, one: (Xml, nat) -> Xml,
      oneCount: (Xml, nat) -> nat, kids: seq<Xml>, head: Xml, tail: seq<Xml>, m: nat, n: nat)
    requires StepsOnKids(step, count, one, oneCount, head) && kids == [head] + tail && n == Tables(head) + m
    ensures Run(step, kids, n) == [Run(one, head, Tables(head))] + Run(step, tail, m)
    ensures Counted(step, count, kids, n) == Counted(step, count, tail, m) + Counted(one, oneCount, head, Tables(head))
  {
    var rest := Run(step, tail, m);
    RunOnPart(step, count, step, count, WithHead(head), Always(), Tables(head), tail, m);
    RunOnPart(step, count, one, oneCount, WithTail(rest), HasTables(), 0, head, Tables(head));
  }

  lemma LastFirst(e: Expansion, kids: seq<Xml>, head: Xml, tail: seq<Xml>)
    requires kids == [head] + tail
    ensures DownwardIn(e, kids, TablesIn(kids))
         == [Downward(e, head, Tables(head))] + DownwardIn(e, tail, TablesIn(tail))
    ensures DownwardFillsIn(e, kids, TablesIn(kids))
         == DownwardFillsIn(e, tail, TablesIn(tail)) + DownwardFills(e, head, Tables(head))
  {
    KidsSteps(e, head);
    KidsRun(NthIn(e), FillsIn(e), Nth(e), Fills(e), kids, head, tail, TablesIn(tail), TablesIn(kids));
  }

  lemma InsideSteps(e: Expansion, tag: Tag)
    ensures StepsOnPart(Nth(e), Fills(e), NthIn(e), FillsIn(e), WithTag(tag), Always(), if tag.Tbl? then 1 else 0)
  {
    var own := if tag.Tbl? then 1 else 0;
    forall v: seq<Xml>, k: nat | At(v, k)
      ensures StepOnPart(Nth(e), Fills(e), NthIn(e), FillsIn(e), WithTag(tag), Always(), own, v, k)
    {
      InsideElement(e, tag, v, k);
    }
  }

  /** The tables inside an element come before the element itself. */
  lemma InsideFirst(e: Expansion, tag: Tag, kids: seq<Xml>, m: nat)
    ensures var own, done := if tag.Tbl? then 1 else 0, DownwardIn(e, kids, m);
      && Downward(e, Elem(tag, kids), own + m) == Elem(tag, if tag.Tbl? then e(done).kids else done)
      && DownwardFills(e, Elem(tag, kids), own + m)
           == DownwardFillsIn(e, kids, m) + if tag.Tbl? then e(done).filled else 0
  {
    InsideSteps(e, tag);
    RunOnPart(Nth(e), Fills(e), NthIn(e), FillsIn(e), WithTag(tag), Always(), if tag.Tbl? then 1 else 0, kids, m);
    ElementItself(e, tag, DownwardIn(e, kids, m));
  }

  lemma ElementItself(e: Expansion, tag: Tag, kids: seq<Xml>)
    ensures Downward(e, Elem(tag, kids), 0) == Elem(tag, kids) && DownwardFills(e, Elem(tag, kids), 0) == 0
    ensures tag.Tbl? ==> Downward(e, Elem(tag, kids), 1) == Elem(tag, e(kids).kids)
    ensures tag.Tbl? ==> DownwardFills(e, Elem(tag, kids), 1) == e(kids).filled
  {
  }

  lemma {:induction false} DownwardIsBottomUp(e: Expansion, x: Xml)
    ensures Downward(e, x, Tables(x)) == BottomUp(e, x)
    decreases x, 0
  {
    if x.Elem? {
      InsideFirst(e, x.tag, x.kids, TablesIn(x.kids));
      DownwardIsBottomUpIn(e, x.kids);
    }
  }

  /** Taking the tables of a part in reversed document order expands every table after the tables
      inside it: it is the bottom-up recursion. */
  lemma {:induction false} DownwardIsBottomUpIn(e: Expansion, kids: seq<Xml>)
    ensures DownwardIn(e, kids, TablesIn(kids)) == BottomUpIn(e, kids)
    decreases kids, 1
  {
    if kids != [] {
      var head, tail := kids[0], kids[1..];
      assert kids == [head] + tail;
      LastFirst(e, kids, head, tail);
      DownwardIsBottomUp(e, head);
      DownwardIsBottomUpIn(e, tail);
    }
  }

  // ---- Where the tables are ----

  /** The way down to the k-th table in document order, as child numbers. */
  function WayTo(x: Xml, k: nat): (way: seq<nat>)
    requires k < Tables(x)
    decreases x, 0
  {
    if x.tag.Tbl? then if k == 0 then [] else WayToIn(x.kids, k - 1) else WayToIn(x.kids, k)
  }

  function WayToIn(kids: seq<Xml>, k: nat): (way: seq<nat>)
    requires k < TablesIn(kids)
    ensures way != []
    decreases kids, 1
  {
    if k < Tables(kids[0]) then [0] + WayTo(kids[0], k)
    else
      var way := WayToIn(kids[1..], k - Tables(kids[0]));
      [way[0] + 1] + way[1..]
  }

  /** Expanding the k-th table leaves every table up to it, itself included, in its place. */
  lemma {:induction false} TablesKeepPlace(e: Expansion, x: Xml, k: nat, j: nat)
    requires j <= k < Tables(x)
    ensures j < Tables(FillNth(e, x, k)) && WayTo(FillNth(e, x, k), j) == WayTo(x, j)
    decreases x, 0
  {
    EarlierTablesStay(e, x, k);
    if !x.tag.Tbl? {
      TablesKeepPlaceIn(e, x.kids, k, j);
    } else if j > 0 {
      TablesKeepPlaceIn(e, x.kids, k - 1, j - 1);
    }
  }

  lemma {:induction false} TablesKeepPlaceIn(e: Expansion, kids: seq<Xml>, k: nat, j: nat)
    requires j <= k < TablesIn(kids)
    ensures j < TablesIn(FillNthIn(e, kids, k)) && WayToIn(FillNthIn(e, kids, k), j) == WayToIn(kids, j)
    decreases kids, 1
  {
    EarlierTablesStayIn(e, kids, k);
    if k < Tables(kids[0]) {
      TablesKeepPlace(e, kids[0], k, j);
    } else if j >= Tables(kids[0]) {
      TablesKeepPlaceIn(e, kids[1..], k - Tables(kids[0]), j - Tables(kids[0]));
    }
  }

  // ---- The same cells are filled ----

  lemma {:induction false} FillsAgree(e: Expansion, x: Xml)
    ensures DownwardFills(e, x, Tables(x)) == BottomUpFills(e, x)
    decreases x, 0
  {
    if x.Elem? {
      InsideFirst(e, x.tag, x.kids, TablesIn(x.kids));
      DownwardIsBottomUpIn(e, x.kids);
      FillsAgreeIn(e, x.kids);
    }
  }

  /** The same cells are filled in reversed document order as from the bottom up. */
  lemma {:induction false} FillsAgreeIn(e: Expansion, kids: seq<Xml>)
    ensures DownwardFillsIn(e, kids, TablesIn(kids)) == BottomUpFillsIn(e, kids)
    decreases kids, 1
  {
    if kids != [] {
      var head, tail := kids[0], kids[1..];
      assert kids == [head] + tail;
      LastFirst(e, kids, head, tail);
      FillsAgree(e, head);
      FillsAgreeIn(e, tail);
    }
  }
}
