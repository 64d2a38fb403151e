/** The embedded figures that are kept: numbered page by page, and listed from top to bottom.

    The arrangement of a page is a parameter of the loop; from top to bottom is the one the source
    uses. */
module PdfEmbedded {
  import opened StableSort
  import opened PdfImages

  /** The kept image objects of one page, numbered from 1 in the order they were found. */
  function Numbered(kept: seq<Candidate>, page: nat): seq<Entry> {
    if kept == [] then [] else
    var front, last := Numbered(kept[..|kept| - 1], page), kept[|kept| - 1];
    if last.page == page then front + [Entry(Embedded(page, |front| + 1), last.data, last.top)] else front
  }

  /** How the figures of a page are arranged. */
  type Order = seq<Entry> -> seq<Entry>

  function FromTop(): Entry -> real { (e: Entry) => -e.top }

  function TopDown(): Order { (entries: seq<Entry>) => Sort(entries, FromTop()) }

  /** Arranging moves entries, and an arranged list stays as it is. */
  ghost predicate Arranges(order: Order) {
    && (forall s {:trigger order(s)} :: multiset(order(s)) == multiset(s))
    && (forall s {:trigger order(order(s))} :: order(order(s)) == order(s))
  }

  lemma TopDownArranges()
    ensures Arranges(TopDown())
  {
    forall s: seq<Entry>
      ensures multiset(Sort(s, FromTop())) == multiset(s)
      ensures Sort(Sort(s, FromTop()), FromTop()) == Sort(s, FromTop())
    {
      SortSorts(s, FromTop());
      SortOfSorted(Sort(s, FromTop()), FromTop());
    }
  }

  /** The embedded figures of each page. */
  function OnPages(kept: seq<Candidate>, order: Order): PageLists { (page: nat) => order(Numbered(kept, page)) }

  // ---- Numbers ----

  lemma {:induction false} NumbersAscend(kept: seq<Candidate>, page: nat)
    ensures forall k :: 0 <= k < |Numbered(kept, page)| ==> Numbered(kept, page)[k].ref == Embedded(page, k + 1)
  {
    if kept != [] {
      NumbersAscend(kept[..|kept| - 1], page);
    }
  }

  lemma NumberedOwn(kept: seq<Candidate>, page: nat)
    ensures Own(Numbered(kept, page), 1, page)
  {
    NumbersAscend(kept, page);
  }

  /** Whatever the arrangement, the figures listed for a page are those numbered for it. */
  lemma OnPageOwn(kept: seq<Candidate>, order: Order, page: nat)
    requires Arranges(order)
    ensures Own(OnPages(kept, order)(page), 1, page)
  {
    NumberedOwn(kept, page);
    ArrangedOwn(Numbered(kept, page), order(Numbered(kept, page)), 1, page);
  }

  lemma SameLength<T>(a: seq<T>, b: seq<T>)
    requires multiset(a) == multiset(b)
    ensures |a| == |b|
  {
    assert |multiset(a)| == |a| && |multiset(b)| == |b|;
  }

  lemma NumberedSnoc(kept: seq<Candidate>, c: Candidate, order: Order, page: nat)
    requires Arranges(order)
    ensures |OnPages(kept + [c], order)(page)| == |OnPages(kept, order)(page)| + if c.page == page then 1 else 0
  {
    assert (kept + [c])[..|kept|] == kept;
    SameLength(order(Numbered(kept, page)), Numbered(kept, page));
    SameLength(order(Numbered(kept + [c], page)), Numbered(kept + [c], page));
  }

  lemma EmptyStays(order: Order)
    requires Arranges(order)
    ensures order([]) == []
  {
    SameLength(order([]), []);
  }

  /** Each kept image object is stored for exactly one page. */
  lemma {:induction false} EmbeddedCount(kept: seq<Candidate>, order: Order, n: nat)
    requires Arranges(order) && forall k :: 0 <= k < |kept| ==> kept[k].page < n
    ensures |Joined(OnPages(kept, order), n)| == |kept|
  {
    if kept == [] {
      EmptyStays(order);
      forall i: nat ensures OnPages([], order)(i) == [] {
        assert Numbered([], i) == [];
      }
      JoinedEmpty(OnPages([], order), n);
    } else {
      var front, last := kept[..|kept| - 1], kept[|kept| - 1];
      EmbeddedCount(front, order, n);
      assert kept == front + [last];
      forall i: nat
        ensures |OnPages(kept, order)(i)| == |OnPages(front, order)(i)| + if i == last.page then 1 else 0
      {
        NumberedSnoc(front, last, order, i);
      }
      OneMoreEntry(OnPages(front, order), OnPages(kept, order), last.page, n);
    }
  }

  lemma {:induction false} NoneNumbered(kept: seq<Candidate>, page: nat)
    requires forall k :: 0 <= k < |kept| ==> kept[k].page != page
    ensures Numbered(kept, page) == []
  {
    if kept != [] {
      NoneNumbered(kept[..|kept| - 1], page);
    }
  }

  // ---- The loop over the kept figures ----

  function At(m: map<nat, seq<Entry>>, page: nat): seq<Entry> { if page in m then m[page] else [] }

  /** The lists of a map, by page. */
  ghost predicate ByPage(result: map<nat, seq<Entry>>, lists: PageLists) {
    forall page :: At(result, page) == lists(page)
  }

  ghost predicate Arranged(result: map<nat, seq<Entry>>, order: Order) {
    forall page {:trigger order(At(result, page))} :: order(At(result, page)) == At(result, page)
  }

  lemma NumberedStep(kept: seq<Candidate>, i: nat, page: nat)
    requires i < |kept|
    ensures var front := Numbered(kept[..i], page);
      Numbered(kept[..i + 1], page) ==
        if kept[i].page == page then front + [Entry(Embedded(page, |front| + 1), kept[i].data, kept[i].top)] else front
  {
    assert kept[..i + 1][..i] == kept[..i];
  }

  /** The running lists and counters after the kept image objects so far. */
  ghost predicate Lists(result: map<nat, seq<Entry>>, counts: map<nat, nat>, kept: seq<Candidate>) {
    && (forall page :: At(result, page) == Numbered(kept, page))
    && (forall page :: page in counts ==> counts[page] == |At(result, page)|)
    && (forall page :: page in result ==> page in counts)
  }

  lemma ListsStep(result: map<nat, seq<Entry>>, counts: map<nat, nat>, kept: seq<Candidate>, i: nat, entry: Entry)
    requires i < |kept| && Lists(result, counts, kept[..i])
    requires entry == Entry(Embedded(kept[i].page, |At(result, kept[i].page)| + 1), kept[i].data, kept[i].top)
    ensures var page := kept[i].page;
      Lists(result[page := At(result, page) + [entry]], counts[page := |At(result, page)| + 1], kept[..i + 1])
  {
    var page0 := kept[i].page;
    var result' := result[page0 := At(result, page0) + [entry]];
    forall page ensures At(result', page) == Numbered(kept[..i + 1], page) {
      NumberedStep(kept, i, page);
      assert At(result, page) == Numbered(kept[..i], page);
      if page == page0 {
        assert At(result', page) == At(result, page) + [entry];
      } else {
        assert At(result', page) == At(result, page);
      }
    }
  }

  function ArrangeAll(result: map<nat, seq<Entry>>, order: Order): map<nat, seq<Entry>> {
    map page | page in result :: order(result[page])
  }

  /** The kept image objects by page, arranged. */
  method NumberEmbedded(kept: seq<Candidate>, order: Order) returns (result: map<nat, seq<Entry>>)
    requires Arranges(order)
    ensures ByPage(result, OnPages(kept, order)) && Arranged(result, order)
  {
    result := map[];
    var counts: map<nat, nat> := map[];
    for i := 0 to |kept|
      invariant Lists(result, counts, kept[..i])
    {
      var page := kept[i].page;
      var count := (if page in counts then counts[page] else 0) + 1;
      var entry := Entry(Embedded(page, count), kept[i].data, kept[i].top);
      ListsStep(result, counts, kept, i, entry);
      counts := counts[page := count];
      result := result[page := (if page in result then result[page] else []) + [entry]];
    }
    assert kept[..|kept|] == kept;
    ArrangedLists(result, counts, kept, order);
    result := ArrangeAll(result, order);
  }

  lemma ArrangedLists(result: map<nat, seq<Entry>>, counts: map<nat, nat>, kept: seq<Candidate>, order: Order)
    requires Lists(result, counts, kept) && Arranges(order)
    ensures ByPage(ArrangeAll(result, order), OnPages(kept, order)) && Arranged(ArrangeAll(result, order), order)
  {
    var arranged := ArrangeAll(result, order);
    EmptyStays(order);
    forall page: nat ensures At(arranged, page) == order(Numbered(kept, page)) {
      assert At(result, page) == Numbered(kept, page);
    }
    forall page: nat ensures order(At(arranged, page)) == At(arranged, page) {
      assert At(arranged, page) == order(Numbered(kept, page));
    }
  }

  /** From top to bottom, the figures of a page descend, and they are those numbered for it. */
  lemma TopDownDescends(kept: seq<Candidate>, page: nat)
    ensures var figures := OnPages(kept, TopDown())(page);
      && multiset(figures) == multiset(Numbered(kept, page))
      && forall j, k :: 0 <= j < k < |figures| ==> figures[j].top >= figures[k].top
  {
    SortSorts(Numbered(kept, page), FromTop());
    var figures := Sort(Numbered(kept, page), FromTop());
    forall j, k | 0 <= j < k < |figures| ensures figures[j].top >= figures[k].top {
      assert FromTop()(figures[j]) <= FromTop()(figures[k]);
    }
  }
}
