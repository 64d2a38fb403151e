/** The pages of a DOCX document: which paragraphs belong to which page, and which are processed. */
module DocxPaging {
  import opened Seqs

  // The file itself has no pages, so a document of more than `LARGE` paragraphs is cut every
  // `PER_PAGE` paragraphs, and a smaller one after every paragraph holding a page break.

  const LARGE: nat := 1000
  const PER_PAGE: nat := 25

  type PageMap = map<nat, seq<nat>>

  function Min(a: int, b: int): int { if a <= b then a else b }

  /** The indices from lo up to hi, hi excluded. */
  function Range(lo: nat, hi: nat): (r: seq<nat>)
    ensures |r| == if lo <= hi then hi - lo else 0
    ensures forall i :: 0 <= i < |r| ==> r[i] == lo + i
  {
    seq(if lo <= hi then hi - lo else 0, i requires 0 <= i => lo + i)
  }

  /** The number of page breaks in front of paragraph p. */
  function BreaksBefore(breaks: seq<bool>, p: nat): nat
    requires p <= |breaks|
  {
    if p == 0 then 0 else BreaksBefore(breaks, p - 1) + if breaks[p - 1] then 1 else 0
  }

  /** The page of paragraph p; `breaks[p]` says whether p holds a page break. */
  function PageOf(breaks: seq<bool>, p: nat): nat
    requires p <= |breaks|
  {
    if |breaks| > LARGE then p / PER_PAGE else BreaksBefore(breaks, p)
  }

  lemma {:induction false} BreaksCounted(breaks: seq<bool>, p: nat)
    requires p <= |breaks|
    ensures BreaksBefore(breaks, p) == multiset(breaks[..p])[true]
  {
    if p > 0 {
      BreaksCounted(breaks, p - 1);
      assert breaks[..p] == breaks[..p - 1] + [breaks[p - 1]];
    }
  }

  /** In a document of more than a thousand paragraphs every page has twenty-five; in any other one the
      page of a paragraph is the number of breaks above it. */
  lemma PageNumbers(breaks: seq<bool>, p: nat)
    requires p < |breaks|
    ensures |breaks| > 1000 ==> 25 * PageOf(breaks, p) <= p < 25 * (PageOf(breaks, p) + 1)
    ensures |breaks| <= 1000 ==> PageOf(breaks, p) == multiset(breaks[..p])[true]
  {
    BreaksCounted(breaks, p);
  }

  /** The first paragraph at or after n that does not lie in front of page k. */
  function ReachFrom(breaks: seq<bool>, k: int, n: nat): (r: nat)
    requires n <= |breaks|
    ensures n <= r <= |breaks|
    decreases |breaks| - n
  {
    if n < |breaks| && PageOf(breaks, n) < k then ReachFrom(breaks, k, n + 1) else n
  }

  function Reach(breaks: seq<bool>, k: int): (r: nat)
    ensures r <= |breaks|
  {
    ReachFrom(breaks, k, 0)
  }

  lemma {:induction false} PagesAscend(breaks: seq<bool>, p: nat, q: nat)
    requires p <= q <= |breaks|
    ensures PageOf(breaks, p) <= PageOf(breaks, q)
    decreases q - p
  {
    if p < q {
      PagesAscend(breaks, p, q - 1);
    }
  }

  /** `Reach` cuts the document: in front of it are exactly the paragraphs of the pages below k. */
  lemma {:induction false} ReachCuts(breaks: seq<bool>, k: int, n: nat, p: nat)
    requires n <= p < |breaks|
    ensures p < ReachFrom(breaks, k, n) <==> PageOf(breaks, p) < k
    decreases |breaks| - n
  {
    PagesAscend(breaks, n, p);
    if PageOf(breaks, n) < k && n < p {
      ReachCuts(breaks, k, n + 1, p);
    }
  }

  lemma ReachAscends(breaks: seq<bool>, j: int, k: int)
    requires j <= k
    ensures Reach(breaks, j) <= Reach(breaks, k)
  {
    if Reach(breaks, k) < Reach(breaks, j) {
      var p := Reach(breaks, k);
      ReachCuts(breaks, j, 0, p);
      ReachCuts(breaks, k, 0, p);
    }
  }

  // ---- The page map ----

  function PageAt(pages: PageMap, k: nat): seq<nat> { if k in pages then pages[k] else [] }

  /** The paragraphs of page k among the first m paragraphs. */
  function OnPage(breaks: seq<bool>, m: nat, k: nat): seq<nat> {
    Range(Min(Reach(breaks, k), m), Min(Reach(breaks, k + 1), m))
  }

  /** `OnPage` lists, in order, exactly the paragraphs whose page is k. */
  lemma OnPageMeans(breaks: seq<bool>, m: nat, k: nat, p: nat)
    requires m <= |breaks|
    ensures p in OnPage(breaks, m, k) <==> p < m && PageOf(breaks, p) == k
  {
    var lo, hi := Min(Reach(breaks, k), m), Min(Reach(breaks, k + 1), m);
    ReachAscends(breaks, k, k + 1);
    assert p in Range(lo, hi) <==> lo <= p < hi by {
      if lo <= p < hi {
        assert Range(lo, hi)[p - lo] == p;
      }
    }
    if p < m {
      ReachCuts(breaks, k, 0, p);
      ReachCuts(breaks, k + 1, 0, p);
    }
  }

  /** One more paragraph is appended to its own page and changes no other. */
  lemma OnPageGrows(breaks: seq<bool>, n: nat, k: nat)
    requires n < |breaks|
    ensures OnPage(breaks, n + 1, k) == OnPage(breaks, n, k) + if PageOf(breaks, n) == k then [n] else []
  {
    ReachAscends(breaks, k, k + 1);
    ReachCuts(breaks, k, 0, n);
    ReachCuts(breaks, k + 1, 0, n);
  }

  ghost predicate Mapped(breaks: seq<bool>, pages: PageMap, n: nat) {
    forall k: nat :: PageAt(pages, k) == OnPage(breaks, n, k)
  }

  lemma MappedGrows(breaks: seq<bool>, pages: PageMap, n: nat)
    requires n < |breaks| && Mapped(breaks, pages, n)
    ensures Mapped(breaks, pages[PageOf(breaks, n) := PageAt(pages, PageOf(breaks, n)) + [n]], n + 1)
  {
    var k0 := PageOf(breaks, n);
    var grown := pages[k0 := PageAt(pages, k0) + [n]];
    forall k: nat ensures PageAt(grown, k) == OnPage(breaks, n + 1, k) {
      OnPageGrows(breaks, n, k);
    }
  }

  /** How many paragraphs are mapped when pages above maxPage are given up. The large-document
      branch tests the limit in front of a paragraph, the other one only after a page break. */
  function MappedCount(breaks: seq<bool>, maxPage: int): (m: nat)
    ensures m <= |breaks|
  {
    Reach(breaks, (if |breaks| > LARGE || maxPage >= 0 then maxPage else 0) + 1)
  }

  /** A paragraph is mapped if and only if its page is within the limit; in a document of at most a
      thousand paragraphs page 0 is mapped under any limit. */
  lemma MappedIff(breaks: seq<bool>, maxPage: int, p: nat)
    requires p < |breaks|
    ensures p < MappedCount(breaks, maxPage) <==>
      PageOf(breaks, p) <= maxPage || (|breaks| <= 1000 && PageOf(breaks, p) == 0)
  {
    ReachCuts(breaks, (if |breaks| > LARGE || maxPage >= 0 then maxPage else 0) + 1, 0, p);
  }

  method MapLarge(breaks: seq<bool>, maxPage: int) returns (pages: PageMap)
    requires |breaks| > LARGE
    ensures Mapped(breaks, pages, MappedCount(breaks, maxPage))
    ensures forall k :: k in pages <==> k == 0 || OnPage(breaks, MappedCount(breaks, maxPage), k) != []
  {
    pages := map[0 := []];
    var n := 0;
    while n < |breaks|
      invariant n <= |breaks| && Mapped(breaks, pages, n)
      invariant n <= MappedCount(breaks, maxPage)
      invariant forall k :: k in pages <==> k == 0 || PageAt(pages, k) != []
    {
      ReachCuts(breaks, maxPage + 1, 0, n);
      var page := n / PER_PAGE;
      if page > maxPage {
        break;
      }
      MappedGrows(breaks, pages, n);
      if page !in pages {
        pages := pages[page := []];
      }
      pages := pages[page := pages[page] + [n]];
      n := n + 1;
    }
    assert n == MappedCount(breaks, maxPage);
  }

  /** A paragraph within the limit is mapped; when it also ends the last page, it is the last one. */
  lemma MappedUpTo(breaks: seq<bool>, limit: nat, n: nat)
    requires |breaks| <= LARGE && n < |breaks| && PageOf(breaks, n) <= limit
    ensures n < Reach(breaks, limit + 1)
    ensures PageOf(breaks, n + 1) == PageOf(breaks, n) + if breaks[n] then 1 else 0
    ensures PageOf(breaks, n + 1) > limit ==> Reach(breaks, limit + 1) == n + 1
  {
    ReachCuts(breaks, limit + 1, 0, n);
    if n + 1 < |breaks| {
      ReachCuts(breaks, limit + 1, 0, n + 1);
    }
  }

  method MapByBreaks(breaks: seq<bool>, maxPage: int) returns (pages: PageMap)
    requires |breaks| <= LARGE
    ensures Mapped(breaks, pages, MappedCount(breaks, maxPage))
  {
    ghost var limit := if maxPage >= 0 then maxPage else 0;
    ghost var m := Reach(breaks, limit + 1);
    var current := 0;
    pages := map[current := []];
    var n := 0;
    while n < |breaks|
      invariant n <= m && Mapped(breaks, pages, n)
      invariant current == PageOf(breaks, n) <= limit && current in pages
    {
      MappedUpTo(breaks, limit, n);
      MappedGrows(breaks, pages, n);
      pages := pages[current := pages[current] + [n]];
      n := n + 1;
      if breaks[n - 1] {
        current := current + 1;
        if current > maxPage {
          assert n == m;
          break;
        }
        if current !in pages {
          pages := pages[current := []];
        }
      }
    }
    assert n == m;
  }

  /** The page map lists every paragraph up to the limit on its page, in document order, and has no
      empty page except page 0 of a document of which nothing is mapped. */
  method IdentifyMapping(breaks: seq<bool>, maxPage: int) returns (pages: PageMap)
    ensures Mapped(breaks, pages, MappedCount(breaks, maxPage))
    ensures forall k :: k in pages <==>
      OnPage(breaks, MappedCount(breaks, maxPage), k) != [] || (k == 0 && MappedCount(breaks, maxPage) == 0)
  {
    ghost var m := MappedCount(breaks, maxPage);
    if |breaks| > LARGE {
      pages := MapLarge(breaks, maxPage);
      return;
    }
    pages := MapByBreaks(breaks, maxPage);
    ghost var before := pages;
    pages := map k | k in pages && pages[k] != [] :: pages[k];
    assert forall k: nat :: PageAt(pages, k) == PageAt(before, k);
    if m > 0 {
      assert PageAt(pages, 0) != [];
    } else {
      assert forall k: nat :: PageAt(pages, k) == OnPage(breaks, m, k) == [];
      assert forall k :: k in pages ==> PageAt(pages, k) != [];
      assert pages.Keys == {};
    }
    if |pages| == 0 {
      pages := pages[0 := Range(0, |breaks|)];
    }
  }

  // ---- What the pages are together ----

  /** What `sorted(mapping.keys())` returns. */
  ghost predicate ListsKeys(ks: seq<nat>, pages: PageMap) {
    Ascending(ks) && forall k :: k in ks <==> k in pages
  }

  function Contents(ks: seq<nat>, pages: PageMap): seq<seq<nat>> {
    seq(|ks|, i requires 0 <= i < |ks| => PageAt(pages, ks[i]))
  }

  predicate InWindow(fromPage: int, toPage: int, k: nat) { fromPage <= k < toPage }

  function Window(fromPage: int, toPage: int): nat -> bool { (k: nat) => InWindow(fromPage, toPage, k) }

  method ApplyPageLimit(allPages: seq<nat>, fromPage: int, toPage: int) returns (pages: seq<nat>)
    ensures pages == Filter(allPages, Window(fromPage, toPage))
  {
    pages := [];
    for i := 0 to |allPages|
      invariant pages == Filter(allPages[..i], Window(fromPage, toPage))
    {
      FilterAppend(allPages[..i], [allPages[i]], Window(fromPage, toPage));
      assert allPages[..i + 1] == allPages[..i] + [allPages[i]];
      if fromPage <= allPages[i] < toPage {
        pages := pages + [allPages[i]];
      }
    }
    assert allPages[..|allPages|] == allPages;
  }

  lemma {:induction false} FilterAscending(ks: seq<nat>, p: nat -> bool)
    requires Ascending(ks)
    ensures Ascending(Filter(ks, p))
  {
    if ks != [] {
      FilterAscending(ks[1..], p);
      var rest := Filter(ks[1..], p);
      forall j | 0 <= j < |rest| ensures ks[0] < rest[j] {
        FilterMember(ks[1..], p, rest[j]);
      }
    }
  }

  lemma NoKeys(ks: seq<nat>, pages: PageMap, lo: nat)
    requires forall k :: k in ks ==> lo <= k < lo
    ensures ks == [] && Contents(ks, pages) == []
  {
    FirstIsMember(ks);
  }

  lemma FirstIsMember<T>(s: seq<T>)
    ensures s == [] || s[0] in s
  {
  }

  /** Pages that are listed in ascending order and leave out only empty pages between lo and hi
      hold, one after the other, the paragraphs from the first of page lo to the last below page hi. */
  lemma {:induction false} PagesTile(breaks: seq<bool>, pages: PageMap, m: nat, ks: seq<nat>, lo: nat, hi: nat)
    requires Mapped(breaks, pages, m) && Ascending(ks) && lo <= hi
    requires forall k :: k in ks ==> lo <= k < hi
    requires forall k :: lo <= k < hi && k !in ks ==> OnPage(breaks, m, k) == []
    ensures Flatten(Contents(ks, pages)) == Range(Min(Reach(breaks, lo), m), Min(Reach(breaks, hi), m))
    decreases hi - lo
  {
    if lo == hi {
      NoKeys(ks, pages, lo);
    } else {
      ReachAscends(breaks, lo, lo + 1);
      ReachAscends(breaks, lo + 1, hi);
      if lo in ks {
        var rest := ks[1..];
        RestOfKeys(ks);
        assert ks[0] == lo by { assert ks[0] in ks; }
        PagesTile(breaks, pages, m, rest, lo + 1, hi);
        FirstPageApart(ks, pages);
        assert PageAt(pages, lo) == OnPage(breaks, m, lo);
        RangesJoin(Min(Reach(breaks, lo), m), Min(Reach(breaks, lo + 1), m), Min(Reach(breaks, hi), m));
      } else {
        assert OnPage(breaks, m, lo) == [];
        PagesTile(breaks, pages, m, ks, lo + 1, hi);
      }
    }
  }

  lemma FirstPageApart(ks: seq<nat>, pages: PageMap)
    requires ks != []
    ensures Flatten(Contents(ks, pages)) == PageAt(pages, ks[0]) + Flatten(Contents(ks[1..], pages))
  {
    assert Contents(ks, pages)[1..] == Contents(ks[1..], pages);
  }

  lemma RangesJoin(a: nat, b: nat, c: nat)
    requires a <= b <= c
    ensures Range(a, b) + Range(b, c) == Range(a, c)
  {
  }

  lemma RestOfKeys(ks: seq<nat>)
    requires Ascending(ks) && ks != []
    ensures Ascending(ks[1..])
    ensures forall k :: k in ks[1..] <==> k in ks && k != ks[0]
    ensures forall k :: k in ks ==> ks[0] <= k
  {
    forall k ensures k in ks[1..] <==> k in ks && k != ks[0] {
      if k in ks[1..] {
        var i :| 0 <= i < |ks[1..]| && ks[1..][i] == k;
        assert ks[0] < ks[i + 1];
      }
    }
  }

  lemma Bounded(ks: seq<nat>) returns (hi: nat)
    requires Ascending(ks)
    ensures forall k :: k in ks ==> k < hi
  {
    hi := if ks == [] then 0 else ks[|ks| - 1] + 1;
    forall k | k in ks ensures k < hi {
      var i :| 0 <= i < |ks| && ks[i] == k;
      if i < |ks| - 1 {
        assert ks[i] < ks[|ks| - 1];
      }
    }
  }

  /** All pages together, in page order, hold the paragraphs 0, 1, …, m - 1 once each and in order. */
  lemma MapTilesDocument(breaks: seq<bool>, maxPage: int, pages: PageMap, ks: seq<nat>)
    requires Mapped(breaks, pages, MappedCount(breaks, maxPage)) && ListsKeys(ks, pages)
    ensures Flatten(Contents(ks, pages)) == Range(0, MappedCount(breaks, maxPage))
  {
    var m := MappedCount(breaks, maxPage);
    var hi := Bounded(ks);
    var top := hi + PageOf(breaks, |breaks|) + 1;
    AllPagesBelow(breaks, top);
    forall k: nat | k !in ks ensures OnPage(breaks, m, k) == [] {
      assert PageAt(pages, k) == OnPage(breaks, m, k);
    }
    PagesTile(breaks, pages, m, ks, 0, top);
  }

  lemma AllPagesBelow(breaks: seq<bool>, top: nat)
    requires top > PageOf(breaks, |breaks|)
    ensures Reach(breaks, top) == |breaks|
  {
    var r := Reach(breaks, top);
    if r < |breaks| {
      PagesAscend(breaks, r, |breaks|);
      ReachCuts(breaks, top, 0, r);
    }
  }

  /** No paragraph is missing from the map iff the last paragraph lies on a page within the limit. */
  lemma MapComplete(breaks: seq<bool>, maxPage: int)
    requires breaks != []
    ensures MappedCount(breaks, maxPage) == |breaks| <==>
            PageOf(breaks, |breaks| - 1) <= (if |breaks| > LARGE || maxPage >= 0 then maxPage else 0)
  {
    ReachCuts(breaks, (if |breaks| > LARGE || maxPage >= 0 then maxPage else 0) + 1, 0, |breaks| - 1);
  }

  /** What is processed after the page limit is a contiguous stretch of the document: it starts
      with the first paragraph of page fromPage and ends in front of page toPage. */
  lemma ProcessedStretch(breaks: seq<bool>, maxPage: int, pages: PageMap, ks: seq<nat>, fromPage: nat, toPage: nat)
    requires Mapped(breaks, pages, MappedCount(breaks, maxPage)) && ListsKeys(ks, pages) && fromPage <= toPage
    ensures var m := MappedCount(breaks, maxPage);
            Flatten(Contents(Filter(ks, Window(fromPage, toPage)), pages))
              == Range(Min(Reach(breaks, fromPage), m), Min(Reach(breaks, toPage), m))
  {
    var m := MappedCount(breaks, maxPage);
    var kept := Filter(ks, Window(fromPage, toPage));
    FilterAscending(ks, Window(fromPage, toPage));
    forall k: nat ensures k in kept <==> k in ks && fromPage <= k < toPage {
      FilterMember(ks, Window(fromPage, toPage), k);
    }
    forall k: nat | fromPage <= k < toPage && k !in kept ensures OnPage(breaks, m, k) == [] {
      assert PageAt(pages, k) == OnPage(breaks, m, k);
    }
    PagesTile(breaks, pages, m, kept, fromPage, toPage);
  }

  /** The parser starts at page 0 and uses one number as both limits: what it processes is the
      prefix of the document lying in front of that page. */
  lemma ProcessedPrefix(breaks: seq<bool>, toPage: nat, pages: PageMap, ks: seq<nat>)
    requires Mapped(breaks, pages, MappedCount(breaks, toPage)) && ListsKeys(ks, pages)
    ensures Flatten(Contents(Filter(ks, Window(0, toPage)), pages)) == Range(0, Reach(breaks, toPage))
  {
    ProcessedStretch(breaks, toPage, pages, ks, 0, toPage);
    ReachAscends(breaks, toPage, toPage + 1);
  }
}
