/** The routing of a PDF: which pages become images, which images are stored, and what the document
    says about them.

    Rendering and text extraction are inputs. */
module PdfRouting {
  import opened Seqs
  import opened PdfImages
  import opened PdfFigures
  import opened PdfEmbedded
  import opened PdfDocument

  // ---- The three passes ----

  lemma NothingInjected(lines: seq<string>, style: Style)
    ensures Inject(lines, [], style, |lines|) == Injection(lines, [])
  {
    NoClipsLeft(lines, [], style, 0, |lines|);
  }

  ghost predicate LinesAre(lines: seq<string>, wanted: seq<string>) {
    |lines| == |wanted| && forall k :: 0 <= k < |lines| ==> lines[k] == wanted[k]
  }

  ghost predicate PagesInjected(
    lines: seq<seq<string>>, name: Naming, pages: seq<Page>, style: Style, n: nat)
  {
    |lines| == n <= |pages| &&
    forall i :: 0 <= i < n ==> LinesAre(lines[i], PageInjection(name, pages[i], i, style).out)
  }

  lemma PagesInjectedStep(lines: seq<seq<string>>, page: seq<string>, name: Naming, pages: seq<Page>,
      style: Style, n: nat)
    requires PagesInjected(lines, name, pages, style, n) && n < |pages|
    requires LinesAre(page, PageInjection(name, pages[n], n, style).out)
    ensures PagesInjected(lines + [page], name, pages, style, n + 1)
  {
  }

  lemma {:induction false} InjectedLines(
    lines: seq<seq<string>>, name: Naming, pages: seq<Page>, style: Style, n: nat)
    requires PagesInjected(lines, name, pages, style, n)
    ensures lines == PageLines(name, pages, style, n)
  {
    if n > 0 {
      var front := lines[..n - 1];
      assert PagesInjected(front, name, pages, style, n - 1);
      InjectedLines(front, name, pages, style, n - 1);
      assert lines[n - 1] == PageInjection(name, pages[n - 1], n - 1, style).out;
      assert lines == front + [lines[n - 1]];
    }
  }

  /** The text of a page; a text page has its clips put in. */
  method ReadText(name: Naming, page: Page, i: nat, style: Style) returns (lines: seq<string>)
    ensures LinesAre(lines, PageInjection(name, page, i, style).out)
  {
    lines := page.lines;
    if page.scanned {
      NothingInjected(lines, style);
    } else {
      ghost var spots;
      lines, spots := InjectFigures(lines, ClipPaths(name, page.clips, i), style);
    }
  }

  method StoreClips(name: Naming, page: Page, i: nat, before: map<string, string>,
      ghost done: seq<Entry>, ghost clips: seq<Entry>) returns (images: map<string, string>)
    requires before == Stored(name, done) && IsClips(clips, page, i)
    ensures images == Stored(name, done + clips)
  {
    images := before;
    if page.scanned {
      assert done + clips == done;
    } else {
      assert clips == ClipEntries(page.clips, i);
      images := Store(name, images, ClipEntries(page.clips, i), done);
    }
  }

  /** What is known after the first n pages of pass 1. */
  ghost predicate PagesRead(images: map<string, string>, scanned: seq<nat>, lines: seq<seq<string>>,
      name: Naming, pages: seq<Page>, style: Style, clips: PageLists, n: nat)
  {
    && n <= |pages| && images == Stored(name, Joined(clips, n)) && scanned == ScannedIndices(pages, n)
    && PagesInjected(lines, name, pages, style, n)
  }

  /** A page of pass 1: its clips are stored and put into its text, or it is noted as scanned. */
  method ReadPage(name: Naming, pages: seq<Page>, i: nat, style: Style, images: map<string, string>,
      scanned: seq<nat>, lines: seq<seq<string>>, ghost clips: PageLists)
      returns (images': map<string, string>, scanned': seq<nat>, lines': seq<seq<string>>)
    requires i < |pages| && PagesRead(images, scanned, lines, name, pages, style, clips, i)
    requires IsClips(clips(i), pages[i], i)
    ensures PagesRead(images', scanned', lines', name, pages, style, clips, i + 1)
  {
    images' := StoreClips(name, pages[i], i, images, Joined(clips, i), clips(i));
    var page := ReadText(name, pages[i], i, style);
    lines' := lines + [page];
    PagesInjectedStep(lines, page, name, pages, style, i);
    scanned' := if pages[i].scanned then scanned + [i] else scanned;
  }

  /** Pass 1: the clips of all text pages, the numbers of the scanned pages, the lines of each page. */
  method ReadPages(name: Naming, pages: seq<Page>, style: Style, ghost clips: PageLists)
      returns (images: map<string, string>, scanned: seq<nat>, lines: seq<seq<string>>)
    requires forall i :: 0 <= i < |pages| ==> IsClips(clips(i), pages[i], i)
    ensures PagesRead(images, scanned, lines, name, pages, style, clips, |pages|)
  {
    images, scanned, lines := map[], [], [];
    for i := 0 to |pages|
      invariant PagesRead(images, scanned, lines, name, pages, style, clips, i)
    {
      images, scanned, lines := ReadPage(name, pages, i, style, images, scanned, lines, clips);
    }
  }

  function Rendered(pages: seq<Page>, indices: seq<nat>): (r: seq<Entry>)
    requires AllBelow(indices, |pages|)
    ensures |r| == |indices| && forall k :: 0 <= k < |r| ==> r[k] == Rendering(pages[indices[k]], indices[k])
  {
    seq(|indices|, k requires 0 <= k < |indices| => Rendering(pages[indices[k]], indices[k]))
  }

  lemma RenderedStep(pages: seq<Page>, indices: seq<nat>, i: nat)
    requires AllBelow(indices, i) && i < |pages|
    ensures Rendered(pages, indices + [i]) == Rendered(pages, indices) + [Rendering(pages[i], i)]
  {
  }

  lemma {:induction false} RenderedIsJoined(pages: seq<Page>, n: nat)
    requires n <= |pages|
    ensures AllBelow(ScannedIndices(pages, n), |pages|)
    ensures Rendered(pages, ScannedIndices(pages, n)) == Joined(RenderedLists(pages), n)
  {
    ScannedIndicesBelow(pages, n);
    if n > 0 {
      RenderedIsJoined(pages, n - 1);
      ScannedIndicesBelow(pages, n - 1);
      if pages[n - 1].scanned {
        RenderedStep(pages, ScannedIndices(pages, n - 1), n - 1);
        assert RenderedLists(pages)(n - 1) == [Rendering(pages[n - 1], n - 1)];
      } else {
        assert RenderedLists(pages)(n - 1) == [];
        assert Joined(RenderedLists(pages), n) == Joined(RenderedLists(pages), n - 1);
      }
    }
  }

  method CollectMeta(pages: seq<Page>) returns (meta: seq<Candidate>)
    ensures meta == Meta(pages, |pages|)
  {
    meta := [];
    for i := 0 to |pages|
      invariant meta == Meta(pages, i)
    {
      if !pages[i].scanned {
        meta := meta + pages[i].pictures;
      }
    }
  }

  method PickEmbedded(meta: seq<Candidate>, textPages: nat, limits: Limits) returns (kept: seq<Candidate>)
    ensures kept == KeptOf(meta, textPages, limits)
  {
    var indices := SelectEmbeddedImages(meta, textPages, limits);
    kept := Picked(meta, indices);
  }

  method KeptEmbedded(pages: seq<Page>, textPages: nat, p: Policy) returns (kept: seq<Candidate>)
    requires p.extract && textPages == |pages| - |ScannedIndices(pages, |pages|)|
    ensures kept == Kept(pages, p)
  {
    var meta := CollectMeta(pages);
    kept := PickEmbedded(meta, textPages, p.limits);
  }

  lemma NoLists(pages: seq<Page>, p: Policy)
    requires Arranges(p.order) && !p.extract
    ensures ByPage(map[], EmbeddedLists(pages, p)) && Arranged(map[], p.order)
  {
    EmptyStays(p.order);
    forall page: nat ensures At(map[], page) == EmbeddedLists(pages, p)(page) {
      assert Numbered([], page) == [];
    }
  }

  method ExtractEmbedded(pages: seq<Page>, textPages: nat, p: Policy) returns (result: map<nat, seq<Entry>>)
    requires Arranges(p.order) && textPages == |pages| - |ScannedIndices(pages, |pages|)|
    ensures ByPage(result, EmbeddedLists(pages, p)) && Arranged(result, p.order)
  {
    if !p.extract {
      NoLists(pages, p);
      return map[];
    }
    var kept := KeptEmbedded(pages, textPages, p);
    result := NumberEmbedded(kept, p.order);
  }

  /** Pass 3: the embedded figures, page by page. */
  method StoreEmbedded(name: Naming, n: nat, embedded: map<nat, seq<Entry>>, before: map<string, string>,
      ghost done: seq<Entry>, ghost lists: PageLists) returns (images: map<string, string>)
    requires before == Stored(name, done)
    requires ByPage(embedded, lists)
    ensures images == Stored(name, done + Joined(lists, n))
  {
    images := before;
    ghost var stored := done;
    for i := 0 to n
      invariant stored == done + Joined(lists, i)
      invariant images == Stored(name, stored)
    {
      images := Store(name, images, At(embedded, i), stored);
      MovedAll(done, Joined(lists, i), lists(i));
      stored := stored + lists(i);
    }
  }

  method AssemblePage(name: Naming, page: Page, i: nat, text: string, embedded: map<nat, seq<Entry>>, order: Order)
      returns (blocks: seq<Block>, count: nat)
    requires Arranged(embedded, order)
    ensures blocks == PageBlocks(name, page, i, text, At(embedded, i))
    ensures count == if page.scanned then 0 else |At(embedded, i)|
  {
    if page.scanned {
      return [Link(name(Scanned(i)))], 0;
    }
    blocks := if text != "" then [TextBlock(text)] else [];
    var onPage := order(At(embedded, i));
    blocks := blocks + Links(name, onPage);
    count := |onPage|;
  }

  /** What is known after the first n pages of the assembly. */
  ghost predicate PagesShown(blocks: seq<Block>, embeddedCount: nat, figureCount: nat,
      name: Naming, pages: seq<Page>, texts: seq<string>, lists: PageLists, n: nat)
  {
    && n <= |pages| == |texts| && blocks == Assembled(name, pages, texts, lists, n)
    && embeddedCount == ShownFigures(pages, lists, n) && figureCount == ClipCount(pages, n)
  }

  lemma NothingShown(name: Naming, pages: seq<Page>, texts: seq<string>, lists: PageLists)
    requires |texts| == |pages|
    ensures PagesShown([], 0, 0, name, pages, texts, lists, 0)
  {
  }

  lemma PagesShownStep(blocks: seq<Block>, embeddedCount: nat, figureCount: nat,
      name: Naming, pages: seq<Page>, texts: seq<string>, lists: PageLists, n: nat, page: seq<Block>, count: nat)
    requires n < |pages| && PagesShown(blocks, embeddedCount, figureCount, name, pages, texts, lists, n)
    requires page == PageBlocks(name, pages[n], n, texts[n], lists(n))
    requires count == if pages[n].scanned then 0 else |lists(n)|
    ensures PagesShown(
      blocks + page, embeddedCount + count, figureCount + ClipsOn(pages[n]), name, pages, texts, lists, n + 1)
  {
  }

  /** The next page of the assembly. */
  method AssembleNext(name: Naming, pages: seq<Page>, texts: seq<string>, embedded: map<nat, seq<Entry>>, order: Order,
      ghost lists: PageLists, i: nat, blocks: seq<Block>, embeddedCount: nat, figureCount: nat)
      returns (blocks': seq<Block>, embeddedCount': nat, figureCount': nat)
    requires ByPage(embedded, lists) && Arranged(embedded, order) && i < |pages|
    requires PagesShown(blocks, embeddedCount, figureCount, name, pages, texts, lists, i)
    ensures PagesShown(blocks', embeddedCount', figureCount', name, pages, texts, lists, i + 1)
  {
    var page, count := AssemblePage(name, pages[i], i, texts[i], embedded, order);
    PagesShownStep(blocks, embeddedCount, figureCount, name, pages, texts, lists, i, page, count);
    blocks', embeddedCount', figureCount' := blocks + page, embeddedCount + count, figureCount + ClipsOn(pages[i]);
  }

  /** The blocks of all pages, and the numbers of embedded and of vector figures. */
  method Assemble(name: Naming, pages: seq<Page>, texts: seq<string>, embedded: map<nat, seq<Entry>>,
      order: Order, ghost lists: PageLists) returns (blocks: seq<Block>, embeddedCount: nat, figureCount: nat)
    requires ByPage(embedded, lists) && Arranged(embedded, order) && |texts| == |pages|
    ensures PagesShown(blocks, embeddedCount, figureCount, name, pages, texts, lists, |pages|)
  {
    blocks, embeddedCount, figureCount := [], 0, 0;
    NothingShown(name, pages, texts, lists);
    for i := 0 to |pages|
      invariant PagesShown(blocks, embeddedCount, figureCount, name, pages, texts, lists, i)
    {
      blocks, embeddedCount, figureCount :=
        AssembleNext(name, pages, texts, embedded, order, lists, i, blocks, embeddedCount, figureCount);
    }
  }

  function ClipsOn(page: Page): nat { if page.scanned then 0 else |page.clips| }

  /** The number of clips of the first n pages. */
  function ClipCount(pages: seq<Page>, n: nat): nat
    requires n <= |pages|
  {
    if n == 0 then 0 else ClipCount(pages, n - 1) + ClipsOn(pages[n - 1])
  }

  /** The number of embedded figures shown on the first n pages. */
  function ShownFigures(pages: seq<Page>, lists: PageLists, n: nat): nat
    requires n <= |pages|
  {
    if n == 0 then 0
    else ShownFigures(pages, lists, n - 1) + if pages[n - 1].scanned then 0 else |lists(n - 1)|
  }

  lemma {:induction false} ShownAreStored(pages: seq<Page>, lists: PageLists, n: nat)
    requires n <= |pages| && forall i :: 0 <= i < |pages| && pages[i].scanned ==> lists(i) == []
    ensures ShownFigures(pages, lists, n) == |Joined(lists, n)|
  {
    if n > 0 {
      ShownAreStored(pages, lists, n - 1);
    }
  }

  lemma {:induction false} ClipsAreStored(pages: seq<Page>, n: nat)
    requires n <= |pages|
    ensures ClipCount(pages, n) == |Joined(ClipLists(pages), n)|
  {
    if n > 0 {
      ClipsAreStored(pages, n - 1);
    }
  }

  lemma NoneOnScanned(pages: seq<Page>, p: Policy)
    requires WellFormed(pages) && Fair(p)
    ensures forall i :: 0 <= i < |pages| && pages[i].scanned ==> EmbeddedLists(pages, p)(i) == []
  {
    KeptPages(pages, p);
    EmptyStays(p.order);
    forall i | 0 <= i < |pages| && pages[i].scanned ensures EmbeddedLists(pages, p)(i) == [] {
      NoneNumbered(Kept(pages, p), i);
    }
  }

  lemma RouteFacts(pages: seq<Page>, texts: seq<string>, p: Policy)
    requires WellFormed(pages) && Fair(p) && |texts| == |pages|
    ensures var images, lists := Stored(p.name, Entries(pages, p)), EmbeddedLists(pages, p);
      && |Joined(lists, |pages|)| == |Kept(pages, p)|
      && |images| == |ScannedIndices(pages, |pages|)| + |Kept(pages, p)| + |Joined(ClipLists(pages), |pages|)|
      && (forall path :: Link(path) in Assembled(p.name, pages, texts, lists, |pages|) ==> path in images)
      && forall i :: 0 <= i < |pages| ==> InjectedLinksAreImages(images, p.name, pages[i], i, p.style)
  {
    ImagesAddUp(pages, p);
    KeptPages(pages, p);
    EmbeddedCount(Kept(pages, p), p.order, |pages|);
    forall path | Link(path) in Assembled(p.name, pages, texts, EmbeddedLists(pages, p), |pages|)
      ensures path in Stored(p.name, Entries(pages, p))
    {
      LinksAreImages(pages, texts, p, path);
    }
    forall i | 0 <= i < |pages|
      ensures InjectedLinksAreImages(Stored(p.name, Entries(pages, p)), p.name, pages[i], i, p.style)
    {
      InjectedAreImages(pages, p, i);
    }
  }

  lemma AllImages(pages: seq<Page>, p: Policy)
    requires WellFormed(pages) && Fair(p)
    ensures forall i :: 0 <= i < |pages| ==>
      ImagesOfPage(Stored(p.name, Entries(pages, p)), p.name, pages[i], i, EmbeddedLists(pages, p)(i))
  {
    forall i | 0 <= i < |pages|
      ensures ImagesOfPage(Stored(p.name, Entries(pages, p)), p.name, pages[i], i, EmbeddedLists(pages, p)(i))
    {
      ImagesMeaning(pages, p, i);
    }
  }

  /** Passes 2 and 3: the renderings of the scanned pages and the embedded figures of the others. */
  method StorePasses(pages: seq<Page>, p: Policy, before: map<string, string>, scanned: seq<nat>)
      returns (images: map<string, string>, embedded: map<nat, seq<Entry>>)
    requires Fair(p)
    requires before == Stored(p.name, Joined(ClipLists(pages), |pages|)) && scanned == ScannedIndices(pages, |pages|)
    ensures images == Stored(p.name, Entries(pages, p))
    ensures ByPage(embedded, EmbeddedLists(pages, p)) && Arranged(embedded, p.order)
  {
    ghost var clips, rendered := Joined(ClipLists(pages), |pages|), Joined(RenderedLists(pages), |pages|);
    RenderedIsJoined(pages, |pages|);
    images := Store(p.name, before, Rendered(pages, scanned), clips);
    embedded := ExtractEmbedded(pages, |pages| - |scanned|, p);
    images := StoreEmbedded(p.name, |pages|, embedded, images, clips + rendered, EmbeddedLists(pages, p));
  }

  datatype Counts = Counts(pages: nat, scanned: nat, text: nat, embedded: nat, figures: nat)

  /** The three passes over a document, and the assembly. */
  method Route(pages: seq<Page>, p: Policy)
      returns (images: map<string, string>, blocks: seq<Block>, counts: Counts)
    requires WellFormed(pages) && Fair(p)
    ensures images == Stored(p.name, Entries(pages, p))
    ensures blocks == Assembled(p.name, pages, Texts(pages, p), EmbeddedLists(pages, p), |pages|)
    ensures counts.pages == |pages| && counts.scanned == |ScannedIndices(pages, |pages|)|
    ensures counts.text == counts.pages - counts.scanned && counts.embedded == |Kept(pages, p)|
    ensures counts.figures == ClipCount(pages, |pages|)
    ensures |images| == counts.scanned + counts.embedded + counts.figures
    ensures forall path :: Link(path) in blocks ==> path in images
    ensures forall i :: 0 <= i < |pages| ==> InjectedLinksAreImages(images, p.name, pages[i], i, p.style)
    ensures ShowsPages(blocks, p.name, pages, Texts(pages, p), EmbeddedLists(pages, p))
    ensures forall i :: 0 <= i < |pages| ==> ImagesOfPage(images, p.name, pages[i], i, EmbeddedLists(pages, p)(i))
  {
    var scanned, lines, embedded, embeddedCount, figureCount;
    ClipListsAre(pages);
    images, scanned, lines := ReadPages(p.name, pages, p.style, ClipLists(pages));
    images, embedded := StorePasses(pages, p, images, scanned);
    InjectedLines(lines, p.name, pages, p.style, |pages|);
    var texts := Finished(lines, p.finish);
    NoneOnScanned(pages, p);
    blocks, embeddedCount, figureCount :=
      Assemble(p.name, pages, texts, embedded, p.order, EmbeddedLists(pages, p));
    ShownAreStored(pages, EmbeddedLists(pages, p), |pages|);
    ClipsAreStored(pages, |pages|);
    counts := Counts(|pages|, |scanned|, |pages| - |scanned|, embeddedCount, figureCount);
    RouteFacts(pages, texts, p);
    AssembledShowsPages(p.name, pages, texts, EmbeddedLists(pages, p));
    AllImages(pages, p);
  }

  /** The policy of the source for a document of that name. */
  function SourcePolicy(
    base: string, limits: Limits, extract: bool, caption: string -> bool, finish: Finish): Policy
  {
    Policy(Paths(base), TopDown(), Markdown(caption), limits, extract, finish)
  }

  lemma SourceIsFair(base: string, limits: Limits, extract: bool, caption: string -> bool, finish: Finish)
    ensures Fair(SourcePolicy(base, limits, extract, caption, finish))
  {
    PathsDiffer(base);
    TopDownArranges();
  }

  /** The source's own routing: its names, its order of figures, its image lines. */
  method RouteLocked(
      base: string, pages: seq<Page>, limits: Limits, extract: bool, caption: string -> bool, finish: Finish)
      returns (images: map<string, string>, blocks: seq<Block>, counts: Counts)
    requires WellFormed(pages)
    ensures var p := SourcePolicy(base, limits, extract, caption, finish);
      && images == Stored(p.name, Entries(pages, p))
      && blocks == Assembled(p.name, pages, Texts(pages, p), EmbeddedLists(pages, p), |pages|)
      && counts.embedded == |Kept(pages, p)|
      && ShowsPages(blocks, p.name, pages, Texts(pages, p), EmbeddedLists(pages, p))
      && (forall i :: 0 <= i < |pages| ==> ImagesOfPage(images, p.name, pages[i], i, EmbeddedLists(pages, p)(i)))
      && forall i :: 0 <= i < |pages| ==> InjectedLinksAreImages(images, p.name, pages[i], i, p.style)
    ensures counts.pages == |pages| && counts.scanned == |ScannedIndices(pages, |pages|)|
    ensures counts.text == counts.pages - counts.scanned && counts.figures == ClipCount(pages, |pages|)
    ensures |images| == counts.scanned + counts.embedded + counts.figures
    ensures forall path :: Link(path) in blocks ==> path in images
  {
    SourceIsFair(base, limits, extract, caption, finish);
    images, blocks, counts := Route(pages, SourcePolicy(base, limits, extract, caption, finish));
  }
}
