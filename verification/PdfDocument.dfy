/** What a routed PDF is: its images, its texts, and the document that shows them. */
module PdfDocument {
  import opened Seqs
  import opened PdfImages
  import opened PdfFigures
  import opened PdfEmbedded

  // ---- The pages of a document ----

  /** The clip of a vector figure, numbered by its caption. */
  datatype Clip = Clip(number: nat, data: string, top: real)

  /** What is read from a page: its class, the lines of its text, its rendering, the figure clips and
      the image objects found on it. */
  datatype Page = Page(
    scanned: bool, lines: seq<string>, rendering: string, clips: seq<Clip>, pictures: seq<Candidate>)

  /** Image objects carry their page, and clips are numbered by ascending caption. */
  ghost predicate WellFormed(pages: seq<Page>) {
    forall i :: 0 <= i < |pages| ==>
      && (forall c: Candidate :: c in pages[i].pictures ==> c.page == i)
      && (forall j, k :: 0 <= j < k < |pages[i].clips| ==> pages[i].clips[j].number < pages[i].clips[k].number)
  }

  function ClipPaths(name: Naming, clips: seq<Clip>, page: nat): (r: seq<string>)
    ensures |r| == |clips|
  {
    seq(|clips|, k requires 0 <= k < |clips| => name(Figure(page, clips[k].number)))
  }

  /** The text of page i with its clips in front of its captions. */
  function PageInjection(name: Naming, page: Page, i: nat, style: Style): Injection {
    Inject(page.lines, if page.scanned then [] else ClipPaths(name, page.clips, i), style, |page.lines|)
  }

  /** The lines of the first n pages. */
  function PageLines(name: Naming, pages: seq<Page>, style: Style, n: nat): (r: seq<seq<string>>)
    requires n <= |pages|
    ensures |r| == n
  {
    if n == 0 then [] else
    PageLines(name, pages, style, n - 1) + [PageInjection(name, pages[n - 1], n - 1, style).out]
  }

  /** How a document is treated: what images are called and how a page's figures are arranged, what
      captions and images look like in the text, which embedded figures are kept, if any, and what
      becomes of the lines of all pages. */
  datatype Policy = Policy(
    name: Naming, order: Order, style: Style, limits: Limits, extract: bool, finish: Finish)

  /** What the lemmas need of a policy. */
  ghost predicate Fair(p: Policy) { Injective(p.name) && Arranges(p.order) }

  /** The final text of each page, given the lines of all pages: running headers may be removed. */
  type Finish = (seq<seq<string>>, nat) -> string

  function Texts(pages: seq<Page>, p: Policy): (r: seq<string>)
    ensures |r| == |pages|
  {
    Finished(PageLines(p.name, pages, p.style, |pages|), p.finish)
  }

  function Finished(lines: seq<seq<string>>, finish: Finish): (r: seq<string>)
    ensures |r| == |lines|
  {
    seq(|lines|, i requires 0 <= i < |lines| => finish(lines, i))
  }

  /** The entries made from the clips of page i. */
  ghost predicate IsClips(entries: seq<Entry>, page: Page, i: nat) {
    && |entries| == (if page.scanned then 0 else |page.clips|)
    && forall k :: 0 <= k < |entries| ==>
         entries[k] == Entry(Figure(i, page.clips[k].number), page.clips[k].data, page.clips[k].top)
  }

  function ClipEntries(clips: seq<Clip>, page: nat): (r: seq<Entry>)
    ensures |r| == |clips|
    ensures forall k :: 0 <= k < |r| ==> r[k] == Entry(Figure(page, clips[k].number), clips[k].data, clips[k].top)
  {
    seq(|clips|, k requires 0 <= k < |clips| => Entry(Figure(page, clips[k].number), clips[k].data, clips[k].top))
  }

  /** The vector figures of the text pages. */
  function ClipLists(pages: seq<Page>): PageLists {
    (i: nat) => if i < |pages| && !pages[i].scanned then ClipEntries(pages[i].clips, i) else []
  }

  lemma ClipListsAre(pages: seq<Page>)
    ensures forall i :: 0 <= i < |pages| ==> IsClips(ClipLists(pages)(i), pages[i], i)
  {
  }

  function Rendering(page: Page, i: nat): Entry { Entry(Scanned(i), page.rendering, 0.0) }

  /** The rendered images of the scanned pages. */
  function RenderedLists(pages: seq<Page>): PageLists {
    (i: nat) => if i < |pages| && pages[i].scanned then [Rendering(pages[i], i)] else []
  }

  /** The scanned ones among the first n pages. */
  function ScannedIndices(pages: seq<Page>, n: nat): (r: seq<nat>)
    requires n <= |pages|
    ensures |r| <= n
  {
    if n == 0 then []
    else if pages[n - 1].scanned then ScannedIndices(pages, n - 1) + [n - 1]
    else ScannedIndices(pages, n - 1)
  }

  /** The image objects of the text pages, in page order. */
  function Meta(pages: seq<Page>, n: nat): seq<Candidate>
    requires n <= |pages|
  {
    if n == 0 then []
    else if pages[n - 1].scanned then Meta(pages, n - 1)
    else Meta(pages, n - 1) + pages[n - 1].pictures
  }

  // ---- Kept figures ----

  function KeptOf(meta: seq<Candidate>, textPages: nat, limits: Limits): seq<Candidate> {
    Picked(meta, Selected(meta, textPages, limits))
  }

  /** The kept image objects of a document. */
  function Kept(pages: seq<Page>, p: Policy): seq<Candidate> {
    if !p.extract then [] else
    KeptOf(Meta(pages, |pages|), |pages| - |ScannedIndices(pages, |pages|)|, p.limits)
  }

  function Picked(meta: seq<Candidate>, indices: seq<nat>): (r: seq<Candidate>)
    requires AllBelow(indices, |meta|)
    ensures |r| == |indices| && forall k :: 0 <= k < |r| ==> r[k] == meta[indices[k]]
  {
    seq(|indices|, k requires 0 <= k < |indices| => meta[indices[k]])
  }

  lemma {:induction false} MetaPages(pages: seq<Page>, n: nat)
    requires WellFormed(pages) && n <= |pages|
    ensures forall c: Candidate :: c in Meta(pages, n) ==> c.page < n && !pages[c.page].scanned
  {
    if n > 0 {
      MetaPages(pages, n - 1);
    }
  }

  lemma KeptPages(pages: seq<Page>, p: Policy)
    requires WellFormed(pages)
    ensures var kept := Kept(pages, p);
      forall k :: 0 <= k < |kept| ==> kept[k].page < |pages| && !pages[kept[k].page].scanned
  {
    MetaPages(pages, |pages|);
    var kept := Kept(pages, p);
    forall k | 0 <= k < |kept| ensures kept[k] in Meta(pages, |pages|) {
    }
  }

  /** The embedded figures of a document, by page. */
  function EmbeddedLists(pages: seq<Page>, p: Policy): PageLists { OnPages(Kept(pages, p), p.order) }

  // ---- All images of a document have different references ----

  /** All images in the order in which they are stored. */
  function Entries(pages: seq<Page>, p: Policy): seq<Entry> {
    Joined(ClipLists(pages), |pages|) + Joined(RenderedLists(pages), |pages|) + Joined(EmbeddedLists(pages, p), |pages|)
  }

  lemma ClipsOwn(page: Page, entries: seq<Entry>, i: nat)
    requires IsClips(entries, page, i)
    requires forall j, k :: 0 <= j < k < |page.clips| ==> page.clips[j].number < page.clips[k].number
    ensures Own(entries, 2, i)
  {
  }

  lemma EntriesDistinct(pages: seq<Page>, p: Policy)
    requires WellFormed(pages) && Fair(p)
    ensures Distinct(Entries(pages, p))
  {
    var n, clips, rendered, embedded := |pages|, ClipLists(pages), RenderedLists(pages), EmbeddedLists(pages, p);
    ClipListsAre(pages);
    forall i | 0 <= i < n ensures Own(clips(i), 2, i) {
      ClipsOwn(pages[i], clips(i), i);
    }
    forall i | 0 <= i < n ensures Own(embedded(i), 1, i) {
      OnPageOwn(Kept(pages, p), p.order, i);
    }
    JoinedDistinct(clips, 2, n);
    JoinedDistinct(rendered, 0, n);
    JoinedDistinct(embedded, 1, n);
    DistinctKinds(Joined(clips, n), Joined(rendered, n), Joined(embedded, n), n);
  }

  lemma {:induction false} RenderedCount(pages: seq<Page>, n: nat)
    requires n <= |pages|
    ensures |Joined(RenderedLists(pages), n)| == |ScannedIndices(pages, n)|
  {
    if n > 0 {
      RenderedCount(pages, n - 1);
    }
  }

  /** The image map of a document has one entry for each rendered page, each embedded figure and each
      clip of a vector figure, and each entry holds its own image. */
  lemma ImagesAddUp(pages: seq<Page>, p: Policy)
    requires WellFormed(pages) && Fair(p)
    ensures var images := Stored(p.name, Entries(pages, p));
      && |images| == |ScannedIndices(pages, |pages|)| + |Kept(pages, p)| + |Joined(ClipLists(pages), |pages|)|
      && Holds(images, p.name, Entries(pages, p))
  {
    KeptPages(pages, p);
    EntriesDistinct(pages, p);
    StoredAll(p.name, Entries(pages, p));
    RenderedCount(pages, |pages|);
    EmbeddedCount(Kept(pages, p), p.order, |pages|);
  }

  // ---- The document ----

  datatype Block = TextBlock(text: string) | Link(path: string)

  function Links(name: Naming, entries: seq<Entry>): (r: seq<Block>)
    ensures |r| == |entries| && forall k :: 0 <= k < |r| ==> r[k] == Link(name(entries[k].ref))
  {
    Map(entries, (e: Entry) => Link(name(e.ref)))
  }

  /** A scanned page is its image, any other page its text followed by its embedded figures from top
      to bottom. */
  function PageBlocks(name: Naming, page: Page, i: nat, text: string, figures: seq<Entry>): seq<Block> {
    if page.scanned then [Link(name(Scanned(i)))]
    else if text != "" then [TextBlock(text)] + Links(name, figures)
    else Links(name, figures)
  }

  /** The document in reading order: its first n pages. */
  function Assembled(name: Naming, pages: seq<Page>, texts: seq<string>, lists: PageLists, n: nat): seq<Block>
    requires n <= |texts| == |pages|
  {
    if n == 0 then [] else
    Assembled(name, pages, texts, lists, n - 1) + PageBlocks(name, pages[n - 1], n - 1, texts[n - 1], lists(n - 1))
  }

  lemma LinkOnPage(name: Naming, pages: seq<Page>, i: nat, text: string, figures: seq<Entry>, path: string)
    requires i < |pages| && Link(path) in PageBlocks(name, pages[i], i, text, figures)
    ensures NamedBy(name, RenderedLists(pages)(i), path) || NamedBy(name, figures, path)
  {
    if pages[i].scanned {
      assert RenderedLists(pages)(i)[0].ref == Scanned(i);
    } else {
      var links := Links(name, figures);
      assert Link(path) in links;
      var k :| 0 <= k < |links| && links[k] == Link(path);
    }
  }

  lemma {:induction false} LinkPage(
      name: Naming, pages: seq<Page>, texts: seq<string>, lists: PageLists, path: string, n: nat) returns (i: nat)
    requires n <= |texts| == |pages| && Link(path) in Assembled(name, pages, texts, lists, n)
    ensures i < n && Link(path) in PageBlocks(name, pages[i], i, texts[i], lists(i))
  {
    if Link(path) in Assembled(name, pages, texts, lists, n - 1) {
      i := LinkPage(name, pages, texts, lists, path, n - 1);
    } else {
      i := n - 1;
    }
  }

  lemma NamedInEntries(pages: seq<Page>, p: Policy, i: nat, path: string)
    requires i < |pages|
    requires NamedBy(p.name, RenderedLists(pages)(i), path) || NamedBy(p.name, EmbeddedLists(pages, p)(i), path)
    ensures NamedBy(p.name, Entries(pages, p), path)
  {
    var n, clips, rendered, embedded := |pages|, ClipLists(pages), RenderedLists(pages), EmbeddedLists(pages, p);
    if NamedBy(p.name, rendered(i), path) {
      NamedOnPage(p.name, rendered, n, i, path);
    } else {
      NamedOnPage(p.name, embedded, n, i, path);
    }
    NamedInLonger(p.name, Joined(clips, n), Joined(rendered, n), path);
    NamedInLonger(p.name, Joined(clips, n) + Joined(rendered, n), Joined(embedded, n), path);
  }

  /** Every link that the assembly writes names an image of the map. */
  lemma LinksAreImages(pages: seq<Page>, texts: seq<string>, p: Policy, path: string)
    requires WellFormed(pages) && Fair(p) && |texts| == |pages|
    requires Link(path) in Assembled(p.name, pages, texts, EmbeddedLists(pages, p), |pages|)
    ensures path in Stored(p.name, Entries(pages, p))
  {
    var lists := EmbeddedLists(pages, p);
    ImagesAddUp(pages, p);
    var i := LinkPage(p.name, pages, texts, lists, path, |pages|);
    LinkOnPage(p.name, pages, i, texts[i], lists(i), path);
    NamedInEntries(pages, p, i, path);
    NamedIsStored(p.name, Entries(pages, p), Stored(p.name, Entries(pages, p)), path);
  }

  /** The j-th link put into the text of page i names the j-th clip of that page, which is in the map. */
  ghost predicate InjectedLinksAreImages(
    images: map<string, string>, name: Naming, page: Page, i: nat, style: Style)
  {
    var r := PageInjection(name, page, i, style);
    forall j :: 0 <= j < |r.spots| ==>
      && j < |page.clips| && ClipIn(images, name, i, page.clips[j])
      && HasClip(page.lines, name(Figure(i, page.clips[j].number)), style, r.out, r.spots[j])
  }

  predicate ClipIn(images: map<string, string>, name: Naming, page: nat, clip: Clip) {
    var path := name(Figure(page, clip.number));
    path in images && images[path] == clip.data
  }

  lemma {:induction false} ClipIsEntry(lists: PageLists, n: nat, i: nat, k: nat)
    requires i < n && k < |lists(i)|
    ensures lists(i)[k] in Joined(lists, n)
  {
    if i < n - 1 {
      ClipIsEntry(lists, n - 1, i, k);
    } else {
      assert lists(i)[k] in lists(i);
    }
  }

  /** Every clip that can be put into the text of a page names an image of the map. */
  lemma ClipsAreImages(pages: seq<Page>, p: Policy, i: nat, k: nat)
    requires WellFormed(pages) && Fair(p) && i < |pages| && !pages[i].scanned && k < |pages[i].clips|
    ensures ClipIn(Stored(p.name, Entries(pages, p)), p.name, i, pages[i].clips[k])
  {
    var entries := Entries(pages, p);
    ImagesAddUp(pages, p);
    ClipIsEntry(ClipLists(pages), |pages|, i, k);
    var e := ClipEntries(pages[i].clips, i)[k];
    assert e in entries;
    var j :| 0 <= j < |entries| && entries[j] == e;
  }

  lemma InjectedAreImages(pages: seq<Page>, p: Policy, i: nat)
    requires WellFormed(pages) && Fair(p) && i < |pages|
    ensures InjectedLinksAreImages(Stored(p.name, Entries(pages, p)), p.name, pages[i], i, p.style)
  {
    var images, page := Stored(p.name, Entries(pages, p)), pages[i];
    var r := PageInjection(p.name, page, i, p.style);
    forall j | 0 <= j < |r.spots|
      ensures j < |page.clips| && ClipIn(images, p.name, i, page.clips[j])
      ensures HasClip(page.lines, p.name(Figure(i, page.clips[j].number)), p.style, r.out, r.spots[j])
    {
      InjectedClip(p.name, page, i, p.style, j);
      ClipsAreImages(pages, p, i, j);
    }
  }

  lemma InjectedClip(name: Naming, page: Page, i: nat, style: Style, j: nat)
    requires j < |PageInjection(name, page, i, style).spots|
    ensures !page.scanned && j < |page.clips|
    ensures var r := PageInjection(name, page, i, style);
      HasClip(page.lines, name(Figure(i, page.clips[j].number)), style, r.out, r.spots[j])
  {
    var paths := if page.scanned then [] else ClipPaths(name, page.clips, i);
    InjectMeaning(page.lines, paths, style);
  }

  // ---- The document, page by page ----

  /** One link for each figure, in the order given. */
  ghost predicate FiguresShown(part: seq<Block>, name: Naming, figures: seq<Entry>) {
    |part| == |figures| && forall k :: 0 <= k < |part| ==> part[k] == Link(name(figures[k].ref))
  }

  /** A scanned page is shown by a link to its rendering, any other page by its text, if it has one,
      and then its figures. */
  ghost predicate PageShown(part: seq<Block>, name: Naming, page: Page, i: nat, text: string, figures: seq<Entry>) {
    if page.scanned then |part| == 1 && part[0] == Link(name(Scanned(i)))
    else if text == "" then FiguresShown(part, name, figures)
    else |part| > 0 && part[0] == TextBlock(text) && FiguresShown(part[1..], name, figures)
  }

  ghost predicate ShownAt(blocks: seq<Block>, from: nat, to: nat,
      name: Naming, page: Page, i: nat, text: string, figures: seq<Entry>)
  {
    from <= to <= |blocks| && PageShown(blocks[from..to], name, page, i, text, figures)
  }

  /** The first n pages are shown one after the other, page i from starts[i] to starts[i + 1], and
      nothing else is. */
  ghost predicate InPageOrder(blocks: seq<Block>, starts: seq<nat>,
      name: Naming, pages: seq<Page>, texts: seq<string>, lists: PageLists, n: nat)
  {
    && n <= |pages| == |texts| && |starts| == n + 1 && starts[0] == 0 && starts[n] == |blocks|
    && forall i :: 0 <= i < n ==> ShownAt(blocks, starts[i], starts[i + 1], name, pages[i], i, texts[i], lists(i))
  }

  ghost predicate ShowsPages(blocks: seq<Block>, name: Naming, pages: seq<Page>, texts: seq<string>, lists: PageLists)
  {
    exists starts :: InPageOrder(blocks, starts, name, pages, texts, lists, |pages|)
  }

  lemma PageIsShown(name: Naming, page: Page, i: nat, text: string, figures: seq<Entry>)
    ensures PageShown(PageBlocks(name, page, i, text, figures), name, page, i, text, figures)
  {
  }

  lemma ShownLater(blocks: seq<Block>, more: seq<Block>, from: nat, to: nat,
      name: Naming, page: Page, i: nat, text: string, figures: seq<Entry>)
    requires ShownAt(blocks, from, to, name, page, i, text, figures)
    ensures ShownAt(blocks + more, from, to, name, page, i, text, figures)
  {
    assert (blocks + more)[from..to] == blocks[from..to];
  }

  lemma ShownLast(blocks: seq<Block>, part: seq<Block>,
      name: Naming, page: Page, i: nat, text: string, figures: seq<Entry>)
    requires PageShown(part, name, page, i, text, figures)
    ensures ShownAt(blocks + part, |blocks|, |blocks| + |part|, name, page, i, text, figures)
  {
    assert (blocks + part)[|blocks|..|blocks| + |part|] == part;
  }

  lemma ShowNext(blocks: seq<Block>, part: seq<Block>, starts: seq<nat>,
      name: Naming, pages: seq<Page>, texts: seq<string>, lists: PageLists, n: nat)
    requires InPageOrder(blocks, starts, name, pages, texts, lists, n) && n < |pages|
    requires PageShown(part, name, pages[n], n, texts[n], lists(n))
    ensures InPageOrder(blocks + part, starts + [|blocks| + |part|], name, pages, texts, lists, n + 1)
  {
    var starts' := starts + [|blocks| + |part|];
    forall i | 0 <= i < n + 1
      ensures ShownAt(blocks + part, starts'[i], starts'[i + 1], name, pages[i], i, texts[i], lists(i))
    {
      if i < n {
        ShownLater(blocks, part, starts[i], starts[i + 1], name, pages[i], i, texts[i], lists(i));
      } else {
        ShownLast(blocks, part, name, pages[n], n, texts[n], lists(n));
      }
    }
  }

  lemma {:induction false} AssembledInOrder(
      name: Naming, pages: seq<Page>, texts: seq<string>, lists: PageLists, n: nat) returns (starts: seq<nat>)
    requires n <= |pages| == |texts|
    ensures InPageOrder(Assembled(name, pages, texts, lists, n), starts, name, pages, texts, lists, n)
  {
    if n == 0 {
      return [0];
    }
    starts := AssembledInOrder(name, pages, texts, lists, n - 1);
    var blocks := Assembled(name, pages, texts, lists, n - 1);
    var part := PageBlocks(name, pages[n - 1], n - 1, texts[n - 1], lists(n - 1));
    PageIsShown(name, pages[n - 1], n - 1, texts[n - 1], lists(n - 1));
    ShowNext(blocks, part, starts, name, pages, texts, lists, n - 1);
    starts := starts + [|blocks| + |part|];
  }

  /** The document shows every page, in page order: a scanned page by its image, any other page by its
      text and then its figures. */
  lemma AssembledShowsPages(name: Naming, pages: seq<Page>, texts: seq<string>, lists: PageLists)
    requires |texts| == |pages|
    ensures ShowsPages(Assembled(name, pages, texts, lists, |pages|), name, pages, texts, lists)
  {
    var starts := AssembledInOrder(name, pages, texts, lists, |pages|);
  }

  // ---- The texts of the pages ----

  /** The lines of a text page, with its clips in front of the captions they belong to. */
  ghost predicate WithClips(lines: seq<string>, name: Naming, page: Page, i: nat, style: Style) {
    exists paths: seq<string>, spots ::
      && |paths| == |page.clips|
      && (forall k :: 0 <= k < |paths| ==> paths[k] == name(Figure(i, page.clips[k].number)))
      && Served(page.lines, paths, style, Injection(lines, spots), |page.lines|)
  }

  /** Scanned pages keep their lines, text pages have their clips put in. */
  ghost predicate LinesOfPages(lines: seq<seq<string>>, name: Naming, pages: seq<Page>, style: Style, n: nat) {
    |lines| == n <= |pages| && forall i :: 0 <= i < n ==>
      if pages[i].scanned then lines[i] == pages[i].lines else WithClips(lines[i], name, pages[i], i, style)
  }

  lemma PageInjected(name: Naming, page: Page, i: nat, style: Style)
    ensures var lines := PageInjection(name, page, i, style).out;
      if page.scanned then lines == page.lines else WithClips(lines, name, page, i, style)
  {
    if page.scanned {
      NoClipsLeft(page.lines, [], style, 0, |page.lines|);
    } else {
      var paths, r := ClipPaths(name, page.clips, i), PageInjection(name, page, i, style);
      InjectMeaning(page.lines, paths, style);
      assert r == Injection(r.out, r.spots);
    }
  }

  lemma {:induction false} PageLineAt(name: Naming, pages: seq<Page>, style: Style, n: nat, i: nat)
    requires i < n <= |pages|
    ensures PageLines(name, pages, style, n)[i] == PageInjection(name, pages[i], i, style).out
  {
    if i < n - 1 {
      PageLineAt(name, pages, style, n - 1, i);
    }
  }

  lemma PageLinesMeaning(name: Naming, pages: seq<Page>, style: Style)
    ensures LinesOfPages(PageLines(name, pages, style, |pages|), name, pages, style, |pages|)
  {
    var lines := PageLines(name, pages, style, |pages|);
    forall i | 0 <= i < |pages|
      ensures if pages[i].scanned then lines[i] == pages[i].lines else WithClips(lines[i], name, pages[i], i, style)
    {
      PageLineAt(name, pages, style, |pages|, i);
      PageInjected(name, pages[i], i, style);
    }
  }

  /** The text of a page is what is made of the lines of all pages, clips put in. */
  lemma TextsMeaning(pages: seq<Page>, p: Policy) returns (lines: seq<seq<string>>)
    ensures LinesOfPages(lines, p.name, pages, p.style, |pages|)
    ensures |Texts(pages, p)| == |pages|
    ensures forall i :: 0 <= i < |pages| ==> Texts(pages, p)[i] == p.finish(lines, i)
  {
    lines := PageLines(p.name, pages, p.style, |pages|);
    PageLinesMeaning(p.name, pages, p.style);
  }

  // ---- The figures and images of the pages ----

  function IsRead(): Page -> bool { (page: Page) => !page.scanned }

  function PicturesOf(): Page -> seq<Candidate> { (page: Page) => page.pictures }

  /** The image objects to choose from are those of the text pages, page by page. */
  lemma {:induction false} MetaMeaning(pages: seq<Page>, n: nat)
    requires n <= |pages|
    ensures Meta(pages, n) == FlatMap(Filter(pages[..n], IsRead()), PicturesOf())
  {
    if n > 0 {
      MetaMeaning(pages, n - 1);
      var last := pages[n - 1];
      assert pages[..n] == pages[..n - 1] + [last];
      FilterAppend(pages[..n - 1], [last], IsRead());
      FlatMapAppend(Filter(pages[..n - 1], IsRead()), Filter([last], IsRead()), PicturesOf());
      assert Filter([last], IsRead()) == if last.scanned then [] else [last];
      assert FlatMap([last], PicturesOf()) == last.pictures;
    }
  }

  lemma {:induction false} ScannedIndicesBelow(pages: seq<Page>, n: nat)
    requires n <= |pages|
    ensures AllBelow(ScannedIndices(pages, n), n)
  {
    if n > 0 {
      ScannedIndicesBelow(pages, n - 1);
    }
  }

  lemma {:induction false} ReadCount(pages: seq<Page>, n: nat)
    requires n <= |pages|
    ensures n - |ScannedIndices(pages, n)| == |Filter(pages[..n], IsRead())|
  {
    if n > 0 {
      ReadCount(pages, n - 1);
      var last := pages[n - 1];
      assert pages[..n] == pages[..n - 1] + [last];
      FilterAppend(pages[..n - 1], [last], IsRead());
      assert Filter([last], IsRead()) == if last.scanned then [] else [last];
    }
  }

  /** The kept image objects are those selected among all image objects of the text pages, for as many
      text pages as there are, if figures are wanted at all. */
  lemma KeptMeaning(pages: seq<Page>, p: Policy)
    ensures !p.extract ==> Kept(pages, p) == []
    ensures var read := Filter(pages, IsRead());
      var meta := FlatMap(read, PicturesOf());
      var spots := Selected(meta, |read|, p.limits);
      p.extract ==> |Kept(pages, p)| == |spots| && forall k :: 0 <= k < |spots| ==> Kept(pages, p)[k] == meta[spots[k]]
  {
    MetaMeaning(pages, |pages|);
    ReadCount(pages, |pages|);
    assert pages[..|pages|] == pages;
  }

  /** The scanned pages, each once, in order. */
  lemma {:induction false} ScannedMeaning(pages: seq<Page>, n: nat)
    requires n <= |pages|
    ensures forall i: nat :: i in ScannedIndices(pages, n) <==> i < n && pages[i].scanned
    ensures Ascending(ScannedIndices(pages, n))
  {
    if n > 0 {
      ScannedMeaning(pages, n - 1);
      ScannedIndicesBelow(pages, n - 1);
    }
  }

  /** Every image of a page is in the map with its own data: the rendering of a scanned page, the clips
      of any other page, and its figures. */
  ghost predicate ImagesOfPage(
    images: map<string, string>, name: Naming, page: Page, i: nat, figures: seq<Entry>)
  {
    && (page.scanned ==> HasImage(images, name(Scanned(i)), page.rendering))
    && (!page.scanned ==> forall k :: 0 <= k < |page.clips| ==>
          HasImage(images, name(Figure(i, page.clips[k].number)), page.clips[k].data))
    && forall k :: 0 <= k < |figures| ==> HasImage(images, name(figures[k].ref), figures[k].data)
  }

  predicate HasImage(images: map<string, string>, path: string, data: string) {
    path in images && images[path] == data
  }

  lemma EntryIsHeld(images: map<string, string>, name: Naming, entries: seq<Entry>, e: Entry)
    requires Holds(images, name, entries) && e in entries
    ensures HasImage(images, name(e.ref), e.data)
  {
    var k :| 0 <= k < |entries| && entries[k] == e;
  }

  /** The image map holds the images of every page. */
  lemma ImagesMeaning(pages: seq<Page>, p: Policy, i: nat)
    requires WellFormed(pages) && Fair(p) && i < |pages|
    ensures ImagesOfPage(Stored(p.name, Entries(pages, p)), p.name, pages[i], i, EmbeddedLists(pages, p)(i))
  {
    var images, entries, figures := Stored(p.name, Entries(pages, p)), Entries(pages, p), EmbeddedLists(pages, p)(i);
    ImagesAddUp(pages, p);
    if pages[i].scanned {
      ClipIsEntry(RenderedLists(pages), |pages|, i, 0);
      EntryIsHeld(images, p.name, entries, Rendering(pages[i], i));
    } else {
      forall k | 0 <= k < |pages[i].clips|
        ensures HasImage(images, p.name(Figure(i, pages[i].clips[k].number)), pages[i].clips[k].data)
      {
        ClipIsEntry(ClipLists(pages), |pages|, i, k);
        EntryIsHeld(images, p.name, entries, ClipEntries(pages[i].clips, i)[k]);
      }
    }
    forall k | 0 <= k < |figures| ensures HasImage(images, p.name(figures[k].ref), figures[k].data) {
      ClipIsEntry(EmbeddedLists(pages, p), |pages|, i, k);
      EntryIsHeld(images, p.name, entries, figures[k]);
    }
  }

  /** The figures of a page: the kept image objects of that page, numbered from 1 in the order of
      `kept`, where `spots` are their positions. */
  ghost predicate FiguresOf(
    figures: seq<Entry>, kept: seq<Candidate>, page: nat, spots: seq<nat>)
  {
    && |figures| == |spots| && Ascending(spots) && AllBelow(spots, |kept|)
    && (forall k: nat :: k in spots <==> k < |kept| && kept[k].page == page)
    && forall k :: 0 <= k < |figures| ==>
         figures[k] == Entry(Embedded(page, k + 1), kept[spots[k]].data, kept[spots[k]].top)
  }

  lemma NextFigure(figures: seq<Entry>, front: seq<Candidate>, last: Candidate, page: nat, spots: seq<nat>)
    requires FiguresOf(figures, front, page, spots)
    ensures last.page != page ==> FiguresOf(figures, front + [last], page, spots)
    ensures last.page == page ==> FiguresOf(
      figures + [Entry(Embedded(page, |figures| + 1), last.data, last.top)], front + [last], page, spots + [|front|])
  {
  }

  lemma {:induction false} NumberedMeaning(kept: seq<Candidate>, page: nat) returns (spots: seq<nat>)
    ensures FiguresOf(Numbered(kept, page), kept, page, spots)
  {
    if kept == [] {
      return [];
    }
    var front, last := kept[..|kept| - 1], kept[|kept| - 1];
    spots := NumberedMeaning(front, page);
    assert kept == front + [last];
    NextFigure(Numbered(front, page), front, last, page, spots);
    spots := if last.page == page then spots + [|front|] else spots;
  }

  /** The embedded figures of a page are the kept image objects of that page, numbered from 1 in the
      order in which they were found, and then arranged. */
  lemma FiguresMeaning(pages: seq<Page>, p: Policy, i: nat) returns (figures: seq<Entry>, spots: seq<nat>)
    requires Fair(p)
    ensures FiguresOf(figures, Kept(pages, p), i, spots)
    ensures EmbeddedLists(pages, p)(i) == p.order(figures)
    ensures multiset(EmbeddedLists(pages, p)(i)) == multiset(figures)
  {
    figures := Numbered(Kept(pages, p), i);
    spots := NumberedMeaning(Kept(pages, p), i);
  }
}
