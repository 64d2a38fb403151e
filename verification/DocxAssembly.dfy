/** The text of a DOCX document from its page workers. */
module DocxAssembly {
  import opened Options
  import opened Seqs
  import opened StableSort

  // The workers finish in any order, images are uploaded and woven into the text afterwards, and the lines
  // are sorted by page.

  datatype Content = Text(text: string) | Image(path: string)

  /** What a page worker returns: its text, the saved images and both in reading order. */
  datatype Line = Line(text: string, page: nat, images: seq<string>, content: seq<Content>)

  /** The outcome of the worker of each page; None stands for a worker that raised. */
  type Outcomes = nat -> Option<seq<Line>>

  /** The image store: which local files exist, and the URL an upload returns ("" when it fails). */
  datatype Store = Store(there: string -> bool, upload: string -> string)

  const SEPARATOR: string := "\n\n"

  function Markdown(url: string): string { "![](" + url + ")" }

  // ---- Collecting ----

  function LinesOf(outcomes: Outcomes): nat -> seq<Line> {
    (k: nat) => if outcomes(k).Some? then outcomes(k).value else []
  }

  function Collected(done: seq<nat>, outcomes: Outcomes): seq<Line> { FlatMap(done, LinesOf(outcomes)) }

  method CollectResults(done: seq<nat>, outcomes: Outcomes) returns (results: seq<Line>)
    ensures results == Collected(done, outcomes)
  {
    results := [];
    for i := 0 to |done|
      invariant results == Collected(done[..i], outcomes)
    {
      FlatMapStep(done, i, LinesOf(outcomes));
      match outcomes(done[i]) {
        case Some(lines) => results := results + lines;
        case None =>
      }
    }
    assert done[..|done|] == done;
  }

  // ---- Uploading ----

  predicate Linked(store: Store, path: string) { path != "" && store.there(path) && store.upload(path) != "" }

  function Links(store: Store, paths: set<string>): map<string, string> {
    map path | path in paths && Linked(store, path) :: Markdown(store.upload(path))
  }

  function Members<T>(s: seq<T>): set<T> { set x | x in s }

  function Paths(lines: seq<Line>): set<string> { set line: Line, path | line in lines && path in line.images :: path }

  lemma PathsStep(lines: seq<Line>, i: nat)
    requires i < |lines|
    ensures Paths(lines[..i + 1]) == Paths(lines[..i]) + Members(lines[i].images)
  {
    var front := lines[..i];
    assert lines[..i + 1] == front + [lines[i]];
    assert forall line: Line :: line in front + [lines[i]] <==> line in front || line == lines[i];
  }

  /** The images of one line; a path that has a link already is not uploaded again. */
  method UploadLine(images: seq<string>, store: Store, before: map<string, string>, ghost paths: set<string>)
      returns (links: map<string, string>)
    requires before == Links(store, paths)
    ensures links == Links(store, paths + Members(images))
  {
    links := before;
    for j := 0 to |images|
      invariant links == Links(store, paths + Members(images[..j]))
    {
      var path := images[j];
      MembersStep(images, j);
      LinksStep(store, paths + Members(images[..j]), path);
      if path != "" && store.there(path) && path !in links {
        var url := store.upload(path);
        if url != "" {
          links := links[path := Markdown(url)];
        }
      }
    }
    assert images[..|images|] == images;
  }

  lemma MembersStep<T>(s: seq<T>, j: nat)
    requires j < |s|
    ensures Members(s[..j + 1]) == Members(s[..j]) + {s[j]}
  {
    assert s[..j + 1] == s[..j] + [s[j]];
  }

  lemma LinksStep(store: Store, paths: set<string>, path: string)
    ensures Links(store, paths + {path}) ==
      if Linked(store, path) then Links(store, paths)[path := Markdown(store.upload(path))] else Links(store, paths)
  {
  }

  method UploadImages(lines: seq<Line>, store: Store) returns (links: map<string, string>)
    ensures links == Links(store, Paths(lines))
  {
    links := map[];
    for i := 0 to |lines|
      invariant links == Links(store, Paths(lines[..i]))
    {
      links := UploadLine(lines[i].images, store, links, Paths(lines[..i]));
      PathsStep(lines, i);
    }
    assert lines[..|lines|] == lines;
  }

  // ---- Weaving images into the text ----

  function PieceOf(links: map<string, string>): Content -> seq<string> {
    (c: Content) =>
      match c
      case Text(text) => [text]
      case Image(path) => if path in links then [links[path]] else []
  }

  function Pieces(content: seq<Content>, links: map<string, string>): seq<string> { FlatMap(content, PieceOf(links)) }

  function Woven(line: Line, links: map<string, string>): string {
    Join(Filter(Pieces(line.content, links), IsText), SEPARATOR)
  }

  predicate AnyImages(lines: seq<Line>) { exists line: Line :: line in lines && line.images != [] }

  /** The value left in the page variable by the upload loop: the page of the last line with images. */
  function LastImagePage(lines: seq<Line>): nat {
    if lines == [] then 0
    else if lines[|lines| - 1].images != [] then lines[|lines| - 1].page
    else LastImagePage(lines[..|lines| - 1])
  }

  /** The rebuilt lines. The page variable is only set for a line with content, so a line without
      content gets the page of whichever line was looked at before it. */
  function Rebuilt(lines: seq<Line>, page: nat, links: map<string, string>): (r: seq<Line>) {
    if lines == [] then [] else
    var page' := if lines[0].content != [] then lines[0].page else page;
    [Line(Woven(lines[0], links), page', lines[0].images, [])] + Rebuilt(lines[1..], page', links)
  }

  function Processed(lines: seq<Line>, store: Store): seq<Line> {
    if AnyImages(lines) then Rebuilt(lines, LastImagePage(lines), Links(store, Paths(lines))) else lines
  }

  function ByPage(): Line -> real { (line: Line) => line.page as real }

  method WeavePieces(content: seq<Content>, links: map<string, string>) returns (pieces: seq<string>)
    ensures pieces == Pieces(content, links)
  {
    pieces := [];
    for i := 0 to |content|
      invariant pieces == Pieces(content[..i], links)
    {
      FlatMapStep(content, i, PieceOf(links));
      match content[i] {
        case Text(text) => pieces := pieces + [text];
        case Image(path) =>
          if path in links {
            pieces := pieces + [links[path]];
          }
      }
    }
    assert content[..|content|] == content;
  }

  lemma RebuiltStep(lines: seq<Line>, i: nat, page: nat, links: map<string, string>)
    requires i < |lines|
    ensures var page' := if lines[i].content != [] then lines[i].page else page;
      Rebuilt(lines[i..], page, links)
      == [Line(Woven(lines[i], links), page', lines[i].images, [])] + Rebuilt(lines[i + 1..], page', links)
  {
    assert lines[i..][1..] == lines[i + 1..];
  }

  method RebuildLines(lines: seq<Line>, initialPage: nat, links: map<string, string>) returns (rebuilt: seq<Line>)
    ensures rebuilt == Rebuilt(lines, initialPage, links)
  {
    var page := initialPage;
    rebuilt := [];
    ghost var rest := Rebuilt(lines, page, links);
    for i := 0 to |lines|
      invariant rest == Rebuilt(lines[i..], page, links)
      invariant rebuilt + rest == Rebuilt(lines, initialPage, links)
    {
      RebuiltStep(lines, i, page, links);
      var pieces := WeavePieces(lines[i].content, links);
      if lines[i].content != [] {
        page := lines[i].page;
      }
      var line := Line(Join(Filter(pieces, IsText), SEPARATOR), page, lines[i].images, []);
      Moved(rebuilt, line, Rebuilt(lines[i + 1..], page, links));
      rebuilt, rest := rebuilt + [line], Rebuilt(lines[i + 1..], page, links);
    }
  }

  method ProcessResults(results: seq<Line>, store: Store) returns (lines: seq<Line>)
    ensures lines == Sort(Processed(results, store), ByPage())
  {
    var page, any := 0, false;
    for i := 0 to |results|
      invariant page == LastImagePage(results[..i]) && any == AnyImages(results[..i])
    {
      assert results[..i + 1] == results[..i] + [results[i]];
      if results[i].images != [] {
        page, any := results[i].page, true;
      }
    }
    assert results[..|results|] == results;
    var processed := results;
    if any {
      var links := UploadImages(results, store);
      processed := RebuildLines(results, page, links);
    }
    lines := Sort(processed, ByPage());
  }

  // ---- Putting the text together ----

  function TextOf(): Line -> seq<string> { (line: Line) => if line.text != "" then [line.text] else [] }

  function Texts(lines: seq<Line>): seq<string> { FlatMap(lines, TextOf()) }

  method JoinTexts(lines: seq<Line>) returns (text: string)
    ensures text == Join(Texts(lines), SEPARATOR)
  {
    var parts := [];
    for i := 0 to |lines|
      invariant parts == Texts(lines[..i])
    {
      FlatMapStep(lines, i, TextOf());
      if lines[i].text != "" {
        parts := parts + [lines[i].text];
      }
    }
    assert lines[..|lines|] == lines;
    text := Join(parts, SEPARATOR);
  }

  // ---- The meaning: the page texts in page order ----

  /** A page worker returns at most one line, and that line carries its page number. */
  ghost predicate OneLine(outcomes: Outcomes, k: nat) {
    forall lines :: outcomes(k) == Some(lines) ==> |lines| <= 1 && forall line: Line :: line in lines ==> line.page == k
  }

  /** The text of one line when every line is looked at by itself. */
  function Shown(any: bool, links: map<string, string>, line: Line): Line {
    if any then Line(Woven(line, links), line.page, line.images, []) else line
  }

  function PageTexts(pages: seq<nat>, outcomes: Outcomes, any: bool, links: map<string, string>): (r: seq<string>) {
    if pages == [] then [] else
    var lines := LinesOf(outcomes)(pages[0]);
    (if lines != [] && Shown(any, links, lines[0]).text != "" then [Shown(any, links, lines[0]).text] else [])
      + PageTexts(pages[1..], outcomes, any, links)
  }

  /** The document text by pages in ascending order, without any sorting or carried page number. */
  function TextInPageOrder(pages: seq<nat>, outcomes: Outcomes, store: Store): string {
    var lines := Collected(pages, outcomes);
    Join(PageTexts(pages, outcomes, AnyImages(lines), Links(store, Paths(lines))), SEPARATOR)
  }

  predicate HasText(line: Line) { line.text != "" }

  /** The line a page contributes, if it has text. */
  function Kept(outcomes: Outcomes, any: bool, links: map<string, string>): nat -> seq<Line> {
    (k: nat) => var lines := LinesOf(outcomes)(k);
      if lines != [] && Shown(any, links, lines[0]).text != "" then [Shown(any, links, lines[0])] else []
  }

  /** Lines without content end up without text, so dropping the lines without text also drops
      every wrong page number. */
  lemma {:induction false} StalePagesDrop(lines: seq<Line>, page: nat, links: map<string, string>)
    ensures Filter(Rebuilt(lines, page, links), HasText)
         == Filter(Map(lines, (line: Line) => Shown(true, links, line)), HasText)
  {
    var shown := (line: Line) => Shown(true, links, line);
    if lines != [] {
      var page' := if lines[0].content != [] then lines[0].page else page;
      StalePagesDrop(lines[1..], page', links);
      assert Map(lines, shown)[1..] == Map(lines[1..], shown);
      if lines[0].content == [] {
        assert Pieces(lines[0].content, links) == [];
        assert Woven(lines[0], links) == "";
      }
    }
  }

  lemma {:induction false} KeptByPage(ks: seq<nat>, outcomes: Outcomes, any: bool, links: map<string, string>)
    requires forall k :: k in ks ==> OneLine(outcomes, k)
    ensures Filter(Map(Collected(ks, outcomes), (line: Line) => Shown(any, links, line)), HasText)
         == FlatMap(ks, Kept(outcomes, any, links))
  {
    var shown := (line: Line) => Shown(any, links, line);
    if ks != [] {
      var lines, rest := LinesOf(outcomes)(ks[0]), Collected(ks[1..], outcomes);
      assert ks[0] in ks;
      KeptByPage(ks[1..], outcomes, any, links);
      assert Map(lines + rest, shown) == Map(lines, shown) + Map(rest, shown);
      FilterAppend(Map(lines, shown), Map(rest, shown), HasText);
      if lines != [] {
        assert Map(lines, shown) == [Shown(any, links, lines[0])];
      }
      assert Filter(Map(lines, shown), HasText) == Kept(outcomes, any, links)(ks[0]);
    }
  }

  /** At most one line, of that page. */
  ghost predicate OneOf(lines: seq<Line>, page: nat) {
    |lines| <= 1 && forall line: Line :: line in lines ==> line.page == page
  }

  lemma {:induction false} OnePerPageAscends(ks: seq<nat>, lines: nat -> seq<Line>)
    requires Ascending(ks) && forall k :: k in ks ==> OneOf(lines(k), k)
    ensures StrictlySorted(FlatMap(ks, lines), ByPage())
    ensures forall line: Line :: line in FlatMap(ks, lines) ==> line.page in ks
  {
    if ks != [] {
      assert ks[0] in ks;
      OnePerPageAscends(ks[1..], lines);
      var first, rest := lines(ks[0]), FlatMap(ks[1..], lines);
      assert first != [] ==> first[0] in first;
      forall i | 0 <= i < |rest| ensures ks[0] < rest[i].page {
        assert rest[i] in rest;
      }
    }
  }

  lemma KeptAscends(ks: seq<nat>, outcomes: Outcomes, any: bool, links: map<string, string>)
    requires Ascending(ks) && forall k :: k in ks ==> OneLine(outcomes, k)
    ensures StrictlySorted(FlatMap(ks, Kept(outcomes, any, links)), ByPage())
  {
    forall k | k in ks ensures OneOf(Kept(outcomes, any, links)(k), k) {
      var lines := LinesOf(outcomes)(k);
      assert lines != [] ==> lines[0] in lines;
    }
    OnePerPageAscends(ks, Kept(outcomes, any, links));
  }

  lemma {:induction false} TextsOfKept(lines: seq<Line>)
    ensures Texts(Filter(lines, HasText)) == Texts(lines)
  {
    if lines != [] {
      TextsOfKept(lines[1..]);
    }
  }

  lemma {:induction false} TextsByPage(ks: seq<nat>, outcomes: Outcomes, any: bool, links: map<string, string>)
    ensures Texts(FlatMap(ks, Kept(outcomes, any, links))) == PageTexts(ks, outcomes, any, links)
  {
    if ks != [] {
      TextsByPage(ks[1..], outcomes, any, links);
      var first, rest := Kept(outcomes, any, links)(ks[0]), FlatMap(ks[1..], Kept(outcomes, any, links));
      if first != [] {
        assert (first + rest)[1..] == rest;
      } else {
        assert first + rest == rest;
      }
    }
  }

  /** Which lines are collected does not depend on the order, so neither do the links. */
  lemma SameLines(pages: seq<nat>, done: seq<nat>, outcomes: Outcomes)
    requires multiset(done) == multiset(pages)
    ensures AnyImages(Collected(done, outcomes)) == AnyImages(Collected(pages, outcomes))
    ensures Paths(Collected(done, outcomes)) == Paths(Collected(pages, outcomes))
  {
    FlatMapPermutes(done, pages, LinesOf(outcomes));
    forall line: Line ensures line in Collected(done, outcomes) <==> line in Collected(pages, outcomes) {
      assert line in Collected(done, outcomes) <==> line in multiset(Collected(done, outcomes));
      assert line in Collected(pages, outcomes) <==> line in multiset(Collected(pages, outcomes));
    }
  }

  lemma KeptOfProcessed(done: seq<nat>, outcomes: Outcomes, store: Store)
    requires forall k :: k in done ==> OneLine(outcomes, k)
    ensures var lines := Collected(done, outcomes);
      Filter(Processed(lines, store), HasText)
      == FlatMap(done, Kept(outcomes, AnyImages(lines), Links(store, Paths(lines))))
  {
    var lines := Collected(done, outcomes);
    var any, links := AnyImages(lines), Links(store, Paths(lines));
    KeptByPage(done, outcomes, any, links);
    if any {
      StalePagesDrop(lines, LastImagePage(lines), links);
    } else {
      assert Map(lines, (line: Line) => Shown(any, links, line)) == lines;
    }
  }

  /** For every order in which the page workers finish, the text is that of the pages in page
      order: the carried page numbers do not show. */
  lemma OrderDoesNotShow(pages: seq<nat>, done: seq<nat>, outcomes: Outcomes, store: Store)
    requires Ascending(pages) && multiset(done) == multiset(pages)
    requires forall k :: k in pages ==> OneLine(outcomes, k)
    ensures Join(Texts(Sort(Processed(Collected(done, outcomes), store), ByPage())), SEPARATOR)
         == TextInPageOrder(pages, outcomes, store)
  {
    var lines := Collected(done, outcomes);
    var any, links := AnyImages(lines), Links(store, Paths(lines));
    var kept := Kept(outcomes, any, links);
    forall k | k in done ensures OneLine(outcomes, k) {
      assert k in multiset(pages);
    }
    SameLines(pages, done, outcomes);
    KeptOfProcessed(done, outcomes, store);
    FlatMapPermutes(done, pages, kept);
    KeptAscends(pages, outcomes, any, links);
    SortUnshuffles(FlatMap(done, kept), FlatMap(pages, kept), ByPage());
    SortFilter(Processed(lines, store), ByPage(), HasText);
    TextsOfKept(Sort(Processed(lines, store), ByPage()));
    TextsByPage(pages, outcomes, any, links);
  }

  /** The parallel merge as the parser performs it. */
  method ParseIntoText(ghost pages: seq<nat>, done: seq<nat>, outcomes: Outcomes, store: Store) returns (text: string)
    requires Ascending(pages) && multiset(done) == multiset(pages)
    requires forall k :: k in pages ==> OneLine(outcomes, k)
    ensures text == TextInPageOrder(pages, outcomes, store)
  {
    var results := CollectResults(done, outcomes);
    var lines := ProcessResults(results, store);
    text := JoinTexts(lines);
    OrderDoesNotShow(pages, done, outcomes, store);
  }

  /** The carried page number is real: a page without content, completed after a page with an
      image, is filed under that other page. */
  lemma StalePageHappens(store: Store)
    ensures var lines := [Line("", 3, ["a"], [Image("a")]), Line("", 5, [], [])];
      |Processed(lines, store)| == 2 && Processed(lines, store)[1].page == 3
  {
    var lines := [Line("", 3, ["a"], [Image("a")]), Line("", 5, [], [])];
    var links := Links(store, Paths(lines));
    assert lines[0] in lines;
    RebuiltStep(lines, 0, LastImagePage(lines), links);
    RebuiltStep(lines, 1, 3, links);
    assert lines[0..] == lines && lines[2..] == [];
  }
}
