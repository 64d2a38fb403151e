/** The text of a DOCX document, page by page, without workers, lines and links.

    Pieces of text and images stand in the order of the page; which images became links depends on
    the image store alone. */
module DocxTexts {
  import opened Seqs
  import opened DocxAssembly

  /** The paths of all images that some page found. */
  function Found(pages: seq<nat>, outcomes: Outcomes): set<string> {
    set k, line: Line, path |
      k in pages && outcomes(k).Some? && line in outcomes(k).value && path in line.images :: path
  }

  /** A piece of text stays as it is. An image whose file exists and can be uploaded becomes a link to its
      URL, any other image disappears. */
  function Says(store: Store, found: set<string>): Content -> seq<string> {
    (c: Content) =>
      match c
      case Text(text) => [text]
      case Image(path) =>
        if path != "" && path in found && store.there(path) && store.upload(path) != ""
        then ["![](" + store.upload(path) + ")"]
        else []
  }

  function NotEmpty(): string -> bool { (text: string) => text != "" }

  /** A page without a result has no text. When images were found anywhere, the text of a page is put
      together from its pieces, otherwise it is the text its worker returned. */
  function PageText(store: Store, found: set<string>, outcomes: Outcomes): nat -> string {
    (k: nat) =>
      if outcomes(k).None? || outcomes(k).value == [] then ""
      else if found == {} then outcomes(k).value[0].text
      else Join(Filter(FlatMap(outcomes(k).value[0].content, Says(store, found)), NotEmpty()), "\n\n")
  }

  lemma {:induction false} FlatMapAgree<T, U>(s: seq<T>, f: T -> seq<U>, g: T -> seq<U>)
    requires forall x :: f(x) == g(x)
    ensures FlatMap(s, f) == FlatMap(s, g)
  {
    if s != [] {
      FlatMapAgree(s[1..], f, g);
    }
  }

  lemma PathsAreFound(pages: seq<nat>, outcomes: Outcomes)
    ensures Paths(Collected(pages, outcomes)) == Found(pages, outcomes)
    ensures AnyImages(Collected(pages, outcomes)) <==> Found(pages, outcomes) != {}
  {
    var lines := Collected(pages, outcomes);
    forall line: Line
      ensures line in lines <==> exists k :: k in pages && outcomes(k).Some? && line in outcomes(k).value
    {
      FlatMapMember(pages, LinesOf(outcomes), line);
    }
    SomePath(lines);
  }

  lemma SomePath(lines: seq<Line>)
    ensures AnyImages(lines) <==> Paths(lines) != {}
  {
    forall line: Line | line in lines && line.images != [] ensures line.images[0] in Paths(lines) {
      assert line.images[0] in line.images;
    }
  }

  lemma SaysTheSame(store: Store, lines: seq<Line>, content: seq<Content>)
    ensures Pieces(content, Links(store, Paths(lines))) == FlatMap(content, Says(store, Paths(lines)))
  {
    forall c ensures PieceOf(Links(store, Paths(lines)))(c) == Says(store, Paths(lines))(c) {
    }
    FlatMapAgree(content, PieceOf(Links(store, Paths(lines))), Says(store, Paths(lines)));
  }

  lemma LineSaysThePage(k: nat, lines: seq<Line>, store: Store, outcomes: Outcomes)
    requires outcomes(k).Some? && outcomes(k).value != []
    requires AnyImages(lines) <==> Paths(lines) != {}
    ensures Shown(AnyImages(lines), Links(store, Paths(lines)), outcomes(k).value[0]).text
         == PageText(store, Paths(lines), outcomes)(k)
  {
    var line, links := outcomes(k).value[0], Links(store, Paths(lines));
    SaysTheSame(store, lines, line.content);
    FilterAgree(Pieces(line.content, links), IsText, NotEmpty());
  }

  lemma {:induction false} PagesSay(ks: seq<nat>, lines: seq<Line>, store: Store, outcomes: Outcomes)
    requires AnyImages(lines) <==> Paths(lines) != {}
    ensures PageTexts(ks, outcomes, AnyImages(lines), Links(store, Paths(lines)))
         == Filter(Map(ks, PageText(store, Paths(lines), outcomes)), NotEmpty())
  {
    if ks != [] {
      PagesSay(ks[1..], lines, store, outcomes);
      var text := PageText(store, Paths(lines), outcomes);
      assert Map(ks, text)[1..] == Map(ks[1..], text);
      if outcomes(ks[0]).Some? && outcomes(ks[0]).value != [] {
        LineSaysThePage(ks[0], lines, store, outcomes);
      }
    }
  }

  /** The text of the document: the texts of its pages that have one, in page order, with an empty line
      between them. */
  lemma TextMeaning(pages: seq<nat>, outcomes: Outcomes, store: Store)
    ensures TextInPageOrder(pages, outcomes, store)
         == Join(Filter(Map(pages, PageText(store, Found(pages, outcomes), outcomes)), NotEmpty()), "\n\n")
  {
    PathsAreFound(pages, outcomes);
    SomePath(Collected(pages, outcomes));
    PagesSay(pages, Collected(pages, outcomes), store, outcomes);
  }

  /** The page variable before the lines are rebuilt: the page of the last line with images, or 0. */
  lemma {:induction false} LastPageMeaning(lines: seq<Line>, i: nat)
    requires i < |lines| && lines[i].images != []
    requires forall j :: i < j < |lines| ==> lines[j].images == []
    ensures LastImagePage(lines) == lines[i].page
    ensures LastImagePage([]) == 0
  {
    if i < |lines| - 1 {
      LastPageMeaning(lines[..|lines| - 1], i);
    }
  }
}
