/** The text of a PDF page from its glyphs: columns, the filter on columns, lines, and punctuation lines. */
module PdfPage {
  import opened Seqs
  import opened PdfGlyphs
  import opened PdfLines
  import Columns = PdfColumns

  /** What the layout text depends on besides the glyphs. */
  datatype Style = Style(
    scale: real, width: real, ratio: real, mark: Punctuation, ws: WhiteSpace, artifact: ArtifactTest, span: Extent)

  function ColumnLines(style: Style): seq<Glyph> -> seq<string> {
    (column: seq<Glyph>) => MergeOrphans(TextLines(column, style.ratio, style.ws), style.mark, style.ws)
  }

  function KeptColumns(chars: seq<Glyph>, style: Style): seq<seq<Glyph>> {
    ReadingColumns(Columns.SplitColumns(chars, style.scale, style.width), style.artifact, style.span)
  }

  /** The lines of the page: those of each kept column in turn. */
  function PageLines(chars: seq<Glyph>, style: Style): seq<string> {
    FlatMap(KeptColumns(chars, style), ColumnLines(style))
  }

  ghost predicate SameInk(text: string, glyphs: seq<Glyph>, ws: WhiteSpace) {
    multiset(Inked(text, ws)) == multiset(Inked(Chars(glyphs), ws))
  }

  lemma ColumnInk(column: seq<Glyph>, style: Style)
    requires style.ws(' ')
    ensures SameInk(Concat(ColumnLines(style)(column)), column, style.ws)
  {
    MergeKeepsInk(TextLines(column, style.ratio, style.ws), style.mark, style.ws);
    ColumnTextConservesInk(column, style.ratio, style.ws);
  }

  lemma InkAdds(text: string, glyphs: seq<Glyph>, moreText: string, more: seq<Glyph>, ws: WhiteSpace)
    requires SameInk(text, glyphs, ws) && SameInk(moreText, more, ws)
    ensures SameInk(text + moreText, glyphs + more, ws)
  {
    CharsAppend(glyphs, more);
    FilterAppend(text, moreText, Ink(ws));
    FilterAppend(Chars(glyphs), Chars(more), Ink(ws));
  }

  lemma InkOfColumns(
    first: seq<string>, rest: seq<string>, column: seq<Glyph>, columns: seq<seq<Glyph>>, ws: WhiteSpace)
    requires SameInk(Concat(first), column, ws) && SameInk(Concat(rest), Flatten(columns), ws)
    ensures SameInk(Concat(first + rest), column + Flatten(columns), ws)
  {
    FlattenAppend(first, rest);
    InkAdds(Concat(first), column, Concat(rest), Flatten(columns), ws);
  }

  lemma {:induction false} ColumnsInk(columns: seq<seq<Glyph>>, style: Style)
    requires style.ws(' ')
    ensures SameInk(Concat(FlatMap(columns, ColumnLines(style))), Flatten(columns), style.ws)
  {
    if columns != [] {
      var lines := ColumnLines(style);
      ColumnInk(columns[0], style);
      ColumnsInk(columns[1..], style);
      InkOfColumns(lines(columns[0]), FlatMap(columns[1..], lines), columns[0], columns[1..], style.ws);
    }
  }

  /** The text of a page carries exactly the ink of the glyphs in its kept columns. */
  lemma PageTextCarriesKeptInk(chars: seq<Glyph>, style: Style)
    requires style.ws(' ')
    ensures SameInk(Concat(PageLines(chars, style)), Flatten(KeptColumns(chars, style)), style.ws)
  {
    ColumnsInk(KeptColumns(chars, style), style);
  }

  /** On a page without artifact columns, the text carries the ink of every glyph. */
  lemma PageTextCarriesAllInk(chars: seq<Glyph>, style: Style)
    requires style.ws(' ')
    requires forall c :: c in Columns.SplitColumns(chars, style.scale, style.width) ==> !style.artifact(c)
    ensures SameInk(Concat(PageLines(chars, style)), chars, style.ws)
  {
    var columns := Columns.SplitColumns(chars, style.scale, style.width);
    FilterAll(columns, NotArtifact(style.artifact));
    assert KeptColumns(chars, style) == columns;
    PageTextCarriesKeptInk(chars, style);
    Columns.ColumnsConserveGlyphs(chars, style.scale, style.width);
    InkOfPermutation(Flatten(columns), chars, style.ws);
  }
}
