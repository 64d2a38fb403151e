/** Glyph boxes of a PDF page, in PDF points with the y axis pointing up. */
module PdfGlyphs {
  datatype Glyph = Glyph(x0: real, x1: real, y0: real, y1: real, ch: string)

  /** The page reader swaps the edges of a box when they come in the wrong order. */
  predicate Ordered(s: seq<Glyph>) {
    forall i :: 0 <= i < |s| ==> s[i].x0 <= s[i].x1
  }

  function MidX(g: Glyph): real { (g.x0 + g.x1) / 2.0 }

  function MidY(g: Glyph): real { (g.y0 + g.y1) / 2.0 }

  function MaxReal(a: real, b: real): real { if a < b then b else a }
}
