/** Where the spaces of a line of text come from. */
module PdfWordSpaces {
  import opened Strings
  import opened PdfGlyphs
  import opened PdfLines
  import opened PdfLineMeaning

  predicate Blank(s: string, ws: WhiteSpace) { forall i :: 0 <= i < |s| ==> ws(s[i]) }

  predicate EndsIn(text: string, c: char) { text != "" && text[|text| - 1] == c }

  ghost predicate Readable(line: seq<Glyph>) { forall k :: 0 <= k < |line| ==> line[k].ch != "" }

  /** What a glyph adds to the text so far: itself; a space and itself if and only if neither it nor its
      neighbour is white space and the gap between them is wider than `gap`; nothing if and only if it is
      white space and the text ends in a space. */
  ghost predicate PieceOf(piece: string, text: string, prev: Glyph, cur: Glyph, gap: real, ws: WhiteSpace) {
    && (piece == [' '] + cur.ch <==> !Blank(prev.ch, ws) && !Blank(cur.ch, ws) && cur.x0 - prev.x1 > gap)
    && (piece == "" <==> Blank(cur.ch, ws) && EndsIn(text, ' '))
    && (piece == "" || piece == cur.ch || piece == [' '] + cur.ch)
  }

  ghost predicate PiecesOf(pieces: seq<string>, line: seq<Glyph>, gap: real, ws: WhiteSpace) {
    && |pieces| == |line| && (line != [] ==> pieces[0] == line[0].ch)
    && forall k :: 0 < k < |line| ==> PieceOf(pieces[k], Concat(pieces[..k]), line[k - 1], line[k], gap, ws)
  }

  /** The last of the parts ends as they do together. */
  ghost predicate SameEnd(parts: seq<string>) {
    parts != [] && parts[|parts| - 1] != "" &&
    forall c :: EndsIn(Concat(parts), c) <==> EndsIn(parts[|parts| - 1], c)
  }

  lemma AppendedEnd(parts: seq<string>, part: string)
    requires part != ""
    ensures SameEnd(parts + [part]) && Concat(parts + [part]) == Concat(parts) + part
  {
    ConcatLast(parts, part);
    var text := Concat(parts);
    assert (text + part)[|text + part| - 1] == part[|part| - 1];
  }

  lemma NextPiece(parts: seq<string>, prev: Glyph, cur: Glyph, gap: real, ws: WhiteSpace) returns (piece: string)
    requires SameEnd(parts) && prev.ch != "" && cur.ch != ""
    ensures var more := parts + GlyphParts(parts[|parts| - 1], prev, cur, gap, ws);
      SameEnd(more) && Concat(more) == Concat(parts) + piece
    ensures PieceOf(piece, Concat(parts), prev, cur, gap, ws)
  {
    var added := GlyphParts(parts[|parts| - 1], prev, cur, gap, ws);
    if added == [] {
      assert parts + added == parts;
      return "";
    }
    if |added| == 1 {
      AppendedEnd(parts, cur.ch);
      return cur.ch;
    }
    AppendedEnd(parts, " ");
    AppendedEnd(parts + [" "], cur.ch);
    assert parts + added == parts + [" "] + [cur.ch];
    assert Concat(parts) + " " + cur.ch == Concat(parts) + ([' '] + cur.ch);
    piece := [' '] + cur.ch;
  }

  lemma MorePieces(pieces: seq<string>, piece: string, line: seq<Glyph>, cur: Glyph, gap: real, ws: WhiteSpace)
    requires PiecesOf(pieces, line, gap, ws) && line != []
    requires PieceOf(piece, Concat(pieces), line[|line| - 1], cur, gap, ws)
    ensures PiecesOf(pieces + [piece], line + [cur], gap, ws)
  {
    var pieces', line', n := pieces + [piece], line + [cur], |line|;
    forall k | 0 < k <= n ensures PieceOf(pieces'[k], Concat(pieces'[..k]), line'[k - 1], line'[k], gap, ws) {
      assert pieces'[..k] == pieces[..k];
      assert pieces[..n] == pieces;
    }
  }

  lemma {:induction false} LinePieces(line: seq<Glyph>, gap: real, ws: WhiteSpace) returns (pieces: seq<string>)
    requires line != [] && Readable(line)
    ensures PiecesOf(pieces, line, gap, ws) && Concat(pieces) == Concat(LineParts(line, gap, ws))
    ensures SameEnd(LineParts(line, gap, ws))
  {
    if |line| == 1 {
      ConcatOne(line[0].ch);
      return [line[0].ch];
    }
    var n := |line| - 1;
    var front := line[..n];
    assert line == front + [line[n]] && front[n - 1] == line[n - 1];
    pieces := LinePieces(front, gap, ws);
    var piece := NextPiece(LineParts(front, gap, ws), line[n - 1], line[n], gap, ws);
    MorePieces(pieces, piece, front, line[n], gap, ws);
    ConcatLast(pieces, piece);
    pieces := pieces + [piece];
  }

  /** The text of a line is made of what its glyphs add, without the white space at its ends. The gap
      that makes a space is the typical width of a glyph times the ratio. */
  lemma JoinMeaning(line: seq<Glyph>, ratio: real, ws: WhiteSpace) returns (pieces: seq<string>, m: real)
    requires line != [] && Readable(line)
    ensures IsTypical(m, line, IsWide(), WidthOf()) && PiecesOf(pieces, line, m * ratio, ws)
    ensures JoinLine(line, ratio, ws) == Strip(Concat(pieces), ws)
  {
    m := TypicalGap(line, ratio);
    pieces := LinePieces(line, m * ratio, ws);
  }

  // ---- No two spaces ----

  ghost predicate SingleSpaces(text: string) {
    forall i :: 0 < i < |text| ==> !(text[i - 1] == ' ' && text[i] == ' ')
  }

  lemma SpaceOnce(text: string, piece: string, prev: Glyph, cur: Glyph, gap: real, ws: WhiteSpace)
    requires PieceOf(piece, text, prev, cur, gap, ws) && SingleSpaces(text)
    requires |cur.ch| == 1 && (EndsIn(text, ' ') ==> Blank(prev.ch, ws)) && ws(' ')
    ensures SingleSpaces(text + piece) && (EndsIn(text + piece, ' ') ==> Blank(cur.ch, ws))
  {
    assert piece != "" ==> (text + piece)[|text + piece| - 1] == cur.ch[0];
  }

  lemma {:induction false} PiecesSpaceOnce(pieces: seq<string>, line: seq<Glyph>, gap: real, ws: WhiteSpace)
    requires PiecesOf(pieces, line, gap, ws) && line != [] && ws(' ')
    requires forall k :: 0 <= k < |line| ==> |line[k].ch| == 1
    ensures SingleSpaces(Concat(pieces))
    ensures EndsIn(Concat(pieces), ' ') ==> Blank(line[|line| - 1].ch, ws)
  {
    var n := |line| - 1;
    assert pieces == pieces[..n] + [pieces[n]];
    ConcatLast(pieces[..n], pieces[n]);
    if n > 0 {
      forall k | 0 < k < n
        ensures PieceOf(pieces[..n][k], Concat(pieces[..n][..k]), line[..n][k - 1], line[..n][k], gap, ws)
      {
        assert pieces[..n][..k] == pieces[..k];
      }
      PiecesSpaceOnce(pieces[..n], line[..n], gap, ws);
      SpaceOnce(Concat(pieces[..n]), pieces[n], line[n - 1], line[n], gap, ws);
    }
  }

  /** When every glyph is one character, no text of a line has two spaces in a row, whatever the page
      draws. */
  lemma NoDoubleSpace(line: seq<Glyph>, ratio: real, ws: WhiteSpace)
    requires ws(' ') && forall k :: 0 <= k < |line| ==> |line[k].ch| == 1
    ensures SingleSpaces(JoinLine(line, ratio, ws))
  {
    if line != [] {
      var pieces, m := JoinMeaning(line, ratio, ws);
      PiecesSpaceOnce(pieces, line, m * ratio, ws);
      StrippedSpaces(Concat(pieces), ws);
    }
  }

  lemma StrippedSpaces(text: string, ws: WhiteSpace)
    requires SingleSpaces(text)
    ensures SingleSpaces(Strip(text, ws))
  {
    var left := LStrip(text, ws);
    forall i | 0 < i < |left| ensures !(left[i - 1] == ' ' && left[i] == ' ') {
      assert left[i - 1] == text[|text| - |left| + i - 1] && left[i] == text[|text| - |left| + i];
    }
    var s := Strip(text, ws);
    assert s <= left;
    forall i | 0 <= i < |s| ensures s[i] == left[i] {
    }
  }
}
