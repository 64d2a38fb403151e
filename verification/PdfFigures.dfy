/** The clips of vector figures, put in front of the captions of a page's text. */
module PdfFigures {
  import opened Strings

  // What counts as a caption is a parameter.

  /** `os.path.basename`. */
  function Basename(path: string): string { Split(path, '/')[|Split(path, '/')| - 1] }

  function ImageLine(path: string): string { "![" + Basename(path) + "](" + path + ")" }

  predicate ShowsImage(line: string) { "![" <= LStrip(line, White) }

  /** The base name is what follows the last slash. */
  lemma {:induction false} BasenameMeaning(front: string, name: string)
    requires '/' !in name && (front == "" || front[|front| - 1] == '/')
    ensures Basename(front + name) == name
    decreases |front|
  {
    var path := front + name;
    if front == "" {
      assert path == name;
      SpanIs(path, IsNot('/'), |path|);
    } else {
      var n := Span(path, IsNot('/'));
      assert path[|front| - 1] == '/';
      assert path[n + 1..] == front[n + 1..] + name;
      BasenameMeaning(front[n + 1..], name);
    }
  }

  /** What a caption is, what a line with an image is, and how a clip is put in front of a line. */
  datatype Style = Style(caption: string -> bool, shows: string -> bool, put: (string, string) -> string)

  function Markdown(caption: string -> bool): Style {
    Style(caption, (line: string) => ShowsImage(line), (path: string, line: string) => ImageLine(path) + "\n\n" + line)
  }

  /** The line above line i shows an image. */
  predicate Crowded(style: Style, out: seq<string>, i: nat) { 0 < i <= |out| && style.shows(out[i - 1]) }

  /** The lines of a page with clips in front of captions; the j-th clip is at line `spots[j]`. */
  datatype Injection = Injection(out: seq<string>, spots: seq<nat>)

  function PutAt(r: Injection, path: string, style: Style, i: nat): Injection
    requires i < |r.out|
  {
    Injection(r.out[i := style.put(path, r.out[i])], r.spots + [i])
  }

  /** A clip in front of a caption is an image named after its file, an empty line, and the caption. */
  lemma ClipInFront(caption: string -> bool, front: string, name: string, line: string)
    requires '/' !in name && (front == "" || front[|front| - 1] == '/')
    ensures Markdown(caption).put(front + name, line) == "![" + name + "](" + front + name + ")\n\n" + line
  {
    BasenameMeaning(front, name);
    assert ")\n\n" == ")" + "\n\n";
    var path := front + name;
    assert "![" + name + "](" + path + (")" + "\n\n") + line == "![" + name + "](" + path + ")" + "\n\n" + line;
  }

  /** A line shows an image when `![` is the first thing in it that is not white space. */
  lemma ShowsImageIff(caption: string -> bool, line: string)
    ensures Markdown(caption).shows(line) <==>
      exists n :: 0 <= n < |line| - 1 && AllOf(line[..n], White) && line[n] == '!' && line[n + 1] == '['
  {
    var n := Span(line, White);
    forall m | 0 <= m < |line| - 1 && AllOf(line[..m], White) && line[m] == '!'
      ensures m == n
    {
      assert forall i :: 0 <= i < m ==> line[..m][i] == line[i];
      SpanIs(line, White, m);
    }
    if ShowsImage(line) {
      assert line[n..][0] == "!["[0] && line[n..][1] == "!["[1];
      assert AllOf(line[..n], White);
    }
  }

  /** Line i takes the next clip if it is a caption and not crowded. */
  function Serve(r: Injection, paths: seq<string>, style: Style, i: nat): Injection
    requires i < |r.out|
  {
    if |r.spots| < |paths| && style.caption(r.out[i]) && !Crowded(style, r.out, i) then
      PutAt(r, paths[|r.spots|], style, i)
    else r
  }

  /** The first n lines are served in order. */
  function Inject(lines: seq<string>, paths: seq<string>, style: Style, n: nat): (r: Injection)
    requires n <= |lines|
    ensures |r.out| == |lines| && |r.spots| <= |paths|
  {
    if n == 0 then Injection(lines, []) else Serve(Inject(lines, paths, style, n - 1), paths, style, n - 1)
  }

  lemma InjectStep(lines: seq<string>, paths: seq<string>, style: Style, n: nat)
    requires n < |lines|
    ensures Inject(lines, paths, style, n + 1) == Serve(Inject(lines, paths, style, n), paths, style, n)
  {
  }

  /** After the first n lines: the lines in `spots` are captions, the j-th of them with the j-th clip in
      front of it and no image above, and no other line differs. */
  ghost predicate Placed(lines: seq<string>, paths: seq<string>, style: Style, r: Injection, n: nat) {
    && n <= |lines| == |r.out| && |r.spots| <= |paths|
    && (forall j, k :: 0 <= j < k < |r.spots| ==> r.spots[j] < r.spots[k])
    && (forall j :: 0 <= j < |r.spots| ==> r.spots[j] < n && HasClip(lines, paths[j], style, r.out, r.spots[j]))
    && (forall i :: 0 <= i < |lines| && i !in r.spots ==> r.out[i] == lines[i])
  }

  ghost predicate HasClip(lines: seq<string>, path: string, style: Style, out: seq<string>, i: nat) {
    && i < |lines| == |out| && style.caption(lines[i]) && (i >= 1 ==> !style.shows(out[i - 1]))
    && out[i] == style.put(path, lines[i])
  }

  /** A caption without clip has an image directly above it or comes after all clips. */
  ghost predicate Skipped(lines: seq<string>, count: nat, style: Style, r: Injection, n: nat) {
    forall i :: 0 <= i < n <= |lines| && i !in r.spots && style.caption(lines[i]) ==>
      (1 <= i <= |r.out| && style.shows(r.out[i - 1])) || AfterAll(r, count, i)
  }

  ghost predicate AfterAll(r: Injection, count: nat, i: nat) {
    |r.spots| == count && forall j :: 0 <= j < |r.spots| ==> r.spots[j] < i
  }

  lemma PlaceHere(lines: seq<string>, paths: seq<string>, style: Style, r: Injection, n: nat)
    requires Placed(lines, paths, style, r, n) && n < |lines| && |r.spots| < |paths|
    requires style.caption(lines[n]) && !Crowded(style, r.out, n)
    ensures Placed(lines, paths, style, PutAt(r, paths[|r.spots|], style, n), n + 1)
  {
    var r' := PutAt(r, paths[|r.spots|], style, n);
    assert n !in r.spots;
    forall j | 0 <= j < |r'.spots| ensures HasClip(lines, paths[j], style, r'.out, r'.spots[j]) {
      if j < |r.spots| {
        assert HasClip(lines, paths[j], style, r.out, r.spots[j]);
      }
    }
    forall i | 0 <= i < |lines| && i !in r'.spots ensures r'.out[i] == lines[i] {
      assert i !in r.spots;
      assert r'.spots[|r.spots|] == n;
    }
  }

  lemma SkipHere(lines: seq<string>, paths: seq<string>, style: Style, r: Injection, n: nat)
    requires Placed(lines, paths, style, r, n) && n < |lines| && |r.spots| < |paths|
    requires Skipped(lines, |paths|, style, r, n)
    ensures Skipped(lines, |paths|, style, PutAt(r, paths[|r.spots|], style, n), n + 1)
  {
    var r' := PutAt(r, paths[|r.spots|], style, n);
    assert r'.spots[|r.spots|] == n;
    forall i | 0 <= i < n + 1 && i !in r'.spots && style.caption(lines[i]) ensures Crowded(style, r'.out, i) {
      assert i !in r.spots;
      assert Crowded(style, r.out, i);
    }
  }

  /** What the injection has done after n lines, without its order of work. */
  ghost predicate Served(lines: seq<string>, paths: seq<string>, style: Style, r: Injection, n: nat) {
    Placed(lines, paths, style, r, n) && Skipped(lines, |paths|, style, r, n)
  }

  lemma ServeMeaning(lines: seq<string>, paths: seq<string>, style: Style, r: Injection, n: nat)
    requires Served(lines, paths, style, r, n) && n < |lines|
    ensures |r.out| == |lines| && Served(lines, paths, style, Serve(r, paths, style, n), n + 1)
  {
    assert n !in r.spots;
    if |r.spots| < |paths| && style.caption(r.out[n]) && !Crowded(style, r.out, n) {
      PlaceHere(lines, paths, style, r, n);
      SkipHere(lines, paths, style, r, n);
    }
  }

  lemma NothingServed(lines: seq<string>, paths: seq<string>, style: Style)
    ensures Served(lines, paths, style, Injection(lines, []), 0)
  {
  }

  /** What holds at the start and is kept by each line holds after the injection. */
  lemma {:induction false} InjectKeeps(
    lines: seq<string>, paths: seq<string>, style: Style, n: nat, kept: (Injection, nat) -> bool)
    requires n <= |lines| && kept(Injection(lines, []), 0)
    requires forall r: Injection, i: nat {:trigger kept(r, i)} ::
      i < |lines| == |r.out| && kept(r, i) ==> kept(Serve(r, paths, style, i), i + 1)
    ensures kept(Inject(lines, paths, style, n), n)
  {
    if n > 0 {
      InjectKeeps(lines, paths, style, n - 1, kept);
    }
  }

  lemma InjectMeaning(lines: seq<string>, paths: seq<string>, style: Style)
    ensures Served(lines, paths, style, Inject(lines, paths, style, |lines|), |lines|)
  {
    NothingServed(lines, paths, style);
    forall r: Injection, i: nat | i < |lines| == |r.out| && Served(lines, paths, style, r, i)
      ensures Served(lines, paths, style, Serve(r, paths, style, i), i + 1)
    {
      ServeMeaning(lines, paths, style, r, i);
    }
    InjectKeeps(lines, paths, style, |lines|, (r: Injection, i: nat) => Served(lines, paths, style, r, i));
  }

  lemma {:induction false} NoClipsLeft(lines: seq<string>, paths: seq<string>, style: Style, n: nat, m: nat)
    requires n <= m <= |lines| && |Inject(lines, paths, style, n).spots| == |paths|
    ensures Inject(lines, paths, style, m) == Inject(lines, paths, style, n)
    decreases m
  {
    if n < m {
      NoClipsLeft(lines, paths, style, n, m - 1);
    }
  }

  /** The clips of a page are put in front of its captions, until the clips or the lines run out. */
  method InjectFigures(lines: seq<string>, paths: seq<string>, style: Style)
      returns (out: seq<string>, ghost spots: seq<nat>)
    ensures out == Inject(lines, paths, style, |lines|).out && spots == Inject(lines, paths, style, |lines|).spots
    ensures Served(lines, paths, style, Injection(out, spots), |lines|)
  {
    out, spots := lines, [];
    var next := 0;
    for i := 0 to |lines|
      invariant Injection(out, spots) == Inject(lines, paths, style, i) && next == |spots|
    {
      if next >= |paths| {
        NoClipsLeft(lines, paths, style, i, |lines|);
        InjectMeaning(lines, paths, style);
        return;
      }
      InjectStep(lines, paths, style, i);
      if !style.caption(out[i]) {
        continue;
      }
      if i > 0 && style.shows(out[i - 1]) {
        continue;
      }
      out := out[i := style.put(paths[next], out[i])];
      spots := spots + [i];
      next := next + 1;
    }
    InjectMeaning(lines, paths, style);
  }
}
