/** The names of the images of an MHTML archive, and what can overwrite what. */
module MhtmlImages {
  import opened Strings
  import opened Decimals

  // Each non-empty image part is stored under a path made from its file name, or from a fresh identifier when
  // it has none, and the references the page may use for it are kept as aliases of that path.
  // The identifiers are inputs. Nothing is assumed of them: whether they are fresh is what decides
  // whether an image can overwrite another one. The search for a free name runs over the names that
  // a part could get, which are all different, so it ends.

  /** An image part with data: its file name ("" if the location gives none), the extension of its
      content type, the identifier generated for it, its data, and the references to it. */
  datatype Part = Part(filename: string, ext: string, uuid: string, data: string, refs: seq<string>)

  predicate IsDot(c: char) { c == '.' }

  /** The position of the last dot, or the length. */
  function LastDot(name: string): (n: nat)
    ensures n <= |name|
    ensures n < |name| ==> name[n] == '.'
    ensures forall i :: 0 <= i < |name| && (i > n || n == |name|) ==> name[i] != '.'
  {
    if name == [] then 0
    else if name[|name| - 1] == '.' then |name| - 1
    else
      var n := LastDot(name[..|name| - 1]);
      if n == |name| - 1 then |name| else n
  }

  /** `os.path.splitext`: the extension starts at the last dot, unless only dots stand in front of it. */
  function SplitExt(name: string): (r: (string, string))
    ensures r.0 + r.1 == name
  {
    var n := LastDot(name);
    if n == |name| || AllOf(name[..n], IsDot) then (name, "") else (name[..n], name[n..])
  }

  /** What follows the last dot, dot included, is the extension, if something else than dots stands in
      front of it. */
  lemma SplitExtMeaning(stem: string, ext: string, i: nat)
    requires i < |stem| && stem[i] != '.' && ext != "" && ext[0] == '.' && '.' !in ext[1..]
    ensures SplitExt(stem + ext) == (stem, ext)
  {
    var name := stem + ext;
    var n := LastDot(name);
    assert name[|stem|] == '.';
    assert forall k :: |stem| < k < |name| ==> name[k] == ext[1..][k - |stem| - 1];
    assert n == |stem|;
    assert name[..|stem|] == stem && name[|stem|..] == ext;
    assert !IsDot(stem[i]);
  }

  /** Without a dot behind another character there is no extension. */
  lemma NoExtension(name: string)
    requires forall i, j :: 0 <= i < j < |name| && name[i] != '.' ==> name[j] != '.'
    ensures SplitExt(name) == (name, "")
  {
    var n := LastDot(name);
    if n < |name| {
      assert forall i :: 0 <= i < n ==> IsDot(name[i]);
    }
  }

  function WithExt(part: Part): string {
    if SplitExt(part.filename).1 == "" then part.filename + part.ext else part.filename
  }

  function FreshPath(part: Part): string { "images/" + part.uuid + part.ext }

  function NamedPath(part: Part): string { "images/" + WithExt(part) }

  function Candidate(part: Part, suffix: nat): string {
    var (stem, ext) := SplitExt(WithExt(part));
    "images/" + stem + "_" + Decimal(suffix) + ext
  }

  lemma CandidateParts(part: Part, k: nat)
    ensures var (stem, ext) := SplitExt(WithExt(part));
      Candidate(part, k) == ("images/" + stem + "_") + (Decimal(k) + ext)
  {
  }

  lemma CandidatesDiffer(part: Part, j: nat, k: nat)
    requires j != k
    ensures Candidate(part, j) != Candidate(part, k)
  {
    var (stem, ext) := SplitExt(WithExt(part));
    CandidateParts(part, j);
    CandidateParts(part, k);
    if Candidate(part, j) == Candidate(part, k) {
      SamePrefix("images/" + stem + "_", Decimal(j) + ext, Decimal(k) + ext);
      SameSuffix(Decimal(j), Decimal(k), ext);
      DecimalsDiffer(j, k);
    }
  }

  lemma SameSuffix(x: string, y: string, s: string)
    requires x + s == y + s
    ensures x == y
  {
    assert x == (x + s)[..|x|] && y == (y + s)[..|y|];
  }

  function Candidates(part: Part): nat -> string { (k: nat) => Candidate(part, k) }

  /** Number k is the smallest one from 2 on whose name is not in use. */
  predicate FirstFree(names: nat -> string, used: set<string>, k: nat) {
    2 <= k && names(k) !in used && forall j :: 2 <= j < k ==> names(j) in used
  }

  /** The path is the file name itself, or the name with the first free number. */
  predicate Chosen(part: Part, used: set<string>, path: string) {
    if part.filename == "" then path == FreshPath(part)
    else if NamedPath(part) !in used then path == NamedPath(part)
    else exists k :: 2 <= k <= |used| + 2 && FirstFree(Candidates(part), used, k) && path == Candidates(part)(k)
  }

  ghost predicate AllDifferent(names: nat -> string) { forall j: nat, k: nat :: j != k ==> names(j) != names(k) }

  /** The names with the numbers from 2 up to this one are all in use. */
  ghost predicate InUse(names: nat -> string, used: set<string>, n: nat) {
    forall j :: 2 <= j < n ==> names(j) in used
  }

  /** No more names are in use than there are names. */
  lemma {:induction false} Pigeonhole(names: nat -> string, used: set<string>, n: nat)
    requires AllDifferent(names) && InUse(names, used, n + 2)
    ensures n <= |used|
    decreases n
  {
    if n > 0 {
      var last := names(n + 1);
      assert InUse(names, used - {last}, n + 1);
      Pigeonhole(names, used - {last}, n - 1);
      assert used == (used - {last}) + {last};
    }
  }

  /** The search for a free name ends: the names tried are all different, and only so many are in use. */
  method FindFree(names: nat -> string, images: map<string, string>) returns (suffix: nat)
    requires AllDifferent(names)
    ensures FirstFree(names, images.Keys, suffix) && suffix <= |images| + 2
  {
    suffix := 2;
    while names(suffix) in images
      invariant 2 <= suffix <= |images| + 2 && InUse(names, images.Keys, suffix)
      decreases |images| + 2 - suffix
    {
      suffix := suffix + 1;
      Pigeonhole(names, images.Keys, suffix - 2);
    }
  }

  /** The names with numbers. */
  function WithNumber(stem: string, ext: string): nat -> string {
    (k: nat) => "images/" + stem + "_" + Decimal(k) + ext
  }

  lemma NamesOf(part: Part, stem: string, ext: string, i: nat)
    requires i < |stem| && stem[i] != '.' && ext != "" && ext[0] == '.' && '.' !in ext[1..]
    requires part.filename == stem + ext
      || (SplitExt(part.filename).1 == "" && part.filename == stem && part.ext == ext)
    ensures NamedPath(part) == "images/" + (stem + ext)
    ensures forall k: nat :: Candidates(part)(k) == WithNumber(stem, ext)(k)
  {
    SplitExtMeaning(stem, ext, i);
    assert WithExt(part) == stem + ext;
  }

  /** The path is the name with number k, and those with the smaller numbers from 2 on are in use. */
  ghost predicate NumberedPath(used: set<string>, path: string, names: nat -> string, k: nat) {
    k >= 2 && path == names(k) && path !in used && forall j :: 2 <= j < k ==> names(j) in used
  }

  lemma FreeNumber(names: nat -> string, same: nat -> string, used: set<string>, k: nat)
    requires FirstFree(names, used, k) && forall j: nat :: names(j) == same(j)
    ensures NumberedPath(used, names(k), same, k)
  {
  }

  /** The path of a part whose name, its own or that with the extension of its type, is `stem` and
      `ext`: that name, or when it is in use the first of those with a number from 2 on. */
  lemma PathMeaning(part: Part, used: set<string>, path: string, stem: string, ext: string, i: nat)
    requires Chosen(part, used, path) && part.filename != ""
    requires i < |stem| && stem[i] != '.' && ext != "" && ext[0] == '.' && '.' !in ext[1..]
    requires part.filename == stem + ext
      || (SplitExt(part.filename).1 == "" && part.filename == stem && part.ext == ext)
    ensures "images/" + (stem + ext) !in used ==> path == "images/" + (stem + ext)
    ensures "images/" + (stem + ext) in used ==> exists k: nat :: NumberedPath(used, path, WithNumber(stem, ext), k)
  {
    NamesOf(part, stem, ext, i);
    ChosenNumber(part, used, path, WithNumber(stem, ext));
  }

  lemma ChosenNumber(part: Part, used: set<string>, path: string, names: nat -> string)
    requires Chosen(part, used, path) && part.filename != "" && forall k: nat :: Candidates(part)(k) == names(k)
    ensures NamedPath(part) !in used ==> path == NamedPath(part)
    ensures NamedPath(part) in used ==> exists k: nat :: NumberedPath(used, path, names, k)
  {
    if NamedPath(part) in used {
      var k :| 2 <= k <= |used| + 2 && FirstFree(Candidates(part), used, k) && path == Candidates(part)(k);
      FreeNumber(Candidates(part), names, used, k);
    }
  }

  /** A part without a name gets its identifier, whatever is in use. */
  lemma FreshMeaning(part: Part, used: set<string>, path: string)
    requires Chosen(part, used, path) && part.filename == ""
    ensures path == "images/" + (part.uuid + part.ext)
  {
    assert "images/" + part.uuid + part.ext == "images/" + (part.uuid + part.ext);
  }

  method ImagePathForPart(part: Part, images: map<string, string>) returns (path: string)
    ensures Chosen(part, images.Keys, path)
    ensures part.filename != "" ==> path !in images
  {
    if part.filename == "" {
      return FreshPath(part);
    }
    path := NamedPath(part);
    if path !in images {
      return;
    }
    forall j: nat, k: nat | j != k ensures Candidates(part)(j) != Candidates(part)(k) {
      CandidatesDiffer(part, j, k);
    }
    var suffix := FindFree(Candidates(part), images);
    path := Candidates(part)(suffix);
  }

  // ---- All parts of an archive ----

  /** The paths of the parts in order: each is chosen with the earlier ones in use. */
  ghost predicate PathsOf(parts: seq<Part>, paths: seq<string>) {
    && |paths| == |parts|
    && forall i :: 0 <= i < |parts| ==> Chosen(parts[i], Used(paths, i), paths[i])
  }

  function Used(paths: seq<string>, n: nat): set<string>
    requires n <= |paths|
  {
    set i | 0 <= i < n :: paths[i]
  }

  lemma UsedStep(paths: seq<string>, n: nat)
    requires n < |paths|
    ensures Used(paths, n + 1) == Used(paths, n) + {paths[n]}
  {
  }

  lemma UsedPrefix(paths: seq<string>, more: seq<string>, n: nat)
    requires n <= |paths|
    ensures Used(paths + more, n) == Used(paths, n)
  {
    assert forall i :: 0 <= i < n ==> (paths + more)[i] == paths[i];
  }

  /** Part i overwrites no earlier image: it is named, or its fresh path is really fresh. */
  predicate Unused(parts: seq<Part>, paths: seq<string>, i: nat)
    requires i < |parts| == |paths|
  {
    parts[i].filename == "" ==> FreshPath(parts[i]) !in Used(paths, i)
  }

  predicate Distinct(paths: seq<string>) { forall i, j :: 0 <= i < j < |paths| ==> paths[i] != paths[j] }

  /** No image overwrites another exactly when every generated identifier is fresh at its time. */
  lemma {:induction false} DistinctIffFresh(parts: seq<Part>, paths: seq<string>)
    requires PathsOf(parts, paths)
    ensures Distinct(paths) <==> forall i :: 0 <= i < |parts| ==> Unused(parts, paths, i)
  {
    forall i | 0 <= i < |parts| ensures paths[i] !in Used(paths, i) <==> Unused(parts, paths, i) {
      assert Chosen(parts[i], Used(paths, i), paths[i]);
    }
    if forall i :: 0 <= i < |parts| ==> Unused(parts, paths, i) {
      forall i, j | 0 <= i < j < |paths| ensures paths[i] != paths[j] {
        assert Unused(parts, paths, j);
        assert paths[i] in Used(paths, j);
      }
    }
    if Distinct(paths) {
      forall i | 0 <= i < |parts| ensures Unused(parts, paths, i) {
        assert forall j :: 0 <= j < i ==> paths[j] != paths[i];
      }
    }
  }

  /** The image map after the parts have been stored under the paths, one after the other. */
  function Stored(parts: seq<Part>, paths: seq<string>): map<string, string>
    requires |parts| == |paths|
  {
    if parts == [] then map[] else
    var n := |parts| - 1;
    Stored(parts[..n], paths[..n])[paths[n] := parts[n].data]
  }

  /** Python's `dict.update` with the same value for each reference. */
  function PointAll(aliases: map<string, string>, refs: seq<string>, path: string): map<string, string> {
    if refs == [] then aliases else PointAll(aliases, refs[..|refs| - 1], path)[refs[|refs| - 1] := path]
  }

  function Aliases(parts: seq<Part>, paths: seq<string>): map<string, string>
    requires |parts| == |paths|
  {
    if parts == [] then map[] else
    var n := |parts| - 1;
    PointAll(Aliases(parts[..n], paths[..n]), parts[n].refs, paths[n])
  }

  method AddImageAliases(aliases: map<string, string>, refs: seq<string>, path: string)
      returns (result: map<string, string>)
    ensures result == PointAll(aliases, refs, path)
  {
    result := aliases;
    for j := 0 to |refs|
      invariant result == PointAll(aliases, refs[..j], path)
    {
      assert refs[..j + 1][..j] == refs[..j];
      result := result[refs[j] := path];
    }
    assert refs[..|refs|] == refs;
  }

  lemma StoredNext(parts: seq<Part>, paths: seq<string>, i: nat, path: string)
    requires i < |parts| && |paths| == i
    ensures Stored(parts[..i + 1], paths + [path]) == Stored(parts[..i], paths)[path := parts[i].data]
    ensures Aliases(parts[..i + 1], paths + [path]) == PointAll(Aliases(parts[..i], paths), parts[i].refs, path)
  {
    assert parts[..i + 1][..i] == parts[..i] && (paths + [path])[..i] == paths;
  }

  method CollectImages(parts: seq<Part>)
      returns (images: map<string, string>, aliases: map<string, string>, paths: seq<string>)
    ensures PathsOf(parts, paths)
    ensures images == Stored(parts, paths) && aliases == Aliases(parts, paths)
  {
    images, aliases, paths := map[], map[], [];
    for i := 0 to |parts|
      invariant PathsOf(parts[..i], paths)
      invariant images == Stored(parts[..i], paths) && aliases == Aliases(parts[..i], paths)
    {
      StoredKeys(parts[..i], paths);
      var path := ImagePathForPart(parts[i], images);
      PathsStep(parts, paths, i, path);
      StoredNext(parts, paths, i, path);
      images := images[path := parts[i].data];
      aliases := AddImageAliases(aliases, parts[i].refs, path);
      paths := paths + [path];
    }
    assert parts[..|parts|] == parts;
  }

  lemma {:induction false} StoredKeys(parts: seq<Part>, paths: seq<string>)
    requires |parts| == |paths|
    ensures Stored(parts, paths).Keys == Used(paths, |paths|)
  {
    if parts != [] {
      var n := |parts| - 1;
      StoredKeys(parts[..n], paths[..n]);
      UsedStep(paths, n);
      UsedPrefix(paths[..n], [paths[n]], n);
      assert paths == paths[..n] + [paths[n]];
    }
  }

  /** Every image holds the data of its part unless a later part has the same path. */
  lemma {:induction false} StoredData(parts: seq<Part>, paths: seq<string>, i: nat)
    requires i < |parts| == |paths| && forall j :: i < j < |paths| ==> paths[j] != paths[i]
    ensures paths[i] in Stored(parts, paths) && Stored(parts, paths)[paths[i]] == parts[i].data
  {
    var n := |parts| - 1;
    if i < n {
      StoredData(parts[..n], paths[..n], i);
    }
  }

  lemma {:induction false} PointAllMeans(aliases: map<string, string>, refs: seq<string>, path: string, a: string)
    ensures a in PointAll(aliases, refs, path) <==> a in aliases || a in refs
    ensures a in refs ==> PointAll(aliases, refs, path)[a] == path
    ensures a !in refs && a in aliases ==> PointAll(aliases, refs, path)[a] == aliases[a]
  {
    if refs != [] {
      var front := refs[..|refs| - 1];
      PointAllMeans(aliases, front, path, a);
      assert refs == front + [refs[|refs| - 1]];
    }
  }

  /** Part i is the last one that uses the reference. */
  predicate IsLastWith(parts: seq<Part>, a: string, i: nat)
    requires i < |parts|
  {
    a in parts[i].refs && forall j :: i < j < |parts| ==> a !in parts[j].refs
  }

  /** A reference that the last part does not use still has the same last part. */
  lemma LastStays(parts: seq<Part>, a: string, i: nat)
    requires i < |parts| - 1 && IsLastWith(parts[..|parts| - 1], a, i) && a !in parts[|parts| - 1].refs
    ensures IsLastWith(parts, a, i)
  {
    assert forall j :: i < j < |parts| - 1 ==> parts[..|parts| - 1][j] == parts[j];
  }

  ghost predicate LeadsToLast(parts: seq<Part>, paths: seq<string>, a: string, path: string)
    requires |parts| == |paths|
  {
    exists i :: 0 <= i < |parts| && IsLastWith(parts, a, i) && path == paths[i]
  }

  lemma LeadsOn(parts: seq<Part>, paths: seq<string>, a: string, path: string)
    requires |parts| == |paths| > 0 && a !in parts[|parts| - 1].refs
    requires LeadsToLast(parts[..|parts| - 1], paths[..|parts| - 1], a, path)
    ensures LeadsToLast(parts, paths, a, path)
  {
    var n := |parts| - 1;
    var i :| 0 <= i < n && IsLastWith(parts[..n], a, i) && path == paths[..n][i];
    LastStays(parts, a, i);
  }

  /** A reference used by some part leads to the image of the last such part, and so to an image. */
  lemma {:induction false} AliasesLead(parts: seq<Part>, paths: seq<string>, a: string)
    requires |parts| == |paths|
    ensures a in Aliases(parts, paths) <==> exists i :: 0 <= i < |parts| && a in parts[i].refs
    ensures a in Aliases(parts, paths) ==> Aliases(parts, paths)[a] in Stored(parts, paths)
    ensures a in Aliases(parts, paths) ==> LeadsToLast(parts, paths, a, Aliases(parts, paths)[a])
  {
    if parts != [] {
      var n := |parts| - 1;
      AliasesLead(parts[..n], paths[..n], a);
      PointAllMeans(Aliases(parts[..n], paths[..n]), parts[n].refs, paths[n], a);
      if a in parts[n].refs {
        assert IsLastWith(parts, a, n);
      } else if a in Aliases(parts, paths) {
        LeadsOn(parts, paths, a, Aliases(parts, paths)[a]);
      }
    }
  }

  lemma PathsStep(parts: seq<Part>, paths: seq<string>, i: nat, path: string)
    requires i < |parts| && PathsOf(parts[..i], paths) && Chosen(parts[i], Used(paths, i), path)
    ensures PathsOf(parts[..i + 1], paths + [path])
    ensures Used(paths + [path], i + 1) == Used(paths, i) + {path}
  {
    var longer := paths + [path];
    forall k | 0 <= k < i + 1 ensures Chosen(parts[..i + 1][k], Used(longer, k), longer[k]) {
      UsedPrefix(paths, [path], k);
      if k < i {
        assert Chosen(parts[..i][k], Used(paths, k), paths[k]);
      }
    }
    UsedStep(longer, i);
    UsedPrefix(paths, [path], i);
  }

  lemma DistinctSnoc(paths: seq<string>, path: string)
    ensures Distinct(paths + [path]) <==> Distinct(paths) && path !in Used(paths, |paths|)
  {
    var longer := paths + [path];
    forall i | 0 <= i < |paths| ensures longer[i] == paths[i] && paths[i] in Used(paths, |paths|) {
    }
    if Distinct(longer) {
      assert forall i :: 0 <= i < |paths| ==> longer[i] != longer[|paths|];
    }
  }

  /** There are as many images as paths exactly when no path comes twice. */
  lemma {:induction false} DistinctCount(paths: seq<string>)
    ensures |Used(paths, |paths|)| <= |paths|
    ensures |Used(paths, |paths|)| == |paths| <==> Distinct(paths)
  {
    if paths != [] {
      var front, last := paths[..|paths| - 1], paths[|paths| - 1];
      assert paths == front + [last];
      DistinctCount(front);
      DistinctSnoc(front, last);
      UsedStep(paths, |front|);
      UsedPrefix(front, [last], |front|);
    }
  }

  /** The image map has one entry per part exactly when every generated identifier was fresh. */
  lemma OneImagePerPart(parts: seq<Part>, paths: seq<string>)
    requires PathsOf(parts, paths)
    ensures |Stored(parts, paths)| == |parts| <==> forall i :: 0 <= i < |parts| ==> Unused(parts, paths, i)
  {
    StoredKeys(parts, paths);
    assert |Stored(parts, paths)| == |Stored(parts, paths).Keys|;
    DistinctCount(paths);
    DistinctIffFresh(parts, paths);
  }

  /** A path that the part can get, whatever is in use already. */
  ghost predicate CanGet(part: Part, path: string) {
    if part.filename == "" then path == FreshPath(part)
    else path == NamedPath(part) || exists k :: k >= 2 && path == Candidates(part)(k)
  }

  lemma ChosenCanBeGot(part: Part, used: set<string>, path: string)
    requires Chosen(part, used, path)
    ensures CanGet(part, path)
  {
    if part.filename != "" && path != NamedPath(part) {
      var k :| 2 <= k <= |used| + 2 && FirstFree(Candidates(part), used, k) && path == Candidates(part)(k);
    }
  }

  /** No identifier gives a path that an earlier part could have: neither its own generated path nor
      its name nor any numbered form of that. */
  ghost predicate IdentifiersApart(parts: seq<Part>) {
    forall i, j :: 0 <= j < i < |parts| && parts[i].filename == "" ==> !CanGet(parts[j], FreshPath(parts[i]))
  }

  /** Seen from the parts alone: such identifiers keep all images apart, each under its own path. */
  lemma ApartKeepsAll(parts: seq<Part>, paths: seq<string>)
    requires PathsOf(parts, paths) && IdentifiersApart(parts)
    ensures Distinct(paths) && |Stored(parts, paths)| == |parts|
  {
    forall i | 0 <= i < |parts| ensures Unused(parts, paths, i) {
      forall j | 0 <= j < i ensures parts[i].filename == "" ==> paths[j] != FreshPath(parts[i]) {
        assert Chosen(parts[j], Used(paths, j), paths[j]);
        ChosenCanBeGot(parts[j], Used(paths, j), paths[j]);
      }
    }
    DistinctIffFresh(parts, paths);
    OneImagePerPart(parts, paths);
  }
}
