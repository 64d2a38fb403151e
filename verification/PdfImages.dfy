/** The images of a PDF: their names, the embedded figures that are kept, and the map they are stored in.

    Names are made of the document name, the page number and a running number, so that no image
    overwrites another.

    Rendering, decoding and hashing are inputs. */
module PdfImages {
  import opened Seqs
  import opened Decimals

  // ---- Names ----

  /** What an image shows. Pages count from 0, the running numbers of embedded figures from 1, those
      of vector figures, which are caption numbers, from 0. */
  datatype Ref = Scanned(page: nat) | Embedded(page: nat, number: nat) | Figure(page: nat, number: nat)

  function Tail(ref: Ref): string {
    match ref
    case Scanned(page) => "_page_" + Decimal(page + 1) + ".jpg"
    case Embedded(page, number) => "_p" + Decimal(page + 1) + "_img" + Decimal(number) + ".jpg"
    case Figure(page, number) => "_p" + Decimal(page + 1) + "_fig" + Decimal(number + 1) + ".jpg"
  }

  function Path(base: string, ref: Ref): string { "images/" + base + Tail(ref) }

  lemma Numerals()
    ensures Decimal(1) == "1" && Decimal(2) == "2" && Decimal(3) == "3" && Decimal(10) == "10" && Decimal(12) == "12"
  {
    assert Decimal(10) == Decimal(1) + "0" && Decimal(12) == Decimal(1) + "2";
  }

  /** A rendered page is named by its number, counted from 1. */
  lemma SpelledPage(base: string)
    ensures Path(base, Scanned(0)) == "images/" + base + "_page_1.jpg"
  {
    Numerals();
    var one := "1";
    assert "_page_1.jpg" == "_page_" + one + ".jpg";
    assert Path(base, Scanned(0)) == "images/" + base + ("_page_" + one + ".jpg");
  }

  /** An embedded figure is named by its page, counted from 1, and its own number. */
  lemma SpelledEmbedded(base: string)
    ensures Path(base, Embedded(11, 3)) == "images/" + base + "_p12_img3.jpg"
  {
    Numerals();
    var page, number := "12", "3";
    assert "_p12_img3.jpg" == "_p" + page + "_img" + number + ".jpg";
    assert Path(base, Embedded(11, 3)) == "images/" + base + ("_p" + page + "_img" + number + ".jpg");
  }

  /** The number of a vector figure counts from 1 too. */
  lemma SpelledFigure(base: string)
    ensures Path(base, Figure(1, 9)) == "images/" + base + "_p2_fig10.jpg"
  {
    Numerals();
    var page, number := "2", "10";
    assert "_p2_fig10.jpg" == "_p" + page + "_fig" + number + ".jpg";
    assert Path(base, Figure(1, 9)) == "images/" + base + ("_p" + page + "_fig" + number + ".jpg");
  }

  /** The three kinds of tails, cut where they start to differ. */
  lemma TailParts(ref: Ref)
    ensures ref.Scanned? ==> Tail(ref) == "_p" + ("age_" + (Decimal(ref.page + 1) + ".jpg"))
    ensures ref.Embedded? ==> Tail(ref) == "_p" + (Decimal(ref.page + 1) + ("_img" + (Decimal(ref.number) + ".jpg")))
    ensures ref.Figure? ==> Tail(ref) == "_p" + (Decimal(ref.page + 1) + ("_fig" + (Decimal(ref.number + 1) + ".jpg")))
  {
    match ref
    case Scanned(page) => assert "_page_" == "_p" + "age_"; JoinThree("_p", "age_", Decimal(page + 1), ".jpg");
    case Embedded(page, number) => JoinFour("_p", Decimal(page + 1), "_img", Decimal(number), ".jpg");
    case Figure(page, number) => JoinFour("_p", Decimal(page + 1), "_fig", Decimal(number + 1), ".jpg");
  }

  lemma JoinThree(a: string, b: string, c: string, d: string)
    ensures (a + b) + c + d == a + (b + (c + d))
  {
  }

  lemma JoinFour(a: string, b: string, c: string, d: string, e: string)
    ensures a + b + c + d + e == a + (b + (c + (d + e)))
  {
  }

  lemma AfterP(a: Ref, b: Ref, x: string, y: string)
    requires Tail(a) == "_p" + x && Tail(b) == "_p" + y && Tail(a) == Tail(b)
    ensures x == y
  {
    SamePrefix("_p", x, y);
  }

  lemma SameLengthParts(a: string, x: string, b: string, y: string)
    requires |a| == |b| && a + x == b + y
    ensures a == b && x == y
  {
    assert a == (a + x)[..|a|] && b == (b + y)[..|b|];
    SamePrefix(a, x, y);
  }

  lemma ThirdCharacter(ref: Ref)
    ensures |Tail(ref)| > 2 && (IsDigit(Tail(ref)[2]) <==> !ref.Scanned?)
  {
    TailParts(ref);
    ReadDecimal(ref.page + 1);
  }

  lemma ScannedApart(a: Ref, b: Ref)
    requires a.Scanned? && Tail(a) == Tail(b)
    ensures a == b
  {
    TailParts(a);
    TailParts(b);
    ThirdCharacter(a);
    ThirdCharacter(b);
    var x := "age_" + (Decimal(a.page + 1) + ".jpg");
    if b.Scanned? {
      var y := "age_" + (Decimal(b.page + 1) + ".jpg");
      AfterP(a, b, x, y);
      SamePrefix("age_", Decimal(a.page + 1) + ".jpg", Decimal(b.page + 1) + ".jpg");
      NumberInFront(a.page + 1, ".jpg", b.page + 1, ".jpg");
    }
  }

  lemma NumberedApart(p: nat, m: nat, s: string, q: nat, n: nat, t: string)
    requires |s| == |t| == 4 && s[0] == '_' && t[0] == '_'
    requires Decimal(p) + (s + (Decimal(m) + ".jpg")) == Decimal(q) + (t + (Decimal(n) + ".jpg"))
    ensures p == q && m == n && s == t
  {
    NumberInFront(p, s + (Decimal(m) + ".jpg"), q, t + (Decimal(n) + ".jpg"));
    SameLengthParts(s, Decimal(m) + ".jpg", t, Decimal(n) + ".jpg");
    NumberInFront(m, ".jpg", n, ".jpg");
  }

  /** No two images share a name, whatever the document is called. */
  lemma NamesDiffer(base: string, a: Ref, b: Ref)
    requires a != b
    ensures Path(base, a) != Path(base, b)
  {
    if Path(base, a) == Path(base, b) {
      assert Path(base, a) == ("images/" + base) + Tail(a) && Path(base, b) == ("images/" + base) + Tail(b);
      SamePrefix("images/" + base, Tail(a), Tail(b));
      SameTail(a, b);
    }
  }

  lemma SameTail(a: Ref, b: Ref)
    requires Tail(a) == Tail(b)
    ensures a == b
  {
    if a.Scanned? {
      ScannedApart(a, b);
    } else if b.Scanned? {
      ScannedApart(b, a);
    } else {
      NumberedTails(a, b);
    }
  }

  function Label(ref: Ref): string { if ref.Embedded? then "_img" else "_fig" }

  function NumberIn(ref: Ref): nat
    requires !ref.Scanned?
  {
    if ref.Embedded? then ref.number else ref.number + 1
  }

  lemma LabelsDiffer(a: Ref, b: Ref)
    requires Label(a) == Label(b)
    ensures a.Embedded? == b.Embedded?
    ensures |Label(a)| == |Label(b)| == 4 && Label(a)[0] == Label(b)[0] == '_'
  {
    assert "_img"[1] != "_fig"[1];
  }

  lemma NumberedParts(ref: Ref)
    requires !ref.Scanned?
    ensures Tail(ref) == "_p" + (Decimal(ref.page + 1) + (Label(ref) + (Decimal(NumberIn(ref)) + ".jpg")))
  {
    TailParts(ref);
  }

  lemma NumberedTails(a: Ref, b: Ref)
    requires !a.Scanned? && !b.Scanned? && Tail(a) == Tail(b)
    ensures a == b
  {
    NumberedParts(a);
    NumberedParts(b);
    LabelsDiffer(a, a);
    LabelsDiffer(b, b);
    var s, t := Label(a), Label(b);
    var m, n := NumberIn(a), NumberIn(b);
    AfterP(a, b, Decimal(a.page + 1) + (s + (Decimal(m) + ".jpg")), Decimal(b.page + 1) + (t + (Decimal(n) + ".jpg")));
    NumberedApart(a.page + 1, m, s, b.page + 1, n, t);
    LabelsDiffer(a, b);
    assert a.page == b.page;
  }

  // ---- Which embedded figures are kept ----

  /** An image object of a text page. */
  datatype Candidate = Candidate(
    page: nat, width: int, height: int, areaRatio: real, hash: string, top: real, data: string)

  datatype Limits = Limits(minPixels: int, minAreaRatio: real, repeatFraction: real, maxImages: int)

  function PagesWith(meta: seq<Candidate>, hash: string): set<nat> {
    set m: Candidate | m in meta && m.hash == hash :: m.page
  }

  function RepeatThreshold(textPages: nat, limits: Limits): int {
    if textPages == 0 then 2 else
    var share := (textPages as real * limits.repeatFraction).Floor;
    if share > 2 then share else 2
  }

  /** The same picture on this many pages is a logo or a watermark. */
  predicate Banned(meta: seq<Candidate>, textPages: nat, limits: Limits, hash: string) {
    |PagesWith(meta, hash)| >= RepeatThreshold(textPages, limits)
  }

  predicate Large(m: Candidate, limits: Limits) {
    m.areaRatio >= limits.minAreaRatio && m.width >= limits.minPixels && m.height >= limits.minPixels
  }

  /** Candidate k is large enough, not banned, and the first such picture on its page. */
  predicate Eligible(meta: seq<Candidate>, textPages: nat, limits: Limits, k: nat)
    requires k < |meta|
  {
    && Large(meta[k], limits) && !Banned(meta, textPages, limits, meta[k].hash)
    && forall j :: 0 <= j < k ==>
         !(meta[j].page == meta[k].page && meta[j].hash == meta[k].hash && Large(meta[j], limits))
  }

  function EligibleBelow(meta: seq<Candidate>, textPages: nat, limits: Limits, n: nat): (r: seq<nat>)
    requires n <= |meta|
    ensures AllBelow(r, n)
  {
    if n == 0 then []
    else if Eligible(meta, textPages, limits, n - 1) then EligibleBelow(meta, textPages, limits, n - 1) + [n - 1]
    else EligibleBelow(meta, textPages, limits, n - 1)
  }

  ghost predicate AllBelow(indices: seq<nat>, n: nat) { forall k :: 0 <= k < |indices| ==> indices[k] < n }

  /** They are exactly the eligible ones, each once, in ascending order. */
  lemma {:induction false} EligibleMeaning(meta: seq<Candidate>, textPages: nat, limits: Limits, n: nat)
    requires n <= |meta|
    ensures forall k: nat ::
      k in EligibleBelow(meta, textPages, limits, n) <==> k < n && Eligible(meta, textPages, limits, k)
    ensures Ascending(EligibleBelow(meta, textPages, limits, n))
  {
    if n > 0 {
      EligibleMeaning(meta, textPages, limits, n - 1);
    }
  }

  lemma {:induction false} EligibleGrow(meta: seq<Candidate>, textPages: nat, limits: Limits, n: nat, m: nat)
    requires n <= m <= |meta|
    ensures EligibleBelow(meta, textPages, limits, n) <= EligibleBelow(meta, textPages, limits, m)
    decreases m
  {
    if n < m {
      EligibleGrow(meta, textPages, limits, n, m - 1);
    }
  }

  /** The cap on the number of images; the test comes after the image is taken, so the first
      eligible image is taken under any cap. */
  function Cap(limits: Limits): nat { if limits.maxImages > 1 then limits.maxImages else 1 }

  /** The indices of the kept candidates. */
  function Selected(meta: seq<Candidate>, textPages: nat, limits: Limits): (r: seq<nat>)
    ensures AllBelow(r, |meta|)
  {
    var all := EligibleBelow(meta, textPages, limits, |meta|);
    if |all| <= Cap(limits) then all else all[..Cap(limits)]
  }

  /** The count stays within the cap exactly when the cap is at least one, or is zero and there is
      nothing to keep. */
  lemma CapHoldsIff(meta: seq<Candidate>, textPages: nat, limits: Limits)
    ensures |Selected(meta, textPages, limits)| <= limits.maxImages <==>
      limits.maxImages >= 1 || (limits.maxImages == 0 && EligibleBelow(meta, textPages, limits, |meta|) == [])
  {
  }

  /** The number of pages that makes a picture a logo: the share of the text pages, rounded down, but
      never less than two. */
  ghost predicate IsThreshold(t: int, textPages: nat, limits: Limits) {
    var share := textPages as real * limits.repeatFraction;
    t >= 2 && share < (t + 1) as real && (t == 2 || t as real <= share)
  }

  /** Candidate k reaches all three size limits, its picture is on fewer than t pages, and no such
      picture of that size comes before it on its page. */
  ghost predicate Qualifies(meta: seq<Candidate>, t: int, limits: Limits, k: nat)
    requires k < |meta|
  {
    && limits.minAreaRatio <= meta[k].areaRatio
    && limits.minPixels <= meta[k].width && limits.minPixels <= meta[k].height
    && |set c: Candidate | c in meta && c.hash == meta[k].hash :: c.page| < t
    && !exists j :: 0 <= j < k && meta[j].page == meta[k].page && meta[j].hash == meta[k].hash
         && limits.minAreaRatio <= meta[j].areaRatio
         && limits.minPixels <= meta[j].width && limits.minPixels <= meta[j].height
  }

  lemma QualifiesIff(meta: seq<Candidate>, textPages: nat, limits: Limits, t: int, k: nat)
    requires k < |meta| && IsThreshold(t, textPages, limits)
    ensures Eligible(meta, textPages, limits, k) <==> Qualifies(meta, t, limits, k)
  {
    assert t == RepeatThreshold(textPages, limits);
    assert PagesWith(meta, meta[k].hash) == set c: Candidate | c in meta && c.hash == meta[k].hash :: c.page;
  }

  /** Kept are candidates that qualify, in ascending order; as many as the cap allows, but one under any
      cap; and those that qualify and are not kept come after all that are. */
  lemma SelectedMeaning(meta: seq<Candidate>, textPages: nat, limits: Limits, t: int)
    requires IsThreshold(t, textPages, limits)
    ensures var kept := Selected(meta, textPages, limits);
      && Ascending(kept)
      && (forall k :: k in kept ==> k < |meta| && Qualifies(meta, t, limits, k))
      && (|kept| <= 1 || |kept| <= limits.maxImages)
      && forall k: nat :: k < |meta| && k !in kept && Qualifies(meta, t, limits, k) ==>
           |kept| >= 1 && |kept| >= limits.maxImages && forall j :: j in kept ==> j < k
  {
    var all, kept := EligibleBelow(meta, textPages, limits, |meta|), Selected(meta, textPages, limits);
    EligibleMeaning(meta, textPages, limits, |meta|);
    forall k: nat | k < |meta| ensures Eligible(meta, textPages, limits, k) <==> Qualifies(meta, t, limits, k) {
      QualifiesIff(meta, textPages, limits, t, k);
    }
    forall k: nat | k < |meta| && k !in kept && Qualifies(meta, t, limits, k)
      ensures |kept| >= 1 && |kept| >= limits.maxImages && forall j :: j in kept ==> j < k
    {
      assert k in all;
      var at :| 0 <= at < |all| && all[at] == k;
    }
  }

  /** A single candidate that is just large enough for the limits. */
  function Smallest(limits: Limits): Candidate {
    Candidate(0, limits.minPixels, limits.minPixels, limits.minAreaRatio, "", 0.0, "")
  }

  /** It is kept whatever the cap is. */
  lemma OneIsKept(limits: Limits)
    ensures |Selected([Smallest(limits)], 1, limits)| == 1
  {
    var meta := [Smallest(limits)];
    assert PagesWith(meta, "") == {0};
    assert Eligible(meta, 1, limits, 0);
    assert EligibleBelow(meta, 1, limits, 1) == EligibleBelow(meta, 1, limits, 0) + [0];
  }

  /** The setting is a hard cap, for every document, if and only if it is at least one. */
  lemma HardCapIff(limits: Limits)
    ensures (forall meta, textPages :: |Selected(meta, textPages, limits)| <= limits.maxImages)
       <==> limits.maxImages >= 1
  {
    OneIsKept(limits);
    forall meta, textPages: nat
      ensures limits.maxImages >= 1 ==> |Selected(meta, textPages, limits)| <= limits.maxImages
    {
      CapHoldsIff(meta, textPages, limits);
    }
  }

  /** The pages on which each picture occurs. */
  method CollectHashPages(meta: seq<Candidate>) returns (pages: map<string, set<nat>>)
    ensures forall h :: PagesWith(meta, h) == if h in pages then pages[h] else {}
  {
    pages := map[];
    for i := 0 to |meta|
      invariant forall h :: PagesWith(meta[..i], h) == if h in pages then pages[h] else {}
    {
      PagesWithStep(meta, i);
      var h := meta[i].hash;
      if h !in pages {
        pages := pages[h := {}];
      }
      pages := pages[h := pages[h] + {meta[i].page}];
    }
    assert meta[..|meta|] == meta;
  }

  lemma PagesWithStep(meta: seq<Candidate>, i: nat)
    requires i < |meta|
    ensures forall h ::
      PagesWith(meta[..i + 1], h) == PagesWith(meta[..i], h) + if meta[i].hash == h then {meta[i].page} else {}
  {
    var front := meta[..i];
    assert meta[..i + 1] == front + [meta[i]];
    assert forall m: Candidate :: m in front + [meta[i]] <==> m in front || m == meta[i];
  }

  /** The tests on one candidate, in the order of the source. */
  method Wanted(m: Candidate, pages: map<string, set<nat>>, seen: set<(nat, string)>, textPages: nat, limits: Limits)
      returns (wanted: bool)
    requires m.hash in pages
    ensures wanted <==>
      Large(m, limits) && |pages[m.hash]| < RepeatThreshold(textPages, limits) && (m.page, m.hash) !in seen
  {
    if m.areaRatio < limits.minAreaRatio {
      return false;
    }
    if m.width < limits.minPixels || m.height < limits.minPixels {
      return false;
    }
    if |pages[m.hash]| >= RepeatThreshold(textPages, limits) {
      return false;
    }
    wanted := (m.page, m.hash) !in seen;
  }

  /** Exactly the eligible candidates are kept, in order, up to the cap. */
  method SelectEmbeddedImages(meta: seq<Candidate>, textPages: nat, limits: Limits) returns (kept: seq<nat>)
    ensures kept == Selected(meta, textPages, limits)
  {
    var pages := CollectHashPages(meta);
    kept := [];
    var seen: set<(nat, string)> := {};
    for i := 0 to |meta|
      invariant kept == EligibleBelow(meta, textPages, limits, i) && (|kept| < limits.maxImages || kept == [])
      invariant SeenBefore(meta, textPages, limits, seen, i)
    {
      EligibleGrow(meta, textPages, limits, i + 1, |meta|);
      SeenStep(meta, textPages, limits, seen, i);
      var wanted := Wanted(meta[i], pages, seen, textPages, limits);
      if wanted {
        seen := seen + {(meta[i].page, meta[i].hash)};
        kept := kept + [i];
        if |kept| >= limits.maxImages {
          return;
        }
      }
    }
  }

  /** A large candidate with this page and picture, not banned, stands in front of candidate i. */
  predicate TakenBefore(meta: seq<Candidate>, textPages: nat, limits: Limits, page: nat, hash: string, i: nat)
    requires i <= |meta|
  {
    !Banned(meta, textPages, limits, hash) &&
    exists j :: 0 <= j < i && meta[j].page == page && meta[j].hash == hash && Large(meta[j], limits)
  }

  ghost predicate SeenBefore(
    meta: seq<Candidate>, textPages: nat, limits: Limits, seen: set<(nat, string)>, i: nat)
  {
    i <= |meta| && forall p: nat, h :: (p, h) in seen <==> TakenBefore(meta, textPages, limits, p, h, i)
  }

  lemma TakenStep(meta: seq<Candidate>, textPages: nat, limits: Limits, i: nat, page: nat, hash: string)
    requires i < |meta|
    ensures TakenBefore(meta, textPages, limits, page, hash, i + 1) <==>
      TakenBefore(meta, textPages, limits, page, hash, i)
      || (page == meta[i].page && hash == meta[i].hash && Large(meta[i], limits)
          && !Banned(meta, textPages, limits, hash))
  {
  }

  /** A candidate that is large and not banned is kept unless it has been seen on its page. */
  lemma SeenStep(meta: seq<Candidate>, textPages: nat, limits: Limits, seen: set<(nat, string)>, i: nat)
    requires i < |meta| && SeenBefore(meta, textPages, limits, seen, i)
    ensures var m := meta[i];
      var kept := Large(m, limits) && !Banned(meta, textPages, limits, m.hash) && (m.page, m.hash) !in seen;
      && m.page in PagesWith(meta, m.hash) && (Eligible(meta, textPages, limits, i) <==> kept)
      && SeenBefore(meta, textPages, limits, if kept then seen + {(m.page, m.hash)} else seen, i + 1)
  {
    var m := meta[i];
    assert m in meta;
    assert (m.page, m.hash) in seen <==> TakenBefore(meta, textPages, limits, m.page, m.hash, i);
    forall p: nat, h
      ensures TakenBefore(meta, textPages, limits, p, h, i + 1) <==>
        TakenBefore(meta, textPages, limits, p, h, i)
        || (p == m.page && h == m.hash && Large(m, limits) && !Banned(meta, textPages, limits, h))
    {
      TakenStep(meta, textPages, limits, i, p, h);
    }
  }

  // ---- The image map ----

  /** How images are named. */
  type Naming = Ref -> string

  function Paths(base: string): Naming { (ref: Ref) => Path(base, ref) }

  ghost predicate Injective(name: Naming) { forall a, b :: name(a) == name(b) ==> a == b }

  lemma PathsDiffer(base: string)
    ensures Injective(Paths(base))
  {
    forall a, b | Paths(base)(a) == Paths(base)(b) ensures a == b {
      if a != b {
        NamesDiffer(base, a, b);
      }
    }
  }

  /** An image about to be stored; `top` is its vertical position on the page. */
  datatype Entry = Entry(ref: Ref, data: string, top: real)

  /** The map after storing the entries one after the other. */
  function Stored(name: Naming, entries: seq<Entry>): map<string, string> {
    if entries == [] then map[] else
    var last := entries[|entries| - 1];
    Stored(name, entries[..|entries| - 1])[name(last.ref) := last.data]
  }

  ghost predicate Distinct(entries: seq<Entry>) {
    forall i, j :: 0 <= i < j < |entries| ==> entries[i].ref != entries[j].ref
  }

  lemma StoredSnoc(name: Naming, entries: seq<Entry>, e: Entry)
    ensures Stored(name, entries + [e]) == Stored(name, entries)[name(e.ref) := e.data]
  {
    assert (entries + [e])[..|entries|] == entries;
  }

  lemma {:induction false} StoredKeys(name: Naming, entries: seq<Entry>, path: string)
    ensures path in Stored(name, entries) ==> exists k :: 0 <= k < |entries| && name(entries[k].ref) == path
  {
    if entries != [] {
      StoredKeys(name, entries[..|entries| - 1], path);
    }
  }

  lemma NewPath(name: Naming, entries: seq<Entry>, ref: Ref)
    requires Injective(name) && forall k :: 0 <= k < |entries| ==> entries[k].ref != ref
    ensures name(ref) !in Stored(name, entries)
  {
    StoredKeys(name, entries, name(ref));
  }

  ghost predicate Holds(images: map<string, string>, name: Naming, entries: seq<Entry>) {
    forall k :: 0 <= k < |entries| ==>
      var path := name(entries[k].ref);
      path in images && images[path] == entries[k].data
  }

  lemma StoreOne(images: map<string, string>, name: Naming, entries: seq<Entry>, e: Entry)
    requires Holds(images, name, entries) && name(e.ref) !in images
    ensures Holds(images[name(e.ref) := e.data], name, entries + [e])
    ensures |images[name(e.ref) := e.data]| == |images| + 1
  {
    assert images[name(e.ref) := e.data].Keys == images.Keys + {name(e.ref)};
  }

  /** Images under different names do not overwrite one another: the map has one entry for each, and
      each holds its own data. */
  lemma {:induction false} StoredAll(name: Naming, entries: seq<Entry>)
    requires Injective(name) && Distinct(entries)
    ensures |Stored(name, entries)| == |entries| && Holds(Stored(name, entries), name, entries)
  {
    if entries != [] {
      var front, last := entries[..|entries| - 1], entries[|entries| - 1];
      assert entries == front + [last];
      StoredAll(name, front);
      NewPath(name, front, last.ref);
      StoreOne(Stored(name, front), name, front, last);
      StoredSnoc(name, front, last);
    }
  }

  lemma StoreStep(name: Naming, done: seq<Entry>, entries: seq<Entry>, i: nat)
    requires i < |entries|
    ensures Stored(name, done + entries[..i + 1])
         == Stored(name, done + entries[..i])[name(entries[i].ref) := entries[i].data]
  {
    var front := done + entries[..i];
    assert done + entries[..i + 1] == front + [entries[i]];
    StoredSnoc(name, front, entries[i]);
  }

  method Store(name: Naming, before: map<string, string>, entries: seq<Entry>, ghost done: seq<Entry>)
      returns (images: map<string, string>)
    requires before == Stored(name, done)
    ensures images == Stored(name, done + entries)
  {
    images := before;
    assert done + entries[..0] == done;
    for i := 0 to |entries|
      invariant images == Stored(name, done + entries[..i])
    {
      StoreStep(name, done, entries, i);
      images := images[name(entries[i].ref) := entries[i].data];
    }
    assert entries[..|entries|] == entries;
  }

  ghost predicate NamedBy(name: Naming, entries: seq<Entry>, path: string) {
    exists k :: 0 <= k < |entries| && name(entries[k].ref) == path
  }

  lemma NamedInLonger(name: Naming, a: seq<Entry>, b: seq<Entry>, path: string)
    ensures NamedBy(name, a + b, path) <==> NamedBy(name, a, path) || NamedBy(name, b, path)
  {
    if NamedBy(name, a, path) {
      var k :| 0 <= k < |a| && name(a[k].ref) == path;
      assert (a + b)[k] == a[k];
    } else if NamedBy(name, b, path) {
      var k :| 0 <= k < |b| && name(b[k].ref) == path;
      assert (a + b)[|a| + k] == b[k];
    }
  }

  lemma NamedIsStored(name: Naming, entries: seq<Entry>, images: map<string, string>, path: string)
    requires Holds(images, name, entries) && NamedBy(name, entries, path)
    ensures path in images
  {
  }

  // ---- Images page by page ----

  /** A list of entries for each page. */
  type PageLists = nat -> seq<Entry>

  /** The entries of the first n pages. */
  function Joined(lists: PageLists, n: nat): seq<Entry> { if n == 0 then [] else Joined(lists, n - 1) + lists(n - 1) }

  function Kind(ref: Ref): nat {
    match ref
    case Scanned(_) => 0
    case Embedded(_, _) => 1
    case Figure(_, _) => 2
  }

  /** Different images of one kind, all of the page. */
  ghost predicate Own(entries: seq<Entry>, kind: nat, page: nat) {
    Distinct(entries) && forall k :: 0 <= k < |entries| ==> Kind(entries[k].ref) == kind && entries[k].ref.page == page
  }

  ghost predicate Below(entries: seq<Entry>, kind: nat, n: nat) {
    forall k :: 0 <= k < |entries| ==> Kind(entries[k].ref) == kind && entries[k].ref.page < n
  }

  lemma DistinctAppend(a: seq<Entry>, b: seq<Entry>)
    requires Distinct(a) && Distinct(b)
    requires forall i, j :: 0 <= i < |a| && 0 <= j < |b| ==> a[i].ref != b[j].ref
    ensures Distinct(a + b)
  {
  }

  lemma AppendPage(entries: seq<Entry>, own: seq<Entry>, kind: nat, n: nat)
    requires Distinct(entries) && Below(entries, kind, n) && Own(own, kind, n)
    ensures Distinct(entries + own) && Below(entries + own, kind, n + 1)
  {
    DistinctAppend(entries, own);
  }

  lemma {:induction false} JoinedDistinct(lists: PageLists, kind: nat, n: nat)
    requires forall i :: 0 <= i < n ==> Own(lists(i), kind, i)
    ensures Distinct(Joined(lists, n)) && Below(Joined(lists, n), kind, n)
  {
    if n > 0 {
      JoinedDistinct(lists, kind, n - 1);
      AppendPage(Joined(lists, n - 1), lists(n - 1), kind, n - 1);
    }
  }

  /** Moving entries leaves them different. */
  lemma ArrangedOwn(entries: seq<Entry>, arranged: seq<Entry>, kind: nat, page: nat)
    requires Own(entries, kind, page) && multiset(arranged) == multiset(entries)
    ensures Own(arranged, kind, page)
  {
    forall k | 0 <= k < |arranged| ensures Kind(arranged[k].ref) == kind && arranged[k].ref.page == page {
      assert arranged[k] in multiset(arranged);
      assert arranged[k] in entries;
    }
    forall i, j | 0 <= i < j < |arranged| ensures arranged[i].ref != arranged[j].ref {
      OnceInEach(entries, arranged, i, j);
    }
  }

  lemma OnceInEach(entries: seq<Entry>, arranged: seq<Entry>, i: nat, j: nat)
    requires Distinct(entries) && multiset(arranged) == multiset(entries) && i < j < |arranged|
    ensures arranged[i].ref != arranged[j].ref
  {
    var a, b := arranged[i], arranged[j];
    assert a in multiset(arranged) && b in multiset(arranged);
    var k :| 0 <= k < |entries| && entries[k] == a;
    var m :| 0 <= m < |entries| && entries[m] == b;
    if k == m {
      TwiceCounted(arranged, i, j);
      OnceCounted(entries, k);
    }
  }

  lemma TwiceCounted<T>(s: seq<T>, i: nat, j: nat)
    requires i < j < |s| && s[i] == s[j]
    ensures multiset(s)[s[i]] >= 2
  {
    assert s == s[..i] + [s[i]] + s[i + 1..j] + [s[j]] + s[j + 1..];
  }

  lemma OnceCounted(entries: seq<Entry>, k: nat)
    requires Distinct(entries) && k < |entries|
    ensures multiset(entries)[entries[k]] == 1
  {
    assert entries == entries[..k] + [entries[k]] + entries[k + 1..];
    assert entries[k] !in entries[..k] && entries[k] !in entries[k + 1..];
  }

  lemma DistinctKinds(a: seq<Entry>, b: seq<Entry>, c: seq<Entry>, n: nat)
    requires Distinct(a) && Distinct(b) && Distinct(c)
    requires Below(a, 2, n) && Below(b, 0, n) && Below(c, 1, n)
    ensures Distinct(a + b + c)
  {
    DistinctAppend(a, b);
    DistinctAppend(a + b, c);
  }

  lemma {:induction false} NamedOnPage(name: Naming, lists: PageLists, n: nat, i: nat, path: string)
    requires i < n && NamedBy(name, lists(i), path)
    ensures NamedBy(name, Joined(lists, n), path)
  {
    NamedInLonger(name, Joined(lists, n - 1), lists(n - 1), path);
    if i < n - 1 {
      NamedOnPage(name, lists, n - 1, i, path);
    }
  }

  lemma {:induction false} JoinedEmpty(lists: PageLists, n: nat)
    requires forall i: nat :: lists(i) == []
    ensures Joined(lists, n) == []
  {
    if n > 0 {
      JoinedEmpty(lists, n - 1);
    }
  }

  /** One entry more on one page is one entry more in all. */
  lemma {:induction false} OneMoreEntry(lists: PageLists, more: PageLists, page: nat, n: nat)
    requires forall i: nat :: |more(i)| == |lists(i)| + if i == page then 1 else 0
    ensures |Joined(more, n)| == |Joined(lists, n)| + if page < n then 1 else 0
  {
    if n > 0 {
      OneMoreEntry(lists, more, page, n - 1);
    }
  }
}
