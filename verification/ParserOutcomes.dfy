/** How the requests of the locking protocol end.

    A request tries one way of reading its document or, as a fallback, two; what becomes of it is told
    from what happened on these ways. */
module ParserOutcomes {
  import opened Options
  import opened ParserLocks

  /** Reading a PDF page by page, rendering all its pages, converting a document with a foreign library. */
  datatype Way = Routing | Scanning | Converting

  /** The way that the stretch of parsing code ahead belongs to. */
  function WayAt(pc: Pc): Option<Way> {
    match pc
    case TextPass => Some(Routing)
    case FigurePass => Some(Routing)
    case Limited(site, Inside) =>
      Some(match site
           case RouteSite => Routing
           case ScanSite => Scanning
           case OdlSite => Converting
           case MdSite => Converting)
    case Start(kind) => if kind.OdlPdf? || kind.MarkItDownDoc? then Some(Converting) else None
    case _ => None
  }

  /** A run together with the requests that took its steps, and what the code did in each. */
  datatype Log = Log(run: seq<State>, who: seq<Tid>, what: seq<Event>)

  ghost predicate Logged(log: Log) {
    && log.run != [] && Init(log.run[0]) && |log.who| == |log.what| == |log.run| - 1
    && forall i :: 0 <= i < |log.who| ==> StepOf(log, i)
  }

  ghost predicate StepOf(log: Log, i: nat)
    requires i < |log.who| == |log.what| == |log.run| - 1
  {
    log.who[i] in log.run[i].threads && Step(log.run[i], log.who[i], log.what[i]) == Some(log.run[i + 1])
  }

  /** Every run is that of some log. */
  lemma {:induction false} RunHasLog(run: seq<State>) returns (log: Log)
    requires Run(run)
    ensures Logged(log) && log.run == run
  {
    if |run| == 1 {
      log := Log(run, [], []);
    } else {
      var front := run[..|run| - 1];
      var l := RunHasLog(front);
      assert Next(run[|run| - 2], run[|run| - 1]);
      var t, e :| t in run[|run| - 2].threads && Step(run[|run| - 2], t, e) == Some(run[|run| - 1]);
      log := Log(run, l.who + [t], l.what + [e]);
      forall i | 0 <= i < |log.who| ensures StepOf(log, i) {
        assert i < |l.who| ==> StepOf(l, i);
      }
    }
  }

  lemma LogIsRun(log: Log)
    requires Logged(log)
    ensures Run(log.run)
  {
    forall i | 0 < i < |log.run| ensures Next(log.run[i - 1], log.run[i]) {
      assert StepOf(log, i - 1);
    }
  }

  /** In one of the first n steps, request t ran code of this way, and that happened. */
  ghost predicate Had(log: Log, t: Tid, n: nat, way: Way, e: Event)
    requires Logged(log) && n < |log.run|
  {
    exists i :: 0 <= i < n && At(log, t, i, way, e)
  }

  ghost predicate At(log: Log, t: Tid, i: nat, way: Way, e: Event)
    requires Logged(log) && i < |log.who|
  {
    log.who[i] == t && t in log.run[i].threads && WayAt(log.run[i].threads[t].pc) == Some(way) && log.what[i] == e
  }

  /** In one of the first n steps, request t ran code of this way. */
  ghost predicate Tried(log: Log, t: Tid, n: nat, way: Way)
    requires Logged(log) && n < |log.run|
  {
    exists e :: Had(log, t, n, way, e)
  }

  /** OpenDataLoader has given too little text. */
  ghost predicate Short(log: Log, t: Tid, n: nat)
    requires Logged(log) && n < |log.run|
  {
    exists i :: 0 <= i < n && ShortAt(log, t, i)
  }

  ghost predicate ShortAt(log: Log, t: Tid, i: nat)
    requires Logged(log) && i < |log.who|
  {
    && log.who[i] == t && t in log.run[i].threads && log.run[i].threads[t].pc == Limited(OdlSite, Inside)
    && log.what[i].Other?
  }

  /** What has happened to a request so far: the ways tried, those that failed, and whether too little text came. */
  datatype History = History(tried: set<Way>, failed: set<Way>, short: bool)

  ghost predicate HistoryIs(log: Log, t: Tid, n: nat, h: History)
    requires Logged(log) && n < |log.run|
  {
    && (forall w :: w in h.tried <==> Tried(log, t, n, w))
    && (forall w :: w in h.failed <==> Had(log, t, n, w, Fail))
    && (h.short <==> Short(log, t, n))
  }

  function After(h: History, pc: Pc, e: Event): History {
    var h' :=
      match WayAt(pc)
      case None => h
      case Some(w) => History(h.tried + {w}, if e.Fail? then h.failed + {w} else h.failed, h.short);
    if pc == Limited(OdlSite, Inside) && e.Other? then h'.(short := true) else h'
  }

  lemma HadStep(log: Log, t: Tid, n: nat, w: Way, e: Event)
    requires Logged(log) && n + 1 < |log.run|
    ensures Had(log, t, n + 1, w, e) <==> Had(log, t, n, w, e) || At(log, t, n, w, e)
  {
    if Had(log, t, n, w, e) {
      var i :| 0 <= i < n && At(log, t, i, w, e);
      assert i < n + 1;
    }
  }

  lemma ShortStep(log: Log, t: Tid, n: nat)
    requires Logged(log) && n + 1 < |log.run|
    ensures Short(log, t, n + 1) <==> Short(log, t, n) || ShortAt(log, t, n)
  {
    if Short(log, t, n) {
      var i :| 0 <= i < n && ShortAt(log, t, i);
      assert i < n + 1;
    }
  }

  lemma TriedStep(log: Log, t: Tid, n: nat, w: Way)
    requires Logged(log) && n + 1 < |log.run|
    ensures Tried(log, t, n + 1, w) <==> Tried(log, t, n, w) || At(log, t, n, w, log.what[n])
  {
    if Tried(log, t, n + 1, w) {
      var e :| Had(log, t, n + 1, w, e);
      HadStep(log, t, n, w, e);
    }
    if Tried(log, t, n, w) {
      var e :| Had(log, t, n, w, e);
      HadStep(log, t, n, w, e);
    }
    HadStep(log, t, n, w, log.what[n]);
  }

  lemma HistoryOther(log: Log, t: Tid, n: nat, h: History)
    requires Logged(log) && n + 1 < |log.run| && HistoryIs(log, t, n, h) && log.who[n] != t
    ensures HistoryIs(log, t, n + 1, h)
  {
    forall w ensures Tried(log, t, n + 1, w) <==> Tried(log, t, n, w) {
      TriedStep(log, t, n, w);
    }
    forall w ensures Had(log, t, n + 1, w, Fail) <==> Had(log, t, n, w, Fail) {
      HadStep(log, t, n, w, Fail);
    }
    ShortStep(log, t, n);
  }

  lemma HistoryOwn(log: Log, t: Tid, n: nat, h: History)
    requires Logged(log) && n + 1 < |log.run| && HistoryIs(log, t, n, h) && log.who[n] == t
    requires t in log.run[n].threads
    ensures HistoryIs(log, t, n + 1, After(h, log.run[n].threads[t].pc, log.what[n]))
  {
    var pc := log.run[n].threads[t].pc;
    forall w ensures Tried(log, t, n + 1, w) <==> Tried(log, t, n, w) || WayAt(pc) == Some(w) {
      TriedStep(log, t, n, w);
    }
    forall w
      ensures Had(log, t, n + 1, w, Fail) <==> Had(log, t, n, w, Fail) || (WayAt(pc) == Some(w) && log.what[n].Fail?)
    {
      HadStep(log, t, n, w, Fail);
    }
    ShortStep(log, t, n);
  }

  // ---- What is known at each point ----

  ghost predicate Fits(kind: Kind, pc: Pc, h: History) {
    match kind
    case PdfAuto => !h.short && FitsAuto(pc, h.tried, h.failed)
    case PdfForced => !h.short && FitsForced(pc, h.tried, h.failed)
    case OdlPdf => FitsOdl(pc, h)
    case MarkItDownDoc => !h.short && FitsMarkItDown(pc, h.tried, h.failed)
  }

  function If(b: bool, w: Way): set<Way> { if b then {w} else {} }

  ghost predicate FitsAuto(pc: Pc, tried: set<Way>, failed: set<Way>) {
    match pc
    case Start(kind) => kind == PdfAuto && tried == {} && failed == {}
    case WantPdfium(scan) => tried == failed == If(scan, Routing)
    case TextPass => tried == failed == {}
    case FigurePass => tried == {Routing} && failed == {}
    case Limited(site, _) =>
      && tried == {Routing} && (site.RouteSite? || site.ScanSite?) && failed == If(site.ScanSite?, Routing)
    case LeavePdfium(scan, bad) =>
      && tried == {Routing} + If(scan, Scanning)
      && failed == (if scan then {Routing} + If(bad, Scanning) else If(bad, Routing))
    case Finished(ok) =>
      || (ok && tried == {Routing} && failed == {})
      || (tried == {Routing, Scanning} && failed == {Routing} + If(!ok, Scanning))
  }

  ghost predicate FitsForced(pc: Pc, tried: set<Way>, failed: set<Way>) {
    match pc
    case Start(kind) => kind == PdfForced && tried == {} && failed == {}
    case WantPdfium(scan) => scan && tried == failed == {}
    case Limited(site, _) => site.ScanSite? && tried == failed == {}
    case LeavePdfium(scan, bad) => scan && tried == {Scanning} && failed == If(bad, Scanning)
    case Finished(ok) => tried == {Scanning} && failed == If(!ok, Scanning)
    case _ => false
  }

  ghost predicate FitsOdl(pc: Pc, h: History) {
    match pc
    case Start(kind) => kind == OdlPdf && h == History({}, {}, false)
    case WantPdfium(scan) => scan && h == History({Converting}, {}, true)
    case Limited(site, _) => (site.OdlSite? || site.ScanSite?) && h == History({Converting}, {}, site.ScanSite?)
    case LeavePdfium(scan, bad) => scan && h == History({Converting, Scanning}, If(bad, Scanning), true)
    case Finished(ok) =>
      || h == History({Converting}, If(!ok, Converting), false)
      || h == History({Converting, Scanning}, If(!ok, Scanning), true)
    case _ => false
  }

  ghost predicate FitsMarkItDown(pc: Pc, tried: set<Way>, failed: set<Way>) {
    match pc
    case Start(kind) => kind == MarkItDownDoc && tried == {} && failed == {}
    case Limited(site, _) => site.MdSite? && tried == {Converting} && failed == {}
    case Finished(ok) => tried == {Converting} && failed == If(!ok, Converting)
    case _ => false
  }

  /** What the code ahead raises is all that raises: giving back a slot does not. */
  lemma LimiterPc(s: State, t: Tid, e: Event, site: Site)
    requires Inv(s) && t in s.threads && s.threads[t].pc == Limited(site, Inside) && Step(s, t, e).Some?
    ensures t in Step(s, t, e).value.threads
    ensures Step(s, t, e).value.threads[t].pc == AfterLimiter(site, e, e.Fail?)
  {
    if HasSlot(s.threads[t], NameOf(site)) {
      ReleaseNeverRaises(s, t);
    }
  }

  /** The next point of a request, without the locks. */
  predicate Leads(pc: Pc, e: Event, pc': Pc) {
    match pc
    case Start(kind) =>
      (match kind
       case PdfAuto => pc' == WantPdfium(false)
       case PdfForced => pc' == WantPdfium(true)
       case OdlPdf => if e.Fail? then pc' == Finished(false) else pc'.Limited? && pc'.site.OdlSite?
       case MarkItDownDoc => if e.Fail? then pc' == Finished(false) else pc'.Limited? && pc'.site.MdSite?)
    case WantPdfium(scan) => if scan then pc'.Limited? && pc'.site.ScanSite? else pc' == TextPass
    case TextPass =>
      if e.Fail? then pc' == LeavePdfium(false, true)
      else if e.Go? then pc'.Limited? && pc'.site.RouteSite?
      else pc' == FigurePass
    case FigurePass => pc' == LeavePdfium(false, e.Fail?)
    case Limited(site, stage) =>
      if stage.Inside? then pc' == AfterLimiter(site, e, e.Fail?) else pc'.Limited? && pc'.site == site
    case LeavePdfium(scan, bad) =>
      pc' == if !bad then Finished(true) else if scan then Finished(false) else WantPdfium(true)
    case Finished(_) => false
  }

  lemma StepLeads(s: State, t: Tid, e: Event)
    requires Inv(s) && t in s.threads && Step(s, t, e).Some?
    ensures t in Step(s, t, e).value.threads
    ensures Leads(s.threads[t].pc, e, Step(s, t, e).value.threads[t].pc)
  {
    var pc := s.threads[t].pc;
    if pc.Limited? && pc.stage.Inside? {
      LimiterPc(s, t, e, pc.site);
    }
  }

  lemma AutoStep(pc: Pc, e: Event, pc': Pc, h: History)
    requires Fits(PdfAuto, pc, h) && Leads(pc, e, pc')
    ensures Fits(PdfAuto, pc', After(h, pc, e))
  {
  }

  lemma ForcedStep(pc: Pc, e: Event, pc': Pc, h: History)
    requires Fits(PdfForced, pc, h) && Leads(pc, e, pc')
    ensures Fits(PdfForced, pc', After(h, pc, e))
  {
  }

  lemma OdlStep(pc: Pc, e: Event, pc': Pc, h: History)
    requires Fits(OdlPdf, pc, h) && Leads(pc, e, pc')
    ensures Fits(OdlPdf, pc', After(h, pc, e))
  {
  }

  lemma MarkItDownStep(pc: Pc, e: Event, pc': Pc, h: History)
    requires Fits(MarkItDownDoc, pc, h) && Leads(pc, e, pc')
    ensures Fits(MarkItDownDoc, pc', After(h, pc, e))
  {
  }

  lemma FitsStep(kind: Kind, pc: Pc, e: Event, pc': Pc, h: History)
    requires Fits(kind, pc, h) && Leads(pc, e, pc')
    ensures Fits(kind, pc', After(h, pc, e))
  {
    match kind
    case PdfAuto => AutoStep(pc, e, pc', h);
    case PdfForced => ForcedStep(pc, e, pc', h);
    case OdlPdf => OdlStep(pc, e, pc', h);
    case MarkItDownDoc => MarkItDownStep(pc, e, pc', h);
  }

  lemma {:induction false} RunFits(log: Log, t: Tid, kind: Kind, n: nat) returns (h: History)
    requires Logged(log) && n < |log.run| && t in log.run[0].threads && log.run[0].threads[t].pc == Start(kind)
    ensures t in log.run[n].threads && HistoryIs(log, t, n, h) && Fits(kind, log.run[n].threads[t].pc, h)
  {
    if n == 0 {
      h := History({}, {}, false);
    } else {
      h := RunFits(log, t, kind, n - 1);
      LogIsRun(log);
      RunInv(log.run, n - 1);
      assert StepOf(log, n - 1);
      StepKeepsWidths(log.run[n - 1], log.who[n - 1], log.what[n - 1]);
      if log.who[n - 1] == t {
        var pc := log.run[n - 1].threads[t].pc;
        StepLeads(log.run[n - 1], t, log.what[n - 1]);
        FitsStep(kind, pc, log.what[n - 1], log.run[n].threads[t].pc, h);
        HistoryOwn(log, t, n - 1, h);
        h := After(h, pc, log.what[n - 1]);
      } else {
        HistoryOther(log, t, n - 1, h);
      }
    }
  }

  /** How a finished request has ended, in every run. A PDF read page by page is rendered as a whole if and only if
      that has failed, and fails only if both have. A PDF given to OpenDataLoader is rendered if and only if too little
      text came out, and fails if the conversion fails, or the rendering that follows. The others have one way only. */
  lemma Outcome(log: Log, t: Tid, kind: Kind, n: nat, ok: bool)
    requires Logged(log) && n < |log.run| && t in log.run[0].threads && log.run[0].threads[t].pc == Start(kind)
    requires t in log.run[n].threads && log.run[n].threads[t].pc == Finished(ok)
    ensures kind == PdfAuto ==>
      && Tried(log, t, n, Routing) && (Tried(log, t, n, Scanning) <==> Had(log, t, n, Routing, Fail))
      && (ok <==> !Had(log, t, n, Routing, Fail) || !Had(log, t, n, Scanning, Fail))
    ensures kind == PdfForced ==>
      && Tried(log, t, n, Scanning) && !Tried(log, t, n, Routing)
      && (ok <==> !Had(log, t, n, Scanning, Fail))
    ensures kind == OdlPdf ==>
      && Tried(log, t, n, Converting) && !Tried(log, t, n, Routing)
      && (Tried(log, t, n, Scanning) <==> Short(log, t, n))
      && (ok <==> !Had(log, t, n, Converting, Fail) && !Had(log, t, n, Scanning, Fail))
    ensures kind == MarkItDownDoc ==>
      && Tried(log, t, n, Converting) && !Tried(log, t, n, Routing) && !Tried(log, t, n, Scanning)
      && (ok <==> !Had(log, t, n, Converting, Fail))
  {
    var h := RunFits(log, t, kind, n);
  }

  // ---- The semaphores by name ----

  /** The requests that use pdfium inside its limiter, whether they route pages or render them. */
  function Rendering(s: State): set<Tid> {
    set t | t in s.threads && s.threads[t].renderWidth > 0
      && s.threads[t].pc in {Limited(RouteSite, Inside), Limited(ScanSite, Inside)}
  }

  function ConvertingPdf(s: State): set<Tid> {
    set t | t in s.threads && s.threads[t].odlWidth > 0 && s.threads[t].pc == Limited(OdlSite, Inside)
  }

  function ConvertingDoc(s: State): set<Tid> {
    set t | t in s.threads && s.threads[t].mdWidth > 0 && s.threads[t].pc == Limited(MdSite, Inside)
  }

  /** In every state of every run each of the three semaphores keeps count of the requests that went
      through it, up to the limit that its first user asked for with that name. */
  lemma SemaphoresByName(run: seq<State>, i: nat)
    requires Run(run) && i < |run|
    ensures var s := run[i];
      && (PdfRender in s.limiters ==>
            var l := s.limiters[PdfRender];
            && l.creator in s.threads && l.value + |Rendering(s)| == s.threads[l.creator].renderWidth)
      && (OpenDataLoader in s.limiters ==>
            var l := s.limiters[OpenDataLoader];
            && l.creator in s.threads && l.value + |ConvertingPdf(s)| == s.threads[l.creator].odlWidth)
      && (MarkItDown in s.limiters ==>
            var l := s.limiters[MarkItDown];
            && l.creator in s.threads && l.value + |ConvertingDoc(s)| == s.threads[l.creator].mdWidth)
  {
    Safety(run, i);
    assert Holders(run[i], PdfRender) == Rendering(run[i]);
    assert Holders(run[i], OpenDataLoader) == ConvertingPdf(run[i]);
    assert Holders(run[i], MarkItDown) == ConvertingDoc(run[i]);
  }
}
