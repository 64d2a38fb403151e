/** The locking protocol of the document readers. */
module ParserLocks {
  import opened Options
  import opened Seqs

  // There is one process-wide pdfium lock that its holder cannot take again, and named bounded
  // semaphores that are created on first use under a registry lock.
  //
  // A request is a thread with a program counter. One step is one lock operation or one stretch of
  // code between two of them; every interleaving of the steps of any finite set of requests is a
  // run. An exception may end any stretch of parsing code.

  type Tid = nat

  datatype Name = PdfRender | OpenDataLoader | MarkItDown

  /** The kinds of requests: a PDF routed page by page, a PDF forced to be rendered, a PDF given
      to OpenDataLoader, and a document given to MarkItDown. */
  datatype Kind = PdfAuto | PdfForced | OdlPdf | MarkItDownDoc

  /** Where a limiter is used: inside the page router, inside the renderer of scanned pages (on
      its own or as a fallback), in OpenDataLoader, in MarkItDown. */
  datatype Site = RouteSite | ScanSite | OdlSite | MdSite

  datatype Stage = Lookup | InRegistry | WantSlot | Inside

  datatype Pc =
    | Start(kind: Kind)
    | WantPdfium(scan: bool)
    | TextPass
    | FigurePass
    | Limited(site: Site, stage: Stage)
    | LeavePdfium(scan: bool, failed: bool)
    | Finished(ok: bool)

  /** Every request brings the limit it asks for with each name. */
  datatype Thread = Thread(pc: Pc, renderWidth: int, odlWidth: int, mdWidth: int)

  /** A bounded semaphore; `creator` is the request that registered it. */
  datatype Limiter = Limiter(value: int, bound: int, creator: Tid)

  datatype State = State(
    threads: map<Tid, Thread>, pdfium: Option<Tid>, registry: Option<Tid>, limiters: map<Name, Limiter>)

  /** What the stretch of code ahead does: goes on, raises, or takes its other way on (no page to
      render, or too little text extracted). */
  datatype Event = Go | Fail | Other

  function NameOf(site: Site): Name {
    match site
    case RouteSite => PdfRender
    case ScanSite => PdfRender
    case OdlSite => OpenDataLoader
    case MdSite => MarkItDown
  }

  function Width(th: Thread, name: Name): int {
    match name
    case PdfRender => th.renderWidth
    case OpenDataLoader => th.odlWidth
    case MarkItDown => th.mdWidth
  }

  /** A limit of zero or less switches the limiter off. */
  function Enter(th: Thread, site: Site): Pc {
    if Width(th, NameOf(site)) <= 0 then Limited(site, Inside) else Limited(site, Lookup)
  }

  function AfterLimiter(site: Site, e: Event, failed: bool): Pc {
    match site
    case RouteSite => if failed then LeavePdfium(false, true) else FigurePass
    case ScanSite => LeavePdfium(true, failed)
    case OdlSite => if failed then Finished(false) else if e.Other? then WantPdfium(true) else Finished(true)
    case MdSite => Finished(!failed)
  }

  function Move(s: State, t: Tid, pc: Pc): State
    requires t in s.threads
  {
    s.(threads := s.threads[t := s.threads[t].(pc := pc)])
  }

  /** The step of request t, or None when it is finished or has to wait. */
  function Step(s: State, t: Tid, e: Event): Option<State>
    requires t in s.threads
  {
    var th := s.threads[t];
    match th.pc
    case Start(kind) =>
      (match kind
       case PdfAuto => Some(Move(s, t, WantPdfium(false)))
       case PdfForced => Some(Move(s, t, WantPdfium(true)))
       case OdlPdf => Some(Move(s, t, if e.Fail? then Finished(false) else Enter(th, OdlSite)))
       case MarkItDownDoc => Some(Move(s, t, if e.Fail? then Finished(false) else Enter(th, MdSite))))
    case WantPdfium(scan) =>
      if s.pdfium.Some? then None
      else Some(Move(s, t, if scan then Enter(th, ScanSite) else TextPass).(pdfium := Some(t)))
    case TextPass =>
      Some(Move(s, t, match e
                      case Fail => LeavePdfium(false, true)
                      case Go => Enter(th, RouteSite)
                      case Other => FigurePass))
    case FigurePass => Some(Move(s, t, LeavePdfium(false, e.Fail?)))
    case Limited(site, stage) => LimiterStep(s, t, e, site, stage)
    case LeavePdfium(scan, failed) =>
      Some(Move(s, t, if scan then Finished(!failed) else if failed then WantPdfium(true) else Finished(true))
           .(pdfium := None))
    case Finished(_) => None
  }

  function LimiterStep(s: State, t: Tid, e: Event, site: Site, stage: Stage): Option<State>
    requires t in s.threads
  {
    var th, name := s.threads[t], NameOf(site);
    match stage
    case Lookup =>
      if s.registry.Some? then None
      else Some(Move(s, t, Limited(site, InRegistry)).(registry := Some(t)))
    case InRegistry =>
      var w := Width(th, name);
      Some(Move(s, t, Limited(site, WantSlot))
           .(registry := None,
             limiters := if name in s.limiters then s.limiters else s.limiters[name := Limiter(w, w, t)]))
    case WantSlot =>
      if name !in s.limiters || s.limiters[name].value <= 0 then None
      else Some(Move(s, t, Limited(site, Inside))
                .(limiters := s.limiters[name := s.limiters[name].(value := s.limiters[name].value - 1)]))
    case Inside =>
      if Width(th, name) <= 0 then Some(Move(s, t, AfterLimiter(site, e, e.Fail?)))
      else if name !in s.limiters || s.limiters[name].value >= s.limiters[name].bound then
        Some(Move(s, t, AfterLimiter(site, e, true)))  // the release itself raises
      else
        Some(Move(s, t, AfterLimiter(site, e, e.Fail?))
             .(limiters := s.limiters[name := s.limiters[name].(value := s.limiters[name].value + 1)]))
  }

  ghost predicate Init(s: State) {
    && (forall t :: t in s.threads ==> s.threads[t].pc.Start?)
    && s.pdfium.None? && s.registry.None? && s.limiters == map[]
  }

  ghost predicate Next(s: State, s': State) {
    exists t, e :: t in s.threads && Step(s, t, e) == Some(s')
  }

  /** A run of the protocol, from its first state on. */
  ghost predicate Run(run: seq<State>) {
    run != [] && Init(run[0]) && forall i :: 0 < i < |run| ==> Next(run[i - 1], run[i])
  }

  // ---- The invariant ----

  predicate OnPdfium(pc: Pc) {
    pc.TextPass? || pc.FigurePass? || pc.LeavePdfium? || (pc.Limited? && (pc.site.RouteSite? || pc.site.ScanSite?))
  }

  predicate OnRegistry(pc: Pc) { pc.Limited? && pc.stage.InRegistry? }

  /** The request has a slot of the named semaphore. */
  predicate HasSlot(th: Thread, name: Name) {
    th.pc.Limited? && th.pc.stage.Inside? && NameOf(th.pc.site) == name && Width(th, name) > 0
  }

  function Satisfying(threads: map<Tid, Thread>, p: Thread -> bool): set<Tid> {
    set t | t in threads && p(threads[t])
  }

  function SlotOf(name: Name): Thread -> bool { th => HasSlot(th, name) }

  function Holders(s: State, name: Name): set<Tid> { Satisfying(s.threads, SlotOf(name)) }

  ghost predicate Owner(s: State, lock: Option<Tid>, on: Pc -> bool) {
    && (lock.Some? ==> lock.value in s.threads)
    && (forall t :: t in s.threads ==> (on(s.threads[t].pc) <==> lock == Some(t)))
  }

  /** What is known of a request that is using a limiter. */
  predicate Registered(s: State, th: Thread) {
    th.pc.Limited? ==>
      var name := NameOf(th.pc.site);
      && (!th.pc.stage.Inside? ==> Width(th, name) > 0)
      && (th.pc.stage.WantSlot? || HasSlot(th, name) ==> name in s.limiters)
  }

  ghost predicate SlotsAddUp(s: State, name: Name) {
    name in s.limiters ==>
      var l := s.limiters[name];
      && l.value >= 0 && l.bound > 0 && l.value + |Holders(s, name)| == l.bound
      && l.creator in s.threads && l.bound == Width(s.threads[l.creator], name)
  }

  ghost predicate Inv(s: State) {
    && Owner(s, s.pdfium, OnPdfium)
    && Owner(s, s.registry, OnRegistry)
    && (forall t :: t in s.threads ==> Registered(s, s.threads[t]))
    && (forall name :: SlotsAddUp(s, name))
  }

  lemma InitInv(s: State)
    requires Init(s)
    ensures Inv(s)
  {
  }

  /** A step moves the program counter of one request and leaves the other requests alone. */
  predicate OneMoves(s: State, s': State, t: Tid)
    requires t in s.threads
  {
    t in s'.threads && s'.threads == s.threads[t := s.threads[t].(pc := s'.threads[t].pc)]
  }

  lemma LimiterMovesOne(s: State, t: Tid, e: Event, site: Site, stage: Stage)
    requires t in s.threads && LimiterStep(s, t, e, site, stage).Some?
    ensures OneMoves(s, LimiterStep(s, t, e, site, stage).value, t)
  {
  }

  lemma StepMovesOne(s: State, t: Tid, e: Event)
    requires t in s.threads && Step(s, t, e).Some?
    ensures OneMoves(s, Step(s, t, e).value, t)
  {
    var pc := s.threads[t].pc;
    if pc.Limited? {
      LimiterMovesOne(s, t, e, pc.site, pc.stage);
    }
  }

  /** The widths a request brings do not change, and no request comes or goes. */
  lemma StepKeepsWidths(s: State, t: Tid, e: Event)
    requires t in s.threads && Step(s, t, e).Some?
    ensures var s' := Step(s, t, e).value;
            && s'.threads.Keys == s.threads.Keys
            && (forall u, name :: u in s.threads ==> Width(s'.threads[u], name) == Width(s.threads[u], name))
            && (forall u :: u in s.threads && u != t ==> s'.threads[u] == s.threads[u])
  {
    StepMovesOne(s, t, e);
    MovedWidths(s, Step(s, t, e).value, t);
  }

  lemma MovedWidths(s: State, s': State, t: Tid)
    requires t in s.threads && OneMoves(s, s', t)
    ensures s'.threads.Keys == s.threads.Keys
    ensures forall u, name :: u in s.threads ==> Width(s'.threads[u], name) == Width(s.threads[u], name)
    ensures forall u :: u in s.threads && u != t ==> s'.threads[u] == s.threads[u]
  {
  }

  /** A step changes a lock only by taking it when it is free or by giving back one's own. */
  predicate LockMoves(before: Option<Tid>, after: Option<Tid>, t: Tid) {
    after == before || (before == None && after == Some(t)) || (before == Some(t) && after == None)
  }

  /** What a step of request t does to the pdfium lock. */
  predicate PdfiumRight(s: State, s': State, t: Tid) {
    && LockMoves(s.pdfium, s'.pdfium, t)
    && t in s'.threads && (OnPdfium(s'.threads[t].pc) <==> s'.pdfium == Some(t))
  }

  lemma LimiterPdfium(s: State, t: Tid, e: Event, site: Site, stage: Stage)
    requires t in s.threads && s.threads[t].pc == Limited(site, stage) && LimiterStep(s, t, e, site, stage).Some?
    requires OnPdfium(s.threads[t].pc) <==> s.pdfium == Some(t)
    ensures PdfiumRight(s, LimiterStep(s, t, e, site, stage).value, t)
  {
  }

  lemma PdfiumMoves(s: State, t: Tid, e: Event)
    requires t in s.threads && Step(s, t, e).Some?
    requires OnPdfium(s.threads[t].pc) <==> s.pdfium == Some(t)
    ensures PdfiumRight(s, Step(s, t, e).value, t)
  {
    var pc := s.threads[t].pc;
    if pc.Limited? {
      LimiterPdfium(s, t, e, pc.site, pc.stage);
    }
  }

  lemma RegistryMoves(s: State, t: Tid, e: Event)
    requires t in s.threads && Step(s, t, e).Some?
    requires OnRegistry(s.threads[t].pc) <==> s.registry == Some(t)
    ensures LockMoves(s.registry, Step(s, t, e).value.registry, t)
    ensures OnRegistry(Step(s, t, e).value.threads[t].pc) <==> Step(s, t, e).value.registry == Some(t)
  {
  }

  lemma OwnerMoves(s: State, s': State, t: Tid, before: Option<Tid>, after: Option<Tid>, on: Pc -> bool)
    requires t in s.threads && s'.threads.Keys == s.threads.Keys
    requires forall u :: u in s.threads && u != t ==> s'.threads[u] == s.threads[u]
    requires Owner(s, before, on) && LockMoves(before, after, t)
    requires on(s'.threads[t].pc) <==> after == Some(t)
    ensures Owner(s', after, on)
  {
  }

  lemma LimiterRegistered(s: State, t: Tid, e: Event, site: Site, stage: Stage)
    requires t in s.threads && s.threads[t].pc == Limited(site, stage) && Registered(s, s.threads[t])
    requires LimiterStep(s, t, e, site, stage).Some?
    ensures var s' := LimiterStep(s, t, e, site, stage).value;
      t in s'.threads && Registered(s', s'.threads[t]) && s.limiters.Keys <= s'.limiters.Keys
  {
  }

  lemma MovedIsRegistered(s: State, t: Tid, e: Event)
    requires t in s.threads && Step(s, t, e).Some? && Registered(s, s.threads[t])
    ensures Registered(Step(s, t, e).value, Step(s, t, e).value.threads[t])
    ensures s.limiters.Keys <= Step(s, t, e).value.limiters.Keys
  {
    var pc := s.threads[t].pc;
    if pc.Limited? {
      LimiterRegistered(s, t, e, pc.site, pc.stage);
    }
  }

  lemma StepKeepsRegistered(s: State, t: Tid, e: Event)
    requires t in s.threads && Step(s, t, e).Some?
    requires forall u :: u in s.threads ==> Registered(s, s.threads[u])
    ensures forall u :: u in Step(s, t, e).value.threads ==>
              Registered(Step(s, t, e).value, Step(s, t, e).value.threads[u])
  {
    StepKeepsWidths(s, t, e);
    MovedIsRegistered(s, t, e);
    var s' := Step(s, t, e).value;
    forall u | u in s'.threads ensures Registered(s', s'.threads[u]) {
      if u != t {
        assert Registered(s, s.threads[u]);
      }
    }
  }

  /** Moving one request adds it to, or removes it from, those that satisfy a predicate. */
  lemma CountMoves(threads: map<Tid, Thread>, threads': map<Tid, Thread>, t: Tid, p: Thread -> bool)
    requires t in threads && threads'.Keys == threads.Keys
    requires forall u :: u in threads && u != t ==> threads'[u] == threads[u]
    ensures |Satisfying(threads', p)| == |Satisfying(threads, p)|
                                         + (if p(threads'[t]) then 1 else 0) - (if p(threads[t]) then 1 else 0)
  {
    var rest := Satisfying(threads, p) - {t};
    assert Satisfying(threads, p) == if p(threads[t]) then rest + {t} else rest;
    assert Satisfying(threads', p) == if p(threads'[t]) then rest + {t} else rest;
  }

  lemma HolderCounts(s: State, t: Tid, name: Name)
    requires t in s.threads && HasSlot(s.threads[t], name)
    ensures |Holders(s, name)| >= 1
  {
    assert t in Holders(s, name);
    assert Holders(s, name) == (Holders(s, name) - {t}) + {t};
  }

  function Slots(th: Thread, name: Name): int { if HasSlot(th, name) then 1 else 0 }

  /** What a step of request t does to a semaphore that exists, and to one that does not. */
  predicate SlotRight(s: State, s': State, t: Tid, name: Name)
    requires t in s.threads && t in s'.threads
  {
    var before, after := s.threads[t], s'.threads[t];
    if name in s.limiters then
      && name in s'.limiters
      && s'.limiters[name].bound == s.limiters[name].bound && s'.limiters[name].creator == s.limiters[name].creator
      && s'.limiters[name].value + Slots(after, name) == s.limiters[name].value + Slots(before, name)
      && (s.limiters[name].value >= 0 ==> s'.limiters[name].value >= 0)
    else
      && Slots(before, name) == Slots(after, name) == 0
      && (name in s'.limiters ==>
            s'.limiters[name] == Limiter(Width(before, name), Width(before, name), t) && Width(before, name) > 0)
  }

  lemma ReleaseSlots(s: State, t: Tid, e: Event, site: Site, name: Name)
    requires t in s.threads && s.threads[t].pc == Limited(site, Inside) && Registered(s, s.threads[t])
    requires name in s.limiters && HasSlot(s.threads[t], name) ==> s.limiters[name].value < s.limiters[name].bound
    ensures SlotRight(s, LimiterStep(s, t, e, site, Inside).value, t, name)
  {
  }

  lemma LimiterSlots(s: State, t: Tid, e: Event, site: Site, stage: Stage, name: Name)
    requires t in s.threads && s.threads[t].pc == Limited(site, stage) && Registered(s, s.threads[t])
    requires LimiterStep(s, t, e, site, stage).Some?
    requires name in s.limiters && HasSlot(s.threads[t], name) ==> s.limiters[name].value < s.limiters[name].bound
    ensures SlotRight(s, LimiterStep(s, t, e, site, stage).value, t, name)
  {
    if stage.Inside? {
      ReleaseSlots(s, t, e, site, name);
    }
  }

  lemma SlotMoves(s: State, t: Tid, e: Event, name: Name)
    requires t in s.threads && Step(s, t, e).Some? && Registered(s, s.threads[t])
    requires name in s.limiters && HasSlot(s.threads[t], name) ==> s.limiters[name].value < s.limiters[name].bound
    ensures t in Step(s, t, e).value.threads && SlotRight(s, Step(s, t, e).value, t, name)
  {
    var pc := s.threads[t].pc;
    StepMovesOne(s, t, e);
    if pc.Limited? {
      LimiterSlots(s, t, e, pc.site, pc.stage, name);
    }
  }

  lemma StepKeepsSlots(s: State, t: Tid, e: Event, name: Name)
    requires t in s.threads && Step(s, t, e).Some? && Inv(s)
    ensures SlotsAddUp(Step(s, t, e).value, name)
  {
    var s' := Step(s, t, e).value;
    StepKeepsWidths(s, t, e);
    CountMoves(s.threads, s'.threads, t, SlotOf(name));
    assert SlotsAddUp(s, name) && Registered(s, s.threads[t]);
    if HasSlot(s.threads[t], name) {
      HolderCounts(s, t, name);
    }
    SlotMoves(s, t, e, name);
    if name !in s.limiters {
      NoLimiterNoHolder(s, name);
    }
  }

  lemma NoLimiterNoHolder(s: State, name: Name)
    requires name !in s.limiters && forall u :: u in s.threads ==> Registered(s, s.threads[u])
    ensures Holders(s, name) == {}
  {
    forall u ensures u !in Holders(s, name) {
      if u in s.threads {
        assert Registered(s, s.threads[u]);
      }
    }
  }

  lemma StepInv(s: State, t: Tid, e: Event)
    requires t in s.threads && Step(s, t, e).Some? && Inv(s)
    ensures Inv(Step(s, t, e).value)
  {
    var s' := Step(s, t, e).value;
    StepKeepsWidths(s, t, e);
    PdfiumMoves(s, t, e);
    OwnerMoves(s, s', t, s.pdfium, s'.pdfium, OnPdfium);
    RegistryMoves(s, t, e);
    OwnerMoves(s, s', t, s.registry, s'.registry, OnRegistry);
    StepKeepsRegistered(s, t, e);
    forall name ensures SlotsAddUp(Step(s, t, e).value, name) {
      StepKeepsSlots(s, t, e, name);
    }
  }

  /** The invariant holds in every state of every run. */
  lemma {:induction false} RunInv(run: seq<State>, i: nat)
    requires Run(run) && i < |run|
    ensures Inv(run[i])
  {
    if i == 0 {
      InitInv(run[0]);
    } else {
      RunInv(run, i - 1);
      assert Next(run[i - 1], run[i]);
      var t, e :| t in run[i - 1].threads && Step(run[i - 1], t, e) == Some(run[i]);
      StepInv(run[i - 1], t, e);
    }
  }

  // ---- Safety ----

  /** The request is inside code that uses pdfium. */
  predicate Touching(s: State, t: Tid) { t in s.threads && OnPdfium(s.threads[t].pc) }

  /** In every state of every run, at most one request touches pdfium, every semaphore's value and
      its holders add up to the limit its first registrant asked for, and a request that waits for
      the pdfium lock is never waiting for itself, whichever fallback brought it there. */
  lemma Safety(run: seq<State>, i: nat)
    requires Run(run) && i < |run|
    ensures forall t, u :: Touching(run[i], t) && Touching(run[i], u) ==> t == u
    ensures forall name :: name in run[i].limiters ==>
              var l := run[i].limiters[name];
              && l.value >= 0 && l.value + |Holders(run[i], name)| == l.bound
              && l.creator in run[i].threads && l.bound == Width(run[i].threads[l.creator], name)
    ensures forall t :: t in run[i].threads && run[i].threads[t].pc.WantPdfium? ==> run[i].pdfium != Some(t)
  {
    RunInv(run, i);
    forall name | name in run[i].limiters
      ensures var l := run[i].limiters[name];
              && l.value >= 0 && l.value + |Holders(run[i], name)| == l.bound
              && l.creator in run[i].threads && l.bound == Width(run[i].threads[l.creator], name)
    {
      assert SlotsAddUp(run[i], name);
    }
  }

  /** A registered semaphore keeps its limit and its registrant, whatever limits later requests ask for. */
  lemma FirstRegistrantDecides(s: State, s': State, name: Name)
    requires Inv(s) && Next(s, s') && name in s.limiters
    ensures name in s'.limiters
    ensures s'.limiters[name].bound == s.limiters[name].bound && s'.limiters[name].creator == s.limiters[name].creator
  {
  }

  /** The render semaphore is only ever taken under the pdfium lock, so taking it never waits. */
  lemma RenderSlotIsFree(s: State, t: Tid)
    requires Inv(s) && t in s.threads && s.threads[t].pc.Limited?
    requires s.threads[t].pc.stage.WantSlot? && NameOf(s.threads[t].pc.site) == PdfRender
    ensures PdfRender in s.limiters && s.limiters[PdfRender].value == s.limiters[PdfRender].bound > 0
    ensures forall e :: Step(s, t, e).Some?
  {
    assert Registered(s, s.threads[t]) && SlotsAddUp(s, PdfRender);
    assert OnPdfium(s.threads[t].pc);
    assert forall u :: u in s.threads && HasSlot(s.threads[u], PdfRender) ==> OnPdfium(s.threads[u].pc);
    assert Holders(s, PdfRender) == {};
  }

  /** Releasing a semaphore never exceeds its bound, so it never raises. */
  lemma ReleaseNeverRaises(s: State, t: Tid)
    requires Inv(s) && t in s.threads && s.threads[t].pc.Limited?
    requires HasSlot(s.threads[t], NameOf(s.threads[t].pc.site))
    ensures var name := NameOf(s.threads[t].pc.site);
            name in s.limiters && s.limiters[name].value < s.limiters[name].bound
  {
    var name := NameOf(s.threads[t].pc.site);
    assert Registered(s, s.threads[t]) && SlotsAddUp(s, name);
    HolderCounts(s, t, name);
  }

  // ---- Progress ----

  predicate Unfinished(s: State, t: Tid) { t in s.threads && !s.threads[t].pc.Finished? }

  ghost predicate CanStep(s: State, t: Tid) { t in s.threads && Step(s, t, Go).Some? }

  /** The three ways in which a request can be kept waiting. */
  lemma WaitingFor(s: State, t: Tid)
    requires Inv(s) && Unfinished(s, t) && !CanStep(s, t)
    ensures var pc := s.threads[t].pc;
            || (pc.WantPdfium? && s.pdfium.Some?)
            || (pc.Limited? && pc.stage.Lookup? && s.registry.Some?)
            || (pc.Limited? && pc.stage.WantSlot? && NameOf(pc.site) in s.limiters
                && s.limiters[NameOf(pc.site)].value == 0)
  {
    assert Registered(s, s.threads[t]);
    if s.threads[t].pc.Limited? {
      assert SlotsAddUp(s, NameOf(s.threads[t].pc.site));
    }
  }

  lemma RegistryHolderSteps(s: State)
    requires Inv(s) && s.registry.Some?
    ensures CanStep(s, s.registry.value)
  {
    var r := s.registry.value;
    assert OnRegistry(s.threads[r].pc);
  }

  lemma SlotHolderSteps(s: State, name: Name) returns (u: Tid)
    requires Inv(s) && name in s.limiters && s.limiters[name].value == 0
    ensures CanStep(s, u)
  {
    assert SlotsAddUp(s, name);
    assert |Holders(s, name)| > 0;
    u :| u in Holders(s, name);
  }

  /** No deadlock: while a request is unfinished, some request can take a step. */
  lemma Progress(s: State, t: Tid) returns (u: Tid)
    requires Inv(s) && Unfinished(s, t)
    ensures CanStep(s, u)
  {
    if CanStep(s, t) {
      return t;
    }
    WaitingFor(s, t);
    if s.registry.Some? {
      RegistryHolderSteps(s);
      return s.registry.value;
    }
    if s.threads[t].pc.WantPdfium? {
      var p := s.pdfium.value;
      assert OnPdfium(s.threads[p].pc);
      if CanStep(s, p) {
        return p;
      }
      WaitingFor(s, p);
      u := SlotHolderSteps(s, NameOf(s.threads[p].pc.site));
    } else {
      u := SlotHolderSteps(s, NameOf(s.threads[t].pc.site));
    }
  }

  // ---- Every run ends ----

  /** An upper bound on the steps a request still takes. */
  function StepsLeft(pc: Pc): (n: nat)
    ensures n <= 16
  {
    match pc
    case Start(_) => 16
    case WantPdfium(scan) => if scan then 6 else 15
    case TextPass => 14
    case Limited(site, stage) =>
      (if site.ScanSite? then 2 else 9)
      + (match stage case Lookup => 3 case InRegistry => 2 case WantSlot => 1 case Inside => 0)
    case FigurePass => 8
    case LeavePdfium(scan, _) => if scan then 1 else 7
    case Finished(_) => 0
  }

  function Below(n: nat): (r: set<nat>)
    ensures forall k: nat :: k in r <==> k < n
    ensures |r| == n
  {
    if n == 0 then {} else Below(n - 1) + {n - 1}
  }

  function Work(s: State): set<(Tid, nat)> {
    set t, k | t in s.threads && k in Below(StepsLeft(s.threads[t].pc)) :: (t, k)
  }

  lemma EnterWorks(th: Thread, site: Site)
    ensures StepsLeft(Enter(th, site)) <= if site.ScanSite? then 5 else 12
  {
  }

  lemma AfterWorks(site: Site, e: Event, failed: bool)
    ensures StepsLeft(AfterLimiter(site, e, failed)) < StepsLeft(Limited(site, Inside))
  {
  }

  lemma LimiterWorks(s: State, t: Tid, e: Event, site: Site, stage: Stage)
    requires t in s.threads && LimiterStep(s, t, e, site, stage).Some?
    ensures StepsLeft(LimiterStep(s, t, e, site, stage).value.threads[t].pc) < StepsLeft(Limited(site, stage))
  {
    AfterWorks(site, e, e.Fail?);
    AfterWorks(site, e, true);
  }

  lemma StepWorks(s: State, t: Tid, e: Event)
    requires t in s.threads && Step(s, t, e).Some?
    ensures StepsLeft(Step(s, t, e).value.threads[t].pc) < StepsLeft(s.threads[t].pc)
  {
    var th := s.threads[t];
    if th.pc.Limited? {
      LimiterWorks(s, t, e, th.pc.site, th.pc.stage);
    }
    forall site: Site ensures StepsLeft(Enter(th, site)) <= if site.ScanSite? then 5 else 12 {
      EnterWorks(th, site);
    }
  }

  /** Every step uses up some of the work that is left, whoever takes it. */
  lemma WorkShrinks(s: State, s': State)
    requires Next(s, s')
    ensures Work(s') < Work(s) && |Work(s')| < |Work(s)|
  {
    var t, e :| t in s.threads && Step(s, t, e) == Some(s');
    StepWorks(s, t, e);
    StepKeepsWidths(s, t, e);
    var k := StepsLeft(s'.threads[t].pc);
    assert (t, k) in Work(s) && (t, k) !in Work(s');
    assert Work(s') <= Work(s);
    SmallerSubset(Work(s'), Work(s));
  }

  lemma SmallerSubset<T>(a: set<T>, b: set<T>)
    requires a < b
    ensures |a| < |b|
  {
    var x :| x in b && x !in a;
    SubsetSize(a + {x}, b);
  }

  function Product(ts: set<Tid>, ks: set<nat>): set<(Tid, nat)> { set t, k | t in ts && k in ks :: (t, k) }

  lemma {:induction false} ProductSize(ts: set<Tid>, ks: set<nat>)
    ensures |Product(ts, ks)| == |ts| * |ks|
  {
    if ts == {} {
      assert Product(ts, ks) == {};
    } else {
      var t :| t in ts;
      ProductSize(ts - {t}, ks);
      RowSize(t, ks);
      ProductSplits(ts, t, ks);
      OneRowMore(|ts - {t}|, |ks|);
    }
  }

  lemma ProductSplits(ts: set<Tid>, t: Tid, ks: set<nat>)
    requires t in ts
    ensures |Product(ts, ks)| == |Product(ts - {t}, ks)| + |Product({t}, ks)| && |ts| == |ts - {t}| + 1
  {
    assert Product(ts, ks) == Product(ts - {t}, ks) + Product({t}, ks);
    assert Product(ts - {t}, ks) !! Product({t}, ks);
  }

  lemma OneRowMore(a: nat, b: nat)
    ensures (a + 1) * b == a * b + b
  {
  }

  lemma {:induction false} RowSize(t: Tid, ks: set<nat>)
    ensures |Product({t}, ks)| == |ks|
  {
    if ks == {} {
      assert Product({t}, ks) == {};
    } else {
      var k :| k in ks;
      RowSize(t, ks - {k});
      assert Product({t}, ks) == Product({t}, ks - {k}) + {(t, k)};
    }
  }

  lemma WorkAtMost(s: State)
    ensures |Work(s)| <= |s.threads| * 16
  {
    ProductSize(s.threads.Keys, Below(16));
    forall t, k | (t, k) in Work(s) ensures (t, k) in Product(s.threads.Keys, Below(16)) {
    }
    SubsetSize(Work(s), Product(s.threads.Keys, Below(16)));
  }

  lemma {:induction false} RunUsesWork(run: seq<State>)
    requires Run(run)
    ensures |run| - 1 + |Work(run[|run| - 1])| <= |Work(run[0])|
  {
    if |run| > 1 {
      var front := run[..|run| - 1];
      RunUsesWork(front);
      assert Next(run[|run| - 2], run[|run| - 1]);
      WorkShrinks(run[|run| - 2], run[|run| - 1]);
    }
  }

  /** However the requests interleave, a run takes at most sixteen steps per request. */
  lemma RunIsShort(run: seq<State>)
    requires Run(run)
    ensures |run| - 1 <= |run[0].threads| * 16
  {
    RunUsesWork(run);
    WorkAtMost(run[0]);
  }

  ghost predicate Stuck(s: State) { forall s' :: !Next(s, s') }

  /** Whether a request has to wait does not depend on what the code ahead of it does. */
  lemma StuckForAll(s: State, t: Tid)
    requires Stuck(s)
    ensures !CanStep(s, t)
  {
    if CanStep(s, t) {
      assert Next(s, Step(s, t, Go).value);
    }
  }

  /** A run that cannot go on has finished every request and given every lock and slot back. */
  lemma StuckMeansDone(run: seq<State>)
    requires Run(run)
    requires Stuck(run[|run| - 1])
    ensures var s := run[|run| - 1];
            && (forall t :: t in s.threads ==> s.threads[t].pc.Finished?)
            && s.pdfium.None? && s.registry.None?
            && (forall name :: name in s.limiters ==> s.limiters[name].value == s.limiters[name].bound)
  {
    var s := run[|run| - 1];
    RunInv(run, |run| - 1);
    forall t | t in s.threads ensures s.threads[t].pc.Finished? {
      if Unfinished(s, t) {
        var u := Progress(s, t);
        StuckForAll(s, u);
      }
    }
    forall name | name in s.limiters ensures s.limiters[name].value == s.limiters[name].bound {
      assert SlotsAddUp(s, name);
      assert forall u :: u in s.threads ==> !HasSlot(s.threads[u], name);
      assert Holders(s, name) == {};
    }
  }
}
