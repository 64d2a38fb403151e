/** The resumable generation of answers: two parquet files saved one after the other.

    A run may stop at any step; a restart reads back what the files hold. */
module AnswerGenerator {
  import opened Options

  // Each save is one atomic step. A stop is any way to lose the memory: a crash, a kill, or an
  // exception the loop does not catch.

  type Qid = string

  datatype AnswerRow = AnswerRow(id: nat, text: string)

  datatype QaRow = QaRow(qid: Qid, aid: nat)

  /** A parquet file: not there, saved from an empty list of records and so without columns, or
      with rows. */
  datatype Table<T> = Missing | NoColumns | Rows(rows: seq<T>)

  datatype Disk = Disk(answers: Table<AnswerRow>, qas: Table<QaRow>)

  function Save<T>(rows: seq<T>): Table<T> { if rows == [] then NoColumns else Rows(rows) }

  function RowsOf<T>(t: Table<T>): seq<T> { if t.Rows? then t.rows else [] }

  /** The files are usable unless one is missing or the second has no `qid` column. */
  predicate Usable(disk: Disk) { !disk.answers.Missing? && disk.qas.Rows? }

  function LoadAnswers(disk: Disk): seq<AnswerRow> { if Usable(disk) then RowsOf(disk.answers) else [] }

  function LoadQas(disk: Disk): seq<QaRow> { if Usable(disk) then RowsOf(disk.qas) else [] }

  function Qids(qas: seq<QaRow>): set<Qid> { set k | 0 <= k < |qas| :: qas[k].qid }

  // ---- The generator as a machine ----

  datatype Phase =
    | Idle                                // no run is going on
    | AtQuery(i: nat)                     // about to look at query i
    | Trying(i: nat, retries: nat)        // about to ask the model for query i
    | SavingAnswers(i: nat)
    | SavingQas(i: nat)
    | Done                                // the run has gone through all queries

  /** The files and the variables of the current run. Two history variables are kept along: the
      pairs of query and answer the model has returned in any run, and the number of API errors
      per query in this run. */
  datatype State = State(
    disk: Disk, phase: Phase, answers: seq<AnswerRow>, qas: seq<QaRow>, processed: set<Qid>, counter: nat,
    returned: set<(Qid, string)>, failures: map<nat, nat>)

  datatype Event = Launch | Stop | Proceed | Answered(text: string) | ApiError

  datatype Job = Job(queries: seq<Qid>, maxRetries: int)

  function Loaded(s: State): State {
    var qas := LoadQas(s.disk);
    State(s.disk, AtQuery(0), LoadAnswers(s.disk), qas, Qids(qas), |LoadAnswers(s.disk)| + 1, s.returned, map[])
  }

  function Stopped(s: State): State {
    State(s.disk, Idle, [], [], {}, 1, s.returned, map[])
  }

  function Step(job: Job, s: State, e: Event): Option<State> {
    match e
    case Launch => if s.phase.Idle? || s.phase.Done? then Some(Loaded(s)) else None
    case Stop => if s.phase.Idle? then None else Some(Stopped(s))
    case Proceed =>
      (match s.phase
       case AtQuery(i) =>
         if i >= |job.queries| then Some(s.(phase := Done))
         else if job.queries[i] in s.processed || job.maxRetries < 0 then Some(s.(phase := AtQuery(i + 1)))
         else Some(s.(phase := Trying(i, 0)))
       case SavingAnswers(i) => Some(s.(disk := s.disk.(answers := Save(s.answers)), phase := SavingQas(i)))
       case SavingQas(i) => Some(s.(disk := s.disk.(qas := Save(s.qas)), phase := AtQuery(i + 1)))
       case _ => None)
    case Answered(text) =>
      if !s.phase.Trying? || s.phase.i >= |job.queries| then None else
      var q := job.queries[s.phase.i];
      Some(s.(answers := s.answers + [AnswerRow(s.counter, text)], qas := s.qas + [QaRow(q, s.counter)],
              counter := s.counter + 1, phase := SavingAnswers(s.phase.i), returned := s.returned + {(q, text)}))
    case ApiError =>
      if !s.phase.Trying? then None else
      var n := s.phase.retries + 1;
      Some(s.(failures := s.failures[s.phase.i := n],
              phase := if n > job.maxRetries then SavingAnswers(s.phase.i) else Trying(s.phase.i, n)))
  }

  ghost predicate Init(s: State) {
    s == State(Disk(Missing, Missing), Idle, [], [], {}, 1, {}, map[])
  }

  ghost predicate Next(job: Job, s: State, s': State) { exists e :: Step(job, s, e) == Some(s') }

  /** Consecutive states of the machine: any number of runs, each stopped anywhere or finished. */
  ghost predicate Path(job: Job, path: seq<State>) {
    path != [] && forall k :: 0 < k < |path| ==> Next(job, path[k - 1], path[k])
  }

  ghost predicate History(job: Job, path: seq<State>) { Path(job, path) && Init(path[0]) }

  // ---- What the files promise ----

  predicate DistinctIds(queries: seq<Qid>) {
    forall i, j :: 0 <= i < j < |queries| ==> queries[i] != queries[j]
  }

  /** Answer ids are exactly 1..n, and every qa row points at one of them. */
  predicate Linked(answers: seq<AnswerRow>, qas: seq<QaRow>) {
    && (forall k :: 0 <= k < |answers| ==> answers[k].id == k + 1)
    && (forall k :: 0 <= k < |qas| ==> 1 <= qas[k].aid <= |answers|)
  }

  /** No query has two qa rows. */
  predicate OnceEach(qas: seq<QaRow>) { forall j, k :: 0 <= j < k < |qas| ==> qas[j].qid != qas[k].qid }

  /** Every qa row pairs its query with a text that the model has returned for it. */
  predicate Genuine(answers: seq<AnswerRow>, qas: seq<QaRow>, returned: set<(Qid, string)>) {
    forall k :: 0 <= k < |qas| ==>
      1 <= qas[k].aid <= |answers| && (qas[k].qid, answers[qas[k].aid - 1].text) in returned
  }

  predicate DiskLinked(s: State) {
    && Linked(RowsOf(s.disk.answers), RowsOf(s.disk.qas))
    && Genuine(RowsOf(s.disk.answers), RowsOf(s.disk.qas), s.returned)
  }

  predicate DiskOk(s: State) { DiskLinked(s) && OnceEach(RowsOf(s.disk.qas)) }

  /** The first n queries. */
  function Dealt(job: Job, n: nat): set<Qid> {
    set j | 0 <= j < n && j < |job.queries| :: job.queries[j]
  }

  /** The qids in memory come from the load and from the queries dealt with so far. */
  predicate FromQueries(job: Job, s: State, n: nat) {
    forall k :: 0 <= k < |s.qas| ==> s.qas[k].qid in s.processed + Dealt(job, n)
  }

  /** How often the model has failed on query j in this run. */
  function Failed(s: State, j: nat): nat { if j in s.failures then s.failures[j] else 0 }

  /** How often a query is tried at most. */
  function Tries(job: Job): nat { if job.maxRetries < 0 then 0 else job.maxRetries + 1 }

  /** Query j is answered, or the model has failed on it as often as it is tried. */
  predicate Settled(job: Job, s: State, j: nat)
    requires j < |job.queries|
  {
    job.queries[j] in Qids(s.qas) || Failed(s, j) == Tries(job)
  }

  predicate SettledUpTo(job: Job, s: State, n: nat) {
    forall j :: 0 <= j < n && j < |job.queries| ==> Settled(job, s, j)
  }

  predicate MemoryOk(s: State) {
    && Linked(s.answers, s.qas) && Genuine(s.answers, s.qas, s.returned)
    && s.counter == |s.answers| + 1
    && s.processed <= Qids(s.qas)
    && RowsOf(s.disk.qas) <= s.qas
    && (RowsOf(s.disk.qas) == [] || RowsOf(s.disk.answers) <= s.answers)
  }

  predicate Inv(job: Job, s: State) {
    && DiskLinked(s)
    && (job.maxRetries < 0 ==> s.failures == map[])
    && (RowsOf(s.disk.qas) != [] ==> s.disk.answers.Rows?)
    && (!s.phase.Idle? ==> MemoryOk(s))
    && PhaseOk(job, s)
  }

  predicate PhaseOk(job: Job, s: State) {
    match s.phase
    case Idle => true
    case AtQuery(i) => FromQueries(job, s, i) && RowsOf(s.disk.qas) == s.qas && SettledUpTo(job, s, i)
    case Trying(i, n) =>
      && i < |job.queries| && n <= job.maxRetries && job.queries[i] !in s.processed
      && FromQueries(job, s, i) && RowsOf(s.disk.qas) == s.qas && SettledUpTo(job, s, i)
    case SavingAnswers(i) => FromQueries(job, s, i + 1) && SettledUpTo(job, s, i + 1)
    case SavingQas(i) =>
      FromQueries(job, s, i + 1) && SettledUpTo(job, s, i + 1) && s.disk.answers == Save(s.answers)
    case Done => RowsOf(s.disk.qas) == s.qas && SettledUpTo(job, s, |job.queries|)
  }

  lemma LaunchInv(job: Job, s: State)
    requires Inv(job, s)
    ensures Inv(job, Loaded(s))
  {
    var s' := Loaded(s);
    forall k | 0 <= k < |s'.qas| ensures s'.qas[k].qid in s'.processed + Dealt(job, 0) {
      assert s'.qas[k].qid in Qids(s'.qas);
    }
  }

  lemma SettledStays(job: Job, s: State, s': State, n: nat)
    requires SettledUpTo(job, s, n) && Qids(s.qas) <= Qids(s'.qas)
    requires forall j :: 0 <= j < n ==> Failed(s', j) == Failed(s, j)
    ensures SettledUpTo(job, s', n)
  {
    forall j | 0 <= j < n && j < |job.queries| ensures Settled(job, s', j) {
      assert Settled(job, s, j);
    }
  }

  lemma QidsAppend(qas: seq<QaRow>, row: QaRow)
    ensures Qids(qas + [row]) == Qids(qas) + {row.qid}
  {
    var all := qas + [row];
    assert all[|qas|] == row;
    forall q | q in Qids(qas) ensures q in Qids(all) {
      var k :| 0 <= k < |qas| && qas[k].qid == q;
      assert all[k] == qas[k];
    }
  }

  lemma RecordKeepsGenuine(answers: seq<AnswerRow>, qas: seq<QaRow>, q: Qid, text: string, returned: set<(Qid, string)>)
    requires Genuine(answers, qas, returned)
    ensures Genuine(answers + [AnswerRow(|answers| + 1, text)], qas + [QaRow(q, |answers| + 1)], returned + {(q, text)})
  {
  }

  lemma RecordKeepsLinked(answers: seq<AnswerRow>, qas: seq<QaRow>, q: Qid, text: string)
    requires Linked(answers, qas)
    ensures Linked(answers + [AnswerRow(|answers| + 1, text)], qas + [QaRow(q, |answers| + 1)])
  {
  }

  /** Fewer pairs from the front of the list are as good as all. */
  lemma FrontOk(answers: seq<AnswerRow>, qas: seq<QaRow>, front: seq<QaRow>, returned: set<(Qid, string)>)
    requires Linked(answers, qas) && Genuine(answers, qas, returned) && front <= qas
    ensures Linked(answers, front) && Genuine(answers, front, returned)
  {
  }

  lemma GenuineWithMore(
    answers: seq<AnswerRow>, qas: seq<QaRow>, returned: set<(Qid, string)>, returned': set<(Qid, string)>)
    requires Genuine(answers, qas, returned) && returned <= returned'
    ensures Genuine(answers, qas, returned')
  {
  }

  lemma AnsweredFrom(job: Job, s: State, s': State, i: nat, row: QaRow)
    requires FromQueries(job, s, i) && i < |job.queries| && row.qid == job.queries[i]
    requires s'.qas == s.qas + [row] && s'.processed == s.processed
    ensures FromQueries(job, s', i + 1)
  {
    forall k | 0 <= k < |s'.qas| ensures s'.qas[k].qid in s'.processed + Dealt(job, i + 1) {
      if k < |s.qas| {
        assert s'.qas[k] == s.qas[k];
      }
    }
  }

  lemma AnsweredInv(job: Job, s: State, text: string)
    requires Inv(job, s) && s.phase.Trying?
    ensures Inv(job, Step(job, s, Answered(text)).value)
  {
    AnsweredMemory(s, Step(job, s, Answered(text)).value, job.queries[s.phase.i], text);
    AnsweredPhase(job, s, text);
    var s' := Step(job, s, Answered(text)).value;
    GenuineWithMore(RowsOf(s.disk.answers), RowsOf(s.disk.qas), s.returned, s'.returned);
  }

  lemma AnsweredMemory(s: State, s': State, q: Qid, text: string)
    requires MemoryOk(s)
    requires s'.answers == s.answers + [AnswerRow(s.counter, text)] && s'.qas == s.qas + [QaRow(q, s.counter)]
    requires s'.counter == s.counter + 1 && s'.returned == s.returned + {(q, text)}
    requires s'.disk == s.disk && s'.processed == s.processed
    ensures MemoryOk(s')
  {
    RecordKeepsLinked(s.answers, s.qas, q, text);
    RecordKeepsGenuine(s.answers, s.qas, q, text, s.returned);
    QidsAppend(s.qas, QaRow(q, s.counter));
    PrefixGrows(RowsOf(s.disk.qas), s.qas, QaRow(q, s.counter));
    PrefixGrows(RowsOf(s.disk.answers), s.answers, AnswerRow(s.counter, text));
  }

  lemma PrefixGrows<T>(saved: seq<T>, rows: seq<T>, row: T)
    ensures saved <= rows ==> saved <= rows + [row]
  {
  }

  lemma AnsweredPhase(job: Job, s: State, text: string)
    requires Inv(job, s) && s.phase.Trying?
    ensures PhaseOk(job, Step(job, s, Answered(text)).value)
  {
    var s', i := Step(job, s, Answered(text)).value, s.phase.i;
    AnsweredFrom(job, s, s', i, QaRow(job.queries[i], s.counter));
    QidsAppend(s.qas, QaRow(job.queries[i], s.counter));
    AnsweredSettles(job, s, s', i);
  }

  lemma AnsweredSettles(job: Job, s: State, s': State, i: nat)
    requires SettledUpTo(job, s, i) && i < |job.queries| && s'.failures == s.failures
    requires Qids(s'.qas) == Qids(s.qas) + {job.queries[i]}
    ensures SettledUpTo(job, s', i + 1)
  {
    SettledStays(job, s, s', i);
    assert Settled(job, s', i);
  }

  lemma ApiErrorInv(job: Job, s: State)
    requires Inv(job, s) && s.phase.Trying?
    ensures Inv(job, Step(job, s, ApiError).value)
  {
    var s' := Step(job, s, ApiError).value;
    SettledStays(job, s, s', s.phase.i);
    if s'.phase.SavingAnswers? {
      assert Settled(job, s', s.phase.i);
    }
  }

  lemma ProceedFromQuery(job: Job, s: State)
    requires Inv(job, s) && s.phase.AtQuery?
    ensures PhaseOk(job, Step(job, s, Proceed).value)
  {
    var s', i := Step(job, s, Proceed).value, s.phase.i;
    if i < |job.queries| {
      SettledStays(job, s, s', i);
      if s'.phase.AtQuery? {
        assert Settled(job, s', i);
      }
    } else {
      SettledStays(job, s, s', |job.queries|);
    }
  }

  lemma ProceedFromSave(job: Job, s: State)
    requires Inv(job, s) && (s.phase.SavingAnswers? || s.phase.SavingQas?)
    ensures PhaseOk(job, Step(job, s, Proceed).value)
  {
    SettledStays(job, s, Step(job, s, Proceed).value, s.phase.i + 1);
  }

  /** A save puts what is in memory into a file; the other file holds no pair that memory does not. */
  lemma SavedDisk(job: Job, s: State)
    requires Inv(job, s) && (s.phase.SavingAnswers? || s.phase.SavingQas?)
    ensures var s' := Step(job, s, Proceed).value;
      DiskLinked(s') && MemoryOk(s') && (RowsOf(s'.disk.qas) != [] ==> s'.disk.answers.Rows?)
  {
    FrontOk(s.answers, s.qas, RowsOf(s.disk.qas), s.returned);
    assert s.qas != [] ==> 1 <= s.qas[0].aid <= |s.answers|;
  }

  lemma ProceedInv(job: Job, s: State)
    requires Inv(job, s) && Step(job, s, Proceed).Some?
    ensures Inv(job, Step(job, s, Proceed).value)
  {
    if s.phase.AtQuery? {
      ProceedFromQuery(job, s);
    } else {
      ProceedFromSave(job, s);
      SavedDisk(job, s);
    }
  }

  lemma StepInv(job: Job, s: State, e: Event)
    requires Inv(job, s) && Step(job, s, e).Some?
    ensures Inv(job, Step(job, s, e).value)
  {
    match e
    case Launch => LaunchInv(job, s);
    case Stop =>
    case Proceed => ProceedInv(job, s);
    case Answered(text) => AnsweredInv(job, s, text);
    case ApiError => ApiErrorInv(job, s);
  }

  lemma {:induction false} PathInv(job: Job, path: seq<State>, k: nat)
    requires Path(job, path) && Inv(job, path[0]) && k < |path|
    ensures Inv(job, path[k])
  {
    if k > 0 {
      PathInv(job, path, k - 1);
      assert Next(job, path[k - 1], path[k]);
      var e :| Step(job, path[k - 1], e) == Some(path[k]);
      StepInv(job, path[k - 1], e);
    }
  }

  /** At every moment of every history of runs, stopped and restarted at will, the answer ids are 1..n,
      every qa row points at an answer, and it is one that the model gave for its query. */
  lemma FilesStayLinked(job: Job, path: seq<State>, k: nat)
    requires History(job, path) && k < |path|
    ensures DiskLinked(path[k])
    ensures var answers, qas := RowsOf(path[k].disk.answers), RowsOf(path[k].disk.qas);
      && (forall m :: 0 <= m < |answers| ==> answers[m].id == m + 1)
      && forall m :: 0 <= m < |qas| ==>
           1 <= qas[m].aid <= |answers| && (qas[m].qid, answers[qas[m].aid - 1].text) in path[k].returned
  {
    PathInv(job, path, k);
  }

  // ---- No query twice ----

  /** What keeps queries from being asked twice: the queries are different, or none is asked at all. */
  predicate AskedOnce(job: Job) { DistinctIds(job.queries) || job.maxRetries < 0 }

  predicate NoRepeats(s: State) { OnceEach(s.qas) && OnceEach(RowsOf(s.disk.qas)) }

  lemma NotAskedYet(job: Job, s: State)
    requires AskedOnce(job) && Inv(job, s) && s.phase.Trying?
    ensures job.queries[s.phase.i] !in Qids(s.qas)
  {
  }

  lemma RecordOnce(qas: seq<QaRow>, row: QaRow)
    requires OnceEach(qas) && row.qid !in Qids(qas)
    ensures OnceEach(qas + [row])
  {
    forall k | 0 <= k < |qas| ensures qas[k].qid != row.qid {
      assert qas[k].qid in Qids(qas);
    }
  }

  lemma StepNoRepeats(job: Job, s: State, e: Event)
    requires AskedOnce(job) && Inv(job, s) && NoRepeats(s) && Step(job, s, e).Some?
    ensures NoRepeats(Step(job, s, e).value)
  {
    if e.Answered? {
      NotAskedYet(job, s);
      RecordOnce(s.qas, QaRow(job.queries[s.phase.i], s.counter));
    }
  }

  lemma NextNoRepeats(job: Job, s: State, s': State)
    requires AskedOnce(job) && Inv(job, s) && NoRepeats(s) && Next(job, s, s')
    ensures NoRepeats(s')
  {
    var e :| Step(job, s, e) == Some(s');
    StepNoRepeats(job, s, e);
  }

  ghost predicate StepsNoRepeats(path: seq<State>) {
    forall k :: 0 < k < |path| && NoRepeats(path[k - 1]) ==> NoRepeats(path[k])
  }

  lemma HistoryNoRepeats(job: Job, path: seq<State>)
    requires AskedOnce(job) && History(job, path)
    ensures StepsNoRepeats(path) && NoRepeats(path[0])
  {
    forall k | 0 < k < |path| && NoRepeats(path[k - 1]) ensures NoRepeats(path[k]) {
      PathInv(job, path, k - 1);
      NextNoRepeats(job, path[k - 1], path[k]);
    }
  }

  lemma {:induction false} PathNoRepeats(path: seq<State>, k: nat)
    requires path != [] && StepsNoRepeats(path) && NoRepeats(path[0]) && k < |path|
    ensures NoRepeats(path[k])
  {
    if k > 0 {
      PathNoRepeats(path, k - 1);
    }
  }

  /** With different queries no query ever has two rows, either. */
  lemma FilesStayConsistent(job: Job, path: seq<State>, k: nat)
    requires AskedOnce(job) && History(job, path) && k < |path|
    ensures DiskOk(path[k])
  {
    FilesStayLinked(job, path, k);
    HistoryNoRepeats(job, path);
    PathNoRepeats(path, k);
  }

  // ---- What is saved stays saved ----

  /** The text of the answer a qa row points at. */
  function TextOf(disk: Disk, aid: nat): Option<string> {
    if 1 <= aid <= |RowsOf(disk.answers)| then Some(RowsOf(disk.answers)[aid - 1].text) else None
  }

  predicate KeepsAnswers(before: Disk, after: Disk) {
    && RowsOf(before.qas) <= RowsOf(after.qas)
    && forall r :: r in RowsOf(before.qas) ==> TextOf(after, r.aid) == TextOf(before, r.aid)
  }

  lemma SavingAnswersKeeps(disk: Disk, answers: seq<AnswerRow>)
    requires RowsOf(disk.answers) <= answers
    requires forall r :: r in RowsOf(disk.qas) ==> 1 <= r.aid <= |RowsOf(disk.answers)|
    ensures KeepsAnswers(disk, disk.(answers := Save(answers)))
  {
    assert RowsOf(Save(answers)) == answers;
  }

  lemma SavingQasKeeps(disk: Disk, qas: seq<QaRow>)
    requires RowsOf(disk.qas) <= qas
    ensures KeepsAnswers(disk, disk.(qas := Save(qas)))
  {
    assert RowsOf(Save(qas)) == qas;
  }

  lemma SavedAids(s: State)
    requires DiskLinked(s)
    ensures forall r :: r in RowsOf(s.disk.qas) ==> 1 <= r.aid <= |RowsOf(s.disk.answers)|
  {
  }

  lemma NothingSaved(disk: Disk, after: Disk)
    requires RowsOf(disk.qas) == [] && RowsOf(after.qas) == []
    ensures KeepsAnswers(disk, after)
  {
  }

  lemma StepKeepsAnswers(job: Job, s: State, e: Event)
    requires Inv(job, s) && Step(job, s, e).Some?
    ensures KeepsAnswers(s.disk, Step(job, s, e).value.disk)
  {
    var s' := Step(job, s, e).value;
    if e.Proceed? && s.phase.SavingAnswers? {
      if RowsOf(s.disk.qas) == [] {
        NothingSaved(s.disk, s'.disk);
      } else {
        SavedAids(s);
        SavingAnswersKeeps(s.disk, s.answers);
      }
    } else if e.Proceed? && s.phase.SavingQas? {
      SavingQasKeeps(s.disk, s.qas);
    } else {
      assert s'.disk == s.disk;
    }
  }

  lemma NextKeepsAnswers(job: Job, s: State, s': State)
    requires Inv(job, s) && Next(job, s, s')
    ensures KeepsAnswers(s.disk, s'.disk)
  {
    var e :| Step(job, s, e) == Some(s');
    StepKeepsAnswers(job, s, e);
  }

  /** Every step along the path keeps what is saved. */
  ghost predicate PathKeeps(path: seq<State>) {
    forall k :: 0 < k < |path| ==> KeepsAnswers(path[k - 1].disk, path[k].disk)
  }

  lemma HistoryKeeps(job: Job, path: seq<State>)
    requires History(job, path)
    ensures PathKeeps(path)
  {
    forall k | 0 < k < |path| ensures KeepsAnswers(path[k - 1].disk, path[k].disk) {
      PathInv(job, path, k - 1);
      NextKeepsAnswers(job, path[k - 1], path[k]);
    }
  }

  lemma {:induction false} KeptAlong(path: seq<State>, j: nat, k: nat)
    requires PathKeeps(path) && j <= k < |path|
    ensures KeepsAnswers(path[j].disk, path[k].disk)
    decreases k
  {
    if j < k {
      KeptAlong(path, j, k - 1);
      KeepsTransitive(path[j].disk, path[k - 1].disk, path[k].disk);
    }
  }

  /** A saved qa row is never altered again, and neither is the answer it points at, over any
      number of further runs and stops. */
  lemma SavedAnswersStay(job: Job, path: seq<State>, j: nat, k: nat)
    requires History(job, path) && j <= k < |path|
    ensures KeepsAnswers(path[j].disk, path[k].disk)
    ensures var answers, after := RowsOf(path[j].disk.answers), RowsOf(path[k].disk.answers);
      forall r :: r in RowsOf(path[j].disk.qas) ==>
        1 <= r.aid <= |answers| && r.aid <= |after| && after[r.aid - 1].text == answers[r.aid - 1].text
  {
    HistoryKeeps(job, path);
    KeptAlong(path, j, k);
    FilesStayLinked(job, path, j);
  }

  lemma KeepsTransitive(a: Disk, b: Disk, c: Disk)
    requires KeepsAnswers(a, b) && KeepsAnswers(b, c)
    ensures KeepsAnswers(a, c)
  {
    forall r | r in RowsOf(a.qas) ensures TextOf(c, r.aid) == TextOf(a, r.aid) {
      assert r in RowsOf(b.qas);
    }
  }

  /** A run that gets through has every query in the second file, or the model has failed on it in this
      run as often as it is tried: max_retries + 1 times, or never if that number is not positive. */
  lemma FinishedRunSettles(job: Job, path: seq<State>, k: nat, j: nat)
    requires History(job, path) && k < |path| && path[k].phase.Done? && j < |job.queries|
    ensures job.queries[j] in Qids(RowsOf(path[k].disk.qas)) || Failed(path[k], j) == Tries(job)
  {
    PathInv(job, path, k);
    assert Settled(job, path[k], j);
  }

  // ---- Distinct query ids are needed ----

  /** Query i asked, answered at once with an empty text, and saved. */
  function AnswerOne(job: Job, s: State): State
    requires s.phase.AtQuery? && s.phase.i < |job.queries|
  {
    var q, i := job.queries[s.phase.i], s.phase.i;
    var answers, qas := s.answers + [AnswerRow(s.counter, "")], s.qas + [QaRow(q, s.counter)];
    State(Disk(Rows(answers), Rows(qas)), AtQuery(i + 1), answers, qas, s.processed, s.counter + 1,
          s.returned + {(q, "")}, s.failures)
  }

  lemma AnswerOneSteps(job: Job, s: State) returns (a: State, b: State, c: State)
    requires s.phase.AtQuery? && s.phase.i < |job.queries| && job.maxRetries >= 0
    requires job.queries[s.phase.i] !in s.processed
    ensures Next(job, s, a) && Next(job, a, b) && Next(job, b, c) && Next(job, c, AnswerOne(job, s))
  {
    a := Step(job, s, Proceed).value;
    b := Step(job, a, Answered("")).value;
    c := Step(job, b, Proceed).value;
    assert Step(job, s, Proceed) == Some(a) && Step(job, a, Answered("")) == Some(b);
    assert Step(job, b, Proceed) == Some(c) && Step(job, c, Proceed) == Some(AnswerOne(job, s));
  }

  lemma PathAppend(job: Job, path: seq<State>, s: State)
    requires Path(job, path) && Next(job, path[|path| - 1], s)
    ensures Path(job, path + [s])
  {
    var p := path + [s];
    forall k | 0 < k < |p| ensures Next(job, p[k - 1], p[k]) {
      if k < |path| {
        assert p[k] == path[k] && p[k - 1] == path[k - 1];
      }
    }
  }

  /** A first run in which the model answers everything reaches every query with one qa row for
      each query before it. */
  lemma {:induction false} AllAnswered(job: Job, n: nat) returns (path: seq<State>)
    requires n <= |job.queries| && job.maxRetries >= 0
    ensures History(job, path)
    ensures var s := path[|path| - 1];
            && s.phase == AtQuery(n) && s.processed == {} && |s.qas| == n && RowsOf(s.disk.qas) == s.qas
            && forall k :: 0 <= k < n ==> s.qas[k].qid == job.queries[k]
  {
    if n == 0 {
      var s := State(Disk(Missing, Missing), Idle, [], [], {}, 1, {}, map[]);
      assert Step(job, s, Launch) == Some(Loaded(s));
      path := [s, Loaded(s)];
    } else {
      path := AllAnswered(job, n - 1);
      path := AnswerNext(job, path);
    }
  }

  /** One query more, answered at once. */
  lemma AnswerNext(job: Job, path: seq<State>) returns (longer: seq<State>)
    requires History(job, path) && job.maxRetries >= 0
    requires var s := path[|path| - 1];
      s.phase.AtQuery? && s.phase.i < |job.queries| && job.queries[s.phase.i] !in s.processed
    ensures History(job, longer) && longer[|longer| - 1] == AnswerOne(job, path[|path| - 1])
  {
    var s := path[|path| - 1];
    var a, b, c := AnswerOneSteps(job, s);
    PathAppend(job, path, a);
    PathAppend(job, path + [a], b);
    PathAppend(job, path + [a] + [b], c);
    PathAppend(job, path + [a] + [b] + [c], AnswerOne(job, s));
    longer := path + [a] + [b] + [c] + [AnswerOne(job, s)];
    assert longer[0] == path[0];
  }

  /** The files are consistent at every moment of every history exactly when no query id occurs twice,
      or nothing is asked at all: ids answered in the current run are not looked up again. */
  lemma ConsistentIffDistinct(job: Job)
    ensures DistinctIds(job.queries) || job.maxRetries < 0
            <==> forall path, k :: History(job, path) && 0 <= k < |path| ==> DiskOk(path[k])
  {
    if AskedOnce(job) {
      forall path, k | History(job, path) && 0 <= k < |path| ensures DiskOk(path[k]) {
        FilesStayConsistent(job, path, k);
      }
    } else {
      var path := AllAnswered(job, |job.queries|);
      var i, j :| 0 <= i < j < |job.queries| && job.queries[i] == job.queries[j];
      var s := path[|path| - 1];
      assert s.qas[i].qid == s.qas[j].qid;
      assert !DiskOk(path[|path| - 1]);
    }
  }

  // ---- The generator as it runs ----

  /** The output directory. */
  class Files {
    var answers: Table<AnswerRow>
    var qas: Table<QaRow>

    constructor ()
      ensures Value() == Disk(Missing, Missing)
    {
      answers, qas := Missing, Missing;
    }

    function Value(): Disk
      reads this
    {
      Disk(answers, qas)
    }

    method SaveAnswers(rows: seq<AnswerRow>)
      modifies this
      ensures answers == Save(rows) && qas == old(qas)
    {
      answers := Save(rows);
    }

    method SaveQas(rows: seq<QaRow>)
      modifies this
      ensures qas == Save(rows) && answers == old(answers)
    {
      qas := Save(rows);
    }
  }

  /** What a call to the model comes to: a text, an API error, which is retried, or any other
      exception, which ends the run. */
  datatype Reply = Text(text: string) | ApiFailure | OtherFailure

  /** The reply to the n-th call of a run. */
  type Model = (Qid, nat) -> Reply

  ghost predicate Follows(job: Job, path: seq<State>, before: State, s: State) {
    Path(job, path) && path[0] == before && path[|path| - 1] == s
  }

  /** The path with one step more, and its last state. */
  lemma Extend(job: Job, path: seq<State>, before: State, s: State, e: Event) returns (path': seq<State>, s': State)
    requires Follows(job, path, before, s) && Step(job, s, e).Some?
    ensures Follows(job, path', before, s') && s' == Step(job, s, e).value
  {
    s' := Step(job, s, e).value;
    assert Next(job, s, s');
    PathAppend(job, path, s');
    path' := path + [s'];
  }

  /** Saves both files, the answers first. */
  method SaveBoth(job: Job, files: Files, answers: seq<AnswerRow>, qas: seq<QaRow>,
                  ghost before: State, ghost path: seq<State>, ghost s: State)
    returns (ghost path': seq<State>, ghost s': State)
    requires Follows(job, path, before, s) && s.disk == files.Value()
    requires s.phase.SavingAnswers? && s.answers == answers && s.qas == qas
    modifies files
    ensures Follows(job, path', before, s') && s'.disk == files.Value()
    ensures s' == s.(disk := Disk(Save(answers), Save(qas)), phase := AtQuery(s.phase.i + 1))
  {
    files.SaveAnswers(answers);
    path', s' := Extend(job, path, before, s, Proceed);
    files.SaveQas(qas);
    path', s' := Extend(job, path', before, s', Proceed);
  }

  /** An answer goes into both lists under the next number, and both are saved. */
  method Record(job: Job, files: Files, qid: Qid, text: string, answers: seq<AnswerRow>, qas: seq<QaRow>,
                counter: nat, ghost before: State, ghost path: seq<State>, ghost s: State)
    returns (answers': seq<AnswerRow>, qas': seq<QaRow>, counter': nat, ghost path': seq<State>, ghost s': State)
    requires Follows(job, path, before, s) && s.disk == files.Value()
    requires s.phase.Trying? && s.phase.i < |job.queries| && job.queries[s.phase.i] == qid
    requires s.answers == answers && s.qas == qas && s.counter == counter
    modifies files
    ensures Follows(job, path', before, s') && s'.disk == files.Value()
    ensures s'.phase == AtQuery(s.phase.i + 1) && s'.processed == s.processed
    ensures s'.answers == answers' == answers + [AnswerRow(counter, text)] && s'.counter == counter' == counter + 1
    ensures s'.qas == qas' == qas + [QaRow(qid, counter)]
  {
    answers', qas' := answers + [AnswerRow(counter, text)], qas + [QaRow(qid, counter)];
    counter' := counter + 1;
    path', s' := Extend(job, path, before, s, Answered(text));
    path', s' := SaveBoth(job, files, answers', qas', before, path', s');
  }

  /** One run over the files. Whatever the model replies, the run is a path of the machine that
      starts and ends at what the files hold; it always ends, and either it has gone through all
      queries or an exception has stopped it. */
  method GenerateAnswers(files: Files, job: Job, model: Model, ghost before: State)
    returns (completed: bool, ghost path: seq<State>)
    requires before.phase.Idle? && before.disk == files.Value()
    modifies files
    ensures Path(job, path) && path[0] == before
    ensures path[|path| - 1].disk == files.Value()
    ensures path[|path| - 1].phase == if completed then Done else Idle
  {
    ghost var s := before;
    path := [before];
    path, s := Extend(job, path, before, s, Launch);
    var disk := files.Value();
    var answers, qas := LoadAnswers(disk), LoadQas(disk);
    var processed, counter, calls := Qids(qas), |answers| + 1, 0;
    for i := 0 to |job.queries|
      invariant Follows(job, path, before, s) && s.disk == files.Value()
      invariant s.phase == AtQuery(i) && s.answers == answers && s.qas == qas
      invariant s.processed == processed && s.counter == counter
    {
      path, s := Extend(job, path, before, s, Proceed);
      if job.queries[i] in processed {
        continue;
      }
      var retries := 0;
      while retries <= job.maxRetries
        invariant Follows(job, path, before, s) && s.disk == files.Value()
        invariant s.phase == if retries <= job.maxRetries then Trying(i, retries) else AtQuery(i + 1)
        invariant s.answers == answers && s.qas == qas && s.processed == processed && s.counter == counter
        decreases job.maxRetries - retries
      {
        var reply := model(job.queries[i], calls);
        calls := calls + 1;
        match reply {
          case Text(text) =>
            answers, qas, counter, path, s :=
              Record(job, files, job.queries[i], text, answers, qas, counter, before, path, s);
            break;
          case ApiFailure =>
            retries := retries + 1;
            path, s := Extend(job, path, before, s, ApiError);
            if retries > job.maxRetries {
              path, s := SaveBoth(job, files, answers, qas, before, path, s);
            }
          case OtherFailure =>
            path, s := Extend(job, path, before, s, Stop);
            return false, path;
        }
      }
    }
    path, s := Extend(job, path, before, s, Proceed);
    completed := true;
  }
}
