/** What one run of the answer generator makes of the files it finds. */
module AnswerRuns {
  import opened Options
  import opened AnswerGenerator

  // A run starts from the saved rows, or from nothing when a file is missing or the second one has no columns:
  // answers that were saved without their pairs are given up then.

  function StartAnswers(disk: Disk): seq<AnswerRow> {
    if disk.answers.Missing? || disk.qas.Missing? || disk.qas.NoColumns? || disk.answers.NoColumns? then []
    else disk.answers.rows
  }

  function StartQas(disk: Disk): seq<QaRow> {
    if disk.answers.Missing? || disk.qas.Missing? || disk.qas.NoColumns? then [] else disk.qas.rows
  }

  /** Answers and pairs were added to the rows of the start in step, each pair with the number of its answer. */
  ghost predicate Added(
    answers0: seq<AnswerRow>, qas0: seq<QaRow>, answers: seq<AnswerRow>, qas: seq<QaRow>)
  {
    && answers0 <= answers && qas0 <= qas && |answers| - |answers0| == |qas| - |qas0|
    && forall m :: |qas0| <= m < |qas| ==> qas[m].aid == |answers0| + (m - |qas0|) + 1
  }

  /** Nothing had to be asked of the first n queries: they are in the rows of the start, or nothing is ever asked. */
  ghost predicate NothingToAsk(job: Job, disk: Disk, n: nat) {
    forall q :: 0 <= q < n && q < |job.queries| ==> job.queries[q] in Qids(StartQas(disk)) || job.maxRetries < 0
  }

  ghost predicate Untouched(job: Job, disk: Disk, s: State, n: nat) {
    && s.disk == disk && s.answers == StartAnswers(disk) && s.qas == StartQas(disk) && NothingToAsk(job, disk, n)
  }

  ghost predicate SavedAll(s: State) { s.disk == Disk(Save(s.answers), Save(s.qas)) }

  /** What is known in a run that was launched with these files. */
  ghost predicate InRun(job: Job, disk: Disk, s: State) {
    && Added(StartAnswers(disk), StartQas(disk), s.answers, s.qas)
    && s.processed == Qids(StartQas(disk)) && s.counter == |s.answers| + 1
    && match s.phase
       case Idle => false
       case AtQuery(i) => Untouched(job, disk, s, i) || SavedAll(s)
       case Trying(i, _) => Untouched(job, disk, s, i) || SavedAll(s)
       case SavingAnswers(_) => true
       case SavingQas(_) => s.disk.answers == Save(s.answers)
       case Done => Untouched(job, disk, s, |job.queries|) || SavedAll(s)
  }

  lemma AddOne(answers0: seq<AnswerRow>, qas0: seq<QaRow>, answers: seq<AnswerRow>, qas: seq<QaRow>,
      answer: AnswerRow, pair: QaRow)
    requires Added(answers0, qas0, answers, qas) && pair.aid == |answers| + 1
    ensures Added(answers0, qas0, answers + [answer], qas + [pair])
  {
  }

  lemma LaunchInRun(job: Job, s: State)
    requires s.phase.Idle? || s.phase.Done?
    ensures Step(job, s, Launch).Some? && InRun(job, s.disk, Step(job, s, Launch).value)
  {
  }

  lemma StepInRun(job: Job, disk: Disk, s: State, e: Event)
    requires InRun(job, disk, s) && Step(job, s, e).Some? && !s.phase.Done? && !Step(job, s, e).value.phase.Idle?
    ensures InRun(job, disk, Step(job, s, e).value)
  {
    if e.Answered? {
      AddOne(StartAnswers(disk), StartQas(disk), s.answers, s.qas,
        AnswerRow(s.counter, e.text), QaRow(job.queries[s.phase.i], s.counter));
    }
  }

  lemma FirstInRun(job: Job, s: State, s': State)
    requires (s.phase.Idle? || s.phase.Done?) && Next(job, s, s') && !s'.phase.Idle?
    ensures InRun(job, s.disk, s')
  {
    var e :| Step(job, s, e) == Some(s');
    assert e.Launch?;
    LaunchInRun(job, s);
  }

  lemma NextInRun(job: Job, disk: Disk, s: State, s': State)
    requires InRun(job, disk, s) && Next(job, s, s') && !s.phase.Done? && !s'.phase.Idle?
    ensures InRun(job, disk, s')
  {
    var e :| Step(job, s, e) == Some(s');
    StepInRun(job, disk, s, e);
  }

  /** From state j on, a run goes on until state k: it is launched from there, and neither stopped nor finished
      in between. */
  ghost predicate OneRun(path: seq<State>, j: nat, k: nat) {
    && j < k < |path| && (path[j].phase.Idle? || path[j].phase.Done?)
    && (forall i :: j < i <= k ==> !path[i].phase.Idle?)
    && (forall i :: j < i < k ==> !path[i].phase.Done?)
  }

  /** In the run after state j, every step keeps what is known. */
  ghost predicate KeepsRun(job: Job, path: seq<State>, j: nat, k: nat) {
    && j < k < |path| && InRun(job, path[j].disk, path[j + 1])
    && forall i :: j + 1 < i <= k && InRun(job, path[j].disk, path[i - 1]) ==> InRun(job, path[j].disk, path[i])
  }

  lemma RunKeeps(job: Job, path: seq<State>, j: nat, k: nat)
    requires Path(job, path) && OneRun(path, j, k)
    ensures KeepsRun(job, path, j, k)
  {
    FirstInRun(job, path[j], path[j + 1]);
    forall i | j + 1 < i <= k && InRun(job, path[j].disk, path[i - 1]) ensures InRun(job, path[j].disk, path[i]) {
      NextInRun(job, path[j].disk, path[i - 1], path[i]);
    }
  }

  lemma {:induction false} RunStays(job: Job, path: seq<State>, j: nat, k: nat, i: nat)
    requires KeepsRun(job, path, j, k) && j < i <= k
    ensures InRun(job, path[j].disk, path[i])
    decreases i
  {
    if j + 1 < i {
      RunStays(job, path, j, k, i - 1);
    }
  }

  /** When a run is through, either there was nothing to ask and the files are as before, or the files hold the
      rows of the start and, in step, the new answers and pairs. */
  lemma FinishedRun(job: Job, path: seq<State>, j: nat, k: nat)
    requires Path(job, path) && OneRun(path, j, k) && path[k].phase.Done?
    ensures var before, after := path[j].disk, path[k].disk;
      || (after == before && NothingToAsk(job, before, |job.queries|))
      || Added(StartAnswers(before), StartQas(before), RowsOf(after.answers), RowsOf(after.qas))
  {
    RunKeeps(job, path, j, k);
    RunStays(job, path, j, k, k);
  }

  lemma {:induction false} SavedNotEmpty(job: Job, path: seq<State>, k: nat)
    requires History(job, path) && k < |path|
    ensures path[k].disk.qas != Rows([])
  {
    if k > 0 {
      SavedNotEmpty(job, path, k - 1);
      assert Next(job, path[k - 1], path[k]);
      var e :| Step(job, path[k - 1], e) == Some(path[k]);
    }
  }

  /** In particular, a run that finds no pair starts over: afterwards there are as many answers as pairs, the k-th
      pair with the k-th answer, whatever answers an interrupted run had left. */
  lemma OrphansGo(job: Job, path: seq<State>, j: nat, k: nat)
    requires History(job, path) && OneRun(path, j, k) && path[k].phase.Done?
    requires RowsOf(path[j].disk.qas) == [] && job.queries != [] && job.maxRetries >= 0
    ensures var answers, qas := RowsOf(path[k].disk.answers), RowsOf(path[k].disk.qas);
      |answers| == |qas| && forall m :: 0 <= m < |qas| ==> qas[m].aid == m + 1
  {
    FinishedRun(job, path, j, k);
    SavedNotEmpty(job, path, j);
    assert NothingToAsk(job, path[j].disk, |job.queries|) ==> job.queries[0] in Qids(StartQas(path[j].disk));
  }

  /** A run can be stopped in any state: the files stay as they are, and the next launch starts from
      them alone. */
  lemma StopAnywhere(job: Job, path: seq<State>) returns (stopped: State, started: State)
    requires History(job, path) && !path[|path| - 1].phase.Idle?
    ensures History(job, path + [stopped]) && History(job, path + [stopped] + [started])
    ensures stopped.phase.Idle? && stopped.disk == path[|path| - 1].disk == started.disk
    ensures started.phase == AtQuery(0)
    ensures started.answers == StartAnswers(stopped.disk) && started.qas == StartQas(stopped.disk)
  {
    var last := path[|path| - 1];
    stopped := Stopped(last);
    started := Loaded(stopped);
    assert Step(job, last, Stop) == Some(stopped) && Step(job, stopped, Launch) == Some(started);
    LongerHistory(job, path, stopped);
    LongerHistory(job, path + [stopped], started);
  }

  lemma LongerHistory(job: Job, path: seq<State>, s: State)
    requires History(job, path) && Next(job, path[|path| - 1], s)
    ensures History(job, path + [s])
  {
    var longer := path + [s];
    forall k | 0 < k < |longer| ensures Next(job, longer[k - 1], longer[k]) {
      assert k < |path| ==> Next(job, path[k - 1], path[k]);
    }
  }
}
