/** What every step of the protocol keeps, and what therefore holds when `process` returns. */
module Safety {
  import opened Text
  import opened Utility
  import opened MapReduce
  import opened Protocol

  // ---------------------------------------------------------------- status vectors

  /** The number of tasks marked as done. */
  function Ones(status: seq<int>): (n: nat)
    ensures n <= |status|
  {
    if status == [] then 0
    else Ones(status[..|status| - 1]) + if status[|status| - 1] == 1 then 1 else 0
  }

  lemma {:induction false} OnesUpdate(status: seq<int>, i: nat)
    requires i < |status| && status[i] != 1
    ensures Ones(status[i := 1]) == Ones(status) + 1
  {
    var n := |status| - 1;
    if i < n {
      assert status[i := 1][..n] == status[..n][i := 1];
      OnesUpdate(status[..n], i);
    } else {
      assert status[i := 1][..n] == status[..n];
    }
  }

  lemma {:induction false} OnesFull(status: seq<int>)
    ensures Ones(status) == |status| ==> forall i :: 0 <= i < |status| ==> status[i] == 1
    ensures Ones(status) == 0 ==> forall i :: 0 <= i < |status| ==> status[i] != 1
  {
    if status != [] {
      OnesFull(status[..|status| - 1]);
    }
  }

  lemma {:induction false} OnesNone(status: seq<int>)
    requires forall i :: 0 <= i < |status| ==> status[i] != 1
    ensures Ones(status) == 0
  {
    if status != [] {
      OnesNone(status[..|status| - 1]);
    }
  }

  // ---------------------------------------------------------------- the invariant

  /** All of mapper `m`'s files hold their complete content. */
  ghost predicate MapFilesDone(cfg: Config, files: Files, m: nat)
    requires cfg.Valid()
  {
    forall r: nat :: r < cfg.nrReducer ==> FileDone(cfg, files, m, r)
  }

  ghost predicate OutputDone(cfg: Config, files: Files, r: nat)
    requires cfg.Valid()
  {
    ReadFile(files, Output(r)) == OutputText(cfg, r)
  }

  /** What a worker holds in memory, and what it has already closed, is what a run without
      faults would have at that point. */
  ghost predicate JobOk(cfg: Config, i: nat, job: Job, files: Files)
    requires cfg.Valid()
  {
    match job
    case Idle => true
    case Scanning(line, emitted) => line <= |cfg.lines| && emitted == Emitted(cfg, i, line)
    case Opening(emitted, next) => emitted == MapperPairs(cfg, i) && next <= cfg.nrReducer
    case Writing(emitted, next) => emitted == MapperPairs(cfg, i) && next <= |emitted|
    case Closing(emitted, next) =>
      && emitted == MapperPairs(cfg, i) && next <= cfg.nrReducer
      && forall r: nat :: r < next ==> FileDone(cfg, files, i, r)
    case Gathering(next, acc) => next <= cfg.nrMapper && acc == FaultFree(cfg, i, next)
    case Reducing(acc, keys, next, outputs) =>
      && acc == ReducerGroups(cfg, i) && keys == SortedKeys(acc.Keys) && next <= |keys|
      && (forall j :: 0 <= j < |keys| ==> keys[j] in acc)
      && outputs == Reduced(cfg.program, acc, keys[..next])
    case Publishing(outputs, next) =>
      outputs == ReducedAll(cfg.program, ReducerGroups(cfg, i)) && next <= |outputs|
    case Reporting => OutputDone(cfg, files, i)
  }

  ghost predicate WorkerOk(cfg: Config, i: nat, w: Worker, files: Files)
    requires cfg.Valid()
  {
    && JobOk(cfg, i, w.job, files)
    && (w.mapCompleted ==> MapFilesDone(cfg, files, i) && !w.job.Maps())
    && (w.reduceCompleted ==> OutputDone(cfg, files, i) && !w.job.Reduces())
  }

  ghost predicate CountsOk(cfg: Config, s: State)
    requires Shape(cfg, s)
  {
    && s.nrMapDone == Ones(s.mapTaskStatus)
    && s.nrReduceDone == Ones(s.reduceTaskStatus)
    && forall i :: cfg.nrMapper <= i < cfg.nrReducer ==> s.reduceTaskStatus[i] != 1
  }

  /** A task marked as done has its files complete, and no live worker is rewriting them. */
  ghost predicate StatusOk(cfg: Config, s: State, i: nat)
    requires Shape(cfg, s) && i < cfg.nrMapper
  {
    && (s.mapTaskStatus[i] == 1 ==>
          MapFilesDone(cfg, s.files, i) && (s.workers[i].alive ==> !s.workers[i].job.Maps()))
    && (s.reduceTaskStatus[i] == 1 ==>
          OutputDone(cfg, s.files, i) && (s.workers[i].alive ==> !s.workers[i].job.Reduces()))
  }

  ghost predicate Untouched(w: Worker) {
    w.alive ==> w.job == Idle && !w.mapCompleted && !w.reduceCompleted
  }

  ghost predicate NotReducing(w: Worker) {
    w.alive ==> !w.job.Reduces() && !w.reduceCompleted
  }

  /** What the master's position says about the workers. */
  ghost predicate StageOk(cfg: Config, s: State)
    requires Shape(cfg, s)
  {
    match s.control
    case CallMap(i) =>
      && i <= cfg.nrMapper && s.nrMapDone == 0 && s.nrReduceDone == 0
      && (forall k :: i <= k < cfg.nrMapper ==> Untouched(s.workers[k]))
      && (forall k :: 0 <= k < cfg.nrMapper ==> NotReducing(s.workers[k]))
    case PollMap(i) =>
      && i <= cfg.nrMapper && s.nrReduceDone == 0
      && (forall k :: 0 <= k < cfg.nrMapper ==> NotReducing(s.workers[k]))
    case CallReduce(i) =>
      && i <= cfg.nrMapper && s.nrMapDone == cfg.nrMapper && s.nrReduceDone == 0
      && (forall k :: i <= k < cfg.nrMapper ==> NotReducing(s.workers[k]))
    case PollReduce(i) => i <= cfg.nrMapper && s.nrMapDone == cfg.nrMapper
    case StopServers(i) => i <= cfg.nrMapper && s.nrMapDone == cfg.nrMapper && s.nrReduceDone == cfg.nrReducer
    case Returned => s.nrMapDone == cfg.nrMapper && s.nrReduceDone == cfg.nrReducer
  }

  ghost predicate Inv(cfg: Config, s: State) {
    && Shape(cfg, s)
    && CountsOk(cfg, s)
    && StageOk(cfg, s)
    && (forall i :: 0 <= i < cfg.nrMapper && s.workers[i].alive ==> WorkerOk(cfg, i, s.workers[i], s.files))
    && (forall i :: 0 <= i < cfg.nrMapper ==> StatusOk(cfg, s, i))
  }

  lemma {:induction false} StartEstablishesInv(cfg: Config, files: Files)
    requires cfg.Valid()
    ensures Inv(cfg, Start(cfg, files))
  {
    var s := Start(cfg, files);
    OnesNone(s.mapTaskStatus);
    OnesNone(s.reduceTaskStatus);
  }

  // ---------------------------------------------------------------- one worker

  /** Only worker `i` writes these. */
  predicate OwnFile(i: nat, f: FileName) {
    match f
    case Input => false
    case Temp(m, r) => m == i
    case Output(r) => r == i
  }

  /** The files that differ belong to worker `i`; its intermediate files differ only while it
      maps, its output only while it reduces. */
  ghost predicate WritesOwn(i: nat, job: Job, files: Files, files': Files) {
    forall f :: ReadFile(files', f) != ReadFile(files, f) ==>
                  OwnFile(i, f) && (if f.Temp? then job.Maps() else job.Reduces())
  }

  lemma {:induction false} JobStepWritesOwn(cfg: Config, i: nat, job: Job, files: Files)
    requires cfg.Valid()
    ensures WritesOwn(i, job, files, JobStep(cfg, i, job, files).1)
  {
  }

  lemma {:induction false} FlushWritesOwn(cfg: Config, i: nat, w: Worker, r: nat, length: nat, files: Files)
    requires cfg.Valid()
    ensures WritesOwn(i, w.job, files, FlushStep(cfg, i, w, r, length, files))
  {
  }

  /** What one step of a task keeps; the task returns only with its files complete. */
  ghost predicate StepKeepsJob(cfg: Config, i: nat, job: Job, files: Files)
    requires cfg.Valid()
  {
    var (job', files') := JobStep(cfg, i, job, files);
    && JobOk(cfg, i, job', files')
    && (job'.Maps() ==> job.Maps())
    && (job'.Reduces() ==> job.Reduces())
    && (job' == Idle && job.Maps() ==> MapFilesDone(cfg, files', i))
    && (job' == Idle && job.Reduces() ==> OutputDone(cfg, files', i))
  }

  lemma {:induction false} ScanKeepsJob(cfg: Config, i: nat, line: nat, emitted: seq<Pair>, files: Files)
    requires cfg.Valid() && JobOk(cfg, i, Scanning(line, emitted), files)
    ensures StepKeepsJob(cfg, i, Scanning(line, emitted), files)
  {
  }

  lemma {:induction false} WriteKeepsJob(cfg: Config, i: nat, job: Job, files: Files)
    requires cfg.Valid() && JobOk(cfg, i, job, files) && (job.Opening? || job.Writing?)
    ensures StepKeepsJob(cfg, i, job, files)
  {
  }

  lemma {:induction false} CloseKeepsJob(cfg: Config, i: nat, emitted: seq<Pair>, next: nat, files: Files)
    requires cfg.Valid() && JobOk(cfg, i, Closing(emitted, next), files)
    ensures StepKeepsJob(cfg, i, Closing(emitted, next), files)
  {
    var files' := JobStep(cfg, i, Closing(emitted, next), files).1;
    forall r: nat | r <= next && r < cfg.nrReducer ensures FileDone(cfg, files', i, r) {
      assert r < next ==> FileDone(cfg, files, i, r);
    }
  }

  lemma {:induction false} CompleteFile(cfg: Config, files: Files, m: nat, r: nat)
    requires cfg.Valid() && MapFilesDone(cfg, files, m) && r < cfg.nrReducer
    ensures ReadFile(files, Temp(m, r)) == TempText(cfg, m, r)
  {
    assert FileDone(cfg, files, m, r);
  }

  lemma {:induction false} GatherOneMore(cfg: Config, i: nat, next: nat, text: string)
    requires cfg.Valid() && text == TempText(cfg, next, i)
    ensures Merge(FaultFree(cfg, i, next), Parsed(text)) == FaultFree(cfg, i, next + 1)
  {
  }

  /** `acc'` is what is gathered after one more file. */
  lemma {:induction false} GatherKeepsJob(cfg: Config, i: nat, next: nat, acc: map<string, seq<string>>, files: Files,
                                          acc': map<string, seq<string>>)
    requires cfg.Valid() && next < cfg.nrMapper
    requires acc' == Merge(acc, Parsed(ReadFile(files, Temp(next, i)))) == FaultFree(cfg, i, next + 1)
    ensures StepKeepsJob(cfg, i, Gathering(next, acc), files)
  {
    assert JobStep(cfg, i, Gathering(next, acc), files) == (Gathering(next + 1, acc'), files);
  }

  lemma {:induction false} StartReducingKeepsJob(cfg: Config, i: nat, acc: map<string, seq<string>>, files: Files)
    requires cfg.Valid() && JobOk(cfg, i, Gathering(cfg.nrMapper, acc), files)
    ensures StepKeepsJob(cfg, i, Gathering(cfg.nrMapper, acc), files)
  {
    var keys := SortedKeys(acc.Keys);
    assert forall j :: 0 <= j < |keys| ==> keys[j] in keys;
  }

  lemma {:induction false} ReduceOneMore(program: Program, acc: map<string, seq<string>>, keys: seq<string>, next: nat)
    requires next < |keys| && forall j :: 0 <= j < |keys| ==> keys[j] in acc
    ensures Reduced(program, acc, keys[..next]) + program.reduceFn(keys[next], Listed(acc, keys[next])) ==
            Reduced(program, acc, keys[..next + 1])
  {
    assert keys[..next + 1][..next] == keys[..next];
  }

  lemma {:induction false} ReduceKeepsJob(cfg: Config, i: nat, acc: map<string, seq<string>>, keys: seq<string>,
                                          next: nat,
                                          outputs: seq<Entry>, files: Files)
    requires cfg.Valid() && JobOk(cfg, i, Reducing(acc, keys, next, outputs), files) && next < |keys|
    ensures StepKeepsJob(cfg, i, Reducing(acc, keys, next, outputs), files)
  {
    ReduceOneMore(cfg.program, acc, keys, next);
  }

  lemma {:induction false} StartPublishingKeepsJob(cfg: Config, i: nat, acc: map<string, seq<string>>,
                                                   keys: seq<string>, next: nat,
                                                   outputs: seq<Entry>, files: Files)
    requires cfg.Valid() && JobOk(cfg, i, Reducing(acc, keys, next, outputs), files) && next == |keys|
    ensures StepKeepsJob(cfg, i, Reducing(acc, keys, next, outputs), files)
  {
    assert keys[..next] == keys;
  }

  lemma {:induction false} PublishKeepsJob(cfg: Config, i: nat, job: Job, files: Files)
    requires cfg.Valid() && JobOk(cfg, i, job, files) && (job.Publishing? || job.Reporting?)
    ensures StepKeepsJob(cfg, i, job, files)
  {
  }

  /** The file that a gathering task reads next is complete. */
  ghost predicate NextFileDone(cfg: Config, i: nat, job: Job, files: Files)
    requires cfg.Valid()
  {
    job.Gathering? && job.next < cfg.nrMapper ==> ReadFile(files, Temp(job.next, i)) == TempText(cfg, job.next, i)
  }

  /** A task's own step keeps its memory and its files right; a reducer relies on the mappers'
      files being complete. */
  lemma {:induction false} JobStepKeepsJob(cfg: Config, i: nat, job: Job, files: Files)
    requires cfg.Valid() && i < cfg.nrReducer && JobOk(cfg, i, job, files)
    requires NextFileDone(cfg, i, job, files)
    ensures StepKeepsJob(cfg, i, job, files)
  {
    match job
    case Idle =>
    case Scanning(line, emitted) => ScanKeepsJob(cfg, i, line, emitted, files);
    case Opening(_, _) => WriteKeepsJob(cfg, i, job, files);
    case Writing(_, _) => WriteKeepsJob(cfg, i, job, files);
    case Closing(emitted, next) => CloseKeepsJob(cfg, i, emitted, next, files);
    case Gathering(next, acc) =>
      if next < cfg.nrMapper {
        GatherOneMore(cfg, i, next, ReadFile(files, Temp(next, i)));
        GatherKeepsJob(cfg, i, next, acc, files, FaultFree(cfg, i, next + 1));
      } else {
        StartReducingKeepsJob(cfg, i, acc, files);
      }
    case Reducing(acc, keys, next, outputs) =>
      if next < |keys| {
        ReduceKeepsJob(cfg, i, acc, keys, next, outputs, files);
      } else {
        StartPublishingKeepsJob(cfg, i, acc, keys, next, outputs, files);
      }
    case Publishing(_, _) => PublishKeepsJob(cfg, i, job, files);
    case Reporting => PublishKeepsJob(cfg, i, job, files);
  }

  // ---------------------------------------------------------------- frames

  /** Worker `i`'s writes do not disturb files that it does not own or is not rewriting. */
  lemma {:induction false} FilesFrame(cfg: Config, i: nat, j: nat, job: Job, files: Files, files': Files)
    requires cfg.Valid() && WritesOwn(i, job, files, files')
    ensures MapFilesDone(cfg, files, j) && (i == j ==> !job.Maps()) ==> MapFilesDone(cfg, files', j)
    ensures OutputDone(cfg, files, j) && (i == j ==> !job.Reduces()) ==> OutputDone(cfg, files', j)
  {
    if MapFilesDone(cfg, files, j) && (i == j ==> !job.Maps()) {
      forall r: nat | r < cfg.nrReducer ensures FileDone(cfg, files', j, r) {
        assert FileDone(cfg, files, j, r);
        assert ReadFile(files', Temp(j, r)) == ReadFile(files, Temp(j, r));
      }
    }
    assert OutputDone(cfg, files, j) && (i == j ==> !job.Reduces()) ==>
        ReadFile(files', Output(j)) == ReadFile(files, Output(j));
  }

  lemma {:induction false} JobFrame(cfg: Config, j: nat, job: Job, files: Files, files': Files)
    requires cfg.Valid() && JobOk(cfg, j, job, files)
    requires forall r: nat :: job.Closing? && r < job.next ==> ReadFile(files', Temp(j, r)) == ReadFile(files, Temp(j, r))
    requires job.Reporting? ==> ReadFile(files', Output(j)) == ReadFile(files, Output(j))
    ensures JobOk(cfg, j, job, files')
  {
    if job.Closing? {
      forall r: nat | r < job.next ensures FileDone(cfg, files', j, r) {
        assert FileDone(cfg, files, j, r);
      }
    }
  }

  lemma {:induction false} OtherWorkerFrame(cfg: Config, i: nat, job: Job, j: nat, w: Worker, files: Files,
                                            files': Files)
    requires cfg.Valid() && WritesOwn(i, job, files, files') && i != j && WorkerOk(cfg, j, w, files)
    ensures WorkerOk(cfg, j, w, files')
  {
    FilesFrame(cfg, i, j, job, files, files');
    JobFrame(cfg, j, w.job, files, files');
  }

  // ---------------------------------------------------------------- every step keeps the invariant

  /** No worker reduces before every mapper's files are complete. */
  lemma {:induction false} ReducersRunAfterAllMappers(cfg: Config, s: State, i: nat)
    requires Inv(cfg, s) && i < cfg.nrMapper && s.workers[i].alive && s.workers[i].job.Reduces()
    ensures forall m: nat :: m < cfg.nrMapper ==> s.mapTaskStatus[m] == 1 && MapFilesDone(cfg, s.files, m)
  {
    assert NotReducing(s.workers[i]) ==> false;
    OnesFull(s.mapTaskStatus);
    forall m: nat | m < cfg.nrMapper ensures MapFilesDone(cfg, s.files, m) {
      assert StatusOk(cfg, s, m);
    }
  }

  lemma {:induction false} NextFileIsDone(cfg: Config, s: State, i: nat)
    requires Inv(cfg, s) && i < cfg.nrMapper && s.workers[i].alive
    ensures NextFileDone(cfg, i, s.workers[i].job, s.files)
  {
    var job := s.workers[i].job;
    if job.Gathering? && job.next < cfg.nrMapper {
      ReducersRunAfterAllMappers(cfg, s, i);
      assert s.mapTaskStatus[job.next] == 1;
      CompleteFile(cfg, s.files, job.next, i);
    }
  }

  /** After an action of worker `i` that rewrites only its own files. */
  lemma {:induction false} WritesKeepStatus(cfg: Config, s: State, i: nat, w': Worker, files': Files)
    requires Inv(cfg, s) && i < cfg.nrMapper && s.workers[i].alive
    requires WritesOwn(i, s.workers[i].job, s.files, files')
    requires w'.job.Maps() ==> s.workers[i].job.Maps()
    requires w'.job.Reduces() ==> s.workers[i].job.Reduces()
    ensures var s' := s.(workers := s.workers[i := w'], files := files');
            forall j :: 0 <= j < cfg.nrMapper ==> StatusOk(cfg, s', j)
  {
    var s' := s.(workers := s.workers[i := w'], files := files');
    forall j | 0 <= j < cfg.nrMapper ensures StatusOk(cfg, s', j) {
      assert StatusOk(cfg, s, j);
      FilesFrame(cfg, i, j, s.workers[i].job, s.files, files');
    }
  }

  lemma {:induction false} OthersKeepWorkerOk(cfg: Config, s: State, i: nat, files': Files)
    requires Inv(cfg, s) && i < cfg.nrMapper && WritesOwn(i, s.workers[i].job, s.files, files')
    ensures forall j :: 0 <= j < cfg.nrMapper && j != i && s.workers[j].alive ==> WorkerOk(cfg, j, s.workers[j], files')
  {
    forall j | 0 <= j < cfg.nrMapper && j != i && s.workers[j].alive
      ensures WorkerOk(cfg, j, s.workers[j], files')
    {
      OtherWorkerFrame(cfg, i, s.workers[i].job, j, s.workers[j], s.files, files');
    }
  }

  lemma {:induction false} WorkerStepKeepsWorker(cfg: Config, s: State, i: nat)
    requires Inv(cfg, s) && i < cfg.nrMapper && s.workers[i].alive
    ensures var (w', files') := WorkerStep(cfg, i, s.workers[i], s.files);
            && WorkerOk(cfg, i, w', files')
            && WritesOwn(i, s.workers[i].job, s.files, files')
            && (w'.job.Maps() ==> s.workers[i].job.Maps())
            && (w'.job.Reduces() ==> s.workers[i].job.Reduces())
            && (w'.reduceCompleted ==> s.workers[i].reduceCompleted || s.workers[i].job.Reduces())
  {
    var w := s.workers[i];
    NextFileIsDone(cfg, s, i);
    JobStepKeepsJob(cfg, i, w.job, s.files);
    JobStepWritesOwn(cfg, i, w.job, s.files);
    FilesFrame(cfg, i, i, w.job, s.files, JobStep(cfg, i, w.job, s.files).1);
  }

  lemma {:induction false} WorkKeepsInv(cfg: Config, s: State, i: nat)
    requires Inv(cfg, s)
    ensures Inv(cfg, Next(cfg, s, Work(i)))
  {
    if i < cfg.nrMapper && s.workers[i].alive {
      var (w', files') := WorkerStep(cfg, i, s.workers[i], s.files);
      WorkerStepKeepsWorker(cfg, s, i);
      OthersKeepWorkerOk(cfg, s, i, files');
      WritesKeepStatus(cfg, s, i, w', files');
      var s' := s.(workers := s.workers[i := w'], files := files');
      assert StageOk(cfg, s');
    }
  }

  lemma {:induction false} FlushKeepsWorker(cfg: Config, s: State, i: nat, r: nat, length: nat)
    requires Inv(cfg, s) && i < cfg.nrMapper && s.workers[i].alive
    ensures var files' := FlushStep(cfg, i, s.workers[i], r, length, s.files);
            WorkerOk(cfg, i, s.workers[i], files') && WritesOwn(i, s.workers[i].job, s.files, files')
  {
    var w := s.workers[i];
    var files' := FlushStep(cfg, i, w, r, length, s.files);
    FlushWritesOwn(cfg, i, w, r, length, s.files);
    FilesFrame(cfg, i, i, w.job, s.files, files');
    JobFrame(cfg, i, w.job, s.files, files');
  }

  lemma {:induction false} FlushKeepsInv(cfg: Config, s: State, i: nat, r: nat, length: nat)
    requires Inv(cfg, s)
    ensures Inv(cfg, Next(cfg, s, Flush(i, r, length)))
  {
    if i < cfg.nrMapper && s.workers[i].alive {
      var files' := FlushStep(cfg, i, s.workers[i], r, length, s.files);
      FlushKeepsWorker(cfg, s, i, r, length);
      OthersKeepWorkerOk(cfg, s, i, files');
      WritesKeepStatus(cfg, s, i, s.workers[i], files');
      assert s.workers[i := s.workers[i]] == s.workers;
    }
  }

  lemma {:induction false} CrashKeepsInv(cfg: Config, s: State, i: nat)
    requires Inv(cfg, s)
    ensures Inv(cfg, Next(cfg, s, Crash(i)))
  {
    var s' := Next(cfg, s, Crash(i));
    forall j | 0 <= j < cfg.nrMapper ensures StatusOk(cfg, s', j) {
      assert StatusOk(cfg, s, j);
    }
  }

  lemma {:induction false} NewProcessOk(cfg: Config, i: nat, files: Files)
    requires cfg.Valid()
    ensures WorkerOk(cfg, i, NewProcess(MAP_TASK), files)
    ensures WorkerOk(cfg, i, NewProcess(REDUCE_TASK), files)
  {
  }

  /** A poll restarts a dead worker, or marks its task as done, or only moves on. */
  lemma {:induction false} PollKeepsWorkersAndStatus(cfg: Config, s: State, s': State, i: nat, w': Worker)
    requires Inv(cfg, s) && Shape(cfg, s') && i < cfg.nrMapper
    requires s'.files == s.files && s'.workers == s.workers[i := w']
    requires w' == s.workers[i] || (
               && WorkerOk(cfg, i, w', s.files)
               && (s.mapTaskStatus[i] == 1 ==> !w'.job.Maps())
               && (s.reduceTaskStatus[i] == 1 ==> !w'.job.Reduces()))
    requires s'.mapTaskStatus == s.mapTaskStatus || (w' == s.workers[i] && w'.alive && w'.mapCompleted && s'.mapTaskStatus == s.mapTaskStatus[i := 1])
    requires s'.reduceTaskStatus == s.reduceTaskStatus || (w' == s.workers[i] && w'.alive && w'.reduceCompleted && s'.reduceTaskStatus == s.reduceTaskStatus[i := 1])
    ensures forall j :: 0 <= j < cfg.nrMapper && s'.workers[j].alive ==> WorkerOk(cfg, j, s'.workers[j], s'.files)
    ensures forall j :: 0 <= j < cfg.nrMapper ==> StatusOk(cfg, s', j)
  {
    forall j | 0 <= j < cfg.nrMapper ensures StatusOk(cfg, s', j) {
      assert StatusOk(cfg, s, j);
    }
  }

  lemma {:induction false} PollMapKeepsInv(cfg: Config, s: State, i: nat)
    requires Inv(cfg, s) && s.control == PollMap(i)
    ensures Inv(cfg, MasterStep(cfg, s))
  {
    var s' := MasterStep(cfg, s);
    if i < cfg.nrMapper {
      NewProcessOk(cfg, i, s.files);
      assert s'.workers == s.workers[i := s'.workers[i]];
      PollKeepsWorkersAndStatus(cfg, s, s', i, s'.workers[i]);
      if s.mapTaskStatus[i] != 1 {
        OnesUpdate(s.mapTaskStatus, i);
      }
    } else {
      PollKeepsWorkersAndStatus(cfg, s, s', 0, s.workers[0]);
    }
  }

  lemma {:induction false} PollReduceKeepsInv(cfg: Config, s: State, i: nat)
    requires Inv(cfg, s) && s.control == PollReduce(i)
    ensures Inv(cfg, MasterStep(cfg, s))
  {
    if i < cfg.nrMapper {
      var s' := PollReduceStep(cfg, s, i);
      NewProcessOk(cfg, i, s.files);
      PolledWorker(cfg, s, i);
      PollKeepsWorkersAndStatus(cfg, s, s', i, s'.workers[i]);
      if s.reduceTaskStatus[i] != 1 {
        OnesUpdate(s.reduceTaskStatus, i);
      }
    } else {
      PollKeepsWorkersAndStatus(cfg, s, EndReduceSweep(cfg, s), 0, s.workers[0]);
    }
  }

  lemma {:induction false} PolledWorker(cfg: Config, s: State, i: nat)
    requires Shape(cfg, s) && i < cfg.nrMapper
    ensures PollReduceStep(cfg, s, i).workers == s.workers[i := PollReduceStep(cfg, s, i).workers[i]]
  {
  }

  lemma {:induction false} CallsKeepInv(cfg: Config, s: State)
    requires Inv(cfg, s) && (s.control.CallMap? || s.control.CallReduce?)
    ensures Inv(cfg, MasterStep(cfg, s))
  {
    var s' := MasterStep(cfg, s);
    OnesFull(s.mapTaskStatus);
    OnesFull(s.reduceTaskStatus);
    forall j | 0 <= j < cfg.nrMapper ensures StatusOk(cfg, s', j) {
      assert StatusOk(cfg, s, j);
    }
  }

  lemma {:induction false} StopKeepsInv(cfg: Config, s: State)
    requires Inv(cfg, s) && (s.control.StopServers? || s.control.Returned?)
    ensures Inv(cfg, MasterStep(cfg, s))
  {
    var s' := MasterStep(cfg, s);
    forall j | 0 <= j < cfg.nrMapper ensures StatusOk(cfg, s', j) {
      assert StatusOk(cfg, s, j);
    }
  }

  /** Every step of the system keeps the invariant. */
  lemma {:induction false} NextKeepsInv(cfg: Config, s: State, e: Event)
    requires Inv(cfg, s)
    ensures Inv(cfg, Next(cfg, s, e))
  {
    match e
    case Master =>
      match s.control {
        case PollMap(i) => PollMapKeepsInv(cfg, s, i);
        case PollReduce(i) => PollReduceKeepsInv(cfg, s, i);
        case CallMap(_) => CallsKeepInv(cfg, s);
        case CallReduce(_) => CallsKeepInv(cfg, s);
        case StopServers(_) => StopKeepsInv(cfg, s);
        case Returned => StopKeepsInv(cfg, s);
      }
    case Work(i) => WorkKeepsInv(cfg, s, i);
    case Flush(i, r, length) => FlushKeepsInv(cfg, s, i, r, length);
    case Crash(i) => CrashKeepsInv(cfg, s, i);
  }

  /** The invariant holds after any run, from any initial content of the disk. */
  lemma {:induction false} RunKeepsInv(cfg: Config, files: Files, events: seq<Event>)
    requires cfg.Valid()
    ensures Inv(cfg, Run(cfg, Start(cfg, files), events))
  {
    if events == [] {
      StartEstablishesInv(cfg, files);
    } else {
      RunKeepsInv(cfg, files, events[..|events| - 1]);
      NextKeepsInv(cfg, Run(cfg, Start(cfg, files), events[..|events| - 1]), events[|events| - 1]);
    }
  }
}
