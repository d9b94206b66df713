/** The master of include/MapReduceMaster.h and its workers as one step machine.

    A worker advances by small steps and may be killed between any two of them; what it had
    in memory is lost, what reached the disk stays. Text written to a stream reaches the disk
    in pieces (`Flush`), so a killed worker can leave any prefix of a file behind. The files
    on the disk at the start are arbitrary. */
module Protocol {
  import opened Text
  import opened Utility
  import opened MapReduce

  // ---------------------------------------------------------------- state

  /** Where a worker stands in the task it was given. */
  datatype Job =
    | Idle
      // map_controller_module
    | Scanning(line: nat, emitted: seq<Pair>)
    | Opening(emitted: seq<Pair>, next: nat)
    | Writing(emitted: seq<Pair>, next: nat)
    | Closing(emitted: seq<Pair>, next: nat)
      // reduce_controller_module
    | Gathering(next: nat, acc: map<string, seq<string>>)
    | Reducing(acc: map<string, seq<string>>, keys: seq<string>, next: nat, outputs: seq<Entry>)
    | Publishing(outputs: seq<Entry>, next: nat)
    | Reporting
  {
    predicate Maps() {
      Scanning? || Opening? || Writing? || Closing?
    }

    predicate Reduces() {
      Gathering? || Reducing? || Publishing? || Reporting?
    }
  }

  /** A worker process. The flags are globals of the process: a new process starts with both
      of them false. */
  datatype Worker = Worker(alive: bool, job: Job, mapCompleted: bool, reduceCompleted: bool)

  const MAP_TASK: Job := Scanning(0, [])
  const REDUCE_TASK: Job := Gathering(0, map[])

  function NewProcess(job: Job): Worker {
    Worker(true, job, false, false)
  }

  /** Where the master stands in `process`; the argument is `worker_idx`. */
  datatype Control =
    | CallMap(i: nat)
    | PollMap(i: nat)
    | CallReduce(i: nat)
    | PollReduce(i: nat)
    | StopServers(i: nat)
    | Returned
  {
    predicate MapStage() {
      CallMap? || PollMap?
    }
  }

  datatype State = State(
    control: Control,
    mapTaskStatus: seq<int>,
    nrMapDone: nat,
    reduceTaskStatus: seq<int>,
    nrReduceDone: nat,
    workers: seq<Worker>,
    files: Files)

  predicate Shape(cfg: Config, s: State) {
    && cfg.Valid()
    && |s.workers| == |s.mapTaskStatus| == cfg.nrMapper
    && |s.reduceTaskStatus| == cfg.nrReducer
  }

  /** After the first loop of `process`: one idle process per worker. */
  function Start(cfg: Config, files: Files): State {
    State(
      CallMap(0),
      seq(cfg.nrMapper, _ => 0), 0,
      seq(cfg.nrReducer, _ => 0), 0,
      seq(cfg.nrMapper, _ => NewProcess(Idle)),
      files)
  }

  // ---------------------------------------------------------------- steps

  datatype Event =
    | Master                              // the master's next action
    | Work(i: nat)                        // worker i takes its next step
    | Flush(i: nat, r: nat, length: nat)  // part of what worker i has written reaches the disk
    | Crash(i: nat)                       // worker i is killed

  /** One step of worker `i`'s task. A task that has returned leaves `Idle`. */
  function JobStep(cfg: Config, i: nat, job: Job, files: Files): (Job, Files)
    requires cfg.Valid()
  {
    match job
    case Idle => (job, files)
    case Scanning(line, emitted) =>
      if line < |cfg.lines| then
        (Scanning(line + 1, emitted + if cfg.LineOwner(line) == i then LinePairs(cfg, line) else []), files)
      else (Opening(emitted, 0), files)
    case Opening(emitted, next) =>
      if next < cfg.nrReducer then (Opening(emitted, next + 1), files[Temp(i, next) := ""])
      else (Writing(emitted, 0), files)
    case Writing(emitted, next) =>
      if next < |emitted| then (Writing(emitted, next + 1), files) else (Closing(emitted, 0), files)
    case Closing(emitted, next) =>
      if next < cfg.nrReducer then
        (Closing(emitted, next + 1), files[Temp(i, next) := StreamText(cfg, next, emitted)])
      else (Idle, files)
    case Gathering(next, acc) =>
      if next < cfg.nrMapper then
        (Gathering(next + 1, Merge(acc, Parsed(ReadFile(files, Temp(next, i))))), files)
      else (Reducing(acc, SortedKeys(acc.Keys), 0, []), files)
    case Reducing(acc, keys, next, outputs) =>
      if next < |keys| then
        (Reducing(acc, keys, next + 1, outputs + cfg.program.reduceFn(keys[next], Listed(acc, keys[next]))), files)
      else (Publishing(outputs, 0), files[Output(i) := ""])
    case Publishing(outputs, next) =>
      if next < |outputs| then (Publishing(outputs, next + 1), files)
      else (Reporting, files[Output(i) := PrintEntries(outputs)])
    case Reporting => (Idle, files)
  }

  /** One step of a live worker `i`: when its task has returned, it sets the flag. */
  function WorkerStep(cfg: Config, i: nat, w: Worker, files: Files): (Worker, Files)
    requires cfg.Valid()
  {
    var (job, files') := JobStep(cfg, i, w.job, files);
    var returned := job == Idle;
    (w.(job := job,
     mapCompleted := w.mapCompleted || (returned && w.job.Maps()),
     reduceCompleted := w.reduceCompleted || (returned && w.job.Reduces())), files')
  }

  /** The stream that worker `i` has open for reducer `r`, if any, and its text so far. */
  function OpenStream(cfg: Config, i: nat, job: Job, r: nat): Option<(FileName, string)>
    requires cfg.Valid()
  {
    match job
    case Writing(emitted, next) =>
      if r < cfg.nrReducer && next <= |emitted| then Some((Temp(i, r), StreamText(cfg, r, emitted[..next]))) else None
    case Closing(emitted, next) =>
      if next <= r < cfg.nrReducer then Some((Temp(i, r), StreamText(cfg, r, emitted))) else None
    case Publishing(outputs, next) =>
      if next <= |outputs| then Some((Output(i), PrintEntries(outputs[..next]))) else None
    case _ => None
  }

  /** A longer prefix of an open stream's text reaches the disk. */
  function FlushStep(cfg: Config, i: nat, w: Worker, r: nat, length: nat, files: Files): Files
    requires cfg.Valid()
  {
    match OpenStream(cfg, i, w.job, r)
    case None => files
    case Some((name, text)) =>
      if |ReadFile(files, name)| <= length <= |text| then files[name := text[..length]] else files
  }

  /** The master's next action; one poll of one worker is one step. */
  function MasterStep(cfg: Config, s: State): State
    requires Shape(cfg, s)
  {
    match s.control
    case CallMap(i) => CallMapStep(cfg, s, i)
    case PollMap(i) => if i < cfg.nrMapper then PollMapStep(cfg, s, i) else EndMapSweep(cfg, s)
    case CallReduce(i) => CallReduceStep(cfg, s, i)
    case PollReduce(i) => if i < cfg.nrMapper then PollReduceStep(cfg, s, i) else EndReduceSweep(cfg, s)
    case StopServers(i) => StopStep(cfg, s, i)
    case Returned => s
  }

  function CallMapStep(cfg: Config, s: State, i: nat): State
    requires Shape(cfg, s)
  {
    if i < cfg.nrMapper then s.(control := CallMap(i + 1), workers := Call(s.workers, i, MAP_TASK))
    else s.(control := PollMap(0))
  }

  /** Leave a finished worker alone, restart one that is down, and ask the others. */
  function PollMapStep(cfg: Config, s: State, i: nat): State
    requires Shape(cfg, s) && i < cfg.nrMapper
  {
    var w := s.workers[i];
    if s.mapTaskStatus[i] == 1 then s.(control := PollMap(i + 1))
    else if !w.alive then s.(control := PollMap(i + 1), workers := s.workers[i := NewProcess(MAP_TASK)])
    else if w.mapCompleted then
      s.(control := PollMap(i + 1), mapTaskStatus := s.mapTaskStatus[i := 1], nrMapDone := s.nrMapDone + 1)
    else s.(control := PollMap(i + 1))
  }

  function EndMapSweep(cfg: Config, s: State): State {
    s.(control := if s.nrMapDone == cfg.nrMapper then CallReduce(0) else PollMap(0))
  }

  function CallReduceStep(cfg: Config, s: State, i: nat): State
    requires Shape(cfg, s)
  {
    if i < cfg.nrMapper then s.(control := CallReduce(i + 1), workers := Call(s.workers, i, REDUCE_TASK))
    else s.(control := PollReduce(0))
  }

  function PollReduceStep(cfg: Config, s: State, i: nat): State
    requires Shape(cfg, s) && i < cfg.nrMapper
  {
    var w := s.workers[i];
    if s.reduceTaskStatus[i] == 1 then s.(control := PollReduce(i + 1))
    else if !w.alive then s.(control := PollReduce(i + 1), workers := s.workers[i := NewProcess(REDUCE_TASK)])
    else if w.reduceCompleted then
      s.(control := PollReduce(i + 1), reduceTaskStatus := s.reduceTaskStatus[i := 1], nrReduceDone := s.nrReduceDone + 1)
    else s.(control := PollReduce(i + 1))
  }

  function EndReduceSweep(cfg: Config, s: State): State {
    s.(control := if s.nrReduceDone == cfg.nrReducer then StopServers(0) else PollReduce(0))
  }

  function StopStep(cfg: Config, s: State, i: nat): State
    requires Shape(cfg, s)
  {
    if i < cfg.nrMapper then s.(control := StopServers(i + 1), workers := s.workers[i := s.workers[i].(alive := false)])
    else s.(control := Returned)
  }

  /** An asynchronous call: lost when the worker is down. */
  function Call(workers: seq<Worker>, i: nat, task: Job): seq<Worker>
    requires i < |workers|
  {
    if workers[i].alive then workers[i := workers[i].(job := task)] else workers
  }

  /** One step of the whole system; an event that cannot happen changes nothing. */
  function Next(cfg: Config, s: State, e: Event): (s': State)
    requires Shape(cfg, s)
    ensures Shape(cfg, s')
  {
    match e
    case Master => MasterStep(cfg, s)
    case Work(i) =>
      if i < |s.workers| && s.workers[i].alive then
        var (w, files) := WorkerStep(cfg, i, s.workers[i], s.files);
        s.(workers := s.workers[i := w], files := files)
      else s
    case Flush(i, r, length) =>
      if i < |s.workers| && s.workers[i].alive then
        s.(files := FlushStep(cfg, i, s.workers[i], r, length, s.files))
      else s
    case Crash(i) =>
      if i < |s.workers| then s.(workers := s.workers[i := s.workers[i].(alive := false)]) else s
  }

  function Run(cfg: Config, s: State, events: seq<Event>): (s': State)
    requires Shape(cfg, s)
    ensures Shape(cfg, s')
  {
    if events == [] then s
    else Next(cfg, Run(cfg, s, events[..|events| - 1]), events[|events| - 1])
  }
}
