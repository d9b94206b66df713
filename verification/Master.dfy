/** `MapReduceMaster::process` as it runs: calls, two polling loops and the shutdown. Between its
    actions workers run and die according to a schedule. What it does is a run of the step machine
    in Protocol, so the results proved there hold for it. */
module Master {
  import opened Text
  import opened Utility
  import opened MapReduce
  import opened Protocol
  import opened Theorems
  import opened FairRuns

  /** Anything but an action of the master. */
  type Incident = e: Event | e != Event.Master witness Work(0)

  /** The run in which these incidents happen before each of the master's actions. */
  function Weave(schedule: seq<seq<Incident>>): seq<Event> {
    if schedule == [] then []
    else Weave(schedule[..|schedule| - 1]) + schedule[|schedule| - 1] + [Event.Master]
  }

  class MapReduceMaster {
    const cfg: Config
    var workers: seq<Worker>      // the processes behind client_pool
    var files: Files
    var schedule: seq<seq<Incident>> // what happens before each of the master's coming actions
    ghost const initial: Files
    ghost const planned: seq<seq<Incident>>
    ghost var past: seq<seq<Incident>>  // what has happened before the master's actions so far
    ghost var latest: seq<Incident>     // what has happened since the last of them
    ghost var events: seq<Event>
    ghost var now: State

    /** `now` is where the step machine stands after `events`. */
    ghost predicate Tracks() reads this {
      && cfg.Valid() && Shape(cfg, now)
      && now == Run(cfg, Start(cfg, initial), events)
      && workers == now.workers && files == now.files
    }

    /** The master has acted after everything that has happened. */
    ghost predicate Acted() reads this {
      planned == past + schedule && events == Weave(past)
    }

    /** The master is about to act. */
    ghost predicate Acting() reads this {
      planned == past + ([latest] + schedule) && events == Weave(past) + latest
    }

    /** One idle process for each worker, as after the first loop of `process`. */
    constructor (cfg: Config, files: Files, schedule: seq<seq<Incident>>)
      requires cfg.Valid()
      ensures Tracks() && this.cfg == cfg && initial == files && events == [] && now == Start(cfg, files)
      ensures this.schedule == planned == schedule && past == []
    {
      this.cfg, this.files, this.schedule := cfg, files, schedule;
      workers := seq(cfg.nrMapper, _ => NewProcess(Idle));
      initial, planned, past, latest, events, now := files, schedule, [], [], [], Start(cfg, files);
    }

    /** The machine takes one more step. */
    ghost method Record(e: Event)
      requires cfg.Valid() && Shape(cfg, now) && now == Run(cfg, Start(cfg, initial), events)
      modifies this`events, this`now
      ensures now == Next(cfg, old(now), e) && Shape(cfg, now) && now == Run(cfg, Start(cfg, initial), events)
      ensures events == old(events) + [e]
    {
      assert (events + [e])[..|events|] == events;
      events := events + [e];
      now := Next(cfg, now, e);
    }

    /** The machine takes the master's next action. */
    ghost method Act()
      requires cfg.Valid() && Shape(cfg, now) && now == Run(cfg, Start(cfg, initial), events) && Acting()
      modifies this`past, this`events, this`now
      ensures now == MasterStep(cfg, old(now)) && Shape(cfg, now) && now == Run(cfg, Start(cfg, initial), events)
      ensures Acted()
    {
      WeaveSnoc(past, latest);
      MoveFirst(past, latest, schedule);
      past := past + [latest];
      Record(Event.Master);
    }

    /** A worker takes a step, part of its output reaches the disk, or it is killed. */
    method Happen(e: Incident)
      requires Tracks()
      modifies this`workers, this`files, this`events, this`now
      ensures events == old(events) + [e]
      ensures Tracks() && now == old(now).(workers := workers, files := files)
    {
      Record(e);
      match e
      case Work(i) =>
        if i < |workers| && workers[i].alive {
          var (w, written) := WorkerStep(cfg, i, workers[i], files);
          workers := workers[i := w];
          files := written;
        }
      case Flush(i, r, length) =>
        if i < |workers| && workers[i].alive {
          files := FlushStep(cfg, i, workers[i], r, length, files);
        }
      case Crash(i) =>
        if i < |workers| {
          workers := workers[i := workers[i].(alive := false)];
        }
    }

    /** Let the next part of the schedule happen; `false` when the schedule has ended. */
    method Wait() returns (goesOn: bool)
      requires Tracks() && Acted()
      modifies this`workers, this`files, this`schedule, this`past, this`latest, this`events, this`now
      ensures Tracks() && now == old(now).(workers := workers, files := files)
      ensures goesOn ==> Acting() && |schedule| < |old(schedule)|
      ensures !goesOn ==> Acted() && schedule == []
    {
      if schedule == [] {
        return false;
      }
      var batch := schedule[0];
      assert schedule == [batch] + schedule[1..];
      schedule := schedule[1..];
      latest := batch;
      HappenAll(batch);
      goesOn := true;
    }

    method HappenAll(batch: seq<Incident>)
      requires Tracks()
      modifies this`workers, this`files, this`events, this`now
      ensures Tracks() && now == old(now).(workers := workers, files := files)
      ensures events == old(events) + batch
    {
      for k := 0 to |batch|
        invariant Tracks() && now == old(now).(workers := workers, files := files)
        invariant events == old(events) + batch[..k]
      {
        Happen(batch[k]);
        assert batch[..k + 1] == batch[..k] + [batch[k]];
      }
      assert batch[..|batch|] == batch;
    }

    /** The asynchronous calls that give every worker its task. */
    method CallTasks(task: Job) returns (goesOn: bool)
      requires Tracks() && Acted()
      requires (task == MAP_TASK && now.control == CallMap(0)) || (task == REDUCE_TASK && now.control == CallReduce(0))
      modifies this`workers, this`files, this`schedule, this`past, this`latest, this`events, this`now
      ensures Tracks() && Acted() && (!goesOn ==> schedule == [] && now.control != Returned)
      ensures goesOn ==> now == old(now).(workers := workers, files := files,
                                control := if task == MAP_TASK then PollMap(0) else PollReduce(0))
    {
      goesOn := CallEach(task);
      if !goesOn { return; }
      goesOn := Wait();
      if goesOn { Act(); }
    }

    method CallEach(task: Job) returns (goesOn: bool)
      requires Tracks() && Acted()
      requires (task == MAP_TASK && now.control == CallMap(0)) || (task == REDUCE_TASK && now.control == CallReduce(0))
      modifies this`workers, this`files, this`schedule, this`past, this`latest, this`events, this`now
      ensures Tracks() && Acted() && (!goesOn ==> schedule == [] && now.control != Returned)
      ensures goesOn ==> now == old(now).(workers := workers, files := files,
                                control := if task == MAP_TASK then CallMap(cfg.nrMapper) else CallReduce(cfg.nrMapper))
    {
      goesOn := true;
      for i := 0 to cfg.nrMapper
        invariant Tracks() && Acted() && goesOn
        invariant now == old(now).(workers := workers, files := files,
                         control := if task == MAP_TASK then CallMap(i) else CallReduce(i))
      {
        goesOn := Wait();
        if !goesOn { return; }
        CallTask(i, task);
      }
    }

    method CallTask(i: nat, task: Job)
      requires Tracks() && Acting() && i < cfg.nrMapper
      requires (task == MAP_TASK && now.control == CallMap(i)) || (task == REDUCE_TASK && now.control == CallReduce(i))
      modifies this`workers, this`past, this`events, this`now
      ensures Tracks() && Acted()
      ensures now == old(now).(workers := workers, control := if task == MAP_TASK then CallMap(i + 1) else CallReduce(i + 1))
    {
      Act();
      workers := Call(workers, i, task);
    }

    /** The body of the map polling loop for one worker: leave it when it is done, restart it when
        it is down, and otherwise ask it. */
    method PollMapTask(i: nat, mapTaskStatus: array<int>, nrMapDone: nat) returns (nrMapDone': nat)
      requires Tracks() && Acting() && i < cfg.nrMapper && now.control == PollMap(i)
      requires mapTaskStatus[..] == now.mapTaskStatus && nrMapDone == now.nrMapDone
      modifies this`workers, this`past, this`events, this`now, mapTaskStatus
      ensures Tracks() && Acted() && now.control == PollMap(i + 1)
      ensures mapTaskStatus[..] == now.mapTaskStatus && nrMapDone' == now.nrMapDone
      ensures now.reduceTaskStatus == old(now.reduceTaskStatus) && now.nrReduceDone == old(now.nrReduceDone)
    {
      Act();
      nrMapDone' := nrMapDone;
      if mapTaskStatus[i] == 1 {
        return;
      }
      if !workers[i].alive {
        workers := workers[i := NewProcess(MAP_TASK)];
        return;
      }
      if workers[i].mapCompleted {
        mapTaskStatus[i] := 1;
        nrMapDone' := nrMapDone + 1;
      }
    }

    /** One sweep over all workers, up to the moment at which the master looks at its counter. */
    method MapSweep(mapTaskStatus: array<int>, nrMapDone: nat) returns (goesOn: bool, nrMapDone': nat)
      requires Tracks() && Acted() && now.control == PollMap(0)
      requires mapTaskStatus[..] == now.mapTaskStatus && nrMapDone == now.nrMapDone
      modifies this`workers, this`files, this`schedule, this`past, this`latest, this`events, this`now, mapTaskStatus
      ensures Tracks() && if goesOn then Acting() && now.control == PollMap(cfg.nrMapper) else Acted() && schedule == [] && now.control != Returned
      ensures mapTaskStatus[..] == now.mapTaskStatus && nrMapDone' == now.nrMapDone
      ensures now.reduceTaskStatus == old(now.reduceTaskStatus) && now.nrReduceDone == old(now.nrReduceDone)
      ensures goesOn ==> |schedule| < |old(schedule)|
    {
      nrMapDone' := nrMapDone;
      for i := 0 to cfg.nrMapper
        invariant Tracks() && Acted() && now.control == PollMap(i) && |schedule| <= |old(schedule)|
        invariant mapTaskStatus[..] == now.mapTaskStatus && nrMapDone' == now.nrMapDone
        invariant now.reduceTaskStatus == old(now.reduceTaskStatus) && now.nrReduceDone == old(now.nrReduceDone)
      {
        goesOn := Wait();
        if !goesOn { return; }
        nrMapDone' := PollMapTask(i, mapTaskStatus, nrMapDone');
      }
      goesOn := Wait();
    }

    method PollMapTasks() returns (goesOn: bool)
      requires Tracks() && Acted() && now.control == PollMap(0) && now.nrMapDone == 0 && now.mapTaskStatus == seq(cfg.nrMapper, _ => 0)
      modifies this`workers, this`files, this`schedule, this`past, this`latest, this`events, this`now
      ensures Tracks() && Acted() && (!goesOn ==> schedule == [] && now.control != Returned)
      ensures goesOn ==> now.control == CallReduce(0) && now.nrMapDone == cfg.nrMapper
      ensures goesOn ==> now.reduceTaskStatus == old(now.reduceTaskStatus) && now.nrReduceDone == old(now.nrReduceDone)
    {
      var mapTaskStatus := new int[cfg.nrMapper](_ => 0);
      var nrMapDone := 0;
      assert mapTaskStatus[..] == now.mapTaskStatus;
      while true
        invariant Tracks() && Acted() && now.control == PollMap(0)
        invariant mapTaskStatus[..] == now.mapTaskStatus && nrMapDone == now.nrMapDone
        invariant now.reduceTaskStatus == old(now.reduceTaskStatus) && now.nrReduceDone == old(now.nrReduceDone)
        decreases |schedule|
      {
        goesOn, nrMapDone := MapSweep(mapTaskStatus, nrMapDone);
        if !goesOn { return; }
        Act();
        if nrMapDone == cfg.nrMapper {
          break;
        }
      }
    }

    /** The body of the reduce polling loop for one worker. */
    method PollReduceTask(i: nat, reduceTaskStatus: array<int>, nrReduceDone: nat) returns (nrReduceDone': nat)
      requires Tracks() && Acting() && i < cfg.nrMapper && now.control == PollReduce(i)
      requires reduceTaskStatus[..] == now.reduceTaskStatus && nrReduceDone == now.nrReduceDone
      modifies this`workers, this`past, this`events, this`now, reduceTaskStatus
      ensures Tracks() && Acted() && now.control == PollReduce(i + 1)
      ensures reduceTaskStatus[..] == now.reduceTaskStatus && nrReduceDone' == now.nrReduceDone
    {
      Act();
      nrReduceDone' := nrReduceDone;
      if reduceTaskStatus[i] == 1 {
        return;
      }
      if !workers[i].alive {
        workers := workers[i := NewProcess(REDUCE_TASK)];
        return;
      }
      if workers[i].reduceCompleted {
        reduceTaskStatus[i] := 1;
        nrReduceDone' := nrReduceDone + 1;
      }
    }

    /** One sweep over all workers, up to the moment at which the master looks at its counter. */
    method ReduceSweep(reduceTaskStatus: array<int>, nrReduceDone: nat) returns (goesOn: bool, nrReduceDone': nat)
      requires Tracks() && Acted() && now.control == PollReduce(0)
      requires reduceTaskStatus[..] == now.reduceTaskStatus && nrReduceDone == now.nrReduceDone
      modifies this`workers, this`files, this`schedule, this`past, this`latest, this`events, this`now, reduceTaskStatus
      ensures Tracks() && if goesOn then Acting() && now.control == PollReduce(cfg.nrMapper) else Acted() && schedule == [] && now.control != Returned
      ensures reduceTaskStatus[..] == now.reduceTaskStatus && nrReduceDone' == now.nrReduceDone
      ensures goesOn ==> |schedule| < |old(schedule)|
    {
      nrReduceDone' := nrReduceDone;
      for i := 0 to cfg.nrMapper
        invariant Tracks() && Acted() && now.control == PollReduce(i) && |schedule| <= |old(schedule)|
        invariant reduceTaskStatus[..] == now.reduceTaskStatus && nrReduceDone' == now.nrReduceDone
      {
        goesOn := Wait();
        if !goesOn { return; }
        nrReduceDone' := PollReduceTask(i, reduceTaskStatus, nrReduceDone');
      }
      goesOn := Wait();
    }

    method PollReduceTasks() returns (goesOn: bool)
      requires Tracks() && Acted() && now.control == PollReduce(0) && now.nrReduceDone == 0 && now.reduceTaskStatus == seq(cfg.nrReducer, _ => 0)
      modifies this`workers, this`files, this`schedule, this`past, this`latest, this`events, this`now
      ensures Tracks() && Acted() && (!goesOn ==> schedule == [] && now.control != Returned)
      ensures goesOn ==> now.control == StopServers(0)
    {
      var reduceTaskStatus := new int[cfg.nrReducer](_ => 0);
      var nrReduceDone := 0;
      assert reduceTaskStatus[..] == now.reduceTaskStatus;
      while true
        invariant Tracks() && Acted() && now.control == PollReduce(0)
        invariant reduceTaskStatus[..] == now.reduceTaskStatus && nrReduceDone == now.nrReduceDone
        decreases |schedule|
      {
        goesOn, nrReduceDone := ReduceSweep(reduceTaskStatus, nrReduceDone);
        if !goesOn { return; }
        Act();
        if nrReduceDone == cfg.nrReducer {
          break;
        }
      }
    }

    method StopAll() returns (goesOn: bool)
      requires Tracks() && Acted() && now.control == StopServers(0)
      modifies this`workers, this`files, this`schedule, this`past, this`latest, this`events, this`now
      ensures Tracks() && Acted() && (!goesOn ==> schedule == [] && now.control != Returned)
      ensures goesOn ==> now.control == Returned
    {
      for i := 0 to cfg.nrMapper
        invariant Tracks() && Acted() && now.control == StopServers(i)
      {
        goesOn := Wait();
        if !goesOn { return; }
        Act();
        workers := workers[i := workers[i].(alive := false)];
      }
      goesOn := Wait();
      if goesOn { Act(); }
    }

    /** `process`. It returns exactly when the step machine returns under this schedule, and then
        every output file is the one of a run without faults, whatever was on the disk before.
        Otherwise it has followed the whole schedule. */
    method Process() returns (returned: bool)
      requires Tracks() && events == [] && past == [] && schedule == planned
      modifies this`workers, this`files, this`schedule, this`past, this`latest, this`events, this`now
      ensures Tracks() && Acted()
      ensures returned <==> Run(cfg, Start(cfg, initial), Weave(planned)).control == Returned
      ensures !returned ==> schedule == [] && events == Weave(planned)
      ensures returned ==> now.control == Returned && cfg.nrMapper == cfg.nrReducer
      ensures returned ==> forall r: nat :: r < cfg.nrReducer ==> ReadFile(files, Output(r)) == OutputText(cfg, r)
    {
      returned := RunStages();
      if returned {
        EveryRunIsFaultFree(cfg, initial, events);
        OnlyAsManyReducers(cfg, initial, events);
        StaysReturned(cfg, initial, past, schedule);
      } else {
        EmptyEnds(past);
      }
    }

    /** The stages of `process`, one after another. */
    method RunStages() returns (returned: bool)
      requires Tracks() && events == [] && past == [] && schedule == planned
      modifies this`workers, this`files, this`schedule, this`past, this`latest, this`events, this`now
      ensures Tracks() && Acted()
      ensures if returned then now.control == Returned else schedule == [] && now.control != Returned
    {
      EmptyEnds(schedule);
      returned := CallTasks(MAP_TASK);
      if !returned { return; }
      returned := PollMapTasks();
      if !returned { return; }
      returned := CallTasks(REDUCE_TASK);
      if !returned { return; }
      returned := PollReduceTasks();
      if !returned { return; }
      returned := StopAll();
    }
  }

  // ---------------------------------------------------------------- schedules

  lemma {:induction false} WeaveSnoc(schedule: seq<seq<Incident>>, batch: seq<Incident>)
    ensures Weave(schedule + [batch]) == Weave(schedule) + batch + [Event.Master]
  {
    assert (schedule + [batch])[..|schedule|] == schedule;
  }

  /** What has been woven first stays in front. */
  lemma {:induction false} WeaveConcat(a: seq<seq<Incident>>, b: seq<seq<Incident>>) returns (rest: seq<Event>)
    ensures Weave(a + b) == Weave(a) + rest
    decreases |b|
  {
    if b == [] {
      rest := [];
      assert a + b == a;
    } else {
      var front, last := b[..|b| - 1], b[|b| - 1];
      var more := WeaveConcat(a, front);
      ByLast(a, b);
      WeaveSnoc(a + front, last);
      rest := more + (last + [Event.Master]);
    }
  }

  lemma {:induction false} StaysReturned(cfg: Config, files: Files, a: seq<seq<Incident>>, b: seq<seq<Incident>>)
    requires cfg.Valid() && Run(cfg, Start(cfg, files), Weave(a)).control == Returned
    ensures Run(cfg, Start(cfg, files), Weave(a + b)).control == Returned
  {
    var rest := WeaveConcat(a, b);
    RunConcat(cfg, Start(cfg, files), Weave(a), rest);
    ReturnedIsFinal(cfg, Run(cfg, Start(cfg, files), Weave(a)), rest);
  }

  /** Any run as a schedule: what happens before each of the master's actions, and after the last. */
  function Split(events: seq<Event>): (seq<seq<Incident>>, seq<Incident>) {
    if events == [] then ([], [])
    else
      var (schedule, tail) := Split(events[..|events| - 1]);
      var e := events[|events| - 1];
      if e == Event.Master then (schedule + [tail], []) else (schedule, tail + [e])
  }

  lemma {:induction false} SplitIs(events: seq<Event>)
    ensures Weave(Split(events).0) + Split(events).1 == events
  {
    if events != [] {
      var front, e := events[..|events| - 1], events[|events| - 1];
      var (schedule, tail) := Split(front);
      SplitIs(front);
      assert events == front + [e];
      if e == Event.Master {
        assert (schedule + [tail])[..|schedule|] == schedule;
      }
    }
  }

  lemma {:induction false} IncidentsKeepControl(cfg: Config, s: State, tail: seq<Incident>)
    requires Shape(cfg, s)
    ensures Run(cfg, s, tail).control == s.control
  {
    if tail != [] {
      IncidentsKeepControl(cfg, s, tail[..|tail| - 1]);
    }
  }

  /** A schedule with enough fair rounds makes `process` return. */
  lemma {:induction false} FairScheduleReturns(cfg: Config, files: Files, rounds: seq<Round>)
    requires cfg.Valid() && cfg.nrMapper == cfg.nrReducer
    requires forall k :: 0 <= k < |rounds| ==> Fair(cfg, rounds[k])
    requires |rounds| > CrashRounds(rounds) * (PotentialBound(cfg) + 1) + PotentialBound(cfg)
    ensures Run(cfg, Start(cfg, files), Weave(Split(AllEvents(rounds)).0)).control == Returned
  {
    var events := AllEvents(rounds);
    var (schedule, tail) := Split(events);
    FairRunsReturn(cfg, files, rounds);
    SplitIs(events);
    RunConcat(cfg, Start(cfg, files), Weave(schedule), tail);
    IncidentsKeepControl(cfg, Run(cfg, Start(cfg, files), Weave(schedule)), tail);
  }

  lemma {:induction false} OnlyAsManyReducers(cfg: Config, files: Files, events: seq<Event>)
    requires cfg.Valid() && Run(cfg, Start(cfg, files), events).control == Returned
    ensures cfg.nrMapper == cfg.nrReducer
  {
    if cfg.nrReducer > cfg.nrMapper {
      TooManyReducersNeverReturn(cfg, files, events);
    }
  }
}
