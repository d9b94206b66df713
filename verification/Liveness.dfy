/** With finitely many crashes, and every live worker taking steps between the master's
    sweeps, `process` returns. */
module Liveness {
  import opened Utility
  import opened MapReduce
  import opened Protocol
  import opened Safety
  import opened Theorems
  import opened Text

  // ---------------------------------------------------------------- remaining work

  /** How much worker `i` emits and reduces in a run without faults. */
  datatype Sizes = Sizes(pairs: nat, keys: nat, outputs: nat)

  ghost function SizesOf(cfg: Config, i: nat): Sizes
    requires cfg.Valid()
  {
    Sizes(
      |MapperPairs(cfg, i)|,
      |SortedKeys(ReducerGroups(cfg, i).Keys)|,
      |ReducedAll(cfg.program, ReducerGroups(cfg, i))|)
  }

  /** The steps that a worker still needs until its task returns. */
  function JobWork(cfg: Config, z: Sizes, job: Job): int {
    match job
    case Idle => 0
    case Scanning(line, _) => (|cfg.lines| - line) + 2 * cfg.nrReducer + z.pairs + 4
    case Opening(_, next) => (cfg.nrReducer - next) + cfg.nrReducer + z.pairs + 3
    case Writing(_, next) => (z.pairs - next) + cfg.nrReducer + 2
    case Closing(_, next) => (cfg.nrReducer - next) + 1
    case Gathering(next, _) => (cfg.nrMapper - next) + z.keys + z.outputs + 4
    case Reducing(_, _, next, _) => (z.keys - next) + z.outputs + 3
    case Publishing(_, next) => (z.outputs - next) + 2
    case Reporting => 1
  }

  /** The position of a task within its loops. */
  predicate JobFits(cfg: Config, z: Sizes, job: Job) {
    match job
    case Idle => true
    case Scanning(line, _) => line <= |cfg.lines|
    case Opening(_, next) => next <= cfg.nrReducer
    case Writing(emitted, next) => next <= |emitted| == z.pairs
    case Closing(_, next) => next <= cfg.nrReducer
    case Gathering(next, _) => next <= cfg.nrMapper
    case Reducing(_, keys, next, _) => next <= |keys| == z.keys
    case Publishing(outputs, next) => next <= |outputs| == z.outputs
    case Reporting => true
  }

  lemma {:induction false} JobOkFits(cfg: Config, i: nat, job: Job, files: Files)
    requires cfg.Valid() && JobOk(cfg, i, job, files)
    ensures JobFits(cfg, SizesOf(cfg, i), job)
  {
  }

  /** Every step of a task is one step less to do. */
  lemma {:induction false} JobStepReducesWork(cfg: Config, i: nat, z: Sizes, job: Job, files: Files)
    requires cfg.Valid() && JobFits(cfg, z, job)
    ensures JobWork(cfg, z, job) >= (if job == Idle then 0 else 1)
    ensures JobWork(cfg, z, JobStep(cfg, i, job, files).0) == JobWork(cfg, z, job) - if job == Idle then 0 else 1
  {
  }

  // ---------------------------------------------------------------- potential

  function MapDebt(cfg: Config, z: Sizes, status: int, w: Worker): int {
    if status == 1 then 0
    else if !w.alive then JobWork(cfg, z, MAP_TASK) + 2
    else JobWork(cfg, z, w.job) + 1
  }

  function ReduceDebt(cfg: Config, z: Sizes, status: int, w: Worker): int {
    if status == 1 then 0
    else if !w.alive then JobWork(cfg, z, REDUCE_TASK) + 2
    else JobWork(cfg, z, w.job) + 1
  }

  /** The useful actions still to come for worker `i`: its steps, its restart, the calls and
      polls that change something for it, and its end. */
  function Debt(cfg: Config, s: State, i: nat, z: Sizes): int
    requires i < |s.workers| == |s.mapTaskStatus| <= |s.reduceTaskStatus|
  {
    var w := s.workers[i];
    var reduceAll := JobWork(cfg, z, REDUCE_TASK) + 4;
    match s.control
    case CallMap(k) =>
      reduceAll + if i < k then MapDebt(cfg, z, s.mapTaskStatus[i], w) else JobWork(cfg, z, MAP_TASK) + 3
    case PollMap(_) => reduceAll + MapDebt(cfg, z, s.mapTaskStatus[i], w)
    case CallReduce(k) => if i < k then 1 + ReduceDebt(cfg, z, s.reduceTaskStatus[i], w) else reduceAll
    case PollReduce(_) => 1 + ReduceDebt(cfg, z, s.reduceTaskStatus[i], w)
    case StopServers(k) => if i < k then 0 else 1
    case Returned => 0
  }

  function Rank(control: Control): nat {
    match control
    case CallMap(_) => 5
    case PollMap(_) => 4
    case CallReduce(_) => 3
    case PollReduce(_) => 2
    case StopServers(_) => 1
    case Returned => 0
  }

  ghost function Debts(cfg: Config, s: State): (debts: seq<int>)
    requires Shape(cfg, s)
    ensures |debts| == cfg.nrMapper
    ensures forall i :: 0 <= i < cfg.nrMapper ==> debts[i] == Debt(cfg, s, i, SizesOf(cfg, i))
  {
    seq(cfg.nrMapper, i requires 0 <= i < cfg.nrMapper => Debt(cfg, s, i, SizesOf(cfg, i)))
  }

  function Sum(xs: seq<int>): int {
    if xs == [] then 0 else Sum(xs[..|xs| - 1]) + xs[|xs| - 1]
  }

  lemma {:induction false} SumMonotone(xs: seq<int>, ys: seq<int>)
    requires |xs| == |ys| && forall i :: 0 <= i < |xs| ==> 0 <= xs[i] <= ys[i]
    ensures 0 <= Sum(xs) <= Sum(ys)
    ensures Sum(xs) == Sum(ys) ==> xs == ys
  {
    if xs != [] {
      var n := |xs| - 1;
      SumMonotone(xs[..n], ys[..n]);
      assert xs == xs[..n] + [xs[n]] && ys == ys[..n] + [ys[n]];
    }
  }

  ghost function Potential(cfg: Config, s: State): int
    requires Shape(cfg, s)
  {
    Rank(s.control) + Sum(Debts(cfg, s))
  }

  /** A worker that the master is waiting for has been given the task. */
  ghost predicate Assigned(cfg: Config, s: State, i: nat)
    requires Shape(cfg, s) && i < cfg.nrMapper
  {
    var w := s.workers[i];
    match s.control
    case CallMap(k) => i < k && w.alive ==> w.mapCompleted || w.job.Maps()
    case PollMap(_) => s.mapTaskStatus[i] != 1 && w.alive ==> w.mapCompleted || w.job.Maps()
    case CallReduce(k) => i < k && w.alive ==> w.reduceCompleted || w.job.Reduces()
    case PollReduce(_) => s.reduceTaskStatus[i] != 1 && w.alive ==> w.reduceCompleted || w.job.Reduces()
    case _ => true
  }

  ghost predicate LiveInv(cfg: Config, s: State) {
    && Inv(cfg, s)
    && forall i :: 0 <= i < cfg.nrMapper ==> Assigned(cfg, s, i)
  }

  lemma {:induction false} StartIsLive(cfg: Config, files: Files)
    requires cfg.Valid()
    ensures LiveInv(cfg, Start(cfg, files))
  {
    StartEstablishesInv(cfg, files);
  }

  lemma {:induction false} WorkKeepsAssigned(cfg: Config, s: State, i: nat, j: nat)
    requires Shape(cfg, s) && i < cfg.nrMapper && Assigned(cfg, s, i)
    ensures Assigned(cfg, Next(cfg, s, Work(j)), i)
  {
  }

  lemma {:induction false} NextKeepsAssigned(cfg: Config, s: State, e: Event, i: nat)
    requires Shape(cfg, s) && i < cfg.nrMapper && Assigned(cfg, s, i)
    ensures Assigned(cfg, Next(cfg, s, e), i)
  {
    if e.Work? {
      WorkKeepsAssigned(cfg, s, i, e.i);
    }
  }

  lemma {:induction false} NextKeepsLiveInv(cfg: Config, s: State, e: Event)
    requires LiveInv(cfg, s)
    ensures LiveInv(cfg, Next(cfg, s, e))
  {
    NextKeepsInv(cfg, s, e);
    forall i | 0 <= i < cfg.nrMapper ensures Assigned(cfg, Next(cfg, s, e), i) {
      NextKeepsAssigned(cfg, s, e, i);
    }
  }

  // ---------------------------------------------------------------- what one step does to the potential

  /** A worker with nothing to do. */
  predicate Quiet(w: Worker) {
    w.alive ==> w.job == Idle
  }

  /** What the invariant says about worker `i`, as far as it matters here. */
  predicate WorkerFacts(cfg: Config, s: State, i: nat, z: Sizes)
    requires i < |s.workers| == |s.mapTaskStatus| <= |s.reduceTaskStatus|
  {
    var w := s.workers[i];
    && (w.alive ==> JobFits(cfg, z, w.job))
    && match s.control
       case CallMap(k) =>
         && s.mapTaskStatus[i] != 1 && s.reduceTaskStatus[i] != 1
         && (w.alive ==> !w.job.Reduces() && (i >= k ==> w.job == Idle))
       case PollMap(_) =>
         s.reduceTaskStatus[i] != 1 && (w.alive ==> !w.job.Reduces() && (s.mapTaskStatus[i] == 1 ==> w.job == Idle))
       case CallReduce(k) =>
         s.reduceTaskStatus[i] != 1 && (w.alive ==> !w.job.Maps() && (i >= k ==> w.job == Idle))
       case PollReduce(_) => w.alive ==> !w.job.Maps() && (s.reduceTaskStatus[i] == 1 ==> w.job == Idle)
       case StopServers(_) => w.alive ==> w.job == Idle
       case Returned => w.alive ==> w.job == Idle
  }

  lemma {:induction false} InvGivesFacts(cfg: Config, s: State, i: nat)
    requires Inv(cfg, s) && i < cfg.nrMapper
    ensures WorkerFacts(cfg, s, i, SizesOf(cfg, i))
  {
    assert StatusOk(cfg, s, i);
    OnesFull(s.mapTaskStatus);
    OnesFull(s.reduceTaskStatus);
    if s.workers[i].alive {
      JobOkFits(cfg, i, s.workers[i].job, s.files);
    }
  }

  /** The end of a sweep only moves on when worker `i` is done. */
  predicate SweepEndFacts(cfg: Config, s: State, i: nat)
    requires i < |s.workers| == |s.mapTaskStatus| <= |s.reduceTaskStatus|
  {
    && (s.control == PollMap(cfg.nrMapper) && s.nrMapDone == cfg.nrMapper ==> s.mapTaskStatus[i] == 1)
    && (s.control == PollReduce(cfg.nrMapper) && s.nrReduceDone == cfg.nrReducer ==> s.reduceTaskStatus[i] == 1)
  }

  /** Debt does not grow; if it stays the same, nothing has happened to worker `i`. */
  ghost predicate DebtKept(cfg: Config, s: State, s': State, i: nat, z: Sizes)
    requires Shape(cfg, s) && Shape(cfg, s') && i < cfg.nrMapper
  {
    && 0 <= Debt(cfg, s', i, z) <= Debt(cfg, s, i, z)
    && (Debt(cfg, s', i, z) == Debt(cfg, s, i, z) && Rank(s'.control) == Rank(s.control) ==>
          && s'.workers[i] == s.workers[i]
          && s'.mapTaskStatus[i] == s.mapTaskStatus[i]
          && s'.reduceTaskStatus[i] == s.reduceTaskStatus[i])
  }

  lemma {:induction false} DebtAfterWork(cfg: Config, s: State, j: nat, i: nat, z: Sizes)
    requires Shape(cfg, s) && i < cfg.nrMapper && WorkerFacts(cfg, s, i, z)
    ensures DebtKept(cfg, s, Next(cfg, s, Work(j)), i, z)
    ensures i == j && !Quiet(s.workers[i]) ==> Debt(cfg, Next(cfg, s, Work(j)), i, z) < Debt(cfg, s, i, z)
  {
    if s.workers[i].alive {
      JobStepReducesWork(cfg, i, z, s.workers[i].job, s.files);
    }
  }

  lemma {:induction false} DebtAfterMapPhaseStep(cfg: Config, s: State, i: nat, z: Sizes)
    requires Shape(cfg, s) && i < cfg.nrMapper && WorkerFacts(cfg, s, i, z) && SweepEndFacts(cfg, s, i)
    requires s.control.MapStage()
    ensures DebtKept(cfg, s, MasterStep(cfg, s), i, z)
  {
    if s.workers[i].alive {
      JobStepReducesWork(cfg, i, z, s.workers[i].job, s.files);
    }
  }

  lemma {:induction false} DebtAfterReducePhaseStep(cfg: Config, s: State, i: nat, z: Sizes)
    requires Shape(cfg, s) && i < cfg.nrMapper && WorkerFacts(cfg, s, i, z) && SweepEndFacts(cfg, s, i)
    requires !s.control.MapStage()
    ensures DebtKept(cfg, s, MasterStep(cfg, s), i, z)
  {
    if s.workers[i].alive {
      JobStepReducesWork(cfg, i, z, s.workers[i].job, s.files);
    }
  }

  ghost predicate Kept(cfg: Config, s: State, s': State, i: nat)
    requires Shape(cfg, s) && Shape(cfg, s') && i < cfg.nrMapper
  {
    DebtKept(cfg, s, s', i, SizesOf(cfg, i))
  }

  lemma {:induction false} NextKeepsDebt(cfg: Config, s: State, e: Event, i: nat)
    requires LiveInv(cfg, s) && i < cfg.nrMapper && !e.Crash?
    ensures Kept(cfg, s, Next(cfg, s, e), i)
    ensures e == Work(i) && !Quiet(s.workers[i]) ==>
              Debt(cfg, Next(cfg, s, e), i, SizesOf(cfg, i)) < Debt(cfg, s, i, SizesOf(cfg, i))
  {
    var z := SizesOf(cfg, i);
    InvGivesFacts(cfg, s, i);
    OnesFull(s.mapTaskStatus);
    OnesFull(s.reduceTaskStatus);
    match e
    case Work(j) => DebtAfterWork(cfg, s, j, i, z);
    case Flush(_, _, _) => DebtAfterFlush(cfg, s, e, i, z);
    case Master =>
      if s.control.MapStage() {
        DebtAfterMapPhaseStep(cfg, s, i, z);
      } else {
        DebtAfterReducePhaseStep(cfg, s, i, z);
      }
  }

  lemma {:induction false} DebtAfterFlush(cfg: Config, s: State, e: Event, i: nat, z: Sizes)
    requires Shape(cfg, s) && i < cfg.nrMapper && WorkerFacts(cfg, s, i, z) && e.Flush?
    ensures DebtKept(cfg, s, Next(cfg, s, e), i, z)
  {
    if s.workers[i].alive {
      JobStepReducesWork(cfg, i, z, s.workers[i].job, s.files);
    }
  }

  lemma {:induction false} RankNeverGrows(cfg: Config, s: State, e: Event)
    requires Shape(cfg, s)
    ensures Rank(Next(cfg, s, e).control) <= Rank(s.control)
    ensures e != Master ==> Next(cfg, s, e).control == s.control
  {
  }

  /** Without a crash the potential never grows; if it stays the same, the step has changed
      neither the workers nor the status vectors, and a worker that was to move was quiet. */
  lemma {:induction false} PotentialNeverGrows(cfg: Config, s: State, e: Event)
    requires LiveInv(cfg, s) && !e.Crash?
    ensures Potential(cfg, Next(cfg, s, e)) <= Potential(cfg, s)
    ensures Potential(cfg, Next(cfg, s, e)) == Potential(cfg, s) ==>
              && Next(cfg, s, e).workers == s.workers
              && Next(cfg, s, e).mapTaskStatus == s.mapTaskStatus
              && (forall i :: 0 <= i < cfg.nrMapper ==> Next(cfg, s, e).reduceTaskStatus[i] == s.reduceTaskStatus[i])
              && Rank(Next(cfg, s, e).control) == Rank(s.control)
              && (e.Work? && e.i < cfg.nrMapper ==> Quiet(s.workers[e.i]))
  {
    var s' := Next(cfg, s, e);
    RankNeverGrows(cfg, s, e);
    var debts, debts' := Debts(cfg, s), Debts(cfg, s');
    forall i: nat | i < cfg.nrMapper ensures Kept(cfg, s, s', i) && 0 <= debts'[i] <= debts[i] {
      NextKeepsDebt(cfg, s, e, i);
    }
    SumMonotone(debts', debts);
    if Potential(cfg, s') == Potential(cfg, s) {
      forall i: nat | i < cfg.nrMapper
        ensures s'.workers[i] == s.workers[i] && s'.mapTaskStatus[i] == s.mapTaskStatus[i]
        ensures s'.reduceTaskStatus[i] == s.reduceTaskStatus[i]
      {
        assert Kept(cfg, s, s', i);
        assert debts'[i] == debts[i];
      }
      if e.Work? && e.i < cfg.nrMapper {
        NextKeepsDebt(cfg, s, e, e.i);
        assert debts'[e.i] == debts[e.i];
      }
    }
  }
}
