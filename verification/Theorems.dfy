/** What a client of `MapReduceMaster::process` gets, whatever crashes happen on the way. */
module Theorems {
  import opened Text
  import opened Utility
  import opened MapReduce
  import opened Conservation
  import opened Protocol
  import opened Safety

  /** When the master has returned, every output file is complete; it can only return when
      there are as many reducers as workers. */
  lemma {:induction false} ReturnedMeansComplete(cfg: Config, s: State)
    requires Inv(cfg, s) && s.control == Returned
    ensures cfg.nrMapper == cfg.nrReducer
    ensures forall r: nat :: r < cfg.nrReducer ==> OutputDone(cfg, s.files, r)
  {
    OnesFull(s.reduceTaskStatus);
    OnesOfPrefix(s.reduceTaskStatus, cfg.nrMapper);
    forall r: nat | r < cfg.nrReducer ensures OutputDone(cfg, s.files, r) {
      assert StatusOk(cfg, s, r);
    }
  }

  /** Every run that returns leaves exactly the output of a run without faults, whatever the
      crash schedule, the interleaving and the files of earlier runs. */
  lemma {:induction false} EveryRunIsFaultFree(cfg: Config, files: Files, events: seq<Event>)
    requires cfg.Valid() && Run(cfg, Start(cfg, files), events).control == Returned
    ensures forall r: nat :: r < cfg.nrReducer ==>
                               ReadFile(Run(cfg, Start(cfg, files), events).files, Output(r)) == OutputText(cfg, r)
  {
    RunKeepsInv(cfg, files, events);
    var s := Run(cfg, Start(cfg, files), events);
    ReturnedMeansComplete(cfg, s);
    forall r: nat | r < cfg.nrReducer ensures ReadFile(s.files, Output(r)) == OutputText(cfg, r) {
      assert OutputDone(cfg, s.files, r);
    }
  }

  /** The master's promise: for clean emissions the output files together are those of the
      sequential reference, whatever the reduce function does with its values. */
  lemma {:induction false} EveryRunIsSequential(cfg: Config, files: Files, events: seq<Event>)
    requires cfg.Valid() && Run(cfg, Start(cfg, files), events).control == Returned
    requires AllClean(SequentialPairs(cfg))
    ensures forall r: nat :: r < cfg.nrReducer ==>
                               ReadFile(Run(cfg, Start(cfg, files), events).files, Output(r)) == SequentialOutput(cfg, r)
  {
    EveryRunIsFaultFree(cfg, files, events);
    forall r: nat | r < cfg.nrReducer ensures OutputText(cfg, r) == SequentialOutput(cfg, r) {
      OutputsAreSequential(cfg, r);
    }
  }

  /** A reduce function that ignores the order of its values gives what it would give for the
      values in the order of the input. */
  lemma {:induction false} EveryRunIsInLineOrder(cfg: Config, files: Files, events: seq<Event>)
    requires cfg.Valid() && Run(cfg, Start(cfg, files), events).control == Returned
    requires AllClean(SequentialPairs(cfg)) && OrderInsensitive(cfg.program)
    ensures forall r: nat :: r < cfg.nrReducer ==>
                               ReadFile(Run(cfg, Start(cfg, files), events).files, Output(r)) == LineOrderOutput(cfg, r)
  {
    EveryRunIsSequential(cfg, files, events);
    forall r: nat | r < cfg.nrReducer ensures SequentialOutput(cfg, r) == LineOrderOutput(cfg, r) {
      LineOrderMakesNoDifference(cfg, r);
    }
  }

  /** Once a map task is marked as done, its files never change again, even when its worker
      is restarted in the reduce phase. */
  lemma {:induction false} DoneMapFilesAreFrozen(cfg: Config, s: State, e: Event, m: nat)
    requires Inv(cfg, s) && m < cfg.nrMapper && s.mapTaskStatus[m] == 1
    ensures Next(cfg, s, e).mapTaskStatus[m] == 1
    ensures forall r: nat :: r < cfg.nrReducer ==>
                               ReadFile(Next(cfg, s, e).files, Temp(m, r)) == ReadFile(s.files, Temp(m, r)) == TempText(cfg, m, r)
  {
    var s' := Next(cfg, s, e);
    NextKeepsInv(cfg, s, e);
    assert s'.mapTaskStatus[m] == 1;
    assert StatusOk(cfg, s, m) && StatusOk(cfg, s', m);
    forall r: nat | r < cfg.nrReducer
      ensures ReadFile(s'.files, Temp(m, r)) == ReadFile(s.files, Temp(m, r)) == TempText(cfg, m, r)
    {
      assert FileDone(cfg, s.files, m, r) && FileDone(cfg, s'.files, m, r);
    }
  }

  /** With more reducers than workers the done-count can never reach the number of reducers:
      the reduce loop does not end. */
  lemma {:induction false} TooManyReducersNeverReturn(cfg: Config, files: Files, events: seq<Event>)
    requires cfg.Valid() && cfg.nrReducer > cfg.nrMapper
    ensures var s := Run(cfg, Start(cfg, files), events);
            s.nrReduceDone <= cfg.nrMapper && !s.control.StopServers? && !s.control.Returned?
  {
    RunKeepsInv(cfg, files, events);
    var s := Run(cfg, Start(cfg, files), events);
    OnesOfPrefix(s.reduceTaskStatus, cfg.nrMapper);
  }

  lemma {:induction false} OnesOfPrefix(status: seq<int>, n: nat)
    requires n <= |status| && forall i :: n <= i < |status| ==> status[i] != 1
    ensures Ones(status) <= n
  {
    if n < |status| {
      OnesOfPrefix(status[..|status| - 1], n);
    }
  }
}
