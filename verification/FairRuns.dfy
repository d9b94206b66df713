/** Fair runs with finitely many crashes come to an end. */
module FairRuns {
  import opened Text
  import opened MapReduce
  import opened Protocol
  import opened Safety
  import opened Liveness

  // ---------------------------------------------------------------- bounds

  ghost function DebtBound(cfg: Config, i: nat): int
    requires cfg.Valid()
  {
    JobWork(cfg, SizesOf(cfg, i), MAP_TASK) + JobWork(cfg, SizesOf(cfg, i), REDUCE_TASK) + 7
  }

  ghost function DebtBounds(cfg: Config): (bounds: seq<int>)
    requires cfg.Valid()
    ensures |bounds| == cfg.nrMapper
    ensures forall i :: 0 <= i < cfg.nrMapper ==> bounds[i] == DebtBound(cfg, i)
  {
    seq(cfg.nrMapper, i requires 0 <= i < cfg.nrMapper => DebtBound(cfg, i))
  }

  /** No state needs more useful actions than this. */
  ghost function PotentialBound(cfg: Config): int
    requires cfg.Valid()
  {
    5 + Sum(DebtBounds(cfg))
  }

  lemma {:induction false} DebtIsBounded(cfg: Config, s: State, i: nat, z: Sizes)
    requires Shape(cfg, s) && i < cfg.nrMapper && WorkerFacts(cfg, s, i, z)
    ensures 0 <= Debt(cfg, s, i, z) <= JobWork(cfg, z, MAP_TASK) + JobWork(cfg, z, REDUCE_TASK) + 7
  {
  }

  lemma {:induction false} PotentialIsBounded(cfg: Config, s: State)
    requires LiveInv(cfg, s)
    ensures 0 <= Potential(cfg, s) <= PotentialBound(cfg)
  {
    forall i: nat | i < cfg.nrMapper ensures 0 <= Debts(cfg, s)[i] <= DebtBounds(cfg)[i] {
      InvGivesFacts(cfg, s, i);
      DebtIsBounded(cfg, s, i, SizesOf(cfg, i));
    }
    SumMonotone(Debts(cfg, s), DebtBounds(cfg));
  }

  // ---------------------------------------------------------------- the master's position

  /** The first task at or after `j` that is not marked as done, or `n`. */
  function FirstUndone(status: seq<int>, n: nat, j: nat): (u: nat)
    requires j <= n <= |status|
    ensures j <= u <= n
    ensures u < n ==> status[u] != 1
    decreases n - j
  {
    if j < n && status[j] == 1 then FirstUndone(status, n, j + 1) else j
  }

  lemma {:induction false} AllDone(status: seq<int>, n: nat, j: nat)
    requires j <= n <= |status| && FirstUndone(status, n, j) == n
    ensures forall i :: j <= i < n ==> status[i] == 1
    decreases n - j
  {
    if j < n {
      AllDone(status, n, j + 1);
    }
  }

  lemma {:induction false} OnesOfAll(status: seq<int>)
    requires forall i :: 0 <= i < |status| ==> status[i] == 1
    ensures Ones(status) == |status|
  {
    if status != [] {
      OnesOfAll(status[..|status| - 1]);
    }
  }

  /** How many more polls until the master meets an unfinished task or ends a finished sweep. */
  function PollsAhead(status: seq<int>, n: nat, j: nat): nat
    requires j <= n <= |status|
  {
    var u := FirstUndone(status, n, j);
    if u < n then u - j
    else
      var v := FirstUndone(status, n, 0);
      if v == n then n - j else (n - j) + 1 + v
  }

  /** How many of the master's actions can pass without any useful effect. */
  function Behind(cfg: Config, s: State): (b: nat)
    requires |s.mapTaskStatus| == cfg.nrMapper <= |s.reduceTaskStatus|
    ensures b <= 2 * cfg.nrMapper + 1
  {
    var n := cfg.nrMapper;
    match s.control
    case CallMap(k) => if k <= n then n - k else 0
    case PollMap(j) => if j <= n then PollsAhead(s.mapTaskStatus, n, j) else 0
    case CallReduce(k) => if k <= n then n - k else 0
    case PollReduce(j) => if j <= n then PollsAhead(s.reduceTaskStatus, n, j) else 0
    case StopServers(k) => if k <= n then n - k else 0
    case Returned => 0
  }

  ghost predicate AllQuiet(s: State) {
    forall i :: 0 <= i < |s.workers| ==> Quiet(s.workers[i])
  }

  /** Nothing useful has happened between `s` and `s'`. */
  ghost predicate NoProgress(cfg: Config, s: State, s': State)
    requires Shape(cfg, s) && Shape(cfg, s')
  {
    && Potential(cfg, s') == Potential(cfg, s)
    && Rank(s'.control) == Rank(s.control)
    && s'.workers == s.workers
    && s'.mapTaskStatus == s.mapTaskStatus
    && (forall i :: 0 <= i < cfg.nrMapper ==> s'.reduceTaskStatus[i] == s.reduceTaskStatus[i])
  }

  lemma {:induction false} MapSweepComesCloser(cfg: Config, s: State, j: nat)
    requires Shape(cfg, s) && s.control == PollMap(j) && j <= cfg.nrMapper && s.nrMapDone == Ones(s.mapTaskStatus)
    requires j < cfg.nrMapper ==> Assigned(cfg, s, j) && Quiet(s.workers[j])
    requires MasterStep(cfg, s).control.PollMap?
    requires MasterStep(cfg, s).workers == s.workers && MasterStep(cfg, s).mapTaskStatus == s.mapTaskStatus
    ensures Behind(cfg, MasterStep(cfg, s)) == Behind(cfg, s) - 1
  {
    var n := cfg.nrMapper;
    if j < n {
      assert s.mapTaskStatus[j] == 1;
    } else if FirstUndone(s.mapTaskStatus, n, 0) == n {
      AllDone(s.mapTaskStatus, n, 0);
      OnesOfAll(s.mapTaskStatus);
    }
  }

  lemma {:induction false} ReduceSweepComesCloser(cfg: Config, s: State, j: nat)
    requires Shape(cfg, s) && s.control == PollReduce(j) && j <= cfg.nrMapper == cfg.nrReducer
    requires s.nrReduceDone == Ones(s.reduceTaskStatus)
    requires j < cfg.nrMapper ==> Assigned(cfg, s, j) && Quiet(s.workers[j])
    requires MasterStep(cfg, s).control.PollReduce?
    requires MasterStep(cfg, s).workers == s.workers && MasterStep(cfg, s).reduceTaskStatus == s.reduceTaskStatus
    ensures Behind(cfg, MasterStep(cfg, s)) == Behind(cfg, s) - 1
  {
    var n := cfg.nrMapper;
    if j < n {
      assert s.reduceTaskStatus[j] == 1;
    } else if FirstUndone(s.reduceTaskStatus, n, 0) == n {
      AllDone(s.reduceTaskStatus, n, 0);
      OnesOfAll(s.reduceTaskStatus);
    }
  }

  /** When all workers are quiet, an action of the master without effect brings it one poll
      closer to an action with effect. */
  lemma {:induction false} MasterComesCloser(cfg: Config, s: State)
    requires LiveInv(cfg, s) && AllQuiet(s) && cfg.nrMapper == cfg.nrReducer && s.control != Returned
    requires NoProgress(cfg, s, MasterStep(cfg, s))
    ensures Behind(cfg, MasterStep(cfg, s)) == Behind(cfg, s) - 1
  {
    assert CountsOk(cfg, s) && StageOk(cfg, s);
    match s.control
    case PollMap(j) => MapSweepComesCloser(cfg, s, j);
    case PollReduce(j) =>
      SameElements(MasterStep(cfg, s).reduceTaskStatus, s.reduceTaskStatus);
      ReduceSweepComesCloser(cfg, s, j);
    case _ => OtherActionsComeCloser(cfg, s);
  }

  lemma {:induction false} SameElements(a: seq<int>, b: seq<int>)
    requires |a| == |b| && forall i :: 0 <= i < |b| ==> a[i] == b[i]
    ensures a == b
  {
  }

  lemma {:induction false} OtherActionsComeCloser(cfg: Config, s: State)
    requires Shape(cfg, s) && StageOk(cfg, s) && s.control != Returned && !s.control.PollMap? && !s.control.PollReduce?
    requires Rank(MasterStep(cfg, s).control) == Rank(s.control)
    ensures Behind(cfg, MasterStep(cfg, s)) == Behind(cfg, s) - 1
  {
  }

  // ---------------------------------------------------------------- blocks of events

  predicate CrashFree(events: seq<Event>) {
    forall i :: 0 <= i < |events| ==> !events[i].Crash?
  }

  /** The number of actions the master takes. */
  function MasterActions(events: seq<Event>): (n: nat)
    ensures n <= |events|
  {
    if events == [] then 0
    else MasterActions(events[..|events| - 1]) + if events[|events| - 1] == Master then 1 else 0
  }

  lemma {:induction false} RunKeepsLiveInv(cfg: Config, s: State, events: seq<Event>)
    requires LiveInv(cfg, s)
    ensures LiveInv(cfg, Run(cfg, s, events))
  {
    if events != [] {
      RunKeepsLiveInv(cfg, s, events[..|events| - 1]);
      NextKeepsLiveInv(cfg, Run(cfg, s, events[..|events| - 1]), events[|events| - 1]);
    }
  }

  lemma {:induction false} NoProgressTransitive(cfg: Config, s: State, t: State, u: State)
    requires Shape(cfg, s) && Shape(cfg, t) && Shape(cfg, u)
    requires NoProgress(cfg, s, t) && NoProgress(cfg, t, u)
    ensures NoProgress(cfg, s, u)
  {
  }

  /** A crash-free block either does something useful or leaves everything as it was; in the
      latter case every worker that was to move had nothing to do. */
  lemma {:induction false} BlockProgress(cfg: Config, s: State, events: seq<Event>)
    requires LiveInv(cfg, s) && CrashFree(events)
    ensures Potential(cfg, Run(cfg, s, events)) <= Potential(cfg, s)
    ensures Potential(cfg, Run(cfg, s, events)) == Potential(cfg, s) ==>
              && NoProgress(cfg, s, Run(cfg, s, events))
              && forall i: nat :: i < cfg.nrMapper && Work(i) in events ==> Quiet(s.workers[i])
  {
    if events != [] {
      var front, e := events[..|events| - 1], events[|events| - 1];
      assert events == front + [e];
      var t := Run(cfg, s, front);
      BlockProgress(cfg, s, front);
      RunKeepsLiveInv(cfg, s, front);
      PotentialNeverGrows(cfg, t, e);
      if Potential(cfg, Next(cfg, t, e)) == Potential(cfg, s) {
        NoProgressTransitive(cfg, s, t, Next(cfg, t, e));
      }
    }
  }

  /** When all workers are quiet, enough actions of the master do something useful. */
  lemma {:induction false} SweepProgress(cfg: Config, s: State, events: seq<Event>)
    requires LiveInv(cfg, s) && AllQuiet(s) && CrashFree(events) && cfg.nrMapper == cfg.nrReducer
    ensures
      || Potential(cfg, Run(cfg, s, events)) < Potential(cfg, s)
      || Run(cfg, s, events).control == Returned
      || Behind(cfg, Run(cfg, s, events)) == Behind(cfg, s) - MasterActions(events)
  {
    if events != [] {
      var front, e := events[..|events| - 1], events[|events| - 1];
      assert events == front + [e];
      var t := Run(cfg, s, front);
      SweepProgress(cfg, s, front);
      BlockProgress(cfg, s, front);
      RunKeepsLiveInv(cfg, s, front);
      PotentialNeverGrows(cfg, t, e);
      RankNeverGrows(cfg, t, e);
      if Potential(cfg, Next(cfg, t, e)) == Potential(cfg, s) && t.control != Returned {
        if e == Master {
          MasterComesCloser(cfg, t);
        } else {
          assert Next(cfg, t, e).reduceTaskStatus == t.reduceTaskStatus;
        }
      }
    }
  }

  lemma {:induction false} RunSnoc(cfg: Config, s: State, events: seq<Event>, e: Event)
    requires Shape(cfg, s)
    ensures Run(cfg, s, events + [e]) == Next(cfg, Run(cfg, s, events), e)
  {
    assert (events + [e])[..|events|] == events;
  }

  lemma {:induction false} RunConcat(cfg: Config, s: State, a: seq<Event>, b: seq<Event>)
    requires Shape(cfg, s)
    ensures Run(cfg, s, a + b) == Run(cfg, Run(cfg, s, a), b)
  {
    if b == [] {
      assert a + b == a;
    } else {
      var front, e := b[..|b| - 1], b[|b| - 1];
      RunConcat(cfg, s, a, front);
      ByLast(a, b);
      RunSnoc(cfg, s, a + front, e);
      RunSnoc(cfg, Run(cfg, s, a), front, e);
    }
  }

  // ---------------------------------------------------------------- fair rounds

  /** Some work, and then some sweeps of the master; other events may be interleaved in both
      parts. */
  datatype Round = Round(work: seq<Event>, polls: seq<Event>)
  {
    function Events(): seq<Event> {
      work + polls
    }
  }

  /** Every worker gets a chance to move, then the master takes as many actions as two sweeps over
      all of them need: one sweep may have to end before the next can find what has changed. */
  ghost predicate Fair(cfg: Config, round: Round) {
    && (forall i: nat :: i < cfg.nrMapper ==> Work(i) in round.work)
    && MasterActions(round.polls) >= 2 * cfg.nrMapper + 2
  }

  /** A fair round without a crash does something useful, unless the master has returned. */
  lemma {:induction false} FairRoundProgress(cfg: Config, s: State, round: Round)
    requires LiveInv(cfg, s) && Fair(cfg, round) && CrashFree(round.Events()) && cfg.nrMapper == cfg.nrReducer
    ensures Potential(cfg, Run(cfg, s, round.Events())) < Potential(cfg, s) || Run(cfg, s, round.Events()).control == Returned
  {
    var Round(work, polls) := round;
    assert CrashFree(work) by {
      assert forall i :: 0 <= i < |work| ==> work[i] == round.Events()[i];
    }
    assert CrashFree(polls) by {
      assert forall i :: 0 <= i < |polls| ==> polls[i] == round.Events()[|work| + i];
    }
    var t := Run(cfg, s, work);
    RunConcat(cfg, s, work, polls);
    RunKeepsLiveInv(cfg, s, work);
    BlockProgress(cfg, s, work);
    BlockProgress(cfg, t, polls);
    if Potential(cfg, t) == Potential(cfg, s) {
      assert AllQuiet(t);
      SweepProgress(cfg, t, polls);
    }
  }

  function AllEvents(rounds: seq<Round>): seq<Event> {
    if rounds == [] then [] else AllEvents(rounds[..|rounds| - 1]) + rounds[|rounds| - 1].Events()
  }

  /** The number of rounds in which a worker is killed. */
  ghost function CrashRounds(rounds: seq<Round>): nat {
    if rounds == [] then 0
    else CrashRounds(rounds[..|rounds| - 1]) + if CrashFree(rounds[|rounds| - 1].Events()) then 0 else 1
  }

  /** A budget of `b` useful actions, renewed whenever a worker is killed. */
  ghost function RoundBudget(rounds: seq<Round>, b: int): int {
    if rounds == [] then b
    else RoundBudget(rounds[..|rounds| - 1], b) + if CrashFree(rounds[|rounds| - 1].Events()) then 0 else b + 1
  }

  lemma {:induction false} RoundBudgetIs(rounds: seq<Round>, b: int)
    ensures RoundBudget(rounds, b) == CrashRounds(rounds) * (b + 1) + b
  {
    if rounds != [] {
      var front := rounds[..|rounds| - 1];
      RoundBudgetIs(front, b);
      OneMore(CrashRounds(front), b + 1);
    }
  }

  lemma {:induction false} ReturnedIsFinal(cfg: Config, s: State, events: seq<Event>)
    requires Shape(cfg, s) && s.control == Returned
    ensures Run(cfg, s, events).control == Returned
  {
    if events != [] {
      ReturnedIsFinal(cfg, s, events[..|events| - 1]);
    }
  }

  /** One fair round, whether or not a worker is killed in it. */
  lemma {:induction false} RoundIsBounded(cfg: Config, t: State, round: Round)
    requires LiveInv(cfg, t) && Fair(cfg, round) && cfg.nrMapper == cfg.nrReducer
    ensures LiveInv(cfg, Run(cfg, t, round.Events()))
    ensures 0 <= Potential(cfg, Run(cfg, t, round.Events())) <= PotentialBound(cfg)
    ensures Run(cfg, t, round.Events()).control == Returned || (
              && t.control != Returned
              && (CrashFree(round.Events()) ==> Potential(cfg, Run(cfg, t, round.Events())) < Potential(cfg, t)))
  {
    RunKeepsLiveInv(cfg, t, round.Events());
    PotentialIsBounded(cfg, Run(cfg, t, round.Events()));
    if t.control == Returned {
      ReturnedIsFinal(cfg, t, round.Events());
    } else if CrashFree(round.Events()) {
      FairRoundProgress(cfg, t, round);
    }
  }

  lemma {:induction false} RoundsAreBounded(cfg: Config, s: State, rounds: seq<Round>)
    requires LiveInv(cfg, s) && cfg.nrMapper == cfg.nrReducer
    requires forall k :: 0 <= k < |rounds| ==> Fair(cfg, rounds[k])
    ensures LiveInv(cfg, Run(cfg, s, AllEvents(rounds)))
    ensures 0 <= Potential(cfg, Run(cfg, s, AllEvents(rounds)))
    ensures Run(cfg, s, AllEvents(rounds)).control == Returned ||
            |rounds| + Potential(cfg, Run(cfg, s, AllEvents(rounds))) <= RoundBudget(rounds, PotentialBound(cfg))
  {
    if rounds == [] {
      PotentialIsBounded(cfg, s);
    } else {
      var front, round := rounds[..|rounds| - 1], rounds[|rounds| - 1];
      var t := Run(cfg, s, AllEvents(front));
      RoundsAreBounded(cfg, s, front);
      RunConcat(cfg, s, AllEvents(front), round.Events());
      PotentialIsBounded(cfg, t);
      RoundIsBounded(cfg, t, round);
    }
  }

  lemma {:induction false} OneMore(a: nat, b: int)
    ensures (a + 1) * b == a * b + b
  {
  }

  /** `process` returns after a number of fair rounds that depends only on the request and on
      how many rounds have seen a crash. */
  lemma {:induction false} FairRunsReturn(cfg: Config, files: Files, rounds: seq<Round>)
    requires cfg.Valid() && cfg.nrMapper == cfg.nrReducer
    requires forall k :: 0 <= k < |rounds| ==> Fair(cfg, rounds[k])
    requires |rounds| > CrashRounds(rounds) * (PotentialBound(cfg) + 1) + PotentialBound(cfg)
    ensures Run(cfg, Start(cfg, files), AllEvents(rounds)).control == Returned
  {
    RoundBudgetIs(rounds, PotentialBound(cfg));
    EnoughRoundsReturn(cfg, files, rounds, PotentialBound(cfg));
  }

  lemma {:induction false} EnoughRoundsReturn(cfg: Config, files: Files, rounds: seq<Round>, b: int)
    requires cfg.Valid() && cfg.nrMapper == cfg.nrReducer && b == PotentialBound(cfg)
    requires forall k :: 0 <= k < |rounds| ==> Fair(cfg, rounds[k])
    requires |rounds| > RoundBudget(rounds, b)
    ensures Run(cfg, Start(cfg, files), AllEvents(rounds)).control == Returned
  {
    StartIsLive(cfg, files);
    RoundsAreBounded(cfg, Start(cfg, files), rounds);
  }
}
