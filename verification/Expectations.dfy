/** The expectations of gmock-spec-builders.cc and their prerequisites: the two worklist searches,
    and what they keep true while calls are handled. */
module Expectations {

  /** The prerequisites and the cardinality do not change once an expectation is set. */
  class Expectation {
    const immediatePrerequisites: seq<Expectation>
    const accepts: int -> bool
    const min: nat
    const max: nat
    const retiresOnSaturation: bool
    var callCount: nat
    var retired: bool

    constructor (prerequisites: seq<Expectation>, accepts: int -> bool, min: nat, max: nat, retiresOnSaturation: bool)
      ensures immediatePrerequisites == prerequisites && this.accepts == accepts
      ensures this.min == min && this.max == max && this.retiresOnSaturation == retiresOnSaturation
      ensures callCount == 0 && !retired
    {
      this.immediatePrerequisites, this.accepts := prerequisites, accepts;
      this.min, this.max, this.retiresOnSaturation := min, max, retiresOnSaturation;
      callCount, retired := 0, false;
    }

    predicate IsSatisfied() reads this {
      min <= callCount <= max
    }

    predicate IsSaturated() reads this {
      callCount >= max
    }

    method Retire()
      modifies this`retired
      ensures retired
    {
      retired := true;
    }

    /** `RetireAllPreRequisites`. It retires the transitive prerequisites of this expectation and
        nothing else. The short cut for a retired expectation is right because the retired ones
        are closed under prerequisites, and stay so. */
    method RetireAllPreRequisites(ghost all: set<Expectation>)
      requires this in all && PrerequisitesIn(all) && RetiredAreClosed(all)
      modifies all`retired
      ensures forall e | e in all :: e.retired <==> old(e.retired) || Prerequisite(this, e)
      ensures PrerequisitesRetired(this) && RetiredAreClosed(all)
    {
      if retired {
        ClosedDownwards(all, this);
        return;
      }
      RetireReachable(all);
      ClosedDownwards(all, this);
    }

    /** The search from an expectation that is not retired. */
    method RetireReachable(ghost all: set<Expectation>)
      requires this in all && PrerequisitesIn(all) && RetiredAreClosed(all) && !retired
      modifies all`retired
      ensures forall e | e in all :: e.retired ==> old(e.retired) || Prerequisite(this, e)
      ensures forall e | e in all :: old(e.retired) ==> e.retired
      ensures ClosedBut(all, this, [])
    {
      var expectations := [this];
      while expectations != []
        invariant forall e | e in expectations :: e in all && (e == this || Prerequisite(this, e))
        invariant forall e | e in all :: e.retired ==> old(e.retired) || Prerequisite(this, e)
        invariant forall e | e in all :: old(e.retired) ==> e.retired
        invariant ClosedBut(all, this, expectations)
        decreases 2 * |Active(all)| + |expectations|
      {
        var exp := expectations[|expectations| - 1];
        var rest := expectations[..|expectations| - 1];
        assert expectations == rest + [exp];
        expectations := RetireImmediate(all, exp, rest);
      }
    }

    /** The inner loop, over the immediate prerequisites of `exp`. */
    method RetireImmediate(ghost all: set<Expectation>, exp: Expectation, expectations: seq<Expectation>)
      returns (expectations': seq<Expectation>)
      requires this in all && exp in all && PrerequisitesIn(all) && (exp == this || Prerequisite(this, exp))
      requires forall e | e in expectations :: e in all && (e == this || Prerequisite(this, e))
      requires ClosedBut(all, this, expectations + [exp])
      modifies all`retired
      ensures forall e | e in expectations' :: e in all && (e == this || Prerequisite(this, e))
      ensures forall e | e in all :: e.retired ==> old(e.retired) || Prerequisite(this, e)
      ensures forall e | e in all :: old(e.retired) ==> e.retired
      ensures ClosedBut(all, this, expectations')
      ensures 2 * |Active(all)| + |expectations'| <= 2 * old(|Active(all)|) + |expectations|
    {
      expectations' := expectations;
      for i := 0 to |exp.immediatePrerequisites|
        invariant forall e | e in expectations' :: e in all && (e == this || Prerequisite(this, e))
        invariant forall e | e in all :: e.retired ==> old(e.retired) || Prerequisite(this, e)
        invariant forall e | e in all :: old(e.retired) ==> e.retired
        invariant ClosedBut(all, this, expectations' + [exp])
        invariant forall k :: 0 <= k < i ==> exp.immediatePrerequisites[k].retired
        invariant 2 * |Active(all)| + |expectations'| <= 2 * old(|Active(all)|) + |expectations|
      {
        var next := exp.immediatePrerequisites[i];
        PrerequisiteOf(this, exp, next);
        if !next.retired {
          ghost var active := Active(all);
          next.Retire();
          assert Active(all) == active - {next};
          expectations' := expectations' + [next];
        }
      }
    }

    /** `AllPrerequisitesAreSatisfied`: no set of visited expectations, so an expectation that can
        be reached in several ways is looked at several times. */
    method AllPrerequisitesAreSatisfied(ghost all: set<Expectation>) returns (satisfied: bool)
      requires this in all && PrerequisitesIn(all) && Acyclic(all)
      ensures satisfied <==> AllSatisfied(all, this)
    {
      ghost var n := Rank(all, this) + 1;
      var expectations := [this];
      while expectations != []
        invariant Below(all, expectations, n)
        invariant AllSatisfied(all, this) <==> StackSatisfied(all, expectations)
        decreases Weights(all, expectations, n)
      {
        StackStep(all, expectations);
        StackFalls(all, expectations, n);
        var exp := expectations[|expectations| - 1];
        expectations := expectations[..|expectations| - 1];
        satisfied, expectations := PushPrerequisites(exp, expectations);
        if !satisfied {
          return;
        }
      }
      satisfied := true;
    }

    /** The inner loop, over the immediate prerequisites of `exp`. */
    method PushPrerequisites(exp: Expectation, waiting: seq<Expectation>)
      returns (satisfied: bool, expectations: seq<Expectation>)
      ensures satisfied <==> forall q | q in exp.immediatePrerequisites :: q.IsSatisfied()
      ensures satisfied ==> expectations == waiting + exp.immediatePrerequisites
    {
      expectations := waiting;
      for i := 0 to |exp.immediatePrerequisites|
        invariant expectations == waiting + exp.immediatePrerequisites[..i]
        invariant forall k :: 0 <= k < i ==> exp.immediatePrerequisites[k].IsSatisfied()
      {
        var next := exp.immediatePrerequisites[i];
        if !next.IsSatisfied() {
          return false, expectations;
        }
        expectations := expectations + [next];
      }
      satisfied := true;
    }

    /** `ShouldHandleArguments`. */
    method ShouldHandleArguments(ghost all: set<Expectation>, args: int) returns (handles: bool)
      requires this in all && PrerequisitesIn(all) && Acyclic(all)
      ensures handles <==> Ready(all, this, args)
    {
      if retired {
        return false;
      }
      var satisfied := AllPrerequisitesAreSatisfied(all);
      handles := satisfied && accepts(args);
    }

    /** `GetActionForArguments`, for its effect on the expectations. A call beyond the cardinality
        is counted and retires nothing. */
    method GetActionForArguments(ghost all: set<Expectation>) returns (excessive: bool)
      requires this in all && PrerequisitesIn(all) && RetiredAreClosed(all)
      modifies this`callCount, all`retired
      ensures callCount == old(callCount) + 1 && excessive == old(IsSaturated())
      ensures RetiredAreClosed(all)
      ensures forall e | e in all ::
                e.retired <==> old(e.retired) ||
                               (!excessive && (Prerequisite(this, e) || (e == this && retiresOnSaturation && callCount >= max)))
    {
      if IsSaturated() {
        callCount := callCount + 1;
        return true;
      }
      callCount := callCount + 1;
      RetireAllPreRequisites(all);
      if retiresOnSaturation && IsSaturated() {
        Retire();
      }
      excessive := false;
    }
  }

  // ---------------------------------------------------------------- the prerequisite graph

  /** `p` is `n` steps away from `e`. */
  ghost predicate Steps(n: nat, e: Expectation, p: Expectation) {
    if n == 0 then e == p
    else exists q :: q in e.immediatePrerequisites && Steps(n - 1, q, p)
  }

  /** A prerequisite, immediate or not. */
  ghost predicate Prerequisite(e: Expectation, p: Expectation) {
    exists n: nat :: n > 0 && Steps(n, e, p)
  }

  ghost predicate PrerequisitesIn(all: set<Expectation>) {
    forall e, p | e in all && p in e.immediatePrerequisites :: p in all
  }

  ghost predicate PrerequisitesRetired(e: Expectation)
    reads set p | p in e.immediatePrerequisites
  {
    forall p | p in e.immediatePrerequisites :: p.retired
  }

  ghost predicate RetiredAreClosed(all: set<Expectation>)
    requires PrerequisitesIn(all)
    reads all
  {
    forall e | e in all && e.retired :: PrerequisitesRetired(e)
  }

  /** Whatever is retired, and `from` too, has retired prerequisites, except what still waits. */
  ghost predicate ClosedBut(all: set<Expectation>, from: Expectation, waiting: seq<Expectation>)
    requires PrerequisitesIn(all)
    reads all
  {
    forall e | e in all && (e.retired || e == from) && e !in waiting :: PrerequisitesRetired(e)
  }

  ghost function Active(all: set<Expectation>): set<Expectation>
    reads all
  {
    set e | e in all && !e.retired
  }

  lemma {:induction false} StepsJoin(n: nat, m: nat, e: Expectation, q: Expectation, p: Expectation)
    requires Steps(n, e, q) && Steps(m, q, p)
    ensures Steps(n + m, e, p)
  {
    if n > 0 {
      var q' :| q' in e.immediatePrerequisites && Steps(n - 1, q', q);
      StepsJoin(n - 1, m, q', q, p);
    }
  }

  lemma {:induction false} PrerequisiteOf(e: Expectation, q: Expectation, p: Expectation)
    requires (e == q || Prerequisite(e, q)) && p in q.immediatePrerequisites
    ensures Prerequisite(e, p)
  {
    assert Steps(0, p, p) && Steps(1, q, p);
    if e != q {
      var n: nat :| n > 0 && Steps(n, e, q);
      StepsJoin(n, 1, e, q, p);
    }
  }

  lemma {:induction false} FirstStep(e: Expectation, p: Expectation)
    ensures Prerequisite(e, p) <==> exists q :: q in e.immediatePrerequisites && (q == p || Prerequisite(q, p))
  {
    if Prerequisite(e, p) {
      var n: nat :| n > 0 && Steps(n, e, p);
      var q :| q in e.immediatePrerequisites && Steps(n - 1, q, p);
      assert q == p || Prerequisite(q, p);
    }
    forall q | q in e.immediatePrerequisites && (q == p || Prerequisite(q, p)) ensures Prerequisite(e, p) {
      if q == p {
        assert Steps(0, q, p) && Steps(1, e, p);
      } else {
        var n: nat :| n > 0 && Steps(n, q, p);
        assert Steps(n + 1, e, p);
      }
    }
  }

  /** From a closed set everything below an expectation with retired prerequisites is retired. */
  lemma {:induction false} RetiredBelow(all: set<Expectation>, n: nat, e: Expectation, p: Expectation)
    requires PrerequisitesIn(all) && RetiredAreClosed(all) && e in all && PrerequisitesRetired(e)
    requires n > 0 && Steps(n, e, p)
    ensures p.retired
  {
    var q :| q in e.immediatePrerequisites && Steps(n - 1, q, p);
    if n > 1 { RetiredBelow(all, n - 1, q, p); }
  }

  lemma {:induction false} ClosedDownwards(all: set<Expectation>, e: Expectation)
    requires PrerequisitesIn(all) && RetiredAreClosed(all) && e in all && PrerequisitesRetired(e)
    ensures forall p | Prerequisite(e, p) && p in all :: p.retired
  {
    forall p | Prerequisite(e, p) && p in all ensures p.retired {
      var n: nat :| n > 0 && Steps(n, e, p);
      RetiredBelow(all, n, e, p);
    }
  }

  // ---------------------------------------------------------------- satisfied prerequisites

  ghost predicate AllSatisfied(all: set<Expectation>, e: Expectation)
    reads all
  {
    forall p | p in all && Prerequisite(e, p) :: p.IsSatisfied()
  }

  lemma {:induction false} SatisfiedStep(all: set<Expectation>, e: Expectation)
    requires PrerequisitesIn(all) && e in all
    ensures AllSatisfied(all, e) <==>
            forall q | q in e.immediatePrerequisites :: q.IsSatisfied() && AllSatisfied(all, q)
  {
    forall p ensures Prerequisite(e, p) <==> exists q :: q in e.immediatePrerequisites && (q == p || Prerequisite(q, p)) {
      FirstStep(e, p);
    }
  }

  ghost predicate StackSatisfied(all: set<Expectation>, es: seq<Expectation>)
    reads all
  {
    forall e | e in es :: AllSatisfied(all, e)
  }

  /** The top of the worklist is replaced by its immediate prerequisites, once they are satisfied. */
  lemma {:induction false} StackStep(all: set<Expectation>, es: seq<Expectation>)
    requires PrerequisitesIn(all) && es != [] && forall e | e in es :: e in all
    ensures var front, e := es[..|es| - 1], es[|es| - 1];
            StackSatisfied(all, es) <==>
            StackSatisfied(all, front + e.immediatePrerequisites) && forall q | q in e.immediatePrerequisites :: q.IsSatisfied()
  {
    var front, e := es[..|es| - 1], es[|es| - 1];
    SatisfiedStep(all, e);
    assert es == front + [e];
    assert StackSatisfied(all, es) <==> StackSatisfied(all, front) && AllSatisfied(all, e);
  }

  ghost predicate Acyclic(all: set<Expectation>) {
    forall e | e in all :: !Prerequisite(e, e)
  }

  ghost function Prerequisites(all: set<Expectation>, e: Expectation): set<Expectation> {
    set p | p in all && Prerequisite(e, p)
  }

  ghost function Rank(all: set<Expectation>, e: Expectation): nat {
    |Prerequisites(all, e)|
  }

  lemma {:induction false} RankFalls(all: set<Expectation>, e: Expectation, q: Expectation)
    requires PrerequisitesIn(all) && Acyclic(all) && e in all && q in e.immediatePrerequisites
    ensures Rank(all, q) < Rank(all, e)
  {
    forall p | p in Prerequisites(all, q) ensures p in Prerequisites(all, e) {
      FirstStep(e, p);
    }
    FirstStep(e, q);
    SmallerSet(Prerequisites(all, q), Prerequisites(all, e), q);
  }

  lemma {:induction false} SmallerSet<T>(a: set<T>, b: set<T>, x: T)
    requires a <= b && x in b && x !in a
    ensures |a| < |b|
  {
    assert b == a + (b - a) && x in b - a;
  }

  // ---------------------------------------------------------------- termination without visited set

  ghost predicate Below(all: set<Expectation>, es: seq<Expectation>, n: nat) {
    forall e | e in es :: e in all && Rank(all, e) < n
  }

  /** One more than the number of paths that begin in `e`. */
  ghost function Weight(all: set<Expectation>, e: Expectation): nat
    requires PrerequisitesIn(all) && Acyclic(all) && e in all
    decreases Rank(all, e), |e.immediatePrerequisites| + 1
  {
    PrerequisitesBelow(all, e, Rank(all, e) + 1);
    1 + Weights(all, e.immediatePrerequisites, Rank(all, e))
  }

  ghost function Weights(all: set<Expectation>, es: seq<Expectation>, n: nat): nat
    requires PrerequisitesIn(all) && Acyclic(all) && Below(all, es, n)
    decreases n, |es|
  {
    if es == [] then 0
    else Weights(all, es[..|es| - 1], n) + Weight(all, es[|es| - 1])
  }

  lemma {:induction false} PrerequisitesBelow(all: set<Expectation>, e: Expectation, n: nat)
    requires PrerequisitesIn(all) && Acyclic(all) && e in all && Rank(all, e) < n
    ensures Below(all, e.immediatePrerequisites, Rank(all, e)) && Below(all, e.immediatePrerequisites, n)
  {
    forall q | q in e.immediatePrerequisites ensures Rank(all, q) < Rank(all, e) {
      RankFalls(all, e, q);
    }
  }

  lemma {:induction false} WeightsAppend(all: set<Expectation>, x: seq<Expectation>, y: seq<Expectation>, n: nat)
    requires PrerequisitesIn(all) && Acyclic(all) && Below(all, x, n) && Below(all, y, n)
    ensures Below(all, x + y, n) && Weights(all, x + y, n) == Weights(all, x, n) + Weights(all, y, n)
  {
    if y == [] {
      assert x + y == x;
    } else {
      WeightsAppend(all, x, y[..|y| - 1], n);
      assert (x + y)[..|x + y| - 1] == x + y[..|y| - 1];
    }
  }

  lemma {:induction false} WeightsOfBound(all: set<Expectation>, es: seq<Expectation>, n: nat, m: nat)
    requires PrerequisitesIn(all) && Acyclic(all) && Below(all, es, n) && Below(all, es, m)
    ensures Weights(all, es, n) == Weights(all, es, m)
  {
    if es != [] { WeightsOfBound(all, es[..|es| - 1], n, m); }
  }

  lemma {:induction false} StackFalls(all: set<Expectation>, es: seq<Expectation>, n: nat)
    requires PrerequisitesIn(all) && Acyclic(all) && Below(all, es, n) && es != []
    ensures var next := es[..|es| - 1] + es[|es| - 1].immediatePrerequisites;
            Below(all, next, n) && Weights(all, next, n) < Weights(all, es, n)
  {
    var front, e := es[..|es| - 1], es[|es| - 1];
    PrerequisitesBelow(all, e, n);
    WeightsAppend(all, front, e.immediatePrerequisites, n);
    WeightsOfBound(all, e.immediatePrerequisites, n, Rank(all, e));
  }

  // ---------------------------------------------------------------- handling calls

  ghost predicate Ready(all: set<Expectation>, e: Expectation, args: int)
    reads e, all
  {
    !e.retired && AllSatisfied(all, e) && e.accepts(args)
  }

  /** `FindMatchingExpectationLocked`: the newest expectation that handles the call. */
  method FindMatchingExpectation(ghost all: set<Expectation>, expectations: seq<Expectation>, args: int)
    returns (exp: Expectation?)
    requires PrerequisitesIn(all) && Acyclic(all) && forall e | e in expectations :: e in all
    ensures exp == null <==> forall e | e in expectations :: !Ready(all, e, args)
    ensures exp != null ==> exists k :: 0 <= k < |expectations| && exp == expectations[k] && Ready(all, exp, args)
                                        && forall j :: k < j < |expectations| ==> !Ready(all, expectations[j], args)
  {
    for i := |expectations| downto 0
      invariant forall j :: i <= j < |expectations| ==> !Ready(all, expectations[j], args)
    {
      var handles := expectations[i].ShouldHandleArguments(all, args);
      if handles {
        return expectations[i];
      }
    }
    exp := null;
  }

  // ---------------------------------------------------------------- runs of calls

  /** A call of a mock function: the expectations set on it, and the arguments. */
  datatype Call = Call(expectations: seq<Expectation>, args: int)

  datatype Outcome = Unexpected | Handled(expectation: Expectation, excessive: bool)

  /** How often each expectation has been called, and which ones are retired. */
  datatype Snapshot = Snapshot(count: map<Expectation, nat>, retired: set<Expectation>)

  ghost function Now(all: set<Expectation>): Snapshot
    reads all
  {
    Snapshot(map e | e in all :: e.callCount, set e | e in all && e.retired)
  }

  ghost predicate ReadyIn(all: set<Expectation>, s: Snapshot, e: Expectation, args: int)
    requires s.count.Keys == all
  {
    && e !in s.retired && e.accepts(args)
    && forall p | p in all && Prerequisite(e, p) :: p.min <= s.count[p] <= p.max
  }

  /** The call goes to the newest expectation that is ready for it. */
  ghost predicate GoesTo(all: set<Expectation>, s: Snapshot, call: Call, e: Expectation)
    requires s.count.Keys == all
  {
    exists k :: 0 <= k < |call.expectations| && call.expectations[k] == e && ReadyIn(all, s, e, call.args)
                && forall j :: k < j < |call.expectations| ==> !ReadyIn(all, s, call.expectations[j], call.args)
  }

  /** What a handled call retires. */
  ghost function NewlyRetired(all: set<Expectation>, s: Snapshot, e: Expectation, excessive: bool): set<Expectation>
    requires s.count.Keys == all && e in all
  {
    set p | p in all && !excessive && (Prerequisite(e, p) || (p == e && e.retiresOnSaturation && s.count[e] + 1 >= e.max))
  }

  /** One call takes `s` to `s'` with this outcome. */
  ghost predicate Step(all: set<Expectation>, s: Snapshot, call: Call, outcome: Outcome, s': Snapshot) {
    && s.count.Keys == all
    && match outcome
       case Unexpected => (forall e | e in call.expectations :: !ReadyIn(all, s, e, call.args)) && s' == s
       case Handled(e, excessive) =>
         && e in all && GoesTo(all, s, call, e)
         && (excessive <==> s.count[e] >= e.max)
         && s' == Snapshot(s.count[e := s.count[e] + 1], s.retired + NewlyRetired(all, s, e, excessive))
  }

  /** The outcomes of the calls, one after another, through these states. */
  ghost predicate IsRun(all: set<Expectation>, calls: seq<Call>, trace: seq<Outcome>, states: seq<Snapshot>) {
    && |trace| == |calls| && |states| == |calls| + 1
    && forall k :: 0 <= k < |calls| ==> Step(all, states[k], calls[k], trace[k], states[k + 1])
  }

  method HandleCall(ghost all: set<Expectation>, call: Call) returns (outcome: Outcome)
    requires PrerequisitesIn(all) && Acyclic(all) && RetiredAreClosed(all)
    requires forall e | e in call.expectations :: e in all
    modifies all`retired, all`callCount
    ensures RetiredAreClosed(all)
    ensures Step(all, old(Now(all)), call, outcome, Now(all))
  {
    var exp := FindReady(all, call);
    if exp == null {
      return Unexpected;
    }
    var excessive := Perform(all, exp);
    outcome := Handled(exp, excessive);
  }

  /** The result of `FindMatchingExpectation`, on the snapshot. */
  method FindReady(ghost all: set<Expectation>, call: Call) returns (exp: Expectation?)
    requires PrerequisitesIn(all) && Acyclic(all) && forall e | e in call.expectations :: e in all
    ensures exp == null ==> forall e | e in call.expectations :: !ReadyIn(all, Now(all), e, call.args)
    ensures exp != null ==> exp in all && GoesTo(all, Now(all), call, exp)
  {
    forall e | e in call.expectations ensures Ready(all, e, call.args) <==> ReadyIn(all, Now(all), e, call.args) {
    }
    exp := FindMatchingExpectation(all, call.expectations, call.args);
  }

  /** The effect of `GetActionForArguments` on the snapshot. */
  method Perform(ghost all: set<Expectation>, exp: Expectation) returns (excessive: bool)
    requires exp in all && PrerequisitesIn(all) && RetiredAreClosed(all)
    modifies all`retired, exp`callCount
    ensures RetiredAreClosed(all)
    ensures var s := old(Now(all));
            && (excessive <==> s.count[exp] >= exp.max)
            && Now(all) == Snapshot(s.count[exp := s.count[exp] + 1], s.retired + NewlyRetired(all, s, exp, excessive))
  {
    ghost var s := Now(all);
    excessive := exp.GetActionForArguments(all);
    ghost var t := Now(all);
    forall e | e in all ensures t.count[e] == s.count[exp := s.count[exp] + 1][e] {
    }
    SameMap(t.count, s.count[exp := s.count[exp] + 1]);
    forall e ensures e in t.retired <==> e in s.retired + NewlyRetired(all, s, exp, excessive) {
    }
    SameSet(t.retired, s.retired + NewlyRetired(all, s, exp, excessive));
  }

  lemma {:induction false} SameMap<T, U>(a: map<T, U>, b: map<T, U>)
    requires a.Keys == b.Keys && forall k | k in a :: a[k] == b[k]
    ensures a == b
  {
  }

  lemma {:induction false} SameSet<T>(a: set<T>, b: set<T>)
    requires forall x :: x in a <==> x in b
    ensures a == b
  {
  }

  /** Any sequence of calls; `states` are the snapshots before and after each of them. */
  method HandleCalls(ghost all: set<Expectation>, calls: seq<Call>)
    returns (trace: seq<Outcome>, ghost states: seq<Snapshot>)
    requires PrerequisitesIn(all) && Acyclic(all) && RetiredAreClosed(all)
    requires forall c, e | c in calls && e in c.expectations :: e in all
    modifies all`retired, all`callCount
    ensures RetiredAreClosed(all)
    ensures IsRun(all, calls, trace, states)
    ensures states[0] == old(Now(all)) && states[|calls|] == Now(all)
  {
    trace, states := [], [Now(all)];
    for n := 0 to |calls|
      invariant RetiredAreClosed(all)
      invariant IsRun(all, calls[..n], trace, states)
      invariant states[0] == old(Now(all)) && states[n] == Now(all)
    {
      assert calls[n] in calls;
      ghost var before := states;
      var outcome := HandleCall(all, calls[n]);
      RunSnoc(all, calls[..n], trace, states, calls[n], outcome, Now(all));
      assert calls[..n + 1] == calls[..n] + [calls[n]];
      trace, states := trace + [outcome], states + [Now(all)];
    }
    assert calls[..|calls|] == calls;
  }

  lemma {:induction false} RunSnoc(all: set<Expectation>, calls: seq<Call>, trace: seq<Outcome>, states: seq<Snapshot>,
                                   call: Call, outcome: Outcome, s: Snapshot)
    requires IsRun(all, calls, trace, states) && Step(all, states[|calls|], call, outcome, s)
    ensures IsRun(all, calls + [call], trace + [outcome], states + [s])
  {
    var calls', trace', states' := calls + [call], trace + [outcome], states + [s];
    forall k | 0 <= k < |calls'| ensures Step(all, states'[k], calls'[k], trace'[k], states'[k + 1]) {
      if k < |calls| {
        assert Step(all, states[k], calls[k], trace[k], states[k + 1]);
      }
    }
  }

  lemma {:induction false} RetiredStay(all: set<Expectation>, calls: seq<Call>, trace: seq<Outcome>,
                                       states: seq<Snapshot>,
                                       i: nat, j: nat)
    requires IsRun(all, calls, trace, states) && i <= j <= |calls|
    ensures states[i].retired <= states[j].retired
    decreases j
  {
    if i < j {
      RetiredStay(all, calls, trace, states, i, j - 1);
      assert Step(all, states[j - 1], calls[j - 1], trace[j - 1], states[j - 1 + 1]);
    }
  }

  /** After an expectation has handled a call that was not excessive, none of its prerequisites
      handles another one, whatever calls are made. */
  lemma {:induction false} PrerequisitesComeFirst(all: set<Expectation>, calls: seq<Call>, trace: seq<Outcome>,
                                                  states: seq<Snapshot>, i: nat, j: nat)
    requires IsRun(all, calls, trace, states) && i < j < |calls|
    requires trace[i].Handled? && !trace[i].excessive && trace[j].Handled?
    ensures !Prerequisite(trace[i].expectation, trace[j].expectation)
  {
    var e, f := trace[i].expectation, trace[j].expectation;
    assert Step(all, states[i], calls[i], trace[i], states[i + 1]);
    assert forall p | p in all && Prerequisite(e, p) :: p in NewlyRetired(all, states[i], e, false);
    RetiredStay(all, calls, trace, states, i + 1, j);
    assert forall p | p in all && Prerequisite(e, p) :: p in states[j].retired;
    assert Step(all, states[j], calls[j], trace[j], states[j + 1]);
  }

  function Times(trace: seq<Outcome>, e: Expectation): nat {
    if trace == [] then 0
    else
      var last := trace[|trace| - 1];
      Times(trace[..|trace| - 1], e) + if last.Handled? && last.expectation == e then 1 else 0
  }

  /** Every handled call is counted once, for the expectation that handled it. */
  lemma {:induction false} CallsAreCounted(all: set<Expectation>, calls: seq<Call>, trace: seq<Outcome>,
                                           states: seq<Snapshot>,
                                           n: nat, e: Expectation)
    requires IsRun(all, calls, trace, states) && n <= |calls| && e in all && states[0].count.Keys == all
    ensures states[n].count.Keys == all && states[n].count[e] == states[0].count[e] + Times(trace[..n], e)
    decreases n
  {
    if n > 0 {
      CallsAreCounted(all, calls, trace, states, n - 1, e);
      assert Step(all, states[n - 1], calls[n - 1], trace[n - 1], states[n - 1 + 1]);
      assert trace[..n][..n - 1] == trace[..n - 1];
    }
  }
}
