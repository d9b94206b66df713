/** The selection of the tests that a shard runs, after `FilterTests` of gtest.cc. */
module TestSharding {
  import opened Text
  import opened TestFilter

  // ---------------------------------------------------------------- shards

  /** `ShouldShard`, given the two environment values (-1 when unset); inconsistent values end the
      program. */
  function ShouldShard(totalShards: int, shardIndex: int, inSubprocess: bool): (r: Option<bool>)
    ensures r == Some(true) <==> !inSubprocess && 0 <= shardIndex < totalShards && totalShards > 1
    ensures r == None <==>
            !inSubprocess && !(totalShards == -1 && shardIndex == -1) && !(0 <= shardIndex < totalShards)
  {
    if inSubprocess then Some(false)
    else if totalShards == -1 && shardIndex == -1 then Some(false)
    else if totalShards == -1 || shardIndex == -1 then None
    else if shardIndex < 0 || shardIndex >= totalShards then None
    else Some(totalShards > 1)
  }

  lemma {:induction false} NextRemainder(n: nat, d: nat)
    requires d > 0
    ensures (n + 1) % d == if n % d + 1 == d then 0 else n % d + 1
  {
    var q, r := n / d, n % d;
    assert n == q * d + r;
    if r + 1 == d {
      assert n + 1 == (q + 1) * d + 0;
      RemainderIs(n + 1, d, q + 1, 0);
    } else {
      RemainderIs(n + 1, d, q, r + 1);
    }
  }

  lemma {:induction false} RemainderIs(n: nat, d: nat, q: nat, r: nat)
    requires r < d && n == q * d + r
    ensures n % d == r
  {
    var q', r' := n / d, n % d;
    assert n == q' * d + r';
    Distance(q', q, d);
    Distance(q, q', d);
  }

  lemma {:induction false} Distance(a: int, b: int, d: nat)
    ensures a < b ==> a * d + d <= b * d
  {
    if a < b {
      Grows(a + 1, b, d);
      assert (a + 1) * d == a * d + d;
    }
  }

  lemma {:induction false} Grows(a: int, b: int, d: nat)
    requires a <= b
    ensures a * d <= b * d
  {
  }

  predicate ShouldRunTestOnShard(totalShards: nat, shardIndex: nat, testId: nat)
    requires totalShards > 0
  {
    testId % totalShards == shardIndex
  }

  /** A shard runs every `totalShards`-th test, counted from its own index on. */
  lemma {:induction false} ShardRunsEveryNth(totalShards: nat, shardIndex: nat, testId: nat)
    requires shardIndex < totalShards
    ensures ShouldRunTestOnShard(totalShards, shardIndex, testId) <==> exists q: nat :: testId == q * totalShards + shardIndex
  {
    if ShouldRunTestOnShard(totalShards, shardIndex, testId) {
      assert testId == testId / totalShards * totalShards + shardIndex;
    }
    if q: nat :| testId == q * totalShards + shardIndex {
      RemainderIs(testId, totalShards, q, shardIndex);
    }
  }

  /** How many of the first `n` runnable tests one shard runs. */
  function ShardCount(n: nat, totalShards: nat, shardIndex: nat): nat
    requires totalShards > 0
  {
    if n == 0 then 0
    else ShardCount(n - 1, totalShards, shardIndex) + if ShouldRunTestOnShard(totalShards, shardIndex, n - 1) then 1 else 0
  }

  /** How many tests the first `k` shards run together. */
  function ShardSum(n: nat, totalShards: nat, k: nat): nat
    requires totalShards > 0
  {
    if k == 0 then 0 else ShardSum(n, totalShards, k - 1) + ShardCount(n, totalShards, k - 1)
  }

  lemma {:induction false} NoTests(totalShards: nat, k: nat)
    requires totalShards > 0
    ensures ShardSum(0, totalShards, k) == 0
  {
    if k > 0 { NoTests(totalShards, k - 1); }
  }

  lemma {:induction false} OneMoreTest(n: nat, totalShards: nat, k: nat)
    requires totalShards > 0
    ensures ShardSum(n + 1, totalShards, k) == ShardSum(n, totalShards, k) + if n % totalShards < k then 1 else 0
  {
    if k > 0 { OneMoreTest(n, totalShards, k - 1); }
  }

  /** The shards together run every runnable test once. */
  lemma {:induction false} ShardsSumToAll(n: nat, totalShards: nat)
    requires totalShards > 0
    ensures ShardSum(n, totalShards, totalShards) == n
  {
    if n == 0 {
      NoTests(totalShards, totalShards);
    } else {
      ShardsSumToAll(n - 1, totalShards);
      OneMoreTest(n - 1, totalShards, totalShards);
    }
  }

  /** The shards have run `n` tests in turn: `q` full rounds and `r` of the next. */
  lemma {:induction false} ShardRounds(n: nat, totalShards: nat) returns (q: nat)
    requires totalShards > 0
    ensures forall k: nat :: k < totalShards ==> ShardCount(n, totalShards, k) == q + if k < n % totalShards then 1 else 0
  {
    if n == 0 {
      q := 0;
    } else {
      q := ShardRounds(n - 1, totalShards);
      NextRemainder(n - 1, totalShards);
      if n % totalShards == 0 {
        q := q + 1;
      }
    }
  }

  /** No shard runs two tests more than another. */
  lemma {:induction false} ShardsAreBalanced(n: nat, totalShards: nat, a: nat, b: nat)
    requires a < totalShards && b < totalShards
    ensures ShardCount(n, totalShards, a) <= ShardCount(n, totalShards, b) + 1
  {
    var q := ShardRounds(n, totalShards);
  }

  // ---------------------------------------------------------------- tests

  class TestInfo {
    const name: CString
    var isDisabled: bool
    var matchesFilter: bool
    var isInAnotherShard: bool
    var shouldRun: bool

    constructor (name: CString)
      ensures this.name == name && !shouldRun
    {
      this.name := name;
      isDisabled, matchesFilter, isInAnotherShard, shouldRun := false, false, false, false;
    }
  }

  class TestSuite {
    const name: CString
    const tests: seq<TestInfo>
    var shouldRun: bool

    constructor (name: CString, tests: seq<TestInfo>)
      ensures this.name == name && this.tests == tests && !shouldRun
    {
      this.name, this.tests, this.shouldRun := name, tests, false;
    }
  }

  datatype Flags = Flags(filter: CString, alsoRunDisabled: bool)

  ghost predicate IsDisabled(suite: CString, test: CString) {
    IsDisabledName(suite) || IsDisabledName(test)
  }

  ghost predicate Runnable(flags: Flags, suite: CString, test: CString) {
    (flags.alsoRunDisabled || !IsDisabled(suite, test)) && FlagSelects(flags.filter, suite + "." + test)
  }

  /** The runnable ones among the first `j` tests of a suite. */
  ghost function RunnableIn(flags: Flags, suite: TestSuite, j: nat): nat
    requires j <= |suite.tests|
  {
    if j == 0 then 0
    else RunnableIn(flags, suite, j - 1) + if Runnable(flags, suite.name, suite.tests[j - 1].name) then 1 else 0
  }

  ghost function AllRunnable(flags: Flags, suites: seq<TestSuite>): nat {
    if suites == [] then 0
    else
      var last := suites[|suites| - 1];
      AllRunnable(flags, suites[..|suites| - 1]) + RunnableIn(flags, last, |last.tests|)
  }

  /** Which of the tests are run: all runnable ones, or those of one shard. */
  datatype Sharding = Ignore | Honor(totalShards: nat, shardIndex: nat) {
    predicate Valid() {
      Honor? ==> shardIndex < totalShards
    }

    predicate Runs(testId: nat)
      requires Valid()
    {
      Honor? ==> ShouldRunTestOnShard(totalShards, shardIndex, testId)
    }

    /** How many of the first `n` runnable tests are run. */
    function Count(n: nat): nat
      requires Valid()
    {
      if n == 0 then 0 else Count(n - 1) + if Runs(n - 1) then 1 else 0
    }
  }

  lemma {:induction false} CountIsShardCount(sharding: Sharding, n: nat)
    requires sharding.Valid()
    ensures sharding.Count(n) == if sharding.Ignore? then n else ShardCount(n, sharding.totalShards, sharding.shardIndex)
  {
    if n > 0 { CountIsShardCount(sharding, n - 1); }
  }

  lemma {:induction false} CountStep(sharding: Sharding, n: nat, isRunnable: bool)
    requires sharding.Valid()
    ensures sharding.Count(if isRunnable then n + 1 else n) == sharding.Count(n) + if isRunnable && sharding.Runs(n) then 1 else 0
  {
  }

  ghost predicate Selected(flags: Flags, sharding: Sharding, suite: TestSuite, j: nat, before: nat)
    requires sharding.Valid() && j < |suite.tests|
  {
    Runnable(flags, suite.name, suite.tests[j].name) && sharding.Runs(before + RunnableIn(flags, suite, j))
  }

  /** A runnable test is selected in exactly one shard. */
  lemma {:induction false} EachTestInOneShard(flags: Flags, suite: TestSuite, j: nat, before: nat, totalShards: nat)
    requires j < |suite.tests| && totalShards > 0 && Runnable(flags, suite.name, suite.tests[j].name)
    ensures exists k: nat :: k < totalShards && Selected(flags, Honor(totalShards, k), suite, j, before)
    ensures forall a: nat, b: nat | a < totalShards && b < totalShards ::
              Selected(flags, Honor(totalShards, a), suite, j, before) && Selected(flags, Honor(totalShards, b), suite, j, before) ==> a == b
  {
    var k := (before + RunnableIn(flags, suite, j)) % totalShards;
    assert Selected(flags, Honor(totalShards, k), suite, j, before);
  }

  /** The first `n` tests of a suite. */
  ghost function FirstTests(suite: TestSuite, n: nat): set<TestInfo>
    requires n <= |suite.tests|
  {
    if n == 0 then {} else FirstTests(suite, n - 1) + {suite.tests[n - 1]}
  }

  lemma {:induction false} FirstTestsAre(suite: TestSuite, n: nat)
    requires n <= |suite.tests|
    ensures forall t :: t in FirstTests(suite, n) ==> t in suite.tests
  {
    if n > 0 { FirstTestsAre(suite, n - 1); }
  }

  ghost function TestsOf(suite: TestSuite): set<TestInfo> {
    FirstTests(suite, |suite.tests|)
  }

  ghost predicate DistinctTo(suite: TestSuite, n: nat)
    requires n <= |suite.tests|
  {
    n == 0 || (DistinctTo(suite, n - 1) && suite.tests[n - 1] !in FirstTests(suite, n - 1))
  }

  ghost predicate DistinctTests(suite: TestSuite) {
    DistinctTo(suite, |suite.tests|)
  }

  lemma {:induction false} NewTest(suite: TestSuite, n: nat, j: nat)
    requires j < n <= |suite.tests| && DistinctTo(suite, n)
    ensures suite.tests[j] !in FirstTests(suite, j) && suite.tests[j] in FirstTests(suite, n)
  {
    if j < n - 1 { NewTest(suite, n - 1, j); }
  }

  ghost function AllSuites(suites: seq<TestSuite>): set<TestSuite> {
    if suites == [] then {} else AllSuites(suites[..|suites| - 1]) + {suites[|suites| - 1]}
  }

  ghost function AllTests(suites: seq<TestSuite>): set<TestInfo> {
    if suites == [] then {} else AllTests(suites[..|suites| - 1]) + TestsOf(suites[|suites| - 1])
  }

  lemma {:induction false} AllOf(suites: seq<TestSuite>)
    ensures forall s :: s in AllSuites(suites) ==> s in suites
    ensures forall t :: t in AllTests(suites) ==> exists k :: 0 <= k < |suites| && t in suites[k].tests
  {
    if suites != [] {
      var front, last := suites[..|suites| - 1], suites[|suites| - 1];
      AllOf(front);
      FirstTestsAre(last, |last.tests|);
      forall t | t in AllTests(suites) ensures exists k :: 0 <= k < |suites| && t in suites[k].tests {
        if t in AllTests(front) {
          var k :| 0 <= k < |front| && t in front[k].tests;
          assert t in suites[k].tests;
        } else {
          assert t in suites[|suites| - 1].tests;
        }
      }
    }
  }

  /** Every test and every suite is there once. */
  ghost predicate Distinct(suites: seq<TestSuite>) {
    suites == [] ||
    (var front, last := suites[..|suites| - 1], suites[|suites| - 1];
     && Distinct(front) && DistinctTests(last)
     && last !in AllSuites(front) && TestsOf(last) !! AllTests(front))
  }

  /** For each of the first `n` tests of a suite, whether it is selected. */
  ghost function Choices(flags: Flags, sharding: Sharding, suite: TestSuite, before: nat, n: nat): (choices: seq<bool>)
    requires sharding.Valid() && n <= |suite.tests|
    ensures |choices| == n
  {
    if n == 0 then [] else Choices(flags, sharding, suite, before, n - 1) + [Selected(flags, sharding, suite, n - 1, before)]
  }

  lemma {:induction false} ChoiceIs(flags: Flags, sharding: Sharding, suite: TestSuite, before: nat, n: nat, j: nat)
    requires sharding.Valid() && j < n <= |suite.tests|
    ensures Choices(flags, sharding, suite, before, n)[j] <==> Selected(flags, sharding, suite, j, before)
  {
    if j < n - 1 { ChoiceIs(flags, sharding, suite, before, n - 1, j); }
  }

  ghost predicate Chosen(suite: TestSuite, choices: seq<bool>)
    requires |choices| <= |suite.tests|
    reads FirstTests(suite, |choices|)
  {
    choices == [] ||
    (var n := |choices| - 1; Chosen(suite, choices[..n]) && suite.tests[n].shouldRun == choices[n])
  }

  lemma {:induction false} ChosenSnoc(suite: TestSuite, choices: seq<bool>, choice: bool)
    requires |choices| < |suite.tests| && Chosen(suite, choices) && suite.tests[|choices|].shouldRun == choice
    ensures Chosen(suite, choices + [choice])
  {
    assert (choices + [choice])[..|choices|] == choices;
  }

  ghost predicate Filtered(flags: Flags, sharding: Sharding, suite: TestSuite, before: nat)
    requires sharding.Valid()
    reads suite, TestsOf(suite)
  {
    var choices := Choices(flags, sharding, suite, before, |suite.tests|);
    Chosen(suite, choices) && suite.shouldRun == (true in choices)
  }

  ghost predicate AllFiltered(flags: Flags, sharding: Sharding, suites: seq<TestSuite>)
    requires sharding.Valid()
    reads AllSuites(suites), AllTests(suites)
  {
    suites == [] ||
    (var front, last := suites[..|suites| - 1], suites[|suites| - 1];
     && AllFiltered(flags, sharding, front)
     && Filtered(flags, sharding, last, AllRunnable(flags, front)))
  }

  /** After `FilterTests` exactly the selected tests are to be run, and the suites that hold one. */
  lemma {:induction false} FilteredMeansSelected(flags: Flags, sharding: Sharding, suite: TestSuite, before: nat)
    requires sharding.Valid() && Filtered(flags, sharding, suite, before)
    ensures forall j: nat :: j < |suite.tests| ==> (suite.tests[j].shouldRun <==> Selected(flags, sharding, suite, j, before))
    ensures suite.shouldRun <==> exists t :: t in suite.tests && t.shouldRun
  {
    var choices := Choices(flags, sharding, suite, before, |suite.tests|);
    forall j: nat | j < |suite.tests| ensures suite.tests[j].shouldRun <==> Selected(flags, sharding, suite, j, before) {
      ChosenAt(suite, choices, j);
      ChoiceIs(flags, sharding, suite, before, |suite.tests|, j);
    }
    SomeChosen(suite, choices);
  }

  lemma {:induction false} ChosenAt(suite: TestSuite, choices: seq<bool>, j: nat)
    requires j < |choices| <= |suite.tests| && Chosen(suite, choices)
    ensures suite.tests[j].shouldRun == choices[j]
  {
    if j < |choices| - 1 { ChosenAt(suite, choices[..|choices| - 1], j); }
  }

  lemma {:induction false} SomeChosen(suite: TestSuite, choices: seq<bool>)
    requires |choices| == |suite.tests| && Chosen(suite, choices)
    ensures true in choices <==> exists t :: t in suite.tests && t.shouldRun
  {
    if true in choices {
      var j :| 0 <= j < |choices| && choices[j];
      ChosenAt(suite, choices, j);
      assert suite.tests[j].shouldRun;
    }
    forall t | t in suite.tests && t.shouldRun ensures true in choices {
      var j :| 0 <= j < |suite.tests| && suite.tests[j] == t;
      ChosenAt(suite, choices, j);
      assert choices[j];
    }
  }

  /** The suites before the `i`th share nothing with it. */
  lemma {:induction false} Apart(suites: seq<TestSuite>, i: nat)
    requires Distinct(suites) && i < |suites|
    ensures suites[i] !in AllSuites(suites[..i]) && TestsOf(suites[i]) !! AllTests(suites[..i]) && DistinctTests(suites[i])
    ensures suites[i] in AllSuites(suites) && TestsOf(suites[i]) <= AllTests(suites)
    decreases |suites|
  {
    if i < |suites| - 1 {
      var front := suites[..|suites| - 1];
      assert front[..i] == suites[..i];
      Apart(front, i);
    }
  }

  /** What the outer loop needs to know about the suite at `i`. */
  lemma {:induction false} NextSuite(suites: seq<TestSuite>, i: nat)
    requires Distinct(suites) && i < |suites|
    ensures suites[i] !in AllSuites(suites[..i]) && TestsOf(suites[i]) !! AllTests(suites[..i]) && DistinctTests(suites[i])
    ensures suites[i] in AllSuites(suites) && TestsOf(suites[i]) <= AllTests(suites)
    ensures suites[..i + 1] == suites[..i] + [suites[i]]
  {
    Apart(suites, i);
  }

  method FilterTests(suites: seq<TestSuite>, flags: Flags, sharding: Sharding) returns (selected: nat)
    requires Distinct(suites) && sharding.Valid()
    modifies AllSuites(suites), AllTests(suites)
    ensures selected == sharding.Count(AllRunnable(flags, suites))
    ensures AllFiltered(flags, sharding, suites)
  {
    var runnable := 0;
    selected := 0;
    ghost var done: seq<TestSuite> := [];
    for i := 0 to |suites|
      invariant done == suites[..i] && selected == sharding.Count(runnable)
      invariant runnable == AllRunnable(flags, done) && AllFiltered(flags, sharding, done)
    {
      NextSuite(suites, i);
      runnable, selected := FilterNext(done, suites[i], flags, sharding, runnable, selected);
      done := done + [suites[i]];
    }
    assert done == suites;
  }

  /** The body of the outer loop. */
  method FilterNext(ghost done: seq<TestSuite>, suite: TestSuite, flags: Flags, sharding: Sharding, before: nat,
                    selectedBefore: nat)
    returns (runnable: nat, selected: nat)
    requires DistinctTests(suite) && suite !in AllSuites(done) && TestsOf(suite) !! AllTests(done) && sharding.Valid()
    requires before == AllRunnable(flags, done) && selectedBefore == sharding.Count(before)
    requires AllFiltered(flags, sharding, done)
    modifies suite, TestsOf(suite)
    ensures runnable == AllRunnable(flags, done + [suite]) && selected == sharding.Count(runnable)
    ensures AllFiltered(flags, sharding, done + [suite])
  {
    AllOf(done);
    runnable, selected := FilterSuite(suite, flags, sharding, before, selectedBefore);
    ghost var all := done + [suite];
    assert all[..|all| - 1] == done && all[|all| - 1] == suite;
  }

  /** The inner loop, for the tests of one suite. */
  method FilterSuite(suite: TestSuite, flags: Flags, sharding: Sharding, before: nat, selectedBefore: nat)
    returns (runnable: nat, selected: nat)
    requires DistinctTests(suite) && sharding.Valid() && selectedBefore == sharding.Count(before)
    modifies suite, TestsOf(suite)
    ensures runnable == before + RunnableIn(flags, suite, |suite.tests|) && selected == sharding.Count(runnable)
    ensures Filtered(flags, sharding, suite, before)
  {
    runnable, selected := before, selectedBefore;
    suite.shouldRun := false;
    ghost var choices: seq<bool> := [];
    for j := 0 to |suite.tests|
      invariant runnable == before + RunnableIn(flags, suite, j) && selected == sharding.Count(runnable)
      invariant choices == Choices(flags, sharding, suite, before, j) && Chosen(suite, choices)
      invariant suite.shouldRun == (true in choices)
    {
      FirstTestsAre(suite, |suite.tests|);
      NewTest(suite, |suite.tests|, j);
      var isRunnable, isSelected := FilterAt(suite, j, flags, sharding, runnable, choices);
      CountStep(sharding, runnable, isRunnable);
      choices := choices + [isSelected];
      runnable := if isRunnable then runnable + 1 else runnable;
      selected := if isSelected then selected + 1 else selected;
    }
  }

  /** The test at `j`, and what it means for its suite. */
  method FilterAt(suite: TestSuite, j: nat, flags: Flags, sharding: Sharding, runnable: nat, ghost choices: seq<bool>)
    returns (isRunnable: bool, isSelected: bool)
    requires DistinctTests(suite) && |choices| == j < |suite.tests| && sharding.Valid()
    requires Chosen(suite, choices) && suite.shouldRun == (true in choices)
    modifies suite, suite.tests[j]
    ensures isRunnable <==> Runnable(flags, suite.name, suite.tests[j].name)
    ensures isSelected <==> isRunnable && sharding.Runs(runnable)
    ensures Chosen(suite, choices + [isSelected]) && suite.shouldRun == (true in choices + [isSelected])
  {
    NewTest(suite, |suite.tests|, j);
    FirstTestsAre(suite, j);
    isRunnable, isSelected := FilterTest(suite.name, suite.tests[j], flags, sharding, runnable);
    assert Chosen(suite, choices);
    suite.shouldRun := suite.shouldRun || isSelected;
    ChosenSnoc(suite, choices, isSelected);
  }

  /** The body of the inner loop; `runnable` is the number of the test. */
  method FilterTest(suite: CString, test: TestInfo, flags: Flags, sharding: Sharding, runnable: nat)
    returns (isRunnable: bool, isSelected: bool)
    requires sharding.Valid()
    modifies test
    ensures isRunnable <==> Runnable(flags, suite, test.name)
    ensures isSelected == test.shouldRun == (isRunnable && sharding.Runs(runnable))
    ensures test.isDisabled <==> IsDisabled(suite, test.name)
    ensures test.matchesFilter <==> FlagSelects(flags.filter, suite + "." + test.name)
    ensures test.isInAnotherShard <==> !sharding.Runs(runnable)
  {
    var suiteDisabled := MatchesFilter(suite, DISABLE_TEST_FILTER);
    var testDisabled := MatchesFilter(test.name, DISABLE_TEST_FILTER);
    DisabledNames(suite);
    DisabledNames(test.name);
    test.isDisabled := suiteDisabled || testDisabled;
    var matches := FilterMatchesTest(flags.filter, suite, test.name);
    test.matchesFilter := matches;
    isRunnable := (flags.alsoRunDisabled || !test.isDisabled) && test.matchesFilter;
    test.isInAnotherShard := !sharding.Runs(runnable);
    isSelected := isRunnable && !test.isInAnotherShard;
    test.shouldRun := isSelected;
  }
}
