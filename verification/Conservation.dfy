/** Nothing is lost, duplicated or misrouted between the mappers and the reducers: the
    groups that the reducers see together are those of one sequential run. */
module Conservation {
  import opened Text
  import opened Utility
  import opened MapReduce

  /** How often `x` occurs in `xs`. */
  function Count<T(==)>(xs: seq<T>, x: T): nat {
    if xs == [] then 0 else Count(xs[..|xs| - 1], x) + if xs[|xs| - 1] == x then 1 else 0
  }

  lemma {:induction false} CountIsMultiplicity<T>(xs: seq<T>, x: T)
    ensures Count(xs, x) == multiset(xs)[x]
  {
    if xs != [] {
      CountIsMultiplicity(xs[..|xs| - 1], x);
      assert xs == xs[..|xs| - 1] + [xs[|xs| - 1]];
    }
  }

  lemma {:induction false} CountSnoc<T>(xs: seq<T>, y: T, x: T)
    ensures Count(xs + [y], x) == Count(xs, x) + if y == x then 1 else 0
  {
    assert (xs + [y])[..|xs|] == xs;
  }

  lemma {:induction false} CountConcat<T>(a: seq<T>, b: seq<T>, x: T)
    ensures Count(a + b, x) == Count(a, x) + Count(b, x)
  {
    if b == [] {
      assert a + b == a;
    } else {
      var front, last := b[..|b| - 1], b[|b| - 1];
      ByLast(a, b);
      CountConcat(a, front, x);
      CountSnoc(a + front, last, x);
      CountSnoc(front, last, x);
    }
  }

  // ---------------------------------------------------------------- lines to mappers

  ghost function SumTo(f: nat -> nat, n: nat): nat {
    if n == 0 then 0 else SumTo(f, n - 1) + f(n - 1)
  }

  /** Two sums of which one has `more` in the place `at`. */
  lemma {:induction false} SumStep(f: nat -> nat, g: nat -> nat, at: nat, more: nat, n: nat)
    requires forall m: nat :: f(m) == g(m) + if m == at then more else 0
    ensures SumTo(f, n) == SumTo(g, n) + if at < n then more else 0
    decreases n
  {
    if n > 0 { SumStep(f, g, at, more, n - 1); }
  }

  /** How often the first `nm` mappers together have emitted `p` on the first `n` lines. */
  ghost function MappersCount(cfg: Config, nm: nat, n: nat, p: Pair): nat
    requires cfg.nrMapper >= 1 && n <= |cfg.lines|
  {
    SumTo(m => Count(Emitted(cfg, m, n), p), nm)
  }

  lemma {:induction false} MappersStep(cfg: Config, nm: nat, n: nat, p: Pair)
    requires cfg.nrMapper >= 1 && 0 < n <= |cfg.lines|
    ensures MappersCount(cfg, nm, n, p) == MappersCount(cfg, nm, n - 1, p) +
                                           if cfg.LineOwner(n - 1) < nm then Count(LinePairs(cfg, n - 1), p) else 0
  {
    var f := (m: nat) => Count(Emitted(cfg, m, n), p);
    var g := (m: nat) => Count(Emitted(cfg, m, n - 1), p);
    forall m: nat ensures f(m) == g(m) + if m == cfg.LineOwner(n - 1) then Count(LinePairs(cfg, n - 1), p) else 0 {
      EmittedStep(cfg, m, n, p);
    }
    SumStep(f, g, cfg.LineOwner(n - 1), Count(LinePairs(cfg, n - 1), p), nm);
  }

  lemma {:induction false} EmittedStep(cfg: Config, m: nat, n: nat, p: Pair)
    requires cfg.nrMapper >= 1 && 0 < n <= |cfg.lines|
    ensures Count(Emitted(cfg, m, n), p) == Count(Emitted(cfg, m, n - 1), p) +
                                            if cfg.LineOwner(n - 1) == m then Count(LinePairs(cfg, n - 1), p) else 0
  {
    CountMore(Emitted(cfg, m, n - 1), LinePairs(cfg, n - 1), cfg.LineOwner(n - 1) == m, p);
  }

  lemma {:induction false} CountMore(a: seq<Pair>, b: seq<Pair>, more: bool, p: Pair)
    ensures Count(a + (if more then b else []), p) == Count(a, p) + if more then Count(b, p) else 0
  {
    if more {
      CountConcat(a, b, p);
    } else {
      assert a + [] == a;
    }
  }

  lemma {:induction false} NothingEmittedYet(cfg: Config, nm: nat, p: Pair)
    requires cfg.nrMapper >= 1
    ensures MappersCount(cfg, nm, 0, p) == 0
  {
    if nm > 0 {
      NothingEmittedYet(cfg, nm - 1, p);
    }
  }

  /** Every line is mapped by exactly one worker: together the mappers emit each pair as
      often as one sequential mapper does. */
  lemma {:induction false} EachLineMappedOnce(cfg: Config, n: nat, p: Pair)
    requires cfg.nrMapper >= 1 && n <= |cfg.lines|
    ensures MappersCount(cfg, cfg.nrMapper, n, p) == Count(SequentialEmitted(cfg, n), p)
  {
    if n == 0 {
      NothingEmittedYet(cfg, cfg.nrMapper, p);
    } else {
      EachLineMappedOnce(cfg, n - 1, p);
      MappersStep(cfg, cfg.nrMapper, n, p);
      SequentialStep(cfg, n, p);
    }
  }

  lemma {:induction false} SequentialStep(cfg: Config, n: nat, p: Pair)
    requires 0 < n <= |cfg.lines|
    ensures Count(SequentialEmitted(cfg, n), p) == Count(SequentialEmitted(cfg, n - 1), p) + Count(LinePairs(cfg, n - 1), p)
  {
    CountConcat(SequentialEmitted(cfg, n - 1), LinePairs(cfg, n - 1), p);
  }

  // ---------------------------------------------------------------- pairs to files

  /** How often `p` lies in the files that hold `ps` for the first `nr` reducers. */
  ghost function FilesCount(cfg: Config, ps: seq<Pair>, nr: nat, p: Pair): nat
    requires cfg.nrReducer >= 1
  {
    if nr == 0 then 0 else FilesCount(cfg, ps, nr - 1, p) + Count(Routed(cfg, nr - 1, ps), p)
  }

  lemma {:induction false} RoutedCount(cfg: Config, r: nat, ps: seq<Pair>, p: Pair)
    requires cfg.nrReducer >= 1
    ensures Count(Routed(cfg, r, ps), p) == if cfg.KeyOwner(p.key) == r then Count(ps, p) else 0
  {
    if ps != [] {
      var front, last := ps[..|ps| - 1], ps[|ps| - 1];
      RoutedCount(cfg, r, front, p);
      var routed := Routed(cfg, r, front);
      if cfg.KeyOwner(last.key) == r {
        assert (routed + [last])[..|routed|] == routed;
      } else {
        assert routed + [] == routed;
      }
    }
  }

  /** Every emitted pair lands in exactly one file. */
  lemma {:induction false} EachPairFiledOnce(cfg: Config, ps: seq<Pair>, nr: nat, p: Pair)
    requires cfg.nrReducer >= 1
    ensures FilesCount(cfg, ps, nr, p) == if cfg.KeyOwner(p.key) < nr then Count(ps, p) else 0
  {
    if nr > 0 {
      EachPairFiledOnce(cfg, ps, nr - 1, p);
      RoutedCount(cfg, nr - 1, ps, p);
    }
  }

  /** How often `p` lies in all the files of the first `nm` mappers. */
  ghost function AllFilesCount(cfg: Config, nm: nat, p: Pair): nat
    requires cfg.Valid()
  {
    if nm == 0 then 0
    else AllFilesCount(cfg, nm - 1, p) + FilesCount(cfg, MapperPairs(cfg, nm - 1), cfg.nrReducer, p)
  }

  lemma {:induction false} AllFilesAreAllEmissions(cfg: Config, nm: nat, p: Pair)
    requires cfg.Valid()
    ensures AllFilesCount(cfg, nm, p) == MappersCount(cfg, nm, |cfg.lines|, p)
  {
    if nm > 0 {
      AllFilesAreAllEmissions(cfg, nm - 1, p);
      EachPairFiledOnce(cfg, MapperPairs(cfg, nm - 1), cfg.nrReducer, p);
    }
  }

  /** The intermediate files together hold each pair as often as one sequential mapper
      emits it. */
  lemma {:induction false} FilesConserveEmissions(cfg: Config, p: Pair)
    requires cfg.Valid()
    ensures AllFilesCount(cfg, cfg.nrMapper, p) == multiset(SequentialPairs(cfg))[p]
  {
    AllFilesAreAllEmissions(cfg, cfg.nrMapper, p);
    EachLineMappedOnce(cfg, |cfg.lines|, p);
    CountIsMultiplicity(SequentialPairs(cfg), p);
  }

  /** Files for different reducers never share a key. */
  lemma {:induction false} ReducersHaveDisjointKeys(cfg: Config, ps: seq<Pair>, qs: seq<Pair>, r: nat, r': nat)
    requires cfg.nrReducer >= 1 && r != r'
    ensures KeysOf(Routed(cfg, r, ps)) !! KeysOf(Routed(cfg, r', qs))
  {
    forall k | k in KeysOf(Routed(cfg, r, ps)) ensures k !in KeysOf(Routed(cfg, r', qs)) {
      ValuesOfAbsentKey(k, Routed(cfg, r, ps));
      RoutedValues(cfg, r, ps, k);
      ValuesOfAbsentKey(k, Routed(cfg, r', qs));
      RoutedValues(cfg, r', qs, k);
    }
  }

  // ---------------------------------------------------------------- groups

  /** The values of `k`, mapper after mapper. */
  function MapperOrder(cfg: Config, k: string, nm: nat): seq<string>
    requires cfg.nrMapper >= 1
  {
    if nm == 0 then [] else MapperOrder(cfg, k, nm - 1) + ValuesOf(k, MapperPairs(cfg, nm - 1))
  }

  lemma {:induction false} ValueCount(k: string, ps: seq<Pair>, v: string)
    ensures Count(ValuesOf(k, ps), v) == Count(ps, Pair(k, v))
  {
    if ps != [] {
      var front, p := ps[..|ps| - 1], ps[|ps| - 1];
      ValueCount(k, front, v);
      OneMoreValue(ValuesOf(k, front), p.value, p.key == k, v);
    }
  }

  lemma {:induction false} OneMoreValue(values: seq<string>, value: string, more: bool, v: string)
    ensures Count(values + (if more then [value] else []), v) == Count(values, v) + if more && value == v then 1 else 0
  {
    if more {
      CountSnoc(values, value, v);
    } else {
      assert values + [] == values;
    }
  }

  lemma {:induction false} MapperOrderCount(cfg: Config, k: string, nm: nat, v: string)
    requires cfg.nrMapper >= 1
    ensures Count(MapperOrder(cfg, k, nm), v) == MappersCount(cfg, nm, |cfg.lines|, Pair(k, v))
    decreases nm
  {
    if nm > 0 {
      MapperOrderCount(cfg, k, nm - 1, v);
      ValueCount(k, MapperPairs(cfg, nm - 1), v);
      CountConcat(MapperOrder(cfg, k, nm - 1), ValuesOf(k, MapperPairs(cfg, nm - 1)), v);
    }
  }

  /** A key's values in mapper order are a permutation of its values in line order. */
  lemma {:induction false} MapperOrderPermutesLineOrder(cfg: Config, k: string)
    requires cfg.nrMapper >= 1
    ensures multiset(MapperOrder(cfg, k, cfg.nrMapper)) == multiset(ValuesOf(k, SequentialPairs(cfg)))
  {
    forall v ensures multiset(MapperOrder(cfg, k, cfg.nrMapper))[v] == multiset(ValuesOf(k, SequentialPairs(cfg)))[v] {
      SameCount(cfg, k, v);
      CountIsMultiplicity(MapperOrder(cfg, k, cfg.nrMapper), v);
      CountIsMultiplicity(ValuesOf(k, SequentialPairs(cfg)), v);
    }
  }

  lemma {:induction false} SameCount(cfg: Config, k: string, v: string)
    requires cfg.nrMapper >= 1
    ensures Count(MapperOrder(cfg, k, cfg.nrMapper), v) == Count(ValuesOf(k, SequentialPairs(cfg)), v)
  {
    EachLineMappedOnce(cfg, |cfg.lines|, Pair(k, v));
    MapperOrderCount(cfg, k, cfg.nrMapper, v);
    ValueCount(k, SequentialPairs(cfg), v);
  }

  lemma {:induction false} MapperEmitsSequentialPairs(cfg: Config, m: nat, n: nat)
    requires cfg.nrMapper >= 1 && n <= |cfg.lines|
    ensures forall p :: p in Emitted(cfg, m, n) ==> p in SequentialEmitted(cfg, n)
  {
    if n > 0 {
      MapperEmitsSequentialPairs(cfg, m, n - 1);
    }
  }

  lemma {:induction false} CleanFiles(cfg: Config, m: nat, r: nat)
    requires cfg.Valid() && AllClean(SequentialPairs(cfg))
    ensures Parsed(TempText(cfg, m, r)) == Grouped(Routed(cfg, r, MapperPairs(cfg, m)))
  {
    var ps := Routed(cfg, r, MapperPairs(cfg, m));
    MapperEmitsSequentialPairs(cfg, m, |cfg.lines|);
    forall i | 0 <= i < |ps| ensures IsClean(ps[i]) {
      RoutedIs(cfg, r, MapperPairs(cfg, m), ps[i]);
      assert ps[i] in SequentialPairs(cfg);
    }
    RoundTrip(ps);
  }

  lemma {:induction false} MergeIs(acc: map<string, seq<string>>, data: map<string, seq<string>>, k: string)
    ensures Listed(Merge(acc, data), k) == Listed(acc, k) + Listed(data, k)
    ensures k in Merge(acc, data) <==> k in acc || k in data
  {
    if k !in acc {
      assert [] + Listed(data, k) == Listed(data, k);
    }
    if k !in data {
      assert Listed(acc, k) + [] == Listed(acc, k);
    }
  }

  lemma {:induction false} GroupsOfRouted(cfg: Config, r: nat, ps: seq<Pair>, k: string)
    requires cfg.nrReducer >= 1
    ensures Listed(Grouped(Routed(cfg, r, ps)), k) == if cfg.KeyOwner(k) == r then ValuesOf(k, ps) else []
    ensures k in Grouped(Routed(cfg, r, ps)) <==> Listed(Grouped(Routed(cfg, r, ps)), k) != []
  {
    var routed := Routed(cfg, r, ps);
    GroupedIs(routed);
    ValuesOfAbsentKey(k, routed);
    RoutedValues(cfg, r, ps, k);
  }

  /** What reducer `r` would accumulate if the pairs were handed over without any text. */
  ghost function GatheredPairs(cfg: Config, r: nat, nm: nat): map<string, seq<string>>
    requires cfg.Valid()
  {
    if nm == 0 then map[]
    else Merge(GatheredPairs(cfg, r, nm - 1), Grouped(Routed(cfg, r, MapperPairs(cfg, nm - 1))))
  }

  /** Reading `temp_m_r` yields the groups of the pairs that mapper `m` meant for `r`. */
  ghost predicate HandsOver(cfg: Config, m: nat, r: nat)
    requires cfg.Valid()
  {
    Parsed(TempText(cfg, m, r)) == Grouped(Routed(cfg, r, MapperPairs(cfg, m)))
  }

  /** Handing pairs over through text files then makes no difference. */
  lemma {:induction false} GatheredThroughFiles(cfg: Config, r: nat, nm: nat)
    requires cfg.Valid()
    requires forall m: nat :: m < nm ==> HandsOver(cfg, m, r)
    ensures FaultFree(cfg, r, nm) == GatheredPairs(cfg, r, nm)
  {
    for n := 0 to nm
      invariant FaultFree(cfg, r, n) == GatheredPairs(cfg, r, n)
    {
      OneMoreHandOver(cfg, r, n);
    }
  }

  lemma {:induction false} OneMoreHandOver(cfg: Config, r: nat, nm: nat)
    requires cfg.Valid() && HandsOver(cfg, nm, r)
    requires FaultFree(cfg, r, nm) == GatheredPairs(cfg, r, nm)
    ensures FaultFree(cfg, r, nm + 1) == GatheredPairs(cfg, r, nm + 1)
  {
  }

  /** What reducer `r` accumulates under `k`: the values of `k` in mapper order if it owns
      `k`, nothing otherwise. */
  lemma {:induction false} GatheredPairsAre(cfg: Config, r: nat, nm: nat, k: string)
    requires cfg.Valid()
    ensures Listed(GatheredPairs(cfg, r, nm), k) == if cfg.KeyOwner(k) == r then MapperOrder(cfg, k, nm) else []
    ensures k in GatheredPairs(cfg, r, nm) <==> Listed(GatheredPairs(cfg, r, nm), k) != []
  {
    if nm > 0 {
      GatheredPairsAre(cfg, r, nm - 1, k);
      GroupsOfRouted(cfg, r, MapperPairs(cfg, nm - 1), k);
      MergeIs(GatheredPairs(cfg, r, nm - 1), Grouped(Routed(cfg, r, MapperPairs(cfg, nm - 1))), k);
    }
  }

  lemma {:induction false} ReducerGroupsAre(cfg: Config, r: nat, k: string)
    requires cfg.Valid() && AllClean(SequentialPairs(cfg)) && r < cfg.nrReducer
    ensures k in ReducerGroups(cfg, r) <==> cfg.KeyOwner(k) == r && MapperOrder(cfg, k, cfg.nrMapper) != []
    ensures k in ReducerGroups(cfg, r) ==> ReducerGroups(cfg, r)[k] == MapperOrder(cfg, k, cfg.nrMapper)
  {
    forall m: nat | m < cfg.nrMapper ensures HandsOver(cfg, m, r) {
      CleanFiles(cfg, m, r);
    }
    GatheredThroughFiles(cfg, r, cfg.nrMapper);
    GatheredPairsAre(cfg, r, cfg.nrMapper, k);
  }

  /** The groups of a sequential run: all lines mapped in order, then grouped by key. */
  ghost function SequentialGroups(cfg: Config): map<string, seq<string>> {
    Grouped(SequentialPairs(cfg))
  }

  /** Each reducer has exactly the sequential groups that it owns, up to the order of the
      values within a group. */
  ghost predicate AgreesWithSequential(cfg: Config)
    requires cfg.Valid()
  {
    forall r, k :: 0 <= r < cfg.nrReducer ==>
                     && (k in ReducerGroups(cfg, r) <==> k in SequentialGroups(cfg) && cfg.KeyOwner(k) == r)
                     && (k in ReducerGroups(cfg, r) ==> multiset(ReducerGroups(cfg, r)[k]) == multiset(SequentialGroups(cfg)[k]))
  }

  lemma {:induction false} FaultFreeHoldsWords(cfg: Config, r: nat, n: nat)
    requires cfg.Valid()
    ensures forall k :: k in FaultFree(cfg, r, n) ==>
                          IsWord(k) && forall v :: v in FaultFree(cfg, r, n)[k] ==> IsWord(v)
  {
    if n > 0 {
      FaultFreeHoldsWords(cfg, r, n - 1);
      ParsedHoldsWords(TempText(cfg, n - 1, r));
    }
  }

  lemma {:induction false} SequentialKeysAre(cfg: Config, k: string)
    requires cfg.nrMapper >= 1
    ensures k in SequentialGroups(cfg) <==> MapperOrder(cfg, k, cfg.nrMapper) != []
    ensures k in SequentialGroups(cfg) ==>
              multiset(SequentialGroups(cfg)[k]) == multiset(MapperOrder(cfg, k, cfg.nrMapper))
  {
    var ps := SequentialPairs(cfg);
    GroupedIs(ps);
    ValuesOfAbsentKey(k, ps);
    MapperOrderPermutesLineOrder(cfg, k);
    assert |multiset(MapperOrder(cfg, k, cfg.nrMapper))| == |multiset(ValuesOf(k, ps))|;
  }

  /** The reducers together see the sequential groups exactly when every emitted key and
      value is non-empty and free of white space. */
  lemma {:induction false} ReducersSeeSequentialGroups(cfg: Config)
    requires cfg.Valid()
    ensures AgreesWithSequential(cfg) <==> AllClean(SequentialPairs(cfg))
  {
    if AllClean(SequentialPairs(cfg)) {
      forall r, k | 0 <= r < cfg.nrReducer
        ensures k in ReducerGroups(cfg, r) <==> k in SequentialGroups(cfg) && cfg.KeyOwner(k) == r
        ensures k in ReducerGroups(cfg, r) ==> multiset(ReducerGroups(cfg, r)[k]) == multiset(SequentialGroups(cfg)[k])
      {
        ReducerGroupsAre(cfg, r, k);
        SequentialKeysAre(cfg, k);
      }
    } else if AgreesWithSequential(cfg) {
      var groups := SequentialGroups(cfg);
      forall k | k in groups ensures IsWord(k) && forall v :: v in groups[k] ==> IsWord(v) {
        var r := cfg.KeyOwner(k);
        assert k in ReducerGroups(cfg, r);
        FaultFreeHoldsWords(cfg, r, cfg.nrMapper);
        forall v | v in groups[k] ensures IsWord(v) {
          assert v in multiset(groups[k]);
          assert v in ReducerGroups(cfg, r)[k];
        }
      }
      GroupedOfWordsIsClean(SequentialPairs(cfg));
      assert false;
    }
  }

  /** All emitted pairs grouped by key, the values of a key in mapper order. */
  ghost function MapperGroups(cfg: Config): map<string, seq<string>>
    requires cfg.Valid()
  {
    map k | k in SequentialGroups(cfg) :: MapperOrder(cfg, k, cfg.nrMapper)
  }

  /** Reducer `r` has the group of `k` exactly when it owns `k`, with the values in mapper order. */
  ghost predicate HasGroup(cfg: Config, r: nat, k: string)
    requires cfg.Valid()
  {
    && (k in ReducerGroups(cfg, r) <==> k in MapperGroups(cfg) && cfg.KeyOwner(k) == r)
    && (k in ReducerGroups(cfg, r) ==> ReducerGroups(cfg, r)[k] == MapperGroups(cfg)[k])
  }

  /** Each reducer has exactly the groups that it owns. */
  ghost predicate AgreesWithMapperOrder(cfg: Config)
    requires cfg.Valid()
  {
    forall r: nat, k :: r < cfg.nrReducer ==> HasGroup(cfg, r, k)
  }

  lemma {:induction false} CleanGroup(cfg: Config, r: nat, k: string)
    requires cfg.Valid() && r < cfg.nrReducer && AllClean(SequentialPairs(cfg))
    ensures HasGroup(cfg, r, k)
  {
    ReducerGroupsAre(cfg, r, k);
    SequentialKeysAre(cfg, k);
  }

  lemma {:induction false} GroupIsSequential(cfg: Config, r: nat, k: string)
    requires cfg.Valid() && r < cfg.nrReducer && HasGroup(cfg, r, k)
    ensures k in ReducerGroups(cfg, r) <==> k in SequentialGroups(cfg) && cfg.KeyOwner(k) == r
    ensures k in ReducerGroups(cfg, r) ==> multiset(ReducerGroups(cfg, r)[k]) == multiset(SequentialGroups(cfg)[k])
  {
    SequentialKeysAre(cfg, k);
  }

  /** The same condition decides whether the order of the values is right as well. */
  lemma {:induction false} ReducersSeeMapperGroups(cfg: Config)
    requires cfg.Valid()
    ensures AgreesWithMapperOrder(cfg) <==> AllClean(SequentialPairs(cfg))
  {
    if AllClean(SequentialPairs(cfg)) {
      forall r: nat, k | r < cfg.nrReducer ensures HasGroup(cfg, r, k) {
        CleanGroup(cfg, r, k);
      }
    } else if AgreesWithMapperOrder(cfg) {
      forall r, k | 0 <= r < cfg.nrReducer
        ensures k in ReducerGroups(cfg, r) <==> k in SequentialGroups(cfg) && cfg.KeyOwner(k) == r
        ensures k in ReducerGroups(cfg, r) ==> multiset(ReducerGroups(cfg, r)[k]) == multiset(SequentialGroups(cfg)[k])
      {
        assert HasGroup(cfg, r, k);
        GroupIsSequential(cfg, r, k);
      }
      ReducersSeeSequentialGroups(cfg);
    }
  }

  // ---------------------------------------------------------------- outputs

  ghost function OwnedKeys(cfg: Config, r: nat): set<string>
    requires cfg.Valid()
  {
    set k | k in SequentialGroups(cfg) && cfg.KeyOwner(k) == r
  }

  lemma {:induction false} AllInSorted(s: set<string>)
    ensures forall i :: 0 <= i < |SortedKeys(s)| ==> SortedKeys(s)[i] in s
  {
    assert forall i :: 0 <= i < |SortedKeys(s)| ==> SortedKeys(s)[i] in SortedKeys(s);
  }

  /** The sequential reference: map all lines, group by key with the values in mapper order, and
      reduce each key once. This is what it writes for the keys that belong to `r`, in order. */
  ghost function SequentialOutput(cfg: Config, r: nat): string
    requires cfg.Valid()
  {
    AllInSorted(OwnedKeys(cfg, r));
    PrintEntries(Reduced(cfg.program, MapperGroups(cfg), SortedKeys(OwnedKeys(cfg, r))))
  }

  lemma {:induction false} ReducedSame(program: Program, a: map<string, seq<string>>, b: map<string, seq<string>>,
                                       ks: seq<string>)
    requires forall i :: 0 <= i < |ks| ==> ks[i] in a && ks[i] in b && a[ks[i]] == b[ks[i]]
    ensures Reduced(program, a, ks) == Reduced(program, b, ks)
  {
    if ks != [] {
      ReducedSame(program, a, b, ks[..|ks| - 1]);
    }
  }

  /** For clean emissions the output files are those of the reference. */
  lemma {:induction false} OutputsAreSequential(cfg: Config, r: nat)
    requires cfg.Valid() && AllClean(SequentialPairs(cfg)) && r < cfg.nrReducer
    ensures OutputText(cfg, r) == SequentialOutput(cfg, r)
  {
    var owned, groups := OwnedKeys(cfg, r), ReducerGroups(cfg, r);
    forall k
      ensures k in groups <==> k in owned
      ensures k in groups ==> k in MapperGroups(cfg) && groups[k] == MapperGroups(cfg)[k]
    {
      OwnedGroup(cfg, r, k);
    }
    assert groups.Keys == owned;
    AllInSorted(owned);
    ReducedSame(cfg.program, groups, MapperGroups(cfg), SortedKeys(owned));
  }

  lemma {:induction false} OwnedGroup(cfg: Config, r: nat, k: string)
    requires cfg.Valid() && AllClean(SequentialPairs(cfg)) && r < cfg.nrReducer
    ensures k in ReducerGroups(cfg, r) <==> k in OwnedKeys(cfg, r)
    ensures k in ReducerGroups(cfg, r) ==> k in MapperGroups(cfg) && ReducerGroups(cfg, r)[k] == MapperGroups(cfg)[k]
  {
    CleanGroup(cfg, r, k);
    GroupIsSequential(cfg, r, k);
  }

  /** The reduce function does not look at the order of the values. */
  ghost predicate OrderInsensitive(program: Program) {
    forall k, vs, vs' :: multiset(vs) == multiset(vs') ==> program.reduceFn(k, vs) == program.reduceFn(k, vs')
  }

  /** The reference with the values of a key in the order of the input lines. */
  ghost function LineOrderOutput(cfg: Config, r: nat): string
    requires cfg.Valid()
  {
    AllInSorted(OwnedKeys(cfg, r));
    PrintEntries(Reduced(cfg.program, SequentialGroups(cfg), SortedKeys(OwnedKeys(cfg, r))))
  }

  lemma {:induction false} ReducedAgree(program: Program, a: map<string, seq<string>>, b: map<string, seq<string>>,
                                        ks: seq<string>)
    requires OrderInsensitive(program)
    requires forall i :: 0 <= i < |ks| ==> ks[i] in a && ks[i] in b && multiset(a[ks[i]]) == multiset(b[ks[i]])
    ensures Reduced(program, a, ks) == Reduced(program, b, ks)
  {
    if ks != [] {
      ReducedAgree(program, a, b, ks[..|ks| - 1]);
    }
  }

  /** A reduce function that ignores the order of its values cannot tell the two references apart,
      so its output does not depend on the number of workers or on the hash of the lines. */
  lemma {:induction false} LineOrderMakesNoDifference(cfg: Config, r: nat)
    requires cfg.Valid() && OrderInsensitive(cfg.program)
    ensures SequentialOutput(cfg, r) == LineOrderOutput(cfg, r)
  {
    AllInSorted(OwnedKeys(cfg, r));
    var ks := SortedKeys(OwnedKeys(cfg, r));
    forall i | 0 <= i < |ks|
      ensures multiset(MapperGroups(cfg)[ks[i]]) == multiset(SequentialGroups(cfg)[ks[i]])
    {
      SequentialKeysAre(cfg, ks[i]);
    }
    ReducedAgree(cfg.program, MapperGroups(cfg), SequentialGroups(cfg), ks);
  }

  /** The reducers' key sets split the sequential keys: each key is reduced exactly once. */
  lemma {:induction false} EachKeyReducedOnce(cfg: Config, k: string)
    requires cfg.Valid() && AllClean(SequentialPairs(cfg)) && k in SequentialGroups(cfg)
    ensures forall r: nat :: r < cfg.nrReducer ==> (k in ReducerGroups(cfg, r) <==> r == cfg.KeyOwner(k))
    ensures k in ReducerGroups(cfg, cfg.KeyOwner(k))
    ensures ReducerGroups(cfg, cfg.KeyOwner(k))[k] == MapperOrder(cfg, k, cfg.nrMapper)
  {
    ReducersSeeSequentialGroups(cfg);
    ReducerGroupsAre(cfg, cfg.KeyOwner(k), k);
  }
}
