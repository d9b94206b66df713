/** The two worker tasks of include/MapReduceMaster.h and what they compute together:
    every emitted pair reaches exactly one intermediate file, and gathering the files of a
    reducer gives back the groups of a sequential run. */
module MapReduce {
  import opened Text
  import opened Streams
  import opened Utility

  /** A client: its map and reduce functions, as total functions of their arguments. */
  datatype Program = Program(
    mapFn: (string, string) -> seq<Pair>,
    reduceFn: (string, seq<string>) -> seq<Entry>)

  /** `hash_in_range`: the remainder of `hash` modulo `maxRange`, by repeated subtraction. */
  function HashInRange(hash: nat, maxRange: nat): (r: nat)
    requires maxRange >= 1
    ensures r < maxRange
  {
    if hash < maxRange then hash else HashInRange(hash - maxRange, maxRange)
  }

  lemma {:induction false} HashInRangeIsRemainder(hash: nat, maxRange: nat)
    requires maxRange >= 1
    ensures exists q: nat :: hash == q * maxRange + HashInRange(hash, maxRange)
  {
    if hash < maxRange {
      assert hash == 0 * maxRange + hash;
    } else {
      HashInRangeIsRemainder(hash - maxRange, maxRange);
      var q: nat :| hash - maxRange == q * maxRange + HashInRange(hash - maxRange, maxRange);
      assert hash == (q + 1) * maxRange + HashInRange(hash, maxRange);
    }
  }

  /** One request to the master, with the lines of its input file. `lineHash` and `keyHash`
      stand for `std::hash`. */
  datatype Config = Config(
    nrMapper: nat,
    nrReducer: nat,
    lines: seq<string>,
    lineHash: nat -> nat,
    keyHash: string -> nat,
    program: Program)
  {
    /** The reduce loop indexes a vector of `nrReducer` entries by worker number. */
    predicate Valid() {
      1 <= nrMapper <= nrReducer
    }

    /** `hash_in_range(record_number, nr_mapper)`. */
    function LineOwner(i: nat): (m: nat)
      requires nrMapper >= 1
      ensures m < nrMapper
    {
      HashInRange(lineHash(i), nrMapper)
    }

    /** `hash_in_range(key, nr_reducer)`. */
    function KeyOwner(k: string): (r: nat)
      requires nrReducer >= 1
      ensures r < nrReducer
    {
      HashInRange(keyHash(k), nrReducer)
    }
  }

  datatype FileName = Input | Temp(mapper: nat, reducer: nat) | Output(reducer: nat)

  type Files = map<FileName, string>

  /** A missing file reads as an empty one: `read_text` never reports it. */
  function ReadFile(files: Files, f: FileName): string {
    if f in files then files[f] else ""
  }

  // ---------------------------------------------------------------- what a mapper emits

  /** The pairs that one line contributes. */
  function LinePairs(cfg: Config, i: nat): seq<Pair>
    requires i < |cfg.lines|
  {
    cfg.program.mapFn(ToString(i), cfg.lines[i])
  }

  /** What mapper `m` has emitted after the first `n` lines. */
  function Emitted(cfg: Config, m: nat, n: nat): seq<Pair>
    requires cfg.nrMapper >= 1 && n <= |cfg.lines|
  {
    if n == 0 then []
    else Emitted(cfg, m, n - 1) + if cfg.LineOwner(n - 1) == m then LinePairs(cfg, n - 1) else []
  }

  /** What a mapper emits for one of its lines follows what it emitted for the lines before, under the
      decimal number of the line. */
  lemma {:induction false} EmittedInTurn(cfg: Config, m: nat, i: nat, n: nat) returns (after: seq<Pair>)
    requires cfg.nrMapper >= 1 && i < n <= |cfg.lines| && cfg.LineOwner(i) == m
    ensures Emitted(cfg, m, n) == Emitted(cfg, m, i) + cfg.program.mapFn(ToString(i), cfg.lines[i]) + after
    decreases n
  {
    if n == i + 1 {
      after := [];
      EmptyEnds(Emitted(cfg, m, n));
    } else {
      var rest := EmittedInTurn(cfg, m, i, n - 1);
      var last := if cfg.LineOwner(n - 1) == m then LinePairs(cfg, n - 1) else [];
      after := rest + last;
      Assoc(Emitted(cfg, m, i) + LinePairs(cfg, i), rest, last);
    }
  }

  function MapperPairs(cfg: Config, m: nat): seq<Pair>
    requires cfg.nrMapper >= 1
  {
    Emitted(cfg, m, |cfg.lines|)
  }

  /** What a single sequential mapper emits on the first `n` lines. */
  function SequentialEmitted(cfg: Config, n: nat): seq<Pair>
    requires n <= |cfg.lines|
  {
    if n == 0 then [] else SequentialEmitted(cfg, n - 1) + LinePairs(cfg, n - 1)
  }

  function SequentialPairs(cfg: Config): seq<Pair> {
    SequentialEmitted(cfg, |cfg.lines|)
  }

  // ---------------------------------------------------------------- routing to reducers

  /** The pairs of `ps` whose key belongs to reducer `r`, in order. */
  function Routed(cfg: Config, r: nat, ps: seq<Pair>): seq<Pair>
    requires cfg.nrReducer >= 1
  {
    if ps == [] then []
    else
      var n := |ps| - 1;
      Routed(cfg, r, ps[..n]) + if cfg.KeyOwner(ps[n].key) == r then [ps[n]] else []
  }

  /** The text that has been written to the stream of `temp_m_r` after the pairs `ps`. */
  function StreamText(cfg: Config, r: nat, ps: seq<Pair>): string
    requires cfg.nrReducer >= 1
  {
    PrintPairs(Routed(cfg, r, ps))
  }

  /** The complete content of `temp_m_r`. */
  function TempText(cfg: Config, m: nat, r: nat): string
    requires cfg.nrMapper >= 1 && cfg.nrReducer >= 1
  {
    StreamText(cfg, r, MapperPairs(cfg, m))
  }

  lemma {:induction false} RoutedSnoc(cfg: Config, r: nat, ps: seq<Pair>, p: Pair)
    requires cfg.nrReducer >= 1
    ensures Routed(cfg, r, ps + [p]) == Routed(cfg, r, ps) + if cfg.KeyOwner(p.key) == r then [p] else []
  {
    assert (ps + [p])[..|ps|] == ps;
  }

  lemma {:induction false} StreamTextSnoc(cfg: Config, r: nat, ps: seq<Pair>, p: Pair)
    requires cfg.nrReducer >= 1
    ensures StreamText(cfg, r, ps + [p]) ==
            if cfg.KeyOwner(p.key) == r then StreamText(cfg, r, ps) + PairLine(p) else StreamText(cfg, r, ps)
  {
    RoutedSnoc(cfg, r, ps, p);
    var front := Routed(cfg, r, ps);
    assert (front + [p])[..|front|] == front;
    assert front + [] == front;
  }

  lemma {:induction false} RoutedIs(cfg: Config, r: nat, ps: seq<Pair>, p: Pair)
    requires cfg.nrReducer >= 1
    ensures p in Routed(cfg, r, ps) <==> p in ps && cfg.KeyOwner(p.key) == r
  {
    if ps != [] {
      RoutedIs(cfg, r, ps[..|ps| - 1], p);
    }
  }

  lemma {:induction false} RoutedValues(cfg: Config, r: nat, ps: seq<Pair>, k: string)
    requires cfg.nrReducer >= 1
    ensures ValuesOf(k, Routed(cfg, r, ps)) == if cfg.KeyOwner(k) == r then ValuesOf(k, ps) else []
  {
    if ps != [] {
      var front, p := ps[..|ps| - 1], ps[|ps| - 1];
      RoutedValues(cfg, r, front, k);
      var routed := Routed(cfg, r, front);
      if cfg.KeyOwner(p.key) == r {
        assert (routed + [p])[..|routed|] == routed;
      } else {
        assert routed + [] == routed;
      }
    }
  }

  // ---------------------------------------------------------------- gathering and reducing

  /** The list of `k` in `m`; a missing key has none. */
  function Listed(m: map<string, seq<string>>, k: string): seq<string> {
    if k in m then m[k] else []
  }

  /** The lists of `data` under the keys `ks`, appended to what has been accumulated. */
  function MergeOn(acc: map<string, seq<string>>, data: map<string, seq<string>>, ks: set<string>): map<string,
    seq<string>>
    requires ks <= data.Keys
  {
    map k | k in acc.Keys + ks ::
      if k !in ks then acc[k] else if k in acc then acc[k] + data[k] else data[k]
  }

  /** One more file's groups appended to what has been accumulated. */
  function Merge(acc: map<string, seq<string>>, data: map<string, seq<string>>): map<string, seq<string>> {
    MergeOn(acc, data, data.Keys)
  }

  /** What reducer `r` has accumulated after reading the files of the first `n` mappers. */
  ghost function Gathered(files: Files, r: nat, n: nat): map<string, seq<string>> {
    if n == 0 then map[]
    else Merge(Gathered(files, r, n - 1), Parsed(ReadFile(files, Temp(n - 1, r))))
  }

  /** Everything emitted by reducing the keys `ks` in order. */
  function Reduced(program: Program, acc: map<string, seq<string>>, ks: seq<string>): seq<Entry>
    requires forall i :: 0 <= i < |ks| ==> ks[i] in acc
  {
    if ks == [] then []
    else
      var k := ks[|ks| - 1];
      Reduced(program, acc, ks[..|ks| - 1]) + program.reduceFn(k, acc[k])
  }

  ghost function ReducedAll(program: Program, acc: map<string, seq<string>>): seq<Entry> {
    Reduced(program, acc, SortedKeys(acc.Keys))
  }

  lemma {:induction false} ReducedNext(program: Program, acc: map<string, seq<string>>, ks: seq<string>, i: nat)
    requires i < |ks| && forall j :: 0 <= j < |ks| ==> ks[j] in acc
    ensures Reduced(program, acc, ks[..i + 1]) == Reduced(program, acc, ks[..i]) + program.reduceFn(ks[i], acc[ks[i]])
  {
    assert ks[..i + 1][..i] == ks[..i];
  }

  /** The keys are reduced one after another. */
  lemma {:induction false} ReducedInTurn(program: Program, acc: map<string, seq<string>>, a: seq<string>, k: string,
                                         b: seq<string>)
    requires forall x :: x in a + [k] + b ==> x in acc
    ensures Reduced(program, acc, a + [k] + b) == Reduced(program, acc, a) + program.reduceFn(k, acc[k]) + Reduced(program, acc, b)
    decreases b
  {
    var ks := a + [k] + b;
    assert forall x :: x in a || x in b ==> x in ks;
    if b == [] {
      assert ks[..|a|] == a && ks[|a|] == k;
      EmptyEnds(Reduced(program, acc, ks));
    } else {
      var n := |b| - 1;
      assert ks[..|ks| - 1] == a + [k] + b[..n];
      ReducedInTurn(program, acc, a, k, b[..n]);
      Assoc(Reduced(program, acc, a) + program.reduceFn(k, acc[k]), Reduced(program, acc, b[..n]), program.reduceFn(b[n], acc[b[n]]));
    }
  }

  /** What reducer `r` accumulates from the first `n` mappers in a run without faults. */
  ghost function FaultFree(cfg: Config, r: nat, n: nat): map<string, seq<string>>
    requires cfg.nrMapper >= 1 && cfg.nrReducer >= 1
  {
    if n == 0 then map[] else Merge(FaultFree(cfg, r, n - 1), Parsed(TempText(cfg, n - 1, r)))
  }

  /** The groups that reducer `r` reduces in a run without faults. */
  ghost function ReducerGroups(cfg: Config, r: nat): map<string, seq<string>>
    requires cfg.Valid()
  {
    FaultFree(cfg, r, cfg.nrMapper)
  }

  /** The content of `output_r` after a run without faults. */
  ghost function OutputText(cfg: Config, r: nat): string
    requires cfg.Valid()
  {
    PrintEntries(ReducedAll(cfg.program, ReducerGroups(cfg, r)))
  }

  ghost predicate FileDone(cfg: Config, files: Files, m: nat, r: nat)
    requires cfg.nrMapper >= 1 && cfg.nrReducer >= 1
  {
    ReadFile(files, Temp(m, r)) == TempText(cfg, m, r)
  }

  /** Reading complete files gives the groups of a run without faults. */
  lemma {:induction false} GatheredFromCompleteFiles(cfg: Config, files: Files, r: nat, n: nat)
    requires cfg.nrMapper >= 1 && cfg.nrReducer >= 1
    requires forall m: nat :: m < n ==> FileDone(cfg, files, m, r)
    ensures Gathered(files, r, n) == FaultFree(cfg, r, n)
  {
    for m := 0 to n
      invariant Gathered(files, r, m) == FaultFree(cfg, r, m)
    {
      OneMoreFile(cfg, files, r, m);
    }
  }

  lemma {:induction false} OneMoreFile(cfg: Config, files: Files, r: nat, n: nat)
    requires cfg.nrMapper >= 1 && cfg.nrReducer >= 1
    requires FileDone(cfg, files, n, r)
    requires Gathered(files, r, n) == FaultFree(cfg, r, n)
    ensures Gathered(files, r, n + 1) == FaultFree(cfg, r, n + 1)
  {
  }

  // ---------------------------------------------------------------- the worker tasks

  class Disk {
    var files: Files

    constructor (files: Files)
      ensures this.files == files
    {
      this.files := files;
    }
  }

  /** The intermediate files of mapper `m`, given their texts. */
  function MapperFiles(m: nat, texts: seq<string>): Files {
    map r | 0 <= r < |texts| :: Temp(m, r) := texts[r]
  }

  function TempTexts(cfg: Config, m: nat): (texts: seq<string>)
    requires cfg.nrMapper >= 1 && cfg.nrReducer >= 1
    ensures |texts| == cfg.nrReducer
    ensures forall r :: 0 <= r < cfg.nrReducer ==> texts[r] == TempText(cfg, m, r)
  {
    seq(cfg.nrReducer, r requires 0 <= r < cfg.nrReducer => TempText(cfg, m, r))
  }

  /** `map_controller_module`. */
  method MapController(disk: Disk, cfg: Config, mapperId: nat) returns (code: int)
    requires cfg.Valid()
    requires Input in disk.files ==> Lines(disk.files[Input]) == cfg.lines
    modifies disk
    ensures code == if Input in old(disk.files) then 0 else -1
    ensures disk.files == old(disk.files) +
                          if code == 0 then MapperFiles(mapperId, TempTexts(cfg, mapperId)) else map[]
  {
    if Input !in disk.files {
      return -1;
    }
    var emitted := ScanInput(disk.files[Input], cfg, mapperId);
    ghost var before := disk.files;
    var blank := seq(cfg.nrReducer, _ => "");
    StoreAll(disk, mapperId, blank);  // opening a stream truncates its file
    var texts := WriteEmitted(cfg, emitted);
    StoreAll(disk, mapperId, texts);  // closing it leaves the whole text
    assert texts == TempTexts(cfg, mapperId);
    StoreTwice(before, mapperId, blank, texts);
    code := 0;
  }

  /** One file after the other, for all reducers. */
  method StoreAll(disk: Disk, mapperId: nat, texts: seq<string>)
    modifies disk
    ensures disk.files == old(disk.files) + MapperFiles(mapperId, texts)
  {
    for r := 0 to |texts|
      invariant disk.files == old(disk.files) + MapperFiles(mapperId, texts[..r])
    {
      disk.files := disk.files[Temp(mapperId, r) := texts[r]];
    }
    assert texts[..|texts|] == texts;
  }

  lemma {:induction false} StoreTwice(files: Files, m: nat, first: seq<string>, second: seq<string>)
    requires |first| == |second|
    ensures files + MapperFiles(m, first) + MapperFiles(m, second) == files + MapperFiles(m, second)
  {
  }

  /** The loop that writes every emitted pair to the stream of its reducer. */
  method WriteEmitted(cfg: Config, emitted: seq<Pair>) returns (tempFiles: seq<string>)
    requires cfg.Valid()
    ensures |tempFiles| == cfg.nrReducer
    ensures forall j :: 0 <= j < cfg.nrReducer ==> tempFiles[j] == StreamText(cfg, j, emitted)
  {
    tempFiles := seq(cfg.nrReducer, _ => "");
    for i := 0 to |emitted|
      invariant |tempFiles| == cfg.nrReducer
      invariant forall j :: 0 <= j < cfg.nrReducer ==> tempFiles[j] == StreamText(cfg, j, emitted[..i])
    {
      var elem := emitted[i];
      var r := cfg.KeyOwner(elem.key);
      assert emitted[..i + 1] == emitted[..i] + [elem];
      forall j: nat ensures StreamText(cfg, j, emitted[..i + 1]) ==
                            if j == r then StreamText(cfg, j, emitted[..i]) + PairLine(elem) else StreamText(cfg, j, emitted[..i])
      {
        StreamTextSnoc(cfg, j, emitted[..i], elem);
      }
      tempFiles := tempFiles[r := tempFiles[r] + PairLine(elem)];
    }
    assert emitted[..|emitted|] == emitted;
  }

  /** The `getline` loop of `map_controller_module`. */
  method ScanInput(text: string, cfg: Config, mapperId: nat) returns (emitted: seq<Pair>)
    requires cfg.Valid() && Lines(text) == cfg.lines
    ensures emitted == MapperPairs(cfg, mapperId)
  {
    emitted := [];
    var file := new InputStream(text);
    var recordNumber, str := 0, "";
    ghost var lines := cfg.lines;
    while true
      invariant file.Valid() && fresh(file) && file.text == text && !file.fail
      invariant recordNumber <= |lines|
      invariant LinesFrom(text, file.pos) == lines[recordNumber..]
      invariant file.eof ==> file.pos == |text|
      invariant emitted == Emitted(cfg, mapperId, recordNumber)
      decreases |lines| - recordNumber, !file.eof
    {
      str := file.GetLine(str, '\n');
      if file.fail {
        break;
      }
      assert lines[recordNumber] == str;
      assert lines[recordNumber..][1..] == lines[recordNumber + 1..];
      if cfg.LineOwner(recordNumber) == mapperId {
        emitted := emitted + cfg.program.mapFn(ToString(recordNumber), str);
      }
      recordNumber := recordNumber + 1;
    }
    assert lines[recordNumber..] == [];
  }

  /** Visiting a `std::map` in order. */
  method KeysInOrder(data: map<string, seq<string>>) returns (ks: seq<string>)
    ensures ks == SortedKeys(data.Keys)
  {
    ks := [];
    var rest := data.Keys;
    while rest != {}
      invariant ks + SortedKeys(rest) == SortedKeys(data.Keys)
      decreases rest
    {
      LeastExists(rest);
      var k :| k in rest && forall j :: j in rest ==> Leq(k, j);
      SortedKeysStep(rest, k);
      MoveFirst(ks, k, SortedKeys(rest - {k}));
      ks, rest := ks + [k], rest - {k};
    }
    assert ks + [] == ks;
  }

  lemma {:induction false} SortedKeysStep(s: set<string>, k: string)
    requires k in s && forall j :: j in s ==> Leq(k, j)
    ensures SortedKeys(s) == [k] + SortedKeys(s - {k})
  {
    var ks := SortedKeys(s);
    LeastExists(s);
    assert ks[0] in s;
    assert forall j :: j in s ==> Leq(ks[0], j);
    LeqAntisymmetric(k, ks[0]);
  }

  /** `reduce_controller_module`. */
  method ReduceController(disk: Disk, cfg: Config, reducerId: nat) returns (code: int)
    requires cfg.Valid()
    modifies disk
    ensures code == 0
    ensures disk.files == old(disk.files)[Output(reducerId) :=
                          PrintEntries(ReducedAll(cfg.program, Gathered(old(disk.files), reducerId, cfg.nrMapper)))]
  {
    var acc: map<string, seq<string>> := map[];
    for mapperIdx := 0 to cfg.nrMapper
      invariant acc == Gathered(disk.files, reducerId, mapperIdx)
      invariant disk.files == old(disk.files)
    {
      var data := ReadText(ReadFile(disk.files, Temp(mapperIdx, reducerId)));
      acc := MergeInto(acc, data);
    }
    var outputs := ReduceKeys(cfg.program, acc);
    var text := WriteKeyValVector(outputs);
    disk.files := disk.files[Output(reducerId) := text];
    code := 0;
  }

  /** The loop that applies the user's reduce function to every key in turn. */
  method ReduceKeys(program: Program, acc: map<string, seq<string>>) returns (outputs: seq<Entry>)
    ensures outputs == ReducedAll(program, acc)
  {
    var keys := KeysInOrder(acc);
    assert forall j :: 0 <= j < |keys| ==> keys[j] in keys;
    outputs := [];
    for i := 0 to |keys|
      invariant forall j :: 0 <= j < |keys| ==> keys[j] in acc
      invariant outputs == Reduced(program, acc, keys[..i])
    {
      ReducedNext(program, acc, keys, i);
      outputs := outputs + program.reduceFn(keys[i], acc[keys[i]]);
    }
    assert keys[..|keys|] == keys;
  }

  /** Extend the accumulated lists by one file's lists, key by key. */
  method MergeInto(acc: map<string, seq<string>>, data: map<string, seq<string>>)
    returns (result: map<string, seq<string>>)
    ensures result == Merge(acc, data)
  {
    result := acc;
    var keys := KeysInOrder(data);
    ghost var done: set<string> := {};
    for i := 0 to |keys|
      invariant AreFirst(keys, i, done)
      invariant result == MergeOn(acc, data, done)
    {
      AreFirstStep(keys, i, done);
      result := MergeKey(acc, data, done, keys[i], result);
      done := done + {keys[i]};
    }
    AreAll(keys, done, data.Keys);
  }

  method MergeKey(ghost acc: map<string, seq<string>>, data: map<string, seq<string>>, ghost done: set<string>,
                  k: string, before: map<string, seq<string>>)
    returns (result: map<string, seq<string>>)
    requires done <= data.Keys && k in data && k !in done && before == MergeOn(acc, data, done)
    ensures result == MergeOn(acc, data, done + {k})
  {
    MergeOnStep(acc, data, done, k);
    if k in before {
      result := before[k := before[k] + data[k]];
    } else {
      result := before[k := data[k]];
    }
  }

  /** `done` holds the first `i` keys. */
  ghost predicate AreFirst(keys: seq<string>, i: nat, done: set<string>) {
    i <= |keys| && forall k :: k in done <==> k in keys[..i]
  }

  lemma {:induction false} AreFirstStep(keys: seq<string>, i: nat, done: set<string>)
    requires StrictlySorted(keys) && AreFirst(keys, i, done) && i < |keys|
    ensures keys[i] in keys && keys[i] !in done && (forall k :: k in done ==> k in keys)
    ensures AreFirst(keys, i + 1, done + {keys[i]})
  {
    assert forall j :: 0 <= j < i ==> Less(keys[j], keys[i]);
    assert keys[..i + 1] == keys[..i] + [keys[i]];
  }

  lemma {:induction false} AreAll(keys: seq<string>, done: set<string>, all: set<string>)
    requires AreFirst(keys, |keys|, done) && forall k :: k in keys <==> k in all
    ensures done == all
  {
    assert keys[..|keys|] == keys;
  }

  lemma {:induction false} MergeOnStep(acc: map<string, seq<string>>, data: map<string, seq<string>>, ks: set<string>,
                                       k: string)
    requires ks <= data.Keys && k in data && k !in ks
    ensures var m := MergeOn(acc, data, ks);
            MergeOn(acc, data, ks + {k}) == m[k := if k in m then m[k] + data[k] else data[k]]
  {
  }
}
