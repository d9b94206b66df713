/** The three client programs of src/: their map and reduce functions, first as the loops of
    the source, then as the functions that the engine applies. */
module Clients {
  import opened Text
  import opened Streams
  import opened Utility
  import opened MapReduce

  // ---------------------------------------------------------------- words of a line

  function Tagged(ws: seq<string>, value: string): seq<Pair> {
    if ws == [] then [] else [Pair(ws[0], value)] + Tagged(ws[1..], value)
  }

  lemma {:induction false} TaggedIs(ws: seq<string>, value: string)
    ensures |Tagged(ws, value)| == |ws|
    ensures forall i :: 0 <= i < |ws| ==> Tagged(ws, value)[i] == Pair(ws[i], value)
  {
    if ws != [] {
      TaggedIs(ws[1..], value);
    }
  }

  /** `while (iss >> word) emitIntermediate(word, value)`. */
  method EmitWords(line: string, value: string) returns (emitted: seq<Pair>)
    ensures emitted == Tagged(Words(line), value)
  {
    emitted := [];
    var iss := new InputStream(line);
    var word := "";
    while true
      invariant iss.Valid() && fresh(iss)
      invariant emitted + Tagged(iss.Unread(), value) == Tagged(Words(line), value)
      decreases |iss.Unread()|
    {
      ghost var unread := iss.Unread();
      word := iss.Extract(word);
      if iss.fail {
        break;
      }
      assert unread[1..] == iss.Unread();
      MoveFirst(emitted, Pair(word, value), Tagged(iss.Unread(), value));
      emitted := emitted + [Pair(word, value)];
    }
    assert emitted + [] == emitted;
  }

  // ---------------------------------------------------------------- WordCounter

  function CountWords(key: string, line: string): seq<Pair> {
    Tagged(Words(line), "1")
  }

  /** The sum of the numbers in `values`; `None` when one of them is not a number. */
  function Total(values: seq<string>): Option<int> {
    TotalBy(Stoi, values)
  }

  function TotalBy(number: string -> Option<int>, values: seq<string>): Option<int> {
    if values == [] then Some(0) else Plus(TotalBy(number, values[..|values| - 1]), number(values[|values| - 1]))
  }

  function Plus(a: Option<int>, b: Option<int>): Option<int> {
    if a.Some? && b.Some? then Some(a.value + b.value) else None
  }

  /** The sum grows by the number that the next value stands for, if it stands for one. */
  lemma {:induction false} TotalIs(values: seq<string>, v: string)
    ensures Total([]) == Some(0)
    ensures Total(values + [v]) == if Total(values).None? || Stoi(v).None? then None else Some(Total(values).value + Stoi(v).value)
  {
    assert (values + [v])[..|values|] == values;
  }

  function IntToString(n: int): string {
    if n < 0 then "-" + ToString(-n) else ToString(n)
  }

  lemma {:induction false} StoiNegative(n: nat)
    ensures Stoi("-" + ToString(n)) == Some(-(n as int))
  {
    ToStringIs(n);
    StoiIs("-", ToString(n), "");
    EmptyEnds("-" + ToString(n));
  }

  /** `stoi(to_string(n)) == n` for negative numbers as well. */
  lemma {:induction false} StoiIntToString(n: int)
    ensures Stoi(IntToString(n)) == Some(n)
  {
    if n >= 0 {
      StoiToString(n);
    } else {
      StoiNegative(-n);
    }
  }

  /** WordCounter's reduce function; a value that is not a number makes it throw, which no
      value emitted by `CountWords` does. */
  function SumCounts(key: string, values: seq<string>): seq<Entry> {
    match Total(values)
    case Some(n) => [Entry(key, [IntToString(n)])]
    case None => []
  }

  method WordCounterMap(key: string, line: string) returns (emitted: seq<Pair>)
    ensures emitted == CountWords(key, line)
  {
    emitted := EmitWords(line, "1");
  }

  /** `None` is the exception of `stoi`. */
  method WordCounterReduce(key: string, values: seq<string>) returns (emitted: Option<seq<Entry>>)
    ensures emitted.Some? <==> Total(values).Some?
    ensures emitted.Some? ==> emitted.value == SumCounts(key, values)
  {
    var count := 0;
    for i := 0 to |values|
      invariant Total(values[..i]) == Some(count)
    {
      var n := Stoi(values[i]);
      assert values[..i + 1][..i] == values[..i];
      if n.None? {
        TotalOfPrefix(values, i + 1);
        return None;
      }
      count := count + n.value;
    }
    assert values[..|values|] == values;
    return Some([Entry(key, [IntToString(count)])]);
  }

  lemma {:induction false} TotalOfPrefix(values: seq<string>, n: nat)
    requires n <= |values| && Total(values[..n]).None?
    ensures Total(values).None?
    decreases |values|
  {
    if n < |values| {
      var front := values[..|values| - 1];
      assert front[..n] == values[..n];
      TotalOfPrefix(front, n);
    } else {
      assert values[..n] == values;
    }
  }

  // ---------------------------------------------------------------- InvertedIndex

  function IndexWords(key: string, line: string): seq<Pair> {
    Tagged(Words(line), key)
  }

  /** `std::sort` on strings, by insertion. */
  function Insert(s: seq<string>, x: string): seq<string> {
    if s == [] || Leq(x, s[0]) then [x] + s else [s[0]] + Insert(s[1..], x)
  }

  function Sort(s: seq<string>): seq<string> {
    if s == [] then [] else Insert(Sort(s[..|s| - 1]), s[|s| - 1])
  }

  /** `std::unique` followed by `erase`: of neighbours that are equal, the first is kept. */
  function Unique(s: seq<string>): seq<string> {
    if |s| <= 1 then s
    else
      var n := |s| - 1;
      Unique(s[..n]) + if s[n] == s[n - 1] then [] else [s[n]]
  }

  function SortedUnique(values: seq<string>): seq<string> {
    Unique(Sort(values))
  }

  function ListPositions(key: string, values: seq<string>): seq<Entry> {
    [Entry(key, SortedUnique(values))]
  }

  method InvertedIndexMap(key: string, line: string) returns (emitted: seq<Pair>)
    ensures emitted == IndexWords(key, line)
  {
    emitted := EmitWords(line, key);
  }

  /** The copying loop that both remaining reduce functions start with. */
  method CopyValues(values: seq<string>) returns (copy: seq<string>)
    ensures copy == values
  {
    copy := [];
    for i := 0 to |values|
      invariant copy == values[..i]
    {
      copy := copy + [values[i]];
    }
  }

  method InvertedIndexReduce(key: string, values: seq<string>) returns (emitted: seq<Entry>)
    ensures emitted == ListPositions(key, values)
  {
    var v3 := CopyValues(values);
    v3 := Sort(v3);
    var kept: seq<string> := [];
    for i := 0 to |v3|
      invariant kept == Unique(v3[..i])
    {
      assert v3[..i + 1][..i] == v3[..i];
      if i == 0 || v3[i] != v3[i - 1] {
        kept := kept + [v3[i]];
      }
    }
    assert v3[..|v3|] == v3;
    return [Entry(key, kept)];
  }

  predicate Ascending(s: seq<string>) {
    forall i, j :: 0 <= i < j < |s| ==> Leq(s[i], s[j])
  }

  lemma {:induction false} InsertKeepsElements(s: seq<string>, x: string)
    ensures multiset(Insert(s, x)) == multiset(s) + multiset{x}
    ensures forall y :: y in Insert(s, x) <==> y == x || y in s
  {
    if s != [] && !Leq(x, s[0]) {
      InsertKeepsElements(s[1..], x);
      assert s == [s[0]] + s[1..];
    }
  }

  lemma {:induction false} AscendingCons(x: string, s: seq<string>)
    requires Ascending(s) && forall y :: y in s ==> Leq(x, y)
    ensures Ascending([x] + s)
  {
    var t := [x] + s;
    forall i, j | 0 <= i < j < |t| ensures Leq(t[i], t[j]) {
      if i == 0 {
        assert t[j] in s;
      } else {
        assert t[i] == s[i - 1] && t[j] == s[j - 1];
      }
    }
  }

  lemma {:induction false} FirstIsLeast(s: seq<string>, x: string)
    requires Ascending(s) && s != [] && Leq(x, s[0])
    ensures forall y :: y in s ==> Leq(x, y)
  {
    LeqTotal(s[0], s[0]);
    forall y | y in s ensures Leq(x, y) {
      var i :| 0 <= i < |s| && s[i] == y;
      assert Leq(s[0], s[i]);
      LeqTransitive(x, s[0], y);
    }
  }

  lemma {:induction false} InsertSorts(s: seq<string>, x: string)
    requires Ascending(s)
    ensures Ascending(Insert(s, x))
    ensures multiset(Insert(s, x)) == multiset(s) + multiset{x}
  {
    InsertKeepsElements(s, x);
    if s == [] {
    } else if Leq(x, s[0]) {
      FirstIsLeast(s, x);
      AscendingCons(x, s);
    } else {
      LeqTotal(x, s[0]);
      LeqTotal(s[0], s[0]);
      FirstIsLeast(s, s[0]);
      InsertSorts(s[1..], x);
      InsertKeepsElements(s[1..], x);
      AscendingCons(s[0], Insert(s[1..], x));
    }
  }

  lemma {:induction false} SortSorts(s: seq<string>)
    ensures Ascending(Sort(s)) && multiset(Sort(s)) == multiset(s)
  {
    if s != [] {
      SortSorts(s[..|s| - 1]);
      InsertSorts(Sort(s[..|s| - 1]), s[|s| - 1]);
      assert s == s[..|s| - 1] + [s[|s| - 1]];
    }
  }

  lemma {:induction false} UniqueKeepsEach(s: seq<string>)
    requires Ascending(s)
    ensures StrictlySorted(Unique(s))
    ensures forall x :: x in Unique(s) <==> x in s
    ensures s != [] ==> Unique(s) != [] && Unique(s)[|Unique(s)| - 1] == s[|s| - 1]
  {
    if |s| > 1 {
      var n := |s| - 1;
      var front := s[..n];
      UniqueKeepsEach(front);
      assert s == front + [s[n]];
      var u := Unique(front);
      assert Leq(s[n - 1], s[n]);
      if s[n] != s[n - 1] {
        var t := u + [s[n]];
        forall i, j | 0 <= i < j < |t| ensures Less(t[i], t[j]) {
          if j == |u| {
            assert u[i] in front;
            assert i < |u| - 1 ==> Less(u[i], u[|u| - 1]);
            LeqTotal(s[n - 1], s[n - 1]);
            LeqTransitive(u[i], s[n - 1], s[n]);
            if u[i] == s[n] {
              LeqAntisymmetric(s[n - 1], s[n]);
            }
          }
        }
      }
    }
  }

  /** InvertedIndex emits the strictly increasing list of the values, each once. */
  lemma {:induction false} SortedUniqueIs(values: seq<string>)
    ensures SortedUnique(values) == SortedKeys(set v | v in values)
  {
    SortSorts(values);
    UniqueKeepsEach(Sort(values));
    var s := set v | v in values;
    forall k ensures k in SortedUnique(values) <==> k in SortedKeys(s) {
      assert k in values <==> k in multiset(values);
      assert k in Sort(values) <==> k in multiset(Sort(values));
    }
    StrictlySortedUnique(SortedUnique(values), SortedKeys(s));
  }

  // ---------------------------------------------------------------- ReverseWeblinkGraph

  /** The pairs that the loop of the map function emits from `pos` on: up to the first comma, then up
      to the end of the line; one pass per '\n'-separated piece of the text. */
  function LinksFrom(text: string, pos: nat): seq<Pair>
    decreases |text| - pos
  {
    if pos > |text| then [] else [LinkAt(text, pos)] + LinksFrom(text, TargetEnd(text, pos) + 1)
  }

  /** Where the second `getline` of a pass stops. */
  function TargetEnd(text: string, pos: nat): (end: nat)
    requires pos <= |text|
    ensures pos <= end <= |text|
  {
    var comma := RunEnd(text, pos, ',');
    if comma == |text| then comma else RunEnd(text, comma + 1, '\n')
  }

  function LinkAt(text: string, pos: nat): Pair
    requires pos <= |text|
  {
    var comma := RunEnd(text, pos, ',');
    Pair(if comma == |text| then "" else text[comma + 1..TargetEnd(text, pos)], text[pos..comma])
  }

  function SplitLink(key: string, line: string): seq<Pair> {
    LinksFrom(line, 0)
  }

  function ListSources(key: string, values: seq<string>): seq<Entry> {
    [Entry(key, values)]
  }

  method ReverseWeblinkMap(key: string, line: string) returns (emitted: seq<Pair>)
    ensures emitted == SplitLink(key, line)
  {
    emitted := [];
    var iss := new InputStream(line);
    ghost var at := 0;
    while iss.Good()
      invariant iss.Valid() && fresh(iss) && iss.text == line
      invariant at == if iss.Good() then iss.pos else |line| + 1
      invariant emitted + LinksFrom(line, at) == LinksFrom(line, 0)
      decreases |line| + 1 - at
    {
      MoveFirst(emitted, LinkAt(line, at), LinksFrom(line, TargetEnd(line, at) + 1));
      at := TargetEnd(line, at) + 1;
      var p := ReadLink(iss);
      emitted := emitted + [p];
    }
    EmptyEnds(emitted);
  }

  /** The body of the loop: up to a comma, then up to the end of the line. */
  method ReadLink(iss: InputStream) returns (p: Pair)
    requires iss.Valid() && iss.Good()
    modifies iss
    ensures iss.Valid() && p == LinkAt(iss.text, old(iss.pos))
    ensures iss.Good() <==> TargetEnd(iss.text, old(iss.pos)) < |iss.text|
    ensures iss.Good() ==> iss.pos == TargetEnd(iss.text, old(iss.pos)) + 1
  {
    var source := iss.GetLine("", ',');
    var target := iss.GetLine("", '\n');
    p := Pair(target, source);
  }

  method ReverseWeblinkReduce(key: string, values: seq<string>) returns (emitted: seq<Entry>)
    ensures emitted == ListSources(key, values)
  {
    var sources := CopyValues(values);
    return [Entry(key, sources)];
  }

  lemma {:induction false} OneLink(text: string, p: Pair)
    requires LinkAt(text, 0) == p && TargetEnd(text, 0) == |text|
    ensures LinksFrom(text, 0) == [p]
  {
    assert LinksFrom(text, |text| + 1) == [];
  }

  /** A line without a comma is a source with an empty target. */
  lemma {:induction false} LineWithoutComma(key: string, line: string)
    requires ',' !in line
    ensures SplitLink(key, line) == [Pair("", line)]
  {
    assert forall k :: 0 <= k < |line| ==> line[k] in line;
    RunEndIs(line, 0, ',', |line|);
    assert line[0..|line|] == line;
    OneLink(line, Pair("", line));
  }

  /** On one line with a comma, the map function emits one pair: what follows the first comma
      and what precedes it. */
  lemma {:induction false} OneLinkPerLine(key: string, source: string, target: string)
    requires ',' !in source && '\n' !in target
    ensures SplitLink(key, source + "," + target) == [Pair(target, source)]
  {
    var line := source + "," + target;
    assert line[|source|] == ',';
    forall k | 0 <= k < |source| ensures line[k] != ',' {
      assert line[k] == source[k];
    }
    RunEndIs(line, 0, ',', |source|);
    forall k | |source| + 1 <= k < |line| ensures line[k] != '\n' {
      assert line[k] == target[k - |source| - 1];
    }
    RunEndIs(line, |source| + 1, '\n', |line|);
    assert line[0..|source|] == source;
    assert line[|source| + 1..|line|] == target;
    OneLink(line, Pair(target, source));
  }

  // ---------------------------------------------------------------- the programs

  function WordCounter(): Program {
    Program(CountWords, SumCounts)
  }

  function InvertedIndex(): Program {
    Program(IndexWords, ListPositions)
  }

  function ReverseWeblinkGraph(): Program {
    Program(SplitLink, ListSources)
  }
}
