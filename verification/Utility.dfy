/** The intermediate and output files of include/Utility.h: the text written for a list of
    pairs, and the reader that groups it by key. */
module Utility {
  import opened Text
  import opened Streams

  datatype Pair = Pair(key: string, value: string)

  /** One `emit` of a reduce function: a key and its list of values. */
  datatype Entry = Entry(key: string, values: seq<string>)

  // ---------------------------------------------------------------- grouping by key

  function KeysOf(ps: seq<Pair>): set<string> {
    if ps == [] then {} else KeysOf(ps[..|ps| - 1]) + {ps[|ps| - 1].key}
  }

  /** The values of `k`, in the order in which its pairs occur. */
  function ValuesOf(k: string, ps: seq<Pair>): seq<string> {
    if ps == [] then []
    else
      var n := |ps| - 1;
      ValuesOf(k, ps[..n]) + if ps[n].key == k then [ps[n].value] else []
  }

  /** Append `v` to the list of `k`, creating the list when there is none. */
  function AddValue(data: map<string, seq<string>>, k: string, v: string): map<string, seq<string>> {
    if k in data then data[k := data[k] + [v]] else data[k := [v]]
  }

  /** The pairs grouped by key; `GroupedIs` says what the groups are. */
  function Grouped(ps: seq<Pair>): map<string, seq<string>> {
    if ps == [] then map[]
    else AddValue(Grouped(ps[..|ps| - 1]), ps[|ps| - 1].key, ps[|ps| - 1].value)
  }

  /** Grouping neither adds nor loses a key, and keeps each key's values in order. */
  lemma {:induction false} GroupedIs(ps: seq<Pair>)
    ensures Grouped(ps).Keys == KeysOf(ps)
    ensures forall k :: k in Grouped(ps) ==> Grouped(ps)[k] == ValuesOf(k, ps)
  {
    if ps != [] {
      var front, p := ps[..|ps| - 1], ps[|ps| - 1];
      GroupedIs(front);
      ValuesOfAbsentKey(p.key, front);
    }
  }

  lemma {:induction false} ValuesOfConcat(k: string, a: seq<Pair>, b: seq<Pair>)
    ensures ValuesOf(k, a + b) == ValuesOf(k, a) + ValuesOf(k, b)
  {
    if b == [] {
      assert a + b == a;
    } else {
      var n := |b| - 1;
      assert (a + b)[..|a| + n] == a + b[..n];
      ValuesOfConcat(k, a, b[..n]);
    }
  }

  lemma {:induction false} ValuesOfAbsentKey(k: string, ps: seq<Pair>)
    ensures k in KeysOf(ps) <==> ValuesOf(k, ps) != []
  {
    if ps != [] {
      var n := |ps| - 1;
      ValuesOfAbsentKey(k, ps[..n]);
    }
  }

  /** One pair adds one value to its own key. */
  lemma {:induction false} ValuesOfOne(k: string, p: Pair)
    ensures ValuesOf(k, []) == [] && ValuesOf(k, [p]) == if p.key == k then [p.value] else []
  {
    assert [p][..0] == [];
  }

  /** Every value listed under `k` was emitted with `k`. */
  lemma {:induction false} ValuesOfSource(k: string, ps: seq<Pair>, v: string)
    ensures v in ValuesOf(k, ps) <==> Pair(k, v) in ps
  {
    if ps != [] {
      var n := |ps| - 1;
      assert ps == ps[..n] + [ps[n]];
      ValuesOfSource(k, ps[..n], v);
    }
  }

  /** The keys of a grouping are exactly the keys of the pairs. */
  lemma {:induction false} KeysOfSource(ps: seq<Pair>, k: string)
    ensures k in KeysOf(ps) <==> exists i :: 0 <= i < |ps| && ps[i].key == k
  {
    if ps != [] {
      var n := |ps| - 1;
      KeysOfSource(ps[..n], k);
      if i :| 0 <= i < n && ps[..n][i].key == k {
        assert ps[i].key == k;
      }
    }
  }

  // ---------------------------------------------------------------- printer and parser

  function PairLine(p: Pair): string {
    p.key + " " + p.value + "\n"
  }

  /** The text of an intermediate file. */
  function PrintPairs(ps: seq<Pair>): string {
    if ps == [] then ""
    else PrintPairs(ps[..|ps| - 1]) + PairLine(ps[|ps| - 1])
  }

  /** Consecutive words taken two by two; an odd word at the end is dropped. */
  function PairUp(ws: seq<string>): seq<Pair> {
    if |ws| < 2 then [] else [Pair(ws[0], ws[1])] + PairUp(ws[2..])
  }

  /** What `read_text` makes of a file's text. */
  function Parsed(text: string): map<string, seq<string>> {
    Grouped(PairUp(Words(text)))
  }

  predicate IsClean(p: Pair) {
    IsWord(p.key) && IsWord(p.value)
  }

  ghost predicate AllClean(ps: seq<Pair>) {
    forall i :: 0 <= i < |ps| ==> IsClean(ps[i])
  }

  /** `read_text`. */
  method ReadText(text: string) returns (data: map<string, seq<string>>)
    ensures data == Parsed(text)
  {
    data := map[];
    var file := new InputStream(text);
    var tempKey, tempValue := "", "";
    ghost var todo := Words(text);
    while true
      invariant file.Valid() && fresh(file)
      invariant todo == file.Unread()
      invariant AddWords(data, todo) == AddWords(map[], Words(text))
      decreases |todo|
    {
      ghost var before := todo;
      tempKey := file.Extract(tempKey);
      if file.fail {
        break;
      }
      tempValue := file.Extract(tempValue);
      if file.fail {
        break;
      }
      todo := file.Unread();
      AddWordsStep(data, before, tempKey, tempValue, todo);
      if tempKey == "" {
        assert false;  // operator>> never extracts an empty word
      }
      if tempKey !in data {
        data := data[tempKey := [tempValue]];
      } else {
        data := data[tempKey := data[tempKey] + [tempValue]];
      }
    }
    AddWordsIsGrouped([], Words(text));
    assert [] + PairUp(Words(text)) == PairUp(Words(text));
  }

  /** The reader's loop over words, as a fold. */
  function AddWords(data: map<string, seq<string>>, ws: seq<string>): map<string, seq<string>>
    decreases |ws|
  {
    if |ws| < 2 then data else AddWords(AddValue(data, ws[0], ws[1]), ws[2..])
  }

  lemma {:induction false} MoveFirst<T>(done: seq<T>, x: T, todo: seq<T>)
    ensures done + ([x] + todo) == (done + [x]) + todo
  {
  }

  lemma {:induction false} AddWordsStep(data: map<string, seq<string>>, ws: seq<string>, k: string, v: string,
                                        rest: seq<string>)
    requires ws == [k] + ([v] + rest)
    ensures AddWords(data, ws) == AddWords(AddValue(data, k, v), rest)
  {
    assert ws[2..] == rest;
  }

  lemma {:induction false} AddWordsIsGrouped(done: seq<Pair>, ws: seq<string>)
    ensures AddWords(Grouped(done), ws) == Grouped(done + PairUp(ws))
    decreases |ws|
  {
    if |ws| < 2 {
      assert done + PairUp(ws) == done;
    } else {
      var p := Pair(ws[0], ws[1]);
      GroupedSnoc(done, p);
      AddWordsIsGrouped(done + [p], ws[2..]);
      MoveFirst(done, p, PairUp(ws[2..]));
    }
  }

  lemma {:induction false} GroupedSnoc(ps: seq<Pair>, p: Pair)
    ensures Grouped(ps + [p]) == AddValue(Grouped(ps), p.key, p.value)
  {
    assert (ps + [p])[..|ps|] == ps;
  }

  lemma {:induction false} PrintPairsConcat(a: seq<Pair>, b: seq<Pair>)
    ensures PrintPairs(a + b) == PrintPairs(a) + PrintPairs(b)
  {
    if b == [] {
      assert a + b == a;
    } else {
      var front, p := b[..|b| - 1], b[|b| - 1];
      PrintPairsConcat(a, front);
      ByLast(a, b);
      PrintPairsSnoc(a + front, p);
      PrintPairsSnoc(front, p);
      Assoc(PrintPairs(a), PrintPairs(front), PairLine(p));
    }
  }

  lemma {:induction false} PrintPairsSnoc(ps: seq<Pair>, p: Pair)
    ensures PrintPairs(ps + [p]) == PrintPairs(ps) + PairLine(p)
  {
    assert (ps + [p])[..|ps|] == ps;
  }

  /** Printing clean pairs and splitting the text into words gives the pairs back. */
  lemma {:induction false} WordsOfPrinted(ps: seq<Pair>)
    requires AllClean(ps)
    ensures PairUp(Words(PrintPairs(ps))) == ps
  {
    if ps != [] {
      var p, rest := ps[0], ps[1..];
      assert ps == [p] + rest;
      WordsOfPrinted(rest);
      PrintPairsCons(p, rest);
      WordsOfLine(p, PrintPairs(rest));
      PairUpCons(p, Words(PrintPairs(rest)));
    }
  }

  lemma {:induction false} PrintPairsCons(p: Pair, rest: seq<Pair>)
    ensures PrintPairs([p] + rest) == PairLine(p) + PrintPairs(rest)
  {
    PrintPairsConcat([p], rest);
    PrintPairsSnoc([], p);
    assert [] + [p] == [p] && "" + PairLine(p) == PairLine(p);
  }

  /** A file of pairs is a sequence of lines with a key and a value. */
  lemma {:induction false} PrintedPairIs(k: string, v: string)
    ensures PrintPairs([]) == "" && PrintPairs([Pair(k, v)]) == k + " " + v + "\n"
  {
    PrintPairsCons(Pair(k, v), []);
    EmptyEnds([Pair(k, v)]);
    EmptyEnds(k + " " + v + "\n");
  }

  lemma {:induction false} WordsOfLine(p: Pair, tail: string)
    requires IsClean(p)
    ensures Words(PairLine(p) + tail) == [p.key] + ([p.value] + Words(tail))
  {
    assert PairLine(p) + tail == p.key + [' '] + (p.value + ['\n'] + tail);
    WordsCons(p.key, ' ', p.value + ['\n'] + tail);
    WordsCons(p.value, '\n', tail);
  }

  lemma {:induction false} PairUpCons(p: Pair, ws: seq<string>)
    ensures PairUp([p.key] + ([p.value] + ws)) == [p] + PairUp(ws)
  {
    assert ([p.key] + ([p.value] + ws))[2..] == ws;
  }

  /** The pair at position `i` holds the words `2 * i` and `2 * i + 1`. */
  lemma {:induction false} PairUpIs(ws: seq<string>)
    ensures |PairUp(ws)| == |ws| / 2
    ensures forall i :: 0 <= i < |ws| / 2 ==> PairUp(ws)[i] == Pair(ws[2 * i], ws[2 * i + 1])
  {
    if |ws| >= 2 {
      PairUpIs(ws[2..]);
    }
  }

  lemma {:induction false} PairUpClean(ws: seq<string>)
    requires forall i :: 0 <= i < |ws| ==> IsWord(ws[i])
    ensures AllClean(PairUp(ws))
  {
    if |ws| >= 2 {
      PairUpClean(ws[2..]);
    }
  }

  /** Whatever a file holds, `read_text` only ever returns words as keys and values. */
  lemma {:induction false} ParsedHoldsWords(text: string)
    ensures forall k :: k in Parsed(text) ==>
                          IsWord(k) && forall v :: v in Parsed(text)[k] ==> IsWord(v)
  {
    var ps := PairUp(Words(text));
    GroupedIs(ps);
    WordsAreWords(text, 0);
    PairUpClean(Words(text));
    forall k | k in Parsed(text)
      ensures IsWord(k) && forall v :: v in Parsed(text)[k] ==> IsWord(v)
    {
      KeysOfSource(ps, k);
      var i :| 0 <= i < |ps| && ps[i].key == k;
      assert IsClean(ps[i]);
      forall v | v in Parsed(text)[k] ensures IsWord(v) {
        ValuesOfSource(k, ps, v);
      }
    }
  }

  /** If a grouping holds only words, the pairs behind it are clean. */
  lemma {:induction false} GroupedOfWordsIsClean(ps: seq<Pair>)
    requires forall k :: k in Grouped(ps) ==> IsWord(k) && forall v :: v in Grouped(ps)[k] ==> IsWord(v)
    ensures AllClean(ps)
  {
    GroupedIs(ps);
    forall i | 0 <= i < |ps| ensures IsClean(ps[i]) {
      KeysOfSource(ps, ps[i].key);
      ValuesOfSource(ps[i].key, ps, ps[i].value);
      assert ps[i].key in Grouped(ps);
    }
  }

  /** The intermediate file is read back faithfully exactly when every key and every value
      is non-empty and free of white space. */
  lemma {:induction false} RoundTrip(ps: seq<Pair>)
    ensures Parsed(PrintPairs(ps)) == Grouped(ps) <==> AllClean(ps)
  {
    if AllClean(ps) {
      WordsOfPrinted(ps);
    } else if Parsed(PrintPairs(ps)) == Grouped(ps) {
      ParsedHoldsWords(PrintPairs(ps));
      GroupedOfWordsIsClean(ps);
      assert false;
    }
  }

  /** A pair with an empty value is lost: its line holds one word only. */
  lemma {:induction false} EmptyValueIsLost()
    ensures Parsed(PrintPairs([Pair("a", "")])) == map[] != Grouped([Pair("a", "")])
  {
    var ps := [Pair("a", "")];
    assert ps[..0] == [];
    assert PrintPairs(ps) == "a" + [' '] + "\n";
    WordsCons("a", ' ', "\n");
    assert SpaceEnd("\n", 0) == 1;
    assert PairUp(["a"]) == [];
    assert "a" in KeysOf(ps);
  }

  // ---------------------------------------------------------------- output files

  function SpacedValues(vs: seq<string>): string {
    if vs == [] then "" else SpacedValues(vs[..|vs| - 1]) + vs[|vs| - 1] + " "
  }

  function EntryLine(e: Entry): string {
    e.key + " " + SpacedValues(e.values) + "\n"
  }

  /** The text of an output file. */
  function PrintEntries(es: seq<Entry>): string {
    if es == [] then "" else PrintEntries(es[..|es| - 1]) + EntryLine(es[|es| - 1])
  }

  lemma {:induction false} PrintEntriesSnoc(es: seq<Entry>, e: Entry)
    ensures PrintEntries(es + [e]) == PrintEntries(es) + EntryLine(e)
  {
    assert (es + [e])[..|es|] == es;
  }

  lemma {:induction false} PrintEntriesConcat(a: seq<Entry>, b: seq<Entry>)
    ensures PrintEntries([]) == "" && PrintEntries(a + b) == PrintEntries(a) + PrintEntries(b)
  {
    if b == [] {
      EmptyEnds(a);
    } else {
      var front, e := b[..|b| - 1], b[|b| - 1];
      PrintEntriesConcat(a, front);
      ByLast(a, b);
      PrintEntriesSnoc(a + front, e);
      PrintEntriesSnoc(front, e);
      Assoc(PrintEntries(a), PrintEntries(front), EntryLine(e));
    }
  }

  lemma {:induction false} PrintOneEntry(e: Entry)
    ensures PrintEntries([e]) == EntryLine(e)
  {
    PrintEntriesSnoc([], e);
    EmptyEnds([e]);
    EmptyEnds(EntryLine(e));
  }

  lemma {:induction false} SpacedValuesSnoc(vs: seq<string>, v: string)
    ensures SpacedValues(vs + [v]) == SpacedValues(vs) + v + " "
  {
    assert (vs + [v])[..|vs|] == vs;
  }

  /** The line of a key: every further value goes in front of the end of the line. */
  lemma {:induction false} PrintedEntryIs(k: string, vs: seq<string>, v: string, t: string)
    requires t == PrintEntries([Entry(k, vs)])
    ensures PrintEntries([Entry(k, [])]) == k + " \n"
    ensures t != "" && PrintEntries([Entry(k, vs + [v])]) == t[..|t| - 1] + v + " \n"
  {
    PrintOneEntry(Entry(k, []));
    assert k + " " + "" + "\n" == k + " \n";
    PrintOneEntry(Entry(k, vs));
    PrintOneEntry(Entry(k, vs + [v]));
    SpacedValuesSnoc(vs, v);
    assert t[..|t| - 1] == k + " " + SpacedValues(vs);
    assert k + " " + (SpacedValues(vs) + v + " ") + "\n" == k + " " + SpacedValues(vs) + v + " \n";
  }

  predicate IsCleanEntry(e: Entry) {
    IsWord(e.key) && forall i :: 0 <= i < |e.values| ==> IsWord(e.values[i])
  }

  lemma {:induction false} SpacedValuesCons(v: string, vs: seq<string>)
    ensures SpacedValues([v] + vs) == v + " " + SpacedValues(vs)
  {
    if vs == [] {
      EmptyEnds([v]);
      SpacedValuesSnoc([], v);
      assert "" + v + " " == v + " " + "";
    } else {
      var front, last := vs[..|vs| - 1], vs[|vs| - 1];
      SpacedValuesCons(v, front);
      ByLast([v], vs);
      SpacedValuesSnoc([v] + front, last);
      SpacedValuesSnoc(front, last);
      Assoc(v + " ", SpacedValues(front), last);
      Assoc(v + " ", SpacedValues(front) + last, " ");
    }
  }

  lemma {:induction false} WordsOfSpacedValues(vs: seq<string>)
    requires forall i :: 0 <= i < |vs| ==> IsWord(vs[i])
    ensures Words(SpacedValues(vs)) == vs
  {
    if vs == [] {
      WordsOfNothing();
    } else {
      var v, rest := vs[0], vs[1..];
      assert vs == [v] + rest;
      WordsOfSpacedValues(rest);
      SpacedValuesCons(v, rest);
      WordsCons(v, ' ', SpacedValues(rest));
    }
  }

  lemma {:induction false} NoLineEndInSpaced(vs: seq<string>)
    requires forall i :: 0 <= i < |vs| ==> IsWord(vs[i])
    ensures '\n' !in SpacedValues(vs)
  {
    if vs != [] {
      NoLineEndInSpaced(vs[..|vs| - 1]);
    }
  }

  /** An output file holds one line for each entry, with its key and its values in order. */
  lemma {:induction false} EntriesReadBack(es: seq<Entry>)
    requires forall i :: 0 <= i < |es| ==> IsCleanEntry(es[i])
    ensures var lines := Lines(PrintEntries(es));
            && |lines| == |es|
            && forall i :: 0 <= i < |es| ==> Words(lines[i]) == [es[i].key] + es[i].values
  {
    if es == [] {
      LinesOfNothing();
    } else {
      var e, rest := es[0], es[1..];
      assert es == [e] + rest;
      EntriesReadBack(rest);
      PrintEntriesConcat([e], rest);
      PrintOneEntry(e);
      var line := e.key + " " + SpacedValues(e.values);
      NoLineEndInSpaced(e.values);
      LinesCons(line, PrintEntries(rest));
      WordsCons(e.key, ' ', SpacedValues(e.values));
      WordsOfSpacedValues(e.values);
    }
  }

  /** `write_key_val_vector`: the text that ends up in the file. */
  method WriteKeyValVector(data: seq<Entry>) returns (fout: string)
    ensures fout == PrintEntries(data)
  {
    fout := "";
    for i := 0 to |data|
      invariant fout == PrintEntries(data[..i])
    {
      var elem := data[i];
      ghost var before := fout;
      fout := fout + elem.key + " ";
      for j := 0 to |elem.values|
        invariant fout == before + elem.key + " " + SpacedValues(elem.values[..j])
      {
        assert elem.values[..j + 1][..j] == elem.values[..j];
        fout := fout + elem.values[j] + " ";
      }
      assert elem.values[..|elem.values|] == elem.values;
      fout := fout + "\n";
      assert fout == before + EntryLine(elem);
      assert data[..i + 1][..i] == data[..i];
    }
    assert data[..|data|] == data;
  }
}
