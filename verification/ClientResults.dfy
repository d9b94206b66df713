/** What the three client programs leave in their output files, whatever the number of
    workers, the hash functions and the crashes. */
module ClientResults {
  import opened Text
  import opened Utility
  import opened MapReduce
  import opened Conservation
  import opened Protocol
  import opened Theorems
  import opened Clients

  // ---------------------------------------------------------------- occurrences

  /** How often `w` occurs in the first `n` lines. */
  function Occurrences(lines: seq<string>, w: string, n: nat): nat
    requires n <= |lines|
  {
    if n == 0 then 0 else Occurrences(lines, w, n - 1) + Count(Words(lines[n - 1]), w)
  }

  lemma {:induction false} CountPositive(w: string, ws: seq<string>)
    ensures Count(ws, w) > 0 <==> w in ws
  {
    CountIsMultiplicity(ws, w);
  }

  // ---------------------------------------------------------------- pairs tagged with one value

  function Copies(v: string, n: nat): (vs: seq<string>)
    ensures |vs| == n && forall i :: 0 <= i < n ==> vs[i] == v
  {
    seq(n, _ => v)
  }

  lemma {:induction false} ValuesOfTagged(k: string, ws: seq<string>, v: string)
    ensures ValuesOf(k, Tagged(ws, v)) == Copies(v, Count(ws, k))
  {
    if ws != [] {
      var head := [Pair(ws[0], v)];
      ValuesOfTagged(k, ws[1..], v);
      ValuesOfConcat(k, head, Tagged(ws[1..], v));
      assert head[..0] == [];
      CountConcat([ws[0]], ws[1..], k);
      assert ws == [ws[0]] + ws[1..];
      assert [ws[0]][..0] == [];
    }
  }

  lemma {:induction false} TaggedIsClean(line: string, v: string)
    requires IsWord(v)
    ensures AllClean(Tagged(Words(line), v))
  {
    TaggedIs(Words(line), v);
    WordsAreWords(line, 0);
  }

  lemma {:induction false} CleanEmissions(cfg: Config, n: nat)
    requires n <= |cfg.lines|
    requires forall i :: 0 <= i < n ==> AllClean(LinePairs(cfg, i))
    ensures AllClean(SequentialEmitted(cfg, n))
  {
    if n > 0 {
      CleanEmissions(cfg, n - 1);
    }
  }

  // ---------------------------------------------------------------- WordCounter

  lemma {:induction false} WordCounterValues(cfg: Config, w: string, n: nat)
    requires cfg.program == WordCounter() && n <= |cfg.lines|
    ensures ValuesOf(w, SequentialEmitted(cfg, n)) == Copies("1", Occurrences(cfg.lines, w, n))
  {
    if n > 0 {
      WordCounterValues(cfg, w, n - 1);
      ValuesOfConcat(w, SequentialEmitted(cfg, n - 1), LinePairs(cfg, n - 1));
      ValuesOfTagged(w, Words(cfg.lines[n - 1]), "1");
    }
  }

  lemma {:induction false} TotalOfOnes(n: nat)
    ensures Total(Copies("1", n)) == Some(n)
  {
    if n > 0 {
      TotalOfOnes(n - 1);
      assert Copies("1", n)[..n - 1] == Copies("1", n - 1);
      StoiToString(1);
    }
  }

  /** The entries of a word count for the words `ws`, in the order of `ws`. */
  function CountEntries(lines: seq<string>, ws: seq<string>): seq<Entry> {
    if ws == [] then []
    else
      var w := ws[|ws| - 1];
      CountEntries(lines, ws[..|ws| - 1]) + [Entry(w, [ToString(Occurrences(lines, w, |lines|))])]
  }

  /** The words of the input that belong to reducer `r`. */
  ghost function OwnedWords(cfg: Config, r: nat): set<string>
    requires cfg.Valid()
  {
    set i, w | 0 <= i < |cfg.lines| && w in Words(cfg.lines[i]) && cfg.KeyOwner(w) == r :: w
  }

  lemma {:induction false} OccurrencesIs(lines: seq<string>, w: string, n: nat)
    requires n <= |lines|
    ensures Occurrences(lines, w, n) > 0 <==> exists i :: 0 <= i < n && w in Words(lines[i])
  {
    if n > 0 {
      OccurrencesIs(lines, w, n - 1);
      CountPositive(w, Words(lines[n - 1]));
    }
  }

  lemma {:induction false} TotalSnoc(number: string -> Option<int>, values: seq<string>, value: string)
    ensures TotalBy(number, values + [value]) == Plus(TotalBy(number, values), number(value))
  {
    assert (values + [value])[..|values|] == values;
  }

  lemma {:induction false} TotalConcat(number: string -> Option<int>, a: seq<string>, b: seq<string>)
    ensures TotalBy(number, a + b) == Plus(TotalBy(number, a), TotalBy(number, b))
    decreases |b|
  {
    if b == [] {
      assert a + b == a;
    } else {
      var front, last := b[..|b| - 1], b[|b| - 1];
      ByLast(a, b);
      TotalConcat(number, a, front);
      TotalSnoc(number, a + front, last);
      TotalSnoc(number, front, last);
    }
  }

  lemma {:induction false} TotalWithout(number: string -> Option<int>, values: seq<string>, j: nat)
    requires j < |values|
    ensures TotalBy(number, values) == Plus(TotalBy(number, values[..j] + values[j + 1..]), number(values[j]))
  {
    var u, x, w := values[..j], values[j], values[j + 1..];
    Around(values, j);
    TotalOfThree(number, u, x, w);
  }

  lemma {:induction false} Around<T>(s: seq<T>, j: nat)
    requires j < |s|
    ensures s == (s[..j] + [s[j]]) + s[j + 1..]
  {
  }

  lemma {:induction false} TotalOfThree(number: string -> Option<int>, u: seq<string>, x: string, w: seq<string>)
    ensures TotalBy(number, (u + [x]) + w) == Plus(TotalBy(number, u + w), number(x))
  {
    TotalConcat(number, u + [x], w);
    TotalSnoc(number, u, x);
    TotalConcat(number, u, w);
  }

  lemma {:induction false} WithoutOne(s: seq<string>, j: nat)
    requires j < |s|
    ensures multiset(s[..j] + s[j + 1..]) == multiset(s) - multiset{s[j]}
  {
    assert s == s[..j] + [s[j]] + s[j + 1..];
  }

  /** The last element of `a` is somewhere in `b`, and the others are those of `b`. */
  lemma {:induction false} FindLast(a: seq<string>, b: seq<string>) returns (j: nat)
    requires multiset(a) == multiset(b) && a != []
    ensures j < |b| && b[j] == a[|a| - 1]
    ensures multiset(a[..|a| - 1]) == multiset(b[..j] + b[j + 1..])
  {
    var n := |a| - 1;
    WithoutOne(a, n);
    assert a[..n] + a[n + 1..] == a[..n];
    assert a[n] in multiset(a);
    j :| 0 <= j < |b| && b[j] == a[n];
    WithoutOne(b, j);
  }

  lemma {:induction false} TotalIgnoresOrder(number: string -> Option<int>, a: seq<string>, b: seq<string>)
    requires multiset(a) == multiset(b)
    ensures TotalBy(number, a) == TotalBy(number, b)
    decreases |a|
  {
    if a == [] {
      assert |multiset(b)| == 0;
    } else {
      var j := FindLast(a, b);
      TotalIgnoresOrder(number, a[..|a| - 1], b[..j] + b[j + 1..]);
      TotalWithout(number, b, j);
    }
  }

  lemma {:induction false} WordCounterIgnoresOrder()
    ensures OrderInsensitive(WordCounter())
  {
    forall k, vs, vs' | multiset(vs) == multiset(vs')
      ensures WordCounter().reduceFn(k, vs) == WordCounter().reduceFn(k, vs')
    {
      TotalIgnoresOrder(Stoi, vs, vs');
    }
  }

  lemma {:induction false} WordCounterIsClean(cfg: Config)
    requires cfg.program == WordCounter()
    ensures AllClean(SequentialPairs(cfg))
  {
    StoiToString(1);
    forall i | 0 <= i < |cfg.lines| ensures AllClean(LinePairs(cfg, i)) {
      TaggedIsClean(cfg.lines[i], "1");
    }
    CleanEmissions(cfg, |cfg.lines|);
  }

  lemma {:induction false} WordCounterGroups(cfg: Config, w: string)
    requires cfg.program == WordCounter()
    ensures w in SequentialGroups(cfg) <==> Occurrences(cfg.lines, w, |cfg.lines|) > 0
    ensures w in SequentialGroups(cfg) ==>
              SequentialGroups(cfg)[w] == Copies("1", Occurrences(cfg.lines, w, |cfg.lines|))
  {
    GroupedIs(SequentialPairs(cfg));
    ValuesOfAbsentKey(w, SequentialPairs(cfg));
    WordCounterValues(cfg, w, |cfg.lines|);
  }

  lemma {:induction false} WordCounterEntries(cfg: Config, ws: seq<string>)
    requires cfg.program == WordCounter()
    requires forall i :: 0 <= i < |ws| ==> ws[i] in SequentialGroups(cfg)
    ensures Reduced(cfg.program, SequentialGroups(cfg), ws) == CountEntries(cfg.lines, ws)
  {
    if ws != [] {
      var w := ws[|ws| - 1];
      WordCounterEntries(cfg, ws[..|ws| - 1]);
      WordCounterGroups(cfg, w);
      TotalOfOnes(Occurrences(cfg.lines, w, |cfg.lines|));
    }
  }

  /** WordCounter: each output file lists, in order, exactly the words that belong to it, each
      with its number of occurrences in the whole input. */
  lemma {:induction false} WordCounterResult(cfg: Config, files: Files, events: seq<Event>, r: nat)
    requires cfg.Valid() && cfg.program == WordCounter() && r < cfg.nrReducer
    requires Run(cfg, Start(cfg, files), events).control == Returned
    ensures ReadFile(Run(cfg, Start(cfg, files), events).files, Output(r)) ==
            PrintEntries(CountEntries(cfg.lines, SortedKeys(OwnedWords(cfg, r))))
  {
    WordCounterIsClean(cfg);
    WordCounterIgnoresOrder();
    EveryRunIsInLineOrder(cfg, files, events);
    forall w ensures w in OwnedKeys(cfg, r) <==> w in OwnedWords(cfg, r) {
      WordCounterGroups(cfg, w);
      OccurrencesIs(cfg.lines, w, |cfg.lines|);
    }
    assert OwnedKeys(cfg, r) == OwnedWords(cfg, r);
    var ws := SortedKeys(OwnedKeys(cfg, r));
    assert forall i :: 0 <= i < |ws| ==> ws[i] in ws;
    WordCounterEntries(cfg, ws);
  }

  // ---------------------------------------------------------------- InvertedIndex

  /** The numbers of the first `n` lines that contain `w`, as the strings that are emitted. */
  ghost function Positions(lines: seq<string>, w: string, n: nat): set<string>
    requires n <= |lines|
  {
    set i | 0 <= i < n && w in Words(lines[i]) :: ToString(i)
  }

  ghost predicate IsPosition(lines: seq<string>, w: string, n: nat, v: string)
    requires n <= |lines|
  {
    n > 0 && (IsPosition(lines, w, n - 1, v) || (w in Words(lines[n - 1]) && v == ToString(n - 1)))
  }

  lemma {:induction false} IsPositionIs(lines: seq<string>, w: string, n: nat, v: string)
    requires n <= |lines|
    ensures IsPosition(lines, w, n, v) <==> v in Positions(lines, w, n)
  {
    if n > 0 {
      IsPositionIs(lines, w, n - 1, v);
    }
  }

  lemma {:induction false} InvertedIndexValue(cfg: Config, w: string, n: nat, v: string)
    requires cfg.program == InvertedIndex() && n <= |cfg.lines|
    ensures v in ValuesOf(w, SequentialEmitted(cfg, n)) <==> IsPosition(cfg.lines, w, n, v)
  {
    if n > 0 {
      var line := cfg.lines[n - 1];
      InvertedIndexValue(cfg, w, n - 1, v);
      ValuesOfConcat(w, SequentialEmitted(cfg, n - 1), LinePairs(cfg, n - 1));
      ValuesOfTagged(w, Words(line), ToString(n - 1));
      CountPositive(w, Words(line));
      CopiesHold(ToString(n - 1), Count(Words(line), w), v);
    }
  }

  lemma {:induction false} CopiesHold(v: string, n: nat, x: string)
    ensures x in Copies(v, n) <==> n > 0 && x == v
  {
    if n > 0 {
      assert Copies(v, n)[0] == v;
    }
  }

  lemma {:induction false} InvertedIndexValues(cfg: Config, w: string)
    requires cfg.program == InvertedIndex()
    ensures (set v | v in ValuesOf(w, SequentialPairs(cfg))) == Positions(cfg.lines, w, |cfg.lines|)
  {
    forall v ensures v in ValuesOf(w, SequentialPairs(cfg)) <==> v in Positions(cfg.lines, w, |cfg.lines|) {
      InvertedIndexValue(cfg, w, |cfg.lines|, v);
      IsPositionIs(cfg.lines, w, |cfg.lines|, v);
    }
  }

  /** The index entries for the words `ws`, in the order of `ws`. */
  ghost function IndexEntries(lines: seq<string>, ws: seq<string>): seq<Entry> {
    if ws == [] then []
    else
      var w := ws[|ws| - 1];
      IndexEntries(lines, ws[..|ws| - 1]) + [Entry(w, SortedKeys(Positions(lines, w, |lines|)))]
  }

  lemma {:induction false} InvertedIndexIgnoresOrder()
    ensures OrderInsensitive(InvertedIndex())
  {
    forall k, vs, vs' | multiset(vs) == multiset(vs')
      ensures InvertedIndex().reduceFn(k, vs) == InvertedIndex().reduceFn(k, vs')
    {
      SortedUniqueIs(vs);
      SortedUniqueIs(vs');
      forall v ensures v in vs <==> v in vs' {
        assert v in vs <==> v in multiset(vs);
      }
      assert (set v | v in vs) == (set v | v in vs');
    }
  }

  lemma {:induction false} InvertedIndexGroups(cfg: Config, w: string)
    requires cfg.program == InvertedIndex()
    ensures w in SequentialGroups(cfg) <==> exists i :: 0 <= i < |cfg.lines| && w in Words(cfg.lines[i])
    ensures w in SequentialGroups(cfg) ==>
              SortedUnique(SequentialGroups(cfg)[w]) == SortedKeys(Positions(cfg.lines, w, |cfg.lines|))
  {
    var ps := SequentialPairs(cfg);
    GroupedIs(ps);
    ValuesOfAbsentKey(w, ps);
    InvertedIndexValues(cfg, w);
    SortedUniqueIs(ValuesOf(w, ps));
    if ValuesOf(w, ps) != [] {
      assert ValuesOf(w, ps)[0] in Positions(cfg.lines, w, |cfg.lines|);
    }
    if i :| 0 <= i < |cfg.lines| && w in Words(cfg.lines[i]) {
      assert ToString(i) in Positions(cfg.lines, w, |cfg.lines|);
    }
  }

  lemma {:induction false} InvertedIndexEntries(cfg: Config, ws: seq<string>)
    requires cfg.program == InvertedIndex()
    requires forall i :: 0 <= i < |ws| ==> ws[i] in SequentialGroups(cfg)
    ensures Reduced(cfg.program, SequentialGroups(cfg), ws) == IndexEntries(cfg.lines, ws)
  {
    if ws != [] {
      InvertedIndexEntries(cfg, ws[..|ws| - 1]);
      InvertedIndexGroups(cfg, ws[|ws| - 1]);
    }
  }

  /** InvertedIndex: each output file lists, in order, exactly the words that belong to it,
      each with exactly the numbers of the lines that contain it, once each and in the order of
      strings. */
  lemma {:induction false} InvertedIndexResult(cfg: Config, files: Files, events: seq<Event>, r: nat)
    requires cfg.Valid() && cfg.program == InvertedIndex() && r < cfg.nrReducer
    requires Run(cfg, Start(cfg, files), events).control == Returned
    ensures ReadFile(Run(cfg, Start(cfg, files), events).files, Output(r)) ==
            PrintEntries(IndexEntries(cfg.lines, SortedKeys(OwnedWords(cfg, r))))
  {
    forall i | 0 <= i < |cfg.lines| ensures AllClean(LinePairs(cfg, i)) {
      TaggedIsClean(cfg.lines[i], ToString(i));
    }
    CleanEmissions(cfg, |cfg.lines|);
    InvertedIndexIgnoresOrder();
    EveryRunIsInLineOrder(cfg, files, events);
    forall w ensures w in OwnedKeys(cfg, r) <==> w in OwnedWords(cfg, r) {
      InvertedIndexGroups(cfg, w);
    }
    assert OwnedKeys(cfg, r) == OwnedWords(cfg, r);
    var ws := SortedKeys(OwnedKeys(cfg, r));
    assert forall i :: 0 <= i < |ws| ==> ws[i] in ws;
    InvertedIndexEntries(cfg, ws);
  }

  // ---------------------------------------------------------------- ReverseWeblinkGraph

  datatype Link = Link(source: string, target: string)

  /** A link whose line the map function splits as meant, and whose parts survive the
      intermediate file. */
  predicate CleanLink(l: Link) {
    IsWord(l.source) && IsWord(l.target) && ',' !in l.source
  }

  /** The input has one line "source,target" per link. */
  ghost predicate LinkInput(cfg: Config, links: seq<Link>) {
    && |links| == |cfg.lines|
    && forall i :: 0 <= i < |links| ==> CleanLink(links[i]) && cfg.lines[i] == links[i].source + "," + links[i].target
  }

  /** The sources of the first `n` links that point to `t`. */
  function SourcesOf(links: seq<Link>, t: string, n: nat): seq<string>
    requires n <= |links|
  {
    if n == 0 then []
    else SourcesOf(links, t, n - 1) + if links[n - 1].target == t then [links[n - 1].source] else []
  }

  ghost function OwnedTargets(cfg: Config, links: seq<Link>, r: nat): set<string>
    requires cfg.Valid()
  {
    set i | 0 <= i < |links| && cfg.KeyOwner(links[i].target) == r :: links[i].target
  }

  lemma {:induction false} LinkPairs(cfg: Config, links: seq<Link>, i: nat)
    requires cfg.program == ReverseWeblinkGraph() && LinkInput(cfg, links) && i < |links|
    ensures LinePairs(cfg, i) == [Pair(links[i].target, links[i].source)]
  {
    assert '\n' !in links[i].target by {
      assert forall k :: 0 <= k < |links[i].target| ==> !IsSpace(links[i].target[k]);
    }
    OneLinkPerLine(ToString(i), links[i].source, links[i].target);
  }

  lemma {:induction false} LinkValues(cfg: Config, links: seq<Link>, t: string, n: nat)
    requires cfg.program == ReverseWeblinkGraph() && LinkInput(cfg, links) && n <= |links|
    ensures ValuesOf(t, SequentialEmitted(cfg, n)) == SourcesOf(links, t, n)
  {
    if n > 0 {
      LinkValues(cfg, links, t, n - 1);
      LinkPairs(cfg, links, n - 1);
      var before, p := SequentialEmitted(cfg, n - 1), Pair(links[n - 1].target, links[n - 1].source);
      assert SequentialEmitted(cfg, n) == before + [p];
      assert (before + [p])[..|before|] == before;
    }
  }

  lemma {:induction false} SourcesOfIs(links: seq<Link>, t: string, n: nat)
    requires n <= |links|
    ensures SourcesOf(links, t, n) != [] <==> exists i :: 0 <= i < n && links[i].target == t
  {
    if n > 0 {
      SourcesOfIs(links, t, n - 1);
    }
  }

  lemma {:induction false} LinksAreClean(cfg: Config, links: seq<Link>)
    requires cfg.program == ReverseWeblinkGraph() && LinkInput(cfg, links)
    ensures AllClean(SequentialPairs(cfg))
  {
    forall i | 0 <= i < |cfg.lines| ensures AllClean(LinePairs(cfg, i)) {
      LinkPairs(cfg, links, i);
    }
    CleanEmissions(cfg, |cfg.lines|);
  }

  lemma {:induction false} LinkGroups(cfg: Config, links: seq<Link>, t: string)
    requires cfg.program == ReverseWeblinkGraph() && LinkInput(cfg, links)
    ensures t in SequentialGroups(cfg) <==> exists i :: 0 <= i < |links| && links[i].target == t
    ensures t in SequentialGroups(cfg) ==> SequentialGroups(cfg)[t] == SourcesOf(links, t, |links|)
  {
    GroupedIs(SequentialPairs(cfg));
    ValuesOfAbsentKey(t, SequentialPairs(cfg));
    LinkValues(cfg, links, t, |links|);
    SourcesOfIs(links, t, |links|);
  }

  /** Of the first `n` links, the sources that mapper `m` emits for `t`. */
  function MapperSources(cfg: Config, links: seq<Link>, t: string, m: nat, n: nat): seq<string>
    requires cfg.nrMapper >= 1 && n <= |links|
  {
    if n == 0 then []
    else
      MapperSources(cfg, links, t, m, n - 1) +
      if cfg.LineOwner(n - 1) == m && links[n - 1].target == t then [links[n - 1].source] else []
  }

  /** The sources of `t`, mapper after mapper, each in the order of the input. */
  function SourcesByMapper(cfg: Config, links: seq<Link>, t: string, nm: nat): seq<string>
    requires cfg.nrMapper >= 1
  {
    if nm == 0 then []
    else SourcesByMapper(cfg, links, t, nm - 1) + MapperSources(cfg, links, t, nm - 1, |links|)
  }

  /** One line per target, with all its sources. */
  function LinkEntries(cfg: Config, links: seq<Link>, ts: seq<string>): seq<Entry>
    requires cfg.nrMapper >= 1
  {
    if ts == [] then []
    else
      var t := ts[|ts| - 1];
      LinkEntries(cfg, links, ts[..|ts| - 1]) + [Entry(t, SourcesByMapper(cfg, links, t, cfg.nrMapper))]
  }

  lemma {:induction false} MapperLinkValues(cfg: Config, links: seq<Link>, t: string, m: nat, n: nat)
    requires cfg.nrMapper >= 1 && cfg.program == ReverseWeblinkGraph() && LinkInput(cfg, links) && n <= |links|
    ensures ValuesOf(t, Emitted(cfg, m, n)) == MapperSources(cfg, links, t, m, n)
    decreases n
  {
    if n > 0 {
      MapperLinkValues(cfg, links, t, m, n - 1);
      LinkPairs(cfg, links, n - 1);
      OneMoreLink(t, Emitted(cfg, m, n - 1), Pair(links[n - 1].target, links[n - 1].source), cfg.LineOwner(n - 1) == m);
    }
  }

  lemma {:induction false} OneMoreLink(t: string, before: seq<Pair>, p: Pair, more: bool)
    ensures ValuesOf(t, before + if more then [p] else []) ==
            ValuesOf(t, before) + if more && p.key == t then [p.value] else []
  {
    if more {
      assert (before + [p])[..|before|] == before;
    } else {
      assert before + [] == before;
    }
  }

  lemma {:induction false} LinksInMapperOrder(cfg: Config, links: seq<Link>, t: string, nm: nat)
    requires cfg.nrMapper >= 1 && cfg.program == ReverseWeblinkGraph() && LinkInput(cfg, links)
    ensures MapperOrder(cfg, t, nm) == SourcesByMapper(cfg, links, t, nm)
    decreases nm
  {
    if nm > 0 {
      LinksInMapperOrder(cfg, links, t, nm - 1);
      OneMoreMapper(cfg, links, t, nm - 1);
    }
  }

  lemma {:induction false} OneMoreMapper(cfg: Config, links: seq<Link>, t: string, m: nat)
    requires cfg.nrMapper >= 1 && cfg.program == ReverseWeblinkGraph() && LinkInput(cfg, links)
    requires MapperOrder(cfg, t, m) == SourcesByMapper(cfg, links, t, m)
    ensures MapperOrder(cfg, t, m + 1) == SourcesByMapper(cfg, links, t, m + 1)
  {
    MapperLinkValues(cfg, links, t, m, |links|);
  }

  lemma {:induction false} LinkEntriesAre(cfg: Config, links: seq<Link>, ts: seq<string>)
    requires cfg.Valid() && cfg.program == ReverseWeblinkGraph() && LinkInput(cfg, links)
    requires forall i :: 0 <= i < |ts| ==> ts[i] in MapperGroups(cfg)
    ensures Reduced(cfg.program, MapperGroups(cfg), ts) == LinkEntries(cfg, links, ts)
    decreases |ts|
  {
    if ts != [] {
      LinkEntriesAre(cfg, links, ts[..|ts| - 1]);
      LinksInMapperOrder(cfg, links, ts[|ts| - 1], cfg.nrMapper);
    }
  }

  /** These are the sources of the target, in some order. */
  lemma {:induction false} SourcesByMapperAreAll(cfg: Config, links: seq<Link>, t: string)
    requires cfg.Valid() && cfg.program == ReverseWeblinkGraph() && LinkInput(cfg, links)
    ensures multiset(SourcesByMapper(cfg, links, t, cfg.nrMapper)) == multiset(SourcesOf(links, t, |links|))
  {
    LinksInMapperOrder(cfg, links, t, cfg.nrMapper);
    LinkValues(cfg, links, t, |links|);
    MapperOrderPermutesLineOrder(cfg, t);
  }

  lemma {:induction false} OwnedTargetsAre(cfg: Config, links: seq<Link>, r: nat)
    requires cfg.Valid() && cfg.program == ReverseWeblinkGraph() && LinkInput(cfg, links)
    ensures OwnedKeys(cfg, r) == OwnedTargets(cfg, links, r)
  {
    forall t ensures t in OwnedKeys(cfg, r) <==> t in OwnedTargets(cfg, links, r) {
      LinkGroups(cfg, links, t);
    }
  }

  /** ReverseWeblinkGraph: each output file is the text that lists, in order, exactly the targets
      that belong to it, each with its sources mapper after mapper; `SourcesByMapperAreAll` says
      that these are all of its sources. */
  lemma {:induction false} ReverseWeblinkResult(cfg: Config, links: seq<Link>, files: Files, events: seq<Event>, r: nat)
    requires cfg.Valid() && cfg.program == ReverseWeblinkGraph() && LinkInput(cfg, links) && r < cfg.nrReducer
    requires Run(cfg, Start(cfg, files), events).control == Returned
    ensures ReadFile(Run(cfg, Start(cfg, files), events).files, Output(r)) ==
            PrintEntries(LinkEntries(cfg, links, SortedKeys(OwnedTargets(cfg, links, r))))
    ensures forall t :: multiset(SourcesByMapper(cfg, links, t, cfg.nrMapper)) == multiset(SourcesOf(links, t, |links|))
  {
    LinksAreClean(cfg, links);
    EveryRunIsSequential(cfg, files, events);
    OwnedTargetsAre(cfg, links, r);
    AllInSorted(OwnedKeys(cfg, r));
    LinkEntriesAre(cfg, links, SortedKeys(OwnedKeys(cfg, r)));
    forall t ensures multiset(SourcesByMapper(cfg, links, t, cfg.nrMapper)) == multiset(SourcesOf(links, t, |links|)) {
      SourcesByMapperAreAll(cfg, links, t);
    }
  }
}
