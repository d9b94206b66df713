/** The simple regular expressions of gtest-port.cc: which texts are accepted as patterns,
    and what the backtracking matcher says about them. A C string is the sequence of the
    characters before its terminating NUL. */
module SimpleRegex {
  import opened Text

  // ---------------------------------------------------------------- characters

  predicate IsAsciiDigit(c: char) {
    '0' <= c <= '9'
  }

  /** The 32 ASCII punctuation characters. */
  predicate IsAsciiPunct(c: char) {
    '!' <= c <= '/' || ':' <= c <= '@' || '[' <= c <= '`' || '{' <= c <= '~'
  }

  predicate IsRepeat(c: char) {
    c == '?' || c == '*' || c == '+'
  }

  predicate IsAsciiWordChar(c: char) {
    'a' <= c <= 'z' || 'A' <= c <= 'Z' || '0' <= c <= '9' || c == '_'
  }

  predicate IsValidEscape(c: char) {
    || IsAsciiPunct(c)
    || c == 'd' || c == 'D' || c == 'f' || c == 'n' || c == 'r' || c == 's' || c == 'S'
    || c == 't' || c == 'v' || c == 'w' || c == 'W'
  }

  predicate IsUnsupported(c: char) {
    c == '(' || c == ')' || c == '[' || c == ']' || c == '{' || c == '}' || c == '|'
  }

  predicate AtomMatchesChar(escaped: bool, p: char, c: char) {
    if escaped then
      match p
      case 'd' => IsAsciiDigit(c)
      case 'D' => !IsAsciiDigit(c)
      case 'f' => c == '\U{000C}'
      case 'n' => c == '\n'
      case 'r' => c == '\r'
      case 's' => IsSpace(c)
      case 'S' => !IsSpace(c)
      case 't' => c == '\t'
      case 'v' => c == '\U{000B}'
      case 'w' => IsAsciiWordChar(c)
      case 'W' => !IsAsciiWordChar(c)
      case _ => IsAsciiPunct(p) && p == c
    else (p == '.' && c != '\n') || p == c
  }

  /** The sets of characters, as the strings that list them. */
  lemma {:induction false} CharacterSets(c: char)
    ensures IsAsciiPunct(c) <==> c in "^-!\"#$%&'()*+,./:;<=>?@[\\]_`{|}~"
    ensures IsRepeat(c) <==> c in "?*+"
    ensures IsUnsupported(c) <==> c in "()[]{}|"
    ensures IsValidEscape(c) <==> IsAsciiPunct(c) || c in "dDfnrsStvwW"
  {
  }

  /** Which characters an atom stands for. */
  lemma {:induction false} AtomsAre(p: char, c: char)
    ensures AtomMatchesChar(false, '.', c) <==> c != '\n'
    ensures p != '.' ==> (AtomMatchesChar(false, p, c) <==> c == p)
    ensures AtomMatchesChar(true, 'd', c) <==> c in "0123456789"
    ensures AtomMatchesChar(true, 's', c) <==> c in " \t\n\U{000B}\U{000C}\r"
    ensures AtomMatchesChar(true, 'w', c) <==> c == '_' || 48 <= c as int <= 57 || 65 <= c as int <= 90 || 97 <= c as int <= 122
    ensures AtomMatchesChar(true, 'D', c) <==> !AtomMatchesChar(true, 'd', c)
    ensures AtomMatchesChar(true, 'S', c) <==> !AtomMatchesChar(true, 's', c)
    ensures AtomMatchesChar(true, 'W', c) <==> !AtomMatchesChar(true, 'w', c)
    ensures AtomMatchesChar(true, 'f', c) <==> c as int == 12
    ensures AtomMatchesChar(true, 'n', c) <==> c as int == 10
    ensures AtomMatchesChar(true, 'r', c) <==> c as int == 13
    ensures AtomMatchesChar(true, 't', c) <==> c as int == 9
    ensures AtomMatchesChar(true, 'v', c) <==> c as int == 11
    ensures p !in "dDsSwWfnrtv" ==> (AtomMatchesChar(true, p, c) <==> c == p && IsAsciiPunct(p))
  {
  }

  // ---------------------------------------------------------------- languages

  datatype Regex = Empty | Atom(escaped: bool, c: char) | Cat(Regex, Regex) | Alt(Regex, Regex) | Star(Regex)

  /** The substring `s[p..q]` belongs to the language of `re`. */
  ghost predicate Matches(re: Regex, s: string, p: nat, q: nat)
    requires p <= q <= |s|
    decreases re, q - p
  {
    match re
    case Empty => p == q
    case Atom(escaped, c) => q == p + 1 && AtomMatchesChar(escaped, c, s[p])
    case Cat(a, b) => exists m: nat :: p <= m <= q && Matches(a, s, p, m) && Matches(b, s, m, q)
    case Alt(a, b) => Matches(a, s, p, q) || Matches(b, s, p, q)
    case Star(a) => p == q || exists m: nat :: p < m <= q && Matches(a, s, p, m) && Matches(re, s, m, q)
  }

  // ---------------------------------------------------------------- patterns

  datatype Repeat = Once | Optional | Any | Some1

  /** An atom, possibly escaped, with its repetition. */
  datatype Item = Item(escaped: bool, c: char, repeat: Repeat)

  /** An optional '^', a list of items, an optional '$'. */
  datatype Pattern = Pattern(start: bool, items: seq<Item>, end: bool)

  /** An unescaped atom must not be one of the characters with a meaning of their own. */
  predicate LegalItem(x: Item) {
    if x.escaped then IsValidEscape(x.c)
    else x.c != '\0' && x.c != '\\' && x.c != '^' && x.c != '$' && !IsUnsupported(x.c) && !IsRepeat(x.c)
  }

  ghost predicate LegalItems(items: seq<Item>) {
    forall i :: 0 <= i < |items| ==> LegalItem(items[i])
  }

  function RepeatText(r: Repeat): string {
    match r
    case Once => ""
    case Optional => "?"
    case Any => "*"
    case Some1 => "+"
  }

  function ItemText(x: Item): (s: string)
    ensures |s| >= 1
  {
    (if x.escaped then "\\" else "") + [x.c] + RepeatText(x.repeat)
  }

  function ItemsText(items: seq<Item>): string {
    if items == [] then "" else ItemText(items[0]) + ItemsText(items[1..])
  }

  function EndText(end: bool): string {
    if end then "$" else ""
  }

  /** How a pattern is written. */
  function PatternText(p: Pattern): string {
    (if p.start then "^" else "") + ItemsText(p.items) + EndText(p.end)
  }

  function ItemRegex(x: Item): Regex {
    var atom := Atom(x.escaped, x.c);
    match x.repeat
    case Once => atom
    case Optional => Alt(atom, Empty)
    case Any => Star(atom)
    case Some1 => Cat(atom, Star(atom))
  }

  /** The language that a list of items stands for. */
  function ItemsRegex(items: seq<Item>): Regex {
    if items == [] then Empty else Cat(ItemRegex(items[0]), ItemsRegex(items[1..]))
  }

  /** Some substring that starts at `p` belongs to the language; it ends with the text if
      the pattern is anchored there. */
  ghost predicate MatchesAt(items: seq<Item>, end: bool, s: string, p: nat) {
    exists q: nat :: p <= q <= |s| && (end ==> q == |s|) && Matches(ItemsRegex(items), s, p, q)
  }

  /** What it means for a pattern to occur in a text. */
  ghost predicate Occurs(pattern: Pattern, s: string) {
    if pattern.start then MatchesAt(pattern.items, pattern.end, s, 0)
    else exists p: nat :: p <= |s| && MatchesAt(pattern.items, pattern.end, s, p)
  }

  // ---------------------------------------------------------------- repetition

  ghost predicate AllMatch(x: Item, s: string, p: nat, q: nat)
    requires p <= q <= |s|
  {
    forall k :: p <= k < q ==> AtomMatchesChar(x.escaped, x.c, s[k])
  }

  predicate Allowed(r: Repeat, n: nat) {
    match r
    case Once => n == 1
    case Optional => n <= 1
    case Any => true
    case Some1 => n >= 1
  }

  lemma {:induction false} StarOfAtom(x: Item, s: string, p: nat, q: nat)
    requires p <= q <= |s|
    ensures Matches(Star(Atom(x.escaped, x.c)), s, p, q) <==> AllMatch(x, s, p, q)
    decreases q - p
  {
    var atom := Atom(x.escaped, x.c);
    if p < q {
      StarOfAtom(x, s, p + 1, q);
      if AllMatch(x, s, p, q) {
        assert Matches(atom, s, p, p + 1);
      }
    }
  }

  /** An item stands for its atom, repeated as often as its repetition allows. */
  lemma {:induction false} ItemIs(x: Item, s: string, p: nat, q: nat)
    requires p <= q <= |s|
    ensures Matches(ItemRegex(x), s, p, q) <==> Allowed(x.repeat, q - p) && AllMatch(x, s, p, q)
  {
    var atom := Atom(x.escaped, x.c);
    match x.repeat
    case Once =>
    case Optional =>
    case Any => StarOfAtom(x, s, p, q);
    case Some1 =>
      if p < q {
        StarOfAtom(x, s, p + 1, q);
        if AllMatch(x, s, p, q) {
          assert Matches(atom, s, p, p + 1) && Matches(Star(atom), s, p + 1, q);
        }
      }
  }

  /** What an item means by how it is written: one character, at most one, any number or at least one. */
  lemma {:induction false} ItemTextMeans(x: Item, s: string, p: nat, q: nat)
    requires p <= q <= |s|
    ensures var atom := if x.escaped then "\\" + [x.c] else [x.c];
            var n, holds := q - p, Matches(ItemRegex(x), s, p, q);
            var all := forall k :: p <= k < q ==> AtomMatchesChar(x.escaped, x.c, s[k]);
            || (ItemText(x) == atom && (holds <==> n == 1 && all))
            || (ItemText(x) == atom + "?" && (holds <==> n <= 1 && all))
            || (ItemText(x) == atom + "*" && (holds <==> all))
            || (ItemText(x) == atom + "+" && (holds <==> n >= 1 && all))
  {
    ItemIs(x, s, p, q);
  }

  /** An item stands for a plain character. */
  predicate IsLiteral(x: Item) {
    !x.escaped && x.c != '.' && x.repeat == Once
  }

  lemma {:induction false} LiteralsAre(items: seq<Item>, s: string, p: nat, q: nat)
    requires p <= q <= |s| && forall k :: 0 <= k < |items| ==> IsLiteral(items[k])
    ensures Matches(ItemsRegex(items), s, p, q) <==> s[p..q] == ItemsText(items)
    decreases |items|
  {
    if items != [] {
      var x, rest := items[0], items[1..];
      assert Matches(ItemsRegex(items), s, p, q) <==>
             exists m: nat :: p <= m <= q && Matches(ItemRegex(x), s, p, m) && Matches(ItemsRegex(rest), s, m, q);
      forall m: nat | p <= m <= q ensures Matches(ItemRegex(x), s, p, m) <==> m == p + 1 && s[p] == x.c {
        ItemIs(x, s, p, m);
      }
      if p < q {
        LiteralsAre(rest, s, p + 1, q);
        assert s[p..q] == [s[p]] + s[p + 1..q];
      }
    }
  }

  predicate StandsAt(word: string, s: string, p: nat) {
    p + |word| <= |s| && s[p..p + |word|] == word
  }

  lemma {:induction false} LiteralsAt(items: seq<Item>, end: bool, s: string, p: nat)
    requires forall k :: 0 <= k < |items| ==> IsLiteral(items[k])
    ensures var word := ItemsText(items);
            p <= |s| && MatchesAt(items, end, s, p) <==> StandsAt(word, s, p) && (end ==> p + |word| == |s|)
  {
    var word := ItemsText(items);
    if p <= |s| && MatchesAt(items, end, s, p) {
      var q: nat :| p <= q <= |s| && (end ==> q == |s|) && Matches(ItemsRegex(items), s, p, q);
      LiteralsAre(items, s, p, q);
    }
    if StandsAt(word, s, p) {
      LiteralsAre(items, s, p, p + |word|);
    }
  }

  /** A pattern of plain characters occurs where its characters stand in the text. */
  lemma {:induction false} PlainTextOccurs(pattern: Pattern, s: string)
    requires forall k :: 0 <= k < |pattern.items| ==> IsLiteral(pattern.items[k])
    ensures var word := ItemsText(pattern.items);
            Occurs(pattern, s) <==> exists p: nat :: StandsAt(word, s, p) && (pattern.start ==> p == 0)
                                                     && (pattern.end ==> p + |word| == |s|)
  {
    forall p: nat
      ensures var word := ItemsText(pattern.items);
              p <= |s| && MatchesAt(pattern.items, pattern.end, s, p) <==>
              StandsAt(word, s, p) && (pattern.end ==> p + |word| == |s|)
    {
      LiteralsAt(pattern.items, pattern.end, s, p);
    }
  }

  /** A match of a list of items starts with a number of characters for the first. */
  lemma {:induction false} MatchesAtFirst(items: seq<Item>, end: bool, s: string, p: nat)
    requires items != [] && p <= |s|
    ensures MatchesAt(items, end, s, p) <==>
            exists m: nat :: p <= m <= |s| && Allowed(items[0].repeat, m - p) && AllMatch(items[0], s, p, m) && MatchesAt(items[1..], end, s, m)
  {
    var x, rest := items[0], items[1..];
    if MatchesAt(items, end, s, p) {
      var q: nat :| p <= q <= |s| && (end ==> q == |s|) && Matches(ItemsRegex(items), s, p, q);
      assert Matches(Cat(ItemRegex(x), ItemsRegex(rest)), s, p, q);
      var m: nat :| p <= m <= q && Matches(ItemRegex(x), s, p, m) && Matches(ItemsRegex(rest), s, m, q);
      ItemIs(x, s, p, m);
      assert MatchesAt(rest, end, s, m);
    }
    if m: nat :| p <= m <= |s| && Allowed(x.repeat, m - p) && AllMatch(x, s, p, m) && MatchesAt(rest, end, s, m) {
      var q: nat :| m <= q <= |s| && (end ==> q == |s|) && Matches(ItemsRegex(rest), s, m, q);
      ItemIs(x, s, p, m);
      assert Matches(ItemsRegex(items), s, p, q);
    }
  }

  lemma {:induction false} MatchesAtNone(end: bool, s: string, p: nat)
    requires p <= |s|
    ensures MatchesAt([], end, s, p) <==> (end ==> p == |s|)
  {
    assert Matches(ItemsRegex([]), s, p, p);
  }

  lemma {:induction false} MatchesAtOnce(items: seq<Item>, end: bool, s: string, p: nat)
    requires items != [] && items[0].repeat == Once && p <= |s|
    ensures MatchesAt(items, end, s, p) <==>
            p < |s| && AtomMatchesChar(items[0].escaped, items[0].c, s[p]) && MatchesAt(items[1..], end, s, p + 1)
  {
    MatchesAtFirst(items, end, s, p);
    if p < |s| && AtomMatchesChar(items[0].escaped, items[0].c, s[p]) && MatchesAt(items[1..], end, s, p + 1) {
      assert AllMatch(items[0], s, p, p + 1);
    }
  }

  // ---------------------------------------------------------------- the matcher

  /** From position `i` on, the text of the pattern is that of `items`, then the end anchor. */
  ghost predicate Reads(regex: string, i: nat, items: seq<Item>, end: bool) {
    && i <= |regex| && LegalItems(items)
    && regex[i..] == ItemsText(items) + EndText(end)
  }

  /** The character at `i`; the terminating NUL at the end. */
  function CharAt(s: string, i: nat): char
    requires i <= |s|
  {
    if i < |s| then s[i] else '\0'
  }

  /** Where the first item of a pattern ends. */
  function ItemEnd(i: nat, x: Item): nat {
    i + |ItemText(x)|
  }

  /** What the text of a non-empty list of items looks like to the matcher. */
  lemma {:induction false} ReadsFirst(regex: string, i: nat, items: seq<Item>, end: bool)
    requires Reads(regex, i, items, end) && items != []
    ensures var x := items[0];
            && i < |regex| && regex[i] != '$'
            && (x.escaped <==> regex[i] == '\\')
            && var j := if x.escaped then i + 1 else i;
            && j < |regex| && regex[j] == x.c
            && (x.repeat == Once <==> !IsRepeat(CharAt(regex, j + 1)))
            && (x.repeat == Optional <==> CharAt(regex, j + 1) == '?')
            && (x.repeat == Any <==> CharAt(regex, j + 1) == '*')
            && (x.repeat == Some1 <==> CharAt(regex, j + 1) == '+')
            && ItemEnd(i, x) == (if x.repeat == Once then j + 1 else j + 2)
            && Reads(regex, ItemEnd(i, x), items[1..], end)
  {
    var x, rest := items[0], items[1..];
    assert LegalItem(x);
    Assoc(ItemText(x), ItemsText(rest), EndText(end));
    Prefix(regex, i, ItemText(x), ItemsText(rest) + EndText(end));
    ItemTextIs(x);
    TailStart(rest, end);
  }

  lemma {:induction false} Prefix(regex: string, i: nat, text: string, tail: string)
    requires i <= |regex| && regex[i..] == text + tail
    ensures |regex| == i + |text| + |tail| && regex[i + |text|..] == tail
    ensures forall k :: 0 <= k < |text| ==> regex[i + k] == text[k]
    ensures tail != "" ==> regex[i + |text|] == tail[0]
  {
    forall k | 0 <= k < |text| ensures regex[i + k] == text[k] {
      assert regex[i..][k] == (text + tail)[k];
    }
    assert regex[i..][|text|..] == tail;
    assert tail != "" ==> regex[i..][|text|] == tail[0];
  }

  /** The one, two or three characters of an item. */
  lemma {:induction false} ItemTextIs(x: Item)
    ensures var t := ItemText(x); var j := if x.escaped then 1 else 0;
                                  && |t| == j + 1 + (if x.repeat == Once then 0 else 1)
                                  && (x.escaped ==> t[0] == '\\') && t[j] == x.c
                                  && (x.repeat != Once ==> t[j + 1] == RepeatText(x.repeat)[0])
  {
  }

  /** No list of items starts with a repetition. */
  lemma {:induction false} TailStart(items: seq<Item>, end: bool)
    requires LegalItems(items)
    ensures var t := ItemsText(items) + EndText(end); t != "" ==> !IsRepeat(t[0])
  {
    if items != [] {
      assert LegalItem(items[0]);
    }
  }

  lemma {:induction false} ReadsNone(regex: string, i: nat, end: bool)
    requires Reads(regex, i, [], end)
    ensures if end then i + 1 == |regex| && regex[i] == '$' else i == |regex|
  {
    if end {
      assert regex[i..][0] == '$';
    }
  }

  /** The items are used up exactly when the matcher sees the end or the end anchor. */
  lemma {:induction false} AtEnd(regex: string, i: nat, items: seq<Item>, end: bool)
    requires Reads(regex, i, items, end)
    ensures items == [] <==> i == |regex| || regex[i] == '$'
    ensures items == [] ==> (end <==> i < |regex|)
  {
    if items == [] {
      ReadsNone(regex, i, end);
    } else {
      ReadsFirst(regex, i, items, end);
    }
  }

  /** `MatchRegexAtHead`: true exactly when some substring that starts at `p` is in the
      language. */
  method MatchRegexAtHead(regex: string, i: nat, str: string, p: nat, ghost items: seq<Item>, ghost end: bool)
    returns (result: bool)
    requires Reads(regex, i, items, end) && p <= |str|
    ensures result <==> MatchesAt(items, end, str, p)
    decreases |regex| - i, 1
  {
    AtEnd(regex, i, items, end);
    if i == |regex| {
      MatchesAtNone(end, str, p);
      return true;
    }
    if regex[i] == '$' {
      MatchesAtNone(end, str, p);
      return p == |str|;
    }
    result := MatchItemAtHead(regex, i, str, p, items, end);
  }

  /** The last two branches of `MatchRegexAtHead`: an atom, with or without a repetition. */
  method MatchItemAtHead(regex: string, i: nat, str: string, p: nat, ghost items: seq<Item>, ghost end: bool)
    returns (result: bool)
    requires Reads(regex, i, items, end) && items != [] && p <= |str|
    ensures result <==> MatchesAt(items, end, str, p)
    decreases |regex| - i, 0
  {
    ReadsFirst(regex, i, items, end);
    ghost var x, rest := items[0], items[1..];
    var escaped := regex[i] == '\\';
    var j := if escaped then i + 1 else i;
    if IsRepeat(CharAt(regex, j + 1)) {
      result := MatchRepetitionAndRegexAtHead(escaped, regex[j], regex[j + 1], regex, j + 2, str, p, x, rest, end);
      MatchesAtFirst(items, end, str, p);
    } else {
      MatchesAtOnce(items, end, str, p);
      result := MatchAtomAtHead(escaped, regex[j], regex, j + 1, str, p, rest, end);
    }
  }

  method MatchAtomAtHead(escaped: bool, c: char, regex: string, i: nat, str: string, p: nat, ghost items: seq<Item>,
                         ghost end: bool)
    returns (result: bool)
    requires Reads(regex, i, items, end) && p <= |str|
    ensures result <==> p < |str| && AtomMatchesChar(escaped, c, str[p]) && MatchesAt(items, end, str, p + 1)
    decreases |regex| - i, 2
  {
    if p == |str| || !AtomMatchesChar(escaped, c, str[p]) {
      return false;
    }
    result := MatchRegexAtHead(regex, i, str, p + 1, items, end);
  }

  /** `MatchRepetitionAndRegexAtHead`: try ever more copies of the atom. */
  method MatchRepetitionAndRegexAtHead(escaped: bool, c: char, repeat: char, regex: string, i: nat, str: string, p: nat,
                                       ghost x: Item, ghost items: seq<Item>, ghost end: bool)
    returns (result: bool)
    requires Reads(regex, i, items, end) && p <= |str|
    requires x.escaped == escaped && x.c == c && x.repeat != Once && repeat == RepeatText(x.repeat)[0]
    ensures result <==> exists m: nat :: p <= m <= |str| && Allowed(x.repeat, m - p) && AllMatch(x, str, p, m) && MatchesAt(items, end, str, m)
    decreases |regex| - i, 2
  {
    var minCount := if repeat == '+' then 1 else 0;
    var k := 0;
    while repeat != '?' || k <= 1
      invariant p + k <= |str| && AllMatch(x, str, p, p + k)
      invariant repeat == '?' ==> k <= 2
      invariant forall m: nat :: p <= m < p + k && Allowed(x.repeat, m - p) ==> !MatchesAt(items, end, str, m)
      decreases |str| - k
    {
      if k >= minCount {
        var tail := MatchRegexAtHead(regex, i, str, p + k, items, end);
        if tail {
          return true;
        }
      }
      if p + k == |str| || !AtomMatchesChar(escaped, c, str[p + k]) {
        return false;
      }
      k := k + 1;
    }
    return false;
  }

  /** `MatchRegexAnywhere`: true exactly when the pattern occurs in the text. */
  method MatchRegexAnywhere(regex: string, str: string, ghost pattern: Pattern) returns (result: bool)
    requires LegalItems(pattern.items) && regex == PatternText(pattern)
    ensures result <==> Occurs(pattern, str)
  {
    PatternReads(pattern);
    if CharAt(regex, 0) == '^' {
      result := MatchRegexAtHead(regex, 1, str, 0, pattern.items, pattern.end);
      return;
    }
    var p := 0;
    while true
      invariant p <= |str|
      invariant forall k: nat :: k < p ==> !MatchesAt(pattern.items, pattern.end, str, k)
      decreases |str| - p
    {
      var found := MatchRegexAtHead(regex, 0, str, p, pattern.items, pattern.end);
      if found {
        return true;
      }
      if p == |str| {
        return false;
      }
      p := p + 1;
    }
  }

  lemma {:induction false} PatternReads(pattern: Pattern)
    requires LegalItems(pattern.items)
    ensures Reads(PatternText(pattern), if pattern.start then 1 else 0, pattern.items, pattern.end)
    ensures pattern.start <==> CharAt(PatternText(pattern), 0) == '^'
  {
    var text := ItemsText(pattern.items) + EndText(pattern.end);
    if pattern.start {
      assert PatternText(pattern) == "^" + text;
    } else {
      assert PatternText(pattern) == text;
      assert pattern.items != [] ==> LegalItem(pattern.items[0]);
    }
  }

  // ---------------------------------------------------------------- validation

  /** The checks of `ValidateRegex` from position `i` on; `prev` says whether a repetition may
      follow. */
  predicate ValidFrom(regex: string, i: nat, prev: bool)
    requires i <= |regex|
    decreases |regex| - i
  {
    if i == |regex| then true
    else if regex[i] == '\\' then
      i + 1 < |regex| && IsValidEscape(regex[i + 1]) && ValidFrom(regex, i + 2, true)
    else
      var c := regex[i];
      && !(c == '^' && i > 0)
      && !(c == '$' && i + 1 < |regex|)
      && !IsUnsupported(c)
      && !(IsRepeat(c) && !prev)
      && ValidFrom(regex, i + 1, !(c == '^' || c == '$' || IsRepeat(c)))
  }

  ghost predicate IsPatternText(regex: string) {
    exists pattern: Pattern :: LegalItems(pattern.items) && PatternText(pattern) == regex
  }

  /** `ValidateRegex` accepts exactly the texts of patterns. */
  method ValidateRegex(regex: string) returns (isValid: bool)
    requires '\0' !in regex
    ensures isValid <==> IsPatternText(regex)
  {
    ValidIsPatternText(regex);
    isValid := true;
    var prevRepeatable := false;
    var i := 0;
    while i < |regex|
      invariant i <= |regex|
      invariant isValid && ValidFrom(regex, i, prevRepeatable) <==> ValidFrom(regex, 0, false)
    {
      if regex[i] == '\\' {
        i := i + 1;
        if i == |regex| {
          return false;
        }
        if !IsValidEscape(regex[i]) {
          isValid := false;
        }
        prevRepeatable := true;
      } else {
        var c := regex[i];
        if c == '^' && i > 0 {
          isValid := false;
        } else if c == '$' && i + 1 < |regex| {
          isValid := false;
        } else if IsUnsupported(c) {
          isValid := false;
        } else if IsRepeat(c) && !prevRepeatable {
          isValid := false;
        }
        prevRepeatable := !(c == '^' || c == '$' || IsRepeat(c));
      }
      i := i + 1;
    }
  }

  /** The text of any items passes the checks. */
  lemma {:induction false} ReadsIsValid(regex: string, i: nat, items: seq<Item>, end: bool, prev: bool)
    requires Reads(regex, i, items, end)
    ensures ValidFrom(regex, i, prev)
    decreases |items|
  {
    if items == [] {
      ReadsNone(regex, i, end);
      if end {
        assert ValidFrom(regex, i + 1, false);
      }
    } else {
      var x := items[0];
      ReadsFirst(regex, i, items, end);
      assert LegalItem(x);
      var j := if x.escaped then i + 1 else i;
      if x.repeat == Once {
        ReadsIsValid(regex, j + 1, items[1..], end, true);
      } else {
        ReadsIsValid(regex, j + 2, items[1..], end, false);
        assert ValidFrom(regex, j + 1, true);
      }
    }
  }

  /** Where the atom of the item that starts at `i` stands. */
  function AtomAt(regex: string, i: nat): nat
    requires i < |regex|
  {
    if regex[i] == '\\' then i + 1 else i
  }

  function RepeatOf(c: char): Repeat {
    if c == '?' then Optional else if c == '*' then Any else if c == '+' then Some1 else Once
  }

  lemma {:induction false} FirstItem(regex: string, i: nat, prev: bool) returns (x: Item, k: nat)
    requires i < |regex| && '\0' !in regex && ValidFrom(regex, i, prev)
    requires !IsRepeat(regex[i]) && regex[i] != '^' && regex[i] != '$'
    ensures LegalItem(x) && i < k <= |regex| && regex[i..k] == ItemText(x)
    ensures ValidFrom(regex, k, x.repeat == Once)
    ensures k < |regex| ==> !IsRepeat(regex[k]) && regex[k] != '^'
  {
    var j := AtomAt(regex, i);
    assert regex[j] in regex;
    var next := CharAt(regex, j + 1);
    x := Item(regex[i] == '\\', regex[j], RepeatOf(next));
    k := if IsRepeat(next) then j + 2 else j + 1;
    assert ValidFrom(regex, j + 1, true);
  }

  /** What passes the checks can be read as items. */
  lemma {:induction false} ValidIsRead(regex: string, i: nat, prev: bool) returns (items: seq<Item>, end: bool)
    requires i <= |regex| && '\0' !in regex && ValidFrom(regex, i, prev)
    requires i < |regex| ==> !IsRepeat(regex[i]) && regex[i] != '^'
    ensures Reads(regex, i, items, end)
    decreases |regex| - i
  {
    if i == |regex| {
      return [], false;
    }
    if regex[i] == '$' {
      assert regex[i..] == "$";
      return [], true;
    }
    var x, k := FirstItem(regex, i, prev);
    var rest;
    rest, end := ValidIsRead(regex, k, x.repeat == Once);
    items := [x] + rest;
    ReadsCons(regex, i, k, x, rest, end);
  }

  lemma {:induction false} ReadsCons(regex: string, i: nat, k: nat, x: Item, rest: seq<Item>, end: bool)
    requires i <= k && Reads(regex, k, rest, end) && LegalItem(x) && regex[i..k] == ItemText(x)
    ensures Reads(regex, i, [x] + rest, end)
  {
    var items := [x] + rest;
    assert items[1..] == rest;
    assert ItemsText(items) == ItemText(x) + ItemsText(rest);
    SplitAt(regex, i, k);
  }

  lemma {:induction false} SplitAt(s: string, i: nat, k: nat)
    requires i <= k <= |s|
    ensures s[i..] == s[i..k] + s[k..]
  {
  }

  lemma {:induction false} ValidHasPattern(regex: string) returns (pattern: Pattern)
    requires '\0' !in regex && ValidFrom(regex, 0, false)
    ensures LegalItems(pattern.items) && PatternText(pattern) == regex
  {
    var start := regex != "" && regex[0] == '^';
    var from := if start then 1 else 0;
    var items, end := ValidIsRead(regex, from, false);
    pattern := Pattern(start, items, end);
    SplitAt(regex, 0, from);
    assert regex[0..] == regex;
    assert regex[0..from] == if start then "^" else "";
  }

  /** The checks accept exactly the texts of patterns. */
  lemma {:induction false} ValidIsPatternText(regex: string)
    requires '\0' !in regex
    ensures ValidFrom(regex, 0, false) <==> IsPatternText(regex)
  {
    if ValidFrom(regex, 0, false) {
      var pattern := ValidHasPattern(regex);
    }
    if pattern: Pattern :| LegalItems(pattern.items) && PatternText(pattern) == regex {
      PatternReads(pattern);
      ReadsIsValid(regex, if pattern.start then 1 else 0, pattern.items, pattern.end, false);
    }
  }

  // ---------------------------------------------------------------- the class RE

  /** The text that `Init` stores for full matches. */
  function FullText(regex: string): string {
    (if regex != "" && regex[0] == '^' then "" else "^") + regex +
    (if regex == "" || regex[|regex| - 1] != '$' then "$" else "")
  }

  /** The last item is an escaped dollar: `Init` takes it for an end anchor. */
  predicate EndsInEscapedDollar(p: Pattern) {
    !p.end && p.items != [] && p.items[|p.items| - 1] == Item(true, '$', Once)
  }

  /** The pattern whose text `Init` stores for full matches. */
  function FullPattern(p: Pattern): Pattern {
    Pattern(true, p.items, !EndsInEscapedDollar(p))
  }

  /** The whole text is in the language of the pattern. */
  ghost predicate WholeMatch(p: Pattern, s: string) {
    Matches(ItemsRegex(p.items), s, 0, |s|)
  }

  /** An initialised regular expression; the C++ null pointer is `None`. */
  class RE {
    var pattern: Option<string>
    var fullPattern: string
    var isValid: bool

    ghost predicate Valid()
      reads this
    {
      isValid ==> pattern.Some? && IsPatternText(pattern.value) && fullPattern == FullText(pattern.value)
    }

    constructor (regex: Option<string>)
      requires regex.Some? ==> '\0' !in regex.value
      ensures Valid() && pattern == regex
      ensures isValid <==> regex.Some? && IsPatternText(regex.value)
    {
      pattern, fullPattern, isValid := regex, "", false;
      new;
      if regex.None? {
        return;
      }
      isValid := ValidateRegex(regex.value);
      if !isValid {
        return;
      }
      fullPattern := Anchored(regex.value);
    }

    /** True exactly when the whole text is in the language; but a prefix is enough when the
        pattern ends in an escaped dollar. */
    method FullMatch(str: string, ghost p: Pattern) returns (result: bool)
      requires Valid() && (isValid ==> LegalItems(p.items) && pattern == Some(PatternText(p)))
      ensures result <==> isValid && (if EndsInEscapedDollar(p) then MatchesAt(p.items, false, str, 0) else WholeMatch(p, str))
    {
      if !isValid {
        return false;
      }
      FullTextIs(p);
      result := MatchRegexAnywhere(fullPattern, str, FullPattern(p));
    }

    /** True exactly when the pattern occurs in the text. */
    method PartialMatch(str: string, ghost p: Pattern) returns (result: bool)
      requires Valid() && (isValid ==> LegalItems(p.items) && pattern == Some(PatternText(p)))
      ensures result <==> isValid && Occurs(p, str)
    {
      if !isValid {
        return false;
      }
      result := MatchRegexAnywhere(pattern.value, str, p);
    }
  }

  /** The last part of `Init`: the buffer for full matches. */
  method Anchored(regex: string) returns (buffer: string)
    ensures buffer == FullText(regex)
  {
    buffer := "";
    if CharAt(regex, 0) != '^' {
      buffer := buffer + "^";
    }
    buffer := buffer + regex;
    var len := |regex|;
    if len == 0 || regex[len - 1] != '$' {
      buffer := buffer + "$";
    }
  }

  lemma {:induction false} ItemsTextEnd(items: seq<Item>)
    requires LegalItems(items) && items != []
    ensures ItemsText(items) != ""
    ensures ItemsText(items)[|ItemsText(items)| - 1] == '$' <==> items[|items| - 1] == Item(true, '$', Once)
  {
    var x, rest := items[0], items[1..];
    assert LegalItem(x);
    if rest == [] {
      assert ItemsText(items) == ItemText(x) + "";
    } else {
      ItemsTextEnd(rest);
      assert rest[|rest| - 1] == items[|items| - 1];
    }
  }

  lemma {:induction false} PatternTextEnd(p: Pattern)
    requires LegalItems(p.items)
    ensures PatternText(p) != "" && PatternText(p)[|PatternText(p)| - 1] == '$' <==> p.end || EndsInEscapedDollar(p)
  {
    var start, body := if p.start then "^" else "", ItemsText(p.items);
    if !p.end {
      assert PatternText(p) == start + body;
      if p.items != [] {
        ItemsTextEnd(p.items);
      }
    }
  }

  lemma {:induction false} FullTextIs(p: Pattern)
    requires LegalItems(p.items)
    ensures FullText(PatternText(p)) == PatternText(FullPattern(p))
  {
    PatternReads(p);
    PatternTextEnd(p);
  }

  /** Only the characters between `p` and `q` matter. */
  lemma {:induction false} MatchesIsLocal(re: Regex, s: string, p: nat, q: nat, t: string, p': nat, q': nat)
    requires p <= q <= |s| && p' <= q' <= |t| && q - p == q' - p'
    requires forall k :: p <= k < q ==> s[k] == t[k - p + p']
    requires Matches(re, s, p, q)
    ensures Matches(re, t, p', q')
    decreases re, q - p
  {
    match re
    case Empty =>
    case Atom(_, _) => assert s[p] == t[p'];
    case Cat(a, b) =>
      var m: nat :| p <= m <= q && Matches(a, s, p, m) && Matches(b, s, m, q);
      var m' := p' + (m - p);
      MatchesIsLocal(a, s, p, m, t, p', m');
      MatchesIsLocal(b, s, m, q, t, m', q');
    case Alt(a, b) =>
      if Matches(a, s, p, q) {
        MatchesIsLocal(a, s, p, q, t, p', q');
      } else {
        MatchesIsLocal(b, s, p, q, t, p', q');
      }
    case Star(a) =>
      if p < q {
        var m: nat :| p < m <= q && Matches(a, s, p, m) && Matches(re, s, m, q);
        var m' := p' + (m - p);
        MatchesIsLocal(a, s, p, m, t, p', m');
        MatchesIsLocal(re, s, m, q, t, m', q');
      }
  }

  /** A character that the atom matches. */
  function SampleChar(x: Item): (c: char)
    requires LegalItem(x)
    ensures AtomMatchesChar(x.escaped, x.c, c)
  {
    if x.escaped then
      match x.c
      case 'd' => '0'
      case 'D' => 'a'
      case 'f' => '\U{000C}'
      case 'n' => '\n'
      case 'r' => '\r'
      case 's' => ' '
      case 'S' => 'a'
      case 't' => '\t'
      case 'v' => '\U{000B}'
      case 'w' => 'a'
      case 'W' => ' '
      case _ => x.c
    else x.c
  }

  /** No legal pattern has an empty language. */
  lemma {:induction false} SampleWord(u: string, items: seq<Item>) returns (s: string)
    requires LegalItems(items)
    ensures |u| <= |s| && s[..|u|] == u && Matches(ItemsRegex(items), s, |u|, |s|)
    decreases |items|
  {
    if items == [] {
      s := u;
    } else {
      var x, rest := items[0], items[1..];
      assert LegalItem(x);
      var c := SampleChar(x);
      s := SampleWord(u + [c], rest);
      assert s[|u|] == s[..|u| + 1][|u|] == c;
      assert s[..|u|] == s[..|u| + 1][..|u|];
      ItemIs(x, s, |u|, |u| + 1);
      assert Matches(Cat(ItemRegex(x), ItemsRegex(rest)), s, |u|, |s|);
    }
  }

  lemma {:induction false} DollarIsLast(items: seq<Item>, s: string, p: nat, q: nat)
    requires items != [] && items[|items| - 1] == Item(true, '$', Once)
    requires p <= q <= |s| && Matches(ItemsRegex(items), s, p, q)
    ensures p < q && s[q - 1] == '$'
    decreases |items|
  {
    var x, rest := items[0], items[1..];
    assert Matches(Cat(ItemRegex(x), ItemsRegex(rest)), s, p, q);
    var m: nat :| p <= m <= q && Matches(ItemRegex(x), s, p, m) && Matches(ItemsRegex(rest), s, m, q);
    if rest != [] {
      DollarIsLast(rest, s, m, q);
    }
  }

  /** `FullMatch` means what it says for every text exactly when the pattern does not end in
      an escaped dollar. */
  lemma {:induction false} FullMatchIsWholeMatch(p: Pattern)
    requires LegalItems(p.items)
    ensures (forall s :: (Occurs(FullPattern(p), s) <==> WholeMatch(p, s))) <==> !EndsInEscapedDollar(p)
  {
    if EndsInEscapedDollar(p) {
      var s := SampleWord("", p.items);
      var t := s + "x";
      assert forall k :: 0 <= k < |s| ==> s[k] == t[k - 0 + 0];
      MatchesIsLocal(ItemsRegex(p.items), s, 0, |s|, t, 0, |s|);
      assert Occurs(FullPattern(p), t);
      if WholeMatch(p, t) {
        DollarIsLast(p.items, t, 0, |t|);
      }
      assert !WholeMatch(p, t);
    }
  }
}
