/** The test filter of gtest.cc: wildcard patterns, and lists of them. */
module TestFilter {
  import opened Text

  /** The characters of a C string before its terminator. */
  type CString = s: string | '\0' !in s

  function At(s: CString, i: nat): char {
    if i < |s| then s[i] else '\0'
  }

  lemma {:induction false} NotNul(s: CString, i: nat)
    ensures At(s, i) == '\0' <==> i >= |s|
  {
    assert i < |s| ==> s[i] in s;
  }

  /** `PatternMatchesString`, for the pattern from `i` on and the string from `j` on. */
  function PatternMatchesString(pattern: CString, i: nat, str: CString, j: nat): bool
    requires i <= |pattern| && j <= |str|
    decreases |pattern| - i + |str| - j
  {
    var c := At(pattern, i);
    if c == '\0' || c == ':' then At(str, j) == '\0'
    else if c == '?' then At(str, j) != '\0' && PatternMatchesString(pattern, i + 1, str, j + 1)
    else if c == '*' then
      (At(str, j) != '\0' && PatternMatchesString(pattern, i, str, j + 1)) || PatternMatchesString(pattern, i + 1, str, j)
    else c == At(str, j) && PatternMatchesString(pattern, i + 1, str, j + 1)
  }

  // ---------------------------------------------------------------- what a pattern means

  /** The character `c` of a pattern may stand for `str[a..b]`. */
  predicate Fits(c: char, str: string, a: nat, b: nat) {
    a <= b <= |str| && (c == '*' || (b == a + 1 && (c == '?' || c == str[a])))
  }

  /** `str[j..]` is cut into one piece for each character of `pattern[i..end]`. */
  ghost predicate IsCut(pattern: string, i: nat, end: nat, str: string, j: nat, cuts: seq<nat>) {
    && i <= end <= |pattern| && j <= |str| && |cuts| == end - i + 1
    && cuts[0] == j && cuts[end - i] == |str|
    && forall k :: i <= k < end ==> Fits(pattern[k], str, cuts[k - i], cuts[k - i + 1])
  }

  ghost predicate Glob(pattern: string, i: nat, end: nat, str: string, j: nat) {
    exists cuts: seq<nat> :: IsCut(pattern, i, end, str, j, cuts)
  }

  lemma {:induction false} CutCons(pattern: string, i: nat, end: nat, str: string, j: nat, j': nat, cuts: seq<nat>)
    requires i < end && IsCut(pattern, i + 1, end, str, j', cuts) && Fits(pattern[i], str, j, j')
    ensures Glob(pattern, i, end, str, j)
  {
    var more := [j] + cuts;
    forall k | i <= k < end ensures Fits(pattern[k], str, more[k - i], more[k - i + 1]) {
      if k > i {
        assert Fits(pattern[k], str, cuts[k - i - 1], cuts[k - i]);
      }
    }
    assert IsCut(pattern, i, end, str, j, more);
  }

  lemma {:induction false} CutTail(pattern: string, i: nat, end: nat, str: string, j: nat, cuts: seq<nat>)
    requires i < end && IsCut(pattern, i, end, str, j, cuts)
    ensures cuts[1] <= |str| && Fits(pattern[i], str, j, cuts[1]) && IsCut(pattern, i + 1, end, str, cuts[1], cuts[1..])
  {
    var tail := cuts[1..];
    assert Fits(pattern[i], str, cuts[i - i], cuts[i - i + 1]);
    forall k | i + 1 <= k < end ensures Fits(pattern[k], str, tail[k - i - 1], tail[k - i]) {
      assert Fits(pattern[k], str, cuts[k - i], cuts[k - i + 1]);
    }
  }

  lemma {:induction false} MatchedIsGlob(pattern: CString, i: nat, end: nat, str: CString, j: nat)
    requires i <= end <= |pattern| && j <= |str| && end == RunEnd(pattern, i, ':')
    requires PatternMatchesString(pattern, i, str, j)
    ensures Glob(pattern, i, end, str, j)
    decreases end - i + |str| - j
  {
    NotNul(str, j);
    if i == end {
      assert IsCut(pattern, i, end, str, j, [j]);
    } else {
      NotNul(pattern, i);
      if pattern[i] == '*' && At(str, j) != '\0' && PatternMatchesString(pattern, i, str, j + 1) {
        MatchedIsGlob(pattern, i, end, str, j + 1);
        var cuts: seq<nat> :| IsCut(pattern, i, end, str, j + 1, cuts);
        CutTail(pattern, i, end, str, j + 1, cuts);
        CutCons(pattern, i, end, str, j, cuts[1], cuts[1..]);
      } else {
        var j' := if pattern[i] == '*' then j else j + 1;
        MatchedIsGlob(pattern, i + 1, end, str, j');
        var cuts: seq<nat> :| IsCut(pattern, i + 1, end, str, j', cuts);
        CutCons(pattern, i, end, str, j, j', cuts);
      }
    }
  }

  lemma {:induction false} GlobIsMatched(pattern: CString, i: nat, end: nat, str: CString, j: nat, cuts: seq<nat>)
    requires i <= end <= |pattern| && j <= |str| && end == RunEnd(pattern, i, ':')
    requires IsCut(pattern, i, end, str, j, cuts)
    ensures PatternMatchesString(pattern, i, str, j)
    decreases end - i + |str| - j
  {
    if i < end {
      NotNul(pattern, i);
      CutTail(pattern, i, end, str, j, cuts);
      NotNul(str, j);
      if pattern[i] == '*' && cuts[1] > j {
        CutAgain(pattern, i, end, str, j, cuts);
        GlobIsMatched(pattern, i, end, str, j + 1, cuts[0 := j + 1]);
      } else {
        GlobIsMatched(pattern, i + 1, end, str, cuts[1], cuts[1..]);
      }
    }
  }

  /** A star may stand for one character less. */
  lemma {:induction false} CutAgain(pattern: string, i: nat, end: nat, str: string, j: nat, cuts: seq<nat>)
    requires i < end && IsCut(pattern, i, end, str, j, cuts) && pattern[i] == '*' && cuts[1] > j
    ensures IsCut(pattern, i, end, str, j + 1, cuts[0 := j + 1])
  {
    CutTail(pattern, i, end, str, j, cuts);
    var less := cuts[0 := j + 1];
    forall k | i <= k < end ensures Fits(pattern[k], str, less[k - i], less[k - i + 1]) {
      assert Fits(pattern[k], str, cuts[k - i], cuts[k - i + 1]);
    }
  }

  /** The matcher follows the meaning of the pattern, which ends at a colon. */
  lemma {:induction false} PatternMeaning(pattern: CString, i: nat, str: CString)
    requires i <= |pattern|
    ensures PatternMatchesString(pattern, i, str, 0) <==> Glob(pattern, i, RunEnd(pattern, i, ':'), str, 0)
  {
    var end := RunEnd(pattern, i, ':');
    if PatternMatchesString(pattern, i, str, 0) {
      MatchedIsGlob(pattern, i, end, str, 0);
    }
    if Glob(pattern, i, end, str, 0) {
      var cuts: seq<nat> :| IsCut(pattern, i, end, str, 0, cuts);
      GlobIsMatched(pattern, i, end, str, 0, cuts);
    }
  }

  // ---------------------------------------------------------------- filters

  predicate BeginsPattern(filter: string, k: nat) {
    k <= |filter| && (k == 0 || filter[k - 1] == ':')
  }

  /** Some pattern of a colon-separated list stands for the whole name. */
  ghost predicate InFilter(name: string, filter: string) {
    exists k: nat :: BeginsPattern(filter, k) && Glob(filter, k, RunEnd(filter, k, ':'), name, 0)
  }

  /** One of the patterns from position `cur` on matches. */
  function AnyPatternMatches(filter: CString, cur: nat, name: CString): bool
    requires cur <= |filter|
    decreases |filter| - cur
  {
    PatternMatchesString(filter, cur, name, 0) ||
    (var colon := RunEnd(filter, cur, ':');
     colon < |filter| && AnyPatternMatches(filter, colon + 1, name))
  }

  lemma {:induction false} LaterPatterns(filter: CString, cur: nat, name: CString)
    requires cur <= |filter| && BeginsPattern(filter, cur)
    ensures AnyPatternMatches(filter, cur, name) <==>
            exists k: nat :: cur <= k && BeginsPattern(filter, k) && Glob(filter, k, RunEnd(filter, k, ':'), name, 0)
    decreases |filter| - cur
  {
    PatternMeaning(filter, cur, name);
    var colon := RunEnd(filter, cur, ':');
    RunEndStops(filter, cur, ':');
    assert forall k: nat :: cur < k <= colon ==> !BeginsPattern(filter, k);
    if colon < |filter| {
      LaterPatterns(filter, colon + 1, name);
    }
  }

  lemma {:induction false} FilterMeaning(name: CString, filter: CString)
    ensures AnyPatternMatches(filter, 0, name) <==> InFilter(name, filter)
  {
    LaterPatterns(filter, 0, name);
  }

  method MatchesFilter(name: CString, filter: CString) returns (matches: bool)
    ensures matches == AnyPatternMatches(filter, 0, name)
  {
    var cur := 0;
    while true
      invariant 0 <= cur <= |filter|
      invariant AnyPatternMatches(filter, 0, name) == AnyPatternMatches(filter, cur, name)
      decreases |filter| - cur
    {
      if PatternMatchesString(filter, cur, name, 0) {
        return true;
      }
      var colon := RunEnd(filter, cur, ':');
      if colon == |filter| {
        return false;
      }
      cur := colon + 1;
    }
  }

  /** The name is in the part of the flag before the first dash, where nothing means everything,
      and not in the part after it. */
  ghost predicate FlagSelects(flag: CString, name: CString) {
    var dash := RunEnd(flag, 0, '-');
    && InFilter(name, if dash == 0 < |flag| then "*" else flag[..dash])
    && !InFilter(name, if dash == |flag| then "" else flag[dash + 1..])
  }

  method FilterMatchesTest(flag: CString, suite: CString, test: CString) returns (matches: bool)
    ensures matches <==> FlagSelects(flag, suite + "." + test)
  {
    var name := suite + "." + test;
    var dash := RunEnd(flag, 0, '-');
    var positive: CString, negative: CString := flag, "";
    if dash < |flag| {
      positive := flag[..dash];
      negative := flag[dash + 1..];
      if positive == "" {
        positive := "*";
      }
    }
    assert dash == |flag| ==> flag[..dash] == flag;
    FilterMeaning(name, positive);
    FilterMeaning(name, negative);
    matches := MatchesFilter(name, positive);
    if matches {
      var excluded := MatchesFilter(name, negative);
      matches := !excluded;
    }
  }

  /** The filter "*" holds every name, and the empty filter only the empty name. */
  lemma {:induction false} UniversalFilter(name: CString)
    ensures InFilter(name, "*") && (InFilter(name, "") <==> name == "")
  {
    assert IsCut("*", 0, 1, name, 0, [0, |name|]);
    assert BeginsPattern("*", 0) && RunEnd("*", 0, ':') == 1;
    FilterMeaning(name, "");
    NotNul(name, 0);
  }

  /** A flag of a positive and a negative list. Without a dash the empty negative list still
      keeps out the empty name. */
  lemma {:induction false} FlagIs(positive: CString, negative: CString, name: CString)
    requires '-' !in positive
    ensures FlagSelects(positive, name) <==> InFilter(name, positive) && name != ""
    ensures FlagSelects(positive + "-" + negative, name) <==>
            (positive == "" || InFilter(name, positive)) && !InFilter(name, negative)
  {
    UniversalFilter(name);
    assert forall k :: 0 <= k < |positive| ==> positive[k] in positive;
    RunEndIs(positive, 0, '-', |positive|);
    assert positive[..|positive|] == positive;
    var flag := positive + "-" + negative;
    RunEndIs(flag, 0, '-', |positive|);
    assert flag[..|positive|] == positive && flag[|positive| + 1..] == negative;
  }

  // ---------------------------------------------------------------- disabled tests

  predicate HasAt(name: string, word: string, k: nat) {
    k + |word| <= |name| && name[k..k + |word|] == word
  }

  /** The name begins with "DISABLED_", or a part of it after a slash does. */
  ghost predicate IsDisabledName(name: string) {
    HasAt(name, "DISABLED_", 0) || exists k: nat :: HasAt(name, "/DISABLED_", k)
  }

  predicate IsPlain(word: string) {
    forall k :: 0 <= k < |word| ==> word[k] != ':' && word[k] != '?' && word[k] != '*'
  }

  lemma {:induction false} PlainPart(pattern: CString, i: nat, word: string, str: CString, j: nat)
    requires HasAt(pattern, word, i) && IsPlain(word) && j <= |str|
    ensures PatternMatchesString(pattern, i, str, j) <==>
            HasAt(str, word, j) && PatternMatchesString(pattern, i + |word|, str, j + |word|)
    decreases |word|
  {
    if word != "" {
      var rest := word[1..];
      assert pattern[i..i + |word|][0] == word[0] && pattern[i + 1..i + |word|] == pattern[i..i + |word|][1..];
      NotNul(pattern, i);
      NotNul(str, j);
      if j < |str| {
        PlainPart(pattern, i + 1, rest, str, j + 1);
        HasCons(str, word, j);
      }
    }
  }

  lemma {:induction false} HasCons(str: string, word: string, j: nat)
    requires word != "" && j < |str|
    ensures HasAt(str, word, j) <==> str[j] == word[0] && HasAt(str, word[1..], j + 1)
  {
    assert word == [word[0]] + word[1..];
    if j + |word| <= |str| {
      assert str[j..j + |word|] == [str[j]] + str[j + 1..j + |word|];
    }
  }

  /** The rest of a pattern matches from some position on. */
  predicate MatchesLater(pattern: CString, i: nat, str: CString, j: nat)
    requires i <= |pattern| && j <= |str|
    decreases |str| - j
  {
    PatternMatchesString(pattern, i, str, j) || (j < |str| && MatchesLater(pattern, i, str, j + 1))
  }

  lemma {:induction false} Star(pattern: CString, i: nat, str: CString, j: nat)
    requires i < |pattern| && pattern[i] == '*' && j <= |str|
    ensures PatternMatchesString(pattern, i, str, j) <==> MatchesLater(pattern, i + 1, str, j)
    decreases |str| - j
  {
    NotNul(str, j);
    if j < |str| { Star(pattern, i, str, j + 1); }
  }

  lemma {:induction false} LaterIs(pattern: CString, i: nat, str: CString, j: nat, k: nat)
    requires i <= |pattern| && j <= k <= |str| && PatternMatchesString(pattern, i, str, k)
    ensures MatchesLater(pattern, i, str, j)
    decreases k - j
  {
    if j < k { LaterIs(pattern, i, str, j + 1, k); }
  }

  lemma {:induction false} LastStar(pattern: CString, i: nat, str: CString, j: nat)
    requires i < |pattern| && pattern[i] == '*' && j <= |str| && (i + 1 < |pattern| ==> pattern[i + 1] == ':')
    ensures PatternMatchesString(pattern, i, str, j)
  {
    NotNul(str, |str|);
    NotNul(pattern, i + 1);
    assert PatternMatchesString(pattern, i + 1, str, |str|);
    LaterIs(pattern, i + 1, str, j, |str|);
    Star(pattern, i, str, j);
  }

  /** A pattern that is a word and then a star. */
  lemma {:induction false} WordThenStar(pattern: CString, i: nat, word: string, str: CString, j: nat)
    requires HasAt(pattern, word, i) && IsPlain(word) && j <= |str|
    requires i + |word| < |pattern| && pattern[i + |word|] == '*'
    requires i + |word| + 1 < |pattern| ==> pattern[i + |word| + 1] == ':'
    ensures PatternMatchesString(pattern, i, str, j) <==> HasAt(str, word, j)
  {
    PlainPart(pattern, i, word, str, j);
    if HasAt(str, word, j) { LastStar(pattern, i + |word|, str, j + |word|); }
  }

  /** A filter of two patterns: one word at the front, or the other anywhere. */
  lemma {:induction false} TwoPatterns(filter: CString, first: string, second: string, name: CString)
    requires IsPlain(first) && IsPlain(second) && filter == first + "*:*" + second + "*"
    ensures AnyPatternMatches(filter, 0, name) <==> HasAt(name, first, 0) || exists k: nat :: HasAt(name, second, k)
  {
    var n := |first|;
    assert filter[0..n] == first && filter[n] == '*' && filter[n + 1] == ':' && filter[n + 2] == '*';
    assert filter[n + 3..n + 3 + |second|] == second && filter[n + 3 + |second|] == '*';
    assert forall k :: n + 3 <= k < n + 3 + |second| ==> filter[k] == second[k - (n + 3)];
    assert forall k :: 0 <= k < n ==> filter[k] == first[k];
    RunEndIs(filter, 0, ':', n + 1);
    RunEndIs(filter, n + 2, ':', |filter|);
    WordThenStar(filter, 0, first, name, 0);
    SecondPattern(filter, n + 2, second, name);
  }

  lemma {:induction false} SecondPattern(filter: CString, i: nat, word: string, name: CString)
    requires i < |filter| && filter[i] == '*' && HasAt(filter, word, i + 1) && IsPlain(word)
    requires |filter| == i + |word| + 2 && filter[i + |word| + 1] == '*'
    ensures PatternMatchesString(filter, i, name, 0) <==> exists k: nat :: HasAt(name, word, k)
  {
    Star(filter, i, name, 0);
    WordLater(filter, i + 1, word, name, 0);
    assert forall k: nat :: HasAt(name, word, k) ==> 0 <= k;
  }

  lemma {:induction false} WordLater(pattern: CString, i: nat, word: string, str: CString, j: nat)
    requires HasAt(pattern, word, i) && IsPlain(word) && j <= |str|
    requires |pattern| == i + |word| + 1 && pattern[i + |word|] == '*'
    ensures MatchesLater(pattern, i, str, j) <==> exists k: nat :: j <= k && HasAt(str, word, k)
    decreases |str| - j
  {
    WordThenStar(pattern, i, word, str, j);
    if j < |str| { WordLater(pattern, i, word, str, j + 1); }
  }

  // ---------------------------------------------------------------- patterns and lists by example

  lemma {:induction false} PlainEnd(pattern: CString, i: nat, word: string, str: CString, j: nat)
    requires HasAt(pattern, word, i) && IsPlain(word) && i + |word| == |pattern| && j <= |str|
    ensures PatternMatchesString(pattern, i, str, j) <==> str[j..] == word
  {
    PlainPart(pattern, i, word, str, j);
    NotNul(pattern, |pattern|);
    if HasAt(str, word, j) {
      NotNul(str, j + |word|);
    }
  }

  lemma {:induction false} PlainAfterStar(pattern: CString, i: nat, word: string, str: CString, j: nat)
    requires HasAt(pattern, word, i) && IsPlain(word) && i + |word| == |pattern| && j <= |str|
    ensures MatchesLater(pattern, i, str, j) <==> j + |word| <= |str| && str[|str| - |word|..] == word
    decreases |str| - j
  {
    PlainEnd(pattern, i, word, str, j);
    if j < |str| { PlainAfterStar(pattern, i, word, str, j + 1); }
  }

  /** Two plain words, with nothing between them, with a question mark or with a star. */
  lemma {:induction false} WildcardsAre(u: CString, v: CString, name: CString)
    requires IsPlain(u) && IsPlain(v)
    ensures PatternMatchesString(u, 0, name, 0) <==> name == u
    ensures PatternMatchesString(u + "?" + v, 0, name, 0) <==>
            |name| == |u| + 1 + |v| && name[..|u|] == u && name[|u| + 1..] == v
    ensures PatternMatchesString(u + "*" + v, 0, name, 0) <==>
            |name| >= |u| + |v| && name[..|u|] == u && name[|name| - |v|..] == v
  {
    var n := |u|;
    assert u[0..n] == u && name[0..] == name;
    PlainEnd(u, 0, u, name, 0);
    WildcardPart(u, '?', v, name);
    WildcardPart(u, '*', v, name);
    if HasAt(name, u, 0) {
      NotNul(name, n);
      Star(u + "*" + v, n, name, n);
      PlainAfterStar(u + "*" + v, n + 1, v, name, n);
      if n < |name| {
        PlainEnd(u + "?" + v, n + 1, v, name, n + 1);
      }
    }
  }

  lemma {:induction false} WildcardPart(u: CString, c: char, v: CString, name: CString)
    requires IsPlain(u) && c != '\0'
    ensures var pattern: CString := u + [c] + v;
            && HasAt(pattern, v, |u| + 1) && pattern[|u|] == c
            && (PatternMatchesString(pattern, 0, name, 0) <==> HasAt(name, u, 0) && PatternMatchesString(pattern, |u|, name, |u|))
  {
    var pattern: CString := u + [c] + v;
    assert pattern[0..|u|] == u && pattern[|u| + 1..|u| + 1 + |v|] == v;
    PlainPart(pattern, 0, u, name, 0);
  }

  lemma {:induction false} PatternShift(pattern: CString, n: nat, t: CString, i: nat, str: CString, j: nat)
    requires n <= |pattern| && pattern[n..] == t && i <= |t| && j <= |str|
    ensures PatternMatchesString(pattern, n + i, str, j) == PatternMatchesString(t, i, str, j)
    decreases |t| - i + |str| - j
  {
    NotNul(t, i);
    NotNul(str, j);
    if i < |t| && t[i] != ':' {
      assert pattern[n + i] == t[i];
      PatternShift(pattern, n, t, i + 1, str, j);
      if j < |str| {
        PatternShift(pattern, n, t, i, str, j + 1);
        PatternShift(pattern, n, t, i + 1, str, j + 1);
      }
    }
  }

  /** A pattern ends at a colon. */
  lemma {:induction false} PatternStops(p: CString, list: CString, i: nat, str: CString, j: nat)
    requires |p| < |list| && list[..|p|] == p && list[|p|] == ':' && ':' !in p && i <= |p| && j <= |str|
    ensures PatternMatchesString(list, i, str, j) == PatternMatchesString(p, i, str, j)
    decreases |p| - i + |str| - j
  {
    NotNul(p, i);
    NotNul(str, j);
    if i < |p| {
      assert list[..|p|][i] == p[i] && p[i] in p;
      PatternStops(p, list, i + 1, str, j);
      if j < |str| {
        PatternStops(p, list, i, str, j + 1);
        PatternStops(p, list, i + 1, str, j + 1);
      }
    }
  }

  lemma {:induction false} ListShift(filter: CString, n: nat, t: CString, i: nat, name: CString)
    requires n <= |filter| && filter[n..] == t && i <= |t|
    ensures AnyPatternMatches(filter, n + i, name) == AnyPatternMatches(t, i, name)
    decreases |t| - i
  {
    PatternShift(filter, n, t, i, name, 0);
    RunEndShift(filter, n, t, i, ':');
    var colon := RunEnd(t, i, ':');
    if colon < |t| {
      ListShift(filter, n, t, colon + 1, name);
    }
  }

  /** A list holds the names of its first pattern and those of the rest. */
  lemma {:induction false} FilterListIs(p: CString, rest: CString, name: CString)
    requires ':' !in p
    ensures InFilter(name, p) <==> PatternMatchesString(p, 0, name, 0)
    ensures InFilter(name, p + ":" + rest) <==> InFilter(name, p) || InFilter(name, rest)
  {
    var list: CString := p + ":" + rest;
    FilterMeaning(name, p);
    FilterMeaning(name, rest);
    FilterMeaning(name, list);
    assert forall k :: 0 <= k < |p| ==> p[k] in p && list[k] == p[k];
    RunEndIs(p, 0, ':', |p|);
    RunEndIs(list, 0, ':', |p|);
    assert list[..|p|] == p && list[|p| + 1..] == rest;
    PatternStops(p, list, 0, name, 0);
    ListShift(list, |p| + 1, rest, 0, name);
  }

  // ---------------------------------------------------------------- names of disabled tests

  const DISABLE_TEST_FILTER: CString := "DISABLED_*:*/DISABLED_*"

  lemma {:induction false} DisabledNames(name: CString)
    ensures AnyPatternMatches(DISABLE_TEST_FILTER, 0, name) <==> IsDisabledName(name)
  {
    assert DISABLE_TEST_FILTER == "DISABLED_" + "*:*" + "/DISABLED_" + "*";
    TwoPatterns(DISABLE_TEST_FILTER, "DISABLED_", "/DISABLED_", name);
  }
}
