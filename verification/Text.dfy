/** Characters, words, lines and decimal numbers, as the C++ streams and `std::string` see them.
    A C++ byte is a Dafny `char`. */
module Text {

  datatype Option<+T> = None | Some(value: T)

  /** `isspace` in the "C" locale. */
  predicate IsSpace(c: char) {
    c == ' ' || c == '\t' || c == '\n' || c == '\U{000B}' || c == '\U{000C}' || c == '\r'
  }

  /** The space, and the codes from tab to carriage return. */
  lemma {:induction false} SpacesAre(c: char)
    ensures IsSpace(c) <==> c as int == 32 || 9 <= c as int <= 13
  {
  }

  /** A word that `operator>>` can read back whole. */
  predicate IsWord(s: string) {
    s != "" && forall i :: 0 <= i < |s| ==> !IsSpace(s[i])
  }

  // ---------------------------------------------------------------- words

  /** The end of the white space that starts at `i`. */
  function SpaceEnd(s: string, i: nat): (j: nat)
    requires i <= |s|
    ensures i <= j <= |s|
    ensures j < |s| ==> !IsSpace(s[j])
    decreases |s| - i
  {
    if i < |s| && IsSpace(s[i]) then SpaceEnd(s, i + 1) else i
  }

  /** The end of the run of other characters that starts at `i`. */
  function WordEnd(s: string, i: nat): (j: nat)
    requires i <= |s|
    ensures i <= j <= |s|
    ensures j < |s| ==> IsSpace(s[j])
    decreases |s| - i
  {
    if i < |s| && !IsSpace(s[i]) then WordEnd(s, i + 1) else i
  }

  /** The words that repeated `operator>>` extracts from `s`, starting at position `i`. */
  function WordsFrom(s: string, i: nat): seq<string>
    requires i <= |s|
    decreases |s| - i
  {
    var a := SpaceEnd(s, i);
    if a == |s| then []
    else
      var b := WordEnd(s, a);
      [s[a..b]] + WordsFrom(s, b)
  }

  function Words(s: string): seq<string> {
    WordsFrom(s, 0)
  }

  lemma {:induction false} SpaceEndIs(s: string, i: nat, j: nat)
    requires i <= j <= |s|
    requires forall k :: i <= k < j ==> IsSpace(s[k])
    requires j < |s| ==> !IsSpace(s[j])
    ensures SpaceEnd(s, i) == j
    decreases j - i
  {
    if i < j {
      SpaceEndIs(s, i + 1, j);
    }
  }

  lemma {:induction false} WordEndIs(s: string, i: nat, j: nat)
    requires i <= j <= |s|
    requires forall k :: i <= k < j ==> !IsSpace(s[k])
    requires j < |s| ==> IsSpace(s[j])
    ensures WordEnd(s, i) == j
    decreases j - i
  {
    if i < j {
      WordEndIs(s, i + 1, j);
    }
  }

  lemma {:induction false} WordEndChars(s: string, i: nat)
    requires i <= |s|
    ensures forall k :: i <= k < WordEnd(s, i) ==> !IsSpace(s[k])
    decreases |s| - i
  {
    if i < |s| && !IsSpace(s[i]) {
      WordEndChars(s, i + 1);
    }
  }

  lemma {:induction false} WordsAreWords(s: string, i: nat)
    requires i <= |s|
    ensures forall k :: 0 <= k < |WordsFrom(s, i)| ==> IsWord(WordsFrom(s, i)[k])
    decreases |s| - i
  {
    var a := SpaceEnd(s, i);
    if a < |s| {
      var b := WordEnd(s, a);
      WordEndChars(s, a);
      assert IsWord(s[a..b]);
      WordsAreWords(s, b);
    }
  }

  lemma {:induction false} SpaceEndShift(s: string, n: nat, t: string, i: nat)
    requires n <= |s| && s[n..] == t && i <= |t|
    ensures SpaceEnd(s, n + i) == n + SpaceEnd(t, i)
    decreases |t| - i
  {
    if i < |t| {
      assert s[n + i] == t[i];
      SpaceEndShift(s, n, t, i + 1);
    }
  }

  lemma {:induction false} WordEndShift(s: string, n: nat, t: string, i: nat)
    requires n <= |s| && s[n..] == t && i <= |t|
    ensures WordEnd(s, n + i) == n + WordEnd(t, i)
    decreases |t| - i
  {
    if i < |t| {
      assert s[n + i] == t[i];
      WordEndShift(s, n, t, i + 1);
    }
  }

  lemma {:induction false} SliceShift(s: string, n: nat, t: string, a: nat, b: nat)
    requires n <= |s| && s[n..] == t && a <= b <= |t|
    ensures s[n + a..n + b] == t[a..b]
  {
    forall k | 0 <= k < b - a ensures s[n + a..n + b][k] == t[a..b][k] {
      assert s[n..][a + k] == t[a + k];
    }
  }

  lemma {:induction false} FirstWordShift(s: string, n: nat, t: string, i: nat, b: nat)
    requires n <= |s| && s[n..] == t && i <= |t| && SpaceEnd(t, i) < |t| && WordEnd(t, SpaceEnd(t, i)) == b
    requires WordsFrom(s, n + b) == WordsFrom(t, b)
    ensures WordsFrom(s, n + i) == WordsFrom(t, i)
  {
    var a := SpaceEnd(t, i);
    SpaceEndShift(s, n, t, i);
    WordEndShift(s, n, t, a);
    SliceShift(s, n, t, a, b);
  }

  /** Text that has already been read does not matter. */
  lemma {:induction false} WordsShift(s: string, n: nat, t: string, i: nat)
    requires n <= |s| && s[n..] == t && i <= |t|
    ensures WordsFrom(s, n + i) == WordsFrom(t, i)
    decreases |t| - i
  {
    var a := SpaceEnd(t, i);
    if a < |t| {
      var b := WordEnd(t, a);
      WordsShift(s, n, t, b);
      FirstWordShift(s, n, t, i, b);
    } else {
      SpaceEndShift(s, n, t, i);
    }
  }

  /** White space in front changes nothing. */
  lemma {:induction false} WordsSkipSpace(s: string, i: nat)
    requires i < |s| && IsSpace(s[i])
    ensures WordsFrom(s, i) == WordsFrom(s, i + 1)
  {
    assert SpaceEnd(s, i) == SpaceEnd(s, i + 1);
  }

  /** A word followed by white space is read first, whatever comes after. */
  lemma {:induction false} WordsCons(w: string, c: char, s: string)
    requires IsWord(w) && IsSpace(c)
    ensures Words(w + [c] + s) == [w] + Words(s)
  {
    var t := w + [c] + s;
    assert forall k :: 0 <= k < |w| ==> t[k] == w[k];
    assert SpaceEnd(t, 0) == 0;
    WordEndIs(t, 0, |w|);
    assert WordsFrom(t, 0) == [t[0..|w|]] + WordsFrom(t, |w|);
    assert t[0..|w|] == w;
    WordsSkipSpace(t, |w|);
    assert t[|w| + 1..] == s;
    WordsShift(t, |w| + 1, s, 0);
  }

  lemma {:induction false} WordsOfNothing()
    ensures Words("") == []
  {
  }

  lemma {:induction false} WordsAfterSpace(c: char, s: string)
    requires IsSpace(c)
    ensures Words([c] + s) == Words(s)
  {
    var t := [c] + s;
    WordsSkipSpace(t, 0);
    assert t[1..] == s;
    WordsShift(t, 1, s, 0);
  }

  /** A word at the end of the text is read as well. */
  lemma {:induction false} WordsOfWord(w: string)
    requires IsWord(w)
    ensures Words(w) == [w]
  {
    assert SpaceEnd(w, 0) == 0;
    WordEndIs(w, 0, |w|);
    assert w[0..|w|] == w;
    assert WordsFrom(w, |w|) == [];
  }

  // ---------------------------------------------------------------- lines

  /** The position of the first `d` at or after `i`, or the end of the text. */
  function RunEnd(s: string, i: nat, d: char): (j: nat)
    requires i <= |s|
    ensures i <= j <= |s|
    decreases |s| - i
  {
    if i < |s| && s[i] != d then RunEnd(s, i + 1, d) else i
  }

  lemma {:induction false} RunEndStops(s: string, i: nat, d: char)
    requires i <= |s|
    ensures forall k :: i <= k < RunEnd(s, i, d) ==> s[k] != d
    ensures RunEnd(s, i, d) < |s| ==> s[RunEnd(s, i, d)] == d
    decreases |s| - i
  {
    if i < |s| && s[i] != d { RunEndStops(s, i + 1, d); }
  }

  lemma {:induction false} RunEndIs(s: string, i: nat, d: char, j: nat)
    requires i <= j <= |s|
    requires forall k :: i <= k < j ==> s[k] != d
    requires j < |s| ==> s[j] == d
    ensures RunEnd(s, i, d) == j
  {
    RunEndStops(s, i, d);
  }

  /** The lines that repeated `getline` extracts from `s`, starting at position `i`. */
  function LinesFrom(s: string, i: nat): seq<string>
    requires i <= |s|
    decreases |s| - i
  {
    if i == |s| then []
    else
      var j := RunEnd(s, i, '\n');
      [s[i..j]] + LinesFrom(s, if j < |s| then j + 1 else j)
  }

  function Lines(s: string): seq<string> {
    LinesFrom(s, 0)
  }

  lemma {:induction false} RunEndShift(s: string, n: nat, t: string, i: nat, d: char)
    requires n <= |s| && s[n..] == t && i <= |t|
    ensures RunEnd(s, n + i, d) == n + RunEnd(t, i, d)
    decreases |t| - i
  {
    if i < |t| {
      assert s[n + i] == t[i];
      RunEndShift(s, n, t, i + 1, d);
    }
  }

  lemma {:induction false} FirstLineOf(s: string, i: nat, j: nat)
    requires i < |s| && RunEnd(s, i, '\n') == j
    ensures j == |s| ==> LinesFrom(s, i) == [s[i..j]]
    ensures j < |s| ==> LinesFrom(s, i) == [s[i..j]] + LinesFrom(s, j + 1)
  {
  }

  lemma {:induction false} RunShift(s: string, n: nat, t: string, i: nat, d: char)
    requires n <= |s| && s[n..] == t && i <= |t|
    ensures var e := RunEnd(t, i, d); RunEnd(s, n + i, d) == n + e && s[n + i..n + e] == t[i..e]
  {
    RunEndShift(s, n, t, i, d);
    SliceShift(s, n, t, i, RunEnd(t, i, d));
  }

  lemma {:induction false} FirstLineShift(s: string, n: nat, t: string, i: nat, j: nat)
    requires n <= |s| && s[n..] == t && i < |t| && RunEnd(t, i, '\n') == j
    requires j < |t| ==> LinesFrom(s, n + (j + 1)) == LinesFrom(t, j + 1)
    ensures LinesFrom(s, n + i) == LinesFrom(t, i)
  {
    RunShift(s, n, t, i, '\n');
    FirstLineOf(t, i, j);
    FirstLineOf(s, n + i, n + j);
  }

  lemma {:induction false} LinesShift(s: string, n: nat, t: string, i: nat)
    requires n <= |s| && s[n..] == t && i <= |t|
    ensures LinesFrom(s, n + i) == LinesFrom(t, i)
    decreases |t| - i
  {
    if i < |t| {
      var j := RunEnd(t, i, '\n');
      if j < |t| {
        LinesShift(s, n, t, j + 1);
      }
      FirstLineShift(s, n, t, i, j);
    }
  }

  lemma {:induction false} LinesOfNothing()
    ensures Lines("") == []
  {
  }

  /** A line with its end, whatever comes after. */
  lemma {:induction false} LinesCons(l: string, s: string)
    requires '\n' !in l
    ensures Lines(l + "\n" + s) == [l] + Lines(s)
  {
    var t := l + "\n" + s;
    assert forall k :: 0 <= k < |l| ==> t[k] == l[k] && t[k] in l;
    assert t[|l|] == '\n';
    RunEndIs(t, 0, '\n', |l|);
    assert t[0..|l|] == l;
    assert t[|l| + 1..] == s;
    LinesShift(t, |l| + 1, s, 0);
  }

  /** A last line without an end is a line as well. */
  lemma {:induction false} LinesOfLine(l: string)
    requires l != "" && '\n' !in l
    ensures Lines(l) == [l]
  {
    assert forall k :: 0 <= k < |l| ==> l[k] in l;
    RunEndIs(l, 0, '\n', |l|);
    assert l[0..|l|] == l;
    assert LinesFrom(l, |l|) == [];
  }

  /** No line has a line end in it. */
  lemma {:induction false} LinesHaveNoEnd(s: string, i: nat)
    requires i <= |s|
    ensures forall k :: 0 <= k < |LinesFrom(s, i)| ==> '\n' !in LinesFrom(s, i)[k]
    decreases |s| - i
  {
    if i < |s| {
      var j := RunEnd(s, i, '\n');
      RunEndStops(s, i, '\n');
      assert '\n' !in s[i..j];
      LinesHaveNoEnd(s, if j < |s| then j + 1 else j);
    }
  }

  // ---------------------------------------------------------------- decimal numbers

  function Digit(d: nat): (c: char)
    requires d < 10
    ensures DigitValue(c) == Some(d)
    ensures !IsSpace(c)
  {
    '0' + d as char
  }

  function DigitValue(c: char): Option<nat> {
    if '0' <= c <= '9' then Some((c - '0') as nat) else None
  }

  /** `std::to_string` of a non-negative number. */
  function ToString(n: nat): (s: string)
    ensures IsWord(s)
    ensures forall i :: 0 <= i < |s| ==> DigitValue(s[i]).Some?
  {
    if n < 10 then [Digit(n)] else ToString(n / 10) + [Digit(n % 10)]
  }

  /** The value of a string of decimal digits. */
  function Decimal(s: string): nat
    requires forall i :: 0 <= i < |s| ==> DigitValue(s[i]).Some?
  {
    if s == "" then 0
    else Decimal(s[..|s| - 1]) * 10 + DigitValue(s[|s| - 1]).value
  }

  /** The end of the run of decimal digits that starts at `i`. */
  function DigitEnd(s: string, i: nat): (j: nat)
    requires i <= |s|
    ensures i <= j <= |s|
    ensures forall k :: i <= k < j ==> DigitValue(s[k]).Some?
    ensures j < |s| ==> DigitValue(s[j]).None?
    decreases |s| - i
  {
    if i < |s| && DigitValue(s[i]).Some? then DigitEnd(s, i + 1) else i
  }

  /** `std::stoi`: leading white space, an optional sign, then at least one digit; what
      follows the digits is ignored. `None` is the exception for a missing number. */
  function Stoi(s: string): Option<int> {
    var a := SpaceEnd(s, 0);
    var signed := a < |s| && (s[a] == '+' || s[a] == '-');
    var b := if signed then a + 1 else a;
    var e := DigitEnd(s, b);
    if e == b then None
    else
      var magnitude: int := Decimal(s[b..e]);
      Some(if signed && s[a] == '-' then -magnitude else magnitude)
  }

  lemma {:induction false} DecimalToString(n: nat)
    ensures Decimal(ToString(n)) == n
  {
    var s := ToString(n);
    if n < 10 {
      assert s[..0] == "";
    } else {
      DecimalToString(n / 10);
      assert s[..|s| - 1] == ToString(n / 10);
    }
  }

  /** `stoi(to_string(n)) == n`; hence `to_string` never maps two numbers to one string. */
  lemma {:induction false} StoiToString(n: nat)
    ensures Stoi(ToString(n)) == Some(n)
  {
    var s := ToString(n);
    SpaceEndIs(s, 0, 0);
    assert DigitValue(s[0]).Some?;
    assert DigitEnd(s, 0) == |s|;
    assert s[0..|s|] == s;
    DecimalToString(n);
  }

  predicate IsDigits(s: string) {
    forall i :: 0 <= i < |s| ==> '0' <= s[i] <= '9'
  }

  /** One more digit at the end. */
  lemma {:induction false} DecimalSnoc(s: string, c: char)
    requires IsDigits(s) && '0' <= c <= '9'
    ensures Decimal("") == 0 && Decimal(s + [c]) == Decimal(s) * 10 + (c as int - '0' as int)
  {
    assert (s + [c])[..|s|] == s;
  }

  /** `to_string` writes the digits of the number, without a zero in front. */
  lemma {:induction false} ToStringIs(n: nat)
    ensures IsDigits(ToString(n)) && Decimal(ToString(n)) == n
    ensures ToString(n)[0] == '0' <==> n == 0
  {
    DecimalToString(n);
    if n >= 10 {
      ToStringIs(n / 10);
    }
  }

  lemma {:induction false} DigitEndIs(s: string, i: nat, j: nat)
    requires i <= j <= |s| && (forall k :: i <= k < j ==> '0' <= s[k] <= '9')
    requires j < |s| ==> !('0' <= s[j] <= '9')
    ensures DigitEnd(s, i) == j
    decreases j - i
  {
    if i < j { DigitEndIs(s, i + 1, j); }
  }

  lemma {:induction false} DigitEndShift(s: string, n: nat, t: string, i: nat)
    requires n <= |s| && s[n..] == t && i <= |t|
    ensures DigitEnd(s, n + i) == n + DigitEnd(t, i)
    decreases |t| - i
  {
    if i < |t| {
      assert s[n + i] == t[i];
      if DigitValue(t[i]).Some? {
        DigitEndShift(s, n, t, i + 1);
      }
    }
  }

  lemma {:induction false} StoiAt(s: string, a: nat, signed: bool, digits: string)
    requires SpaceEnd(s, 0) == a && (signed <==> a < |s| && (s[a] == '+' || s[a] == '-'))
    requires var b := if signed then a + 1 else a; s[b..DigitEnd(s, b)] == digits
    ensures Stoi(s) == if digits == "" then None
                       else Some(if signed && s[a] == '-' then -(Decimal(digits) as int) else Decimal(digits))
  {
  }

  lemma {:induction false} DigitsShift(s: string, n: nat, t: string, i: nat)
    requires n <= |s| && s[n..] == t && i <= |t|
    ensures s[n + i..DigitEnd(s, n + i)] == t[i..DigitEnd(t, i)]
  {
    DigitEndShift(s, n, t, i);
    SliceShift(s, n, t, i, DigitEnd(t, i));
  }

  lemma {:induction false} StoiShift(s: string, t: string)
    requires s != "" && s[1..] == t && SpaceEnd(s, 0) == SpaceEnd(s, 1)
    ensures Stoi(s) == Stoi(t)
  {
    var a := SpaceEnd(t, 0);
    SpaceEndShift(s, 1, t, 0);
    assert a < |t| ==> s[1 + a] == t[a];
    var signed := a < |t| && (t[a] == '+' || t[a] == '-');
    var b := if signed then a + 1 else a;
    DigitsShift(s, 1, t, b);
    var digits := t[b..DigitEnd(t, b)];
    StoiAt(t, a, signed, digits);
    StoiAt(s, 1 + a, signed, digits);
  }

  /** `stoi` skips white space in front. */
  lemma {:induction false} StoiAfterSpace(c: char, t: string)
    requires IsSpace(c)
    ensures Stoi([c] + t) == Stoi(t)
  {
    var s := [c] + t;
    assert s[1..] == t;
    StoiShift(s, t);
  }

  lemma {:induction false} StoiDigits(front: string, digits: string, rest: string)
    requires IsDigits(digits) && (rest != "" ==> !('0' <= rest[0] <= '9'))
    ensures DigitEnd(front + digits + rest, |front|) == |front| + |digits|
    ensures (front + digits + rest)[|front|..|front| + |digits|] == digits
  {
    DigitEndIs(front + digits + rest, |front|, |front| + |digits|);
  }

  /** Which texts `stoi` takes for which numbers once the white space is skipped. */
  lemma {:induction false} StoiIs(sign: string, digits: string, rest: string)
    requires sign == "" || sign == "+" || sign == "-"
    requires IsDigits(digits) && (rest != "" ==> !('0' <= rest[0] <= '9'))
    requires digits == "" && sign == "" && rest != "" ==> !IsSpace(rest[0]) && rest[0] != '+' && rest[0] != '-'
    ensures Stoi(sign + digits + rest) ==
            if digits == "" then None else Some(if sign == "-" then -(Decimal(digits) as int) else Decimal(digits))
  {
    var s := sign + digits + rest;
    assert s != "" ==> s[0] == if sign != "" then sign[0] else if digits != "" then digits[0] else rest[0];
    SpaceEndIs(s, 0, 0);
    StoiDigits(sign, digits, rest);
    StoiAt(s, 0, sign != "", digits);
  }

  // ---------------------------------------------------------------- the order of std::string

  /** `a <= b` in the lexicographic order that `std::map` and `std::sort` use. */
  predicate Leq(a: string, b: string) {
    a == "" || (b != "" && (a[0] < b[0] || (a[0] == b[0] && Leq(a[1..], b[1..]))))
  }

  predicate Less(a: string, b: string) {
    Leq(a, b) && a != b
  }

  /** `a` is in front of `b`, or smaller where they first differ. */
  lemma {:induction false} LeqIs(a: string, b: string)
    ensures Leq(a, b) <==> a <= b || exists k :: 0 <= k < |a| && k < |b| && a[..k] == b[..k] && a[k] < b[k]
  {
    if a != "" && b != "" {
      var a', b' := a[1..], b[1..];
      if a[0] == b[0] {
        LeqIs(a', b');
        assert a == [a[0]] + a' && b == [b[0]] + b';
        if k :| 0 <= k < |a'| && k < |b'| && a'[..k] == b'[..k] && a'[k] < b'[k] {
          assert a[..k + 1] == [a[0]] + a'[..k] && b[..k + 1] == [b[0]] + b'[..k];
          assert a[k + 1] < b[k + 1];
        }
        if k :| 0 <= k < |a| && k < |b| && a[..k] == b[..k] && a[k] < b[k] {
          SamePrefixTail(a, b, k);
        }
      } else {
        assert a[..0] == b[..0];
        assert forall k :: 0 < k < |a| && k < |b| ==> a[..k][0] == a[0] && b[..k][0] == b[0];
      }
    }
  }

  lemma {:induction false} SamePrefixTail(a: string, b: string, k: nat)
    requires 0 < k < |a| && k < |b| && a[..k] == b[..k]
    ensures a[1..][..k - 1] == b[1..][..k - 1]
  {
    assert a[1..][..k - 1] == a[..k][1..] && b[1..][..k - 1] == b[..k][1..];
  }

  lemma {:induction false} LeqTotal(a: string, b: string)
    ensures Leq(a, b) || Leq(b, a)
    ensures Leq(a, a)
  {
    if a != "" {
      if b != "" {
        LeqTotal(a[1..], b[1..]);
      } else {
        LeqTotal(a[1..], b);
      }
    }
  }

  lemma {:induction false} LeqAntisymmetric(a: string, b: string)
    requires Leq(a, b) && Leq(b, a)
    ensures a == b
  {
    if a != "" {
      LeqAntisymmetric(a[1..], b[1..]);
      assert a == [a[0]] + a[1..] && b == [b[0]] + b[1..];
    }
  }

  lemma {:induction false} LeqTransitive(a: string, b: string, c: string)
    requires Leq(a, b) && Leq(b, c)
    ensures Leq(a, c)
  {
    if a != "" && a[0] == b[0] == c[0] {
      LeqTransitive(a[1..], b[1..], c[1..]);
    }
  }

  /** Strictly increasing, hence without repetition. */
  ghost predicate StrictlySorted(s: seq<string>) {
    forall i, j :: 0 <= i < j < |s| ==> Less(s[i], s[j])
  }

  lemma {:induction false} LeastExists(s: set<string>)
    requires s != {}
    ensures exists k :: k in s && forall j :: j in s ==> Leq(k, j)
  {
    var x :| x in s;
    LeqTotal(x, x);
    var rest := s - {x};
    if rest == {} {
      assert forall j :: j in s ==> j == x || j in rest;
    } else {
      LeastExists(rest);
      var k :| k in rest && forall j :: j in rest ==> Leq(k, j);
      LeqTotal(k, x);
      LeqTotal(k, k);
      LeastOfBoth(s, x, k, if Leq(k, x) then k else x);
    }
  }

  lemma {:induction false} LeastOfBoth(s: set<string>, x: string, k: string, least: string)
    requires x in s && k in s - {x} && forall j :: j in s - {x} ==> Leq(k, j)
    requires Leq(least, x) && Leq(least, k) && (least == x || least == k)
    ensures least in s && forall j :: j in s ==> Leq(least, j)
  {
    forall j | j in s ensures Leq(least, j) {
      if j != x {
        assert j in s - {x};
        LeqTransitive(least, k, j);
      }
    }
  }

  lemma {:induction false} LeastIsUnique(s: set<string>)
    ensures forall k, k' :: k in s && k' in s && (forall j :: j in s ==> Leq(k, j)) && (forall j :: j in s ==> Leq(k', j)) ==> k == k'
  {
    forall k, k' | k in s && k' in s && (forall j :: j in s ==> Leq(k, j)) && (forall j :: j in s ==> Leq(k', j)) ensures k == k' {
      LeqAntisymmetric(k, k');
    }
  }

  /** The keys of a `std::map`, in the order in which iterating over it meets them. */
  function SortedKeys(s: set<string>): (ks: seq<string>)
    ensures StrictlySorted(ks)
    ensures forall k :: k in ks <==> k in s
  {
    if s == {} then []
    else
      LeastExists(s);
      LeastIsUnique(s);
      var k :| k in s && forall j :: j in s ==> Leq(k, j);
      var rest := SortedKeys(s - {k});
      assert forall i :: 0 <= i < |rest| ==> rest[i] in rest;
      [k] + rest
  }

  /** A strictly sorted list begins with its least element, which does not occur again. */
  lemma {:induction false} StrictlySortedFirst(s: seq<string>, k: string)
    requires StrictlySorted(s) && s != []
    ensures k in s[1..] <==> k in s && k != s[0]
    ensures k in s ==> Leq(s[0], k)
    ensures StrictlySorted(s[1..])
  {
    LeqTotal(s[0], s[0]);
    assert s == [s[0]] + s[1..];
    if k in s[1..] {
      var i :| 0 <= i < |s| - 1 && s[1..][i] == k;
      assert Less(s[0], s[i + 1]);
    }
  }

  /** A strictly sorted list is determined by its elements. */
  lemma {:induction false} StrictlySortedUnique(a: seq<string>, b: seq<string>)
    requires StrictlySorted(a) && StrictlySorted(b)
    requires forall k :: k in a <==> k in b
    ensures a == b
  {
    assert a != [] ==> a[0] in a;
    assert b != [] ==> b[0] in b;
    if a != [] && b != [] {
      SameFirst(a, b);
      forall k ensures k in a[1..] <==> k in b[1..] {
        StrictlySortedFirst(a, k);
        StrictlySortedFirst(b, k);
      }
      StrictlySortedFirst(a, a[0]);
      StrictlySortedFirst(b, b[0]);
      StrictlySortedUnique(a[1..], b[1..]);
      assert a == [a[0]] + a[1..] && b == [b[0]] + b[1..];
    }
  }

  lemma {:induction false} SameFirst(a: seq<string>, b: seq<string>)
    requires StrictlySorted(a) && StrictlySorted(b) && a != [] && b != []
    requires forall k :: k in a <==> k in b
    ensures a[0] == b[0]
  {
    assert a[0] in a && b[0] in b;
    StrictlySortedFirst(a, b[0]);
    StrictlySortedFirst(b, a[0]);
    LeqAntisymmetric(a[0], b[0]);
  }

  // ---------------------------------------------------------------- sequences

  lemma {:induction false} Assoc<T>(a: seq<T>, b: seq<T>, c: seq<T>)
    ensures a + (b + c) == (a + b) + c
  {
  }

  lemma {:induction false} EmptyEnds<T>(a: seq<T>)
    ensures a + [] == a && [] + a == a
  {
  }

  /** A sequence by its front and its last element, also after another one. */
  lemma {:induction false} ByLast<T>(a: seq<T>, b: seq<T>)
    requires b != []
    ensures b == b[..|b| - 1] + [b[|b| - 1]]
    ensures a + b == (a + b[..|b| - 1]) + [b[|b| - 1]]
  {
  }
}
